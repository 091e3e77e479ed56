/**
  The parsed skin and the addresses of its controls
  (crates/dm-dmf/src/lib.rs:232-400, 930-1090).
 */
module ControlTrees {
  import opened Wrappers
  import opened Strings

  datatype ControlType =
    MainType | MapType | BrowserType | InputType | OutputType | LabelType | ButtonType | UnknownType

  datatype Property = Property(key: string, value: string)

  datatype Control = Control(id: Option<string>, kind: ControlType, properties: seq<Property>)

  datatype Window = Window(id: string, controls: seq<Control>)

  /** `auxiliary` holds the macro and menu sections under the ids `macro:name` and `menu:name`. */
  datatype ControlTree = ControlTree(windows: seq<Window>, auxiliary: seq<Window>)

  // ---- ASCII case ----

  function LowerChar(c: char): char {
    if 'A' <= c <= 'Z' then (c as int - 'A' as int + 'a' as int) as char else c
  }

  function Lower(s: string): (t: string)
    ensures |t| == |s|
  {
    seq(|s|, i requires 0 <= i < |s| => LowerChar(s[i]))
  }

  predicate SameName(a: string, b: string) {
    Lower(a) == Lower(b)
  }

  function TypeNamed(name: string): ControlType {
    var lower := Lower(name);
    if lower == "main" then MainType
    else if lower == "map" then MapType
    else if lower == "browser" then BrowserType
    else if lower == "input" then InputType
    else if lower == "output" then OutputType
    else if lower == "label" then LabelType
    else if lower == "button" then ButtonType
    else UnknownType
  }

  // ---- lookup ----

  /** The last declaration of a property wins. */
  function Declared(properties: seq<Property>, name: string): Option<string> {
    if properties == [] then None
    else
      var n := |properties| - 1;
      if SameName(properties[n].key, name) then Some(properties[n].value) else Declared(properties[..n], name)
  }

  function ControlNamed(controls: seq<Control>, id: string): Option<Control> {
    if controls == [] then None
    else if controls[0].id == Some(id) then Some(controls[0])
    else ControlNamed(controls[1..], id)
  }

  /** A section is addressed by its id, or by its name without the `macro:` or `menu:` prefix. */
  predicate Names(id: string, namespace: string) {
    id == namespace || id == "macro:" + namespace || id == "menu:" + namespace
  }

  function WindowWithId(windows: seq<Window>, id: string): Option<Window> {
    if windows == [] then None
    else if windows[0].id == id then Some(windows[0])
    else WindowWithId(windows[1..], id)
  }

  function Section(sections: seq<Window>, namespace: string): Option<Window> {
    if sections == [] then None
    else if Names(sections[0].id, namespace) then Some(sections[0])
    else Section(sections[1..], namespace)
  }

  lemma {:induction false} SectionAnswers(sections: seq<Window>, namespace: string)
    ensures Section(sections, namespace).Some? ==> Names(Section(sections, namespace).value.id, namespace)
  {
    if sections != [] && !Names(sections[0].id, namespace) {
      SectionAnswers(sections[1..], namespace);
    }
  }

  function Addressable(tree: ControlTree, namespace: string, id: string): Option<Control> {
    var window := WindowWithId(tree.windows, namespace);
    var control := if window.Some? then ControlNamed(window.value.controls, id) else None;
    if control.Some? then control
    else
      var section := Section(tree.auxiliary, namespace);
      if section.Some? then ControlNamed(section.value.controls, id) else None
  }

  // ---- `:type` selectors ----

  predicate Below(a: string, b: string) {
    if b == "" then false
    else if a == "" then true
    else a[0] < b[0] || (a[0] == b[0] && Below(a[1..], b[1..]))
  }

  datatype Candidate = Candidate(window: string, control: Control)

  predicate IsDefault(control: Control) {
    var value := Declared(control.properties, "is-default");
    value.Some? && Lower(Trim(value.value)) in {"true", "yes", "1"}
  }

  function IdOf(control: Control): string {
    if control.id.Some? then control.id.value else ""
  }

  /** Default controls first, then by window and control id. */
  predicate Precedes(a: Candidate, b: Candidate) {
    if IsDefault(a.control) != IsDefault(b.control) then IsDefault(a.control)
    else if a.window != b.window then Below(a.window, b.window)
    else Below(IdOf(a.control), IdOf(b.control))
  }

  function OfType(window: Window, controls: seq<Control>, kind: ControlType): seq<Candidate> {
    if controls == [] then []
    else
      var rest := OfType(window, controls[1..], kind);
      if controls[0].kind == kind then [Candidate(window.id, controls[0])] + rest else rest
  }

  function AllOfType(windows: seq<Window>, kind: ControlType): seq<Candidate> {
    if windows == [] then []
    else OfType(windows[0], windows[0].controls, kind) + AllOfType(windows[1..], kind)
  }

  /** The first candidate that no other precedes. */
  function First(candidates: seq<Candidate>): Option<Candidate> {
    if candidates == [] then None
    else
      var rest := First(candidates[1..]);
      if rest.Some? && Precedes(rest.value, candidates[0]) then rest else Some(candidates[0])
  }

  /** What a `:type` address selects, if it is one and the skin has an identified candidate. */
  function Selected(tree: ControlTree, address: string): Option<(string, string)> {
    if address == "" || address[0] != ':' || TypeNamed(address[1..]) == UnknownType then None
    else
      var first := First(AllOfType(tree.windows + tree.auxiliary, TypeNamed(address[1..])));
      if first.None? || first.value.control.id.None? then None
      else Some((first.value.window, first.value.control.id.value))
  }
}
