/**
  Prefix codecs over byte strings, the shape shared by the compiler database,
  the stable-ID table, the parsed-syntax cache and the replay file.

  A reader consumes a prefix of the remaining input and returns what is left,
  which is how the source's `Cursor` moves. A codec is lawful when its reader
  and its writer are inverse in both directions.
 */
module Codecs {
  import opened Wrappers
  import opened MachineIntegers
  import opened Collections

  type byte = x: int | 0 <= x < 256

  /** Error categories of the readers; messages are not modelled. */
  datatype Error = Io | Format | Limit

  type Reading<+T> = Result<(T, seq<byte>), Error>

  /**
    `fits` holds of the values that exist in memory (lengths and integers below
    2^64, text that is UTF-8); `valid` of those the reader accepts.
   */
  datatype Codec<!T> = Codec(
    encode: T -> seq<byte>,
    decode: seq<byte> -> Reading<T>,
    fits: T -> bool,
    valid: T -> bool)

  /** Reading what was written gives the value back and the rest untouched, or fails. */
  ghost predicate ReadsWritten<T(!new)>(c: Codec<T>) {
    forall x, rest :: c.fits(x) ==>
      if c.valid(x) then c.decode(c.encode(x) + rest) == Success((x, rest))
      else c.decode(c.encode(x) + rest).Failure?
  }

  /** Whatever is read is exactly the writing of the value read. */
  ghost predicate WritesRead<T(!new)>(c: Codec<T>) {
    forall b :: c.decode(b).Success? ==>
      && c.fits(c.decode(b).value.0)
      && c.valid(c.decode(b).value.0)
      && b == c.encode(c.decode(b).value.0) + c.decode(b).value.1
  }

  ghost predicate Lawful<T(!new)>(c: Codec<T>) {
    ReadsWritten(c) && WritesRead(c)
  }

  /** The bytes are the characters of `s`, which are all ASCII. */
  predicate Spells(bytes: seq<byte>, s: string) {
    |bytes| == |s| && forall i :: 0 <= i < |s| ==> bytes[i] == s[i] as int
  }

  // ---- fixed-width little-endian integers ----

  function LittleEndian(width: nat, value: nat): (bytes: seq<byte>)
    ensures |bytes| == width
  {
    if width == 0 then [] else [value % 256] + LittleEndian(width - 1, value / 256)
  }

  function FromLittleEndian(bytes: seq<byte>): nat {
    if bytes == [] then 0 else bytes[0] + 256 * FromLittleEndian(bytes[1..])
  }

  function Power256(n: nat): (p: nat)
    ensures p > 0
  {
    if n == 0 then 1 else 256 * Power256(n - 1)
  }

  lemma {:induction false} LittleEndianRoundTrip(width: nat, value: nat)
    requires value < Power256(width)
    ensures FromLittleEndian(LittleEndian(width, value)) == value
  {
    if width > 0 {
      LittleEndianRoundTrip(width - 1, value / 256);
      assert LittleEndian(width, value)[1..] == LittleEndian(width - 1, value / 256);
    }
  }

  lemma {:induction false} FromLittleEndianRoundTrip(bytes: seq<byte>)
    ensures FromLittleEndian(bytes) < Power256(|bytes|)
    ensures LittleEndian(|bytes|, FromLittleEndian(bytes)) == bytes
  {
    if bytes != [] {
      FromLittleEndianRoundTrip(bytes[1..]);
      var n := FromLittleEndian(bytes);
      assert n % 256 == bytes[0] && n / 256 == FromLittleEndian(bytes[1..]);
      assert bytes == [bytes[0]] + bytes[1..];
    }
  }

  lemma Widths()
    ensures Power256(8) == U64_LIMIT && Power256(4) == U32_LIMIT && Power256(1) == 256
  {
    assert Power256(2) == 256 * Power256(1);
    assert Power256(4) == 256 * Power256(3);
    assert Power256(6) == 256 * Power256(5);
    assert Power256(7) == 256 * Power256(6);
  }

  function IntCodec(width: nat): Codec<nat> {
    Codec(
      x => LittleEndian(width, x),
      b => if |b| < width then Failure(Io) else Success((FromLittleEndian(b[..width]), b[width..])),
      x => x < Power256(width),
      x => x < Power256(width))
  }

  lemma IntLawful(width: nat)
    ensures Lawful(IntCodec(width))
  {
    var c := IntCodec(width);
    forall x: nat, rest | c.fits(x)
      ensures c.decode(c.encode(x) + rest) == Success((x, rest))
    {
      LittleEndianRoundTrip(width, x);
      assert (c.encode(x) + rest)[..width] == c.encode(x);
      assert (c.encode(x) + rest)[width..] == rest;
    }
    forall b | c.decode(b).Success?
      ensures c.fits(c.decode(b).value.0) && b == c.encode(c.decode(b).value.0) + c.decode(b).value.1
    {
      FromLittleEndianRoundTrip(b[..width]);
      assert b == b[..width] + b[width..];
    }
  }

  // ---- raw runs of bytes ----

  /** `read_exact` into a fixed array. */
  function FixedCodec(width: nat): Codec<seq<byte>> {
    Codec(
      x => x,
      b => if |b| < width then Failure(Io) else Success((b[..width], b[width..])),
      x => |x| == width,
      x => |x| == width)
  }

  lemma FixedLawful(width: nat)
    ensures Lawful(FixedCodec(width))
  {
    var c := FixedCodec(width);
    forall x, rest | c.fits(x)
      ensures c.decode(c.encode(x) + rest) == Success((x, rest))
    {
      assert (x + rest)[..width] == x && (x + rest)[width..] == rest;
    }
  }

  // ---- combinators ----

  function PairCodec<A, B>(a: Codec<A>, b: Codec<B>): Codec<(A, B)> {
    Codec(
      (p: (A, B)) => a.encode(p.0) + b.encode(p.1),
      input => PairDecode(a, b, input),
      (p: (A, B)) => a.fits(p.0) && b.fits(p.1),
      (p: (A, B)) => a.valid(p.0) && b.valid(p.1))
  }

  function PairDecode<A, B>(a: Codec<A>, b: Codec<B>, input: seq<byte>): Reading<(A, B)> {
    var (x, rest) :- a.decode(input);
    var (y, last) :- b.decode(rest);
    Success(((x, y), last))
  }

  lemma PairLawful<A(!new), B(!new)>(a: Codec<A>, b: Codec<B>)
    requires Lawful(a) && Lawful(b)
    ensures Lawful(PairCodec(a, b))
  {
    var c := PairCodec(a, b);
    forall p: (A, B), rest | c.fits(p)
      ensures if c.valid(p) then c.decode(c.encode(p) + rest) == Success((p, rest))
              else c.decode(c.encode(p) + rest).Failure?
    {
      Regroup(a.encode(p.0), b.encode(p.1), rest);
    }
    forall input | c.decode(input).Success?
      ensures var r := c.decode(input).value; c.fits(r.0) && c.valid(r.0) && input == c.encode(r.0) + r.1
    {
      var (x, rest) := a.decode(input).value;
      var (y, last) := b.decode(rest).value;
      Regroup(a.encode(x), b.encode(y), last);
    }
  }

  /** Views the values of `c` as values of another type; `build` may be one-sided. */
  function MapCodec<A, B(==)>(c: Codec<A>, build: A -> B, parts: B -> A): Codec<B> {
    Codec(
      x => c.encode(parts(x)),
      input => MapDecode(c, build, input),
      x => c.fits(parts(x)) && build(parts(x)) == x,
      x => c.valid(parts(x)))
  }

  function MapDecode<A, B>(c: Codec<A>, build: A -> B, input: seq<byte>): Reading<B> {
    var (x, rest) :- c.decode(input);
    Success((build(x), rest))
  }

  lemma MapLawful<A(!new), B(!new)>(c: Codec<A>, build: A -> B, parts: B -> A)
    requires Lawful(c)
    requires forall a :: parts(build(a)) == a
    ensures Lawful(MapCodec(c, build, parts))
  {
  }

  /** Reads with `c`, then rejects values outside `check`. */
  function RefineCodec<T>(c: Codec<T>, check: T -> bool, error: Error): Codec<T> {
    Codec(
      c.encode,
      input => RefineDecode(c, check, error, input),
      c.fits,
      x => c.valid(x) && check(x))
  }

  function RefineDecode<T>(c: Codec<T>, check: T -> bool, error: Error, input: seq<byte>): Reading<T> {
    var (x, rest) :- c.decode(input);
    if check(x) then Success((x, rest)) else Failure(error)
  }

  lemma RefineLawful<T(!new)>(c: Codec<T>, check: T -> bool, error: Error)
    requires Lawful(c)
    ensures Lawful(RefineCodec(c, check, error))
  {
  }

  // ---- counted sequences ----

  function EncodeAll<T>(c: Codec<T>, items: seq<T>): seq<byte> {
    if items == [] then [] else c.encode(items[0]) + EncodeAll(c, items[1..])
  }

  function DecodeMany<T>(c: Codec<T>, count: nat, input: seq<byte>): (r: Reading<seq<T>>)
    ensures r.Success? ==> |r.value.0| == count
  {
    if count == 0 then Success(([], input))
    else
      var (x, rest) :- c.decode(input);
      var (xs, last) :- DecodeMany(c, count - 1, rest);
      Success(([x] + xs, last))
  }

  predicate AllHold<T>(p: T -> bool, items: seq<T>) {
    forall i :: 0 <= i < |items| ==> p(items[i])
  }

  lemma {:induction false} ManyReadsWritten<T(!new)>(c: Codec<T>, items: seq<T>, rest: seq<byte>)
    requires ReadsWritten(c) && AllHold(c.fits, items)
    ensures if AllHold(c.valid, items)
            then DecodeMany(c, |items|, EncodeAll(c, items) + rest) == Success((items, rest))
            else DecodeMany(c, |items|, EncodeAll(c, items) + rest).Failure?
  {
    if items != [] {
      ManyReadsWritten(c, items[1..], rest);
      assert EncodeAll(c, items) + rest == c.encode(items[0]) + (EncodeAll(c, items[1..]) + rest);
      assert items == [items[0]] + items[1..];
      assert AllHold(c.valid, items) <==> c.valid(items[0]) && AllHold(c.valid, items[1..]);
    } else {
      assert EncodeAll(c, items) + rest == rest;
    }
  }

  lemma {:induction false} ManyWritesRead<T(!new)>(c: Codec<T>, count: nat, input: seq<byte>)
    requires WritesRead(c)
    requires DecodeMany(c, count, input).Success?
    ensures var r := DecodeMany(c, count, input).value;
      AllHold(c.fits, r.0) && AllHold(c.valid, r.0) && input == EncodeAll(c, r.0) + r.1
  {
    if count > 0 {
      var (x, rest) := c.decode(input).value;
      ManyWritesRead(c, count - 1, rest);
      var (xs, last) := DecodeMany(c, count - 1, rest).value;
      assert ([x] + xs)[1..] == xs;
      assert input == c.encode(x) + (EncodeAll(c, xs) + last);
      assert c.encode(x) + (EncodeAll(c, xs) + last) == EncodeAll(c, [x] + xs) + last;
    }
  }

  function CountedDecode<T>(c: Codec<T>, limit: nat, input: seq<byte>): Reading<seq<T>> {
    var (count, rest) :- IntCodec(8).decode(input);
    if count > limit then Failure(Limit) else DecodeMany(c, count, rest)
  }

  /** A 64-bit record count, refused above `limit`, then that many records. */
  function CountedCodec<T>(c: Codec<T>, limit: nat): Codec<seq<T>> {
    Codec(
      (items: seq<T>) => LittleEndian(8, |items|) + EncodeAll(c, items),
      input => CountedDecode(c, limit, input),
      (items: seq<T>) => |items| < U64_LIMIT && AllHold(c.fits, items),
      (items: seq<T>) => |items| <= limit && AllHold(c.valid, items))
  }

  lemma CountedReads<T(!new)>(c: Codec<T>, limit: nat, items: seq<T>, rest: seq<byte>)
    requires ReadsWritten(c) && AllHold(c.fits, items) && |items| < U64_LIMIT
    ensures var r := CountedDecode(c, limit, LittleEndian(8, |items|) + EncodeAll(c, items) + rest);
      if |items| <= limit && AllHold(c.valid, items) then r == Success((items, rest)) else r.Failure?
  {
    Widths();
    IntLawful(8);
    var body := EncodeAll(c, items) + rest;
    Regroup(LittleEndian(8, |items|), EncodeAll(c, items), rest);
    assert IntCodec(8).decode(IntCodec(8).encode(|items|) + body) == Success((|items|, body));
    ManyReadsWritten(c, items, rest);
  }

  lemma CountedWrites<T(!new)>(c: Codec<T>, limit: nat, input: seq<byte>)
    requires WritesRead(c)
    requires CountedDecode(c, limit, input).Success?
    ensures var (items, rest) := CountedDecode(c, limit, input).value;
      && |items| < U64_LIMIT && |items| <= limit && AllHold(c.fits, items) && AllHold(c.valid, items)
      && input == LittleEndian(8, |items|) + EncodeAll(c, items) + rest
  {
    Widths();
    IntLawful(8);
    var (count, body) := IntCodec(8).decode(input).value;
    assert input == IntCodec(8).encode(count) + body;
    ManyWritesRead(c, count, body);
    var (items, rest) := DecodeMany(c, count, body).value;
    Regroup(LittleEndian(8, count), EncodeAll(c, items), rest);
  }

  lemma CountedLawful<T(!new)>(c: Codec<T>, limit: nat)
    requires Lawful(c)
    ensures Lawful(CountedCodec(c, limit))
  {
    var k := CountedCodec(c, limit);
    forall items: seq<T>, rest | k.fits(items)
      ensures if k.valid(items) then k.decode(k.encode(items) + rest) == Success((items, rest))
              else k.decode(k.encode(items) + rest).Failure?
    {
      CountedReads(c, limit, items, rest);
    }
    forall input | k.decode(input).Success?
      ensures var r := k.decode(input).value; k.fits(r.0) && k.valid(r.0) && input == k.encode(r.0) + r.1
    {
      CountedWrites(c, limit, input);
    }
  }

  // ---- length-prefixed bytes ----

  function BytesDecode(width: nat, limit: nat, input: seq<byte>): Reading<seq<byte>> {
    var (length, rest) :- IntCodec(width).decode(input);
    if length > limit then Failure(Limit)
    else if |rest| < length then Failure(Io)
    else Success((rest[..length], rest[length..]))
  }

  /** A length of `width` bytes, refused above `limit`, then that many bytes. */
  function BytesCodec(width: nat, limit: nat): Codec<seq<byte>> {
    Codec(
      (x: seq<byte>) => LittleEndian(width, |x|) + x,
      input => BytesDecode(width, limit, input),
      (x: seq<byte>) => |x| < Power256(width),
      (x: seq<byte>) => |x| <= limit)
  }

  lemma BytesLawful(width: nat, limit: nat)
    ensures Lawful(BytesCodec(width, limit))
  {
    var k := BytesCodec(width, limit);
    IntLawful(width);
    forall x: seq<byte>, rest | k.fits(x)
      ensures if k.valid(x) then k.decode(k.encode(x) + rest) == Success((x, rest))
              else k.decode(k.encode(x) + rest).Failure?
    {
      assert k.encode(x) + rest == IntCodec(width).encode(|x|) + (x + rest);
      assert (x + rest)[..|x|] == x && (x + rest)[|x|..] == rest;
    }
    forall input | k.decode(input).Success?
      ensures var r := k.decode(input).value; k.fits(r.0) && k.valid(r.0) && input == k.encode(r.0) + r.1
    {
      var (length, rest) := IntCodec(width).decode(input).value;
      assert rest == rest[..length] + rest[length..];
      assert k.encode(rest[..length]) + rest[length..] == IntCodec(width).encode(length) + rest;
    }
  }

  // ---- tagged alternatives ----

  function TagDecode<T>(branch: byte -> Codec<T>, input: seq<byte>): Reading<T> {
    if input == [] then Failure(Io) else branch(input[0]).decode(input[1..])
  }

  /** One tag byte selects how the rest of the value is written. */
  function TagCodec<T>(tag: T -> byte, branch: byte -> Codec<T>): Codec<T> {
    Codec(
      x => [tag(x)] + branch(tag(x)).encode(x),
      input => TagDecode(branch, input),
      x => branch(tag(x)).fits(x),
      x => branch(tag(x)).valid(x))
  }

  lemma TagLawful<T(!new)>(tag: T -> byte, branch: byte -> Codec<T>)
    requires forall t :: Lawful(branch(t))
    requires forall t, x :: branch(t).fits(x) ==> tag(x) == t
    ensures Lawful(TagCodec(tag, branch))
  {
    var k := TagCodec(tag, branch);
    forall x, rest | k.fits(x)
      ensures if k.valid(x) then k.decode(k.encode(x) + rest) == Success((x, rest))
              else k.decode(k.encode(x) + rest).Failure?
    {
      assert (k.encode(x) + rest)[1..] == branch(tag(x)).encode(x) + rest;
    }
    forall input | k.decode(input).Success?
      ensures var r := k.decode(input).value; k.fits(r.0) && k.valid(r.0) && input == k.encode(r.0) + r.1
    {
      var t := input[0];
      var r := branch(t).decode(input[1..]).value;
      assert input == [t] + (branch(t).encode(r.0) + r.1);
      assert [t] + (branch(t).encode(r.0) + r.1) == k.encode(r.0) + r.1;
    }
  }

  /** A tag no writer produces and every reader refuses. */
  function NoCodec<T>(): Codec<T> {
    Codec(_ => [], _ => Failure(Format), _ => false, _ => false)
  }

  /** The one value a tag stands for by itself; it takes no bytes. */
  function ConstantCodec<T(==)>(value: T): Codec<T> {
    Codec(_ => [], b => Success((value, b)), x => x == value, x => x == value)
  }

  lemma ConstantLawful<T(!new)>(value: T)
    ensures Lawful(ConstantCodec(value))
  {
    assert forall rest: seq<byte> :: [] + rest == rest;
  }

  lemma NoLawful<T(!new)>()
    ensures Lawful(NoCodec<T>())
  {
  }

  // ---- text ----

  function TextDecode(utf8: seq<byte> -> bool, limit: nat, input: seq<byte>): Reading<seq<byte>> {
    RefineDecode(BytesCodec(8, limit), utf8, Format, input)
  }

  /** Length-prefixed text, kept as its bytes; every string in memory is UTF-8. */
  function TextCodec(utf8: seq<byte> -> bool, limit: nat): Codec<seq<byte>> {
    Codec(
      BytesCodec(8, limit).encode,
      input => TextDecode(utf8, limit, input),
      (x: seq<byte>) => |x| < U64_LIMIT && utf8(x),
      (x: seq<byte>) => |x| <= limit)
  }

  lemma TextLawful(utf8: seq<byte> -> bool, limit: nat)
    ensures Lawful(TextCodec(utf8, limit))
  {
    Widths();
    BytesLawful(8, limit);
    RefineLawful(BytesCodec(8, limit), utf8, Format);
    var c, d := TextCodec(utf8, limit), RefineCodec(BytesCodec(8, limit), utf8, Format);
    forall x: seq<byte>, rest | c.fits(x)
      ensures if c.valid(x) then c.decode(c.encode(x) + rest) == Success((x, rest))
              else c.decode(c.encode(x) + rest).Failure?
    {
      assert d.fits(x);
      assert c.decode(c.encode(x) + rest) == d.decode(d.encode(x) + rest);
    }
    forall b | c.decode(b).Success?
      ensures var r := c.decode(b).value; c.fits(r.0) && c.valid(r.0) && b == c.encode(r.0) + r.1
    {
      assert c.decode(b) == d.decode(b);
    }
  }

  // ---- the loops that write and read counted records ----

  lemma {:induction false} EncodeAllAppend<T>(c: Codec<T>, items: seq<T>, last: T)
    ensures EncodeAll(c, items + [last]) == EncodeAll(c, items) + c.encode(last)
  {
    if items == [] {
      assert [last][1..] == [];
    } else {
      EncodeAllAppend(c, items[1..], last);
      assert (items + [last])[1..] == items[1..] + [last];
    }
  }

  /** Appends every record to the output buffer, refusing the first oversized one. */
  method WriteAll<T>(c: Codec<T>, items: seq<T>, buffer: seq<byte>) returns (r: Result<seq<byte>, Error>)
    ensures r == if AllHold(c.valid, items) then Success(buffer + EncodeAll(c, items)) else Failure(Limit)
  {
    var output := buffer;
    for i := 0 to |items|
      invariant AllHold(c.valid, items[..i])
      invariant output == buffer + EncodeAll(c, items[..i])
    {
      if !c.valid(items[i]) {
        return Failure(Limit);
      }
      EncodeAllAppend(c, items[..i], items[i]);
      assert items[..i + 1] == items[..i] + [items[i]];
      output := output + c.encode(items[i]);
    }
    assert items[..|items|] == items;
    r := Success(output);
  }

  /** The same loop for records that have no size limit. */
  method AppendAll<T>(c: Codec<T>, items: seq<T>, buffer: seq<byte>) returns (output: seq<byte>)
    ensures output == buffer + EncodeAll(c, items)
  {
    output := buffer;
    for i := 0 to |items|
      invariant output == buffer + EncodeAll(c, items[..i])
    {
      EncodeAllAppend(c, items[..i], items[i]);
      assert items[..i + 1] == items[..i] + [items[i]];
      output := output + c.encode(items[i]);
    }
    assert items[..|items|] == items;
  }

  /** The records already read, put back in front of what the rest will give. */
  function Prepend<T>(items: seq<T>, r: Reading<seq<T>>): Reading<seq<T>> {
    match r
    case Success(v) => Success((items + v.0, v.1))
    case Failure(e) => Failure(e)
  }

  lemma PrependNothing<T>(r: Reading<seq<T>>)
    ensures Prepend([], r) == r
  {
    if r.Success? {
      assert [] + r.value.0 == r.value.0;
    }
  }

  lemma PrependDone<T>(c: Codec<T>, items: seq<T>, rest: seq<byte>)
    ensures Prepend(items, DecodeMany(c, 0, rest)) == Success((items, rest))
  {
    assert items + [] == items;
  }

  lemma PrependStep<T>(c: Codec<T>, items: seq<T>, count: nat, input: seq<byte>)
    requires count > 0
    ensures Prepend(items, DecodeMany(c, count, input)) ==
            match c.decode(input)
            case Failure(e) => Failure(e)
            case Success(v) => Prepend(items + [v.0], DecodeMany(c, count - 1, v.1))
  {
    if c.decode(input).Success? {
      var (x, rest) := c.decode(input).value;
      if DecodeMany(c, count - 1, rest).Success? {
        var xs := DecodeMany(c, count - 1, rest).value.0;
        assert items + ([x] + xs) == items + [x] + xs;
      }
    }
  }

  /** Reads `count` records, stopping at the first that fails. */
  method ReadAll<T>(c: Codec<T>, count: nat, input: seq<byte>) returns (r: Reading<seq<T>>)
    ensures r == DecodeMany(c, count, input)
  {
    var items: seq<T> := [];
    var rest := input;
    PrependNothing(DecodeMany(c, count, input));
    for i := 0 to count
      invariant DecodeMany(c, count, input) == Prepend(items, DecodeMany(c, count - i, rest))
    {
      PrependStep(c, items, count - i, rest);
      var next := c.decode(rest);
      if next.Failure? {
        return Failure(next.error);
      }
      items, rest := items + [next.value.0], next.value.1;
    }
    assert items + [] == items;
    r := Success((items, rest));
  }
}
