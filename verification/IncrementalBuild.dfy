/**
  A line of builds over one build directory: the compiler database file and the
  parsed-syntax cache beside it, read and rewritten by every build
  (crates/dm-compiler/src/lib.rs:222-367).
 */
module IncrementalBuild {
  import opened Wrappers
  import opened Codecs
  import opened Containers
  import opened DatabaseModel
  import opened DatabaseFile
  import opened Invalidation
  import opened Paging
  import opened StableIds
  import opened Builds
  import opened Lineage
  import opened SyntaxCache
  import opened Representation
  import opened SavedSizes
  import R = SyntaxRecords

  /** Everything a build is given: the loaded project and the two digests. */
  datatype Snapshot = Snapshot(files: seq<ProjectFile>, semantic: Digest, configuration: Digest)

  datatype Mode = Fresh | Incremental | Clean

  /** A file as it lies on disk. */
  datatype DiskFile = DiskFile(path: Text, contents: seq<byte>)

  /** Foreign stages: path normalisation, the loader, the code generator and its artifact format. */
  datatype Toolchain<!C, !E, !D> = Toolchain(
    platform: Platform,
    frontend: Frontend<E, D>,
    normalize: Text -> Text,
    load: (seq<DiskFile>, Digest, Digest) -> seq<ProjectFile>,
    compile: (Snapshot, seq<Option<R.SyntaxFile>>, seq<D>) -> C,
    nodes: C -> seq<Node>,
    segments: C -> seq<seq<byte>>,
    decode: seq<byte> -> Option<C>)

  datatype Disk = Disk(database: Option<seq<byte>>, syntax: Option<seq<byte>>)

  function Inputs<C, E, D>(tc: Toolchain<C, E, D>, files: seq<ProjectFile>): (r: seq<InputDependency>)
    ensures |r| == |files|
  {
    seq(|files|, i requires 0 <= i < |files| => InputOf(tc, files[i]))
  }

  function InputOf<C, E, D>(tc: Toolchain<C, E, D>, file: ProjectFile): InputDependency {
    InputDependency(tc.normalize(file.path), Digest32(tc.platform.md5, file.contents), |file.contents|)
  }

  function DiskFiles(files: seq<ProjectFile>): (r: seq<DiskFile>)
    ensures |r| == |files|
  {
    seq(|files|, i requires 0 <= i < |files| => DiskFile(files[i].path, files[i].contents))
  }

  /** The result of compiling from scratch. */
  function CleanResult<C, E, D>(tc: Toolchain<C, E, D>, s: Snapshot): C {
    tc.compile(s, SyntaxTable(tc.frontend, s.files), Diagnostics(tc.frontend, s.files))
  }

  // ---- one build ----

  function Prior<C, E, D>(tc: Toolchain<C, E, D>, disk: Disk, mode: Mode): Option<Database> {
    if mode != Incremental || disk.database.None? then None
    else
      match Load(DatabaseLayout(tc.platform), tc.platform, disk.database.value)
      case Success(db) => Some(db)
      case Failure(_) => None
  }

  /** The linked frontend is taken over when nothing it was built from has changed. */
  function Reusable<C, E, D>(tc: Toolchain<C, E, D>, prior: Option<Database>, s: Snapshot): Option<C> {
    if prior.None? || prior.value.semanticDigest != s.semantic || prior.value.buildDigest != s.configuration then None
    else if ChangedInputs(prior.value.inputs, Inputs(tc, s.files)) != [] then None
    else
      var payload := LinkedPayload(prior.value.sections);
      if payload.None? then None else tc.decode(payload.value)
  }

  function CachedSyntax<C, E, D>(tc: Toolchain<C, E, D>, disk: Disk, mode: Mode, s: Snapshot): Option<Outcome<D>> {
    if mode == Fresh || disk.syntax.None? then None else DecodeCache(tc.frontend, disk.syntax.value, s.files)
  }

  function Parse<C, E, D>(tc: Toolchain<C, E, D>, disk: Disk, mode: Mode, s: Snapshot): Outcome<D> {
    var cached := CachedSyntax(tc, disk, mode, s);
    if cached.Some? then cached.value
    else Outcome(SyntaxTable(tc.frontend, s.files), Diagnostics(tc.frontend, s.files), false, 0)
  }

  function DatabaseFor<C, E, D>(tc: Toolchain<C, E, D>, prior: Option<Database>, s: Snapshot, c: C): Database {
    FreshDatabase(tc.platform.md5, tc.nodes(c), tc.segments(c), Inputs(tc, s.files), s.semantic, s.configuration, prior)
  }

  function Start(disk: Disk, mode: Mode): Disk {
    if mode == Clean then Disk(None, None) else disk
  }

  /** Refresh the syntax cache, compile, and write the new database. */
  function Rebuild<C, E, D>(
      tc: Toolchain<C, E, D>, disk: Disk, mode: Mode, s: Snapshot, prior: Option<Database>, parsed: Outcome<D>)
    : (Result<C, Error>, Disk)
    requires |parsed.table| == |s.files|
  {
    var cached :=
      if mode == Fresh || parsed.exact then disk
      else disk.(syntax := Some(CacheBytes(tc.frontend, s.files, parsed.table)));
    var c := tc.compile(s, parsed.table, parsed.diagnostics);
    if mode == Fresh then (Success(c), cached)
    else
      match Save(DatabaseLayout(tc.platform), tc.platform, DatabaseFor(tc, prior, s, c))
      case Success(bytes) => (Success(c), cached.(database := Some(bytes)))
      case Failure(e) => (Failure(e), cached)
  }

  function Build<C, E, D>(tc: Toolchain<C, E, D>, disk: Disk, mode: Mode, s: Snapshot): (Result<C, Error>, Disk) {
    var start := Start(disk, mode);
    var prior := Prior(tc, start, mode);
    var reused := Reusable(tc, prior, s);
    if reused.Some? then (Success(reused.value), start)
    else
      ParsedTableLength(tc, start, mode, s);
      Rebuild(tc, start, mode, s, prior, Parse(tc, start, mode, s))
  }

  lemma {:induction false} MergedTableLength<E, D>(fe: Frontend<E, D>, files: seq<ProjectFile>, entries: seq<Entry>)
    requires |files| == |entries|
    ensures Merge(fe, files, entries).Some? ==> |Merge(fe, files, entries).value.table| == |files|
    decreases |files|
  {
    if files != [] {
      MergedTableLength(fe, files[..|files| - 1], entries[..|files| - 1]);
    }
  }

  lemma ParsedTableLength<C, E, D>(tc: Toolchain<C, E, D>, disk: Disk, mode: Mode, s: Snapshot)
    ensures |Parse(tc, disk, mode, s).table| == |s.files|
  {
    var cached := CachedSyntax(tc, disk, mode, s);
    if cached.Some? {
      var h := |SYNTAX_MAGIC| + 16;
      var entries := DecodeMany(EntryCodec(tc.frontend), |s.files|, disk.syntax.value[h..]).value.0;
      MergedTableLength(tc.frontend, s.files, entries);
    }
  }

  // ---- linking a runtime artifact ----

  /** The saved form of the database with the runtime section replaced, if that validates and saves. */
  function LinkedBytes(p: Platform, db: Database, digest: Digest, payload: seq<byte>): Result<seq<byte>, Error> {
    var linked := Linked(p.md5, db, digest, payload);
    var valid := Validate(linked);
    if valid.Failure? then Failure(valid.error) else Save(DatabaseLayout(p), p, linked)
  }

  /** Replaces the runtime section of the stored database and writes it back. */
  function LinkRuntime(p: Platform, disk: Disk, digest: Digest, payload: seq<byte>): (Result<nat, Error>, Disk) {
    hide Load, LinkedBytes, DatabaseLayout, Chunks;
    if disk.database.None? then (Failure(Io), disk)
    else
      match Load(DatabaseLayout(p), p, disk.database.value)
      case Failure(e) => (Failure(e), disk)
      case Success(db) =>
        match LinkedBytes(p, db, digest, payload)
        case Failure(e) => (Failure(e), disk)
        case Success(bytes) => (Success(|Chunks(payload)|), disk.(database := Some(bytes)))
  }

  // ---- what is taken on trust ----

  /** Two file versions with equal normalised path, digest and length have equal path and contents. */
  predicate DigestTells<C, E, D>(tc: Toolchain<C, E, D>, f: ProjectFile, g: ProjectFile) {
    InputOf(tc, f) == InputOf(tc, g) ==> f.path == g.path && f.contents == g.contents
  }

  predicate DigestsTell<C, E, D>(tc: Toolchain<C, E, D>, a: Snapshot, b: Snapshot) {
    forall i, j :: 0 <= i < |a.files| && 0 <= j < |b.files| ==> DigestTells(tc, a.files[i], b.files[j])
  }

  /** The snapshot is what the loader makes of the files on disk and the two build digests. */
  predicate LoadedFrom<C, E, D>(tc: Toolchain<C, E, D>, s: Snapshot) {
    s.files == tc.load(DiskFiles(s.files), s.semantic, s.configuration)
  }

  /** Snapshots with the same inputs and build digests are the same snapshot. */
  lemma SameInputsSameSnapshot<C, E, D>(tc: Toolchain<C, E, D>, a: Snapshot, b: Snapshot)
    requires DigestsTell(tc, a, b) && LoadedFrom(tc, a) && LoadedFrom(tc, b)
    requires a.semantic == b.semantic && a.configuration == b.configuration
    requires Inputs(tc, a.files) == Inputs(tc, b.files)
    ensures a == b
  {
    assert |a.files| == |Inputs(tc, a.files)| == |b.files|;
    forall i | 0 <= i < |a.files|
      ensures DiskFiles(a.files)[i] == DiskFiles(b.files)[i]
    {
      assert Inputs(tc, a.files)[i] == Inputs(tc, b.files)[i];
      assert DigestTells(tc, a.files[i], b.files[i]);
    }
    assert DiskFiles(a.files) == DiskFiles(b.files);
  }

  /** The snapshot as it exists in memory: bounded lengths, UTF-8 text, 32-byte digests. */
  ghost predicate InMemory<C, E, D>(tc: Toolchain<C, E, D>, s: Snapshot) {
    && Loaded(tc.frontend, s.files)
    && SyntaxCache.Representable(tc.frontend, s.files)
    && |s.semantic| == 32 && |s.configuration| == 32
    && GoodInputs(tc.platform, Inputs(tc, s.files))
    && GoodNodes(tc.platform, tc.nodes(CleanResult(tc, s)))
  }

  /** An encoded artifact decodes to what was encoded, or is refused. */
  ghost predicate ArtifactsDecode<C(!new), E, D>(tc: Toolchain<C, E, D>) {
    forall c :: tc.decode(Concat(tc.segments(c))).Some? ==> tc.decode(Concat(tc.segments(c))) == Some(c)
  }

  /** Fingerprints and digests tell apart all versions a line of builds has seen. */
  ghost predicate Trusted<C(!new), E, D>(tc: Toolchain<C, E, D>, seen: seq<Snapshot>) {
    && Sixteen(tc.platform.md5)
    && ArtifactsDecode(tc)
    && (forall i :: 0 <= i < |seen| ==> InMemory(tc, seen[i]) && LoadedFrom(tc, seen[i]))
    && (forall i, j :: 0 <= i < |seen| && 0 <= j < |seen| ==>
          HashesTell(tc.frontend, seen[i].files, seen[j].files) && DigestsTell(tc, seen[i], seen[j]))
  }

  // ---- the invariant of the build directory ----

  /** These bytes load as this database of the line. */
  ghost predicate Stored(p: Platform, bytes: seq<byte>, db: Database) {
    && Load(DatabaseLayout(p), p, bytes) == Success(db)
    && InLine(db)
    && DatabaseModel.Representable(p, db)
  }

  /** The database was built from `s` and its linked frontend is the clean result of `s`. */
  predicate Reflects<C, E, D>(tc: Toolchain<C, E, D>, db: Database, s: Snapshot) {
    && db.semanticDigest == s.semantic
    && db.buildDigest == s.configuration
    && db.inputs == Inputs(tc, s.files)
    && LinkedPayload(db.sections) == Some(Concat(tc.segments(CleanResult(tc, s))))
  }

  ghost predicate DatabaseOf<C, E, D>(tc: Toolchain<C, E, D>, bytes: seq<byte>, s: Snapshot) {
    exists db :: Stored(tc.platform, bytes, db) && Reflects(tc, db, s)
  }

  lemma SaveStores(p: Platform, db: Database)
    requires Sixteen(p.md5) && DatabaseModel.Representable(p, db) && InLine(db)
    requires Save(DatabaseLayout(p), p, db).Success?
    ensures Stored(p, Save(DatabaseLayout(p), p, db).value, db)
  {
    DecodeInvertsEncode(p, db);
  }

  /** Whatever lies in the directory was written for some snapshot of the line. */
  ghost predicate Consistent<C, E, D>(tc: Toolchain<C, E, D>, disk: Disk, seen: seq<Snapshot>) {
    && (disk.database.Some? ==> exists i :: 0 <= i < |seen| && DatabaseOf(tc, disk.database.value, seen[i]))
    && (disk.syntax.Some? ==> exists i :: 0 <= i < |seen| && disk.syntax.value == CacheFor(tc.frontend, seen[i].files))
  }

  lemma ConsistentGrows<C, E, D>(tc: Toolchain<C, E, D>, disk: Disk, seen: seq<Snapshot>, s: Snapshot)
    requires Consistent(tc, disk, seen)
    ensures Consistent(tc, disk, seen + [s])
  {
    hide DatabaseOf, CacheFor;
    if disk.database.Some? {
      var i :| 0 <= i < |seen| && DatabaseOf(tc, disk.database.value, seen[i]);
      assert (seen + [s])[i] == seen[i];
    }
    if disk.syntax.Some? {
      var i :| 0 <= i < |seen| && disk.syntax.value == CacheFor(tc.frontend, seen[i].files);
      assert (seen + [s])[i] == seen[i];
    }
  }

  /** Nothing changed means the same inputs. */
  lemma UnchangedInputs(a: seq<InputDependency>, b: seq<InputDependency>)
    requires ChangedInputs(a, b) == []
    ensures a == b
  {
    forall i: nat
      ensures Get(a, i) == Get(b, i)
    {
      assert i !in ChangedInputs(a, b);
    }
    assert Get(a, |b|) == Get(b, |b|) && Get(a, |a|) == Get(b, |a|);
    forall i | 0 <= i < |a|
      ensures a[i] == b[i]
    {
      assert Get(a, i) == Get(b, i);
    }
  }

  /** The database a build starts from, with the snapshot it was built from. */
  lemma PriorIsStored<C, E, D>(tc: Toolchain<C, E, D>, disk: Disk, mode: Mode, seen: seq<Snapshot>) returns (i: nat)
    requires Consistent(tc, disk, seen) && Prior(tc, disk, mode).Some?
    ensures i < |seen| && Stored(tc.platform, disk.database.value, Prior(tc, disk, mode).value)
    ensures Reflects(tc, Prior(tc, disk, mode).value, seen[i])
  {
    i :| 0 <= i < |seen| && DatabaseOf(tc, disk.database.value, seen[i]);
  }

  /** A reused frontend is the clean result of the current snapshot. */
  lemma ReusedIsClean<C(!new), E, D>(tc: Toolchain<C, E, D>, disk: Disk, mode: Mode, seen: seq<Snapshot>, k: nat)
    requires Consistent(tc, disk, seen) && Trusted(tc, seen) && k < |seen|
    requires Reusable(tc, Prior(tc, disk, mode), seen[k]).Some?
    ensures Reusable(tc, Prior(tc, disk, mode), seen[k]) == Some(CleanResult(tc, seen[k]))
  {
    var i := PriorIsStored(tc, disk, mode, seen);
    UnchangedInputs(Prior(tc, disk, mode).value.inputs, Inputs(tc, seen[k].files));
    assert DigestsTell(tc, seen[i], seen[k]);
    SameInputsSameSnapshot(tc, seen[i], seen[k]);
  }

  lemma CacheIsClean<C(!new), E, D>(tc: Toolchain<C, E, D>, bytes: seq<byte>, seen: seq<Snapshot>, i: nat, k: nat)
    requires Trusted(tc, seen) && i < |seen| && k < |seen| && bytes == CacheFor(tc.frontend, seen[i].files)
    requires DecodeCache(tc.frontend, bytes, seen[k].files).Some?
    ensures var o := DecodeCache(tc.frontend, bytes, seen[k].files).value;
      o.table == SyntaxTable(tc.frontend, seen[k].files) && o.diagnostics == Diagnostics(tc.frontend, seen[k].files)
  {
    assert InMemory(tc, seen[i]) && InMemory(tc, seen[k]);
    assert HashesTell(tc.frontend, seen[i].files, seen[k].files);
    IncrementalIsClean(tc.frontend, seen[i].files, seen[k].files);
  }

  /** The parsed table a build works from is that of a full parse. */
  lemma ParseIsClean<C(!new), E, D>(tc: Toolchain<C, E, D>, disk: Disk, mode: Mode, seen: seq<Snapshot>, k: nat)
    requires Consistent(tc, disk, seen) && Trusted(tc, seen) && k < |seen|
    ensures var o := Parse(tc, disk, mode, seen[k]);
      o.table == SyntaxTable(tc.frontend, seen[k].files) && o.diagnostics == Diagnostics(tc.frontend, seen[k].files)
  {
    hide CacheFor, DecodeCache, SyntaxTable, Diagnostics, Trusted, DatabaseOf;
    if CachedSyntax(tc, disk, mode, seen[k]).Some? {
      var i :| 0 <= i < |seen| && disk.syntax.value == CacheFor(tc.frontend, seen[i].files);
      CacheIsClean(tc, disk.syntax.value, seen, i, k);
    }
  }

  /** A database that saves was validated, and loads back. */
  lemma SavedIsValid(p: Platform, db: Database)
    requires Save(DatabaseLayout(p), p, db).Success?
    ensures Validate(db).Success?
  {
  }

  predicate PriorStored(p: Platform, prior: Option<Database>) {
    prior.Some? ==> InLine(prior.value) && DatabaseModel.Representable(p, prior.value)
  }

  lemma FreshReflects<C(!new), E, D>(tc: Toolchain<C, E, D>, prior: Option<Database>, s: Snapshot)
    requires Sixteen(tc.platform.md5) && InMemory(tc, s) && PriorStored(tc.platform, prior)
    requires Validate(DatabaseFor(tc, prior, s, CleanResult(tc, s))).Success?
    ensures var db := DatabaseFor(tc, prior, s, CleanResult(tc, s));
      InLine(db) && DatabaseModel.Representable(tc.platform, db) && Reflects(tc, db, s)
  {
    hide DatabaseModel.Representable, FreshSections, InLine, DistinctSections, KnownDependencies;
    var p, c := tc.platform, CleanResult(tc, s);
    ValidatedStaysInLine(p.md5, tc.nodes(c), tc.segments(c), Inputs(tc, s.files), s.semantic, s.configuration, prior);
    FreshRepresentable(p, tc.nodes(c), tc.segments(c), Inputs(tc, s.files), s.semantic, s.configuration, prior);
    LinkedReadsBack(p.md5, Inputs(tc, s.files), tc.segments(c), prior);
  }

  lemma WrittenIsStored<C(!new), E, D>(tc: Toolchain<C, E, D>, prior: Option<Database>, s: Snapshot, db: Database)
    requires Sixteen(tc.platform.md5) && InMemory(tc, s) && PriorStored(tc.platform, prior)
    requires db == DatabaseFor(tc, prior, s, CleanResult(tc, s))
    requires Save(DatabaseLayout(tc.platform), tc.platform, db).Success?
    ensures Validate(db).Success?
    ensures Stored(tc.platform, Save(DatabaseLayout(tc.platform), tc.platform, db).value, db) && Reflects(tc, db, s)
  {
    SavedIsValid(tc.platform, db);
    FreshReflects(tc, prior, s);
    SaveStores(tc.platform, db);
  }

  lemma StartIsConsistent<C, E, D>(tc: Toolchain<C, E, D>, disk: Disk, mode: Mode, seen: seq<Snapshot>)
    requires Consistent(tc, disk, seen)
    ensures Consistent(tc, Start(disk, mode), seen)
  {
  }

  /** One build from a consistent directory: its result is the clean one, and the directory stays consistent. */
  lemma BuildIsClean<C(!new), E, D>(tc: Toolchain<C, E, D>, disk: Disk, mode: Mode, seen: seq<Snapshot>, s: Snapshot)
    requires Consistent(tc, disk, seen) && Trusted(tc, seen + [s])
    ensures var (r, after) := Build(tc, disk, mode, s);
      (r.Success? ==> r.value == CleanResult(tc, s)) && Consistent(tc, after, seen + [s])
  {
    hide Prior, Reusable, Parse, Rebuild, Consistent, Trusted, SyntaxTable, Diagnostics;
    var all, k := seen + [s], |seen|;
    var start := Start(disk, mode);
    StartIsConsistent(tc, disk, mode, seen);
    ConsistentGrows(tc, start, seen, s);
    assert all[k] == s;
    if Reusable(tc, Prior(tc, start, mode), s).Some? {
      ReusedIsClean(tc, start, mode, all, k);
    } else {
      ParsedTableLength(tc, start, mode, s);
      ParseIsClean(tc, start, mode, all, k);
      RebuildIsClean(tc, start, mode, all, k, Parse(tc, start, mode, s));
    }
  }

  lemma PriorIsKept<C, E, D>(tc: Toolchain<C, E, D>, disk: Disk, mode: Mode, seen: seq<Snapshot>)
    requires Consistent(tc, disk, seen)
    ensures PriorStored(tc.platform, Prior(tc, disk, mode))
  {
    if Prior(tc, disk, mode).Some? {
      var i := PriorIsStored(tc, disk, mode, seen);
    }
  }

  lemma RebuildIsClean<C(!new), E, D>(
      tc: Toolchain<C, E, D>, disk: Disk, mode: Mode, seen: seq<Snapshot>, k: nat, parsed: Outcome<D>)
    requires Consistent(tc, disk, seen) && Trusted(tc, seen) && k < |seen|
    requires parsed.table == SyntaxTable(tc.frontend, seen[k].files) &&
        parsed.diagnostics == Diagnostics(tc.frontend, seen[k].files)
    ensures var (r, after) := Rebuild(tc, disk, mode, seen[k], Prior(tc, disk, mode), parsed);
      (r.Success? ==> r.value == CleanResult(tc, seen[k])) && Consistent(tc, after, seen)
  {
    hide Load, Save, DatabaseFor, Prior, CacheBytes, CacheFor, DatabaseOf, Consistent, Rebuild, PriorStored;
    RebuildShape(tc, disk, mode, seen[k], Prior(tc, disk, mode), parsed);
    var s, prior := seen[k], Prior(tc, disk, mode);
    PriorIsKept(tc, disk, mode, seen);
    assert InMemory(tc, seen[k]);
    var saved := Save(DatabaseLayout(tc.platform), tc.platform, DatabaseFor(tc, prior, s, CleanResult(tc, s)));
    if saved.Success? {
      WrittenIsOf(tc, prior, s);
    }
    CacheForTable(tc.frontend, s.files, parsed.table);
    ConsistentUpdate(tc, disk, Rebuild(tc, disk, mode, s, prior, parsed).1, seen, k);
  }

  /** What a rebuild can change, and to what. */
  lemma RebuildShape<C, E, D>(
      tc: Toolchain<C, E, D>, disk: Disk, mode: Mode, s: Snapshot, prior: Option<Database>, parsed: Outcome<D>)
    requires |parsed.table| == |s.files|
    ensures var (r, after) := Rebuild(tc, disk, mode, s, prior, parsed);
      var c := tc.compile(s, parsed.table, parsed.diagnostics);
      var saved := Save(DatabaseLayout(tc.platform), tc.platform, DatabaseFor(tc, prior, s, c));
      && (r.Success? ==> r.value == c)
      && (after.database == disk.database || (saved.Success? && after.database == Some(saved.value)))
      && (after.syntax == disk.syntax || after.syntax == Some(CacheBytes(tc.frontend, s.files, parsed.table)))
  {
    hide Save, DatabaseFor, CacheBytes;
  }

  lemma ConsistentUpdate<C, E, D>(tc: Toolchain<C, E, D>, disk: Disk, after: Disk, seen: seq<Snapshot>, k: nat)
    requires Consistent(tc, disk, seen) && k < |seen|
    requires after.database == disk.database || (after.database.Some? && DatabaseOf(tc, after.database.value, seen[k]))
    requires after.syntax == disk.syntax || after.syntax == Some(CacheFor(tc.frontend, seen[k].files))
    ensures Consistent(tc, after, seen)
  {
    hide DatabaseOf, CacheFor;
  }

  lemma CacheForTable<E, D>(fe: Frontend<E, D>, files: seq<ProjectFile>, table: seq<Option<R.SyntaxFile>>)
    requires table == SyntaxTable(fe, files)
    ensures CacheBytes(fe, files, table) == CacheFor(fe, files)
  {
  }

  lemma WrittenIsOf<C(!new), E, D>(tc: Toolchain<C, E, D>, prior: Option<Database>, s: Snapshot)
    requires Sixteen(tc.platform.md5) && InMemory(tc, s) && PriorStored(tc.platform, prior)
    requires Save(DatabaseLayout(tc.platform), tc.platform, DatabaseFor(tc, prior, s, CleanResult(tc, s))).Success?
    ensures DatabaseOf(tc, Save(DatabaseLayout(tc.platform), tc.platform,
        DatabaseFor(tc, prior, s, CleanResult(tc, s))).value, s)
  {
    hide Load, Save, InLine, FreshDatabase, Validate, Stored, Reflects, DatabaseModel.Representable;
    WrittenIsStored(tc, prior, s, DatabaseFor(tc, prior, s, CleanResult(tc, s)));
  }

  /** Linking leaves the frontend of the stored database as it was. */
  lemma LinkKeepsFrontend<C, E, D>(tc: Toolchain<C, E, D>, db: Database, digest: Digest, payload: seq<byte>)
    requires InLine(db) && Validate(Linked(tc.platform.md5, db, digest, payload)).Success?
    ensures LinkedPayload(Linked(tc.platform.md5, db, digest, payload).sections) == LinkedPayload(db.sections)
  {
    hide ReplaceSections, DistinctSections, KnownDependencies;
    var id, base, md5 := PERSISTENT_EXECUTABLE_SECTION, PERSISTENT_EXECUTABLE_PAGE_BASE, tc.platform.md5;
    UntouchedFound(md5, |db.inputs|, db.sections, id, base, digest, payload, [LINKED_FRONTEND_SECTION],
        LINKED_FRONTEND_SECTION);
    var manifest := Find(db.sections, LINKED_FRONTEND_SECTION);
    if manifest.Some? {
      UntouchedJoinsAll(md5, |db.inputs|, db.sections, digest, payload, manifest.value.sectionDependencies);
    }
  }

  lemma {:induction false} UntouchedJoinsAll(
      md5: Md5, inputs: nat, sections: seq<Section>, digest: Digest, payload: seq<byte>, ids: seq<nat>)
    requires Accepted(inputs, LinkedSections(md5, sections, digest, payload))
    requires Untouched(PERSISTENT_EXECUTABLE_SECTION, PERSISTENT_EXECUTABLE_PAGE_BASE, ids)
    ensures JoinAll(LinkedSections(md5, sections, digest, payload), ids) == JoinAll(sections, ids)
    decreases |ids|
  {
    if ids != [] {
      UntouchedFound(md5, inputs, sections, PERSISTENT_EXECUTABLE_SECTION, PERSISTENT_EXECUTABLE_PAGE_BASE,
        digest, payload, [LINKED_FRONTEND_SECTION], ids[0]);
      UntouchedJoinsAll(md5, inputs, sections, digest, payload, ids[1..]);
    }
  }

  lemma LinkedIsStored<C, E, D>(tc: Toolchain<C, E, D>, db: Database, s: Snapshot, digest: Digest, payload: seq<byte>)
    requires Sixteen(tc.platform.md5) && |digest| == 32
    requires InLine(db) && DatabaseModel.Representable(tc.platform, db) && Reflects(tc, db, s)
    requires var linked := Linked(tc.platform.md5, db, digest, payload);
      Validate(linked).Success? && Save(DatabaseLayout(tc.platform), tc.platform, linked).Success?
    ensures var linked := Linked(tc.platform.md5, db, digest, payload);
      Stored(tc.platform, Save(DatabaseLayout(tc.platform), tc.platform, linked).value, linked) &&
          Reflects(tc, linked, s)
  {
    var p := tc.platform;
    LinkStaysInLine(p.md5, db, digest, payload);
    LinkedRepresentable(p, db, digest, payload);
    LinkKeepsFrontend(tc, db, digest, payload);
    SaveStores(p, Linked(p.md5, db, digest, payload));
  }

  lemma LinkIsConsistent<C(!new), E, D>(
      tc: Toolchain<C, E, D>, disk: Disk, seen: seq<Snapshot>, digest: Digest, payload: seq<byte>)
    requires Consistent(tc, disk, seen) && Sixteen(tc.platform.md5) && |digest| == 32
    ensures Consistent(tc, LinkRuntime(tc.platform, disk, digest, payload).1, seen)
  {
    hide Load, Save, InLine, Linked, Validate, CacheFor, Reflects, DatabaseModel.Representable;
    var p := tc.platform;
    var (r, after) := LinkRuntime(p, disk, digest, payload);
    if r.Success? {
      var i :| 0 <= i < |seen| && DatabaseOf(tc, disk.database.value, seen[i]);
      var db :| Stored(p, disk.database.value, db) && Reflects(tc, db, seen[i]);
      LinkedIsStored(tc, db, seen[i], digest, payload);
      assert DatabaseOf(tc, after.database.value, seen[i]);
    }
  }

  // ---- whole lines of builds ----

  datatype Step = Compile(mode: Mode, snapshot: Snapshot) | LinkStep(digest: Digest, payload: seq<byte>)

  /** The directory after the steps, starting from an empty one. */
  function DiskAfter<C, E, D>(tc: Toolchain<C, E, D>, steps: seq<Step>): Disk {
    if steps == [] then Disk(None, None)
    else
      var before := DiskAfter(tc, steps[..|steps| - 1]);
      match steps[|steps| - 1]
      case Compile(mode, s) => Build(tc, before, mode, s).1
      case LinkStep(digest, payload) => LinkRuntime(tc.platform, before, digest, payload).1
  }

  function Snapshots(steps: seq<Step>): seq<Snapshot> {
    if steps == [] then []
    else
      var seen := Snapshots(steps[..|steps| - 1]);
      match steps[|steps| - 1]
      case Compile(_, s) => seen + [s]
      case LinkStep(_, _) => seen
  }

  predicate DigestsSized(steps: seq<Step>) {
    forall i :: 0 <= i < |steps| && steps[i].LinkStep? ==> |steps[i].digest| == 32
  }

  lemma TrustedPrefix<C(!new), E, D>(tc: Toolchain<C, E, D>, seen: seq<Snapshot>, s: Snapshot)
    requires Trusted(tc, seen + [s])
    ensures Trusted(tc, seen)
  {
    var all := seen + [s];
    assert forall i :: 0 <= i < |seen| ==> seen[i] == all[i];
  }

  lemma DigestsAreSixteen<C(!new), E, D>(tc: Toolchain<C, E, D>, seen: seq<Snapshot>)
    requires Trusted(tc, seen)
    ensures Sixteen(tc.platform.md5)
  {
  }

  lemma {:induction false} LineStaysConsistent<C(!new), E, D>(tc: Toolchain<C, E, D>, steps: seq<Step>)
    requires Trusted(tc, Snapshots(steps)) && DigestsSized(steps)
    ensures Consistent(tc, DiskAfter(tc, steps), Snapshots(steps))
    decreases |steps|
  {
    hide Consistent, Trusted, Build, LinkRuntime;
    if steps != [] {
      var n := |steps| - 1;
      var before, seen := DiskAfter(tc, steps[..n]), Snapshots(steps[..n]);
      match steps[n]
      case Compile(mode, s) =>
        TrustedPrefix(tc, seen, s);
        LineStaysConsistent(tc, steps[..n]);
        BuildIsClean(tc, before, mode, seen, s);
      case LinkStep(digest, payload) =>
        LineStaysConsistent(tc, steps[..n]);
        DigestsAreSixteen(tc, seen);
        LinkIsConsistent(tc, before, seen, digest, payload);
    } else {
      NothingIsConsistent(tc);
    }
  }

  lemma NothingIsConsistent<C, E, D>(tc: Toolchain<C, E, D>)
    ensures Consistent(tc, Disk(None, None), [])
  {
  }

  /**
    Incremental building is clean building: after any line of fresh, incremental
    and clean builds and runtime links, whatever the next build of any mode
    returns is exactly the result of compiling its snapshot from scratch.
   */
  lemma EveryBuildIsClean<C(!new), E, D>(tc: Toolchain<C, E, D>, steps: seq<Step>, mode: Mode, s: Snapshot)
    requires Trusted(tc, Snapshots(steps) + [s]) && DigestsSized(steps)
    ensures var r := Build(tc, DiskAfter(tc, steps), mode, s).0;
      r.Success? ==> r.value == CleanResult(tc, s)
  {
    TrustedPrefix(tc, Snapshots(steps), s);
    LineStaysConsistent(tc, steps);
    BuildIsClean(tc, DiskAfter(tc, steps), mode, Snapshots(steps), s);
  }

  /**
    A build fails exactly when it has to write a database and the one made from the clean result, on top of
    what it found in the directory, does not save. `Lineage.FreshValidatesIff` says when that one validates.
   */
  lemma BuildFailsIff<C(!new), E, D>(tc: Toolchain<C, E, D>, steps: seq<Step>, mode: Mode, s: Snapshot)
    requires Trusted(tc, Snapshots(steps) + [s]) && DigestsSized(steps)
    ensures var disk := DiskAfter(tc, steps);
      var prior := Prior(tc, Start(disk, mode), mode);
      && PriorInLine(prior)
      && (Build(tc, disk, mode, s).0.Failure? <==>
            && mode != Fresh && Reusable(tc, prior, s).None?
            && Save(DatabaseLayout(tc.platform), tc.platform, DatabaseFor(tc, prior, s, CleanResult(tc, s))).Failure?)
  {
    hide Prior, Reusable, Parse, Save, DatabaseFor, Consistent, Trusted, DiskAfter, CacheBytes, Build, InLine;
    hide DatabaseModel.Representable, SyntaxTable, Diagnostics;
    var disk, seen := DiskAfter(tc, steps), Snapshots(steps);
    var start, all, k := Start(disk, mode), seen + [s], |seen|;
    TrustedPrefix(tc, seen, s);
    LineStaysConsistent(tc, steps);
    StartIsConsistent(tc, disk, mode, seen);
    PriorIsKept(tc, start, mode, seen);
    ConsistentGrows(tc, start, seen, s);
    assert all[k] == s;
    ParseIsClean(tc, start, mode, all, k);
    CleanParseFailure(tc, disk, mode, s);
  }

  lemma CleanParseFailure<C, E, D>(tc: Toolchain<C, E, D>, disk: Disk, mode: Mode, s: Snapshot)
    requires var parsed := Parse(tc, Start(disk, mode), mode, s);
      parsed.table == SyntaxTable(tc.frontend, s.files) && parsed.diagnostics == Diagnostics(tc.frontend, s.files)
    ensures var prior := Prior(tc, Start(disk, mode), mode);
      Build(tc, disk, mode, s).0.Failure? <==>
        && mode != Fresh && Reusable(tc, prior, s).None?
        && Save(DatabaseLayout(tc.platform), tc.platform, DatabaseFor(tc, prior, s, CleanResult(tc, s))).Failure?
  {
    hide Prior, Reusable, Parse, Save, DatabaseFor, CacheBytes, Start, DatabaseLayout;
  }

  /**
    A clean build succeeds where an incremental one fails exactly when there is a prior database whose frontend
    cannot be reused, the database made from scratch saves, and what was built before leaves too few numbers, or its
    runtime artifact makes the sections too many or the file too long.
   */
  lemma HistoryFailsIff<C(!new), E, D>(tc: Toolchain<C, E, D>, steps: seq<Step>, s: Snapshot)
    requires Trusted(tc, Snapshots(steps) + [s]) && DigestsSized(steps)
    ensures var disk, c := DiskAfter(tc, steps), CleanResult(tc, s);
      var prior := Prior(tc, disk, Incremental);
      Build(tc, disk, Clean, s).0.Success? && Build(tc, disk, Incremental, s).0.Failure? <==>
        && prior.Some? && Reusable(tc, prior, s).None?
        && Save(DatabaseLayout(tc.platform), tc.platform, DatabaseFor(tc, None, s, c)).Success?
        && !Affordable(tc.platform, tc.nodes(c), tc.segments(c), Inputs(tc, s.files), s.semantic, s.configuration,
                       prior.value)
  {
    hide Build, Save, Consistent, Trusted, DiskAfter, InLine, DatabaseModel.Representable, Affordable, Load, AllHold;
    hide FreshDatabase, ChangedInputs, SectionCodec, DatabaseLayout;
    var disk, c := DiskAfter(tc, steps), CleanResult(tc, s);
    var prior := Prior(tc, disk, Incremental);
    BuildFailsIff(tc, steps, Clean, s);
    BuildFailsIff(tc, steps, Incremental, s);
    if prior.Some? {
      LastIsInMemory(tc, Snapshots(steps), s);
      LinePriorIsLimited(tc, steps, s);
      if Save(DatabaseLayout(tc.platform), tc.platform, DatabaseFor(tc, None, s, c)).Success? {
        SavesOnTopIff(tc.platform, tc.nodes(c), tc.segments(c), Inputs(tc, s.files), s.semantic, s.configuration,
                      prior.value);
      }
    }
  }

  lemma LastIsInMemory<C(!new), E, D>(tc: Toolchain<C, E, D>, seen: seq<Snapshot>, s: Snapshot)
    requires Trusted(tc, seen + [s])
    ensures InMemory(tc, s) && Sixteen(tc.platform.md5)
  {
    assert (seen + [s])[|seen|] == s;
  }

  lemma LinePriorIsLimited<C(!new), E, D>(tc: Toolchain<C, E, D>, steps: seq<Step>, s: Snapshot)
    requires Trusted(tc, Snapshots(steps) + [s]) && DigestsSized(steps)
    requires Prior(tc, DiskAfter(tc, steps), Incremental).Some?
    ensures AllHold(SectionCodec().valid, Prior(tc, DiskAfter(tc, steps), Incremental).value.sections)
  {
    hide Trusted, Consistent, Reflects, InLine, DatabaseModel.Representable, AllHold, Load, DiskAfter;
    var disk, seen := DiskAfter(tc, steps), Snapshots(steps);
    LastIsInMemory(tc, seen, s);
    TrustedPrefix(tc, seen, s);
    LineStaysConsistent(tc, steps);
    var i := PriorIsStored(tc, disk, Incremental, seen);
    LoadedSectionsValid(tc.platform, disk.database.value, Prior(tc, disk, Incremental).value);
  }

  /** The stored database holds this runtime artifact. */
  ghost predicate DiskHolds(p: Platform, disk: Disk, payload: seq<byte>) {
    disk.database.Some? && exists db :: Stored(p, disk.database.value, db) && HoldsRuntime(p.md5, db.sections, payload)
  }

  /** A runtime artifact in the directory is still there after an incremental build of anything. */
  lemma IncrementalKeepsRuntime<C(!new), E, D>(
      tc: Toolchain<C, E, D>, disk: Disk, seen: seq<Snapshot>, s: Snapshot, payload: seq<byte>)
    requires Consistent(tc, disk, seen) && Trusted(tc, seen + [s]) && DiskHolds(tc.platform, disk, payload)
    ensures DiskHolds(tc.platform, Build(tc, disk, Incremental, s).1, payload)
  {
    hide Build, Rebuild, Parse, Stored, HoldsRuntime, Prior;
    var p, all, k := tc.platform, seen + [s], |seen|;
    var db :| Stored(p, disk.database.value, db) && HoldsRuntime(p.md5, db.sections, payload);
    PriorFound(tc, disk, db);
    if Reusable(tc, Some(db), s).None? {
      assert all[k] == s;
      ConsistentGrows(tc, disk, seen, s);
      ParsedTableLength(tc, disk, Incremental, s);
      ParseIsClean(tc, disk, Incremental, all, k);
      assert InMemory(tc, all[k]);
      RebuildKeepsRuntime(tc, disk, s, db, Parse(tc, disk, Incremental, s), payload);
    }
    BuildIs(tc, disk, s, db);
  }

  lemma PriorFound<C, E, D>(tc: Toolchain<C, E, D>, disk: Disk, db: Database)
    requires disk.database.Some? && Stored(tc.platform, disk.database.value, db)
    ensures Prior(tc, disk, Incremental) == Some(db)
  {
  }

  lemma BuildIs<C, E, D>(tc: Toolchain<C, E, D>, disk: Disk, s: Snapshot, db: Database)
    requires Prior(tc, disk, Incremental) == Some(db)
    ensures |Parse(tc, disk, Incremental, s).table| == |s.files|
    ensures Build(tc, disk, Incremental, s) ==
      if Reusable(tc, Some(db), s).Some? then (Success(Reusable(tc, Some(db), s).value), disk)
      else Rebuild(tc, disk, Incremental, s, Some(db), Parse(tc, disk, Incremental, s))
  {
    hide Prior, Reusable, Parse, Rebuild;
    ParsedTableLength(tc, disk, Incremental, s);
  }

  lemma RebuildKeepsRuntime<C(!new), E, D>(
      tc: Toolchain<C, E, D>, disk: Disk, s: Snapshot, prior: Database, parsed: Outcome<D>, payload: seq<byte>)
    requires Sixteen(tc.platform.md5) && InMemory(tc, s)
    requires disk.database.Some? && Stored(tc.platform, disk.database.value, prior)
    requires HoldsRuntime(tc.platform.md5, prior.sections, payload)
    requires parsed.table == SyntaxTable(tc.frontend, s.files) &&
        parsed.diagnostics == Diagnostics(tc.frontend, s.files)
    ensures DiskHolds(tc.platform, Rebuild(tc, disk, Incremental, s, Some(prior), parsed).1, payload)
  {
    hide Load, Save, InLine, DatabaseFor, HoldsRuntime, DatabaseModel.Representable, CacheBytes, InMemory;
    RewriteKeepsRuntime(tc, prior, s, payload);
  }

  lemma RewriteKeepsRuntime<C(!new), E, D>(tc: Toolchain<C, E, D>, prior: Database, s: Snapshot, payload: seq<byte>)
    requires Sixteen(tc.platform.md5) && InMemory(tc, s) && PriorStored(tc.platform, Some(prior))
    requires HoldsRuntime(tc.platform.md5, prior.sections, payload)
    ensures var db := DatabaseFor(tc, Some(prior), s, CleanResult(tc, s));
      var saved := Save(DatabaseLayout(tc.platform), tc.platform, db);
      saved.Success? ==> Stored(tc.platform, saved.value, db) && HoldsRuntime(tc.platform.md5, db.sections, payload)
  {
    var p, c := tc.platform, CleanResult(tc, s);
    var db := DatabaseFor(tc, Some(prior), s, c);
    if Save(DatabaseLayout(p), p, db).Success? {
      WrittenIsStored(tc, Some(prior), s, db);
      RuntimeSurvives(p.md5, tc.nodes(c), tc.segments(c), Inputs(tc, s.files), s.semantic, s.configuration, prior,
          payload);
    }
  }

  /** Linking a non-empty artifact puts it into the directory. */
  lemma LinkDelivers(p: Platform, disk: Disk, db: Database, digest: Digest, payload: seq<byte>)
    requires Sixteen(p.md5) && disk.database.Some? && Stored(p, disk.database.value, db)
    requires |digest| == 32 && digest != ZERO_DIGEST && payload != []
    requires LinkRuntime(p, disk, digest, payload).0.Success?
    ensures DiskHolds(p, LinkRuntime(p, disk, digest, payload).1, payload)
  {
    var linked := Linked(p.md5, db, digest, payload);
    LinkStaysInLine(p.md5, db, digest, payload);
    LinkedRepresentable(p, db, digest, payload);
    SaveStores(p, linked);
    LinkHolds(p.md5, db, digest, payload);
  }

  // ---- the build directory as an object ----

  class BuildDirectory<C, E, D> {
    const tools: Toolchain<C, E, D>
    var database: Option<seq<byte>>
    var syntax: Option<seq<byte>>

    constructor (tools: Toolchain<C, E, D>)
      ensures this.tools == tools && State() == Disk(None, None)
    {
      this.tools := tools;
      database, syntax := None, None;
    }

    function State(): Disk
      reads this
    {
      Disk(database, syntax)
    }

    method ReadPrior(mode: Mode) returns (prior: Option<Database>)
      ensures prior == Prior(tools, State(), mode)
    {
      if mode != Incremental || database.None? {
        return None;
      }
      var loaded := DecodeDatabase(tools.platform, database.value);
      prior := if loaded.Success? then Some(loaded.value) else None;
    }

    method ParseFiles(mode: Mode, s: Snapshot) returns (o: Outcome<D>)
      ensures o == Parse(tools, State(), mode, s) && |o.table| == |s.files|
    {
      ParsedTableLength(tools, State(), mode, s);
      var cached: Option<Outcome<D>> := None;
      if mode != Fresh && syntax.Some? {
        cached := ReadCache(tools.frontend, syntax.value, s.files);
      }
      if cached.Some? {
        o := cached.value;
      } else {
        var table, diagnostics := ParseProject(tools.frontend, s.files);
        o := Outcome(table, diagnostics, false, 0);
      }
    }

    /** One compiler invocation over the directory. */
    method Compile(mode: Mode, s: Snapshot) returns (r: Result<C, Error>)
      requires |s.semantic| == 32 && |s.configuration| == 32
      modifies this
      ensures (r, State()) == Build(tools, old(State()), mode, s)
    {
      hide Prior, Reusable, Parse, Save, FreshDatabase, CacheBytes;
      if mode == Clean {
        database, syntax := None, None;
      }
      var prior := ReadPrior(mode);
      var reused := Reusable(tools, prior, s);
      if reused.Some? {
        return Success(reused.value);
      }
      var parsed := ParseFiles(mode, s);
      if mode != Fresh && !parsed.exact {
        var bytes := EncodeCache(tools.frontend, s.files, parsed.table);
        syntax := Some(bytes);
      }
      var c := tools.compile(s, parsed.table, parsed.diagnostics);
      if mode != Fresh {
        var db := MakeDatabase(prior, s, c);
        var saved := EncodeDatabase(tools.platform, db);
        if saved.Failure? {
          return Failure(saved.error);
        }
        database := Some(saved.value);
      }
      r := Success(c);
    }

    method MakeDatabase(prior: Option<Database>, s: Snapshot, c: C) returns (db: Database)
      ensures db == DatabaseFor(tools, prior, s, c)
      ensures db.semanticDigest == s.semantic && db.buildDigest == s.configuration
    {
      db := BuildDatabase(tools.platform.md5, tools.nodes(c), tools.segments(c), Inputs(tools, s.files),
                          s.semantic, s.configuration, prior);
    }
  }
}
