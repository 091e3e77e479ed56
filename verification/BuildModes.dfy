/**
  What the three build modes read and leave in the directory, and that unchanged work is reused
  (crates/dm-compiler/src/lib.rs:216-368).
 */
module BuildModes {
  import opened Wrappers
  import opened Containers
  import opened DatabaseModel
  import opened Paging
  import opened Builds
  import opened Lineage
  import opened SyntaxCache
  import I = Invalidation
  import opened IncrementalBuild

  /** A fresh build is a full compilation that neither reads nor writes the directory. */
  lemma FreshTouchesNothing<C, E, D>(tc: Toolchain<C, E, D>, disk: Disk, s: Snapshot)
    ensures Build(tc, disk, Fresh, s) == (Success(CleanResult(tc, s)), disk)
  {
    hide SyntaxTable, Diagnostics;
  }

  /** A clean build forgets the directory, compiles in full and leaves the cache and, if it saves, the database. */
  lemma CleanForgets<C, E, D>(tc: Toolchain<C, E, D>, disk: Disk, s: Snapshot)
    ensures var c, cache := CleanResult(tc, s), Some(CacheFor(tc.frontend, s.files));
      Build(tc, disk, Clean, s) ==
      match Save(DatabaseLayout(tc.platform), tc.platform, DatabaseFor(tc, None, s, c))
      case Success(bytes) => (Success(c), Disk(Some(bytes), cache))
      case Failure(e) => (Failure(e), Disk(None, cache))
  {
    hide SyntaxTable, Diagnostics, Save, DatabaseFor, CacheBytes, DatabaseLayout;
  }

  /** The linked frontend is taken over exactly when nothing differs that it was built from and its artifact decodes. */
  lemma ReusableIff<C, E, D>(tc: Toolchain<C, E, D>, prior: Option<Database>, s: Snapshot)
    ensures Reusable(tc, prior, s).Some? <==>
      && prior.Some?
      && prior.value.semanticDigest == s.semantic && prior.value.buildDigest == s.configuration
      && prior.value.inputs == Inputs(tc, s.files)
      && LinkedPayload(prior.value.sections).Some?
      && tc.decode(LinkedPayload(prior.value.sections).value).Some?
    ensures Reusable(tc, prior, s).Some? ==>
        Reusable(tc, prior, s) == tc.decode(LinkedPayload(prior.value.sections).value)
  {
    hide LinkedPayload, Inputs;
    if prior.Some? {
      InputsUnchangedIff(prior.value.inputs, Inputs(tc, s.files));
    }
  }

  lemma InputsUnchangedIff(a: seq<InputDependency>, b: seq<InputDependency>)
    ensures I.ChangedInputs(a, b) == [] <==> a == b
  {
    if I.ChangedInputs(a, b) == [] {
      UnchangedInputs(a, b);
    }
    NoneIn(I.ChangedInputs(a, b));
  }

  lemma NoneIn(places: seq<nat>)
    ensures places == [] <==> forall i :: i !in places
  {
    if places != [] {
      assert places[0] in places;
    }
  }

  /** Building the same snapshot again after a clean build takes the stored frontend over and writes nothing. */
  lemma SecondBuildReuses<C(!new), E, D>(tc: Toolchain<C, E, D>, disk: Disk, s: Snapshot)
    requires Sixteen(tc.platform.md5) && InMemory(tc, s) && Build(tc, disk, Clean, s).0.Success?
    requires tc.decode(Concat(tc.segments(CleanResult(tc, s)))).Some?
    ensures var after := Build(tc, disk, Clean, s).1;
      Build(tc, after, Incremental, s) ==
        (Success(tc.decode(Concat(tc.segments(CleanResult(tc, s)))).value), after)
  {
    var p, db := tc.platform, DatabaseFor(tc, None, s, CleanResult(tc, s));
    hide Load, Save, DatabaseLayout, DatabaseFor, CleanResult, CacheFor, Reusable, Parse, Rebuild, InMemory, InLine;
    hide DatabaseModel.Representable, LinkedPayload, Inputs, Build;
    CleanForgets(tc, disk, s);
    WrittenIsStored(tc, None, s, db);
    ReusableIff(tc, Some(db), s);
    ReusedBuild(tc, Build(tc, disk, Clean, s).1, s, db);
  }

  lemma ReusedBuild<C, E, D>(tc: Toolchain<C, E, D>, disk: Disk, s: Snapshot, db: Database)
    requires disk.database.Some? && Load(DatabaseLayout(tc.platform), tc.platform, disk.database.value) == Success(db)
    requires Reusable(tc, Some(db), s).Some?
    ensures Build(tc, disk, Incremental, s) == (Success(Reusable(tc, Some(db), s).value), disk)
  {
    hide Load, DatabaseLayout, Reusable, Parse, Rebuild;
  }

  /** A syntax cache written for the same files is used whole, in every mode but a fresh one. */
  lemma CachedSyntaxIsUsed<C, E, D>(tc: Toolchain<C, E, D>, disk: Disk, mode: Mode, s: Snapshot)
    requires mode != Fresh && disk.syntax == Some(CacheFor(tc.frontend, s.files))
    requires Loaded(tc.frontend, s.files) && SyntaxCache.Representable(tc.frontend, s.files)
    requires Storable(tc.frontend, s.files)
    ensures Parse(tc, disk, mode, s).exact
    ensures Parse(tc, disk, mode, s).reused ==
        |set i: nat | i < |s.files| && SyntaxTable(tc.frontend, s.files)[i].Some?|
  {
    hide DecodeCache, CacheFor, Loaded, SyntaxCache.Representable, Storable;
    UnchangedIsReused(tc.frontend, s.files);
  }

  // ---- the syntax cache follows the builds ----

  lemma SameSyntax<E, D>(fe: Frontend<E, D>, before: ProjectFile, now: ProjectFile)
    requires Acceptable(fe, before, now) && FingerprintTells(fe, before, now)
    requires Fingerprint(fe, before) == Fingerprint(fe, now)
    ensures ParseFile(fe, before).0 == ParseFile(fe, now).0
  {
  }

  lemma SameEntries<E, D>(fe: Frontend<E, D>, before: seq<ProjectFile>, now: seq<ProjectFile>)
    requires |before| == |now| && FingerprintsTell(fe, before, now)
    requires AllAcceptable(fe, before, now) && SameFingerprints(fe, before, now)
    ensures CacheFor(fe, before) == CacheFor(fe, now)
  {
    forall i | 0 <= i < |now|
      ensures Fingerprint(fe, before[i]) == Fingerprint(fe, now[i])
      ensures ParseFile(fe, before[i]).0 == ParseFile(fe, now[i]).0
    {
      assert FingerprintTells(fe, before[i], now[i]);
      SameSyntax(fe, before[i], now[i]);
    }
    hide Fingerprint, ParseFile, FingerprintTells, Acceptable;
    assert SyntaxTable(fe, before) == SyntaxTable(fe, now);
    assert EntriesFor(fe, before) == EntriesFor(fe, now);
  }

  /** A cache that fits the files exactly is the cache of those files. */
  lemma ExactIsCurrent<E, D>(fe: Frontend<E, D>, before: seq<ProjectFile>, now: seq<ProjectFile>)
    requires Loaded(fe, before) && Loaded(fe, now) && SyntaxCache.Representable(fe, before)
    requires HashesTell(fe, before, now)
    requires DecodeCache(fe, CacheFor(fe, before), now).Some? && DecodeCache(fe, CacheFor(fe, before), now).value.exact
    ensures CacheFor(fe, before) == CacheFor(fe, now)
  {
    hide DecodeCache, CacheFor, Loaded, SyntaxCache.Representable, HashesTell, Storable, FingerprintsTell;
    hide AllAcceptable, SameFingerprints, SyntaxTable, Diagnostics, ReusedPlaces;
    IncrementalIsClean(fe, before, now);
    AcceptedIff(fe, before, now);
    HashesAreFingerprints(fe, before, now);
    SameEntries(fe, before, now);
  }

  /**
    After any line of builds and links, a clean build and an incremental one that compiles leave exactly the syntax
    cache of their snapshot; a fresh build and one that reuses the frontend leave the cache they found.
   */
  lemma CacheAfterBuild<C(!new), E, D>(tc: Toolchain<C, E, D>, steps: seq<Step>, mode: Mode, s: Snapshot)
    requires Trusted(tc, Snapshots(steps) + [s]) && DigestsSized(steps)
    ensures var disk := DiskAfter(tc, steps);
      var compiles := Reusable(tc, Prior(tc, Start(disk, mode), mode), s).None?;
      Build(tc, disk, mode, s).1.syntax ==
      if mode == Clean || (mode == Incremental && compiles) then Some(CacheFor(tc.frontend, s.files)) else disk.syntax
  {
    var disk, seen := DiskAfter(tc, steps), Snapshots(steps);
    var all, k := seen + [s], |seen|;
    hide Consistent, Trusted, DiskAfter, Prior, Reusable, CacheFor, Build, Save, DatabaseFor, DatabaseLayout;
    if mode == Clean {
      CleanForgets(tc, disk, s);
    } else if mode == Fresh {
      FreshTouchesNothing(tc, disk, s);
    } else {
      TrustedPrefix(tc, seen, s);
      LineStaysConsistent(tc, steps);
      ConsistentGrows(tc, disk, seen, s);
      assert all[k] == s;
      IncrementalCache(tc, disk, all, k);
    }
  }

  lemma IncrementalCache<C(!new), E, D>(tc: Toolchain<C, E, D>, disk: Disk, all: seq<Snapshot>, k: nat)
    requires Consistent(tc, disk, all) && Trusted(tc, all) && k < |all|
    ensures Build(tc, disk, Incremental, all[k]).1.syntax ==
        if Reusable(tc, Prior(tc, disk, Incremental), all[k]).None? then Some(CacheFor(tc.frontend, all[k].files))
        else disk.syntax
  {
    hide Prior, Reusable, CacheBytes, DecodeCache, DatabaseOf, Trusted, CacheFor, Build, SyntaxTable, Diagnostics;
    var s := all[k];
    var parsed := Parse(tc, disk, Incremental, s);
    ParsedTableLength(tc, disk, Incremental, s);
    ParseIsClean(tc, disk, Incremental, all, k);
    CacheForTable(tc.frontend, s.files, parsed.table);
    if parsed.exact {
      var i :| 0 <= i < |all| && disk.syntax.value == CacheFor(tc.frontend, all[i].files);
      SeenExact(tc, all, i, k);
    }
    hide Parse, Consistent;
    IncrementalLeaves(tc, disk, s);
  }

  lemma IncrementalLeaves<C, E, D>(tc: Toolchain<C, E, D>, disk: Disk, s: Snapshot)
    requires |Parse(tc, disk, Incremental, s).table| == |s.files|
    ensures var parsed := Parse(tc, disk, Incremental, s);
      Build(tc, disk, Incremental, s).1.syntax ==
      if Reusable(tc, Prior(tc, disk, Incremental), s).Some? || parsed.exact then disk.syntax
      else Some(CacheBytes(tc.frontend, s.files, parsed.table))
  {
    hide Prior, Reusable, Parse, Save, DatabaseFor, CacheBytes, DatabaseLayout;
  }

  lemma SeenExact<C(!new), E, D>(tc: Toolchain<C, E, D>, all: seq<Snapshot>, i: nat, k: nat)
    requires Trusted(tc, all) && i < |all| && k < |all|
    requires var o := DecodeCache(tc.frontend, CacheFor(tc.frontend, all[i].files), all[k].files);
      o.Some? && o.value.exact
    ensures CacheFor(tc.frontend, all[i].files) == CacheFor(tc.frontend, all[k].files)
  {
    assert InMemory(tc, all[i]) && InMemory(tc, all[k]);
    assert HashesTell(tc.frontend, all[i].files, all[k].files);
    hide DecodeCache, CacheFor;
    ExactIsCurrent(tc.frontend, all[i].files, all[k].files);
  }
}
