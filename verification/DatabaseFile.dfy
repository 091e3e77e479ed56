/**
  Saving and loading the compiler database and the stable-ID table
  (crates/dm-compiler/src/persistent_database.rs:67-126, 287-401, 553-653).
 */
module DatabaseFile {
  import opened Wrappers
  import opened Collections
  import opened Codecs
  import opened Containers
  import opened DatabaseModel

  /** The bytes of the three record lists, each behind its count. */
  function Records(p: Platform, db: Database): seq<byte> {
    (LittleEndian(8, |db.inputs|) + EncodeAll(InputCodec(p), db.inputs))
    + (LittleEndian(8, |db.stableIds|) + EncodeAll(StableIdCodec(p), db.stableIds))
    + (LittleEndian(8, |db.sections|) + EncodeAll(SectionCodec(), db.sections))
  }

  lemma PairFields<A, B>(a: Codec<A>, b: Codec<B>, t: (A, B))
    ensures PairCodec(a, b).encode(t) == a.encode(t.0) + b.encode(t.1)
    ensures PairCodec(a, b).fits(t) <==> a.fits(t.0) && b.fits(t.1)
    ensures PairCodec(a, b).valid(t) <==> a.valid(t.0) && b.valid(t.1)
  {
  }

  lemma CountedFields<T>(c: Codec<T>, items: seq<T>)
    ensures CountedCodec(c, MAX_RECORDS).encode(items) == LittleEndian(8, |items|) + EncodeAll(c, items)
    ensures CountedCodec(c, MAX_RECORDS).valid(items) <==> |items| <= MAX_RECORDS && AllHold(c.valid, items)
  {
  }

  lemma FiveFields<A, B, C, D, E>(
      a: Codec<A>, b: Codec<B>, c: Codec<C>, d: Codec<D>, e: Codec<E>, t: (A, (B, (C, (D, E)))))
    ensures var k := PairCodec(a, PairCodec(b, PairCodec(c, PairCodec(d, e))));
      && k.encode(t) == a.encode(t.0) + b.encode(t.1.0)
           + (c.encode(t.1.1.0) + d.encode(t.1.1.1.0) + e.encode(t.1.1.1.1))
      && (k.fits(t) ==> a.fits(t.0) && b.fits(t.1.0))
      && (k.valid(t) <==>
            a.valid(t.0) && b.valid(t.1.0) && c.valid(t.1.1.0) && d.valid(t.1.1.1.0) && e.valid(t.1.1.1.1))
  {
    PairFields(d, e, t.1.1.1);
    PairFields(c, PairCodec(d, e), t.1.1);
    PairFields(b, PairCodec(c, PairCodec(d, e)), t.1);
    PairFields(a, PairCodec(b, PairCodec(c, PairCodec(d, e))), t);
  }

  lemma DatabaseFields(p: Platform, db: Database)
    requires |db.semanticDigest| == 32 && |db.buildDigest| == 32 && Validate(db).Success?
    ensures DatabaseCodec(p).encode(db) == db.semanticDigest + db.buildDigest + Records(p, db)
    ensures DatabaseCodec(p).valid(db) <==>
      && AllHold(InputCodec(p).valid, db.inputs)
      && AllHold(StableIdCodec(p).valid, db.stableIds)
      && AllHold(SectionCodec().valid, db.sections)
  {
    var ic, tc, sc := InputCodec(p), StableIdCodec(p), SectionCodec();
    FiveFields(FixedCodec(32), FixedCodec(32), CountedCodec(ic, MAX_RECORDS), CountedCodec(tc, MAX_RECORDS),
      CountedCodec(sc, MAX_RECORDS), DatabaseParts(db));
    CountedFields(ic, db.inputs);
    CountedFields(tc, db.stableIds);
    CountedFields(sc, db.sections);
    assert DatabaseParts(db) == (db.semanticDigest, (db.buildDigest, (db.inputs, (db.stableIds, db.sections))));
  }

  /** Writes the records field by field, refusing oversized strings, lists and payloads. */
  method WriteFields(p: Platform, db: Database) returns (r: Result<seq<byte>, Error>)
    ensures r ==
      if AllHold(InputCodec(p).valid, db.inputs) && AllHold(StableIdCodec(p).valid, db.stableIds)
         && AllHold(SectionCodec().valid, db.sections)
      then Success(db.semanticDigest + db.buildDigest + Records(p, db))
      else Failure(Limit)
  {
    var digests := db.semanticDigest + db.buildDigest;
    var inputs :- WriteCounted(InputCodec(p), db.inputs, digests);
    var stableIds :- WriteCounted(StableIdCodec(p), db.stableIds, inputs);
    var payload :- WriteCounted(SectionCodec(), db.sections, stableIds);
    ghost var a := LittleEndian(8, |db.inputs|) + EncodeAll(InputCodec(p), db.inputs);
    ghost var b := LittleEndian(8, |db.stableIds|) + EncodeAll(StableIdCodec(p), db.stableIds);
    ghost var c := LittleEndian(8, |db.sections|) + EncodeAll(SectionCodec(), db.sections);
    Regroup(digests + a, b, c);
    Regroup(digests, a, b + c);
    Regroup(a, b, c);
    r := Success(payload);
  }

  /** Checks the finished payload against the file limit and puts the header in front. */
  method Finish<T>(
      l: Layout<T>, p: Platform, x: T, written: Result<seq<byte>, Error>) returns (r: Result<seq<byte>, Error>)
    requires l.validate(x).Success?
    requires written == if l.codec.valid(x) then Success(l.codec.encode(x)) else Failure(Limit)
    ensures r == Save(l, p, x)
  {
    var payload :- written;
    if |payload| > MAX_DATABASE_BYTES - HEADER_LEN {
      return Failure(Limit);
    }
    r := Success(Seal(l, p, payload));
  }

  /** Both build digests are 32-byte arrays in the source. */
  method EncodeDatabase(p: Platform, db: Database) returns (r: Result<seq<byte>, Error>)
    requires |db.semanticDigest| == 32 && |db.buildDigest| == 32
    ensures r == Save(DatabaseLayout(p), p, db)
  {
    var checked := Validate(db);
    if checked.Failure? {
      return Failure(checked.error);
    }
    DatabaseFields(p, db);
    var written := WriteFields(p, db);
    r := Finish(DatabaseLayout(p), p, db, written);
  }

  /** Reads the same fields back in order; the cursor is the unread rest of the payload. */
  method DecodeDatabase(p: Platform, bytes: seq<byte>) returns (r: Result<Database, Error>)
    ensures r == Load(DatabaseLayout(p), p, bytes)
  {
    var payload :- Unseal(DatabaseLayout(p), p, bytes);
    var semantic :- FixedCodec(32).decode(payload);
    var build :- FixedCodec(32).decode(semantic.1);
    var inputs :- ReadCounted(InputCodec(p), build.1);
    var stableIds :- ReadCounted(StableIdCodec(p), inputs.1);
    var sections :- ReadCounted(SectionCodec(), stableIds.1);
    if sections.1 != [] {
      return Failure(Format);
    }
    var db := Database(semantic.0, build.0, inputs.0, stableIds.0, sections.0);
    var checked := Validate(db);
    if checked.Failure? {
      return Failure(checked.error);
    }
    r := Success(db);
  }

  method WriteCounted<T>(c: Codec<T>, items: seq<T>, buffer: seq<byte>) returns (r: Result<seq<byte>, Error>)
    ensures r == if AllHold(c.valid, items) then Success(buffer + (LittleEndian(8, |items|) + EncodeAll(c, items)))
                 else Failure(Limit)
  {
    r := WriteAll(c, items, buffer + LittleEndian(8, |items|));
    assert buffer + LittleEndian(8, |items|) + EncodeAll(c, items)
        == buffer + (LittleEndian(8, |items|) + EncodeAll(c, items));
  }

  method ReadCounted<T>(c: Codec<T>, input: seq<byte>) returns (r: Reading<seq<T>>)
    ensures r == CountedCodec(c, MAX_RECORDS).decode(input)
  {
    var count :- IntCodec(8).decode(input);
    if count.0 > MAX_RECORDS {
      return Failure(Limit);
    }
    r := ReadAll(c, count.0, count.1);
  }

  method EncodeStableIdTable(p: Platform, entries: seq<StableIdEntry>) returns (r: Result<seq<byte>, Error>)
    requires StableIdLayout(p).codec.fits(entries)
    ensures r == Save(StableIdLayout(p), p, entries)
  {
    var checked := CheckStableIds(entries);
    if checked.Failure? {
      return Failure(checked.error);
    }
    CountedFields(StableIdCodec(p), entries);
    var written := WriteCounted(StableIdCodec(p), entries, []);
    assert [] + (LittleEndian(8, |entries|) + EncodeAll(StableIdCodec(p), entries))
        == LittleEndian(8, |entries|) + EncodeAll(StableIdCodec(p), entries);
    r := Finish(StableIdLayout(p), p, entries, written);
  }

  method DecodeStableIdTable(p: Platform, bytes: seq<byte>) returns (r: Result<seq<StableIdEntry>, Error>)
    ensures r == Load(StableIdLayout(p), p, bytes)
  {
    var payload :- Unseal(StableIdLayout(p), p, bytes);
    var table :- ReadCounted(StableIdCodec(p), payload);
    if table.1 != [] {
      return Failure(Format);
    }
    var checked := CheckStableIds(table.0);
    if checked.Failure? {
      return Failure(checked.error);
    }
    r := Success(table.0);
  }

  /** Every database that encodes decodes to itself. */
  lemma DecodeInvertsEncode(p: Platform, db: Database)
    requires Sixteen(p.md5) && Representable(p, db)
    requires Save(DatabaseLayout(p), p, db).Success?
    ensures Load(DatabaseLayout(p), p, Save(DatabaseLayout(p), p, db).value) == Success(db)
  {
    LayoutsWellFormed(p);
    LoadInvertsSave(DatabaseLayout(p), p, db);
  }

  /** Every byte string that decodes is exactly the encoding of its result, so no two decode alike. */
  lemma EncodeInvertsDecode(p: Platform, bytes: seq<byte>)
    requires Sixteen(p.md5)
    requires Load(DatabaseLayout(p), p, bytes).Success?
    ensures var db := Load(DatabaseLayout(p), p, bytes).value;
      Representable(p, db) && Save(DatabaseLayout(p), p, db) == Success(bytes)
  {
    LayoutsWellFormed(p);
    SaveInvertsLoad(DatabaseLayout(p), p, bytes);
  }

  lemma StableIdTableRoundTrips(p: Platform, entries: seq<StableIdEntry>, bytes: seq<byte>)
    requires Sixteen(p.md5) && StableIdLayout(p).codec.fits(entries)
    ensures Save(StableIdLayout(p), p, entries) == Success(bytes) <==>
        Load(StableIdLayout(p), p, bytes) == Success(entries)
  {
    LayoutsWellFormed(p);
    if Save(StableIdLayout(p), p, entries) == Success(bytes) {
      LoadInvertsSave(StableIdLayout(p), p, entries);
    }
    if Load(StableIdLayout(p), p, bytes) == Success(entries) {
      SaveInvertsLoad(StableIdLayout(p), p, bytes);
    }
  }
}
