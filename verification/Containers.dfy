/**
  The checksummed container around a serialized payload: eight bytes of magic,
  a version, zero flags, the payload length and an MD5 checksum
  (crates/dm-compiler/src/persistent_database.rs:67-126, 287-401).
 */
module Containers {
  import opened Wrappers
  import opened MachineIntegers
  import opened Codecs

  const HEADER_LEN := 40
  const MAX_DATABASE_BYTES := 8 * 1024 * 1024 * 1024

  /** The two foreign functions the format relies on; nothing else is known of them. */
  datatype Platform = Platform(md5: seq<byte> -> seq<byte>, utf8: seq<byte> -> bool)

  ghost predicate Sixteen(md5: seq<byte> -> seq<byte>) {
    forall b :: |md5(b)| == 16
  }

  /** One kind of stored file: its magic, its record layout and its semantic check. */
  datatype Layout<!T> = Layout(
    magic: seq<byte>,
    version: nat,
    codec: Codec<T>,
    validate: T -> Result<(), Error>,
    tooLong: Error)

  function Seal<T>(l: Layout<T>, p: Platform, payload: seq<byte>): seq<byte> {
    l.magic + LittleEndian(4, l.version) + LittleEndian(4, 0) + LittleEndian(8, |payload|)
    + p.md5(payload) + payload
  }

  function Unseal<T>(l: Layout<T>, p: Platform, bytes: seq<byte>): Result<seq<byte>, Error> {
    if |bytes| > MAX_DATABASE_BYTES then Failure(l.tooLong)
    else if |bytes| < HEADER_LEN then Failure(Format)
    else if bytes[..8] != l.magic then Failure(Format)
    else if FromLittleEndian(bytes[8..12]) != l.version || FromLittleEndian(bytes[12..16]) != 0 then Failure(Format)
    else if FromLittleEndian(bytes[16..24]) != |bytes| - HEADER_LEN then Failure(Format)
    else if p.md5(bytes[40..]) != bytes[24..40] then Failure(Format)
    else Success(bytes[40..])
  }

  function Save<T>(l: Layout<T>, p: Platform, x: T): Result<seq<byte>, Error> {
    var _ :- l.validate(x);
    if !l.codec.valid(x) then Failure(Limit)
    else if |l.codec.encode(x)| > MAX_DATABASE_BYTES - HEADER_LEN then Failure(Limit)
    else Success(Seal(l, p, l.codec.encode(x)))
  }

  function Load<T>(l: Layout<T>, p: Platform, bytes: seq<byte>): Result<T, Error> {
    var payload :- Unseal(l, p, bytes);
    var (x, rest) :- l.codec.decode(payload);
    if rest != [] then Failure(Format)
    else
      var _ :- l.validate(x);
      Success(x)
  }

  ghost predicate WellFormed<T(!new)>(l: Layout<T>, p: Platform) {
    Sixteen(p.md5) && |l.magic| == 8 && l.version < U32_LIMIT && Lawful(l.codec)
  }

  lemma SixParts(a: seq<byte>, b: seq<byte>, c: seq<byte>, d: seq<byte>, e: seq<byte>, f: seq<byte>)
    requires |a| == 8 && |b| == 4 && |c| == 4 && |d| == 8 && |e| == 16
    ensures var all := a + b + c + d + e + f;
      && |all| == 40 + |f| && all[..8] == a && all[8..12] == b && all[12..16] == c && all[16..24] == d
      && all[24..40] == e && all[40..] == f
  {
  }

  lemma SealedParts<T(!new)>(l: Layout<T>, p: Platform, payload: seq<byte>)
    requires WellFormed(l, p)
    ensures var b := Seal(l, p, payload);
      && |b| == HEADER_LEN + |payload|
      && b[..8] == l.magic
      && b[8..12] == LittleEndian(4, l.version)
      && b[12..16] == LittleEndian(4, 0)
      && b[16..24] == LittleEndian(8, |payload|)
      && b[24..40] == p.md5(payload)
      && b[40..] == payload
  {
    SixParts(l.magic, LittleEndian(4, l.version), LittleEndian(4, 0), LittleEndian(8, |payload|), p.md5(payload),
        payload);
  }

  lemma UnsealInvertsSeal<T(!new)>(l: Layout<T>, p: Platform, payload: seq<byte>)
    requires WellFormed(l, p)
    requires |payload| <= MAX_DATABASE_BYTES - HEADER_LEN
    ensures Unseal(l, p, Seal(l, p, payload)) == Success(payload)
  {
    SealedParts(l, p, payload);
    Widths();
    LittleEndianRoundTrip(4, l.version);
    LittleEndianRoundTrip(4, 0);
    LittleEndianRoundTrip(8, |payload|);
  }

  lemma SealInvertsUnseal<T(!new)>(l: Layout<T>, p: Platform, bytes: seq<byte>)
    requires WellFormed(l, p)
    requires Unseal(l, p, bytes).Success?
    ensures var payload := Unseal(l, p, bytes).value;
      bytes == Seal(l, p, payload) && |payload| <= MAX_DATABASE_BYTES - HEADER_LEN
  {
    var payload := bytes[40..];
    FromLittleEndianRoundTrip(bytes[8..12]);
    FromLittleEndianRoundTrip(bytes[12..16]);
    FromLittleEndianRoundTrip(bytes[16..24]);
    assert bytes == bytes[..8] + bytes[8..12] + bytes[12..16] + bytes[16..24] + bytes[24..40] + bytes[40..];
  }

  /** Everything that saves loads back as itself. */
  lemma LoadInvertsSave<T(!new)>(l: Layout<T>, p: Platform, x: T)
    requires WellFormed(l, p) && l.codec.fits(x)
    requires Save(l, p, x).Success?
    ensures Load(l, p, Save(l, p, x).value) == Success(x)
  {
    UnsealInvertsSeal(l, p, l.codec.encode(x));
    assert l.codec.encode(x) + [] == l.codec.encode(x);
  }

  /** Every byte string that loads is the saved form of what it loads to. */
  lemma SaveInvertsLoad<T(!new)>(l: Layout<T>, p: Platform, bytes: seq<byte>)
    requires WellFormed(l, p)
    requires Load(l, p, bytes).Success?
    ensures var x := Load(l, p, bytes).value;
      l.codec.fits(x) && Save(l, p, x) == Success(bytes)
  {
    SealInvertsUnseal(l, p, bytes);
    var payload := Unseal(l, p, bytes).value;
    var (x, rest) := l.codec.decode(payload).value;
    assert payload == l.codec.encode(x) + rest;
    assert payload == l.codec.encode(x);
  }

  /** Changing payload bytes under an accepted header is caught unless MD5 collides. */
  lemma CorruptionIsCaught<T(!new)>(l: Layout<T>, p: Platform, bytes: seq<byte>, changed: seq<byte>)
    requires WellFormed(l, p)
    requires Load(l, p, bytes).Success?
    requires |changed| >= HEADER_LEN && changed[..HEADER_LEN] == bytes[..HEADER_LEN] && changed != bytes
    ensures Load(l, p, changed).Success? ==>
              p.md5(changed[HEADER_LEN..]) == p.md5(bytes[HEADER_LEN..]) && changed[HEADER_LEN..] != bytes[HEADER_LEN..]
  {
    assert changed[24..40] == changed[..HEADER_LEN][24..40] == bytes[..HEADER_LEN][24..40] == bytes[24..40];
    assert changed == changed[..HEADER_LEN] + changed[HEADER_LEN..];
    assert bytes == bytes[..HEADER_LEN] + bytes[HEADER_LEN..];
  }
}
