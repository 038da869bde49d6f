/** The older name/value dumpers, packages `zfs/internal/namevalue` and
    `internal/namevalue`. Both carry the same `getRecord` and `DumpNvlist`:
    a record is a big-endian `uint32` length, a big-endian `uint32` key
    length and the key's bytes. The data the length announces is never
    read, so the next record is looked for right after the key. */
module NameValue {
  import opened Binary
  import opened Wrappers
  import T = NvInternal

  /** What `binary.Read` passes on from `io.ReadFull` when the stream runs
      out: `io.EOF` when nothing at all was read, `io.ErrUnexpectedEOF` when
      only part of the value was there. */
  datatype ReadError = EOF | UnexpectedEOF

  /** `binary.Read` of `n` bytes: the bytes on success; reading zero bytes
      always succeeds, even at the end of the stream. */
  function ReadFull(b: Bytes, n: nat): (r: Result<Bytes, ReadError>)
    ensures r.Success? <==> n <= |b|
    ensures r.Success? ==> r.value == b[..n]
    ensures r.Failure? ==> (r.error == EOF <==> |b| == 0)
  {
    if n <= |b| then Success(b[..n])
    else if |b| == 0 then Failure(EOF)
    else Failure(UnexpectedEOF)
  }

  /** What `getRecord` hands back: the key, and the bytes after it. The
      returned data is always nil, so it has no field here. */
  datatype Record = Record(key: string, rest: Bytes)

  /** The key length field of a record starting at `b`. */
  function KeyLength(b: Bytes): (n: nat)
    requires |b| >= 8
    ensures n < Two32
  {
    Uint32Of(b[4..8], BigEndian)
  }

  /** `getRecord`: the length word (read and only logged), the key length
      word, the key, and an empty data read. A record succeeds exactly when
      both words and the whole key are there; it then consumes 8 bytes plus
      the key and nothing of the data. A short read reports `io.EOF` when it
      began at the end of the stream. */
  function GetRecord(b: Bytes): (r: Result<Record, ReadError>)
    ensures r.Success? <==> |b| >= 8 && 8 + KeyLength(b) <= |b|
    ensures r.Success? ==>
      && r.value.key == BytesToString(b[8..8 + KeyLength(b)])
      && r.value.rest == b[8 + KeyLength(b)..]
    ensures r.Failure? ==>
      (r.error == EOF <==> |b| == 0 || |b| == 4 || (|b| == 8 && KeyLength(b) > 0))
  {
    var length :- ReadFull(b, 4);
    var keyLength :- ReadFull(b[4..], 4);
    assert keyLength == b[4..8];
    var n := Uint32Of(keyLength, BigEndian);
    var key :- ReadFull(b[8..], n);
    assert key == b[8..8 + n];
    var data :- ReadFull(b[8 + n..], 0);
    Success(Record(BytesToString(key), b[8 + n..]))
  }

  /** The keys `DumpNvlist` reads one after the other, and the error that
      ends the loop. */
  function DumpSpec(b: Bytes): (r: (seq<string>, ReadError))
    decreases |b|
  {
    match GetRecord(b)
    case Failure(e) => ([], e)
    case Success(rec) =>
      var (keys, e) := DumpSpec(rec.rest);
      ([rec.key] + keys, e)
  }

  /** `DumpNvlist`: read records until the first error, which is logged
      and ends the dump. Every finite stream ends that way. */
  method DumpNvlist(b: Bytes) returns (keys: seq<string>, err: ReadError)
    ensures (keys, err) == DumpSpec(b)
  {
    keys := [];
    var rest := b;
    while true
      invariant keys + DumpSpec(rest).0 == DumpSpec(b).0
      invariant DumpSpec(rest).1 == DumpSpec(b).1
      decreases |rest|
    {
      var r := GetRecord(rest);
      if r.Failure? {
        assert DumpSpec(rest) == ([], r.error);
        assert keys + [] == keys;
        err := r.error;
        return;
      }
      assert DumpSpec(rest).0 == [r.value.key] + DumpSpec(r.value.rest).0;
      assert keys + [r.value.key] + DumpSpec(r.value.rest).0 == keys + ([r.value.key] + DumpSpec(r.value.rest).0);
      keys := keys + [r.value.key];
      rest := r.value.rest;
    }
  }

  // ---------------------------------------------------------------------
  // Writing records, and what the dumper makes of them.

  /** A record: the length word, the key length, the key, then `tail`. */
  function EncodeRecord(length: nat, key: Bytes, tail: Bytes): (b: Bytes)
    requires length < Two32 && |key| < Two32
    ensures |b| == 8 + |key| + |tail|
  {
    Uint32Bytes(length, BigEndian) + (Uint32Bytes(|key|, BigEndian) + (key + tail))
  }

  /** A written record reads back as its key and leaves everything after
      the key, including any data bytes the length word counts. */
  lemma RecordRoundTrip(length: nat, key: Bytes, tail: Bytes)
    requires length < Two32 && |key| < Two32
    ensures GetRecord(EncodeRecord(length, key, tail)) == Success(Record(BytesToString(key), tail))
  {
    var b := EncodeRecord(length, key, tail);
    var after := Uint32Bytes(|key|, BigEndian) + (key + tail);
    assert b[4..] == after;
    assert b[4..8] == Uint32Bytes(|key|, BigEndian);
    Uint32RoundTrip(|key|, BigEndian);
    assert b[8..] == key + tail;
    assert b[8..8 + |key|] == key;
  }

  /** The records `(length, key)` written back to back. */
  function EncodeRecords(records: seq<(nat, Bytes)>): (b: Bytes)
    requires forall i :: 0 <= i < |records| ==> records[i].0 < Two32 && |records[i].1| < Two32
  {
    if records == [] then []
    else EncodeRecord(records[0].0, records[0].1, EncodeRecords(records[1..]))
  }

  function Keys(records: seq<(nat, Bytes)>): (keys: seq<string>)
    ensures |keys| == |records|
  {
    if records == [] then [] else [BytesToString(records[0].1)] + Keys(records[1..])
  }

  /** Records written back to back with no data are dumped as their keys,
      in order, and the dump then stops at `io.EOF`. */
  lemma {:induction false} DumpRecords(records: seq<(nat, Bytes)>)
    requires forall i :: 0 <= i < |records| ==> records[i].0 < Two32 && |records[i].1| < Two32
    ensures DumpSpec(EncodeRecords(records)) == (Keys(records), EOF)
  {
    if records != [] {
      RecordRoundTrip(records[0].0, records[0].1, EncodeRecords(records[1..]));
      DumpRecords(records[1..]);
    }
  }

  /** Data bytes after a key are read as the next record's header: two
      records whose first one carries data are not dumped as two keys. */
  lemma DataIsReadAsRecord(length: nat, key: Bytes, data: Bytes, rest: Bytes)
    requires length < Two32 && |key| < Two32
    ensures DumpSpec(EncodeRecord(length, key, data + rest))
      == ([BytesToString(key)] + DumpSpec(data + rest).0, DumpSpec(data + rest).1)
  {
    RecordRoundTrip(length, key, data + rest);
  }

  // ---------------------------------------------------------------------
  // Header and enumerations of `zfs/internal/namevalue`.

  datatype Header = Header(encoding: int, endian: int, reserved1: int, reserved2: int)

  /** `Header.Verify`: accepts every header. */
  function Verify(h: Header): (err: Option<string>)
    ensures err.None?
  {
    None
  }

  /** This package numbers the byte orders the other way round from the
      XDR header: 0 is big-endian and 1 little-endian. */
  const BigEndianValue: int := 0
  const LittleEndianValue: int := 1

  const InvalidEndianName: string := "*ERROR-INVALID-ENDIAN-VALUE*"

  /** `Endian.String`: the two defined values by name, one fixed error text
      for every other value. */
  function EndianString(e: int): (r: string)
    requires -128 <= e < 128
    ensures r == "BigEndian" <==> e == BigEndianValue
    ensures r == "LittleEndian" <==> e == LittleEndianValue
    ensures r == InvalidEndianName <==> e != BigEndianValue && e != LittleEndianValue
  {
    if e == BigEndianValue then "BigEndian"
    else if e == LittleEndianValue then "LittleEndian"
    else InvalidEndianName
  }

  /** The same name stands for opposite numbers in this package and in the
      XDR header, and the invalid values print without their number here. */
  lemma EndianNumberingSwapped(e: int)
    requires e == 0 || e == 1
    ensures EndianString(e) == T.EndianString(1 - e)
    ensures EndianString(e) != T.EndianString(e)
  {
  }

  /** `Type.String` of this package, over `uint32` type numbers: the same
      names and numbering as the `int32` type of `zfs/internal/nvlist`. */
  function TypeString(t: nat): (r: string)
    requires t < Two32
    ensures r == T.TypeString(t)
  {
    T.TypeNamesDistinct();
    if t <= T.Uint8Array then T.TypeNames[t] else T.UnknownTypeName
  }

  // ---------------------------------------------------------------------
  // The type numbering of `internal/namevalue`, which departs from the
  // one above after `Uint32`: `String` is 7 there and `Double`, absent
  // above, is 22. No operation of that package uses it.

  const LegacyUnknown: int := 0
  const LegacyBoolean: int := 1
  const LegacyByte: int := 2
  const LegacyInt16: int := 3
  const LegacyUint16: int := 4
  const LegacyInt32: int := 5
  const LegacyUint32: int := 6
  const LegacyString: int := 7
  const LegacyByteArray: int := 8
  const LegacyUint16Array: int := 9
  const LegacyInt32Array: int := 10
  const LegacyInt64Array: int := 11
  const LegacyStringArray: int := 12
  const LegacyHRTime: int := 13
  const LegacyNVList: int := 14
  const LegacyNVListArray: int := 15
  const LegacyBooleanValue: int := 16
  const LegacyInt8: int := 17
  const LegacyUint8: int := 18
  const LegacyBooleanArray: int := 19
  const LegacyInt8Array: int := 20
  const LegacyUint8Array: int := 21
  const LegacyDouble: int := 22
}
