/** The uberblock record and the block pointer inside it (zfs/uberblock.go,
    zfs/blockpointer.go), laid out as Go lays out the structs: every field is
    a `uint64` or a pair of `uint32`s, so a record is a run of little-endian
    64-bit words. */
module Uberblock {
  import opened Binary
  import BlockPointer

  /** `ub_magic` of a live uberblock ("oo-ba-bloc"). */
  const Magic: nat := 0xbab10c

  /** 26 words: five header words, the 16-word block pointer, the software
      version, three pad words and the checkpoint txg. */
  const WordCount: nat := 26
  const RecordSize: nat := 8 * WordCount

  /** `blkptr_t`: three DVAs, the props word, two pad words, two birth txgs,
      the fill count and a 256-bit checksum. The DVAs and the props word are
      bit fields; the rest are plain `uint64` values. */
  datatype BlockPointerRecord = BlockPointerRecord(
    dvas: seq<BlockPointer.Dva>, props: bv64, padding: seq<nat>,
    birthTxg: nat, birth: nat, fill: nat, checksum: seq<nat>)
  {
    predicate Valid() {
      && |dvas| == 3 && |padding| == 2 && |checksum| == 4
      && (forall i :: 0 <= i < 2 ==> padding[i] < Two64)
      && birthTxg < Two64 && birth < Two64 && fill < Two64
      && (forall i :: 0 <= i < 4 ==> checksum[i] < Two64)
    }
  }

  datatype UberBlock = UberBlock(
    magic: nat, version: nat, txg: nat, guidSum: nat, timestamp: nat,
    rootBp: BlockPointerRecord, softwareVersion: nat, pad: seq<nat>, checkpointTx: nat)
  {
    predicate Valid() {
      && magic < Two64 && version < Two64 && txg < Two64 && guidSum < Two64 && timestamp < Two64
      && rootBp.Valid() && softwareVersion < Two64
      && |pad| == 3 && (forall i :: 0 <= i < 3 ==> pad[i] < Two64)
      && checkpointTx < Two64
    }
  }

  /** The magic test `UberBlock.String` reports as "valid". */
  predicate HasMagic(u: UberBlock): (valid: bool)
    ensures valid <==> u.magic == 0xbab10c
  {
    u.magic == Magic
  }

  // ---------------------------------------------------------------------
  // Eight-byte chunks and fields.

  /** A `uint64` field read from its eight bytes. */
  function U64(c: Bytes): (n: nat)
    requires |c| == 8
    ensures n < Two64
  {
    Uint64Of(c, LittleEndian)
  }

  /** The eight bytes of a `uint64` field. */
  function U64Bytes(n: nat): (c: Bytes)
    ensures |c| == 8
  {
    LittleEndianBytes(n, 8)
  }

  lemma U64RoundTrip(n: nat)
    requires n < Two64
    ensures U64(U64Bytes(n)) == n
  {
    assert Pow256(8) == Two64;
    LittleEndianBytesValue(n, 8);
  }

  /** A DVA is two words: `VDEV` in the low half of the first, `Size` in the
      high half, then `Offset`. */
  function DvaOf(c0: Bytes, c1: Bytes): BlockPointer.Dva
    requires |c0| == 8 && |c1| == 8
  {
    var w0 := Word64(c0);
    BlockPointer.Dva((w0 & 0xffff_ffff) as bv32, (w0 >> 32) as bv32, Word64(c1))
  }

  function DvaChunks(d: BlockPointer.Dva): (cs: seq<Bytes>)
    ensures |cs| == 2 && |cs[0]| == 8 && |cs[1]| == 8
  {
    [Word64Bytes((d.size as bv64 << 32) | d.vdev as bv64), Word64Bytes(d.offset)]
  }

  lemma DvaHalves(d: BlockPointer.Dva)
    ensures var w := (d.size as bv64 << 32) | d.vdev as bv64;
      (w & 0xffff_ffff) as bv32 == d.vdev && (w >> 32) as bv32 == d.size
  {
  }

  lemma DvaRoundTrip(d: BlockPointer.Dva)
    ensures DvaOf(DvaChunks(d)[0], DvaChunks(d)[1]) == d
  {
    var w := (d.size as bv64 << 32) | d.vdev as bv64;
    WordBytesRoundTrip(w);
    WordBytesRoundTrip(d.offset);
    DvaHalves(d);
  }

  /** True when every chunk is eight bytes long. */
  predicate Chunked(cs: seq<Bytes>) {
    forall i :: 0 <= i < |cs| ==> |cs[i]| == 8
  }

  /** The block pointer held in 16 chunks, fields in declaration order. */
  function BlockPointerOf(cs: seq<Bytes>): (bp: BlockPointerRecord)
    requires |cs| == 16 && Chunked(cs)
    ensures bp.Valid()
  {
    BlockPointerRecord(
      [DvaOf(cs[0], cs[1]), DvaOf(cs[2], cs[3]), DvaOf(cs[4], cs[5])],
      Word64(cs[6]), [U64(cs[7]), U64(cs[8])], U64(cs[9]), U64(cs[10]), U64(cs[11]),
      [U64(cs[12]), U64(cs[13]), U64(cs[14]), U64(cs[15])])
  }

  function BlockPointerChunks(bp: BlockPointerRecord): (cs: seq<Bytes>)
    requires bp.Valid()
    ensures |cs| == 16 && Chunked(cs)
  {
    DvaChunks(bp.dvas[0]) + DvaChunks(bp.dvas[1]) + DvaChunks(bp.dvas[2])
    + [Word64Bytes(bp.props), U64Bytes(bp.padding[0]), U64Bytes(bp.padding[1]),
       U64Bytes(bp.birthTxg), U64Bytes(bp.birth), U64Bytes(bp.fill),
       U64Bytes(bp.checksum[0]), U64Bytes(bp.checksum[1]),
       U64Bytes(bp.checksum[2]), U64Bytes(bp.checksum[3])]
  }

  lemma BlockPointerDvasRoundTrip(bp: BlockPointerRecord)
    requires bp.Valid()
    ensures BlockPointerOf(BlockPointerChunks(bp)).dvas == bp.dvas
  {
    DvaRoundTrip(bp.dvas[0]);
    DvaRoundTrip(bp.dvas[1]);
    DvaRoundTrip(bp.dvas[2]);
  }

  lemma BlockPointerValuesRoundTrip(bp: BlockPointerRecord)
    requires bp.Valid()
    ensures var r := BlockPointerOf(BlockPointerChunks(bp));
      r.props == bp.props && r.padding == bp.padding && r.birthTxg == bp.birthTxg
      && r.birth == bp.birth && r.fill == bp.fill && r.checksum == bp.checksum
  {
    WordBytesRoundTrip(bp.props);
    U64RoundTrip(bp.padding[0]);
    U64RoundTrip(bp.padding[1]);
    U64RoundTrip(bp.birthTxg);
    U64RoundTrip(bp.birth);
    U64RoundTrip(bp.fill);
    U64RoundTrip(bp.checksum[0]);
    U64RoundTrip(bp.checksum[1]);
    U64RoundTrip(bp.checksum[2]);
    U64RoundTrip(bp.checksum[3]);
  }

  lemma BlockPointerRoundTrip(bp: BlockPointerRecord)
    requires bp.Valid()
    ensures BlockPointerOf(BlockPointerChunks(bp)) == bp
  {
    BlockPointerDvasRoundTrip(bp);
    BlockPointerValuesRoundTrip(bp);
  }

  /** The record held in 26 chunks, fields in declaration order. */
  function FromChunks(cs: seq<Bytes>): (u: UberBlock)
    requires |cs| == WordCount && Chunked(cs)
    ensures u.Valid()
  {
    UberBlock(U64(cs[0]), U64(cs[1]), U64(cs[2]), U64(cs[3]), U64(cs[4]),
      BlockPointerOf(cs[5..21]), U64(cs[21]), [U64(cs[22]), U64(cs[23]), U64(cs[24])], U64(cs[25]))
  }

  function ToChunks(u: UberBlock): (cs: seq<Bytes>)
    requires u.Valid()
    ensures |cs| == WordCount && Chunked(cs)
  {
    [U64Bytes(u.magic), U64Bytes(u.version), U64Bytes(u.txg), U64Bytes(u.guidSum), U64Bytes(u.timestamp)]
    + BlockPointerChunks(u.rootBp)
    + [U64Bytes(u.softwareVersion), U64Bytes(u.pad[0]), U64Bytes(u.pad[1]), U64Bytes(u.pad[2]),
       U64Bytes(u.checkpointTx)]
  }

  lemma FromToChunks(u: UberBlock)
    requires u.Valid()
    ensures FromChunks(ToChunks(u)) == u
  {
    var cs := ToChunks(u);
    assert cs[5..21] == BlockPointerChunks(u.rootBp);
    BlockPointerRoundTrip(u.rootBp);
    U64RoundTrip(u.magic);
    U64RoundTrip(u.version);
    U64RoundTrip(u.txg);
    U64RoundTrip(u.guidSum);
    U64RoundTrip(u.timestamp);
    U64RoundTrip(u.softwareVersion);
    U64RoundTrip(u.pad[0]);
    U64RoundTrip(u.pad[1]);
    U64RoundTrip(u.pad[2]);
    U64RoundTrip(u.checkpointTx);
  }

  // ---------------------------------------------------------------------
  // Bytes and chunks.

  /** The first `n` eight-byte chunks of `b`. */
  function Chunks(b: Bytes, n: nat): (cs: seq<Bytes>)
    requires |b| >= 8 * n
    ensures |cs| == n && Chunked(cs)
    ensures forall i :: 0 <= i < n ==> cs[i] == b[8 * i..8 * i + 8]
  {
    seq(n, i requires 0 <= i < n => b[8 * i..8 * i + 8])
  }

  /** The chunks laid end to end. */
  function Flatten(cs: seq<Bytes>): (b: Bytes)
    requires Chunked(cs)
    ensures |b| == 8 * |cs|
  {
    if cs == [] then [] else cs[0] + Flatten(cs[1..])
  }

  lemma {:induction false} FlattenSlice(cs: seq<Bytes>, i: nat)
    requires Chunked(cs) && i < |cs|
    ensures Flatten(cs)[8 * i..8 * i + 8] == cs[i]
    decreases i
  {
    if i > 0 {
      FlattenSlice(cs[1..], i - 1);
      assert Flatten(cs)[8 * i..8 * i + 8] == Flatten(cs[1..])[8 * (i - 1)..8 * (i - 1) + 8];
    }
  }

  lemma ChunksOfFlatten(cs: seq<Bytes>)
    requires Chunked(cs)
    ensures Chunks(Flatten(cs), |cs|) == cs
  {
    forall i | 0 <= i < |cs|
      ensures Chunks(Flatten(cs), |cs|)[i] == cs[i]
    {
      FlattenSlice(cs, i);
    }
  }

  // ---------------------------------------------------------------------
  // Records and bytes.

  /** An uberblock slot read through Go's pointer cast: the first 208 bytes
      are the struct, the rest of the slot is not looked at. */
  function Decode(slot: Bytes): (u: UberBlock)
    requires |slot| >= RecordSize
    ensures u.Valid()
    ensures u.magic == Uint64Of(slot[..8], LittleEndian)
    ensures u.timestamp == Uint64Of(slot[32..40], LittleEndian)
  {
    FromChunks(Chunks(slot, WordCount))
  }

  function Encode(u: UberBlock): (b: Bytes)
    requires u.Valid()
    ensures |b| == RecordSize
  {
    Flatten(ToChunks(u))
  }

  /** Decoding reads back every field that was encoded. */
  lemma DecodeEncode(u: UberBlock)
    requires u.Valid()
    ensures Decode(Encode(u)) == u
  {
    ChunksOfFlatten(ToChunks(u));
    FromToChunks(u);
  }

  /** Bytes past the record never change what a slot decodes to. */
  lemma DecodeIgnoresTail(slot: Bytes, tail: Bytes)
    requires |slot| >= RecordSize
    ensures Decode(slot + tail) == Decode(slot)
  {
    assert Chunks(slot + tail, WordCount) == Chunks(slot, WordCount) by {
      forall i | 0 <= i < WordCount
        ensures (slot + tail)[8 * i..8 * i + 8] == slot[8 * i..8 * i + 8]
      {
      }
    }
  }

  // ---------------------------------------------------------------------
  // ActiveUberBlock: sizes scaled by the vdev's allocation shift.

  /** `ActiveUberBlock`: an uberblock together with the `uint` allocation
      shift of its vdev. */
  datatype ActiveUberBlock = ActiveUberBlock(ashift: nat, ub: UberBlock)

  /** Go's `1 << s` for a `uint` count, typed `int` by the multiplication it
      appears in: the bit leaves the 64-bit word once `s` reaches 64. */
  function ShiftedOne(s: nat): (r: int)
    ensures (r - Pow2(s)) % Two64 == 0
    ensures s < 63 ==> r == Pow2(s)
    ensures s >= 64 ==> r == 0
  {
    if s < 63 then
      Pow2BelowSignBit(s);
      Pow2(s)
    else if s >= 64 then
      Pow2PastWord(s);
      0
    else
      Int64Wrap(Pow2(s))
  }

  lemma Pow2BelowSignBit(s: nat)
    requires s < 63
    ensures Pow2(s) < Two63
  {
    Pow2Words();
    Pow2Monotonic(s + 1, 63);
  }

  lemma Pow2PastWord(s: nat)
    requires s >= 64
    ensures Pow2(s) % Two64 == 0
  {
    var q := Pow2(s - 64);
    Pow2Words();
    Pow2Add(64, s - 64);
    assert Pow2(s) == Two64 * q;
    ModUnique(Pow2(s), Two64, q, 0);
  }

  /** The allocation shift of an active uberblock applied to a byte count,
      in Go's 64-bit `int`. */
  function ScaleByShift(size: int, s: nat): (r: int)
    ensures r == Int64Wrap(size * Pow2(s))
  {
    Int64WrapProduct(size, ShiftedOne(s), Pow2(s));
    Int64Wrap(size * ShiftedOne(s))
  }

  /** `ActiveUberBlock.Lsize`: the root block's logical size times 2^ashift. */
  function Lsize(a: ActiveUberBlock): (r: int)
    ensures r == Int64Wrap(BlockPointer.Lsize(a.ub.rootBp.props) * Pow2(a.ashift))
  {
    ScaleByShift(BlockPointer.Lsize(a.ub.rootBp.props), a.ashift)
  }

  /** `ActiveUberBlock.Psize`: the root block's physical size times 2^ashift. */
  function Psize(a: ActiveUberBlock): (r: int)
    ensures r == Int64Wrap(BlockPointer.Psize(a.ub.rootBp.props) * Pow2(a.ashift))
  {
    ScaleByShift(BlockPointer.Psize(a.ub.rootBp.props), a.ashift)
  }

  /** Below a shift of 47 nothing overflows: a size of at most 130560 bytes
      times 2^46 stays under 2^63, so the product is exact. */
  lemma {:induction false} ScaleByShiftExact(size: int, s: nat)
    requires 0 <= size <= 130560 && s <= 46
    ensures ScaleByShift(size, s) == size * Pow2(s)
  {
    ProductBelowSignBit(size, s);
  }

  lemma ProductBelowSignBit(size: int, s: nat)
    requires 0 <= size <= 130560 && s <= 46
    ensures 0 <= size * Pow2(s) < Two63
  {
    var p, q := Pow2(s), Pow2(46);
    Pow2Monotonic(s, 46);
    Pow2Limit();
    MulMonotonic(size, 130560, p);
  }

  lemma Pow2Limit()
    ensures Pow2(46) * 131072 == Two63
  {
    Pow2Words();
    Pow2Add(46, 17);
    Pow2Add(16, 1);
  }

  lemma SizesExact(a: ActiveUberBlock)
    requires a.ashift <= 46
    ensures Lsize(a) == BlockPointer.Lsize(a.ub.rootBp.props) * Pow2(a.ashift)
    ensures Psize(a) == BlockPointer.Psize(a.ub.rootBp.props) * Pow2(a.ashift)
  {
    ScaleByShiftExact(BlockPointer.Lsize(a.ub.rootBp.props), a.ashift);
    ScaleByShiftExact(BlockPointer.Psize(a.ub.rootBp.props), a.ashift);
  }

  /** A size byte of 0xff wraps to 0 bytes, and 0 scales to 0 at any shift. */
  lemma SizesVanishOnWrap(a: ActiveUberBlock)
    ensures BlockPointer.SizeByte(a.ub.rootBp.props, 0) == 0xff ==> Lsize(a) == 0
    ensures BlockPointer.SizeByte(a.ub.rootBp.props, 8) == 0xff ==> Psize(a) == 0
  {
  }
}
