/** Block-pointer and DVA bit fields as decoded by package `zfs` (zfs/zfs.go):
    every accessor is a pure function of one 32- or 64-bit word. */
module BlockPointer {
  import Format

  /** A data virtual address: vdev id, GRID byte plus 24-bit allocated size,
      and the G (gang) bit above a 63-bit offset in 512-byte sectors. */
  datatype Dva = Dva(vdev: bv32, size: bv32, offset: bv64)

  const GangBit: bv64 := 1 << 63

  /** The start of the allocatable area: two labels and the boot block, 4 MiB. */
  const DataStart: bv64 := 0x40_0000

  /** The allocated size: the low 24 bits of `size`. */
  function Asize(d: Dva): (r: int)
    ensures 0 <= r < 0x100_0000
    ensures r == AsizeBits(d) as int
  {
    AsizeBits(d) as int
  }

  /** The low 24 bits of `size`, as a 24-bit word. */
  function AsizeBits(d: Dva): (r: bv24)
    ensures r as bv32 == d.size & 0xff_ffff
  {
    (d.size & 0xff_ffff) as bv24
  }

  /** The GRID byte, the part of `size` that `Asize` drops. */
  function Grid(d: Dva): (r: bv32)
    ensures r < 0x100
  {
    d.size >> 24
  }

  /** The byte offset of the block on the vdev: the sector offset, G bit
      cleared, times 512, plus 4 MiB, in wrapping `uint64` arithmetic. */
  function Block(d: Dva): (r: bv64)
    ensures r == (d.offset << 9) + DataStart
  {
    ((d.offset & !GangBit) << 9) + DataStart
  }

  /** True when the G bit, the top bit of `offset`, is set. */
  function Gang(d: Dva): (r: bool)
    ensures r <==> d.offset >= GangBit
  {
    d.offset & GangBit != 0
  }

  /** `Asize` and `Grid` together give back the whole `size` word. */
  lemma AsizeGridSplitSize(d: Dva)
    ensures (Grid(d) << 24) | AsizeBits(d) as bv32 == d.size
  {
  }

  /** The block lies 512 bytes per sector of the G-less offset past 4 MiB. */
  lemma BlockIsSectorOffset(d: Dva)
    ensures Block(d) - DataStart == (d.offset & !GangBit) * 512
  {
  }

  /** Flipping the G bit never moves the block. */
  lemma BlockIgnoresGang(d: Dva)
    ensures Block(d.(offset := d.offset ^ GangBit)) == Block(d)
    ensures Gang(d.(offset := d.offset ^ GangBit)) == !Gang(d)
  {
  }

  // ---------------------------------------------------------------------
  // BlockPointerProps: the 64-bit `blk_prop` word.
  //   bits 0-7 lsize, 8-15 psize, 32-38 compression, 39 embedded,
  //   40-47 checksum, 48-55 type, 56-62 level, 63 byte order.

  /** Indirection level: bits 56-62. */
  function Level(p: bv64): (r: int)
    ensures 0 <= r < 128
  {
    (((p & !GangBit) >> 56) as bv8) as int
  }

  /** The embedded-data flag: bit 39. */
  function Embedded(p: bv64): (r: bool)
    ensures r <==> p & (1 << 39) != 0
  {
    (p >> 39) & 1 == 1
  }

  /** The raw size byte at `shift`: 0 for lsize, 8 for psize. */
  function SizeByte(p: bv64, shift: bv64): bv8
    requires shift == 0 || shift == 8
  {
    ((p >> shift) & 0xff) as bv8
  }

  /** Go's `int(uint8(b)+1) * 512`: the `+1` is done in `uint8`, so 0xff wraps to 0. */
  function SectorsToBytes(b: bv8): (r: int)
    ensures r == ((b as int + 1) % 256) * 512
    ensures r == 0 <==> b == 0xff
    ensures r != 0 ==> 512 <= r <= 130560 && r % 512 == 0
  {
    (b + 1) as int * 512
  }

  /** Logical (decompressed) size in bytes. */
  function Lsize(p: bv64): (r: int)
    ensures r == 0 <==> SizeByte(p, 0) == 0xff
    ensures r != 0 ==> 512 <= r <= 130560 && r % 512 == 0
  {
    SectorsToBytes(SizeByte(p, 0))
  }

  /** Physical (on-disk) size in bytes. */
  function Psize(p: bv64): (r: int)
    ensures r == 0 <==> SizeByte(p, 8) == 0xff
    ensures r != 0 ==> 512 <= r <= 130560 && r % 512 == 0
  {
    SectorsToBytes(SizeByte(p, 8))
  }

  /** Compression function: bits 32-38. */
  function Compression(p: bv64): (r: bv8)
    ensures r < 128
  {
    ((p >> 32) & 0x7f) as bv8
  }

  /** Object type: bits 48-55. */
  function TypeOf(p: bv64): (r: bv8)
    ensures r as bv64 == (p & 0xff_0000_0000_0000) >> 48
  {
    ((p >> 48) & 0xff) as bv8
  }

  /** Checksum function: bits 40-47. */
  function Checksum(p: bv64): (r: bv8)
    ensures r as bv64 == (p & 0xff00_0000_0000) >> 40
  {
    ((p >> 40) & 0xff) as bv8
  }

  /** Byte order of the block: indexes ["BigEndian", "LittleEndian"] with bit 63. */
  function Endian(p: bv64): (r: string)
    ensures r == "LittleEndian" <==> p & GangBit != 0
    ensures r == "BigEndian" <==> p & GangBit == 0
  {
    ["BigEndian", "LittleEndian"][if p >> 63 == 0 then 0 else 1]
  }

  /** The fields of a props word, one per accessor, plus bits 16-31 that no
      accessor reads. */
  datatype PropsFields = PropsFields(
    lsize: bv8, psize: bv8, unused: bv16, compression: bv8, embedded: bool,
    checksum: bv8, typ: bv8, level: bv8, littleEndian: bool)
  {
    predicate Valid() {
      compression < 128 && level < 128
    }
  }

  /** Lays the fields out in a props word: the inverse of the accessors. */
  function Pack(f: PropsFields): bv64
  {
    LowWord(f) | MiddleWord(f) | HighWord(f)
  }

  /** The level field as a byte. */
  function LevelBits(p: bv64): (r: bv8)
    ensures r < 128
    ensures Level(p) == r as int
  {
    ((p >> 56) & 0x7f) as bv8
  }

  /** The size bytes read back the packed size fields, so `Lsize`/`Psize`
      are `(field + 1) mod 256` sectors of 512 bytes. */
  lemma SizesReadPackedFields(f: PropsFields)
    ensures Lsize(Pack(f)) == ((f.lsize as int + 1) % 256) * 512
    ensures Psize(Pack(f)) == ((f.psize as int + 1) % 256) * 512
  {
    SizeBytesReadPackedFields(f);
  }

  lemma SizeBytesReadPackedFields(f: PropsFields)
    ensures SizeByte(Pack(f), 0) == f.lsize
    ensures SizeByte(Pack(f), 8) == f.psize
  {
  }

  /** The one-bit fields read back what was packed. */
  lemma FlagsReadPackedFields(f: PropsFields)
    ensures Embedded(Pack(f)) == f.embedded
    ensures Endian(Pack(f)) == if f.littleEndian then "LittleEndian" else "BigEndian"
  {
    var p := Pack(f);
    assert p & GangBit != 0 <==> f.littleEndian;
  }

  /** The byte-wide fields read back what was packed. */
  lemma BytesReadPackedFields(f: PropsFields)
    requires f.Valid()
    ensures Compression(Pack(f)) == f.compression
    ensures Checksum(Pack(f)) == f.checksum
    ensures TypeOf(Pack(f)) == f.typ
    ensures LevelBits(Pack(f)) == f.level
  {
  }

  /** The fields the accessors read, and bits 16-31. */
  function Unpack(p: bv64): (f: PropsFields)
    ensures f.Valid()
  {
    PropsFields(SizeByte(p, 0), SizeByte(p, 8), ((p >> 16) & 0xffff) as bv16, Compression(p),
                Embedded(p), Checksum(p), TypeOf(p), LevelBits(p), p & GangBit != 0)
  }

  /** The accessors lose nothing but bits 16-31: packing what they read gives the word back. */
  lemma PackUnpack(p: bv64)
    ensures Pack(Unpack(p)) == p
  {
    UnpackLow(p);
    UnpackMiddle(p);
    UnpackHigh(p);
  }

  /** Bits 0-31 of `Pack(f)`. */
  function LowWord(f: PropsFields): bv64
  {
    (f.lsize as bv64) | ((f.psize as bv64) << 8) | ((f.unused as bv64) << 16)
  }

  /** Bits 32-55 of `Pack(f)`. */
  function MiddleWord(f: PropsFields): bv64
  {
    (((f.compression & 0x7f) as bv64) << 32) | (if f.embedded then 1 << 39 else 0)
    | ((f.checksum as bv64) << 40) | ((f.typ as bv64) << 48)
  }

  /** Bits 56-63 of `Pack(f)`. */
  function HighWord(f: PropsFields): bv64
  {
    (((f.level & 0x7f) as bv64) << 56) | (if f.littleEndian then GangBit else 0)
  }

  lemma UnpackLow(p: bv64)
    ensures LowWord(Unpack(p)) == p & 0xffff_ffff
  {
  }

  lemma UnpackMiddle(p: bv64)
    ensures MiddleWord(Unpack(p)) == p & 0xff_ffff_0000_0000
  {
  }

  lemma UnpackHigh(p: bv64)
    ensures HighWord(Unpack(p)) == p & 0xff00_0000_0000_0000
  {
  }

  // ---------------------------------------------------------------------
  // Names of compression and checksum functions.

  const CompressionNames: seq<string> := [
    "ZIO_COMPRESS_INHERIT", "ZIO_COMPRESS_ON", "ZIO_COMPRESS_OFF", "ZIO_COMPRESS_LZJB",
    "ZIO_COMPRESS_EMPTY", "ZIO_COMPRESS_GZIP_1", "ZIO_COMPRESS_GZIP_2", "ZIO_COMPRESS_GZIP_3",
    "ZIO_COMPRESS_GZIP_4", "ZIO_COMPRESS_GZIP_5", "ZIO_COMPRESS_GZIP_6", "ZIO_COMPRESS_GZIP_7",
    "ZIO_COMPRESS_GZIP_8", "ZIO_COMPRESS_GZIP_9", "ZIO_COMPRESS_ZLE", "ZIO_COMPRESS_LZ4",
    "ZIO_COMPRESS_FUNCTIONS"]

  const CompressInherit: bv8 := 0
  const CompressOn: bv8 := 1
  const CompressZle: bv8 := 14
  const CompressLz4: bv8 := 15

  /** `ZfsCompressionType.String`. The type is unsigned, so the source's
      below-range branch can never be taken and is not modelled. */
  function CompressionName(ct: bv8): (r: string)
    ensures ct <= 16 ==> r == CompressionNames[ct as int]
    ensures ct > 16 ==> r == AboveRangeName(ct as int)
  {
    if ct as int > |CompressionNames| - 1 then
      AboveRangeName(ct as int)
    else
      CompressionNames[ct as int]
  }

  /** The text printed for a compression number past the end of the table. */
  function AboveRangeName(n: nat): string
  {
    "*ERROR-" + Format.FormatUnsigned(n, 10, 3) + "-ABOVE-RANGE*"
  }

  /** No two compression types share a name, so dispatching on the name (as
      `Decompress` and `NewReader` do) is dispatching on the number. */
  lemma CompressionNameInjective(a: bv8, b: bv8)
    requires CompressionName(a) == CompressionName(b)
    ensures a == b
  {
    if a > 16 && b > 16 {
      assert AboveRangeName(a as int) == AboveRangeName(b as int);
      ErrorNamesDistinct(a, b);
    } else if a <= 16 < b {
      TableAndErrorNamesDiffer(a, b);
    } else if b <= 16 < a {
      TableAndErrorNamesDiffer(b, a);
    } else {
      CompressionNamesDistinct();
    }
  }

  lemma ErrorNamesDistinct(a: bv8, b: bv8)
    requires AboveRangeName(a as int) == AboveRangeName(b as int)
    ensures a == b
  {
    var m, n := a as int, b as int;
    AboveRangeNameInjective(m, n);
    assert m == n;
    ByteValueInjective(a, b);
  }

  lemma ByteValueInjective(a: bv8, b: bv8)
    requires a as int == b as int
    ensures a == b
  {
  }

  lemma AboveRangeNameInjective(m: nat, n: nat)
    requires m < 1000 && n < 1000
    requires AboveRangeName(m) == AboveRangeName(n)
    ensures m == n
  {
    Format.DecimalDigitsBelow1000(m);
    Format.DecimalDigitsBelow1000(n);
    Format.FormatUnsignedWidth(m, 10, 3);
    Format.FormatUnsignedWidth(n, 10, 3);
    var x := Format.FormatUnsigned(m, 10, 3);
    var y := Format.FormatUnsigned(n, 10, 3);
    Format.SameFrameSameMiddle("*ERROR-", x, y, "-ABOVE-RANGE*");
    Format.FormatUnsignedInjective(m, n, 10, 3);
  }

  lemma TableAndErrorNamesDiffer(a: bv8, b: bv8)
    requires a <= 16 < b
    ensures CompressionName(a) != CompressionName(b)
  {
    CompressionNamesDistinct();
    assert CompressionName(a)[0] == 'Z';
  }

  lemma CompressionNamesDistinct()
    ensures forall i, j :: 0 <= i < j < |CompressionNames| ==> CompressionNames[i] != CompressionNames[j]
    ensures forall i :: 0 <= i < |CompressionNames| ==> CompressionNames[i][0] == 'Z'
  {
  }

  const ChecksumNames: seq<string> := [
    "ZIO_CHECKSUM_INHERIT", "ZIO_CHECKSUM_ON", "ZIO_CHECKSUM_OFF", "ZIO_CHECKSUM_LABEL",
    "ZIO_CHECKSUM_GANG_HEADER", "ZIO_CHECKSUM_ZILOG", "ZIO_CHECKSUM_FLETCHER_2",
    "ZIO_CHECKSUM_FLETCHER_4", "ZIO_CHECKSUM_SHA256", "ZIO_CHECKSUM_ZILOG2",
    "ZIO_CHECKSUM_NOPARITY", "ZIO_CHECKSUM_SHA512", "ZIO_CHECKSUM_SKEIN", "ZIO_CHECKSUM_EDONR",
    "ZIO_CHECKSUM_FUNCTIONS"]

  const ChecksumOverBounds: string := "*ERROR-CHECKSUM-OVER-BOUNDS*"

  /** `BlockPointerProps.ChecksumString`: the checksum byte is never negative,
      so the under-bounds branch cannot be taken and is not modelled. */
  function ChecksumString(p: bv64): (r: string)
    ensures r == ChecksumOverBounds <==> Checksum(p) > 14
    ensures Checksum(p) <= 14 ==> r == ChecksumNames[Checksum(p) as int]
  {
    ChecksumNamesDistinct();
    var c := Checksum(p) as int;
    if c > |ChecksumNames| - 1 then ChecksumOverBounds else ChecksumNames[c]
  }

  lemma ChecksumNamesDistinct()
    ensures forall i, j :: 0 <= i < j < |ChecksumNames| ==> ChecksumNames[i] != ChecksumNames[j]
    ensures forall i :: 0 <= i < |ChecksumNames| ==> ChecksumNames[i] != ChecksumOverBounds
  {
  }

  /** Two props words get the same checksum name exactly when their checksum
      bytes agree or both are out of range. */
  lemma ChecksumStringDistinguishes(p: bv64, q: bv64)
    ensures ChecksumString(p) == ChecksumString(q) <==>
      Checksum(p) == Checksum(q) || (Checksum(p) > 14 && Checksum(q) > 14)
  {
    ChecksumNamesDistinct();
  }

  // ---------------------------------------------------------------------
  // Decompression without LZ4.

  /** `ZfsCompressionType.Decompress` for every type but LZ4: INHERIT, ON and
      ZLE write nothing and report 0 bytes; every other type is Go's
      `copy(dst, src)`. Returns the count and the new contents of `dst`. */
  method Decompress(ct: bv8, dst: seq<bv8>, src: seq<bv8>) returns (n: int, out: seq<bv8>)
    requires ct != CompressLz4
    ensures ct == CompressInherit || ct == CompressOn || ct == CompressZle ==> n == 0 && out == dst
    ensures ct != CompressInherit && ct != CompressOn && ct != CompressZle ==>
      && n == (if |dst| < |src| then |dst| else |src|)
      && |out| == |dst|
      && out[..n] == src[..n]
      && out[n..] == dst[n..]
  {
    var name := CompressionName(ct);
    if name == "ZIO_COMPRESS_INHERIT" || name == "ZIO_COMPRESS_ON" || name == "ZIO_COMPRESS_ZLE" {
      CompressionNameInjective(ct, if name == "ZIO_COMPRESS_INHERIT" then 0 else if name == "ZIO_COMPRESS_ON" then 1 else 14);
      return 0, dst;
    }
    assert ct != CompressInherit && ct != CompressOn && ct != CompressZle;
    n := if |dst| < |src| then |dst| else |src|;
    out := dst;
    var i := 0;
    while i < n
      invariant 0 <= i <= n
      invariant |out| == |dst|
      invariant out[..i] == src[..i]
      invariant out[i..] == dst[i..]
    {
      out := out[i := src[i]];
      i := i + 1;
    }
  }
}
