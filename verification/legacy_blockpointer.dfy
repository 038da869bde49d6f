/** The older copy of the block-pointer decoders at the top of the repository
    (zfs.go). Its DVA, props and name-table code is the same as in package
    `zfs` except for the three members below, which are stated here against
    the newer definitions in `BlockPointer`. */
module LegacyBlockPointer {
  import BlockPointer

  /** `VdevOffset.Block`: the offset is shifted without clearing the G bit
      first. The shift by 9 pushes bit 63 out of the word, so the result is
      the same byte address the newer, masking `DVA.Block` computes. */
  function VdevBlock(d: BlockPointer.Dva): (r: bv64)
    ensures r == BlockPointer.Block(d)
  {
    (d.offset << 9) + BlockPointer.DataStart
  }

  /** `BlockPointerProps.Lsize`: the raw size byte, which the newer decoder
      turns into bytes as `(byte + 1) mod 256` sectors. */
  function Lsize(p: bv64): (r: bv8)
    ensures BlockPointer.Lsize(p) == ((r as int + 1) % 256) * 512
    ensures BlockPointer.Lsize(p) == 0 <==> r == 0xff
  {
    (p & 0xff) as bv8
  }

  /** `BlockPointerProps.Psize`: the raw byte above the lsize byte. */
  function Psize(p: bv64): (r: bv8)
    ensures BlockPointer.Psize(p) == ((r as int + 1) % 256) * 512
    ensures BlockPointer.Psize(p) == 0 <==> r == 0xff
  {
    ((p >> 8) & 0xff) as bv8
  }

  /** What `ZfsCompressionType.NewReader` wraps the stream in. */
  datatype StreamReader = Passthrough | Lz4Stream

  /** `ZfsCompressionType.NewReader`: dispatches on the compression name;
      only LZ4 gets a decoding reader, every other type (ZLE included)
      hands the stream back as it is. */
  function NewReader(ct: bv8): (r: StreamReader)
    ensures r == Lz4Stream <==> ct == BlockPointer.CompressLz4
  {
    var name := BlockPointer.CompressionName(ct);
    if name == "ZIO_COMPRESS_INHERIT" || name == "ZIO_COMPRESS_ON" then
      Passthrough
    else if name == "ZIO_COMPRESS_LZ4" then
      BlockPointer.CompressionNameInjective(ct, BlockPointer.CompressLz4);
      Lz4Stream
    else
      Passthrough
  }
}
