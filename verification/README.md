# ztool metadata decoders in Dafny

This project models the pure decoding logic of `ztool`, a Go tool that reads
ZFS on-disk metadata. It covers four parts.

- **Block pointers and DVAs** (`zfs/zfs.go`, and the older copy in `zfs.go`).
  These are bit fields of 64-bit words:
  - the allocated size, block address and gang bit of a data virtual address;
  - level, embedded flag, logical and physical size, compression, type,
    checksum and byte order of the block-pointer props word;
  - the compression and checksum name tables;
  - the non-LZ4 branches of `Decompress` and `NewReader`.
- **Uberblocks and the vdev label** (`zfs/uberblock.go`, `vdevlabel.go`).
  - The 256 KiB label layout.
  - The ring of 32 uberblock slots of 4 KiB each.
  - The uberblock record as the pointer cast reads it.
  - The magic filter, and the choice of the active uberblock: the one with
    the strictly greatest timestamp, where the earliest slot wins ties.
  - The size scaling by `AShift`, including Go's `uint8` and 64-bit `int`
    wrap-around.
- **The XDR nvlist scanner** (`zfs/nvlist`, with the enumerations of
  `zfs/internal/nvlist`).
  - Pure parsers over byte sequences. Each returns the value read and the
    bytes left, or an error.
  - Go panics and `log.Fatal` appear as error values that abort. These are
    `make` with a negative length, a negative slice bound, and a failed
    nested list inside a list array.
  - The scanner state machine and its sticky error.
  - `Read`, which folds the scanned pairs into a map.
  - `List.Find`, the depth-first lookup.
  - Writers for every layer, with round-trip lemmas from a single string up
    to a whole stream.
- **The older name/value dumpers** (`zfs/internal/namevalue`,
  `internal/namevalue`).
  - Their record reader never skips the data a record's length announces.
    The next record is read from the byte right after the key, and
    `DataIsReadAsRecord` states this.

Modules:

| module | file |
|---|---|
| `Wrappers` | `wrappers.dfy` |
| `Format` (Go's `%d`/`%x` with width) | `format.dfy` |
| `ByteCast`, `Binary` (`encoding/binary`, int32/int64 wrap) | `bytecast.dfy`, `binary.dfy` |
| `BlockPointer` | `blockpointer.dfy` |
| `LegacyBlockPointer` | `legacy_blockpointer.dfy` |
| `Uberblock` | `uberblock.dfy` |
| `VdevLabel` | `vdevlabel.dfy` |
| `NvInternal` | `nvinternal.dfy` |
| `Nvlist` | `nvscanner.dfy` |
| `NvFind` | `nvfind.dfy` |
| `NameValue` | `namevalue.dfy` |

Go strings are byte strings. The model keeps them as Dafny strings with one
character per byte (`Binary.BytesToString`).

Three behaviours of the code that are easy to miss, and that the model keeps:
- The XDR header's `Endian` byte selects big-endian only for the value 1.
- A `WithByteOrder` option is always overwritten.
- `Decompress` treats ZLE like INHERIT and ON: it writes nothing and returns 0.

## Model

| member | source | states |
|---|---|---|
| BlockPointer.Asize | zfs/zfs.go:43-45 | The allocated size is the value of the 24-bit word `AsizeBits`, the `Size` word masked with 0xffffff, so it is below 2^24 (also `zfs.go:39-41`) |
| BlockPointer.AsizeGridSplitSize | zfs/zfs.go:43-45 | The 24 bits `Asize` reads and the GRID byte it drops rebuild the whole `Size` word, so `Asize` keeps exactly the low 24 bits |
| BlockPointer.Block | zfs/zfs.go:47-60 | The block address is the offset without its G bit, shifted left by 9, plus 0x400000, modulo 2^64 |
| BlockPointer.BlockIsSectorOffset | zfs/zfs.go:47-60 | The address minus 4 MiB is 512 bytes per sector of the G-less offset |
| BlockPointer.BlockIgnoresGang | zfs/zfs.go:47-60 | Flipping the G bit never moves the block, and it flips `Gang` |
| BlockPointer.Gang | zfs/zfs.go:62-78 | Gang is true exactly when bit 63 of the offset is set (also `zfs.go:50-66`) |
| BlockPointer.Level | zfs/zfs.go:386-389 | The level lies in [0, 127] because bit 63 is masked before the shift |
| BlockPointer.LevelBits | zfs/zfs.go:386-389 | The level is the 7-bit field at bits 56-62 |
| BlockPointer.SectorsToBytes | zfs/zfs.go:396-403 | The size is ((byte + 1) mod 256) × 512. It is 0 exactly for byte 0xff; otherwise it is a multiple of 512 in [512, 130560] |
| BlockPointer.Lsize | zfs/zfs.go:396-398 | The logical size is 0 exactly when bits 0-7 are 0xff; otherwise it is a multiple of 512 in [512, 130560] |
| BlockPointer.Psize | zfs/zfs.go:401-403 | The physical size is the same rule over bits 8-15 |
| BlockPointer.Compression | zfs/zfs.go:405-407 | The compression field is below 128 (7 bits) |
| BlockPointer.Embedded | zfs/zfs.go:391-393 | Embedded is true exactly when bit 39 of the props word is set |
| BlockPointer.TypeOf | zfs/zfs.go:412-414 | The object type is the byte at bits 48-55 |
| BlockPointer.Checksum | zfs/zfs.go:416-418 | The checksum function is the byte at bits 40-47 |
| BlockPointer.Endian | zfs/zfs.go:448-450 | "LittleEndian" exactly when bit 63 is set, else "BigEndian" (also `zfs.go:247-249`) |
| BlockPointer.SizesReadPackedFields | zfs/zfs.go:396-403 | `Lsize`/`Psize` of a packed word are the scaled, wrapped size bytes that were packed |
| BlockPointer.SizeBytesReadPackedFields | zfs/zfs.go:396-403 | The raw size bytes read back what was packed at bits 0-7 and 8-15 |
| BlockPointer.FlagsReadPackedFields | zfs/zfs.go:391-393 | `Embedded` and `Endian` read back the packed bit 39 and bit 63 |
| BlockPointer.BytesReadPackedFields | zfs/zfs.go:405-418 | Compression (bits 32-38), checksum (40-47), type (48-55) and level read back what was packed |
| BlockPointer.PackUnpack | zfs/zfs.go:386-418 | The accessors lose only bits 16-31: packing what they read gives back the word |
| BlockPointer.CompressionName | zfs/zfs.go:332-359 | 0..16 map to the table in order; values above 16 give "*ERROR-%03d-ABOVE-RANGE*" (also `zfs.go:138-165`) |
| BlockPointer.CompressionNameInjective | zfs/zfs.go:332-359 | No two compression numbers share a name, so dispatching on the name is dispatching on the number |
| BlockPointer.AboveRangeNameInjective | zfs/zfs.go:355-357 | Distinct numbers below 1000 print distinct above-range texts |
| BlockPointer.ErrorNamesDistinct | zfs/zfs.go:355-357 | Two bytes with the same above-range text are equal |
| BlockPointer.TableAndErrorNamesDiffer | zfs/zfs.go:332-359 | A table name never equals an above-range text |
| BlockPointer.ChecksumString | zfs/zfs.go:420-446 | 0..14 map to the checksum table; the over-bounds text appears exactly for values above 14 (also `zfs.go:219-245`) |
| BlockPointer.ChecksumStringDistinguishes | zfs/zfs.go:420-446 | Two words share a checksum name exactly when they have the same in-table checksum, or both are above 14 |
| BlockPointer.Decompress | zfs/zfs.go:311-330 | INHERIT, ON and ZLE return 0 and leave dst alone. Every other non-LZ4 type copies min(len(dst), len(src)) bytes, so dst starts with that prefix of src, keeps the rest, and returns the count |
| LegacyBlockPointer.VdevBlock | zfs.go:43-48 | The unmasked shift gives the same address as the masked `DVA.Block`, because bit 63 is shifted out |
| LegacyBlockPointer.Lsize | zfs.go:196-198 | The raw byte 0, related to the newer size by ((r + 1) mod 256) × 512 |
| LegacyBlockPointer.Psize | zfs.go:200-202 | The raw byte 1, with the same relation |
| LegacyBlockPointer.NewReader | zfs.go:123-136 | Only LZ4 gets a decoding reader; every other name returns the stream unchanged |
| Uberblock.HasMagic | zfs/uberblock.go:53 | An uberblock is valid exactly when its magic is 0xbab10c |
| Uberblock.FromToChunks | zfs/uberblock.go:34-44 | The 26 words of the record, in declaration order, read back as the record |
| Uberblock.Decode | vdevlabel.go:42 | The cast reads the magic from bytes 0-7 and the timestamp from bytes 32-39, little-endian |
| Uberblock.DecodeEncode | vdevlabel.go:42 | An encoded record decodes to itself |
| Uberblock.DecodeIgnoresTail | vdevlabel.go:42 | Slot bytes after the record never change what the slot decodes to |
| Uberblock.ShiftedOne | zfs/uberblock.go:15 | Go's `1 << AShift` as an `int`: 2^s below 63, 0 from 64 on, and in every case equal to 2^s modulo 2^64 |
| Uberblock.Lsize | zfs/uberblock.go:14-16 | The logical size times 2^AShift, wrapped to 64 bits |
| Uberblock.Psize | zfs/uberblock.go:18-20 | The physical size times 2^AShift, wrapped to 64 bits |
| Uberblock.ScaleByShiftExact | zfs/uberblock.go:15 | For AShift ≤ 46 the product never wraps |
| Uberblock.SizesExact | zfs/uberblock.go:14-20 | For AShift ≤ 46 both sizes are the exact products |
| Uberblock.SizesVanishOnWrap | zfs/uberblock.go:14-20 | A size byte of 0xff gives a size of 0 at every shift |
| VdevLabel.ParseLabel | vdevlabel.go:8-13 | The label is 262144 bytes and the uberblock ring starts at offset 131072 |
| VdevLabel.ParseLabelBytes | vdevlabel.go:8-13 | Laying a label out and reading it back gives the label |
| VdevLabel.LabelBytesParse | vdevlabel.go:8-13 | Reading 256 KiB as a label and laying it out gives back the bytes |
| VdevLabel.SlotRecords | vdevlabel.go:37-42 | Exactly 32 slots are inspected |
| VdevLabel.Slot | vdevlabel.go:37-42 | Each slot is 4096 bytes at a 4096-byte stride |
| VdevLabel.WithMagicMembers | vdevlabel.go:43-47 | A record survives the scan exactly when it is in the ring and its magic is 0xbab10c |
| VdevLabel.UberBlocks | vdevlabel.go:33-50 | The result is the slots with magic 0xbab10c, in slot order: at most 32, all valid |
| VdevLabel.KeepMagic | vdevlabel.go:40-49 | The scan loop computes the magic filter |
| VdevLabel.Latest | vdevlabel.go:18-28 | It fails exactly when every timestamp is 0. Otherwise it returns the element with the greatest timestamp, which is positive, from the earliest slot among equals |
| VdevLabel.ActiveUberBlock | vdevlabel.go:15-31 | The `Latest` rule applied to the valid uberblocks of the label |
| NvInternal.Size | zfs/internal/nvlist/type.go:48-87 | 0 exactly for Boolean; 1 for Byte, String, Int8, Uint8; 2 for Int16/Uint16; 4 for Int32/Uint32; 8 for Int64/Uint64; -1 for everything else, values outside the table included |
| NvInternal.PaddedDataSize | zfs/internal/nvlist/nvlist_test.go:67-112 | The test's data length is a multiple of 4 and the smallest one at or above the unpadded length when that length is in range. Size -1 gives 0 for up to 3 elements and a negative length from 4 on |
| NvInternal.TypeString | zfs/internal/nvlist/type.go:89-147 | "*UNKKNOWN-TYPE0*" for Unknown, "*UNKNOWN-TYPE*" exactly outside 0..26, and a plain name exactly for 1..26 |
| NvInternal.TypeStringInjective | zfs/internal/nvlist/type.go:89-147 | Two types in 0..26 have the same name exactly when they are equal |
| NvInternal.EndianByteOrder | zfs/internal/nvlist/endian.go:15-17 | No byte order for any value |
| NvInternal.EndianString | zfs/internal/nvlist/endian.go:19-27 | 1 is "BigEndian", 0 is "LittleEndian"; exactly the other values get the error form with their `%02x` (also `zfs/nvlist/endian.go:35-44`) |
| NvInternal.EndianStringInjective | zfs/internal/nvlist/endian.go:19-27 | Different byte values always print differently |
| NvInternal.EncodingString | zfs/internal/nvlist/encoding.go:12-23 | 0 is "EncodingNative", 1 is "EncodingXDR"; exactly the others get "*UNKNOWN-ENCODING-%02x*" |
| NvInternal.EncodingStringInjective | zfs/internal/nvlist/encoding.go:12-23 | Every encoding byte has a text of its own |
| Nvlist.ReadInt32 | zfs/nvlist/scanner.go:178-192 | `ReadType`/`ReadNumElements` fail with a short read exactly below 4 bytes; otherwise they consume 4 bytes and give an int32 |
| Nvlist.Int32FieldRoundTrip | zfs/nvlist/scanner.go:178-192 | A written int32 reads back and leaves the tail |
| Nvlist.ReadString | zfs/nvlist/scanner.go:208-226 | It succeeds exactly when 0 ≤ L ≤ 2^31-4 and align4(L) bytes follow. The result is the first L of them; it consumes 4 + align4(L). The failures are a short read, a negative `make` and a negative slice bound |
| Nvlist.StringRoundTrip | zfs/nvlist/scanner.go:208-226 | A written padded string reads back as itself and leaves exactly the tail |
| Nvlist.PairLength | zfs/nvlist/scanner.go:270 | The bytes a pair occupies equal its size modulo 2^32; they are the size whenever the size is at least 8 |
| Nvlist.Next | zfs/nvlist/scanner.go:255-316 | A short read below 8 bytes. The terminator exactly for 0/0, consuming 8 bytes. A panic for sizes in [-2^31+8, 8). A pair consumes exactly `PairLength(Size)` bytes |
| Nvlist.NextUnfold | zfs/nvlist/scanner.go:269-276 | A pair is its record read from the bytes its size covers; what follows starts at `Size` |
| Nvlist.PairHeaderRoundTrip | zfs/nvlist/scanner.go:261-267 | A written pair header reads back as its two words |
| Nvlist.TerminatorEnds | zfs/nvlist/scanner.go:265-267 | Two zero words end iteration and consume 8 bytes |
| Nvlist.ReadRecord | zfs/nvlist/scanner.go:278-313 | A record shorter than 12 bytes fails. A read record's name is the `ReadString` of its start, and its type and count are int32 values |
| Nvlist.RecordRoundTrip | zfs/nvlist/scanner.go:278-313 | A written record reads back as its name, type, count and value |
| Nvlist.PairRoundTrip | zfs/nvlist/scanner.go:261-276 | A written pair reads back as its record's pair, and the next pair starts right after `Size` bytes |
| Nvlist.WrittenPairRoundTrip | zfs/nvlist/scanner.go:255-316 | The two layers together: name, type, count and value bytes survive a write and a `Next` |
| Nvlist.ReadValue | zfs/nvlist/scanner.go:79-159 | Boolean gives true and consumes nothing. Uint64 needs and takes 8 bytes. String succeeds exactly when `ReadString` does, and gives its text and rest. NVList gives a nested list. NVListArray with a negative count panics; otherwise it gives `count` lists or aborts. A type without a decoder gives "no conversion" |
| Nvlist.Uint64ValueRoundTrip | zfs/nvlist/scanner.go:100-106 | A written uint64 reads back in either byte order |
| Nvlist.ReadListArray | zfs/nvlist/scanner.go:134-145 | Exactly n lists are read, the first being the nested list at the start of the input; a failed nested list fails the array, and any failure aborts (a fatal log) |
| Nvlist.ListArrayRoundTrip | zfs/nvlist/scanner.go:134-145 | n written nested lists read back as those n lists, in order, and leave exactly the tail |
| Nvlist.ListArrayValueRoundTrip | zfs/nvlist/scanner.go:134-145 | An `NVListArray` value whose count is the number of written lists is exactly those lists |
| Nvlist.StringValueRoundTrip | zfs/nvlist/scanner.go:107-123 | A `String` value follows the `ReadString` rule: a written padded string reads back as itself and leaves the tail |
| Nvlist.ReadSub | zfs/nvlist/scanner.go:161-176 | A nested list consumes at least its preamble and terminator (16 bytes); below 8 bytes it is a short read |
| Nvlist.SubListRoundTrip | zfs/nvlist/scanner.go:161-176 | A preamble and written pairs read back as the fold of those pairs and leave the tail |
| Nvlist.NestedValueRoundTrip | zfs/nvlist/scanner.go:133 | An `NVList` value is that nested list |
| Nvlist.ScanPairs | zfs/nvlist/scanner.go:167-169 | The pair loop consumes at least the 8-byte terminator |
| Nvlist.PairsRoundTrip | zfs/nvlist/scanner.go:167-169 | Written pairs and a terminator scan back as the same pairs, in order |
| Nvlist.ApplyOptions | zfs/nvlist/scanner.go:29-42 | Only `WithoutHeader` turns off the header, and the options touch nothing else that is read later |
| Nvlist.NewScanner | zfs/nvlist/scanner.go:44-77 | It succeeds exactly when the header and preamble (12 bytes, or 8 without header) are present. The order is big-endian exactly when a header is read and its endian byte is 1; a `WithByteOrder` never survives |
| Nvlist.NewSubScanner | zfs/nvlist/scanner.go:318-332 | It keeps the parent's order, reads the 8-byte preamble, and fails with a short read exactly below 8 bytes |
| Nvlist.ScannerNext | zfs/nvlist/scanner.go:255-316 | A scanner in error returns false unchanged. A true result leaves no error and shorter input. A false result without error means the terminator |
| Nvlist.Fold | zfs/nvlist/read.go:16-18 | Every key of the map comes from some pair, and the last pair's name is bound to the last pair's value |
| Nvlist.FoldKeys | zfs/nvlist/read.go:16-18 | A name is in the map exactly when some scanned pair has it |
| Nvlist.FoldLastWins | zfs/nvlist/read.go:16-18 | A name's value is the one from its last pair |
| Nvlist.Read | zfs/nvlist/read.go:12-24 | The loop returns the scanner's error or the fold of every pair up to the terminator |
| Nvlist.ScanStep | zfs/nvlist/read.go:16-18 | One turn of the loop: a true `Next` moves one pair from the stream to the fold, and a false one ends with the terminator or the error |
| Nvlist.ReadRoundTrip | zfs/nvlist/read.go:12-24 | A stream of written pairs reads as their fold, in the byte order the header names (little-endian without a header) |
| Nvlist.ReadTerminatorFirst | zfs/nvlist/read.go:12-24 | A stream whose first pair is the terminator reads as the empty map |
| Nvlist.ValueString | zfs/nvlist/scanner.go:198-206 | A uint64 prints as decimal digits that parse back to it, with no leading zero except for 0 itself (Go's `%d`). A string prints as itself, and anything else is "*unrepresentable*" |
| Nvlist.EndianByteOrder | zfs/nvlist/endian.go:23-33 | 1 is big-endian, 0 little-endian, anything else none. There is a byte order exactly when `String` is not the error form |
| NvFind.Find | zfs/nvlist/list.go:9-30 | Not found exactly when the target is at no depth reachable through list values. A found value is bound to the target there. A nested match wins over this level; without one, the result is this level's binding (also `zfs/internal/nvlist/list.go:5-26`) |
| NvFind.BindsReaches | zfs/nvlist/list.go:9-30 | A bound target is reachable |
| NvFind.ReachesBinds | zfs/nvlist/list.go:9-30 | A reachable target is bound to some value |
| NameValue.ReadFull | zfs/internal/namevalue/type.go:165-191 | `binary.Read` of n bytes succeeds exactly when n bytes remain (so always for n = 0); it reports `io.EOF` exactly at the end of input |
| NameValue.GetRecord | zfs/internal/namevalue/type.go:163-194 | It succeeds exactly when both words and the key are present. The key is the bytes after the two words, the data is nil, and it consumes 8 + key length. Short reads are EOF or unexpected EOF by where they start (also `internal/namevalue/type.go:61-92`) |
| NameValue.RecordRoundTrip | zfs/internal/namevalue/type.go:163-194 | A written record reads back as its key and leaves everything after the key |
| NameValue.DataIsReadAsRecord | zfs/internal/namevalue/type.go:185-193 | Data bytes after a key are read as the next record |
| NameValue.DumpNvlist | zfs/internal/namevalue/type.go:196-209 | The loop reads records until the first error and stops there (also `internal/namevalue/type.go:94-107`) |
| NameValue.DumpRecords | zfs/internal/namevalue/type.go:196-209 | Records written back to back are dumped as their keys, in order, ending at `io.EOF` |
| NameValue.Verify | zfs/internal/namevalue/type.go:47-49 | Every header is accepted (also `internal/namevalue/type.go:28-30`) |
| NameValue.EndianString | zfs/internal/namevalue/type.go:9-24 | 0 is "BigEndian", 1 "LittleEndian", exactly the rest "*ERROR-INVALID-ENDIAN-VALUE*" |
| NameValue.EndianNumberingSwapped | zfs/internal/namevalue/type.go:11-14 | The numbering is the opposite of the XDR header's |
| NameValue.TypeString | zfs/internal/namevalue/type.go:102-161 | The same names and numbering as `Type.String` of `zfs/internal/nvlist` |

## Left out

- ZLE compression: its codec lives in a `zle.h` that is not part of this
  model. The two `test.c` files only print results.
- The LZ4 branches of `Decompress` and `NewReader`: these are calls into an
  external library. `Decompress` requires a type other than LZ4.
- Disk and stream I/O: `ReadDnode`, `GetDnode`, `GetRootBlock`,
  `UberBlock.MOS`, `ZfsVdev.Read` and the `Filesystem` options. Readers
  appear as byte sequences, and a reader's position after an error is not
  modelled.
- `zfs/nvlist/encoder.go` (it writes nothing stateable) and
  `zfs/internal/nvlist/read.go` (it drives a scanner that is not part of this
  model).
- Logging and `fmt`/`time` formatting, apart from the texts the `String`
  methods return and the magic check of `UberBlock.String`. The data length
  `getRecord` computes is only logged, so it is not modelled.
- `io.EOF` and `io.ErrUnexpectedEOF` are one `ShortRead` error in the
  scanner. The name/value reader keeps them apart.
- The `unsafe` pointer cast in `UberBlocks` is modelled as a little-endian
  read of the slot's first 208 bytes, the layout on the machines the tool
  runs on.
- Uberblock timestamps are compared as natural numbers below 2^64 rather
  than as `uint64` bit vectors. The order is the same.
- The below-range branches of the compression and checksum names cannot be
  taken for unsigned values. The model has no such branches.
- Nvlist.ScannerNext: a failed `Next` may already have stored the pair's
  name, type or element count. The model does not say which; it states only
  the error. `Scanner.Bytes`, `FieldSize` and the stored pair header are not
  modelled.
- The `Type` of package `zfs/nvlist` is not part of this model. The scanner
  uses the numbering of `zfs/internal/nvlist/type.go` and reads a type as a
  4-byte `int32`.
- The nvlist header's encoding byte is read as unsigned, as the `Encoding`
  type of `zfs/internal/nvlist` declares it.
- Nvlist.Next: for a size below -2^31 + 8, the `int32` subtraction wraps and
  the pair spans 2^32 + Size bytes. `PairLength` states this; no lemma
  follows such a pair any further.
- The `Type` numbering of `internal/namevalue` (`String` = 7, `Double` = 22)
  is given as constants only, because no operation of that package uses it.
