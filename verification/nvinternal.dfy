/** Package `zfs/internal/nvlist`: the nvpair data-type numbering with its
    element sizes and names, the header's endian and encoding bytes, and the
    data length the package's test derives from a pair's type and element
    count. The XDR scanner in package `zfs/nvlist` reads types with this
    numbering. */
module NvInternal {
  import opened Binary
  import opened Wrappers
  import Format

  // ---------------------------------------------------------------------
  // Data types (`Type int32`), numbered consecutively from -1.

  const DontCare: int := -1
  const Unknown: int := 0
  const Boolean: int := 1
  const Byte: int := 2
  const Int16: int := 3
  const Uint16: int := 4
  const Int32: int := 5
  const Uint32: int := 6
  const Int64: int := 7
  const Uint64: int := 8
  const String: int := 9
  const ByteArray: int := 10
  const Int16Array: int := 11
  const Uint16Array: int := 12
  const Int32Array: int := 13
  const Uint32Array: int := 14
  const Int64Array: int := 15
  const Uint64Array: int := 16
  const StringArray: int := 17
  const HRTime: int := 18
  const NVList: int := 19
  const NVListArray: int := 20
  const BooleanValue: int := 21
  const Int8: int := 22
  const Uint8: int := 23
  const BooleanArray: int := 24
  const Int8Array: int := 25
  const Uint8Array: int := 26

  /** The element sizes `Type.Size` looks up; a type missing from the map
      has size -1 as well. */
  const Sizes: map<int, int> := map[
    DontCare := -1, Unknown := -1, Boolean := 0, Byte := 1, Int16 := 2,
    Uint16 := 2, Int32 := 4, Uint32 := 4, Int64 := 8, Uint64 := 8, String := 1,
    ByteArray := -1, Int16Array := -1, Uint16Array := -1, Int32Array := -1,
    Uint32Array := -1, Int64Array := -1, Uint64Array := -1, StringArray := -1,
    HRTime := -1, NVList := -1, NVListArray := -1, BooleanValue := -1,
    Int8 := 1, Uint8 := 1, BooleanArray := -1, Int8Array := -1, Uint8Array := -1]

  /** `Type.Size`: the width of one element of a scalar type, 0 for a bare
      boolean and -1 for everything whose size is not fixed or not known. */
  function Size(t: int): (r: int)
    ensures r == 0 <==> t == Boolean
    ensures r == 1 <==> t == Byte || t == String || t == Int8 || t == Uint8
    ensures r == 2 <==> t == Int16 || t == Uint16
    ensures r == 4 <==> t == Int32 || t == Uint32
    ensures r == 8 <==> t == Int64 || t == Uint64
    ensures r in {-1, 0, 1, 2, 4, 8}
  {
    if t in Sizes then Sizes[t] else -1
  }

  /** The pair data length computed by the package test: one element's size
      for a pair without elements, otherwise the element count times the
      size in `int32`, then rounded up by `align4`. */
  function PaddedDataSize(t: int, numElements: int): (r: int)
    requires -Two31 <= numElements < Two31
    ensures r % 4 == 0
    ensures numElements == 0 && Size(t) >= 0 ==> Size(t) <= r < Size(t) + 4
    ensures 0 < numElements && 0 <= numElements * Size(t) <= Two31 - 4 ==>
      numElements * Size(t) <= r < numElements * Size(t) + 4
    ensures Size(t) == -1 && (numElements == 0 || 0 < numElements <= 3) ==> r == 0
    ensures Size(t) == -1 && 4 <= numElements ==> r < 0
  {
    var dataSize := if numElements == 0 then Size(t) else Int32Wrap(numElements * Size(t));
    Align4(dataSize)
  }

  const TypeNames: seq<string> := [
    "*UNKKNOWN-TYPE0*", "Boolean", "Byte", "Int16", "Uint16", "Int32", "Uint32",
    "Int64", "Uint64", "String", "ByteArray", "Int16Array", "Uint16Array",
    "Int32Array", "Uint32Array", "Int64Array", "Uint64Array", "StringArray",
    "HRTime", "NVList", "NVListArray", "BooleanValue", "Int8", "Uint8",
    "BooleanArray", "Int8Array", "Uint8Array"]

  const UnknownTypeName: string := "*UNKNOWN-TYPE*"

  /** `Type.String`: the name of each type from `Unknown` to `Uint8Array`,
      and one shared text for `DontCare` and every number outside the
      enumeration. */
  function TypeString(t: int): (r: string)
    ensures t == Unknown ==> r == "*UNKKNOWN-TYPE0*"
    ensures r == UnknownTypeName <==> t < Unknown || t > Uint8Array
    ensures |r| > 0 && (r[0] != '*' <==> Boolean <= t <= Uint8Array)
  {
    TypeNamesDistinct();
    if Unknown <= t <= Uint8Array then TypeNames[t] else UnknownTypeName
  }

  lemma TypeNamesDistinct()
    ensures |TypeNames| == Uint8Array + 1
    ensures forall i, j :: 0 <= i < j < |TypeNames| ==> TypeNames[i] != TypeNames[j]
    ensures forall i :: 0 <= i < |TypeNames| ==> TypeNames[i] != UnknownTypeName
    ensures forall i :: 0 <= i < |TypeNames| ==> (TypeNames[i][0] == '*' <==> i == 0)
  {
  }

  /** Every type of the enumeration has a name of its own. */
  lemma TypeStringInjective(a: int, b: int)
    requires Unknown <= a <= Uint8Array && Unknown <= b <= Uint8Array
    ensures TypeString(a) == TypeString(b) <==> a == b
  {
    TypeNamesDistinct();
  }

  // ---------------------------------------------------------------------
  // Header byte order (`Endian int8`).

  const LittleEndianValue: int := 0
  const BigEndianValue: int := 1

  /** `Endian.ByteOrder` of this package: no byte order for any value. */
  function EndianByteOrder(e: int): (r: Option<ByteOrder>)
    requires -128 <= e < 128
    ensures r.None?
  {
    None
  }

  /** `Endian.String`: the two defined values by name, anything else as
      `%02x` of the signed byte inside an error marker. */
  function EndianString(e: int): (r: string)
    requires -128 <= e < 128
    ensures e == BigEndianValue ==> r == "BigEndian"
    ensures e == LittleEndianValue ==> r == "LittleEndian"
    ensures |r| > 0 && (r[0] == '*' <==> e != BigEndianValue && e != LittleEndianValue)
  {
    if e == BigEndianValue then "BigEndian"
    else if e == LittleEndianValue then "LittleEndian"
    else InvalidEndianName(e)
  }

  function InvalidEndianName(e: int): string
  {
    "*ERROR-INVALID-ENDIAN-VALUE-" + Format.FormatSigned(e, 16, 2) + "*"
  }

  /** Different endian values never print alike, the invalid ones included. */
  lemma EndianStringInjective(a: int, b: int)
    requires -128 <= a < 128 && -128 <= b < 128
    ensures EndianString(a) == EndianString(b) <==> a == b
  {
    if EndianString(a) == EndianString(b) && EndianString(a)[0] == '*' {
      Format.SameFrameSameMiddle("*ERROR-INVALID-ENDIAN-VALUE-",
        Format.FormatSigned(a, 16, 2), Format.FormatSigned(b, 16, 2), "*");
      Format.FormatSignedInjective(a, b, 16, 2);
    }
  }

  // ---------------------------------------------------------------------
  // Header encoding (`Encoding uint8`).

  const EncodingNative: int := 0
  const EncodingXdr: int := 1

  /** `Encoding.String`: the two defined encodings by name, anything else
      as two hex digits inside an error marker. */
  function EncodingString(e: nat): (r: string)
    requires e < 256
    ensures e == EncodingNative ==> r == "EncodingNative"
    ensures e == EncodingXdr ==> r == "EncodingXDR"
    ensures |r| > 0 && (r[0] == '*' <==> e > EncodingXdr)
  {
    if e == EncodingNative then "EncodingNative"
    else if e == EncodingXdr then "EncodingXDR"
    else "*UNKNOWN-ENCODING-" + Format.FormatUnsigned(e, 16, 2) + "*"
  }

  /** Every encoding byte has a text of its own. */
  lemma EncodingStringInjective(a: nat, b: nat)
    requires a < 256 && b < 256
    ensures EncodingString(a) == EncodingString(b) <==> a == b
  {
    if EncodingString(a) == EncodingString(b) && a > EncodingXdr && b > EncodingXdr {
      Format.SameFrameSameMiddle("*UNKNOWN-ENCODING-",
        Format.FormatUnsigned(a, 16, 2), Format.FormatUnsigned(b, 16, 2), "*");
      Format.FormatUnsignedInjective(a, b, 16, 2);
    }
  }
}
