/** Fixed-width integers as Go's `encoding/binary` reads them, and the
    two's-complement wrap-around of Go's `int32`/`int64` arithmetic. */
module Binary {
  import ByteCast

  type Bytes = seq<bv8>

  /** `binary.BigEndian` or `binary.LittleEndian`. */
  datatype ByteOrder = BigEndian | LittleEndian

  const Two31: int := 0x8000_0000
  const Two32: int := 0x1_0000_0000
  const Two63: int := 0x8000_0000_0000_0000
  const Two64: int := 0x1_0000_0000_0000_0000

  function Pow2(n: nat): (r: nat)
    ensures r >= 1
  {
    if n == 0 then 1 else 2 * Pow2(n - 1)
  }

  function Reverse(b: Bytes): (r: Bytes)
    ensures |r| == |b|
    ensures forall i :: 0 <= i < |b| ==> r[i] == b[|b| - 1 - i]
  {
    if b == [] then [] else Reverse(b[1..]) + [b[0]]
  }

  /** The unsigned value of `b`, most significant byte first. */
  function BigEndianValue(b: Bytes): (r: nat)
    decreases |b|
  {
    if b == [] then 0 else BigEndianValue(b[..|b| - 1]) * 256 + b[|b| - 1] as int
  }

  /** `n` bytes hold any value below 256^n. */
  function Pow256(n: nat): (r: nat)
    ensures r >= 1
  {
    if n == 0 then 1 else 256 * Pow256(n - 1)
  }

  lemma {:induction false} BigEndianValueBound(b: Bytes)
    ensures BigEndianValue(b) < Pow256(|b|)
    decreases |b|
  {
    if b != [] {
      BigEndianValueBound(b[..|b| - 1]);
    }
  }

  /** The unsigned value of `b` in byte order `o`. */
  function UnsignedValue(b: Bytes, o: ByteOrder): (r: nat)
    ensures r < Pow256(|b|)
  {
    BigEndianValueBound(b);
    BigEndianValueBound(Reverse(b));
    match o
    case BigEndian => BigEndianValue(b)
    case LittleEndian => BigEndianValue(Reverse(b))
  }

  /** Little-endian reads the least significant byte first. */
  lemma {:induction false} LittleEndianLeastFirst(b: Bytes)
    requires b != []
    ensures UnsignedValue(b, LittleEndian) == UnsignedValue(b[1..], LittleEndian) * 256 + b[0] as int
  {
    var r := Reverse(b);
    assert r[..|r| - 1] == Reverse(b[1..]);
  }

  /** A mathematical integer reduced to Go's `int32` (two's complement). */
  function Int32Wrap(x: int): (r: int)
    ensures -Two31 <= r < Two31
    ensures (x - r) % Two32 == 0
    ensures -Two31 <= x < Two31 ==> r == x
  {
    (x + Two31) % Two32 - Two31
  }

  /** A mathematical integer reduced to Go's 64-bit `int`. */
  function Int64Wrap(x: int): (r: int)
    ensures -Two63 <= r < Two63
    ensures (x - r) % Two64 == 0
    ensures -Two63 <= x < Two63 ==> r == x
  {
    (x + Two63) % Two64 - Two63
  }

  /** `x mod m` is the only remainder in [0, m) that `x` leaves. */
  lemma ModUnique(x: int, m: int, q: int, r: int)
    requires m > 0 && 0 <= r < m && x == q * m + r
    ensures x % m == r
  {
    var q', r' := x / m, x % m;
    assert (q - q') * m == r' - r;
    MultipleSign(q - q', m);
  }

  lemma MultipleSign(d: int, m: int)
    requires m > 0
    ensures d >= 1 ==> d * m >= m
    ensures d <= -1 ==> d * m <= -m
  {
    if d >= 1 {
      MultipleAtLeast(d, m);
    } else if d <= -1 {
      MultipleAtLeast(-d, m);
    }
  }

  lemma MulMonotonic(a: int, b: int, c: int)
    requires 0 <= a <= b && c >= 0
    ensures a * c <= b * c
  {
  }

  lemma MultipleAtLeast(d: int, m: int)
    requires d >= 1 && m > 0
    ensures d * m >= m
  {
  }

  /** Adding a multiple of 2^64 does not change a Go `int`. */
  lemma Int64WrapShift(a: int, k: int)
    ensures Int64Wrap(a + k * Two64) == Int64Wrap(a)
  {
    var x := a + Two63;
    ModUnique(x + k * Two64, Two64, x / Two64 + k, x % Two64);
  }

  /** Go's 64-bit product depends only on its factors modulo 2^64. */
  lemma Int64WrapProduct(c: int, x: int, y: int)
    requires (x - y) % Two64 == 0
    ensures Int64Wrap(c * x) == Int64Wrap(c * y)
  {
    var k := (x - y) / Two64;
    assert x == y + k * Two64;
    assert c * x == c * y + (c * k) * Two64;
    Int64WrapShift(c * y, c * k);
  }

  lemma Pow2Add(a: nat, b: nat)
    ensures Pow2(a + b) == Pow2(a) * Pow2(b)
  {
    if a > 0 {
      Pow2Add(a - 1, b);
    }
  }

  lemma Pow2Monotonic(a: nat, b: nat)
    requires a <= b
    ensures Pow2(a) <= Pow2(b)
  {
    Pow2Add(a, b - a);
  }

  lemma Pow2Byte()
    ensures Pow2(4) == 16 && Pow2(8) == 256
  {
    assert Pow2(2) == 4;
    assert Pow2(4) == 16;
    Pow2Add(4, 4);
  }

  /** The powers the sign bits and word sizes of Go's integers are made of. */
  lemma Pow2Words()
    ensures Pow2(16) == 0x1_0000 && Pow2(32) == Two32
    ensures Pow2(63) == Two63 && Pow2(64) == Two64
  {
    Pow2Half(16, 0x1_0000);
    Pow2Half(32, Two32);
    Pow2Half(64, Two64);
    assert Pow2(64) == 2 * Pow2(63);
  }

  /** Going from `Pow2(n)` to `Pow2(2 * n)`, with every value spelled out. */
  lemma Pow2Half(n: nat, v: nat)
    requires n == 16 || n == 32 || n == 64
    requires v == if n == 16 then 0x1_0000 else if n == 32 then Two32 else Two64
    ensures Pow2(n) == v
    decreases n
  {
    if n == 16 {
      Pow2Byte();
      Pow2Add(8, 8);
    } else {
      var h := n / 2;
      var w := if n == 32 then 0x1_0000 else Two32;
      Pow2Half(h, w);
      Pow2Add(h, h);
      assert w * w == v;
    }
  }

  /** The `k` bytes of `n`, least significant first: what `binary.Write`
      puts down for an unsigned value in little-endian order. */
  function LittleEndianBytes(n: nat, k: nat): (b: Bytes)
    ensures |b| == k
  {
    if k == 0 then [] else [ByteCast.ToByte(n % 256)] + LittleEndianBytes(n / 256, k - 1)
  }

  lemma {:induction false} LittleEndianBytesValue(n: nat, k: nat)
    requires n < Pow256(k)
    ensures UnsignedValue(LittleEndianBytes(n, k), LittleEndian) == n
    decreases k
  {
    var b := LittleEndianBytes(n, k);
    if k > 0 {
      LittleEndianBytesValue(n / 256, k - 1);
      LittleEndianLeastFirst(b);
      assert b[1..] == LittleEndianBytes(n / 256, k - 1);
      ByteCast.ToByteValue(n % 256);
    }
  }

  /** The `k` bytes `binary.Write` puts down for an unsigned `n` in order `o`. */
  function UnsignedBytes(n: nat, k: nat, o: ByteOrder): (b: Bytes)
    ensures |b| == k
  {
    match o
    case LittleEndian => LittleEndianBytes(n, k)
    case BigEndian => Reverse(LittleEndianBytes(n, k))
  }

  /** Reading back what was written gives the number again, in either order. */
  lemma UnsignedBytesValue(n: nat, k: nat, o: ByteOrder)
    requires n < Pow256(k)
    ensures UnsignedValue(UnsignedBytes(n, k, o), o) == n
  {
    LittleEndianBytesValue(n, k);
  }

  /** An `int32` written in order `o`: its two's-complement bit pattern. */
  function Int32Bytes(x: int, o: ByteOrder): (b: Bytes)
    requires -Two31 <= x < Two31
    ensures |b| == 4
  {
    UnsignedBytes(if x < 0 then x + Two32 else x, 4, o)
  }

  lemma Int32RoundTrip(x: int, o: ByteOrder)
    requires -Two31 <= x < Two31
    ensures Int32Of(Int32Bytes(x, o), o) == x
  {
    var u := if x < 0 then x + Two32 else x;
    assert Pow256(4) == Two32;
    UnsignedBytesValue(u, 4, o);
    if x < 0 {
      ModUnique(u + Two31, Two32, 1, x + Two31);
    } else {
      ModUnique(u + Two31, Two32, 0, x + Two31);
    }
  }

  /** A `uint32` written in order `o`. */
  function Uint32Bytes(n: nat, o: ByteOrder): (b: Bytes)
    requires n < Two32
    ensures |b| == 4
  {
    UnsignedBytes(n, 4, o)
  }

  lemma Uint32RoundTrip(n: nat, o: ByteOrder)
    requires n < Two32
    ensures Uint32Of(Uint32Bytes(n, o), o) == n
  {
    assert Pow256(4) == Two32;
    UnsignedBytesValue(n, 4, o);
  }

  /** A `uint64` written in order `o`. */
  function Uint64Bytes(n: nat, o: ByteOrder): (b: Bytes)
    requires n < Two64
    ensures |b| == 8
  {
    UnsignedBytes(n, 8, o)
  }

  lemma Uint64RoundTrip(n: nat, o: ByteOrder)
    requires n < Two64
    ensures Uint64Of(Uint64Bytes(n, o), o) == n
  {
    assert Pow256(8) == Two64;
    UnsignedBytesValue(n, 8, o);
  }

  /** Four bytes read as an `int32`. */
  function Int32Of(b: Bytes, o: ByteOrder): (r: int)
    requires |b| == 4
    ensures -Two31 <= r < Two31
  {
    Int32Wrap(UnsignedValue(b, o))
  }

  /** Four bytes read as a `uint32`. */
  function Uint32Of(b: Bytes, o: ByteOrder): (r: nat)
    requires |b| == 4
    ensures r < Two32
  {
    UnsignedValue(b, o)
  }

  /** Eight bytes read as a `uint64`. */
  function Uint64Of(b: Bytes, o: ByteOrder): (r: nat)
    requires |b| == 8
    ensures r < Two64
  {
    UnsignedValue(b, o)
  }

  /** One byte read as an `int8`. */
  function Int8Of(b: bv8): (r: int)
    ensures -128 <= r < 128
    ensures (r - b as int) % 256 == 0
  {
    if b < 128 then b as int else b as int - 256
  }

  /** `(i + 3) &^ 3` evaluated in `int32`: clearing the two low bits of a
      two's-complement value rounds it down to a multiple of four. */
  function Align4(i: int): (r: int)
    requires -Two31 <= i < Two31
    ensures -Two31 <= r < Two31
    ensures r % 4 == 0
    ensures 0 <= i <= Two31 - 4 ==> i <= r < i + 4
    ensures r >= 0 <==> -3 <= i <= Two31 - 4
  {
    var x := Int32Wrap(i + 3);
    x - x % 4
  }

  /** A Go string keeps its bytes; the model holds it as a Dafny string with
      one character per byte. */
  function BytesToString(b: Bytes): (s: string)
    ensures |s| == |b|
    ensures forall i :: 0 <= i < |b| ==> s[i] as int == b[i] as int
  {
    seq(|b|, i requires 0 <= i < |b| => (b[i] as int) as char)
  }

  /** Eight bytes read as a little-endian `uint64` word, the layout a Go
      struct of `uint64` fields has in memory on a little-endian machine. */
  function Word64(b: Bytes): bv64
    requires |b| == 8
  {
    (b[0] as bv64) | (b[1] as bv64 << 8) | (b[2] as bv64 << 16) | (b[3] as bv64 << 24)
    | (b[4] as bv64 << 32) | (b[5] as bv64 << 40) | (b[6] as bv64 << 48) | (b[7] as bv64 << 56)
  }

  /** The eight bytes of `w`, least significant first. */
  function Word64Bytes(w: bv64): (b: Bytes)
    ensures |b| == 8
  {
    [(w & 0xff) as bv8, ((w >> 8) & 0xff) as bv8, ((w >> 16) & 0xff) as bv8,
     ((w >> 24) & 0xff) as bv8, ((w >> 32) & 0xff) as bv8, ((w >> 40) & 0xff) as bv8,
     ((w >> 48) & 0xff) as bv8, ((w >> 56) & 0xff) as bv8]
  }

  lemma WordBytesRoundTrip(w: bv64)
    ensures Word64(Word64Bytes(w)) == w
  {
  }
}
