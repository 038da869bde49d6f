/** Turning a number below 256 into a byte. Built one bit at a time from
    shifts, so that its value is proved by induction over the bits instead
    of through the solver's integer-to-bit-vector conversion. */
module ByteCast {
  /** The byte whose value is `x`. */
  function ToByte(x: int): (b: bv8)
    requires 0 <= x < 256
  {
    if x == 0 then 0 else (ToByte(x / 2) << 1) | (if x % 2 == 1 then 1 else 0)
  }

  /** Shifting a bit in at the bottom doubles the value and adds the bit. */
  lemma ShiftIn(b: bv8, c: bv8)
    requires b < 128 && c < 2
    ensures ((b << 1) | c) as int == 2 * (b as int) + c as int
  {
  }

  /** `ToByte` keeps the number. */
  lemma {:induction false} ToByteValue(x: int)
    requires 0 <= x < 256
    ensures ToByte(x) as int == x
  {
    if x != 0 {
      ToByteValue(x / 2);
      ShiftIn(ToByte(x / 2), if x % 2 == 1 then 1 else 0);
    }
  }
}
