/**
 * The scale converter (`values_adapt`): sign recovery of a 24-bit field by
 * complement-and-negate, then division by a fixed factor. Python's `/`
 * yields a double; every numerator here has magnitude at most 2^23 and the
 * gyro and accelerometer factors are powers of two, so those quotients are
 * exact and are modelled as reals.
 */
module Scale {
  import opened Bits

  const AccelerationFactor: nat := 0x8000   // 2**15
  const GyroFactor: nat := 0x1000           // 2**12
  const TwosComplimentFactor: nat := 0x80_0000  // 1 << 23
  const TemperatureFactor: nat := 10

  /** `np.int32(x)`: x reduced to the signed 32-bit range. */
  function Int32(x: int): (r: int)
    ensures -0x8000_0000 <= r < 0x8000_0000
    ensures (r - x) % 0x1_0000_0000 == 0
    ensures -0x8000_0000 <= x < 0x8000_0000 ==> r == x
  {
    (x + 0x8000_0000) % 0x1_0000_0000 - 0x8000_0000
  }

  /** The two's-complement reading of a 24-bit field. */
  function Signed24(v: nat): int
  {
    if v >= 0x80_0000 then v - 0x100_0000 else v
  }

  /** On a 24-bit field, `value & TWOS_COMPLIMENT_FACTOR` is non-zero exactly when the value reaches 2^23. */
  lemma SignBitTest(value: nat)
    ensures value < 0x100_0000 ==> (And(value, TwosComplimentFactor) != 0 <==> value >= 0x80_0000)
  {
    AndPow2(value, 23);
    Pow2Table();
    if value < 0x100_0000 {
      TopBit(value, 23);
    }
  }

  /**
   * The numerator `values_adapt` divides: if bit 23 is set, the value is
   * replaced by `np.int32(-(0xFFFFFF - value + 1))`. On a 24-bit field this
   * is exactly the two's-complement reading, negative exactly when bit 23 is
   * set, and reduces back to the field modulo 2^24.
   */
  function SignedValue(value: nat): (n: int)
    ensures value < 0x100_0000 ==>
      n == Signed24(value) &&
      -0x80_0000 <= n < 0x80_0000 &&
      (n < 0 <==> value >= 0x80_0000) &&
      n % 0x100_0000 == value
  {
    SignBitTest(value);
    if And(value, TwosComplimentFactor) != 0 then
      var magnitude := 0xFF_FFFF - value + 1;
      Int32(-magnitude)
    else
      value
  }

  /** `values_adapt(value, factor)`. */
  function ValuesAdapt(value: nat, factor: nat): (r: real)
    requires factor > 0
    ensures value < 0x100_0000 ==>
      r == Signed24(value) as real / factor as real &&
      -0x80_0000 as real / factor as real <= r < 0x80_0000 as real / factor as real
  {
    var n := SignedValue(value);
    DivideMonotone(-0x80_0000 as real, n as real, factor as real);
    DivideMonotone(n as real, 0x80_0000 as real, factor as real);
    n as real / factor as real
  }

  /** Division by a positive number keeps order. */
  lemma DivideMonotone(a: real, b: real, d: real)
    requires d > 0.0
    ensures a <= b ==> a / d <= b / d
    ensures a < b ==> a / d < b / d
  {
  }

  /** A zero field scales to zero. */
  lemma ZeroReadsZero(factor: nat)
    requires factor > 0
    ensures ValuesAdapt(0, factor) == 0.0
  {
  }

  /** One g either way, and the most negative field, on the accelerometer scale. */
  lemma ScaledAccelerations()
    ensures ValuesAdapt(0x8000, AccelerationFactor) == 1.0
    ensures ValuesAdapt(0xFF_8000, AccelerationFactor) == -1.0
    ensures ValuesAdapt(0x80_0000, AccelerationFactor) == -256.0
  {
  }

  /** Dividing by a positive number and multiplying back gives the number again. */
  lemma DivideCancels(a: real, d: real)
    requires d > 0.0
    ensures (a / d) * d == a
  {
  }

  /**
   * The inverse of `values_adapt`: multiply back by the factor and add 2^24
   * to a negative result.
   */
  function Reencode(x: real, factor: nat): int
  {
    var n := (x * factor as real).Floor;
    if n < 0 then n + 0x100_0000 else n
  }

  /** Re-encoding an integer over the factor gives it back, moved into [0, 2^24) when negative. */
  lemma ReencodeExact(x: real, factor: nat, n: int)
    requires factor > 0 && x == n as real / factor as real
    ensures Reencode(x, factor) == if n < 0 then n + 0x100_0000 else n
  {
    DivideCancels(n as real, factor as real);
  }

  /** Scaling a 24-bit field and re-encoding the result recovers the field exactly. */
  lemma ValuesAdaptRoundTrip(value: nat, factor: nat)
    requires value < 0x100_0000 && factor > 0
    ensures Reencode(ValuesAdapt(value, factor), factor) == value
  {
    ReencodeExact(ValuesAdapt(value, factor), factor, SignedValue(value));
  }

  /** Distinct 24-bit fields scale to distinct values under the same factor. */
  lemma ValuesAdaptInjective(v: nat, w: nat, factor: nat)
    requires v < 0x100_0000 && w < 0x100_0000 && factor > 0
    ensures ValuesAdapt(v, factor) == ValuesAdapt(w, factor) ==> v == w
  {
    ValuesAdaptRoundTrip(v, factor);
    ValuesAdaptRoundTrip(w, factor);
  }
}
