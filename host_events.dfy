/**
 * The event tests of the host runtime (src/Runtime_cpu.h), applied to the
 * result `x` and the operands `y`, `z` of one instrumented floating-point
 * instruction.
 *
 * A `float` is its 32-bit pattern and a `double` its 64-bit pattern, as the
 * source reads them with `memcpy`.  The C comparisons the tests use are
 * written out on the pattern: `x != 0.0` holds for everything but the two
 * zeros (NaN included), `x > 0` and `x < 0` are false for zeros and NaNs,
 * `isnan` is an all-ones exponent with a non-zero mantissa.
 *
 * The danger zone is the default `DANGER_ZONE_PERCENTAGE` of 0.05:
 *   FP32: latent infinity when the exponent field is >= 256 - (uint64_t)(0.05 * 256) = 244,
 *         latent underflow when it is <= (uint64_t)(0.05 * 256) = 12;
 *   FP64: latent infinity when >= 2048 - (uint64_t)(0.05 * 2048) = 1946,
 *         latent underflow when <= (uint64_t)(0.05 * 2048) = 102.
 */
module HostEvents {
  import opened FpcHashtable

  /** Instruction codes passed as `op` by the instrumentation. */
  const OpAdd: int := 0
  const OpSub: int := 1
  const OpMul: int := 2
  const OpDiv: int := 3
  const OpCmp: int := 4
  const OpRem: int := 5

  /** Magnitude: the pattern with its sign bit cleared. */
  function Mag32(x: bv32): bv32
  {
    x & 0x7FFF_FFFF
  }

  function Mag64(x: bv64): bv64
  {
    x & 0x7FFF_FFFF_FFFF_FFFF
  }

  /*------------------------------------------------------------------------*/
  /* FP32                                                                   */
  /*------------------------------------------------------------------------*/

  /** `_FPC_FP32_GET_EXPONENT`: shift out the sign, then the mantissa. */
  function Exponent32(x: bv32): (e: bv32)
    ensures e < 256
    ensures e == (x >> 23) & 0xFF
  {
    (x << 1) >> 24
  }

  /** `_FPC_FP32_GET_MANTISSA`: shift out sign and exponent, then back. */
  function Mantissa32(x: bv32): (m: bv32)
    ensures m == x & 0x7F_FFFF
  {
    (x << 9) >> 9
  }

  /** `x != 0.0 && x != -0.0` (true for NaN). */
  predicate NonZero32(x: bv32)
  {
    Mag32(x) != 0
  }

  /** `x > 0`: sign clear, neither zero nor NaN. */
  predicate Positive32(x: bv32)
  {
    x < 0x8000_0000 && NonZero32(x) && !IsNaN32(x)
  }

  /** `x < 0`: sign set, neither zero nor NaN. */
  predicate Negative32(x: bv32)
  {
    x >= 0x8000_0000 && NonZero32(x) && !IsNaN32(x)
  }

  /** `_FPC_FP32_IS_INF`: all-ones exponent, zero mantissa. */
  function IsInf32(x: bv32): (r: bool)
    ensures r <==> x == 0x7F80_0000 || x == 0xFF80_0000
  {
    Exponent32(x) == 255 && Mantissa32(x) == 0
  }

  function IsInfinityPos32(x: bv32): (r: bool)
    ensures r <==> x == 0x7F80_0000
  {
    IsInf32(x) && Positive32(x)
  }

  function IsInfinityNeg32(x: bv32): (r: bool)
    ensures r <==> x == 0xFF80_0000
  {
    IsInf32(x) && Negative32(x)
  }

  /** `isnan`: every magnitude above that of infinity. */
  function IsNaN32(x: bv32): (r: bool)
    ensures r <==> Mag32(x) > 0x7F80_0000
  {
    Exponent32(x) == 255 && Mantissa32(x) != 0
  }

  /** `_FPC_FP32_IS_DIVISON_ZERO`: a division of a non-zero (or NaN) by a zero. */
  function IsDivisionZero32(y: bv32, z: bv32, op: int): (r: bool)
    ensures r <==> op == OpDiv && y & 0x7FFF_FFFF != 0 && (z == 0 || z == 0x8000_0000)
  {
    op == OpDiv && NonZero32(y) && !NonZero32(z)
  }

  function Max(a: int, b: int): int
  {
    if a > b then a else b
  }

  /**
   * `_FPC_FP32_IS_CANCELLATION`: an addition or subtraction whose result
   * lost more than 30 binary orders of magnitude against its larger operand.
   */
  function IsCancellation32(x: bv32, y: bv32, z: bv32, op: int): (r: bool)
    ensures r <==> (op == OpAdd || op == OpSub) &&
                   (Exponent32(y) as int - 30 > Exponent32(x) as int ||
                    Exponent32(z) as int - 30 > Exponent32(x) as int)
  {
    (op == OpAdd || op == OpSub) &&
    Max(Exponent32(y) as int, Exponent32(z) as int) - Exponent32(x) as int > 30
  }

  /** `_FPC_FP32_IS_SUBNORMAL` (the underflow event): zero exponent, non-zero value. */
  function IsSubnormal32(x: bv32): (r: bool)
    ensures r <==> 0 < Mag32(x) < 0x0080_0000
  {
    NonZero32(x) && Exponent32(x) == 0
  }

  /** Exponent fields in the upper and lower danger zones of FP32. */
  const LatentInfinityMin32: bv32 := 244
  const LatentUnderflowMax32: bv32 := 12

  /** `_FPC_FP32_IS_LATENT_INFINITY`: true for infinities and NaNs as well. */
  function IsLatentInfinity32(x: bv32): (r: bool)
    ensures r <==> Mag32(x) >= 0x7A00_0000
  {
    NonZero32(x) && Exponent32(x) >= LatentInfinityMin32
  }

  function IsLatentInfinityPos32(x: bv32): (r: bool)
    ensures r <==> 0x7A00_0000 <= x <= 0x7F80_0000
  {
    IsLatentInfinity32(x) && Positive32(x)
  }

  function IsLatentInfinityNeg32(x: bv32): (r: bool)
    ensures r <==> 0xFA00_0000 <= x <= 0xFF80_0000
  {
    IsLatentInfinity32(x) && Negative32(x)
  }

  /** `_FPC_FP32_IS_LATENT_SUBNORMAL`: true for subnormals as well. */
  function IsLatentSubnormal32(x: bv32): (r: bool)
    ensures r <==> 0 < Mag32(x) < 0x0680_0000
  {
    NonZero32(x) && Exponent32(x) <= LatentUnderflowMax32
  }

  function Flag(b: bool): nat
  {
    if b then 1 else 0
  }

  /** The counters `_FPC_FP32_CHECK_` fills in for one instruction. */
  function Events32(x: bv32, y: bv32, z: bv32, op: int): (c: Counters)
    ensures forall k :: Count(c, k) <= 1
    ensures c.infinityPos == 1 <==> x == 0x7F80_0000
    ensures c.infinityNeg == 1 <==> x == 0xFF80_0000
    ensures c.nan == 1 <==> Mag32(x) > 0x7F80_0000
    ensures c.divisionZero == 1 <==> IsDivisionZero32(y, z, op)
    ensures c.cancellation == 1 <==> IsCancellation32(x, y, z, op)
    ensures c.comparison == 1 <==> op == OpCmp
    ensures c.underflow == 1 <==> 0 < Mag32(x) < 0x0080_0000
    ensures c.latentInfinityPos == 1 <==> 0x7A00_0000 <= x <= 0x7F80_0000
    ensures c.latentInfinityNeg == 1 <==> 0xFA00_0000 <= x <= 0xFF80_0000
    ensures c.latentUnderflow == 1 <==> 0 < Mag32(x) < 0x0680_0000
  {
    Counters(
      Flag(IsInfinityPos32(x)), Flag(IsInfinityNeg32(x)), Flag(IsNaN32(x)),
      Flag(IsDivisionZero32(y, z, op)), Flag(IsCancellation32(x, y, z, op)),
      Flag(op == OpCmp), Flag(IsSubnormal32(x)),
      Flag(IsLatentInfinityPos32(x)), Flag(IsLatentInfinityNeg32(x)),
      Flag(IsLatentSubnormal32(x)))
  }

  /*------------------------------------------------------------------------*/
  /* FP64                                                                   */
  /*------------------------------------------------------------------------*/

  /** `_FPC_FP64_GET_EXPONENT`. */
  function Exponent64(x: bv64): (e: bv64)
    ensures e < 2048
    ensures e == (x >> 52) & 0x7FF
  {
    (x << 1) >> 53
  }

  /** `_FPC_FP64_GET_MANTISSA`. */
  function Mantissa64(x: bv64): (m: bv64)
    ensures m == x & 0xF_FFFF_FFFF_FFFF
  {
    (x << 12) >> 12
  }

  predicate NonZero64(x: bv64)
  {
    Mag64(x) != 0
  }

  predicate Positive64(x: bv64)
  {
    x < 0x8000_0000_0000_0000 && NonZero64(x) && !IsNaN64(x)
  }

  predicate Negative64(x: bv64)
  {
    x >= 0x8000_0000_0000_0000 && NonZero64(x) && !IsNaN64(x)
  }

  function IsInf64(x: bv64): (r: bool)
    ensures r <==> x == 0x7FF0_0000_0000_0000 || x == 0xFFF0_0000_0000_0000
  {
    Exponent64(x) == 2047 && Mantissa64(x) == 0
  }

  function IsInfinityPos64(x: bv64): (r: bool)
    ensures r <==> x == 0x7FF0_0000_0000_0000
  {
    IsInf64(x) && Positive64(x)
  }

  function IsInfinityNeg64(x: bv64): (r: bool)
    ensures r <==> x == 0xFFF0_0000_0000_0000
  {
    IsInf64(x) && Negative64(x)
  }

  function IsNaN64(x: bv64): (r: bool)
    ensures r <==> Mag64(x) > 0x7FF0_0000_0000_0000
  {
    Exponent64(x) == 2047 && Mantissa64(x) != 0
  }

  function IsDivisionZero64(y: bv64, z: bv64, op: int): (r: bool)
    ensures r <==> op == OpDiv && y & 0x7FFF_FFFF_FFFF_FFFF != 0 &&
                   (z == 0 || z == 0x8000_0000_0000_0000)
  {
    op == OpDiv && NonZero64(y) && !NonZero64(z)
  }

  function IsCancellation64(x: bv64, y: bv64, z: bv64, op: int): (r: bool)
    ensures r <==> (op == OpAdd || op == OpSub) &&
                   (Exponent64(y) as int - 30 > Exponent64(x) as int ||
                    Exponent64(z) as int - 30 > Exponent64(x) as int)
  {
    (op == OpAdd || op == OpSub) &&
    Max(Exponent64(y) as int, Exponent64(z) as int) - Exponent64(x) as int > 30
  }

  function IsSubnormal64(x: bv64): (r: bool)
    ensures r <==> 0 < Mag64(x) < 0x0010_0000_0000_0000
  {
    NonZero64(x) && Exponent64(x) == 0
  }

  /** Exponent fields in the upper and lower danger zones of FP64. */
  const LatentInfinityMin64: bv64 := 1946
  const LatentUnderflowMax64: bv64 := 102

  function IsLatentInfinity64(x: bv64): (r: bool)
    ensures r <==> Mag64(x) >= 0x79A0_0000_0000_0000
  {
    NonZero64(x) && Exponent64(x) >= LatentInfinityMin64
  }

  function IsLatentInfinityPos64(x: bv64): (r: bool)
    ensures r <==> 0x79A0_0000_0000_0000 <= x <= 0x7FF0_0000_0000_0000
  {
    IsLatentInfinity64(x) && Positive64(x)
  }

  function IsLatentInfinityNeg64(x: bv64): (r: bool)
    ensures r <==> 0xF9A0_0000_0000_0000 <= x <= 0xFFF0_0000_0000_0000
  {
    IsLatentInfinity64(x) && Negative64(x)
  }

  function IsLatentSubnormal64(x: bv64): (r: bool)
    ensures r <==> 0 < Mag64(x) < 0x0670_0000_0000_0000
  {
    NonZero64(x) && Exponent64(x) <= LatentUnderflowMax64
  }

  /** The counters `_FPC_FP64_CHECK_` fills in for one instruction. */
  function Events64(x: bv64, y: bv64, z: bv64, op: int): (c: Counters)
    ensures forall k :: Count(c, k) <= 1
    ensures c.infinityPos == 1 <==> x == 0x7FF0_0000_0000_0000
    ensures c.infinityNeg == 1 <==> x == 0xFFF0_0000_0000_0000
    ensures c.nan == 1 <==> Mag64(x) > 0x7FF0_0000_0000_0000
    ensures c.divisionZero == 1 <==> IsDivisionZero64(y, z, op)
    ensures c.cancellation == 1 <==> IsCancellation64(x, y, z, op)
    ensures c.comparison == 1 <==> op == OpCmp
    ensures c.underflow == 1 <==> 0 < Mag64(x) < 0x0010_0000_0000_0000
    ensures c.latentInfinityPos == 1 <==> 0x79A0_0000_0000_0000 <= x <= 0x7FF0_0000_0000_0000
    ensures c.latentInfinityNeg == 1 <==> 0xF9A0_0000_0000_0000 <= x <= 0xFFF0_0000_0000_0000
    ensures c.latentUnderflow == 1 <==> 0 < Mag64(x) < 0x0670_0000_0000_0000
  {
    Counters(
      Flag(IsInfinityPos64(x)), Flag(IsInfinityNeg64(x)), Flag(IsNaN64(x)),
      Flag(IsDivisionZero64(y, z, op)), Flag(IsCancellation64(x, y, z, op)),
      Flag(op == OpCmp), Flag(IsSubnormal64(x)),
      Flag(IsLatentInfinityPos64(x)), Flag(IsLatentInfinityNeg64(x)),
      Flag(IsLatentSubnormal64(x)))
  }

  /*------------------------------------------------------------------------*/
  /* Relations between the events                                           */
  /*------------------------------------------------------------------------*/

  /** `_FPC_EVENT_OCURRED`: some counter of the record is non-zero. */
  function EventOccurred(c: Counters): (r: bool)
    ensures !r ==> forall k :: Count(c, k) == 0
    ensures r <==> c != NoEvents
  {
    c.infinityPos != 0 || c.infinityNeg != 0 || c.nan != 0 || c.divisionZero != 0 ||
    c.cancellation != 0 || c.comparison != 0 || c.underflow != 0 ||
    c.latentInfinityPos != 0 || c.latentInfinityNeg != 0 || c.latentUnderflow != 0
  }

  /**
   * A NaN result is reported as NaN and as an (unsigned) latent infinity,
   * but as neither signed infinity nor either signed latent infinity, since
   * both `x > 0` and `x < 0` are false for it.
   */
  lemma NaNEvents32(x: bv32, y: bv32, z: bv32, op: int)
    requires IsNaN32(x)
    ensures var c := Events32(x, y, z, op);
      c.nan == 1 && c.infinityPos == 0 && c.infinityNeg == 0 &&
      c.latentInfinityPos == 0 && c.latentInfinityNeg == 0 &&
      c.underflow == 0 && c.latentUnderflow == 0
    ensures IsLatentInfinity32(x)
  {
  }

  lemma NaNEvents64(x: bv64, y: bv64, z: bv64, op: int)
    requires IsNaN64(x)
    ensures var c := Events64(x, y, z, op);
      c.nan == 1 && c.infinityPos == 0 && c.infinityNeg == 0 &&
      c.latentInfinityPos == 0 && c.latentInfinityNeg == 0 &&
      c.underflow == 0 && c.latentUnderflow == 0
    ensures IsLatentInfinity64(x)
  {
  }

  /**
   * The danger zones contain the events they warn about: an underflow is
   * also a latent underflow, an infinity also a latent infinity of the same
   * sign; and the two zones never overlap.
   */
  lemma DangerZones32(x: bv32, y: bv32, z: bv32, op: int)
    ensures var c := Events32(x, y, z, op);
      (c.underflow == 1 ==> c.latentUnderflow == 1) &&
      (c.infinityPos == 1 ==> c.latentInfinityPos == 1) &&
      (c.infinityNeg == 1 ==> c.latentInfinityNeg == 1) &&
      !(c.latentUnderflow == 1 && (c.latentInfinityPos == 1 || c.latentInfinityNeg == 1)) &&
      !(c.latentInfinityPos == 1 && c.latentInfinityNeg == 1)
  {
  }

  lemma DangerZones64(x: bv64, y: bv64, z: bv64, op: int)
    ensures var c := Events64(x, y, z, op);
      (c.underflow == 1 ==> c.latentUnderflow == 1) &&
      (c.infinityPos == 1 ==> c.latentInfinityPos == 1) &&
      (c.infinityNeg == 1 ==> c.latentInfinityNeg == 1) &&
      !(c.latentUnderflow == 1 && (c.latentInfinityPos == 1 || c.latentInfinityNeg == 1)) &&
      !(c.latentInfinityPos == 1 && c.latentInfinityNeg == 1)
  {
  }

  /**
   * The result of a cancellation has an exponent field more than 30 below
   * the largest one, so it is neither an infinity nor a NaN; for FP32 it is
   * below the latent-infinity zone too (225 <= 244), while for FP64 the zone
   * starts lower (1946 < 2017) and a cancelled result can still lie in it.
   */
  lemma CancellationResult32(x: bv32, y: bv32, z: bv32, op: int)
    requires IsCancellation32(x, y, z, op)
    ensures Exponent32(x) < 225
    ensures !IsInf32(x) && !IsNaN32(x) && !IsLatentInfinity32(x)
  {
  }

  lemma CancellationResult64(x: bv64, y: bv64, z: bv64, op: int)
    requires IsCancellation64(x, y, z, op)
    ensures Exponent64(x) < 2017
    ensures !IsInf64(x) && !IsNaN64(x)
  {
    assert Exponent64(y) as int < 2048 && Exponent64(z) as int < 2048;
    assert Exponent64(x) as int < 2017;
  }

  /** An ordinary result (1.0, 2.5, ...) of an addition raises no event at all. */
  lemma NormalAdditionIsQuiet32(x: bv32, y: bv32, z: bv32)
    requires Exponent32(x) == 127 && Exponent32(y) <= 127 && Exponent32(z) <= 127
    ensures !EventOccurred(Events32(x, y, z, OpAdd))
  {
  }
}
