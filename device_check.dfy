/**
 * The device-side checks of src/Runtime.h: after every instrumented
 * floating-point instruction on the GPU, `_FPC_FP32_CHECK_OPERATION_` /
 * `_FPC_FP64_CHECK_OPERATION_` report at most one problem with the result,
 * and `_FPC_PRINT_ERRORS_` sweeps the per-line error array.
 *
 * The device danger zone is the default `DANGER_ZONE_PERCENTAGE` of 0.10:
 *   FP32: almost overflow when the exponent field is >= 256 - (int)(0.10 * 256) = 231,
 *         almost subnormal when it is <= (int)(0.10 * 256) = 25;
 *   FP64: almost overflow when >= 2048 - (int)(0.10 * 2048) = 1844,
 *         almost subnormal when <= (int)(0.10 * 2048) = 204.
 * The subnormal test and the exponent extraction are the same bit
 * expressions as on the host.
 */
module DeviceCheck {
  import opened HostEvents

  /** The `errorType` argument of `_FPC_INTERRUPT_` and `_FPC_WARNING_`. */
  datatype ErrorType = NaNError | InfError | UnderflowError

  function ErrorCode(e: ErrorType): (code: int)
    ensures 0 <= code <= 2
  {
    match e
    case NaNError => 0
    case InfError => 1
    case UnderflowError => 2
  }

  /**
   * What one check reports: nothing, an error (`_FPC_INTERRUPT_`) or a
   * warning (`_FPC_WARNING_`), with the instruction code, the line, and the
   * result passed as the float or the double argument (the other one is 0).
   * Both reports print a box and end in a trap instruction; when
   * FPC_ERRORS_DONT_ABORT is defined, neither prints nor traps at all.
   */
  datatype DeviceReport =
    | Quiet
    | Interrupt(error: ErrorType, op: int, loc: int, fp32: bv32, fp64: bv64)
    | Warning(error: ErrorType, op: int, loc: int, fp32: bv32, fp64: bv64)

  /*------------------------------------------------------------------------*/
  /* FP32                                                                   */
  /*------------------------------------------------------------------------*/

  const AlmostOverflowMin32: bv32 := 231
  const AlmostSubnormalMax32: bv32 := 25

  /** `_FPC_FP32_IS_ALMOST_OVERFLOW` (device): non-zero, exponent field >= 231. */
  function IsAlmostOverflow32(x: bv32): (r: bool)
    ensures r <==> Mag32(x) >= 0x7380_0000
  {
    NonZero32(x) && Exponent32(x) >= AlmostOverflowMin32
  }

  /** `_FPC_FP32_IS_ALMOST_SUBNORMAL` (device): non-zero, exponent field <= 25. */
  function IsAlmostSubnormal32(x: bv32): (r: bool)
    ensures r <==> 0 < Mag32(x) < 0x0D00_0000
  {
    NonZero32(x) && Exponent32(x) <= AlmostSubnormalMax32
  }

  /**
   * `_FPC_FP32_CHECK_OPERATION_`: infinity, else NaN, else subnormal stop
   * the kernel; else an almost-subnormal, else an almost-overflowing result
   * is warned about.  The magnitude of the result alone decides, and the
   * ranges below partition all bit patterns.
   */
  function CheckOperation32(x: bv32, y: bv32, z: bv32, loc: int, op: int): (r: DeviceReport)
    ensures r.Interrupt? || r.Warning? ==> r.op == op && r.loc == loc && r.fp32 == x && r.fp64 == 0
    ensures r == Quiet <==> Mag32(x) == 0 || 0x0D00_0000 <= Mag32(x) < 0x7380_0000
    ensures r.Interrupt? && r.error == InfError <==> Mag32(x) == 0x7F80_0000
    ensures r.Interrupt? && r.error == NaNError <==> Mag32(x) > 0x7F80_0000
    ensures r.Interrupt? && r.error == UnderflowError <==> 0 < Mag32(x) < 0x0080_0000
    ensures r.Warning? && r.error == UnderflowError <==> 0x0080_0000 <= Mag32(x) < 0x0D00_0000
    ensures r.Warning? && r.error == InfError <==> 0x7380_0000 <= Mag32(x) < 0x7F80_0000
    ensures !(r.Warning? && r.error == NaNError)
  {
    if IsInf32(x) then Interrupt(InfError, op, loc, x, 0)
    else if IsNaN32(x) then Interrupt(NaNError, op, loc, x, 0)
    else if IsSubnormal32(x) then Interrupt(UnderflowError, op, loc, x, 0)
    else if IsAlmostSubnormal32(x) then Warning(UnderflowError, op, loc, x, 0)
    else if IsAlmostOverflow32(x) then Warning(InfError, op, loc, x, 0)
    else Quiet
  }

  /*------------------------------------------------------------------------*/
  /* FP64                                                                   */
  /*------------------------------------------------------------------------*/

  const AlmostOverflowMin64: bv64 := 1844
  const AlmostSubnormalMax64: bv64 := 204

  function IsAlmostOverflow64(x: bv64): (r: bool)
    ensures r <==> Mag64(x) >= 0x7340_0000_0000_0000
  {
    NonZero64(x) && Exponent64(x) >= AlmostOverflowMin64
  }

  function IsAlmostSubnormal64(x: bv64): (r: bool)
    ensures r <==> 0 < Mag64(x) < 0x0CD0_0000_0000_0000
  {
    NonZero64(x) && Exponent64(x) <= AlmostSubnormalMax64
  }

  /** `_FPC_FP64_CHECK_OPERATION_`: the same chain with the FP64 thresholds. */
  function CheckOperation64(x: bv64, y: bv64, z: bv64, loc: int, op: int): (r: DeviceReport)
    ensures r.Interrupt? || r.Warning? ==> r.op == op && r.loc == loc && r.fp32 == 0 && r.fp64 == x
    ensures r == Quiet <==> Mag64(x) == 0 || 0x0CD0_0000_0000_0000 <= Mag64(x) < 0x7340_0000_0000_0000
    ensures r.Interrupt? && r.error == InfError <==> Mag64(x) == 0x7FF0_0000_0000_0000
    ensures r.Interrupt? && r.error == NaNError <==> Mag64(x) > 0x7FF0_0000_0000_0000
    ensures r.Interrupt? && r.error == UnderflowError <==> 0 < Mag64(x) < 0x0010_0000_0000_0000
    ensures r.Warning? && r.error == UnderflowError <==>
              0x0010_0000_0000_0000 <= Mag64(x) < 0x0CD0_0000_0000_0000
    ensures r.Warning? && r.error == InfError <==>
              0x7340_0000_0000_0000 <= Mag64(x) < 0x7FF0_0000_0000_0000
    ensures !(r.Warning? && r.error == NaNError)
  {
    if IsInf64(x) then Interrupt(InfError, op, loc, 0, x)
    else if IsNaN64(x) then Interrupt(NaNError, op, loc, 0, x)
    else if IsSubnormal64(x) then Interrupt(UnderflowError, op, loc, 0, x)
    else if IsAlmostSubnormal64(x) then Warning(UnderflowError, op, loc, 0, x)
    else if IsAlmostOverflow64(x) then Warning(InfError, op, loc, 0, x)
    else Quiet
  }

  /**
   * The device danger zones are wider than the host's (10% against 5% of
   * the exponent range): every host latent infinity or latent underflow is
   * at least a device warning, and never passes quietly on the GPU.
   */
  lemma DeviceZonesContainHostZones32(x: bv32, loc: int, op: int)
    requires IsLatentInfinity32(x) || IsLatentSubnormal32(x)
    ensures CheckOperation32(x, 0, 0, loc, op) != Quiet
  {
  }

  lemma DeviceZonesContainHostZones64(x: bv64, loc: int, op: int)
    requires IsLatentInfinity64(x) || IsLatentSubnormal64(x)
    ensures CheckOperation64(x, 0, 0, loc, op) != Quiet
  {
  }

  /*------------------------------------------------------------------------*/
  /* The error-array sweep                                                  */
  /*------------------------------------------------------------------------*/

  /** `errors_array_size`: the length of `errors_per_line_array`. */
  const ErrorsArraySize: nat := 10

  /** `INT_MIN` of a 32-bit `int`. */
  const IntMin: int := -0x8000_0000

  /** One `#FPCHECKER: Errors at <file>:<index> (#<count>, tid:<id>)` line. */
  datatype ErrorLine = ErrorLine(file: string, index: nat, count: int, tid: int)

  /** An entry after the sweep: every non-zero count becomes `INT_MIN`. */
  function SweptEntry(e: int): (r: int)
    ensures r <= 0
    ensures e == 0 <==> r == 0
  {
    if e > 0 then IntMin else if e < 0 then IntMin else e
  }

  function Swept(s: seq<int>): (r: seq<int>)
    ensures |r| == |s| && forall i :: 0 <= i < |s| ==> r[i] == SweptEntry(s[i])
  {
    seq(|s|, i requires 0 <= i < |s| => SweptEntry(s[i]))
  }

  /** The lines reported for the entries of `s` from index `from` on: the positive ones, in order. */
  function ErrorLines(s: seq<int>, from: nat, file: string, tid: int): (ls: seq<ErrorLine>)
    requires from <= |s|
    ensures |ls| <= |s| - from
    ensures forall l :: l in ls ==> from <= l.index < |s| && l.count == s[l.index] > 0 && l.file == file
    decreases |s| - from
  {
    if from == |s| then []
    else
      var rest := ErrorLines(s, from + 1, file, tid);
      if s[from] > 0 then [ErrorLine(file, from, s[from], tid)] + rest else rest
  }

  /** Every positive entry is reported. */
  lemma {:induction false} ErrorLinesComplete(s: seq<int>, from: nat, file: string, tid: int, i: nat)
    requires from <= i < |s| && s[i] > 0
    ensures ErrorLine(file, i, s[i], tid) in ErrorLines(s, from, file, tid)
    decreases |s| - from
  {
    if from < i {
      ErrorLinesComplete(s, from + 1, file, tid, i);
    }
  }

  /** Nothing is reported from entries that are all zero or negative. */
  lemma {:induction false} NoErrorLinesWhenNonPositive(s: seq<int>, from: nat, file: string, tid: int)
    requires from <= |s|
    requires forall i :: from <= i < |s| ==> s[i] <= 0
    ensures ErrorLines(s, from, file, tid) == []
    decreases |s| - from
  {
    if from < |s| {
      NoErrorLinesWhenNonPositive(s, from + 1, file, tid);
    }
  }

  /**
   * A second sweep reports nothing and changes nothing: this is why every
   * reported entry, and every negative one, is overwritten with `INT_MIN`.
   */
  lemma SweepIdempotent(s: seq<int>, file: string, tid: int)
    ensures Swept(Swept(s)) == Swept(s)
    ensures ErrorLines(Swept(s), 0, file, tid) == []
  {
    NoErrorLinesWhenNonPositive(Swept(s), 0, file, tid);
  }

  /**
   * `_FPC_PRINT_ERRORS_`: only thread 0 sweeps the array, reporting each
   * positive count and overwriting every non-zero entry with `INT_MIN`.
   */
  method PrintErrors(errors: array<int>, file: string, tid: int) returns (lines: seq<ErrorLine>)
    requires errors.Length == ErrorsArraySize
    modifies errors
    ensures tid != 0 ==> lines == [] && errors[..] == old(errors[..])
    ensures tid == 0 ==> lines == ErrorLines(old(errors[..]), 0, file, tid) && errors[..] == Swept(old(errors[..]))
  {
    lines := [];
    if tid != 0 {
      return;
    }
    ghost var orig := errors[..];
    var i := 0;
    while i < ErrorsArraySize
      invariant 0 <= i <= ErrorsArraySize
      invariant forall k :: 0 <= k < i ==> errors[k] == SweptEntry(orig[k])
      invariant forall k :: i <= k < ErrorsArraySize ==> errors[k] == orig[k]
      invariant lines + ErrorLines(orig, i, file, tid) == ErrorLines(orig, 0, file, tid)
    {
      var e := errors[i];
      ghost var rest := ErrorLines(orig, i + 1, file, tid);
      if e > 0 {
        assert ErrorLines(orig, i, file, tid) == [ErrorLine(file, i, e, tid)] + rest;
        lines := lines + [ErrorLine(file, i, e, tid)];
        errors[i] := IntMin;
      } else if e < 0 {
        errors[i] := IntMin;
      }
      i := i + 1;
    }
    assert errors[..] == Swept(orig);
  }
}
