/**
 * Stopping the program at a chosen event (src/Runtime_cpu.h,
 * `_FPC_CHECK_AND_TRAP` and `_FPC_TRAP_HERE`).
 *
 * The environment is a map from variable name to value: `getenv(v) != NULL`
 * is `v in env`.  What `_FPC_TRAP_HERE` prints is a `TrapNotice`.  Raising
 * SIGABRT ends the program, so no later kind is looked at; with
 * `FPC_TRAPS_HANG` set the call sleeps and returns, and the remaining kinds
 * are still checked.
 */
module HostTrap {
  import opened Wrappers
  import opened Decimal
  import opened FpcHashtable

  type Env = map<string, string>

  /** The message `_FPC_TRAP_HERE` prints for each kind. */
  function TrapName(k: EventKind): string
  {
    match k
    case InfinityPos => "infinity(+)"
    case InfinityNeg => "infinity(-)"
    case NaN => "nan"
    case DivisionZero => "division by zero"
    case Cancellation => "cancellation"
    case Comparison => "comparison"
    case Underflow => "underflow"
    case LatentInfinityPos => "latent infinity(+)"
    case LatentInfinityNeg => "latent infinity(-)"
    case LatentUnderflow => "latent underflow"
  }

  /** The environment variable that enables trapping on each kind. */
  function TrapVar(k: EventKind): (v: string)
    ensures "FPC_TRAP_" <= v
  {
    match k
    case InfinityPos => "FPC_TRAP_INFINITY_POS"
    case InfinityNeg => "FPC_TRAP_INFINITY_NEG"
    case NaN => "FPC_TRAP_NAN"
    case DivisionZero => "FPC_TRAP_DIVISION_ZERO"
    case Cancellation => "FPC_TRAP_CANCELLATION"
    case Comparison => "FPC_TRAP_COMPARISON"
    case Underflow => "FPC_TRAP_UNDERFLOW"
    case LatentInfinityPos => "FPC_TRAP_LATENT_INF_POS"
    case LatentInfinityNeg => "FPC_TRAP_LATENT_INF_NEG"
    case LatentUnderflow => "FPC_TRAP_LATENT_UNDERFLOW"
  }

  /*------------------------------------------------------------------------*/
  /* String helpers                                                         */
  /*------------------------------------------------------------------------*/

  /** `_FPC_STRING_ENDS_WITH`: the last |suffix| characters of `s` are `suffix`. */
  function EndsWith(s: string, suffix: string): (r: bool)
    ensures r <==> exists p :: p + suffix == s
  {
    if |s| < |suffix| then false
    else
      var index := |s| - |suffix|;
      assert s[..index] + s[index..] == s;
      assert forall p :: p + suffix == s ==> s[index..] == suffix by {
        forall p | p + suffix == s ensures s[index..] == suffix {
          assert |p| == index;
        }
      }
      s[index..] == suffix
  }

  /** `isspace` in the C locale. */
  predicate IsCSpace(c: char)
  {
    c == ' ' || c == '\t' || c == '\n' || c == '\r' || c == '\U{000B}' || c == '\U{000C}'
  }

  /** `s` without its leading white space. */
  function SkipSpace(s: string): (t: string)
    ensures |t| <= |s| && t == s[|s| - |t|..]
  {
    if s != [] && IsCSpace(s[0]) then SkipSpace(s[1..]) else s
  }

  /** The longest prefix of decimal digits. */
  function DigitPrefix(s: string): (d: string)
    ensures d <= s && AllDigits(d)
    ensures |d| == |s| || !IsDigit(s[|d|])
  {
    if s != [] && IsDigit(s[0]) then [s[0]] + DigitPrefix(s[1..]) else []
  }

  /**
   * `atoi`: skip white space, read an optional sign and then as many digits
   * as follow; no digits read as 0.  (Values outside `int` are undefined in C
   * and are not narrowed here.)
   */
  function Atoi(s: string): (r: int)
    ensures AllDigits(s) ==> r == DigitsValue(s)
    ensures r < 0 ==> SkipSpace(s) != [] && SkipSpace(s)[0] == '-'
  {
    DigitPrefixOfAllDigits(s);
    var t := SkipSpace(s);
    if t != [] && t[0] == '-' then 0 - DigitsValue(DigitPrefix(t[1..]))
    else if t != [] && t[0] == '+' then DigitsValue(DigitPrefix(t[1..]))
    else DigitsValue(DigitPrefix(t))
  }

  lemma DigitPrefixOfAllDigits(s: string)
    ensures AllDigits(s) ==> SkipSpace(s) == s && DigitPrefix(s) == s
  {
    if AllDigits(s) {
      DigitPrefixOfDigits(s);
      assert s != [] ==> IsDigit(s[0]);
    }
  }

  lemma DigitPrefixOfDigits(s: string)
    requires AllDigits(s)
    ensures DigitPrefix(s) == s
  {
    if s != [] {
      DigitPrefixOfDigits(s[1..]);
    }
  }

  /** Text that does not start, after white space, with a sign or a digit reads as 0. */
  lemma AtoiOfNonNumeric(s: string)
    requires var t := SkipSpace(s); t == [] || !(t[0] == '-' || t[0] == '+' || IsDigit(t[0]))
    ensures Atoi(s) == 0
  {
  }

  /** A numeral reads as its value. */
  lemma AtoiOfNumeral(n: nat)
    ensures Atoi(NatToString(n)) == n
  {
    var d := NatToString(n);
    DigitPrefixOfDigits(d);
    DigitsValueOfNatToString(n);
    assert IsDigit(d[0]);
    assert !IsCSpace(d[0]);
    assert SkipSpace(d) == d;
  }

  /** A minus sign and a numeral read as the negated value. */
  lemma AtoiOfNegativeNumeral(n: nat)
    ensures Atoi("-" + NatToString(n)) == -(n as int)
  {
    var d := NatToString(n);
    DigitPrefixOfDigits(d);
    DigitsValueOfNatToString(n);
    var m := "-" + d;
    assert SkipSpace(m) == m;
    assert m[1..] == d;
  }

  /** `atoi` reads back what `%d` writes. */
  lemma AtoiOfIntToString(i: int)
    ensures Atoi(IntToString(i)) == i
  {
    var s := IntToString(i);
    IntToStringCases(i);
    if i < 0 {
      var n: nat := -i;
      assert s == "-" + NatToString(n);
      AtoiOfNegativeNumeral(n);
      assert Atoi(s) == -(n as int);
    } else {
      var n: nat := i;
      assert s == NatToString(n);
      AtoiOfNumeral(n);
    }
  }

  lemma IntToStringCases(i: int)
    ensures i < 0 ==> IntToString(i) == "-" + NatToString(-i)
    ensures 0 <= i ==> IntToString(i) == NatToString(i)
  {
  }

  /*------------------------------------------------------------------------*/
  /* Choosing the location                                                  */
  /*------------------------------------------------------------------------*/

  /** `(uint64_t)` of a signed value: two's complement wrap-around. */
  function ToU64(i: int): (u: u64)
    ensures 0 <= i < U64 ==> u == i
    ensures -(U64 as int) <= i < 0 ==> u == U64 + i
  {
    i % U64
  }

  /**
   * Whether traps apply to this record: its file name ends with
   * FPC_TRAP_FILE, when that is set, and its line is FPC_TRAP_LINE, when that
   * is set.
   */
  function LocationSelected(env: Env, item: Item): (r: bool)
    ensures r ==> "FPC_TRAP_FILE" in env ==> exists p :: p + env["FPC_TRAP_FILE"] == item.file.text
    ensures "FPC_TRAP_LINE" !in env && ("FPC_TRAP_FILE" in env ==> exists p :: p + env["FPC_TRAP_FILE"] == item.file.text) ==> r
    ensures r && "FPC_TRAP_LINE" in env && AllDigits(env["FPC_TRAP_LINE"]) && DigitsValue(env["FPC_TRAP_LINE"]) < U64
            ==> item.line as int == DigitsValue(env["FPC_TRAP_LINE"])
  {
    ("FPC_TRAP_FILE" in env ==> EndsWith(item.file.text, env["FPC_TRAP_FILE"])) &&
    ("FPC_TRAP_LINE" in env ==> item.line == ToU64(Atoi(env["FPC_TRAP_LINE"])))
  }

  /** Neither variable set: every location is selected. */
  lemma AllLocationsByDefault(env: Env, item: Item)
    requires "FPC_TRAP_FILE" !in env && "FPC_TRAP_LINE" !in env
    ensures LocationSelected(env, item)
  {
  }

  /**
   * FPC_TRAP_FILE=<suffix> and FPC_TRAP_LINE=<line> select exactly the
   * records of that line in files whose names end with the suffix.
   */
  lemma SelectsFileAndLine(env: Env, item: Item, suffix: string, line: nat)
    requires line < U64
    requires "FPC_TRAP_FILE" in env && env["FPC_TRAP_FILE"] == suffix
    requires "FPC_TRAP_LINE" in env && env["FPC_TRAP_LINE"] == NatToString(line)
    ensures LocationSelected(env, item) <==> EndsWith(item.file.text, suffix) && item.line == line
  {
    AtoiOfIntToString(line);
  }

  /*------------------------------------------------------------------------*/
  /* Trapping                                                               */
  /*------------------------------------------------------------------------*/

  /** What `_FPC_TRAP_HERE` prints: the kind, the location, and host and pid when asked. */
  datatype TrapNotice = TrapNotice(name: string, loc: int, file: string, showsHost: bool)

  /** Trapping on `k` is enabled and the record counts an event of that kind. */
  predicate Armed(env: Env, c: Counters, k: EventKind)
  {
    TrapVar(k) in env && Count(c, k) != 0
  }

  /** The armed kinds among `ks`, in their order. */
  function ArmedKinds(env: Env, c: Counters, ks: seq<EventKind>): (r: seq<EventKind>)
    ensures |r| <= |ks|
  {
    if ks == [] then []
    else (if Armed(env, c, ks[0]) then [ks[0]] else []) + ArmedKinds(env, c, ks[1..])
  }

  /** Exactly the armed kinds of `ks` are kept. */
  lemma {:induction false} ArmedKindsMembers(env: Env, c: Counters, ks: seq<EventKind>)
    ensures forall k :: k in ArmedKinds(env, c, ks) <==> k in ks && Armed(env, c, k)
  {
    if ks != [] {
      ArmedKindsMembers(env, c, ks[1..]);
      assert ks == [ks[0]] + ks[1..];
    }
  }

  /**
   * The first kept kind is the first armed one of `ks`: without
   * FPC_TRAPS_HANG, this is the kind the program aborts on.
   */
  lemma {:induction false} ArmedKindsFirst(env: Env, c: Counters, ks: seq<EventKind>, j: nat)
    requires j < |ks| && Armed(env, c, ks[j])
    requires forall i :: 0 <= i < j ==> !Armed(env, c, ks[i])
    ensures ArmedKinds(env, c, ks) != [] && ArmedKinds(env, c, ks)[0] == ks[j]
  {
    if j > 0 {
      ArmedKindsFirst(env, c, ks[1..], j - 1);
    }
  }

  /** The kinds `_FPC_CHECK_AND_TRAP` traps on for this record, in the order it tests them. */
  function TrapKinds(env: Env, item: Item): seq<EventKind>
  {
    if LocationSelected(env, item) then ArmedKinds(env, item.events, AllKinds) else []
  }

  /** A kind is trapped on exactly when the location is selected and the kind is armed. */
  lemma TrapKindsMembers(env: Env, item: Item)
    ensures forall k :: k in TrapKinds(env, item) <==> LocationSelected(env, item) && Armed(env, item.events, k)
  {
    ArmedKindsMembers(env, item.events, AllKinds);
    forall k ensures k in AllKinds {
      match k
      case InfinityPos => assert AllKinds[0] == k;
      case InfinityNeg => assert AllKinds[1] == k;
      case NaN => assert AllKinds[2] == k;
      case DivisionZero => assert AllKinds[3] == k;
      case Cancellation => assert AllKinds[4] == k;
      case Comparison => assert AllKinds[5] == k;
      case Underflow => assert AllKinds[6] == k;
      case LatentInfinityPos => assert AllKinds[7] == k;
      case LatentInfinityNeg => assert AllKinds[8] == k;
      case LatentUnderflow => assert AllKinds[9] == k;
    }
  }

  function Notice(env: Env, k: EventKind, loc: int, fileName: string): TrapNotice
  {
    TrapNotice(TrapName(k), loc, fileName, "FPC_PRINT_HOSTNAME" in env)
  }

  function Notices(env: Env, ks: seq<EventKind>, loc: int, fileName: string): (ns: seq<TrapNotice>)
    ensures |ns| == |ks| && forall i :: 0 <= i < |ks| ==> ns[i] == Notice(env, ks[i], loc, fileName)
  {
    if ks == [] then [] else [Notice(env, ks[0], loc, fileName)] + Notices(env, ks[1..], loc, fileName)
  }

  /**
   * What `_FPC_CHECK_AND_TRAP` reports for a record, and whether it aborts:
   * with FPC_TRAPS_HANG a notice for every kind it traps on, otherwise a
   * notice for the first such kind and the abort.
   */
  function TrapOutcome(env: Env, item: Item, loc: int, fileName: string): (seq<TrapNotice>, bool)
  {
    var ks := TrapKinds(env, item);
    if "FPC_TRAPS_HANG" in env then (Notices(env, ks, loc, fileName), false)
    else (Notices(env, ks[..if ks == [] then 0 else 1], loc, fileName), ks != [])
  }

  /**
   * Without FPC_TRAPS_HANG the program aborts at the first kind, in the fixed
   * order, that is enabled and was counted, and reports only that kind.
   */
  lemma AbortsAtFirstArmedKind(env: Env, item: Item, loc: int, fileName: string, j: nat)
    requires "FPC_TRAPS_HANG" !in env && LocationSelected(env, item)
    requires j < |AllKinds| && Armed(env, item.events, AllKinds[j])
    requires forall i :: 0 <= i < j ==> !Armed(env, item.events, AllKinds[i])
    ensures TrapOutcome(env, item, loc, fileName).1
    ensures TrapOutcome(env, item, loc, fileName).0 == [Notice(env, AllKinds[j], loc, fileName)]
  {
    ArmedKindsFirst(env, item.events, AllKinds, j);
  }

  /** An unselected location, or a record with no enabled kind, never traps. */
  lemma QuietWhenNothingArmed(env: Env, item: Item, loc: int, fileName: string)
    requires !LocationSelected(env, item) || forall k :: !Armed(env, item.events, k)
    ensures TrapOutcome(env, item, loc, fileName) == ([], false)
  {
    TrapKindsMembers(env, item);
    HeadIn(TrapKinds(env, item));
  }

  lemma HeadIn<T>(s: seq<T>)
    ensures s == [] || s[0] in s
  {
  }

  /**
   * `_FPC_TRAP_HERE`: print the notice, then either hang (and return) or
   * abort.
   */
  method TrapHere(env: Env, name: string, loc: int, fileName: string)
    returns (notice: TrapNotice, aborted: bool)
    ensures notice == TrapNotice(name, loc, fileName, "FPC_PRINT_HOSTNAME" in env)
    ensures aborted <==> "FPC_TRAPS_HANG" !in env
  {
    notice := TrapNotice(name, loc, fileName, "FPC_PRINT_HOSTNAME" in env);
    aborted := "FPC_TRAPS_HANG" !in env;
  }

  /**
   * `_FPC_CHECK_AND_TRAP`: when the record's location is selected, trap on
   * each armed kind in the fixed order.  Without FPC_TRAPS_HANG the first
   * trap aborts, so only the first armed kind is reported; with it every
   * armed kind is.
   */
  method CheckAndTrap(env: Env, item: Item, loc: int, fileName: string)
    returns (notices: seq<TrapNotice>, aborted: bool)
    ensures (notices, aborted) == TrapOutcome(env, item, loc, fileName)
  {
    notices := [];
    aborted := false;
    var check := LocationSelected(env, item);
    if !check {
      return;
    }
    ghost var c := item.events;
    var i := 0;
    while i < |AllKinds| && !aborted
      invariant 0 <= i <= |AllKinds|
      invariant !aborted ==> notices == Notices(env, ArmedKinds(env, c, AllKinds[..i]), loc, fileName)
      invariant !aborted && "FPC_TRAPS_HANG" !in env ==> ArmedKinds(env, c, AllKinds[..i]) == []
      invariant aborted ==> "FPC_TRAPS_HANG" !in env && ArmedKinds(env, c, AllKinds) != [] &&
                            notices == Notices(env, ArmedKinds(env, c, AllKinds)[..1], loc, fileName)
    {
      var k := AllKinds[i];
      ArmedPrefixStep(env, c, AllKinds, i);
      if TrapVar(k) in env && Count(item.events, k) != 0 {
        var notice, stop := TrapHere(env, TrapName(k), loc, fileName);
        NoticesSnoc(env, ArmedKinds(env, c, AllKinds[..i]), k, loc, fileName);
        notices := notices + [notice];
        if stop {
          ArmedAbort(env, c, AllKinds, i);
          aborted := true;
        }
      }
      i := i + 1;
    }
    if !aborted {
      assert AllKinds[..i] == AllKinds;
    }
  }

  lemma ArmedPrefixStep(env: Env, c: Counters, ks: seq<EventKind>, i: nat)
    requires i < |ks|
    ensures ArmedKinds(env, c, ks[..i + 1])
            == ArmedKinds(env, c, ks[..i]) + (if Armed(env, c, ks[i]) then [ks[i]] else [])
  {
    assert ks[..i + 1] == ks[..i] + [ks[i]];
    ArmedKindsAppend(env, c, ks[..i], [ks[i]]);
  }

  /** Trapping at the first armed kind reports the head of the armed kinds. */
  lemma ArmedAbort(env: Env, c: Counters, ks: seq<EventKind>, i: nat)
    requires i < |ks| && ArmedKinds(env, c, ks[..i]) == [] && Armed(env, c, ks[i])
    ensures ArmedKinds(env, c, ks) != [] && ArmedKinds(env, c, ks)[..1] == [ks[i]]
  {
    ArmedPrefixStep(env, c, ks, i);
    assert ks == ks[..i + 1] + ks[i + 1..];
    ArmedKindsAppend(env, c, ks[..i + 1], ks[i + 1..]);
  }

  lemma NoticesSnoc(env: Env, ks: seq<EventKind>, k: EventKind, loc: int, fileName: string)
    ensures Notices(env, ks + [k], loc, fileName) == Notices(env, ks, loc, fileName) + [Notice(env, k, loc, fileName)]
  {
  }

  lemma {:induction false} ArmedKindsAppend(env: Env, c: Counters, a: seq<EventKind>, b: seq<EventKind>)
    ensures ArmedKinds(env, c, a + b) == ArmedKinds(env, c, a) + ArmedKinds(env, c, b)
  {
    if a != [] {
      assert (a + b)[1..] == a[1..] + b;
      ArmedKindsAppend(env, c, a[1..], b);
    } else {
      assert a + b == b;
    }
  }
}
