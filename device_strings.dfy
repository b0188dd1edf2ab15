/**
 * The bounded C-string routines of the device runtime (src/Runtime.h):
 * `_FPC_LEN_`, `_FPC_CPY_` and `_FPC_CAT_` on NUL-terminated `char`
 * buffers, and the fixed-width report header built with them.
 *
 * A buffer is an `array<char>`; the string it holds is its prefix up to the
 * first NUL, but `_FPC_LEN_` never counts past 1024 characters.
 */
module DeviceStrings {

  const Nul: char := '\0'

  /** `maxLen` of `_FPC_LEN_`. */
  const MaxLen: nat := 1024

  /** `REPORT_LINE_SIZE`: the width of every report line. */
  const ReportLineSize: nat := 80

  function Min(a: int, b: int): int { if a <= b then a else b }

  /**
   * `_FPC_LEN_` reads `s[i]` before it compares `i` with the limit, so it
   * reads inside the buffer only when a NUL comes first or the buffer has
   * more than 1024 characters.
   */
  predicate Terminated(s: seq<char>)
  {
    MaxLen < |s| || Nul in s
  }

  function CLenFrom(s: seq<char>, i: nat): (n: nat)
    requires Terminated(s) && i <= MaxLen && i < |s|
    requires forall j :: 0 <= j < i ==> s[j] != Nul
    ensures i <= n <= MaxLen && n < |s|
    ensures n == MaxLen || s[n] == Nul
    ensures forall j :: 0 <= j < n ==> s[j] != Nul
    decreases MaxLen - i
  {
    if s[i] == Nul || i == MaxLen then i
    else
      assert i + 1 < |s| by {
        if |s| <= MaxLen {
          var k :| 0 <= k < |s| && s[k] == Nul;
          assert i < k;
        }
      }
      CLenFrom(s, i + 1)
  }

  /** The value `_FPC_LEN_` returns: the index of the first NUL, at most 1024. */
  function CLen(s: seq<char>): (n: nat)
    requires Terminated(s)
    ensures n <= MaxLen && n < |s|
    ensures n == MaxLen || s[n] == Nul
    ensures forall j :: 0 <= j < n ==> s[j] != Nul
  {
    CLenFrom(s, 0)
  }

  /** The three properties of `CLen` determine it. */
  lemma CLenIs(s: seq<char>, n: nat)
    requires n <= MaxLen && n < |s|
    requires n == MaxLen || s[n] == Nul
    requires forall j :: 0 <= j < n ==> s[j] != Nul
    ensures Terminated(s) && CLen(s) == n
  {
    if n < MaxLen {
      assert s[n] in s;
    }
  }

  /** The string a terminated buffer holds. */
  function StringOf(s: seq<char>): (t: string)
    requires Terminated(s)
    ensures |t| <= MaxLen && Nul !in t
  {
    s[..CLen(s)]
  }

  /** A buffer that holds `t`, NUL-terminated, holds `t` as its string. */
  lemma StringOfTerminated(s: seq<char>, t: string)
    requires |t| <= MaxLen && |t| < |s| && Nul !in t
    requires t <= s && s[|t|] == Nul
    ensures Terminated(s) && StringOf(s) == t
  {
    forall j | 0 <= j < |t|
      ensures s[j] != Nul
    {
      assert s[j] == t[j];
    }
    CLenIs(s, |t|);
  }

  /** `_FPC_LEN_`. */
  method Len(s: array<char>) returns (n: int)
    requires Terminated(s[..])
    ensures n == CLen(s[..])
  {
    n := 0;
    while s[n] != Nul && n < MaxLen
      invariant 0 <= n <= MaxLen && n < s.Length
      invariant forall j :: 0 <= j < n ==> s[j] != Nul
      decreases MaxLen - n
    {
      assert n + 1 < s.Length by {
        if s.Length <= MaxLen {
          var k :| 0 <= k < s.Length && s[..][k] == Nul;
          assert n < k;
        }
      }
      n := n + 1;
    }
    CLenIs(s[..], n);
  }

  /** What `_FPC_CPY_(d, s)` leaves in `d`: the string of `s`, a NUL, then the old rest of `d`. */
  function Copied(d: seq<char>, s: seq<char>): (r: seq<char>)
    requires Terminated(s) && CLen(s) < |d|
    ensures |r| == |d| && Terminated(r)
    ensures StringOf(r) == StringOf(s)
  {
    var r := s[..CLen(s)] + [Nul] + d[CLen(s) + 1..];
    StringOfTerminated(r, StringOf(s));
    r
  }

  /**
   * What `_FPC_CAT_(d, s)` leaves in `d`: the string of `s` written over the
   * NUL of `d`, then a NUL.  The result holds the concatenation unless it
   * would be longer than 1024 characters, where `_FPC_LEN_` stops counting.
   */
  function Concatenated(d: seq<char>, s: seq<char>): (r: seq<char>)
    requires Terminated(d) && Terminated(s) && CLen(d) + CLen(s) < |d|
    ensures |r| == |d| && Terminated(r)
    ensures CLen(r) == Min(CLen(d) + CLen(s), MaxLen)
    ensures CLen(d) + CLen(s) <= MaxLen ==> StringOf(r) == StringOf(d) + StringOf(s)
  {
    var lenD, lenS := CLen(d), CLen(s);
    var r := d[..lenD] + s[..lenS] + [Nul] + d[lenD + lenS + 1..];
    assert forall j :: 0 <= j < lenD ==> r[j] == d[j];
    assert forall j :: lenD <= j < lenD + lenS ==> r[j] == s[j - lenD];
    assert r[lenD + lenS] == Nul;
    CLenIs(r, Min(lenD + lenS, MaxLen));
    assert r[..lenD + lenS] == d[..lenD] + s[..lenS];
    r
  }

  /** A buffer that agrees with `Concatenated(d, s)` at every index is that buffer. */
  lemma ConcatenatedAt(d: seq<char>, s: seq<char>, e: seq<char>, lenD: nat, lenS: nat)
    requires Terminated(d) && Terminated(s) && lenD == CLen(d) && lenS == CLen(s)
    requires lenD + lenS < |d| && |e| == |d|
    requires forall j :: 0 <= j < lenD ==> e[j] == d[j]
    requires forall j :: lenD <= j < lenD + lenS ==> e[j] == s[j - lenD]
    requires e[lenD + lenS] == Nul
    requires forall j :: lenD + lenS < j < |d| ==> e[j] == d[j]
    ensures e == Concatenated(d, s)
  {
  }

  /** `_FPC_CPY_`. */
  method Cpy(d: array<char>, s: array<char>)
    requires d != s && Terminated(s[..]) && CLen(s[..]) < d.Length
    modifies d
    ensures d[..] == Copied(old(d[..]), s[..])
  {
    var len := Len(s);
    var i := 0;
    while i < len
      invariant 0 <= i <= len
      invariant forall j :: 0 <= j < i ==> d[j] == s[j]
      invariant forall j :: i <= j < d.Length ==> d[j] == old(d[j])
    {
      d[i] := s[i];
      i := i + 1;
    }
    d[i] := Nul;
    ghost var r := Copied(old(d[..]), s[..]);
    assert |r| == d.Length && forall j :: 0 <= j < d.Length ==> d[j] == r[j];
  }

  /** `_FPC_CAT_`. */
  method Cat(d: array<char>, s: array<char>)
    requires d != s && Terminated(s[..]) && Terminated(d[..])
    requires CLen(d[..]) + CLen(s[..]) < d.Length
    modifies d
    ensures d[..] == Concatenated(old(d[..]), s[..])
  {
    ghost var d0 := d[..];
    var lenS := Len(s);
    var lenD := Len(d);
    var i := 0;
    while i < lenS
      invariant 0 <= i <= lenS
      invariant forall j :: 0 <= j < lenD ==> d[j] == d0[j]
      invariant forall j :: lenD <= j < lenD + i ==> d[j] == s[j - lenD]
      invariant forall j :: lenD + i <= j < d.Length ==> d[j] == d0[j]
    {
      d[i + lenD] := s[i];
      i := i + 1;
    }
    d[i + lenD] := Nul;
    ConcatenatedAt(d0, s[..], d[..], lenD, lenS);
  }

  /** A string literal: static storage holding the characters and a NUL. */
  method Literal(t: string) returns (a: array<char>)
    requires |t| <= MaxLen && Nul !in t
    ensures fresh(a) && a[..] == t + [Nul]
    ensures Terminated(a[..]) && StringOf(a[..]) == t
  {
    a := new char[|t| + 1](i requires 0 <= i <= |t| => if i < |t| then t[i] else Nul);
    assert a[..] == t + [Nul];
    StringOfTerminated(a[..], t);
  }

  /*------------------------------------------------------------------------*/
  /* The report header                                                      */
  /*------------------------------------------------------------------------*/

  function Dashes(n: nat): (d: string)
    ensures |d| == n && forall i :: 0 <= i < n ==> d[i] == '-'
  {
    seq(n, _ => '-')
  }

  /** `_FPC_PRINT_REPORT_LINE_`: a border character, 78 dashes, a border character. */
  function ReportLine(border: char): (t: string)
    ensures |t| == ReportLineSize && t[0] == border && t[ReportLineSize - 1] == border
    ensures forall i :: 0 < i < ReportLineSize - 1 ==> t[i] == '-'
  {
    [border] + Dashes(ReportLineSize - 2) + [border]
  }

  /** The title of an error report (`type == 0`) or a warning report (any other type). */
  function Title(reportType: int): (m: string)
    ensures |m| <= ReportLineSize - 2 && Nul !in m
  {
    if reportType == 0 then " FPChecker Error Report " else " FPChecker Warning Report "
  }

  /**
   * The header line around a title `m`: `+`, half of the remaining width in
   * dashes (the odd dash, if any, on the left), the title, the other half, `+`.
   */
  function Header(m: string): (t: string)
    requires |m| <= ReportLineSize - 2
    ensures |t| == ReportLineSize && t[0] == '+' && t[ReportLineSize - 1] == '+'
    ensures Nul !in m ==> Nul !in t
  {
    var l := ReportLineSize - |m| - 2;
    "+" + Dashes(l / 2) + (if l % 2 == 1 then "-" else "") + m + Dashes(l / 2) + "+"
  }

  /**
   * A title of even length is written exactly over the middle of a report
   * line bordered with `+`: the header agrees with that line everywhere else.
   */
  lemma HeaderCentresEvenTitle(m: string)
    requires |m| <= ReportLineSize - 2 && |m| % 2 == 0
    ensures var t, k := Header(m), (ReportLineSize - |m|) / 2;
      && k + |m| + k == ReportLineSize
      && t[k..k + |m|] == m
      && forall i :: 0 <= i < ReportLineSize && !(k <= i < k + |m|) ==> t[i] == ReportLine('+')[i]
  {
    var l := ReportLineSize - |m| - 2;
    var d := Dashes(l / 2);
    var t := Header(m);
    assert l % 2 == 0;
    assert t == "+" + d + m + d + "+";
    var k := 1 + |d|;
    forall i | 0 <= i < ReportLineSize && !(k <= i < k + |m|)
      ensures t[i] == ReportLine('+')[i]
    {
      if 0 < i < k {
        assert t[i] == d[i - 1];
      } else if k + |m| <= i < ReportLineSize - 1 {
        assert t[i] == d[i - k - |m|];
      }
    }
  }

  /** Both titles have an even length, so both headers are exactly centred. */
  lemma TitlesAreCentred(reportType: int)
    ensures |Title(reportType)| % 2 == 0
    ensures var t, m, k := Header(Title(reportType)), Title(reportType), (ReportLineSize - |Title(reportType)|) / 2;
      && t[k..k + |m|] == m
      && forall i :: 0 <= i < ReportLineSize && !(k <= i < k + |m|) ==> t[i] == ReportLine('+')[i]
  {
    HeaderCentresEvenTitle(Title(reportType));
  }

  /**
   * `_FPC_PRINT_REPORT_HEADER_`: copy the title into a 255-character
   * buffer, measure it, then build the line in a second buffer by one
   * concatenation per piece, and print the string it holds.
   */
  method PrintReportHeader(reportType: int) returns (text: string)
    ensures text == Header(Title(reportType))
  {
    var msg := new char[255];
    msg[0] := Nul;
    var title := Literal(Title(reportType));
    Cpy(msg, title);
    var l := Len(msg);
    l := ReportLineSize - l - 2;
    text := HeaderLine(msg, l, Title(reportType));
  }

  /**
   * The second half of `_FPC_PRINT_REPORT_HEADER_`: the line buffer built
   * around the title held in `msg`, `l` being the width left for dashes.
   */
  method HeaderLine(msg: array<char>, l: int, m: string) returns (text: string)
    requires Holds(msg[..], m) && 0 <= l && |m| + l + 2 == ReportLineSize
    ensures text == Header(m)
  {
    var left := "+" + Dashes(l / 2) + (if l % 2 == 1 then "-" else "");
    assert left + m + Dashes(l / 2) + "+" == Header(m);
    var line, plus, dash := LeftSide(l);
    CatString(line, msg, left, m);
    CatRightSide(line, plus, dash, l / 2, left + m);
    var n := Len(line);
    text := line[..n];
    assert text == StringOf(line[..]);
  }

  /**
   * The line buffer, and the literals `"+"` and `"-"`, after the left part
   * of the header: `+`, `l / 2` dashes and, when `l` is odd, one more dash.
   */
  method LeftSide(l: int) returns (line: array<char>, plus: array<char>, dash: array<char>)
    requires 0 <= l <= ReportLineSize
    ensures fresh(line) && line.Length == 255 && line != plus && line != dash
    ensures plus[..] == "+" + [Nul] && dash[..] == "-" + [Nul]
    ensures Holds(line[..], "+" + Dashes(l / 2) + (if l % 2 == 1 then "-" else ""))
  {
    line := new char[255];
    line[0] := Nul;
    StringOfTerminated(line[..], "");
    plus := Literal("+");
    dash := Literal("-");
    CatString(line, plus, "", "+");
    CatDashes(line, dash, l / 2, "+");
    if l % 2 != 0 {
      CatString(line, dash, "+" + Dashes(l / 2), "-");
    }
  }

  /** `half` dashes and a `+` appended to the buffer holding `t`. */
  method CatRightSide(line: array<char>, plus: array<char>, dash: array<char>, half: int, t: string)
    requires line != plus && line != dash && 0 <= half && |t| + half + 1 < line.Length
    requires |t| + half + 1 <= MaxLen
    requires Holds(line[..], t) && plus[..] == "+" + [Nul] && dash[..] == "-" + [Nul]
    modifies line
    ensures Holds(line[..], t + Dashes(half) + "+")
  {
    StringOfTerminated(plus[..], "+");
    CatDashes(line, dash, half, t);
    CatString(line, plus, t + Dashes(half), "+");
  }

  /** A buffer holding the string `t`. */
  predicate Holds(a: seq<char>, t: string)
  {
    Terminated(a) && StringOf(a) == t
  }

  /** `_FPC_CAT_` described by the strings the two buffers hold. */
  method CatString(d: array<char>, s: array<char>, t: string, u: string)
    requires d != s && Holds(d[..], t) && Holds(s[..], u)
    requires |t| + |u| < d.Length && |t| + |u| <= MaxLen
    modifies d
    ensures Holds(d[..], t + u)
  {
    Cat(d, s);
  }

  /** The header's dash loop: `count` calls of `_FPC_CAT_(line, "-")`. */
  method CatDashes(line: array<char>, dash: array<char>, count: int, t: string)
    requires line != dash && Holds(line[..], t) && dash[..] == "-" + [Nul]
    requires 0 <= count && |t| + count < line.Length && |t| + count <= MaxLen
    modifies line
    ensures Holds(line[..], t + Dashes(count))
  {
    StringOfTerminated(dash[..], "-");
    var i := 0;
    while i < count
      invariant 0 <= i <= count
      invariant Holds(line[..], t + Dashes(i))
    {
      CatString(line, dash, t + Dashes(i), "-");
      assert t + Dashes(i) + "-" == t + Dashes(i + 1);
      i := i + 1;
    }
  }
}
