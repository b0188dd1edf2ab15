/**
 * The Python string operations the build-command tool relies on:
 * `str.split()` with no separator, `' '.join`, the substring test `in`,
 * `list.index`, `str.replace(old, new, 1)`, `str.rfind`, and the POSIX
 * `os.path.splitext`.  Strings are sequences of code points.
 */
module PyStrings {
  import opened Wrappers

  /** The characters `str.isspace` accepts, which `str.split()` splits on. */
  predicate IsSpace(c: char)
  {
    || ('\t' <= c <= '\r')
    || ('\U{001C}' <= c <= ' ')
    || c == '\U{0085}' || c == '\U{00A0}' || c == '\U{1680}'
    || ('\U{2000}' <= c <= '\U{200A}')
    || c == '\U{2028}' || c == '\U{2029}' || c == '\U{202F}' || c == '\U{205F}'
    || c == '\U{3000}'
  }

  /** A piece `str.split()` can return: non-empty, without whitespace. */
  predicate IsToken(t: string)
  {
    t != [] && forall i :: 0 <= i < |t| ==> !IsSpace(t[i])
  }

  /** The length of the run of non-space characters that starts `s`. */
  function WordLength(s: string): (n: nat)
    ensures n <= |s| && (n < |s| ==> IsSpace(s[n]))
    ensures forall i :: 0 <= i < n ==> !IsSpace(s[i])
  {
    if s == [] || IsSpace(s[0]) then 0 else 1 + WordLength(s[1..])
  }

  /** `s.split()`: the maximal runs of non-space characters, in order. */
  function Split(s: string): (ts: seq<string>)
    ensures forall i :: 0 <= i < |ts| ==> IsToken(ts[i])
    decreases |s|
  {
    if s == [] then []
    else if IsSpace(s[0]) then Split(s[1..])
    else
      var n := WordLength(s);
      [s[..n]] + Split(s[n..])
  }

  /** A single token splits into itself. */
  lemma SplitOfToken(t: string)
    requires IsToken(t)
    ensures Split(t) == [t]
  {
    SplitAfterToken(t, []);
    assert t + [] == t;
  }

  /** The run that starts a word stops at the first space, wherever it is. */
  lemma {:induction false} WordLengthAtSpace(a: string, c: char, b: string)
    requires IsSpace(c)
    ensures WordLength(a + [c] + b) == WordLength(a)
  {
    var s := a + [c] + b;
    if a == [] {
      assert s[0] == c;
    } else if !IsSpace(a[0]) {
      assert s[0] == a[0] && s[1..] == a[1..] + [c] + b;
      WordLengthAtSpace(a[1..], c, b);
    } else {
      assert s[0] == a[0];
    }
  }

  /**
   * A white-space character separates: the pieces of `a + [c] + b` are
   * those of `a` followed by those of `b`.  With `SplitOfToken` and
   * `Split("") == []` this determines `Split` on every string: its pieces
   * are the maximal runs of non-space characters, in order.
   */
  lemma {:induction false} SplitAtSpace(a: string, c: char, b: string)
    requires IsSpace(c)
    ensures Split(a + [c] + b) == Split(a) + Split(b)
    decreases |a|
  {
    var s := a + [c] + b;
    if a == [] {
      assert s[1..] == b;
    } else if IsSpace(a[0]) {
      assert s[1..] == a[1..] + [c] + b;
      SplitAtSpace(a[1..], c, b);
    } else {
      var m := WordLength(a);
      WordLengthAtSpace(a, c, b);
      assert s[..m] == a[..m];
      assert s[m..] == a[m..] + [c] + b;
      SplitAtSpace(a[m..], c, b);
    }
  }

  /** `' '.join(ts)`. */
  function Join(ts: seq<string>): (s: string)
    ensures |ts| == 1 ==> s == ts[0]
  {
    if ts == [] then "" else if |ts| == 1 then ts[0] else ts[0] + " " + Join(ts[1..])
  }

  /** A token followed by whitespace (or nothing) is split off whole. */
  lemma SplitAfterToken(t: string, rest: string)
    requires IsToken(t) && (rest == [] || IsSpace(rest[0]))
    ensures Split(t + rest) == [t] + Split(rest)
  {
    var s := t + rest;
    assert WordLength(s) == |t|;
    assert s[..|t|] == t && s[|t|..] == rest;
  }

  /** Splitting the single-space join of tokens gives the tokens back. */
  lemma {:induction false} SplitJoin(ts: seq<string>)
    requires forall i :: 0 <= i < |ts| ==> IsToken(ts[i])
    ensures Split(Join(ts)) == ts
  {
    if |ts| == 1 {
      SplitAfterToken(ts[0], "");
      assert ts[0] + "" == ts[0];
    } else if 1 < |ts| {
      var tail := Join(ts[1..]);
      SplitJoin(ts[1..]);
      SplitLeadingSpace(tail);
      SplitAfterToken(ts[0], " " + tail);
      assert Join(ts) == ts[0] + (" " + tail);
      assert ts == [ts[0]] + ts[1..];
    }
  }

  /** A leading space is dropped by the split. */
  lemma SplitLeadingSpace(s: string)
    ensures Split(" " + s) == Split(s)
  {
    assert (" " + s)[1..] == s;
  }

  /** `s[i:i + len(sub)] == sub`, inside `s`. */
  predicate Occurs(s: string, sub: string, i: nat)
  {
    i + |sub| <= |s| && s[i..i + |sub|] == sub
  }

  /** `s.find(sub, from)`, as an option. */
  function FindFrom(s: string, sub: string, from: nat): (r: Option<nat>)
    ensures r.Some? ==> from <= r.value && Occurs(s, sub, r.value)
    ensures r.Some? ==> forall j :: from <= j < r.value ==> !Occurs(s, sub, j)
    ensures r.None? ==> forall j :: from <= j ==> !Occurs(s, sub, j)
    decreases |s| - from
  {
    if |s| < from + |sub| then None
    else if s[from..from + |sub|] == sub then Some(from)
    else FindFrom(s, sub, from + 1)
  }

  /** `sub in s`. */
  function Contains(s: string, sub: string): (r: bool)
    ensures r <==> exists i :: Occurs(s, sub, i)
  {
    FindFrom(s, sub, 0).Some?
  }

  /** `s.replace(pattern, repl, 1)`: the first occurrence of `pattern` replaced, if any. */
  function ReplaceFirst(s: string, pattern: string, repl: string): (r: string)
    ensures !Contains(s, pattern) ==> r == s
    ensures Contains(s, pattern) ==>
      var i := FindFrom(s, pattern, 0).value;
      && |r| == |s| - |pattern| + |repl|
      && r[..i] == s[..i] && r[i..i + |repl|] == repl && r[i + |repl|..] == s[i + |pattern|..]
  {
    match FindFrom(s, pattern, 0)
    case None => s
    case Some(i) => s[..i] + repl + s[i + |pattern|..]
  }

  /** `ts.index(x)`, as an option: the first position of `x`. */
  function IndexOf(ts: seq<string>, x: string): (r: Option<nat>)
    ensures r.Some? ==> r.value < |ts| && ts[r.value] == x && forall j :: 0 <= j < r.value ==> ts[j] != x
    ensures r.None? <==> x !in ts
  {
    if ts == [] then None
    else if ts[0] == x then Some(0)
    else match IndexOf(ts[1..], x)
      case None => None
      case Some(i) => Some(i + 1)
  }

  /** `s.rfind(c)`: the last position of `c`, or -1. */
  function RFind(s: string, c: char): (r: int)
    ensures -1 <= r < |s| && (0 <= r ==> s[r] == c)
    ensures forall j :: r < j < |s| ==> s[j] != c
  {
    if s == [] then -1
    else if s[|s| - 1] == c then |s| - 1
    else RFind(s[..|s| - 1], c)
  }

  /**
   * The root `posixpath.splitext(p)` returns: `p` cut at its last dot when
   * that dot lies in the last path component and is preceded there by a
   * character other than a dot; otherwise `p` itself.
   */
  function SplitextRoot(p: string): (root: string)
    ensures root <= p
    ensures root != p ==> p[|root|] == '.' && forall j :: |root| < j < |p| ==> p[j] != '.' && p[j] != '/'
    ensures root != p ==> exists j :: 0 <= j < |root| && p[j] != '.' && forall k :: j <= k < |root| ==> p[k] != '/'
    ensures (exists i, j :: 0 <= j < i < |p| && p[i] == '.' && p[j] != '.' && forall k :: j <= k < |p| ==> p[k] != '/')
            ==> root != p
  {
    var sep := RFind(p, '/');
    var dot := RFind(p, '.');
    if sep < dot && exists j :: sep < j < dot && p[j] != '.' then p[..dot] else p
  }

  /** `s.split('.')[-1]`: what follows the last dot, or all of `s`. */
  function AfterLastDot(s: string): (r: string)
    ensures |r| <= |s| && s[|s| - |r|..] == r && '.' !in r
    ensures |r| < |s| ==> s[|s| - |r| - 1] == '.'
  {
    s[RFind(s, '.') + 1..]
  }
}
