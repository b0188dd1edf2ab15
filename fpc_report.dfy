/**
 * The JSON report written by `_FPC_PRINT_HASH_TABLE_` (src/FPC_Hashtable.h):
 * the program's arguments, then one object per record, bucket by bucket and
 * along each chain.  Output is modelled as the sequence of lines written to
 * the report file, each without its trailing newline.
 */
module FpcReport {
  import opened Wrappers
  import opened Decimal
  import opened FpcHashtable

  /** The `input` string: every program argument followed by one space. */
  function ProgInput(args: seq<string>): string
  {
    if args == [] then "" else args[0] + " " + ProgInput(args[1..])
  }

  lemma {:induction false} ProgInputSnoc(args: seq<string>, a: string)
    ensures ProgInput(args + [a]) == ProgInput(args) + a + " "
  {
    if args != [] {
      assert (args + [a])[1..] == args[1..] + [a];
      ProgInputSnoc(args[1..], a);
    } else {
      assert [a][1..] == [];
    }
  }

  /** Total length of the arguments plus one separator per argument. */
  function ArgsSize(args: seq<string>): nat
  {
    if args == [] then 0 else |args[0]| + 1 + ArgsSize(args[1..])
  }

  lemma {:induction false} ProgInputLength(args: seq<string>)
    ensures |ProgInput(args)| == ArgsSize(args)
    ensures args != [] ==> ProgInput(args)[|ProgInput(args)| - 1] == ' '
  {
    if args != [] {
      ProgInputLength(args[1..]);
    }
  }

  /**
   * The `strcat` loop that fills `prog_input`: each argument, then a space.
   * (The buffer is sized from the same lengths, so it never overflows.)
   */
  method BuildProgInput(args: seq<string>) returns (s: string)
    ensures s == ProgInput(args)
    ensures |s| == ArgsSize(args)
  {
    s := "";
    var i := 0;
    while i < |args|
      invariant 0 <= i <= |args|
      invariant s == ProgInput(args[..i])
    {
      ProgInputSnoc(args[..i], args[i]);
      assert args[..i + 1] == args[..i] + [args[i]];
      s := s + args[i];
      s := s + " ";
      i := i + 1;
    }
    assert args[..i] == args;
    ProgInputLength(args);
  }

  /** `.fpc_logs/fpc_<host>_<pid>.json`; a failed `gethostname` gives `node-unknown`. */
  function ReportFileName(host: Option<string>, pid: int): (f: string)
    ensures |f| > 19 && f[..14] == ".fpc_logs/fpc_" && f[|f| - 5..] == ".json"
  {
    var node := match host case Some(h) => h case None => "node-unknown";
    ".fpc_logs/fpc_" + node + "_" + IntToString(pid) + ".json"
  }

  /**
   * The name can be read back: after the prefix come the host name (or
   * `node-unknown`), an underscore and the pid in decimal, with a minus
   * sign when it is negative, then the suffix.
   */
  lemma ReportFileNameParts(host: Option<string>, pid: int)
    ensures var node := if host.Some? then host.value else "node-unknown";
      var f := ReportFileName(host, pid);
      && 20 + |node| <= |f|
      && f[14..14 + |node|] == node
      && f[14 + |node|] == '_'
      && var d := f[15 + |node|..|f| - 5];
      && (0 <= pid ==> AllDigits(d) && DigitsValue(d) == pid)
      && (pid < 0 ==> d[0] == '-' && AllDigits(d[1..]) && DigitsValue(d[1..]) == -pid)
  {
    var node := if host.Some? then host.value else "node-unknown";
    var d := IntToString(pid);
    FiveParts(".fpc_logs/fpc_", node, "_", d, ".json");
    if 0 <= pid {
      DigitsValueOfNatToString(pid);
    } else {
      assert d[1..] == NatToString(-pid);
      DigitsValueOfNatToString(-pid);
    }
  }

  /** Where each part of a five-part concatenation lies. */
  lemma FiveParts(a: string, b: string, c: string, d: string, e: string)
    ensures var f := a + b + c + d + e;
      && |f| == |a| + |b| + |c| + |d| + |e|
      && f[|a|..|a| + |b|] == b
      && f[|a| + |b|..|a| + |b| + |c|] == c
      && f[|a| + |b| + |c|..|f| - |e|] == d
  {
  }

  /** Lines per record: the opening brace, 13 fields and the closing brace. */
  const ObjectSize: nat := 15

  /** The name of a field of a record object. */
  datatype FieldName = InputName | FileName | LineName | CountName(kind: EventKind)

  /**
   * One line of the report.  `Text` gives the characters written for it;
   * the proofs about the report's structure work on these values.
   */
  datatype Line =
    | ListOpen
    | ListClose
    | ObjectOpen
    | Field(name: FieldName, value: string, comma: bool)
    | ObjectClose(last: bool)

  function KindText(k: EventKind): string
  {
    match k
    case InfinityPos => "infinity_pos"
    case InfinityNeg => "infinity_neg"
    case NaN => "nan"
    case DivisionZero => "division_zero"
    case Cancellation => "cancellation"
    case Comparison => "comparison"
    case Underflow => "underflow"
    case LatentInfinityPos => "latent_infinity_pos"
    case LatentInfinityNeg => "latent_infinity_neg"
    case LatentUnderflow => "latent_underflow"
  }

  function NameText(f: FieldName): string
  {
    match f
    case InputName => "input"
    case FileName => "file"
    case LineName => "line"
    case CountName(k) => KindText(k)
  }

  function Quote(s: string): string
  {
    "\"" + s + "\""
  }

  /**
   * The characters of a line: `[` and `]` around the list, `  {` and `  }`
   * around an object (`  },` unless it is the last), and a field as
   * a tab, the quoted name, `: `, the value and a comma unless it is the
   * last field of its object.
   */
  function Text(l: Line): (t: string)
    ensures l.Field? ==> "\t\"" + NameText(l.name) + "\": " <= t
    ensures l.Field? && l.comma ==> t[|t| - 1] == ','
    ensures l.ObjectClose? ==> (t == "  }" <==> l.last)
  {
    match l
    case ListOpen => "["
    case ListClose => "]"
    case ObjectOpen => "  {"
    case Field(name, value, comma) => "\t\"" + NameText(name) + "\": " + value + (if comma then "," else "")
    case ObjectClose(last) => if last then "  }" else "  },"
  }

  /** The opening brace and the 13 field lines of one record, in the source's order. */
  function ObjectFields(input: string, r: Item): (ls: seq<Line>)
    ensures |ls| == ObjectSize - 1 && ls[0] == ObjectOpen
  {
    var c := r.events;
    [ ObjectOpen,
      Field(InputName, Quote(input), true),
      Field(FileName, Quote(r.file.text), true),
      Field(LineName, NatToString(r.line), true),
      Field(CountName(InfinityPos), NatToString(c.infinityPos), true),
      Field(CountName(InfinityNeg), NatToString(c.infinityNeg), true),
      Field(CountName(NaN), NatToString(c.nan), true),
      Field(CountName(DivisionZero), NatToString(c.divisionZero), true),
      Field(CountName(Cancellation), NatToString(c.cancellation), true),
      Field(CountName(Comparison), NatToString(c.comparison), true),
      Field(CountName(Underflow), NatToString(c.underflow), true),
      Field(CountName(LatentInfinityPos), NatToString(c.latentInfinityPos), true),
      Field(CountName(LatentInfinityNeg), NatToString(c.latentInfinityNeg), true),
      Field(CountName(LatentUnderflow), NatToString(c.latentUnderflow), false) ]
  }

  /** After the brace come only fields, each followed by a comma except the last. */
  lemma ObjectFieldsCommas(input: string, r: Item)
    ensures var ls := ObjectFields(input, r);
      forall i :: 1 <= i < |ls| ==> ls[i].Field? && (ls[i].comma <==> i < |ls| - 1)
  {
  }

  /** A record's object, closed without a comma only when it is the last one printed. */
  function ObjectLines(input: string, r: Item, last: bool): seq<Line>
  {
    ObjectFields(input, r) + [ObjectClose(last)]
  }

  /** Writes the lines for one record, given its 1-based position among the printed ones. */
  type ObjectWriter = (Item, nat) -> seq<Line>

  /**
   * `f` applied to each record with its 1-based position, concatenated:
   * the output of a loop that writes `f(xs[k], k + 1)` for each `xs[k]`.
   */
  function ConcatMap(f: ObjectWriter, xs: seq<Item>): seq<Line>
  {
    if xs == [] then [] else ConcatMap(f, xs[..|xs| - 1]) + f(xs[|xs| - 1], |xs|)
  }

  lemma ConcatMapSnoc(f: ObjectWriter, xs: seq<Item>, x: Item)
    ensures ConcatMap(f, xs + [x]) == ConcatMap(f, xs) + f(x, |xs| + 1)
  {
    assert (xs + [x])[..|xs|] == xs;
  }

  lemma {:induction false} ConcatMapLength(f: ObjectWriter, xs: seq<Item>, size: nat)
    requires forall x, k :: |f(x, k)| == size
    ensures |ConcatMap(f, xs)| == size * |xs|
  {
    if xs != [] {
      var m := |xs| - 1;
      ConcatMapLength(f, xs[..m], size);
      assert |f(xs[m], |xs|)| == size;
      assert size * |xs| == size * m + size;
    }
  }

  lemma {:induction false} ConcatMapAt(f: ObjectWriter, xs: seq<Item>, size: nat, k: nat)
    requires forall x, k :: |f(x, k)| == size
    requires k < |xs|
    ensures size * k + size <= |ConcatMap(f, xs)|
    ensures ConcatMap(f, xs)[size * k .. size * k + size] == f(xs[k], k + 1)
  {
    var m := |xs| - 1;
    var front := ConcatMap(f, xs[..m]);
    ConcatMapLength(f, xs[..m], size);
    ConcatMapLength(f, xs, size);
    if k < m {
      ConcatMapAt(f, xs[..m], size, k);
      assert ConcatMap(f, xs)[size * k .. size * k + size] == front[size * k .. size * k + size];
    } else {
      assert ConcatMap(f, xs)[size * k ..] == f(xs[m], m + 1);
    }
  }

  /** The object of the k-th printed record, when the table says it holds `n` records. */
  function ObjectPrinter(input: string, n: nat): ObjectWriter
  {
    (r: Item, k: nat) => ObjectLines(input, r, k == n)
  }

  /**
   * The objects for the first |recs| printed records: the k-th printed
   * record is closed without a comma exactly when k == n.
   */
  function RecordsLines(input: string, recs: seq<Item>, n: nat): seq<Line>
  {
    ConcatMap(ObjectPrinter(input, n), recs)
  }

  /** The whole report for buckets `bs` and record count `n`. */
  function ReportLines(input: string, bs: seq<seq<Item>>, n: nat): seq<Line>
  {
    [ListOpen] + RecordsLines(input, Flatten(bs), n) + [ListClose]
  }

  /** The text written to the report file: one string per line. */
  function Render(ls: seq<Line>): (text: seq<string>)
    ensures |text| == |ls| && forall i :: 0 <= i < |ls| ==> text[i] == Text(ls[i])
  {
    if ls == [] then [] else [Text(ls[0])] + Render(ls[1..])
  }

  /** The k-th object of the output is the k-th record, closed as the (k+1)-th printed. */
  lemma RecordsLinesAt(input: string, recs: seq<Item>, n: nat, k: nat)
    requires k < |recs|
    ensures ObjectSize * (k + 1) <= |RecordsLines(input, recs, n)|
    ensures RecordsLines(input, recs, n)[ObjectSize * k .. ObjectSize * (k + 1)]
            == ObjectLines(input, recs[k], k + 1 == n)
  {
    ObjectPrinterSize(input, n);
    ConcatMapAt(ObjectPrinter(input, n), recs, ObjectSize, k);
  }

  lemma ObjectPrinterSize(input: string, n: nat)
    ensures forall r, k :: |ObjectPrinter(input, n)(r, k)| == ObjectSize
  {
    forall r, k ensures |ObjectPrinter(input, n)(r, k)| == ObjectSize {
      assert ObjectPrinter(input, n)(r, k) == ObjectLines(input, r, k == n);
    }
  }

  lemma ConcatAssoc4<T>(a: seq<T>, b: seq<T>, c: seq<T>, d: seq<T>)
    ensures a + b + c + d == a + (b + (c + d))
  {
  }

  /** A slice of the middle part of a three-part concatenation. */
  lemma SliceOfMiddle<T>(a: seq<T>, b: seq<T>, c: seq<T>, lo: nat, hi: nat)
    requires lo <= hi <= |b|
    ensures (a + b + c)[|a| + lo .. |a| + hi] == b[lo..hi]
  {
    assert forall i :: 0 <= i < hi - lo ==> (a + b + c)[|a| + lo .. |a| + hi][i] == b[lo..hi][i];
  }

  /**
   * When `n` is the number of records (the table invariant), the report is
   * `[`, then one object per record in bucket-then-chain order, each closed
   * with `  },` except the last, closed with `  }`, then `]`.
   */
  lemma ReportShape(input: string, bs: seq<seq<Item>>, n: nat)
    requires n == TotalRecords(bs)
    ensures var ls := ReportLines(input, bs, n);
      && |ls| == 2 + ObjectSize * n
      && ls[0] == ListOpen && ls[|ls| - 1] == ListClose
      && forall k :: 0 <= k < n ==>
           ls[1 + ObjectSize * k .. 1 + ObjectSize * (k + 1)]
             == ObjectFields(input, Flatten(bs)[k]) + [ObjectClose(k == n - 1)]
  {
    var ls := ReportLines(input, bs, n);
    var body := RecordsLines(input, Flatten(bs), n);
    ObjectPrinterSize(input, n);
    ConcatMapLength(ObjectPrinter(input, n), Flatten(bs), ObjectSize);
    forall k | 0 <= k < n
      ensures ls[1 + ObjectSize * k .. 1 + ObjectSize * (k + 1)]
                == ObjectFields(input, Flatten(bs)[k]) + [ObjectClose(k == n - 1)]
    {
      RecordsLinesAt(input, Flatten(bs), n, k);
      SliceOfMiddle([ListOpen], body, [ListClose], ObjectSize * k, ObjectSize * (k + 1));
    }
  }

  lemma {:induction false} FlattenMember(bs: seq<seq<Item>>, x: Item)
    requires x in Flatten(bs)
    ensures exists b, i :: 0 <= b < |bs| && 0 <= i < |bs[b]| && bs[b][i] == x
  {
    var m := |bs| - 1;
    if x in bs[m] {
      var i :| 0 <= i < |bs[m]| && bs[m][i] == x;
    } else {
      FlattenMember(bs[..m], x);
      var b, i :| 0 <= b < m && 0 <= i < |bs[..m][b]| && bs[..m][b][i] == x;
      assert bs[b][i] == x;
    }
  }

  /** Well-placed buckets flatten to records with pairwise distinct keys. */
  lemma {:induction false} FlattenUniqueKeys(bs: seq<seq<Item>>, size: nat)
    requires 1 <= size && |bs| <= size
    requires forall b, i :: 0 <= b < |bs| && 0 <= i < |bs[b]| ==> Hash(KeyOf(bs[b][i]), size) == b
    requires forall b :: 0 <= b < |bs| ==> UniqueKeys(bs[b])
    ensures UniqueKeys(Flatten(bs))
  {
    if bs != [] {
      var m := |bs| - 1;
      var front := Flatten(bs[..m]);
      FlattenUniqueKeys(bs[..m], size);
      forall i, j | 0 <= i < |front| && 0 <= j < |bs[m]|
        ensures KeyOf(front[i]) != KeyOf(bs[m][j])
      {
        FlattenMember(bs[..m], front[i]);
        var b, l :| 0 <= b < m && 0 <= l < |bs[..m][b]| && bs[..m][b][l] == front[i];
        assert Hash(KeyOf(front[i]), size) == b;
      }
      var all := front + bs[m];
      forall i, j | 0 <= i < j < |all| ensures KeyOf(all[i]) != KeyOf(all[j]) {
        if j < |front| {
        } else if i < |front| {
          assert all[j] == bs[m][j - |front|];
        } else {
          assert all[i] == bs[m][i - |front|] && all[j] == bs[m][j - |front|];
        }
      }
    }
  }

  /** A valid table's report has one object per distinct key. */
  lemma ReportKeysDistinct(bs: seq<seq<Item>>, size: nat)
    requires 1 <= size && WellPlaced(bs, size)
    ensures UniqueKeys(Flatten(bs))
  {
    FlattenUniqueKeys(bs, size);
  }

  /** Printing one more record appends its object, closed as the last one when it is the n-th. */
  lemma RecordsLinesSnoc(input: string, recs: seq<Item>, r: Item, n: nat)
    ensures [ListOpen] + RecordsLines(input, recs + [r], n)
            == [ListOpen] + RecordsLines(input, recs, n) + ObjectLines(input, r, |recs| + 1 == n)
  {
    ConcatMapSnoc(ObjectPrinter(input, n), recs, r);
    assert ObjectPrinter(input, n)(r, |recs| + 1) == ObjectLines(input, r, |recs| + 1 == n);
  }

  lemma PrefixSnoc<T>(pre: seq<T>, xs: seq<T>, j: nat)
    requires j < |xs|
    ensures pre + xs[..j + 1] == (pre + xs[..j]) + [xs[j]]
  {
    assert xs[..j + 1] == xs[..j] + [xs[j]];
  }

  /** The inner loop of `_FPC_PRINT_HASH_TABLE_`: the objects of one bucket's chain. */
  method PrintChain(input: string, n: nat, chain: seq<Item>, pre: seq<Item>,
                    linesIn: seq<Line>, printedIn: nat)
    returns (lines: seq<Line>, printed: nat)
    requires printedIn == |pre| && linesIn == [ListOpen] + RecordsLines(input, pre, n)
    ensures printed == |pre + chain| && lines == [ListOpen] + RecordsLines(input, pre + chain, n)
  {
    lines, printed := linesIn, printedIn;
    var j := 0;
    assert pre + chain[..0] == pre;
    while j < |chain|
      invariant 0 <= j <= |chain|
      invariant printed == |pre| + j
      invariant lines == [ListOpen] + RecordsLines(input, pre + chain[..j], n)
    {
      var next := chain[j];
      PrefixSnoc(pre, chain, j);
      RecordsLinesSnoc(input, pre + chain[..j], next, n);
      printed := printed + 1;
      lines := lines + ObjectLines(input, next, printed == n);
      j := j + 1;
    }
    assert chain[..j] == chain;
  }

  /**
   * The printing loop of `_FPC_PRINT_HASH_TABLE_`: walk the buckets in order
   * and each chain from its head, write the record's fields, count it as
   * printed, and close it without a comma when it is the n-th.
   */
  method PrintHashTable(h: HashTable, args: seq<string>) returns (lines: seq<Line>)
    requires h.Valid()
    ensures lines == ReportLines(ProgInput(args), h.table[..], h.n)
  {
    var input := BuildProgInput(args);
    var n := h.n;
    var printed := 0;
    lines := [ListOpen];
    var i := 0;
    while i < h.size
      invariant 0 <= i <= h.size
      invariant printed == |Flatten(h.table[..i])|
      invariant lines == [ListOpen] + RecordsLines(input, Flatten(h.table[..i]), n)
    {
      var chain := h.table[i];
      var pre := Flatten(h.table[..i]);
      lines, printed := PrintChain(input, n, chain, pre, lines, printed);
      assert h.table[..i + 1][..i] == h.table[..i];
      i := i + 1;
    }
    assert h.table[..i] == h.table[..];
    lines := lines + [ListClose];
  }
}
