/**
 * The command-line rewriting in tracing_tool/fpchecker.py: the tool replays
 * a traced build, and for that it categorises each compiler command
 * (`CompilationCommand`), renames the executable a link command produces,
 * finds the source file a command compiles and points the command at a copy
 * of it.  Python exceptions become `Failure` values.
 */
module FpcheckerTool {
  import opened Wrappers
  import opened PyStrings
  import opened HostTrap

  /** The exceptions these functions can raise on a malformed command. */
  datatype PyError =
    | ValueError  // `tokens.index('-o')` found no `-o` token
    | IndexError  // `-o` is the last token

  /** `CUDA_EXTENSION`: suffixes of files that can hold CUDA code. */
  const CudaExtensions: seq<string> := [".cu", ".cuda", ".C", ".cc", ".cpp", ".CPP", ".c++", ".cp", ".cxx"]

  /** `t` ends with one of `suffixes`. */
  predicate EndsWithAny(t: string, suffixes: seq<string>)
  {
    exists k :: 0 <= k < |suffixes| && EndsWith(t, suffixes[k])
  }

  predicate IsCodeFile(t: string)
  {
    EndsWithAny(t, CudaExtensions)
  }

  /*------------------------------------------------------------------------*/
  /* CompilationCommand                                                     */
  /*------------------------------------------------------------------------*/

  /** The categories `CompilationCommand.__init__` computes for a command line. */
  datatype CompilationCommand = CompilationCommand(
    line: string,
    nvccCommand: bool,
    linkCommand: bool,
    programLinkCommand: bool,
    archiveCommand: bool,
    ranlibCommand: bool)

  /** The substring test for a link command: no compile-only flag, and an output flag. */
  function LinkTest(line: string): (r: bool)
    ensures r <==>
      && (forall i :: !Occurs(line, "-c ", i) && !Occurs(line, "--compile ", i))
      && (forall i :: !Occurs(line, "-dc ", i) && !Occurs(line, "--device-c ", i))
      && exists i :: Occurs(line, "-o ", i)
  {
    && !Contains(line, "-c ") && !Contains(line, "--compile ")
    && !Contains(line, "-dc ") && !Contains(line, "--device-c ")
    && Contains(line, "-o ")
  }

  /** A token naming the tool `name`, bare or as the last component of a path. */
  predicate IsTool(t: string, name: string)
  {
    t == name || EndsWith(t, "/" + name)
  }

  /** Some token of `ts` names the tool `name`. */
  function Invokes(ts: seq<string>, name: string): (r: bool)
    ensures r <==> exists i :: 0 <= i < |ts| && IsTool(ts[i], name)
  {
    ts != [] && (Invokes(ts[..|ts| - 1], name) || IsTool(ts[|ts| - 1], name))
  }

  /** The outcome of `CompilationCommand(line)`. */
  function Categorise(line: string): Result<CompilationCommand, PyError>
  {
    var ts := Split(line);
    var link := LinkTest(line);
    var index := IndexOf(ts, "-o");
    if link && index.None? then Failure(ValueError)
    else if link && index.value + 1 == |ts| then Failure(IndexError)
    else
      var programLink := link && !EndsWith(ts[index.value + 1], ".o");
      Success(CompilationCommand(line, Invokes(ts, "nvcc"), link, programLink,
                                 Invokes(ts, "ar"), Invokes(ts, "ranlib")))
  }

  /**
   * The link test is on substrings of the line, but the output name is
   * looked up among its tokens, so a line that passes the test without an
   * `-o` token, or with `-o` last, raises; otherwise the flags say which
   * tools the command runs, and a program link is a link whose output does
   * not end in `.o`.
   */
  lemma CategoriseOutcome(line: string)
    ensures var r, ts := Categorise(line), Split(line);
      && (r == Failure(ValueError) <==> LinkTest(line) && "-o" !in ts)
      && (r == Failure(IndexError) <==> LinkTest(line) && "-o" in ts && IndexOf(ts, "-o").value == |ts| - 1)
    ensures var r, ts := Categorise(line), Split(line);
      r.Success? ==>
      var c := r.value;
      && c.line == line
      && (c.linkCommand <==> LinkTest(line))
      && (c.programLinkCommand <==>
            c.linkCommand && !EndsWith(ts[IndexOf(ts, "-o").value + 1], ".o"))
      && (c.programLinkCommand ==> c.linkCommand)
      && (c.nvccCommand <==> exists i :: 0 <= i < |ts| && IsTool(ts[i], "nvcc"))
      && (c.archiveCommand <==> exists i :: 0 <= i < |ts| && IsTool(ts[i], "ar"))
      && (c.ranlibCommand <==> exists i :: 0 <= i < |ts| && IsTool(ts[i], "ranlib"))
  {
  }

  /**
   * `CompilationCommand.__init__`: the link flags from the substring test
   * and the output token, then one pass over the tokens for the three tool
   * flags.
   */
  method NewCompilationCommand(line: string) returns (r: Result<CompilationCommand, PyError>)
    ensures r == Categorise(line)
  {
    var tokens := Split(line);
    var link, programLink := LinkTest(line), false;

    if link {
      var idx := IndexOf(tokens, "-o");
      if idx.None? {
        return Failure(ValueError);
      }
      if idx.value + 1 == |tokens| {
        return Failure(IndexError);
      }
      var output := tokens[idx.value + 1];
      if !EndsWith(output, ".o") {
        programLink := true;
      }
    }

    assert Categorise(line) == Success(CompilationCommand(line, Invokes(tokens, "nvcc"), link, programLink,
                                                         Invokes(tokens, "ar"), Invokes(tokens, "ranlib")));
    var nvcc, archive, ranlib := ScanTokens(tokens);
    r := Success(CompilationCommand(line, nvcc, link, programLink, archive, ranlib));
  }

  /** The loop over the tokens in `CompilationCommand.__init__`: the three tool flags. */
  method ScanTokens(tokens: seq<string>) returns (nvcc: bool, archive: bool, ranlib: bool)
    ensures nvcc == Invokes(tokens, "nvcc")
    ensures archive == Invokes(tokens, "ar")
    ensures ranlib == Invokes(tokens, "ranlib")
  {
    nvcc, archive, ranlib := false, false, false;
    for i := 0 to |tokens|
      invariant nvcc == Invokes(tokens[..i], "nvcc")
      invariant archive == Invokes(tokens[..i], "ar")
      invariant ranlib == Invokes(tokens[..i], "ranlib")
    {
      var t := tokens[i];
      assert tokens[..i + 1][..i] == tokens[..i];
      if IsTool(t, "nvcc") {
        nvcc := true;
      }
      if IsTool(t, "ar") {
        archive := true;
      }
      if IsTool(t, "ranlib") {
        ranlib := true;
      }
    }
    assert tokens[..|tokens|] == tokens;
  }

  /*------------------------------------------------------------------------*/
  /* changeNameOfExecutable                                                 */
  /*------------------------------------------------------------------------*/

  /** The suffix `changeNameOfExecutable` gives the output program. */
  const ExecutableSuffix: string := "_fpc"

  /**
   * `changeNameOfExecutable`: append `_fpc` to the token after the first
   * `-o` and join the tokens with single spaces.
   */
  method ChangeNameOfExecutable(line: string) returns (r: Result<string, PyError>)
    ensures var ts := Split(line);
      match IndexOf(ts, "-o")
      case None => r == Failure(ValueError)
      case Some(i) =>
        if i + 1 < |ts| then r == Success(Join(ts[i + 1 := ts[i + 1] + ExecutableSuffix]))
        else r == Failure(IndexError)
  {
    var tokens := Split(line);
    var found := IndexOf(tokens, "-o");
    if found.None? {
      return Failure(ValueError);
    }
    var idx := found.value + 1;
    if idx >= |tokens| {
      return Failure(IndexError);
    }
    var progName := tokens[idx];
    tokens := tokens[idx := progName + ExecutableSuffix];
    r := Success(Join(tokens));
  }

  /**
   * Read back as tokens, the renamed command differs from the original only
   * in the output name, which gains the `_fpc` suffix.
   */
  lemma RenamedExecutableTokens(line: string, i: nat)
    requires var ts := Split(line); IndexOf(ts, "-o") == Some(i) && i + 1 < |ts|
    ensures var ts, out := Split(line), Split(Join(Split(line)[i + 1 := Split(line)[i + 1] + ExecutableSuffix]));
      && |out| == |ts|
      && out[i + 1] == ts[i + 1] + ExecutableSuffix
      && forall j :: 0 <= j < |ts| && j != i + 1 ==> out[j] == ts[j]
  {
    var ts := Split(line);
    var renamed := ts[i + 1 := ts[i + 1] + ExecutableSuffix];
    assert IsToken(renamed[i + 1]);
    SplitJoin(renamed);
  }

  /*------------------------------------------------------------------------*/
  /* getCodeFileName                                                        */
  /*------------------------------------------------------------------------*/

  /** The position of the last token with a CUDA extension among the first `n` tokens. */
  function LastCodeIndex(ts: seq<string>, n: nat): (r: Option<nat>)
    requires n <= |ts|
    ensures r.Some? ==> r.value < n && IsCodeFile(ts[r.value])
    ensures r.Some? ==> forall j :: r.value < j < n ==> !IsCodeFile(ts[j])
    ensures r.None? ==> forall j :: 0 <= j < n ==> !IsCodeFile(ts[j])
  {
    if n == 0 then None
    else if IsCodeFile(ts[n - 1]) then Some(n - 1)
    else LastCodeIndex(ts, n - 1)
  }

  /** The name `getCodeFileName` returns, looking at the first `n` tokens. */
  function CodeFileName(ts: seq<string>, n: nat): (r: Option<string>)
    requires n <= |ts|
    ensures r.Some? <==> LastCodeIndex(ts, n).Some?
    ensures r.Some? ==> IsCodeFile(r.value) && r.value in ts[..n]
  {
    match LastCodeIndex(ts, n)
    case None => None
    case Some(k) => Some(ts[k])
  }

  /**
   * `getCodeFileName`: walk the tokens and, for each extension the token
   * ends with, remember it; the last token remembered is the answer.
   */
  method GetCodeFileName(line: string) returns (fileName: Option<string>)
    ensures fileName == CodeFileName(Split(line), |Split(line)|)
    ensures fileName.Some? ==> IsCodeFile(fileName.value) && fileName.value in Split(line)
  {
    var tokens := Split(line);
    fileName := None;
    for i := 0 to |tokens|
      invariant fileName == CodeFileName(tokens, i)
    {
      fileName := RememberCodeFile(tokens[i], fileName);
    }
    assert tokens[..|tokens|] == tokens;
  }

  lemma EndsWithAnySnoc(t: string, suffixes: seq<string>, j: nat)
    requires j < |suffixes|
    ensures EndsWithAny(t, suffixes[..j + 1]) <==> EndsWithAny(t, suffixes[..j]) || EndsWith(t, suffixes[j])
  {
    if EndsWithAny(t, suffixes[..j + 1]) {
      var k :| 0 <= k < j + 1 && EndsWith(t, suffixes[..j + 1][k]);
      if k < j {
        assert suffixes[..j][k] == suffixes[k];
      }
    }
    if EndsWithAny(t, suffixes[..j]) {
      var k :| 0 <= k < j && EndsWith(t, suffixes[..j][k]);
      assert suffixes[..j + 1][k] == suffixes[k];
    }
    if EndsWith(t, suffixes[j]) {
      assert suffixes[..j + 1][j] == suffixes[j];
    }
  }

  /** The inner loop of `getCodeFileName`: `t` is remembered once per extension it ends with. */
  method RememberCodeFile(t: string, before: Option<string>) returns (fileName: Option<string>)
    ensures fileName == if IsCodeFile(t) then Some(t) else before
  {
    fileName := before;
    for j := 0 to |CudaExtensions|
      invariant fileName == if EndsWithAny(t, CudaExtensions[..j]) then Some(t) else before
    {
      if EndsWith(t, CudaExtensions[j]) {
        fileName := Some(t);
      }
      EndsWithAnySnoc(t, CudaExtensions, j);
    }
    assert CudaExtensions[..|CudaExtensions|] == CudaExtensions;
  }

  /*------------------------------------------------------------------------*/
  /* replaceFileName                                                        */
  /*------------------------------------------------------------------------*/

  /** The name of the copy: the `splitext` root, `_copy.`, and the last dot component. */
  function CopyName(fileName: string): (r: string)
    ensures AfterLastDot(r) == AfterLastDot(fileName)
  {
    var root := SplitextRoot(fileName);
    var ext := AfterLastDot(fileName);
    CopyNameLastDot(root, ext);
    root + "_copy." + ext
  }

  /** Appending `_copy.` and a dot-free name makes that name the last dot component. */
  lemma CopyNameLastDot(root: string, ext: string)
    requires '.' !in ext
    ensures AfterLastDot(root + "_copy." + ext) == ext
  {
    var e := "." + ext;
    var c := root + "_copy." + ext;
    assert c == (root + "_copy") + e;
    assert EndsWith(c, e);
    assert e[1..] == ext;
    ExtensionAfterLastDot(c, e);
  }

  /** What `replaceFileName` returns: the file name, the copy's name, the new line. */
  datatype Replacement = Replacement(fileName: Option<string>, newFileName: Option<string>, line: string)

  /**
   * `replaceFileName`, as written: the name of the copy replaces the FIRST
   * occurrence of the file name anywhere in the line.
   */
  function ReplaceFileName(line: string): (r: Replacement)
    ensures r.fileName == CodeFileName(Split(line), |Split(line)|)
    ensures r.fileName.None? ==> r.newFileName.None? && r.line == line
    ensures r.fileName.Some? ==>
      var f := r.fileName.value;
      && r.newFileName == Some(CopyName(f))
      && Contains(line, f)
      && r.line == ReplaceFirst(line, f, CopyName(f))
  {
    match CodeFileName(Split(line), |Split(line)|)
    case None => Replacement(None, None, line)
    case Some(f) =>
      TokenContained(line, LastCodeIndex(Split(line), |Split(line)|).value);
      Replacement(Some(f), Some(CopyName(f)), ReplaceFirst(line, f, CopyName(f)))
  }

  /**
   * The copy of a file with a CUDA extension has the same extension, so
   * the rewritten command still names a code file.
   */
  lemma CopyKeepsExtension(fileName: string)
    requires IsCodeFile(fileName)
    ensures IsCodeFile(CopyName(fileName))
  {
    var k :| 0 <= k < |CudaExtensions| && EndsWith(fileName, CudaExtensions[k]);
    ExtensionShape(k);
    CopyEndsWith(fileName, CudaExtensions[k]);
    assert 0 <= k < |CudaExtensions| && EndsWith(CopyName(fileName), CudaExtensions[k]);
  }

  lemma CopyEndsWith(fileName: string, e: string)
    requires EndsWith(fileName, e) && 0 < |e| && e[0] == '.' && '.' !in e[1..]
    ensures EndsWith(CopyName(fileName), e)
  {
    ExtensionAfterLastDot(fileName, e);
    var root := SplitextRoot(fileName);
    assert e == ['.'] + e[1..];
    assert CopyName(fileName) == (root + "_copy") + e;
  }

  /** Every CUDA extension is a dot followed by a non-empty, dot-free name. */
  lemma ExtensionShape(k: nat)
    requires k < |CudaExtensions|
    ensures var e := CudaExtensions[k]; 1 < |e| && e[0] == '.' && '.' !in e[1..] && '/' !in e
  {
  }

  /** For a name ending in `.ext`, with `ext` free of dots, `AfterLastDot` is `ext`. */
  lemma ExtensionAfterLastDot(fileName: string, e: string)
    requires EndsWith(fileName, e) && 0 < |e| && e[0] == '.' && '.' !in e[1..]
    ensures RFind(fileName, '.') == |fileName| - |e|
    ensures AfterLastDot(fileName) == e[1..]
  {
    var d := |fileName| - |e|;
    assert fileName[d..] == e;
    assert fileName[d] == '.';
    forall j | d < j < |fileName|
      ensures fileName[j] != '.'
    {
      assert fileName[j] == e[1..][j - d - 1];
      assert e[1..][j - d - 1] in e[1..];
    }
    var r := RFind(fileName, '.');
    assert r == d;
    assert fileName[d + 1..] == e[1..];
  }

  /**
   * When the character before the extension is neither a dot nor a slash,
   * the copy's name is the file name with `_copy` inserted before its
   * extension: `dir/kernel.cu` becomes `dir/kernel_copy.cu`.
   */
  lemma CopyInsertsSuffix(fileName: string, e: string)
    requires e in CudaExtensions && EndsWith(fileName, e) && |e| < |fileName|
    requires fileName[|fileName| - |e| - 1] != '.' && fileName[|fileName| - |e| - 1] != '/'
    ensures CopyName(fileName) == fileName[..|fileName| - |e|] + "_copy" + e
  {
    var k :| 0 <= k < |CudaExtensions| && CudaExtensions[k] == e;
    ExtensionShape(k);
    ExtensionAfterLastDot(fileName, e);
    var d := |fileName| - |e|;
    RootBeforeExtension(fileName, d);
    CopySuffix(fileName[..d], e);
  }

  lemma CopySuffix(root: string, e: string)
    requires 0 < |e| && e[0] == '.'
    ensures root + "_copy." + e[1..] == root + "_copy" + e
  {
    assert "_copy." == "_copy" + ".";
    assert e == "." + e[1..];
  }

  /** A name whose last dot starts a slash-free suffix and follows a plain character has that dot's prefix as root. */
  lemma RootBeforeExtension(p: string, d: nat)
    requires 0 < d < |p| && RFind(p, '.') == d && p[d - 1] != '.' && p[d - 1] != '/'
    requires forall j :: d <= j < |p| ==> p[j] != '/'
    ensures SplitextRoot(p) == p[..d]
  {
    var sep := RFind(p, '/');
    assert sep < d - 1;
    assert sep < d - 1 < d && p[d - 1] != '.';
  }

  /** A token is a substring of the line it was split from: where it occurs. */
  lemma {:induction false} TokenOccurs(line: string, k: nat) returns (i: nat)
    requires k < |Split(line)|
    ensures Occurs(line, Split(line)[k], i)
    decreases |line|
  {
    var ts := Split(line);
    var t := ts[k];
    if IsSpace(line[0]) {
      assert ts == Split(line[1..]);
      var j := TokenOccurs(line[1..], k);
      i := j + 1;
      assert line[1..][j..j + |t|] == line[i..i + |t|];
    } else {
      var n := WordLength(line);
      assert ts == [line[..n]] + Split(line[n..]);
      if k == 0 {
        i := 0;
        assert line[..n] == line[0..0 + |t|];
      } else {
        assert t == Split(line[n..])[k - 1];
        var j := TokenOccurs(line[n..], k - 1);
        i := n + j;
        assert line[n..][j..j + |t|] == line[i..i + |t|];
      }
    }
  }

  lemma TokenContained(line: string, k: nat)
    requires k < |Split(line)|
    ensures Contains(line, Split(line)[k])
  {
    var i := TokenOccurs(line, k);
  }

  /*------------------------------------------------------------------------*/
  /* The first-occurrence replacement, and the token replacement            */
  /*------------------------------------------------------------------------*/

  /**
   * A compile command (it has `-c`, so it is no link command) whose object
   * file is named after its source file: `replaceFileName` renames the
   * object file and leaves the source file name untouched, because the
   * object's name is the first place the source's name occurs.
   */
  lemma FirstOccurrenceHitsObjectFile(line: string)
    requires line == "nvcc -c -o a.cu.o a.cu"
    ensures !LinkTest(line)
    ensures var r := ReplaceFileName(line);
      && r.fileName == Some("a.cu")
      && r.newFileName == Some("a_copy.cu")
      && r.line == "nvcc -c -o a_copy.cu.o a.cu"
  {
    CompileFlagInCommand(line);
    CommandTokens(line);
    ExampleCodeFile(Split(line));
    ExampleCopyName("a.cu");
    ExampleReplaceFirst(line);
  }

  /** On the same command, replacing the token renames the source file and keeps the object file. */
  lemma TokenReplacementHitsSourceFile(line: string)
    requires line == "nvcc -c -o a.cu.o a.cu"
    ensures var r := ReplaceCodeFileToken(line);
      && r.fileName == Some("a.cu")
      && r.newFileName == Some("a_copy.cu")
      && r.line == "nvcc -c -o a.cu.o a_copy.cu"
  {
    CommandTokens(line);
    var ts := Split(line);
    ExampleCodeFile(ts);
    ExampleCopyName("a.cu");
    ExampleJoin(ts[4 := "a_copy.cu"]);
  }

  /** The example command contains `-c `, so the link test fails. */
  lemma CompileFlagInCommand(line: string)
    requires line == "nvcc -c -o a.cu.o a.cu"
    ensures Contains(line, "-c ")
  {
    assert line[5..8] == "-c ";
    assert Occurs(line, "-c ", 5);
  }

  lemma ExampleReplaceFirst(line: string)
    requires line == "nvcc -c -o a.cu.o a.cu"
    ensures ReplaceFirst(line, "a.cu", "a_copy.cu") == "nvcc -c -o a_copy.cu.o a.cu"
  {
    FindInCommand(line);
    ReplacedSpelling();
    assert ReplaceFirst(line, "a.cu", "a_copy.cu") == line[..11] + "a_copy.cu" + line[15..];
  }

  lemma ReplacedSpelling()
    ensures "nvcc -c -o a.cu.o a.cu"[..11] == "nvcc -c -o " && "nvcc -c -o a.cu.o a.cu"[15..] == ".o a.cu"
    ensures "nvcc -c -o " + "a_copy.cu" + ".o a.cu" == "nvcc -c -o a_copy.cu.o a.cu"
  {
  }

  lemma ExampleJoin(ts: seq<string>)
    requires ts == ["nvcc", "-c", "-o", "a.cu.o", "a_copy.cu"]
    ensures Join(ts) == "nvcc -c -o a.cu.o a_copy.cu"
  {
    JoinOfFive(ts[0], ts[1], ts[2], ts[3], ts[4]);
    assert ts == [ts[0], ts[1], ts[2], ts[3], ts[4]];
    JoinedSpelling();
  }

  lemma JoinedSpelling()
    ensures "nvcc" + " " + ("-c" + " " + ("-o" + " " + ("a.cu.o" + " " + "a_copy.cu")))
            == "nvcc -c -o a.cu.o a_copy.cu"
  {
    assert "a.cu.o" + " " + "a_copy.cu" == "a.cu.o a_copy.cu";
    assert "-o" + " " + "a.cu.o a_copy.cu" == "-o a.cu.o a_copy.cu";
    assert "-c" + " " + "-o a.cu.o a_copy.cu" == "-c -o a.cu.o a_copy.cu";
  }

  lemma JoinOfFive(a: string, b: string, c: string, d: string, e: string)
    ensures Join([a, b, c, d, e]) == a + " " + (b + " " + (c + " " + (d + " " + e)))
  {
    assert [d, e][1..] == [e];
    assert Join([d, e]) == d + " " + e;
    assert [c, d, e][1..] == [d, e];
    assert Join([c, d, e]) == c + " " + Join([d, e]);
    assert [b, c, d, e][1..] == [c, d, e];
    assert Join([b, c, d, e]) == b + " " + Join([c, d, e]);
    assert [a, b, c, d, e][1..] == [b, c, d, e];
  }

  lemma ExampleCodeFile(ts: seq<string>)
    requires ts == ["nvcc", "-c", "-o", "a.cu.o", "a.cu"]
    ensures LastCodeIndex(ts, |ts|) == Some(4)
  {
    assert EndsWith(ts[4], CudaExtensions[0]) by {
      assert "a" + ".cu" == "a.cu";
    }
  }

  lemma ExampleCopyName(fileName: string)
    requires fileName == "a.cu"
    ensures CopyName(fileName) == "a_copy.cu"
  {
    assert EndsWith(fileName, ".cu") by {
      assert "a" + ".cu" == fileName;
    }
    ExtensionAfterLastDot(fileName, ".cu");
    RootBeforeExtension(fileName, 1);
    assert fileName[..1] == "a";
    assert CopyName(fileName) == "a" + "_copy." + "cu";
  }

  /** The tokens of the example command. */
  lemma CommandTokens(line: string)
    requires line == "nvcc -c -o a.cu.o a.cu"
    ensures Split(line) == ["nvcc", "-c", "-o", "a.cu.o", "a.cu"]
  {
    ExampleSpelling();
    SplitOfFive("nvcc", "-c", "-o", "a.cu.o", "a.cu");
  }

  lemma ExampleSpelling()
    ensures "nvcc" + " " + ("-c" + " " + ("-o" + " " + ("a.cu.o" + " " + "a.cu")))
            == "nvcc -c -o a.cu.o a.cu"
    ensures IsToken("nvcc") && IsToken("-c") && IsToken("-o") && IsToken("a.cu.o") && IsToken("a.cu")
  {
    assert "a.cu.o" + " " + "a.cu" == "a.cu.o a.cu";
    assert "-o" + " " + "a.cu.o a.cu" == "-o a.cu.o a.cu";
    assert "-c" + " " + "-o a.cu.o a.cu" == "-c -o a.cu.o a.cu";
  }

  /** Five tokens joined by single spaces split back into those tokens. */
  lemma SplitOfFive(a: string, b: string, c: string, d: string, e: string)
    requires IsToken(a) && IsToken(b) && IsToken(c) && IsToken(d) && IsToken(e)
    ensures Split(a + " " + (b + " " + (c + " " + (d + " " + e)))) == [a, b, c, d, e]
  {
    SplitJoin([a, b, c, d, e]);
    JoinOfFive(a, b, c, d, e);
  }

  /** The example command's name first occurs inside the object file's name. */
  lemma FindInCommand(line: string)
    requires line == "nvcc -c -o a.cu.o a.cu"
    ensures FindFrom(line, "a.cu", 0) == Some(11)
  {
    assert Occurs(line, "a.cu", 11);
    assert line[..11] == "nvcc -c -o ";
    forall j | 0 <= j < 11
      ensures !Occurs(line, "a.cu", j)
    {
      assert line[j] == line[..11][j];
      assert line[j] != 'a';
      assert line[j..j + 4][0] == line[j];
    }
  }

  /**
   * `replaceFileName` as intended: the token that names the source file is
   * the one replaced, and the tokens are joined back with single spaces.
   */
  function ReplaceCodeFileToken(line: string): (r: Replacement)
    ensures r.fileName == CodeFileName(Split(line), |Split(line)|)
    ensures r.fileName.None? ==> r.newFileName.None? && r.line == line
    ensures r.fileName.Some? ==> r.newFileName == Some(CopyName(r.fileName.value))
  {
    var ts := Split(line);
    match LastCodeIndex(ts, |ts|)
    case None => Replacement(None, None, line)
    case Some(k) =>
      var f := ts[k];
      Replacement(Some(f), Some(CopyName(f)), Join(ts[k := CopyName(f)]))
  }

  /** The name of the copy of a token is itself a token. */
  lemma CopyNameIsToken(fileName: string)
    requires IsToken(fileName)
    ensures IsToken(CopyName(fileName))
  {
    var root, ext := SplitextRoot(fileName), AfterLastDot(fileName);
    forall j | 0 <= j < |root| ensures !IsSpace(root[j]) {
      assert root[j] == fileName[j];
    }
    forall j | 0 <= j < |ext| ensures !IsSpace(ext[j]) {
      assert ext[j] == fileName[|fileName| - |ext| + j];
    }
    CopyMarkHasNoSpace();
    NoSpaceConcat(root, "_copy.");
    NoSpaceConcat(root + "_copy.", ext);
    assert CopyName(fileName) == root + "_copy." + ext;
  }

  /** No character of `s` is white space. */
  predicate NoSpace(s: string)
  {
    forall i :: 0 <= i < |s| ==> !IsSpace(s[i])
  }

  lemma NoSpaceConcat(a: string, b: string)
    requires NoSpace(a) && NoSpace(b)
    ensures NoSpace(a + b)
  {
    forall i | 0 <= i < |a + b| ensures !IsSpace((a + b)[i]) {
      if i >= |a| {
        assert (a + b)[i] == b[i - |a|];
      }
    }
  }

  lemma CopyMarkHasNoSpace()
    ensures NoSpace("_copy.")
  {
  }

  /**
   * Exactly the source-file token changes, into the name of the copy, and
   * the command still compiles a code file: the copy.
   */
  lemma ReplacesOnlyTheSourceToken(line: string)
    requires LastCodeIndex(Split(line), |Split(line)|).Some?
    ensures var ts, k := Split(line), LastCodeIndex(Split(line), |Split(line)|).value;
      var out := Split(ReplaceCodeFileToken(line).line);
      && out == ts[k := CopyName(ts[k])]
      && CodeFileName(out, |out|) == Some(CopyName(ts[k]))
  {
    var ts, k := Split(line), LastCodeIndex(Split(line), |Split(line)|).value;
    var c := CopyName(ts[k]);
    assert ReplaceCodeFileToken(line).line == Join(ts[k := c]);
    CopyNameIsToken(ts[k]);
    CopyKeepsExtension(ts[k]);
    ReplaceTokenRoundTrip(ts, k, c);
  }

  /** Putting a code-file token in place of the last code file: it splits back and is found. */
  lemma ReplaceTokenRoundTrip(ts: seq<string>, k: nat, c: string)
    requires forall i :: 0 <= i < |ts| ==> IsToken(ts[i])
    requires LastCodeIndex(ts, |ts|) == Some(k) && IsToken(c) && IsCodeFile(c)
    ensures Split(Join(ts[k := c])) == ts[k := c]
    ensures CodeFileName(ts[k := c], |ts|) == Some(c)
  {
    UpdatedTokens(ts, k, c, ts[k := c]);
    SplitJoin(ts[k := c]);
    LastCodeIndexOfUpdate(ts, |ts|, k, c);
  }

  lemma UpdatedTokens(ts: seq<string>, k: nat, c: string, u: seq<string>)
    requires forall i :: 0 <= i < |ts| ==> IsToken(ts[i])
    requires k < |ts| && IsToken(c) && u == ts[k := c]
    ensures forall i :: 0 <= i < |u| ==> IsToken(u[i])
  {
  }

  lemma {:induction false} LastCodeIndexOfUpdate(ts: seq<string>, n: nat, k: nat, t: string)
    requires n <= |ts| && LastCodeIndex(ts, n) == Some(k) && IsCodeFile(t)
    ensures LastCodeIndex(ts[k := t], n) == Some(k)
  {
    if k < n - 1 {
      LastCodeIndexOfUpdate(ts, n - 1, k, t);
    }
  }
}
