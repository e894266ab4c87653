/** The printer and the parser over the text of a configuration file rather
    than over its lines: what routes a file can declare, and that writing
    them out as a file and reading that file gives them back. */
module ConfigText {
  import opened Wrappers
  import opened PyText
  import opened PyFile
  import opened Config
  import opened ConfigFacts

  /** A route as the lines of a file can produce it: its template holds no
      newline and each block entry holds one at most at its end. */
  predicate LineSafe(r: Route) {
    && NoNewline(r.template)
    && forall j :: 0 <= j < |r.block| ==> OneLine(r.block[j])
  }

  /** Every block entry of `r` is empty or terminated. */
  predicate Closed(r: Route) {
    forall j :: 0 <= j < |r.block| ==> Terminated(r.block[j])
  }

  /** Routes read from lines that are all terminated. */
  predicate AllClosed(routes: seq<Route>) {
    forall k :: 0 <= k < |routes| ==> LineSafe(routes[k]) && Closed(routes[k])
  }

  /** Routes read from the lines of a file: only the very last block entry
      of the last route may lack a terminator, since only a file's last
      line can. */
  predicate FromFile(routes: seq<Route>) {
    && (forall k :: 0 <= k < |routes| ==> LineSafe(routes[k]))
    && (forall k :: 0 <= k < |routes| - 1 ==> Closed(routes[k]))
    && (|routes| > 0 ==>
          var b := routes[|routes| - 1].block;
          forall j :: 0 <= j < |b| - 1 ==> Terminated(b[j]))
  }

  // ---------------------------------------------------------------------
  // What parsing the lines of a file returns
  // ---------------------------------------------------------------------

  /** The stripped text of a line holds no newline. */
  lemma StripLine(line: string)
    requires OneLine(line)
    ensures NoNewline(Strip(line))
  {
    var s := Strip(line);
    var a := LeadingSpace(line);
    StripSpec(line);
    forall i | 0 <= i < |s|
      ensures s[i] != '\n'
    {
      assert s[i] == line[a + i];
      if i == |s| - 1 {
        assert !IsSpace(s[i]);
      }
    }
  }

  /** A declared template holds no newline when the declaration does not. */
  lemma TemplateLine(line: string)
    requires IsDeclaration(line) && OneLine(line) && Classify(line).Declares?
    ensures NoNewline(Classify(line).template)
  {
    var s := Strip(line);
    var t := Classify(line).template;
    ClassifyDeclaration(line);
    StripLine(line);
    forall i | 0 <= i < |t|
      ensures t[i] != '\n'
    {
      assert t[i] == s[|s| - |t| + i];
    }
  }

  /** What `lstrip()` keeps of a line is a line, terminated if the line
      was. */
  lemma LStripLine(line: string)
    requires OneLine(line)
    ensures OneLine(LStrip(line))
    ensures Terminated(line) ==> Terminated(LStrip(line))
  {
    var t := LStrip(line);
    LStripSpec(line);
    var a := |line| - |t|;
    assert forall i :: 0 <= i < |t| ==> t[i] == line[a + i];
  }

  /** One step on a line of a file, from routes read off terminated lines,
      gives routes a file can produce, all closed when the line is
      terminated. */
  lemma StepFromFile(st: State, line: string)
    requires Valid(st) && AllClosed(st.routes) && OneLine(line)
    ensures Step(st, Classify(line)).Success? ==> FromFile(Step(st, Classify(line)).value.routes)
    ensures Step(st, Classify(line)).Success? && Terminated(line) ==>
      AllClosed(Step(st, Classify(line)).value.routes)
  {
    var k := Classify(line);
    if k.Declares? {
      TemplateLine(line);
    } else if k.Indented? {
      LStripLine(line);
    }
    if Step(st, k).Success? {
      var rs := Step(st, k).value.routes;
      assert forall j :: 0 <= j < |st.routes| && j < |rs| - 1 ==> rs[j] == st.routes[j];
    }
  }

  /** Parsing the lines of a file returns routes a file can produce; all
      closed when the last line is terminated. */
  lemma {:induction false} ExecFromFile(lines: seq<string>)
    requires IsFileLines(lines)
    ensures Parse(lines).Success? ==> FromFile(Parse(lines).value)
    ensures Parse(lines).Success? && (|lines| == 0 || Terminated(lines[|lines| - 1])) ==>
      AllClosed(Parse(lines).value)
    decreases |lines|
  {
    if |lines| > 0 {
      var prefix := lines[..|lines| - 1];
      var line := lines[|lines| - 1];
      assert IsFileLines(prefix) by {
        assert forall i :: 0 <= i < |prefix| ==> prefix[i] == lines[i];
      }
      ExecFromFile(prefix);
      ButLast(lines);
      RunSnoc(prefix, line);
      match Exec(Start, Kinds(prefix))
      case Failure(e) =>
      case Success(st) =>
        assert AllClosed(st.routes) by {
          assert |prefix| == 0 || Terminated(prefix[|prefix| - 1]);
        }
        StepFromFile(st, line);
    }
  }

  /** `for line in f` over any text, then `_parse_config`: the routes
      returned are ones a file can produce. */
  lemma ParseTextFromFile(text: string)
    ensures Parse(Lines(text)).Success? ==> FromFile(Parse(Lines(text)).value)
  {
    LinesAreFileLines(text);
    ExecFromFile(Lines(text));
  }

  // ---------------------------------------------------------------------
  // The printed lines are lines of a file
  // ---------------------------------------------------------------------

  /** A printed declaration is one terminated line. */
  lemma DeclarationIsLine(r: Route)
    requires WellFormedRoute(r) && LineSafe(r)
    ensures IsLine(DeclarationLine(r)) && Terminated(DeclarationLine(r))
  {
    var l := DeclarationLine(r);
    forall i | 0 <= i < |l| - 1
      ensures l[i] != '\n'
    {
      if i < |r.path| {
        assert l[i] == r.path[i];
        assert !IsSpace(r.path[i]);
      } else if |r.path| < i {
        assert l[i] == r.template[i - |r.path| - 1];
      }
    }
  }

  /** A printed block is lines of a file, ending terminated when the
      block's last entry is. */
  lemma {:induction false} BlockIsLines(block: seq<string>)
    requires forall j :: 0 <= j < |block| ==> OneLine(block[j])
    requires forall j :: 0 <= j < |block| - 1 ==> Terminated(block[j])
    ensures IsFileLines(BlockLines(block))
    ensures |block| > 0 && Terminated(block[|block| - 1]) ==>
      Terminated(BlockLines(block)[|block| - 1])
    decreases |block|
  {
    if |block| > 0 {
      var b := block[0];
      var e := PrintEntry(b);
      assert IsLine(e) by {
        assert forall i :: 0 <= i < |b| ==> e[|Indent| + i] == b[i];
      }
      assert |block| > 1 ==> Terminated(e);
      assert Terminated(b) ==> Terminated(e);
      BlockIsLines(block[1..]);
      FileLinesAppend([e], BlockLines(block[1..]));
      assert BlockLines(block) == [e] + BlockLines(block[1..]);
    }
  }

  /** The printed form of routes a file can produce is lines of a file,
      ending terminated when the routes are all closed. */
  lemma {:induction false} UnparseIsLines(routes: seq<Route>)
    requires AllWellFormed(routes) && FromFile(routes)
    ensures IsFileLines(Unparse(routes))
    ensures AllClosed(routes) && |Unparse(routes)| > 0 ==>
      Terminated(Unparse(routes)[|Unparse(routes)| - 1])
    decreases |routes|
  {
    if |routes| > 0 {
      var rs := routes[..|routes| - 1];
      var r := routes[|routes| - 1];
      var front := Unparse(rs);
      var decl := DeclarationLine(r);
      var block := BlockLines(r.block);
      assert Unparse(routes) == front + [decl] + block;
      WellFormedFront(routes);
      assert AllClosed(rs);
      UnparseIsLines(rs);
      DeclarationIsLine(r);
      BlockIsLines(r.block);
      FileLinesAppend(front, [decl]);
      FileLinesAppend(front + [decl], block);
      if AllClosed(routes) && |block| > 0 {
        assert Terminated(r.block[|r.block| - 1]);
      }
    }
  }

  // ---------------------------------------------------------------------
  // Round trips through the text of a file
  // ---------------------------------------------------------------------

  /** Writing the printed form of well-formed routes a file can produce to
      a file, reading its lines and parsing them gives the routes back. */
  lemma TextRoundTrip(routes: seq<Route>)
    requires AllWellFormed(routes) && FromFile(routes)
    ensures Parse(Lines(Concat(Unparse(routes)))) == Success(routes)
  {
    UnparseIsLines(routes);
    LinesConcat(Unparse(routes));
    ParseUnparse(routes);
  }

  /** The printed lines of the route in `EmptyEntryExample`, and the file
      text they make. */
  lemma EmptyEntryPrinted()
    ensures Unparse([Route("/a", "t", ["", "x\n"])]) == ["/a t\n", "    \n", "    x\n"]
    ensures Concat(["/a t\n", "    \n", "    x\n"]) == "/a t\n    \n    x\n"
  {
    var ls := ["/a t\n", "    \n", "    x\n"];
    assert Concat(ls) == "/a t\n    \n    x\n" by {
      assert ls[1..][1..] == ["    x\n"];
      assert Concat(["    x\n"]) == "    x\n" + Concat([]);
      assert Concat(ls[1..]) == "    \n" + "    x\n";
    }
    var r := Route("/a", "t", ["", "x\n"]);
    assert BlockLines(r.block) == ["    \n", "    x\n"] by {
      assert PrintEntry("") == "    \n";
      assert PrintEntry("x\n") == "    x\n";
      assert r.block[1..] == ["x\n"];
      assert BlockLines(["x\n"]) == [PrintEntry("x\n")] + BlockLines([]);
      assert BlockLines(r.block) == [PrintEntry("")] + BlockLines(["x\n"]);
    }
    assert DeclarationLine(r) == "/a t\n";
    assert [r][..0] == [];
  }

  /** The route in `EmptyEntryExample` is one a file can declare. */
  lemma EmptyEntryFromFile()
    ensures AllWellFormed([Route("/a", "t", ["", "x\n"])])
    ensures FromFile([Route("/a", "t", ["", "x\n"])])
  {
    var r := Route("/a", "t", ["", "x\n"]);
    assert WellFormedRoute(r) by {
      assert NoSpace(r.path);
      assert WellFormedTemplate(r.template);
      assert NoLeadingSpace(r.block[0]) && NoLeadingSpace(r.block[1]);
    }
    assert LineSafe(r) by {
      assert NoNewline(r.template);
      assert OneLine(r.block[0]) && OneLine(r.block[1]);
    }
    assert Terminated(r.block[0]);
  }

  /** An empty block entry, which an all-whitespace block line leaves, is
      printed as an indented line of its own and read back from the file
      text. */
  lemma EmptyEntryExample()
    ensures Concat(Unparse([Route("/a", "t", ["", "x\n"])])) == "/a t\n    \n    x\n"
    ensures Parse(Lines("/a t\n    \n    x\n")) == Success([Route("/a", "t", ["", "x\n"])])
  {
    var r := Route("/a", "t", ["", "x\n"]);
    EmptyEntryPrinted();
    EmptyEntryFromFile();
    TextRoundTrip([r]);
  }

  /** Parsing a configuration file, writing the result back out with the
      printer and parsing that file gives the same routes. */
  lemma TextReparse(text: string)
    ensures Parse(Lines(text)).Success? ==>
      Parse(Lines(Concat(Unparse(Parse(Lines(text)).value)))) == Parse(Lines(text))
  {
    if Parse(Lines(text)).Success? {
      ParseTextFromFile(text);
      ParseWellFormed(Lines(text));
      TextRoundTrip(Parse(Lines(text)).value);
    }
  }
}
