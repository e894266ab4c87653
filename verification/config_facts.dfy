/** Properties of the route-configuration parser: how it behaves when one
    more line is read, which inputs make it fail and with which error, an
    independent description of the routes it returns, the lines it ignores,
    and a printer it round-trips with. */
module ConfigFacts {
  import opened Wrappers
  import opened PyText
  import opened Config

  // ---------------------------------------------------------------------
  // The fold over concatenated input
  // ---------------------------------------------------------------------

  /** Feeds one more classified line to the result of a run; a failure is
      final. */
  function Then(r: Result<State, ConfigError>, k: LineKind): (next: Result<State, ConfigError>)
    requires r.Success? ==> Valid(r.value)
  {
    match r
    case Failure(e) => Failure(e)
    case Success(st) => Step(st, k)
  }

  /** Running over `a + b` is running over `a`, then over `b` from where
      `a` left off. */
  lemma {:induction false} ExecAppend(st: State, a: seq<LineKind>, b: seq<LineKind>)
    requires Valid(st)
    ensures Exec(st, a + b) ==
      match Exec(st, a)
      case Failure(e) => Failure(e)
      case Success(mid) => Exec(mid, b)
    decreases |a|
  {
    if |a| == 0 {
      assert a + b == b;
    } else {
      assert (a + b)[0] == a[0];
      assert (a + b)[1..] == a[1..] + b;
      match Step(st, a[0])
      case Failure(e) =>
      case Success(next) => ExecAppend(next, a[1..], b);
    }
  }

  /** Reading one more line is one more `Step`. */
  lemma ExecSnoc(st: State, ks: seq<LineKind>, k: LineKind)
    requires Valid(st)
    ensures Exec(st, ks + [k]) == Then(Exec(st, ks), k)
  {
    ExecAppend(st, ks, [k]);
    match Exec(st, ks)
    case Failure(e) =>
    case Success(mid) =>
      match Step(mid, k)
      case Failure(e) =>
      case Success(next) => assert Exec(next, []) == Success(next);
  }

  /** A non-empty sequence is its front followed by its last element. */
  lemma ButLast<T>(s: seq<T>)
    requires |s| > 0
    ensures s[..|s| - 1] + [s[|s| - 1]] == s
  {
  }

  lemma KindsSnoc(lines: seq<string>, line: string)
    ensures Kinds(lines + [line]) == Kinds(lines) + [Classify(line)]
  {
    assert (lines + [line])[..|lines|] == lines;
  }

  lemma {:induction false} KindsAppend(a: seq<string>, b: seq<string>)
    ensures Kinds(a + b) == Kinds(a) + Kinds(b)
    decreases |b|
  {
    if |b| == 0 {
      assert a + b == a;
    } else {
      var init := b[..|b| - 1];
      var last := b[|b| - 1];
      assert Kinds(a + b) == Kinds(a + init) + [Classify(last)] by {
        assert a + b == (a + init) + [last];
        KindsSnoc(a + init, last);
      }
      KindsAppend(a, init);
    }
  }

  /** The run over `lines + [line]` is the run over `lines`, then one
      step. */
  lemma RunSnoc(lines: seq<string>, line: string)
    ensures Exec(Start, Kinds(lines + [line])) == Then(Exec(Start, Kinds(lines)), Classify(line))
  {
    KindsSnoc(lines, line);
    ExecSnoc(Start, Kinds(lines), Classify(line));
  }

  /** The run over non-empty `lines` is the run over all but the last line,
      then one step. */
  lemma RunLast(lines: seq<string>)
    requires |lines| > 0
    ensures Exec(Start, Kinds(lines))
         == Then(Exec(Start, Kinds(lines[..|lines| - 1])), Classify(lines[|lines| - 1]))
  {
    ExecSnoc(Start, Kinds(lines[..|lines| - 1]), Classify(lines[|lines| - 1]));
  }

  // ---------------------------------------------------------------------
  // One more line
  // ---------------------------------------------------------------------

  /** The last route with `text` added to its block. */
  function ExtendLast(routes: seq<Route>, text: string): (rs: seq<Route>)
    requires |routes| > 0
  {
    var last := routes[|routes| - 1];
    routes[..|routes| - 1] + [last.(block := last.block + [text])]
  }

  /** Once parsing has failed, reading more lines keeps the first error. */
  lemma ParseAfterFailure(lines: seq<string>, line: string)
    requires Parse(lines).Failure?
    ensures Parse(lines + [line]) == Parse(lines)
  {
    RunSnoc(lines, line);
  }

  /** A line that starts with none of `/`, space or tab changes nothing. */
  lemma ParseAfterIgnored(lines: seq<string>, line: string)
    requires IsIgnored(line)
    ensures Parse(lines + [line]) == Parse(lines)
  {
    RunSnoc(lines, line);
  }

  /** A declaration line appends one route with an empty block, leaving the
      earlier routes as they were; its path and template are the two
      fields of the stripped line. With a single field it fails. */
  lemma ParseAfterDeclaration(lines: seq<string>, line: string)
    requires Parse(lines).Success? && IsDeclaration(line)
    ensures NoSpace(Strip(line)) ==> Parse(lines + [line]) == Failure(MalformedDeclaration(line))
    ensures !NoSpace(Strip(line)) ==>
      var rs := Parse(lines).value;
      && Parse(lines + [line]).Success?
      && var after := Parse(lines + [line]).value;
      && |after| == |rs| + 1
      && after[..|rs|] == rs
      && after[|rs|].block == []
      && DeclarationFields(Strip(line), after[|rs|].path, after[|rs|].template)
  {
    RunSnoc(lines, line);
    ClassifyDeclaration(line);
    var rs := Parse(lines).value;
    if !NoSpace(Strip(line)) {
      var after := Parse(lines + [line]).value;
      assert after[..|rs|] == rs;
    }
  }

  /** A block line is appended, stripped of its leading whitespace, to the
      block of the last route declared, leaving every earlier route as it
      was; before any declaration it fails. */
  lemma ParseAfterBlockLine(lines: seq<string>, line: string)
    requires Parse(lines).Success? && IsBlockLine(line)
    ensures Parse(lines + [line]) ==
      if |Parse(lines).value| == 0 then Failure(OrphanBlockLine(line))
      else Success(ExtendLast(Parse(lines).value, LStrip(line)))
  {
    var st := Exec(Start, Kinds(lines)).value;
    assert Exec(Start, Kinds(lines + [line])) == Step(st, Indented(LStrip(line), line)) by {
      RunSnoc(lines, line);
    }
    if |st.routes| > 0 {
      ExtendLastIsUpdate(st.routes, LStrip(line));
    }
  }

  lemma ExtendLastIsUpdate(routes: seq<Route>, text: string)
    requires |routes| > 0
    ensures
      var i := |routes| - 1;
      routes[i := routes[i].(block := routes[i].block + [text])] == ExtendLast(routes, text)
  {
  }

  // ---------------------------------------------------------------------
  // A reference description of the parse result
  // ---------------------------------------------------------------------

  /** The declaration lines among `lines`, in order. */
  function Declarations(lines: seq<string>): (d: seq<string>)
    ensures forall k :: 0 <= k < |d| ==> IsDeclaration(d[k])
  {
    if |lines| == 0 then []
    else
      var last := lines[|lines| - 1];
      Declarations(lines[..|lines| - 1]) + (if IsDeclaration(last) then [last] else [])
  }

  /** The block the `k`-th declaration (from 0) receives: every block line
      whose nearest preceding declaration is that one, stripped of its
      leading whitespace, in input order. */
  function Attached(lines: seq<string>, k: nat): (block: seq<string>) {
    if |lines| == 0 then []
    else
      var prefix := lines[..|lines| - 1];
      var last := lines[|lines| - 1];
      Attached(prefix, k)
        + (if IsBlockLine(last) && |Declarations(prefix)| == k + 1 then [LStrip(last)] else [])
  }

  /** `route` is what the `k`-th declaration of `lines` describes: its path
      and template are the fields of that stripped declaration, and its
      block is what is attached to it. */
  predicate DeclaredAs(lines: seq<string>, k: nat, route: Route) {
    var decls := Declarations(lines);
    && k < |decls|
    && DeclarationFields(Strip(decls[k]), route.path, route.template)
    && route.block == Attached(lines, k)
  }

  /** No block line is attached to a declaration that has not appeared. */
  lemma {:induction false} AttachedBeyond(lines: seq<string>, k: nat)
    requires |Declarations(lines)| <= k
    ensures Attached(lines, k) == []
    decreases |lines|
  {
    if |lines| > 0 {
      AttachedBeyond(lines[..|lines| - 1], k);
    }
  }

  /** The reference functions on one more line. */
  lemma ReferenceSnoc(prefix: seq<string>, line: string, k: nat)
    ensures Declarations(prefix + [line])
         == Declarations(prefix) + (if IsDeclaration(line) then [line] else [])
    ensures Attached(prefix + [line], k) == Attached(prefix, k)
         + (if IsBlockLine(line) && |Declarations(prefix)| == k + 1 then [LStrip(line)] else [])
  {
    assert (prefix + [line])[..|prefix|] == prefix;
  }

  /** The routes of `st` are those `prefix` describes. */
  predicate MatchesReference(prefix: seq<string>, st: State) {
    |st.routes| == |Declarations(prefix)|
    && forall k :: 0 <= k < |st.routes| ==> DeclaredAs(prefix, k, st.routes[k])
  }

  /** A route keeps its description when a line that does not extend its
      block is read. */
  lemma KeptRoute(prefix: seq<string>, line: string, k: nat, r: Route)
    requires DeclaredAs(prefix, k, r)
    requires !(IsBlockLine(line) && |Declarations(prefix)| == k + 1)
    ensures DeclaredAs(prefix + [line], k, r)
  {
    ReferenceSnoc(prefix, line, k);
    assert Declarations(prefix + [line])[k] == Declarations(prefix)[k];
  }

  /** A declaration with two fields describes a route with an empty
      block. */
  lemma NewRoute(prefix: seq<string>, line: string)
    requires Classify(line).Declares?
    ensures
      var k := Classify(line);
      DeclaredAs(prefix + [line], |Declarations(prefix)|, Route(k.path, k.template, []))
  {
    var n := |Declarations(prefix)|;
    ClassifyDeclaration(line);
    ReferenceSnoc(prefix, line, n);
    AttachedBeyond(prefix, n);
    assert Declarations(prefix + [line])[n] == line;
  }

  /** A block line extends the block of the route declared last. */
  lemma ExtendedRoute(prefix: seq<string>, line: string, r: Route)
    requires IsBlockLine(line) && |Declarations(prefix)| > 0
    requires DeclaredAs(prefix, |Declarations(prefix)| - 1, r)
    ensures DeclaredAs(prefix + [line], |Declarations(prefix)| - 1, r.(block := r.block + [LStrip(line)]))
  {
    var k := |Declarations(prefix)| - 1;
    ReferenceSnoc(prefix, line, k);
    assert Declarations(prefix + [line]) == Declarations(prefix);
  }

  /** After a step, the `k`-th route is what the `k`-th declaration
      describes. */
  lemma RouteAfterStep(prefix: seq<string>, line: string, st: State, k: nat)
    requires Valid(st) && |st.routes| == |Declarations(prefix)|
    requires Step(st, Classify(line)).Success? && k < |Step(st, Classify(line)).value.routes|
    requires k < |st.routes| ==> DeclaredAs(prefix, k, st.routes[k])
    ensures DeclaredAs(prefix + [line], k, Step(st, Classify(line)).value.routes[k])
  {
    var n := |st.routes|;
    var rs := Step(st, Classify(line)).value.routes;
    if k == n {
      NewRoute(prefix, line);
    } else if IsBlockLine(line) && k == n - 1 {
      ExtendedRoute(prefix, line, st.routes[k]);
    } else {
      assert rs[k] == st.routes[k];
      KeptRoute(prefix, line, k, st.routes[k]);
    }
  }

  /** A step keeps the state in agreement with the reference description. */
  lemma StepReference(prefix: seq<string>, line: string, st: State)
    requires Valid(st) && MatchesReference(prefix, st)
    ensures Step(st, Classify(line)).Success? ==>
      MatchesReference(prefix + [line], Step(st, Classify(line)).value)
  {
    if Step(st, Classify(line)).Success? {
      var rs := Step(st, Classify(line)).value.routes;
      assert |rs| == |Declarations(prefix + [line])| by {
        ReferenceSnoc(prefix, line, 0);
      }
      forall k | 0 <= k < |rs|
        ensures DeclaredAs(prefix + [line], k, rs[k])
      {
        RouteAfterStep(prefix, line, st, k);
      }
    }
  }

  /** The state after reading `lines` holds one route per declaration, the
      `k`-th built from the `k`-th declaration and the block lines attached
      to it. */
  lemma {:induction false} ExecReference(lines: seq<string>)
    ensures Exec(Start, Kinds(lines)).Success? ==>
      MatchesReference(lines, Exec(Start, Kinds(lines)).value)
    decreases |lines|
  {
    if |lines| == 0 {
      return;
    }
    var prefix := lines[..|lines| - 1];
    var line := lines[|lines| - 1];
    RunLast(lines);
    if Exec(Start, Kinds(prefix)).Success? {
      var st := Exec(Start, Kinds(prefix)).value;
      assert MatchesReference(prefix, st) by {
        ExecReference(prefix);
      }
      StepReference(prefix, line, st);
      ButLast(lines);
    }
  }

  /** On success there is one route per declaration line, in declaration
      order; each route's path and template are the two fields of its
      stripped declaration, and its block is exactly the block lines whose
      nearest preceding declaration is that route's, each stripped of its
      leading whitespace, in input order. */
  lemma ParseReference(lines: seq<string>)
    ensures Parse(lines).Success? ==>
      var rs := Parse(lines).value;
      |rs| == |Declarations(lines)| && forall k :: 0 <= k < |rs| ==> DeclaredAs(lines, k, rs[k])
  {
    ExecReference(lines);
  }

  // ---------------------------------------------------------------------
  // Failure
  // ---------------------------------------------------------------------

  /** Line `i` makes the parser raise: a declaration whose stripped text is
      a single field, or a block line with no declaration before it. */
  predicate Faulty(lines: seq<string>, i: nat)
    requires i < |lines|
  {
    || (IsDeclaration(lines[i]) && NoSpace(Strip(lines[i])))
    || (IsBlockLine(lines[i]) && forall j :: 0 <= j < i ==> !IsDeclaration(lines[j]))
  }

  /** No declaration among the first `i` lines is no declaration found. */
  lemma {:induction false} NoDeclarationBefore(lines: seq<string>, i: nat)
    requires i <= |lines|
    ensures |Declarations(lines[..i])| == 0 <==> forall j :: 0 <= j < i ==> !IsDeclaration(lines[j])
    decreases i
  {
    if i > 0 {
      assert lines[..i][..i - 1] == lines[..i - 1];
      NoDeclarationBefore(lines, i - 1);
    }
  }

  /** Line `i` is the first line that makes the parser raise. */
  predicate FirstFault(lines: seq<string>, i: nat) {
    i < |lines| && Faulty(lines, i) && forall j :: 0 <= j < i ==> !Faulty(lines, j)
  }

  /** The error a faulty line raises. */
  function ErrorFor(line: string): (e: ConfigError) {
    if IsDeclaration(line) then MalformedDeclaration(line) else OrphanBlockLine(line)
  }

  predicate NoFault(lines: seq<string>) {
    forall i :: 0 <= i < |lines| ==> !Faulty(lines, i)
  }

  /** Adding a line at the end does not change which earlier lines are
      faulty. */
  lemma FaultyPrefix(lines: seq<string>, i: nat)
    requires i < |lines| - 1
    ensures Faulty(lines, i) == Faulty(lines[..|lines| - 1], i)
  {
    assert lines[..|lines| - 1][..i] == lines[..i];
  }

  lemma NoFaultSnoc(lines: seq<string>)
    requires |lines| > 0
    ensures NoFault(lines) <==> NoFault(lines[..|lines| - 1]) && !Faulty(lines, |lines| - 1)
  {
    var prefix := lines[..|lines| - 1];
    if NoFault(lines) {
      forall i | 0 <= i < |prefix|
        ensures !Faulty(prefix, i)
      {
        FaultyPrefix(lines, i);
      }
    }
    if NoFault(prefix) && !Faulty(lines, |lines| - 1) {
      forall i | 0 <= i < |lines|
        ensures !Faulty(lines, i)
      {
        if i < |prefix| {
          FaultyPrefix(lines, i);
        }
      }
    }
  }

  lemma FirstFaultExtends(lines: seq<string>, i: nat)
    requires |lines| > 0 && FirstFault(lines[..|lines| - 1], i)
    ensures FirstFault(lines, i) && lines[i] == lines[..|lines| - 1][i]
  {
    FaultyPrefix(lines, i);
    forall j | 0 <= j < i
      ensures !Faulty(lines, j)
    {
      FaultyPrefix(lines, j);
    }
  }

  lemma FaultAtEnd(lines: seq<string>)
    requires |lines| > 0 && NoFault(lines[..|lines| - 1]) && Faulty(lines, |lines| - 1)
    ensures FirstFault(lines, |lines| - 1)
  {
    var prefix := lines[..|lines| - 1];
    forall j | 0 <= j < |prefix|
      ensures !Faulty(lines, j)
    {
      FaultyPrefix(lines, j);
    }
  }

  /** A step fails exactly on a faulty line, with that line's error. */
  lemma StepFails(lines: seq<string>, st: State)
    requires |lines| > 0
    requires Valid(st) && |st.routes| == |Declarations(lines[..|lines| - 1])|
    ensures Step(st, Classify(lines[|lines| - 1])).Failure? <==> Faulty(lines, |lines| - 1)
    ensures Step(st, Classify(lines[|lines| - 1])).Failure? ==>
      Step(st, Classify(lines[|lines| - 1])).error == ErrorFor(lines[|lines| - 1])
  {
    NoDeclarationBefore(lines, |lines| - 1);
    if IsDeclaration(lines[|lines| - 1]) {
      ClassifyDeclaration(lines[|lines| - 1]);
    }
  }

  lemma {:induction false} ExecFaults(lines: seq<string>)
    ensures Exec(Start, Kinds(lines)).Success? <==> NoFault(lines)
    ensures Exec(Start, Kinds(lines)).Failure? ==>
      exists i: nat :: FirstFault(lines, i) && Exec(Start, Kinds(lines)).error == ErrorFor(lines[i])
    decreases |lines|
  {
    if |lines| == 0 {
      return;
    }
    var prefix := lines[..|lines| - 1];
    var line := lines[|lines| - 1];
    RunLast(lines);
    NoFaultSnoc(lines);
    ExecFaults(prefix);
    match Exec(Start, Kinds(prefix))
    case Failure(e) =>
      var i: nat :| FirstFault(prefix, i) && e == ErrorFor(prefix[i]);
      FirstFaultExtends(lines, i);
    case Success(st) =>
      assert |st.routes| == |Declarations(prefix)| by {
        ExecReference(prefix);
      }
      StepFails(lines, st);
      if Step(st, Classify(line)).Failure? {
        FaultAtEnd(lines);
      }
  }

  /** Parsing succeeds exactly when no line is faulty; when it fails, the
      error names the first faulty line: a declaration with fewer than two
      fields, or a block line before any declaration. */
  lemma ParseFaults(lines: seq<string>)
    ensures Parse(lines).Success? <==> forall i :: 0 <= i < |lines| ==> !Faulty(lines, i)
    ensures Parse(lines).Failure? ==>
      exists i: nat :: FirstFault(lines, i) && Parse(lines).error == ErrorFor(lines[i])
  {
    ExecFaults(lines);
  }

  // ---------------------------------------------------------------------
  // Ignored lines
  // ---------------------------------------------------------------------

  /** `lines` without the lines the parser ignores. */
  function Relevant(lines: seq<string>): (r: seq<string>)
    ensures forall j :: 0 <= j < |r| ==> !IsIgnored(r[j])
  {
    if |lines| == 0 then []
    else
      var last := lines[|lines| - 1];
      Relevant(lines[..|lines| - 1]) + (if IsIgnored(last) then [] else [last])
  }

  lemma {:induction false} ExecRelevant(lines: seq<string>)
    ensures Exec(Start, Kinds(Relevant(lines))) == Exec(Start, Kinds(lines))
    decreases |lines|
  {
    if |lines| > 0 {
      var prefix := lines[..|lines| - 1];
      var line := lines[|lines| - 1];
      RunLast(lines);
      ExecRelevant(prefix);
      if IsIgnored(line) {
        assert Relevant(lines) == Relevant(prefix);
      } else {
        RunSnoc(Relevant(prefix), line);
      }
    }
  }

  /** Deleting every line that starts with none of `/`, space or tab leaves
      the result unchanged, errors included. */
  lemma ParseIgnoresIrrelevant(lines: seq<string>)
    ensures Parse(Relevant(lines)) == Parse(lines)
  {
    ExecRelevant(lines);
  }

  /** Deleting a single ignored line anywhere leaves the result
      unchanged. */
  lemma ParseSkipsIgnored(before: seq<string>, line: string, after: seq<string>)
    requires IsIgnored(line)
    ensures Parse(before + [line] + after) == Parse(before + after)
  {
    assert Kinds(before + [line] + after) == Kinds(before) + [Skipped] + Kinds(after) by {
      KindsAppend(before + [line], after);
      KindsSnoc(before, line);
    }
    assert Kinds(before + after) == Kinds(before) + Kinds(after) by {
      KindsAppend(before, after);
    }
    assert Exec(Start, Kinds(before) + [Skipped]) == Exec(Start, Kinds(before)) by {
      ExecSnoc(Start, Kinds(before), Skipped);
    }
    ExecAppend(Start, Kinds(before) + [Skipped], Kinds(after));
    ExecAppend(Start, Kinds(before), Kinds(after));
  }

  // ---------------------------------------------------------------------
  // Shape of the routes, and a printer the parser inverts
  // ---------------------------------------------------------------------

  /** A route as the parser can return it. */
  predicate WellFormedRoute(r: Route) {
    && WellFormedPath(r.path)
    && WellFormedTemplate(r.template)
    && forall j :: 0 <= j < |r.block| ==> NoLeadingSpace(r.block[j])
  }

  predicate AllWellFormed(rs: seq<Route>) {
    forall k :: 0 <= k < |rs| ==> WellFormedRoute(rs[k])
  }

  /** The fields a classified line carries have the shape a route needs. */
  predicate WellFormedKind(k: LineKind) {
    && (k.Declares? ==> WellFormedPath(k.path) && WellFormedTemplate(k.template))
    && (k.Indented? ==> NoLeadingSpace(k.text))
  }

  lemma ClassifyWellFormed(line: string)
    ensures WellFormedKind(Classify(line))
  {
    LStripSpec(line);
    if IsDeclaration(line) {
      ClassifyDeclaration(line);
    }
  }

  lemma {:induction false} KindsWellFormed(lines: seq<string>)
    ensures forall j :: 0 <= j < |lines| ==> WellFormedKind(Kinds(lines)[j])
    decreases |lines|
  {
    if |lines| > 0 {
      var prefix := lines[..|lines| - 1];
      KindsWellFormed(prefix);
      ClassifyWellFormed(lines[|lines| - 1]);
    }
  }

  lemma StepWellFormed(st: State, k: LineKind)
    requires Valid(st) && AllWellFormed(st.routes) && WellFormedKind(k)
    ensures Step(st, k).Success? ==> AllWellFormed(Step(st, k).value.routes)
  {
    if Step(st, k).Success? {
      var rs := Step(st, k).value.routes;
      forall j | 0 <= j < |rs|
        ensures WellFormedRoute(rs[j])
      {
        if j < |st.routes| {
          assert WellFormedRoute(st.routes[j]);
        }
      }
    }
  }

  lemma {:induction false} ExecWellFormed(st: State, ks: seq<LineKind>)
    requires Valid(st) && AllWellFormed(st.routes)
    requires forall j :: 0 <= j < |ks| ==> WellFormedKind(ks[j])
    ensures Exec(st, ks).Success? ==> AllWellFormed(Exec(st, ks).value.routes)
    decreases |ks|
  {
    if |ks| > 0 {
      StepWellFormed(st, ks[0]);
      match Step(st, ks[0])
      case Failure(e) =>
      case Success(next) => ExecWellFormed(next, ks[1..]);
    }
  }

  /** Every path returned starts with `/` and holds no whitespace; every
      template is non-empty with no leading or trailing whitespace; no block
      line starts with whitespace. */
  lemma ParseWellFormed(lines: seq<string>)
    ensures Parse(lines).Success? ==> AllWellFormed(Parse(lines).value)
  {
    KindsWellFormed(lines);
    ExecWellFormed(Start, Kinds(lines));
  }

  /** The indentation the printer puts before block lines. */
  const Indent := "    "

  function DeclarationLine(r: Route): (line: string) {
    r.path + " " + r.template + "\n"
  }

  /** A block entry as a printed line: indented, and an empty entry (what
      an all-whitespace block line leaves) given a line terminator of its
      own. */
  function PrintEntry(b: string): (line: string) {
    if |b| == 0 then Indent + "\n" else Indent + b
  }

  function BlockLines(block: seq<string>): (ls: seq<string>)
    ensures |ls| == |block|
  {
    if |block| == 0 then [] else [PrintEntry(block[0])] + BlockLines(block[1..])
  }

  /** What the parser makes of printed block lines. */
  function IndentedKinds(block: seq<string>): (ks: seq<LineKind>) {
    if |block| == 0 then [] else [Indented(block[0], PrintEntry(block[0]))] + IndentedKinds(block[1..])
  }

  /** The lines of a configuration that declares `routes`: each route's
      declaration followed by its block, one entry per line. */
  function Unparse(routes: seq<Route>): (lines: seq<string>) {
    if |routes| == 0 then []
    else
      var r := routes[|routes| - 1];
      Unparse(routes[..|routes| - 1]) + [DeclarationLine(r)] + BlockLines(r.block)
  }

  /** Stripping a printed declaration removes exactly its newline. */
  lemma StripDeclarationLine(path: string, template: string)
    requires WellFormedPath(path) && WellFormedTemplate(template)
    ensures Strip(path + " " + template + "\n") == path + " " + template
  {
    var line := path + " " + template + "\n";
    var body := path + " " + template;
    var s := Strip(line);
    StripSpec(line);
    assert LeadingSpace(line) == 0;
    assert s == line[..|s|];
    assert line[|body|] == '\n';
    assert line[|body| - 1] == template[|template| - 1];
    assert |s| == |body|;
  }

  /** In a stripped declaration the path is the first token and the
      template starts where the whitespace run after it ends. */
  lemma FieldsAtRuns(s: string, path: string, template: string)
    requires DeclarationFields(s, path, template)
    ensures |path| == TokenEnd(s, 0)
    ensures |s| - |template| == SpaceRunEnd(s, |path|)
  {
    assert IsSpace(s[|path|]);
    assert s[|s| - |template|] == template[0];
    forall i | 0 <= i < |path|
      ensures !IsSpace(s[i])
    {
      assert s[i] == path[i];
    }
  }

  /** A stripped declaration has only one split into path, whitespace and
      template. */
  lemma FieldsUnique(s: string, p1: string, t1: string, p2: string, t2: string)
    requires DeclarationFields(s, p1, t1) && DeclarationFields(s, p2, t2)
    ensures p1 == p2 && t1 == t2
  {
    FieldsAtRuns(s, p1, t1);
    FieldsAtRuns(s, p2, t2);
    assert p1 == s[..|p1|] == p2;
    assert t1 == s[|s| - |t1|..] == t2;
  }

  /** Re-splitting a path and template joined by one space and terminated
      by a newline gives them back: declaring an already-parsed route again
      yields the same path and template. */
  lemma DeclarationRoundTrip(path: string, template: string)
    requires WellFormedPath(path) && WellFormedTemplate(template)
    ensures IsDeclaration(path + " " + template + "\n")
    ensures Classify(path + " " + template + "\n") == Declares(path, template)
  {
    var line := path + " " + template + "\n";
    var body := path + " " + template;
    StripDeclarationLine(path, template);
    assert body[..|path|] == path;
    assert body[|body| - |template|..] == template;
    assert body[|path|..|body| - |template|] == " ";
    assert DeclarationFields(body, path, template);
    assert !NoSpace(body) by {
      assert IsSpace(body[|path|]);
    }
    var k := Classify(line);
    ClassifyDeclaration(line);
    FieldsUnique(body, k.path, k.template, path, template);
  }

  /** Printing a block entry that does not start with whitespace and
      stripping the line again gives it back. */
  lemma IndentRoundTrip(b: string)
    requires NoLeadingSpace(b)
    ensures Classify(PrintEntry(b)) == Indented(b, PrintEntry(b))
  {
    var x := PrintEntry(b);
    var r := LStrip(x);
    if |b| == 0 {
      assert SpaceRunEnd(x, 0) == |x|;
    } else {
      assert r == x[|Indent|..];
    }
  }

  /** Printed block lines are read back as block lines carrying the
      original text. */
  lemma {:induction false} BlockKinds(block: seq<string>)
    requires forall j :: 0 <= j < |block| ==> NoLeadingSpace(block[j])
    ensures Kinds(BlockLines(block)) == IndentedKinds(block)
    decreases |block|
  {
    if |block| > 0 {
      assert Kinds([PrintEntry(block[0])]) == [Indented(block[0], PrintEntry(block[0]))] by {
        IndentRoundTrip(block[0]);
      }
      KindsAppend([PrintEntry(block[0])], BlockLines(block[1..]));
      BlockKinds(block[1..]);
    }
  }

  /** Replacing the last element of `rs + [r]`. */
  lemma UpdateLast(rs: seq<Route>, r: Route, r': Route)
    ensures (rs + [r])[|rs| := r'] == rs + [r']
  {
  }

  /** Block lines read while `r` is the current route extend its block. */
  lemma {:induction false} ExecIndented(rs: seq<Route>, r: Route, block: seq<string>)
    ensures Exec(State(rs + [r], Some(|rs|)), IndentedKinds(block))
         == Success(State(rs + [r.(block := r.block + block)], Some(|rs|)))
    decreases |block|
  {
    if |block| == 0 {
      assert r.block + block == r.block;
    } else {
      var r1 := r.(block := r.block + [block[0]]);
      var ks := IndentedKinds(block);
      assert Step(State(rs + [r], Some(|rs|)), ks[0]) == Success(State(rs + [r1], Some(|rs|))) by {
        UpdateLast(rs, r, r1);
      }
      assert ks[1..] == IndentedKinds(block[1..]);
      ExecIndented(rs, r1, block[1..]);
      assert r1.block + block[1..] == r.block + block by {
        assert [block[0]] + block[1..] == block;
      }
    }
  }

  /** Printing one more route's declaration after the printed form of
      `rs` and reading it opens that route. */
  lemma DeclareStep(lines: seq<string>, st: State, r: Route)
    requires Valid(st) && WellFormedRoute(r)
    requires Exec(Start, Kinds(lines)) == Success(st)
    ensures Exec(Start, Kinds(lines + [DeclarationLine(r)]))
         == Success(State(st.routes + [Route(r.path, r.template, [])], Some(|st.routes|)))
  {
    var k := Declares(r.path, r.template);
    DeclarationKind(lines, r);
    ExecSnoc(Start, Kinds(lines), k);
  }

  /** A printed declaration is classified as declaring its route. */
  lemma DeclarationKind(lines: seq<string>, r: Route)
    requires WellFormedRoute(r)
    ensures Kinds(lines + [DeclarationLine(r)]) == Kinds(lines) + [Declares(r.path, r.template)]
  {
    KindsSnoc(lines, DeclarationLine(r));
    DeclarationRoundTrip(r.path, r.template);
  }

  /** Printing the block of the route just opened and reading it fills that
      route's block. */
  lemma BlockStep(head: seq<string>, rs: seq<Route>, r: Route)
    requires forall j :: 0 <= j < |r.block| ==> NoLeadingSpace(r.block[j])
    requires Exec(Start, Kinds(head)) == Success(State(rs + [Route(r.path, r.template, [])], Some(|rs|)))
    ensures Exec(Start, Kinds(head + BlockLines(r.block))) == Success(State(rs + [r], Some(|rs|)))
  {
    var empty := Route(r.path, r.template, []);
    KindsAppend(head, BlockLines(r.block));
    BlockKinds(r.block);
    ExecAppend(Start, Kinds(head), IndentedKinds(r.block));
    ExecIndented(rs, empty, r.block);
    assert empty.(block := empty.block + r.block) == r;
  }

  lemma WellFormedFront(routes: seq<Route>)
    requires |routes| > 0 && AllWellFormed(routes)
    ensures AllWellFormed(routes[..|routes| - 1]) && WellFormedRoute(routes[|routes| - 1])
  {
  }

  /** Reading the printed form of well-formed routes ends with exactly those
      routes, the last one current. */
  lemma {:induction false} ExecUnparse(routes: seq<Route>)
    requires AllWellFormed(routes)
    ensures Exec(Start, Kinds(Unparse(routes))) ==
      Success(State(routes, if |routes| == 0 then None else Some(|routes| - 1)))
    decreases |routes|
  {
    if |routes| > 0 {
      var rs := routes[..|routes| - 1];
      var r := routes[|routes| - 1];
      var head := Unparse(rs) + [DeclarationLine(r)];
      assert Unparse(routes) == head + BlockLines(r.block);
      assert Exec(Start, Kinds(head + BlockLines(r.block))) == Success(State(rs + [r], Some(|rs|))) by {
        WellFormedFront(routes);
        ExecUnparse(rs);
        DeclareStep(Unparse(rs), State(rs, if |rs| == 0 then None else Some(|rs| - 1)), r);
        BlockStep(head, rs, r);
      }
      ButLast(routes);
    }
  }

  /** Parsing the printed lines of well-formed routes gives them back. The
      claim is about the sequence of lines; `ConfigText.TextRoundTrip`
      makes it about the text of a file. */
  lemma ParseUnparse(routes: seq<Route>)
    requires AllWellFormed(routes)
    ensures Parse(Unparse(routes)) == Success(routes)
  {
    ExecUnparse(routes);
  }

  /** Printing a parse result as lines and parsing those lines again gives
      the same result: the printed lines are a normal form of any input
      lines. `ConfigText.TextReparse` states the same for file text. */
  lemma ReparseIsIdentity(lines: seq<string>)
    ensures Parse(lines).Success? ==> Parse(Unparse(Parse(lines).value)) == Parse(lines)
  {
    ParseWellFormed(lines);
    if Parse(lines).Success? {
      ParseUnparse(Parse(lines).value);
    }
  }
}
