/** `_parse_config` written as the loop it is in stapler.py: one pass over
    the lines with the route list and `cur_route` as mutable locals, raising
    (returning a failure) at the first bad line. It computes exactly what
    the functional `Config.Parse` describes. */
module ConfigLoop {
  import opened Wrappers
  import opened PyText
  import opened Config
  import opened ConfigFacts

  /** Once the lines read so far have failed, the whole input fails with
      the same error: the loop may stop there. */
  lemma ParseStopsAt(lines: seq<string>, i: nat, e: ConfigError)
    requires i < |lines| && Exec(Start, Kinds(lines[..i + 1])) == Failure(e)
    ensures Parse(lines) == Failure(e)
  {
    var front := lines[..i + 1];
    var back := lines[i + 1..];
    assert lines == front + back;
    KindsAppend(front, back);
    ExecAppend(Start, Kinds(front), Kinds(back));
  }

  /** The run over the first `i + 1` lines is the run over the first `i`
      lines, then one step on line `i`. */
  lemma RunNext(lines: seq<string>, i: nat, st: State)
    requires i < |lines| && Valid(st)
    requires Exec(Start, Kinds(lines[..i])) == Success(st)
    ensures Exec(Start, Kinds(lines[..i + 1])) == Step(st, Classify(lines[i]))
  {
    assert lines[..i + 1] == lines[..i] + [lines[i]];
    RunSnoc(lines[..i], lines[i]);
  }

  /** The step on a declaration line: a new current route when the stripped
      line has two fields, the unpacking error otherwise. */
  lemma DeclarationStep(st: State, line: string)
    requires Valid(st) && IsDeclaration(line)
    ensures var fields := SplitOnce(Strip(line));
      Step(st, Classify(line)) ==
        if |fields| == 2 then
          Success(State(st.routes + [Route(fields[0], fields[1], [])], Some(|st.routes|)))
        else Failure(MalformedDeclaration(line))
  {
  }

  /** The step on a block line: the current route's block grows by the
      line's stripped text; with no current route, the error. */
  lemma BlockLineStep(st: State, line: string)
    requires Valid(st) && IsBlockLine(line)
    ensures Step(st, Classify(line)) ==
      match st.current
      case None => Failure(OrphanBlockLine(line))
      case Some(c) =>
        Success(State(st.routes[c := st.routes[c].(block := st.routes[c].block + [LStrip(line)])], st.current))
  {
  }

  /** Any other line leaves the state as it is. */
  lemma IgnoredStep(st: State, line: string)
    requires Valid(st) && IsIgnored(line)
    ensures Step(st, Classify(line)) == Success(st)
  {
  }

  /** What the functional model promises about a parse: it succeeds exactly
      when no line is faulty, with one route per declaration line. */
  lemma ParseOutcome(lines: seq<string>)
    ensures Parse(lines).Success? <==> NoFault(lines)
    ensures Parse(lines).Success? ==> |Parse(lines).value| == |Declarations(lines)|
  {
    ParseFaults(lines);
    ParseReference(lines);
  }

  /** The body of the loop of `_parse_config` on one line: declare a
      route, extend the current route's block, raise, or do nothing. */
  method ReadLine(routes: seq<Route>, current: Option<nat>, line: string)
    returns (res: Result<State, ConfigError>)
    requires Valid(State(routes, current))
    ensures res == Step(State(routes, current), Classify(line))
  {
    if IsDeclaration(line) {
      DeclarationStep(State(routes, current), line);
      var fields := SplitOnce(Strip(line));
      if |fields| != 2 {
        return Failure(MalformedDeclaration(line));
      }
      var routes' := routes + [Route(fields[0], fields[1], [])];
      return Success(State(routes', Some(|routes'| - 1)));
    } else if IsBlockLine(line) {
      BlockLineStep(State(routes, current), line);
      if current.None? {
        return Failure(OrphanBlockLine(line));
      }
      var cur := routes[current.value];
      return Success(State(routes[current.value := cur.(block := cur.block + [LStrip(line)])], current));
    } else {
      IgnoredStep(State(routes, current), line);
      return Success(State(routes, current));
    }
  }

  /** The loop of `_parse_config`. It returns the routes the functional
      model describes, fails exactly when some line is faulty, and on
      success returns one route per declaration line. */
  method ParseConfig(lines: seq<string>) returns (r: Result<seq<Route>, ConfigError>)
    ensures r == Parse(lines)
    ensures r.Success? <==> NoFault(lines)
    ensures r.Success? ==> |r.value| == |Declarations(lines)|
  {
    var routes: seq<Route> := [];
    var current: Option<nat> := None;
    var i := 0;
    while i < |lines|
      invariant 0 <= i <= |lines|
      invariant Valid(State(routes, current))
      invariant Exec(Start, Kinds(lines[..i])) == Success(State(routes, current))
    {
      RunNext(lines, i, State(routes, current));
      var res := ReadLine(routes, current, lines[i]);
      if res.Failure? {
        ParseStopsAt(lines, i, res.error);
        ParseOutcome(lines);
        return Failure(res.error);
      }
      routes, current := res.value.routes, res.value.current;
      i := i + 1;
    }
    assert lines[..i] == lines;
    ParseOutcome(lines);
    r := Success(routes);
  }
}
