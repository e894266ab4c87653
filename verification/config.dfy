/** The route-configuration parser `_parse_config` of stapler.py.

    A configuration is read line by line. A line that starts with `/`
    declares a route: its stripped text is split at the first whitespace run
    into a path and a template name. A line that starts with a space or a tab
    belongs to the block of the route declared last and is recorded without
    its leading whitespace. Every other line is ignored. */
module Config {
  import opened Wrappers
  import opened PyText

  /** One page to build: the URL path it was declared with, the template
      that renders it and its block of script lines. */
  datatype Route = Route(path: string, template: string, block: seq<string>)

  /** Why parsing stopped, with the offending line. Python raises a
      `ValueError` in both cases: from the failed unpacking for a
      declaration, and a bare one for an orphan block line. */
  datatype ConfigError =
    | MalformedDeclaration(line: string)  // fewer than two fields to unpack
    | OrphanBlockLine(line: string)       // a block line before any route

  predicate IsDeclaration(line: string) {
    |line| > 0 && line[0] == '/'
  }

  predicate IsBlockLine(line: string) {
    |line| > 0 && (line[0] == ' ' || line[0] == '\t')
  }

  /** A line the parser skips: blank lines, comments and anything else that
      starts with neither `/`, a space nor a tab. */
  predicate IsIgnored(line: string) {
    !IsDeclaration(line) && !IsBlockLine(line)
  }

  /** A route path as a declaration yields it. */
  predicate WellFormedPath(path: string) {
    |path| > 0 && path[0] == '/' && NoSpace(path)
  }

  /** A template name as a declaration yields it; it may hold inner
      whitespace. */
  predicate WellFormedTemplate(template: string) {
    |template| > 0 && NoLeadingSpace(template) && NoTrailingSpace(template)
  }

  /** The stripped declaration `s` is `path`, a non-empty whitespace run and
      `template`, in that order. */
  predicate DeclarationFields(s: string, path: string, template: string) {
    && WellFormedPath(path)
    && WellFormedTemplate(template)
    && |path| + |template| < |s|
    && s[..|path|] == path
    && s[|s| - |template|..] == template
    && SpaceBetween(s, |path|, |s| - |template|)
  }

  /** Stripping a declaration line keeps its leading `/`. */
  lemma StripDeclaration(line: string)
    requires IsDeclaration(line)
    ensures |Strip(line)| > 0 && Strip(line)[0] == '/'
    ensures NoTrailingSpace(Strip(line))
    ensures LStrip(Strip(line)) == Strip(line)
  {
    StripSpec(line);
    assert LeadingSpace(line) == 0;
    assert line[|line| - 1] == line[|line| - 1];
  }

  /** The two fields of a stripped string that starts with `/` are a
      declaration's path and template. */
  lemma TwoFields(s: string)
    requires |s| > 0 && s[0] == '/' && NoTrailingSpace(s) && |SplitToken(s)| == 2
    ensures !NoSpace(s)
    ensures DeclarationFields(s, SplitToken(s)[0], SplitToken(s)[1])
  {
    SplitTokenSpec(s);
    var fields := SplitToken(s);
    var n := |fields[0]|;
    assert IsSpace(s[n]);
    assert s[|s| - 1] == fields[1][|fields[1]| - 1];
    assert fields[0][0] == s[0];
  }

  /** A stripped string that starts with `/` splits into two fields exactly
      when it holds whitespace. */
  lemma SplitStripped(s: string)
    requires |s| > 0 && s[0] == '/' && NoTrailingSpace(s) && LStrip(s) == s
    ensures |SplitOnce(s)| == 2 <==> !NoSpace(s)
    ensures |SplitOnce(s)| == 2 ==> DeclarationFields(s, SplitOnce(s)[0], SplitOnce(s)[1])
  {
    assert SplitOnce(s) == SplitToken(s);
    if |SplitToken(s)| == 2 {
      TwoFields(s);
    } else {
      OneField(s);
    }
  }

  /** A stripped string that does not split in two is a single token. */
  lemma OneField(s: string)
    requires |s| > 0 && NoLeadingSpace(s) && NoTrailingSpace(s) && |SplitToken(s)| != 2
    ensures NoSpace(s)
  {
    SplitTokenSpec(s);
    assert s == SplitToken(s)[0];
  }

  /** `path, tmpl = line.strip().split(None, 1)` on a declaration line. */
  function SplitDeclaration(line: string): (r: Result<(string, string), ConfigError>)
    requires IsDeclaration(line)
  {
    var fields := SplitOnce(Strip(line));
    if |fields| == 2 then Success((fields[0], fields[1]))
    else Failure(MalformedDeclaration(line))
  }

  /** The unpacking of a declaration's fields fails exactly when the
      stripped line holds no whitespace, that is, when it is a single field;
      otherwise the path is the first token of the stripped line and the
      template is the rest after the whitespace run that ends it. */
  lemma SplitDeclarationSpec(line: string)
    requires IsDeclaration(line)
    ensures SplitDeclaration(line).Success? <==> !NoSpace(Strip(line))
    ensures SplitDeclaration(line).Success? ==>
      DeclarationFields(Strip(line), SplitDeclaration(line).value.0, SplitDeclaration(line).value.1)
  {
    DeclarationSucceeds(line);
    DeclarationFieldsHold(line);
  }

  lemma DeclarationSucceeds(line: string)
    requires IsDeclaration(line)
    ensures SplitDeclaration(line).Success? <==> !NoSpace(Strip(line))
  {
    StripDeclaration(line);
    SplitStripped(Strip(line));
  }

  lemma DeclarationFieldsHold(line: string)
    requires IsDeclaration(line)
    ensures SplitDeclaration(line).Success? ==>
      DeclarationFields(Strip(line), SplitDeclaration(line).value.0, SplitDeclaration(line).value.1)
  {
    StripDeclaration(line);
    SplitStripped(Strip(line));
  }

  /** What one line of the configuration means to the parser. */
  datatype LineKind =
    | Declares(path: string, template: string)  // a route declaration
    | Malformed(line: string)                   // a declaration with one field
    | Indented(text: string, line: string)      // a block line and its stripped text
    | Skipped                                   // any other line

  /** The branch of the loop body a line takes, with the string work that
      branch does on it. */
  function Classify(line: string): (k: LineKind)
    ensures k.Declares? || k.Malformed? <==> IsDeclaration(line)
    ensures k.Malformed? ==> k.line == line
    ensures k.Indented? <==> IsBlockLine(line)
    ensures k.Indented? ==> k.text == LStrip(line) && k.line == line
    ensures k.Skipped? <==> IsIgnored(line)
  {
    if IsDeclaration(line) then
      var r := SplitDeclaration(line);
      if r.Success? then Declares(r.value.0, r.value.1) else Malformed(line)
    else if IsBlockLine(line) then
      Indented(LStrip(line), line)
    else
      Skipped
  }

  /** A declaration line is a route declaration exactly when its stripped
      text holds whitespace, and then its path and template are the two
      fields of the stripped text. */
  lemma ClassifyDeclaration(line: string)
    requires IsDeclaration(line)
    ensures Classify(line).Declares? <==> !NoSpace(Strip(line))
    ensures Classify(line).Declares? ==>
      DeclarationFields(Strip(line), Classify(line).path, Classify(line).template)
  {
    SplitDeclarationSpec(line);
  }

  /** The classification of every line, in order. */
  function Kinds(lines: seq<string>): (ks: seq<LineKind>)
    ensures |ks| == |lines|
  {
    if |lines| == 0 then []
    else Kinds(lines[..|lines| - 1]) + [Classify(lines[|lines| - 1])]
  }

  /** The loop state of `_parse_config`: the routes built so far and the
      index of `cur_route` among them, `None` before the first
      declaration. */
  datatype State = State(routes: seq<Route>, current: Option<nat>)

  const Start := State([], None)

  /** `cur_route` is always an alias of the last route appended. */
  predicate Valid(st: State) {
    if |st.routes| == 0 then st.current == None
    else st.current == Some(|st.routes| - 1)
  }

  /** One iteration of the loop body on a classified line. A block line is
      appended to the block of `cur_route`, which is the last route. */
  function Step(st: State, k: LineKind): (r: Result<State, ConfigError>)
    requires Valid(st)
    ensures r.Success? ==> Valid(r.value)
  {
    match k
    case Declares(path, template) =>
      Success(State(st.routes + [Route(path, template, [])], Some(|st.routes|)))
    case Malformed(line) =>
      Failure(MalformedDeclaration(line))
    case Indented(text, line) =>
      (match st.current
       case None => Failure(OrphanBlockLine(line))
       case Some(i) =>
         var cur := st.routes[i];
         Success(State(st.routes[i := cur.(block := cur.block + [text])], st.current)))
    case Skipped =>
      Success(st)
  }

  /** The loop run from state `st` over classified lines; the first failing
      line ends it. */
  function Exec(st: State, ks: seq<LineKind>): (r: Result<State, ConfigError>)
    requires Valid(st)
    ensures r.Success? ==> Valid(r.value) && |st.routes| <= |r.value.routes|
    decreases |ks|
  {
    if |ks| == 0 then Success(st)
    else
      match Step(st, ks[0])
      case Failure(e) => Failure(e)
      case Success(next) => Exec(next, ks[1..])
  }

  /** `_parse_config` on the lines of a configuration file, each with its
      line terminator. */
  function Parse(lines: seq<string>): (r: Result<seq<Route>, ConfigError>) {
    match Exec(Start, Kinds(lines))
    case Failure(e) => Failure(e)
    case Success(st) => Success(st.routes)
  }
}
