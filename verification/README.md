# stapler: route configuration and output paths, in Dafny

stapler is a small static-site builder. A configuration file lists routes,
one per line, each followed by an indented block of script lines:

    / home.html
        x = 1
    /blog/ list.html

For each route it renders a Jinja2 template into a file below `_out/`.
This project models the two pieces of that program that are plain logic.
It proves what they compute.

- **The configuration parser** `_parse_config` (stapler.py:9-28).
  - A line starting with `/` is stripped and split once at whitespace into
    a route path and a template name. A declaration with a single field
    raises.
  - A line starting with a space or a tab is appended, without its leading
    whitespace, to the block of the route declared last. Before any
    declaration it raises.
  - Every other line is ignored.
- **The output-path rule** inside `Site.render` (stapler.py:45-57).
  - A route path ending in `/` gets `index.html` appended.
  - Then one leading `/` is dropped.
  - The result is joined onto the output directory with `os.path.join`.

## Modules

- `wrappers.dfy`, module `Wrappers`: `Option` (Python's `None`) and `Result`
  (a call that returns or raises).
- `pytext.dfy`, module `PyText`: Python 2's `str.lstrip()`, `str.strip()` and
  `str.split(None, 1)` over the whitespace set space, tab, `\n`, `\r`, `\v`,
  `\f`. Each operation is a function followed by a lemma stating what it
  computes.
- `pyfile.dfy`, module `PyFile`: `for line in f` over a file opened for
  reading. The text is cut after every `\n`, each line keeps its `\n`, and
  a last line without one is yielded as it is.
- `config.dfy`, module `Config`: the `Route` record and the parser.
  - `Classify` says which branch of the loop body a line takes.
  - `Step` is one iteration, with `cur_route` as an index into the route
    list.
  - `Exec` is the loop; `Parse` is `_parse_config`.
- `config_facts.dfy`, module `ConfigFacts`: the parser's properties.
  - What one more line does.
  - An independent description of the result: the k-th declaration and the
    block lines attached to it.
  - Exactly which inputs fail, and with which error.
  - Ignored lines change nothing.
  - The shape of what is returned.
  - A printer that the parser inverts, over line sequences.
- `config_loop.dfy`, module `ConfigLoop`: the parser as the imperative loop
  of the source, proved equal to `Config.Parse`.
- `config_text.dfy`, module `ConfigText`: the printer and the parser over
  file text. It says which routes the lines of a file can produce. Writing
  those routes out as a file and reading that file back gives them again.
- `output.dfy`, module `Output`: `OutPath`, POSIX `os.path.join`, and the
  render loop's choice of output files.

## Behaviour worth knowing

- **Block lines need not be adjacent.** An indented line joins the block of
  the route declared last, even when blank or comment lines come in between
  (`ConfigFacts.ParseSkipsIgnored`).
- **Block lines keep their line terminator.** Only leading whitespace is
  removed (stapler.py:26). An all-whitespace indented line, terminator
  included, becomes an empty entry.
- **The template field keeps inner whitespace.** It is the rest of the
  stripped line after the first whitespace run, so `/a b c` has template
  `b c`.
- **Both failures are `ValueError`s; only one has no message.**
  - A declaration with a single field fails when `path, tmpl` is unpacked
    (stapler.py:17). Python 2 raises a `ValueError` with the message "need
    more than 1 value to unpack".
  - An indented line before any declaration raises a `ValueError()` with no
    message (stapler.py:23-24).
  - The model tells the two apart (`MalformedDeclaration`,
    `OrphanBlockLine`) and keeps the offending line with each. It does not
    model the message text.
- **The block is never evaluated.** `tmpl.generate()` is called with no
  arguments (stapler.py:56), so a route's block is parsed and then unused.
- **A path starting with `//` bypasses the output directory.** Exactly one
  leading `/` is stripped (stapler.py:50-51), so the output name stays
  absolute. `os.path.join` then discards the output directory, and the page
  is written to that absolute name, wherever it points
  (`Output.OutFileEscapes`).

## Model

| member | source | states |
|---|---|---|
| PyText.LStrip | stapler.py:26 | `str.lstrip()`. Its contract is stated by PyText.LStripSpec |
| PyText.LStripSpec | stapler.py:26 | `lstrip()` removes exactly the leading whitespace run: the result is a suffix of the line that does not start with whitespace, and everything before it is whitespace |
| PyText.Strip | stapler.py:16 | `str.strip()`. Its contract is stated by PyText.StripSpec |
| PyText.StripSpec | stapler.py:16 | `strip()` keeps the slice between a whitespace prefix and a whitespace suffix, and the slice neither starts nor ends with whitespace |
| PyText.SplitOnce | stapler.py:17 | `str.split(None, 1)`. Its contract is stated by PyText.SplitOnceSpec and PyText.SplitTokenSpec |
| PyText.SplitTokenSpec | stapler.py:17 | `split(None, 1)` on a string not starting with whitespace: the first field is its leading token, with no whitespace. The second field exists unless only whitespace follows the token; it starts after the whitespace run and runs to the end |
| PyText.SplitOnceSpec | stapler.py:17 | `split(None, 1)` finds no field exactly when the string is all whitespace; otherwise it finds the fields of the string without its leading whitespace |
| Config.SplitDeclaration | stapler.py:16-17 | `path, tmpl = line.strip().split(None, 1)`, raising when there are fewer than two fields. Its contract is stated by Config.SplitDeclarationSpec |
| Config.SplitDeclarationSpec | stapler.py:16-17 | unpacking `path, tmpl` succeeds exactly when the stripped declaration holds whitespace. Then the path is its first token and the template is the rest after the whitespace run |
| Config.Classify | stapler.py:14-26 | a line takes the declaration branch iff it starts with `/`, the block branch iff it starts with a space or tab, and no branch otherwise. A block line carries its `lstrip()`-ed text |
| Config.ClassifyDeclaration | stapler.py:14-19 | a `/` line declares a route iff its stripped text holds whitespace, and the route's path and template are that text's two fields |
| Config.Step | stapler.py:14-26 | after every successful iteration, `cur_route` is the last route appended, and `None` only while there are none |
| Config.Exec | stapler.py:13-26 | the loop over classified lines, stopping at the first that raises. A successful run keeps `cur_route` aliasing the last route and never loses a route. What it returns is stated by ConfigFacts.ParseReference and ConfigFacts.ParseFaults |
| Config.Parse | stapler.py:9-28 | `_parse_config` on the lines a file yields. Its contract is stated by ConfigFacts.ParseReference (which routes, in which order, with which blocks), ConfigFacts.ParseFaults (when it raises, and with which line) and ConfigFacts.ParseWellFormed (the shape of each route) |
| ConfigFacts.ParseAfterFailure | stapler.py:17-24 | once a line has raised, by the unpacking on line 17 or the raise on line 24, reading further lines keeps that error |
| ConfigFacts.ParseAfterIgnored | stapler.py:13-26 | a line starting with none of `/`, space, tab leaves the result unchanged |
| ConfigFacts.ParseAfterDeclaration | stapler.py:14-19 | a declaration appends exactly one route, with an empty block, and leaves the earlier routes unchanged. Its path and template are the stripped line's two fields; with one field the parse fails with that line |
| ConfigFacts.ParseAfterBlockLine | stapler.py:21-26 | a block line extends only the last route's block, by its `lstrip()`-ed text; before any route it fails with that line |
| ConfigFacts.ParseReference | stapler.py:13-28 | on success there is one route per `/` line, in order. Route k is the k-th declaration's path and template, and its block is exactly the block lines whose nearest preceding declaration is the k-th, stripped, in input order |
| ConfigFacts.ParseFaults | stapler.py:14-24 | the parse succeeds iff no line is faulty: no one-field declaration, and no block line before the first declaration. On failure the error is the one the first faulty line raises |
| ConfigFacts.ParseIgnoresIrrelevant | stapler.py:13-28 | deleting every line that starts with none of `/`, space, tab gives the same result, errors included |
| ConfigFacts.ParseSkipsIgnored | stapler.py:13-28 | deleting any single ignored line, anywhere, gives the same result |
| ConfigFacts.ParseWellFormed | stapler.py:16-26 | every returned path starts with `/` and holds no whitespace; every template is non-empty without leading or trailing whitespace; no block line starts with whitespace |
| ConfigFacts.FieldsUnique | stapler.py:17 | a stripped declaration splits into path, whitespace and template in only one way |
| ConfigFacts.DeclarationRoundTrip | stapler.py:16-18 | a well-formed path and template, printed as `path template\n`, are read back as exactly that declaration |
| ConfigFacts.ParseUnparse | stapler.py:9-28 | printing well-formed routes as a line sequence (each declaration, then its block entries indented by four spaces, an empty entry as an indented empty line) and parsing those lines gives the routes back |
| ConfigFacts.ReparseIsIdentity | stapler.py:9-28 | for any input line sequence that parses, printing the result as lines and parsing those lines gives the same result |
| ConfigLoop.ReadLine | stapler.py:14-26 | the loop body, written with the source's branches, computes the functional step on the line's class |
| ConfigLoop.ParseConfig | stapler.py:9-28 | the imperative loop with an early exit on the first raise returns exactly `Config.Parse`. It fails iff some line is faulty, and on success returns one route per declaration line |
| PyFile.Lines | stapler.py:13 | `for line in f` over the file's text. Its contract is stated by PyFile.LinesAreFileLines, PyFile.ConcatLines and PyFile.LinesConcat, which together determine it |
| PyFile.LineEnd | stapler.py:13 | a line of a file ends just after the first `\n` from its start, or at the end of the text, and holds no `\n` before that |
| PyFile.LinesAreFileLines | stapler.py:13 | `for line in f` yields non-empty lines with a `\n` at most at the end; only the last line may lack one |
| PyFile.ConcatLines | stapler.py:13 | the lines a file yields, joined, are the file's text: nothing is dropped or added |
| PyFile.LinesConcat | stapler.py:13 | writing lines of that shape to a file and iterating over it yields exactly those lines |
| ConfigText.StepFromFile | stapler.py:14-26 | one loop step on a line of a file keeps the routes ones a file can produce: a template has no newline, a block entry has one only at its end, and only the entry from an unterminated line lacks one |
| ConfigText.ParseTextFromFile | stapler.py:32-33 | parsing any file text returns routes in which only the very last block entry of the last route can lack a terminator, and no template or entry holds an inner newline |
| ConfigText.TextRoundTrip | stapler.py:13-28 | well-formed routes a file can produce, printed, written as one text and parsed from that text's lines, come back unchanged |
| ConfigText.TextReparse | stapler.py:32-33 | parsing a configuration file, printing the result to a new file and parsing that file gives the same routes |
| ConfigText.EmptyEntryExample | stapler.py:21-26 | the route `/a t` with an empty block entry and the entry `x\n` prints as the text `/a t\n    \n    x\n`, which parses back to that route, the empty entry included |
| Output.OutPath | stapler.py:47-51 | the output name of a route path. Its contract is stated by Output.OutPathShape, Output.OutPathIsFile and Output.OutPathCollisions |
| Output.OutPathShape | stapler.py:47-51 | the output name is as long as the path, plus 10 when the path ends with `/`, minus 1 when it starts with `/`. Every other character of the path is kept in place, and `index.html` follows when the path ends with `/` |
| Output.OutPathExamples | stapler.py:47-51 | `/` gives `index.html`, `/blog/` gives `blog/index.html`, `/about` gives `about` |
| Output.OutPathIsFile | stapler.py:48-51 | no output name ends with `/` |
| Output.OutPathDropsOneSlash | stapler.py:50-51 | only one leading `/` is removed: a path starting with `//` gives a name starting with `/` |
| Output.OutPathOfRoute | stapler.py:47-51 | the route `/` + name produces the output name itself, for every non-empty name not ending in `/` |
| Output.OutPathCollisions | stapler.py:47-51 | two route paths map to the same output name only if they are equal or are `d/` and `d/index.html` |
| Output.DirectoryAndIndexCollide | stapler.py:48-51 | `d/` and `d/index.html` do map to the same output name |
| Output.OutPathRelative | stapler.py:50-52 | unless the path starts with `//`, the output name is relative |
| Output.Join | stapler.py:52 | POSIX `os.path.join` of two parts. What it does to an output name is stated by Output.OutFileInside and Output.OutFileEscapes |
| Output.OutFile | stapler.py:47-52 | the file a route is written to. Output.OutFileInside and Output.OutFileEscapes state where it lies relative to the output directory |
| Output.OutFileInside | stapler.py:47-52 | with an output directory not ending in `/`, a route whose path does not start with `//` is written to `outdir/` + its output name |
| Output.OutFileEscapes | stapler.py:50-52 | for a route whose path starts with `//` the output directory is discarded: the file is the absolute name the path leaves after one `/` is dropped, wherever that points |
| Output.Render | stapler.py:45-57 | the render loop writes, in route order, the output file of every route whose template exists. It stops at the first missing template, which it reports, and nothing after that route is written |

## Left out

- Template lookup and rendering (stapler.py:37-39, 46, 56-57) belong to
  Jinja2's sandboxed environment, which is not part of this model. A
  template's existence is a parameter of `Output.Render`, the set of
  template names that resolve. Rendered content is not modelled.
- File and directory I/O is not modelled:
  - opening the configuration (stapler.py:32). The file's contents are a
    string parameter of `PyFile.Lines`. The file is opened in plain text
    mode, so on POSIX lines end only at `\n`; a `\r` is an ordinary
    character of the line;
  - creating `_out` (stapler.py:42-43);
  - opening and writing each output file (stapler.py:55-57).
  `Output.Render` returns the list of files it would write. A later route
  with the same output file overwrites an earlier one.
- `os.path.abspath` and `os.path.dirname` (stapler.py:34-35) are left out.
  The output directory is a parameter; only the two-argument POSIX
  `os.path.join` used on stapler.py:52 is modelled.
- The debug `print` (stapler.py:53) and the command-line entry point
  (stapler.py:59-61) are left out.
- Output.Render: a missing template is the only failure modelled. Errors
  raised while rendering or writing are Jinja2 or OS behaviour and are not
  part of this model. A common case of such an error: only `_out` itself is
  created (stapler.py:42-43). The route `/blog/` is written to
  `_out/blog/index.html`, and on a fresh build `open` fails on it
  (stapler.py:55) because `_out/blog` does not exist. `Output.Render` still
  lists that file as written.
- ParseUnparse: stated over line sequences. The printed lines are read back
  as text by `ConfigText.TextRoundTrip`, which needs the routes to be ones a
  file can produce. A template or block entry with a newline inside, or an
  unterminated entry that is not the last line, cannot be written to a file
  as the same lines.
- ReparseIsIdentity: stated over line sequences; `ConfigText.TextReparse`
  states it for the text of a configuration file.
