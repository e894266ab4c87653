/** Iterating over a Python 2 file opened for reading (`for line in f`):
    the text is cut after every newline, each line keeps its `\n`, and a
    last line without one is yielded as it is. */
module PyFile {

  /** `s` ends with a line terminator (the empty string included). */
  predicate Terminated(s: string) {
    |s| == 0 || s[|s| - 1] == '\n'
  }

  /** No `\n` in `s` except possibly as its last character. */
  predicate OneLine(s: string) {
    forall i :: 0 <= i < |s| - 1 ==> s[i] != '\n'
  }

  /** `s` holds no `\n` at all. */
  predicate NoNewline(s: string) {
    forall i :: 0 <= i < |s| ==> s[i] != '\n'
  }

  /** A line as file iteration yields it: non-empty, with a newline at
      most at its end. */
  predicate IsLine(s: string) {
    |s| > 0 && OneLine(s)
  }

  /** A sequence of lines some file yields: every one is a line, and
      every one but the last is terminated. */
  predicate IsFileLines(ls: seq<string>) {
    forall i :: 0 <= i < |ls| ==> IsLine(ls[i]) && (i < |ls| - 1 ==> Terminated(ls[i]))
  }

  /** Where the line that starts at position `i` of `text` ends: just after
      the first `\n` from `i` on, or at the end of the text. */
  function LineEnd(text: string, i: nat): (j: nat)
    requires i < |text|
    ensures i < j <= |text|
    ensures forall p :: i <= p < j - 1 ==> text[p] != '\n'
    ensures j == |text| || text[j - 1] == '\n'
    decreases |text| - i
  {
    if text[i] == '\n' || i + 1 == |text| then i + 1 else LineEnd(text, i + 1)
  }

  /** The lines `for line in f` yields for a file holding `text`. */
  function Lines(text: string): (ls: seq<string>)
    decreases |text|
  {
    if |text| == 0 then []
    else
      var n := LineEnd(text, 0);
      [text[..n]] + Lines(text[n..])
  }

  /** The text of a file written line by line. */
  function Concat(ls: seq<string>): (text: string) {
    if |ls| == 0 then "" else ls[0] + Concat(ls[1..])
  }

  /** Reading a file back gives exactly the lines written to it, when those
      are lines a file can yield. */
  lemma {:induction false} LinesConcat(ls: seq<string>)
    requires IsFileLines(ls)
    ensures Lines(Concat(ls)) == ls
    decreases |ls|
  {
    if |ls| > 0 {
      var text := Concat(ls);
      var rest := Concat(ls[1..]);
      var n := |ls[0]|;
      assert text == ls[0] + rest;
      assert LineEnd(text, 0) == n by {
        LineEndAt(text, 0, n);
      }
      assert text[..n] == ls[0];
      assert text[n..] == rest;
      LinesConcat(ls[1..]);
    }
  }

  /** The line starting at `i` ends at `n` when no newline comes before
      position `n - 1` and the line is terminated or the text ends there. */
  lemma {:induction false} LineEndAt(text: string, i: nat, n: nat)
    requires i < n <= |text|
    requires forall p :: i <= p < n - 1 ==> text[p] != '\n'
    requires n == |text| || text[n - 1] == '\n'
    ensures LineEnd(text, i) == n
    decreases n - i
  {
    if !(text[i] == '\n' || i + 1 == |text|) {
      LineEndAt(text, i + 1, n);
    }
  }

  /** Every text is the concatenation of its lines. */
  lemma {:induction false} ConcatLines(text: string)
    ensures Concat(Lines(text)) == text
    decreases |text|
  {
    if |text| > 0 {
      var n := LineEnd(text, 0);
      ConcatLines(text[n..]);
      assert Lines(text)[1..] == Lines(text[n..]);
      assert text[..n] + text[n..] == text;
    }
  }

  /** What a file yields are lines: non-empty, a newline only at the end,
      and only the last one possibly unterminated. */
  lemma {:induction false} LinesAreFileLines(text: string)
    ensures IsFileLines(Lines(text))
    decreases |text|
  {
    if |text| > 0 {
      var n := LineEnd(text, 0);
      var ls := Lines(text);
      LinesAreFileLines(text[n..]);
      assert ls[1..] == Lines(text[n..]);
      assert IsLine(ls[0]) by {
        assert forall p :: 0 <= p < n - 1 ==> ls[0][p] == text[p];
      }
      assert |ls| > 1 ==> Terminated(ls[0]);
      forall i | 1 <= i < |ls|
        ensures IsLine(ls[i]) && (i < |ls| - 1 ==> Terminated(ls[i]))
      {
        assert ls[i] == ls[1..][i - 1];
      }
    }
  }

  /** Lines a file yields, followed by more, are still lines a file yields
      when the first group ends with a terminated line. */
  lemma FileLinesAppend(a: seq<string>, b: seq<string>)
    requires IsFileLines(a) && IsFileLines(b)
    requires |a| == 0 || |b| == 0 || Terminated(a[|a| - 1])
    ensures IsFileLines(a + b)
  {
    forall i | 0 <= i < |a + b|
      ensures IsLine((a + b)[i]) && (i < |a + b| - 1 ==> Terminated((a + b)[i]))
    {
      if i < |a| {
        assert (a + b)[i] == a[i];
      } else {
        assert (a + b)[i] == b[i - |a|];
      }
    }
  }
}
