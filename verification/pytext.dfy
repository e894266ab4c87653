/** The three Python 2 string operations the configuration parser relies on:
    `str.lstrip()`, `str.strip()` and `str.split(None, 1)`, all with their
    default (whitespace) argument.

    The operations are plain functions; what each one computes is stated
    by the lemma that follows it, which callers invoke where they need it. */
module PyText {

  /** Python 2's whitespace set for byte strings: space, tab, newline,
      carriage return, vertical tab and form feed. */
  predicate IsSpace(c: char) {
    c == ' ' || c == '\t' || c == '\n' || c == '\r' || c == '\U{000B}' || c == '\U{000C}'
  }

  /** Every character of `s` at a position in [a, b) is whitespace. */
  predicate SpaceBetween(s: string, a: nat, b: nat)
    requires a <= b <= |s|
  {
    forall i :: a <= i < b ==> IsSpace(s[i])
  }

  /** No character of `s` at a position in [a, b) is whitespace. */
  predicate NoSpaceBetween(s: string, a: nat, b: nat)
    requires a <= b <= |s|
  {
    forall i :: a <= i < b ==> !IsSpace(s[i])
  }

  predicate AllSpace(s: string) {
    SpaceBetween(s, 0, |s|)
  }

  predicate NoSpace(s: string) {
    NoSpaceBetween(s, 0, |s|)
  }

  /** `s` does not begin with whitespace (the empty string included). */
  predicate NoLeadingSpace(s: string) {
    |s| == 0 || !IsSpace(s[0])
  }

  /** `s` does not end with whitespace (the empty string included). */
  predicate NoTrailingSpace(s: string) {
    |s| == 0 || !IsSpace(s[|s| - 1])
  }

  /** Where the whitespace run that starts at position `i` of `s` ends. */
  function SpaceRunEnd(s: string, i: nat): (j: nat)
    requires i <= |s|
    ensures i <= j <= |s|
    ensures SpaceBetween(s, i, j)
    ensures j == |s| || !IsSpace(s[j])
    decreases |s| - i
  {
    if i == |s| || !IsSpace(s[i]) then i else SpaceRunEnd(s, i + 1)
  }

  /** Where the whitespace run that ends just before position `j` of `s`
      starts. */
  function SpaceRunStart(s: string, j: nat): (i: nat)
    requires j <= |s|
    ensures i <= j
    ensures SpaceBetween(s, i, j)
    ensures i == 0 || !IsSpace(s[i - 1])
  {
    if j == 0 || !IsSpace(s[j - 1]) then j else SpaceRunStart(s, j - 1)
  }

  /** Where the token (run of non-whitespace characters) that starts at
      position `i` of `s` ends. */
  function TokenEnd(s: string, i: nat): (j: nat)
    requires i <= |s|
    ensures i <= j <= |s|
    ensures NoSpaceBetween(s, i, j)
    ensures j == |s| || IsSpace(s[j])
    decreases |s| - i
  {
    if i == |s| || IsSpace(s[i]) then i else TokenEnd(s, i + 1)
  }

  /** Length of the whitespace run at the start of `s`. */
  function LeadingSpace(s: string): (n: nat) {
    SpaceRunEnd(s, 0)
  }

  /** `str.lstrip()`. */
  function LStrip(s: string): (r: string) {
    s[LeadingSpace(s)..]
  }

  /** `str.lstrip()` removes exactly the whitespace run `s` starts with:
      what it keeps is a suffix of `s` that does not start with whitespace,
      and everything before it is whitespace. */
  lemma LStripSpec(s: string)
    ensures |LStrip(s)| <= |s| && LStrip(s) == s[|s| - |LStrip(s)|..]
    ensures SpaceBetween(s, 0, |s| - |LStrip(s)|)
    ensures NoLeadingSpace(LStrip(s))
  {
  }

  /** `str.rstrip()`. */
  function RStrip(s: string): (r: string) {
    s[..SpaceRunStart(s, |s|)]
  }

  /** `str.rstrip()` removes exactly the whitespace run `s` ends with: what
      it keeps is a prefix of `s` that does not end with whitespace, and
      everything after it is whitespace. */
  lemma RStripSpec(s: string)
    ensures |RStrip(s)| <= |s| && RStrip(s) == s[..|RStrip(s)|]
    ensures SpaceBetween(s, |RStrip(s)|, |s|)
    ensures NoTrailingSpace(RStrip(s))
  {
  }

  /** `str.strip()`: whitespace removed from both ends. */
  function Strip(s: string): (r: string) {
    RStrip(LStrip(s))
  }

  /** What `str.strip()` keeps is the slice of `s` between a whitespace
      prefix and a whitespace suffix, and it neither starts nor ends with
      whitespace. */
  lemma StripSpec(s: string)
    ensures NoLeadingSpace(Strip(s)) && NoTrailingSpace(Strip(s))
    ensures LeadingSpace(s) + |Strip(s)| <= |s|
    ensures SpaceBetween(s, 0, LeadingSpace(s))
    ensures Strip(s) == s[LeadingSpace(s)..LeadingSpace(s) + |Strip(s)|]
    ensures SpaceBetween(s, LeadingSpace(s) + |Strip(s)|, |s|)
  {
    var a := LeadingSpace(s);
    var t := LStrip(s);
    var r := Strip(s);
    LStripSpec(s);
    RStripSpec(t);
    assert t == s[a..];
    assert r == t[..|r|];
    assert |r| > 0 ==> r[0] == t[0];
    forall i | a + |r| <= i < |s|
      ensures IsSpace(s[i])
    {
      assert s[i] == t[i - a];
    }
  }

  /** The fields `str.split(None, 1)` finds in a non-empty string `t` that
      does not begin with whitespace. */
  function SplitToken(t: string): (fields: seq<string>)
    requires |t| > 0 && NoLeadingSpace(t)
  {
    var n := TokenEnd(t, 0);
    var m := SpaceRunEnd(t, n);
    if m == |t| then [t[..n]] else [t[..n], t[m..]]
  }

  /** The first field is the token `t` starts with; unless only whitespace
      follows it, the second field is everything after the whitespace run
      that ends the token. */
  lemma SplitTokenSpec(t: string)
    requires |t| > 0 && NoLeadingSpace(t)
    ensures var r := SplitToken(t);
      && 1 <= |r| <= 2
      && 0 < |r[0]| <= |t| && r[0] == t[..|r[0]|] && NoSpace(r[0])
      && (|r| == 1 ==> SpaceBetween(t, |r[0]|, |t|))
      && (|r| == 1 && NoTrailingSpace(t) ==> r[0] == t)
      && (|r| == 2 ==>
            && |r[1]| > 0 && NoLeadingSpace(r[1])
            && |r[0]| < |t| - |r[1]|
            && SpaceBetween(t, |r[0]|, |t| - |r[1]|)
            && r[1] == t[|t| - |r[1]|..])
  {
    var n := TokenEnd(t, 0);
    assert forall i :: 0 <= i < n ==> t[..n][i] == t[i];
  }

  /** `str.split(None, 1)`. */
  function SplitOnce(s: string): (fields: seq<string>) {
    var t := LStrip(s);
    if |t| == 0 then [] else SplitToken(t)
  }

  /** `str.split(None, 1)` finds no field in an all-whitespace string, and
      otherwise the fields of what follows the leading whitespace. */
  lemma SplitOnceSpec(s: string)
    ensures |SplitOnce(s)| == 0 <==> AllSpace(s)
    ensures |SplitOnce(s)| > 0 ==> SplitOnce(s) == SplitToken(LStrip(s))
  {
    LStripSpec(s);
  }
}
