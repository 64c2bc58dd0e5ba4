/** Option, and the few string operations of the source language that the models share. */
module Text {

  datatype Option<+T> = None | Some(value: T)

  /** A failure-carrying result, for operations that raise. */
  datatype Result<+T, +E> = Ok(value: T) | Err(error: E)

  /** The characters `str.splitlines` treats as line boundaries. */
  predicate IsBreak(c: char) {
    || '\n' <= c <= '\r'
    || '\U{1C}' <= c <= '\U{1E}'
    || c == '\U{85}'
    || '\U{2028}' <= c <= '\U{2029}'
  }

  /** The characters `str.strip` removes: every line boundary and the other Unicode spaces. */
  predicate IsSpace(c: char) {
    || IsBreak(c)
    || c == '\t' || c == '\U{1F}' || c == ' ' || c == '\U{A0}' || c == '\U{1680}'
    || '\U{2000}' <= c <= '\U{200A}'
    || c == '\U{202F}' || c == '\U{205F}' || c == '\U{3000}'
  }

  function FirstBreak(s: string): (i: nat)
    ensures i <= |s|
    ensures i < |s| ==> IsBreak(s[i])
    ensures forall j :: 0 <= j < i ==> !IsBreak(s[j])
  {
    FirstBreakFrom(s, 0)
  }

  function FirstBreakFrom(s: string, n: nat): (i: nat)
    requires n <= |s|
    ensures n <= i <= |s|
    ensures i < |s| ==> IsBreak(s[i])
    ensures forall j :: n <= j < i ==> !IsBreak(s[j])
    decreases |s| - n
  {
    if n == |s| || IsBreak(s[n]) then n else FirstBreakFrom(s, n + 1)
  }

  /** CR LF counts as a single boundary. */
  function BreakLength(s: string, i: nat): (n: nat)
    requires i < |s|
    ensures 1 <= n && i + n <= |s|
  {
    if s[i] == '\r' && i + 1 < |s| && s[i + 1] == '\n' then 2 else 1
  }

  /** `str.splitlines()`: no trailing empty line for a final boundary. */
  function SplitLines(s: string): seq<string>
    decreases |s|
  {
    if s == "" then []
    else
      var i := FirstBreak(s);
      if i == |s| then [s] else [s[..i]] + SplitLines(s[i + BreakLength(s, i)..])
  }

  predicate OneLine(text: string) {
    forall i | 0 <= i < |text| :: !IsBreak(text[i])
  }

  lemma OneLineText(text: string)
    requires text != "" && OneLine(text)
    ensures SplitLines(text) == [text]
  {
  }

  predicate StartsWith(s: string, prefix: string) {
    |prefix| <= |s| && s[..|prefix|] == prefix
  }

  function LStrip(s: string): string {
    if s != "" && IsSpace(s[0]) then LStrip(s[1..]) else s
  }

  function RStrip(s: string): string {
    if s != "" && IsSpace(s[|s| - 1]) then RStrip(s[..|s| - 1]) else s
  }

  function Strip(s: string): string {
    RStrip(LStrip(s))
  }

  function Join(lines: seq<string>, separator: string): string {
    if |lines| == 0 then ""
    else if |lines| == 1 then lines[0]
    else lines[0] + separator + Join(lines[1..], separator)
  }

  lemma Pick<T>(s: set<T>) returns (x: T)
    requires s != {}
    ensures x in s
  {
    x :| x in s;
  }

  // ---- what the operations are ---------------------------------------------------------

  /** The line boundaries, one by one. */
  lemma BreaksAre(c: char)
    ensures IsBreak(c)
       <==> c in {'\n', '\U{B}', '\U{C}', '\r', '\U{1C}', '\U{1D}', '\U{1E}', '\U{85}', '\U{2028}', '\U{2029}'}
  {
  }

  /** The spaces that are no line boundaries, one by one. */
  lemma SpacesAre(c: char)
    ensures IsSpace(c) && !IsBreak(c)
       <==> c in {'\t', '\U{1F}', ' ', '\U{A0}', '\U{1680}', '\U{2000}', '\U{2001}', '\U{2002}', '\U{2003}', '\U{2004}',
                  '\U{2005}', '\U{2006}', '\U{2007}', '\U{2008}', '\U{2009}', '\U{200A}', '\U{202F}', '\U{205F}',
                  '\U{3000}'}
  {
  }

  predicate AllSpace(s: string) {
    forall i | 0 <= i < |s| :: IsSpace(s[i])
  }

  lemma {:induction false} LStripIs(s: string) returns (left: string)
    ensures s == left + LStrip(s) && AllSpace(left) && (LStrip(s) != "" ==> !IsSpace(LStrip(s)[0]))
  {
    left := "";
    if s != "" && IsSpace(s[0]) {
      var more := LStripIs(s[1..]);
      left := [s[0]] + more;
      assert s == [s[0]] + s[1..];
    }
  }

  lemma {:induction false} RStripIs(s: string) returns (right: string)
    ensures s == RStrip(s) + right && AllSpace(right)
    ensures RStrip(s) != "" ==> !IsSpace(RStrip(s)[|RStrip(s)| - 1]) && RStrip(s)[0] == s[0]
  {
    right := "";
    if s != "" && IsSpace(s[|s| - 1]) {
      var more := RStripIs(s[..|s| - 1]);
      right := more + [s[|s| - 1]];
      assert s == s[..|s| - 1] + [s[|s| - 1]];
    }
  }

  /** Stripping takes away spaces at both ends, and all of them. */
  lemma StripIs(s: string) returns (left: string, right: string)
    ensures s == left + Strip(s) + right && AllSpace(left) && AllSpace(right)
    ensures Strip(s) != "" ==> !IsSpace(Strip(s)[0]) && !IsSpace(Strip(s)[|Strip(s)| - 1])
  {
    left := LStripIs(s);
    right := RStripIs(LStrip(s));
  }
}
