/** The round trip: loading the file that the wizard wrote. */
module DotEnvRoundTrip {
  import opened Text
  import opened DotEnv

  // ---- stripping ----------------------------------------------------------------------

  predicate Trimmed(s: string) {
    s == "" || (!IsSpace(s[0]) && !IsSpace(s[|s| - 1]))
  }

  lemma {:induction false} StripTrimmed(s: string)
    ensures Trimmed(Strip(s)) && (Trimmed(s) ==> Strip(s) == s)
    ensures |Strip(s)| <= |s|
  {
    LStripStarts(s);
    RStripEnds(LStrip(s));
  }

  lemma {:induction false} LStripStarts(s: string)
    ensures LStrip(s) != "" ==> !IsSpace(LStrip(s)[0]) && s != "" && LStrip(s)[|LStrip(s)| - 1] == s[|s| - 1]
    ensures |LStrip(s)| <= |s|
  {
    if s != "" && IsSpace(s[0]) {
      LStripStarts(s[1..]);
    }
  }

  lemma {:induction false} RStripEnds(s: string)
    ensures RStrip(s) != "" ==> !IsSpace(RStrip(s)[|RStrip(s)| - 1]) && s != "" && RStrip(s)[0] == s[0]
    ensures |RStrip(s)| <= |s|
  {
    if s != "" && IsSpace(s[|s| - 1]) {
      RStripEnds(s[..|s| - 1]);
    }
  }

  /** When the last character is no space, stripping both sides is stripping the left. */
  lemma StripIsLStrip(s: string)
    requires s != "" && !IsSpace(s[|s| - 1])
    ensures Strip(s) == LStrip(s)
  {
    LStripStarts(s);
    LStripNonEmpty(s);
    assert RStrip(LStrip(s)) == LStrip(s);
  }

  lemma {:induction false} LStripNonEmpty(s: string)
    requires s != "" && !IsSpace(s[|s| - 1])
    ensures LStrip(s) != ""
  {
    if IsSpace(s[0]) {
      LStripNonEmpty(s[1..]);
    }
  }

  lemma {:induction false} LStripSpaces(pad: string, s: string)
    requires forall i | 0 <= i < |pad| :: IsSpace(pad[i])
    ensures LStrip(pad + s) == LStrip(s)
  {
    if pad == "" {
      assert pad + s == s;
    } else {
      assert (pad + s)[1..] == pad[1..] + s;
      LStripSpaces(pad[1..], s);
    }
  }

  lemma {:induction false} LStripDropsSpaces(s: string)
    ensures forall i | 0 <= i < LStripLength(s) :: IsSpace(s[i])
  {
    if s != "" && IsSpace(s[0]) {
      LStripDropsSpaces(s[1..]);
      forall i | 0 <= i < LStripLength(s) ensures IsSpace(s[i]) {
        if i > 0 { assert s[i] == s[1..][i - 1]; }
      }
    }
  }

  // ---- one line ----------------------------------------------------------------------------

  /** A key that can stand before "=": no spaces, no "=" and no "#". */
  predicate PlainKey(k: string) {
    k != "" && forall i | 0 <= i < |k| :: k[i] != '=' && k[i] != '#' && !IsSpace(k[i])
  }

  /** A value that survives the file: one line, trimmed, unquoted, without a comment. */
  ghost predicate SafeValue(v: string) {
    && v != "" && Trimmed(v) && (forall i | 0 <= i < |v| :: !IsBreak(v[i]))
    && !IsQuote(v[0]) && !HasComment(v)
  }

  lemma FirstEqAfter(k: string, rest: string)
    requires forall i | 0 <= i < |k| :: k[i] != '='
    ensures FirstEq(k + "=" + rest) == |k|
  {
    var s := k + "=" + rest;
    assert s[|k|] == '=';
    forall i | 0 <= i < |k| ensures s[i] != '=' { assert s[i] == k[i]; }
  }

  /** What the loader makes of the text behind "=". */
  function ReadValue(quoted: string -> string, v: string): string {
    ParseValue(quoted, Strip(v))
  }

  lemma ReadSafe(quoted: string -> string, v: string)
    requires SafeValue(v)
    ensures ReadValue(quoted, v) == v
  {
    StripTrimmed(v);
    assert v[..FirstComment(v)] == v;
  }

  lemma {:induction false} StripDropsLast(s: string)
    requires s != "" && IsSpace(s[|s| - 1])
    ensures Strip(s) == Strip(s[..|s| - 1])
  {
    var t := s[..|s| - 1];
    if |s| == 1 {
      assert LStrip(s) == LStrip(s[1..]) == "" && t == "";
    } else if IsSpace(s[0]) {
      StripDropsLast(s[1..]);
      assert t[0] == s[0] && t[1..] == s[1..][..|s| - 2];
    } else {
      assert LStrip(s) == s && LStrip(t) == t;
    }
  }

  lemma {:induction false} StripOfRStrip(s: string)
    ensures Strip(RStrip(s)) == Strip(s)
  {
    if s != "" && IsSpace(s[|s| - 1]) {
      StripDropsLast(s);
      StripOfRStrip(s[..|s| - 1]);
    }
  }

  /** Stripping the right of a line stops at its "=". */
  lemma {:induction false} RStripStopsAt(head: string, v: string)
    requires head != "" && !IsSpace(head[|head| - 1])
    ensures RStrip(head + v) == head + RStrip(v)
  {
    var s := head + v;
    if v == "" {
      assert s == head;
    } else if IsSpace(v[|v| - 1]) {
      assert s[..|s| - 1] == head + v[..|v| - 1];
      RStripStopsAt(head, v[..|v| - 1]);
    }
  }

  predicate Spaces(pad: string) {
    forall i | 0 <= i < |pad| :: IsSpace(pad[i])
  }

  lemma BodyBinds(quoted: string -> string, raw: string, k: string, v: string)
    requires PlainKey(k)
    requires Strip(raw) != "" && Strip(raw)[0] != '#' && LoadBody(Strip(raw)) == k + "=" + RStrip(v)
    ensures LoadLine(quoted, raw) == Some(Binding(k, ReadValue(quoted, v)))
  {
    var body := k + "=" + RStrip(v);
    FirstEqAfter(k, RStrip(v));
    assert body[..|k|] == k && body[|k| + 1..] == RStrip(v);
    StripTrimmed(k);
    StripOfRStrip(v);
  }

  lemma NotExport(k: string, v: string)
    requires PlainKey(k)
    ensures !StartsWith(k + "=" + v, EXPORT)
  {
    var s := k + "=" + v;
    assert |k| < |EXPORT| ==> s[|k|] == '=';
    assert |k| >= |EXPORT| ==> s[6] == k[6];
    assert EXPORT[6] == ' ' && IsSpace(' ');
    assert StartsWith(s, EXPORT) ==> forall j | 0 <= j < |EXPORT| :: s[j] == s[..|EXPORT|][j] == EXPORT[j];
  }

  /** A `KEY=value` line binds the key to what is read of the value. */
  lemma PlainLineBinds(quoted: string -> string, k: string, v: string)
    requires PlainKey(k)
    ensures LoadLine(quoted, k + "=" + v) == Some(Binding(k, ReadValue(quoted, v)))
  {
    var raw := k + "=" + v;
    assert raw[0] == k[0] && LStrip(raw) == raw;
    RStripStopsAt(k + "=", v);
    NotExport(k, RStrip(v));
    BodyBinds(quoted, raw, k, v);
  }

  /** So does a line with an `export` prefix, however padded. */
  lemma ExportLineBinds(quoted: string -> string, pad: string, k: string, v: string)
    requires PlainKey(k) && Spaces(pad)
    ensures LoadLine(quoted, EXPORT + pad + k + "=" + v) == Some(Binding(k, ReadValue(quoted, v)))
  {
    var raw := EXPORT + pad + k + "=" + v;
    var body := k + "=" + RStrip(v);
    assert raw[0] == 'e' && LStrip(raw) == raw;
    assert raw == (EXPORT + pad + k + "=") + v;
    RStripStopsAt(EXPORT + pad + k + "=", v);
    var s := Strip(raw);
    assert s == EXPORT + (pad + body);
    assert s[..|EXPORT|] == EXPORT && s[|EXPORT|..] == pad + body;
    RStripEndsPlain(v);
    assert (pad + body)[|pad + body| - 1] == body[|body| - 1];
    StripIsLStrip(pad + body);
    LStripSpaces(pad, body);
    assert body[0] == k[0];
    BodyBinds(quoted, raw, k, v);
  }

  lemma RStripEndsPlain(v: string)
    ensures RStrip(v) != "" ==> !IsSpace(RStrip(v)[|RStrip(v)| - 1])
  {
    RStripEnds(v);
  }

  /** Loader and writer read the same key from every line. */
  lemma SameKey(quoted: string -> string, raw: string)
    ensures match LoadLine(quoted, raw)
            case None => LineKey(raw) == None || LineKey(raw) == Some("")
            case Some(b) => LineKey(raw) == Some(b.key) && b.key != ""
  {
    var s := Strip(raw);
    StripTrimmed(raw);
    if StartsWith(s, EXPORT) {
      assert EXPORT[|EXPORT| - 1] == ' ' && IsSpace(' ');
      assert s[|EXPORT|..] != "";
      assert s[|EXPORT|..][|s| - |EXPORT| - 1] == s[|s| - 1];
      StripIsLStrip(s[|EXPORT|..]);
    }
  }

  lemma PrefixIsPadded(s: string) returns (pad: string)
    requires StartsWith(s, EXPORT)
    ensures Prefix(s) == EXPORT + pad && Spaces(pad)
  {
    var tail := s[|EXPORT|..];
    pad := tail[..LStripLength(tail)];
    LStripDropsSpaces(tail);
    assert s[..|EXPORT| + LStripLength(tail)] == s[..|EXPORT|] + pad;
  }

  /** A rewritten line binds its key to what is read of the new value, `export` or not. */
  lemma RewrittenLineBinds(quoted: string -> string, s: string, k: string, v: string)
    requires PlainKey(k)
    ensures LoadLine(quoted, Prefix(s) + k + "=" + v) == Some(Binding(k, ReadValue(quoted, v)))
  {
    if StartsWith(s, EXPORT) {
      var pad := PrefixIsPadded(s);
      ExportLineBinds(quoted, pad, k, v);
    } else {
      assert "" + k == k;
      PlainLineBinds(quoted, k, v);
    }
  }

  // ---- lines and text ---------------------------------------------------------------------

  lemma FirstBreakIs(s: string, i: nat)
    requires i <= |s| && (forall j | 0 <= j < i :: !IsBreak(s[j])) && (i < |s| ==> IsBreak(s[i]))
    ensures FirstBreak(s) == i
  {
    assert !(FirstBreak(s) < i) && !(i < FirstBreak(s));
  }

  lemma {:induction false} SplitLinesAreLines(s: string)
    ensures forall i | 0 <= i < |SplitLines(s)| :: OneLine(SplitLines(s)[i])
    decreases |s|
  {
    if s != "" {
      var i := FirstBreak(s);
      if i < |s| {
        SplitLinesAreLines(s[i + BreakLength(s, i)..]);
      }
    }
  }

  /** `cut` is one whole line boundary in front of `rest`. */
  predicate IsCut(cut: string, rest: string) {
    || cut == "\r\n"
    || (|cut| == 1 && IsBreak(cut[0]) && !(cut[0] == '\r' && rest != "" && rest[0] == '\n'))
  }

  lemma CutLength(line: string, cut: string, rest: string)
    requires IsCut(cut, rest)
    ensures BreakLength(line + (cut + rest), |line|) == |cut|
  {
    var s, i := line + (cut + rest), |line|;
    assert s[i] == cut[0];
    assert |cut| == 2 ==> s[i + 1] == cut[1];
    assert |cut| == 1 && rest != "" ==> s[i + 1] == rest[0];
  }

  lemma Cut(a: string) returns (line: string, cut: string, rest: string)
    requires FirstBreak(a) < |a|
    ensures a == line + (cut + rest) && OneLine(line) && IsCut(cut, rest) && |rest| < |a|
    ensures |line| == FirstBreak(a)
  {
    var i := FirstBreak(a);
    var n := BreakLength(a, i);
    line, cut, rest := a[..i], a[i..i + n], a[i + n..];
    assert cut[0] == a[i] && (n == 2 ==> cut[1] == a[i + 1]);
    assert rest != "" && n == 1 ==> rest[0] == a[i + 1];
  }

  lemma CutPlace(s: string, line: string, cut: string, rest: string)
    requires s == line + (cut + rest) && OneLine(line) && IsCut(cut, rest)
    ensures FirstBreak(s) == |line|
    ensures s[..|line|] == line && s[|line| + |cut|..] == rest
  {
    assert s[|line|] == cut[0];
    forall j | 0 <= j < |line| ensures !IsBreak(s[j]) { assert s[j] == line[j]; }
    FirstBreakIs(s, |line|);
  }

  /** The first line of a text, and the text behind its boundary. */
  lemma SplitAt(s: string, line: string, cut: string, rest: string)
    requires s == line + (cut + rest) && OneLine(line) && IsCut(cut, rest)
    ensures SplitLines(s) == [line] + SplitLines(rest)
  {
    CutPlace(s, line, cut, rest);
    CutLength(line, cut, rest);
  }

  lemma Regroup(line: string, cut: string, rest: string, b: string)
    ensures (line + (cut + rest)) + b == line + (cut + (rest + b))
  {
  }

  lemma FirstLine(a: string, b: string) returns (line: string, rest: string)
    requires EndsWithNewline(a)
    ensures |rest| < |a| && (rest == "" || EndsWithNewline(rest))
    ensures SplitLines(a) == [line] + SplitLines(rest)
    ensures SplitLines(a + b) == [line] + SplitLines(rest + b)
  {
    assert IsBreak(a[|a| - 1]);
    var cut;
    line, cut, rest := Cut(a);
    CutBeforeMore(line, cut, rest, b);
    Regroup(line, cut, rest, b);
    SplitAt(a, line, cut, rest);
    SplitAt(a + b, line, cut, rest + b);
  }

  lemma CutBeforeMore(line: string, cut: string, rest: string, b: string)
    requires IsCut(cut, rest) && EndsWithNewline(line + (cut + rest))
    ensures IsCut(cut, rest + b) && (rest == "" || EndsWithNewline(rest))
  {
    var a := line + (cut + rest);
    assert rest == "" ==> a[|a| - 1] == cut[|cut| - 1];
    assert rest != "" ==> a[|a| - 1] == rest[|rest| - 1] && (rest + b)[0] == rest[0];
  }

  lemma Glue(line: string, p: seq<string>, q: seq<string>)
    ensures ([line] + p) + q == [line] + (p + q)
  {
  }

  /** Text that ends in a newline splits independently of what follows. */
  lemma {:induction false} SplitAppend(a: string, b: string)
    requires a == "" || EndsWithNewline(a)
    ensures SplitLines(a + b) == SplitLines(a) + SplitLines(b)
    decreases |a|
  {
    if a == "" {
      assert a + b == b;
    } else {
      var line, rest := FirstLine(a, b);
      SplitAppend(rest, b);
      Glue(line, SplitLines(rest), SplitLines(b));
    }
  }

  lemma {:induction false} LinesBindingsAppend(quoted: string -> string, a: seq<string>, b: seq<string>)
    ensures LinesBindings(quoted, a + b) == LinesBindings(quoted, a) + LinesBindings(quoted, b)
  {
    if a == [] {
      assert a + b == b;
    } else {
      assert (a + b)[1..] == a[1..] + b;
      LinesBindingsAppend(quoted, a[1..], b);
    }
  }

  lemma BlankLineBindsNothing(quoted: string -> string)
    ensures LoadLine(quoted, "") == None
  {
  }

  lemma BindingsStep(quoted: string -> string, s: string, line: string, cut: string, rest: string)
    requires s == line + (cut + rest) && OneLine(line) && IsCut(cut, rest)
    ensures Bindings(quoted, s) == LinesBindings(quoted, [line]) + Bindings(quoted, rest)
  {
    SplitAt(s, line, cut, rest);
    LinesBindingsAppend(quoted, [line], SplitLines(rest));
  }

  lemma LastLine(quoted: string -> string, a: string)
    requires OneLine(a)
    ensures Bindings(quoted, a + "\n") == Bindings(quoted, a) == LinesBindings(quoted, [a])
  {
    SplitAt(a + "\n", a, "\n", "");
    assert a + ("\n" + "") == a + "\n";
    assert SplitLines("") == [] && [a] + [] == [a];
    FirstBreakIs(a, |a|);
    if a == "" {
      BlankLineBindsNothing(quoted);
      assert [a][1..] == [];
    }
  }

  /** Adding a final newline never changes what a text binds. */
  lemma {:induction false} FinalNewline(quoted: string -> string, a: string)
    ensures Bindings(quoted, a + "\n") == Bindings(quoted, a)
    decreases |a|
  {
    if FirstBreak(a) == |a| {
      LastLine(quoted, a);
    } else {
      var line, cut, rest := Cut(a);
      BindingsStep(quoted, a, line, cut, rest);
      Regroup(line, cut, rest, "\n");
      if cut == "\r" && rest == "" {
        LongerCut(quoted, a + "\n", line);
      } else {
        FinalNewline(quoted, rest);
        assert rest != "" ==> (rest + "\n")[0] == rest[0];
        BindingsStep(quoted, a + "\n", line, cut, rest + "\n");
      }
    }
  }

  lemma LongerCut(quoted: string -> string, s: string, line: string)
    requires s == line + ("\r" + ("" + "\n")) && OneLine(line)
    ensures Bindings(quoted, s) == LinesBindings(quoted, [line]) + Bindings(quoted, "")
  {
    assert "\r" + ("" + "\n") == "\r\n" + "";
    BindingsStep(quoted, s, line, "\r\n", "");
  }

  /** The bindings of several texts, one after the other. */
  function TextsBindings(quoted: string -> string, texts: seq<string>): seq<Binding> {
    if texts == [] then [] else Bindings(quoted, texts[0]) + TextsBindings(quoted, texts[1..])
  }

  lemma BindingsAppend(quoted: string -> string, a: string, b: string)
    requires a == "" || EndsWithNewline(a)
    ensures Bindings(quoted, a + b) == Bindings(quoted, a) + Bindings(quoted, b)
  {
    SplitAppend(a, b);
    LinesBindingsAppend(quoted, SplitLines(a), SplitLines(b));
  }

  /** Texts joined by newlines bind what they bind, whatever they end in. */
  lemma {:induction false} JoinedBindings(quoted: string -> string, texts: seq<string>)
    ensures Bindings(quoted, Join(texts, "\n")) == TextsBindings(quoted, texts)
  {
    if texts == [] {
      assert SplitLines("") == [];
    } else if |texts| == 1 {
      assert Bindings(quoted, texts[0]) + [] == Bindings(quoted, texts[0]);
      assert texts[1..] == [];
    } else {
      JoinedBindings(quoted, texts[1..]);
      FinalNewline(quoted, texts[0]);
      BindingsAppend(quoted, texts[0] + "\n", Join(texts[1..], "\n"));
    }
  }

  // ---- the whole file --------------------------------------------------------------------

  /** What an entry with any value binds: a line boundary in the value ends it, and the rest is read as more lines. */
  function Entry(quoted: string -> string, k: string, v: string): seq<Binding> {
    [Binding(k, ReadValue(quoted, v[..FirstBreak(v)]))] + Spilled(quoted, v)
  }

  /** What the lines behind the first one of a value bind. */
  function Spilled(quoted: string -> string, v: string): seq<Binding> {
    var i := FirstBreak(v);
    if i == |v| then [] else Bindings(quoted, v[i + BreakLength(v, i)..])
  }

  function Entries(quoted: string -> string, bindings: seq<Binding>): seq<Binding> {
    if bindings == [] then []
    else Entry(quoted, bindings[0].key, bindings[0].value) + Entries(quoted, bindings[1..])
  }

  /** The bindings with the entries of the overwritten keys put in place. */
  function Substituted(quoted: string -> string, bindings: seq<Binding>, overwrites: Env): seq<Binding> {
    if bindings == [] then []
    else
      var b := bindings[0];
      (if b.key in overwrites then Entry(quoted, b.key, overwrites[b.key]) else [b])
      + Substituted(quoted, bindings[1..], overwrites)
  }

  ghost predicate PlainKeys(e: Env) {
    forall k | k in e :: PlainKey(k)
  }

  lemma HeadIsOneLine(s: string, k: string)
    requires PlainKey(k) && OneLine(s)
    ensures OneLine(Prefix(s) + k + "=")
  {
    OneLinesConcatenate(Prefix(s), k);
    OneLinesConcatenate(Prefix(s) + k, "=");
  }

  lemma RegroupHead(head: string, line: string, tail: string)
    ensures head + (line + tail) == (head + line) + tail
  {
  }

  lemma SpilledIs(quoted: string -> string, v: string, line: string, cut: string, rest: string)
    requires v == line + (cut + rest) && OneLine(line) && IsCut(cut, rest)
    ensures v[..FirstBreak(v)] == line && Spilled(quoted, v) == Bindings(quoted, rest)
  {
    CutPlace(v, line, cut, rest);
    CutLength(line, cut, rest);
  }

  /** A line that a value breaks off: its first line binds, the rest spills. */
  lemma BrokenLineBinds(quoted: string -> string, head: string, v: string, b: Binding)
    requires OneLine(head) && FirstBreak(v) < |v| && LoadLine(quoted, head + v[..FirstBreak(v)]) == Some(b)
    ensures Bindings(quoted, head + v) == [b] + Spilled(quoted, v)
  {
    var line, cut, rest := Cut(v);
    SpilledIs(quoted, v, line, cut, rest);
    RegroupHead(head, line, cut + rest);
    OneLinesConcatenate(head, line);
    BindingsStep(quoted, head + v, head + line, cut, rest);
    SingleBinding(quoted, head + line, b);
  }

  lemma WholeLineBinds(quoted: string -> string, head: string, v: string, b: Binding)
    requires OneLine(head) && FirstBreak(v) == |v| && LoadLine(quoted, head + v) == Some(b)
    ensures Bindings(quoted, head + v) == [b]
  {
    OneLinesConcatenate(head, v);
    LastLine(quoted, head + v);
    SingleBinding(quoted, head + v, b);
  }

  lemma EntryBinds(quoted: string -> string, s: string, k: string, v: string)
    requires PlainKey(k) && OneLine(s)
    ensures Bindings(quoted, Prefix(s) + k + "=" + v) == Entry(quoted, k, v)
  {
    var head, line := Prefix(s) + k + "=", v[..FirstBreak(v)];
    var b := Binding(k, ReadValue(quoted, line));
    HeadIsOneLine(s, k);
    RewrittenLineBinds(quoted, s, k, line);
    if FirstBreak(v) == |v| {
      assert line == v;
      WholeLineBinds(quoted, head, v, b);
    } else {
      BrokenLineBinds(quoted, head, v, b);
    }
  }

  lemma SingleBinding(quoted: string -> string, line: string, b: Binding)
    requires LoadLine(quoted, line) == Some(b)
    ensures LinesBindings(quoted, [line]) == [b]
  {
    assert [line][1..] == [];
  }

  lemma PrefixIsOneLine(raw: string)
    requires OneLine(raw)
    ensures OneLine(Prefix(Strip(raw))) && OneLine(Strip(raw))
  {
    StripKeepsOneLine(raw);
  }

  /** A rewritten line binds the new entry when it binds an overwritten key, and else what it did. */
  lemma RewrittenLineSubstitutes(quoted: string -> string, raw: string, overwrites: Env)
    requires PlainKeys(overwrites) && OneLine(raw)
    ensures Bindings(quoted, RewriteLine(raw, overwrites))
         == Substituted(quoted, LinesBindings(quoted, [raw]), overwrites)
  {
    SameKey(quoted, raw);
    LastLine(quoted, raw);
    assert [raw][1..] == [];
    var b := LoadLine(quoted, raw);
    if b.Some? {
      SingleBinding(quoted, raw, b.value);
      SubstitutedOne(quoted, b.value, overwrites);
      if b.value.key in overwrites {
        PrefixIsOneLine(raw);
        EntryBinds(quoted, Strip(raw), b.value.key, overwrites[b.value.key]);
      }
    }
  }

  lemma SubstitutedOne(quoted: string -> string, b: Binding, overwrites: Env)
    ensures Substituted(quoted, [b], overwrites)
         == if b.key in overwrites then Entry(quoted, b.key, overwrites[b.key]) else [b]
  {
    assert [b][1..] == [];
    assert Substituted(quoted, [], overwrites) == [];
  }

  lemma {:induction false} SubstitutedAppend(quoted: string -> string, a: seq<Binding>, b: seq<Binding>, overwrites: Env)
    ensures Substituted(quoted, a + b, overwrites) == Substituted(quoted, a, overwrites) + Substituted(quoted, b, overwrites)
  {
    if a == [] {
      assert a + b == b;
    } else {
      assert (a + b)[1..] == a[1..] + b;
      SubstitutedAppend(quoted, a[1..], b, overwrites);
    }
  }

  lemma {:induction false} RewrittenLinesSubstitute(quoted: string -> string, lines: seq<string>, overwrites: Env)
    requires PlainKeys(overwrites) && forall i | 0 <= i < |lines| :: OneLine(lines[i])
    ensures TextsBindings(quoted, RewriteLines(lines, overwrites))
         == Substituted(quoted, LinesBindings(quoted, lines), overwrites)
  {
    if lines != [] {
      RewrittenLineSubstitutes(quoted, lines[0], overwrites);
      RewrittenLinesSubstitute(quoted, lines[1..], overwrites);
      assert RewriteLines(lines, overwrites)[1..] == RewriteLines(lines[1..], overwrites);
      assert lines == [lines[0]] + lines[1..];
      LinesBindingsAppend(quoted, [lines[0]], lines[1..]);
      SubstitutedAppend(quoted, LinesBindings(quoted, [lines[0]]), LinesBindings(quoted, lines[1..]), overwrites);
    }
  }

  lemma StripKeepsOneLine(s: string)
    requires OneLine(s)
    ensures OneLine(Strip(s))
  {
    LStripKeepsOneLine(s);
    RStripKeepsOneLine(LStrip(s));
  }

  lemma {:induction false} LStripKeepsOneLine(s: string)
    requires OneLine(s)
    ensures OneLine(LStrip(s))
  {
    if s != "" && IsSpace(s[0]) { LStripKeepsOneLine(s[1..]); }
  }

  lemma {:induction false} RStripKeepsOneLine(s: string)
    requires OneLine(s)
    ensures OneLine(RStrip(s))
  {
    if s != "" && IsSpace(s[|s| - 1]) { RStripKeepsOneLine(s[..|s| - 1]); }
  }

  lemma OneLinesConcatenate(a: string, b: string)
    requires OneLine(a) && OneLine(b)
    ensures OneLine(a + b)
  {
  }

  /** Rewriting a text puts the new entries in the place of the overwritten bindings, and changes nothing else. */
  lemma RewriteSubstitutes(quoted: string -> string, text: string, overwrites: Env)
    requires PlainKeys(overwrites)
    ensures Bindings(quoted, Rewrite(text, overwrites)) == Substituted(quoted, Bindings(quoted, text), overwrites)
  {
    var lines := SplitLines(text);
    SplitLinesAreLines(text);
    RewrittenLinesSubstitute(quoted, lines, overwrites);
    JoinedBindings(quoted, RewriteLines(lines, overwrites));
    var joined := Join(RewriteLines(lines, overwrites), "\n");
    FinalNewline(quoted, joined);
    assert joined + "" == joined;
  }

  lemma {:induction false} SubstitutedByNothing(quoted: string -> string, bindings: seq<Binding>)
    ensures Substituted(quoted, bindings, map[]) == bindings
  {
    if bindings != [] { SubstitutedByNothing(quoted, bindings[1..]); }
  }

  ghost predicate PlainSecrets(secrets: seq<Binding>) {
    forall i | 0 <= i < |secrets| && secrets[i].value != "" :: PlainKey(secrets[i].key)
  }

  lemma {:induction false} OverwritesArePlain(secrets: seq<Binding>, existing: set<string>)
    requires PlainSecrets(secrets)
    ensures PlainKeys(Overwrites(secrets, existing))
  {
    if secrets != [] { OverwritesArePlain(secrets[1..], existing); }
  }

  lemma {:induction false} AppendedArePlain(secrets: seq<Binding>, existing: set<string>)
    requires PlainSecrets(secrets)
    ensures forall i | 0 <= i < |Appended(secrets, existing)| :: PlainKey(Appended(secrets, existing)[i].key)
  {
    if secrets != [] { AppendedArePlain(secrets[1..], existing); }
  }

  lemma {:induction false} EmittedEntries(quoted: string -> string, bindings: seq<Binding>)
    requires forall i | 0 <= i < |bindings| :: PlainKey(bindings[i].key)
    ensures TextsBindings(quoted, Lines(bindings)) == Entries(quoted, bindings)
  {
    if bindings != [] {
      var first, later := bindings[0], bindings[1..];
      EmittedEntries(quoted, later);
      EntryBinds(quoted, "", first.key, first.value);
      assert "" + first.key == first.key;
      assert Lines(bindings)[1..] == Lines(later);
    }
  }

  /** `base` closed with a newline, then the new lines. */
  lemma AppendedBindings(quoted: string -> string, base: string, bindings: seq<Binding>)
    requires base == "" || EndsWithNewline(base)
    requires forall i | 0 <= i < |bindings| :: PlainKey(bindings[i].key)
    ensures var tail := if Lines(bindings) == [] then "" else Join(Lines(bindings), "\n") + "\n";
            Bindings(quoted, base + tail) == Bindings(quoted, base) + Entries(quoted, bindings)
  {
    var tail := if Lines(bindings) == [] then "" else Join(Lines(bindings), "\n") + "\n";
    EmittedEntries(quoted, bindings);
    JoinedBindings(quoted, Lines(bindings));
    FinalNewline(quoted, Join(Lines(bindings), "\n"));
    BindingsAppend(quoted, base, tail);
  }

  /**
   * What the written file binds, for all values: the old bindings with the entries of the supplied keys put in
   * place, then the entries of the new ones.
   */
  lemma WrittenBindings(quoted: string -> string, text: string, secrets: seq<Binding>)
    requires PlainSecrets(secrets)
    ensures var existing := ExistingKeys(SplitLines(text));
            Bindings(quoted, Written(text, secrets))
            == Substituted(quoted, Bindings(quoted, text), Overwrites(secrets, existing))
               + Entries(quoted, Appended(secrets, existing))
  {
    var existing := ExistingKeys(SplitLines(text));
    var overwrites, appended := Overwrites(secrets, existing), Appended(secrets, existing);
    OverwritesArePlain(secrets, existing);
    AppendedArePlain(secrets, existing);
    SubstitutedByNothing(quoted, Bindings(quoted, text));
    if overwrites == map[] && Lines(appended) == [] {
      assert Bindings(quoted, text) + [] == Bindings(quoted, text);
    } else {
      var base := if overwrites == map[] then text else Rewrite(text, overwrites);
      RewriteSubstitutes(quoted, text, overwrites);
      FinalNewline(quoted, base);
      var closed := if base != "" && !EndsWithNewline(base) then base + "\n" else base;
      AppendedBindings(quoted, closed, appended);
    }
  }

  // ---- what a list of bindings leaves in the environment -------------------------------------

  function Get(env: Env, k: string): Option<string> {
    if k in env then Some(env[k]) else None
  }

  /** The value a list of bindings gives a key: the first one without override, the last one with. */
  function Effective(bindings: seq<Binding>, k: string, override: bool): Option<string> {
    if bindings == [] then None
    else
      var later := Effective(bindings[1..], k, override);
      if bindings[0].key != k then later
      else if override && later.Some? then later
      else Some(bindings[0].value)
  }

  /** A loaded key has the environment's own value when that wins, else the file's. */
  lemma {:induction false} AbsorbIsEffective(env: Env, bindings: seq<Binding>, override: bool, k: string)
    ensures Get(Absorb(env, bindings, override), k)
         == if !override && k in env then Some(env[k])
            else if Effective(bindings, k, override).Some? then Effective(bindings, k, override)
            else Get(env, k)
    decreases |bindings|
  {
    if bindings != [] {
      var b := bindings[0];
      AbsorbIsEffective(if !override && b.key in env then env else env[b.key := b.value], bindings[1..], override, k);
    }
  }

  lemma {:induction false} EffectiveAppend(a: seq<Binding>, b: seq<Binding>, k: string, override: bool)
    ensures var x, y := Effective(a, k, override), Effective(b, k, override);
            Effective(a + b, k, override) == if x == None || (override && y.Some?) then y else x
  {
    if a == [] {
      assert a + b == b;
    } else {
      assert (a + b)[1..] == a[1..] + b;
      EffectiveAppend(a[1..], b, k, override);
    }
  }

  /** No entry of a value spills a binding of `k`. */
  ghost predicate SpillsNot(quoted: string -> string, values: set<string>, k: string) {
    forall v, b | v in values && b in Spilled(quoted, v) :: b.key != k
  }

  lemma {:induction false} EffectiveElsewhere(bindings: seq<Binding>, k: string, override: bool)
    requires forall b | b in bindings :: b.key != k
    ensures Effective(bindings, k, override) == None
  {
    if bindings != [] { EffectiveElsewhere(bindings[1..], k, override); }
  }

  /** Without spilled bindings of `k`, an entry binds it at most to what is read of its own value. */
  lemma EffectiveEntry(quoted: string -> string, key: string, v: string, k: string, override: bool)
    requires forall b | b in Spilled(quoted, v) :: b.key != k
    ensures Effective(Entry(quoted, key, v), k, override)
         == if key == k then Some(ReadValue(quoted, v[..FirstBreak(v)])) else None
  {
    EffectiveElsewhere(Spilled(quoted, v), k, override);
    assert Entry(quoted, key, v)[1..] == Spilled(quoted, v);
  }

  lemma {:induction false} EffectiveSubstituted(quoted: string -> string, bindings: seq<Binding>, overwrites: Env,
                                                k: string, override: bool)
    requires SpillsNot(quoted, overwrites.Values, k)
    ensures Effective(Substituted(quoted, bindings, overwrites), k, override)
         == if k in overwrites && Effective(bindings, k, override).Some?
            then Some(ReadValue(quoted, overwrites[k][..FirstBreak(overwrites[k])]))
            else Effective(bindings, k, override)
  {
    if bindings != [] {
      var b, later := bindings[0], Substituted(quoted, bindings[1..], overwrites);
      EffectiveSubstituted(quoted, bindings[1..], overwrites, k, override);
      if b.key in overwrites {
        EffectiveEntry(quoted, b.key, overwrites[b.key], k, override);
        EffectiveAppend(Entry(quoted, b.key, overwrites[b.key]), later, k, override);
      } else {
        EffectiveAppend([b], later, k, override);
        assert [b][1..] == [];
      }
    }
  }

  lemma {:induction false} EffectiveEntries(quoted: string -> string, bindings: seq<Binding>, k: string, override: bool)
    requires Distinct(bindings)
    requires forall i | 0 <= i < |bindings| :: SpillsNot(quoted, {bindings[i].value}, k)
    ensures var own := Effective(bindings, k, override);
            Effective(Entries(quoted, bindings), k, override)
            == if own == None then None else Some(ReadValue(quoted, own.value[..FirstBreak(own.value)]))
  {
    if bindings != [] {
      var b, later := bindings[0], bindings[1..];
      assert forall i | 0 <= i < |later| :: later[i] == bindings[i + 1];
      EffectiveEntries(quoted, later, k, override);
      assert SpillsNot(quoted, {b.value}, k);
      EffectiveEntry(quoted, b.key, b.value, k, override);
      EffectiveAppend(Entry(quoted, b.key, b.value), Entries(quoted, later), k, override);
      if b.key == k { EffectiveElsewhere(later, k, override); }
    }
  }

  lemma {:induction false} ExistingKeysAreBound(quoted: string -> string, lines: seq<string>, k: string, override: bool)
    ensures k in ExistingKeys(lines) <==> Effective(LinesBindings(quoted, lines), k, override).Some?
  {
    if lines != [] {
      ExistingKeysAreBound(quoted, lines[1..], k, override);
      SameKey(quoted, lines[0]);
      var b := LoadLine(quoted, lines[0]);
      if b.Some? {
        assert ([b.value] + LinesBindings(quoted, lines[1..]))[1..] == LinesBindings(quoted, lines[1..]);
      }
    }
  }

  /** The supplied value of a key; empty values are skipped prompts. */
  function Supplied(secrets: seq<Binding>, k: string): Option<string> {
    if secrets == [] then None
    else if secrets[0].key == k && secrets[0].value != "" then Some(secrets[0].value)
    else Supplied(secrets[1..], k)
  }

  lemma {:induction false} NotSuppliedTwice(secrets: seq<Binding>, k: string)
    requires forall i | 0 <= i < |secrets| :: secrets[i].key != k
    ensures Supplied(secrets, k) == None
  {
    if secrets != [] { NotSuppliedTwice(secrets[1..], k); }
  }

  lemma {:induction false} SuppliedIsPlaced(secrets: seq<Binding>, existing: set<string>, k: string, override: bool)
    requires Distinct(secrets)
    ensures Get(Overwrites(secrets, existing), k) == if k in existing then Supplied(secrets, k) else None
    ensures Effective(Appended(secrets, existing), k, override) == if k in existing then None else Supplied(secrets, k)
  {
    if secrets != [] {
      var rest := secrets[1..];
      assert forall i | 0 <= i < |rest| :: rest[i] == secrets[i + 1];
      SuppliedIsPlaced(rest, existing, k, override);
      if secrets[0].key == k { NotSuppliedTwice(rest, k); }
      OverwritesKeys(rest, existing);
      if secrets[0].value != "" && secrets[0].key !in existing {
        assert Appended(secrets, existing)[1..] == Appended(rest, existing);
      }
    }
  }

  /** The supplied values that are no skipped prompts. */
  function Values(secrets: seq<Binding>): set<string> {
    set i | 0 <= i < |secrets| && secrets[i].value != "" :: secrets[i].value
  }

  lemma {:induction false} PlacedValues(secrets: seq<Binding>, existing: set<string>)
    ensures Overwrites(secrets, existing).Values <= Values(secrets)
    ensures forall i | 0 <= i < |Appended(secrets, existing)| ::
              Appended(secrets, existing)[i] in secrets && Appended(secrets, existing)[i].value in Values(secrets)
    decreases |secrets|
  {
    if secrets != [] {
      var rest := secrets[1..];
      PlacedValues(rest, existing);
      forall v | v in Values(rest) ensures v in Values(secrets) {
        var i :| 0 <= i < |rest| && rest[i].value != "" && rest[i].value == v;
        assert secrets[i + 1].value == v;
      }
    }
  }

  lemma {:induction false} AppendedStayDistinct(secrets: seq<Binding>, existing: set<string>)
    requires Distinct(secrets)
    ensures Distinct(Appended(secrets, existing))
  {
    if secrets != [] {
      var rest := secrets[1..];
      assert forall i | 0 <= i < |rest| :: rest[i] == secrets[i + 1];
      AppendedStayDistinct(rest, existing);
      PlacedValues(rest, existing);
      forall i | 0 <= i < |Appended(rest, existing)| ensures Appended(rest, existing)[i].key != secrets[0].key {
        var j :| 0 <= j < |rest| && rest[j] == Appended(rest, existing)[i];
        assert secrets[j + 1] == rest[j];
      }
    }
  }

  /**
   * The round trip for all values: a key that no value spills loads with what is read of the first line of
   * its new value when it is supplied, and else as it did before.
   */
  lemma LoadAfterAnyWrite(quoted: string -> string, text: string, secrets: seq<Binding>, env: Env, override: bool,
                          k: string)
    requires Distinct(secrets) && PlainSecrets(secrets) && SpillsNot(quoted, Values(secrets), k)
    ensures Get(Absorb(env, Bindings(quoted, Written(text, secrets)), override), k)
         == if !override && k in env then Some(env[k])
            else if Supplied(secrets, k).Some?
            then Some(ReadValue(quoted, Supplied(secrets, k).value[..FirstBreak(Supplied(secrets, k).value)]))
            else Get(Absorb(env, Bindings(quoted, text), override), k)
  {
    var existing := ExistingKeys(SplitLines(text));
    var before := Bindings(quoted, text);
    var overwrites, appended := Overwrites(secrets, existing), Appended(secrets, existing);
    var placed, added := Substituted(quoted, before, overwrites), Entries(quoted, appended);
    WrittenBindings(quoted, text, secrets);
    AbsorbIsEffective(env, before, override, k);
    AbsorbIsEffective(env, placed + added, override, k);
    EffectiveAppend(placed, added, k, override);
    PlacedValues(secrets, existing);
    AppendedStayDistinct(secrets, existing);
    EffectiveSubstituted(quoted, before, overwrites, k, override);
    EffectiveEntries(quoted, appended, k, override);
    ExistingKeysAreBound(quoted, SplitLines(text), k, override);
    SuppliedIsPlaced(secrets, existing, k, override);
  }

  /** What loading should give: the supplied value, or what the key had. */
  ghost predicate Restored(quoted: string -> string, text: string, secrets: seq<Binding>, env: Env, override: bool,
                           k: string)
  {
    Get(Absorb(env, Bindings(quoted, Written(text, secrets)), override), k)
    == if !override && k in env then Some(env[k])
       else if Supplied(secrets, k).Some? then Supplied(secrets, k)
       else Get(Absorb(env, Bindings(quoted, text), override), k)
  }

  ghost predicate SafeSecrets(secrets: seq<Binding>) {
    forall i | 0 <= i < |secrets| && secrets[i].value != "" :: SafeValue(secrets[i].value)
  }

  ghost predicate OneLineSecrets(secrets: seq<Binding>) {
    forall i | 0 <= i < |secrets| && secrets[i].value != "" :: OneLine(secrets[i].value)
  }

  lemma OneLineSpillsNothing(quoted: string -> string, secrets: seq<Binding>, k: string)
    requires OneLineSecrets(secrets)
    ensures SpillsNot(quoted, Values(secrets), k)
  {
    forall v | v in Values(secrets) ensures Spilled(quoted, v) == [] {
      FirstBreakIs(v, |v|);
    }
  }

  lemma {:induction false} SuppliedIsIn(secrets: seq<Binding>, k: string) returns (i: nat)
    requires Supplied(secrets, k).Some?
    ensures i < |secrets| && secrets[i] == Binding(k, Supplied(secrets, k).value) && secrets[i].value != ""
  {
    if secrets[0].key == k && secrets[0].value != "" {
      i := 0;
    } else {
      i := SuppliedIsIn(secrets[1..], k);
      i := i + 1;
    }
  }

  /** The round trip: with safe values every supplied key loads with its new value, every other key as it did before. */
  lemma LoadAfterWrite(quoted: string -> string, text: string, secrets: seq<Binding>, env: Env, override: bool,
                       k: string)
    requires Distinct(secrets) && PlainSecrets(secrets) && SafeSecrets(secrets)
    ensures Restored(quoted, text, secrets, env, override, k)
  {
    OneLineSpillsNothing(quoted, secrets, k);
    LoadAfterAnyWrite(quoted, text, secrets, env, override, k);
    if Supplied(secrets, k).Some? {
      var i := SuppliedIsIn(secrets, k);
      var v := secrets[i].value;
      FirstBreakIs(v, |v|);
      assert v[..|v|] == v;
      ReadSafe(quoted, v);
    }
  }

  // ---- which values survive ---------------------------------------------------------------------

  /** Splitting off the quotes makes a word shorter. */
  ghost predicate Shrinks(quoted: string -> string) {
    forall s | s != "" && IsQuote(s[0]) :: |quoted(s)| < |s|
  }

  /** Splitting off the quotes of a line leaves one line. */
  ghost predicate KeepsLines(quoted: string -> string) {
    forall s | OneLine(s) :: OneLine(quoted(s))
  }

  lemma ParsedIsTrimmedOrShorter(quoted: string -> string, s: string)
    requires Shrinks(quoted)
    ensures |ParseValue(quoted, s)| <= |s|
    ensures |ParseValue(quoted, s)| == |s| ==> s == "" || (!IsQuote(s[0]) && !HasComment(s) && Trimmed(ParseValue(quoted, s)))
  {
    StripTrimmed(s[..FirstComment(s)]);
  }

  lemma BindingFits(quoted: string -> string, raw: string)
    requires Shrinks(quoted)
    ensures match LoadLine(quoted, raw)
            case None => true
            case Some(b) => |b.key| + 1 + |b.value| <= |raw|
  {
    var s := Strip(raw);
    StripTrimmed(raw);
    if s != "" && s[0] != '#' {
      var body := LoadBody(s);
      if StartsWith(s, EXPORT) { StripTrimmed(s[|EXPORT|..]); }
      var eq := FirstEq(body);
      if eq < |body| {
        StripTrimmed(body[..eq]);
        StripTrimmed(body[eq + 1..]);
        ParsedIsTrimmedOrShorter(quoted, Strip(body[eq + 1..]));
      }
    }
  }

  lemma {:induction false} BindingsFit(quoted: string -> string, lines: seq<string>, n: nat)
    requires Shrinks(quoted) && forall i | 0 <= i < |lines| :: |lines[i]| <= n
    ensures forall i | 0 <= i < |LinesBindings(quoted, lines)| ::
              var b := LinesBindings(quoted, lines)[i]; |b.key| + 1 + |b.value| <= n
  {
    if lines != [] {
      BindingFits(quoted, lines[0]);
      BindingsFit(quoted, lines[1..], n);
    }
  }

  lemma {:induction false} LinesFit(s: string)
    ensures forall i | 0 <= i < |SplitLines(s)| :: |SplitLines(s)[i]| <= |s|
    decreases |s|
  {
    if s != "" {
      var i := FirstBreak(s);
      if i < |s| { LinesFit(s[i + BreakLength(s, i)..]); }
    }
  }

  lemma ReadIsValueIffSafe(quoted: string -> string, v: string)
    requires Shrinks(quoted) && v != "" && OneLine(v)
    ensures ReadValue(quoted, v) == v <==> SafeValue(v)
  {
    if SafeValue(v) { ReadSafe(quoted, v); }
    if ReadValue(quoted, v) == v {
      StripTrimmed(v);
      ParsedIsTrimmedOrShorter(quoted, Strip(v));
      StripOfSameLength(v);
    }
  }

  /** A supplied value comes back from a fresh file exactly when it is safe. */
  lemma ValueSurvivesIffSafe(quoted: string -> string, k: string, v: string)
    requires Shrinks(quoted) && PlainKey(k) && v != ""
    ensures Bindings(quoted, Written("", [Binding(k, v)])) == [Binding(k, v)] <==> SafeValue(v)
  {
    FreshFile(k, v);
    if OneLine(v) {
      OneLineBinds(quoted, k, v);
      ReadIsValueIffSafe(quoted, v);
      assert [Binding(k, ReadValue(quoted, v))][0].value == ReadValue(quoted, v);
    } else {
      BrokenValueIsLost(quoted, k, v);
    }
  }

  lemma OneLineBinds(quoted: string -> string, k: string, v: string)
    requires PlainKey(k) && OneLine(v)
    ensures Bindings(quoted, k + "=" + v + "\n") == [Binding(k, ReadValue(quoted, v))]
  {
    FirstBreakIs(v, |v|);
    assert v[..|v|] == v;
    EntryBinds(quoted, "", k, v);
    assert Prefix("") + k + "=" + v == k + "=" + v;
    FinalNewline(quoted, k + "=" + v);
  }

  lemma FreshFile(k: string, v: string)
    requires v != ""
    ensures Written("", [Binding(k, v)]) == k + "=" + v + "\n"
  {
    var b := [Binding(k, v)];
    assert SplitLines("") == [] && ExistingKeys([]) == {};
    assert b[1..] == [] && Appended(b, {}) == b + [] == b && Overwrites(b, {}) == map[];
    assert Lines(b) == [k + "=" + v];
    assert Join(Lines(b), "\n") == k + "=" + v;
    assert "" + (k + "=" + v + "\n") == k + "=" + v + "\n";
  }

  lemma StripOfSameLength(s: string)
    ensures |Strip(s)| == |s| ==> Strip(s) == s
  {
    LStripStarts(s);
    RStripEnds(LStrip(s));
    if s != "" && IsSpace(s[0]) { LStripStarts(s[1..]); }
    var t := LStrip(s);
    if t != "" && IsSpace(t[|t| - 1]) { RStripEnds(t[..|t| - 1]); }
  }

  lemma BrokenValueIsLost(quoted: string -> string, k: string, v: string)
    requires Shrinks(quoted) && PlainKey(k) && !OneLine(v)
    ensures Bindings(quoted, k + "=" + v + "\n") != [Binding(k, v)]
  {
    var s := k + "=" + v + "\n";
    var j :| 0 <= j < |v| && IsBreak(v[j]);
    assert s[|k| + 1 + j] == v[j];
    assert s[0] == k[0];
    var line, cut, rest := Cut(s);
    SplitAt(s, line, cut, rest);
    LinesFit(rest);
    var n := |k| + |v|;
    assert |line| <= n && |rest| <= n;
    BindingsFit(quoted, SplitLines(s), n);
    var bindings := Bindings(quoted, s);
    assert bindings != [] ==> |bindings[0].key| + 1 + |bindings[0].value| <= n;
  }

  /** Comments, blank lines and lines of other keys are kept as they are, in their places. */
  lemma {:induction false} OtherLinesStay(lines: seq<string>, overwrites: Env, i: nat)
    requires i < |lines| && (LineKey(lines[i]) == None || LineKey(lines[i]).value !in overwrites)
    ensures RewriteLines(lines, overwrites)[i] == lines[i]
  {
    if i > 0 {
      OtherLinesStay(lines[1..], overwrites, i - 1);
      assert RewriteLines(lines, overwrites)[i] == RewriteLines(lines[1..], overwrites)[i - 1];
    }
  }

  /** A changed file ends with a newline. */
  lemma WrittenEndsWithNewline(text: string, secrets: seq<Binding>)
    requires Written(text, secrets) != text && Written(text, secrets) != ""
    ensures EndsWithNewline(Written(text, secrets))
  {
    var existing := ExistingKeys(SplitLines(text));
    var overwrites, newLines := Overwrites(secrets, existing), Lines(Appended(secrets, existing));
    var base := if overwrites == map[] then text else Rewrite(text, overwrites);
    ClosedAndAppended(base, newLines);
  }

  lemma ClosedAndAppended(base: string, newLines: seq<string>)
    ensures var closed := if base != "" && !EndsWithNewline(base) then base + "\n" else base;
            var whole := closed + (if newLines == [] then "" else Join(newLines, "\n") + "\n");
            whole != "" ==> EndsWithNewline(whole)
  {
  }

  /** A value that opens with a quote is left to the shell parser. */
  lemma QuotedIsParsed(quoted: string -> string, v: string)
    requires Strip(v) != "" && (Strip(v)[0] == '"' || Strip(v)[0] == '\'')
    ensures ReadValue(quoted, v) == quoted(Strip(v))
  {
  }

  /** Any other value ends where a comment begins. */
  lemma CommentIsCut(quoted: string -> string, v: string, comment: string)
    requires v != "" && Trimmed(v) && v[0] != '"' && v[0] != '\'' && v[0] != '#'
    requires forall i | 0 <= i < |v| - 1 :: !(v[i] == ' ' && v[i + 1] == '#')
    ensures ReadValue(quoted, v) == v && ReadValue(quoted, v + " #" + comment) == v
  {
    StripTrimmed(v);
    assert v[..|v|] == v;
    var head := v + " #";
    var whole := head + RStrip(comment);
    assert head + comment == v + " #" + comment && (head + comment)[0] == v[0];
    assert LStrip(head + comment) == head + comment;
    RStripStopsAt(head, comment);
    assert CommentAt(whole, |v|);
    forall i | 0 <= i < |v| ensures !CommentAt(whole, i) {
      assert whole[i] == v[i] && (i + 1 < |v| ==> whole[i + 1] == v[i + 1]);
    }
    assert FirstComment(whole) == |v| && whole[..|v|] == v;
  }

  // ---- the round trip succeeds only with safe values -----------------------------------------------

  lemma ReadValueIsOneLine(quoted: string -> string, v: string)
    requires KeepsLines(quoted) && OneLine(v)
    ensures OneLine(ReadValue(quoted, v))
  {
    StripKeepsOneLine(v);
    StripKeepsOneLine(Strip(v)[..FirstComment(Strip(v))]);
  }

  lemma LoadedIsOneLine(quoted: string -> string, raw: string)
    requires KeepsLines(quoted) && OneLine(raw) && LoadLine(quoted, raw).Some?
    ensures OneLine(LoadLine(quoted, raw).value.value)
  {
    var s := Strip(raw);
    StripKeepsOneLine(raw);
    if StartsWith(s, EXPORT) { StripKeepsOneLine(s[|EXPORT|..]); }
    var body := LoadBody(s);
    ReadValueIsOneLine(quoted, body[FirstEq(body) + 1..]);
  }

  lemma {:induction false} EffectiveIsOneLine(quoted: string -> string, lines: seq<string>, k: string, override: bool)
    requires KeepsLines(quoted) && forall i | 0 <= i < |lines| :: OneLine(lines[i])
    ensures var v := Effective(LinesBindings(quoted, lines), k, override); v.Some? ==> OneLine(v.value)
  {
    if lines != [] {
      EffectiveIsOneLine(quoted, lines[1..], k, override);
      var b := LoadLine(quoted, lines[0]);
      if b.Some? {
        LoadedIsOneLine(quoted, lines[0]);
        assert ([b.value] + LinesBindings(quoted, lines[1..]))[1..] == LinesBindings(quoted, lines[1..]);
      }
    }
  }

  lemma {:induction false} SubstitutedStillBinds(quoted: string -> string, bindings: seq<Binding>, overwrites: Env,
                                                 k: string, override: bool)
    requires Effective(bindings, k, override).Some?
    ensures Effective(Substituted(quoted, bindings, overwrites), k, override).Some?
  {
    var b, later := bindings[0], Substituted(quoted, bindings[1..], overwrites);
    if b.key != k { SubstitutedStillBinds(quoted, bindings[1..], overwrites, k, override); }
    EffectiveAppend(if b.key in overwrites then Entry(quoted, b.key, overwrites[b.key]) else [b], later, k, override);
  }

  lemma {:induction false} EntriesStillBind(quoted: string -> string, bindings: seq<Binding>, k: string, override: bool)
    requires Effective(bindings, k, override).Some?
    ensures Effective(Entries(quoted, bindings), k, override).Some?
  {
    var b, later := bindings[0], Entries(quoted, bindings[1..]);
    if b.key != k { EntriesStillBind(quoted, bindings[1..], k, override); }
    EffectiveAppend(Entry(quoted, b.key, b.value), later, k, override);
  }

  /** A supplied key is bound by the written file, to one line. */
  lemma SuppliedLoadsOneLine(quoted: string -> string, text: string, secrets: seq<Binding>, k: string, override: bool)
    requires KeepsLines(quoted) && Distinct(secrets) && PlainSecrets(secrets) && Supplied(secrets, k).Some?
    ensures var v := Effective(Bindings(quoted, Written(text, secrets)), k, override); v.Some? && OneLine(v.value)
  {
    var existing := ExistingKeys(SplitLines(text));
    var before := Bindings(quoted, text);
    var overwrites, appended := Overwrites(secrets, existing), Appended(secrets, existing);
    WrittenBindings(quoted, text, secrets);
    EffectiveAppend(Substituted(quoted, before, overwrites), Entries(quoted, appended), k, override);
    ExistingKeysAreBound(quoted, SplitLines(text), k, override);
    SuppliedIsPlaced(secrets, existing, k, override);
    if k in existing {
      SubstitutedStillBinds(quoted, before, overwrites, k, override);
    } else {
      EntriesStillBind(quoted, appended, k, override);
    }
    SplitLinesAreLines(Written(text, secrets));
    EffectiveIsOneLine(quoted, SplitLines(Written(text, secrets)), k, override);
  }

  lemma {:induction false} SuppliedValue(secrets: seq<Binding>, i: nat)
    requires Distinct(secrets) && i < |secrets| && secrets[i].value != ""
    ensures Supplied(secrets, secrets[i].key) == Some(secrets[i].value)
  {
    if i > 0 {
      var rest := secrets[1..];
      assert forall j | 0 <= j < |rest| :: rest[j] == secrets[j + 1];
      SuppliedValue(rest, i - 1);
    }
  }

  /** The environment leaves the supplied keys to the file. */
  ghost predicate LeftToFile(secrets: seq<Binding>, env: Env, override: bool) {
    override || forall i | 0 <= i < |secrets| && secrets[i].value != "" :: secrets[i].key !in env
  }

  lemma RestoredIsOneLine(quoted: string -> string, text: string, secrets: seq<Binding>, env: Env, override: bool, i: nat)
    requires KeepsLines(quoted) && Distinct(secrets) && PlainSecrets(secrets) && LeftToFile(secrets, env, override)
    requires i < |secrets| && secrets[i].value != "" && Restored(quoted, text, secrets, env, override, secrets[i].key)
    ensures OneLine(secrets[i].value)
  {
    var k := secrets[i].key;
    SuppliedValue(secrets, i);
    SuppliedLoadsOneLine(quoted, text, secrets, k, override);
    AbsorbIsEffective(env, Bindings(quoted, Written(text, secrets)), override, k);
  }

  lemma RestoredIsSafe(quoted: string -> string, text: string, secrets: seq<Binding>, env: Env, override: bool, i: nat)
    requires Shrinks(quoted) && Distinct(secrets) && PlainSecrets(secrets) && LeftToFile(secrets, env, override)
    requires i < |secrets| && secrets[i].value != "" && Restored(quoted, text, secrets, env, override, secrets[i].key)
    requires OneLineSecrets(secrets)
    ensures SafeValue(secrets[i].value)
  {
    var k, v := secrets[i].key, secrets[i].value;
    SuppliedValue(secrets, i);
    OneLineSpillsNothing(quoted, secrets, k);
    LoadAfterAnyWrite(quoted, text, secrets, env, override, k);
    FirstBreakIs(v, |v|);
    assert v[..|v|] == v;
    ReadIsValueIffSafe(quoted, v);
  }

  /** Whatever the file held, the round trip succeeds for all keys if and only if all supplied values are safe. */
  lemma RestoredIffSafe(quoted: string -> string, text: string, secrets: seq<Binding>, env: Env, override: bool)
    requires Shrinks(quoted) && KeepsLines(quoted) && Distinct(secrets) && PlainSecrets(secrets)
    requires LeftToFile(secrets, env, override)
    ensures (forall k :: Restored(quoted, text, secrets, env, override, k)) <==> SafeSecrets(secrets)
  {
    if SafeSecrets(secrets) {
      forall k ensures Restored(quoted, text, secrets, env, override, k) {
        LoadAfterWrite(quoted, text, secrets, env, override, k);
      }
    }
    if forall k :: Restored(quoted, text, secrets, env, override, k) {
      forall i | 0 <= i < |secrets| && secrets[i].value != "" ensures OneLine(secrets[i].value) {
        assert Restored(quoted, text, secrets, env, override, secrets[i].key);
        RestoredIsOneLine(quoted, text, secrets, env, override, i);
      }
      forall i | 0 <= i < |secrets| && secrets[i].value != "" ensures SafeValue(secrets[i].value) {
        RestoredIsSafe(quoted, text, secrets, env, override, i);
      }
    }
  }
}
