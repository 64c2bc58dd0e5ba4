/** Writing and loading `.env` files: `write_env_file` of the wizard and `load_dotenv`. */
module DotEnv {
  import opened Text

  datatype Binding = Binding(key: string, value: string)

  const EXPORT := "export "

  // ---- loading ------------------------------------------------------------------------

  function FirstEq(s: string): (i: nat)
    ensures i <= |s|
    ensures forall j | 0 <= j < i :: s[j] != '='
    ensures i < |s| ==> s[i] == '='
  {
    FirstEqFrom(s, 0)
  }

  function FirstEqFrom(s: string, n: nat): (i: nat)
    requires n <= |s|
    ensures n <= i <= |s|
    ensures forall j | n <= j < i :: s[j] != '='
    ensures i < |s| ==> s[i] == '='
    decreases |s| - n
  {
    if n == |s| || s[n] == '=' then n else FirstEqFrom(s, n + 1)
  }

  /** The index of the first " #", or the length. */
  function FirstComment(s: string): (i: nat)
    ensures i <= |s|
    ensures i < |s| <==> HasComment(s)
  {
    FirstCommentFrom(s, 0)
  }

  predicate CommentAt(s: string, i: int) {
    0 <= i && i + 1 < |s| && s[i] == ' ' && s[i + 1] == '#'
  }

  function FirstCommentFrom(s: string, n: nat): (i: nat)
    requires n <= |s|
    ensures n <= i <= |s|
    ensures i < |s| ==> CommentAt(s, i)
    ensures forall j | n <= j < i :: !CommentAt(s, j)
    decreases |s| - n
  {
    if n == |s| || CommentAt(s, n) then n else FirstCommentFrom(s, n + 1)
  }

  ghost predicate HasComment(s: string) {
    exists i :: CommentAt(s, i)
  }

  predicate IsQuote(c: char) {
    c == '"' || c == '\''
  }

  /** `_parse_value`; `quoted` is the foreign shell parser applied to values that open with a quote. */
  function ParseValue(quoted: string -> string, value: string): string {
    if value == "" then ""
    else if IsQuote(value[0]) then quoted(value)
    else Strip(value[..FirstComment(value)])
  }

  function LoadBody(s: string): string {
    if StartsWith(s, EXPORT) then Strip(s[|EXPORT|..]) else s
  }

  /** What one line of the file binds. */
  function LoadLine(quoted: string -> string, raw: string): Option<Binding> {
    var s := Strip(raw);
    if s == "" || s[0] == '#' then None
    else
      var body := LoadBody(s);
      var eq := FirstEq(body);
      if eq == |body| then None
      else
        var key := Strip(body[..eq]);
        if key == "" then None else Some(Binding(key, ParseValue(quoted, Strip(body[eq + 1..]))))
  }

  function LinesBindings(quoted: string -> string, lines: seq<string>): seq<Binding> {
    if lines == [] then []
    else
      var later := LinesBindings(quoted, lines[1..]);
      match LoadLine(quoted, lines[0])
      case None => later
      case Some(b) => [b] + later
  }

  function Bindings(quoted: string -> string, text: string): seq<Binding> {
    LinesBindings(quoted, SplitLines(text))
  }

  type Env = map<string, string>

  /** Without override the environment, then the first line wins; with override the last line. */
  function Absorb(env: Env, bindings: seq<Binding>, override: bool): Env
    decreases |bindings|
  {
    if bindings == [] then env
    else
      var b := bindings[0];
      Absorb(if !override && b.key in env then env else env[b.key := b.value], bindings[1..], override)
  }

  /** `load_dotenv` on an existing file: the new environment and the variables it set. */
  method LoadDotEnv(quoted: string -> string, text: string, env: Env, override: bool) returns (after: Env, loaded: Env)
    ensures after == Absorb(env, Bindings(quoted, text), override)
    ensures forall k | k in loaded :: k in after && loaded[k] == after[k]
    ensures forall k | k !in loaded :: (k in after <==> k in env) && (k in env ==> after[k] == env[k])
  {
    after, loaded := env, map[];
    var lines := SplitLines(text);
    for n := 0 to |lines|
      invariant Absorb(env, Bindings(quoted, text), override) == Absorb(after, LinesBindings(quoted, lines[n..]), override)
      invariant forall k | k in loaded :: k in after && loaded[k] == after[k]
      invariant forall k | k !in loaded :: (k in after <==> k in env) && (k in env ==> after[k] == env[k])
    {
      assert lines[n..][1..] == lines[n + 1..];
      match LoadLine(quoted, lines[n]) {
        case None =>
        case Some(b) =>
          assert ([b] + LinesBindings(quoted, lines[n + 1..]))[1..] == LinesBindings(quoted, lines[n + 1..]);
          if override || b.key !in after {
            after := after[b.key := b.value];
            loaded := loaded[b.key := b.value];
          }
      }
    }
    assert lines[|lines|..] == [];
  }

  // ---- writing ----------------------------------------------------------------------------

  function WriteBody(s: string): string {
    if StartsWith(s, EXPORT) then LStrip(s[|EXPORT|..]) else s
  }

  /** The key a line assigns, as `_classify_env_keys` and `_rewrite_env_placeholders` read it. */
  function LineKey(raw: string): Option<string> {
    var s := Strip(raw);
    if s == "" || s[0] == '#' then None
    else
      var body := WriteBody(s);
      var eq := FirstEq(body);
      if eq == |body| then None else Some(Strip(body[..eq]))
  }

  /** Both classes of existing keys together: with a value, or empty placeholders. */
  function ExistingKeys(lines: seq<string>): set<string> {
    if lines == [] then {}
    else
      ExistingKeys(lines[1..]) + (match LineKey(lines[0]) case None => {} case Some(k) => if k == "" then {} else {k})
  }

  function LStripLength(s: string): (n: nat)
    ensures n == |s| - |LStrip(s)| && LStrip(s) == s[n..]
  {
    if s != "" && IsSpace(s[0]) then 1 + LStripLength(s[1..]) else 0
  }

  function Prefix(s: string): string {
    if StartsWith(s, EXPORT) then s[..|EXPORT| + LStripLength(s[|EXPORT|..])] else ""
  }

  function RewriteLine(raw: string, overwrites: Env): string {
    match LineKey(raw)
    case None => raw
    case Some(key) => if key in overwrites then Prefix(Strip(raw)) + key + "=" + overwrites[key] else raw
  }

  function RewriteLines(lines: seq<string>, overwrites: Env): (r: seq<string>)
    ensures |r| == |lines|
  {
    if lines == [] then [] else [RewriteLine(lines[0], overwrites)] + RewriteLines(lines[1..], overwrites)
  }

  predicate EndsWithNewline(text: string) {
    text != "" && text[|text| - 1] == '\n'
  }

  function Rewrite(text: string, overwrites: Env): string {
    Join(RewriteLines(SplitLines(text), overwrites), "\n") + (if EndsWithNewline(text) then "\n" else "")
  }

  /** The supplied values of keys the file already has, and the lines for the others. */
  function Overwrites(secrets: seq<Binding>, existing: set<string>): Env {
    if secrets == [] then map[]
    else
      var later := Overwrites(secrets[1..], existing);
      if secrets[0].value != "" && secrets[0].key in existing && secrets[0].key !in later
      then later[secrets[0].key := secrets[0].value] else later
  }

  function Appended(secrets: seq<Binding>, existing: set<string>): seq<Binding> {
    if secrets == [] then []
    else if secrets[0].value != "" && secrets[0].key !in existing then [secrets[0]] + Appended(secrets[1..], existing)
    else Appended(secrets[1..], existing)
  }

  function Lines(bindings: seq<Binding>): seq<string> {
    if bindings == [] then [] else [bindings[0].key + "=" + bindings[0].value] + Lines(bindings[1..])
  }

  /** The file text that `write_env_file` leaves. */
  function Written(text: string, secrets: seq<Binding>): string {
    var existing := ExistingKeys(SplitLines(text));
    var overwrites := Overwrites(secrets, existing);
    var newLines := Lines(Appended(secrets, existing));
    if overwrites == map[] && newLines == [] then text
    else
      var base := if overwrites == map[] then text else Rewrite(text, overwrites);
      var base := if base != "" && !EndsWithNewline(base) then base + "\n" else base;
      base + (if newLines == [] then "" else Join(newLines, "\n") + "\n")
  }

  function Keys(bindings: seq<Binding>): seq<string> {
    if bindings == [] then []
    else (if bindings[0].value != "" then [bindings[0].key] else []) + Keys(bindings[1..])
  }

  ghost predicate Distinct(secrets: seq<Binding>) {
    forall i, j | 0 <= i < j < |secrets| :: secrets[i].key != secrets[j].key
  }

  /** What the loop has accumulated, and what the remaining secrets will add, make up the whole. */
  ghost predicate Progress(secrets: seq<Binding>, n: nat, existing: set<string>, added: seq<string>, overwrites: Env,
                           newLines: seq<string>)
  {
    && n <= |secrets|
    && added + Keys(secrets[n..]) == Keys(secrets)
    && overwrites + Overwrites(secrets[n..], existing) == Overwrites(secrets, existing)
    && newLines + Lines(Appended(secrets[n..], existing)) == Lines(Appended(secrets, existing))
  }

  lemma ProgressStart(secrets: seq<Binding>, existing: set<string>)
    ensures Progress(secrets, 0, existing, [], map[], [])
  {
    assert secrets[0..] == secrets;
    assert map[] + Overwrites(secrets, existing) == Overwrites(secrets, existing);
  }

  lemma ProgressEnd(secrets: seq<Binding>, existing: set<string>, added: seq<string>, overwrites: Env, newLines: seq<string>)
    requires Progress(secrets, |secrets|, existing, added, overwrites, newLines)
    ensures added == Keys(secrets) && overwrites == Overwrites(secrets, existing)
    ensures newLines == Lines(Appended(secrets, existing))
  {
    assert secrets[|secrets|..] == [];
    assert added + [] == added && newLines + [] == newLines && overwrites + map[] == overwrites;
  }

  lemma ProgressStep(secrets: seq<Binding>, n: nat, existing: set<string>, added: seq<string>, overwrites: Env,
                     newLines: seq<string>)
    requires Distinct(secrets) && n < |secrets|
    requires Progress(secrets, n, existing, added, overwrites, newLines)
    ensures var b := secrets[n];
            Progress(secrets, n + 1, existing,
                     if b.value != "" then added + [b.key] else added,
                     if b.value != "" && b.key in existing then overwrites[b.key := b.value] else overwrites,
                     if b.value != "" && b.key !in existing then newLines + [b.key + "=" + b.value] else newLines)
  {
    var b, rest := secrets[n], secrets[n + 1..];
    SecretsStep(secrets, n, existing);
    if b.value != "" {
      Shift(added, b.key, Keys(rest));
      if b.key in existing {
        MapShift(overwrites, b.key, b.value, Overwrites(rest, existing));
        assert [] + Lines(Appended(rest, existing)) == Lines(Appended(rest, existing));
      } else {
        Shift(newLines, b.key + "=" + b.value, Lines(Appended(rest, existing)));
      }
    } else {
      assert [] + Keys(rest) == Keys(rest);
      assert [] + Lines(Appended(rest, existing)) == Lines(Appended(rest, existing));
    }
  }

  lemma Shift(a: seq<string>, x: string, later: seq<string>)
    ensures (a + [x]) + later == a + ([x] + later)
  {
  }

  /** `write_env_file`; None is a missing file. */
  method WriteEnvFile(existing: Option<string>, secrets: seq<Binding>) returns (content: string, added: seq<string>)
    requires Distinct(secrets)
    ensures content == Written(if existing == None then "" else existing.value, secrets)
    ensures added == Keys(secrets)
  {
    var text := if existing == None then "" else existing.value;
    var existingKeys := ExistingKeys(SplitLines(text));
    added := [];
    var overwrites: Env := map[];
    var newLines := [];
    ProgressStart(secrets, existingKeys);
    for n := 0 to |secrets|
      invariant Progress(secrets, n, existingKeys, added, overwrites, newLines)
    {
      var b := secrets[n];
      ProgressStep(secrets, n, existingKeys, added, overwrites, newLines);
      if b.value != "" {
        if b.key in existingKeys {
          overwrites := overwrites[b.key := b.value];
        } else {
          newLines := newLines + [b.key + "=" + b.value];
        }
        added := added + [b.key];
      }
    }
    ProgressEnd(secrets, existingKeys, added, overwrites, newLines);
    content := Assemble(text, overwrites, newLines);
  }

  method Assemble(text: string, overwrites: Env, newLines: seq<string>) returns (content: string)
    ensures content == if overwrites == map[] && newLines == [] then text
                       else
                         var base := if overwrites == map[] then text else Rewrite(text, overwrites);
                         var base := if base != "" && !EndsWithNewline(base) then base + "\n" else base;
                         base + (if newLines == [] then "" else Join(newLines, "\n") + "\n")
  {
    if overwrites == map[] && newLines == [] { return text; }
    var base := text;
    if overwrites != map[] { base := Rewrite(text, overwrites); }
    if base != "" && !EndsWithNewline(base) { base := base + "\n"; }
    content := base + (if newLines == [] then "" else Join(newLines, "\n") + "\n");
  }

  lemma MapShift(m: Env, k: string, v: string, later: Env)
    requires k !in later
    ensures m[k := v] + later == m + later[k := v]
  {
  }

  lemma SecretsStep(secrets: seq<Binding>, n: nat, existing: set<string>)
    requires Distinct(secrets) && n < |secrets|
    ensures var b, rest := secrets[n], secrets[n + 1..];
            && Keys(secrets[n..]) == (if b.value != "" then [b.key] else []) + Keys(rest)
            && b.key !in Overwrites(rest, existing)
            && Overwrites(secrets[n..], existing)
            == (if b.value != "" && b.key in existing then Overwrites(rest, existing)[b.key := b.value]
                else Overwrites(rest, existing))
            && Lines(Appended(secrets[n..], existing))
            == (if b.value != "" && b.key !in existing then [b.key + "=" + b.value] else [])
               + Lines(Appended(rest, existing))
  {
    var rest := secrets[n + 1..];
    assert secrets[n..][1..] == rest;
    OverwritesKeys(rest, existing);
    forall i | 0 <= i < |rest| ensures rest[i].key != secrets[n].key { assert rest[i] == secrets[n + 1 + i]; }
    assert Appended(secrets[n..], existing)
        == (if secrets[n].value != "" && secrets[n].key !in existing then [secrets[n]] else []) + Appended(rest, existing);
  }

  lemma {:induction false} OverwritesKeys(secrets: seq<Binding>, existing: set<string>)
    ensures forall k | k in Overwrites(secrets, existing) ::
              k in existing && exists i | 0 <= i < |secrets| :: secrets[i].key == k
  {
    if secrets != [] {
      OverwritesKeys(secrets[1..], existing);
      forall k | k in Overwrites(secrets, existing)
        ensures k in existing && exists i | 0 <= i < |secrets| :: secrets[i].key == k
      {
        if k in Overwrites(secrets[1..], existing) {
          var i :| 0 <= i < |secrets[1..]| && secrets[1..][i].key == k;
          assert secrets[i + 1].key == k;
        } else {
          assert secrets[0].key == k;
        }
      }
    }
  }
}
