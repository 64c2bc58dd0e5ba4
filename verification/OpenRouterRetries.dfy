/** The attempt loop around `_consume_stream`: what is retried, and what the user has been shown by then. */
module OpenRouterRetries {
  import opened JsonText
  import opened Text
  import opened OpenRouterStream

  /** How the byte stream ends: it is closed, a chunk is awaited too long, or reading it raises anything else. */
  datatype StreamEnd = Closes | TimesOut | Breaks

  /** What the network does in one attempt: it refuses before the stream, or yields events until the stream ends. */
  datatype Attempt =
    | Refused(retryable: bool)
    | Streamed(headerId: string, events: seq<Event>, end: StreamEnd)

  datatype Trouble = MayRetry | TimedOut | Fatal

  /** How one attempt ends. */
  function Ends<J>(json: Json<J>, a: Attempt): Result<Turn<J>, Trouble> {
    match a
    case Refused(retryable) => Err(if retryable then MayRetry else Fatal)
    case Streamed(headerId, events, end) =>
      match AbsorbAll(Start(headerId), events)
      case Err(Retryable(_)) => Err(MayRetry)
      case Err(Terminal(_)) => Err(Fatal)
      case Ok(p) =>
        match end
        case TimesOut => Err(TimedOut)
        case Breaks => Err(Fatal)
        case Closes =>
          match Conclude(json, p)
          case Ok(turn) => Ok(turn)
          case Err(_) => Err(Fatal)
  }

  /** The text shown for the events processed; an event that raises shows its own delta first, if any. */
  function ShownFrom(p: Progress, events: seq<Event>): string
    decreases |events|
  {
    if events == [] then ""
    else
      match Absorb(p, events[0])
      case Err(_) => TextOf(events[0])
      case Ok(q) => TextOf(events[0]) + ShownFrom(q, events[1..])
  }

  function Shown(a: Attempt): string {
    if a.Refused? then "" else ShownFrom(Start(a.headerId), a.events)
  }

  /** Does the loop go on after this ending? */
  predicate Repeats<J>(end: Result<Turn<J>, Trouble>) {
    end.Err? && end.error != Fatal
  }

  datatype Report<J> = Report(end: Result<Turn<J>, Trouble>, shown: string, used: nat)

  /** `_stream_attempts` from its `n`-th attempt on. */
  function Tries<J>(json: Json<J>, attempts: seq<Attempt>, n: nat): Report<J>
    requires n < |attempts|
    decreases |attempts| - n
  {
    var end := Ends(json, attempts[n]);
    if Repeats(end) && n + 1 < |attempts| then
      var later := Tries(json, attempts, n + 1);
      later.(shown := Shown(attempts[n]) + later.shown)
    else Report(end, Shown(attempts[n]), n + 1)
  }

  /** One model's attempt budget; `attempts` is what the network would do, one entry for each allowed attempt. */
  method StreamAttempts<J>(json: Json<J>, attempts: seq<Attempt>) returns (r: Report<J>)
    requires attempts != []
    ensures r == Tries(json, attempts, 0)
  {
    var shown := "";
    var attempt := 0;
    while attempt < |attempts|
      invariant attempt < |attempts|
      invariant var rest := Tries(json, attempts, attempt);
                Tries(json, attempts, 0) == rest.(shown := shown + rest.shown)
      decreases |attempts| - attempt
    {
      ghost var rest := Tries(json, attempts, attempt);
      var end := Ends(json, attempts[attempt]);
      ghost var before := shown;
      shown := shown + Shown(attempts[attempt]);
      if end.Ok? || end.error == Fatal || attempt == |attempts| - 1 {
        return Report(end, shown, attempt + 1);
      }
      Regroup(before, Shown(attempts[attempt]), Tries(json, attempts, attempt + 1).shown);
      attempt := attempt + 1;
    }
  }

  lemma Regroup(a: string, b: string, c: string)
    ensures (a + b) + c == a + (b + c)
  {
  }

  /** A refused attempt is retried when its status allows it. */
  lemma RefusedEnds<J>(json: Json<J>, retryable: bool)
    ensures Ends(json, Refused(retryable)) == if retryable then Err(MayRetry) else Err(Fatal)
  {
  }

  /** A stream that raises is retried when the first event that raises allows it, however the stream ends. */
  lemma RaisingStreamEnds<J>(json: Json<J>, a: Attempt, n: nat)
    requires a.Streamed? && n < |a.events| && Raises(a.events[n]) && forall j | 0 <= j < n :: !Raises(a.events[j])
    ensures var error := a.events[n].error;
            Ends(json, a)
            == if error.Some? && error.value.code.Some? && error.value.code.value in {502, 503, 504, 524}
                  && Emitted(a.events[..n]) == "" && !AnyToolCalls(a.events[..n])
               then Err(MayRetry) else Err(Fatal)
  {
    FirstToRaiseDecides(a.headerId, a.events, n);
  }

  /** Else a timeout may be retried, a broken transport not, and a closed stream is the turn or final. */
  lemma QuietStreamEnds<J>(json: Json<J>, a: Attempt)
    requires a.Streamed? && forall n | 0 <= n < |a.events| :: !Raises(a.events[n])
    ensures a.end.TimesOut? ==> Ends(json, a) == Err(TimedOut)
    ensures a.end.Breaks? ==> Ends(json, a) == Err(Fatal)
    ensures a.end.Closes? ==>
              Ends(json, a) == match Outcome(json, a.headerId, a.events) case Ok(turn) => Ok(turn) case Err(_) => Err(Fatal)
  {
    NothingRaises(Start(a.headerId), a.events);
  }

  /** What a successful stream showed is its text. */
  lemma {:induction false} ShownIsText(p: Progress, events: seq<Event>)
    ensures AbsorbAll(p, events).Ok? ==> ShownFrom(p, events) == Emitted(events)
    decreases |events|
  {
    if events != [] && Absorb(p, events[0]).Ok? {
      ShownIsText(Absorb(p, events[0]).value, events[1..]);
    }
  }

  /** A turn's text is exactly what its attempt showed. */
  lemma TurnTextIsShown<J>(json: Json<J>, a: Attempt)
    requires Ends(json, a).Ok?
    ensures Ends(json, a).value.text == Shown(a)
  {
    ShownIsText(Start(a.headerId), a.events);
    TextIsEmitted(Start(a.headerId), a.events);
    assert "" + Emitted(a.events) == Emitted(a.events);
  }

  lemma {:induction false} RetryShowsNothing(p: Progress, events: seq<Event>)
    requires AbsorbAll(p, events).Err? && AbsorbAll(p, events).error.Retryable?
    ensures p.text == "" && ShownFrom(p, events) == ""
    decreases |events|
  {
    var step := Absorb(p, events[0]);
    if step.Ok? {
      RetryShowsNothing(step.value, events[1..]);
      assert |step.value.text| == |p.text| + |TextOf(events[0])|;
    }
  }

  /** Only a timeout can be repeated after text was shown. */
  lemma OnlyTimeoutsRepeatText<J>(json: Json<J>, a: Attempt)
    requires Ends(json, a) == Err(MayRetry)
    ensures Shown(a) == ""
  {
    if a.Streamed? { RetryShowsNothing(Start(a.headerId), a.events); }
  }

  /** An attempt that timed out without having shown text, or that did not time out. */
  ghost predicate Quiet<J>(json: Json<J>, a: Attempt) {
    Ends(json, a) == Err(TimedOut) ==> Shown(a) == ""
  }

  /** No attempt that timed out between `n` and `last` had shown text. */
  ghost predicate QuietTimeouts<J>(json: Json<J>, attempts: seq<Attempt>, n: nat, last: nat)
    requires last <= |attempts|
  {
    forall i | n <= i < last :: Quiet(json, attempts[i])
  }

  lemma RepeatedIsEmptyIffQuiet<J>(json: Json<J>, a: Attempt)
    requires Repeats(Ends(json, a))
    ensures Shown(a) == "" <==> Quiet(json, a)
  {
    if Ends(json, a) == Err(MayRetry) { OnlyTimeoutsRepeatText(json, a); }
  }

  lemma TriesStep<J>(json: Json<J>, attempts: seq<Attempt>, n: nat)
    requires n < |attempts| && Tries(json, attempts, n).end.Ok? && Repeats(Ends(json, attempts[n]))
    ensures n + 1 < |attempts|
    ensures var later := Tries(json, attempts, n + 1);
            Tries(json, attempts, n) == Report(later.end, Shown(attempts[n]) + later.shown, later.used)
  {
  }

  lemma QuietStep<J>(json: Json<J>, attempts: seq<Attempt>, n: nat, last: nat)
    requires n < last <= |attempts|
    ensures QuietTimeouts(json, attempts, n, last)
       <==> Quiet(json, attempts[n]) && QuietTimeouts(json, attempts, n + 1, last)
  {
  }

  lemma PrefixMatters(a: string, b: string, text: string)
    requires |text| <= |b|
    ensures |text| <= |a + b| && (a + b == text <==> a == "" && b == text)
  {
    assert a == "" ==> a + b == b;
  }

  /** What holds of the report of the attempts from `n` on. */
  ghost predicate ShownOnceIffQuiet<J>(json: Json<J>, attempts: seq<Attempt>, n: nat, r: Report<J>) {
    && r.end.Ok? && n < r.used <= |attempts| && |r.end.value.text| <= |r.shown|
    && (r.shown == r.end.value.text <==> QuietTimeouts(json, attempts, n, r.used - 1))
  }

  lemma LastTry<J>(json: Json<J>, attempts: seq<Attempt>, n: nat)
    requires n < |attempts| && Ends(json, attempts[n]).Ok?
    ensures ShownOnceIffQuiet(json, attempts, n, Tries(json, attempts, n))
  {
    TurnTextIsShown(json, attempts[n]);
  }

  lemma EarlierTry<J>(json: Json<J>, attempts: seq<Attempt>, n: nat, later: Report<J>)
    requires n < |attempts| && Repeats(Ends(json, attempts[n]))
    requires ShownOnceIffQuiet(json, attempts, n + 1, later)
    ensures ShownOnceIffQuiet(json, attempts, n, later.(shown := Shown(attempts[n]) + later.shown))
  {
    RepeatedIsEmptyIffQuiet(json, attempts[n]);
    QuietStep(json, attempts, n, later.used - 1);
    PrefixMatters(Shown(attempts[n]), later.shown, later.end.value.text);
  }

  lemma {:induction false} ShownOnceFrom<J>(json: Json<J>, attempts: seq<Attempt>, n: nat)
    requires n < |attempts| && Tries(json, attempts, n).end.Ok?
    ensures ShownOnceIffQuiet(json, attempts, n, Tries(json, attempts, n))
    decreases |attempts| - n
  {
    if Repeats(Ends(json, attempts[n])) {
      TriesStep(json, attempts, n);
      ShownOnceFrom(json, attempts, n + 1);
      EarlierTry(json, attempts, n, Tries(json, attempts, n + 1));
    } else {
      LastTry(json, attempts, n);
    }
  }

  /**
   * The user sees the text of the returned turn exactly once if and only if no attempt that timed out
   * on the way had shown text. (A timeout does not mean that nothing was shown: the timer restarts at
   * every chunk.)
   */
  lemma NothingIsShownTwiceIff<J>(json: Json<J>, attempts: seq<Attempt>)
    requires attempts != [] && Tries(json, attempts, 0).end.Ok?
    ensures var r := Tries(json, attempts, 0);
            && 0 < r.used <= |attempts|
            && (r.shown == r.end.value.text
                <==> forall i | 0 <= i < r.used - 1 && Ends(json, attempts[i]) == Err(TimedOut) :: Shown(attempts[i]) == "")
  {
    ShownOnceFrom(json, attempts, 0);
    var r := Tries(json, attempts, 0);
    assert QuietTimeouts(json, attempts, 0, r.used - 1)
      <==> forall i | 0 <= i < r.used - 1 :: Quiet(json, attempts[i]);
  }

  // ---- the fallback model --------------------------------------------------------------------------------

  /** `_stream_one_turn`: a primary budget that ends in a timeout is followed by the budget of the fallback model, if any. */
  function TurnReport<J>(json: Json<J>, primary: seq<Attempt>, fallback: Option<seq<Attempt>>): Report<J>
    requires primary != [] && (fallback.Some? ==> fallback.value != [])
  {
    var first := Tries(json, primary, 0);
    if first.end == Err(TimedOut) && fallback.Some? then
      var second := Tries(json, fallback.value, 0);
      Report(second.end, first.shown + second.shown, first.used + second.used)
    else first
  }

  method StreamOneTurn<J>(json: Json<J>, primary: seq<Attempt>, fallback: Option<seq<Attempt>>) returns (r: Report<J>)
    requires primary != [] && (fallback.Some? ==> fallback.value != [])
    ensures r == TurnReport(json, primary, fallback)
  {
    r := StreamAttempts(json, primary);
    if r.end == Err(TimedOut) && fallback.Some? {
      var second := StreamAttempts(json, fallback.value);
      r := Report(second.end, r.shown + second.shown, r.used + second.used);
    }
  }

  /** The fallback budget continues a timed-out primary budget as if it had been one longer budget. */
  lemma {:induction false} FallbackExtends<J>(json: Json<J>, primary: seq<Attempt>, fallback: seq<Attempt>, n: nat)
    requires n < |primary| && fallback != [] && Tries(json, primary, n).end == Err(TimedOut)
    ensures var first, second := Tries(json, primary, n), Tries(json, fallback, 0);
            && first.used == |primary|
            && Tries(json, primary + fallback, n)
               == Report(second.end, first.shown + second.shown, first.used + second.used)
    decreases |primary| - n
  {
    var whole := primary + fallback;
    assert whole[n] == primary[n] && Repeats(Ends(json, primary[n]));
    if n + 1 < |primary| {
      FallbackExtends(json, primary, fallback, n + 1);
      Regroup(Shown(primary[n]), Tries(json, primary, n + 1).shown, Tries(json, fallback, 0).shown);
    } else {
      TriesLater(json, primary, fallback, 0);
    }
  }

  /** Attempts tried first and finished do not matter to the later ones. */
  lemma {:induction false} TriesLater<J>(json: Json<J>, earlier: seq<Attempt>, attempts: seq<Attempt>, n: nat)
    requires n < |attempts|
    ensures var r := Tries(json, attempts, n);
            Tries(json, earlier + attempts, |earlier| + n) == r.(used := |earlier| + r.used)
    decreases |attempts| - n
  {
    assert (earlier + attempts)[|earlier| + n] == attempts[n];
    if n + 1 < |attempts| { TriesLater(json, earlier, attempts, n + 1); }
  }

  /**
   * Over both budgets the user sees the text of the returned turn exactly once if and only if no attempt that
   * timed out before the last one, of either model, had shown text.
   */
  lemma TurnIsShownOnceIff<J>(json: Json<J>, primary: seq<Attempt>, fallback: Option<seq<Attempt>>)
    requires primary != [] && (fallback.Some? ==> fallback.value != [])
    requires TurnReport(json, primary, fallback).end.Ok?
    ensures var attempts := primary + (if fallback.Some? then fallback.value else []);
            var r := TurnReport(json, primary, fallback);
            && 0 < r.used <= |attempts|
            && (r.shown == r.end.value.text
                <==> forall i | 0 <= i < r.used - 1 && Ends(json, attempts[i]) == Err(TimedOut) :: Shown(attempts[i]) == "")
  {
    if Tries(json, primary, 0).end == Err(TimedOut) && fallback.Some? {
      FallbackExtends(json, primary, fallback.value, 0);
      NothingIsShownTwiceIff(json, primary + fallback.value);
    } else {
      var attempts := primary + (if fallback.Some? then fallback.value else []);
      assert forall i | 0 <= i < |primary| :: attempts[i] == primary[i];
      NothingIsShownTwiceIff(json, primary);
      assert forall i | 0 <= i < |primary| :: Quiet(json, attempts[i]) <==> Quiet(json, primary[i]);
    }
  }

  /** A stall after text, then a clean stream of the same answer: the text is shown twice. */
  lemma StalledTextIsShownTwice<J>(json: Json<J>, headerId: string, text: string)
    requires text != ""
    ensures var piece := Event("", None, Some(Choice(Some(Delta(text, [])), None)));
            var stop := Event("", None, Some(Choice(None, Some("stop"))));
            var attempts := [Streamed(headerId, [piece], TimesOut), Streamed(headerId, [piece, stop], Closes)];
            var r := Tries(json, attempts, 0);
            r.end.Ok? && r.end.value.text == text && r.shown == text + text
  {
    var piece := Event("", None, Some(Choice(Some(Delta(text, [])), None)));
    var stop := Event("", None, Some(Choice(None, Some("stop"))));
    var first, second := Streamed(headerId, [piece], TimesOut), Streamed(headerId, [piece, stop], Closes);
    assert [piece][1..] == [] && [piece, stop][1..] == [stop] && [stop][1..] == [];
    var p := Absorb(Start(headerId), piece).value;
    assert p.text == "" + text == text;
    assert AbsorbAll(Start(headerId), [piece]) == Ok(p);
    assert ShownFrom(Start(headerId), [piece]) == text + "" == text;
    var q := Absorb(p, stop).value;
    assert AbsorbAll(p, [stop]) == Ok(q) && AbsorbAll(Start(headerId), [piece, stop]) == Ok(q);
    assert ShownFrom(p, [stop]) == "" + "" == "";
    assert ShownFrom(Start(headerId), [piece, stop]) == text + "" == text;
    assert Conclude(json, q).Ok?;
    assert Ends(json, first) == Err(TimedOut) && Ends(json, second).Ok?;
    var attempts := [first, second];
    assert Tries(json, attempts, 1).shown == text;
  }
}
