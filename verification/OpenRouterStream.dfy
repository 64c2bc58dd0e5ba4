/** `_consume_stream`: accumulating text and tool-call deltas, and ending the turn. */
module OpenRouterStream {
  import opened JsonText
  import opened Text
  import opened SseFraming
  import opened OpenRouterSse
  import opened ToolCalls

  /** A non-empty `delta` object; missing content is the empty string. */
  datatype Delta = Delta(content: string, toolCalls: seq<ToolDelta>)

  datatype Choice = Choice(delta: Option<Delta>, finishReason: Option<string>)

  datatype ErrorInfo = ErrorInfo(code: Option<int>, message: string)

  /** One decoded event; a missing or empty id is "". `choice` is the first choice, if any. */
  datatype Event = Event(id: string, error: Option<ErrorInfo>, choice: Option<Choice>)

  datatype Failure = Retryable(status: int) | Terminal(message: string)

  /** The final chunk, reduced to the id that `translate_response` reads. */
  datatype Progress = Progress(text: string, deltas: seq<Delta>, final: Option<string>, lastId: string)

  datatype Turn<J> = Turn(responseId: string, text: string, calls: seq<ToolCall<J>>)

  predicate TransientStatus(code: int) {
    code in {502, 503, 504, 524}
  }

  function CallFragments(deltas: seq<Delta>): seq<seq<ToolDelta>> {
    if deltas == [] then [] else [deltas[0].toolCalls] + CallFragments(deltas[1..])
  }

  predicate HaveToolCalls(deltas: seq<Delta>) {
    exists d | d in deltas :: d.toolCalls != []
  }

  /** `_raise_stream_error`. */
  function StreamError(p: Progress, code: Option<int>, message: string): Failure {
    if code.Some? && TransientStatus(code.value) && p.text == "" && !HaveToolCalls(p.deltas)
    then Retryable(code.value) else Terminal(message)
  }

  /** The body of the event loop. */
  function Absorb(p: Progress, event: Event): Result<Progress, Failure> {
    var p := if event.id != "" then p.(lastId := event.id) else p;
    if event.error.Some? then Err(StreamError(p, event.error.value.code, event.error.value.message))
    else if event.choice == None then Ok(p.(final := Some(event.id)))
    else
      var choice := event.choice.value;
      var p := if choice.delta == None then p
               else p.(text := p.text + choice.delta.value.content, deltas := p.deltas + [choice.delta.value]);
      if choice.finishReason == Some("error") then Err(StreamError(p, None, "mid-stream error"))
      else if choice.finishReason.Some? then Ok(p.(final := Some(event.id)))
      else Ok(p)
  }

  function AbsorbAll(p: Progress, events: seq<Event>): Result<Progress, Failure>
    decreases |events|
  {
    if events == [] then Ok(p)
    else
      match Absorb(p, events[0])
      case Err(f) => Err(f)
      case Ok(q) => AbsorbAll(q, events[1..])
  }

  /** A rebuilt call that a cut-off stream cannot have left half built, as far as the code can tell. */
  predicate LooksComplete<J>(json: Json<J>, call: ToolCall<J>) {
    call.name != "" && call.arguments.Decoded? && json.lacksRawKey(call.arguments.json)
  }

  function Conclude<J>(json: Json<J>, p: Progress): Result<Turn<J>, Failure> {
    var calls := Calls(json, Flatten(CallFragments(p.deltas)));
    var complete := calls != [] && forall k | 0 <= k < |calls| :: LooksComplete(json, calls[k]);
    if p.final == None && !(HaveToolCalls(p.deltas) && complete) && !(p.text != "" && !HaveToolCalls(p.deltas))
    then Err(Terminal("openrouter stream ended without a final chunk"))
    else
      var finalId := if p.final == None then p.lastId else p.final.value;
      Ok(Turn(if finalId != "" then finalId else p.lastId, p.text, calls))
  }

  function Start(headerId: string): Progress {
    Progress("", [], None, headerId)
  }

  /** The whole consumption as a function of the decoded events. */
  function Outcome<J>(json: Json<J>, headerId: string, events: seq<Event>): Result<Turn<J>, Failure> {
    match AbsorbAll(Start(headerId), events)
    case Err(f) => Err(f)
    case Ok(p) => Conclude(json, p)
  }

  lemma {:induction false} AbsorbAllAppend(p: Progress, a: seq<Event>, b: seq<Event>)
    ensures AbsorbAll(p, a + b)
         == match AbsorbAll(p, a) case Err(f) => Err(f) case Ok(q) => AbsorbAll(q, b)
    decreases |a|
  {
    if a == [] {
      assert a + b == b;
    } else {
      assert (a + b)[1..] == a[1..] + b;
      match Absorb(p, a[0]) {
        case Err(f) =>
        case Ok(q) => AbsorbAllAppend(q, a[1..], b);
      }
    }
  }

  /**
   * The chunk loop of one attempt. Reading ends when the byte iterator is exhausted; it does not
   * end at `[DONE]`, after which `feed` yields nothing.
   */
  method ConsumeStream<J>(codec: Codec<Event>, json: Json<J>, headerId: string, chunks: seq<Bytes>)
    returns (r: Result<Turn<J>, Failure>)
    ensures r == Outcome(json, headerId, FeedEach(codec, [], chunks).events)
  {
    var parser := new SseParser(codec);
    var p := Start(headerId);
    ghost var seen: seq<Event> := [];
    for k := 0 to |chunks|
      invariant parser.codec == codec
      invariant AbsorbAll(Start(headerId), seen) == Ok(p)
      invariant FeedEach(codec, [], chunks)
             == Parse(seen, parser.stopped).Then(FeedEach(codec, parser.buffer, chunks[k..]))
    {
      ghost var stopped := parser.stopped;
      ghost var later := FeedEach(codec, parser.buffer, chunks[k..]);
      var events := parser.Feed(chunks[k]);
      AbsorbAllAppend(Start(headerId), seen, events);
      var step := AbsorbEvents(p, events);
      assert chunks[k..][1..] == chunks[k + 1..];
      ghost var soFar := seen;
      seen := seen + events;
      if !stopped {
        ParseAssociates(Parse(soFar, false), Parse(events, parser.stopped),
                        FeedEach(codec, parser.buffer, chunks[k + 1..]));
      } else {
        assert soFar + [] == soFar;
      }
      if step.Err? {
        ghost var all := FeedEach(codec, [], chunks).events;
        assert seen <= all && all == seen + all[|seen|..];
        AbsorbAllAppend(Start(headerId), seen, all[|seen|..]);
        return Err(step.error);
      }
      p := step.value;
    }
    assert seen + [] == seen;
    r := Conclude(json, p);
  }

  method AbsorbEvents(start: Progress, events: seq<Event>) returns (r: Result<Progress, Failure>)
    ensures r == AbsorbAll(start, events)
  {
    var p := start;
    for k := 0 to |events|
      invariant AbsorbAll(start, events) == AbsorbAll(p, events[k..])
    {
      assert events[k..][1..] == events[k + 1..];
      var step := Absorb(p, events[k]);
      if step.Err? { return Err(step.error); }
      p := step.value;
    }
    r := Ok(p);
  }

  // ---- what an attempt guarantees ----------------------------------------------

  /** The turn, or the error, does not depend on how the transport cuts the bytes. */
  lemma OutcomeIgnoresChunking<J>(codec: Codec<Event>, json: Json<J>, headerId: string,
                                        a: seq<Bytes>, b: seq<Bytes>)
    requires Concat(a) == Concat(b) && !HasCrCrLf(Concat(a))
    ensures Outcome(json, headerId, FeedEach(codec, [], a).events)
         == Outcome(json, headerId, FeedEach(codec, [], b).events)
  {
    EventsIgnoreChunking(codec, a);
    EventsIgnoreChunking(codec, b);
  }

  function TextOf(event: Event): string {
    if event.error.Some? || event.choice == None || event.choice.value.delta == None then ""
    else event.choice.value.delta.value.content
  }

  /** The text handed to the event handler for the events processed. */
  function Emitted(events: seq<Event>): string {
    if events == [] then "" else TextOf(events[0]) + Emitted(events[1..])
  }

  predicate CarriesToolCalls(event: Event) {
    event.choice.Some? && event.choice.value.delta.Some? && event.choice.value.delta.value.toolCalls != []
  }

  predicate AnyToolCalls(events: seq<Event>) {
    events != [] && (CarriesToolCalls(events[0]) || AnyToolCalls(events[1..]))
  }

  /** The output text is exactly what was streamed out, in order. */
  lemma {:induction false} TextIsEmitted(p: Progress, events: seq<Event>)
    ensures AbsorbAll(p, events).Ok? ==> AbsorbAll(p, events).value.text == p.text + Emitted(events)
    decreases |events|
  {
    if events != [] && Absorb(p, events[0]).Ok? {
      var q := Absorb(p, events[0]).value;
      TextIsEmitted(q, events[1..]);
      assert p.text + "" == p.text;
      assert q.text == p.text + TextOf(events[0]);
    } else if events == [] {
      assert p.text + "" == p.text;
    }
  }

  lemma HaveToolCallsAppend(deltas: seq<Delta>, d: Delta)
    ensures HaveToolCalls(deltas + [d]) <==> HaveToolCalls(deltas) || d.toolCalls != []
  {
    assert forall x :: x in deltas + [d] <==> x in deltas || x == d;
    assert d in deltas + [d];
  }

  lemma {:induction false} DeltasKeepToolCalls(p: Progress, events: seq<Event>)
    ensures var r := AbsorbAll(p, events);
            r.Ok? ==> (HaveToolCalls(r.value.deltas)
                       <==> HaveToolCalls(p.deltas) || AnyToolCalls(events))
    decreases |events|
  {
    if events != [] && Absorb(p, events[0]).Ok? {
      var q := Absorb(p, events[0]).value;
      DeltasKeepToolCalls(q, events[1..]);
      if events[0].choice.Some? && events[0].choice.value.delta.Some? {
        var d := events[0].choice.value.delta.value;
        assert q.deltas == p.deltas + [d];
        HaveToolCallsAppend(p.deltas, d);
      }
    }
  }

  /**
   * The retry signal of a mid-stream error never duplicates output: it is raised by the event after
   * a prefix that streamed no text and carried no tool call, on one of the transient statuses.
   */
  lemma {:induction false} RetryOnlyBeforeOutput(headerId: string, events: seq<Event>, status: int)
    requires AbsorbAll(Start(headerId), events) == Err(Retryable(status))
    ensures TransientStatus(status)
    ensures exists n | 0 <= n < |events| ::
              && events[n].error.Some? && events[n].error.value.code == Some(status)
              && Emitted(events[..n]) == ""
              && !AnyToolCalls(events[..n])
  {
    var n := FailingEvent(Start(headerId), events);
    var p := AbsorbAll(Start(headerId), events[..n]).value;
    TextIsEmitted(Start(headerId), events[..n]);
    DeltasKeepToolCalls(Start(headerId), events[..n]);
  }

  lemma {:induction false} FailingEvent(p: Progress, events: seq<Event>) returns (n: nat)
    requires AbsorbAll(p, events).Err?
    ensures n < |events| && AbsorbAll(p, events[..n]).Ok?
    ensures AbsorbAll(p, events) == match Absorb(AbsorbAll(p, events[..n]).value, events[n])
                                    case Err(f) => Err(f) case Ok(q) => Ok(q)
    ensures Absorb(AbsorbAll(p, events[..n]).value, events[n]).Err?
    decreases |events|
  {
    match Absorb(p, events[0]) {
      case Err(f) =>
        n := 0;
      case Ok(q) =>
        var m := FailingEvent(q, events[1..]);
        n := m + 1;
        assert events[..n][1..] == events[1..][..m];
    }
  }

  /** The event raises: it reports an error, or finishes with one. */
  predicate Raises(event: Event) {
    event.error.Some? || (event.choice.Some? && event.choice.value.finishReason == Some("error"))
  }

  lemma {:induction false} NothingRaises(p: Progress, events: seq<Event>)
    requires forall n | 0 <= n < |events| :: !Raises(events[n])
    ensures AbsorbAll(p, events).Ok?
    decreases |events|
  {
    if events != [] {
      assert !Raises(events[0]);
      assert forall n | 0 <= n < |events[1..]| :: events[1..][n] == events[n + 1];
      NothingRaises(Absorb(p, events[0]).value, events[1..]);
    }
  }

  /**
   * The first event that raises ends the stream: to be retried exactly when it reports 502, 503, 504 or 524 and
   * nothing before it carried text or a tool call, and else for good, with its message.
   */
  lemma FirstToRaiseDecides(headerId: string, events: seq<Event>, n: nat)
    requires n < |events| && Raises(events[n]) && forall j | 0 <= j < n :: !Raises(events[j])
    ensures AbsorbAll(Start(headerId), events)
         == match events[n].error
            case None => Err(Terminal("mid-stream error"))
            case Some(ErrorInfo(code, message)) =>
              if code.Some? && (code.value == 502 || code.value == 503 || code.value == 504 || code.value == 524)
                 && Emitted(events[..n]) == "" && !AnyToolCalls(events[..n])
              then Err(Retryable(code.value)) else Err(Terminal(message))
  {
    var before, rest := events[..n], events[n..];
    assert events == before + rest && rest[0] == events[n];
    NothingRaises(Start(headerId), before);
    AbsorbAllAppend(Start(headerId), before, rest);
    TextIsEmitted(Start(headerId), before);
    DeltasKeepToolCalls(Start(headerId), before);
    assert "" + Emitted(before) == Emitted(before);
  }

  /** The tool-call fragments the events carry, in order. */
  function StreamedFragments(events: seq<Event>): seq<seq<ToolDelta>> {
    if events == [] then []
    else
      var e := events[0];
      (if e.choice.Some? && e.choice.value.delta.Some? then [e.choice.value.delta.value.toolCalls] else [])
      + StreamedFragments(events[1..])
  }

  /** The id of the last event that names one, or the given one. */
  function LastId(id: string, events: seq<Event>): string
    decreases |events|
  {
    if events == [] then id else LastId(if events[0].id != "" then events[0].id else id, events[1..])
  }

  /** The last event without a choice or with a finish reason. */
  function FinalChunk(final: Option<string>, events: seq<Event>): Option<string>
    decreases |events|
  {
    if events == [] then final
    else
      var e := events[0];
      FinalChunk(if e.choice == None || e.choice.value.finishReason.Some? then Some(e.id) else final, events[1..])
  }

  lemma {:induction false} FragmentsAppend(deltas: seq<Delta>, d: Delta)
    ensures CallFragments(deltas + [d]) == CallFragments(deltas) + [d.toolCalls]
  {
    if deltas == [] {
      assert [d][1..] == [] && deltas + [d] == [d];
    } else {
      assert (deltas + [d])[1..] == deltas[1..] + [d];
      FragmentsAppend(deltas[1..], d);
    }
  }

  lemma {:induction false} AbsorbedIds(p: Progress, events: seq<Event>)
    requires AbsorbAll(p, events).Ok?
    ensures AbsorbAll(p, events).value.lastId == LastId(p.lastId, events)
    ensures AbsorbAll(p, events).value.final == FinalChunk(p.final, events)
    decreases |events|
  {
    if events != [] { AbsorbedIds(Absorb(p, events[0]).value, events[1..]); }
  }

  lemma {:induction false} AbsorbedFragments(p: Progress, events: seq<Event>)
    requires AbsorbAll(p, events).Ok?
    ensures CallFragments(AbsorbAll(p, events).value.deltas) == CallFragments(p.deltas) + StreamedFragments(events)
    decreases |events|
  {
    if events == [] {
      assert CallFragments(p.deltas) + [] == CallFragments(p.deltas);
    } else {
      AbsorbedFragments(Absorb(p, events[0]).value, events[1..]);
      AbsorbOne(p, events[0]);
      SplitFragments(CallFragments(p.deltas), events);
    }
  }

  lemma SplitFragments(before: seq<seq<ToolDelta>>, events: seq<Event>)
    requires events != []
    ensures (before + StreamedFragments([events[0]])) + StreamedFragments(events[1..])
         == before + StreamedFragments(events)
  {
    assert [events[0]][1..] == [];
  }

  lemma AbsorbOne(p: Progress, e: Event)
    requires Absorb(p, e).Ok?
    ensures CallFragments(Absorb(p, e).value.deltas) == CallFragments(p.deltas) + StreamedFragments([e])
  {
    assert [e][1..] == [] && CallFragments(p.deltas) + [] == CallFragments(p.deltas);
    if e.choice.Some? && e.choice.value.delta.Some? { FragmentsAppend(p.deltas, e.choice.value.delta.value); }
  }

  /** A turn is its stream: all text, all tool calls, and the final chunk's id or else the last id seen. */
  lemma TurnIsTheStream<J>(json: Json<J>, headerId: string, events: seq<Event>)
    requires Outcome(json, headerId, events).Ok?
    ensures var turn, final := Outcome(json, headerId, events).value, FinalChunk(None, events);
            && turn.text == Emitted(events)
            && turn.calls == Calls(json, Flatten(StreamedFragments(events)))
            && turn.responseId == if final.Some? && final.value != "" then final.value else LastId(headerId, events)
  {
    AbsorbedIds(Start(headerId), events);
    AbsorbedFragments(Start(headerId), events);
    TextIsEmitted(Start(headerId), events);
    assert "" + Emitted(events) == Emitted(events);
    assert CallFragments([]) + StreamedFragments(events) == StreamedFragments(events);
  }

  /** The rebuilt calls are all complete exactly when each index with a fragment finishes complete. */
  lemma AllCompleteIff<J>(json: Json<J>, fragments: seq<ToolDelta>)
    ensures (forall k | 0 <= k < |Calls(json, fragments)| :: LooksComplete(json, Calls(json, fragments)[k]))
       <==> forall i | i in Indices(fragments) :: LooksComplete(json, Finished(json, SlotOf(Own(fragments, i))))
  {
    var order, calls := Sorted(Indices(fragments)), Calls(json, fragments);
    CallsMembers(json, Slots(fragments), order);
    if forall k | 0 <= k < |calls| :: LooksComplete(json, calls[k]) {
      forall i | i in Indices(fragments) ensures LooksComplete(json, Finished(json, SlotOf(Own(fragments, i)))) {
        assert i in order;
        assert Finished(json, Slots(fragments)[i]) in calls;
      }
    }
  }

  lemma SomeCallIff<J>(json: Json<J>, fragments: seq<ToolDelta>)
    ensures Calls(json, fragments) != [] <==> exists t | t in fragments :: t.index.Some?
  {
    var order := Sorted(Indices(fragments));
    CallsMembers(json, Slots(fragments), order);
    if t :| t in fragments && t.index.Some? {
      assert t.index.value in Indices(fragments);
      assert t.index.value in order;
    }
    if order != [] {
      assert order[0] in order;
      assert order[0] in Indices(fragments);
    }
  }

  /** The fragments of one index name a function, and their argument text is JSON without a `raw_arguments` key. */
  predicate Usable<J>(json: Json<J>, own: seq<ToolDelta>) {
    var raw := ArgumentText(own);
    && FirstName(own) != ""
    && (raw == "" || json.loads(raw).Some?)
    && json.lacksRawKey(if raw == "" then json.emptyObject else json.loads(raw).value)
  }

  lemma UsableIff<J>(json: Json<J>, own: seq<ToolDelta>)
    ensures Usable(json, own) <==> LooksComplete(json, Finished(json, SlotOf(own)))
  {
    DecodeStandsFor(json, ArgumentText(own));
  }

  /** Exactly when a stream without a final chunk is still accepted as a turn. */
  lemma TurnWithoutFinalChunk<J>(json: Json<J>, p: Progress)
    requires p.final == None
    ensures Conclude(json, p).Ok?
       <==> if HaveToolCalls(p.deltas)
            then (exists t | t in Flatten(CallFragments(p.deltas)) :: t.index.Some?)
                 && forall i | i in Indices(Flatten(CallFragments(p.deltas))) ::
                      Usable(json, Own(Flatten(CallFragments(p.deltas)), i))
            else p.text != ""
    ensures Conclude(json, p).Err? ==>
              Conclude(json, p) == Err(Terminal("openrouter stream ended without a final chunk"))
  {
    var fragments := Flatten(CallFragments(p.deltas));
    forall i | i in Indices(fragments)
      ensures Usable(json, Own(fragments, i)) <==> LooksComplete(json, Finished(json, SlotOf(Own(fragments, i))))
    {
      UsableIff(json, Own(fragments, i));
    }
    AllCompleteIff(json, Flatten(CallFragments(p.deltas)));
    SomeCallIff(json, Flatten(CallFragments(p.deltas)));
  }
}
