/** The Claude `_consume_stream` as a whole: the parser, the block machine, and the turn at the end. */
module ClaudeStream {
  import opened ClaudeBlocks
  import opened ClaudeSse
  import opened JsonText
  import opened SseFraming
  import opened Text

  /** What a named event is for the stream: an error, the end of the message, or an event for the blocks. */
  datatype Signal<J> = Fails(message: string) | Stops | Carries(event: Event<J>)

  datatype End = Open | Stopped | Failed(message: string)

  /** The events for the blocks, up to the first stop or error. */
  datatype Reading<J> = Reading(events: seq<Event<J>>, end: End)

  datatype Call<J> = Call(id: string, name: string, arguments: Arguments<J>)

  datatype Turn<J> = Turn(responseId: string, text: string, calls: seq<Call<J>>, usage: map<string, int>)

  function Read<P, J>(read: Named<P> -> Signal<J>, named: seq<Named<P>>): Reading<J> {
    if named == [] then Reading([], Open)
    else
      match read(named[0])
      case Fails(message) => Reading([], Failed(message))
      case Stops => Reading([], Stopped)
      case Carries(e) =>
        var later := Read(read, named[1..]);
        Reading([e] + later.events, later.end)
  }

  /** The blocks at the first `n` positions. */
  function BlocksUpTo<J>(json: Json<J>, h: seq<Event<J>>, n: nat): seq<Block<J>>
    requires n <= High(h)
    decreases n
  {
    if n == 0 then []
    else
      SlotIffBelowHigh(json, h, n - 1);
      BlocksUpTo(json, h, n - 1) + [Slot(json, h, n - 1).value.block]
  }

  /** `reconstruct_tool_calls`: the tool blocks, in order. */
  function Calls<J>(json: Json<J>, blocks: seq<Block<J>>): seq<Call<J>> {
    if blocks == [] then []
    else
      var n := |blocks| - 1;
      var block := blocks[n];
      Calls(json, blocks[..n])
      + (if block.kind == "tool_use" then [Call(block.id, block.name, Coerce(json, block.input))] else [])
  }

  method ReconstructToolCalls<J>(json: Json<J>, blocks: seq<Block<J>>) returns (calls: seq<Call<J>>)
    ensures calls == Calls(json, blocks)
  {
    calls := [];
    for n := 0 to |blocks|
      invariant calls == Calls(json, blocks[..n])
    {
      assert blocks[..n + 1][..n] == blocks[..n];
      if blocks[n].kind == "tool_use" {
        calls := calls + [Call(blocks[n].id, blocks[n].name, Coerce(json, blocks[n].input))];
      }
    }
    assert blocks[..|blocks|] == blocks;
  }

  function Outcome<J>(json: Json<J>, r: Reading<J>): Result<Turn<J>, string> {
    if r.end.Failed? then Err(r.end.message)
    else if LastId(r.events) == "" && High(r.events) == 0 then Err("claude stream ended without a message_start event")
    else
      var calls := Calls(json, BlocksUpTo(json, r.events, High(r.events)));
      Ok(Turn(LastId(r.events), AcceptedText(r.events), calls, Usage(r.events)))
  }

  lemma {:induction false} BlocksAre<J>(json: Json<J>, h: seq<Event<J>>, n: nat, blocks: seq<Block<J>>)
    requires n <= High(h) && n <= |blocks|
    requires forall i | 0 <= i < n :: BlockAt(json, h, i) == Some(blocks[i])
    ensures BlocksUpTo(json, h, n) == blocks[..n]
    decreases n
  {
    if n > 0 {
      BlocksAre(json, h, n - 1, blocks);
      SlotIffBelowHigh(json, h, n - 1);
      assert BlockAt(json, h, n - 1) == Some(blocks[n - 1]);
      assert blocks[..n] == blocks[..n - 1] + [blocks[n - 1]];
    }
  }

  /** The turn read off the accumulator. */
  method Finish<J>(acc: Accumulator<J>) returns (r: Result<Turn<J>, string>)
    requires acc.Valid()
    ensures r == Outcome(acc.json, Reading(acc.history, Stopped)) == Outcome(acc.json, Reading(acc.history, Open))
  {
    if acc.messageId == "" && acc.blocks == [] {
      return Err("claude stream ended without a message_start event");
    }
    forall i: nat | i < |acc.blocks| ensures BlockAt(acc.json, acc.history, i) == Some(acc.blocks[i]) {
      assert acc.Holds(i, Slot(acc.json, acc.history, i));
    }
    BlocksAre(acc.json, acc.history, |acc.blocks|, acc.blocks);
    assert acc.blocks[..|acc.blocks|] == acc.blocks;
    var calls := ReconstructToolCalls(acc.json, acc.blocks);
    r := Ok(Turn(acc.messageId, acc.outputText, calls, acc.usage));
  }

  /** `before` has been absorbed when what `named` still holds completes the whole reading. */
  ghost predicate Continues<P, J>(read: Named<P> -> Signal<J>, whole: Reading<J>, before: seq<Event<J>>,
                                  named: seq<Named<P>>)
  {
    whole == Reading(before + Read(read, named).events, Read(read, named).end)
  }

  lemma ContinuesStep<P, J>(read: Named<P> -> Signal<J>, whole: Reading<J>, before: seq<Event<J>>, named: seq<Named<P>>)
    requires named != [] && Continues(read, whole, before, named)
    ensures match read(named[0])
            case Fails(message) => whole.end == Failed(message)
            case Stops => whole == Reading(before, Stopped)
            case Carries(e) => Continues(read, whole, before + [e], named[1..])
  {
    match read(named[0]) {
      case Carries(e) =>
        var later := Read(read, named[1..]).events;
        assert before + ([e] + later) == (before + [e]) + later;
      case _ =>
        assert before + [] == before;
    }
  }

  /** The event loop over what one chunk completed; `later` is what the following chunks will. */
  method AbsorbAll<P, J>(read: Named<P> -> Signal<J>, acc: Accumulator<J>, named: seq<Named<P>>,
                         ghost whole: Reading<J>, ghost later: seq<Named<P>>)
    returns (end: End)
    requires acc.Valid() && Continues(read, whole, acc.history, named + later)
    modifies acc
    ensures acc.Valid()
    ensures match end
            case Open => Continues(read, whole, acc.history, later)
            case Stopped => whole == Reading(acc.history, Stopped)
            case Failed(message) => whole.end == Failed(message)
  {
    for k := 0 to |named|
      invariant acc.Valid() && Continues(read, whole, acc.history, named[k..] + later)
    {
      var next := named[k..];
      assert (next + later)[0] == named[k] && (next + later)[1..] == named[k + 1..] + later;
      ContinuesStep(read, whole, acc.history, next + later);
      match read(named[k]) {
        case Fails(message) => return Failed(message);
        case Stops => return Stopped;
        case Carries(e) => acc.Absorb(e);
      }
    }
    assert named[|named|..] + later == later;
    end := Open;
  }

  lemma FeedStep<P>(codec: Codec<P>, buffer: Bytes, chunks: seq<Bytes>, k: nat)
    requires k < |chunks|
    ensures var f := FeedBuffer(buffer, chunks[k]);
            FeedEach(codec, buffer, chunks[k..]) == FramesEvents(codec, f.frames) + FeedEach(codec, f.rest, chunks[k + 1..])
  {
    assert chunks[k..][0] == chunks[k] && chunks[k..][1..] == chunks[k + 1..];
  }

  /** One attempt: chunks are read until the stream ends or the message stops. */
  method ConsumeStream<P, J>(codec: Codec<P>, read: Named<P> -> Signal<J>, json: Json<J>, chunks: seq<Bytes>)
    returns (r: Result<Turn<J>, string>)
    ensures r == Outcome(json, Read(read, FeedEach(codec, [], chunks)))
  {
    var parser := new SseParser(codec);
    var acc := new Accumulator(json);
    ghost var whole := Read(read, FeedEach(codec, [], chunks));
    for k := 0 to |chunks|
      invariant parser.codec == codec && acc.json == json && acc.Valid()
      invariant fresh(parser) && fresh(acc)
      invariant Continues(read, whole, acc.history, FeedEach(codec, parser.buffer, chunks[k..]))
    {
      FeedStep(codec, parser.buffer, chunks, k);
      var named := parser.Feed(chunks[k]);
      var end := AbsorbAll(read, acc, named, whole, FeedEach(codec, parser.buffer, chunks[k + 1..]));
      match end {
        case Open =>
        case Stopped =>
          r := Finish(acc);
          return;
        case Failed(message) =>
          return Err(message);
      }
    }
    assert chunks[|chunks|..] == [] && acc.history + [] == acc.history;
    r := Finish(acc);
  }

  /** How the network cuts the stream cannot change the turn or the error, without CR CR LF. */
  lemma OutcomeIgnoresChunking<P, J>(codec: Codec<P>, read: Named<P> -> Signal<J>, json: Json<J>, a: seq<Bytes>,
                                     b: seq<Bytes>)
    requires Concat(a) == Concat(b) && !HasCrCrLf(Concat(a))
    ensures Outcome(json, Read(read, FeedEach(codec, [], a))) == Outcome(json, Read(read, FeedEach(codec, [], b)))
  {
    EventsIgnoreChunking(codec, a);
    EventsIgnoreChunking(codec, b);
  }

  lemma {:induction false} ReadAppend<P, J>(read: Named<P> -> Signal<J>, a: seq<Named<P>>, b: seq<Named<P>>)
    ensures Read(read, a + b)
         == if Read(read, a).end == Open then Reading(Read(read, a).events + Read(read, b).events, Read(read, b).end)
            else Read(read, a)
  {
    if a == [] {
      assert a + b == b;
      assert [] + Read(read, b).events == Read(read, b).events;
    } else {
      assert (a + b)[1..] == a[1..] + b;
      ReadAppend(read, a[1..], b);
      match read(a[0]) {
        case Carries(e) =>
          var x, y := Read(read, a[1..]).events, Read(read, b).events;
          assert ([e] + x) + y == [e] + (x + y);
        case _ =>
      }
    }
  }

  /** Whatever arrives after the message has stopped, or after an error, changes nothing. */
  lemma NothingAfterStop<P, J>(codec: Codec<P>, read: Named<P> -> Signal<J>, json: Json<J>, raw: Bytes, more: Bytes)
    requires Read(read, ParseOnce(codec, raw)).end != Open
    ensures Outcome(json, Read(read, ParseOnce(codec, raw + more))) == Outcome(json, Read(read, ParseOnce(codec, raw)))
  {
    assert [] + raw == raw && [] + (raw + more) == raw + more;
    FramesOnlyGrow(raw, more);
    var early, all := OneShot(raw).frames, OneShot(raw + more).frames;
    assert all == early + all[|early|..];
    FramesEventsAppend(codec, early, all[|early|..]);
    ReadAppend(read, FramesEvents(codec, early), FramesEvents(codec, all[|early|..]));
  }

  // ---- the tool calls of a turn --------------------------------------------------------------------

  /** The events of index `i` start the block, fill it, and stop it. */
  ghost predicate Complete<J>(h: seq<Event<J>>, i: nat, start: Block<J>, fill: seq<Event<J>>) {
    DeltasAt(fill, i) && Own(h, i) == [BlockStart(Some(i), start)] + fill + [BlockStop(Some(i))]
  }

  /** What the joined fragments of a tool block come to as arguments, which are an object. */
  ghost predicate BecomesArguments<J>(json: Json<J>, raw: string, arguments: Arguments<J>) {
    var value := json.loads(raw);
    && (raw == "" ==> arguments == Decoded(json.emptyObject))
    && (raw != "" && value.None? ==> arguments == RawArguments(raw))
    && (raw != "" && value.Some? && json.shape(value.value).Object? ==> arguments == Decoded(value.value))
    && (raw != "" && value.Some? && json.shape(value.value).Other? ==> arguments == Decoded(json.emptyObject))
    && IsObject(json, arguments)
  }

  lemma StandsForBecomes<J>(json: Json<J>, raw: string, input: Arguments<J>)
    requires json.shape(json.emptyObject).Object? && StandsFor(json, raw, input)
    ensures BecomesArguments(json, raw, Coerce(json, Some(input)))
  {
    CoerceGivesObject(json, Some(input));
  }

  /** The calls are those of the first `n` blocks: id and name of the start, the joined fragments as arguments. */
  ghost predicate Announced<J>(json: Json<J>, starts: seq<Block<J>>, fills: seq<seq<Event<J>>>, n: nat, calls: seq<Call<J>>)
    requires n <= |starts| && n <= |fills|
    decreases n
  {
    if n == 0 then calls == []
    else if starts[n - 1].kind != "tool_use" then Announced(json, starts, fills, n - 1, calls)
    else
      && calls != []
      && calls[|calls| - 1].id == starts[n - 1].id && calls[|calls| - 1].name == starts[n - 1].name
      && BecomesArguments(json, Partials(fills[n - 1]), calls[|calls| - 1].arguments)
      && Announced(json, starts, fills, n - 1, calls[..|calls| - 1])
  }

  lemma {:induction false} CallsAreAnnounced<J>(json: Json<J>, h: seq<Event<J>>, starts: seq<Block<J>>,
                                                fills: seq<seq<Event<J>>>, n: nat)
    requires n <= High(h) && n <= |starts| && n <= |fills| && json.shape(json.emptyObject).Object?
    requires forall i | 0 <= i < n :: Complete(h, i, starts[i], fills[i])
    ensures Announced(json, starts, fills, n, Calls(json, BlocksUpTo(json, h, n)))
    decreases n
  {
    if n > 0 {
      CallsAreAnnounced(json, h, starts, fills, n - 1);
      assert Complete(h, n - 1, starts[n - 1], fills[n - 1]);
      CompletedBlock(json, h, n - 1, starts[n - 1], fills[n - 1]);
      var block := Slot(json, h, n - 1).value.block;
      CallsGrow(json, BlocksUpTo(json, h, n - 1), block);
      NextIsAnnounced(json, starts, fills, n, Calls(json, BlocksUpTo(json, h, n - 1)), block);
    }
  }

  lemma NextIsAnnounced<J>(json: Json<J>, starts: seq<Block<J>>, fills: seq<seq<Event<J>>>, n: nat, before: seq<Call<J>>,
                           block: Block<J>)
    requires 0 < n <= |starts| && n <= |fills| && json.shape(json.emptyObject).Object?
    requires Announced(json, starts, fills, n - 1, before)
    requires block.kind == starts[n - 1].kind && block.id == starts[n - 1].id && block.name == starts[n - 1].name
    requires block.kind == "tool_use" ==> block.input.Some? && StandsFor(json, Partials(fills[n - 1]), block.input.value)
    ensures Announced(json, starts, fills, n,
                      before + (if block.kind == "tool_use" then [Call(block.id, block.name, Coerce(json, block.input))]
                                else []))
  {
    if block.kind == "tool_use" {
      StandsForBecomes(json, Partials(fills[n - 1]), block.input.value);
      LastCall(before, Call(block.id, block.name, Coerce(json, block.input)));
    } else {
      assert before + [] == before;
    }
  }

  lemma LastCall<J>(before: seq<Call<J>>, call: Call<J>)
    ensures (before + [call])[|before + [call]| - 1] == call && (before + [call])[..|before + [call]| - 1] == before
  {
  }

  lemma CallsGrow<J>(json: Json<J>, blocks: seq<Block<J>>, block: Block<J>)
    ensures Calls(json, blocks + [block])
         == Calls(json, blocks)
            + (if block.kind == "tool_use" then [Call(block.id, block.name, Coerce(json, block.input))] else [])
  {
    assert (blocks + [block])[..|blocks|] == blocks;
  }

  lemma OkCalls<J>(json: Json<J>, r: Reading<J>)
    requires Outcome(json, r).Ok?
    ensures Outcome(json, r).value.calls == Calls(json, BlocksUpTo(json, r.events, High(r.events)))
  {
  }

  ghost predicate AllComplete<J>(h: seq<Event<J>>, starts: seq<Block<J>>, fills: seq<seq<Event<J>>>) {
    |starts| == |fills| == High(h) && forall i | 0 <= i < |starts| :: Complete(h, i, starts[i], fills[i])
  }

  /**
   * When every block is started, filled and stopped, however the indices are interleaved, the turn holds
   * exactly the announced tool calls in index order, each with its joined argument fragments.
   */
  lemma TurnHoldsTheCalls<J>(json: Json<J>, r: Reading<J>, starts: seq<Block<J>>, fills: seq<seq<Event<J>>>)
    requires Outcome(json, r).Ok? && AllComplete(r.events, starts, fills) && json.shape(json.emptyObject).Object?
    ensures Announced(json, starts, fills, |starts|, Outcome(json, r).value.calls)
  {
    OkCalls(json, r);
    CallsAreAnnounced(json, r.events, starts, fills, |starts|);
  }
}
