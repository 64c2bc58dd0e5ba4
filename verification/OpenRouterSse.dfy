/** The OpenRouter `SSEParser`: single-line `data: ` events and the `[DONE]` sentinel. */
module OpenRouterSse {
  import opened SseFraming
  import opened Text

  /** The foreign calls of the parser: lossy UTF-8 decoding, and JSON (None: decode error). */
  datatype Codec<!E> = Codec(decode: Bytes -> string, json: string -> Option<E>)

  /** Events yielded in order, and whether the sentinel was met. */
  datatype Parse<E> = Parse(events: seq<E>, stopped: bool) {
    function Then(later: Parse<E>): Parse<E> {
      if stopped then this else Parse(events + later.events, later.stopped)
    }
  }

  datatype Line = Ignored | Sentinel | Payload(text: string)

  function ReadLine(line: string): Line {
    if line == "" || StartsWith(line, ":") then Ignored
    else if !StartsWith(line, "data: ") then Ignored
    else
      var payload := line[|"data: "|..];
      if payload == "[DONE]" then Sentinel else if payload == "" then Ignored else Payload(payload)
  }

  function LineEvents<E>(codec: Codec<E>, line: string): Parse<E> {
    match ReadLine(line)
    case Ignored => Parse([], false)
    case Sentinel => Parse([], true)
    case Payload(text) =>
      match codec.json(text)
      case None => Parse([], false)
      case Some(event) => Parse([event], false)
  }

  function LinesEvents<E>(codec: Codec<E>, lines: seq<string>): Parse<E> {
    if lines == [] then Parse([], false)
    else LineEvents(codec, lines[0]).Then(LinesEvents(codec, lines[1..]))
  }

  function FrameEvents<E>(codec: Codec<E>, frame: Bytes): Parse<E> {
    LinesEvents(codec, SplitLines(codec.decode(frame)))
  }

  function FramesEvents<E>(codec: Codec<E>, frames: seq<Bytes>): Parse<E> {
    if frames == [] then Parse([], false)
    else FrameEvents(codec, frames[0]).Then(FramesEvents(codec, frames[1..]))
  }

  /** The bytes left when the loop ends: after the sentinel's frame, or after the last blank line. */
  function Remaining<E>(codec: Codec<E>, buffer: Bytes): Bytes
    decreases |buffer|
  {
    var i := FirstBlank(buffer);
    if i == |buffer| then buffer
    else if FrameEvents(codec, buffer[..i]).stopped then buffer[i + 2..]
    else Remaining(codec, buffer[i + 2..])
  }

  /** `parse_sse_events`: everything in one feed. */
  function ParseOnce<E>(codec: Codec<E>, raw: Bytes): Parse<E> {
    FramesEvents(codec, OneShot(raw).frames)
  }

  class SseParser<E> {
    const codec: Codec<E>
    var buffer: Bytes
    var stopped: bool

    constructor (codec: Codec<E>)
      ensures this.codec == codec && buffer == [] && !stopped
    {
      this.codec := codec;
      buffer := [];
      stopped := false;
    }

    method Feed(chunk: Bytes) returns (events: seq<E>)
      modifies this
      ensures old(stopped) ==> events == [] && stopped && buffer == old(buffer)
      ensures !old(stopped) ==>
                var input := Normalise(old(buffer) + chunk);
                && Parse(events, stopped) == FramesEvents(codec, Cut(input).frames)
                && Yields(codec, Cut(input).frames, events, stopped)
                && buffer == Remaining(codec, input)
                && (!stopped ==> buffer == Cut(input).rest)
    {
      events := [];
      if stopped { return; }
      buffer := buffer + chunk;
      buffer := Normalise(buffer);
      ghost var input := buffer;
      FramesYield(codec, Cut(input).frames);
      while FirstBlank(buffer) < |buffer|
        invariant !stopped
        invariant Remaining(codec, buffer) == Remaining(codec, input)
        invariant Cut(buffer).rest == Cut(input).rest
        invariant FramesEvents(codec, Cut(input).frames)
               == Parse(events, false).Then(FramesEvents(codec, Cut(buffer).frames))
        decreases |buffer|
      {
        var i := FirstBlank(buffer);
        ghost var later := FramesEvents(codec, Cut(buffer[i + 2..]).frames);
        FirstFrame(codec, buffer);
        var found, sentinel := ReadFrame(codec, buffer[..i]);
        ParseAssociates(Parse(events, false), Parse(found, sentinel), later);
        buffer := buffer[i + 2..];
        events := events + found;
        if sentinel {
          stopped := true;
          return;
        }
      }
      assert events + [] == events;
    }
  }

  /** The lines of one complete event, up to the sentinel. */
  method ReadFrame<E>(codec: Codec<E>, frame: Bytes) returns (events: seq<E>, sentinel: bool)
    ensures Parse(events, sentinel) == FrameEvents(codec, frame)
  {
    events := [];
    var lines := SplitLines(codec.decode(frame));
    var k := 0;
    while k < |lines|
      invariant k <= |lines|
      invariant FrameEvents(codec, frame) == Parse(events, false).Then(LinesEvents(codec, lines[k..]))
    {
      assert lines[k..][1..] == lines[k + 1..];
      var found := LineEvents(codec, lines[k]);
      ParseAssociates(Parse(events, false), found, LinesEvents(codec, lines[k + 1..]));
      events := events + found.events;
      if found.stopped { return events, true; }
      k := k + 1;
    }
    sentinel := false;
    assert events + [] == events;
  }

  lemma FirstFrame<E>(codec: Codec<E>, buffer: Bytes)
    requires FirstBlank(buffer) < |buffer|
    ensures var i := FirstBlank(buffer);
            && FramesEvents(codec, Cut(buffer).frames)
            == FrameEvents(codec, buffer[..i]).Then(FramesEvents(codec, Cut(buffer[i + 2..]).frames))
            && Cut(buffer).rest == Cut(buffer[i + 2..]).rest
  {
    assert Cut(buffer).frames[1..] == Cut(buffer[FirstBlank(buffer) + 2..]).frames;
  }

  lemma ParseAssociates<E>(a: Parse<E>, b: Parse<E>, c: Parse<E>)
    ensures a.Then(b).Then(c) == a.Then(b.Then(c))
  {
    assert (a.events + b.events) + c.events == a.events + (b.events + c.events);
  }

  lemma {:induction false} FramesEventsAppend<E>(codec: Codec<E>, a: seq<Bytes>, b: seq<Bytes>)
    ensures FramesEvents(codec, a + b) == FramesEvents(codec, a).Then(FramesEvents(codec, b))
  {
    if a == [] {
      assert a + b == b;
      assert FramesEvents(codec, b).events == [] + FramesEvents(codec, b).events;
    } else {
      assert (a + b)[1..] == a[1..] + b;
      FramesEventsAppend(codec, a[1..], b);
      ParseAssociates(FrameEvents(codec, a[0]), FramesEvents(codec, a[1..]), FramesEvents(codec, b));
    }
  }

  /** Successive feeds of one parser, as `Feed` specifies them. */
  function FeedEach<E>(codec: Codec<E>, buffer: Bytes, chunks: seq<Bytes>): Parse<E>
    decreases |chunks|
  {
    if chunks == [] then Parse([], false)
    else
      var input := Normalise(buffer + chunks[0]);
      FramesEvents(codec, Cut(input).frames).Then(FeedEach(codec, Remaining(codec, input), chunks[1..]))
  }

  lemma {:induction false} RemainingIsRest<E>(codec: Codec<E>, buffer: Bytes)
    ensures !FramesEvents(codec, Cut(buffer).frames).stopped ==> Remaining(codec, buffer) == Cut(buffer).rest
    decreases |buffer|
  {
    var i := FirstBlank(buffer);
    if i < |buffer| {
      assert Cut(buffer).frames[1..] == Cut(buffer[i + 2..]).frames;
      RemainingIsRest(codec, buffer[i + 2..]);
    }
  }

  lemma {:induction false} FeedEachIsFramewise<E>(codec: Codec<E>, buffer: Bytes, chunks: seq<Bytes>)
    ensures FeedEach(codec, buffer, chunks) == FramesEvents(codec, FeedAll(buffer, chunks).frames)
    decreases |chunks|
  {
    if chunks != [] {
      var now := FeedBuffer(buffer, chunks[0]);
      RemainingIsRest(codec, Normalise(buffer + chunks[0]));
      FeedEachIsFramewise(codec, now.rest, chunks[1..]);
      FramesEventsAppend(codec, now.frames, FeedAll(now.rest, chunks[1..]).frames);
    }
  }

  /** The sentinel line. */
  const DONE := "data: [DONE]"

  /** The index of the first sentinel line, or the number of lines. */
  function FirstSentinel(lines: seq<string>): (n: nat)
    ensures n <= |lines|
    ensures n < |lines| ==> lines[n] == DONE
    ensures forall i | 0 <= i < n :: lines[i] != DONE
  {
    if lines == [] || lines[0] == DONE then 0 else 1 + FirstSentinel(lines[1..])
  }

  /** The JSON of a line that opens with `data: ` and goes on. */
  function LinePayload<E>(codec: Codec<E>, line: string): Option<E> {
    if |line| > 6 && line[..6] == "data: " then codec.json(line[6..]) else None
  }

  /** The payloads of the lines, in order. */
  function Decoded<E>(codec: Codec<E>, lines: seq<string>): seq<E> {
    if lines == [] then []
    else
      (if LinePayload(codec, lines[0]).Some? then [LinePayload(codec, lines[0]).value] else [])
      + Decoded(codec, lines[1..])
  }

  lemma LineEventsAre<E>(codec: Codec<E>, line: string)
    ensures LineEvents(codec, line)
         == if line == DONE then Parse([], true)
            else Parse(if LinePayload(codec, line).Some? then [LinePayload(codec, line).value] else [], false)
  {
    assert StartsWith(line, "data: ") ==> line[0] == line[..6][0] == 'd' && line == line[..6] + line[6..];
    assert DONE[..6] == "data: " && DONE[6..] == "[DONE]";
    assert StartsWith(line, ":") ==> line[0] == line[..1][0] == ':';
  }

  /** A frame yields exactly the decodable payloads before its first sentinel, and stops exactly there. */
  lemma {:induction false} PayloadsBeforeSentinel<E>(codec: Codec<E>, lines: seq<string>)
    ensures LinesEvents(codec, lines)
         == Parse(Decoded(codec, lines[..FirstSentinel(lines)]), FirstSentinel(lines) < |lines|)
  {
    if lines != [] {
      LineEventsAre(codec, lines[0]);
      if lines[0] != DONE {
        PayloadsBeforeSentinel(codec, lines[1..]);
        var n := FirstSentinel(lines[1..]);
        assert lines[..n + 1][1..] == lines[1..][..n] && lines[..n + 1][0] == lines[0];
      }
    }
  }

  /** The events are those of the frames, in order, each read off the lines of its frame up to the sentinel. */
  ghost predicate Yields<E>(codec: Codec<E>, frames: seq<Bytes>, events: seq<E>, stopped: bool) {
    if frames == [] then events == [] && !stopped
    else
      var lines := SplitLines(codec.decode(frames[0]));
      var n := FirstSentinel(lines);
      var here := Decoded(codec, lines[..n]);
      if n < |lines| then events == here && stopped
      else here <= events && Yields(codec, frames[1..], events[|here|..], stopped)
  }

  lemma {:induction false} FramesYield<E>(codec: Codec<E>, frames: seq<Bytes>)
    ensures Yields(codec, frames, FramesEvents(codec, frames).events, FramesEvents(codec, frames).stopped)
  {
    if frames != [] {
      PayloadsBeforeSentinel(codec, SplitLines(codec.decode(frames[0])));
      FramesYield(codec, frames[1..]);
      var here, later := FrameEvents(codec, frames[0]).events, FramesEvents(codec, frames[1..]).events;
      assert (here + later)[|here|..] == later;
    }
  }

  /** For a stream without CR CR LF, no cutting into chunks changes the events or the stop flag. */
  lemma {:induction false} EventsIgnoreChunking<E>(codec: Codec<E>, chunks: seq<Bytes>)
    requires !HasCrCrLf(Concat(chunks))
    ensures FeedEach(codec, [], chunks) == ParseOnce(codec, Concat(chunks))
  {
    ChunkInvariance(Concat(chunks));
    FeedEachIsFramewise(codec, [], chunks);
  }

  /** Nothing after the sentinel is ever yielded: more bytes cannot change a stopped parse. */
  lemma {:induction false} NothingAfterDone<E>(codec: Codec<E>, raw: Bytes, more: Bytes)
    ensures ParseOnce(codec, raw).stopped ==> ParseOnce(codec, raw + more) == ParseOnce(codec, raw)
    ensures ParseOnce(codec, raw).events <= ParseOnce(codec, raw + more).events
  {
    assert [] + raw == raw && [] + (raw + more) == raw + more;
    FramesOnlyGrow(raw, more);
    var early, all := OneShot(raw).frames, OneShot(raw + more).frames;
    assert all == early + all[|early|..];
    FramesEventsAppend(codec, early, all[|early|..]);
  }

  /**
   * The condition matters for events too: any event line closed by LF CR CR LF is held back by
   * the one-shot parse, but yielded when a chunk boundary follows it.
   */
  lemma CrCrLfChangesEvents<E>(codec: Codec<E>, line: Bytes, x: Byte)
    requires NoLineEnds(line) && x != CR && x != LF
    ensures var raw := line + [LF, CR, CR, LF];
            && Concat([raw, [x]]) == raw + [x]
            && ParseOnce(codec, raw + [x]).events == []
            && FeedEach(codec, [], [raw, [x]]).events == FrameEvents(codec, line).events
  {
    var raw := line + [LF, CR, CR, LF];
    CrCrLfClosesEarly(line, x);
    TwoChunks(raw, [x]);
    FeedEachIsFramewise(codec, [], [raw, [x]]);
    assert FeedAll([], [raw, [x]]).frames == [line];
    assert FramesEvents(codec, [line]) == FrameEvents(codec, line).Then(FramesEvents(codec, []));
  }

  /** Every line that decodes to one payload is such a line: the two readings of the stream differ by its event. */
  lemma DataLineChangesEvents<E>(codec: Codec<E>, line: Bytes, text: string, x: Byte)
    requires NoLineEnds(line) && x != CR && x != LF
    requires codec.decode(line) == "data: " + text && OneLine(text)
    requires text != "" && text != "[DONE]" && codec.json(text).Some?
    ensures var raw := line + [LF, CR, CR, LF];
            && ParseOnce(codec, Concat([raw, [x]])).events == []
            && FeedEach(codec, [], [raw, [x]]).events == [codec.json(text).value]
  {
    CrCrLfChangesEvents(codec, line, x);
    var decoded := "data: " + text;
    OneLineText(decoded);
    assert decoded[..|"data: "|] == "data: " && decoded[|"data: "|..] == text;
    assert ReadLine(decoded) == Payload(text);
    var lines := [decoded];
    assert lines[1..] == [];
    assert LinesEvents(codec, lines).events == [codec.json(text).value] + [];
  }

  /** For instance every printable ASCII payload but the sentinel, with a decoder that accepts it. */
  lemma AsciiLineChangesEvents(payload: Bytes, x: Byte)
    requires Printable(payload) && payload != [] && Ascii(payload) != "[DONE]" && x != CR && x != LF
    ensures var codec := Codec(Ascii, (text: string) => Some(text));
            var raw := [100, 97, 116, 97, 58, 32] + payload + [LF, CR, CR, LF];
            && ParseOnce(codec, Concat([raw, [x]])).events == []
            && FeedEach(codec, [], [raw, [x]]).events == [Ascii(payload)]
  {
    var prefix: Bytes := [100, 97, 116, 97, 58, 32];
    assert Ascii(prefix + payload) == "data: " + Ascii(payload);
    DataLineChangesEvents(Codec(Ascii, (text: string) => Some(text)), prefix + payload, Ascii(payload), x);
  }
}
