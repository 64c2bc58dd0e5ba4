/** The Claude `SSEParser`: named events whose `data:` lines are joined, one payload per frame. */
module ClaudeSse {
  import opened SseFraming
  import opened Text

  /** The foreign calls: lossy UTF-8 decoding, and JSON (None: not JSON, or not an object). */
  datatype Codec<!E> = Codec(decode: Bytes -> string, json: string -> Option<E>)

  datatype Named<E> = Named(name: string, payload: E)

  datatype Fields = Fields(name: string, data: seq<string>)

  function ReadLine(fields: Fields, line: string): Fields {
    if line == "" || StartsWith(line, ":") then fields
    else if StartsWith(line, "event:") then fields.(name := Strip(line[|"event:"|..]))
    else if StartsWith(line, "data:") then fields.(data := fields.data + [LStrip(line[|"data:"|..])])
    else fields
  }

  function ReadLines(fields: Fields, lines: seq<string>): Fields
    decreases |lines|
  {
    if lines == [] then fields else ReadLines(ReadLine(fields, lines[0]), lines[1..])
  }

  /** At most one event: the last `event:` name and the joined `data:` values. */
  function FieldsEvents<E>(codec: Codec<E>, fields: Fields): seq<Named<E>> {
    if fields.data == [] then []
    else
      match codec.json(Join(fields.data, "\n"))
      case None => []
      case Some(payload) => [Named(fields.name, payload)]
  }

  function FrameEvents<E>(codec: Codec<E>, frame: Bytes): seq<Named<E>> {
    FieldsEvents(codec, ReadLines(Fields("message", []), SplitLines(codec.decode(frame))))
  }

  function FramesEvents<E>(codec: Codec<E>, frames: seq<Bytes>): seq<Named<E>> {
    if frames == [] then [] else FrameEvents(codec, frames[0]) + FramesEvents(codec, frames[1..])
  }

  function ParseOnce<E>(codec: Codec<E>, raw: Bytes): seq<Named<E>> {
    FramesEvents(codec, OneShot(raw).frames)
  }

  class SseParser<E> {
    const codec: Codec<E>
    var buffer: Bytes

    constructor (codec: Codec<E>)
      ensures this.codec == codec && buffer == []
    {
      this.codec := codec;
      buffer := [];
    }

    method Feed(chunk: Bytes) returns (events: seq<Named<E>>)
      modifies this
      ensures var f := FeedBuffer(old(buffer), chunk);
              events == FramesEvents(codec, f.frames) && buffer == f.rest && Yields(codec, f.frames, events)
    {
      buffer := buffer + chunk;
      buffer := Normalise(buffer);
      ghost var input := buffer;
      events := [];
      while FirstBlank(buffer) < |buffer|
        invariant Cut(buffer).rest == Cut(input).rest
        invariant FramesEvents(codec, Cut(input).frames) == events + FramesEvents(codec, Cut(buffer).frames)
        decreases |buffer|
      {
        var i := FirstBlank(buffer);
        FirstFrame(codec, events, buffer);
        var found := ReadFrame(codec, buffer[..i]);
        events := events + found;
        buffer := buffer[i + 2..];
      }
      assert events + [] == events;
      FramesYield(codec, Cut(input).frames);
    }
  }

  lemma FirstFrame<E>(codec: Codec<E>, events: seq<Named<E>>, buffer: Bytes)
    requires FirstBlank(buffer) < |buffer|
    ensures var i := FirstBlank(buffer);
            && i + 2 <= |buffer|
            && Cut(buffer).rest == Cut(buffer[i + 2..]).rest
            && events + FramesEvents(codec, Cut(buffer).frames)
            == (events + FrameEvents(codec, buffer[..i])) + FramesEvents(codec, Cut(buffer[i + 2..]).frames)
  {
    var i := FirstBlank(buffer);
    assert Cut(buffer).frames[1..] == Cut(buffer[i + 2..]).frames;
  }

  method ReadFrame<E>(codec: Codec<E>, frame: Bytes) returns (events: seq<Named<E>>)
    ensures events == FrameEvents(codec, frame)
    ensures var lines := SplitLines(codec.decode(frame));
            var data := DataValues(lines);
            if data == [] || codec.json(Join(data, "\n")) == None then events == []
            else events == [Named(LastName("message", lines), codec.json(Join(data, "\n")).value)]
  {
    FrameYields(codec, frame);
    var fields := Fields("message", []);
    var lines := SplitLines(codec.decode(frame));
    var k := 0;
    while k < |lines|
      invariant k <= |lines|
      invariant ReadLines(fields, lines[k..]) == ReadLines(Fields("message", []), lines)
    {
      fields := ReadLine(fields, lines[k]);
      assert lines[k..][1..] == lines[k + 1..];
      k := k + 1;
    }
    events := FieldsEvents(codec, fields);
  }

  lemma {:induction false} FramesEventsAppend<E>(codec: Codec<E>, a: seq<Bytes>, b: seq<Bytes>)
    ensures FramesEvents(codec, a + b) == FramesEvents(codec, a) + FramesEvents(codec, b)
  {
    if a == [] {
      assert a + b == b;
    } else {
      assert (a + b)[1..] == a[1..] + b;
      FramesEventsAppend(codec, a[1..], b);
    }
  }

  /** Successive feeds of one parser, as `Feed` specifies them. */
  function FeedEach<E>(codec: Codec<E>, buffer: Bytes, chunks: seq<Bytes>): seq<Named<E>>
    decreases |chunks|
  {
    if chunks == [] then []
    else
      var f := FeedBuffer(buffer, chunks[0]);
      FramesEvents(codec, f.frames) + FeedEach(codec, f.rest, chunks[1..])
  }

  lemma {:induction false} FeedEachIsFramewise<E>(codec: Codec<E>, buffer: Bytes, chunks: seq<Bytes>)
    ensures FeedEach(codec, buffer, chunks) == FramesEvents(codec, FeedAll(buffer, chunks).frames)
    decreases |chunks|
  {
    if chunks != [] {
      var now := FeedBuffer(buffer, chunks[0]);
      FeedEachIsFramewise(codec, now.rest, chunks[1..]);
      FramesEventsAppend(codec, now.frames, FeedAll(now.rest, chunks[1..]).frames);
    }
  }

  /** For a stream without CR CR LF, no cutting into chunks changes the named events. */
  lemma {:induction false} EventsIgnoreChunking<E>(codec: Codec<E>, chunks: seq<Bytes>)
    requires !HasCrCrLf(Concat(chunks))
    ensures FeedEach(codec, [], chunks) == ParseOnce(codec, Concat(chunks))
  {
    ChunkInvariance(Concat(chunks));
    FeedEachIsFramewise(codec, [], chunks);
  }

  function NameOf(name: string, line: string): string {
    if StartsWith(line, "event:") then Strip(line[|"event:"|..]) else name
  }

  function DataOf(line: string): seq<string> {
    if StartsWith(line, "data:") then [LStrip(line[|"data:"|..])] else []
  }

  /** The stripped value of the last `event:` line, or the name given. */
  function LastName(name: string, lines: seq<string>): string
    decreases |lines|
  {
    if lines == [] then name else LastName(NameOf(name, lines[0]), lines[1..])
  }

  /** The values of the `data:` lines, in order, without leading space. */
  function DataValues(lines: seq<string>): seq<string> {
    if lines == [] then [] else DataOf(lines[0]) + DataValues(lines[1..])
  }

  lemma PrefixStarts(line: string, prefix: string)
    requires StartsWith(line, prefix) && prefix != ""
    ensures line != "" && line[0] == prefix[0]
  {
    assert line[..|prefix|][0] == prefix[0];
  }

  lemma ReadOne(fields: Fields, line: string)
    ensures ReadLine(fields, line) == Fields(NameOf(fields.name, line), fields.data + DataOf(line))
  {
    assert fields.data + [] == fields.data;
    if StartsWith(line, "event:") { PrefixStarts(line, "event:"); }
    if StartsWith(line, "data:") { PrefixStarts(line, "data:"); }
    if StartsWith(line, ":") { PrefixStarts(line, ":"); }
  }

  /** An event has the last name and all data of its frame. */
  lemma {:induction false} FieldsAre(fields: Fields, lines: seq<string>)
    ensures ReadLines(fields, lines) == Fields(LastName(fields.name, lines), fields.data + DataValues(lines))
    decreases |lines|
  {
    if lines == [] {
      assert fields.data + [] == fields.data;
    } else {
      ReadOne(fields, lines[0]);
      FieldsAre(ReadLine(fields, lines[0]), lines[1..]);
      Regroup(fields.data, DataOf(lines[0]), DataValues(lines[1..]));
    }
  }

  lemma Regroup(a: seq<string>, b: seq<string>, c: seq<string>)
    ensures (a + b) + c == a + (b + c)
  {
  }

  /**
   * A frame yields one event exactly when it has data and its data values, joined by newlines, decode: under the
   * name of its last `event:` line, or "message".
   */
  lemma FrameYields<E>(codec: Codec<E>, frame: Bytes)
    ensures var lines := SplitLines(codec.decode(frame));
            var data := DataValues(lines);
            FrameEvents(codec, frame)
            == if data == [] || codec.json(Join(data, "\n")) == None then []
               else [Named(LastName("message", lines), codec.json(Join(data, "\n")).value)]
  {
    var lines := SplitLines(codec.decode(frame));
    FieldsAre(Fields("message", []), lines);
    assert [] + DataValues(lines) == DataValues(lines);
  }

  /** The events are those of the frames, in order, each read off the lines of its frame. */
  ghost predicate Yields<E>(codec: Codec<E>, frames: seq<Bytes>, events: seq<Named<E>>) {
    if frames == [] then events == []
    else
      var lines := SplitLines(codec.decode(frames[0]));
      var data := DataValues(lines);
      var payload := if data == [] then None else codec.json(Join(data, "\n"));
      if payload == None then Yields(codec, frames[1..], events)
      else
        && events != [] && events[0] == Named(LastName("message", lines), payload.value)
        && Yields(codec, frames[1..], events[1..])
  }

  lemma {:induction false} FramesYield<E>(codec: Codec<E>, frames: seq<Bytes>)
    ensures Yields(codec, frames, FramesEvents(codec, frames))
  {
    if frames != [] {
      FrameYields(codec, frames[0]);
      FramesYield(codec, frames[1..]);
      var first, later := FrameEvents(codec, frames[0]), FramesEvents(codec, frames[1..]);
      assert first == [] ==> first + later == later;
      assert |first| == 1 ==> (first + later)[1..] == later;
    }
  }

  lemma EventLine(name: string, before: string)
    ensures NameOf(before, "event:" + name) == Strip(name) && DataOf("event:" + name) == []
  {
    var line := "event:" + name;
    assert line[..6] == "event:" && line[6..] == name;
    assert line[0] == 'e';
  }

  lemma DataLine(text: string, before: string)
    ensures NameOf(before, "data:" + text) == before && DataOf("data:" + text) == [LStrip(text)]
  {
    var line := "data:" + text;
    assert line[..5] == "data:" && line[5..] == text;
    assert line[0] == 'd';
  }

  lemma FirstLine(line: string, rest: seq<string>, name: string)
    ensures LastName(name, [line] + rest) == LastName(NameOf(name, line), rest)
    ensures DataValues([line] + rest) == DataOf(line) + DataValues(rest)
  {
    assert ([line] + rest)[1..] == rest;
  }

  lemma ThreeLines(first: string, second: string, third: string, name: string)
    ensures LastName(name, [first, second, third]) == NameOf(NameOf(NameOf(name, first), second), third)
    ensures DataValues([first, second, third]) == DataOf(first) + DataOf(second) + DataOf(third)
  {
    FirstLine(third, [], NameOf(NameOf(name, first), second));
    FirstLine(second, [third], NameOf(name, first));
    FirstLine(first, [second, third], name);
    assert [third] + [] == [third] && [second] + [third] == [second, third];
    assert [first] + [second, third] == [first, second, third];
  }

  /** The shape of most events: a name, and here data over two lines. */
  lemma NamedEventIsYielded<E>(codec: Codec<E>, frame: Bytes, name: string, a: string, b: string)
    requires SplitLines(codec.decode(frame)) == ["event:" + name, "data:" + a, "data:" + b]
    ensures var payload := codec.json(LStrip(a) + "\n" + LStrip(b));
            FrameEvents(codec, frame) == if payload == None then [] else [Named(Strip(name), payload.value)]
  {
    EventLine(name, "message");
    DataLine(a, Strip(name));
    DataLine(b, Strip(name));
    ThreeLines("event:" + name, "data:" + a, "data:" + b, "message");
    FrameYields(codec, frame);
    var data := [LStrip(a), LStrip(b)];
    assert data[1..] == [LStrip(b)];
    assert Join(data, "\n") == LStrip(a) + "\n" + LStrip(b);
  }

  /** Comments, unknown fields and blank lines never matter: only `event:` and `data:` lines do. */
  predicate Relevant(line: string) {
    line != "" && !StartsWith(line, ":") && (StartsWith(line, "event:") || StartsWith(line, "data:"))
  }

  function OnlyRelevant(lines: seq<string>): seq<string> {
    if lines == [] then []
    else if Relevant(lines[0]) then [lines[0]] + OnlyRelevant(lines[1..])
    else OnlyRelevant(lines[1..])
  }

  lemma {:induction false} OtherLinesAreIgnored(fields: Fields, lines: seq<string>)
    ensures ReadLines(fields, lines) == ReadLines(fields, OnlyRelevant(lines))
    decreases |lines|
  {
    if lines != [] {
      OtherLinesAreIgnored(ReadLine(fields, lines[0]), lines[1..]);
    }
  }

  /** Unlike the joined event of a one-shot parse, a boundary after LF CR CR LF ends the event there. */
  lemma CrCrLfChangesEvents<E>(codec: Codec<E>, line: Bytes, x: Byte)
    requires NoLineEnds(line) && x != CR && x != LF
    ensures var raw := line + [LF, CR, CR, LF];
            && Concat([raw, [x]]) == raw + [x]
            && ParseOnce(codec, raw + [x]) == []
            && FeedEach(codec, [], [raw, [x]]) == FrameEvents(codec, line)
  {
    var raw := line + [LF, CR, CR, LF];
    CrCrLfClosesEarly(line, x);
    TwoChunks(raw, [x]);
    FeedEachIsFramewise(codec, [], [raw, [x]]);
    assert FeedAll([], [raw, [x]]).frames == [line];
    assert FramesEvents(codec, [line]) == FrameEvents(codec, line) + FramesEvents(codec, []);
  }

  /** Every line that decodes to one data value is such a line: the two readings of the stream differ by its event. */
  lemma DataLineChangesEvents<E>(codec: Codec<E>, line: Bytes, text: string, x: Byte)
    requires NoLineEnds(line) && x != CR && x != LF
    requires codec.decode(line) == "data:" + text && OneLine(text) && codec.json(LStrip(text)).Some?
    ensures var raw := line + [LF, CR, CR, LF];
            && ParseOnce(codec, Concat([raw, [x]])) == []
            && FeedEach(codec, [], [raw, [x]]) == [Named("message", codec.json(LStrip(text)).value)]
  {
    CrCrLfChangesEvents(codec, line, x);
    var decoded := "data:" + text;
    OneLineText(decoded);
    assert decoded[..|"data:"|] == "data:" && decoded[|"data:"|..] == text;
    assert decoded[0] == 'd' && !StartsWith(decoded, "event:");
    var lines := [decoded];
    assert lines[1..] == [];
    assert DataValues(lines) == [LStrip(text)] + [];
    FieldsAre(Fields("message", []), lines);
    assert LastName("message", lines) == "message" && [] + [LStrip(text)] == [LStrip(text)];
  }

  /** For instance every printable ASCII value, with a decoder that accepts it. */
  lemma AsciiLineChangesEvents(payload: Bytes, x: Byte)
    requires Printable(payload) && x != CR && x != LF
    ensures var codec := Codec(Ascii, (text: string) => Some(text));
            var raw := [100, 97, 116, 97, 58] + payload + [LF, CR, CR, LF];
            && ParseOnce(codec, Concat([raw, [x]])) == []
            && FeedEach(codec, [], [raw, [x]]) == [Named("message", LStrip(Ascii(payload)))]
  {
    var prefix: Bytes := [100, 97, 116, 97, 58];
    assert Ascii(prefix + payload) == "data:" + Ascii(payload);
    DataLineChangesEvents(Codec(Ascii, (text: string) => Some(text)), prefix + payload, Ascii(payload), x);
  }
}
