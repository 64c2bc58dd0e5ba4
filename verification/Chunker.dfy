/** `Chunker`: overlapping windows over token ids, and greedy word packing for count-only estimators. */
module Chunker {
  import opened Text

  datatype TextChunk = TextChunk(index: nat, text: string, tokenCount: nat)

  /** The estimator's `count`, and the two sizes the constructor has checked. */
  datatype Settings = Settings(count: string -> nat, size: nat, overlap: nat) {
    predicate Valid() {
      overlap < size
    }
  }

  // ---- word packing ------------------------------------------------------------------

  datatype Span = Span(start: nat, end: nat)

  function Piece(words: seq<string>, start: nat, end: nat): string
    requires start <= end <= |words|
  {
    Join(words[start..end], " ")
  }

  /** Does the piece respect the token budget? */
  predicate Fits(c: Settings, words: seq<string>, start: nat, end: nat)
    requires start <= end <= |words|
  {
    c.count(Piece(words, start, end)) <= c.size
  }

  predicate ReachesOverlap(c: Settings, words: seq<string>, start: nat, end: nat)
    requires start <= end <= |words|
  {
    c.count(Piece(words, start, end)) >= c.overlap
  }

  /** `_greedy_fit`: extend while the piece with one more word fits. */
  function GreedyFit(c: Settings, words: seq<string>, start: nat, end: nat): (r: nat)
    requires start <= end <= |words|
    ensures end <= r <= |words|
    ensures forall e | end < e <= r :: Fits(c, words, start, e)
    ensures r < |words| ==> !Fits(c, words, start, r + 1)
    decreases |words| - end
  {
    if end < |words| && Fits(c, words, start, end + 1) then GreedyFit(c, words, start, end + 1) else end
  }

  function ChunkEnd(c: Settings, words: seq<string>, start: nat): (r: nat)
    requires start < |words|
    ensures start < r <= |words|
  {
    var end := GreedyFit(c, words, start, start);
    if end == start then start + 1 else end
  }

  /** `_rewind_for_overlap`: the largest start of a tail that reaches the overlap, or the end. */
  function Rewind(c: Settings, words: seq<string>, start: nat, end: nat, k: nat): (r: nat)
    requires start < k <= end <= |words|
    requires forall j | k <= j < end :: !ReachesOverlap(c, words, j, end)
    ensures start < r <= end
    ensures forall j | r < j < end :: !ReachesOverlap(c, words, j, end)
    ensures r < end ==> ReachesOverlap(c, words, r, end)
    ensures r == end ==> forall j | start < j < end :: !ReachesOverlap(c, words, j, end)
    decreases k
  {
    if k > start + 1 then
      if ReachesOverlap(c, words, k - 1, end) then k - 1 else Rewind(c, words, start, end, k - 1)
    else end
  }

  function Spans(c: Settings, words: seq<string>, cursor: nat): (spans: seq<Span>)
    requires cursor < |words|
    ensures spans != []
    decreases |words| - cursor
  {
    var end := ChunkEnd(c, words, cursor);
    var span := Span(cursor, end);
    if end >= |words| then [span] else [span] + Spans(c, words, Rewind(c, words, cursor, end, end))
  }

  function Render(c: Settings, words: seq<string>, spans: seq<Span>, index: nat): seq<TextChunk>
    requires forall i | 0 <= i < |spans| :: spans[i].start <= spans[i].end <= |words|
    decreases |spans|
  {
    if spans == [] then []
    else
      var text := Piece(words, spans[0].start, spans[0].end);
      [TextChunk(index, text, c.count(text))] + Render(c, words, spans[1..], index + 1)
  }

  method GreedyFitLoop(c: Settings, words: seq<string>, start: nat) returns (end: nat)
    requires start <= |words|
    ensures end == GreedyFit(c, words, start, start)
  {
    end := start;
    while end < |words|
      invariant start <= end <= |words|
      invariant GreedyFit(c, words, start, start) == GreedyFit(c, words, start, end)
    {
      var candidate := Join(words[start..end + 1], " ");
      if c.count(candidate) > c.size { break; }
      end := end + 1;
    }
  }

  method RewindForOverlap(c: Settings, words: seq<string>, start: nat, end: nat) returns (r: nat)
    requires start < end <= |words|
    ensures r == Rewind(c, words, start, end, end)
  {
    var k := end;
    while k > start + 1
      invariant start < k <= end
      invariant forall j | k <= j < end :: !ReachesOverlap(c, words, j, end)
      invariant Rewind(c, words, start, end, end) == Rewind(c, words, start, end, k)
    {
      var tail := Join(words[k - 1..end], " ");
      if c.count(tail) >= c.overlap { return k - 1; }
      k := k - 1;
    }
    r := end;
  }

  ghost predicate Within(spans: seq<Span>, n: nat) {
    forall i | 0 <= i < |spans| :: spans[i].start <= spans[i].end <= n
  }

  lemma {:induction false} SpansWithin(c: Settings, words: seq<string>, cursor: nat)
    requires cursor < |words|
    ensures Within(Spans(c, words, cursor), |words|)
    decreases |words| - cursor
  {
    var end := ChunkEnd(c, words, cursor);
    if end < |words| {
      SpansWithin(c, words, Rewind(c, words, cursor, end, end));
    }
  }

  function RenderOne(c: Settings, words: seq<string>, span: Span, index: nat): TextChunk
    requires span.start <= span.end <= |words|
  {
    var text := Piece(words, span.start, span.end);
    TextChunk(index, text, c.count(text))
  }

  lemma {:induction false} RenderAppend(c: Settings, words: seq<string>, spans: seq<Span>, span: Span, index: nat)
    requires Within(spans, |words|) && span.start <= span.end <= |words|
    ensures Within(spans + [span], |words|)
    ensures Render(c, words, spans + [span], index)
         == Render(c, words, spans, index) + [RenderOne(c, words, span, index + |spans|)]
    decreases |spans|
  {
    if spans == [] {
      assert [] + [span] == [span] && [span][1..] == [];
    } else {
      assert (spans + [span])[1..] == spans[1..] + [span];
      RenderAppend(c, words, spans[1..], span, index + 1);
    }
  }

  /** Chunk `i` renders span `i`: its words joined by spaces, their count, and the running index. */
  lemma {:induction false} RenderIs(c: Settings, words: seq<string>, spans: seq<Span>, index: nat)
    requires Within(spans, |words|)
    ensures |Render(c, words, spans, index)| == |spans|
    ensures forall i | 0 <= i < |spans| :: Render(c, words, spans, index)[i] == RenderOne(c, words, spans[i], index + i)
    decreases |spans|
  {
    if spans != [] { RenderIs(c, words, spans[1..], index + 1); }
  }

  lemma SpansStep(c: Settings, words: seq<string>, done: seq<Span>, cursor: nat, end: nat)
    requires cursor < |words| && end == ChunkEnd(c, words, cursor)
    ensures end == |words| ==> done + Spans(c, words, cursor) == done + [Span(cursor, end)]
    ensures end < |words| ==> var next := Rewind(c, words, cursor, end, end);
              done + Spans(c, words, cursor) == (done + [Span(cursor, end)]) + Spans(c, words, next)
  {
  }

  /** The spans before `cursor` are done and rendered, and the chunking goes on from there. */
  ghost predicate Packed(c: Settings, words: seq<string>, done: seq<Span>, cursor: nat, chunks: seq<TextChunk>) {
    && cursor < |words| && Within(done, |words|)
    && chunks == Render(c, words, done, 0)
    && done + Spans(c, words, cursor) == Spans(c, words, 0)
  }

  /** One turn of the loop: the chunk of the next span, and either the end or a new cursor. */
  lemma PackStep(c: Settings, words: seq<string>, done: seq<Span>, cursor: nat, chunks: seq<TextChunk>)
    requires Packed(c, words, done, cursor, chunks)
    ensures var end := ChunkEnd(c, words, cursor);
            var more := done + [Span(cursor, end)];
            var rendered := chunks + [RenderOne(c, words, Span(cursor, end), |done|)];
            if end < |words| then Packed(c, words, more, Rewind(c, words, cursor, end, end), rendered)
            else Within(more, |words|) && more == Spans(c, words, 0) && rendered == Render(c, words, more, 0)
  {
    var end := ChunkEnd(c, words, cursor);
    SpansStep(c, words, done, cursor, end);
    RenderAppend(c, words, done, Span(cursor, end), 0);
  }

  lemma PackStart(c: Settings, words: seq<string>)
    requires words != []
    ensures Packed(c, words, [], 0, [])
  {
    assert [] + Spans(c, words, 0) == Spans(c, words, 0);
  }

  method ChunkOnWords(c: Settings, words: seq<string>) returns (chunks: seq<TextChunk>)
    requires c.Valid()
    ensures words == [] ==> chunks == [TextChunk(0, "", 0)]
    ensures words != [] ==> Within(Spans(c, words, 0), |words|) && chunks == Render(c, words, Spans(c, words, 0), 0)
  {
    if words == [] { return [TextChunk(0, "", 0)]; }
    chunks := [];
    var cursor, idx := 0, 0;
    ghost var done: seq<Span> := [];
    PackStart(c, words);
    while cursor < |words|
      invariant idx == |done| && Packed(c, words, done, cursor, chunks)
      decreases |words| - cursor
    {
      PackStep(c, words, done, cursor, chunks);
      var end := GreedyFitLoop(c, words, cursor);
      if end == cursor { end := cursor + 1; }
      var text := Join(words[cursor..end], " ");
      chunks := chunks + [TextChunk(idx, text, c.count(text))];
      done := done + [Span(cursor, end)];
      idx := idx + 1;
      if end >= |words| { return; }
      cursor := RewindForOverlap(c, words, cursor, end);
    }
  }

  // ---- what word chunks are ------------------------------------------------------------

  /** A chunk is a greedy maximal run: it fits and one more word would not, or it is one word too big. */
  ghost predicate Maximal(c: Settings, words: seq<string>, s: Span)
    requires s.start < s.end <= |words|
  {
    || (s.end == s.start + 1 && !Fits(c, words, s.start, s.end))
    || ((forall e | s.start < e <= s.end :: Fits(c, words, s.start, e))
        && (s.end < |words| ==> !Fits(c, words, s.start, s.end + 1)))
  }

  /** The next chunk starts at the shortest proper tail that reaches the overlap, or at the end. */
  ghost predicate Continues(c: Settings, words: seq<string>, s: Span, next: nat)
    requires s.start < s.end <= |words|
  {
    && s.start < next <= s.end
    && (forall j | next < j < s.end :: !ReachesOverlap(c, words, j, s.end))
    && (if next < s.end then ReachesOverlap(c, words, next, s.end)
        else forall j | s.start < j < s.end :: !ReachesOverlap(c, words, j, s.end))
  }

  /** A complete description of the chunks from `cursor` on, without any algorithm. */
  ghost predicate WordChunking(c: Settings, words: seq<string>, cursor: nat, spans: seq<Span>) {
    && spans != [] && spans[0].start == cursor && spans[|spans| - 1].end == |words|
    && (forall i | 0 <= i < |spans| :: GoodSpan(c, words, spans[i]))
    && (forall i | 0 <= i < |spans| - 1 :: GoodStep(c, words, spans[i], spans[i + 1]))
  }

  ghost predicate GoodSpan(c: Settings, words: seq<string>, s: Span) {
    s.start < s.end <= |words| && Maximal(c, words, s)
  }

  ghost predicate GoodStep(c: Settings, words: seq<string>, s: Span, t: Span) {
    s.start < s.end < |words| && Continues(c, words, s, t.start)
  }

  lemma ChunkEndIsMaximal(c: Settings, words: seq<string>, start: nat, end: nat)
    requires start < |words|
    ensures GoodSpan(c, words, Span(start, end)) <==> end == ChunkEnd(c, words, start)
  {
    var g := GreedyFit(c, words, start, start);
    if GoodSpan(c, words, Span(start, end)) {
      assert g < |words| ==> !Fits(c, words, start, g + 1);
    }
  }

  lemma RewindIsUnique(c: Settings, words: seq<string>, s: Span, next: nat)
    requires s.start < s.end <= |words|
    ensures Continues(c, words, s, next) <==> next == Rewind(c, words, s.start, s.end, s.end)
  {
    var r := Rewind(c, words, s.start, s.end, s.end);
    assert r < s.end ==> ReachesOverlap(c, words, r, s.end);
  }

  /** The packer computes the one chunking that meets the description, for every count function. */
  lemma {:induction false} SpansAreTheChunking(c: Settings, words: seq<string>, cursor: nat, spans: seq<Span>)
    requires cursor < |words|
    ensures spans == Spans(c, words, cursor) <==> WordChunking(c, words, cursor, spans)
    decreases |words| - cursor
  {
    var end := ChunkEnd(c, words, cursor);
    ChunkEndIsMaximal(c, words, cursor, end);
    if spans != [] && spans[0].start == cursor {
      ChunkEndIsMaximal(c, words, cursor, spans[0].end);
    }
    if end < |words| {
      var next := Rewind(c, words, cursor, end, end);
      RewindIsUnique(c, words, Span(cursor, end), next);
      if |spans| > 1 {
        SpansAreTheChunking(c, words, next, spans[1..]);
        ChunkingStep(c, words, cursor, spans, end, next);
      } else {
        assert |Spans(c, words, cursor)| > 1;
      }
    } else if |spans| > 1 {
      assert WordChunking(c, words, cursor, spans) ==> GoodStep(c, words, spans[0], spans[1]);
    }
  }

  lemma ChunkingStep(c: Settings, words: seq<string>, cursor: nat, spans: seq<Span>, end: nat, next: nat)
    requires cursor < end < |words| && |spans| > 1 && GoodSpan(c, words, Span(cursor, end))
    requires Continues(c, words, Span(cursor, end), next)
    requires forall n :: Continues(c, words, Span(cursor, end), n) ==> n == next
    requires forall e :: GoodSpan(c, words, Span(cursor, e)) ==> e == end
    ensures WordChunking(c, words, cursor, spans)
       <==> spans[0] == Span(cursor, end) && WordChunking(c, words, next, spans[1..])
  {
    var tail := spans[1..];
    assert forall i | 0 <= i < |tail| :: tail[i] == spans[i + 1];
    if WordChunking(c, words, cursor, spans) {
      assert GoodSpan(c, words, spans[0]) && GoodStep(c, words, spans[0], spans[1]);
      assert spans[0] == Span(cursor, spans[0].end);
      forall i | 0 <= i < |tail| ensures GoodSpan(c, words, tail[i]) { assert GoodSpan(c, words, spans[i + 1]); }
      forall i | 0 <= i < |tail| - 1 ensures GoodStep(c, words, tail[i], tail[i + 1]) {
        assert GoodStep(c, words, spans[i + 1], spans[i + 2]);
      }
    }
    if spans[0] == Span(cursor, end) && WordChunking(c, words, next, tail) {
      forall i | 0 <= i < |spans| ensures GoodSpan(c, words, spans[i]) {
        if i > 0 { assert GoodSpan(c, words, tail[i - 1]); }
      }
      forall i | 0 <= i < |spans| - 1 ensures GoodStep(c, words, spans[i], spans[i + 1]) {
        if i > 0 { assert GoodStep(c, words, tail[i - 1], tail[i]); }
      }
    }
  }

  /** Each chunk's words up to the next start, then the whole last chunk. */
  function Unoverlapped(words: seq<string>, spans: seq<Span>): seq<string>
    requires Within(spans, |words|) && Steps(spans)
  {
    if spans == [] then []
    else if |spans| == 1 then words[spans[0].start..spans[0].end]
    else words[spans[0].start..spans[1].start] + Unoverlapped(words, spans[1..])
  }

  ghost predicate Steps(spans: seq<Span>) {
    forall i | 0 <= i < |spans| - 1 :: spans[i].start < spans[i + 1].start <= spans[i].end
  }

  /** Coverage, progress and count: nothing is lost, starts advance, at most one chunk per word. */
  lemma {:induction false} ChunkingCovers(c: Settings, words: seq<string>, cursor: nat, spans: seq<Span>)
    requires cursor < |words| && WordChunking(c, words, cursor, spans)
    ensures Within(spans, |words|) && Steps(spans)
    ensures Unoverlapped(words, spans) == words[cursor..]
    ensures |spans| <= |words| - cursor
    decreases |spans|
  {
    forall i | 0 <= i < |spans| ensures spans[i].start < spans[i].end <= |words| {
      assert GoodSpan(c, words, spans[i]);
    }
    forall i | 0 <= i < |spans| - 1 ensures spans[i].start < spans[i + 1].start <= spans[i].end {
      assert GoodStep(c, words, spans[i], spans[i + 1]);
    }
    if |spans| > 1 {
      var next := spans[1].start;
      var tail := spans[1..];
      forall i | 0 <= i < |tail| ensures GoodSpan(c, words, tail[i]) { assert GoodSpan(c, words, spans[i + 1]); }
      forall i | 0 <= i < |tail| - 1 ensures GoodStep(c, words, tail[i], tail[i + 1]) {
        assert GoodStep(c, words, spans[i + 1], spans[i + 2]);
      }
      ChunkingCovers(c, words, next, tail);
      assert words[cursor..] == words[cursor..next] + words[next..];
    } else {
      assert words[cursor..] == words[spans[0].start..spans[0].end];
    }
  }

  /** With overlap 0 the next chunk still repeats the last word of a chunk of several words. */
  lemma ZeroOverlapRepeatsOneWord(c: Settings, words: seq<string>, s: Span, next: nat)
    requires c.overlap == 0 && s.start + 1 < s.end <= |words|
    ensures Continues(c, words, s, next) <==> next == s.end - 1
  {
    assert ReachesOverlap(c, words, s.end - 1, s.end);
  }
}
