/**
 * The byte level shared by both Server-Sent Events parsers: CRLF normalisation of
 * the carried buffer and cutting at blank lines, one incoming chunk at a time.
 */
module SseFraming {

  newtype Byte = b: int | 0 <= b < 256
  type Bytes = seq<Byte>

  const LF: Byte := 10
  const CR: Byte := 13

  /** Complete events in order, and the unterminated bytes left in the buffer. */
  datatype Framing = Framing(frames: seq<Bytes>, rest: Bytes) {
    function Then(later: Framing): Framing {
      Framing(frames + later.frames, later.rest)
    }
  }

  predicate CrLfAt(s: Bytes, i: int) {
    0 <= i && i + 1 < |s| && s[i] == CR && s[i + 1] == LF
  }

  predicate BlankAt(s: Bytes, i: int) {
    0 <= i && i + 1 < |s| && s[i] == LF && s[i + 1] == LF
  }

  predicate CrCrLfAt(s: Bytes, i: int) {
    0 <= i && i + 2 < |s| && s[i] == CR && s[i + 1] == CR && s[i + 2] == LF
  }

  predicate HasCrCrLf(s: Bytes) {
    exists i | 0 <= i < |s| :: CrCrLfAt(s, i)
  }

  /** One left-to-right pass replacing CR LF by LF. */
  function Normalise(s: Bytes): Bytes {
    if |s| < 2 then s
    else if CrLfAt(s, 0) then [LF] + Normalise(s[2..])
    else [s[0]] + Normalise(s[1..])
  }

  /** The index of the first LF LF, or the length when there is none. */
  function FirstBlank(s: Bytes): (i: nat)
    ensures i <= |s|
    ensures i < |s| ==> BlankAt(s, i)
    ensures forall j :: 0 <= j < i ==> !BlankAt(s, j)
  {
    FirstBlankFrom(s, 0)
  }

  function FirstBlankFrom(s: Bytes, n: nat): (i: nat)
    requires n <= |s|
    ensures n <= i <= |s|
    ensures i < |s| ==> BlankAt(s, i)
    ensures forall j :: n <= j < i ==> !BlankAt(s, j)
    decreases |s| - n
  {
    if n == |s| || BlankAt(s, n) then n else FirstBlankFrom(s, n + 1)
  }

  /** Cut at every first LF LF, as the `while` loop of `feed` does. */
  function Cut(s: Bytes): Framing
    decreases |s|
  {
    var i := FirstBlank(s);
    if i == |s| then Framing([], s)
    else Framing([s[..i]], []).Then(Cut(s[i + 2..]))
  }

  /** What one `feed` does to the buffer. */
  function FeedBuffer(buffer: Bytes, chunk: Bytes): Framing {
    Cut(Normalise(buffer + chunk))
  }

  /** Successive feeds starting from `buffer`. */
  function FeedAll(buffer: Bytes, chunks: seq<Bytes>): Framing
    decreases |chunks|
  {
    if chunks == [] then Framing([], buffer)
    else
      var now := FeedBuffer(buffer, chunks[0]);
      now.Then(FeedAll(now.rest, chunks[1..]))
  }

  function Concat(chunks: seq<Bytes>): Bytes {
    if chunks == [] then [] else chunks[0] + Concat(chunks[1..])
  }

  /** The one-shot parse: a single feed into an empty buffer. */
  function OneShot(s: Bytes): Framing {
    FeedBuffer([], s)
  }

  // ---- what a cut is ------------------------------------------------------

  function Glue(f: Framing): Bytes
    decreases |f.frames|
  {
    if f.frames == [] then f.rest
    else f.frames[0] + [LF, LF] + Glue(Framing(f.frames[1..], f.rest))
  }

  ghost predicate Blankless(s: Bytes) {
    forall i :: !BlankAt(s, i)
  }

  /** Every frame is followed by the first blank after its start; the rest holds none. */
  ghost predicate Minimal(f: Framing) {
    Blankless(f.rest) && forall i | 0 <= i < |f.frames| :: Blankless(f.frames[i] + [LF])
  }

  lemma {:induction false} FirstBlankIs(s: Bytes, i: nat)
    requires BlankAt(s, i) && forall j :: 0 <= j < i ==> !BlankAt(s, j)
    ensures FirstBlank(s) == i
  {
    assert !(FirstBlank(s) < i) && !(i < FirstBlank(s));
  }

  /** `Cut` is the one minimal way to read the bytes as frames: it loses and invents nothing. */
  lemma {:induction false} CutIsTheMinimalFraming(s: Bytes, f: Framing)
    ensures f == Cut(s) <==> Glue(f) == s && Minimal(f)
    decreases |s|, |f.frames|
  {
    CutGlues(s);
    if Glue(f) == s && Minimal(f) {
      if f.frames == [] {
        assert FirstBlank(s) == |s|;
      } else {
        var n := |f.frames[0]|;
        var tail := Framing(f.frames[1..], f.rest);
        assert s == f.frames[0] + [LF, LF] + Glue(tail);
        forall j | 0 <= j < n ensures !BlankAt(s, j) {
          assert !BlankAt(f.frames[0] + [LF], j);
        }
        FirstBlankIs(s, n);
        assert s[n + 2..] == Glue(tail);
        assert Minimal(tail) by {
          forall i | 0 <= i < |tail.frames| ensures Blankless(tail.frames[i] + [LF]) {
            assert tail.frames[i] == f.frames[i + 1];
          }
        }
        CutIsTheMinimalFraming(s[n + 2..], tail);
        assert s[..n] == f.frames[0];
        assert f.frames == [f.frames[0]] + tail.frames;
      }
    }
  }

  lemma {:induction false} CutGlues(s: Bytes)
    ensures Glue(Cut(s)) == s && Minimal(Cut(s))
    decreases |s|
  {
    var i := FirstBlank(s);
    if i < |s| {
      CutGlues(s[i + 2..]);
      var later := Cut(s[i + 2..]);
      GlueOneMore(s[..i], later);
      assert s == s[..i] + [LF, LF] + s[i + 2..];
      FirstFrameIsMinimal(s, i);
      OneMoreFrame(s[..i], later);
    } else {
      assert Cut(s) == Framing([], s);
    }
  }

  lemma FirstFrameIsMinimal(s: Bytes, i: nat)
    requires BlankAt(s, i) && forall j :: 0 <= j < i ==> !BlankAt(s, j)
    ensures Blankless(s[..i] + [LF])
  {
    forall j ensures !BlankAt(s[..i] + [LF], j) {
      if 0 <= j < i { assert !BlankAt(s, j); }
    }
  }

  lemma GlueOneMore(frame: Bytes, later: Framing)
    ensures Glue(Framing([frame], []).Then(later)) == frame + [LF, LF] + Glue(later)
  {
    assert ([frame] + later.frames)[1..] == later.frames;
  }

  lemma OneMoreFrame(frame: Bytes, later: Framing)
    requires Blankless(frame + [LF]) && Minimal(later)
    ensures Minimal(Framing([frame], []).Then(later))
  {
    var f := Framing([frame], []).Then(later);
    forall i | 0 <= i < |f.frames| ensures Blankless(f.frames[i] + [LF]) {
      if i > 0 { assert f.frames[i] == later.frames[i - 1]; }
    }
  }

  lemma {:induction false} CutAt(s: Bytes, i: nat)
    requires BlankAt(s, i) && forall j :: 0 <= j < i ==> !BlankAt(s, j)
    ensures Cut(s) == Framing([s[..i]], []).Then(Cut(s[i + 2..]))
  {
    FirstBlankIs(s, i);
  }

  lemma ThenAssociates(f: Framing, g: Framing, h: Framing)
    ensures f.Then(g).Then(h) == f.Then(g.Then(h))
  {
    assert (f.frames + g.frames) + h.frames == f.frames + (g.frames + h.frames);
  }

  // ---- chunk invariance ---------------------------------------------------

  lemma {:induction false} CutAppend(x: Bytes, y: Bytes)
    ensures Cut(x + y) == Cut(x).Then(Cut(Cut(x).rest + y))
    decreases |x|
  {
    var i := FirstBlank(x);
    if i < |x| {
      forall j | 0 <= j < i ensures !BlankAt(x + y, j) { assert !BlankAt(x, j); }
      CutAt(x + y, i);
      assert (x + y)[i + 2..] == x[i + 2..] + y && (x + y)[..i] == x[..i];
      CutAppend(x[i + 2..], y);
      ThenAssociates(Framing([x[..i]], []), Cut(x[i + 2..]), Cut(Cut(x).rest + y));
    }
  }

  lemma {:induction false} NormaliseAppend(p: Bytes, c: Bytes)
    requires !(p != [] && c != [] && p[|p| - 1] == CR && c[0] == LF)
    ensures Normalise(p + c) == Normalise(p) + Normalise(c)
    decreases |p|
  {
    if p == [] {
      assert p + c == c;
    } else if |p| == 1 {
      assert (p + c)[1..] == c;
      assert c == [] ==> p + c == p;
    } else if CrLfAt(p, 0) {
      assert (p + c)[2..] == p[2..] + c;
      NormaliseAppend(p[2..], c);
    } else {
      assert (p + c)[1..] == p[1..] + c;
      NormaliseAppend(p[1..], c);
    }
  }

  lemma {:induction false} TailHasNoCrCrLf(p: Bytes, k: nat)
    requires k <= |p| && !HasCrCrLf(p)
    ensures !HasCrCrLf(p[k..]) && !HasCrCrLf(p[..k])
  {
    forall i | 0 <= i < |p[k..]| ensures !CrCrLfAt(p[k..], i) { assert !CrCrLfAt(p, i + k); }
    forall i | 0 <= i < k ensures !CrCrLfAt(p[..k], i) { assert !CrCrLfAt(p, i); }
  }

  /** How many bytes one step of `Normalise` reads, and the byte it writes. */
  function Step(p: Bytes): (k: nat)
    requires |p| >= 2
    ensures 1 <= k <= 2
  {
    if CrLfAt(p, 0) then 2 else 1
  }

  function Head(p: Bytes): Byte
    requires |p| >= 2
  {
    if CrLfAt(p, 0) then LF else p[0]
  }

  lemma {:induction false} NormaliseStep(p: Bytes)
    requires |p| >= 2
    ensures Normalise(p) == [Head(p)] + Normalise(p[Step(p)..])
  {
  }

  lemma StepOfAppend(p: Bytes, c: Bytes)
    requires |p| >= 2
    ensures Normalise(p + c) == [Head(p)] + Normalise(p[Step(p)..] + c)
  {
    assert (p + c)[Step(p)..] == p[Step(p)..] + c;
    assert Step(p + c) == Step(p);
    NormaliseStep(p + c);
  }

  lemma StepOfNormalised(p: Bytes, c: Bytes)
    requires |p| >= 2 && !HasCrCrLf(p)
    ensures Normalise(Normalise(p) + c) == [Head(p)] + Normalise(Normalise(p[Step(p)..]) + c)
  {
    var tail := Normalise(p[Step(p)..]);
    NormaliseStep(p);
    assert Normalise(p) + c == [Head(p)] + (tail + c);
    assert !CrCrLfAt(p, 0);
    if Head(p) == CR { NormaliseHead(p[1..]); }
    NormaliseCons(Head(p), tail + c);
  }

  /** Without CR CR LF, a normalised text has no CR LF left. */
  lemma {:induction false} NormaliseCleans(p: Bytes)
    requires !HasCrCrLf(p)
    ensures forall i :: !CrLfAt(Normalise(p), i)
    decreases |p|
  {
    if |p| >= 2 {
      TailHasNoCrCrLf(p, Step(p));
      NormaliseCleans(p[Step(p)..]);
      NormaliseStep(p);
      var tail := Normalise(p[Step(p)..]);
      assert !CrCrLfAt(p, 0);
      forall i ensures !CrLfAt(Normalise(p), i) {
        if i > 0 { assert !CrLfAt(tail, i - 1); }
      }
    }
  }

  /** Normalising a prefix first changes nothing. */
  lemma {:induction false} NormaliseTwice(p: Bytes, c: Bytes)
    requires !HasCrCrLf(p)
    ensures Normalise(Normalise(p) + c) == Normalise(p + c)
    decreases |p|
  {
    if |p| >= 2 {
      TailHasNoCrCrLf(p, Step(p));
      NormaliseTwice(p[Step(p)..], c);
      StepOfAppend(p, c);
      StepOfNormalised(p, c);
    }
  }

  lemma NormaliseHead(q: Bytes)
    requires q != [] && q[0] != LF && !CrLfAt(q, 0)
    ensures Normalise(q) != [] && Normalise(q)[0] != LF
  {
  }

  lemma NormaliseCons(head: Byte, tail: Bytes)
    requires head == CR ==> tail == [] || tail[0] != LF
    ensures Normalise([head] + tail) == [head] + Normalise(tail)
  {
    var s := [head] + tail;
    assert s[1..] == tail;
    if tail == [] { assert s == [head] + []; } else { assert s[1] == tail[0]; }
  }

  lemma {:induction false} NormaliseFixed(y: Bytes)
    requires forall i :: !CrLfAt(y, i)
    ensures Normalise(y) == y
    decreases |y|
  {
    if |y| >= 2 {
      forall i ensures !CrLfAt(y[1..], i) { assert !CrLfAt(y, i + 1); }
      NormaliseFixed(y[1..]);
    }
  }

  /** A clean first frame stays the first frame, whatever follows its blank line. */
  lemma FirstFrameStays(head: Bytes, i: nat, more: Bytes)
    requires |head| == i + 2 && BlankAt(head, i) && forall j | 0 <= j < i :: !BlankAt(head, j)
    requires forall j :: !CrLfAt(head, j)
    ensures Cut(Normalise(head + more)) == Framing([head[..i]], []).Then(Cut(Normalise(more)))
  {
    NormaliseAppend(head, more);
    NormaliseFixed(head);
    var all := head + Normalise(more);
    forall j | 0 <= j < i ensures !BlankAt(all, j) { assert !BlankAt(head, j); }
    CutAt(all, i);
    assert all[i + 2..] == Normalise(more) && all[..i] == head[..i];
  }

  /** Feeding after a cut of clean bytes equals cutting everything at once. */
  lemma {:induction false} FeedAfterCut(y: Bytes, c: Bytes)
    requires forall i :: !CrLfAt(y, i)
    ensures Cut(Normalise(y + c)) == Cut(y).Then(FeedBuffer(Cut(y).rest, c))
    decreases |y|
  {
    var i := FirstBlank(y);
    if i < |y| {
      var head, tail := y[..i + 2], y[i + 2..];
      forall j ensures !CrLfAt(head, j) && !CrLfAt(tail, j) {
        assert !CrLfAt(y, j) && !CrLfAt(y, j + i + 2);
      }
      forall j | 0 <= j < i ensures !BlankAt(head, j) { assert !BlankAt(y, j); }
      assert y + c == head + (tail + c) && head[..i] == y[..i];
      FirstFrameStays(head, i, tail + c);
      FeedAfterCut(tail, c);
      ThenAssociates(Framing([y[..i]], []), Cut(tail), FeedBuffer(Cut(y).rest, c));
    }
  }

  lemma {:induction false} OneShotStep(p: Bytes, c: Bytes)
    requires !HasCrCrLf(p)
    ensures OneShot(p + c) == OneShot(p).Then(FeedBuffer(OneShot(p).rest, c))
  {
    assert [] + p == p && [] + (p + c) == p + c;
    NormaliseTwice(p, c);
    NormaliseCleans(p);
    FeedAfterCut(Normalise(p), c);
  }

  lemma {:induction false} FeedAllFrom(p: Bytes, chunks: seq<Bytes>)
    requires !HasCrCrLf(p + Concat(chunks))
    ensures OneShot(p + Concat(chunks)) == OneShot(p).Then(FeedAll(OneShot(p).rest, chunks))
    decreases |chunks|
  {
    assert (p + Concat(chunks))[..|p|] == p;
    TailHasNoCrCrLf(p + Concat(chunks), |p|);
    assert [] + p == p;
    if chunks == [] {
      assert p + Concat(chunks) == p;
    } else {
      var c := chunks[0];
      assert p + Concat(chunks) == (p + c) + Concat(chunks[1..]);
      FeedAllFrom(p + c, chunks[1..]);
      assert [] + (p + c) == p + c;
      OneShotStep(p, c);
      var now := FeedBuffer(OneShot(p).rest, c);
      ThenAssociates(OneShot(p), now, FeedAll(now.rest, chunks[1..]));
    }
  }

  /** Weight in bytes of a framing, counting the two bytes of each blank line. */
  function Weight(f: Framing): nat {
    |Glue(f)|
  }

  lemma {:induction false} NormaliseShrinks(s: Bytes)
    ensures |Normalise(s)| <= |s|
    ensures (exists i :: CrLfAt(s, i)) ==> |Normalise(s)| < |s|
    decreases |s|
  {
    if |s| >= 2 {
      var k := if CrLfAt(s, 0) then 2 else 1;
      NormaliseShrinks(s[k..]);
      if i :| CrLfAt(s, i) {
        if i >= k { assert CrLfAt(s[k..], i - k); }
      }
    }
  }

  lemma {:induction false} CutKeepsCrLfEnd(x: Bytes)
    requires |x| >= 2 && CrLfAt(x, |x| - 2)
    ensures var r := Cut(x).rest; |r| >= 2 && CrLfAt(r, |r| - 2)
    decreases |x|
  {
    var i := FirstBlank(x);
    if i < |x| {
      assert BlankAt(x, i) && i + 2 <= |x| - 2;
      CutKeepsCrLfEnd(x[i + 2..]);
    }
  }

  lemma {:induction false} GlueAppend(f: Framing, g: Framing)
    ensures Weight(f.Then(g)) == Weight(f) - |f.rest| + Weight(g)
    decreases |f.frames|
  {
    if f.frames == [] {
      assert f.frames + g.frames == g.frames;
    } else {
      assert (f.frames + g.frames)[1..] == f.frames[1..] + g.frames;
      GlueAppend(Framing(f.frames[1..], f.rest), g);
    }
  }

  lemma TwoChunks(a: Bytes, b: Bytes)
    ensures Concat([a, b]) == a + b
    ensures FeedAll([], [a, b]) == OneShot(a).Then(FeedBuffer(OneShot(a).rest, b))
  {
    assert [a, b][1..] == [b] && [b][1..] == [];
    assert Concat([b]) == b + [] == b;
    var second := FeedBuffer(OneShot(a).rest, b);
    assert FeedAll(OneShot(a).rest, [b]) == second.Then(FeedAll(second.rest, []));
    assert second.frames + [] == second.frames;
  }

  lemma NormaliseCrCrLfEnd(u: Bytes)
    ensures Normalise(u + [CR, CR, LF]) == Normalise(u) + [CR, LF]
  {
    assert [CR, CR, LF][1..] == [CR, LF] && [CR, LF][2..] == [] && CrLfAt([CR, LF], 0);
    assert Normalise([CR, LF]) == [LF];
    assert Normalise([CR, CR, LF]) == [CR, LF];
    NormaliseAppend(u, [CR, CR, LF]);
  }

  lemma OneShotWeight(s: Bytes)
    ensures Weight(OneShot(s)) == |Normalise(s)|
  {
    assert [] + s == s;
    CutGlues(Normalise(s));
  }

  /** The first pass over text ending in CR CR LF leaves CR LF at the end of the buffer. */
  lemma FirstPassLeavesCrLf(u: Bytes)
    ensures var a := u + [CR, CR, LF];
            var r := OneShot(a).rest;
            && Weight(OneShot(a)) == |Normalise(a)| && |r| >= 2 && CrLfAt(r, |r| - 2)
  {
    var a := u + [CR, CR, LF];
    NormaliseCrCrLfEnd(u);
    var x := Normalise(a);
    assert x == Normalise(u) + [CR, LF] && CrLfAt(x, |x| - 2);
    assert [] + a == a;
    CutKeepsCrLfEnd(x);
    OneShotWeight(a);
  }

  /** A second pass over a buffer ending in CR LF removes a byte. */
  lemma SecondPassWeight(r: Bytes, b: Bytes)
    requires |r| >= 2 && CrLfAt(r, |r| - 2)
    ensures Weight(FeedBuffer(r, b)) < |r| + |Normalise(b)|
  {
    NormaliseAppend(r, b);
    NormaliseShrinks(r);
    CutGlues(Normalise(r + b));
  }

  /** A chunk boundary right after CR CR LF makes the second pass remove one more byte. */
  lemma SecondPassShrinks(u: Bytes, b: Bytes)
    ensures var a := u + [CR, CR, LF];
            Weight(OneShot(a).Then(FeedBuffer(OneShot(a).rest, b))) < |Normalise(a + b)|
  {
    var a := u + [CR, CR, LF];
    var r := OneShot(a).rest;
    FirstPassLeavesCrLf(u);
    SecondPassWeight(r, b);
    NormaliseAppend(a, b);
    GlueAppend(OneShot(a), FeedBuffer(r, b));
  }

  lemma {:induction false} SplitAfterCrCrLf(s: Bytes, i: nat)
    requires CrCrLfAt(s, i)
    ensures Concat([s[..i + 3], s[i + 3..]]) == s
    ensures FeedAll([], [s[..i + 3], s[i + 3..]]) != OneShot(s)
  {
    var a, b := s[..i + 3], s[i + 3..];
    assert s == a + b;
    assert a == s[..i] + [CR, CR, LF];
    TwoChunks(a, b);
    SecondPassShrinks(s[..i], b);
    OneShotWeight(s);
  }

  /** Every way of cutting the stream into chunks gives the one-shot frames and leftover. */
  ghost predicate ChunkingIrrelevant(s: Bytes) {
    forall chunks: seq<Bytes> | Concat(chunks) == s :: FeedAll([], chunks) == OneShot(s)
  }

  /** The main theorem, with its exact condition. */
  lemma {:induction false} ChunkInvariance(s: Bytes)
    ensures ChunkingIrrelevant(s) <==> !HasCrCrLf(s)
  {
    if HasCrCrLf(s) {
      var i :| 0 <= i < |s| && CrCrLfAt(s, i);
      SplitAfterCrCrLf(s, i);
    } else {
      forall chunks: seq<Bytes> | Concat(chunks) == s ensures FeedAll([], chunks) == OneShot(s) {
        assert [] + Concat(chunks) == s;
        FeedAllFrom([], chunks);
        assert OneShot([]) == Framing([], []);
        assert FeedAll([], chunks).frames == [] + FeedAll([], chunks).frames;
      }
    }
  }

  /** Completed frames are never revised by later bytes, whatever the stream holds. */
  lemma {:induction false} FramesOnlyGrow(s: Bytes, t: Bytes)
    ensures Cut(Normalise(s)).frames <= Cut(Normalise(s + t)).frames
  {
    if s != [] && s[|s| - 1] == CR {
      var u := s[..|s| - 1];
      assert s == u + [CR] && s + t == u + ([CR] + t);
      NormaliseAppend(u, [CR]);
      NormaliseAppend(u, [CR] + t);
      CutAppend(Normalise(u), Normalise([CR]));
      CutAppend(Normalise(u), Normalise([CR] + t));
      TrailingCr(Cut(Normalise(u)).rest);
      CutRestBlankless(Normalise(u));
    } else {
      NormaliseAppend(s, t);
      CutAppend(Normalise(s), Normalise(t));
    }
  }

  lemma {:induction false} CutRestBlankless(s: Bytes)
    ensures Blankless(Cut(s).rest)
  {
    CutGlues(s);
  }

  lemma {:induction false} TrailingCr(r: Bytes)
    ensures Blankless(r) ==> Cut(r + [CR]).frames == []
  {
    if Blankless(r) {
      forall i ensures !BlankAt(r + [CR], i) { assert !BlankAt(r, i); }
    }
  }

  ghost predicate NoLineEnds(d: Bytes) {
    forall i | 0 <= i < |d| :: d[i] != CR && d[i] != LF
  }

  /** A line closed by LF CR CR LF: one pass leaves it open, a pass at the next chunk closes it. */
  lemma {:induction false} CrCrLfClosesEarly(d: Bytes, x: Byte)
    requires NoLineEnds(d) && x != CR && x != LF
    ensures OneShot(d + [LF, CR, CR, LF]) == Framing([], d + [LF, CR, LF])
    ensures OneShot(d + [LF, CR, CR, LF] + [x]).frames == []
    ensures FeedBuffer(d + [LF, CR, LF], [x]) == Framing([d], [x])
  {
    var raw, once := d + [LF, CR, CR, LF], d + [LF, CR, LF];
    assert raw == (d + [LF]) + [CR, CR, LF] && once == (d + [LF]) + [CR, LF];
    NormaliseCrCrLfEnd(d + [LF]);
    NormaliseFixed(d + [LF]);
    NormaliseAppend(raw, [x]);
    assert [] + raw == raw && [] + (raw + [x]) == raw + [x];
    assert Normalise(raw) == once;
    forall i ensures !BlankAt(once, i) && !BlankAt(once + [x], i) {
      if 0 <= i < |d| { assert once[i] == d[i] && (once + [x])[i] == d[i]; }
    }
    assert once + [x] == (d + [LF]) + [CR, LF, x];
    NormaliseAppend(d + [LF], [CR, LF, x]);
    NormaliseCrLfThen(x);
    var twice := d + [LF, LF, x];
    assert Normalise(once + [x]) == twice;
    forall j | 0 <= j < |d| ensures !BlankAt(twice, j) { assert twice[j] == d[j]; }
    CutAt(twice, |d|);
    assert twice[..|d|] == d && twice[|d| + 2..] == [x];
    assert FirstBlank([x]) == 1 && Cut([x]) == Framing([], [x]);
  }

  /** The bytes 10 10 are a blank line. */
  lemma BlankIs(s: Bytes, i: nat)
    ensures BlankAt(s, i) <==> i + 1 < |s| && s[i] == 10 && s[i + 1] == 10
  {
  }

  /** The bytes 13 10 become 10 wherever they stand, and bytes without them stay. */
  lemma CrLfBecomesLf(a: Bytes, b: Bytes)
    ensures Normalise(a + [13, 10] + b) == Normalise(a) + [10] + Normalise(b)
    ensures (forall i | 0 <= i < |a| - 1 :: !(a[i] == 13 && a[i + 1] == 10)) ==> Normalise(a) == a
  {
    var tail := [CR, LF] + b;
    assert a + [13, 10] + b == a + tail && tail[2..] == b && CrLfAt(tail, 0);
    NormaliseAppend(a, tail);
    assert Normalise(a) + ([LF] + Normalise(b)) == Normalise(a) + [10] + Normalise(b);
    if forall i | 0 <= i < |a| - 1 :: !(a[i] == 13 && a[i + 1] == 10) { NormaliseFixed(a); }
  }

  lemma NormaliseCrLfThen(x: Byte)
    ensures Normalise([CR, LF, x]) == [LF, x]
  {
    assert CrLfAt([CR, LF, x], 0) && [CR, LF, x][2..] == [x];
  }

  /** The decoding of bytes below 128, where UTF-8 is one character for each byte. */
  function Ascii(bytes: Bytes): (s: string)
    ensures |s| == |bytes|
  {
    seq(|bytes|, i requires 0 <= i < |bytes| => bytes[i] as char)
  }

  predicate Printable(bytes: Bytes) {
    forall i | 0 <= i < |bytes| :: 32 <= bytes[i] <= 126
  }
}
