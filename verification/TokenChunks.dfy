/** `Chunker._chunk_on_tokens`: fixed windows over token ids. */
module TokenChunks {

  /** The windows the loop cuts, as id sequences; decoding them is a foreign call. */
  method ChunkOnTokens<T>(ids: seq<T>, size: nat, overlap: nat) returns (pieces: seq<seq<T>>)
    requires overlap < size
    ensures |pieces| == Count(|ids|, size, overlap)
    ensures forall i | 0 <= i < |pieces| :: IsWindow(ids, size, overlap, i, pieces[i])
  {
    var step := size - overlap;
    pieces := [];
    var start := 0;
    ghost var idx := 0;
    CountIs(|ids|, size, overlap);
    while start < |ids|
      invariant idx == |pieces| && start == idx * step
      invariant idx > 0 ==> start + overlap < |ids|
      invariant forall i | 0 <= i < |pieces| :: IsWindow(ids, size, overlap, i, pieces[i])
      decreases |ids| - start
    {
      var end := if start + size <= |ids| then start + size else |ids|;
      pieces := pieces + [ids[start..end]];
      if end == |ids| {
        CountFromLast(|ids|, size, overlap, idx);
        return;
      }
      NextStart(idx, step);
      start := start + step;
      idx := idx + 1;
    }
    assert idx == 0;
  }

  /** Window `i` starts `i` steps in and has `size` ids, or runs to the end. */
  ghost predicate IsWindow<T>(ids: seq<T>, size: nat, overlap: nat, i: nat, piece: seq<T>)
    requires overlap < size
  {
    var start := i * (size - overlap);
    start <= |ids| && piece == ids[start..if start + size <= |ids| then start + size else |ids|]
  }

  /** How many windows `n` ids need: for more than `size` ids, ceil((n - overlap) / (size - overlap)). */
  function Count(n: nat, size: nat, overlap: nat): nat
    requires overlap < size
  {
    if n == 0 then 0
    else if n <= size then 1
    else (n - overlap + (size - overlap) - 1) / (size - overlap)
  }

  lemma NextStart(idx: nat, step: nat)
    ensures (idx + 1) * step == idx * step + step
  {
  }

  /** The ceiling, by its defining inequalities. */
  lemma CountIs(n: nat, size: nat, overlap: nat)
    requires overlap < size
    ensures n > size ==> var k, step := Count(n, size, overlap), size - overlap;
                         k >= 2 && (k - 1) * step < n - overlap <= k * step
  {
    if n > size {
      var step := size - overlap;
      CeilingBounds(n - overlap, step);
      var k := Count(n, size, overlap);
      assert k == 1 ==> k * step == step;
    }
  }

  lemma CeilingBounds(a: nat, step: nat)
    requires step > 0 && a > 0
    ensures var k := (a + step - 1) / step; k >= 1 && (k - 1) * step < a <= k * step
  {
    var m := a + step - 1;
    var k := m / step;
    assert m == k * step + m % step;
    assert (k - 1) * step == k * step - step;
  }

  /** The ceiling is the only number with those bounds. */
  lemma CeilingIsUnique(a: nat, step: nat, k: nat, j: nat)
    requires step > 0 && k >= 1 && j >= 1
    requires (k - 1) * step < a <= k * step && (j - 1) * step < a <= j * step
    ensures k == j
  {
    if k < j { MulMonotone(k, j - 1, step); }
    if j < k { MulMonotone(j, k - 1, step); }
  }

  lemma MulMonotone(a: nat, b: nat, step: nat)
    requires a <= b
    ensures a * step <= b * step
  {
  }

  lemma CountFromLast(n: nat, size: nat, overlap: nat, idx: nat)
    requires overlap < size && n > 0
    requires idx * (size - overlap) + size >= n && (idx > 0 ==> idx * (size - overlap) + overlap < n)
    ensures Count(n, size, overlap) == idx + 1
  {
    var step := size - overlap;
    NextStart(idx, step);
    if n > size {
      CountIs(n, size, overlap);
      CeilingIsUnique(n - overlap, step, Count(n, size, overlap), idx + 1);
    } else if idx > 0 {
      MulMonotone(1, idx, step);
    }
  }

  // ---- what the windows guarantee ---------------------------------------------------

  ghost predicate Windows<T>(ids: seq<T>, size: nat, overlap: nat, pieces: seq<seq<T>>)
    requires overlap < size
  {
    && |pieces| == Count(|ids|, size, overlap)
    && forall i | 0 <= i < |pieces| :: IsWindow(ids, size, overlap, i, pieces[i])
  }

  /** The start of a window of a multi-window cut leaves more than the overlap to the end. */
  lemma StartsLeaveOverlap(n: nat, size: nat, overlap: nat, i: nat)
    requires overlap < size && n > size && i < Count(n, size, overlap)
    ensures i * (size - overlap) + overlap < n
    ensures i < Count(n, size, overlap) - 1 ==> i * (size - overlap) + size < n
  {
    var step := size - overlap;
    var k := Count(n, size, overlap);
    CountIs(n, size, overlap);
    MulMonotone(i, k - 1, step);
    if i < k - 1 {
      NextStart(i, step);
      MulMonotone(i + 1, k - 1, step);
    }
  }

  /** All windows but the last have exactly `size` ids; the last has more than `overlap`. */
  lemma WindowLengths<T>(ids: seq<T>, size: nat, overlap: nat, pieces: seq<seq<T>>, i: nat)
    requires overlap < size && |ids| > size && Windows(ids, size, overlap, pieces) && i < |pieces|
    ensures i < |pieces| - 1 ==> |pieces[i]| == size
    ensures i == |pieces| - 1 ==> overlap < |pieces[i]| <= size
  {
    StartsLeaveOverlap(|ids|, size, overlap, i);
    assert IsWindow(ids, size, overlap, i, pieces[i]);
    if i == |pieces| - 1 {
      CountIs(|ids|, size, overlap);
      NextStart(i, size - overlap);
    }
  }

  /** Neighbouring windows share exactly `overlap` ids. */
  lemma NeighboursOverlap<T>(ids: seq<T>, size: nat, overlap: nat, pieces: seq<seq<T>>, i: nat)
    requires overlap < size && |ids| > size && Windows(ids, size, overlap, pieces) && i + 1 < |pieces|
    ensures |pieces[i]| == size && |pieces[i + 1]| > overlap
    ensures pieces[i][size - overlap..] == pieces[i + 1][..overlap]
  {
    WindowLengths(ids, size, overlap, pieces, i);
    WindowLengths(ids, size, overlap, pieces, i + 1);
    StartsLeaveOverlap(|ids|, size, overlap, i);
    NextStart(i, size - overlap);
    assert IsWindow(ids, size, overlap, i, pieces[i]) && IsWindow(ids, size, overlap, i + 1, pieces[i + 1]);
  }

  /** The first window, then every later one without its first `overlap` ids. */
  function Rejoin<T>(pieces: seq<seq<T>>, overlap: nat, n: nat): seq<T>
    requires n <= |pieces| && forall i | 1 <= i < |pieces| :: |pieces[i]| >= overlap
  {
    if n == 0 then [] else if n == 1 then pieces[0] else Rejoin(pieces, overlap, n - 1) + pieces[n - 1][overlap..]
  }

  /** Where window `i` ends. */
  function WindowEnd(n: nat, size: nat, overlap: nat, i: nat): nat
    requires overlap < size
  {
    var end := i * (size - overlap) + size;
    if end <= n then end else n
  }

  /** Each later window, without its overlap, continues where the one before it ended. */
  lemma WindowContinues<T>(ids: seq<T>, size: nat, overlap: nat, pieces: seq<seq<T>>, i: nat)
    requires overlap < size && |ids| > size && Windows(ids, size, overlap, pieces) && 1 <= i < |pieces|
    ensures |pieces[i]| >= overlap
    ensures WindowEnd(|ids|, size, overlap, i - 1) <= WindowEnd(|ids|, size, overlap, i)
    ensures pieces[i][overlap..]
         == ids[WindowEnd(|ids|, size, overlap, i - 1)..WindowEnd(|ids|, size, overlap, i)]
  {
    assert IsWindow(ids, size, overlap, i, pieces[i]);
    StartsLeaveOverlap(|ids|, size, overlap, i - 1);
    StartsLeaveOverlap(|ids|, size, overlap, i);
    NextStart(i - 1, size - overlap);
  }

  lemma {:induction false} RejoinPrefix<T>(ids: seq<T>, overlap: nat, pieces: seq<seq<T>>, ends: seq<nat>, n: nat)
    requires 1 <= n <= |pieces| == |ends| && ends[0] <= |ids| && pieces[0] == ids[..ends[0]]
    requires forall i | 1 <= i < |pieces| ::
               && |pieces[i]| >= overlap && ends[i - 1] <= ends[i] <= |ids|
               && pieces[i][overlap..] == ids[ends[i - 1]..ends[i]]
    ensures ends[n - 1] <= |ids| && Rejoin(pieces, overlap, n) == ids[..ends[n - 1]]
    decreases n
  {
    if n > 1 {
      RejoinPrefix(ids, overlap, pieces, ends, n - 1);
      assert ids[..ends[n - 2]] + ids[ends[n - 2]..ends[n - 1]] == ids[..ends[n - 1]];
    }
  }

  /** Dropping the overlaps rebuilds the input: no id is lost, repeated or moved. */
  lemma WindowsRebuildInput<T>(ids: seq<T>, size: nat, overlap: nat, pieces: seq<seq<T>>)
    requires overlap < size && |ids| > size && Windows(ids, size, overlap, pieces)
    ensures forall i | 1 <= i < |pieces| :: |pieces[i]| >= overlap
    ensures Rejoin(pieces, overlap, |pieces|) == ids
  {
    CountIs(|ids|, size, overlap);
    var k := |pieces|;
    var ends := seq(k, i requires 0 <= i < k => WindowEnd(|ids|, size, overlap, i));
    forall i | 1 <= i < k
      ensures |pieces[i]| >= overlap && ends[i - 1] <= ends[i] <= |ids|
      ensures pieces[i][overlap..] == ids[ends[i - 1]..ends[i]]
    {
      WindowContinues(ids, size, overlap, pieces, i);
    }
    assert IsWindow(ids, size, overlap, 0, pieces[0]);
    RejoinPrefix(ids, overlap, pieces, ends, k);
    NextStart(k - 1, size - overlap);
  }
}
