/** The log triage bot: which errors a scan remembers and which it shows, over whole runs of scans. */
module LogTriage {
  import opened Text
  import opened StringOrder

  datatype Fingerprint = Fingerprint(timestamp: string, message: string)

  /** Tuple order. */
  predicate Below(a: Fingerprint, b: Fingerprint) {
    Less(a.timestamp, b.timestamp) || (a.timestamp == b.timestamp && Less(a.message, b.message))
  }

  lemma BelowIsAnOrder(a: Fingerprint, b: Fingerprint, c: Fingerprint)
    ensures !Below(a, a)
    ensures a == b || Below(a, b) || Below(b, a)
    ensures Below(a, b) && Below(b, c) ==> Below(a, c)
    ensures Below(a, b) ==> !Below(b, a)
  {
    Irreflexive(a.timestamp);
    Irreflexive(a.message);
    Total(a.timestamp, b.timestamp);
    Total(a.message, b.message);
    if Less(a.timestamp, b.timestamp) && Less(b.timestamp, c.timestamp) {
      Transitive(a.timestamp, b.timestamp, c.timestamp);
    }
    if Less(a.message, b.message) && Less(b.message, c.message) {
      Transitive(a.message, b.message, c.message);
    }
    if Less(a.timestamp, b.timestamp) && Less(b.timestamp, a.timestamp) {
      Transitive(a.timestamp, b.timestamp, a.timestamp);
    }
    if Less(a.message, b.message) && Less(b.message, a.message) {
      Transitive(a.message, b.message, a.message);
    }
  }

  /** The time decides first, and between equal times the message. */
  lemma TimeDecidesFirst(a: Fingerprint, b: Fingerprint)
    ensures Less(a.timestamp, b.timestamp) ==> Below(a, b) && !Below(b, a)
    ensures a.timestamp == b.timestamp ==> (Below(a, b) <==> Less(a.message, b.message))
  {
    BelowIsAnOrder(a, b, a);
    Irreflexive(a.timestamp);
  }

  /** The dedup fields of the bot; `reported` is the deque, oldest first. */
  datatype Memory = Memory(highWater: Option<Fingerprint>, reported: seq<Fingerprint>, reportedSet: set<Fingerprint>,
                           lastInode: Option<int>)

  const FRESH := Memory(None, [], {}, None)

  predicate AboveMark(highWater: Option<Fingerprint>, fp: Fingerprint) {
    highWater == None || Below(highWater.value, fp)
  }

  predicate IsNew(m: Memory, fp: Fingerprint) {
    fp !in m.reportedSet && AboveMark(m.highWater, fp)
  }

  function RememberOne(cap: nat, m: Memory, fp: Fingerprint): Memory
    requires cap > 0
  {
    var m := if AboveMark(m.highWater, fp) then m.(highWater := Some(fp)) else m;
    if fp in m.reportedSet then m
    else
      var m := if |m.reported| == cap
               then m.(reported := m.reported[1..], reportedSet := m.reportedSet - {m.reported[0]}) else m;
      m.(reported := m.reported + [fp], reportedSet := m.reportedSet + {fp})
  }

  function RememberAll(cap: nat, m: Memory, fps: seq<Fingerprint>): Memory
    requires cap > 0
    decreases |fps|
  {
    if fps == [] then m else RememberAll(cap, RememberOne(cap, m, fps[0]), fps[1..])
  }

  function OnlyNew(m: Memory, fps: seq<Fingerprint>): seq<Fingerprint> {
    if fps == [] then []
    else if IsNew(m, fps[0]) then [fps[0]] + OnlyNew(m, fps[1..])
    else OnlyNew(m, fps[1..])
  }

  /** A change of inode means the log was rotated. */
  function Rotate(m: Memory, inode: int): Memory {
    if m.lastInode.Some? && m.lastInode.value != inode then Memory(None, [], {}, Some(inode))
    else m.(lastInode := Some(inode))
  }

  /**
   * One scan: the inode of the log (None when it is missing), the error fingerprints its tail holds,
   * and whether the mailbox accepts a summary.
   */
  datatype Scan = Scan(inode: Option<int>, errors: seq<Fingerprint>, sendSucceeds: bool)

  /** The two limits of the constructor, both positive. */
  datatype Limits = Limits(cap: nat, maxPerSummary: nat) {
    predicate Valid() {
      cap > 0 && maxPerSummary > 0
    }
  }

  /** The errors a scan reports and remembers: the new ones, when a summary is sent. */
  function Remembered(m: Memory, scan: Scan): seq<Fingerprint> {
    if scan.inode == None || !scan.sendSucceeds then [] else OnlyNew(Rotate(m, scan.inode.value), scan.errors)
  }

  function Cut(fps: seq<Fingerprint>, n: nat): seq<Fingerprint> {
    if |fps| <= n then fps else fps[..n]
  }

  /** The bullets of the summary: only the first of them. */
  function Shown(l: Limits, m: Memory, scan: Scan): seq<Fingerprint> {
    Cut(Remembered(m, scan), l.maxPerSummary)
  }

  function AfterScan(l: Limits, m: Memory, scan: Scan): Memory
    requires l.Valid()
  {
    if scan.inode == None then m else RememberAll(l.cap, Rotate(m, scan.inode.value), Remembered(m, scan))
  }

  /** The deque and the set hold the same distinct fingerprints, within the cap and not above the mark. */
  ghost predicate Consistent(cap: nat, m: Memory) {
    && |m.reported| <= cap
    && (forall fp :: fp in m.reportedSet <==> fp in m.reported)
    && (forall i, j | 0 <= i < j < |m.reported| :: m.reported[i] != m.reported[j])
    && (forall fp | fp in m.reported :: !AboveMark(m.highWater, fp))
  }

  class LogTriageBot {
    const limits: Limits
    var highWater: Option<Fingerprint>
    var reported: seq<Fingerprint>
    var reportedSet: set<Fingerprint>
    var lastInode: Option<int>

    ghost predicate Valid()
      reads this
    {
      limits.Valid() && Consistent(limits.cap, Current())
    }

    function Current(): Memory
      reads this
    {
      Memory(highWater, reported, reportedSet, lastInode)
    }

    constructor (limits: Limits)
      requires limits.Valid()
      ensures Valid() && this.limits == limits && Current() == FRESH
    {
      this.limits := limits;
      highWater, reported, reportedSet, lastInode := None, [], {}, None;
    }

    method Remember(fps: seq<Fingerprint>)
      requires Valid()
      modifies this
      ensures Valid() && Current() == RememberAll(limits.cap, old(Current()), fps)
    {
      for n := 0 to |fps|
        invariant Valid()
        invariant RememberAll(limits.cap, old(Current()), fps) == RememberAll(limits.cap, Current(), fps[n..])
      {
        var fp := fps[n];
        ghost var before := Current();
        RememberOneStays(limits.cap, before, fp);
        assert fps[n..][1..] == fps[n + 1..];
        if highWater == None || Below(highWater.value, fp) {
          highWater := Some(fp);
        }
        if fp !in reportedSet {
          if |reported| == limits.cap {
            var evicted := reported[0];
            reported := reported[1..];
            reportedSet := reportedSet - {evicted};
          }
          reported := reported + [fp];
          reportedSet := reportedSet + {fp};
        }
        assert Current() == RememberOne(limits.cap, before, fp);
      }
      assert fps[|fps|..] == [];
    }

    /** One scan; `summary` is what the posted message lists, empty when nothing is posted. */
    method RunOnce(scan: Scan) returns (summary: seq<Fingerprint>)
      requires Valid()
      modifies this
      ensures Valid() && summary == Shown(limits, old(Current()), scan)
      ensures Current() == AfterScan(limits, old(Current()), scan)
    {
      summary := [];
      match scan.inode {
        case None =>
        case Some(inode) =>
          if lastInode.Some? && lastInode.value != inode {
            highWater, reported, reportedSet := None, [], {};
          }
          lastInode := Some(inode);
          assert Current() == Rotate(old(Current()), inode);
          var unseen := OnlyNew(Current(), scan.errors);
          if unseen == [] { return; }
          if scan.sendSucceeds {
            summary := Cut(unseen, limits.maxPerSummary);
            Remember(unseen);
          }
      }
    }
  }

  /** Remembering one fingerprint raises the mark exactly to it. */
  lemma MarkStep(cap: nat, m: Memory, fp: Fingerprint, x: Fingerprint)
    requires cap > 0
    ensures AboveMark(RememberOne(cap, m, fp).highWater, x) <==> AboveMark(m.highWater, x) && Below(fp, x)
  {
    if m.highWater.Some? {
      BelowIsAnOrder(m.highWater.value, fp, x);
      BelowIsAnOrder(fp, m.highWater.value, x);
    }
  }

  lemma RememberOneStays(cap: nat, m: Memory, fp: Fingerprint)
    requires cap > 0 && Consistent(cap, m)
    ensures Consistent(cap, RememberOne(cap, m, fp))
  {
    var after := RememberOne(cap, m, fp);
    forall x | x in after.reported ensures !AboveMark(after.highWater, x) {
      MarkStep(cap, m, fp, x);
      BelowIsAnOrder(fp, fp, fp);
    }
  }

  lemma {:induction false} RememberAllStays(cap: nat, m: Memory, fps: seq<Fingerprint>, x: Fingerprint)
    requires cap > 0 && Consistent(cap, m)
    ensures Consistent(cap, RememberAll(cap, m, fps)) && RememberAll(cap, m, fps).lastInode == m.lastInode
    ensures AboveMark(RememberAll(cap, m, fps).highWater, x)
       <==> AboveMark(m.highWater, x) && forall g | g in fps :: Below(g, x)
    decreases |fps|
  {
    if fps != [] {
      RememberOneStays(cap, m, fps[0]);
      MarkStep(cap, m, fps[0], x);
      RememberAllStays(cap, RememberOne(cap, m, fps[0]), fps[1..], x);
      assert forall g :: g in fps <==> g == fps[0] || g in fps[1..];
    }
  }

  // ---- runs -------------------------------------------------------------------------------------

  function After(l: Limits, scans: seq<Scan>, n: nat): Memory
    requires l.Valid() && n <= |scans|
    decreases n
  {
    if n == 0 then FRESH else AfterScan(l, After(l, scans, n - 1), scans[n - 1])
  }

  /** What scan `j` remembers. */
  function Memorised(l: Limits, scans: seq<Scan>, j: nat): seq<Fingerprint>
    requires l.Valid() && j < |scans|
  {
    Remembered(After(l, scans, j), scans[j])
  }

  /** What the summary of scan `j` lists. */
  function Summary(l: Limits, scans: seq<Scan>, j: nat): seq<Fingerprint>
    requires l.Valid() && j < |scans|
  {
    Shown(l, After(l, scans, j), scans[j])
  }

  /** The inode seen last among the first `n` scans. */
  function Inode(scans: seq<Scan>, n: nat): Option<int>
    requires n <= |scans|
    decreases n
  {
    if n == 0 then None else if scans[n - 1].inode.Some? then scans[n - 1].inode else Inode(scans, n - 1)
  }

  /** The scan that opened the log generation the first `n` scans end in. */
  function GenerationStart(scans: seq<Scan>, n: nat): (start: nat)
    requires n <= |scans|
    ensures start <= n && (n > 0 ==> start < n)
    decreases n
  {
    if n == 0 then 0
    else
      var before := Inode(scans, n - 1);
      if scans[n - 1].inode.Some? && before.Some? && scans[n - 1].inode != before then n - 1
      else GenerationStart(scans, n - 1)
  }

  /** Everything remembered in scans `from` to `to` sorts below `x`. */
  ghost predicate AboveRemembered(l: Limits, scans: seq<Scan>, from: nat, to: nat, x: Fingerprint)
    requires l.Valid() && to <= |scans|
  {
    forall k, g | from <= k < to && g in Memorised(l, scans, k) :: Below(g, x)
  }

  /** `x` sorts above everything remembered before scan `j` in the log generation scan `j` reads. */
  ghost predicate Unseen(l: Limits, scans: seq<Scan>, j: nat, x: Fingerprint)
    requires l.Valid() && j < |scans|
  {
    AboveRemembered(l, scans, GenerationStart(scans, j + 1), j, x)
  }

  lemma {:induction false} OnlyNewIs(m: Memory, fps: seq<Fingerprint>, fp: Fingerprint)
    ensures fp in OnlyNew(m, fps) <==> fp in fps && IsNew(m, fp)
  {
    if fps != [] { OnlyNewIs(m, fps[1..], fp); }
  }

  lemma RotateStays(cap: nat, m: Memory, inode: int)
    requires Consistent(cap, m)
    ensures Consistent(cap, Rotate(m, inode))
  {
  }

  /** In every reachable state the mark stands exactly for what this log generation has remembered. */
  lemma {:induction false} MarkIsRemembered(l: Limits, scans: seq<Scan>, n: nat, x: Fingerprint)
    requires l.Valid() && n <= |scans|
    ensures Consistent(l.cap, After(l, scans, n)) && After(l, scans, n).lastInode == Inode(scans, n)
    ensures AboveMark(After(l, scans, n).highWater, x) <==> AboveRemembered(l, scans, GenerationStart(scans, n), n, x)
    decreases n
  {
    if n > 0 {
      MarkIsRemembered(l, scans, n - 1, x);
      var m, scan := After(l, scans, n - 1), scans[n - 1];
      MarkBeforeScan(l, scans, n, x);
      if scan.inode.Some? {
        RotateStays(l.cap, m, scan.inode.value);
        RememberAllStays(l.cap, Rotate(m, scan.inode.value), Memorised(l, scans, n - 1), x);
      }
      LastScanCounts(l, scans, GenerationStart(scans, n), n, x);
    }
  }

  lemma LastScanCounts(l: Limits, scans: seq<Scan>, from: nat, n: nat, x: Fingerprint)
    requires l.Valid() && 0 < n <= |scans| && from < n
    ensures AboveRemembered(l, scans, from, n, x)
       <==> AboveRemembered(l, scans, from, n - 1, x) && forall g | g in Memorised(l, scans, n - 1) :: Below(g, x)
  {
  }

  /** The memory scan `n - 1` filters with. */
  function BeforeScan(l: Limits, scans: seq<Scan>, n: nat): Memory
    requires l.Valid() && 0 < n <= |scans|
  {
    var m, inode := After(l, scans, n - 1), scans[n - 1].inode;
    if inode.Some? then Rotate(m, inode.value) else m
  }

  /** Scan `n - 1` starts from an empty mark when it finds a new inode, else from the generation so far. */
  lemma MarkBeforeScan(l: Limits, scans: seq<Scan>, n: nat, x: Fingerprint)
    requires l.Valid() && 0 < n <= |scans|
    requires var m := After(l, scans, n - 1);
             m.lastInode == Inode(scans, n - 1)
             && (AboveMark(m.highWater, x) <==> AboveRemembered(l, scans, GenerationStart(scans, n - 1), n - 1, x))
    ensures AboveMark(BeforeScan(l, scans, n).highWater, x)
       <==> AboveRemembered(l, scans, GenerationStart(scans, n), n - 1, x)
  {
  }

  /** In every reachable state the set test of `_is_new` is redundant: only the mark decides. */
  lemma OnlyTheMarkDecides(l: Limits, scans: seq<Scan>, n: nat, fp: Fingerprint)
    requires l.Valid() && n <= |scans|
    ensures IsNew(After(l, scans, n), fp) <==> AboveMark(After(l, scans, n).highWater, fp)
  {
    MarkIsRemembered(l, scans, n, fp);
  }

  /** What the filter of scan `j` lets through. */
  lemma NewIsUnseen(l: Limits, scans: seq<Scan>, j: nat, fp: Fingerprint)
    requires l.Valid() && j < |scans|
    ensures IsNew(BeforeScan(l, scans, j + 1), fp) <==> Unseen(l, scans, j, fp)
  {
    MarkIsRemembered(l, scans, j, fp);
    MarkBeforeScan(l, scans, j + 1, fp);
    if scans[j].inode.Some? { RotateStays(l.cap, After(l, scans, j), scans[j].inode.value); }
  }

  /** A scan remembers exactly the errors it reads that sort above everything remembered before. */
  lemma RememberedIffUnseen(l: Limits, scans: seq<Scan>, j: nat, fp: Fingerprint)
    requires l.Valid() && j < |scans|
    ensures fp in Memorised(l, scans, j)
       <==> scans[j].inode.Some? && scans[j].sendSucceeds && fp in scans[j].errors && Unseen(l, scans, j, fp)
  {
    NewIsUnseen(l, scans, j, fp);
    OnlyNewIs(BeforeScan(l, scans, j + 1), scans[j].errors, fp);
  }

  // ---- what is shown ----------------------------------------------------------------------------

  /** How many of the first `i` errors of scan `j` are unseen, repetitions included. */
  ghost function UnseenBefore(l: Limits, scans: seq<Scan>, j: nat, i: nat): nat
    requires l.Valid() && j < |scans| && i <= |scans[j].errors|
    decreases i
  {
    if i == 0 then 0
    else UnseenBefore(l, scans, j, i - 1) + (if Unseen(l, scans, j, scans[j].errors[i - 1]) then 1 else 0)
  }

  /** Error `i` of scan `j` is unseen and among the first that a summary has room for. */
  ghost predicate HasRoom(l: Limits, scans: seq<Scan>, j: nat, i: nat)
    requires l.Valid() && j < |scans| && i < |scans[j].errors|
  {
    Unseen(l, scans, j, scans[j].errors[i]) && UnseenBefore(l, scans, j, i) < l.maxPerSummary
  }

  /** `fp` is one of the first `i` errors, at a position with room. */
  ghost predicate RoomUpTo(l: Limits, scans: seq<Scan>, j: nat, i: nat, fp: Fingerprint)
    requires l.Valid() && j < |scans| && i <= |scans[j].errors|
  {
    exists p | 0 <= p < i :: scans[j].errors[p] == fp && HasRoom(l, scans, j, p)
  }

  lemma RoomStep(l: Limits, scans: seq<Scan>, j: nat, i: nat, fp: Fingerprint)
    requires l.Valid() && j < |scans| && 0 < i <= |scans[j].errors|
    ensures RoomUpTo(l, scans, j, i, fp)
       <==> RoomUpTo(l, scans, j, i - 1, fp) || (scans[j].errors[i - 1] == fp && HasRoom(l, scans, j, i - 1))
  {
  }

  lemma {:induction false} OnlyNewAppend(m: Memory, fps: seq<Fingerprint>, fp: Fingerprint)
    ensures OnlyNew(m, fps + [fp]) == OnlyNew(m, fps) + (if IsNew(m, fp) then [fp] else [])
  {
    if fps == [] {
      assert [] + [fp] == [fp] && [fp][1..] == [];
    } else {
      assert (fps + [fp])[1..] == fps[1..] + [fp];
      OnlyNewAppend(m, fps[1..], fp);
    }
  }

  /** The first errors of a scan, filtered and cut. */
  lemma {:induction false} ShownOfPrefix(l: Limits, scans: seq<Scan>, j: nat, i: nat, fp: Fingerprint)
    requires l.Valid() && j < |scans| && i <= |scans[j].errors|
    ensures var unseen := OnlyNew(BeforeScan(l, scans, j + 1), scans[j].errors[..i]);
            && |unseen| == UnseenBefore(l, scans, j, i)
            && (fp in Cut(unseen, l.maxPerSummary) <==> RoomUpTo(l, scans, j, i, fp))
    decreases i
  {
    if i > 0 {
      var errors, m := scans[j].errors, BeforeScan(l, scans, j + 1);
      ShownOfPrefix(l, scans, j, i - 1, fp);
      assert errors[..i] == errors[..i - 1] + [errors[i - 1]];
      OnlyNewAppend(m, errors[..i - 1], errors[i - 1]);
      NewIsUnseen(l, scans, j, errors[i - 1]);
      CutAppend(OnlyNew(m, errors[..i - 1]), errors[i - 1], l.maxPerSummary, fp);
      assert OnlyNew(m, errors[..i - 1]) + [] == OnlyNew(m, errors[..i - 1]);
      RoomStep(l, scans, j, i, fp);
    }
  }

  lemma CutAppend(fps: seq<Fingerprint>, x: Fingerprint, n: nat, fp: Fingerprint)
    ensures fp in Cut(fps + [x], n) <==> fp in Cut(fps, n) || (|fps| < n && fp == x)
  {
    if |fps| >= n { assert (fps + [x])[..n] == fps[..n]; }
  }

  /**
   * The summary of a scan lists exactly the errors it read that sort above everything remembered before
   * in the log generation and are among the first of those that a summary has room for.
   */
  lemma ShownIffFirstUnseen(l: Limits, scans: seq<Scan>, j: nat, fp: Fingerprint)
    requires l.Valid() && j < |scans|
    ensures fp in Summary(l, scans, j)
       <==> scans[j].inode.Some? && scans[j].sendSucceeds
            && exists i | 0 <= i < |scans[j].errors| :: scans[j].errors[i] == fp && HasRoom(l, scans, j, i)
  {
    var errors := scans[j].errors;
    assert errors[..|errors|] == errors;
    ShownOfPrefix(l, scans, j, |errors|, fp);
  }

  lemma ShownIsRemembered(l: Limits, scans: seq<Scan>, j: nat, fp: Fingerprint)
    requires l.Valid() && j < |scans| && fp in Summary(l, scans, j)
    ensures fp in Memorised(l, scans, j)
  {
  }

  /**
   * What one scan has remembered no later scan of the log generation shows: nothing is shown twice, and
   * an error cut from its summary is never shown at all.
   */
  lemma RememberedIsNotShownLater(l: Limits, scans: seq<Scan>, k: nat, j: nat, fp: Fingerprint)
    requires l.Valid() && j < |scans| && GenerationStart(scans, j + 1) <= k < j
    requires fp in Memorised(l, scans, k)
    ensures fp !in Summary(l, scans, j)
  {
    RememberedIffUnseen(l, scans, j, fp);
    BelowIsAnOrder(fp, fp, fp);
  }

  /** No fingerprint is in two different summaries of one log generation. */
  lemma NothingIsPostedTwice(l: Limits, scans: seq<Scan>, k: nat, j: nat, fp: Fingerprint)
    requires l.Valid() && j < |scans| && GenerationStart(scans, j + 1) <= k < j
    ensures !(fp in Summary(l, scans, k) && fp in Summary(l, scans, j))
  {
    if fp in Summary(l, scans, k) {
      ShownIsRemembered(l, scans, k, fp);
      RememberedIsNotShownLater(l, scans, k, j, fp);
    }
  }

  /** One summary may hold a fingerprint as often as its scan read it, up to the limit. */
  lemma RepeatsShareASummary(l: Limits, m: Memory, scan: Scan, fp: Fingerprint, n: nat)
    requires scan.inode.Some? && scan.sendSucceeds && scan.errors == seq(n, _ => fp)
    requires IsNew(Rotate(m, scan.inode.value), fp)
    ensures Remembered(m, scan) == scan.errors
    ensures Shown(l, m, scan) == seq(if n <= l.maxPerSummary then n else l.maxPerSummary, _ => fp)
  {
    RepeatsAreNew(Rotate(m, scan.inode.value), fp, n);
  }

  lemma {:induction false} RepeatsAreNew(m: Memory, fp: Fingerprint, n: nat)
    requires IsNew(m, fp)
    ensures OnlyNew(m, seq(n, _ => fp)) == seq(n, _ => fp)
    decreases n
  {
    if n > 0 {
      assert seq(n, _ => fp)[1..] == seq(n - 1, _ => fp);
      RepeatsAreNew(m, fp, n - 1);
      assert [fp] + seq(n - 1, _ => fp) == seq(n, _ => fp);
    }
  }
}
