/** Whole runs of the mailbox: status lifecycle, conservation of rows, and exclusive claims. */
module MailboxRuns {
  import opened Text
  import opened Mailbox

  datatype Op =
    | Send(message: Message)
    | Deliver(ids: seq<string>, now: nat)
    | Claim(to: Address, correlation: string, now: nat)

  /** Sends carry a new pending row with a fresh id and a later creation time; other ops always apply. */
  ghost predicate Enabled(rows: Rows, op: Op) {
    op.Send? ==> op.message.status == PENDING && FreshFor(rows, op.message)
  }

  function Step(rows: Rows, cap: nat, op: Op): Rows {
    match op
    case Send(m) => SendRows(rows, cap, m)
    case Deliver(ids, now) => DeliverRows(rows, ids, now)
    case Claim(to, correlation, now) => ClaimRows(rows, to, correlation, now)
  }

  /** The table after the first `n` operations of a run from the empty table. */
  function After(ops: seq<Op>, cap: nat, n: nat): Rows
    requires n <= |ops|
  {
    if n == 0 then [] else Step(After(ops, cap, n - 1), cap, ops[n - 1])
  }

  ghost predicate Run(ops: seq<Op>, cap: nat) {
    forall n | 0 <= n < |ops| :: EnabledAt(ops, cap, n)
  }

  ghost predicate EnabledAt(ops: seq<Op>, cap: nat, n: nat)
    requires n < |ops|
  {
    Enabled(After(ops, cap, n), ops[n])
  }

  lemma StepKeeps(rows: Rows, cap: nat, op: Op)
    requires WellFormed(rows) && Bounded(rows, cap) && cap > 0 && Enabled(rows, op)
    ensures WellFormed(Step(rows, cap, op)) && Bounded(Step(rows, cap, op), cap)
  {
    match op {
      case Send(m) => SendKeeps(rows, cap, m);
      case Deliver(ids, now) => DeliverKeeps(rows, cap, ids, now);
      case Claim(to, correlation, now) =>
        var found := Replies(rows, to, correlation);
        if found != [] { DeliverKeeps(rows, cap, [found[0].id], now); }
    }
  }

  /** Every reachable table is ordered, and no inbox ever holds more than the cap. */
  lemma {:induction false} RunsStayBounded(ops: seq<Op>, cap: nat, n: nat)
    requires Run(ops, cap) && cap > 0 && n <= |ops|
    ensures WellFormed(After(ops, cap, n)) && Bounded(After(ops, cap, n), cap)
  {
    if n > 0 {
      RunsStayBounded(ops, cap, n - 1);
      assert EnabledAt(ops, cap, n - 1);
      StepKeeps(After(ops, cap, n - 1), cap, ops[n - 1]);
    }
  }

  /** `claim_reply` takes the oldest matching reply out of its queue and nothing else. */
  lemma {:induction false} ClaimRefinesQueue(rows: Rows, to: Address, correlation: string, now: nat, other: Address)
    ensures Pending(ClaimRows(rows, to, correlation, now), other)
         == var found := Replies(rows, to, correlation);
            if found == [] then Pending(rows, other)
            else Filter(Pending(rows, other), (m: Message) => m.id != found[0].id)
  {
    var found := Replies(rows, to, correlation);
    if found != [] {
      DeliverRefinesQueue(rows, [found[0].id], now, other);
      FilterCongruence(Pending(rows, other), (m: Message) => m.id !in [found[0].id],
                       (m: Message) => m.id != found[0].id);
    }
  }

  // ---- the table refines a family of bounded drop-oldest queues ------------------------

  /** What one operation does to the queue `q` of recipient `a`; `asked` is the queue a claim looks into. */
  function QueueStep(op: Op, cap: nat, a: Address, q: Rows, asked: Rows): Rows {
    match op
    case Send(m) =>
      Filter(if a == m.recipient then MakeRoom(q, cap) + [m] else q, (r: Message) => SurvivesReply(r, RepliesTo(m)))
    case Deliver(ids, _) => Filter(q, (r: Message) => r.id !in ids)
    case Claim(_, correlation, _) =>
      var found := Filter(asked, (r: Message) => r.inReplyTo == Some(correlation));
      if found == [] then q else Filter(q, (r: Message) => r.id != found[0].id)
  }

  /** The queue of recipient `a` after `n` operations, described without any table. */
  function Queue(ops: seq<Op>, cap: nat, n: nat, a: Address): Rows
    requires n <= |ops|
    decreases n
  {
    if n == 0 then []
    else
      var op := ops[n - 1];
      QueueStep(op, cap, a, Queue(ops, cap, n - 1, a), if op.Claim? then Queue(ops, cap, n - 1, op.to) else [])
  }

  /** One transaction on the table is one step on every queue. */
  lemma StepRefinesQueue(rows: Rows, cap: nat, op: Op, a: Address)
    requires WellFormed(rows) && Enabled(rows, op)
    ensures Pending(Step(rows, cap, op), a)
         == QueueStep(op, cap, a, Pending(rows, a), if op.Claim? then Pending(rows, op.to) else [])
  {
    match op {
      case Send(m) => SendRefinesQueue(rows, cap, m, a);
      case Deliver(ids, now) => DeliverRefinesQueue(rows, ids, now, a);
      case Claim(to, correlation, now) =>
        RepliesAreQueued(rows, to, correlation);
        ClaimRefinesQueue(rows, to, correlation, now, a);
    }
  }

  lemma {:induction false} RepliesAreQueued(rows: Rows, to: Address, correlation: string)
    ensures Replies(rows, to, correlation)
         == Filter(Pending(rows, to), (r: Message) => r.inReplyTo == Some(correlation))
  {
    if rows != [] {
      RepliesAreQueued(rows[1..], to, correlation);
      var tail := Pending(rows[1..], to);
      if PendingFor(rows[0], to) {
        assert ([rows[0]] + tail)[1..] == tail;
      }
    }
  }

  /** After `n` operations the pending rows of `a` are its abstract queue. */
  predicate Refines(ops: seq<Op>, cap: nat, n: nat, a: Address)
    requires n <= |ops|
  {
    Pending(After(ops, cap, n), a) == Queue(ops, cap, n, a)
  }

  lemma NextRefines(ops: seq<Op>, cap: nat, n: nat, a: Address)
    requires Run(ops, cap) && cap > 0 && 0 < n <= |ops|
    requires Refines(ops, cap, n - 1, a) && (ops[n - 1].Claim? ==> Refines(ops, cap, n - 1, ops[n - 1].to))
    ensures Refines(ops, cap, n, a)
  {
    RunsStayBounded(ops, cap, n - 1);
    assert EnabledAt(ops, cap, n - 1);
    StepRefinesQueue(After(ops, cap, n - 1), cap, ops[n - 1], a);
  }

  lemma {:induction false} RunsRefine(ops: seq<Op>, cap: nat, n: nat, a: Address)
    requires Run(ops, cap) && cap > 0 && n <= |ops|
    ensures Refines(ops, cap, n, a)
    decreases n
  {
    if n > 0 {
      RunsRefine(ops, cap, n - 1, a);
      if ops[n - 1].Claim? { RunsRefine(ops, cap, n - 1, ops[n - 1].to); }
      NextRefines(ops, cap, n, a);
    }
  }

  /** In every run, each recipient's pending rows are exactly its abstract queue. */
  lemma TableRefinesQueues(ops: seq<Op>, cap: nat, n: nat, a: Address)
    requires Run(ops, cap) && cap > 0 && n <= |ops|
    ensures Pending(After(ops, cap, n), a) == Queue(ops, cap, n, a)
  {
    RunsRefine(ops, cap, n, a);
  }

  // ---- status lifecycle --------------------------------------------------------------

  predicate Legal(before: Status, later: Status) {
    || before == later
    || (before == PENDING && later in {DELIVERED, RESPONDED, EXPIRED})
    || (before == DELIVERED && later == RESPONDED)
  }

  predicate SameMessage(a: Message, b: Message) {
    && a.id == b.id && a.sender == b.sender && a.recipient == b.recipient && a.body == b.body
    && a.correlationId == b.correlationId && a.inReplyTo == b.inReplyTo
    && a.expectsResponse == b.expectsResponse && a.createdAt == b.createdAt
  }

  ghost predicate RowEvolves(before: Rows, later: Rows, i: nat)
    requires i < |before| && i < |later|
  {
    SameMessage(before[i], later[i]) && Legal(before[i].status, later[i].status)
  }

  /** Rows are never lost nor rewritten; statuses move only along legal transitions. */
  ghost predicate Evolves(before: Rows, later: Rows) {
    |before| <= |later| && forall i | 0 <= i < |before| :: RowEvolves(before, later, i)
  }

  /** Making room expires the oldest pending row of a full inbox and touches no other row. */
  lemma EnforceExpires(rows: Rows, cap: nat, to: Address, i: nat)
    requires WellFormed(rows) && i < |rows|
    ensures var queue, later := Pending(rows, to), EnforceCap(rows, cap, to);
            && |later| == |rows|
            && (later[i] == rows[i]
                || (|queue| >= cap && queue != [] && rows[i] == queue[0] && PendingFor(rows[i], to)
                    && later[i] == rows[i].(status := EXPIRED)))
  {
    var queue := Pending(rows, to);
    if !(|queue| < cap || queue == []) {
      FilterMembers(rows, (m: Message) => PendingFor(m, to));
      assert queue[0] in queue;
      var k :| 0 <= k < |rows| && rows[k] == queue[0];
      if rows[i].id == queue[0].id { SameRow(rows, i, k); }
    }
  }

  /** One operation moves one row along a legal transition. */
  lemma SendEvolves(rows: Rows, cap: nat, m: Message, i: nat)
    requires WellFormed(rows) && i < |rows|
    ensures |SendRows(rows, cap, m)| == |rows| + 1 && RowEvolves(rows, SendRows(rows, cap, m), i)
  {
    EnforceExpires(rows, cap, m.recipient, i);
  }

  lemma DeliverEvolves(rows: Rows, ids: seq<string>, now: nat, i: nat)
    requires i < |rows|
    ensures |DeliverRows(rows, ids, now)| == |rows| && RowEvolves(rows, DeliverRows(rows, ids, now), i)
  {
  }

  lemma StepSize(rows: Rows, cap: nat, op: Op)
    ensures |Step(rows, cap, op)| == |rows| + (if op.Send? then 1 else 0)
  {
  }

  lemma StepEvolves(rows: Rows, cap: nat, op: Op)
    requires WellFormed(rows)
    ensures Evolves(rows, Step(rows, cap, op))
  {
    StepSize(rows, cap, op);
    forall i | 0 <= i < |rows| ensures RowEvolves(rows, Step(rows, cap, op), i) {
      match op {
        case Send(m) => SendEvolves(rows, cap, m, i);
        case Deliver(ids, now) => DeliverEvolves(rows, ids, now, i);
        case Claim(to, correlation, now) =>
          var found := Replies(rows, to, correlation);
          if found != [] { DeliverEvolves(rows, [found[0].id], now, i); }
      }
    }
  }

  lemma OnlySendExpires(rows: Rows, cap: nat, op: Op, i: nat)
    requires i < |rows| && !op.Send?
    ensures |Step(rows, cap, op)| == |rows|
    ensures Step(rows, cap, op)[i].status == EXPIRED ==> rows[i].status == EXPIRED
  {
  }

  lemma SendExpiresByCap(rows: Rows, cap: nat, m: Message, i: nat)
    requires i < |rows|
    ensures i < |SendRows(rows, cap, m)|
    ensures SendRows(rows, cap, m)[i].status == EXPIRED ==> EnforceCap(rows, cap, m.recipient)[i].status == EXPIRED
  {
  }

  /** A row expires only as the oldest pending row of a full inbox that a `send` addresses. */
  lemma ExpiryIsOverflow(rows: Rows, cap: nat, op: Op, i: nat)
    requires WellFormed(rows) && i < |rows| && i < |Step(rows, cap, op)|
    requires rows[i].status != EXPIRED && Step(rows, cap, op)[i].status == EXPIRED
    ensures op.Send? && op.message.recipient == rows[i].recipient
    ensures var queue := Pending(rows, rows[i].recipient);
            |queue| >= cap && queue != [] && queue[0] == rows[i]
  {
    if op.Send? {
      SendExpiresByCap(rows, cap, op.message, i);
      CapExpiresHead(rows, cap, op.message.recipient, i);
    } else {
      OnlySendExpires(rows, cap, op, i);
    }
  }

  lemma CapExpiresHead(rows: Rows, cap: nat, to: Address, i: nat)
    requires WellFormed(rows) && i < |rows| && rows[i].status != EXPIRED
    requires EnforceCap(rows, cap, to)[i].status == EXPIRED
    ensures rows[i].recipient == to && |Pending(rows, to)| >= cap && Pending(rows, to) != []
    ensures Pending(rows, to)[0] == rows[i]
  {
    EnforceExpires(rows, cap, to, i);
  }

  lemma NextEvolves(ops: seq<Op>, cap: nat, n: nat)
    requires Run(ops, cap) && cap > 0 && 0 < n <= |ops|
    ensures Evolves(After(ops, cap, n - 1), After(ops, cap, n))
    ensures |After(ops, cap, n)| == |After(ops, cap, n - 1)| + (if ops[n - 1].Send? then 1 else 0)
  {
    RunsStayBounded(ops, cap, n - 1);
    StepEvolves(After(ops, cap, n - 1), cap, ops[n - 1]);
    StepSize(After(ops, cap, n - 1), cap, ops[n - 1]);
  }

  ghost predicate EvolvesAt(tables: seq<Rows>, m: nat)
    requires m + 1 < |tables|
  {
    Evolves(tables[m], tables[m + 1])
  }

  /** Tables that evolve one by one evolve over any distance. */
  lemma {:induction false} EvolvesAlong(tables: seq<Rows>, n: nat, k: nat)
    requires n <= k < |tables| && forall m | n <= m < k :: EvolvesAt(tables, m)
    ensures Evolves(tables[n], tables[k])
    decreases k - n
  {
    if n < k {
      EvolvesAlong(tables, n, k - 1);
      assert EvolvesAt(tables, k - 1);
      EvolvesTransitive(tables[n], tables[k - 1], tables[k]);
    } else {
      EvolvesReflexive(tables[n]);
    }
  }

  /** The tables of a run, one after each number of operations. */
  function Tables(ops: seq<Op>, cap: nat): (tables: seq<Rows>)
    ensures |tables| == |ops| + 1
  {
    seq(|ops| + 1, n requires 0 <= n < |ops| + 1 => After(ops, cap, n))
  }

  lemma TablesEvolve(ops: seq<Op>, cap: nat, m: nat)
    requires Run(ops, cap) && cap > 0 && m < |ops|
    ensures EvolvesAt(Tables(ops, cap), m)
  {
    NextEvolves(ops, cap, m + 1);
  }

  /** In every run rows only evolve. */
  lemma RunsEvolve(ops: seq<Op>, cap: nat, n: nat, k: nat)
    requires Run(ops, cap) && cap > 0 && n <= k <= |ops|
    ensures Evolves(After(ops, cap, n), After(ops, cap, k))
  {
    var tables := Tables(ops, cap);
    forall m | n <= m < k ensures EvolvesAt(tables, m) {
      TablesEvolve(ops, cap, m);
    }
    EvolvesAlong(tables, n, k);
    assert tables[n] == After(ops, cap, n) && tables[k] == After(ops, cap, k);
  }

  lemma EvolvesReflexive(rows: Rows)
    ensures Evolves(rows, rows)
  {
    forall i | 0 <= i < |rows| ensures RowEvolves(rows, rows, i) {
    }
  }

  lemma EvolvesTransitive(a: Rows, b: Rows, c: Rows)
    requires Evolves(a, b) && Evolves(b, c)
    ensures Evolves(a, c)
  {
    forall i | 0 <= i < |a| ensures RowEvolves(a, c, i) {
      assert RowEvolves(a, b, i) && RowEvolves(b, c, i);
    }
  }

  /** RESPONDED and EXPIRED are final: a row that reaches one keeps it for the rest of the run. */
  lemma FinalStatusesStay(ops: seq<Op>, cap: nat, n: nat, k: nat, i: nat)
    requires Run(ops, cap) && cap > 0 && n <= k <= |ops| && i < |After(ops, cap, n)|
    requires After(ops, cap, n)[i].status in {RESPONDED, EXPIRED}
    ensures i < |After(ops, cap, k)| && After(ops, cap, k)[i].status == After(ops, cap, n)[i].status
  {
    RunsEvolve(ops, cap, n, k);
    assert RowEvolves(After(ops, cap, n), After(ops, cap, k), i);
  }

  /**
   * Isolation of the transactions is needed: when a delivery of the head of a full inbox comes between the
   * read and the unguarded update of `_enforce_inbox_cap`, a delivered row expires.
   */
  lemma OverlapExpiresDelivered(rows: Rows, cap: nat, to: Address, now: nat) returns (i: nat)
    requires cap > 0 && |Pending(rows, to)| >= cap
    ensures var head := Pending(rows, to)[0];
            var delivered := DeliverRows(rows, [head.id], now);
            var expired := Update(delivered, (m: Message) => ExpireRow(head.id, m));
            && i < |rows| && delivered[i].status == DELIVERED && expired[i].status == EXPIRED
            && !Evolves(delivered, expired)
  {
    var head := Pending(rows, to)[0];
    FilterMembers(rows, (m: Message) => PendingFor(m, to));
    assert head in Pending(rows, to);
    i :| 0 <= i < |rows| && rows[i] == head;
    var delivered := DeliverRows(rows, [head.id], now);
    assert delivered[i] == DeliverRow([head.id], now, head);
    assert !RowEvolves(delivered, Update(delivered, (m: Message) => ExpireRow(head.id, m)), i);
  }

  // ---- conservation ---------------------------------------------------------------------

  function Sent(ops: seq<Op>, n: nat): nat
    requires n <= |ops|
  {
    if n == 0 then 0 else Sent(ops, n - 1) + (if ops[n - 1].Send? then 1 else 0)
  }

  function CountStatus(rows: Rows, s: Status): nat {
    |Filter(rows, (m: Message) => m.status == s)|
  }

  lemma {:induction false} StatusesPartition(rows: Rows)
    ensures |rows| == CountStatus(rows, PENDING) + CountStatus(rows, DELIVERED)
                      + CountStatus(rows, RESPONDED) + CountStatus(rows, EXPIRED)
  {
    if rows != [] {
      StatusesPartition(rows[1..]);
    }
  }

  /** No message is ever lost: what was sent is what the four statuses add up to. */
  lemma {:induction false} NoRowIsLost(ops: seq<Op>, cap: nat, n: nat)
    requires Run(ops, cap) && cap > 0 && n <= |ops|
    ensures var rows := After(ops, cap, n);
            Sent(ops, n) == CountStatus(rows, PENDING) + CountStatus(rows, DELIVERED)
                            + CountStatus(rows, RESPONDED) + CountStatus(rows, EXPIRED)
  {
    SentIsRows(ops, cap, n);
    StatusesPartition(After(ops, cap, n));
  }

  lemma {:induction false} SentIsRows(ops: seq<Op>, cap: nat, n: nat)
    requires Run(ops, cap) && cap > 0 && n <= |ops|
    ensures |After(ops, cap, n)| == Sent(ops, n)
  {
    if n > 0 {
      SentIsRows(ops, cap, n - 1);
      NextEvolves(ops, cap, n);
    }
  }

  // ---- claims ----------------------------------------------------------------------------

  /** The id an operation returns, when it is a claim that finds a reply. */
  function ClaimedIn(rows: Rows, op: Op): Option<string> {
    if !op.Claim? then None
    else
      var found := Replies(rows, op.to, op.correlation);
      if found == [] then None else Some(found[0].id)
  }

  /** The id returned by operation `n` of a run. */
  function Claimed(ops: seq<Op>, cap: nat, n: nat): Option<string>
    requires n < |ops|
  {
    ClaimedIn(After(ops, cap, n), ops[n])
  }

  /** Row `i` is the message `id`, with this status. */
  predicate Stands(rows: Rows, i: nat, id: string, status: Status) {
    i < |rows| && rows[i].id == id && rows[i].status == status
  }

  lemma ClaimedRow(rows: Rows, op: Op) returns (i: nat)
    requires ClaimedIn(rows, op).Some?
    ensures Stands(rows, i, ClaimedIn(rows, op).value, PENDING)
  {
    var found := Replies(rows, op.to, op.correlation);
    FilterMembers(rows, (m: Message) => PendingFor(m, op.to) && m.inReplyTo == Some(op.correlation));
    assert found[0] in found;
    i :| 0 <= i < |rows| && rows[i] == found[0];
  }

  lemma ClaimDelivers(rows: Rows, cap: nat, op: Op) returns (i: nat)
    requires ClaimedIn(rows, op).Some?
    ensures Stands(Step(rows, cap, op), i, ClaimedIn(rows, op).value, DELIVERED)
  {
    i := ClaimedRow(rows, op);
    var found := Replies(rows, op.to, op.correlation);
    assert Step(rows, cap, op)[i] == DeliverRow([found[0].id], op.now, rows[i]);
  }

  lemma NeverPendingAgain(before: Rows, later: Rows, i: nat, j: nat, id: string, other: string)
    requires Evolves(before, later) && WellFormed(later)
    requires Stands(before, i, id, DELIVERED) && Stands(later, j, other, PENDING)
    ensures id != other
  {
    assert RowEvolves(before, later, i);
    if id == other { SameRow(later, i, j); }
  }

  /** A claimed message cannot be claimed from any table the claiming step leads to. */
  lemma ClaimedOnce(rows: Rows, cap: nat, op: Op, later: Rows, second: Op)
    requires ClaimedIn(rows, op).Some? && ClaimedIn(later, second).Some?
    requires Evolves(Step(rows, cap, op), later) && WellFormed(later)
    ensures ClaimedIn(rows, op) != ClaimedIn(later, second)
  {
    var i := ClaimDelivers(rows, cap, op);
    var j := ClaimedRow(later, second);
    NeverPendingAgain(Step(rows, cap, op), later, i, j, ClaimedIn(rows, op).value, ClaimedIn(later, second).value);
  }

  /** Every message is returned by at most one `claim_reply` of a run. */
  lemma ClaimsAreExclusive(ops: seq<Op>, cap: nat, n: nat, k: nat)
    requires Run(ops, cap) && cap > 0 && n < k < |ops|
    requires Claimed(ops, cap, n).Some? && Claimed(ops, cap, k).Some?
    ensures Claimed(ops, cap, n) != Claimed(ops, cap, k)
  {
    RunsStayBounded(ops, cap, k);
    RunsEvolve(ops, cap, n + 1, k);
    ClaimedOnce(After(ops, cap, n), cap, ops[n], After(ops, cap, k), ops[k]);
  }

  // ---- two surprises of the code -------------------------------------------------------------

  /**
   * A message that asks for a response and carries its own correlation id as `in_reply_to` answers
   * itself: it is stored RESPONDED although the caller is told PENDING. No other message is.
   */
  lemma SendStoresPending(rows: Rows, cap: nat, m: Message)
    requires m.status == PENDING
    ensures var stored := SendRows(rows, cap, m);
            && |stored| == |rows| + 1
            && (stored[|rows|] == m
                <==> !(m.expectsResponse && m.inReplyTo.Some? && m.inReplyTo.value != ""
                       && m.correlationId == m.inReplyTo))
            && (stored[|rows|] != m ==> stored[|rows|].status == RESPONDED)
  {
  }

  /** How many rows `mark_delivered` changes. */
  function Changed(rows: Rows, ids: seq<string>): nat {
    |Filter(rows, (m: Message) => m.id in ids && m.status == PENDING)|
  }

  function IdSet(ids: seq<string>): set<string> {
    set id | id in ids
  }

  ghost predicate AllDistinct(ids: seq<string>) {
    forall i, j | 0 <= i < j < |ids| :: ids[i] != ids[j]
  }

  ghost predicate NamesPending(rows: Rows, id: string) {
    exists m | m in rows :: m.id == id && m.status == PENDING
  }

  /** The ids of the rows that change are as many, distinct, and those passed that name a pending row. */
  lemma ChangedIds(rows: Rows, ids: seq<string>) returns (hitIds: seq<string>)
    requires WellFormed(rows)
    ensures |hitIds| == Changed(rows, ids) && AllDistinct(hitIds)
    ensures forall id :: id in hitIds <==> id in ids && NamesPending(rows, id)
  {
    var hit := Filter(rows, (m: Message) => m.id in ids && m.status == PENDING);
    FilterMembers(rows, (m: Message) => m.id in ids && m.status == PENDING);
    FilterOrdered(rows, (m: Message) => m.id in ids && m.status == PENDING);
    hitIds := seq(|hit|, i requires 0 <= i < |hit| => hit[i].id);
    forall i, j | 0 <= i < j < |hitIds| ensures hitIds[i] != hitIds[j] {
      assert SentBefore(hit, i, j);
    }
    forall id ensures id in hitIds <==> id in ids && NamesPending(rows, id) {
      if id in hitIds {
        var i :| 0 <= i < |hitIds| && hitIds[i] == id;
        assert hit[i] in hit;
      }
      if id in ids && NamesPending(rows, id) {
        var m :| m in rows && m.id == id && m.status == PENDING;
        assert m in hit;
        var k :| 0 <= k < |hit| && hit[k] == m;
        assert hitIds[k] == id;
      }
    }
  }

  /**
   * `mark_delivered` returns the number of ids passed, not of rows changed. The two agree exactly
   * when the ids are distinct and each names a pending row.
   */
  lemma DeliveredCountIsExact(rows: Rows, ids: seq<string>)
    requires WellFormed(rows)
    ensures Changed(rows, ids) <= |ids|
    ensures Changed(rows, ids) == |ids| <==> AllDistinct(ids) && forall i | 0 <= i < |ids| :: NamesPending(rows, ids[i])
  {
    var hitIds := ChangedIds(rows, ids);
    DistinctSize(hitIds);
    SetSize(ids);
    assert IdSet(hitIds) <= IdSet(ids);
    SubsetSize(IdSet(hitIds), IdSet(ids));
    if Changed(rows, ids) == |ids| {
      assert IdSet(hitIds) == IdSet(ids);
      forall i | 0 <= i < |ids| ensures NamesPending(rows, ids[i]) {
        assert ids[i] in IdSet(hitIds);
      }
    }
    if forall i | 0 <= i < |ids| :: NamesPending(rows, ids[i]) {
      assert IdSet(hitIds) == IdSet(ids);
    }
  }

  lemma {:induction false} SubsetSize<T>(a: set<T>, b: set<T>)
    requires a <= b
    ensures |a| <= |b| && (|a| == |b| ==> a == b)
  {
    assert b == a + (b - a);
  }

  lemma {:induction false} DistinctSize(ids: seq<string>)
    requires AllDistinct(ids)
    ensures |IdSet(ids)| == |ids|
  {
    if ids != [] {
      DistinctSize(ids[1..]);
      assert IdSet(ids) == {ids[0]} + IdSet(ids[1..]);
    }
  }

  lemma {:induction false} SetSize(ids: seq<string>)
    ensures |IdSet(ids)| <= |ids|
    ensures |IdSet(ids)| == |ids| <==> AllDistinct(ids)
  {
    if ids != [] {
      SetSize(ids[1..]);
      assert IdSet(ids) == {ids[0]} + IdSet(ids[1..]);
      if ids[0] in ids[1..] {
        assert IdSet(ids) == IdSet(ids[1..]);
        var k :| 0 <= k < |ids[1..]| && ids[1..][k] == ids[0];
        assert ids[0] == ids[k + 1];
      } else {
        forall i, j | 0 <= i < j < |ids| ensures ids[i] != ids[j] || ids[1..][j - 1] == ids[i] {
          assert ids[1..][j - 1] == ids[j];
        }
      }
    }
  }
}
