/** `AgentMessageStore`: the inter-agent mailbox as a table of rows, one transaction per step. */
module Mailbox {
  import opened Text

  datatype Status = PENDING | DELIVERED | RESPONDED | EXPIRED

  datatype Address = Address(session: string, agent: string)

  datatype Message = Message(
    id: string, sender: Address, recipient: Address, body: string,
    correlationId: Option<string>, inReplyTo: Option<string>, expectsResponse: bool,
    status: Status, createdAt: nat, deliveredAt: Option<nat>, respondedAt: Option<nat>)

  datatype SendError = EmptyBody | EmptySender | EmptyRecipient

  type Rows = seq<Message>

  // ---- SQL over rows -----------------------------------------------------------

  function Filter(rows: Rows, keep: Message -> bool): Rows {
    if rows == [] then []
    else if keep(rows[0]) then [rows[0]] + Filter(rows[1..], keep)
    else Filter(rows[1..], keep)
  }

  function Update(rows: Rows, f: Message -> Message): (r: Rows)
    ensures |r| == |rows| && forall i | 0 <= i < |rows| :: r[i] == f(rows[i])
  {
    seq(|rows|, i requires 0 <= i < |rows| => f(rows[i]))
  }

  predicate PendingFor(m: Message, to: Address) {
    m.recipient == to && m.status == PENDING
  }

  /** The pending rows of one recipient, in row order. */
  function Pending(rows: Rows, to: Address): Rows {
    Filter(rows, (m: Message) => PendingFor(m, to))
  }

  /** Row `i` was sent earlier than row `j`, under another id. */
  ghost predicate SentBefore(rows: Rows, i: nat, j: nat)
    requires i < |rows| && j < |rows|
  {
    rows[i].createdAt < rows[j].createdAt && rows[i].id != rows[j].id
  }

  /** Rows are stored in send order under a strictly increasing clock, with distinct ids. */
  ghost predicate WellFormed(rows: Rows) {
    forall i, j | 0 <= i < j < |rows| :: SentBefore(rows, i, j)
  }

  ghost predicate Bounded(rows: Rows, cap: nat) {
    forall to :: |Pending(rows, to)| <= cap
  }

  function ExpireRow(id: string, m: Message): Message {
    if m.id == id then m.(status := EXPIRED) else m
  }

  predicate AwaitsReply(m: Message, correlation: string) {
    m.correlationId == Some(correlation) && m.status in {PENDING, DELIVERED} && m.expectsResponse
  }

  function RespondRow(correlation: string, now: nat, m: Message): Message {
    if AwaitsReply(m, correlation) then m.(status := RESPONDED, respondedAt := Some(now)) else m
  }

  function DeliverRow(ids: seq<string>, now: nat, m: Message): Message {
    if m.id in ids && m.status == PENDING then m.(status := DELIVERED, deliveredAt := Some(now)) else m
  }

  /** `_enforce_inbox_cap`: expire the oldest pending row of a full inbox. */
  function EnforceCap(rows: Rows, cap: nat, to: Address): Rows {
    var queue := Pending(rows, to);
    if |queue| < cap || queue == [] then rows
    else Update(rows, (m: Message) => ExpireRow(queue[0].id, m))
  }

  /** An empty `in_reply_to` is no reply. */
  function RepliesTo(m: Message): Option<string> {
    if m.inReplyTo == Some("") then None else m.inReplyTo
  }

  /** The transaction of `send`: cap, insert, then the reply flip, which sees the new row too. */
  function SendRows(rows: Rows, cap: nat, m: Message): Rows {
    var stored := EnforceCap(rows, cap, m.recipient) + [m];
    if RepliesTo(m) == None then stored
    else Update(stored, (r: Message) => RespondRow(RepliesTo(m).value, m.createdAt, r))
  }

  function DeliverRows(rows: Rows, ids: seq<string>, now: nat): Rows {
    Update(rows, (m: Message) => DeliverRow(ids, now, m))
  }

  function Replies(rows: Rows, to: Address, correlation: string): Rows {
    Filter(rows, (m: Message) => PendingFor(m, to) && m.inReplyTo == Some(correlation))
  }

  function ClaimRows(rows: Rows, to: Address, correlation: string, now: nat): Rows {
    var found := Replies(rows, to, correlation);
    if found == [] then rows else DeliverRows(rows, [found[0].id], now)
  }

  // ---- the store -----------------------------------------------------------------

  class AgentMessageStore {
    const inboxCap: nat
    var rows: Rows

    ghost predicate Valid()
      reads this
    {
      inboxCap > 0 && WellFormed(rows) && Bounded(rows, inboxCap)
    }

    constructor (inboxCap: nat)
      requires inboxCap > 0
      ensures Valid() && rows == [] && this.inboxCap == inboxCap
    {
      this.inboxCap := inboxCap;
      rows := [];
    }

    /** `newId`, `newCorrelation` and `now` are the uuid and clock reads. */
    method Send(sender: Address, recipient: Address, body: string, expectsResponse: bool,
                correlationId: Option<string>, inReplyTo: Option<string>,
                newId: string, newCorrelation: string, now: nat)
      returns (r: Result<Message, SendError>)
      requires Valid()
      requires forall i | 0 <= i < |rows| :: rows[i].createdAt < now && rows[i].id != newId
      modifies this`rows
      ensures Valid()
      ensures r.Err? ==> rows == old(rows)
      ensures r.Err? <==> Strip(body) == "" || sender.session == "" || sender.agent == ""
                          || recipient.session == "" || recipient.agent == ""
      ensures r.Ok? ==>
                && rows == SendRows(old(rows), inboxCap, r.value)
                && r.value == Message(newId, sender, recipient, Strip(body),
                                      if expectsResponse && correlationId == None then Some(newCorrelation)
                                      else correlationId,
                                      inReplyTo, expectsResponse, PENDING, now, None, None)
      ensures r.Ok? ==>
                && |rows| == |old(rows)| + 1
                && (forall i | 0 <= i < |old(rows)| ::
                      rows[i] == if Overflows(old(rows), inboxCap, recipient, i) then old(rows)[i].(status := EXPIRED)
                                 else Answered(old(rows)[i], inReplyTo, now))
                && rows[|old(rows)|] == Answered(r.value, inReplyTo, now)
    {
      var cleaned := Strip(body);
      if cleaned == "" { return Err(EmptyBody); }
      if sender.session == "" || sender.agent == "" { return Err(EmptySender); }
      if recipient.session == "" || recipient.agent == "" { return Err(EmptyRecipient); }
      var correlation := correlationId;
      if expectsResponse && correlation == None {
        correlation := Some(newCorrelation);
      }
      var m := Message(newId, sender, recipient, cleaned, correlation, inReplyTo, expectsResponse,
                       PENDING, now, None, None);
      SendKeeps(rows, inboxCap, m);
      ghost var sent := SendRows(rows, inboxCap, m);
      SendStores(rows, inboxCap, m);
      forall i | 0 <= i < |rows|
        ensures sent[i] == if Overflows(rows, inboxCap, recipient, i) then rows[i].(status := EXPIRED)
                           else Answered(rows[i], inReplyTo, now)
      {
        SendIs(rows, inboxCap, m, i);
      }
      rows := EnforceCap(rows, inboxCap, recipient);
      rows := rows + [m];
      if inReplyTo.Some? && inReplyTo.value != "" {
        rows := Update(rows, (row: Message) => RespondRow(inReplyTo.value, now, row));
      }
      r := Ok(m);
    }

    /** Oldest first; without a limit, every pending row. */
    method Inbox(to: Address, limit: Option<int>) returns (messages: Rows)
      requires Valid()
      ensures messages <= Pending(rows, to)
      ensures |messages| == var n := |Pending(rows, to)|;
                            if limit == None then n
                            else if limit.value < 1 then (if n < 1 then n else 1)
                            else if n < limit.value then n else limit.value
      ensures forall i, j | 0 <= i < j < |messages| :: messages[i].createdAt < messages[j].createdAt
    {
      var effective := if limit == None then inboxCap else if limit.value < 1 then 1 else limit.value;
      var queue := Pending(rows, to);
      FilterOrdered(rows, (m: Message) => PendingFor(m, to));
      messages := if |queue| <= effective then queue else queue[..effective];
      forall i, j | 0 <= i < j < |messages| ensures messages[i].createdAt < messages[j].createdAt {
        assert SentBefore(queue, i, j);
      }
    }

    method MarkDelivered(messageIds: seq<string>, now: nat) returns (count: nat)
      requires Valid()
      modifies this`rows
      ensures Valid()
      ensures count == |NonEmpty(messageIds)| == |multiset(messageIds)["" := 0]|
      ensures rows == DeliverRows(old(rows), NonEmpty(messageIds), now)
      ensures |rows| == |old(rows)|
      ensures forall i | 0 <= i < |rows| ::
                rows[i] == if old(rows)[i].id != "" && old(rows)[i].id in messageIds && old(rows)[i].status == PENDING
                           then old(rows)[i].(status := DELIVERED, deliveredAt := Some(now)) else old(rows)[i]
    {
      NonEmptyMembers(messageIds);
      assert |multiset(NonEmpty(messageIds))| == |NonEmpty(messageIds)|;
      var ids := NonEmpty(messageIds);
      DeliverKeeps(rows, inboxCap, ids, now);
      if ids == [] {
        DeliverNothing(rows, now);
        return 0;
      }
      rows := DeliverRows(rows, ids, now);
      count := |ids|;
    }

    method PendingCount(to: Address) returns (count: nat)
      requires Valid()
      ensures count == |Pending(rows, to)| && count <= inboxCap
    {
      count := |Pending(rows, to)|;
    }

    /** The row returned is the row as it now stands in the table. */
    method ClaimReply(to: Address, inReplyTo: string, now: nat) returns (r: Option<Message>)
      requires Valid()
      modifies this`rows
      ensures Valid()
      ensures rows == ClaimRows(old(rows), to, inReplyTo, now)
      ensures r == None <==> Replies(old(rows), to, inReplyTo) == []
      ensures r.Some? ==>
                && r.value == Replies(old(rows), to, inReplyTo)[0].(status := DELIVERED, deliveredAt := Some(now))
                && r.value in rows
      ensures |rows| == |old(rows)|
      ensures forall i | 0 <= i < |rows| ::
                rows[i] == if OldestReply(old(rows), to, inReplyTo, i)
                           then old(rows)[i].(status := DELIVERED, deliveredAt := Some(now)) else old(rows)[i]
    {
      ghost var claimed := ClaimRows(rows, to, inReplyTo, now);
      forall i | 0 <= i < |rows|
        ensures |claimed| == |rows|
        ensures claimed[i] == if OldestReply(rows, to, inReplyTo, i)
                              then rows[i].(status := DELIVERED, deliveredAt := Some(now)) else rows[i]
      {
        ClaimIs(rows, to, inReplyTo, now, i);
      }
      var found := Replies(rows, to, inReplyTo);
      if found == [] { return None; }
      FilterMembers(rows, (m: Message) => PendingFor(m, to) && m.inReplyTo == Some(inReplyTo));
      assert found[0] in found;
      var k :| 0 <= k < |rows| && rows[k] == found[0];
      DeliverKeeps(rows, inboxCap, [found[0].id], now);
      rows := DeliverRows(rows, [found[0].id], now);
      assert rows[k] == DeliverRow([found[0].id], now, found[0]);
      r := Some(found[0].(status := DELIVERED, deliveredAt := Some(now)));
      assert r.value == rows[k];
    }
  }

  function NonEmpty(ids: seq<string>): seq<string> {
    if ids == [] then [] else if ids[0] != "" then [ids[0]] + NonEmpty(ids[1..]) else NonEmpty(ids[1..])
  }

  // ---- filters -----------------------------------------------------------------------

  lemma {:induction false} FilterAppend(a: Rows, b: Rows, keep: Message -> bool)
    ensures Filter(a + b, keep) == Filter(a, keep) + Filter(b, keep)
  {
    if a == [] {
      assert a + b == b;
    } else {
      assert (a + b)[1..] == a[1..] + b;
      FilterAppend(a[1..], b, keep);
    }
  }

  lemma {:induction false} FilterMembers(rows: Rows, keep: Message -> bool)
    ensures forall m :: m in Filter(rows, keep) <==> m in rows && keep(m)
  {
    if rows != [] {
      FilterMembers(rows[1..], keep);
      assert rows == [rows[0]] + rows[1..];
    }
  }

  lemma SameRow(rows: Rows, i: nat, j: nat)
    requires WellFormed(rows) && i < |rows| && j < |rows| && rows[i].id == rows[j].id
    ensures i == j
  {
    assert i < j ==> SentBefore(rows, i, j);
    assert j < i ==> SentBefore(rows, j, i);
  }

  /** Every row of `tail` was sent later than `head`, under another id. */
  ghost predicate Precedes(head: Message, tail: Rows) {
    forall m | m in tail :: head.createdAt < m.createdAt && head.id != m.id
  }

  lemma ConsOrdered(head: Message, tail: Rows)
    requires WellFormed(tail) && Precedes(head, tail)
    ensures WellFormed([head] + tail)
  {
    var rows := [head] + tail;
    forall i, j | 0 <= i < j < |rows| ensures SentBefore(rows, i, j) {
      assert rows[j] == tail[j - 1] && tail[j - 1] in tail;
      if i > 0 { assert rows[i] == tail[i - 1] && SentBefore(tail, i - 1, j - 1); }
    }
  }

  lemma HeadPrecedes(rows: Rows)
    requires WellFormed(rows) && rows != []
    ensures WellFormed(rows[1..]) && Precedes(rows[0], rows[1..])
  {
    var tail := rows[1..];
    forall m | m in tail ensures rows[0].createdAt < m.createdAt && rows[0].id != m.id {
      var k :| 0 <= k < |tail| && tail[k] == m;
      assert SentBefore(rows, 0, k + 1);
    }
    forall i, j | 0 <= i < j < |tail| ensures SentBefore(tail, i, j) {
      assert SentBefore(rows, i + 1, j + 1);
    }
  }

  lemma {:induction false} FilterOrdered(rows: Rows, keep: Message -> bool)
    requires WellFormed(rows)
    ensures WellFormed(Filter(rows, keep))
  {
    if rows != [] {
      HeadPrecedes(rows);
      FilterOrdered(rows[1..], keep);
      FilterMembers(rows[1..], keep);
      if keep(rows[0]) { ConsOrdered(rows[0], Filter(rows[1..], keep)); }
    }
  }

  /** An update that only retires rows filters every pending queue. */
  lemma {:induction false} UpdateRetires(rows: Rows, f: Message -> Message, keep: Message -> bool, to: Address)
    requires forall m :: f(m).recipient == m.recipient
    requires forall m :: if keep(m) then f(m).status == m.status && (m.status == PENDING ==> f(m) == m)
                         else f(m).status != PENDING
    ensures Pending(Update(rows, f), to) == Filter(Pending(rows, to), keep)
  {
    if rows != [] {
      UpdateRetires(rows[1..], f, keep, to);
      assert Update(rows, f)[1..] == Update(rows[1..], f);
      var tail := Pending(rows[1..], to);
      if PendingFor(rows[0], to) {
        assert ([rows[0]] + tail)[1..] == tail;
      }
    }
  }

  lemma {:induction false} FilterShrinks(rows: Rows, keep: Message -> bool)
    ensures |Filter(rows, keep)| <= |rows|
    ensures (forall m | m in rows :: keep(m)) ==> Filter(rows, keep) == rows
  {
    if rows != [] {
      FilterShrinks(rows[1..], keep);
    }
  }

  // ---- the queues each transaction leaves -----------------------------------------------

  /** A bounded drop-oldest queue makes room by dropping its head. */
  function MakeRoom(queue: Rows, cap: nat): Rows {
    if |queue| < cap || queue == [] then queue else queue[1..]
  }

  /** In a filtered table only the head carries the id of the head. */
  lemma DropHead(queue: Rows)
    requires WellFormed(queue) && queue != []
    ensures Filter(queue, (m: Message) => m.id != queue[0].id) == queue[1..]
  {
    HeadPrecedes(queue);
    FilterShrinks(queue[1..], (m: Message) => m.id != queue[0].id);
  }

  /** A row of one inbox is in no other. */
  lemma DropElsewhere(rows: Rows, head: Message, to: Address, other: Address)
    requires WellFormed(rows) && head in Pending(rows, to) && to != other
    ensures Filter(Pending(rows, other), (m: Message) => m.id != head.id) == Pending(rows, other)
  {
    FilterMembers(rows, (m: Message) => PendingFor(m, to));
    FilterMembers(rows, (m: Message) => PendingFor(m, other));
    forall m | m in Pending(rows, other) ensures m.id != head.id {
      var i :| 0 <= i < |rows| && rows[i] == m;
      var j :| 0 <= j < |rows| && rows[j] == head;
      if m.id == head.id { SameRow(rows, i, j); }
    }
    FilterShrinks(Pending(rows, other), (m: Message) => m.id != head.id);
  }

  lemma CapDropsTheOldest(rows: Rows, cap: nat, to: Address, other: Address)
    requires WellFormed(rows)
    ensures Pending(EnforceCap(rows, cap, to), other)
         == if other == to then MakeRoom(Pending(rows, to), cap) else Pending(rows, other)
  {
    var queue := Pending(rows, to);
    if !(|queue| < cap || queue == []) {
      UpdateRetires(rows, (m: Message) => ExpireRow(queue[0].id, m), (m: Message) => m.id != queue[0].id, other);
      if other == to {
        FilterOrdered(rows, (m: Message) => PendingFor(m, to));
        DropHead(queue);
      } else {
        DropElsewhere(rows, queue[0], to, other);
      }
    }
  }

  predicate SurvivesReply(m: Message, reply: Option<string>) {
    reply == None || !AwaitsReply(m, reply.value)
  }

  /**
   * `send` refines the bounded drop-oldest queue: the recipient's queue makes room and appends, no
   * other queue changes, and a reply removes the questions it answers from every queue.
   */
  lemma {:induction false} SendRefinesQueue(rows: Rows, cap: nat, m: Message, to: Address)
    requires WellFormed(rows) && m.status == PENDING
    ensures Pending(SendRows(rows, cap, m), to)
         == Filter(if to == m.recipient then MakeRoom(Pending(rows, to), cap) + [m] else Pending(rows, to),
                   (r: Message) => SurvivesReply(r, RepliesTo(m)))
  {
    var stored := EnforceCap(rows, cap, m.recipient) + [m];
    CapDropsTheOldest(rows, cap, m.recipient, to);
    FilterAppend(EnforceCap(rows, cap, m.recipient), [m], (r: Message) => PendingFor(r, to));
    assert [m][1..] == [];
    var queue := if to == m.recipient then MakeRoom(Pending(rows, to), cap) + [m] else Pending(rows, to);
    assert Pending(stored, to) == queue;
    var keep := (r: Message) => SurvivesReply(r, RepliesTo(m));
    if RepliesTo(m) == None {
      FilterShrinks(queue, keep);
    } else {
      UpdateRetires(stored, (r: Message) => RespondRow(RepliesTo(m).value, m.createdAt, r), keep, to);
    }
  }

  lemma {:induction false} DeliverRefinesQueue(rows: Rows, ids: seq<string>, now: nat, to: Address)
    ensures Pending(DeliverRows(rows, ids, now), to) == Filter(Pending(rows, to), (m: Message) => m.id !in ids)
  {
    // Rows that are not pending are left alone, whatever their id.
    UpdateRetires(rows, (m: Message) => DeliverRow(ids, now, m),
                  (m: Message) => m.id !in ids || m.status != PENDING, to);
    FilterMembers(rows, (m: Message) => PendingFor(m, to));
    FilterCongruence(Pending(rows, to), (m: Message) => m.id !in ids || m.status != PENDING,
                     (m: Message) => m.id !in ids);
  }

  lemma {:induction false} FilterCongruence(rows: Rows, p: Message -> bool, q: Message -> bool)
    requires forall m | m in rows :: p(m) == q(m)
    ensures Filter(rows, p) == Filter(rows, q)
  {
    if rows != [] {
      FilterCongruence(rows[1..], p, q);
    }
  }

  // ---- each transaction, row by row --------------------------------------------------------

  /** Row `i` is the oldest pending row of an inbox that is full. */
  ghost predicate Overflows(rows: Rows, cap: nat, to: Address, i: nat)
    requires i < |rows|
  {
    && rows[i].recipient == to && rows[i].status == PENDING && |Pending(rows, to)| >= cap
    && forall j | 0 <= j < i :: !(rows[j].recipient == to && rows[j].status == PENDING)
  }

  /** A question under the correlation id that the reply names is answered, whether delivered already or not. */
  function Answered(m: Message, inReplyTo: Option<string>, now: nat): Message {
    if inReplyTo.Some? && inReplyTo.value != "" && m.correlationId == inReplyTo && m.expectsResponse
       && (m.status == PENDING || m.status == DELIVERED)
    then m.(status := RESPONDED, respondedAt := Some(now)) else m
  }

  /** Row `i` is the oldest pending reply. */
  ghost predicate OldestReply(rows: Rows, to: Address, correlation: string, i: nat)
    requires i < |rows|
  {
    && IsReply(rows[i], to, correlation)
    && forall j | 0 <= j < i :: !IsReply(rows[j], to, correlation)
  }

  predicate IsReply(m: Message, to: Address, correlation: string) {
    m.recipient == to && m.status == PENDING && m.inReplyTo == Some(correlation)
  }

  /** The head of a filtered table is the first row that is kept. */
  lemma {:induction false} FilterHead(rows: Rows, keep: Message -> bool) returns (k: nat)
    requires Filter(rows, keep) != []
    ensures k < |rows| && rows[k] == Filter(rows, keep)[0] && keep(rows[k]) && forall j | 0 <= j < k :: !keep(rows[j])
  {
    if keep(rows[0]) {
      k := 0;
    } else {
      var tail := rows[1..];
      k := FilterHead(tail, keep);
      k := k + 1;
      assert forall j | 0 < j < k :: rows[j] == tail[j - 1];
    }
  }

  lemma {:induction false} FilterNothing(rows: Rows, keep: Message -> bool, i: nat)
    requires Filter(rows, keep) == [] && i < |rows|
    ensures !keep(rows[i])
  {
    if i > 0 { FilterNothing(rows[1..], keep, i - 1); }
  }

  lemma CapIs(rows: Rows, cap: nat, to: Address, i: nat)
    requires WellFormed(rows) && i < |rows|
    ensures |EnforceCap(rows, cap, to)| == |rows|
    ensures EnforceCap(rows, cap, to)[i] == if Overflows(rows, cap, to, i) then rows[i].(status := EXPIRED) else rows[i]
  {
    var keep := (m: Message) => PendingFor(m, to);
    if Pending(rows, to) == [] {
      FilterNothing(rows, keep, i);
    } else {
      var k := FilterHead(rows, keep);
      assert rows[k] == Pending(rows, to)[0];
      if rows[i].id == rows[k].id { SameRow(rows, i, k); }
    }
  }

  /** What `send` makes of row `i`. */
  lemma SendIs(rows: Rows, cap: nat, m: Message, i: nat)
    requires WellFormed(rows) && i < |rows|
    ensures |SendRows(rows, cap, m)| == |rows| + 1
    ensures SendRows(rows, cap, m)[i]
         == if Overflows(rows, cap, m.recipient, i) then rows[i].(status := EXPIRED)
            else Answered(rows[i], m.inReplyTo, m.createdAt)
  {
    CapIs(rows, cap, m.recipient, i);
    var stored := EnforceCap(rows, cap, m.recipient) + [m];
    assert stored[i] == EnforceCap(rows, cap, m.recipient)[i];
  }

  lemma SendStores(rows: Rows, cap: nat, m: Message)
    ensures |SendRows(rows, cap, m)| == |rows| + 1
    ensures SendRows(rows, cap, m)[|rows|] == Answered(m, m.inReplyTo, m.createdAt)
  {
    var stored := EnforceCap(rows, cap, m.recipient) + [m];
    assert stored[|rows|] == m;
  }

  lemma {:induction false} NonEmptyMembers(ids: seq<string>)
    ensures forall id :: id in NonEmpty(ids) <==> id != "" && id in ids
    ensures multiset(NonEmpty(ids)) == multiset(ids)["" := 0]
  {
    if ids != [] {
      NonEmptyMembers(ids[1..]);
      assert ids == [ids[0]] + ids[1..];
    }
  }

  lemma ClaimIs(rows: Rows, to: Address, correlation: string, now: nat, i: nat)
    requires WellFormed(rows) && i < |rows|
    ensures |ClaimRows(rows, to, correlation, now)| == |rows|
    ensures ClaimRows(rows, to, correlation, now)[i]
         == if OldestReply(rows, to, correlation, i) then rows[i].(status := DELIVERED, deliveredAt := Some(now)) else rows[i]
  {
    var keep := (m: Message) => PendingFor(m, to) && m.inReplyTo == Some(correlation);
    if Replies(rows, to, correlation) == [] {
      FilterNothing(rows, keep, i);
    } else {
      var k := FilterHead(rows, keep);
      assert rows[k] == Replies(rows, to, correlation)[0];
      if rows[i].id == rows[k].id { SameRow(rows, i, k); }
    }
  }

  // ---- invariants of each transaction ----------------------------------------------------

  ghost predicate FreshFor(rows: Rows, m: Message) {
    forall i | 0 <= i < |rows| :: rows[i].createdAt < m.createdAt && rows[i].id != m.id
  }

  /** Updates of the store never touch the id or the creation time. */
  ghost predicate SameIdentity(a: Rows, b: Rows) {
    |a| == |b| && forall i | 0 <= i < |a| :: a[i].id == b[i].id && a[i].createdAt == b[i].createdAt
  }

  lemma IdentityKeepsOrder(a: Rows, b: Rows)
    requires WellFormed(a) && SameIdentity(a, b)
    ensures WellFormed(b)
  {
    forall i, j | 0 <= i < j < |b| ensures SentBefore(b, i, j) {
      assert SentBefore(a, i, j);
    }
  }

  lemma AppendKeepsOrder(rows: Rows, m: Message)
    requires WellFormed(rows) && FreshFor(rows, m)
    ensures WellFormed(rows + [m])
  {
    forall i, j | 0 <= i < j < |rows + [m]| ensures SentBefore(rows + [m], i, j) {
      assert j < |rows| ==> SentBefore(rows, i, j);
    }
  }

  lemma SendKeepsOrder(rows: Rows, cap: nat, m: Message)
    requires WellFormed(rows) && FreshFor(rows, m)
    ensures WellFormed(SendRows(rows, cap, m))
  {
    AppendKeepsOrder(rows, m);
    IdentityKeepsOrder(rows + [m], SendRows(rows, cap, m));
  }

  lemma SendKeepsBound(rows: Rows, cap: nat, m: Message, to: Address)
    requires WellFormed(rows) && Bounded(rows, cap) && cap > 0 && m.status == PENDING
    ensures |Pending(SendRows(rows, cap, m), to)| <= cap
  {
    SendRefinesQueue(rows, cap, m, to);
    FilterShrinks(if to == m.recipient then MakeRoom(Pending(rows, to), cap) + [m] else Pending(rows, to),
                  (r: Message) => SurvivesReply(r, RepliesTo(m)));
  }

  lemma SendKeeps(rows: Rows, cap: nat, m: Message)
    requires WellFormed(rows) && Bounded(rows, cap) && cap > 0 && FreshFor(rows, m) && m.status == PENDING
    ensures WellFormed(SendRows(rows, cap, m)) && Bounded(SendRows(rows, cap, m), cap)
  {
    SendKeepsOrder(rows, cap, m);
    forall to ensures |Pending(SendRows(rows, cap, m), to)| <= cap {
      SendKeepsBound(rows, cap, m, to);
    }
  }

  lemma DeliverKeeps(rows: Rows, cap: nat, ids: seq<string>, now: nat)
    requires WellFormed(rows) && Bounded(rows, cap)
    ensures WellFormed(DeliverRows(rows, ids, now)) && Bounded(DeliverRows(rows, ids, now), cap)
  {
    forall to ensures |Pending(DeliverRows(rows, ids, now), to)| <= cap {
      DeliverRefinesQueue(rows, ids, now, to);
      FilterShrinks(Pending(rows, to), (m: Message) => m.id !in ids);
    }
    IdentityKeepsOrder(rows, DeliverRows(rows, ids, now));
  }

  lemma DeliverNothing(rows: Rows, now: nat)
    ensures DeliverRows(rows, [], now) == rows
  {
  }
}
