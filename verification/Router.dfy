/**
 * `MessagingRouter.handle_incoming` under every interleaving. The code between two suspension
 * points is one step; the busy check does not suspend, so the gate before a run is one step.
 */
module Router {
  import opened Text
  import opened MessagingStore

  datatype Incoming = Incoming(platform: string, chatId: string, messageId: string, displayName: string)

  function KeyOf(m: Incoming): NativeKey {
    NativeKey(m.platform, m.messageId)
  }

  function ChatOf(m: Incoming): ChatKey {
    ChatKey(m.platform, m.chatId)
  }

  /** How a handler got its session: read from the table, or created and then saved first or second. */
  datatype Origin = Found | CreatedFirst | CreatedSecond

  datatype Phase =
    | Claiming
    | Looking
    | Creating
    | Saving(session: string)
    | Renaming(session: string)
    | AtGate(session: string, origin: Origin)
    | Enqueueing(session: string, origin: Origin)
    | Running(session: string, origin: Origin)
    | Replying(session: string, origin: Origin)
    | Releasing
    | Duplicate
    | Processed
    | Released
    | Cancelled

  datatype Handler = Handler(message: Incoming, phase: Phase)

  /** `pruned` records every key a prune ever removed; `sessions` every session id ever created. */
  datatype State = State(
    dedup: Dedup, chats: Chats, active: set<string>, handlers: map<nat, Handler>,
    queued: seq<(string, nat)>, pruned: set<NativeKey>, sessions: set<string>)

  const INIT := State(map[], map[], {}, map[], [], {}, {})

  datatype Step =
    | Arrive(id: nat, message: Incoming)
    | Claim(id: nat, now: nat)
    | Look(id: nat)
    | Create(id: nat, session: string)
    | Save(id: nat)
    | Rename(id: nat)
    | Gate(id: nat, busyElsewhere: bool)
    | Enqueue(id: nat)
    | FinishRun(id: nat)
    | Reply(id: nat)
    | Raise(id: nat)
    | Release(id: nat)
    | Cancel(id: nat)
    | Prune(cutoff: nat)

  predicate InFlight(p: Phase) {
    p.Looking? || p.Creating? || p.Saving? || p.Renaming? || p.AtGate? || p.Enqueueing? || p.Running? || p.Replying?
  }

  function Move(s: State, id: nat, p: Phase): State
    requires id in s.handlers
  {
    s.(handlers := s.handlers[id := s.handlers[id].(phase := p)])
  }

  /** The `finally` of a run. */
  function Discard(s: State, p: Phase): State {
    if p.Running? then s.(active := s.active - {p.session}) else s
  }

  /** The phase a step starts from. */
  predicate StartsFrom(step: Step, p: Phase) {
    match step
    case Arrive(_, _) => false
    case Claim(_, _) => p == Claiming
    case Look(_) => p == Looking
    case Create(_, _) => p == Creating
    case Save(_) => p.Saving?
    case Rename(_) => p.Renaming?
    case Gate(_, _) => p.AtGate?
    case Enqueue(_) => p.Enqueueing?
    case FinishRun(_) => p.Running?
    case Reply(_) => p.Replying?
    case Raise(_) => InFlight(p) && !p.Replying?
    case Release(_) => p == Releasing
    case Cancel(_) => InFlight(p) || p == Claiming || p == Releasing
    case Prune(_) => false
  }

  predicate Enabled(s: State, step: Step) {
    match step
    case Arrive(id, _) => id !in s.handlers
    case Prune(_) => true
    case _ =>
      && step.id in s.handlers && StartsFrom(step, s.handlers[step.id].phase)
      && (step.Create? ==> step.session !in s.sessions)
  }

  function Apply(s: State, step: Step): State
    requires Enabled(s, step)
  {
    match step
    case Arrive(id, message) => s.(handlers := s.handlers[id := Handler(message, Claiming)])
    case Claim(id, now) =>
      var key := KeyOf(s.handlers[id].message);
      if key in s.dedup then Move(s, id, Duplicate)
      else Move(s.(dedup := Claimed(s.dedup, key, now)), id, Looking)
    case Look(id) =>
      var m := s.handlers[id].message;
      if ChatOf(m) !in s.chats then Move(s, id, Creating)
      else
        var row := s.chats[ChatOf(m)];
        Move(s, id, if row.displayName != m.displayName then Renaming(row.session) else AtGate(row.session, Found))
    case Create(id, session) => Move(s.(sessions := s.sessions + {session}), id, Saving(session))
    case Save(id) =>
      var m, session := s.handlers[id].message, s.handlers[id].phase.session;
      var origin := if ChatOf(m) in s.chats then CreatedSecond else CreatedFirst;
      Move(s.(chats := Upserted(s.chats, ChatOf(m), ChatRow(session, m.displayName))), id, AtGate(session, origin))
    case Rename(id) =>
      var m, session := s.handlers[id].message, s.handlers[id].phase.session;
      Move(s.(chats := Upserted(s.chats, ChatOf(m), ChatRow(session, m.displayName))), id, AtGate(session, Found))
    case Gate(id, busyElsewhere) =>
      var p := s.handlers[id].phase;
      if p.session in s.active || busyElsewhere then Move(s, id, Enqueueing(p.session, p.origin))
      else Move(s.(active := s.active + {p.session}), id, Running(p.session, p.origin))
    case Enqueue(id) => Move(s.(queued := s.queued + [(s.handlers[id].phase.session, id)]), id, Processed)
    case FinishRun(id) =>
      var p := s.handlers[id].phase;
      Move(Discard(s, p), id, Replying(p.session, p.origin))
    case Reply(id) => Move(s, id, Processed)
    case Raise(id) => Move(Discard(s, s.handlers[id].phase), id, Releasing)
    case Release(id) => Move(s.(dedup := s.dedup - {KeyOf(s.handlers[id].message)}), id, Released)
    case Cancel(id) => Move(Discard(s, s.handlers[id].phase), id, Cancelled)
    case Prune(cutoff) =>
      s.(dedup := Kept(s.dedup, cutoff), pruned := s.pruned + (s.dedup.Keys - Kept(s.dedup, cutoff).Keys))
  }

  // ---- the invariant -----------------------------------------------------------------

  /** Handlers whose claim is in force: in flight, about to release, or ended without releasing. */
  predicate Holds(p: Phase) {
    InFlight(p) || p == Releasing || p == Processed
  }

  ghost predicate HoldsKey(s: State, id: nat, key: NativeKey) {
    id in s.handlers && Holds(s.handlers[id].phase) && KeyOf(s.handlers[id].message) == key
  }

  ghost predicate ClaimsExclusive(s: State) {
    forall id, key | HoldsKey(s, id, key) && key !in s.pruned ::
      key in s.dedup && forall other | HoldsKey(s, other, key) :: other == id
  }

  ghost predicate RunsIn(s: State, id: nat, session: string) {
    id in s.handlers && s.handlers[id].phase.Running? && s.handlers[id].phase.session == session
  }

  /** `_active_sessions` is exactly the set of sessions with a router-spawned run, one run each. */
  ghost predicate ActiveIsRunning(s: State) {
    && (forall id, session | RunsIn(s, id, session) :: session in s.active)
    && (forall session | session in s.active :: exists id :: RunsIn(s, id, session))
    && (forall a, b, session | RunsIn(s, a, session) && RunsIn(s, b, session) :: a == b)
  }

  /** Which session a handler works in, relative to the chat table. */
  ghost predicate SessionSound(s: State, h: Handler) {
    var chat := ChatOf(h.message);
    match h.phase
    case Saving(session) => session in s.sessions
    case Renaming(session) => chat in s.chats && s.chats[chat].session == session
    case AtGate(session, origin) => OriginSound(s, chat, session, origin)
    case Enqueueing(session, origin) => OriginSound(s, chat, session, origin)
    case Running(session, origin) => OriginSound(s, chat, session, origin)
    case Replying(session, origin) => OriginSound(s, chat, session, origin)
    case _ => true
  }

  predicate OriginSound(s: State, chat: ChatKey, session: string, origin: Origin) {
    chat in s.chats && (s.chats[chat].session == session <==> origin != CreatedSecond)
  }

  ghost predicate SavingIn(s: State, id: nat, session: string) {
    id in s.handlers && s.handlers[id].phase == Saving(session)
  }

  /** A created session has one creator, and no chat points to it before it is saved. */
  ghost predicate SavingFresh(s: State) {
    && (forall a, b, session | SavingIn(s, a, session) && SavingIn(s, b, session) :: a == b)
    && (forall a, c, session | SavingIn(s, a, session) && c in s.chats :: s.chats[c].session != session)
  }

  ghost predicate SessionsSound(s: State) {
    && (forall c | c in s.chats :: s.chats[c].session in s.sessions)
    && (forall id | id in s.handlers :: SessionSound(s, s.handlers[id]))
    && SavingFresh(s)
  }

  ghost predicate Inv(s: State) {
    ClaimsExclusive(s) && ActiveIsRunning(s) && SessionsSound(s)
  }

  lemma ClaimsStayExclusive(s: State, step: Step)
    requires ClaimsExclusive(s) && Enabled(s, step)
    ensures ClaimsExclusive(Apply(s, step))
  {
    var t := Apply(s, step);
    forall id, key | HoldsKey(t, id, key) && key !in t.pruned
      ensures key in t.dedup && forall other | HoldsKey(t, other, key) :: other == id
    {
      assert !step.Claim? ==> HoldsKey(s, id, key);
      assert step.Claim? && id != step.id ==> HoldsKey(s, id, key);
      forall other | HoldsKey(t, other, key) ensures other == id {
        assert !step.Claim? ==> HoldsKey(s, other, key);
        assert step.Claim? && other != step.id ==> HoldsKey(s, other, key);
      }
      if step.Release? && KeyOf(s.handlers[step.id].message) == key {
        assert HoldsKey(s, step.id, key);
      }
    }
  }

  lemma RunsBefore(s: State, step: Step, id: nat, session: string)
    requires Enabled(s, step) && RunsIn(Apply(s, step), id, session)
    ensures RunsIn(s, id, session) || (step.Gate? && step.id == id && session !in s.active)
    ensures !RunsIn(s, id, session) ==> session in Apply(s, step).active
  {
  }

  lemma RunsStayActive(s: State, step: Step, id: nat, session: string)
    requires ActiveIsRunning(s) && Enabled(s, step) && RunsIn(Apply(s, step), id, session)
    ensures session in Apply(s, step).active
  {
    RunsBefore(s, step, id, session);
    if (step.FinishRun? || step.Raise? || step.Cancel?) && s.handlers[step.id].phase.Running? {
      assert RunsIn(s, step.id, s.handlers[step.id].phase.session);
    }
  }

  lemma ActiveStays(s: State, step: Step, session: string)
    requires ActiveIsRunning(s) && Enabled(s, step) && session in Apply(s, step).active
    ensures exists id :: RunsIn(Apply(s, step), id, session)
  {
    if session in s.active {
      var id :| RunsIn(s, id, session);
      assert RunsIn(Apply(s, step), id, session);
    } else {
      assert RunsIn(Apply(s, step), step.id, session);
    }
  }

  lemma ActiveStaysRunning(s: State, step: Step)
    requires ActiveIsRunning(s) && Enabled(s, step)
    ensures ActiveIsRunning(Apply(s, step))
  {
    var t := Apply(s, step);
    forall id, session | RunsIn(t, id, session) ensures session in t.active {
      RunsStayActive(s, step, id, session);
    }
    forall session | session in t.active ensures exists id :: RunsIn(t, id, session) {
      ActiveStays(s, step, session);
    }
    forall a, b, session | RunsIn(t, a, session) && RunsIn(t, b, session) ensures a == b {
      RunsBefore(s, step, a, session);
      RunsBefore(s, step, b, session);
    }
  }

  /** The only changes of the chat table: new rows, and display names. */
  lemma ChatsGrow(s: State, step: Step)
    requires Enabled(s, step)
    ensures Grows(s, Apply(s, step))
  {
  }

  ghost predicate Grows(s: State, t: State) {
    && (forall c | c in s.chats :: c in t.chats && t.chats[c].session == s.chats[c].session)
    && s.sessions <= t.sessions
  }

  lemma OthersStaySound(s: State, t: State, h: Handler)
    requires Grows(s, t) && SessionSound(s, h)
    ensures SessionSound(t, h)
  {
  }

  lemma MoverStaysSound(s: State, step: Step)
    requires SessionsSound(s) && Enabled(s, step) && !step.Arrive? && !step.Prune?
    ensures SessionSound(Apply(s, step), Apply(s, step).handlers[step.id])
  {
    var h := s.handlers[step.id];
    assert SessionSound(s, h);
    if step.Save? {
      assert SavingIn(s, step.id, h.phase.session);
    }
  }

  lemma HandlerStaysSound(s: State, step: Step, id: nat)
    requires SessionsSound(s) && Enabled(s, step) && id in Apply(s, step).handlers
    ensures SessionSound(Apply(s, step), Apply(s, step).handlers[id])
  {
    if !step.Arrive? && !step.Prune? && step.id == id {
      MoverStaysSound(s, step);
    } else if id in s.handlers {
      ChatsGrow(s, step);
      assert Apply(s, step).handlers[id] == s.handlers[id];
      OthersStaySound(s, Apply(s, step), s.handlers[id]);
    }
  }

  lemma SavingStaysFresh(s: State, step: Step)
    requires SessionsSound(s) && Enabled(s, step)
    ensures SavingFresh(Apply(s, step))
  {
    var t := Apply(s, step);
    forall a, session | SavingIn(t, a, session)
      ensures if step.Create? && step.id == a then session !in s.sessions && session == step.session
              else SavingIn(s, a, session) && session in s.sessions
    {
      if !(step.Create? && step.id == a) {
        assert SessionSound(s, s.handlers[a]);
      }
    }
    if step.Save? {
      assert SavingIn(s, step.id, s.handlers[step.id].phase.session);
    }
    if step.Rename? {
      assert SessionSound(s, s.handlers[step.id]);
    }
  }

  lemma SessionsStaySound(s: State, step: Step)
    requires SessionsSound(s) && Enabled(s, step)
    ensures SessionsSound(Apply(s, step))
  {
    var t := Apply(s, step);
    SavingStaysFresh(s, step);
    forall id | id in t.handlers ensures SessionSound(t, t.handlers[id]) {
      HandlerStaysSound(s, step, id);
    }
    if step.Save? || step.Rename? {
      assert SessionSound(s, s.handlers[step.id]);
    }
  }

  lemma StepKeepsInv(s: State, step: Step)
    requires Inv(s) && Enabled(s, step)
    ensures Inv(Apply(s, step))
  {
    ClaimsStayExclusive(s, step);
    ActiveStaysRunning(s, step);
    SessionsStaySound(s, step);
  }

  // ---- whole runs ----------------------------------------------------------------------

  /** The states of a run of enabled steps from the initial state. */
  ghost predicate Run(states: seq<State>, steps: seq<Step>) {
    && |states| == |steps| + 1 && states[0] == INIT
    && forall n | 0 <= n < |steps| :: Follows(states[n], steps[n], states[n + 1])
  }

  ghost predicate Follows(s: State, step: Step, t: State) {
    Enabled(s, step) && t == Apply(s, step)
  }

  lemma {:induction false} RunsKeepInv(states: seq<State>, steps: seq<Step>, n: nat)
    requires Run(states, steps) && n < |states|
    ensures Inv(states[n])
  {
    if n > 0 {
      RunsKeepInv(states, steps, n - 1);
      assert Follows(states[n - 1], steps[n - 1], states[n]);
      StepKeepsInv(states[n - 1], steps[n - 1]);
    }
  }

  /** Handlers that have claimed their message and neither ended nor released it. */
  predicate Live(p: Phase) {
    InFlight(p) || p == Releasing
  }

  ghost predicate Handles(s: State, id: nat, key: NativeKey) {
    id in s.handlers && Live(s.handlers[id].phase) && KeyOf(s.handlers[id].message) == key
  }

  /** This step prunes the row of a key. */
  predicate Removes(s: State, step: Step, key: NativeKey) {
    step.Prune? && key in s.dedup && s.dedup[key] < step.cutoff
  }

  /** This step prunes the row of a key that a live handler has claimed. */
  ghost predicate Orphans(s: State, step: Step, key: NativeKey) {
    Removes(s, step, key) && exists id :: Handles(s, id, key)
  }

  /** A live handler of the key is the only one, and its row is present. */
  ghost predicate OneLive(s: State, key: NativeKey) {
    && (forall id | Handles(s, id, key) :: key in s.dedup)
    && (forall a, b | Handles(s, a, key) && Handles(s, b, key) :: a == b)
  }

  lemma HandlesBefore(s: State, step: Step, id: nat, key: NativeKey)
    requires Enabled(s, step) && Handles(Apply(s, step), id, key)
    ensures Handles(s, id, key) || (step.Claim? && step.id == id && key !in s.dedup)
  {
  }

  lemma OneLiveStays(s: State, step: Step, key: NativeKey)
    requires OneLive(s, key) && Enabled(s, step) && !Orphans(s, step, key)
    ensures OneLive(Apply(s, step), key)
  {
    var t := Apply(s, step);
    forall id | Handles(t, id, key) ensures key in t.dedup {
      HandlesBefore(s, step, id, key);
      if step.Release? && KeyOf(s.handlers[step.id].message) == key { assert Handles(s, step.id, key); }
    }
    forall a, b | Handles(t, a, key) && Handles(t, b, key) ensures a == b {
      HandlesBefore(s, step, a, key);
      HandlesBefore(s, step, b, key);
    }
  }

  /** No step before `n` pruned the row of a live handler of the key. */
  ghost predicate NeverOrphaned(states: seq<State>, steps: seq<Step>, n: nat, key: NativeKey)
    requires n <= |steps| && n <= |states|
  {
    forall m | 0 <= m < n :: !Orphans(states[m], steps[m], key)
  }

  /**
   * A native message has at most one live handler, with its row in the table, as long as no prune took the
   * row of a live handler away; prunes of finished messages do not matter.
   */
  lemma {:induction false} AtMostOneHandler(states: seq<State>, steps: seq<Step>, n: nat, key: NativeKey)
    requires Run(states, steps) && n < |states| && NeverOrphaned(states, steps, n, key)
    ensures OneLive(states[n], key)
  {
    if n > 0 {
      AtMostOneHandler(states, steps, n - 1, key);
      assert Follows(states[n - 1], steps[n - 1], states[n]);
      OneLiveStays(states[n - 1], steps[n - 1], key);
    }
  }

  lemma {:induction false} ProcessedIsFinal(states: seq<State>, steps: seq<Step>, n: nat, k: nat, id: nat)
    requires Run(states, steps) && n <= k < |states|
    requires id in states[n].handlers && states[n].handlers[id].phase == Processed
    ensures id in states[k].handlers && states[k].handlers[id] == states[n].handlers[id]
    decreases k - n
  {
    if n < k {
      ProcessedIsFinal(states, steps, n, k - 1, id);
      assert Follows(states[k - 1], steps[k - 1], states[k]);
    }
  }

  lemma {:induction false} PrunedGrows(states: seq<State>, steps: seq<Step>, n: nat, k: nat)
    requires Run(states, steps) && n <= k < |states|
    ensures states[n].pruned <= states[k].pruned && Grows(states[n], states[k])
    decreases k - n
  {
    if n < k {
      PrunedGrows(states, steps, n, k - 1);
      assert Follows(states[k - 1], steps[k - 1], states[k]);
      ChatsGrow(states[k - 1], steps[k - 1]);
    }
  }

  /** Once processed, a message is never taken up again, whatever is redelivered, unless it was pruned. */
  lemma NeverProcessedTwice(states: seq<State>, steps: seq<Step>, n: nat, k: nat, id: nat, other: nat, key: NativeKey)
    requires Run(states, steps) && n <= k < |states|
    requires id in states[n].handlers && states[n].handlers[id].phase == Processed
    requires KeyOf(states[n].handlers[id].message) == key && key !in states[k].pruned
    ensures other != id ==> !HoldsKey(states[k], other, key)
    ensures key in states[k].dedup
  {
    ProcessedIsFinal(states, steps, n, k, id);
    RunsKeepInv(states, steps, k);
    assert HoldsKey(states[k], id, key);
  }

  /** The row of the key is present and nobody handles it. */
  ghost predicate Closed(s: State, key: NativeKey) {
    key in s.dedup && forall id :: !Handles(s, id, key)
  }

  lemma ClosedStays(s: State, step: Step, key: NativeKey)
    requires Closed(s, key) && Enabled(s, step) && !Removes(s, step, key)
    ensures Closed(Apply(s, step), key)
  {
    assert step.Release? && KeyOf(s.handlers[step.id].message) == key ==> Handles(s, step.id, key);
    forall id ensures !Handles(Apply(s, step), id, key) {
      if Handles(Apply(s, step), id, key) { HandlesBefore(s, step, id, key); }
    }
  }

  /** Between the two states handler `id` ends with success. */
  ghost predicate Succeeds(s: State, t: State, id: nat, key: NativeKey) {
    Handles(s, id, key) && id in t.handlers && t.handlers[id].phase == Processed
  }

  /** A success closes the message exactly when its row is still there and nobody else handles it. */
  lemma SuccessClosesIff(s: State, step: Step, id: nat, key: NativeKey)
    requires Enabled(s, step) && Succeeds(s, Apply(s, step), id, key)
    ensures Closed(Apply(s, step), key) <==> key in s.dedup && forall other | Handles(s, other, key) :: other == id
  {
    assert (step.Enqueue? || step.Reply?) && step.id == id;
    var t := Apply(s, step);
    assert t.dedup == s.dedup;
    assert forall other :: Handles(t, other, key) <==> Handles(s, other, key) && other != id;
  }

  /** A closed message is taken up by no handler until its row is pruned. */
  lemma {:induction false} ClosedUntilPruned(states: seq<State>, steps: seq<Step>, n: nat, k: nat, key: NativeKey)
    requires Run(states, steps) && n <= k < |states| && Closed(states[n], key)
    requires forall m | n <= m < k :: !Removes(states[m], steps[m], key)
    ensures Closed(states[k], key)
    decreases k
  {
    if n < k {
      ClosedUntilPruned(states, steps, n, k - 1, key);
      assert Follows(states[k - 1], steps[k - 1], states[k]);
      ClosedStays(states[k - 1], steps[k - 1], key);
    }
  }

  /**
   * From the step in which a handler succeeds until the row of the message is pruned, no handler takes the
   * message up again, provided no earlier prune took the row of a live handler.
   */
  lemma ProcessedUntilPruned(states: seq<State>, steps: seq<Step>, n: nat, k: nat, id: nat, key: NativeKey)
    requires Run(states, steps) && n < k < |states| && NeverOrphaned(states, steps, n, key)
    requires Succeeds(states[n], states[n + 1], id, key)
    requires forall m | n <= m < k :: !Removes(states[m], steps[m], key)
    ensures Closed(states[k], key)
  {
    AtMostOneHandler(states, steps, n, key);
    assert Follows(states[n], steps[n], states[n + 1]);
    SuccessClosesIff(states[n], steps[n], id, key);
    ClosedUntilPruned(states, steps, n + 1, k, key);
  }

  /** At most one router-spawned run per session, and the active set is exactly those sessions. */
  lemma ActiveSessionsAreRuns(states: seq<State>, steps: seq<Step>, n: nat)
    requires Run(states, steps) && n < |states|
    ensures forall session :: session in states[n].active <==> exists id :: RunsIn(states[n], id, session)
    ensures forall a, b, session | RunsIn(states[n], a, session) && RunsIn(states[n], b, session) :: a == b
  {
    RunsKeepInv(states, steps, n);
  }

  /** A stored chat keeps its session for the rest of the run. */
  lemma StoredSessionNeverChanges(states: seq<State>, steps: seq<Step>, n: nat, k: nat, chat: ChatKey)
    requires Run(states, steps) && n <= k < |states| && chat in states[n].chats
    ensures chat in states[k].chats && states[k].chats[chat].session == states[n].chats[chat].session
  {
    PrunedGrows(states, steps, n, k);
  }

  /**
   * A run is in the stored session of its chat exactly when its handler did not create a session
   * that another handler had already saved one for.
   */
  lemma RunUsesStoredSessionIff(states: seq<State>, steps: seq<Step>, n: nat, id: nat)
    requires Run(states, steps) && n < |states|
    requires id in states[n].handlers && states[n].handlers[id].phase.Running?
    ensures var h := states[n].handlers[id];
            && ChatOf(h.message) in states[n].chats
            && (states[n].chats[ChatOf(h.message)].session == h.phase.session
                <==> h.phase.origin != CreatedSecond)
  {
    RunsKeepInv(states, steps, n);
    assert SessionSound(states[n], states[n].handlers[id]);
  }

  ghost predicate Reachable(s: State) {
    exists states: seq<State>, steps: seq<Step> :: Run(states, steps) && states[|states| - 1] == s
  }

  lemma ReachStep(s: State, step: Step) returns (t: State)
    requires Reachable(s) && Enabled(s, step)
    ensures t == Apply(s, step) && Reachable(t)
  {
    t := Apply(s, step);
    var states: seq<State>, steps: seq<Step> :| Run(states, steps) && states[|states| - 1] == s;
    var states', steps' := states + [t], steps + [step];
    forall n | 0 <= n < |steps'| ensures Follows(states'[n], steps'[n], states'[n + 1]) {
      if n < |steps| { assert Follows(states[n], steps[n], states[n + 1]); }
    }
    assert Run(states', steps');
  }

  lemma InitIsReachable()
    ensures Reachable(INIT)
  {
    assert Run([INIT], []);
    assert [INIT][|[INIT]| - 1] == INIT;
  }

  lemma {:induction false} UnusedId(handlers: map<nat, Handler>) returns (id: nat)
    ensures forall k | k in handlers :: k < id
    decreases |handlers|
  {
    if handlers == map[] {
      id := 0;
    } else {
      var k := Pick(handlers.Keys);
      var rest := handlers - {k};
      assert rest.Keys == handlers.Keys - {k};
      var above := UnusedId(rest);
      id := if k < above then above else k + 1;
      forall x | x in handlers ensures x < id {
        if x != k { assert x in rest; }
      }
    }
  }

  /**
   * The condition is exact: in every reachable state in which a prune takes the row of a live handler, the
   * prune, a redelivery and its claim lead to a reachable state with two live handlers of the message.
   */
  lemma PruneAllowsSecondHandler(s: State, step: Step, key: NativeKey, id: nat, now: nat)
    returns (t: State, other: nat)
    requires Reachable(s) && Removes(s, step, key) && Handles(s, id, key)
    ensures Reachable(t) && other != id && Handles(t, id, key) && Handles(t, other, key)
  {
    var message := s.handlers[id].message;
    other := UnusedId(s.handlers);
    t := ReachStep(s, step);
    assert key !in t.dedup && t.handlers == s.handlers;
    t := ReachStep(t, Arrive(other, message));
    t := ReachStep(t, Claim(other, now));
  }

  lemma LiveHandler(s: State, key: NativeKey) returns (id: nat)
    requires key in s.dedup && !Closed(s, key)
    ensures Handles(s, id, key)
  {
    id :| Handles(s, id, key);
  }

  /** Being closed is needed: otherwise the message is being handled, or its next delivery is. */
  lemma OpenIsTakenUp(s: State, message: Incoming, now: nat) returns (t: State, id: nat)
    requires Reachable(s) && !Closed(s, KeyOf(message))
    ensures Reachable(t) && Handles(t, id, KeyOf(message))
    ensures t == s || (id !in s.handlers && t == Apply(Apply(s, Arrive(id, message)), Claim(id, now)))
  {
    if KeyOf(message) in s.dedup {
      t := s;
      id := LiveHandler(s, KeyOf(message));
    } else {
      id := UnusedId(s.handlers);
      t := ReachStep(s, Arrive(id, message));
      t := ReachStep(t, Claim(id, now));
    }
  }

  /** Such states are reachable: a message claimed and still being handled when an old row is pruned. */
  lemma LiveRowCanBePruned(message: Incoming, now: nat) returns (s: State)
    ensures Reachable(s) && Handles(s, 0, KeyOf(message)) && Removes(s, Prune(now + 1), KeyOf(message))
  {
    s := LiveRow(message, now);
  }

  lemma LiveRow(message: Incoming, now: nat) returns (s: State)
    ensures Reachable(s) && s.handlers == map[0 := Handler(message, Looking)] && s.dedup == map[KeyOf(message) := now]
    ensures s.chats == map[] && s.sessions == {}
  {
    s := INIT;
    InitIsReachable();
    s := ReachStep(s, Arrive(0, message));
    s := ReachStep(s, Claim(0, now));
  }

  /** Handler 0 has lost its row to a prune when handler 1 claims the message. */
  lemma TwoLive(message: Incoming, now: nat) returns (s: State)
    ensures Reachable(s) && s.handlers == map[0 := Handler(message, Looking), 1 := Handler(message, Looking)]
    ensures s.dedup.Keys == {KeyOf(message)} && s.chats == map[] && s.sessions == {}
  {
    s := LiveRow(message, now);
    s := ReachStep(s, Prune(now + 1));
    s := ReachStep(s, Arrive(1, message));
    s := ReachStep(s, Claim(1, now));
  }

  lemma OneReleased(message: Incoming, now: nat) returns (s: State)
    ensures Reachable(s) && s.handlers == map[0 := Handler(message, Looking), 1 := Handler(message, Released)]
    ensures s.dedup == map[] && s.chats == map[] && s.sessions == {}
  {
    s := TwoLive(message, now);
    s := ReachStep(s, Raise(1));
    s := ReachStep(s, Release(1));
  }

  lemma OneSaving(message: Incoming, session: string, now: nat) returns (s: State)
    ensures Reachable(s) && s.handlers == map[0 := Handler(message, Saving(session)), 1 := Handler(message, Released)]
    ensures s.dedup == map[] && s.chats == map[]
  {
    s := OneReleased(message, now);
    s := ReachStep(s, Look(0));
    s := ReachStep(s, Create(0, session));
  }

  lemma OneEnqueueing(message: Incoming, session: string, now: nat) returns (s: State)
    ensures Reachable(s) && s.handlers.Keys == {0, 1} && s.dedup == map[]
    ensures s.handlers[0] == Handler(message, Enqueueing(session, CreatedFirst))
  {
    s := OneSaving(message, session, now);
    s := ReachStep(s, Save(0));
    s := ReachStep(s, Gate(0, true));
  }

  /**
   * So is the proviso on earlier prunes: when the second handler raises and releases the row, the success of
   * the first leaves the message open, and without another prune a third handler claims it.
   */
  lemma OrphanedSuccessReopens(message: Incoming, session: string, now: nat)
    returns (before: State, done: State, again: State)
    ensures Reachable(before) && Enabled(before, Enqueue(0)) && done == Apply(before, Enqueue(0))
    ensures Succeeds(before, done, 0, KeyOf(message))
    ensures Reachable(again) && Handles(again, 2, KeyOf(message)) && Enabled(done, Arrive(2, message))
    ensures again == Apply(Apply(done, Arrive(2, message)), Claim(2, now))
  {
    before := OneEnqueueing(message, session, now);
    done := ReachStep(before, Enqueue(0));
    again := ReachStep(done, Arrive(2, message));
    again := ReachStep(again, Claim(2, now));
  }

  lemma TwoClaimed(a: Incoming, b: Incoming) returns (s: State)
    requires KeyOf(a) != KeyOf(b)
    ensures Reachable(s) && s.handlers == map[0 := Handler(a, Looking), 1 := Handler(b, Looking)]
    ensures s.chats == map[] && s.active == {} && s.sessions == {}
  {
    s := INIT;
    InitIsReachable();
    s := ReachStep(s, Arrive(0, a));
    s := ReachStep(s, Arrive(1, b));
    s := ReachStep(s, Claim(0, 0));
    s := ReachStep(s, Claim(1, 0));
  }

  lemma TwoLooked(a: Incoming, b: Incoming) returns (s: State)
    requires KeyOf(a) != KeyOf(b)
    ensures Reachable(s) && s.handlers == map[0 := Handler(a, Creating), 1 := Handler(b, Creating)]
    ensures s.chats == map[] && s.active == {} && s.sessions == {}
  {
    s := TwoClaimed(a, b);
    s := ReachStep(s, Look(0));
    s := ReachStep(s, Look(1));
  }

  lemma TwoCreators(a: Incoming, b: Incoming, one: string, two: string) returns (s: State)
    requires ChatOf(a) == ChatOf(b) && KeyOf(a) != KeyOf(b) && one != two
    ensures Reachable(s) && s.handlers == map[0 := Handler(a, Saving(one)), 1 := Handler(b, Saving(two))]
    ensures s.chats == map[] && s.active == {}
  {
    s := TwoLooked(a, b);
    s := ReachStep(s, Create(0, one));
    s := ReachStep(s, Create(1, two));
  }

  /** The race is real: two first messages of one chat can end in runs of two different sessions. */
  lemma FirstMessagesCanDiverge(a: Incoming, b: Incoming, one: string, two: string) returns (s: State)
    requires ChatOf(a) == ChatOf(b) && KeyOf(a) != KeyOf(b) && one != two
    ensures Reachable(s) && Diverged(s, ChatOf(a))
  {
    s := TwoCreators(a, b, one, two);
    s := ReachStep(s, Save(0));
    s := ReachStep(s, Save(1));
    s := ReachStep(s, Gate(0, false));
    s := ReachStep(s, Gate(1, false));
    assert s.handlers[0] == Handler(a, Running(one, CreatedFirst));
    assert s.handlers[1] == Handler(b, Running(two, CreatedSecond));
  }

  ghost predicate Diverged(s: State, chat: ChatKey) {
    exists x, y :: x in s.handlers && y in s.handlers && s.handlers[x].phase.Running? && s.handlers[y].phase.Running?
      && ChatOf(s.handlers[x].message) == chat == ChatOf(s.handlers[y].message)
      && s.handlers[x].phase.session != s.handlers[y].phase.session
  }

  // ---- what becomes of a message -------------------------------------------------------------------

  /** From `s` the steps are enabled one after the other and lead to `t`. */
  ghost predicate Plays(s: State, steps: seq<Step>, t: State)
    decreases |steps|
  {
    if steps == [] then s == t else Enabled(s, steps[0]) && Plays(Apply(s, steps[0]), steps[1..], t)
  }

  lemma {:induction false} PlaysOn(s: State, steps: seq<Step>, t: State, step: Step) returns (u: State)
    requires Plays(s, steps, t) && Enabled(t, step)
    ensures u == Apply(t, step) && Plays(s, steps + [step], u)
    decreases |steps|
  {
    u := Apply(t, step);
    if steps == [] {
      assert [] + [step] == [step] && [step][1..] == [];
    } else {
      var v := PlaysOn(Apply(s, steps[0]), steps[1..], t, step);
      assert (steps + [step])[1..] == steps[1..] + [step];
    }
  }

  /** A new message of a known chat reaches the gate in the stored session. */
  lemma ReachesGate(s: State, id: nat, m: Incoming, now: nat) returns (t: State)
    requires id !in s.handlers && KeyOf(m) !in s.dedup
    requires ChatOf(m) in s.chats && s.chats[ChatOf(m)].displayName == m.displayName
    ensures Plays(s, [Arrive(id, m), Claim(id, now), Look(id)], t)
    ensures t == s.(dedup := s.dedup[NativeKey(m.platform, m.messageId) := now],
                    handlers := s.handlers[id := Handler(m, AtGate(s.chats[ChatOf(m)].session, Found))])
  {
    t := PlaysOn(s, [], s, Arrive(id, m));
    t := PlaysOn(s, [Arrive(id, m)], t, Claim(id, now));
    t := PlaysOn(s, [Arrive(id, m), Claim(id, now)], t, Look(id));
  }

  /** When its session is idle it runs there and is answered; the session is active exactly meanwhile. */
  lemma IdleSessionRuns(s: State, id: nat, session: string, origin: Origin) returns (run: State, done: State)
    requires id in s.handlers && s.handlers[id].phase == AtGate(session, origin) && session !in s.active
    ensures Plays(s, [Gate(id, false)], run) && Plays(run, [FinishRun(id), Reply(id)], done)
    ensures run == s.(active := s.active + {session},
                      handlers := s.handlers[id := Handler(s.handlers[id].message, Running(session, origin))])
    ensures done == s.(handlers := s.handlers[id := Handler(s.handlers[id].message, Processed)])
  {
    run := PlaysOn(s, [], s, Gate(id, false));
    done := PlaysOn(run, [], run, FinishRun(id));
    done := PlaysOn(run, [FinishRun(id)], done, Reply(id));
  }

  /** When its session is busy, here or elsewhere, it is queued there once and nothing runs. */
  lemma BusySessionQueues(s: State, id: nat, session: string, origin: Origin, elsewhere: bool) returns (done: State)
    requires id in s.handlers && s.handlers[id].phase == AtGate(session, origin) && (session in s.active || elsewhere)
    ensures Plays(s, [Gate(id, elsewhere), Enqueue(id)], done)
    ensures done == s.(queued := s.queued + [(session, id)],
                       handlers := s.handlers[id := Handler(s.handlers[id].message, Processed)])
  {
    done := PlaysOn(s, [], s, Gate(id, elsewhere));
    done := PlaysOn(s, [Gate(id, elsewhere)], done, Enqueue(id));
  }

  /** A new message of an unknown chat has its session created. */
  lemma UnknownChatCreates(s: State, id: nat, m: Incoming, now: nat) returns (t: State)
    requires id !in s.handlers && KeyOf(m) !in s.dedup && ChatOf(m) !in s.chats
    ensures Plays(s, [Arrive(id, m), Claim(id, now), Look(id)], t)
    ensures t == s.(dedup := s.dedup[KeyOf(m) := now], handlers := s.handlers[id := Handler(m, Creating)])
  {
    t := PlaysOn(s, [], s, Arrive(id, m));
    t := PlaysOn(s, [Arrive(id, m)], t, Claim(id, now));
    t := PlaysOn(s, [Arrive(id, m), Claim(id, now)], t, Look(id));
  }

  /** A new session is stored for the chat that had none. */
  lemma FirstSessionIsStored(s: State, id: nat, session: string) returns (t: State)
    requires id in s.handlers && s.handlers[id].phase == Creating && session !in s.sessions
    requires ChatOf(s.handlers[id].message) !in s.chats
    ensures Plays(s, [Create(id, session), Save(id)], t)
    ensures var m := s.handlers[id].message;
            t == s.(sessions := s.sessions + {session},
                    chats := s.chats[ChatKey(m.platform, m.chatId) := ChatRow(session, m.displayName)],
                    handlers := s.handlers[id := Handler(m, AtGate(session, CreatedFirst))])
  {
    t := PlaysOn(s, [], s, Create(id, session));
    t := PlaysOn(s, [Create(id, session)], t, Save(id));
  }

  /** A message under a new display name stores the name. */
  lemma NewNameRenames(s: State, id: nat, m: Incoming, now: nat) returns (t: State)
    requires id !in s.handlers && KeyOf(m) !in s.dedup
    requires ChatOf(m) in s.chats && s.chats[ChatOf(m)].displayName != m.displayName
    ensures Plays(s, [Arrive(id, m), Claim(id, now), Look(id)], t)
    ensures t == s.(dedup := s.dedup[KeyOf(m) := now],
                    handlers := s.handlers[id := Handler(m, Renaming(s.chats[ChatOf(m)].session))])
  {
    t := PlaysOn(s, [], s, Arrive(id, m));
    t := PlaysOn(s, [Arrive(id, m)], t, Claim(id, now));
    t := PlaysOn(s, [Arrive(id, m), Claim(id, now)], t, Look(id));
  }

  /** The name is stored, and the session stays. */
  lemma NameIsStored(s: State, id: nat, session: string) returns (t: State)
    requires id in s.handlers && s.handlers[id].phase == Renaming(session)
    requires ChatOf(s.handlers[id].message) in s.chats
    ensures Plays(s, [Rename(id)], t)
    ensures var m := s.handlers[id].message;
            t == s.(chats := s.chats[ChatOf(m) := ChatRow(s.chats[ChatOf(m)].session, m.displayName)],
                    handlers := s.handlers[id := Handler(m, AtGate(session, Found))])
  {
    t := PlaysOn(s, [], s, Rename(id));
  }

  /** A delivery of a message whose row is there is a duplicate and changes nothing else. */
  lemma RedeliveryIsDuplicate(s: State, id: nat, m: Incoming, now: nat) returns (t: State)
    requires id !in s.handlers && KeyOf(m) in s.dedup
    ensures Plays(s, [Arrive(id, m), Claim(id, now)], t)
    ensures t == s.(handlers := s.handlers[id := Handler(m, Duplicate)])
  {
    t := PlaysOn(s, [], s, Arrive(id, m));
    t := PlaysOn(s, [Arrive(id, m)], t, Claim(id, now));
  }

  /** A failure before the reply gives the session and then the row back, so that a redelivery is taken up. */
  lemma FailureReleases(s: State, id: nat) returns (t: State)
    requires id in s.handlers && InFlight(s.handlers[id].phase) && !s.handlers[id].phase.Replying?
    ensures Plays(s, [Raise(id), Release(id)], t)
    ensures var h := s.handlers[id];
            t == s.(dedup := s.dedup - {KeyOf(h.message)},
                    active := if h.phase.Running? then s.active - {h.phase.session} else s.active,
                    handlers := s.handlers[id := Handler(h.message, Released)])
  {
    t := PlaysOn(s, [], s, Raise(id));
    t := PlaysOn(s, [Raise(id)], t, Release(id));
  }

  /** Cancellation reaches every handler that has not ended. */
  lemma CancelIsPossible(s: State, id: nat)
    ensures Enabled(s, Cancel(id))
       <==> id in s.handlers
            && match s.handlers[id].phase
               case Claiming => true
               case Looking => true
               case Creating => true
               case Saving(_) => true
               case Renaming(_) => true
               case AtGate(_, _) => true
               case Enqueueing(_, _) => true
               case Running(_, _) => true
               case Replying(_, _) => true
               case Releasing => true
               case _ => false
  {
  }

  /** A cancelled handler gives its session back but keeps the row. */
  lemma CancelKeepsRow(s: State, id: nat)
    requires Enabled(s, Cancel(id))
    ensures var h := s.handlers[id];
            Apply(s, Cancel(id))
            == s.(active := if h.phase.Running? then s.active - {h.phase.session} else s.active,
                  handlers := s.handlers[id := Handler(h.message, Cancelled)])
  {
  }
}
