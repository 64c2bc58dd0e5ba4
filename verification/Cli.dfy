/**
 * The three coroutines of `run_cli`: terminal reader, agent driver and inbox watcher. One step is
 * the code between two suspension points; a queue `get` completes in a step of its own.
 */
module Cli {
  import opened Text

  /** The sentinel string of the watcher. Stripping does not remove NUL, so a user could type it. */
  const WAKE_TEXT := "\U{0}__inbox_wake__\U{0}"

  /** A queued string: the sentinel, or any other line. */
  datatype Line = Wake | Typed(text: string)

  datatype Command = Blank | Exit | ShowQueue | Message(line: Line)

  /** What the reader makes of a raw line. */
  function Parse(raw: string): Command {
    var text := Strip(raw);
    if text == "" then Blank
    else if text == "/exit" || text == "/quit" then Exit
    else if text == "/queue" then ShowQueue
    else if text == WAKE_TEXT then Message(Wake)
    else Message(Typed(text))
  }

  datatype Reader = Reading | Handing(line: Line) | Listing | ReaderDone

  /** `taken` is what the get task has taken and the driver has not yet seen. */
  datatype Driver =
    | Waiting(taken: Option<Line>)
    | InRun(isAnswer: bool)
    | AwaitingAnswer(taken: Option<Line>)
    | DriverDone

  datatype Watcher = Sleeping | Checking | WatcherDone

  /** The shared variables, the three positions, and where accepted lines went. */
  datatype State = State(
    stop: bool, busy: bool, awaiting: bool, newRun: seq<Line>, pendingAnswer: seq<Line>,
    reader: Reader, driver: Driver, watcher: Watcher,
    accepted: multiset<Line>, injected: multiset<Line>, ran: multiset<Line>, dropped: multiset<Line>,
    put: seq<Line>, begun: seq<Line>, woken: nat)

  const INIT := State(false, false, false, [], [], Reading, Waiting(None), Sleeping,
                      multiset{}, multiset{}, multiset{}, multiset{}, [], [], 0)

  datatype Ending = Crashed | Finished | AsksUser

  datatype Step =
    | ReadFails
    | ReadEnds
    | ReadLine(raw: string)
    | HandOver
    | ListQueue
    | Take
    | Begin
    | RunEnds(ending: Ending)
    | TakeAnswer
    | UseAnswer
    | Tick
    | Check(hasPending: bool)
    | Teardown

  predicate Enabled(s: State, step: Step) {
    match step
    case ReadFails => s.reader == Reading
    case ReadEnds => s.reader == Reading
    case ReadLine(_) => s.reader == Reading
    case HandOver => s.reader.Handing?
    case ListQueue => s.reader == Listing
    case Take => s.driver == Waiting(None) && s.newRun != []
    case Begin => s.driver.Waiting? && (s.driver.taken.Some? || s.stop)
    case RunEnds(_) => s.driver.InRun?
    case TakeAnswer => s.driver == AwaitingAnswer(None) && s.pendingAnswer != []
    case UseAnswer => s.driver.AwaitingAnswer? && (s.driver.taken.Some? || s.stop)
    case Tick => s.watcher == Sleeping
    case Check(_) => s.watcher == Checking
    case Teardown => s.reader == ReaderDone || s.driver == DriverDone
  }

  /** The reader's `while` test after a line. */
  function NextRead(s: State): State {
    s.(reader := if s.stop then ReaderDone else Reading)
  }

  function Held(taken: Option<Line>): multiset<Line> {
    if taken.Some? then multiset{taken.value} else multiset{}
  }

  function Route(s: State, line: Line): State {
    var s := s.(accepted := s.accepted + multiset{line});
    if s.awaiting then
      if |s.pendingAnswer| < 1 then NextRead(s.(pendingAnswer := s.pendingAnswer + [line], awaiting := false))
      else s.(reader := Handing(line))
    else if s.busy then s.(reader := Handing(line))
    else NextRead(s.(newRun := s.newRun + [line], put := s.put + [line]))
  }

  function Dispatch(s: State, command: Command): State {
    match command
    case Blank => NextRead(s)
    case Exit => s.(stop := true, reader := ReaderDone)
    case ShowQueue => s.(reader := Listing)
    case Message(line) => Route(s, line)
  }

  /** The `finally` of a driver round, then its `while` test. */
  function EndRound(s: State): State {
    s.(busy := false, awaiting := false, driver := if s.stop then DriverDone else Waiting(None))
  }

  function TakenBy(d: Driver): multiset<Line> {
    if d.Waiting? || d.AwaitingAnswer? then Held(d.taken) else multiset{}
  }

  function HeldBy(r: Reader): multiset<Line> {
    if r.Handing? then multiset{r.line} else multiset{}
  }

  function BeginRound(s: State): State
    requires s.driver.Waiting? && (s.driver.taken.Some? || s.stop)
  {
    if s.stop then s.(driver := DriverDone, dropped := s.dropped + Held(s.driver.taken))
    else
      var message := s.driver.taken.value;
      s.(busy := true, driver := InRun(false), begun := s.begun + [message],
         ran := if message == Wake then s.ran else s.ran + multiset{message})
  }

  function EndRun(s: State, ending: Ending): State
    requires s.driver.InRun?
  {
    if ending == Crashed && s.driver.isAnswer then EndRound(s).(driver := DriverDone)
    else if ending == AsksUser && !s.stop then s.(awaiting := true, driver := AwaitingAnswer(None))
    else EndRound(s)
  }

  function ResumeWithAnswer(s: State): State
    requires s.driver.AwaitingAnswer? && (s.driver.taken.Some? || s.stop)
  {
    if s.stop then EndRound(s).(driver := DriverDone, dropped := s.dropped + Held(s.driver.taken))
    else s.(driver := InRun(true), ran := s.ran + multiset{s.driver.taken.value})
  }

  function WakeUp(s: State): State {
    s.(watcher := if s.stop then WatcherDone else if s.busy || s.awaiting then Sleeping else Checking)
  }

  function CheckInbox(s: State, hasPending: bool): State {
    var s := s.(watcher := if s.stop then WatcherDone else Sleeping);
    if hasPending && s.newRun == [] then s.(newRun := [Wake], put := s.put + [Wake], woken := s.woken + 1) else s
  }

  /** `finally` of `run_cli`: stop, and cancel whatever still runs. */
  function CancelAll(s: State): State {
    s.(stop := true, busy := false, awaiting := false,
       reader := ReaderDone, driver := DriverDone, watcher := WatcherDone,
       dropped := s.dropped + HeldBy(s.reader) + TakenBy(s.driver))
  }

  function Apply(s: State, step: Step): State
    requires Enabled(s, step)
  {
    match step
    case ReadFails => NextRead(s)
    case ReadEnds => s.(stop := true, reader := ReaderDone)
    case ReadLine(raw) => Dispatch(s, Parse(raw))
    case HandOver => NextRead(s.(injected := s.injected + multiset{s.reader.line}))
    case ListQueue => NextRead(s)
    case Take => s.(driver := Waiting(Some(s.newRun[0])), newRun := s.newRun[1..])
    case Begin => BeginRound(s)
    case RunEnds(ending) => EndRun(s, ending)
    case TakeAnswer => s.(driver := AwaitingAnswer(Some(s.pendingAnswer[0])), pendingAnswer := s.pendingAnswer[1..])
    case UseAnswer => ResumeWithAnswer(s)
    case Tick => WakeUp(s)
    case Check(hasPending) => CheckInbox(s, hasPending)
    case Teardown => CancelAll(s)
  }

  // ---- invariants at every suspension point -----------------------------------------

  /** `busy` and `awaiting` mirror the driver's position. */
  predicate FlagsMirrorDriver(s: State) {
    && (s.busy <==> s.driver.InRun? || s.driver.AwaitingAnswer?)
    && (s.awaiting ==> s.driver == AwaitingAnswer(None) && s.pendingAnswer == [])
    && (s.driver == AwaitingAnswer(None) && !s.awaiting ==> |s.pendingAnswer| == 1)
    && (s.pendingAnswer != [] ==> |s.pendingAnswer| == 1 && (s.driver == AwaitingAnswer(None) || s.driver == DriverDone))
  }

  /** How often a line came in: accepted from the user or, for the sentinel, put by the watcher. */
  function Entered(s: State, x: Line): nat {
    s.accepted[x] + (if x == Wake then s.woken else 0)
  }

  /** How often a line is in some place; a sentinel that was begun as a wake stays counted as begun. */
  function Placed(s: State, x: Line): nat {
    multiset(s.newRun)[x] + TakenBy(s.driver)[x] + multiset(s.pendingAnswer)[x] + HeldBy(s.reader)[x]
    + s.injected[x] + s.ran[x] + s.dropped[x] + (if x == Wake then multiset(s.begun)[Wake] else 0)
  }

  /** Every line that came in is in exactly one place. */
  ghost predicate Ledger(s: State) {
    && (forall x :: Entered(s, x) == Placed(s, x))
    && (!s.stop ==> s.dropped == multiset{})
  }

  /** What was put in the new-run queue is begun in the same order, nothing overtaking. */
  predicate FirstInFirstOut(s: State) {
    !s.stop ==> s.put == s.begun + TakenRequest(s.driver) + s.newRun
  }

  function TakenRequest(d: Driver): seq<Line> {
    if d.Waiting? && d.taken.Some? then [d.taken.value] else []
  }

  /** Unless the user typed the sentinel, the queue holds it at most once. */
  predicate OneWake(s: State) {
    Wake !in s.accepted ==> multiset(s.newRun)[Wake] <= 1
  }

  ghost predicate Inv(s: State) {
    FlagsMirrorDriver(s) && Ledger(s) && FirstInFirstOut(s) && OneWake(s)
  }

  lemma FlagsStay(s: State, step: Step)
    requires FlagsMirrorDriver(s) && Enabled(s, step)
    ensures FlagsMirrorDriver(Apply(s, step))
  {
  }

  lemma SeqSplit(q: seq<Line>)
    requires q != []
    ensures multiset(q) == multiset{q[0]} + multiset(q[1..])
  {
    assert q == [q[0]] + q[1..];
  }

  predicate OfReader(step: Step) {
    step.ReadFails? || step.ReadEnds? || step.ReadLine? || step.HandOver? || step.ListQueue?
  }

  predicate OfQueues(step: Step) {
    step.Take? || step.TakeAnswer?
  }

  /** A step moves lines between places, or adds one to a place when it is accepted. */
  ghost predicate Balanced(s: State, t: State, x: Line) {
    Entered(t, x) + Placed(s, x) == Entered(s, x) + Placed(t, x)
  }

  lemma ReaderBalanced(s: State, step: Step, x: Line)
    requires FlagsMirrorDriver(s) && Enabled(s, step) && OfReader(step)
    ensures Balanced(s, Apply(s, step), x)
  {
    if step.ReadLine? {
      DispatchBalanced(s, Parse(step.raw), x);
    }
  }

  lemma DispatchBalanced(s: State, command: Command, x: Line)
    requires FlagsMirrorDriver(s) && s.reader == Reading
    ensures Balanced(s, Dispatch(s, command), x)
  {
    if command.Message? { RouteBalanced(s, command.line, x); }
  }

  lemma RouteBalanced(s: State, line: Line, x: Line)
    requires FlagsMirrorDriver(s) && s.reader == Reading
    ensures Balanced(s, Route(s, line), x)
  {
    assert multiset(s.newRun + [line])[x] == multiset(s.newRun)[x] + multiset{line}[x];
    assert multiset(s.pendingAnswer + [line])[x] == multiset(s.pendingAnswer)[x] + multiset{line}[x];
  }

  lemma QueuesBalanced(s: State, step: Step, x: Line)
    requires Enabled(s, step) && OfQueues(step)
    ensures Balanced(s, Apply(s, step), x)
  {
    if step.Take? {
      SeqSplit(s.newRun);
    } else {
      SeqSplit(s.pendingAnswer);
    }
  }

  lemma StopBalanced(s: State, x: Line)
    requires s.driver.Waiting? && s.stop
    ensures Balanced(s, BeginRound(s), x)
  {
  }

  lemma RunBalanced(s: State, x: Line)
    requires s.driver.Waiting? && s.driver.taken.Some? && !s.stop
    ensures Balanced(s, BeginRound(s), x)
  {
    var message := s.driver.taken.value;
    assert multiset(s.begun + [message])[x] == multiset(s.begun)[x] + multiset{message}[x];
  }

  lemma BeginBalanced(s: State, x: Line)
    requires s.driver.Waiting? && (s.driver.taken.Some? || s.stop)
    ensures Balanced(s, BeginRound(s), x)
  {
    if s.stop { StopBalanced(s, x); } else { RunBalanced(s, x); }
  }

  lemma ResumeBalanced(s: State, x: Line)
    requires s.driver.AwaitingAnswer? && (s.driver.taken.Some? || s.stop)
    ensures Balanced(s, ResumeWithAnswer(s), x)
  {
  }

  lemma CheckBalanced(s: State, hasPending: bool, x: Line)
    ensures Balanced(s, CheckInbox(s, hasPending), x)
  {
  }

  lemma EndBalanced(s: State, ending: Ending, x: Line)
    requires s.driver.InRun?
    ensures Balanced(s, EndRun(s, ending), x)
  {
    EndMovesNothing(s, ending);
    SameLinesBalanced(s, EndRun(s, ending), x);
  }

  lemma EndRoundMovesNothing(s: State)
    requires s.driver.InRun?
    ensures SameLines(s, EndRound(s)) && SameLines(s, EndRound(s).(driver := DriverDone))
  {
  }

  lemma EndMovesNothing(s: State, ending: Ending)
    requires s.driver.InRun?
    ensures SameLines(s, EndRun(s, ending))
  {
    EndRoundMovesNothing(s);
    assert SameLines(s, s.(awaiting := true, driver := AwaitingAnswer(None)));
  }

  /** No line is anywhere else than before. */
  predicate SameLines(s: State, t: State) {
    && s.newRun == t.newRun && s.pendingAnswer == t.pendingAnswer && s.reader == t.reader
    && TakenBy(s.driver) == TakenBy(t.driver) && s.accepted == t.accepted && s.woken == t.woken && s.begun == t.begun
    && s.injected == t.injected && s.ran == t.ran && s.dropped == t.dropped
  }

  lemma SameLinesBalanced(s: State, t: State, x: Line)
    requires SameLines(s, t)
    ensures Balanced(s, t, x)
  {
  }

  lemma TickBalanced(s: State, x: Line)
    ensures Balanced(s, WakeUp(s), x)
  {
  }

  lemma CancelBalanced(s: State, x: Line)
    ensures Balanced(s, CancelAll(s), x)
  {
  }

  lemma OthersBalanced(s: State, step: Step, x: Line)
    requires Enabled(s, step) && !OfReader(step) && !OfQueues(step)
    ensures Balanced(s, Apply(s, step), x)
  {
    match step {
      case Begin => BeginBalanced(s, x);
      case RunEnds(ending) => EndBalanced(s, ending, x);
      case UseAnswer => ResumeBalanced(s, x);
      case Tick => TickBalanced(s, x);
      case Check(hasPending) => CheckBalanced(s, hasPending, x);
      case Teardown => CancelBalanced(s, x);
    }
  }

  lemma LedgerStays(s: State, step: Step)
    requires FlagsMirrorDriver(s) && Ledger(s) && Enabled(s, step)
    ensures Ledger(Apply(s, step))
  {
    forall x ensures Entered(Apply(s, step), x) == Placed(Apply(s, step), x) {
      if OfReader(step) { ReaderBalanced(s, step, x); }
      else if OfQueues(step) { QueuesBalanced(s, step, x); }
      else { OthersBalanced(s, step, x); }
    }
    DroppedOnlyAfterStop(s, step);
  }

  lemma DroppedOnlyAfterStop(s: State, step: Step)
    requires Enabled(s, step) && (!s.stop ==> s.dropped == multiset{})
    ensures !Apply(s, step).stop ==> Apply(s, step).dropped == multiset{}
  {
  }

  lemma PutKeepsOrder(s: State, t: State, more: seq<Line>)
    requires FirstInFirstOut(s) && (!t.stop ==> !s.stop)
    requires t.begun == s.begun && t.driver == s.driver && t.newRun == s.newRun + more && t.put == s.put + more
    ensures FirstInFirstOut(t)
  {
    Regroup(s.begun + TakenRequest(s.driver), s.newRun, more);
  }

  lemma ReadKeepsOrder(s: State, command: Command)
    requires FirstInFirstOut(s)
    ensures FirstInFirstOut(Dispatch(s, command))
  {
    var idle := command.Message? && !s.awaiting && !s.busy;
    var more := if idle then [command.line] else [];
    assert !idle ==> s.newRun + more == s.newRun && s.put + more == s.put;
    PutKeepsOrder(s, Dispatch(s, command), more);
  }

  lemma CheckKeepsOrder(s: State, hasPending: bool)
    requires FirstInFirstOut(s)
    ensures FirstInFirstOut(CheckInbox(s, hasPending))
  {
    var more := if hasPending && s.newRun == [] then [Wake] else [];
    assert more == [] ==> s.newRun + more == s.newRun && s.put + more == s.put;
    assert [] + [Wake] == [Wake];
    PutKeepsOrder(s, CheckInbox(s, hasPending), more);
  }

  lemma TakeKeepsOrder(s: State)
    requires FirstInFirstOut(s) && Enabled(s, Take)
    ensures FirstInFirstOut(Apply(s, Take))
  {
    assert s.begun + [] == s.begun;
    assert s.newRun == [s.newRun[0]] + s.newRun[1..];
    Regroup(s.begun, [s.newRun[0]], s.newRun[1..]);
  }

  lemma QueueOrderStays(s: State, step: Step)
    requires FirstInFirstOut(s) && FlagsMirrorDriver(s) && Enabled(s, step)
    ensures FirstInFirstOut(Apply(s, step))
  {
    match step {
      case Take => TakeKeepsOrder(s);
      case ReadLine(raw) => ReadKeepsOrder(s, Parse(raw));
      case Check(hasPending) => CheckKeepsOrder(s, hasPending);
      case _ =>
    }
  }

  lemma Regroup(a: seq<Line>, b: seq<Line>, c: seq<Line>)
    ensures (a + b) + c == a + (b + c)
  {
  }

  lemma OneWakeStays(s: State, step: Step)
    requires OneWake(s) && Enabled(s, step)
    ensures OneWake(Apply(s, step))
  {
    match step {
      case Take => SeqSplit(s.newRun);
      case ReadLine(raw) => DispatchKeepsOneWake(s, Parse(raw));
      case _ =>
    }
  }

  lemma DispatchKeepsOneWake(s: State, command: Command)
    requires OneWake(s)
    ensures OneWake(Dispatch(s, command))
  {
    if command.Message? {
      assert multiset(s.newRun + [command.line]) == multiset(s.newRun) + multiset{command.line};
    }
  }

  lemma StepKeepsInv(s: State, step: Step)
    requires Inv(s) && Enabled(s, step)
    ensures Inv(Apply(s, step))
  {
    FlagsStay(s, step);
    LedgerStays(s, step);
    QueueOrderStays(s, step);
    OneWakeStays(s, step);
  }

  // ---- whole runs ------------------------------------------------------------------------

  ghost predicate Follows(s: State, step: Step, t: State) {
    Enabled(s, step) && t == Apply(s, step)
  }

  ghost predicate Run(states: seq<State>, steps: seq<Step>) {
    && |states| == |steps| + 1 && states[0] == INIT
    && forall n | 0 <= n < |steps| :: Follows(states[n], steps[n], states[n + 1])
  }

  lemma {:induction false} RunsKeepInv(states: seq<State>, steps: seq<Step>, n: nat)
    requires Run(states, steps) && n < |states|
    ensures Inv(states[n])
  {
    if n > 0 {
      RunsKeepInv(states, steps, n - 1);
      assert Follows(states[n - 1], steps[n - 1], states[n]);
      StepKeepsInv(states[n - 1], steps[n - 1]);
    }
  }

  /** Awaiting an answer implies busy, and finds the one-element answer queue empty. */
  lemma AwaitingMeansBusyAndEmpty(states: seq<State>, steps: seq<Step>, n: nat)
    requires Run(states, steps) && n < |states| && states[n].awaiting
    ensures states[n].busy && states[n].pendingAnswer == []
  {
    RunsKeepInv(states, steps, n);
  }

  /** The `QueueFull` branch is unreachable: a line typed while awaiting always becomes the answer. */
  lemma TypedAnswerIsDelivered(states: seq<State>, steps: seq<Step>, n: nat, raw: string)
    requires Run(states, steps) && n < |states|
    requires states[n].awaiting && states[n].reader == Reading
    requires Parse(raw).Message?
    ensures var t := Apply(states[n], ReadLine(raw));
            t.pendingAnswer == [Parse(raw).line] && !t.awaiting && !t.reader.Handing?
  {
    RunsKeepInv(states, steps, n);
  }

  /** The driver hands a delivered answer, and no other text, to the paused run. */
  lemma AnswerReachesTheRun(states: seq<State>, steps: seq<Step>, n: nat)
    requires Run(states, steps) && n < |states|
    requires states[n].driver == AwaitingAnswer(None) && !states[n].awaiting && !states[n].stop
    ensures |states[n].pendingAnswer| == 1 && Enabled(states[n], TakeAnswer)
    ensures var t := Apply(states[n], TakeAnswer);
            && Enabled(t, UseAnswer)
            && Apply(t, UseAnswer).ran == states[n].ran + multiset{states[n].pendingAnswer[0]}
            && Apply(t, UseAnswer).driver == InRun(true)
  {
    RunsKeepInv(states, steps, n);
  }

  /**
   * Until stop, every line that came in is in exactly one place, counted with multiplicity; for the sentinel
   * this counts the watcher's wakes as coming in and the begun wakes as a place.
   */
  lemma LinesAreConserved(states: seq<State>, steps: seq<Step>, n: nat, x: Line)
    requires Run(states, steps) && n < |states| && !states[n].stop
    ensures var s := states[n];
            s.accepted[x] + (if x == Wake then s.woken else 0)
            == multiset(s.newRun)[x] + TakenBy(s.driver)[x] + multiset(s.pendingAnswer)[x]
               + HeldBy(s.reader)[x] + s.injected[x] + s.ran[x] + (if x == Wake then multiset(s.begun)[Wake] else 0)
  {
    RunsKeepInv(states, steps, n);
    assert Entered(states[n], x) == Placed(states[n], x);
  }

  /** Runs begin in the order their requests were queued. */
  lemma RunsBeginInOrder(states: seq<State>, steps: seq<Step>, n: nat)
    requires Run(states, steps) && n < |states| && !states[n].stop
    ensures states[n].begun <= states[n].put
  {
    RunsKeepInv(states, steps, n);
  }

  lemma AtMostOneWakeQueued(states: seq<State>, steps: seq<Step>, n: nat)
    requires Run(states, steps) && n < |states| && Wake !in states[n].accepted
    ensures multiset(states[n].newRun)[Wake] <= 1
  {
    RunsKeepInv(states, steps, n);
  }

  // ---- what a user sees ------------------------------------------------------------------

  ghost predicate Reachable(s: State) {
    exists states: seq<State>, steps: seq<Step> :: Run(states, steps) && states[|states| - 1] == s
  }

  lemma ReachableInv(s: State)
    requires Reachable(s)
    ensures Inv(s)
  {
    var states: seq<State>, steps: seq<Step> :| Run(states, steps) && states[|states| - 1] == s;
    RunsKeepInv(states, steps, |states| - 1);
  }

  lemma InitIsReachable()
    ensures Reachable(INIT)
  {
    assert Run([INIT], []) && [INIT][|[INIT]| - 1] == INIT;
  }

  lemma ReachStep(s: State, step: Step) returns (t: State)
    requires Reachable(s) && Enabled(s, step)
    ensures t == Apply(s, step) && Reachable(t)
  {
    t := Apply(s, step);
    var states: seq<State>, steps: seq<Step> :| Run(states, steps) && states[|states| - 1] == s;
    var states', steps' := states + [t], steps + [step];
    forall n | 0 <= n < |steps'| ensures Follows(states'[n], steps'[n], states'[n + 1]) {
      if n < |steps| { assert Follows(states[n], steps[n], states[n + 1]); }
    }
    assert Run(states', steps');
  }

  /** The text of a message: neither blank nor a command. */
  predicate IsMessage(raw: string) {
    Strip(raw) != "" && Strip(raw) != "/exit" && Strip(raw) != "/quit" && Strip(raw) != "/queue"
  }

  function LineOf(raw: string): Line {
    if Strip(raw) == "\U{0}__inbox_wake__\U{0}" then Wake else Typed(Strip(raw))
  }

  /**
   * A typed message goes to the paused run when one awaits an answer, to the input queue when a run is
   * busy, and else starts a new run.
   */
  lemma TypedMessageGoes(s: State, raw: string)
    requires Reachable(s) && s.reader == Reading && IsMessage(raw)
    ensures var t, line := Apply(s, ReadLine(raw)), LineOf(raw);
            && t.accepted == s.accepted + multiset{line}
            && t.stop == s.stop && t.busy == s.busy && t.driver == s.driver && t.injected == s.injected && t.ran == s.ran
            && (s.awaiting ==> t.pendingAnswer == [line] && !t.awaiting && t.newRun == s.newRun && !t.reader.Handing?)
            && (!s.awaiting && s.busy ==>
                  t.reader == Handing(line) && t.newRun == s.newRun && t.pendingAnswer == s.pendingAnswer
                  && Enabled(t, HandOver) && Apply(t, HandOver).injected == s.injected + multiset{line})
            && (!s.awaiting && !s.busy ==>
                  t.newRun == s.newRun + [line] && t.pendingAnswer == s.pendingAnswer && !t.reader.Handing?)
  {
    ReachableInv(s);
  }

  /** `/exit` and `/quit` stop the reader and everybody else at their next test; other input changes nothing. */
  lemma CommandsDo(s: State, raw: string)
    requires s.reader == Reading && !IsMessage(raw)
    ensures var t, leaves := Apply(s, ReadLine(raw)), Strip(raw) == "/exit" || Strip(raw) == "/quit";
            && (leaves ==> t == s.(stop := true, reader := ReaderDone))
            && (!leaves ==> t == s.(reader := t.reader))
            && (!leaves && Strip(raw) == "" ==> t.reader == if s.stop then ReaderDone else Reading)
            && (!leaves && Strip(raw) == "/queue" ==> t.reader == Listing)
  {
  }

  /** Everybody starts idle; a waiting reader may get a line, an error or the end of input, which stops all. */
  lemma ReaderMayGet(s: State, raw: string)
    requires s.reader == Reading
    ensures Enabled(s, ReadFails) && Enabled(s, ReadEnds) && Enabled(s, ReadLine(raw))
    ensures Apply(s, ReadEnds) == s.(stop := true, reader := ReaderDone)
    ensures INIT.reader == Reading && INIT.driver == Waiting(None) && INIT.watcher == Sleeping && !INIT.stop
  {
  }

  /** The session is torn down when its reader or its driver has ended, and everything stops then. */
  lemma TeardownStopsAll(s: State)
    ensures s.reader == Listing ==> Enabled(s, ListQueue)
    ensures Enabled(s, Teardown) <==> s.reader == ReaderDone || s.driver == DriverDone
    ensures Enabled(s, Teardown) ==>
              var t := Apply(s, Teardown);
              && t.stop && !t.busy && !t.awaiting
              && t.reader == ReaderDone && t.driver == DriverDone && t.watcher == WatcherDone
  {
  }

  /** A reader that goes on tests stop first. */
  lemma ReaderGoesOn(s: State, step: Step)
    requires Enabled(s, step) && (step.ReadFails? || step.HandOver? || step.ListQueue?)
    ensures Apply(s, step).reader == if s.stop then ReaderDone else Reading
    ensures Apply(s, step).stop == s.stop
    ensures step.HandOver? ==> Apply(s, step).injected == s.injected + multiset{s.reader.line}
  {
  }

  /** A run that asks is paused: the driver awaits one answer, and stays busy meanwhile. */
  lemma AskingPauses(s: State)
    requires Reachable(s) && s.driver.InRun? && !s.stop
    ensures Apply(s, RunEnds(AsksUser)) == s.(awaiting := true, driver := AwaitingAnswer(None))
    ensures var t := Apply(s, RunEnds(AsksUser)); t.busy && t.pendingAnswer == []
  {
    ReachableInv(s);
  }

  /** The message typed next reaches the paused run, and neither queue. */
  lemma NextMessageAnswers(s: State, raw: string)
    requires Reachable(s) && s.awaiting && !s.stop && s.reader == Reading && IsMessage(raw)
    ensures var read := Apply(s, ReadLine(raw));
            && Enabled(read, TakeAnswer)
            && var took := Apply(read, TakeAnswer);
               && Enabled(took, UseAnswer)
               && var resumed := Apply(took, UseAnswer);
                  && resumed.driver == InRun(true) && resumed.busy && !resumed.awaiting && resumed.pendingAnswer == []
                  && resumed.ran == s.ran + multiset{LineOf(raw)}
                  && resumed.newRun == s.newRun && resumed.injected == s.injected
  {
    ReachableInv(s);
  }

  /** Otherwise the round ends; a crash ends the driver exactly after an answer, and stop ends it always. */
  lemma RunEndsElse(s: State, ending: Ending)
    requires s.driver.InRun? && (ending == AsksUser ==> s.stop)
    ensures var t := Apply(s, RunEnds(ending));
            && t == s.(busy := false, awaiting := false, driver := t.driver)
            && (t.driver == DriverDone || t.driver == Waiting(None))
            && (t.driver == DriverDone <==> s.stop || (ending == Crashed && s.driver.isAnswer))
  {
  }

  /** The driver begins what it took, and a stopped driver takes up nothing more. */
  lemma BeginDoes(s: State)
    requires Enabled(s, Begin)
    ensures s.stop ==> Apply(s, Begin).driver == DriverDone && Apply(s, Begin).begun == s.begun
    ensures !s.stop ==>
              var t := Apply(s, Begin);
              && t.busy && t.driver == InRun(false) && t.begun == s.begun + [s.driver.taken.value]
              && t.ran == s.ran + (if s.driver.taken.value == Wake then multiset{} else multiset{s.driver.taken.value})
  {
  }

  lemma StopEndsPause(s: State)
    requires Enabled(s, UseAnswer) && s.stop
    ensures var t := Apply(s, UseAnswer); t.driver == DriverDone && !t.busy && !t.awaiting && t.ran == s.ran
  {
  }

  /** The watcher looks only while the agent is idle, and wakes it only through an empty queue. */
  lemma WatcherWakesIdle(s: State, hasPending: bool)
    ensures s.watcher == Sleeping ==>
              Apply(s, Tick)
              == s.(watcher := if s.stop then WatcherDone else if s.busy || s.awaiting then Sleeping else Checking)
    ensures s.watcher == Checking ==>
              var t := Apply(s, Check(hasPending));
              && t.watcher == (if s.stop then WatcherDone else Sleeping)
              && (if hasPending && s.newRun == [] then t.newRun == [Wake] && t.woken == s.woken + 1
                  else t == s.(watcher := t.watcher))
  {
  }

  /** A state that awaits an answer is reachable from every first message. */
  lemma AwaitingIsReachable(raw: string) returns (s: State)
    requires IsMessage(raw)
    ensures Reachable(s) && s.awaiting && !s.stop && s.reader == Reading
    ensures s.begun == [LineOf(raw)] && s.newRun == []
  {
    InitIsReachable();
    s := ReachStep(INIT, ReadLine(raw));
    s := ReachStep(s, Take);
    s := ReachStep(s, Begin);
    s := ReachStep(s, RunEnds(AsksUser));
  }

  /** A typed sentinel is accepted, begun as a wake, and its text reaches neither a run nor the input queue. */
  lemma TypedSentinelIsLost()
    ensures Parse(WAKE_TEXT) == Message(Wake)
    ensures var s := Dispatch(INIT, Message(Wake));
            && s.accepted == multiset{Wake} && Enabled(s, Take)
            && Enabled(Apply(s, Take), Begin)
            && var t := Apply(Apply(s, Take), Begin);
               t.begun == [Wake] && t.ran == multiset{} && t.injected == multiset{} && t.newRun == []
  {
    assert !IsSpace(WAKE_TEXT[0]) && !IsSpace(WAKE_TEXT[|WAKE_TEXT| - 1]);
    assert WAKE_TEXT[0] == '\U{0}';
    assert Strip(WAKE_TEXT) == WAKE_TEXT;
  }
}
