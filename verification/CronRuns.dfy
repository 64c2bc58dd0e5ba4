/**
 * The cron store under every interleaving. Creating and deleting are single statements; the other calls
 * read a job in one step and write it in a later one, with no transaction around the two.
 */
module CronRuns {
  import opened Text
  import opened Cron

  /** A call that has read its job; it writes what it planned from what it saw. */
  datatype Ongoing = Ongoing(call: Call, seen: Job, open: bool)

  /** `used` records every id ever created. */
  datatype State = State(jobs: Jobs, calls: map<nat, Ongoing>, used: set<string>)

  const INIT := State(map[], map[], {})

  datatype Step =
    | Create(id: string, job: Job)
    | Delete(id: string)
    | Read(n: nat, call: Call)
    | Write(n: nat)

  /** The row is what some `create_job` inserts. */
  ghost predicate Creatable(c: Clockwork, job: Job) {
    exists now, session, agent, name, prompt, s :: Created(c, now, session, agent, name, prompt, s) == Ok(job)
  }

  /** Ids are fresh random numbers. */
  ghost predicate Enabled(c: Clockwork, s: State, step: Step) {
    match step
    case Create(id, job) => id !in s.used && Creatable(c, job)
    case Delete(_) => true
    case Read(n, _) => n !in s.calls
    case Write(n) => n in s.calls && s.calls[n].open
  }

  /** A read that raises, or after which nothing is written, leaves no call behind. */
  function Apply(c: Clockwork, s: State, step: Step): State {
    match step
    case Create(id, job) => s.(jobs := s.jobs[id := job], used := s.used + {id})
    case Delete(id) => s.(jobs := s.jobs - {id})
    case Read(n, call) =>
      if call.id in s.jobs && PlannedPatch(c, call, s.jobs[call.id]).Some?
      then s.(calls := s.calls[n := Ongoing(call, s.jobs[call.id], true)]) else s
    case Write(n) =>
      if n !in s.calls then s
      else
        var ongoing := s.calls[n];
        var patch := PlannedPatch(c, ongoing.call, ongoing.seen);
        s.(jobs := if patch == None then s.jobs else Landed(s.jobs, ongoing.call.id, patch.value),
           calls := s.calls[n := ongoing.(open := false)])
  }

  /** A write that follows its read at once is the uninterrupted call. */
  lemma ReadThenWrite(c: Clockwork, s: State, n: nat, call: Call)
    requires n !in s.calls
    ensures var read := Apply(c, s, Read(n, call));
            (if n in read.calls then Apply(c, read, Write(n)) else read).jobs == Uninterrupted(c, s.jobs, call)
  {
  }

  /** A call that has planned a write makes it once. */
  lemma WritesOnce(c: Clockwork, s: State, n: nat, call: Call)
    requires n !in s.calls && call.id in s.jobs && PlannedPatch(c, call, s.jobs[call.id]).Some?
    ensures var read := Apply(c, s, Read(n, call));
            && Enabled(c, read, Write(n))
            && !Enabled(c, Apply(c, read, Write(n)), Write(n)) && !Enabled(c, Apply(c, read, Write(n)), Read(n, call))
  {
  }

  // ---- runs ---------------------------------------------------------------------------------------------

  ghost predicate Follows(c: Clockwork, s: State, step: Step, t: State) {
    Enabled(c, s, step) && t == Apply(c, s, step)
  }

  /** The states of a run of enabled steps from the empty store. */
  ghost predicate Run(c: Clockwork, states: seq<State>, steps: seq<Step>) {
    && |states| == |steps| + 1 && states[0] == INIT
    && forall n | 0 <= n < |steps| :: Follows(c, states[n], steps[n], states[n + 1])
  }

  /** An active job has a next run. */
  predicate Armed(job: Job) {
    job.status == ACTIVE ==> job.nextRun.Some?
  }

  ghost predicate JobsArmed(s: State) {
    forall id | id in s.jobs :: Armed(s.jobs[id]) && id in s.used
  }

  ghost predicate CallsArmed(c: Clockwork, s: State) {
    forall n | n in s.calls :: Armed(s.calls[n].seen) && PlannedPatch(c, s.calls[n].call, s.calls[n].seen).Some?
  }

  ghost predicate Inv(c: Clockwork, s: State) {
    JobsArmed(s) && CallsArmed(c, s)
  }

  /** Every write sets the status and the next run together, both from the same read. */
  lemma PatchArms(c: Clockwork, call: Call, seen: Job, job: Job)
    requires Armed(seen) && PlannedPatch(c, call, seen).Some?
    ensures Armed(Patched(PlannedPatch(c, call, seen).value, job))
  {
  }

  lemma CreatableIs(c: Clockwork, job: Job)
    requires Creatable(c, job)
    ensures job.status == ACTIVE && job.nextRun.Some? && job.name != "" && job.prompt != "" && job.schedule.value != ""
  {
  }

  lemma StepKeepsInv(c: Clockwork, s: State, step: Step)
    requires Inv(c, s) && Enabled(c, s, step)
    ensures Inv(c, Apply(c, s, step))
  {
    match step {
      case Create(id, job) => CreatableIs(c, job);
      case Delete(_) =>
      case Read(_, _) =>
      case Write(n) =>
        var ongoing := s.calls[n];
        if ongoing.call.id in s.jobs { PatchArms(c, ongoing.call, ongoing.seen, s.jobs[ongoing.call.id]); }
    }
  }

  lemma {:induction false} RunsKeepInv(c: Clockwork, states: seq<State>, steps: seq<Step>, n: nat)
    requires Run(c, states, steps) && n < |states|
    ensures Inv(c, states[n])
  {
    if n > 0 {
      RunsKeepInv(c, states, steps, n - 1);
      assert Follows(c, states[n - 1], steps[n - 1], states[n]);
      StepKeepsInv(c, states[n - 1], steps[n - 1]);
    }
  }

  /** However the calls overlap, an active job always has a next run. */
  lemma ActiveHasNextRun(c: Clockwork, states: seq<State>, steps: seq<Step>, n: nat, id: string)
    requires Run(c, states, steps) && n < |states| && id in states[n].jobs && states[n].jobs[id].status == ACTIVE
    ensures states[n].jobs[id].nextRun.Some?
  {
    RunsKeepInv(c, states, steps, n);
    assert Armed(states[n].jobs[id]);
  }

  // ---- completed jobs -----------------------------------------------------------------------------------

  predicate IsCompleted(s: State, id: string) {
    id in s.jobs && s.jobs[id].status == COMPLETED
  }

  /** `update_job` is asked for another status than COMPLETED. */
  predicate Reopens(call: Call) {
    call.Update? && call.change.status.Given? && call.change.status.value != COMPLETED
  }

  /** A call that saw a job not completed, and neither completes it nor is told its status, writes it back so. */
  predicate Revives(call: Call, seen: Job) {
    match call
    case Update(_, _, change) => (if change.status.Given? then change.status.value else seen.status) != COMPLETED
    case Succeed(_, _) => seen.schedule.kind == CRON && seen.status != COMPLETED
    case Fail(_, _, _) => seen.status != COMPLETED
  }

  predicate Writes(s: State, step: Step, id: string) {
    step.Write? && step.n in s.calls && s.calls[step.n].call.id == id
  }

  predicate TakesOut(s: State, step: Step, id: string) {
    || (step.Delete? && step.id == id)
    || (Writes(s, step, id) && Revives(s.calls[step.n].call, s.calls[step.n].seen))
  }

  /**
   * The step deletes the job, reopens it by a call that read it in or after `start`, or writes it back
   * by a call that read it before.
   */
  predicate TakesOutSince(start: State, s: State, step: Step, id: string) {
    || (step.Delete? && step.id == id)
    || (Writes(s, step, id)
        && if step.n in start.calls then Revives(s.calls[step.n].call, s.calls[step.n].seen)
           else Reopens(s.calls[step.n].call))
  }

  lemma PatchRevivesIff(c: Clockwork, call: Call, seen: Job, job: Job)
    requires PlannedPatch(c, call, seen).Some?
    ensures Patched(PlannedPatch(c, call, seen).value, job).status != COMPLETED <==> Revives(call, seen)
  {
  }

  lemma CompletedStepIff(c: Clockwork, s: State, step: Step, id: string)
    requires Inv(c, s) && Enabled(c, s, step) && IsCompleted(s, id)
    ensures IsCompleted(Apply(c, s, step), id) <==> !TakesOut(s, step, id)
  {
    if Writes(s, step, id) {
      PatchRevivesIff(c, s.calls[step.n].call, s.calls[step.n].seen, s.jobs[id]);
    }
  }

  /** Calls that read the job in or after `start` saw it completed. */
  ghost predicate SeenCompleted(start: State, s: State, id: string) {
    forall n | n in s.calls && n !in start.calls && s.calls[n].call.id == id :: s.calls[n].seen.status == COMPLETED
  }

  lemma SeenCompletedStays(c: Clockwork, start: State, s: State, step: Step, id: string)
    requires SeenCompleted(start, s, id) && Enabled(c, s, step) && IsCompleted(s, id)
    ensures SeenCompleted(start, Apply(c, s, step), id)
  {
  }

  lemma SinceIff(c: Clockwork, start: State, s: State, step: Step, id: string)
    requires Inv(c, s) && SeenCompleted(start, s, id)
    ensures TakesOut(s, step, id) <==> TakesOutSince(start, s, step, id)
  {
    if Writes(s, step, id) && step.n !in start.calls {
      var ongoing := s.calls[step.n];
      assert ongoing.seen.status == COMPLETED && PlannedPatch(c, ongoing.call, ongoing.seen).Some?;
    }
  }

  ghost predicate CompletedThrough(states: seq<State>, n: nat, k: nat, id: string)
    requires k < |states|
  {
    forall m | n <= m <= k :: IsCompleted(states[m], id)
  }

  ghost predicate NotTakenOut(states: seq<State>, steps: seq<Step>, n: nat, k: nat, id: string)
    requires n <= k <= |steps| && k < |states|
  {
    forall m | n <= m < k :: !TakesOutSince(states[n], states[m], steps[m], id)
  }

  lemma {:induction false} CompletedSeen(c: Clockwork, states: seq<State>, steps: seq<Step>, n: nat, k: nat, id: string)
    requires Run(c, states, steps) && n <= k < |states| && CompletedThrough(states, n, k, id)
    ensures SeenCompleted(states[n], states[k], id)
    decreases k
  {
    if n < k {
      CompletedSeen(c, states, steps, n, k - 1, id);
      assert Follows(c, states[k - 1], steps[k - 1], states[k]);
      SeenCompletedStays(c, states[n], states[k - 1], steps[k - 1], id);
    }
  }

  lemma LastStepIff(c: Clockwork, states: seq<State>, steps: seq<Step>, n: nat, k: nat, id: string)
    requires Run(c, states, steps) && n < k < |states| && CompletedThrough(states, n, k - 1, id)
    ensures IsCompleted(states[k], id) <==> !TakesOutSince(states[n], states[k - 1], steps[k - 1], id)
  {
    CompletedSeen(c, states, steps, n, k - 1, id);
    RunsKeepInv(c, states, steps, k - 1);
    assert Follows(c, states[k - 1], steps[k - 1], states[k]);
    CompletedStepIff(c, states[k - 1], steps[k - 1], id);
    SinceIff(c, states[n], states[k - 1], steps[k - 1], id);
  }

  /**
   * A completed job stays completed if and only if it is not deleted, no call that reads it from then on
   * reopens it, and no call that read it before writes another status back.
   */
  lemma {:induction false} CompletedStaysIff(c: Clockwork, states: seq<State>, steps: seq<Step>, n: nat, k: nat, id: string)
    requires Run(c, states, steps) && n <= k < |states| && IsCompleted(states[n], id)
    ensures CompletedThrough(states, n, k, id) <==> NotTakenOut(states, steps, n, k, id)
    decreases k
  {
    if n < k {
      CompletedStaysIff(c, states, steps, n, k - 1, id);
      if CompletedThrough(states, n, k - 1, id) { LastStepIff(c, states, steps, n, k, id); }
    }
  }

  /** As long as that holds the job is due at no time. */
  lemma CompletedIsNotDue(c: Clockwork, states: seq<State>, steps: seq<Step>, n: nat, k: nat, id: string, now: Time)
    requires Run(c, states, steps) && n <= k < |states| && IsCompleted(states[n], id)
    requires NotTakenOut(states, steps, n, k, id)
    ensures IsCompleted(states[k], id) && id !in Due(states[k].jobs, now)
  {
    CompletedStaysIff(c, states, steps, n, k, id);
  }

  /** A call that read a completed job and reopens it makes it due only later than the call. */
  lemma ReopenedIsDueLater(c: Clockwork, call: Call, seen: Job, job: Job, now: Time)
    requires Forward(c) && seen.status == COMPLETED && Reopens(call) && PlannedPatch(c, call, seen).Some?
    ensures var after := Patched(PlannedPatch(c, call, seen).value, job);
            && after.status == call.change.status.value
            && (IsDue(after, now) ==> call.at < now)
  {
    UpdatedNextRun(c, call.at, seen, call.change);
  }

  // ---- completed one-time jobs and next runs ---------------------------------------------------------------

  /** A completed one-time job has no next run. */
  predicate Finished(job: Job) {
    job.status == COMPLETED && job.schedule.kind == ONCE ==> job.nextRun == None
  }

  predicate FinishedIn(s: State, id: string) {
    id in s.jobs ==> Finished(s.jobs[id])
  }

  /** A success recorded for a completed recurring job lands after an update has made the job a one-time one. */
  predicate Clashes(s: State, step: Step, id: string) {
    Writes(s, step, id) && id in s.jobs && s.jobs[id].schedule.kind == ONCE
    && var ongoing := s.calls[step.n];
       ongoing.call.Succeed? && ongoing.seen.schedule.kind == CRON && ongoing.seen.status == COMPLETED
  }

  lemma PatchFinishedIff(c: Clockwork, call: Call, seen: Job, job: Job)
    requires PlannedPatch(c, call, seen).Some?
    ensures Finished(Patched(PlannedPatch(c, call, seen).value, job))
       <==> !(job.schedule.kind == ONCE && call.Succeed? && seen.schedule.kind == CRON && seen.status == COMPLETED)
  {
  }

  lemma FinishedStepIff(c: Clockwork, s: State, step: Step, id: string)
    requires Inv(c, s) && Enabled(c, s, step) && FinishedIn(s, id)
    ensures FinishedIn(Apply(c, s, step), id) <==> !Clashes(s, step, id)
  {
    if step.Create? { CreatableIs(c, step.job); }
    if Writes(s, step, id) && id in s.jobs {
      PatchFinishedIff(c, s.calls[step.n].call, s.calls[step.n].seen, s.jobs[id]);
    }
  }

  ghost predicate FinishedThrough(states: seq<State>, k: nat, id: string)
    requires k < |states|
  {
    forall m | 0 <= m <= k :: FinishedIn(states[m], id)
  }

  ghost predicate NeverClashes(states: seq<State>, steps: seq<Step>, k: nat, id: string)
    requires k <= |steps| && k < |states|
  {
    forall m | 0 <= m < k :: !Clashes(states[m], steps[m], id)
  }

  /** Completed one-time jobs have no next run exactly until such a write. */
  lemma {:induction false} FinishedUnlessClash(c: Clockwork, states: seq<State>, steps: seq<Step>, k: nat, id: string)
    requires Run(c, states, steps) && k < |states|
    ensures FinishedThrough(states, k, id) <==> NeverClashes(states, steps, k, id)
  {
    if k > 0 {
      FinishedUnlessClash(c, states, steps, k - 1, id);
      RunsKeepInv(c, states, steps, k - 1);
      assert Follows(c, states[k - 1], steps[k - 1], states[k]);
      if FinishedThrough(states, k - 1, id) { FinishedStepIff(c, states[k - 1], steps[k - 1], id); }
    }
  }

  // ---- overlapping calls that do harm ------------------------------------------------------------------------

  ghost predicate Reachable(c: Clockwork, s: State) {
    exists states: seq<State>, steps: seq<Step> :: Run(c, states, steps) && states[|states| - 1] == s
  }

  lemma ReachStep(c: Clockwork, s: State, step: Step) returns (t: State)
    requires Reachable(c, s) && Enabled(c, s, step)
    ensures t == Apply(c, s, step) && Reachable(c, t)
  {
    t := Apply(c, s, step);
    var states: seq<State>, steps: seq<Step> :| Run(c, states, steps) && states[|states| - 1] == s;
    var states', steps' := states + [t], steps + [step];
    forall n | 0 <= n < |steps'| ensures Follows(c, states'[n], steps'[n], states'[n + 1]) {
      if n < |steps| { assert Follows(c, states[n], steps[n], states[n + 1]); }
    }
    assert Run(c, states', steps');
  }

  lemma OneJob(c: Clockwork, id: string, job: Job) returns (s: State)
    requires Creatable(c, job)
    ensures Reachable(c, s) && s == State(map[id := job], map[], {id})
  {
    assert Run(c, [INIT], []) && [INIT][|[INIT]| - 1] == INIT;
    s := ReachStep(c, INIT, Create(id, job));
  }

  /** A rename that overlaps the success of a due one-time job makes the job that just ran due again. */
  lemma RenameRevives(c: Clockwork, id: string, job: Job, name: string, at: Time, ranAt: Time)
    returns (before: State, after: State)
    requires Creatable(c, job) && job.schedule.kind == ONCE && job.schedule.timezone != "" && Strip(name) != ""
    requires job.nextRun.value <= ranAt
    ensures Reachable(c, before) && IsCompleted(before, id)
    ensures Reachable(c, after) && after == Apply(c, before, Write(0)) && 0 in before.calls
    ensures Writes(before, Write(0), id) && !Reopens(before.calls[0].call)
    ensures after.jobs[id] == job.(name := Strip(name), lastRun := Some(ranAt)) && id in Due(after.jobs, ranAt)
  {
    CreatableIs(c, job);
    var rename := Update(id, at, Change(Given(name), Unset, Unset, Unset, Unset, Unset));
    var s := OneJob(c, id, job);
    s := ReachStep(c, s, Read(0, rename));
    s := ReachStep(c, s, Read(1, Succeed(id, ranAt)));
    before := ReachStep(c, s, Write(1));
    after := ReachStep(c, before, Write(0));
  }

  /** A failed dispatch that overlaps an update which completes the job makes the job active again. */
  lemma FailureRevives(c: Clockwork, id: string, job: Job, at: Time, error: string, retryAt: Time)
    returns (before: State, after: State)
    requires Creatable(c, job) && job.schedule.timezone != ""
    ensures Reachable(c, before) && IsCompleted(before, id)
    ensures Reachable(c, after) && after == Apply(c, before, Write(0)) && 0 in before.calls
    ensures Writes(before, Write(0), id) && before.calls[0].call == Fail(id, error, retryAt)
    ensures id in Due(after.jobs, retryAt)
  {
    CreatableIs(c, job);
    var complete := Update(id, at, Change(Unset, Unset, Unset, Unset, Unset, Given(COMPLETED)));
    var s := OneJob(c, id, job);
    s := ReachStep(c, s, Read(0, Fail(id, error, retryAt)));
    s := ReachStep(c, s, Read(1, complete));
    before := ReachStep(c, s, Write(1));
    after := ReachStep(c, before, Write(0));
  }

  /** The clash is real: a completed one-time job with a next run is reachable. */
  lemma SuccessLeavesNextRun(c: Clockwork, id: string, job: Job, at: Time, ranAt: Time)
    returns (before: State, after: State)
    requires Creatable(c, job) && job.schedule.kind == CRON && job.schedule.timezone != ""
    requires NextRun(c, job.schedule, ranAt).Ok?
    ensures Reachable(c, before) && Clashes(before, Write(1), id)
    ensures Reachable(c, after) && after == Apply(c, before, Write(1)) && IsCompleted(after, id)
    ensures after.jobs[id].schedule.kind == ONCE && after.jobs[id].nextRun.Some?
  {
    CreatableIs(c, job);
    var complete := Update(id, at, Change(Unset, Unset, Unset, Unset, Unset, Given(COMPLETED)));
    var once := Update(id, at, Change(Unset, Unset, Given(ONCE), Unset, Unset, Unset));
    var s := OneJob(c, id, job);
    s := ReachStep(c, s, Read(0, complete));
    s := ReachStep(c, s, Write(0));
    s := ReachStep(c, s, Read(1, Succeed(id, ranAt)));
    s := ReachStep(c, s, Read(2, once));
    before := ReachStep(c, s, Write(2));
    after := ReachStep(c, before, Write(1));
  }

  /** Even without overlaps a success that comes after the completion gives a recurring job a next run. */
  lemma LateSuccessSchedules(c: Clockwork, id: string, job: Job, at: Time, ranAt: Time) returns (s: State)
    requires Creatable(c, job) && job.schedule.kind == CRON && job.schedule.timezone != ""
    requires NextRun(c, job.schedule, ranAt).Ok?
    ensures Reachable(c, s) && IsCompleted(s, id) && s.jobs[id].nextRun.Some?
  {
    CreatableIs(c, job);
    s := OneJob(c, id, job);
    s := WholeCall(c, s, 0, Update(id, at, Change(Unset, Unset, Unset, Unset, Unset, Given(COMPLETED))));
    s := WholeCall(c, s, 1, Succeed(id, ranAt));
  }

  lemma PausedJob(c: Clockwork, id: string, job: Job, at: Time) returns (s: State)
    requires Creatable(c, job) && job.schedule.timezone != ""
    ensures Reachable(c, s) && s.calls.Keys == {0} && id in s.jobs && s.jobs[id].status == PAUSED
  {
    CreatableIs(c, job);
    s := OneJob(c, id, job);
    s := WholeCall(c, s, 0, Update(id, at, Change(Unset, Unset, Unset, Unset, Unset, Given(PAUSED))));
  }

  /** Even without overlaps a failure makes a paused job active: `before` has it paused, `after` due. */
  lemma FailureActivates(c: Clockwork, id: string, job: Job, at: Time, error: string, retryAt: Time)
    returns (before: State, after: State)
    requires Creatable(c, job) && job.schedule.timezone != ""
    ensures Reachable(c, before) && id in before.jobs && before.jobs[id].status == PAUSED
    ensures Reachable(c, after) && after.jobs == Uninterrupted(c, before.jobs, Fail(id, error, retryAt))
    ensures id in Due(after.jobs, retryAt)
  {
    before := PausedJob(c, id, job, at);
    after := WholeCall(c, before, 1, Fail(id, error, retryAt));
  }

  lemma WholeCall(c: Clockwork, s: State, n: nat, call: Call) returns (t: State)
    requires Reachable(c, s) && n !in s.calls && call.id in s.jobs && PlannedPatch(c, call, s.jobs[call.id]).Some?
    ensures Reachable(c, t) && t.jobs == Uninterrupted(c, s.jobs, call) && t.calls.Keys == s.calls.Keys + {n}
  {
    t := ReachStep(c, s, Read(n, call));
    t := ReachStep(c, t, Write(n));
  }

  // ---- a tick ------------------------------------------------------------------------------------------------

  function After(c: Clockwork, s: State, steps: seq<Step>): State
    decreases |steps|
  {
    if steps == [] then s else After(c, Apply(c, s, steps[0]), steps[1..])
  }

  /** The step is a read, or the write that ends the dispatch of a job still due. */
  ghost predicate OfTick(c: Clockwork, s: State, step: Step, now: Time) {
    Enabled(c, s, step) &&
      match step
      case Read(_, _) => true
      case Write(n) => Handles(s.calls[n].call, now) && s.calls[n].call.id in Due(s.jobs, now)
      case _ => false
  }

  ghost predicate Tick(c: Clockwork, s: State, steps: seq<Step>, now: Time)
    decreases |steps|
  {
    steps != [] ==> OfTick(c, s, steps[0], now) && Tick(c, Apply(c, s, steps[0]), steps[1..], now)
  }

  /** The jobs that the steps write, one after another. */
  function Handled(c: Clockwork, s: State, steps: seq<Step>): seq<string>
    decreases |steps|
  {
    if steps == [] then []
    else
      (if steps[0].Write? && steps[0].n in s.calls then [s.calls[steps[0].n].call.id] else [])
      + Handled(c, Apply(c, s, steps[0]), steps[1..])
  }

  function IdSet(ids: seq<string>): set<string> {
    set id | id in ids
  }

  lemma TickStep(c: Clockwork, s: State, step: Step, now: Time)
    requires Forward(c) && Inv(c, s) && OfTick(c, s, step, now)
    ensures var after := Due(Apply(c, s, step).jobs, now);
            if step.Write? then after == Due(s.jobs, now) - {s.calls[step.n].call.id} else after == Due(s.jobs, now)
  {
    if step.Write? {
      HandlingShrinksDue(c, s.jobs, s.calls[step.n].call, s.calls[step.n].seen, now);
    }
  }

  /**
   * However the reads and writes of a tick are interleaved, it leaves due exactly the jobs it did not
   * write, and writes each job once.
   */
  lemma {:induction false} TickDrains(c: Clockwork, s: State, steps: seq<Step>, now: Time)
    requires Forward(c) && Inv(c, s) && Tick(c, s, steps, now)
    ensures Due(After(c, s, steps).jobs, now) == Due(s.jobs, now) - IdSet(Handled(c, s, steps))
    ensures |Due(After(c, s, steps).jobs, now)| == |Due(s.jobs, now)| - |Handled(c, s, steps)|
    decreases |steps|
  {
    if steps != [] {
      var t := Apply(c, s, steps[0]);
      TickStep(c, s, steps[0], now);
      StepKeepsInv(c, s, steps[0]);
      TickDrains(c, t, steps[1..], now);
      if steps[0].Write? {
        TakeOne(Due(s.jobs, now), s.calls[steps[0].n].call.id, Handled(c, t, steps[1..]));
      } else {
        assert [] + Handled(c, t, steps[1..]) == Handled(c, t, steps[1..]);
      }
    }
  }

  lemma TakeOne(due: set<string>, id: string, later: seq<string>)
    requires id in due
    ensures (due - {id}) - IdSet(later) == due - IdSet([id] + later)
    ensures |due - {id}| - |later| == |due| - |[id] + later|
  {
    assert IdSet([id] + later) == {id} + IdSet(later);
  }
}
