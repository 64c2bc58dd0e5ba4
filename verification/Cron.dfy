/**
 * The cron job table: what each call of the store reads, what it then writes, and what a dispatch does
 * to the due jobs. Times are numbers; the stored strings compare like them (Timestamps.AtMostIsNotLater).
 */
module Cron {
  import opened Text

  type Time = int

  datatype ScheduleType = CRON | ONCE
  datatype Status = ACTIVE | PAUSED | COMPLETED

  datatype Error =
    | UnknownJob | EmptyName | EmptyPrompt | NullType | NullText | EmptyValue | EmptyTimezone | NullStatus
    | UnknownZone | BadExpression | BadDatetime | NotInFuture

  datatype Schedule = Schedule(kind: ScheduleType, value: string, timezone: string)

  datatype Job = Job(session: string, agent: string, name: string, prompt: string, schedule: Schedule, status: Status,
                     lastRun: Option<Time>, nextRun: Option<Time>, lastError: Option<string>)

  type Jobs = map<string, Job>

  /** The foreign time libraries: known zones, croniter's next time after a base, and ISO parsing. */
  datatype Clockwork = Clockwork(zone: string -> bool, cronAfter: (string, string, Time) -> Option<Time>,
                                 onceAt: (string, string) -> Option<Time>)

  /** croniter returns a time strictly after its base. */
  ghost predicate Forward(c: Clockwork) {
    forall value, timezone, after :: var t := c.cronAfter(value, timezone, after); t.Some? ==> t.value > after
  }

  /** `_compute_next_run_datetime`. */
  function NextRun(c: Clockwork, s: Schedule, after: Time): Result<Time, Error> {
    var zone, raw := Strip(s.timezone), Strip(s.value);
    if !c.zone(zone) then Err(UnknownZone)
    else if raw == "" then Err(EmptyValue)
    else if s.kind == CRON then
      match c.cronAfter(raw, zone, after)
      case None => Err(BadExpression)
      case Some(t) => Ok(t)
    else
      match c.onceAt(raw, zone)
      case None => Err(BadDatetime)
      case Some(t) => if t <= after then Err(NotInFuture) else Ok(t)
  }

  function Created(c: Clockwork, now: Time, session: string, agent: string, name: string, prompt: string, s: Schedule)
    : Result<Job, Error>
  {
    if Strip(name) == "" then Err(EmptyName)
    else if Strip(prompt) == "" then Err(EmptyPrompt)
    else
      match NextRun(c, s, now)
      case Err(e) => Err(e)
      case Ok(t) =>
        Ok(Job(session, agent, Strip(name), Strip(prompt), Schedule(s.kind, Strip(s.value), Strip(s.timezone)), ACTIVE,
               None, Some(t), None))
  }

  /** An argument of `update_job`: not given, given as None, or given. */
  datatype Arg<T> = Unset | Null | Given(value: T)

  datatype Change = Change(name: Arg<string>, prompt: Arg<string>, kind: Arg<ScheduleType>, value: Arg<string>,
                           timezone: Arg<string>, status: Arg<Status>)

  function NewText(current: string, arg: Arg<string>): string {
    match arg
    case Unset => current
    case Null => ""
    case Given(text) => Strip(text)
  }

  /** The columns an UPDATE sets. */
  datatype Patch =
    | Edit(name: string, prompt: string, schedule: Schedule, status: Status, nextRun: Option<Time>)
    | Done(ranAt: Time, status: Status, nextRun: Option<Time>)
    | Retry(error: string, nextRun: Option<Time>)

  function Patched(patch: Patch, job: Job): Job {
    match patch
    case Edit(name, prompt, schedule, status, next) =>
      job.(name := name, prompt := prompt, schedule := schedule, status := status, nextRun := next)
    case Done(ranAt, status, next) => job.(lastRun := Some(ranAt), nextRun := next, status := status, lastError := None)
    case Retry(error, next) => job.(lastError := Some(error), nextRun := next, status := ACTIVE)
  }

  /** What `update_job` writes after it has read a job. */
  function EditOf(c: Clockwork, now: Time, job: Job, change: Change): Result<Patch, Error> {
    var name, prompt := NewText(job.name, change.name), NewText(job.prompt, change.prompt);
    var value, timezone := NewText(job.schedule.value, change.value), NewText(job.schedule.timezone, change.timezone);
    if change.value.Null? || change.timezone.Null? then Err(NullText)
    else if name == "" then Err(EmptyName)
    else if prompt == "" then Err(EmptyPrompt)
    else if change.kind.Null? then Err(NullType)
    else if value == "" then Err(EmptyValue)
    else if timezone == "" then Err(EmptyTimezone)
    else if change.status.Null? then Err(NullStatus)
    else
      var kind := if change.kind.Given? then change.kind.value else job.schedule.kind;
      var status := if change.status.Given? then change.status.value else job.status;
      var schedule := Schedule(kind, value, timezone);
      if status == COMPLETED then Ok(Edit(name, prompt, schedule, status, None))
      else if schedule != job.schedule || (job.status != ACTIVE && status == ACTIVE) then
        match NextRun(c, schedule, now)
        case Err(e) => Err(e)
        case Ok(t) => Ok(Edit(name, prompt, schedule, status, Some(t)))
      else Ok(Edit(name, prompt, schedule, status, job.nextRun))
  }

  /** What `mark_job_succeeded` writes. */
  function DoneOf(c: Clockwork, ranAt: Time, job: Job): Result<Patch, Error> {
    if job.schedule.kind == CRON then
      match NextRun(c, job.schedule, ranAt)
      case Err(e) => Err(e)
      case Ok(t) => Ok(Done(ranAt, job.status, Some(t)))
    else Ok(Done(ranAt, COMPLETED, None))
  }

  function Shortened(error: string): (r: string)
    ensures 0 < |r| <= 4000
  {
    var text := Strip(error);
    var text := if |text| > 4000 then text[..4000] else text;
    if text == "" then "Unknown cron dispatch error." else text
  }

  /** The calls that read a job and write it afterwards. */
  datatype Call =
    | Update(id: string, at: Time, change: Change)
    | Succeed(id: string, at: Time)
    | Fail(id: string, error: string, retryAt: Time)

  /** What a call that has read `job` goes on to write, if anything. */
  function Plan(c: Clockwork, call: Call, job: Job): Result<Option<Patch>, Error> {
    match call
    case Update(_, at, change) =>
      (match EditOf(c, at, job, change)
       case Err(e) => Err(e)
       case Ok(patch) => Ok(Some(patch)))
    case Succeed(_, at) =>
      (match DoneOf(c, at, job)
       case Err(e) => Err(e)
       case Ok(patch) => Ok(Some(patch)))
    case Fail(_, error, retryAt) =>
      if job.status == COMPLETED then Ok(None) else Ok(Some(Retry(Shortened(error), Some(retryAt))))
  }

  function PlannedPatch(c: Clockwork, call: Call, job: Job): Option<Patch> {
    var plan := Plan(c, call, job);
    if plan.Ok? then plan.value else None
  }

  /** An UPDATE of a job that is gone changes nothing. */
  function Landed(jobs: Jobs, id: string, patch: Patch): Jobs {
    if id in jobs then jobs[id := Patched(patch, jobs[id])] else jobs
  }

  /** The table after a call that nothing interrupts; a call that raises changes nothing. */
  function Uninterrupted(c: Clockwork, jobs: Jobs, call: Call): Jobs {
    if call.id !in jobs then jobs
    else
      var patch := PlannedPatch(c, call, jobs[call.id]);
      if patch == None then jobs else Landed(jobs, call.id, patch.value)
  }

  /** What such a call returns: the job as it now stands. */
  function Returned(c: Clockwork, jobs: Jobs, call: Call): Result<Job, Error> {
    if call.id !in jobs then Err(UnknownJob)
    else
      match Plan(c, call, jobs[call.id])
      case Err(e) => Err(e)
      case Ok(patch) => Ok(Uninterrupted(c, jobs, call)[call.id])
  }

  predicate IsDue(job: Job, now: Time) {
    job.status == ACTIVE && job.nextRun.Some? && job.nextRun.value <= now
  }

  /** The ids `list_due_jobs` selects from. */
  function Due(jobs: Jobs, now: Time): set<string> {
    set id | id in jobs && IsDue(jobs[id], now)
  }

  class CronJobStore {
    const clock: Clockwork
    var jobs: Jobs

    constructor (clock: Clockwork)
      ensures this.clock == clock && jobs == map[]
    {
      this.clock := clock;
      jobs := map[];
    }

    method CreateJob(id: string, now: Time, session: string, agent: string, name: string, prompt: string, s: Schedule)
      returns (r: Result<Job, Error>)
      requires id !in jobs
      modifies this
      ensures r == Created(clock, now, session, agent, name, prompt, s)
      ensures jobs == if r.Ok? then old(jobs)[id := r.value] else old(jobs)
    {
      if Strip(name) == "" { return Err(EmptyName); }
      if Strip(prompt) == "" { return Err(EmptyPrompt); }
      var next := NextRun(clock, s, now);
      if next.Err? { return Err(next.error); }
      jobs := jobs[id := Job(session, agent, Strip(name), Strip(prompt), Schedule(s.kind, Strip(s.value), Strip(s.timezone)),
                             ACTIVE, None, Some(next.value), None)];
      return Ok(jobs[id]);
    }

    method UpdateJob(id: string, now: Time, change: Change) returns (r: Result<Job, Error>)
      modifies this
      ensures jobs == Uninterrupted(clock, old(jobs), Update(id, now, change))
      ensures r == Returned(clock, old(jobs), Update(id, now, change))
    {
      if id !in jobs { return Err(UnknownJob); }
      var job := jobs[id];
      if change.value.Null? || change.timezone.Null? { return Err(NullText); }
      var name, prompt := NewText(job.name, change.name), NewText(job.prompt, change.prompt);
      var kind := if change.kind.Given? then change.kind.value else job.schedule.kind;
      var s := Schedule(kind, NewText(job.schedule.value, change.value), NewText(job.schedule.timezone, change.timezone));
      var status := if change.status.Given? then change.status.value else job.status;
      if name == "" { return Err(EmptyName); }
      if prompt == "" { return Err(EmptyPrompt); }
      if change.kind.Null? { return Err(NullType); }
      if s.value == "" { return Err(EmptyValue); }
      if s.timezone == "" { return Err(EmptyTimezone); }
      if change.status.Null? { return Err(NullStatus); }
      var nextRun := job.nextRun;
      if status == COMPLETED {
        nextRun := None;
      } else if s != job.schedule || (job.status != ACTIVE && status == ACTIVE) {
        var next := NextRun(clock, s, now);
        if next.Err? { return Err(next.error); }
        nextRun := Some(next.value);
      }
      UpdateJobFields(id, Edit(name, prompt, s, status, nextRun));
      return Ok(jobs[id]);
    }

    method MarkJobSucceeded(id: string, ranAt: Time) returns (r: Result<Job, Error>)
      modifies this
      ensures jobs == Uninterrupted(clock, old(jobs), Succeed(id, ranAt))
      ensures r == Returned(clock, old(jobs), Succeed(id, ranAt))
    {
      if id !in jobs { return Err(UnknownJob); }
      var job := jobs[id];
      var nextRun, status := None, job.status;
      if job.schedule.kind == CRON {
        var next := NextRun(clock, job.schedule, ranAt);
        if next.Err? { return Err(next.error); }
        nextRun := Some(next.value);
      } else {
        status := COMPLETED;
      }
      UpdateJobFields(id, Done(ranAt, status, nextRun));
      return Ok(jobs[id]);
    }

    method MarkJobFailed(id: string, error: string, retryAt: Time) returns (r: Result<Job, Error>)
      modifies this
      ensures jobs == Uninterrupted(clock, old(jobs), Fail(id, error, retryAt))
      ensures r == Returned(clock, old(jobs), Fail(id, error, retryAt))
    {
      if id !in jobs { return Err(UnknownJob); }
      var job := jobs[id];
      if job.status == COMPLETED { return Ok(job); }
      UpdateJobFields(id, Retry(Shortened(error), Some(retryAt)));
      return Ok(jobs[id]);
    }

    method UpdateJobFields(id: string, patch: Patch)
      modifies this
      ensures jobs == Landed(old(jobs), id, patch)
    {
      if id in jobs { jobs := jobs[id := Patched(patch, jobs[id])]; }
    }
  }

  // ---- next runs --------------------------------------------------------------------------------------------

  /**
   * The next run an update writes: none for a completed job; strictly after the update when the schedule
   * changed or the job is reactivated; and otherwise what it read.
   */
  lemma UpdatedNextRun(c: Clockwork, now: Time, job: Job, change: Change)
    requires Forward(c) && EditOf(c, now, job, change).Ok?
    ensures var after := EditOf(c, now, job, change).value;
            && (after.status == COMPLETED ==> after.nextRun == None)
            && (after.status != COMPLETED
                ==> if after.schedule != job.schedule || (job.status != ACTIVE && after.status == ACTIVE)
                    then after.nextRun.Some? && after.nextRun.value > now
                    else after.nextRun == job.nextRun)
  {
    var after := EditOf(c, now, job, change).value;
    if NextRun(c, after.schedule, now).Ok? { NextRunIsLater(c, after.schedule, now); }
  }

  /** A new job is active and due strictly later than its creation. */
  lemma CreatedIsInTheFuture(c: Clockwork, now: Time, session: string, agent: string, name: string, prompt: string,
                             s: Schedule)
    requires Forward(c) && Created(c, now, session, agent, name, prompt, s).Ok?
    ensures var job := Created(c, now, session, agent, name, prompt, s).value;
            && job.status == ACTIVE && job.name != "" && job.prompt != ""
            && job.nextRun.Some? && job.nextRun.value > now
  {
    NextRunIsLater(c, s, now);
  }

  lemma NextRunIsLater(c: Clockwork, s: Schedule, after: Time)
    requires Forward(c) && NextRun(c, s, after).Ok?
    ensures NextRun(c, s, after).value > after
  {
    var found := c.cronAfter(Strip(s.value), Strip(s.timezone), after);
    assert found.Some? ==> found.value > after;
  }

  /** A recurring job asks croniter, a one-time job its own date, which must lie ahead; else the first fault is named. */
  lemma NextRunIs(c: Clockwork, s: Schedule, after: Time)
    ensures var zone, value := Strip(s.timezone), Strip(s.value);
            var cronTime, onceTime := c.cronAfter(value, zone, after), c.onceAt(value, zone);
            && (!c.zone(zone) ==> NextRun(c, s, after) == Err(UnknownZone))
            && (c.zone(zone) && value == "" ==> NextRun(c, s, after) == Err(EmptyValue))
            && (c.zone(zone) && value != "" && s.kind == CRON ==>
                  NextRun(c, s, after) == if cronTime.Some? then Ok(cronTime.value) else Err(BadExpression))
            && (c.zone(zone) && value != "" && s.kind == ONCE ==>
                  NextRun(c, s, after)
                  == if onceTime.None? then Err(BadDatetime)
                     else if onceTime.value > after then Ok(onceTime.value) else Err(NotInFuture))
  {
  }

  /** What a text argument of `update_job` comes to: None only when it was given as None. */
  function Intended(current: string, arg: Arg<string>): Option<string> {
    if arg.Null? then None else Some(if arg.Given? then Strip(arg.value) else current)
  }

  predicate Lacking(text: Option<string>) {
    text == None || text == Some("")
  }

  /** An update raises when one of its texts is missing or empty, or its type or status is given as None. */
  lemma EditNeedsTexts(c: Clockwork, now: Time, job: Job, change: Change)
    requires || Lacking(Intended(job.name, change.name)) || Lacking(Intended(job.prompt, change.prompt))
             || Lacking(Intended(job.schedule.value, change.value)) || Lacking(Intended(job.schedule.timezone, change.timezone))
             || change.kind.Null? || change.status.Null?
    ensures EditOf(c, now, job, change).Err?
  {
  }

  /** An update writes what it was given, stripped, and else what it read. */
  lemma EditWrites(c: Clockwork, now: Time, job: Job, change: Change)
    requires EditOf(c, now, job, change).Ok?
    ensures var edit := EditOf(c, now, job, change).value;
            && edit.Edit?
            && Some(edit.name) == Intended(job.name, change.name) && Some(edit.prompt) == Intended(job.prompt, change.prompt)
            && Some(edit.schedule.value) == Intended(job.schedule.value, change.value)
            && Some(edit.schedule.timezone) == Intended(job.schedule.timezone, change.timezone)
            && edit.schedule.kind == (if change.kind.Given? then change.kind.value else job.schedule.kind)
            && edit.status == (if change.status.Given? then change.status.value else job.status)
  {
  }

  /** The error text of a failure: stripped, at most 4000 characters, and never empty. */
  lemma ErrorIsShortened(error: string)
    ensures Strip(error) == "" ==> Shortened(error) == "Unknown cron dispatch error."
    ensures 0 < |Strip(error)| <= 4000 ==> Shortened(error) == Strip(error)
    ensures |Strip(error)| > 4000 ==> Shortened(error) == Strip(error)[..4000]
  {
  }

  /** Which columns each kind of write sets; all others keep what the row holds by then. */
  lemma ColumnsWritten(c: Clockwork, call: Call, seen: Job, row: Job)
    requires PlannedPatch(c, call, seen).Some?
    ensures var after := Patched(PlannedPatch(c, call, seen).value, row);
            && after.session == row.session && after.agent == row.agent
            && (call.Update? ==>
                  && EditOf(c, call.at, seen, call.change).Ok?
                  && var edit := EditOf(c, call.at, seen, call.change).value;
                     && after.name == edit.name && after.prompt == edit.prompt && after.schedule == edit.schedule
                     && after.status == edit.status && after.nextRun == edit.nextRun
                     && after.lastRun == row.lastRun && after.lastError == row.lastError)
            && (!call.Update? ==> after.name == row.name && after.prompt == row.prompt && after.schedule == row.schedule)
            && (call.Succeed? ==> after.lastRun == Some(call.at) && after.lastError == None)
            && (call.Fail? ==> after.lastRun == row.lastRun && after.lastError == Some(Shortened(call.error)))
  {
  }

  // ---- dispatching --------------------------------------------------------------------------------------

  /** How a tick at `now` ends a dispatch: the job ran no earlier than `now`, or is retried later than `now`. */
  predicate Handles(call: Call, now: Time) {
    match call
    case Succeed(_, at) => at >= now
    case Fail(_, _, retryAt) => retryAt > now
    case _ => false
  }

  /**
   * The write that ends a dispatch removes exactly its job from the jobs due at that time, whatever the call
   * has read and whatever was written since.
   */
  lemma HandlingShrinksDue(c: Clockwork, jobs: Jobs, call: Call, seen: Job, now: Time)
    requires Forward(c) && Handles(call, now) && PlannedPatch(c, call, seen).Some?
    ensures Due(Landed(jobs, call.id, PlannedPatch(c, call, seen).value), now) == Due(jobs, now) - {call.id}
  {
    if call.Succeed? && seen.schedule.kind == CRON { NextRunIsLater(c, seen.schedule, call.at); }
    var after := Landed(jobs, call.id, PlannedPatch(c, call, seen).value);
    assert call.id in jobs ==> !IsDue(after[call.id], now);
    assert forall id :: id in after <==> id in jobs;
  }
}
