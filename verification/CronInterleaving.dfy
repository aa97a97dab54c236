/**
 Ticks of `cron/service.py` interleaved with the other operations. A tick awaits each job it executes;
 an operation that arms the timer meanwhile cancels it: the job being executed is cut off and those after
 it are not started. A manual run is one step.
 */
module CronInterleaving {
  import opened Wrappers
  import opened Sequences
  import opened CronModel
  import opened CronService
  import opened CronTiming

  /**
   `todo` lists what a tick that began at `since` has still to finish; its first job is being executed.
   `used` are the ids ever given to a job: none is given twice.
   */
  datatype Live = Live(service: Service, todo: seq<JobId>, since: int, used: set<JobId>)

  datatype Event = Fire(now: int) | Finish(execution: Execution) | Other(op: Op)

  predicate Enabled(l: Live, e: Event) {
    match e
    case Fire(_) => l.todo == [] && l.service.running && l.service.armed.Some?
    case Finish(_) => l.todo != []
    case Other(op) => !op.Tick? && (op.Add? ==> op.id !in l.used)
  }

  /** The operation calls `_arm_timer`, or stops the service: either cancels the timer's task. */
  predicate Cancels(w: World, s: Service, op: Op) {
    match op
    case Start(_) => true
    case Stop => true
    case Add(_, _, schedule, _, _, _) => ValidSchedule(schedule, w.knownTz)
    case Remove(id) => Find(s.jobs, id).Some?
    case Enable(id, _, _, _) => Find(s.jobs, id).Some?
    case RunNow(id, force, _) => Find(s.jobs, id).Some? && (force || Find(s.jobs, id).value.enabled)
    case Tick(_, _) => true
  }

  function Next(w: World, l: Live, e: Event): Live
    requires Enabled(l, e)
  {
    match e
    case Fire(now) =>
      var due := DueIds(l.service.jobs, now);
      if due == [] then Live(Rearmed(l.service, l.service.jobs), [], now, l.used)
      else Live(l.service, due, now, l.used)
    case Finish(x) =>
      var jobs := ExecuteIn(l.service.jobs, l.todo[0], x, w.next);
      if |l.todo| == 1 then Live(Rearmed(l.service, jobs), [], l.since, l.used)
      else Live(l.service.(jobs := jobs), l.todo[1..], l.since, l.used)
    case Other(op) =>
      Live(Step(w, l.service, op), if Cancels(w, l.service, op) then [] else l.todo, l.since,
           if op.Add? then l.used + {op.id} else l.used)
  }

  const IDLE := Live(EMPTY, [], 0, {})

  /** Events that cannot happen are ignored. */
  function Exec(w: World, events: seq<Event>): Live {
    if events == [] then IDLE
    else
      var l, e := Exec(w, events[..|events| - 1]), events[|events| - 1];
      if Enabled(l, e) then Next(w, l, e) else l
  }

  // ---- A tick left alone is the atomic tick ----

  /** Every job still to do finishes, the `i`-th from now with the `k + i`-th execution. */
  function Drained(w: World, l: Live, k: nat, executions: nat -> Execution): Live
    decreases |l.todo|
  {
    if l.todo == [] then l else Drained(w, Next(w, l, Finish(executions(k))), k + 1, executions)
  }

  lemma {:induction false} DrainedIsAll(w: World, l: Live, k: nat, executions: nat -> Execution)
    requires l.todo != []
    ensures var jobs := ExecuteAll(l.service.jobs, l.todo, k, executions, w.next);
      Drained(w, l, k, executions) == Live(Rearmed(l.service, jobs), [], l.since, l.used)
    decreases |l.todo|
  {
    var m := Next(w, l, Finish(executions(k)));
    if |l.todo| == 1 {
      assert l.todo[1..] == [];
      assert Drained(w, m, k + 1, executions) == m;
    } else {
      DrainedIsAll(w, m, k + 1, executions);
    }
  }

  /** Without other operations in between, firing and finishing every due job is the tick of `CronModel`. */
  lemma UninterruptedIsTick(w: World, l: Live, now: int, executions: nat -> Execution)
    requires Enabled(l, Fire(now)) && UniqueIds(l.service.jobs)
    ensures Drained(w, Next(w, l, Fire(now)), 0, executions)
         == Live(Step(w, l.service, Tick(now, executions)), [], now, l.used)
  {
    SnapshotIsTick(l.service.jobs, now, 0, executions, w.next);
    if DueIds(l.service.jobs, now) != [] {
      DrainedIsAll(w, Next(w, l, Fire(now)), 0, executions);
    }
  }

  // ---- The wake-up under interleaving ----

  predicate ArmedOrTicking(l: Live) {
    if l.todo == [] then JustArmed(l.service) else l.service.running
  }

  lemma {:induction false} RunArmedOrTicking(w: World, events: seq<Event>)
    ensures ArmedOrTicking(Exec(w, events))
  {
    if events != [] {
      RunArmedOrTicking(w, events[..|events| - 1]);
    }
  }

  /**
   In every interleaving: unless a tick is at work, the armed wake-up is the earliest next run while the
   service runs. No cancelled tick leaves the service without one.
   */
  lemma AlwaysArmedOrTicking(w: World, events: seq<Event>)
    ensures var l := Exec(w, events); if l.todo == [] then ArmedRight(l.service) else l.service.running
  {
    RunArmedOrTicking(w, events);
    NextWakeIsEarliest(Exec(w, events).service.jobs);
  }

  // ---- Ids ----

  ghost predicate Tidy(l: Live) {
    && UniqueIds(l.service.jobs) && NoDup(l.todo)
    && forall id :: id in Ids(l.service.jobs) || id in l.todo ==> id in l.used
  }

  lemma {:induction false} DueIdsNoDup(jobs: seq<Job>, now: int)
    requires UniqueIds(jobs)
    ensures NoDup(DueIds(jobs, now)) && forall id :: id in DueIds(jobs, now) ==> id in Ids(jobs)
  {
    if jobs != [] {
      UniqueRest(jobs);
      DueIdsNoDup(jobs[1..], now);
      DueIdsAreIds(jobs[1..], now, jobs[0].id);
      var due := DueIds(jobs[1..], now);
      assert ([jobs[0].id] + due)[1..] == due;
      assert forall id :: id in Ids(jobs[1..]) ==> id in Ids(jobs);
      assert Ids(jobs)[0] == jobs[0].id;
    }
  }

  /** The next table has unique ids, none of them new but that of a new job. */
  lemma NextIds(w: World, l: Live, e: Event, id: JobId)
    requires Enabled(l, e) && Tidy(l)
    ensures UniqueIds(Next(w, l, e).service.jobs)
    ensures id in Ids(Next(w, l, e).service.jobs) ==> id in Next(w, l, e).used
  {
    match e {
      case Fire(now) =>
      case Finish(x) => ExecuteThins(l.service.jobs, l.todo[0], x, w.next);
      case Other(op) =>
        StepKeepsUnique(w, l.service, op);
        if id in Ids(Step(w, l.service, op).jobs) { StepIds(w, l.service, op, id); }
    }
  }

  lemma NextTodo(w: World, l: Live, e: Event)
    requires Enabled(l, e) && Tidy(l)
    ensures NoDup(Next(w, l, e).todo) && forall id :: id in Next(w, l, e).todo ==> id in l.used
  {
    if e.Fire? { DueIdsNoDup(l.service.jobs, e.now); }
  }

  lemma {:induction false} AlwaysTidy(w: World, events: seq<Event>)
    ensures Tidy(Exec(w, events))
  {
    if events != [] {
      var l, e := Exec(w, events[..|events| - 1]), events[|events| - 1];
      AlwaysTidy(w, events[..|events| - 1]);
      if Enabled(l, e) {
        NextTodo(w, l, e);
        forall id
          ensures id in Ids(Next(w, l, e).service.jobs) ==> id in Next(w, l, e).used
        {
          NextIds(w, l, e, id);
        }
        NextIds(w, l, e, "");
      }
    }
  }

  // ---- How often a one-shot job starts ----

  /** The job whose execution the event starts. */
  function Starts(l: Live, e: Event): Option<JobId>
    requires Enabled(l, e)
  {
    match e
    case Fire(now) => var due := DueIds(l.service.jobs, now); if due == [] then None else Some(due[0])
    case Finish(_) => if |l.todo| == 1 then None else Some(l.todo[1])
    case Other(_) => None
  }

  predicate StartsId(l: Live, e: Event, id: JobId) {
    Enabled(l, e) && Starts(l, e) == Some(id)
  }

  /** The event cuts off the execution of the job. */
  predicate CutsOff(w: World, l: Live, e: Event, id: JobId) {
    e.Other? && !e.op.Tick? && Cancels(w, l.service, e.op) && l.todo != [] && l.todo[0] == id
  }

  ghost predicate InFlight(l: Live, id: JobId) {
    id in l.used && l.todo != [] && l.todo[0] == id && OneShot(l.service.jobs, id)
  }

  ghost predicate Done(l: Live, id: JobId) {
    id in l.used && Spent(l.service.jobs, id) && id !in l.todo
  }

  lemma {:induction false} ExecuteSpends(jobs: seq<Job>, id: JobId, x: Execution, next: Croniter)
    requires OneShot(jobs, id)
    ensures Spent(ExecuteIn(jobs, id, x, next), id)
  {
    if jobs != [] {
      assert OneShot(jobs[1..], id) by { assert forall i :: 0 <= i < |jobs[1..]| ==> jobs[1..][i] == jobs[i + 1]; }
      ExecuteSpends(jobs[1..], id, x, next);
      var head := if jobs[0].id == id then Outcome(jobs[0], x, next) else [jobs[0]];
      assert Spent(head, id);
    }
  }

  lemma {:induction false} SpentNotDue(jobs: seq<Job>, now: int, id: JobId)
    requires Spent(jobs, id)
    ensures id !in DueIds(jobs, now)
  {
    if jobs != [] {
      assert Spent(jobs[1..], id) by { assert forall i :: 0 <= i < |jobs[1..]| ==> jobs[1..][i] == jobs[i + 1]; }
      SpentNotDue(jobs[1..], now, id);
    }
  }

  /** A started one-shot job is finished or cut off; finished, it is done. */
  lemma FlightGoesOn(w: World, l: Live, e: Event, id: JobId)
    requires Enabled(l, e) && NoDup(l.todo) && InFlight(l, id) && !CutsOff(w, l, e, id)
    ensures InFlight(Next(w, l, e), id) || Done(Next(w, l, e), id)
    ensures Starts(l, e) != Some(id)
  {
    if e.Finish? { ExecuteSpends(l.service.jobs, id, e.execution, w.next); }
  }

  lemma DoneStays(w: World, l: Live, e: Event, id: JobId)
    requires Enabled(l, e) && Done(l, id) && !(e.Other? && Enables(e.op, id))
    ensures Done(Next(w, l, e), id) && Starts(l, e) != Some(id)
  {
    match e {
      case Fire(now) => SpentNotDue(l.service.jobs, now, id);
      case Finish(x) => ExecuteKeepsSpent(l.service.jobs, l.todo[0], x, w.next, id);
      case Other(op) => SpentStays(w, l.service, op, id);
    }
  }

  predicate Releases(w: World, l: Live, e: Event, id: JobId) {
    CutsOff(w, l, e, id) || (e.Other? && Enables(e.op, id))
  }

  /** The event at position `k` of the run allows the job to start once more. */
  predicate ReleasedAt(w: World, events: seq<Event>, k: nat, id: JobId)
    requires k < |events|
  {
    Releases(w, Exec(w, events[..k]), events[k], id)
  }

  lemma {:induction false} NotStartedAgain(w: World, events: seq<Event>, i: nat, j: nat, id: JobId)
    requires i < j <= |events| && InFlight(Exec(w, events[..i + 1]), id)
    requires forall k :: i < k < j ==> !ReleasedAt(w, events, k, id)
    ensures InFlight(Exec(w, events[..j]), id) || Done(Exec(w, events[..j]), id)
    decreases j
  {
    if j > i + 1 {
      NotStartedAgain(w, events, i, j - 1, id);
      OneMoreEvent(w, events, j - 1, id);
    }
  }

  lemma OneMoreEvent(w: World, events: seq<Event>, k: nat, id: JobId)
    requires k < |events| && !ReleasedAt(w, events, k, id)
    requires var l := Exec(w, events[..k]); InFlight(l, id) || Done(l, id)
    ensures var m := Exec(w, events[..k + 1]); InFlight(m, id) || Done(m, id)
    ensures !StartsId(Exec(w, events[..k]), events[k], id)
  {
    var l, e := Exec(w, events[..k]), events[k];
    assert events[..k + 1][..k] == events[..k];
    AlwaysTidy(w, events[..k]);
    if Enabled(l, e) {
      if InFlight(l, id) { FlightGoesOn(w, l, e, id); } else { DoneStays(w, l, e, id); }
    }
  }

  /**
   In every interleaving, between two starts of the same one-shot job there is an explicit enable of it,
   or an operation that cut off its execution.
   */
  lemma StartsOncePerRelease(w: World, events: seq<Event>, i: nat, j: nat, id: JobId)
    requires i < j < |events| && OneShot(Exec(w, events[..i + 1]).service.jobs, id)
    requires StartsId(Exec(w, events[..i]), events[i], id) && StartsId(Exec(w, events[..j]), events[j], id)
    ensures exists k :: i < k < j && ReleasedAt(w, events, k, id)
  {
    assert events[..i + 1][..i] == events[..i];
    AlwaysTidy(w, events[..i]);
    NextTodo(w, Exec(w, events[..i]), events[i]);
    if forall k :: i < k < j ==> !ReleasedAt(w, events, k, id) {
      NotStartedAgain(w, events, i, j, id);
      OneMoreEvent(w, events, j, id);
    }
  }

  // ---- What a cancelled tick leaves behind ----

  /** Everything still to do has been due since the tick began. */
  ghost predicate TodoDue(l: Live) {
    forall id :: id in l.todo ==> DueAt(l.service.jobs, id, l.since)
  }

  lemma {:induction false} DueIdsExactly(jobs: seq<Job>, now: int, id: JobId)
    requires UniqueIds(jobs)
    ensures id in DueIds(jobs, now) <==> DueAt(jobs, id, now)
  {
    if jobs != [] {
      UniqueRest(jobs);
      DueIdsExactly(jobs[1..], now, id);
      if jobs[0].id == id { DueIdsAreIds(jobs[1..], now, id); }
    }
  }

  lemma StillDue(w: World, l: Live, e: Event, id: JobId)
    requires Enabled(l, e) && UniqueIds(l.service.jobs) && NoDup(l.todo) && TodoDue(l)
    requires id in Next(w, l, e).todo
    ensures var m := Next(w, l, e); DueAt(m.service.jobs, id, m.since)
  {
    match e {
      case Fire(now) => DueIdsExactly(l.service.jobs, now, id);
      case Finish(x) =>
        assert l.todo == [l.todo[0]] + l.todo[1..];
        assert id in l.todo[1..] && DueAt(l.service.jobs, id, l.since);
        ExecuteFindsOthers(l.service.jobs, l.todo[0], x, w.next, id);
      case Other(op) =>
        assert DueAt(l.service.jobs, id, l.since);
    }
  }

  lemma {:induction false} AlwaysTodoDue(w: World, events: seq<Event>)
    ensures TodoDue(Exec(w, events))
  {
    if events != [] {
      var l, e := Exec(w, events[..|events| - 1]), events[|events| - 1];
      AlwaysTodoDue(w, events[..|events| - 1]);
      AlwaysTidy(w, events[..|events| - 1]);
      if Enabled(l, e) {
        forall id | id in Next(w, l, e).todo
          ensures DueAt(Next(w, l, e).service.jobs, id, Next(w, l, e).since)
        {
          StillDue(w, l, e, id);
        }
      }
    }
  }

  /** The operation may change the job, or all of them, or end the service. */
  predicate Concerns(op: Op, id: JobId) {
    match op
    case Start(_) => true
    case Stop => true
    case Add(_, _, _, _, _, _) => false
    case Remove(target) => target == id
    case Enable(target, _, _, _) => target == id
    case RunNow(target, _, _) => target == id
    case Tick(_, _) => true
  }

  lemma OthersUnchanged(w: World, s: Service, op: Op, id: JobId)
    requires !Concerns(op, id) && Find(s.jobs, id).Some?
    ensures Find(Step(w, s, op).jobs, id) == Find(s.jobs, id) && Step(w, s, op).running == s.running
  {
    match op {
      case Add(added, name, schedule, message, deleteAfterRun, now) =>
        AppendFinds(s.jobs, NewJob(added, name, schedule, message, deleteAfterRun, now, w.next), id);
      case Remove(target) => RemovedFinds(s.jobs, target, id);
      case Enable(target, enabled, updated, now) =>
        EnableFinds(s.jobs, target, enabled, updated, now, w.next, id);
      case RunNow(target, force, x) => ExecuteFindsOthers(s.jobs, target, x, w.next, id);
    }
  }

  lemma {:induction false} FoundWakes(jobs: seq<Job>, id: JobId, now: int)
    requires DueAt(jobs, id, now)
    ensures exists i :: 0 <= i < |jobs| && Wakes(jobs[i])
  {
    if jobs[0].id != id {
      FoundWakes(jobs[1..], id, now);
      var i :| 0 <= i < |jobs[1..]| && Wakes(jobs[1..][i]);
      assert jobs[i + 1] == jobs[1..][i];
    }
  }

  /**
   Nothing is lost, and the cut off job runs twice: whatever a cancelled tick had not finished, the job cut
   off included, is taken up again by the next firing, unless the operation was about that job.
   */
  lemma CancelledIsTakenUpAgain(w: World, events: seq<Event>, op: Op, id: JobId, now: int)
    requires var l := Exec(w, events);
      Enabled(l, Other(op)) && Cancels(w, l.service, op) && id in l.todo && now >= l.since
    requires !Concerns(op, id)
    ensures var m := Next(w, Exec(w, events), Other(op));
      Enabled(m, Fire(now)) && id in Next(w, m, Fire(now)).todo
  {
    var l := Exec(w, events);
    var m := Next(w, l, Other(op));
    AlwaysTodoDue(w, events);
    AlwaysTidy(w, events);
    RunArmedOrTicking(w, events);
    NextIds(w, l, Other(op), id);
    OthersUnchanged(w, l.service, op, id);
    assert DueAt(l.service.jobs, id, l.since) && DueAt(m.service.jobs, id, now);
    FoundWakes(m.service.jobs, id, now);
    NextWakeIsEarliest(m.service.jobs);
    DueIdsExactly(m.service.jobs, now, id);
  }
}
