/**
 The job table and the armed wake-up of `cron/service.py`, as values. croniter and the time zone
 database are function parameters; the clock readings and the outcome of a job are inputs.
 */
module CronModel {
  import opened Wrappers
  import opened Sequences

  type JobId = string

  datatype Kind = At | Every | CronExpr

  datatype Schedule = Schedule(kind: Kind, atMs: Option<int>, everyMs: Option<int>, expr: Option<string>,
                               tz: Option<string>)

  datatype Job = Job(id: JobId, name: string, enabled: bool, schedule: Schedule, message: string,
                     nextRun: Option<int>, lastRun: Option<int>, lastError: Option<string>,
                     createdAt: int, updatedAt: int, deleteAfterRun: bool)

  /** The next match of a cron expression after a time; None when croniter or the time zone fails. */
  type Croniter = (string, Option<string>, int) -> Option<int>

  ghost predicate MovesForward(next: Croniter) {
    forall expr, tz, now :: LaterMatch(next, expr, tz, now)
  }

  predicate LaterMatch(next: Croniter, expr: string, tz: Option<string>, now: int) {
    next(expr, tz, now).Some? ==> next(expr, tz, now).value > now
  }

  datatype Service = Service(jobs: seq<Job>, running: bool, armed: Option<int>)

  /** What one execution of a job reads and reports: its error if it raised, and three clock readings. */
  datatype Execution = Execution(error: Option<string>, start: int, updated: int, computeAt: int)

  /** Python's truth of an optional integer. */
  predicate Truthy(x: Option<int>) {
    x.Some? && x.value != 0
  }

  /** `_compute_next_run`. */
  function ComputeNextRun(s: Schedule, now: int, next: Croniter): Option<int> {
    match s.kind
    case At => if Truthy(s.atMs) && s.atMs.value > now then s.atMs else None
    case Every => if !Truthy(s.everyMs) || s.everyMs.value <= 0 then None else Some(now + s.everyMs.value)
    case CronExpr => if s.expr.Some? && s.expr.value != "" then next(s.expr.value, s.tz, now) else None
  }

  // ---- The wake-up ----

  predicate Wakes(j: Job) {
    j.enabled && Truthy(j.nextRun)
  }

  /** `_get_next_wake_ms`. */
  function NextWake(jobs: seq<Job>): Option<int> {
    if jobs == [] then None
    else
      var rest := NextWake(jobs[1..]);
      if !Wakes(jobs[0]) then rest
      else if rest.Some? && rest.value < jobs[0].nextRun.value then rest
      else jobs[0].nextRun
  }

  /** The earliest next run over the enabled jobs, None if there is none. */
  ghost predicate IsEarliest(wake: Option<int>, jobs: seq<Job>) {
    match wake
    case None => forall i :: 0 <= i < |jobs| ==> !Wakes(jobs[i])
    case Some(w) =>
      && (forall i :: 0 <= i < |jobs| && Wakes(jobs[i]) ==> w <= jobs[i].nextRun.value)
      && exists i :: 0 <= i < |jobs| && Wakes(jobs[i]) && jobs[i].nextRun.value == w
  }

  lemma {:induction false} NextWakeIsEarliest(jobs: seq<Job>)
    ensures IsEarliest(NextWake(jobs), jobs)
  {
    if jobs == [] {
    } else {
      var rest := jobs[1..];
      NextWakeIsEarliest(rest);
      assert forall i :: 1 <= i < |jobs| ==> jobs[i] == rest[i - 1];
      if NextWake(rest).Some? {
        var i :| 0 <= i < |rest| && Wakes(rest[i]) && rest[i].nextRun.value == NextWake(rest).value;
        assert jobs[i + 1] == rest[i];
      }
      if Wakes(jobs[0]) { assert 0 <= 0 < |jobs|; }
    }
  }

  /** `_arm_timer`. */
  function Armed(jobs: seq<Job>, running: bool): Option<int> {
    if running && Truthy(NextWake(jobs)) then NextWake(jobs) else None
  }

  function Rearmed(s: Service, jobs: seq<Job>): Service {
    Service(jobs, s.running, Armed(jobs, s.running))
  }

  // ---- Ids ----

  function Ids(jobs: seq<Job>): (ids: seq<JobId>)
    ensures |ids| == |jobs| && forall i :: 0 <= i < |ids| ==> ids[i] == jobs[i].id
  {
    if jobs == [] then [] else [jobs[0].id] + Ids(jobs[1..])
  }

  /** Ids are unique in the table, as `uuid4` is assumed to make them. */
  ghost predicate UniqueIds(jobs: seq<Job>) {
    NoDup(Ids(jobs))
  }

  lemma UniquePairwise(jobs: seq<Job>)
    requires UniqueIds(jobs)
    ensures forall i, j :: 0 <= i < j < |jobs| ==> jobs[i].id != jobs[j].id
  {
    NoDupPairwise(Ids(jobs));
    assert forall i :: 0 <= i < |jobs| ==> Ids(jobs)[i] == jobs[i].id;
  }

  // ---- Executing a job ----

  predicate Deletes(j: Job) {
    j.schedule.kind == At && j.deleteAfterRun
  }

  /** What `_execute_job` leaves of a job that it does not delete. */
  function Executed(j: Job, x: Execution, next: Croniter): Job {
    var k := j.(lastError := x.error, lastRun := Some(x.start), updatedAt := x.updated);
    if j.schedule.kind == At then k.(enabled := false, nextRun := None)
    else k.(nextRun := ComputeNextRun(j.schedule, x.computeAt, next))
  }

  function Outcome(j: Job, x: Execution, next: Croniter): seq<Job> {
    if Deletes(j) then [] else [Executed(j, x, next)]
  }

  /** The table after executing the job `id`. */
  function ExecuteIn(jobs: seq<Job>, id: JobId, x: Execution, next: Croniter): seq<Job> {
    if jobs == [] then []
    else (if jobs[0].id == id then Outcome(jobs[0], x, next) else [jobs[0]]) + ExecuteIn(jobs[1..], id, x, next)
  }

  function Find(jobs: seq<Job>, id: JobId): Option<Job> {
    if jobs == [] then None else if jobs[0].id == id then Some(jobs[0]) else Find(jobs[1..], id)
  }

  predicate Due(j: Job, now: int) {
    Wakes(j) && now >= j.nextRun.value
  }

  /** The table after a tick: every due job executed, the `k`-th with the `k`-th execution, the others as they were. */
  function Ticked(jobs: seq<Job>, now: int, k: nat, executions: nat -> Execution, next: Croniter): seq<Job> {
    if jobs == [] then []
    else if Due(jobs[0], now) then
      Outcome(jobs[0], executions(k), next) + Ticked(jobs[1..], now, k + 1, executions, next)
    else [jobs[0]] + Ticked(jobs[1..], now, k, executions, next)
  }

  // ---- Operations ----

  function EnabledAs(j: Job, enabled: bool, updated: int, now: int, next: Croniter): Job {
    j.(enabled := enabled, updatedAt := updated,
       nextRun := if enabled then ComputeNextRun(j.schedule, now, next) else None)
  }

  function SetEnabled(jobs: seq<Job>, id: JobId, enabled: bool, updated: int, now: int, next: Croniter): seq<Job> {
    if jobs == [] then []
    else if jobs[0].id == id then [EnabledAs(jobs[0], enabled, updated, now, next)] + jobs[1..]
    else [jobs[0]] + SetEnabled(jobs[1..], id, enabled, updated, now, next)
  }

  function Removed(jobs: seq<Job>, id: JobId): seq<Job> {
    if jobs == [] then [] else (if jobs[0].id == id then [] else [jobs[0]]) + Removed(jobs[1..], id)
  }

  function Refreshed(j: Job, now: int, next: Croniter): Job {
    if j.enabled then j.(nextRun := ComputeNextRun(j.schedule, now, next)) else j
  }

  /** `_recompute_next_runs`. */
  function Recomputed(jobs: seq<Job>, now: int, next: Croniter): seq<Job> {
    seq(|jobs|, i requires 0 <= i < |jobs| => Refreshed(jobs[i], now, next))
  }

  /** `_validate_schedule_for_add`. */
  predicate ValidSchedule(s: Schedule, knownTz: string -> bool) {
    s.tz.Some? && s.tz.value != "" ==> s.kind == CronExpr && knownTz(s.tz.value)
  }

  function NewJob(id: JobId, name: string, s: Schedule, message: string, deleteAfterRun: bool, now: int,
                  next: Croniter): Job {
    Job(id, name, true, s, message, ComputeNextRun(s, now, next), None, None, now, now, deleteAfterRun)
  }

  datatype Op =
    | Start(now: int)
    | Stop
    | Add(id: JobId, name: string, schedule: Schedule, message: string, deleteAfterRun: bool, now: int)
    | Remove(id: JobId)
    | Enable(id: JobId, enabled: bool, updated: int, now: int)
    | RunNow(id: JobId, force: bool, execution: Execution)
    | Tick(now: int, executions: nat -> Execution)

  datatype World = World(next: Croniter, knownTz: string -> bool)

  function Step(w: World, s: Service, op: Op): Service {
    match op
    case Start(now) => Rearmed(s.(running := true), Recomputed(s.jobs, now, w.next))
    case Stop => s.(running := false, armed := None)
    case Add(id, name, schedule, message, deleteAfterRun, now) =>
      if ValidSchedule(schedule, w.knownTz)
      then Rearmed(s, s.jobs + [NewJob(id, name, schedule, message, deleteAfterRun, now, w.next)]) else s
    case Remove(id) => if Find(s.jobs, id).Some? then Rearmed(s, Removed(s.jobs, id)) else s
    case Enable(id, enabled, updated, now) =>
      if Find(s.jobs, id).Some? then Rearmed(s, SetEnabled(s.jobs, id, enabled, updated, now, w.next)) else s
    case RunNow(id, force, x) =>
      var j := Find(s.jobs, id);
      if j.Some? && (force || j.value.enabled) then Rearmed(s, ExecuteIn(s.jobs, id, x, w.next)) else s
    case Tick(now, executions) => Rearmed(s, Ticked(s.jobs, now, 0, executions, w.next))
  }

  const EMPTY := Service([], false, None)

  function Exec(w: World, ops: seq<Op>): Service {
    if ops == [] then EMPTY else Step(w, Exec(w, ops[..|ops| - 1]), ops[|ops| - 1])
  }

  // ---- The armed wake-up ----

  /** While the service runs, the armed wake is the earliest next run over the enabled jobs. */
  ghost predicate ArmedRight(s: Service) {
    if s.running then IsEarliest(s.armed, s.jobs) else s.armed == None
  }

  /** The wake-up is as `_arm_timer` would leave it. */
  predicate JustArmed(s: Service) {
    s.armed == Armed(s.jobs, s.running)
  }

  lemma {:induction false} AlwaysJustArmed(w: World, ops: seq<Op>)
    ensures JustArmed(Exec(w, ops))
  {
    if ops == [] {
    } else {
      AlwaysJustArmed(w, ops[..|ops| - 1]);
    }
  }

  /** So it is after every sequence of operations. */
  lemma AlwaysArmedRight(w: World, ops: seq<Op>)
    ensures ArmedRight(Exec(w, ops))
  {
    AlwaysJustArmed(w, ops);
    NextWakeIsEarliest(Exec(w, ops).jobs);
  }

  // ---- What a tick leaves ----

  ghost predicate NoneOverdue(jobs: seq<Job>, now: int) {
    forall i :: 0 <= i < |jobs| ==> !Due(jobs[i], now)
  }

  /** The clock does not run backwards during the tick. */
  ghost predicate NotBefore(executions: nat -> Execution, now: int) {
    forall k: nat :: ComputedAfter(executions, k, now)
  }

  predicate ComputedAfter(executions: nat -> Execution, k: nat, now: int) {
    executions(k).computeAt >= now
  }

  lemma OutcomeNotOverdue(j: Job, x: Execution, next: Croniter, now: int)
    requires MovesForward(next) && x.computeAt >= now
    ensures NoneOverdue(Outcome(j, x, next), now)
  {
    if j.schedule.expr.Some? {
      assert LaterMatch(next, j.schedule.expr.value, j.schedule.tz, x.computeAt);
    }
  }

  /** After a tick no enabled job has a next run at or before the tick's clock. */
  lemma {:induction false} TickLeavesNoneOverdue(jobs: seq<Job>, now: int, k: nat, executions: nat -> Execution,
                                                 next: Croniter)
    requires MovesForward(next) && NotBefore(executions, now)
    ensures NoneOverdue(Ticked(jobs, now, k, executions, next), now)
  {
    if jobs == [] {
    } else {
      assert ComputedAfter(executions, k, now);
      OutcomeNotOverdue(jobs[0], executions(k), next, now);
      TickLeavesNoneOverdue(jobs[1..], now, k + 1, executions, next);
      TickLeavesNoneOverdue(jobs[1..], now, k, executions, next);
    }
  }

  function Kept(jobs: seq<Job>, now: int): seq<JobId> {
    if jobs == [] then []
    else (if Due(jobs[0], now) && Deletes(jobs[0]) then [] else [jobs[0].id]) + Kept(jobs[1..], now)
  }

  /** A tick loses only due one-shot jobs marked for deletion, and keeps the order of the others. */
  lemma {:induction false} TickLosesOnlyOneShots(jobs: seq<Job>, now: int, k: nat, executions: nat -> Execution,
                                                 next: Croniter)
    ensures Ids(Ticked(jobs, now, k, executions, next)) == Kept(jobs, now)
  {
    if jobs == [] {
    } else {
      var j := jobs[0];
      var more := Ticked(jobs[1..], now, if Due(j, now) then k + 1 else k, executions, next);
      TickLosesOnlyOneShots(jobs[1..], now, if Due(j, now) then k + 1 else k, executions, next);
      if !Due(j, now) {
        assert ([j] + more)[1..] == more;
      } else if Deletes(j) {
        assert [] + more == more;
        assert [] + Kept(jobs[1..], now) == Kept(jobs[1..], now);
      } else {
        assert ([Executed(j, executions(k), next)] + more)[1..] == more;
      }
    }
  }

  /** A job that is not due comes through the tick as it was. */
  lemma {:induction false} TickSparesTheRest(jobs: seq<Job>, now: int, k: nat, executions: nat -> Execution,
                                            next: Croniter, i: nat)
    requires i < |jobs| && !Due(jobs[i], now)
    ensures jobs[i] in Ticked(jobs, now, k, executions, next)
  {
    if i > 0 {
      TickSparesTheRest(jobs[1..], now, if Due(jobs[0], now) then k + 1 else k, executions, next, i - 1);
    }
  }

  // ---- Unique ids ----

  /** `a` has unique ids, all of them among those of `b`. */
  ghost predicate Thinner(a: seq<Job>, b: seq<Job>) {
    UniqueIds(a) && forall id :: id in Ids(a) ==> id in Ids(b)
  }

  lemma ThinnerCons(head: seq<Job>, rest: seq<Job>, jobs: seq<Job>)
    requires UniqueIds(jobs) && jobs != [] && Thinner(rest, jobs[1..])
    requires head == [] || (|head| == 1 && head[0].id == jobs[0].id)
    ensures Thinner(head + rest, jobs)
  {
    assert head == [] ==> head + rest == rest;
    assert head != [] ==> (head + rest)[1..] == rest;
    assert forall id :: id in Ids(jobs[1..]) ==> id in Ids(jobs);
  }

  lemma UniqueRest(jobs: seq<Job>)
    requires UniqueIds(jobs) && jobs != []
    ensures UniqueIds(jobs[1..]) && jobs[0].id !in Ids(jobs[1..])
  {
    assert Ids(jobs)[1..] == Ids(jobs[1..]);
  }

  lemma {:induction false} TickThins(jobs: seq<Job>, now: int, k: nat, executions: nat -> Execution, next: Croniter)
    requires UniqueIds(jobs)
    ensures Thinner(Ticked(jobs, now, k, executions, next), jobs)
  {
    if jobs == [] {
    } else {
      UniqueRest(jobs);
      var k' := if Due(jobs[0], now) then k + 1 else k;
      TickThins(jobs[1..], now, k', executions, next);
      ThinnerCons(if Due(jobs[0], now) then Outcome(jobs[0], executions(k), next) else [jobs[0]],
                  Ticked(jobs[1..], now, k', executions, next), jobs);
    }
  }

  lemma {:induction false} ExecuteThins(jobs: seq<Job>, id: JobId, x: Execution, next: Croniter)
    requires UniqueIds(jobs)
    ensures Thinner(ExecuteIn(jobs, id, x, next), jobs)
  {
    if jobs == [] {
    } else {
      UniqueRest(jobs);
      ExecuteThins(jobs[1..], id, x, next);
      ThinnerCons(if jobs[0].id == id then Outcome(jobs[0], x, next) else [jobs[0]],
                  ExecuteIn(jobs[1..], id, x, next), jobs);
    }
  }

  lemma {:induction false} RemovedThins(jobs: seq<Job>, id: JobId)
    requires UniqueIds(jobs)
    ensures Thinner(Removed(jobs, id), jobs)
  {
    if jobs == [] {
    } else {
      UniqueRest(jobs);
      RemovedThins(jobs[1..], id);
      ThinnerCons(if jobs[0].id == id then [] else [jobs[0]], Removed(jobs[1..], id), jobs);
    }
  }

  lemma {:induction false} SetEnabledIds(jobs: seq<Job>, id: JobId, enabled: bool, updated: int, now: int,
                                         next: Croniter)
    ensures Ids(SetEnabled(jobs, id, enabled, updated, now, next)) == Ids(jobs)
  {
    if jobs == [] {
    } else if jobs[0].id != id {
      SetEnabledIds(jobs[1..], id, enabled, updated, now, next);
    }
  }

  lemma RecomputedIds(jobs: seq<Job>, now: int, next: Croniter)
    ensures Ids(Recomputed(jobs, now, next)) == Ids(jobs)
  {
  }

  /** A new job gets an id that is not in the table. */
  predicate FreshId(s: Service, op: Op) {
    op.Add? ==> op.id !in Ids(s.jobs)
  }

  lemma AppendUnique(jobs: seq<Job>, j: Job)
    requires UniqueIds(jobs) && j.id !in Ids(jobs)
    ensures UniqueIds(jobs + [j])
  {
    IdsAppend(jobs, j);
    NoDupAppend(Ids(jobs), j.id);
  }

  lemma StepKeepsUnique(w: World, s: Service, op: Op)
    requires UniqueIds(s.jobs) && FreshId(s, op)
    ensures UniqueIds(Step(w, s, op).jobs)
  {
    match op {
      case Start(now) => RecomputedIds(s.jobs, now, w.next);
      case Stop =>
      case Add(id, name, schedule, message, deleteAfterRun, now) =>
        AppendUnique(s.jobs, NewJob(id, name, schedule, message, deleteAfterRun, now, w.next));
      case Remove(id) => RemovedThins(s.jobs, id);
      case Enable(id, enabled, updated, now) => SetEnabledIds(s.jobs, id, enabled, updated, now, w.next);
      case RunNow(id, force, x) => ExecuteThins(s.jobs, id, x, w.next);
      case Tick(now, executions) => TickThins(s.jobs, now, 0, executions, w.next);
    }
  }

  /** No id is given to two jobs in the run, not even after the first is gone. */
  ghost predicate NewIds(ops: seq<Op>) {
    forall i, j :: 0 <= i < j < |ops| && ops[i].Add? && ops[j].Add? ==> ops[i].id != ops[j].id
  }

  ghost predicate AddedIn(ops: seq<Op>, id: JobId) {
    exists m :: 0 <= m < |ops| && ops[m].Add? && ops[m].id == id
  }

  /** A step brings no id into the table but that of a new job. */
  lemma StepIds(w: World, s: Service, op: Op, id: JobId)
    requires UniqueIds(s.jobs) && id in Ids(Step(w, s, op).jobs)
    ensures id in Ids(s.jobs) || (op.Add? && op.id == id)
  {
    match op {
      case Start(now) => RecomputedIds(s.jobs, now, w.next);
      case Stop =>
      case Add(added, name, schedule, message, deleteAfterRun, now) =>
        IdsAppend(s.jobs, NewJob(added, name, schedule, message, deleteAfterRun, now, w.next));
      case Remove(target) => RemovedThins(s.jobs, target);
      case Enable(target, enabled, updated, now) => SetEnabledIds(s.jobs, target, enabled, updated, now, w.next);
      case RunNow(target, force, x) => ExecuteThins(s.jobs, target, x, w.next);
      case Tick(now, executions) => TickThins(s.jobs, now, 0, executions, w.next);
    }
  }

  lemma IdsAppend(jobs: seq<Job>, j: Job)
    ensures Ids(jobs + [j]) == Ids(jobs) + [j.id]
  {
  }

  /** While no id is used twice, ids are unique in the table, and all of them were given to new jobs of the run. */
  lemma {:induction false} AlwaysUnique(w: World, ops: seq<Op>, n: nat)
    requires n <= |ops| && NewIds(ops)
    ensures UniqueIds(Exec(w, ops[..n]).jobs)
    ensures forall id :: id in Ids(Exec(w, ops[..n]).jobs) ==> AddedIn(ops[..n], id)
    decreases n
  {
    if n > 0 {
      var s, op := Exec(w, ops[..n - 1]), ops[n - 1];
      AlwaysUnique(w, ops, n - 1);
      assert ops[..n][..n - 1] == ops[..n - 1];
      assert FreshId(s, op);
      StepKeepsUnique(w, s, op);
      forall id | id in Ids(Step(w, s, op).jobs)
        ensures AddedIn(ops[..n], id)
      {
        StepIds(w, s, op, id);
        AddedLonger(ops, n, id);
      }
    }
  }

  lemma AddedLonger(ops: seq<Op>, n: nat, id: JobId)
    requires 0 < n <= |ops| && (AddedIn(ops[..n - 1], id) || (ops[n - 1].Add? && ops[n - 1].id == id))
    ensures AddedIn(ops[..n], id)
  {
    var before := ops[..n - 1];
    if m :| 0 <= m < |before| && before[m].Add? && before[m].id == id {
      assert ops[..n][m] == ops[m];
    } else {
      assert ops[..n][n - 1] == ops[n - 1];
    }
  }

  // ---- One-shot jobs ----

  /** No job `id` can fire: it is gone or disabled. */
  ghost predicate Spent(jobs: seq<Job>, id: JobId) {
    forall i :: 0 <= i < |jobs| && jobs[i].id == id ==> !jobs[i].enabled
  }

  /** Every job `id` is a one-shot job. */
  ghost predicate OneShot(jobs: seq<Job>, id: JobId) {
    forall i :: 0 <= i < |jobs| && jobs[i].id == id ==> jobs[i].schedule.kind == At
  }

  /** The tick `op` executes a job `id`. */
  ghost predicate Fires(s: Service, op: Op, id: JobId) {
    op.Tick? && exists i :: 0 <= i < |s.jobs| && s.jobs[i].id == id && Due(s.jobs[i], op.now)
  }

  predicate Enables(op: Op, id: JobId) {
    op.Enable? && op.id == id && op.enabled
  }

  predicate Revives(op: Op, id: JobId) {
    Enables(op, id) || (op.Add? && op.id == id)
  }

  lemma {:induction false} ExecuteKeepsSpent(jobs: seq<Job>, target: JobId, x: Execution, next: Croniter, id: JobId)
    requires Spent(jobs, id)
    ensures Spent(ExecuteIn(jobs, target, x, next), id)
  {
    if jobs == [] {
    } else {
      assert Spent(jobs[1..], id) by { assert forall i :: 0 <= i < |jobs[1..]| ==> jobs[1..][i] == jobs[i + 1]; }
      ExecuteKeepsSpent(jobs[1..], target, x, next, id);
      var head := if jobs[0].id == target then Outcome(jobs[0], x, next) else [jobs[0]];
      assert Spent(head, id);
    }
  }

  /** A tick leaves a one-shot job that it fires, or that was already spent, spent. */
  lemma {:induction false} TickSpends(jobs: seq<Job>, now: int, k: nat, executions: nat -> Execution, next: Croniter,
                                      id: JobId)
    requires forall i :: 0 <= i < |jobs| && jobs[i].id == id && jobs[i].enabled ==> jobs[i].schedule.kind == At
    requires forall i :: 0 <= i < |jobs| && jobs[i].id == id && jobs[i].enabled ==> Due(jobs[i], now)
    ensures Spent(Ticked(jobs, now, k, executions, next), id)
  {
    if jobs == [] {
    } else {
      var rest := jobs[1..];
      assert forall i :: 0 <= i < |rest| ==> rest[i] == jobs[i + 1];
      var k' := if Due(jobs[0], now) then k + 1 else k;
      TickSpends(rest, now, k', executions, next, id);
      var head := if Due(jobs[0], now) then Outcome(jobs[0], executions(k), next) else [jobs[0]];
      assert Spent(head, id);
    }
  }

  lemma {:induction false} RemovedKeepsSpent(jobs: seq<Job>, target: JobId, id: JobId)
    requires Spent(jobs, id)
    ensures Spent(Removed(jobs, target), id)
  {
    if jobs == [] {
    } else {
      assert forall i :: 0 <= i < |jobs[1..]| ==> jobs[1..][i] == jobs[i + 1];
      RemovedKeepsSpent(jobs[1..], target, id);
    }
  }

  lemma {:induction false} SetEnabledKeepsSpent(jobs: seq<Job>, target: JobId, enabled: bool, updated: int, now: int,
                                                next: Croniter, id: JobId)
    requires Spent(jobs, id) && (target == id ==> !enabled)
    ensures Spent(SetEnabled(jobs, target, enabled, updated, now, next), id)
  {
    if jobs == [] {
    } else {
      assert forall i :: 0 <= i < |jobs[1..]| ==> jobs[1..][i] == jobs[i + 1];
      if jobs[0].id != target { SetEnabledKeepsSpent(jobs[1..], target, enabled, updated, now, next, id); }
    }
  }

  /** Only an explicit enable, or a new job of the same id, lets a spent job fire again. */
  lemma SpentStays(w: World, s: Service, op: Op, id: JobId)
    requires Spent(s.jobs, id) && !Revives(op, id)
    ensures Spent(Step(w, s, op).jobs, id) && !Fires(s, op, id)
  {
    match op {
      case Start(now) =>
      case Stop =>
      case Add(_, name, schedule, message, deleteAfterRun, now) =>
      case Remove(target) => RemovedKeepsSpent(s.jobs, target, id);
      case Enable(target, enabled, updated, now) =>
        SetEnabledKeepsSpent(s.jobs, target, enabled, updated, now, w.next, id);
      case RunNow(target, force, x) => ExecuteKeepsSpent(s.jobs, target, x, w.next, id);
      case Tick(now, executions) => TickSpends(s.jobs, now, 0, executions, w.next, id);
    }
  }

  lemma SpentAfter(w: World, ops: seq<Op>, j: nat, id: JobId)
    requires 0 < j <= |ops| && Spent(Exec(w, ops[..j - 1]).jobs, id) && !Revives(ops[j - 1], id)
    ensures Spent(Exec(w, ops[..j]).jobs, id)
  {
    assert ops[..j][..j - 1] == ops[..j - 1];
    SpentStays(w, Exec(w, ops[..j - 1]), ops[j - 1], id);
  }

  lemma {:induction false} SpentUntilRevived(w: World, ops: seq<Op>, i: nat, j: nat, id: JobId)
    requires i <= j <= |ops| && Spent(Exec(w, ops[..i]).jobs, id)
    requires forall k :: i <= k < j ==> !Revives(ops[k], id)
    ensures Spent(Exec(w, ops[..j]).jobs, id)
    decreases j
  {
    if i < j {
      SpentUntilRevived(w, ops, i, j - 1, id);
      SpentAfter(w, ops, j, id);
    }
  }

  lemma StaysUnfired(w: World, ops: seq<Op>, i: nat, j: nat, id: JobId)
    requires i < j < |ops| && UniqueIds(Exec(w, ops[..i]).jobs) && OneShot(Exec(w, ops[..i]).jobs, id)
    requires Fires(Exec(w, ops[..i]), ops[i], id)
    requires forall k :: i < k < j ==> !Revives(ops[k], id)
    ensures !Fires(Exec(w, ops[..j]), ops[j], id)
  {
    assert ops[..i + 1][..i] == ops[..i];
    var s := Exec(w, ops[..i]);
    UniquePairwise(s.jobs);
    TickSpends(s.jobs, ops[i].now, 0, ops[i].executions, w.next, id);
    SpentUntilRevived(w, ops, i + 1, j, id);
  }

  lemma FiredWasAdded(w: World, ops: seq<Op>, i: nat, k: nat, id: JobId)
    requires i <= k < |ops| && NewIds(ops)
    requires exists n :: 0 <= n < |Exec(w, ops[..i]).jobs| && Exec(w, ops[..i]).jobs[n].id == id
    ensures !(ops[k].Add? && ops[k].id == id)
  {
    AlwaysUnique(w, ops, i);
    var jobs := Exec(w, ops[..i]).jobs;
    var n :| 0 <= n < |jobs| && jobs[n].id == id;
    assert Ids(jobs)[n] == id;
    assert AddedIn(ops[..i], id);
    var m :| 0 <= m < i && ops[..i][m].Add? && ops[..i][m].id == id;
    assert ops[m] == ops[..i][m];
  }

  /** Between two ticks that fire the same one-shot job there is an explicit enable of it. */
  lemma FiresOncePerEnable(w: World, ops: seq<Op>, i: nat, j: nat, id: JobId)
    requires i < j < |ops| && NewIds(ops) && OneShot(Exec(w, ops[..i]).jobs, id)
    requires Fires(Exec(w, ops[..i]), ops[i], id) && Fires(Exec(w, ops[..j]), ops[j], id)
    ensures exists k :: i < k < j && Enables(ops[k], id)
  {
    AlwaysUnique(w, ops, i);
    if forall k :: i < k < j ==> !Enables(ops[k], id) {
      forall k | i < k < j
        ensures !Revives(ops[k], id)
      {
        FiredWasAdded(w, ops, i, k, id);
      }
      StaysUnfired(w, ops, i, j, id);
    }
  }
}
