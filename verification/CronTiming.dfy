/**
 When the jobs of `cron/service.py` run: the life of each job, told from the operations alone, and the clock
 readings between which it is due.
 */
module CronTiming {
  import opened Wrappers
  import opened Sequences
  import opened CronModel

  /** A schedule planned at the clock reading `planned` comes due at `t`. */
  predicate DueFrom(s: Schedule, planned: int, t: int, next: Croniter) {
    match s.kind
    case At => s.atMs == Some(t) && planned < t && t != 0
    case Every => s.everyMs.Some? && s.everyMs.value > 0 && t == planned + s.everyMs.value
    case CronExpr => s.expr.Some? && s.expr.value != "" && next(s.expr.value, s.tz, planned) == Some(t)
  }

  /**
   One job: as it was added, whether it is enabled, the clock reading it was last planned at, if its plan was not
   cancelled, its last execution, and its last change.
   */
  datatype Life = Life(name: string, schedule: Schedule, message: string, deleteAfterRun: bool, createdAt: int,
                       enabled: bool, planned: Option<int>, last: Option<Execution>, changedAt: int)

  ghost predicate Ready(l: Life, now: int, next: Croniter) {
    l.enabled && l.planned.Some? && exists t :: DueFrom(l.schedule, l.planned.value, t, next) && t != 0 && t <= now
  }

  /** A one-shot job is over after its execution, any other is planned anew. */
  function AfterRun(l: Life, x: Execution): Option<Life> {
    if l.schedule.kind != At then Some(l.(planned := Some(x.computeAt), last := Some(x), changedAt := x.updated))
    else if l.deleteAfterRun then None
    else Some(l.(enabled := false, planned := None, last := Some(x), changedAt := x.updated))
  }

  /** How many jobs due at `now` come before the job in the table. */
  function Rank(jobs: seq<Job>, now: int, id: JobId): nat {
    if jobs == [] || jobs[0].id == id then 0 else (if Due(jobs[0], now) then 1 else 0) + Rank(jobs[1..], now, id)
  }

  /** One operation in the life of the job `id`; `jobs` is the table, read for the turn of the job in a tick. */
  ghost function Aged(w: World, jobs: seq<Job>, l: Life, op: Op, id: JobId): Option<Life> {
    match op
    case Start(now) => Some(if l.enabled then l.(planned := Some(now)) else l)
    case Stop => Some(l)
    case Add(_, _, _, _, _, _) => Some(l)
    case Remove(target) => if target == id then None else Some(l)
    case Enable(target, enabled, updated, now) =>
      Some(if target != id then l
           else l.(enabled := enabled, changedAt := updated, planned := if enabled then Some(now) else None))
    case RunNow(target, force, x) => if target == id && (force || l.enabled) then AfterRun(l, x) else Some(l)
    case Tick(now, executions) =>
      if Ready(l, now, w.next) then AfterRun(l, executions(Rank(jobs, now, id))) else Some(l)
  }

  ghost function Lived(w: World, ops: seq<Op>, id: JobId): Option<Life> {
    if ops == [] then None
    else
      var op, before := ops[|ops| - 1], Lived(w, ops[..|ops| - 1], id);
      if op.Add? && op.id == id && ValidSchedule(op.schedule, w.knownTz) then
        Some(Life(op.name, op.schedule, op.message, op.deleteAfterRun, op.now, true, Some(op.now), None, op.now))
      else if before.None? then None
      else Aged(w, Exec(w, ops[..|ops| - 1]).jobs, before.value, op, id)
  }

  /** The next run is the time at which the plan comes due, None if it never does or was cancelled. */
  ghost predicate PlannedRight(nextRun: Option<int>, s: Schedule, planned: Option<int>, next: Croniter) {
    if nextRun.Some? then planned.Some? && DueFrom(s, planned.value, nextRun.value, next)
    else planned.Some? ==> forall t :: !DueFrom(s, planned.value, t, next)
  }

  ghost predicate Leads(j: Job, l: Life, next: Croniter) {
    && j.name == l.name && j.schedule == l.schedule && j.message == l.message
    && j.deleteAfterRun == l.deleteAfterRun && j.createdAt == l.createdAt && j.updatedAt == l.changedAt
    && j.enabled == l.enabled && PlannedRight(j.nextRun, l.schedule, l.planned, next)
    && j.lastRun == (if l.last.Some? then Some(l.last.value.start) else None)
    && j.lastError == (if l.last.Some? then l.last.value.error else None)
  }

  ghost predicate Matches(j: Option<Job>, l: Option<Life>, next: Croniter) {
    j.Some? == l.Some? && (j.Some? ==> Leads(j.value, l.value, next))
  }

  // ---- What each operation does to one job ----

  lemma Computed(s: Schedule, now: int, next: Croniter)
    ensures PlannedRight(ComputeNextRun(s, now, next), s, Some(now), next)
  {
  }

  lemma DueIsReady(j: Job, l: Life, now: int, next: Croniter)
    requires Leads(j, l, next)
    ensures Due(j, now) <==> Ready(l, now, next)
  {
    if Due(j, now) { assert DueFrom(l.schedule, l.planned.value, j.nextRun.value, next); }
  }

  lemma ExecutedLeads(j: Job, l: Life, x: Execution, next: Croniter)
    requires Leads(j, l, next)
    ensures Matches(if Deletes(j) then None else Some(Executed(j, x, next)), AfterRun(l, x), next)
  {
    Computed(j.schedule, x.computeAt, next);
  }

  /** The first job of a table put together from a head and a rest. */
  lemma FindCons(head: seq<Job>, rest: seq<Job>, id: JobId)
    requires |head| <= 1
    ensures Find(head + rest, id) == if head != [] && head[0].id == id then Some(head[0]) else Find(rest, id)
  {
    assert head == [] ==> head + rest == rest;
    assert head != [] ==> (head + rest)[1..] == rest;
  }

  lemma {:induction false} Absent(jobs: seq<Job>, id: JobId)
    ensures Find(jobs, id).None? <==> id !in Ids(jobs)
  {
    if jobs == [] {
    } else {
      Absent(jobs[1..], id);
    }
  }

  predicate DueAt(jobs: seq<Job>, id: JobId, now: int) {
    Find(jobs, id).Some? && Due(Find(jobs, id).value, now)
  }

  /** What a tick makes of the job that `Find` finds. */
  function FoundAfterTick(j: Option<Job>, now: int, x: Execution, next: Croniter): Option<Job> {
    if j.None? || !Due(j.value, now) then j else if Deletes(j.value) then None else Some(Executed(j.value, x, next))
  }

  lemma TickedCons(jobs: seq<Job>, now: int, k: nat, executions: nat -> Execution, next: Croniter, rest: seq<Job>)
    requires jobs != []
    requires rest == Ticked(jobs[1..], now, if Due(jobs[0], now) then k + 1 else k, executions, next)
    ensures Ticked(jobs, now, k, executions, next) == AfterTick(jobs[0], now, executions(k), next) + rest
  {
  }

  function AfterTick(j: Job, now: int, x: Execution, next: Croniter): (head: seq<Job>)
    ensures |head| <= 1 && (head != [] ==> head[0].id == j.id)
    ensures FoundAfterTick(Some(j), now, x, next) == if head == [] then None else Some(head[0])
  {
    if Due(j, now) then Outcome(j, x, next) else [j]
  }

  lemma {:induction false} TickFinds(jobs: seq<Job>, now: int, k: nat, executions: nat -> Execution, next: Croniter,
                                     id: JobId)
    requires UniqueIds(jobs)
    ensures Find(Ticked(jobs, now, k, executions, next), id)
         == FoundAfterTick(Find(jobs, id), now, executions(k + Rank(jobs, now, id)), next)
  {
    if jobs == [] {
    } else {
      var k' := if Due(jobs[0], now) then k + 1 else k;
      var head, rest := AfterTick(jobs[0], now, executions(k), next), Ticked(jobs[1..], now, k', executions, next);
      UniqueRest(jobs);
      TickFinds(jobs[1..], now, k', executions, next, id);
      TickedCons(jobs, now, k, executions, next, rest);
      FindCons(head, rest, id);
      if jobs[0].id == id { Absent(jobs[1..], id); }
    }
  }

  lemma {:induction false} ExecuteFinds(jobs: seq<Job>, id: JobId, x: Execution, next: Croniter)
    requires UniqueIds(jobs) && Find(jobs, id).Some?
    ensures Find(ExecuteIn(jobs, id, x, next), id)
         == if Deletes(Find(jobs, id).value) then None else Some(Executed(Find(jobs, id).value, x, next))
  {
    UniqueRest(jobs);
    var rest := ExecuteIn(jobs[1..], id, x, next);
    FindCons(if jobs[0].id == id then Outcome(jobs[0], x, next) else [jobs[0]], rest, id);
    if jobs[0].id == id {
      ExecuteThins(jobs[1..], id, x, next);
      Absent(rest, id);
    } else {
      ExecuteFinds(jobs[1..], id, x, next);
    }
  }

  lemma {:induction false} ExecuteFindsOthers(jobs: seq<Job>, target: JobId, x: Execution, next: Croniter, id: JobId)
    requires id != target
    ensures Find(ExecuteIn(jobs, target, x, next), id) == Find(jobs, id)
  {
    if jobs != [] {
      ExecuteFindsOthers(jobs[1..], target, x, next, id);
      var rest := ExecuteIn(jobs[1..], target, x, next);
      var head := if jobs[0].id == target then Outcome(jobs[0], x, next) else [jobs[0]];
      assert head == [] ==> head + rest == rest;
      assert head != [] ==> (head + rest)[1..] == rest;
    }
  }

  lemma {:induction false} RemovedFinds(jobs: seq<Job>, target: JobId, id: JobId)
    ensures Find(Removed(jobs, target), id) == if id == target then None else Find(jobs, id)
  {
    if jobs == [] {
    } else {
      RemovedFinds(jobs[1..], target, id);
      FindCons(if jobs[0].id == target then [] else [jobs[0]], Removed(jobs[1..], target), id);
    }
  }

  lemma {:induction false} EnableFinds(jobs: seq<Job>, target: JobId, enabled: bool, updated: int, now: int,
                                       next: Croniter, id: JobId)
    ensures var j := Find(jobs, id);
      Find(SetEnabled(jobs, target, enabled, updated, now, next), id)
      == if id == target && j.Some? then Some(EnabledAs(j.value, enabled, updated, now, next)) else j
  {
    if jobs == [] {
    } else if jobs[0].id == target {
      FindCons([EnabledAs(jobs[0], enabled, updated, now, next)], jobs[1..], id);
    } else {
      EnableFinds(jobs[1..], target, enabled, updated, now, next, id);
      FindCons([jobs[0]], SetEnabled(jobs[1..], target, enabled, updated, now, next), id);
    }
  }

  lemma {:induction false} RecomputedFinds(jobs: seq<Job>, now: int, next: Croniter, id: JobId)
    ensures var j := Find(jobs, id);
      Find(Recomputed(jobs, now, next), id) == if j.Some? then Some(CronModel.Refreshed(j.value, now, next)) else None
  {
    if jobs == [] {
    } else {
      RecomputedFinds(jobs[1..], now, next, id);
      assert Recomputed(jobs, now, next)[1..] == Recomputed(jobs[1..], now, next);
    }
  }

  lemma {:induction false} AppendFinds(jobs: seq<Job>, j: Job, id: JobId)
    ensures Find(jobs + [j], id)
         == if Find(jobs, id).Some? then Find(jobs, id) else if j.id == id then Some(j) else None
  {
    if jobs == [] {
      assert jobs + [j] == [j];
    } else {
      assert (jobs + [j])[1..] == jobs[1..] + [j];
      AppendFinds(jobs[1..], j, id);
    }
  }

  lemma RunAges(w: World, s: Service, target: JobId, force: bool, x: Execution, l: Life, id: JobId)
    requires UniqueIds(s.jobs) && Find(s.jobs, id).Some? && Leads(Find(s.jobs, id).value, l, w.next)
    ensures var op := RunNow(target, force, x);
      Matches(Find(Step(w, s, op).jobs, id), Aged(w, s.jobs, l, op, id), w.next)
  {
    ExecutedLeads(Find(s.jobs, id).value, l, x, w.next);
    if target == id { ExecuteFinds(s.jobs, id, x, w.next); } else { ExecuteFindsOthers(s.jobs, target, x, w.next, id); }
  }

  lemma TickAges(w: World, s: Service, now: int, executions: nat -> Execution, l: Life, id: JobId)
    requires UniqueIds(s.jobs) && Find(s.jobs, id).Some? && Leads(Find(s.jobs, id).value, l, w.next)
    ensures var op := Tick(now, executions);
      Matches(Find(Step(w, s, op).jobs, id), Aged(w, s.jobs, l, op, id), w.next)
  {
    var j := Find(s.jobs, id).value;
    DueIsReady(j, l, now, w.next);
    TickFinds(s.jobs, now, 0, executions, w.next, id);
    ExecutedLeads(j, l, executions(Rank(s.jobs, now, id)), w.next);
  }

  /** A job in the table ages as its life does. */
  lemma StepAges(w: World, s: Service, op: Op, l: Life, id: JobId)
    requires UniqueIds(s.jobs) && Find(s.jobs, id).Some? && Leads(Find(s.jobs, id).value, l, w.next)
    requires op.Add? ==> op.id != id
    ensures Matches(Find(Step(w, s, op).jobs, id), Aged(w, s.jobs, l, op, id), w.next)
  {
    var j := Find(s.jobs, id).value;
    match op {
      case Start(now) =>
        RecomputedFinds(s.jobs, now, w.next, id);
        Computed(j.schedule, now, w.next);
      case Stop =>
      case Add(added, name, schedule, message, deleteAfterRun, now) =>
        AppendFinds(s.jobs, NewJob(added, name, schedule, message, deleteAfterRun, now, w.next), id);
      case Remove(target) =>
        RemovedFinds(s.jobs, target, id);
      case Enable(target, enabled, updated, now) =>
        Computed(j.schedule, now, w.next);
        EnableFinds(s.jobs, target, enabled, updated, now, w.next, id);
      case RunNow(target, force, x) =>
        RunAges(w, s, target, force, x, l, id);
      case Tick(now, executions) =>
        TickAges(w, s, now, executions, l, id);
    }
  }

  /** A job that is not in the table comes into it only when it is added. */
  lemma StepBrings(w: World, s: Service, op: Op, id: JobId)
    requires UniqueIds(s.jobs) && Find(s.jobs, id).None?
    ensures Find(Step(w, s, op).jobs, id)
         == if op.Add? && op.id == id && ValidSchedule(op.schedule, w.knownTz)
            then Some(NewJob(id, op.name, op.schedule, op.message, op.deleteAfterRun, op.now, w.next)) else None
  {
    Absent(s.jobs, id);
    Absent(Step(w, s, op).jobs, id);
    if op.Add? {
      AppendFinds(s.jobs, NewJob(op.id, op.name, op.schedule, op.message, op.deleteAfterRun, op.now, w.next), id);
    } else if id in Ids(Step(w, s, op).jobs) {
      StepIds(w, s, op, id);
    }
  }

  lemma NotAddedAgain(w: World, ops: seq<Op>, id: JobId)
    requires ops != [] && NewIds(ops) && Find(Exec(w, ops[..|ops| - 1]).jobs, id).Some?
    ensures UniqueIds(Exec(w, ops[..|ops| - 1]).jobs) && (ops[|ops| - 1].Add? ==> ops[|ops| - 1].id != id)
  {
    var n := |ops| - 1;
    AlwaysUnique(w, ops, n);
    Absent(Exec(w, ops[..n]).jobs, id);
    assert AddedIn(ops[..n], id);
    var m :| 0 <= m < n && ops[..n][m].Add? && ops[..n][m].id == id;
    assert ops[m] == ops[..n][m];
  }

  /**
   After every run the table holds exactly the jobs that were added and are not over or removed, each as it was
   added, enabled as it was last, with its last execution, and with the next run that its schedule gives for the
   clock reading at which it was last planned.
   */
  lemma {:induction false} TableIsLives(w: World, ops: seq<Op>, id: JobId)
    requires NewIds(ops)
    ensures Matches(Find(Exec(w, ops).jobs, id), Lived(w, ops, id), w.next)
  {
    if ops == [] {
    } else {
      var before, op := ops[..|ops| - 1], ops[|ops| - 1];
      TableIsLives(w, before, id);
      AlwaysUnique(w, ops, |ops| - 1);
      var s := Exec(w, before);
      if Find(s.jobs, id).Some? {
        NotAddedAgain(w, ops, id);
        StepAges(w, s, op, Lived(w, before, id).value, id);
      } else {
        StepBrings(w, s, op, id);
        if op.Add? { Computed(op.schedule, op.now, w.next); }
      }
    }
  }

  // ---- When a tick fires a job ----

  lemma {:induction false} FindIsIn(jobs: seq<Job>, id: JobId, now: int)
    requires UniqueIds(jobs)
    ensures (exists i :: 0 <= i < |jobs| && jobs[i].id == id && Due(jobs[i], now)) <==> DueAt(jobs, id, now)
  {
    if jobs == [] {
    } else {
      var rest := jobs[1..];
      UniqueRest(jobs);
      FindIsIn(rest, id, now);
      assert forall i :: 1 <= i < |jobs| ==> jobs[i] == rest[i - 1];
      if DueAt(rest, id, now) && jobs[0].id != id {
        var i :| 0 <= i < |rest| && rest[i].id == id && Due(rest[i], now);
        assert jobs[i + 1] == rest[i];
      }
      if jobs[0].id == id {
        Absent(rest, id);
        assert forall i :: 0 <= i < |rest| ==> Ids(rest)[i] == rest[i].id;
      }
    }
  }

  /** A tick fires exactly the enabled jobs whose plan has come due. */
  lemma FiresExactly(w: World, ops: seq<Op>, now: int, executions: nat -> Execution, id: JobId)
    requires NewIds(ops)
    ensures Fires(Exec(w, ops), Tick(now, executions), id)
       <==> Lived(w, ops, id).Some? && Ready(Lived(w, ops, id).value, now, w.next)
  {
    var jobs := Exec(w, ops).jobs;
    assert ops[..|ops|] == ops;
    AlwaysUnique(w, ops, |ops|);
    TableIsLives(w, ops, id);
    FindIsIn(jobs, id, now);
    if Find(jobs, id).Some? { DueIsReady(Find(jobs, id).value, Lived(w, ops, id).value, now, w.next); }
  }

  /** A one-shot job fires at the first tick that reaches its time, provided it was planned before that time. */
  lemma OneShotFiresExactly(w: World, ops: seq<Op>, now: int, executions: nat -> Execution, id: JobId)
    requires NewIds(ops) && Lived(w, ops, id).Some? && Lived(w, ops, id).value.schedule.kind == At
    ensures var l := Lived(w, ops, id).value; var at := l.schedule.atMs;
      Fires(Exec(w, ops), Tick(now, executions), id) <==>
      l.enabled && l.planned.Some? && at.Some? && at.value != 0 && l.planned.value < at.value <= now
  {
    var l := Lived(w, ops, id).value;
    FiresExactly(w, ops, now, executions, id);
    if l.planned.Some? && l.schedule.atMs.Some? {
      assert DueFrom(l.schedule, l.planned.value, l.schedule.atMs.value, w.next)
        <==> l.planned.value < l.schedule.atMs.value && l.schedule.atMs.value != 0;
    }
  }

  /** A recurring job fires at the first tick that comes an interval or more after its last planning. */
  lemma RecurringFiresExactly(w: World, ops: seq<Op>, now: int, executions: nat -> Execution, id: JobId)
    requires NewIds(ops) && Lived(w, ops, id).Some? && Lived(w, ops, id).value.schedule.kind == Every
    ensures var l := Lived(w, ops, id).value; var every := l.schedule.everyMs;
      Fires(Exec(w, ops), Tick(now, executions), id) <==>
      && l.enabled && l.planned.Some? && every.Some? && every.value > 0
      && l.planned.value + every.value <= now && l.planned.value + every.value != 0
  {
    var l := Lived(w, ops, id).value;
    FiresExactly(w, ops, now, executions, id);
    if l.planned.Some? && l.schedule.everyMs.Some? && l.schedule.everyMs.value > 0 {
      assert DueFrom(l.schedule, l.planned.value, l.planned.value + l.schedule.everyMs.value, w.next);
    }
  }

  /** The operation may change when the job is due: it concerns the job, or starts the service. */
  predicate Replans(op: Op, id: JobId) {
    match op
    case Start(_) => true
    case Remove(target) => target == id
    case Enable(target, _, _, _) => target == id
    case RunNow(target, _, _) => target == id
    case _ => false
  }

  ghost predicate LeftAlone(w: World, ops: seq<Op>, k: nat, id: JobId)
    requires k < |ops|
  {
    !Replans(ops[k], id) && !Fires(Exec(w, ops[..k]), ops[k], id)
  }

  lemma NewIdsPrefix(ops: seq<Op>, n: nat)
    requires NewIds(ops) && n <= |ops|
    ensures NewIds(ops[..n])
  {
  }

  lemma StaysOnce(w: World, ops: seq<Op>, id: JobId)
    requires ops != [] && NewIds(ops) && Lived(w, ops[..|ops| - 1], id).Some? && LeftAlone(w, ops, |ops| - 1, id)
    ensures Lived(w, ops, id) == Lived(w, ops[..|ops| - 1], id)
  {
    var before, op := ops[..|ops| - 1], ops[|ops| - 1];
    NewIdsPrefix(ops, |ops| - 1);
    TableIsLives(w, before, id);
    NotAddedAgain(w, ops, id);
    if op.Tick? { FiresExactly(w, before, op.now, op.executions, id); }
  }

  lemma {:induction false} LifeStays(w: World, ops: seq<Op>, i: nat, j: nat, id: JobId)
    requires i <= j <= |ops| && NewIds(ops) && Lived(w, ops[..i], id).Some?
    requires forall k :: i <= k < j ==> LeftAlone(w, ops, k, id)
    ensures Lived(w, ops[..j], id) == Lived(w, ops[..i], id)
    decreases j
  {
    if i < j {
      LifeStays(w, ops, i, j - 1, id);
      var longer := ops[..j];
      assert longer[..j - 1] == ops[..j - 1] && longer[j - 1] == ops[j - 1];
      NewIdsPrefix(ops, j);
      assert LeftAlone(w, ops, j - 1, id);
      StaysOnce(w, longer, id);
    }
  }

  /** The clock reading at which the tick that fires the job plans it anew. */
  function ReplannedAt(s: Service, op: Op, id: JobId): int
    requires op.Tick?
  {
    op.executions(Rank(s.jobs, op.now, id)).computeAt
  }

  /**
   Once a tick has fired a recurring job, and until it is handled otherwise, the next tick to fire it is the first
   whose clock is at least the interval after the reading at which the job was planned anew.
   */
  lemma EveryWaitsItsInterval(w: World, ops: seq<Op>, i: nat, j: nat, id: JobId)
    requires i < j < |ops| && NewIds(ops) && ops[j].Tick? && Fires(Exec(w, ops[..i]), ops[i], id)
    requires forall k :: i < k < j ==> LeftAlone(w, ops, k, id)
    requires var l := Lived(w, ops[..i], id); l.Some? ==>
      l.value.schedule.kind == Every && l.value.schedule.everyMs.Some? && l.value.schedule.everyMs.value > 0
    ensures Lived(w, ops[..i], id).Some?
    ensures var due := ReplannedAt(Exec(w, ops[..i]), ops[i], id) + Lived(w, ops[..i], id).value.schedule.everyMs.value;
      Fires(Exec(w, ops[..j]), ops[j], id) <==> ops[j].now >= due && due != 0
  {
    var tick := ops[i];
    NewIdsPrefix(ops, i);
    NewIdsPrefix(ops, j);
    FiresExactly(w, ops[..i], tick.now, tick.executions, id);
    assert ops[..i + 1][..i] == ops[..i];
    LifeStays(w, ops, i + 1, j, id);
    RecurringFiresExactly(w, ops[..j], ops[j].now, ops[j].executions, id);
  }

  // ---- A time that passes while the service is down ----

  const AT_HUNDRED := Schedule(At, Some(100), None, None, None)

  /** A one-shot job whose time passes before the service starts stays enabled and is not fired by any later tick. */
  lemma MissedWhileStopped(w: World, now: int, executions: nat -> Execution)
    ensures var ops := [Add("a", "", AT_HUNDRED, "", false, 0), Op.Start(200)];
      && !Fires(Exec(w, ops), Tick(now, executions), "a")
      && Find(Exec(w, ops).jobs, "a").Some? && Find(Exec(w, ops).jobs, "a").value.enabled
  {
    var add, start := Add("a", "", AT_HUNDRED, "", false, 0), Op.Start(200);
    var ops := [add, start];
    assert ops[..1] == [add] && [add][..0] == [];
    assert Lived(w, [add], "a").Some?;
    assert Lived(w, ops, "a").value.planned == Some(200);
    TableIsLives(w, ops, "a");
    OneShotFiresExactly(w, ops, now, executions, "a");
  }

  // ---- Whether the service runs ----

  /** The last start or stop of the run was a start. */
  predicate LastStarted(ops: seq<Op>) {
    ops != []
    && var op := ops[|ops| - 1]; op.Start? || (!op.Stop? && LastStarted(ops[..|ops| - 1]))
  }

  lemma {:induction false} RunsExactly(w: World, ops: seq<Op>)
    ensures Exec(w, ops).running <==> LastStarted(ops)
  {
    if ops == [] {
    } else {
      RunsExactly(w, ops[..|ops| - 1]);
    }
  }
}
