/**
 `CronService` of `cron/service.py`: each method carries out one step of `CronModel`. Writing the
 job file, `asyncio` and the job callback are not part of this model.
 */
module CronService {
  import opened Wrappers
  import opened CronModel
  import opened CronTiming

  // ---- One job at a time is as good as all at once ----

  function DueIds(jobs: seq<Job>, now: int): seq<JobId> {
    if jobs == [] then []
    else if Due(jobs[0], now) then [jobs[0].id] + DueIds(jobs[1..], now)
    else DueIds(jobs[1..], now)
  }

  function ExecuteAll(jobs: seq<Job>, ids: seq<JobId>, k: nat, executions: nat -> Execution, next: Croniter): seq<Job>
    decreases |ids|
  {
    if ids == [] then jobs
    else ExecuteAll(ExecuteIn(jobs, ids[0], executions(k), next), ids[1..], k + 1, executions, next)
  }

  lemma {:induction false} ExecuteElsewhere(jobs: seq<Job>, id: JobId, x: Execution, next: Croniter)
    requires id !in Ids(jobs)
    ensures ExecuteIn(jobs, id, x, next) == jobs
  {
    if jobs == [] {
    } else {
      assert Ids(jobs)[0] == jobs[0].id;
      assert Ids(jobs)[1..] == Ids(jobs[1..]);
      ExecuteElsewhere(jobs[1..], id, x, next);
    }
  }

  lemma {:induction false} ExecuteBeyond(head: seq<Job>, rest: seq<Job>, ids: seq<JobId>, k: nat,
                                         executions: nat -> Execution, next: Croniter)
    requires |head| <= 1 && (head == [] || head[0].id !in ids)
    ensures ExecuteAll(head + rest, ids, k, executions, next) == head + ExecuteAll(rest, ids, k, executions, next)
    decreases |ids|
  {
    if ids == [] {
    } else {
      ExecutePast(head, rest, ids[0], executions(k), next);
      ExecuteBeyond(head, ExecuteIn(rest, ids[0], executions(k), next), ids[1..], k + 1, executions, next);
    }
  }

  lemma ExecutePast(head: seq<Job>, rest: seq<Job>, id: JobId, x: Execution, next: Croniter)
    requires |head| <= 1 && (head == [] || head[0].id != id)
    ensures ExecuteIn(head + rest, id, x, next) == head + ExecuteIn(rest, id, x, next)
  {
    var all := ExecuteIn(rest, id, x, next);
    if head == [] {
      assert head + rest == rest && head + all == all;
    } else {
      assert (head + rest)[1..] == rest && head == [head[0]];
    }
  }

  lemma {:induction false} DueIdsAreIds(jobs: seq<Job>, now: int, id: JobId)
    requires id !in Ids(jobs)
    ensures id !in DueIds(jobs, now)
  {
    if jobs == [] {
    } else {
      assert Ids(jobs)[0] == jobs[0].id;
      assert Ids(jobs)[1..] == Ids(jobs[1..]);
      DueIdsAreIds(jobs[1..], now, id);
    }
  }

  /** Executing the due jobs of the snapshot in turn is the simultaneous update of the tick. */
  lemma {:induction false} SnapshotIsTick(jobs: seq<Job>, now: int, k: nat, executions: nat -> Execution,
                                          next: Croniter)
    requires UniqueIds(jobs)
    ensures ExecuteAll(jobs, DueIds(jobs, now), k, executions, next) == Ticked(jobs, now, k, executions, next)
  {
    if jobs == [] {
    } else {
      var j, rest := jobs[0], jobs[1..];
      UniqueRest(jobs);
      DueIdsAreIds(rest, now, j.id);
      if Due(j, now) {
        var head := Outcome(j, executions(k), next);
        ExecuteElsewhere(rest, j.id, executions(k), next);
        assert ExecuteIn(jobs, j.id, executions(k), next) == head + rest;
        assert DueIds(jobs, now)[1..] == DueIds(rest, now);
        ExecuteBeyond(head, rest, DueIds(rest, now), k + 1, executions, next);
        SnapshotIsTick(rest, now, k + 1, executions, next);
      } else {
        assert jobs == [j] + rest;
        ExecuteBeyond([j], rest, DueIds(rest, now), k, executions, next);
        SnapshotIsTick(rest, now, k, executions, next);
      }
    }
  }

  lemma {:induction false} ExecuteAllSnoc(jobs: seq<Job>, ids: seq<JobId>, id: JobId, k: nat,
                                          executions: nat -> Execution, next: Croniter)
    ensures ExecuteAll(jobs, ids + [id], k, executions, next)
         == ExecuteIn(ExecuteAll(jobs, ids, k, executions, next), id, executions(k + |ids|), next)
    decreases |ids|
  {
    if ids == [] {
      assert (ids + [id])[1..] == [];
    } else {
      assert (ids + [id])[1..] == ids[1..] + [id];
      ExecuteAllSnoc(ExecuteIn(jobs, ids[0], executions(k), next), ids[1..], id, k + 1, executions, next);
    }
  }

  // ---- Finding one job ----

  /** The first job `id`, or the length of the table. */
  function Position(jobs: seq<Job>, id: JobId): (at: nat)
    ensures at <= |jobs| && (at < |jobs| ==> jobs[at].id == id)
    ensures forall i :: 0 <= i < at ==> jobs[i].id != id
    ensures (at < |jobs|) == Find(jobs, id).Some?
    ensures at < |jobs| ==> Find(jobs, id) == Some(jobs[at])
  {
    if jobs == [] || jobs[0].id == id then 0 else 1 + Position(jobs[1..], id)
  }

  /** Executing a job that stays replaces it where it is. */
  lemma {:induction false} ExecuteInPlace(jobs: seq<Job>, id: JobId, x: Execution, next: Croniter)
    requires UniqueIds(jobs) && Position(jobs, id) < |jobs| && !Deletes(jobs[Position(jobs, id)])
    ensures var at := Position(jobs, id);
            ExecuteIn(jobs, id, x, next) == jobs[at := Executed(jobs[at], x, next)]
  {
    UniqueRest(jobs);
    var j, rest := jobs[0], jobs[1..];
    if j.id == id {
      ExecuteElsewhere(rest, id, x, next);
    } else {
      var at := Position(rest, id);
      ExecuteInPlace(rest, id, x, next);
      UpdatedLater(jobs, at, Executed(rest[at], x, next));
    }
  }

  lemma UpdatedLater(jobs: seq<Job>, at: nat, j: Job)
    requires at + 1 < |jobs|
    ensures jobs[at + 1 := j] == [jobs[0]] + jobs[1..][at := j]
  {
  }

  /** Executing a job that is to be deleted removes it. */
  lemma {:induction false} ExecuteRemoves(jobs: seq<Job>, id: JobId, x: Execution, next: Croniter)
    requires UniqueIds(jobs) && Position(jobs, id) < |jobs| && Deletes(jobs[Position(jobs, id)])
    ensures ExecuteIn(jobs, id, x, next) == Removed(jobs, id)
  {
    UniqueRest(jobs);
    var j, rest := jobs[0], jobs[1..];
    if j.id == id {
      ExecuteElsewhere(rest, id, x, next);
      RemovedElsewhere(rest, id);
    } else {
      ExecuteRemoves(rest, id, x, next);
    }
  }

  lemma {:induction false} RemovedElsewhere(jobs: seq<Job>, id: JobId)
    requires id !in Ids(jobs)
    ensures Removed(jobs, id) == jobs
  {
    if jobs == [] {
    } else {
      assert Ids(jobs)[0] == jobs[0].id;
      assert Ids(jobs)[1..] == Ids(jobs[1..]);
      RemovedElsewhere(jobs[1..], id);
    }
  }

  lemma {:induction false} EnableInPlace(jobs: seq<Job>, id: JobId, enabled: bool, updated: int, now: int,
                                         next: Croniter)
    requires Position(jobs, id) < |jobs|
    ensures var at := Position(jobs, id);
            SetEnabled(jobs, id, enabled, updated, now, next)
            == jobs[at := EnabledAs(jobs[at], enabled, updated, now, next)]
  {
    if jobs[0].id != id {
      EnableInPlace(jobs[1..], id, enabled, updated, now, next);
    }
  }

  lemma {:induction false} RemovedShorter(jobs: seq<Job>, id: JobId)
    ensures |Removed(jobs, id)| <= |jobs|
    ensures |Removed(jobs, id)| < |jobs| <==> Find(jobs, id).Some?
  {
    if jobs == [] {
    } else {
      RemovedShorter(jobs[1..], id);
    }
  }

  class CronService {
    var jobs: seq<Job>
    var running: bool
    var armed: Option<int>
    const world: World

    ghost predicate Valid()
      reads this
    {
      UniqueIds(jobs)
    }

    ghost function Model(): Service
      reads this
    {
      Service(jobs, running, armed)
    }

    constructor (world: World)
      ensures Valid() && Model() == EMPTY && this.world == world
    {
      this.world := world;
      jobs, running, armed := [], false, None;
    }

    method ArmTimer()
      modifies this`armed
      ensures armed == Armed(jobs, running)
    {
      armed := None;
      var nextWake := NextWake(jobs);
      if !Truthy(nextWake) || !running {
        return;
      }
      armed := nextWake;
    }

    method RecomputeNextRuns(now: int)
      modifies this`jobs
      ensures jobs == Recomputed(old(jobs), now, world.next)
    {
      for i := 0 to |jobs|
        invariant |jobs| == |old(jobs)|
        invariant forall k :: 0 <= k < i ==> jobs[k] == Refreshed(old(jobs)[k], now, world.next)
        invariant forall k :: i <= k < |jobs| ==> jobs[k] == old(jobs)[k]
      {
        if jobs[i].enabled {
          jobs := jobs[i := jobs[i].(nextRun := ComputeNextRun(jobs[i].schedule, now, world.next))];
        }
      }
    }

    method Start(now: int)
      requires Valid()
      modifies this
      ensures Valid() && Model() == Step(world, old(Model()), Op.Start(now))
    {
      StepKeepsUnique(world, Model(), Op.Start(now));
      running := true;
      RecomputeNextRuns(now);
      ArmTimer();
    }

    method Stop()
      requires Valid()
      modifies this
      ensures Valid() && Model() == Step(world, old(Model()), Op.Stop)
    {
      running := false;
      armed := None;
    }

    /** None is the source's ValueError. */
    method AddJob(id: JobId, name: string, schedule: Schedule, message: string, deleteAfterRun: bool, now: int)
      returns (added: Option<Job>)
      requires Valid() && id !in Ids(jobs)
      modifies this
      ensures Valid()
      ensures Model() == Step(world, old(Model()), Op.Add(id, name, schedule, message, deleteAfterRun, now))
      ensures added.Some? <==>
        || schedule.tz.None? || schedule.tz.value == ""
        || (schedule.kind == CronExpr && world.knownTz(schedule.tz.value))
      ensures added.None? ==> Model() == old(Model())
      ensures added.Some? ==> jobs == old(jobs) + [added.value] && added.value.id == id && added.value.enabled
                              && PlannedRight(added.value.nextRun, schedule, Some(now), world.next)
    {
      StepKeepsUnique(world, Model(), Op.Add(id, name, schedule, message, deleteAfterRun, now));
      if schedule.tz.Some? && schedule.tz.value != "" && schedule.kind != CronExpr {
        return None;
      }
      if schedule.kind == CronExpr && schedule.tz.Some? && schedule.tz.value != ""
         && !world.knownTz(schedule.tz.value) {
        return None;
      }
      var job := NewJob(id, name, schedule, message, deleteAfterRun, now, world.next);
      Computed(schedule, now, world.next);
      jobs := jobs + [job];
      ArmTimer();
      added := Some(job);
    }

    method RemoveJob(id: JobId) returns (removed: bool)
      requires Valid()
      modifies this
      ensures Valid() && Model() == Step(world, old(Model()), Op.Remove(id))
      ensures removed == Find(old(jobs), id).Some?
    {
      StepKeepsUnique(world, Model(), Op.Remove(id));
      RemovedShorter(jobs, id);
      var left := Removed(jobs, id);
      removed := |left| < |jobs|;
      if removed {
        jobs := left;
        ArmTimer();
      } else {
        RemovedUnchanged(jobs, id);
        jobs := left;
      }
    }

    method EnableJob(id: JobId, enabled: bool, updated: int, now: int) returns (job: Option<Job>)
      requires Valid()
      modifies this
      ensures Valid() && Model() == Step(world, old(Model()), Op.Enable(id, enabled, updated, now))
      ensures job == Find(jobs, id)
    {
      StepKeepsUnique(world, Model(), Op.Enable(id, enabled, updated, now));
      var at := PositionOf(id);
      if at == |jobs| {
        return None;
      }
      EnableInPlace(jobs, id, enabled, updated, now, world.next);
      EnableFinds(jobs, id, enabled, updated, now, world.next, id);
      jobs := jobs[at := EnabledAs(jobs[at], enabled, updated, now, world.next)];
      ArmTimer();
      job := Some(jobs[at]);
    }

    /** The scan of the table that `enable_job` and `run_job` start with. */
    method PositionOf(id: JobId) returns (at: nat)
      ensures at == Position(jobs, id)
    {
      at := 0;
      while at < |jobs| && jobs[at].id != id
        invariant at <= |jobs|
        invariant forall i :: 0 <= i < at ==> jobs[i].id != id
      {
        at := at + 1;
      }
    }

    method ExecuteJob(id: JobId, x: Execution)
      requires Valid()
      modifies this`jobs
      ensures Valid() && jobs == ExecuteIn(old(jobs), id, x, world.next)
    {
      ExecuteThins(jobs, id, x, world.next);
      var at := PositionOf(id);
      if at == |jobs| {
        NotAmong(jobs, id);
        ExecuteElsewhere(jobs, id, x, world.next);
        return;
      }
      if jobs[at].schedule.kind == At && jobs[at].deleteAfterRun {
        ExecuteRemoves(jobs, id, x, world.next);
        jobs := Removed(jobs, id);
      } else {
        ExecuteInPlace(jobs, id, x, world.next);
        jobs := jobs[at := Executed(jobs[at], x, world.next)];
      }
    }

    method RunJob(id: JobId, force: bool, x: Execution) returns (ran: bool)
      requires Valid()
      modifies this
      ensures Valid() && Model() == Step(world, old(Model()), Op.RunNow(id, force, x))
      ensures ran <==> Find(old(jobs), id).Some? && (force || Find(old(jobs), id).value.enabled)
    {
      var at := PositionOf(id);
      if at == |jobs| {
        return false;
      }
      if !force && !jobs[at].enabled {
        return false;
      }
      ExecuteJob(id, x);
      ArmTimer();
      ran := true;
    }

    method OnTimer(now: int, executions: nat -> Execution)
      requires Valid()
      modifies this
      ensures Valid() && Model() == Step(world, old(Model()), Op.Tick(now, executions))
    {
      ghost var was := jobs;
      SnapshotIsTick(was, now, 0, executions, world.next);
      var due := DueIds(jobs, now);
      for k := 0 to |due|
        invariant Valid() && running == old(running)
        invariant jobs == ExecuteAll(was, due[..k], 0, executions, world.next)
      {
        ExecuteAllSnoc(was, due[..k], due[k], 0, executions, world.next);
        assert due[..k + 1] == due[..k] + [due[k]];
        ExecuteJob(due[k], executions(k));
      }
      assert due[..|due|] == due;
      ArmTimer();
    }
  }

  lemma NotAmong(jobs: seq<Job>, id: JobId)
    requires Position(jobs, id) == |jobs|
    ensures id !in Ids(jobs)
  {
    assert forall i :: 0 <= i < |jobs| ==> Ids(jobs)[i] == jobs[i].id;
  }

  lemma RemovedUnchanged(jobs: seq<Job>, id: JobId)
    requires Find(jobs, id).None?
    ensures Removed(jobs, id) == jobs
  {
    assert Position(jobs, id) == |jobs|;
    NotAmong(jobs, id);
    RemovedElsewhere(jobs, id);
  }
}
