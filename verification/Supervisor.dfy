/**
 The automatic restarts of `core/kernel.py`. Services are known by their position in registration
 order. What a sweep of the supervisor loop observes of each service (whether its task has ended,
 whether the failure event could be published, the clock) is an input.
 */
module SupervisorModel {

  datatype Status = Stopped | Running | Failed

  datatype Service = Service(status: Status, restarts: nat, lastRestart: real)

  datatype Observation = Observation(down: bool, published: bool, now: real)

  type Observations = nat -> Observation

  const MAX_RESTARTS := 5
  const COOLDOWN := 60.0
  const REGISTERED := Service(Stopped, 0, 0.0)

  predicate Crashed(s: Service, o: Observation) {
    s.status == Running && o.down
  }

  /** Publishing the failure of this service raises, which ends the sweep. */
  predicate Raises(s: Service, o: Observation) {
    Crashed(s, o) && !o.published
  }

  predicate Recovers(s: Service, o: Observation) {
    Crashed(s, o) && o.published && (o.now - s.lastRestart > COOLDOWN || s.restarts < MAX_RESTARTS)
  }

  /** What the sweep makes of one service it reaches. */
  function Checked(s: Service, o: Observation): Service {
    if !Crashed(s, o) then s
    else if !Recovers(s, o) then s.(status := Failed)
    else Service(Running, if o.now - s.lastRestart > COOLDOWN then 1 else s.restarts + 1, o.now)
  }

  /** One sweep from position `i` on. */
  function Sweep(services: seq<Service>, see: Observations, i: nat): (swept: seq<Service>)
    requires i <= |services|
    ensures |swept| == |services|
    decreases |services| - i
  {
    if i == |services| then services
    else
      var checked := services[i := Checked(services[i], see(i))];
      if Raises(services[i], see(i)) then checked else Sweep(checked, see, i + 1)
  }

  predicate Unannounced(s: Service, o: Observation) {
    s.status == Running && o.down && !o.published
  }

  /** The failure of every earlier service, if it had one, could be published. */
  ghost predicate Reached(services: seq<Service>, see: Observations, i: nat) {
    forall k :: 0 <= k < i && k < |services| ==> !Unannounced(services[k], see(k))
  }

  lemma {:induction false} SweepFrom(services: seq<Service>, see: Observations, i: nat)
    requires i <= |services|
    ensures forall k :: 0 <= k < i ==> Sweep(services, see, i)[k] == services[k]
    ensures forall k :: i <= k < |services| ==>
              Sweep(services, see, i)[k]
              == if forall m :: i <= m < k ==> !Raises(services[m], see(m))
                 then Checked(services[k], see(k)) else services[k]
    decreases |services| - i
  {
    if i < |services| {
      SweepFrom(services[i := Checked(services[i], see(i))], see, i + 1);
    }
  }

  /** A service depends on no other: a sweep that reaches it checks it, one that does not leaves it alone. */
  lemma SweepIsPerService(services: seq<Service>, see: Observations, i: nat)
    requires i < |services|
    ensures Sweep(services, see, 0)[i]
         == if Reached(services, see, i) then Checked(services[i], see(i)) else services[i]
  {
    SweepFrom(services, see, 0);
  }

  /** Crashes of other services never touch the counter of one that is up. */
  lemma OthersLeaveItAlone(services: seq<Service>, see: Observations, i: nat)
    requires i < |services| && !(services[i].status == Running && see(i).down)
    ensures Sweep(services, see, 0)[i] == services[i]
  {
    SweepIsPerService(services, see, i);
  }

  // ---- Runs ----

  /** A sweep, or a start, stop or manual restart that sets the status of one service. */
  datatype Op = Tick(see: Observations) | Manual(i: nat, status: Status)

  function Step(services: seq<Service>, op: Op): (r: seq<Service>)
    ensures |r| == |services|
  {
    match op
    case Tick(see) => Sweep(services, see, 0)
    case Manual(i, status) =>
      if i < |services| then services[i := services[i].(status := status)] else services
  }

  function Run(count: nat, ops: seq<Op>): (r: seq<Service>)
    ensures |r| == count
  {
    if ops == [] then seq(count, _ => REGISTERED) else Step(Run(count, ops[..|ops| - 1]), ops[|ops| - 1])
  }

  /** The sweep restarts service `i`. */
  ghost predicate Restarts(services: seq<Service>, op: Op, i: nat)
    requires i < |services|
  {
    op.Tick? && Reached(services, op.see, i) && Recovers(services[i], op.see(i))
  }

  /** The times of the automatic restarts of service `i`. */
  ghost function Log(count: nat, ops: seq<Op>, i: nat): seq<real>
    requires i < count
  {
    if ops == [] then []
    else
      var before, op := ops[..|ops| - 1], ops[|ops| - 1];
      Log(count, before, i) + if Restarts(Run(count, before), op, i) then [op.see(i).now] else []
  }

  // ---- Chains of quick restarts ----

  /** How many restarts at the end of the log each came within the cooldown of the one before. */
  function Chain(log: seq<real>): nat {
    if log == [] then 0
    else if |log| == 1 || log[|log| - 1] - log[|log| - 2] > COOLDOWN then 1
    else 1 + Chain(log[..|log| - 1])
  }

  ghost predicate Tight(log: seq<real>, from: nat, to: nat)
    requires from <= to <= |log|
  {
    forall k :: from < k < to ==> log[k] - log[k - 1] <= COOLDOWN
  }

  /** The chain is the longest tight run at the end of the log. */
  lemma {:induction false} ChainIsLongest(log: seq<real>, from: nat)
    requires from <= |log|
    ensures Chain(log) <= |log|
    ensures from < |log| ==> (Tight(log, from, |log|) <==> |log| - from <= Chain(log))
    decreases |log|
  {
    if log == [] {
    } else {
      var before := log[..|log| - 1];
      ChainIsLongest(before, if from < |log| then from else 0);
      assert forall k :: 0 <= k < |before| ==> before[k] == log[k];
      if from + 1 < |log| {
        assert Tight(log, from, |log|)
          <==> Tight(before, from, |before|) && log[|log| - 1] - log[|log| - 2] <= COOLDOWN;
      }
    }
  }

  /** The counter and the time of the last restart are a digest of the log. */
  ghost predicate Digest(s: Service, log: seq<real>) {
    && s.restarts == Chain(log) <= MAX_RESTARTS
    && (log != [] ==> s.lastRestart == log[|log| - 1])
  }

  lemma StepKeepsDigest(services: seq<Service>, op: Op, i: nat, log: seq<real>)
    requires i < |services| && Digest(services[i], log)
    ensures Digest(Step(services, op)[i], log + if Restarts(services, op, i) then [op.see(i).now] else [])
  {
    assert log + [] == log;
    if op.Tick? {
      SweepIsPerService(services, op.see, i);
    }
  }

  lemma {:induction false} AlwaysDigest(count: nat, ops: seq<Op>, i: nat)
    requires i < count
    ensures Digest(Run(count, ops)[i], Log(count, ops, i))
  {
    if ops == [] {
    } else {
      var before := ops[..|ops| - 1];
      AlwaysDigest(count, before, i);
      StepKeepsDigest(Run(count, before), ops[|ops| - 1], i, Log(count, before, i));
    }
  }

  lemma {:induction false} LogPrefix(count: nat, ops: seq<Op>, i: nat, n: nat)
    requires i < count && n <= |Log(count, ops, i)|
    ensures exists m: nat :: m <= |ops| && Log(count, ops[..m], i) == Log(count, ops, i)[..n]
    decreases |ops|
  {
    var log := Log(count, ops, i);
    if n == |log| {
      assert ops[..|ops|] == ops && log[..n] == log;
    } else {
      var before := ops[..|ops| - 1];
      LogPrefix(count, before, i, n);
      var m: nat :| m <= |before| && Log(count, before[..m], i) == Log(count, before, i)[..n];
      assert before[..m] == ops[..m];
      assert log[..n] == Log(count, before, i)[..n];
    }
  }

  /** Restarts that each come within a minute of the one before are at most five in a row, anywhere in any run. */
  lemma AtMostFiveInARow(count: nat, ops: seq<Op>, i: nat, from: nat, to: nat)
    requires i < count && from <= to <= |Log(count, ops, i)| && Tight(Log(count, ops, i), from, to)
    ensures to - from <= 5
  {
    var log := Log(count, ops, i);
    LogPrefix(count, ops, i, to);
    var m: nat :| m <= |ops| && Log(count, ops[..m], i) == log[..to];
    AlwaysDigest(count, ops[..m], i);
    TightPrefix(log, from, to);
    ChainIsLongest(log[..to], from);
  }

  lemma TightPrefix(log: seq<real>, from: nat, to: nat)
    requires from <= to <= |log| && Tight(log, from, to)
    ensures Tight(log[..to], from, to)
  {
  }

  /** The last five restarts each came within a minute of the one before, and `now` is within a minute of the last. */
  ghost predicate Exhausted(log: seq<real>, now: real) {
    && |log| >= 5 && now - log[|log| - 1] <= 60.0
    && forall k :: |log| - 5 < k < |log| ==> log[k] - log[k - 1] <= 60.0
  }

  /**
   A crash that a sweep reaches ends in a running service, restarted at the time of the sweep, exactly if it
   was published and five quick restarts have not used up the allowance; otherwise in a failed one.
   */
  lemma RefusedExactly(count: nat, ops: seq<Op>, i: nat, see: Observations)
    requires i < count
    requires var s := Run(count, ops)[i]; Reached(Run(count, ops), see, i) && s.status == Running && see(i).down
    ensures var log, s := Log(count, ops, i), Step(Run(count, ops), Tick(see))[i];
      if !see(i).published || Exhausted(log, see(i).now)
      then s.status == Failed && Log(count, ops + [Tick(see)], i) == log
      else s.status == Running && Log(count, ops + [Tick(see)], i) == log + [see(i).now]
  {
    var log := Log(count, ops, i);
    AlwaysDigest(count, ops, i);
    SweepIsPerService(Run(count, ops), see, i);
    ChainIsLongest(log, if |log| >= 5 then |log| - 5 else 0);
    assert (ops + [Tick(see)])[..|ops|] == ops;
    assert log + [] == log;
  }

  /** A start, stop or restart by hand sets the status of its service and nothing else, here or elsewhere. */
  lemma ManualSetsStatus(services: seq<Service>, at: nat, status: Status, i: nat)
    requires i < |services|
    ensures var s := Step(services, Manual(at, status))[i];
      && s.status == (if i == at then status else services[i].status)
      && s.restarts == services[i].restarts && s.lastRestart == services[i].lastRestart
  {
  }

  /** No sweep stops a service: left alone by hand, one that was started is running or failed from then on. */
  lemma {:induction false} StartedIsNeverStopped(count: nat, ops: seq<Op>, more: seq<Op>, i: nat)
    requires i < count && Run(count, ops)[i].status != Stopped
    requires forall k :: 0 <= k < |more| ==> !Handles(more[k], i)
    ensures Run(count, ops + more)[i].status != Stopped
    decreases |more|
  {
    if more == [] {
      assert ops + more == ops;
    } else {
      var m := |more| - 1;
      StartedIsNeverStopped(count, ops, more[..m], i);
      assert (ops + more)[..|ops| + m] == ops + more[..m];
      if more[m].Tick? { SweepIsPerService(Run(count, ops + more[..m]), more[m].see, i); }
    }
  }

  /** And one that is stopped stays so until it is started by hand. */
  lemma {:induction false} StoppedStays(count: nat, ops: seq<Op>, more: seq<Op>, i: nat)
    requires i < count && Run(count, ops)[i].status == Stopped
    requires forall k :: 0 <= k < |more| ==> !Handles(more[k], i)
    ensures Run(count, ops + more)[i] == Run(count, ops)[i]
    decreases |more|
  {
    if more == [] {
      assert ops + more == ops;
    } else {
      var m := |more| - 1;
      StoppedStays(count, ops, more[..m], i);
      assert (ops + more)[..|ops| + m] == ops + more[..m];
      if more[m].Tick? { OthersLeaveItAlone(Run(count, ops + more[..m]), more[m].see, i); }
    }
  }

  // ---- After the limit ----

  predicate Handles(op: Op, i: nat) {
    op.Manual? && op.i == i
  }

  /** A failed service is never restarted automatically: only a start or restart by hand changes it. */
  lemma {:induction false} FailedStays(count: nat, ops: seq<Op>, more: seq<Op>, i: nat)
    requires i < count && Run(count, ops)[i].status == Failed
    requires forall k :: 0 <= k < |more| ==> !Handles(more[k], i)
    ensures Run(count, ops + more)[i] == Run(count, ops)[i]
    ensures Log(count, ops + more, i) == Log(count, ops, i)
    decreases |more|
  {
    if more == [] {
      assert ops + more == ops;
    } else {
      var m := |more| - 1;
      FailedStays(count, ops, more[..m], i);
      assert (ops + more)[..|ops| + m] == ops + more[..m];
      var services := Run(count, ops + more[..m]);
      if more[m].Tick? { OthersLeaveItAlone(services, more[m].see, i); }
    }
  }

  /** A service whose failure could not be announced is left failed with its restarts unused. */
  lemma UnannouncedIsNotRestarted(services: seq<Service>, see: Observations, i: nat)
    requires i < |services| && Reached(services, see, i) && Unannounced(services[i], see(i))
    ensures Step(services, Tick(see))[i] == services[i].(status := Failed)
    ensures forall k :: i < k < |services| ==> Step(services, Tick(see))[k] == services[k]
  {
    SweepIsPerService(services, see, i);
    forall k | i < k < |services|
      ensures Step(services, Tick(see))[k] == services[k]
    {
      assert Unannounced(services[i], see(i));
      SweepIsPerService(services, see, k);
    }
  }
}

/** The sweep of `_supervisor_loop` with `_start_service_locked`, in place. */
module Supervisor {
  import opened SupervisorModel

  class ClawSupervisor {
    var services: seq<Service>

    constructor ()
      ensures services == []
    {
      services := [];
    }

    method RegisterService()
      modifies this
      ensures services == old(services) + [Service(Stopped, 0, 0.0)]
    {
      services := services + [REGISTERED];
    }

    method StartServiceLocked(i: nat)
      requires i < |services|
      modifies this
      ensures services == old(services)[i := old(services)[i].(status := Running)]
    {
      if services[i].status == Running {
        assert services[i := services[i].(status := Running)] == services;
        return;
      }
      services := services[i := services[i].(status := Running)];
    }

    method CheckServices(see: Observations)
      modifies this
      ensures services == Step(old(services), Tick(see))
    {
      var i := 0;
      while i < |services|
        invariant i <= |services| == |old(services)|
        invariant Sweep(services, see, i) == Sweep(old(services), see, 0)
      {
        if services[i].status == Running && see(i).down {
          ghost var was := services;
          services := services[i := services[i].(status := Failed)];
          if !see(i).published {
            assert services == was[i := Checked(was[i], see(i))];
            return;
          }
          var now := see(i).now;
          if now - services[i].lastRestart > COOLDOWN {
            services := services[i := services[i].(restarts := 0)];
          }
          if services[i].restarts < MAX_RESTARTS {
            services := services[i := services[i].(restarts := services[i].restarts + 1, lastRestart := now)];
            StartServiceLocked(i);
          }
          assert services == was[i := Checked(was[i], see(i))];
        } else {
          assert services[i := Checked(services[i], see(i))] == services;
        }
        i := i + 1;
      }
    }
  }
}
