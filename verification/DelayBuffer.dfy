/**
 The delay buffer of `channels/mochat.py` for one delay key, as a state machine over the statements
 of `_enqueue_delayed_entry`, `_delay_flush_after` and `_flush_delayed_entries`. Tasks interleave
 between any two statements; the lock is what keeps the critical sections apart.
 */
module DelayBuffer {
  import opened Wrappers
  import opened Sequences

  type Entry = string
  type TaskId = nat

  /** A timer sleeps, waits for the lock, flushes and delivers; a mention starts at the flush. */
  datatype Task =
    | Sleeping
    | Waiting
    | Holding
    | Took(batch: seq<Entry>)
    | Delivered(batch: seq<Entry>)
    | Cancelled

  /** Who holds the lock, and which statement is next. */
  datatype Holder =
    | Free
    | EnqueueAppend(entry: Entry)
    | EnqueueCancel
    | EnqueueCreate
    | FlushAppend(task: TaskId, mention: Option<Entry>)
    | FlushCancel(task: TaskId)
    | FlushForget(task: TaskId)
    | FlushCopy(task: TaskId)
    | FlushClear(task: TaskId, copy: seq<Entry>)

  /** `DelayState`, the tasks, and three logs: entries accepted, batches taken, and who took them. */
  datatype State = State(entries: seq<Entry>, timer: Option<TaskId>, holder: Holder, tasks: seq<Task>,
                         accepted: seq<Entry>, taken: seq<seq<Entry>>, owners: seq<TaskId>)

  datatype Action =
    | Enqueue(entry: Entry)   // a caller of `_enqueue_delayed_entry` gets the lock
    | Mention(entry: Entry)   // a caller of `_flush_delayed_entries` with an entry gets the lock
    | Wake(task: TaskId)      // a timer's sleep ends
    | Enter(task: TaskId)     // a woken timer gets the lock
    | Advance                 // the lock holder executes one statement
    | Deliver(task: TaskId)   // a taken batch is dispatched

  const START := State([], None, Free, [], [], [], [])

  /** `task.cancel()`: a task that has not finished does not run on. */
  function CancelTask(t: Task): Task {
    if t.Delivered? then t else Cancelled
  }

  function CancelTimer(s: State): State {
    if s.timer.Some? && s.timer.value < |s.tasks|
    then s.(tasks := s.tasks[s.timer.value := CancelTask(s.tasks[s.timer.value])]) else s
  }

  predicate Enabled(s: State, a: Action) {
    match a
    case Enqueue(_) => s.holder.Free?
    case Mention(_) => s.holder.Free?
    case Wake(t) => t < |s.tasks| && s.tasks[t].Sleeping?
    case Enter(t) => t < |s.tasks| && s.tasks[t].Waiting? && s.holder.Free?
    case Advance =>
      && !s.holder.Free?
      && (s.holder.FlushClear? ==> s.holder.task < |s.tasks|)
    case Deliver(t) => t < |s.tasks| && s.tasks[t].Took?
  }

  function Append(s: State, e: Entry): State {
    s.(entries := s.entries + [e], accepted := s.accepted + [e])
  }

  /** The statements inside the lock, in source order. */
  function Statement(s: State): State
    requires Enabled(s, Advance)
  {
    match s.holder
    case EnqueueAppend(e) => Append(s, e).(holder := EnqueueCancel)
    case EnqueueCancel => CancelTimer(s).(holder := EnqueueCreate)
    case EnqueueCreate => s.(tasks := s.tasks + [Sleeping], timer := Some(|s.tasks|), holder := Free)
    case FlushAppend(t, mention) =>
      (if mention.Some? then Append(s, mention.value) else s).(holder := FlushCancel(t))
    case FlushCancel(t) =>
      (if s.timer != Some(t) then CancelTimer(s) else s).(holder := FlushForget(t))
    case FlushForget(t) => s.(timer := None, holder := FlushCopy(t))
    case FlushCopy(t) => s.(holder := FlushClear(t, s.entries))
    case FlushClear(t, copy) =>
      s.(entries := [], holder := Free, tasks := s.tasks[t := Took(copy)],
         taken := s.taken + [copy], owners := s.owners + [t])
    case Free => s
  }

  function Next(s: State, a: Action): State
    requires Enabled(s, a)
  {
    match a
    case Enqueue(e) => s.(holder := EnqueueAppend(e))
    case Mention(e) => s.(tasks := s.tasks + [Holding], holder := FlushAppend(|s.tasks|, Some(e)))
    case Wake(t) => s.(tasks := s.tasks[t := Waiting])
    case Enter(t) => s.(tasks := s.tasks[t := Holding], holder := FlushAppend(t, None))
    case Advance => Statement(s)
    case Deliver(t) => s.(tasks := s.tasks[t := Delivered(s.tasks[t].batch)])
  }

  /** Any interleaving: an action that is not enabled when its turn comes does nothing. */
  function Exec(actions: seq<Action>): State {
    if actions == [] then START
    else Tried(Exec(actions[..|actions| - 1]), actions[|actions| - 1])
  }

  function Tried(s: State, a: Action): State {
    if Enabled(s, a) then Next(s, a) else s
  }

  // ---- The invariant ----

  predicate Live(t: Task) {
    t.Sleeping? || t.Waiting?
  }

  function Flusher(h: Holder): Option<TaskId> {
    match h
    case FlushAppend(t, _) => Some(t)
    case FlushCancel(t) => Some(t)
    case FlushForget(t) => Some(t)
    case FlushCopy(t) => Some(t)
    case FlushClear(t, _) => Some(t)
    case _ => None
  }

  /** Batches taken so far, then the buffer, are the accepted entries in order. */
  predicate Kept(taken: seq<seq<Entry>>, entries: seq<Entry>, accepted: seq<Entry>) {
    Flatten(taken) + entries == accepted
  }

  ghost predicate Conserved(s: State) {
    && Kept(s.taken, s.entries, s.accepted)
    && (s.holder.FlushClear? ==> s.holder.copy == s.entries)
  }

  /** Exactly the flushing task holds the lock; only the registered timer is live. */
  ghost predicate Registered(s: State) {
    && (forall t :: 0 <= t < |s.tasks| ==> (s.tasks[t].Holding? <==> Flusher(s.holder) == Some(t)))
    && (Flusher(s.holder).Some? ==> Flusher(s.holder).value < |s.tasks|)
    && (forall t :: 0 <= t < |s.tasks| && Live(s.tasks[t]) ==> s.timer == Some(t))
    && (s.timer.Some? ==> s.timer.value < |s.tasks| && TimerPhase(s, s.timer.value))
  }

  /** What the registered timer can be, statement by statement. */
  predicate TimerPhase(s: State, t: TaskId)
    requires t < |s.tasks|
  {
    match s.holder
    case EnqueueCreate => s.tasks[t].Cancelled?
    case FlushAppend(f, _) => if f == t then s.tasks[t].Holding? else Live(s.tasks[t])
    case FlushCancel(f) => if f == t then s.tasks[t].Holding? else Live(s.tasks[t])
    case FlushForget(f) => if f == t then s.tasks[t].Holding? else s.tasks[t].Cancelled?
    case FlushCopy(_) => false
    case FlushClear(_, _) => false
    case _ => Live(s.tasks[t])
  }

  /** Outside the lock a non-empty buffer has its timer. */
  ghost predicate Timed(s: State) {
    (s.holder.Free? || s.holder.EnqueueAppend?) && s.entries != [] ==> s.timer.Some?
  }

  predicate OwnsBatch(t: Task, batch: seq<Entry>) {
    (t.Took? || t.Delivered?) && t.batch == batch
  }

  /** Every batch belongs to one task of its own, which delivers it or has done so. */
  ghost predicate Owned(s: State) {
    && |s.owners| == |s.taken|
    && (forall i :: 0 <= i < |s.owners| ==> s.owners[i] < |s.tasks| && OwnsBatch(s.tasks[s.owners[i]], s.taken[i]))
    && (forall i, j :: 0 <= i < j < |s.owners| ==> s.owners[i] != s.owners[j])
  }

  ghost predicate Inv(s: State) {
    Conserved(s) && Registered(s) && Timed(s) && Owned(s)
  }

  lemma TakingKeeps(taken: seq<seq<Entry>>, copy: seq<Entry>, accepted: seq<Entry>)
    requires Kept(taken, copy, accepted)
    ensures Kept(taken + [copy], [], accepted)
  {
    FlattenAppend(taken, copy);
    assert Flatten(taken + [copy]) + [] == Flatten(taken) + copy;
  }

  lemma AppendingKeeps(taken: seq<seq<Entry>>, entries: seq<Entry>, e: Entry, accepted: seq<Entry>)
    requires Kept(taken, entries, accepted)
    ensures Kept(taken, entries + [e], accepted + [e])
  {
    assert Flatten(taken) + (entries + [e]) == Flatten(taken) + entries + [e];
  }

  lemma NextConserves(s: State, a: Action)
    requires Enabled(s, a) && Conserved(s)
    ensures Conserved(Next(s, a))
  {
    match a {
      case Advance =>
        match s.holder {
          case FlushClear(t, copy) =>
            TakingKeeps(s.taken, copy, s.accepted);
          case EnqueueAppend(e) =>
            AppendingKeeps(s.taken, s.entries, e, s.accepted);
          case FlushAppend(t, m) =>
            if m.Some? { AppendingKeeps(s.taken, s.entries, m.value, s.accepted); }
          case _ =>
        }
      case _ =>
    }
  }

  lemma StatementRegisters(s: State)
    requires Enabled(s, Advance) && Registered(s)
    ensures Registered(Statement(s))
  {
  }

  lemma NextRegisters(s: State, a: Action)
    requires Enabled(s, a) && Registered(s)
    ensures Registered(Next(s, a))
  {
    if a.Advance? {
      StatementRegisters(s);
    }
  }

  lemma NextTimed(s: State, a: Action)
    requires Enabled(s, a) && Registered(s) && Timed(s)
    ensures Timed(Next(s, a))
  {
  }

  /** A step leaves a task that has taken a batch with its batch: it is never cancelled. */
  lemma TakenNeverCancelled(s: State, a: Action, t: TaskId)
    requires Enabled(s, a) && Registered(s) && t < |s.tasks| && (s.tasks[t].Took? || s.tasks[t].Delivered?)
    ensures t < |Next(s, a).tasks| && OwnsBatch(Next(s, a).tasks[t], s.tasks[t].batch)
    ensures s.tasks[t].Delivered? ==> Next(s, a).tasks[t].Delivered?
  {
  }

  lemma NextOwned(s: State, a: Action)
    requires Enabled(s, a) && Registered(s) && Owned(s)
    ensures Owned(Next(s, a))
  {
    var s' := Next(s, a);
    forall i | 0 <= i < |s.owners|
      ensures s.owners[i] < |s'.tasks| && OwnsBatch(s'.tasks[s.owners[i]], s.taken[i])
    {
      TakenNeverCancelled(s, a, s.owners[i]);
    }
    if a.Advance? && s.holder.FlushClear? {
      assert s.tasks[s.holder.task].Holding?;
    }
  }

  /**
   In every interleaving: no entry is lost or taken twice and order is kept, a non-empty buffer
   outside the lock has its one live timer, and every taken batch has its own task to deliver it.
   */
  lemma {:induction false} EveryInterleaving(actions: seq<Action>)
    ensures Inv(Exec(actions))
  {
    if actions == [] {
    } else {
      var n := |actions| - 1;
      EveryInterleaving(actions[..n]);
      var s := Exec(actions[..n]);
      if Enabled(s, actions[n]) {
        NextConserves(s, actions[n]);
        NextRegisters(s, actions[n]);
        NextTimed(s, actions[n]);
        NextOwned(s, actions[n]);
      }
    }
  }

  /** Outside the lock, a non-empty buffer has exactly one live timer. */
  lemma BufferedMeansArmed(actions: seq<Action>)
    ensures var s := Exec(actions);
      s.holder.Free? && s.entries != [] ==>
        && s.timer.Some? && s.timer.value < |s.tasks| && Live(s.tasks[s.timer.value])
        && forall t :: 0 <= t < |s.tasks| && Live(s.tasks[t]) ==> t == s.timer.value
  {
    EveryInterleaving(actions);
  }

  predicate NewMessage(a: Action) {
    a.Enqueue? || a.Mention?
  }

  /** The messages that arrived: their callers got the lock. */
  function Arrived(actions: seq<Action>): seq<Entry> {
    if actions == [] then []
    else
      var before, a := actions[..|actions| - 1], actions[|actions| - 1];
      Arrived(before) + if NewMessage(a) && Exec(before).holder.Free? then [a.entry] else []
  }

  /** The message in the lock that is not yet in the buffer. */
  function Pending(h: Holder): seq<Entry> {
    match h
    case EnqueueAppend(e) => [e]
    case FlushAppend(_, mention) => if mention.Some? then [mention.value] else []
    case _ => []
  }

  lemma NextAccepts(s: State, a: Action, arrived: seq<Entry>)
    requires Enabled(s, a) && arrived == s.accepted + Pending(s.holder)
    ensures var t := Next(s, a); arrived + (if NewMessage(a) then [a.entry] else []) == t.accepted + Pending(t.holder)
  {
    assert arrived + [] == arrived;
    if s.holder.Free? { assert s.accepted + [] == s.accepted; }
  }

  /** Every message that arrived is accepted, in order, but for the one that the lock holder is about to append. */
  lemma {:induction false} AcceptsWhatArrived(actions: seq<Action>)
    ensures var s := Exec(actions); Arrived(actions) == s.accepted + Pending(s.holder)
  {
    if actions == [] {
    } else {
      var before, a := actions[..|actions| - 1], actions[|actions| - 1];
      AcceptsWhatArrived(before);
      assert Arrived(before) + [] == Arrived(before);
      if Enabled(Exec(before), a) { NextAccepts(Exec(before), a, Arrived(before)); }
    }
  }

  /** Nothing can happen any more without a new message. */
  ghost predicate Quiet(s: State) {
    s.holder.Free? && forall t :: 0 <= t < |s.tasks| ==> !Live(s.tasks[t]) && !s.tasks[t].Took?
  }

  /** When everything has come to rest, every message that arrived has been delivered, once and in order. */
  lemma RestMeansDelivered(actions: seq<Action>)
    requires Quiet(Exec(actions))
    ensures var s := Exec(actions);
      && Flatten(s.taken) == Arrived(actions) && |s.owners| == |s.taken|
      && (forall i :: 0 <= i < |s.taken| ==> s.owners[i] < |s.tasks| && s.tasks[s.owners[i]] == Delivered(s.taken[i]))
      && forall i, j :: 0 <= i < j < |s.owners| ==> s.owners[i] != s.owners[j]
  {
    EveryInterleaving(actions);
    AcceptsWhatArrived(actions);
    var s := Exec(actions);
    assert s.entries == [];
    assert Flatten(s.taken) + [] == Flatten(s.taken) && s.accepted + [] == s.accepted;
  }

  // ---- Everything comes to rest ----

  /** More than the steps a task has still to take, those inside the lock included. */
  function Steps(t: Task): nat {
    match t
    case Sleeping => 9
    case Waiting => 8
    case Holding => 2
    case Took(_) => 1
    case _ => 0
  }

  function StepsOf(tasks: seq<Task>): nat {
    if tasks == [] then 0 else StepsOf(tasks[..|tasks| - 1]) + Steps(tasks[|tasks| - 1])
  }

  /** What is left of the critical section; an enqueue ends by creating a sleeping timer. */
  function StepsInside(h: Holder): nat {
    match h
    case Free => 0
    case EnqueueAppend(_) => 12
    case EnqueueCancel => 11
    case EnqueueCreate => 10
    case FlushAppend(_, _) => 5
    case FlushCancel(_) => 4
    case FlushForget(_) => 3
    case FlushCopy(_) => 2
    case FlushClear(_, _) => 1
  }

  function Load(s: State): nat {
    StepsOf(s.tasks) + StepsInside(s.holder)
  }

  lemma {:induction false} StepsChange(tasks: seq<Task>, t: TaskId, x: Task)
    requires t < |tasks|
    ensures StepsOf(tasks[t := x]) == StepsOf(tasks) - Steps(tasks[t]) + Steps(x)
  {
    var n := |tasks| - 1;
    if t < n {
      StepsChange(tasks[..n], t, x);
      assert tasks[t := x][..n] == tasks[..n][t := x];
    } else {
      assert tasks[t := x][..n] == tasks[..n];
    }
  }

  lemma CancelUnloads(s: State)
    ensures StepsOf(CancelTimer(s).tasks) <= StepsOf(s.tasks)
  {
    if s.timer.Some? && s.timer.value < |s.tasks| {
      StepsChange(s.tasks, s.timer.value, CancelTask(s.tasks[s.timer.value]));
    }
  }

  lemma StatementUnloads(s: State)
    requires Enabled(s, Advance) && Registered(s)
    ensures Load(Statement(s)) < Load(s)
  {
    match s.holder {
      case EnqueueCreate => assert (s.tasks + [Sleeping])[..|s.tasks|] == s.tasks;
      case EnqueueCancel => CancelUnloads(s);
      case FlushCancel(_) => CancelUnloads(s);
      case FlushClear(t, copy) => StepsChange(s.tasks, t, Took(copy));
      case _ =>
    }
  }

  /** Every step but the arrival of a message lightens the load. */
  lemma StepUnloads(s: State, a: Action)
    requires Enabled(s, a) && Registered(s) && !NewMessage(a)
    ensures Load(Next(s, a)) < Load(s)
  {
    match a {
      case Wake(t) => StepsChange(s.tasks, t, Waiting);
      case Enter(t) => StepsChange(s.tasks, t, Holding);
      case Deliver(t) => StepsChange(s.tasks, t, Delivered(s.tasks[t].batch));
      case Advance => StatementUnloads(s);
    }
  }

  /** While anything is to do, something can be done: nothing blocks for good. */
  lemma NeverStuck(s: State) returns (a: Action)
    requires Registered(s) && !Quiet(s)
    ensures Enabled(s, a) && !NewMessage(a)
  {
    if !s.holder.Free? {
      a := Advance;
    } else {
      var t :| 0 <= t < |s.tasks| && (Live(s.tasks[t]) || s.tasks[t].Took?);
      a := if s.tasks[t].Sleeping? then Wake(t) else if s.tasks[t].Waiting? then Enter(t) else Deliver(t);
    }
  }

  /** The actions can happen one after the other, and none is the arrival of a message. */
  ghost predicate CanFollow(actions: seq<Action>, more: seq<Action>) {
    forall k :: 0 <= k < |more| ==> CanHappen(actions + more[..k], more[k])
  }

  predicate CanHappen(actions: seq<Action>, a: Action) {
    Enabled(Exec(actions), a) && !NewMessage(a)
  }

  lemma HappensOnce(actions: seq<Action>, a: Action)
    requires CanHappen(actions, a)
    ensures Load(Exec(actions + [a])) < Load(Exec(actions))
  {
    assert (actions + [a])[..|actions|] == actions;
    EveryInterleaving(actions);
    StepUnloads(Exec(actions), a);
  }

  lemma FollowsShorter(actions: seq<Action>, more: seq<Action>, n: nat)
    requires CanFollow(actions, more) && n <= |more|
    ensures CanFollow(actions, more[..n])
  {
    forall k | 0 <= k < n
      ensures CanHappen(actions + more[..n][..k], more[..n][k])
    {
      assert more[..n][..k] == more[..k];
      assert CanHappen(actions + more[..k], more[k]);
    }
  }

  /** Without new messages no run goes on for longer than its load. */
  lemma {:induction false} RunsOut(actions: seq<Action>, more: seq<Action>)
    requires CanFollow(actions, more)
    ensures |more| + Load(Exec(actions + more)) <= Load(Exec(actions))
    decreases |more|
  {
    if more == [] {
      assert actions + more == actions;
    } else {
      var n := |more| - 1;
      FollowsShorter(actions, more, n);
      RunsOut(actions, more[..n]);
      assert CanHappen(actions + more[..n], more[n]);
      HappensOnce(actions + more[..n], more[n]);
      assert actions + more[..n] + [more[n]] == actions + more;
    }
  }

  /**
   Without new messages everything comes to rest, whatever the order: no run of the tasks is longer than its
   load, and one that cannot go on has delivered every message that arrived, once and in order.
   */
  lemma AlwaysComesToRest(actions: seq<Action>, more: seq<Action>)
    requires CanFollow(actions, more)
    ensures |more| <= Load(Exec(actions))
    ensures var s := Exec(actions + more);
      (forall a :: Enabled(s, a) ==> NewMessage(a)) ==> Quiet(s) && Flatten(s.taken) == Arrived(actions + more)
  {
    RunsOut(actions, more);
    EveryInterleaving(actions + more);
    var s := Exec(actions + more);
    if Quiet(s) {
      RestMeansDelivered(actions + more);
    } else {
      var a := NeverStuck(s);
    }
  }

  // ---- Whole critical sections ----

  function Flushed(s: State, t: TaskId): State {
    Tried(Tried(Tried(Tried(Tried(s, Advance), Advance), Advance), Advance), Advance)
  }

  /** A flush as one step: append the mention, cancel another task's timer, take everything. */
  function FlushedAtOnce(s: State, t: TaskId, mention: Option<Entry>): State
    requires t < |s.tasks|
  {
    var a := if mention.Some? then Append(s, mention.value) else s;
    var c := if a.timer != Some(t) then CancelTimer(a) else a;
    c.(entries := [], timer := None, holder := Free, tasks := c.tasks[t := Took(a.entries)],
       taken := a.taken + [a.entries], owners := a.owners + [t])
  }

  /** The five statements of a flush amount to that step. */
  lemma FlushStatements(s: State, t: TaskId, mention: Option<Entry>)
    requires t < |s.tasks| && s.holder == FlushAppend(t, mention)
    ensures Flushed(s, t) == FlushedAtOnce(s, t, mention)
  {
    var a := if mention.Some? then Append(s, mention.value) else s;
    var c := if a.timer != Some(t) then CancelTimer(a) else a;
    var s1 := Tried(s, Advance);
    assert s1 == a.(holder := FlushCancel(t));
    var s2 := Tried(s1, Advance);
    assert s2 == c.(holder := FlushForget(t));
    var s3 := Tried(s2, Advance);
    assert s3 == c.(holder := FlushCopy(t), timer := None);
    var s4 := Tried(s3, Advance);
    assert s4 == c.(holder := FlushClear(t, a.entries), timer := None);
  }

  /**
   The timer of a buffer outside the lock, left to run, takes exactly the whole buffer: it wakes, gets
   the lock and executes its five statements.
   */
  lemma TimerTakesAll(s: State, t: TaskId)
    requires s.holder.Free? && s.timer == Some(t) && t < |s.tasks| && s.tasks[t].Sleeping?
    ensures Flushed(Tried(Tried(s, Wake(t)), Enter(t)), t)
      == s.(entries := [], timer := None, tasks := s.tasks[t := Took(s.entries)],
            taken := s.taken + [s.entries], owners := s.owners + [t])
  {
    var woken := Tried(s, Wake(t));
    assert woken == s.(tasks := s.tasks[t := Waiting]);
    var inside := Tried(woken, Enter(t));
    assert inside.tasks == s.tasks[t := Holding];
    FlushStatements(inside, t, None);
    assert inside.tasks[t := Took(s.entries)] == s.tasks[t := Took(s.entries)];
  }

  // ---- The methods, each critical section run without interruption ----

  function Enqueued(s: State, e: Entry): State {
    Tried(Tried(Tried(Tried(s, Enqueue(e)), Advance), Advance), Advance)
  }

  /** Only the registered timer matters to the buffer; the task table stands for the event loop. */
  class DelayState {
    var entries: seq<Entry>
    var timer: Option<TaskId>
    var tasks: seq<Task>
    ghost var accepted: seq<Entry>
    ghost var taken: seq<seq<Entry>>
    ghost var owners: seq<TaskId>

    ghost function Model(): State
      reads this
    {
      State(entries, timer, Free, tasks, accepted, taken, owners)
    }

    constructor ()
      ensures Model() == START
    {
      entries, timer, tasks, accepted, taken, owners := [], None, [], [], [], [];
    }

    method CancelRegistered()
      modifies this`tasks
      ensures Model() == CancelTimer(old(Model()))
    {
      if timer.Some? && timer.value < |tasks| {
        tasks := tasks[timer.value := CancelTask(tasks[timer.value])];
      }
    }

    /** `_enqueue_delayed_entry`. */
    method EnqueueDelayedEntry(entry: Entry)
      modifies this
      ensures Model() == Enqueued(old(Model()), entry)
      ensures entries == old(entries) + [entry] && timer == Some(|old(tasks)|)
    {
      entries := entries + [entry];
      accepted := accepted + [entry];
      CancelRegistered();
      timer := Some(|tasks|);
      tasks := tasks + [Sleeping];
    }

    /** `_flush_delayed_entries` by the task `current`; returns the batch to dispatch. */
    method FlushDelayedEntries(current: TaskId, entry: Option<Entry>) returns (batch: seq<Entry>)
      requires current < |tasks|
      modifies this
      ensures Model() == Flushed(old(Model()).(holder := FlushAppend(current, entry)), current)
      ensures batch == old(entries) + if entry.Some? then [entry.value] else []
    {
      FlushStatements(Model().(holder := FlushAppend(current, entry)), current, entry);
      assert entries + [] == entries;
      if entry.Some? {
        entries := entries + [entry.value];
        accepted := accepted + [entry.value];
      }
      if timer.Some? && timer != Some(current) {
        CancelRegistered();
      }
      timer := None;
      batch := entries;
      entries := [];
      tasks := tasks[current := Took(batch)];
      taken := taken + [batch];
      owners := owners + [current];
    }
  }
}
