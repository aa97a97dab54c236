/** The failure breaker and the counters over whole runs, told from what Redis answered. */
module CacheBreaker {
  import opened Wrappers
  import opened Sequences
  import opened CacheModel
  import opened CacheTheorems

  // ---- What Redis answered ----

  /** A read that reaches Redis, a call to Redis that raises, and a write it accepts or an item it returns. */
  datatype Note = Probe(at: real) | Failure(at: real) | Success

  function Failures(n: nat, now: real): seq<Note> {
    if n == 0 then [] else Failures(n - 1, now) + [Failure(now)]
  }

  /** What one operation learns about Redis. */
  function Noted(cfg: Config, s: State, op: Op, now: real): seq<Note> {
    if !cfg.redis then []
    else
      match op
      case Set(_, _, ttl, _, fault) =>
        if s.breaker.mode == Degraded then [] else if fault || Refused(ttl) then [Failure(now)] else [Success]
      case Get(k, fault) =>
        if L1Hit(s, k, now) then []
        else if fault then [Probe(now), Failure(now)]
        else if k in s.l2 && Live(s.l2[k], now) then [Probe(now), Success]
        else [Probe(now)]
      case Invalidate(_, fault) => if fault then [Failure(now)] else []
      case InvalidateTag(tag, faults) => Failures(Common(Indexed(s.tier.index, tag), faults), now)
      case InvalidatePrefix(prefix, failAt) =>
        if failAt.Some? && failAt.value < |Prefixed(s.tier.order, prefix)| then [Failure(now)] else []
  }

  function Notes(cfg: Config, s: State, run: seq<Timed>): seq<Note>
    requires cfg.maxItems >= 1
  {
    if run == [] then []
    else
      var n := |run| - 1;
      Notes(cfg, s, run[..n]) + Noted(cfg, Run(cfg, s, run[..n]), run[n].op, run[n].now)
  }

  // ---- What the breaker should be ----

  /** The failures since the last success. */
  function Streak(log: seq<Note>): nat {
    if log == [] then 0
    else
      match log[|log| - 1]
      case Probe(_) => Streak(log[..|log| - 1])
      case Failure(_) => Streak(log[..|log| - 1]) + 1
      case Success => 0
  }

  /** All failures. */
  function Errors(log: seq<Note>): nat {
    if log == [] then 0 else Errors(log[..|log| - 1]) + (if log[|log| - 1].Failure? then 1 else 0)
  }

  function LastFailure(log: seq<Note>): real {
    if log == [] then 0.0
    else if log[|log| - 1].Failure? then log[|log| - 1].at
    else LastFailure(log[..|log| - 1])
  }

  /** Since the last failure a read has reached Redis later than the probe interval after it. */
  predicate Retried(cfg: Config, log: seq<Note>) {
    log != []
    && var last, before := log[|log| - 1], log[..|log| - 1];
       last.Probe? && (last.at - LastFailure(before) > cfg.probeInterval || Retried(cfg, before))
  }

  function ModeOf(cfg: Config, log: seq<Note>): Mode {
    if Streak(log) == 0 || Streak(log) < cfg.threshold then Normal
    else if Retried(cfg, log) then Recovering
    else Degraded
  }

  /** How often the mode became degraded. */
  function Falls(cfg: Config, log: seq<Note>): nat {
    if log == [] then 0
    else
      var before := log[..|log| - 1];
      Falls(cfg, before) + (if ModeOf(cfg, before) != Degraded && ModeOf(cfg, log) == Degraded then 1 else 0)
  }

  /** The breaker follows from the notes alone. */
  predicate Told(cfg: Config, b: Breaker, log: seq<Note>) {
    && b.mode == ModeOf(cfg, log) && b.failures == Streak(log) && b.lastFailure == LastFailure(log)
    && b.errors == Errors(log) && b.fallbacks == Falls(cfg, log)
  }

  // ---- The breaker after each of its changes ----

  function FailPath(cfg: Config, b: Breaker, now: real, n: nat): seq<Breaker> {
    if n == 0 then [] else FailPath(cfg, b, now, n - 1) + [FailedTimes(cfg, b, now, n)]
  }

  /** The breaker after each of its changes during one operation. */
  function Changes(cfg: Config, s: State, op: Op, now: real): seq<Breaker> {
    var b := s.breaker;
    if !cfg.redis then []
    else
      match op
      case Set(_, _, ttl, _, fault) =>
        if b.mode == Degraded then [] else if fault || Refused(ttl) then [Failed(cfg, b, now)] else [Succeeded(b)]
      case Get(k, fault) =>
        if L1Hit(s, k, now) then []
        else
          var probed := Probed(cfg, b, now);
          if fault then [probed, Failed(cfg, probed, now)]
          else if Reply(s, k, now).Some? then [probed, Succeeded(probed)]
          else [probed]
      case Invalidate(_, fault) => if fault then [Failed(cfg, b, now)] else []
      case InvalidateTag(tag, faults) => FailPath(cfg, b, now, Common(Indexed(s.tier.index, tag), faults))
      case InvalidatePrefix(prefix, failAt) =>
        if failAt.Some? && failAt.value < |Prefixed(s.tier.order, prefix)| then [Failed(cfg, b, now)] else []
  }

  /** Every breaker state a run passes through. */
  function Path(cfg: Config, s: State, run: seq<Timed>): seq<Breaker>
    requires cfg.maxItems >= 1
    ensures Path(cfg, s, run) != []
  {
    if run == [] then [s.breaker]
    else
      var n := |run| - 1;
      Path(cfg, s, run[..n]) + Changes(cfg, Run(cfg, s, run[..n]), run[n].op, run[n].now)
  }

  function Last(path: seq<Breaker>): Breaker
    requires path != []
  {
    path[|path| - 1]
  }

  /** Each note is one change of the breaker, which is then as the notes up to it tell. */
  ghost predicate AllTold(cfg: Config, path: seq<Breaker>, log: seq<Note>) {
    |path| == |log| + 1 && forall i :: 0 <= i < |path| ==> Told(cfg, path[i], log[..i])
  }

  lemma OneMoreNote(cfg: Config, b: Breaker, log: seq<Note>, now: real)
    requires Told(cfg, b, log)
    ensures Told(cfg, Failed(cfg, b, now), log + [Failure(now)])
    ensures Told(cfg, Succeeded(b), log + [Success])
    ensures Told(cfg, Probed(cfg, b, now), log + [Probe(now)])
  {
    assert (log + [Failure(now)])[..|log|] == log;
    assert (log + [Success])[..|log|] == log;
    assert (log + [Probe(now)])[..|log|] == log;
  }

  lemma Grow(cfg: Config, path: seq<Breaker>, log: seq<Note>, b: Breaker, note: Note)
    requires AllTold(cfg, path, log) && Told(cfg, b, log + [note])
    ensures AllTold(cfg, path + [b], log + [note])
  {
    var longer, all := path + [b], log + [note];
    forall i | 0 <= i < |longer|
      ensures Told(cfg, longer[i], all[..i])
    {
      if i <= |log| { assert all[..i] == log[..i]; } else { assert all[..i] == all; }
    }
  }

  lemma LastTold(cfg: Config, path: seq<Breaker>, log: seq<Note>)
    requires AllTold(cfg, path, log)
    ensures Told(cfg, Last(path), log)
  {
    assert log[..|log|] == log;
  }

  lemma {:induction false} FailPathTold(cfg: Config, path: seq<Breaker>, log: seq<Note>, now: real, n: nat)
    requires AllTold(cfg, path, log)
    ensures AllTold(cfg, path + FailPath(cfg, Last(path), now, n), log + Failures(n, now))
    ensures Last(path + FailPath(cfg, Last(path), now, n)) == FailedTimes(cfg, Last(path), now, n)
  {
    if n == 0 {
      assert path + [] == path && log + [] == log;
    } else {
      FailPathTold(cfg, path, log, now, n - 1);
      var longer, all := path + FailPath(cfg, Last(path), now, n - 1), log + Failures(n - 1, now);
      LastTold(cfg, longer, all);
      OneMoreNote(cfg, Last(longer), all, now);
      Grow(cfg, longer, all, FailedTimes(cfg, Last(path), now, n), Failure(now));
      assert path + FailPath(cfg, Last(path), now, n) == longer + [FailedTimes(cfg, Last(path), now, n)];
      assert log + Failures(n, now) == all + [Failure(now)];
    }
  }

  lemma GetTold(cfg: Config, s: State, k: Key, fault: bool, now: real, path: seq<Breaker>, log: seq<Note>)
    requires cfg.maxItems >= 1 && cfg.redis && !L1Hit(s, k, now)
    requires AllTold(cfg, path, log) && Last(path) == s.breaker
    ensures var longer := path + Changes(cfg, s, Get(k, fault), now);
      && AllTold(cfg, longer, log + Noted(cfg, s, Get(k, fault), now))
      && Last(longer) == GetStep(cfg, s, k, now, fault).breaker
  {
    var probed, noted := Probed(cfg, s.breaker, now), log + [Probe(now)];
    LastTold(cfg, path, log);
    OneMoreNote(cfg, s.breaker, log, now);
    Grow(cfg, path, log, probed, Probe(now));
    if fault || Reply(s, k, now).Some? {
      var b := if fault then Failed(cfg, probed, now) else Succeeded(probed);
      var note := if fault then Failure(now) else Success;
      OneMoreNote(cfg, probed, noted, now);
      Grow(cfg, path + [probed], noted, b, note);
      assert path + [probed] + [b] == path + [probed, b] && noted + [note] == log + [Probe(now), note];
    }
  }

  lemma StepTold(cfg: Config, s: State, op: Op, now: real, path: seq<Breaker>, log: seq<Note>)
    requires cfg.maxItems >= 1 && cfg.redis && AllTold(cfg, path, log) && Last(path) == s.breaker
    ensures var longer := path + Changes(cfg, s, op, now);
      AllTold(cfg, longer, log + Noted(cfg, s, op, now)) && Last(longer) == Step(cfg, s, op, now).breaker
  {
    var b := s.breaker;
    assert path + [] == path && log + [] == log;
    LastTold(cfg, path, log);
    OneMoreNote(cfg, b, log, now);
    match op {
      case Set(_, _, ttl, _, fault) =>
        if b.mode != Degraded {
          if fault || Refused(ttl) {
            Grow(cfg, path, log, Failed(cfg, b, now), Failure(now));
          } else {
            Grow(cfg, path, log, Succeeded(b), Success);
          }
        }
      case Get(k, fault) =>
        if !L1Hit(s, k, now) { GetTold(cfg, s, k, fault, now, path, log); }
      case Invalidate(_, fault) =>
        if fault { Grow(cfg, path, log, Failed(cfg, b, now), Failure(now)); }
      case InvalidateTag(tag, faults) =>
        FailPathTold(cfg, path, log, now, Common(Indexed(s.tier.index, tag), faults));
      case InvalidatePrefix(prefix, failAt) =>
        if failAt.Some? && failAt.value < |Prefixed(s.tier.order, prefix)| {
          Grow(cfg, path, log, Failed(cfg, b, now), Failure(now));
        }
    }
  }

  /**
   With Redis present, at every moment of every run, what Redis answered so far tells the breaker: it counts
   the failures since the last success and all failures, and keeps the time of the last; the mode is normal
   while fewer than the threshold came in a row, so after every success, and otherwise degraded until a read
   reaches Redis later than the probe interval after the last failure.
   */
  lemma {:induction false} RunPath(cfg: Config, l2: map<Key, Stored>, run: seq<Timed>)
    requires cfg.maxItems >= 1 && cfg.redis
    ensures var s0 := Start(cfg, l2);
      && AllTold(cfg, Path(cfg, s0, run), Notes(cfg, s0, run))
      && Run(cfg, s0, run).breaker == Last(Path(cfg, s0, run))
      && Told(cfg, Run(cfg, s0, run).breaker, Notes(cfg, s0, run))
  {
    var s0 := Start(cfg, l2);
    if run == [] {
    } else {
      var n := |run| - 1;
      RunPath(cfg, l2, run[..n]);
      var s := Run(cfg, s0, run[..n]);
      StepTold(cfg, s, run[n].op, run[n].now, Path(cfg, s0, run[..n]), Notes(cfg, s0, run[..n]));
      LastTold(cfg, Path(cfg, s0, run), Notes(cfg, s0, run));
    }
  }

  /** Without Redis the cache stays degraded and counts no failure. */
  lemma {:induction false} AlwaysDegradedAlone(cfg: Config, l2: map<Key, Stored>, run: seq<Timed>)
    requires cfg.maxItems >= 1 && !cfg.redis
    ensures Run(cfg, Start(cfg, l2), run).breaker == Breaker(Degraded, 0, 0.0, 0, 0)
  {
    if run == [] {
    } else {
      AlwaysDegradedAlone(cfg, l2, run[..|run| - 1]);
    }
  }

  // ---- The counters ----

  /** How many keys are gone from L1. */
  function Gone(before: Tier, after: Tier): nat {
    |before.store.Keys - after.store.Keys|
  }

  /** What an operation that led from `s` to `after` counts. */
  function Counted(cfg: Config, s: State, op: Op, now: real, after: State): Stats {
    match op
    case Set(_, _, _, _, _) => Stats(0, 0, 0, 0, 0)
    case Get(k, fault) =>
      if L1Hit(s, k, now) then Stats(1, 0, 1, 0, 0)
      else if L2Hit(cfg, s, k, now, fault) then Stats(1, 0, 0, 1, 0)
      else Stats(0, 1, 0, 0, 0)
    case Invalidate(_, _) => Stats(0, 0, 0, 0, 1)
    case _ => Stats(0, 0, 0, 0, Gone(s.tier, after.tier))
  }

  function Sum(a: Stats, b: Stats): Stats {
    Stats(a.hits + b.hits, a.misses + b.misses, a.l1Hits + b.l1Hits, a.l2Hits + b.l2Hits,
          a.invalidations + b.invalidations)
  }

  function Tally(cfg: Config, s: State, run: seq<Timed>): Stats
    requires cfg.maxItems >= 1
  {
    if run == [] then Stats(0, 0, 0, 0, 0)
    else
      var n := |run| - 1;
      Sum(Tally(cfg, s, run[..n]), Counted(cfg, Run(cfg, s, run[..n]), run[n].op, run[n].now, Run(cfg, s, run)))
  }

  predicate CountsUp(cfg: Config, s: State, op: Op, now: real, after: State) {
    after.stats == Sum(s.stats, Counted(cfg, s, op, now, after))
  }

  lemma GoneIsCommon(before: Tier, after: Tier, gone: set<Key>)
    requires after.store == before.store - gone
    ensures Gone(before, after) == Common(gone, before.store.Keys)
  {
    assert before.store.Keys - after.store.Keys == gone * before.store.Keys;
  }

  lemma TagGone(t: Tier, tag: Tag)
    ensures Gone(t, TagDropped(t, tag)) == Common(Indexed(t.index, tag), t.store.Keys)
  {
    assert t.store - {} == t.store;
    GoneIsCommon(t, TagDropped(t, tag), Indexed(t.index, tag));
  }

  lemma PrefixGone(t: Tier, prefix: string)
    requires Consistent(t)
    ensures Gone(t, UnlinkedAll(t, Prefixed(t.order, prefix))) == |Prefixed(t.order, prefix)|
  {
    var ks := Prefixed(t.order, prefix);
    PrefixedFacts(t.order, prefix);
    UnlinkedAllDrops(t, ks);
    NoDupSize(ks);
    GoneIsCommon(t, UnlinkedAll(t, ks), Elements(ks));
    assert Elements(ks) * t.store.Keys == Elements(ks);
  }

  lemma GetCounts(cfg: Config, s: State, k: Key, fault: bool, now: real)
    requires cfg.maxItems >= 1
    ensures CountsUp(cfg, s, Get(k, fault), now, GetStep(cfg, s, k, now, fault))
  {
  }

  lemma TagCounts(cfg: Config, s: State, tag: Tag, faults: set<Key>, now: real)
    requires cfg.maxItems >= 1
    ensures CountsUp(cfg, s, InvalidateTag(tag, faults), now, TagStep(cfg, s, tag, now, faults))
  {
    TagGone(s.tier, tag);
  }

  lemma PrefixCounts(cfg: Config, s: State, prefix: string, failAt: Option<nat>, now: real)
    requires cfg.maxItems >= 1 && Consistent(s.tier)
    ensures CountsUp(cfg, s, InvalidatePrefix(prefix, failAt), now, PrefixStep(cfg, s, prefix, now, failAt))
  {
    PrefixGone(s.tier, prefix);
  }

  lemma StepCounts(cfg: Config, s: State, op: Op, now: real)
    requires cfg.maxItems >= 1 && Consistent(s.tier)
    ensures CountsUp(cfg, s, op, now, Step(cfg, s, op, now))
  {
    match op {
      case Set(k, v, ttl, tags, fault) =>
      case Get(k, fault) => GetCounts(cfg, s, k, fault, now);
      case Invalidate(k, fault) =>
      case InvalidateTag(tag, faults) => TagCounts(cfg, s, tag, faults, now);
      case InvalidatePrefix(prefix, failAt) => PrefixCounts(cfg, s, prefix, failAt, now);
    }
  }

  /**
   Every `get` counts one hit, of the tier that answered, or one miss; `invalidations` are the single
   invalidations and the keys that those by tag or prefix removed from L1.
   */
  lemma {:induction false} RunCounts(cfg: Config, l2: map<Key, Stored>, run: seq<Timed>)
    requires cfg.maxItems >= 1
    ensures Run(cfg, Start(cfg, l2), run).stats == Tally(cfg, Start(cfg, l2), run)
  {
    if run == [] {
    } else {
      var n := |run| - 1;
      var s := Run(cfg, Start(cfg, l2), run[..n]);
      RunCounts(cfg, l2, run[..n]);
      RunKeepsTier(cfg, l2, run[..n]);
      StepCounts(cfg, s, run[n].op, run[n].now);
      assert CountsUp(cfg, s, run[n].op, run[n].now, Run(cfg, Start(cfg, l2), run));
    }
  }

  /** The number of `get` calls in a run. */
  function Gets(run: seq<Timed>): nat {
    if run == [] then 0 else Gets(run[..|run| - 1]) + (if run[|run| - 1].op.Get? then 1 else 0)
  }

  lemma CountedAddsUp(cfg: Config, s: State, op: Op, now: real, after: State)
    ensures var c := Counted(cfg, s, op, now, after);
      c.hits == c.l1Hits + c.l2Hits && c.hits + c.misses == if op.Get? then 1 else 0
  {
  }

  lemma {:induction false} TallyAddsUp(cfg: Config, s: State, run: seq<Timed>)
    requires cfg.maxItems >= 1
    ensures var st := Tally(cfg, s, run); st.hits == st.l1Hits + st.l2Hits && st.hits + st.misses == Gets(run)
  {
    if run == [] {
    } else {
      var n := |run| - 1;
      TallyAddsUp(cfg, s, run[..n]);
      CountedAddsUp(cfg, Run(cfg, s, run[..n]), run[n].op, run[n].now, Run(cfg, s, run));
    }
  }

  /** Hits split into L1 and L2 hits, and every completed `get` is one hit or one miss. */
  lemma CountersAddUp(cfg: Config, l2: map<Key, Stored>, run: seq<Timed>)
    requires cfg.maxItems >= 1
    ensures var st := Run(cfg, Start(cfg, l2), run).stats;
      st.hits == st.l1Hits + st.l2Hits && st.hits + st.misses == Gets(run)
  {
    RunCounts(cfg, l2, run);
    TallyAddsUp(cfg, Start(cfg, l2), run);
  }
}
