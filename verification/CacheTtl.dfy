/**
 Runs with TTLs and a healthy Redis: what `get` returns, and exactly when it is stale. A TTL that
 Redis refuses makes the write fail, so those runs belong to `CacheFaults`.
 */
module CacheTtl {
  import opened Wrappers
  import opened CacheModel
  import opened CacheTheorems
  import opened CacheRefinement

  predicate TtlHealthy(op: Op) {
    match op
    case Set(_, _, ttl, _, fault) => !fault && !Refused(ttl)
    case _ => Healthy(op)
  }

  ghost predicate AllTtlHealthy(run: seq<Timed>) {
    forall i :: 0 <= i < |run| ==> TtlHealthy(run[i].op)
  }

  /** An L1 entry has the value Redis has, and unless it lost its TTL Redis was given the same one. */
  predicate TiedEntry(e: Entry, item: Stored) {
    e.value == item.value && (e.ttl.Some? ==> !Refused(e.ttl) && item.expiresAt == Expiry(e.ttl, e.createdAt))
  }

  ghost predicate Tied(t: Tier, l2: map<Key, Stored>) {
    forall k :: k in t.store ==> k in l2 && TiedEntry(t.store[k], l2[k])
  }

  ghost predicate TiedState(s: State) {
    Tied(s.tier, s.l2) && s.breaker.mode == Normal && s.breaker.failures == 0
  }

  lemma PutTied(cfg: Config, t: Tier, l2: map<Key, Stored>, k: Key, e: Entry)
    requires cfg.maxItems >= 1 && TierOk(cfg, t)
    requires forall x :: x in t.store && x != k ==> x in l2 && TiedEntry(t.store[x], l2[x])
    requires k in l2 && TiedEntry(e, l2[k])
    ensures Tied(Put(t, k, e, cfg.maxItems), l2)
  {
    EvictedKeeps(t, cfg.maxItems);
  }

  lemma SetTied(cfg: Config, s: State, k: Key, v: Value, ttl: Option<real>, tags: set<Tag>, now: real)
    requires cfg.maxItems >= 1 && cfg.redis && TierOk(cfg, s.tier) && TiedState(s) && !Refused(ttl)
    ensures TiedState(SetStep(cfg, s, k, v, ttl, tags, now, false))
  {
    PutTied(cfg, s.tier, s.l2[k := Stored(v, tags, Expiry(ttl, now))], k, Entry(v, now, ttl, tags));
  }

  lemma GetTied(cfg: Config, s: State, k: Key, now: real)
    requires cfg.maxItems >= 1 && cfg.redis && TierOk(cfg, s.tier) && TiedState(s)
    ensures TiedState(GetStep(cfg, s, k, now, false))
  {
    if !L1Hit(s, k, now) {
      if k in s.tier.store { DroppedOk(cfg, s.tier, {k}, Discard(s.tier.index, k, s.tier.store[k].tags)); }
      if Reply(s, k, now).Some? {
        PutTied(cfg, AfterExpiry(s, k), s.l2, k, Entry(s.l2[k].value, now, None, s.l2[k].tags));
      }
    }
  }

  lemma StepTied(cfg: Config, s: State, op: Op, now: real)
    requires cfg.maxItems >= 1 && cfg.redis && TierOk(cfg, s.tier) && TiedState(s) && TtlHealthy(op)
    ensures TiedState(Step(cfg, s, op, now))
  {
    match op {
      case Set(k, v, ttl, tags, _) => SetTied(cfg, s, k, v, ttl, tags, now);
      case Get(k, _) => GetTied(cfg, s, k, now);
      case _ => InvalidationsAreErase(cfg, s, op, now);
    }
  }

  lemma {:induction false} RunTied(cfg: Config, l2: map<Key, Stored>, run: seq<Timed>)
    requires cfg.maxItems >= 1 && cfg.redis && AllTtlHealthy(run)
    ensures TiedState(Run(cfg, Start(cfg, l2), run))
  {
    if run == [] {
    } else {
      var n := |run| - 1;
      RunTied(cfg, l2, run[..n]);
      RunKeepsTier(cfg, l2, run[..n]);
      StepTied(cfg, Run(cfg, Start(cfg, l2), run[..n]), run[n].op, run[n].now);
    }
  }

  // ---- Stale answers ----

  /** L1 still serves an item that Redis let expire. */
  predicate Outlives(s: State, k: Key, now: real) {
    L1Hit(s, k, now) && k in s.l2 && !Live(s.l2[k], now)
  }

  function Held(s: State, k: Key, now: real): Value {
    if Reply(s, k, now).Some? then Reply(s, k, now).value.value else None
  }

  /**
   After any healthy run with TTLs, `get` returns what Redis holds live at that time, unless, and
   only unless, L1 serves the item past its expiry in Redis.
   */
  lemma StaleExactly(cfg: Config, l2: map<Key, Stored>, run: seq<Timed>, k: Key, now: real)
    requires cfg.maxItems >= 1 && cfg.redis && AllTtlHealthy(run)
    ensures var s := Run(cfg, Start(cfg, l2), run);
      GetResult(cfg, s, k, now, false) == Held(s, k, now)
      <==> !Outlives(s, k, now) || s.l2[k].value == None
  {
    RunTied(cfg, l2, run);
  }

  /** The operation promotes an item that is to expire. */
  predicate PromotesExpiring(cfg: Config, s: State, op: Op, now: real) {
    op.Get? && L2Hit(cfg, s, op.key, now, op.fault) && s.l2[op.key].expiresAt.Some?
  }

  ghost predicate NoExpiringPromotion(cfg: Config, s: State, run: seq<Timed>)
    requires cfg.maxItems >= 1
  {
    run == []
    || (var n := |run| - 1;
        NoExpiringPromotion(cfg, s, run[..n]) && !PromotesExpiring(cfg, Run(cfg, s, run[..n]), run[n].op, run[n].now))
  }

  /** An L1 entry without a TTL is one that Redis keeps for ever. */
  ghost predicate Faithful(t: Tier, l2: map<Key, Stored>) {
    forall k :: k in t.store && k in l2 && t.store[k].ttl.None? ==> l2[k].expiresAt.None?
  }

  lemma PutFaithful(cfg: Config, t: Tier, l2: map<Key, Stored>, k: Key, e: Entry)
    requires cfg.maxItems >= 1 && TierOk(cfg, t)
    requires forall x :: x in t.store && x != k && x in l2 && t.store[x].ttl.None? ==> l2[x].expiresAt.None?
    requires k in l2 && (e.ttl.None? ==> l2[k].expiresAt.None?)
    ensures Faithful(Put(t, k, e, cfg.maxItems), l2)
  {
    EvictedKeeps(t, cfg.maxItems);
  }

  lemma StepFaithful(cfg: Config, s: State, op: Op, now: real)
    requires cfg.maxItems >= 1 && cfg.redis && TierOk(cfg, s.tier) && TiedState(s) && TtlHealthy(op)
    requires Faithful(s.tier, s.l2) && !PromotesExpiring(cfg, s, op, now)
    ensures Faithful(Step(cfg, s, op, now).tier, Step(cfg, s, op, now).l2)
  {
    match op {
      case Set(k, v, ttl, tags, _) =>
        PutFaithful(cfg, s.tier, s.l2[k := Stored(v, tags, Expiry(ttl, now))], k, Entry(v, now, ttl, tags));
      case Get(k, _) =>
        if !L1Hit(s, k, now) {
          if k in s.tier.store { DroppedOk(cfg, s.tier, {k}, Discard(s.tier.index, k, s.tier.store[k].tags)); }
          if Reply(s, k, now).Some? {
            PutFaithful(cfg, AfterExpiry(s, k), s.l2, k, Entry(s.l2[k].value, now, None, s.l2[k].tags));
          }
        }
      case _ => InvalidationsAreErase(cfg, s, op, now);
    }
  }

  lemma {:induction false} RunFaithful(cfg: Config, l2: map<Key, Stored>, run: seq<Timed>)
    requires cfg.maxItems >= 1 && cfg.redis && AllTtlHealthy(run) && NoExpiringPromotion(cfg, Start(cfg, l2), run)
    ensures var s := Run(cfg, Start(cfg, l2), run); Faithful(s.tier, s.l2)
  {
    if run == [] {
    } else {
      var n := |run| - 1;
      RunFaithful(cfg, l2, run[..n]);
      RunTied(cfg, l2, run[..n]);
      RunKeepsTier(cfg, l2, run[..n]);
      StepFaithful(cfg, Run(cfg, Start(cfg, l2), run[..n]), run[n].op, run[n].now);
    }
  }

  /** The time left over by cutting the TTL of an L1 entry to whole seconds for Redis. */
  predicate InFraction(e: Entry, now: real) {
    e.ttl.Some? && e.createdAt + Truncated(e.ttl.value) as real <= now < e.createdAt + e.ttl.value
  }

  /**
   Promotion is the only other cause: while no expiring item is promoted, `get` returns what Redis holds
   unless, and only unless, L1 serves the item within the fraction of a second that Redis cut off.
   */
  lemma TtlRespectedWithoutPromotion(cfg: Config, l2: map<Key, Stored>, run: seq<Timed>, k: Key, now: real)
    requires cfg.maxItems >= 1 && cfg.redis && AllTtlHealthy(run) && NoExpiringPromotion(cfg, Start(cfg, l2), run)
    ensures var s := Run(cfg, Start(cfg, l2), run);
      GetResult(cfg, s, k, now, false) == Held(s, k, now)
      <==> !(k in s.tier.store && InFraction(s.tier.store[k], now)) || s.tier.store[k].value == None
  {
    RunFaithful(cfg, l2, run);
    RunTied(cfg, l2, run);
    var s := Run(cfg, Start(cfg, l2), run);
    if k in s.tier.store { FractionOutlives(s, k, now); }
  }

  lemma FractionOutlives(s: State, k: Key, now: real)
    requires k in s.tier.store && k in s.l2 && TiedEntry(s.tier.store[k], s.l2[k])
    requires s.tier.store[k].ttl.None? ==> s.l2[k].expiresAt.None?
    ensures Outlives(s, k, now) <==> InFraction(s.tier.store[k], now)
  {
  }

  // ---- Which TTLs mean the same in both tiers ----

  predicate ServedByL1(ttl: Option<real>, at: real, now: real) {
    !Expired(Entry(None, at, ttl, {}), now)
  }

  predicate ServedByRedis(ttl: Option<real>, at: real, now: real) {
    !Refused(ttl) && Live(Stored(None, {}, Expiry(ttl, at)), now)
  }

  /** None, a negative number, or a positive number of whole seconds. */
  predicate SameInBothTiers(ttl: Option<real>) {
    ttl.Some? ==> ttl.value < 0.0 || (ttl.value != 0.0 && ttl.value == Truncated(ttl.value) as real)
  }

  /** These are exactly the TTLs under which both tiers serve a newly set item for the same time. */
  lemma TiersAgreeExactly(ttl: Option<real>, at: real)
    ensures SameInBothTiers(ttl)
      <==> forall now: real :: now >= at ==> ServedByL1(ttl, at, now) == ServedByRedis(ttl, at, now)
  {
    if !SameInBothTiers(ttl) {
      var now := if ttl.value < 1.0 then at else at + Truncated(ttl.value) as real;
      assert ServedByL1(ttl, at, now) != ServedByRedis(ttl, at, now);
    }
  }

  /** A TTL of zero: L1 drops the item at once, Redis keeps it, and `get` serves it at any later time. */
  lemma ZeroTtlNeverExpires(cfg: Config, s: State, k: Key, v: Value, tags: set<Tag>, at: real, now: real)
    requires cfg.maxItems >= 1 && cfg.redis && s.breaker.mode != Degraded && now >= at
    ensures var t := SetStep(cfg, s, k, v, Some(0.0), tags, at, false);
      !L1Hit(t, k, now) && GetResult(cfg, t, k, now, false) == v
  {
    var t := SetStep(cfg, s, k, v, Some(0.0), tags, at, false);
    assert t.tier.store[k] == Entry(v, at, Some(0.0), tags);
  }

  /** The TTL is negative or a fraction of a second: cut to whole seconds it is not positive, though not given as zero. */
  predicate BelowOneSecond(ttl: Option<real>) {
    ttl.Some? && ttl.value != 0.0 && ttl.value < 1.0
  }

  /**
   Redis refuses a write exactly with such a TTL: its older item stays and a failure is counted. If the TTL is
   negative L1 does not serve the new item either, so the older one is read.
   */
  lemma WriteRefusedExactly(cfg: Config, s: State, k: Key, v: Value, ttl: Option<real>, tags: set<Tag>, now: real)
    requires cfg.maxItems >= 1 && cfg.redis && s.breaker.mode != Degraded
    ensures var t := SetStep(cfg, s, k, v, ttl, tags, now, false);
      if BelowOneSecond(ttl) then t.l2 == s.l2 && t.breaker.failures == s.breaker.failures + 1
      else k in t.l2 && t.l2[k].value == v && t.l2[k].tags == tags && t.breaker.failures == 0
    ensures GetResult(cfg, SetStep(cfg, s, k, v, ttl, tags, now, false), k, now, false)
         == if ttl.None? || ttl.value >= 0.0 then v
            else if k in s.l2 && Live(s.l2[k], now) then s.l2[k].value
            else None
  {
    if ttl.Some? && ttl.value < 0.0 { assert (-ttl.value).Floor >= 0; }
  }
}
