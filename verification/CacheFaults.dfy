/**
 What `get` returns in any run at all: whatever Redis did, whatever the mode, with any TTLs and
 any invalidations.
 */
module CacheFaults {
  import opened Wrappers
  import opened Sequences
  import opened CacheModel
  import opened CacheTheorems
  import opened CacheRefinement

  // ---- What the callers asked for, and what became of it ----

  /** When the caller wants an item set at `now` to expire. */
  function Deadline(ttl: Option<real>, now: real): Option<real> {
    if ttl.Some? then Some(now + ttl.value) else None
  }

  /**
   `intended`: what a cache without tiers, failures or capacity would hold. `received`: the writes and
   deletions that reached Redis. `held`: the keys resident in L1 since their last set.
   */
  datatype Track = Track(intended: map<Key, Stored>, received: map<Key, Stored>, held: set<Key>)

  /** The intended effect of an operation; invalidations go by the tags and keys of the items themselves. */
  function Intended(m: map<Key, Stored>, op: Op, now: real): map<Key, Stored> {
    match op
    case Set(k, v, ttl, tags, _) => m[k := Stored(v, tags, Deadline(ttl, now))]
    case Get(_, _) => m
    case Invalidate(k, _) => m - {k}
    case InvalidateTag(tag, _) => m - (set k | k in m && tag in m[k].tags)
    case InvalidatePrefix(prefix, _) => m - (set k | k in m && prefix <= k)
  }

  /** The keys whose deletion reaches Redis. */
  function Deleted(cfg: Config, s: State, op: Op): set<Key> {
    if !cfg.redis then {}
    else
      match op
      case Invalidate(k, fault) => if fault then {} else {k}
      case InvalidateTag(tag, faults) => Indexed(s.tier.index, tag) - faults
      case InvalidatePrefix(prefix, failAt) =>
        var ks := Prefixed(s.tier.order, prefix);
        Elements(if failAt.Some? && failAt.value < |ks| then ks[..failAt.value] else ks)
      case _ => {}
  }

  /** A set reaches Redis unless there is none, the breaker is open, or the call fails. */
  predicate Reaches(cfg: Config, s: State, op: Op) {
    op.Set? && cfg.redis && s.breaker.mode != Degraded && !op.fault && !Refused(op.ttl)
  }

  function Received(cfg: Config, s: State, m: map<Key, Stored>, op: Op, now: real): map<Key, Stored> {
    if Reaches(cfg, s, op) then m[op.key := Stored(op.value, op.tags, Expiry(op.ttl, now))]
    else m - Deleted(cfg, s, op)
  }

  /** The operation promotes its key from Redis. */
  predicate Promotes(cfg: Config, s: State, op: Op, now: real) {
    op.Get? && L2Hit(cfg, s, op.key, now, op.fault)
  }

  function Held(cfg: Config, s: State, held: set<Key>, op: Op, now: real): set<Key>
    requires cfg.maxItems >= 1
  {
    if op.Set? then held * Step(cfg, s, op, now).tier.store.Keys + {op.key}
    else held * Step(cfg, s, op, now).tier.store.Keys - (if Promotes(cfg, s, op, now) then {op.key} else {})
  }

  function Tracked(cfg: Config, l2: map<Key, Stored>, run: seq<Timed>): Track
    requires cfg.maxItems >= 1
  {
    if run == [] then Track(l2, l2, {})
    else
      var n := |run| - 1;
      var t, s := Tracked(cfg, l2, run[..n]), Run(cfg, Start(cfg, l2), run[..n]);
      Track(Intended(t.intended, run[n].op, run[n].now),
            Received(cfg, s, t.received, run[n].op, run[n].now),
            Held(cfg, s, t.held, run[n].op, run[n].now))
  }

  // ---- The invariant ----

  /** The L1 entry is the intended item. */
  predicate AsIntended(e: Entry, item: Stored) {
    e.value == item.value && e.tags == item.tags && item.expiresAt == Deadline(e.ttl, e.createdAt)
  }

  /** The L1 entry is a copy of the Redis item without its expiry. */
  predicate AsPromoted(e: Entry, item: Stored) {
    e.value == item.value && e.tags == item.tags && e.ttl.None?
  }

  ghost predicate HeldRight(store: map<Key, Entry>, t: Track) {
    forall k :: k in t.held ==> k in store && k in t.intended && AsIntended(store[k], t.intended[k])
  }

  ghost predicate PromotedRight(store: map<Key, Entry>, t: Track) {
    forall k :: k in store && k !in t.held ==> k in t.received && AsPromoted(store[k], t.received[k])
  }

  ghost predicate Follows(s: State, t: Track) {
    s.l2 == t.received && HeldRight(s.tier.store, t) && PromotedRight(s.tier.store, t)
  }

  /** `after` has no more L1 entries than `before` but for one key. */
  ghost predicate SubBut(after: map<Key, Entry>, before: map<Key, Entry>, k: Key) {
    forall x :: x in after && x != k ==> x in before && after[x] == before[x]
  }

  lemma PutSub(cfg: Config, t: Tier, k: Key, e: Entry)
    requires cfg.maxItems >= 1
    ensures var store := Put(t, k, e, cfg.maxItems).store; SubBut(store, t.store, k) && k in store && store[k] == e
  {
    EvictedKeeps(t, cfg.maxItems);
  }

  lemma SetFollows(cfg: Config, s: State, t: Track, op: Op, now: real)
    requires cfg.maxItems >= 1 && op.Set? && Follows(s, t)
    ensures Follows(Step(cfg, s, op, now), Track(Intended(t.intended, op, now), Received(cfg, s, t.received, op, now),
                                                 Held(cfg, s, t.held, op, now)))
  {
    PutSub(cfg, s.tier, op.key, Entry(op.value, now, op.ttl, op.tags));
    assert t.received - {} == t.received;
  }

  lemma GetFollows(cfg: Config, s: State, t: Track, op: Op, now: real)
    requires cfg.maxItems >= 1 && op.Get? && Follows(s, t)
    ensures Follows(Step(cfg, s, op, now), Track(t.intended, t.received, Held(cfg, s, t.held, op, now)))
  {
    if L2Hit(cfg, s, op.key, now, op.fault) {
      var item := s.l2[op.key];
      PutSub(cfg, AfterExpiry(s, op.key), op.key, Entry(item.value, now, None, item.tags));
    }
  }

  /** The keys an invalidation drops from L1. */
  function Erased(s: State, op: Op): set<Key>
    requires !op.Set? && !op.Get?
  {
    match op
    case Invalidate(k, _) => {k}
    case InvalidateTag(tag, _) => Indexed(s.tier.index, tag)
    case InvalidatePrefix(prefix, _) => set k | k in s.tier.store && prefix <= k
  }

  lemma Erases(cfg: Config, s: State, op: Op, now: real)
    requires cfg.maxItems >= 1 && Consistent(s.tier) && !op.Set? && !op.Get?
    ensures Step(cfg, s, op, now).tier.store == s.tier.store - Erased(s, op)
    ensures Step(cfg, s, op, now).l2 == s.l2 - Deleted(cfg, s, op)
    ensures Deleted(cfg, s, op) <= Erased(s, op)
  {
    match op {
      case Invalidate(k, fault) =>
        assert s.l2 - {} == s.l2;
        assert k !in s.tier.store ==> s.tier.store - {k} == s.tier.store;
      case InvalidateTag(tag, faults) => TagErases(cfg, s, tag, faults, now);
      case InvalidatePrefix(prefix, failAt) => PrefixErases(cfg, s, prefix, failAt, now);
    }
  }

  lemma TagErases(cfg: Config, s: State, tag: Tag, faults: set<Key>, now: real)
    ensures TagStep(cfg, s, tag, now, faults).tier.store == s.tier.store - Indexed(s.tier.index, tag)
    ensures TagStep(cfg, s, tag, now, faults).l2 == s.l2 - Deleted(cfg, s, InvalidateTag(tag, faults))
  {
    TagDrops(s.tier, tag);
    NothingLost(s.l2);
  }

  lemma NothingLost<V>(m: map<Key, V>)
    ensures m - {} == m
  {
  }

  lemma TagDrops(t: Tier, tag: Tag)
    ensures TagDropped(t, tag).store == t.store - Indexed(t.index, tag)
  {
    assert tag !in t.index ==> t.store - {} == t.store;
  }

  lemma PrefixErases(cfg: Config, s: State, prefix: string, failAt: Option<nat>, now: real)
    requires Consistent(s.tier)
    ensures var op, t := InvalidatePrefix(prefix, failAt), PrefixStep(cfg, s, prefix, now, failAt);
      && t.tier.store == s.tier.store - Erased(s, op)
      && t.l2 == s.l2 - Deleted(cfg, s, op)
      && Deleted(cfg, s, op) <= Erased(s, op)
  {
    var ks := Prefixed(s.tier.order, prefix);
    PrefixStepDrops(cfg, s, prefix);
    assert s.l2 - {} == s.l2;
    if failAt.Some? && failAt.value < |ks| { assert Elements(ks[..failAt.value]) <= Elements(ks); }
  }

  lemma EraseFollows(cfg: Config, s: State, t: Track, op: Op, now: real)
    requires cfg.maxItems >= 1 && TierOk(cfg, s.tier) && !op.Set? && !op.Get? && Follows(s, t)
    ensures Follows(Step(cfg, s, op, now), Track(Intended(t.intended, op, now), Received(cfg, s, t.received, op, now),
                                                 Held(cfg, s, t.held, op, now)))
  {
    Erases(cfg, s, op, now);
    forall k | k in t.held && k !in Erased(s, op)
      ensures k in Intended(t.intended, op, now) && Intended(t.intended, op, now)[k] == t.intended[k]
    {
      assert AsIntended(s.tier.store[k], t.intended[k]);
    }
  }

  lemma {:induction false} RunFollows(cfg: Config, l2: map<Key, Stored>, run: seq<Timed>)
    requires cfg.maxItems >= 1
    ensures Follows(Run(cfg, Start(cfg, l2), run), Tracked(cfg, l2, run))
  {
    if run == [] {
    } else {
      var n := |run| - 1;
      RunFollows(cfg, l2, run[..n]);
      RunKeepsTier(cfg, l2, run[..n]);
      var s, t, op, now := Run(cfg, Start(cfg, l2), run[..n]), Tracked(cfg, l2, run[..n]), run[n].op, run[n].now;
      if op.Set? {
        SetFollows(cfg, s, t, op, now);
      } else if op.Get? {
        GetFollows(cfg, s, t, op, now);
        assert t.received - {} == t.received;
      } else {
        EraseFollows(cfg, s, t, op, now);
      }
    }
  }

  // ---- What `get` answers ----

  /** What a map of items holds for a key at a time. */
  function LiveIn(m: map<Key, Stored>, k: Key, now: real): Value {
    if k in m && Live(m[k], now) then m[k].value else None
  }

  predicate ServesIntended(t: Track, k: Key, now: real) {
    k in t.held && k in t.intended && Live(t.intended[k], now)
  }

  /** What Redis contributes: a promoted item for ever, any other while Redis keeps it and answers. */
  function FromRedis(t: Track, resident: bool, answers: bool, k: Key, now: real): Value {
    if resident && k !in t.held then (if k in t.received then t.received[k].value else None)
    else if answers then LiveIn(t.received, k, now)
    else None
  }

  /** The answer of `get` after any run: the intended item if held and live, otherwise what Redis contributes. */
  lemma GetInAnyRun(cfg: Config, l2: map<Key, Stored>, run: seq<Timed>, k: Key, now: real, fault: bool)
    requires cfg.maxItems >= 1
    ensures var s, t := Run(cfg, Start(cfg, l2), run), Tracked(cfg, l2, run);
      GetResult(cfg, s, k, now, fault)
      == if ServesIntended(t, k, now) then t.intended[k].value
         else FromRedis(t, k in s.tier.store, cfg.redis && !fault, k, now)
  {
    RunFollows(cfg, l2, run);
    var s, t := Run(cfg, Start(cfg, l2), run), Tracked(cfg, l2, run);
    assert k in t.held ==> AsIntended(s.tier.store[k], t.intended[k]);
  }

  /**
   After any run `get` returns the intended value exactly when L1 has held the item since its last set
   and it is live, or what Redis contributes happens to agree.
   */
  lemma RightExactly(cfg: Config, l2: map<Key, Stored>, run: seq<Timed>, k: Key, now: real, fault: bool)
    requires cfg.maxItems >= 1
    ensures var s, t := Run(cfg, Start(cfg, l2), run), Tracked(cfg, l2, run);
      GetResult(cfg, s, k, now, fault) == LiveIn(t.intended, k, now)
      <==> || ServesIntended(t, k, now)
           || FromRedis(t, k in s.tier.store, cfg.redis && !fault, k, now) == LiveIn(t.intended, k, now)
  {
    GetInAnyRun(cfg, l2, run, k, now, fault);
  }

  // ---- Without TTLs ----

  ghost predicate NoTtl(run: seq<Timed>) {
    forall i :: 0 <= i < |run| && run[i].op.Set? ==> run[i].op.ttl.None?
  }

  lemma {:induction false} TrackPermanent(cfg: Config, l2: map<Key, Stored>, run: seq<Timed>)
    requires cfg.maxItems >= 1 && Permanent(l2) && NoTtl(run)
    ensures var t := Tracked(cfg, l2, run); Permanent(t.intended) && Permanent(t.received)
  {
    if run != [] {
      TrackPermanent(cfg, l2, run[..|run| - 1]);
    }
  }

  function ValueIn(m: map<Key, Stored>, k: Key): Value {
    if k in m then m[k].value else None
  }

  /**
   Without TTLs, whatever Redis missed: a `get` that Redis answers returns the last value set while L1
   has held the key since, and otherwise the last value that reached Redis. So it is right exactly
   when the key is held or the two agree.
   */
  lemma LastSetOrReceived(cfg: Config, l2: map<Key, Stored>, run: seq<Timed>, k: Key, now: real)
    requires cfg.maxItems >= 1 && cfg.redis && Permanent(l2) && NoTtl(run)
    ensures var s, t := Run(cfg, Start(cfg, l2), run), Tracked(cfg, l2, run);
      && GetResult(cfg, s, k, now, false) == (if k in t.held then ValueIn(t.intended, k) else ValueIn(t.received, k))
      && (GetResult(cfg, s, k, now, false) == ValueIn(t.intended, k)
          <==> k in t.held || ValueIn(t.received, k) == ValueIn(t.intended, k))
  {
    RunFollows(cfg, l2, run);
    GetInAnyRun(cfg, l2, run, k, now, false);
    TrackPermanent(cfg, l2, run);
  }
}
