/**
 The two-tier cache of `cache/resilience.py` as a value: a bounded L1 in recency order, its tag
 index, the contents of Redis, the failure breaker and the counters.
 */
module CacheModel {
  import opened Wrappers
  import opened Sequences

  type Key = string
  type Tag = string
  // None is Python's None, which is both a storable value and what a miss returns.
  type Value = Option<string>

  datatype Mode = Normal | Degraded | Recovering

  datatype Config = Config(redis: bool, maxItems: int, threshold: int, probeInterval: real)

  datatype Entry = Entry(value: Value, createdAt: real, ttl: Option<real>, tags: set<Tag>)

  /** What Redis holds for a key; `expiresAt` is None when it was stored without a TTL. */
  datatype Stored = Stored(value: Value, tags: set<Tag>, expiresAt: Option<real>)

  /** L1: keys from least to most recently used, their entries, and the tag index. */
  datatype Tier = Tier(order: seq<Key>, store: map<Key, Entry>, index: map<Tag, set<Key>>)

  datatype Breaker = Breaker(mode: Mode, failures: nat, lastFailure: real, errors: nat, fallbacks: nat)

  datatype Stats = Stats(hits: nat, misses: nat, l1Hits: nat, l2Hits: nat, invalidations: nat)

  datatype State = State(tier: Tier, l2: map<Key, Stored>, breaker: Breaker, stats: Stats)

  // ---- Entries ----

  predicate Expired(e: Entry, now: real) {
    e.ttl.Some? && now - e.createdAt >= e.ttl.value
  }

  predicate Live(item: Stored, now: real) {
    item.expiresAt.None? || now < item.expiresAt.value
  }

  /** Python's `int(x)`: truncation toward zero. */
  function Truncated(x: real): int {
    if x >= 0.0 then x.Floor else -((-x).Floor)
  }

  /** `if ttl_seconds: setex(..., int(ttl_seconds), ...) else: set(...)`. */
  function Expiry(ttl: Option<real>, now: real): Option<real> {
    if ttl.Some? && ttl.value != 0.0 then Some(now + Truncated(ttl.value) as real) else None
  }

  /** Redis answers `setex` with an error when the number of seconds is not positive. */
  predicate Refused(ttl: Option<real>) {
    ttl.Some? && ttl.value != 0.0 && Truncated(ttl.value) <= 0
  }

  // ---- The tag index ----

  /** `discard(key)` from the sets of `tags`, leaving emptied sets behind. */
  function Discard(index: map<Tag, set<Key>>, key: Key, tags: set<Tag>): map<Tag, set<Key>> {
    map t | t in index :: if t in tags then index[t] - {key} else index[t]
  }

  /** As `Discard`, but a set of `tags` that is now empty is deleted. */
  function Prune(index: map<Tag, set<Key>>, key: Key, tags: set<Tag>): map<Tag, set<Key>> {
    map t | t in index && !(t in tags && index[t] - {key} == {}) ::
      if t in tags then index[t] - {key} else index[t]
  }

  function Indexed(index: map<Tag, set<Key>>, t: Tag): set<Key> {
    if t in index then index[t] else {}
  }

  function Enroll(index: map<Tag, set<Key>>, key: Key, tags: set<Tag>): map<Tag, set<Key>> {
    map t | t in index.Keys + tags :: Indexed(index, t) + (if t in tags then {key} else {})
  }

  // ---- L1 ----

  ghost predicate Consistent(t: Tier) {
    NoDup(t.order) && forall k :: k in t.order <==> k in t.store
  }

  /** Every tag of every L1 entry indexes that entry's key. */
  ghost predicate IndexComplete(t: Tier) {
    forall k, tag :: k in t.store && tag in t.store[k].tags ==> k in Indexed(t.index, tag)
  }

  ghost predicate TierOk(cfg: Config, t: Tier) {
    Consistent(t) && IndexComplete(t) && |t.order| <= cfg.maxItems
  }

  /** `popitem(last=False)` and the removal of its key from its tags. */
  function PopOldest(t: Tier): Tier
    requires t.order != []
  {
    var k := t.order[0];
    Tier(t.order[1..], t.store - {k}, Prune(t.index, k, TagsOf(t, k)))
  }

  function TagsOf(t: Tier, k: Key): set<Tag> {
    if k in t.store then t.store[k].tags else {}
  }

  /** The eviction loop. */
  function Evicted(t: Tier, maxItems: int): Tier
    requires maxItems >= 1
    decreases |t.order|
  {
    if |t.order| >= maxItems then Evicted(PopOldest(t), maxItems) else t
  }

  /** Drops L1 keys from the order and the store; the index is given. */
  function Dropped(t: Tier, gone: set<Key>, index: map<Tag, set<Key>>): Tier {
    Tier(Without(t.order, gone), t.store - gone, index)
  }

  /** Removal of one resident key with its tags, as `get` does on expiry and `invalidate` does. */
  function Unlinked(t: Tier, k: Key): Tier
    requires k in t.store
  {
    Dropped(t, {k}, Discard(t.index, k, t.store[k].tags))
  }

  /** Room for `k`: replacing a resident key frees its own slot, a new key may evict. */
  function Cleared(t: Tier, k: Key, maxItems: int): Tier
    requires maxItems >= 1
  {
    if k in t.store then Dropped(t, {k}, t.index) else Evicted(t, maxItems)
  }

  /** The L1 half of `set`, and of the promotion of a key that is not resident. */
  function Put(t: Tier, k: Key, e: Entry, maxItems: int): Tier
    requires maxItems >= 1
  {
    var u := Cleared(t, k, maxItems);
    Tier(u.order + [k], u.store[k := e], Enroll(u.index, k, e.tags))
  }

  function Refreshed(t: Tier, k: Key): Tier {
    t.(order := Without(t.order, {k}) + [k])
  }

  // ---- The breaker ----

  function Failed(cfg: Config, b: Breaker, now: real): Breaker {
    var c := b.(errors := b.errors + 1, failures := b.failures + 1, lastFailure := now);
    if c.failures >= cfg.threshold && c.mode != Degraded
    then c.(mode := Degraded, fallbacks := c.fallbacks + 1) else c
  }

  function FailedTimes(cfg: Config, b: Breaker, now: real, n: nat): Breaker {
    if n == 0 then b else Failed(cfg, FailedTimes(cfg, b, now, n - 1), now)
  }

  function Succeeded(b: Breaker): Breaker {
    if b.mode == Degraded || b.failures > 0 then b.(mode := Normal, failures := 0) else b
  }

  /** The probe decision at the head of `get`'s Redis branch. */
  function Probed(cfg: Config, b: Breaker, now: real): Breaker {
    if b.mode == Degraded && now - b.lastFailure > cfg.probeInterval then b.(mode := Recovering) else b
  }

  // ---- Operations ----

  // `fault` says that the call to Redis, or the handling of its reply, raises. `faults` are the keys
  // whose deletion raises; `failAt` is the position of the deletion that raises, if one does.
  datatype Op =
    | Set(key: Key, value: Value, ttl: Option<real>, tags: set<Tag>, fault: bool)
    | Get(key: Key, fault: bool)
    | Invalidate(key: Key, fault: bool)
    | InvalidateTag(tag: Tag, faults: set<Key>)
    | InvalidatePrefix(prefix: string, failAt: Option<nat>)

  datatype Timed = Timed(op: Op, now: real)

  function Start(cfg: Config, l2: map<Key, Stored>): State {
    State(Tier([], map[], map[]), l2,
          Breaker(if cfg.redis then Normal else Degraded, 0, 0.0, 0, 0), Stats(0, 0, 0, 0, 0))
  }

  function SetStep(cfg: Config, s: State, k: Key, v: Value, ttl: Option<real>, tags: set<Tag>,
                   now: real, fault: bool): State
    requires cfg.maxItems >= 1
  {
    var tier := Put(s.tier, k, Entry(v, now, ttl, tags), cfg.maxItems);
    if !cfg.redis || s.breaker.mode == Degraded then s.(tier := tier)
    else if fault || Refused(ttl) then s.(tier := tier, breaker := Failed(cfg, s.breaker, now))
    else s.(tier := tier, l2 := s.l2[k := Stored(v, tags, Expiry(ttl, now))], breaker := Succeeded(s.breaker))
  }

  predicate L1Hit(s: State, k: Key, now: real) {
    k in s.tier.store && !Expired(s.tier.store[k], now)
  }

  /** What Redis replies to a read, when it does reply. */
  function Reply(s: State, k: Key, now: real): Option<Stored> {
    if k in s.l2 && Live(s.l2[k], now) then Some(s.l2[k]) else None
  }

  predicate L2Hit(cfg: Config, s: State, k: Key, now: real, fault: bool) {
    !L1Hit(s, k, now) && cfg.redis && !fault && Reply(s, k, now).Some?
  }

  /** L1 after `get` dropped an expired entry. */
  function AfterExpiry(s: State, k: Key): Tier {
    if k in s.tier.store then Unlinked(s.tier, k) else s.tier
  }

  function GetStep(cfg: Config, s: State, k: Key, now: real, fault: bool): State
    requires cfg.maxItems >= 1
  {
    if L1Hit(s, k, now) then
      s.(tier := Refreshed(s.tier, k), stats := s.stats.(hits := s.stats.hits + 1, l1Hits := s.stats.l1Hits + 1))
    else
      var tier := AfterExpiry(s, k);
      var missed := s.stats.(misses := s.stats.misses + 1);
      if !cfg.redis then s.(tier := tier, stats := missed)
      else
        var probed := Probed(cfg, s.breaker, now);
        if fault then s.(tier := tier, breaker := Failed(cfg, probed, now), stats := missed)
        else
          match Reply(s, k, now)
          case None => s.(tier := tier, breaker := probed, stats := missed)
          case Some(item) =>
            s.(tier := Put(tier, k, Entry(item.value, now, None, item.tags), cfg.maxItems),
               breaker := Succeeded(probed),
               stats := s.stats.(hits := s.stats.hits + 1, l2Hits := s.stats.l2Hits + 1))
  }

  function GetResult(cfg: Config, s: State, k: Key, now: real, fault: bool): Value {
    if L1Hit(s, k, now) then s.tier.store[k].value
    else if L2Hit(cfg, s, k, now, fault) then s.l2[k].value
    else None
  }

  function InvalidateStep(cfg: Config, s: State, k: Key, now: real, fault: bool): State {
    var t := s.(tier := AfterExpiry(s, k), stats := s.stats.(invalidations := s.stats.invalidations + 1));
    if !cfg.redis then t
    else if fault then t.(breaker := Failed(cfg, s.breaker, now))
    else t.(l2 := s.l2 - {k})
  }

  function TagDropped(t: Tier, tag: Tag): Tier {
    if tag in t.index then Dropped(t, t.index[tag], t.index - {tag}) else t
  }

  function TagStep(cfg: Config, s: State, tag: Tag, now: real, faults: set<Key>): State {
    var gone := Indexed(s.tier.index, tag);
    var t := s.(tier := TagDropped(s.tier, tag),
                stats := s.stats.(invalidations := s.stats.invalidations + Common(gone, s.tier.store.Keys)));
    if !cfg.redis then t
    else t.(l2 := s.l2 - (gone - faults), breaker := FailedTimes(cfg, s.breaker, now, Common(gone, faults)))
  }

  function Common(a: set<Key>, b: set<Key>): nat {
    |a * b|
  }

  /** The resident keys with the prefix, in L1 order. */
  function Prefixed(order: seq<Key>, prefix: string): seq<Key> {
    if order == [] then []
    else (if prefix <= order[0] then [order[0]] else []) + Prefixed(order[1..], prefix)
  }

  /** Unlinking a sequence of resident keys one after the other. */
  function UnlinkedAll(t: Tier, ks: seq<Key>): Tier
    decreases |ks|
  {
    if ks == [] then t
    else if ks[0] in t.store then UnlinkedAll(Unlinked(t, ks[0]), ks[1..])
    else UnlinkedAll(t, ks[1..])
  }

  function PrefixStep(cfg: Config, s: State, prefix: string, now: real, failAt: Option<nat>): State {
    var ks := Prefixed(s.tier.order, prefix);
    var t := s.(tier := UnlinkedAll(s.tier, ks),
                stats := s.stats.(invalidations := s.stats.invalidations + |ks|));
    if !cfg.redis then t
    else if failAt.Some? && failAt.value < |ks| then
      t.(l2 := s.l2 - Elements(ks[..failAt.value]), breaker := Failed(cfg, s.breaker, now))
    else t.(l2 := s.l2 - Elements(ks))
  }

  function Step(cfg: Config, s: State, op: Op, now: real): State
    requires cfg.maxItems >= 1
  {
    match op
    case Set(k, v, ttl, tags, fault) => SetStep(cfg, s, k, v, ttl, tags, now, fault)
    case Get(k, fault) => GetStep(cfg, s, k, now, fault)
    case Invalidate(k, fault) => InvalidateStep(cfg, s, k, now, fault)
    case InvalidateTag(tag, faults) => TagStep(cfg, s, tag, now, faults)
    case InvalidatePrefix(prefix, failAt) => PrefixStep(cfg, s, prefix, now, failAt)
  }

  // ---- L1 stays well formed ----

  lemma DroppedOk(cfg: Config, t: Tier, gone: set<Key>, index: map<Tag, set<Key>>)
    requires TierOk(cfg, t)
    requires forall tag, k ::
      k in Indexed(t.index, tag) && k in t.store && tag in t.store[k].tags && k !in gone ==> k in Indexed(index, tag)
    ensures TierOk(cfg, Dropped(t, gone, index))
  {
    WithoutNoDup(t.order, gone);
    WithoutElements(t.order, gone);
  }

  lemma {:induction false} UnlinkedAllOk(cfg: Config, t: Tier, ks: seq<Key>)
    requires TierOk(cfg, t)
    ensures TierOk(cfg, UnlinkedAll(t, ks))
    decreases |ks|
  {
    if ks == [] {
    } else if ks[0] in t.store {
      DroppedOk(cfg, t, {ks[0]}, Discard(t.index, ks[0], t.store[ks[0]].tags));
      UnlinkedAllOk(cfg, Unlinked(t, ks[0]), ks[1..]);
    } else {
      UnlinkedAllOk(cfg, t, ks[1..]);
    }
  }

  lemma {:induction false} UnlinkedAllDrops(t: Tier, ks: seq<Key>)
    requires forall k :: k in ks ==> k in t.store
    requires NoDup(ks)
    ensures UnlinkedAll(t, ks).store == t.store - Elements(ks)
    ensures UnlinkedAll(t, ks).order == Without(t.order, Elements(ks))
    decreases |ks|
  {
    if ks == [] {
      WithoutNothing(t.order, Elements(ks));
    } else {
      var u := Unlinked(t, ks[0]);
      UnlinkedAllDrops(u, ks[1..]);
      WithoutTwice(t.order, {ks[0]}, Elements(ks[1..]));
      assert {ks[0]} + Elements(ks[1..]) == Elements(ks) by { assert ks == [ks[0]] + ks[1..]; }
    }
  }

  lemma {:induction false} WithoutTwice<T>(s: seq<T>, a: set<T>, b: set<T>)
    ensures Without(Without(s, a), b) == Without(s, a + b)
  {
    if s == [] {
    } else {
      WithoutTwice(s[1..], a, b);
      if s[0] !in a {
        assert ([s[0]] + Without(s[1..], a))[1..] == Without(s[1..], a);
      }
    }
  }

  lemma PopOldestOk(t: Tier)
    requires t.order != [] && Consistent(t)
    ensures var u := PopOldest(t);
      && Consistent(u) && u.order == t.order[1..] && u.store == t.store - {t.order[0]}
      && (IndexComplete(t) ==> IndexComplete(u))
  {
    assert t.order == [t.order[0]] + t.order[1..];
    var k, u := t.order[0], PopOldest(t);
    if IndexComplete(t) {
      forall x, tag | x in u.store && tag in u.store[x].tags
        ensures x in Indexed(u.index, tag)
      {
        assert x in t.store && u.store[x] == t.store[x] && x != k;
        assert x in Indexed(t.index, tag);
        assert x in t.index[tag] - {k};
      }
    }
  }

  /** Eviction keeps the most recent `maxItems - 1` keys, with their entries, and only those. */
  lemma {:induction false} EvictedKeeps(t: Tier, maxItems: int)
    requires maxItems >= 1
    ensures var u := Evicted(t, maxItems);
      u.order == t.order[Surplus(t, maxItems)..] && |u.order| < maxItems && SubStore(u, t)
    decreases |t.order|
  {
    if |t.order| >= maxItems {
      var u := PopOldest(t);
      EvictedKeeps(u, maxItems);
      assert u.order[Surplus(u, maxItems)..] == t.order[Surplus(t, maxItems)..];
    }
  }

  lemma {:induction false} EvictedOk(t: Tier, maxItems: int)
    requires maxItems >= 1 && Consistent(t)
    ensures Consistent(Evicted(t, maxItems))
    ensures IndexComplete(t) ==> IndexComplete(Evicted(t, maxItems))
    decreases |t.order|
  {
    if |t.order| >= maxItems {
      PopOldestOk(t);
      var u := PopOldest(t);
      assert Consistent(u);
      EvictedOk(u, maxItems);
      assert Evicted(t, maxItems) == Evicted(u, maxItems);
    }
  }

  /** How many keys must go to make room for one more. */
  function Surplus(t: Tier, maxItems: int): nat
    requires maxItems >= 1
  {
    if |t.order| < maxItems then 0 else |t.order| - maxItems + 1
  }

  ghost predicate SubStore(u: Tier, t: Tier) {
    forall k :: k in u.store ==> k in t.store && u.store[k] == t.store[k]
  }

  lemma PutOk(cfg: Config, t: Tier, k: Key, e: Entry)
    requires cfg.maxItems >= 1 && TierOk(cfg, t)
    ensures TierOk(cfg, Put(t, k, e, cfg.maxItems))
  {
    ClearedOk(cfg, t, k);
    var u := Cleared(t, k, cfg.maxItems);
    var w := Put(t, k, e, cfg.maxItems);
    NoDupAppend(u.order, k);
    assert Consistent(w);
    forall x, tag | x in w.store && tag in w.store[x].tags
      ensures x in Indexed(w.index, tag)
    {
      if x == k {
        assert tag in e.tags;
      } else {
        assert x in u.store && w.store[x] == u.store[x];
        assert x in Indexed(u.index, tag);
      }
    }
  }

  lemma ClearedOk(cfg: Config, t: Tier, k: Key)
    requires cfg.maxItems >= 1 && TierOk(cfg, t)
    ensures var u := Cleared(t, k, cfg.maxItems);
      k !in u.order && |u.order| < cfg.maxItems && TierOk(cfg, u)
  {
    if k in t.store {
      WithoutOne(t.order, k);
      DroppedOk(cfg, t, {k}, t.index);
      WithoutElements(t.order, {k});
    } else {
      EvictedKeeps(t, cfg.maxItems);
      EvictedOk(t, cfg.maxItems);
      var u := Cleared(t, k, cfg.maxItems);
      assert forall x :: x in u.order ==> x in t.order;
    }
  }

  lemma RefreshedOk(cfg: Config, t: Tier, k: Key)
    requires TierOk(cfg, t) && k in t.store
    ensures TierOk(cfg, Refreshed(t, k))
  {
    WithoutNoDup(t.order, {k});
    WithoutElements(t.order, {k});
    NoDupAppend(Without(t.order, {k}), k);
    WithoutOne(t.order, k);
  }

  /** One operation, whatever Redis does, keeps L1 bounded, duplicate-free and fully indexed. */
  lemma StepKeepsTier(cfg: Config, s: State, op: Op, now: real)
    requires cfg.maxItems >= 1 && TierOk(cfg, s.tier)
    ensures TierOk(cfg, Step(cfg, s, op, now).tier)
  {
    match op {
      case Set(k, v, ttl, tags, _) =>
        PutOk(cfg, s.tier, k, Entry(v, now, ttl, tags));
      case Get(k, fault) =>
        if L1Hit(s, k, now) {
          RefreshedOk(cfg, s.tier, k);
        } else {
          if k in s.tier.store { DroppedOk(cfg, s.tier, {k}, Discard(s.tier.index, k, s.tier.store[k].tags)); }
          if L2Hit(cfg, s, k, now, fault) {
            PutOk(cfg, AfterExpiry(s, k), k, Entry(s.l2[k].value, now, None, s.l2[k].tags));
          }
        }
      case Invalidate(k, _) =>
        if k in s.tier.store { DroppedOk(cfg, s.tier, {k}, Discard(s.tier.index, k, s.tier.store[k].tags)); }
      case InvalidateTag(tag, _) =>
        if tag in s.tier.index { DroppedOk(cfg, s.tier, s.tier.index[tag], s.tier.index - {tag}); }
      case InvalidatePrefix(prefix, _) =>
        UnlinkedAllOk(cfg, s.tier, Prefixed(s.tier.order, prefix));
    }
  }
}
