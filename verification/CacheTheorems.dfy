/** What every run of the cache keeps, and when it is a plain map. */
module CacheTheorems {
  import opened Wrappers
  import opened Sequences
  import opened CacheModel

  function Run(cfg: Config, s: State, run: seq<Timed>): State
    requires cfg.maxItems >= 1
  {
    if run == [] then s
    else
      var n := |run| - 1;
      Step(cfg, Run(cfg, s, run[..n]), run[n].op, run[n].now)
  }

  /** L1 is bounded, duplicate-free and fully indexed after every run, whatever Redis did. */
  lemma {:induction false} RunKeepsTier(cfg: Config, l2: map<Key, Stored>, run: seq<Timed>)
    requires cfg.maxItems >= 1
    ensures TierOk(cfg, Run(cfg, Start(cfg, l2), run).tier)
  {
    if run == [] {
    } else {
      var n := |run| - 1;
      RunKeepsTier(cfg, l2, run[..n]);
      StepKeepsTier(cfg, Run(cfg, Start(cfg, l2), run[..n]), run[n].op, run[n].now);
    }
  }

  // ---- Recency ----

  /** The keys an operation uses: a set, a hit in L1 or a promotion from Redis. */
  function Touched(cfg: Config, s: State, op: Op, now: real): seq<Key> {
    match op
    case Set(k, _, _, _, _) => [k]
    case Get(k, fault) => if L1Hit(s, k, now) || L2Hit(cfg, s, k, now, fault) then [k] else []
    case _ => []
  }

  function Touches(cfg: Config, s: State, run: seq<Timed>): seq<Key>
    requires cfg.maxItems >= 1
  {
    if run == [] then []
    else
      var n := |run| - 1;
      Touches(cfg, s, run[..n]) + Touched(cfg, Run(cfg, s, run[..n]), run[n].op, run[n].now)
  }

  /** The position of the last use of `k`, -1 if it was never used. */
  function LastUse(uses: seq<Key>, k: Key): int {
    if uses == [] then -1
    else if uses[|uses| - 1] == k then |uses| - 1
    else LastUse(uses[..|uses| - 1], k)
  }

  ghost predicate ByRecency(order: seq<Key>, uses: seq<Key>) {
    && (forall k :: k in order ==> LastUse(uses, k) >= 0)
    && forall i, j :: 0 <= i < j < |order| ==> LastUse(uses, order[i]) < LastUse(uses, order[j])
  }

  lemma {:induction false} LastUseBound(uses: seq<Key>, k: Key)
    ensures -1 <= LastUse(uses, k) < |uses|
  {
    if uses == [] {
    } else {
      LastUseBound(uses[..|uses| - 1], k);
    }
  }

  lemma {:induction false} WithoutByRecency(order: seq<Key>, gone: set<Key>, uses: seq<Key>)
    requires ByRecency(order, uses)
    ensures ByRecency(Without(order, gone), uses)
  {
    if order == [] {
    } else {
      var rest := order[1..];
      WithoutByRecency(rest, gone, uses);
      WithoutElements(rest, gone);
      if order[0] !in gone { ConsByRecency(order[0], Without(rest, gone), uses); }
    }
  }

  lemma ConsByRecency(k: Key, order: seq<Key>, uses: seq<Key>)
    requires ByRecency(order, uses) && LastUse(uses, k) >= 0
    requires forall x :: x in order ==> LastUse(uses, k) < LastUse(uses, x)
    ensures ByRecency([k] + order, uses)
  {
    var longer := [k] + order;
    assert forall i :: 1 <= i < |longer| ==> longer[i] == order[i - 1] && longer[i] in order;
  }

  lemma AppendByRecency(order: seq<Key>, k: Key, uses: seq<Key>)
    requires ByRecency(order, uses) && k !in order
    ensures ByRecency(order + [k], uses + [k])
  {
    forall x
      ensures LastUse(uses + [k], x) == if x == k then |uses| else LastUse(uses, x)
      ensures LastUse(uses, x) < |uses|
    {
      LastUseBound(uses, x);
    }
  }

  lemma StepByRecency(cfg: Config, s: State, op: Op, now: real, uses: seq<Key>)
    requires cfg.maxItems >= 1 && TierOk(cfg, s.tier) && ByRecency(s.tier.order, uses)
    ensures ByRecency(Step(cfg, s, op, now).tier.order, uses + Touched(cfg, s, op, now))
  {
    assert uses + [] == uses;
    match op {
      case Set(k, v, ttl, tags, _) => PutByRecency(cfg, s.tier, k, uses);
      case Get(k, fault) => GetByRecency(cfg, s, k, now, fault, uses);
      case Invalidate(k, _) => WithoutByRecency(s.tier.order, {k}, uses);
      case InvalidateTag(tag, _) =>
        if tag in s.tier.index { WithoutByRecency(s.tier.order, s.tier.index[tag], uses); }
      case InvalidatePrefix(prefix, _) => PrefixByRecency(s.tier, prefix, uses);
    }
  }

  lemma PutByRecency(cfg: Config, t: Tier, k: Key, uses: seq<Key>)
    requires cfg.maxItems >= 1 && TierOk(cfg, t) && ByRecency(t.order, uses)
    ensures ByRecency(Cleared(t, k, cfg.maxItems).order + [k], uses + [k])
  {
    ClearedOk(cfg, t, k);
    if k in t.store {
      WithoutByRecency(t.order, {k}, uses);
    } else {
      EvictedKeeps(t, cfg.maxItems);
    }
    AppendByRecency(Cleared(t, k, cfg.maxItems).order, k, uses);
  }

  lemma GetByRecency(cfg: Config, s: State, k: Key, now: real, fault: bool, uses: seq<Key>)
    requires cfg.maxItems >= 1 && TierOk(cfg, s.tier) && ByRecency(s.tier.order, uses)
    ensures ByRecency(GetStep(cfg, s, k, now, fault).tier.order, uses + Touched(cfg, s, Get(k, fault), now))
  {
    var t := s.tier;
    assert uses + [] == uses;
    WithoutByRecency(t.order, {k}, uses);
    WithoutElements(t.order, {k});
    if L1Hit(s, k, now) {
      AppendByRecency(Without(t.order, {k}), k, uses);
    } else if L2Hit(cfg, s, k, now, fault) {
      if k in t.store { DroppedOk(cfg, t, {k}, Discard(t.index, k, t.store[k].tags)); }
      PutByRecency(cfg, AfterExpiry(s, k), k, uses);
    }
  }

  lemma PrefixByRecency(t: Tier, prefix: string, uses: seq<Key>)
    requires Consistent(t) && ByRecency(t.order, uses)
    ensures ByRecency(UnlinkedAll(t, Prefixed(t.order, prefix)).order, uses)
  {
    var ks := Prefixed(t.order, prefix);
    PrefixedFacts(t.order, prefix);
    UnlinkedAllDrops(t, ks);
    WithoutByRecency(t.order, Elements(ks), uses);
  }

  lemma {:induction false} PrefixedFacts(order: seq<Key>, prefix: string)
    requires NoDup(order)
    ensures NoDup(Prefixed(order, prefix))
    ensures forall k :: k in Prefixed(order, prefix) <==> k in order && prefix <= k
  {
    if order == [] {
    } else {
      var rest := Prefixed(order[1..], prefix);
      PrefixedFacts(order[1..], prefix);
      assert order == [order[0]] + order[1..];
      assert ([order[0]] + rest)[1..] == rest;
      assert ([] + rest) == rest;
    }
  }

  /** The L1 order is exactly the order of last set, hit or promotion. */
  lemma {:induction false} RunByRecency(cfg: Config, l2: map<Key, Stored>, run: seq<Timed>)
    requires cfg.maxItems >= 1
    ensures ByRecency(Run(cfg, Start(cfg, l2), run).tier.order, Touches(cfg, Start(cfg, l2), run))
  {
    if run == [] {
    } else {
      var n := |run| - 1;
      RunByRecency(cfg, l2, run[..n]);
      RunKeepsTier(cfg, l2, run[..n]);
      StepByRecency(cfg, Run(cfg, Start(cfg, l2), run[..n]), run[n].op, run[n].now,
                    Touches(cfg, Start(cfg, l2), run[..n]));
    }
  }

  /** Storing a new key in a full L1 evicts exactly one key, the one used least recently; otherwise none. */
  lemma StoringEvictsLeastRecent(cfg: Config, l2: map<Key, Stored>, run: seq<Timed>, k: Key, e: Entry)
    requires cfg.maxItems >= 1
    ensures var s0 := Start(cfg, l2);
      var t := Run(cfg, s0, run).tier;
      var uses := Touches(cfg, s0, run);
      var u := Put(t, k, e, cfg.maxItems);
      if k in t.store || |t.order| < cfg.maxItems then u.store.Keys == t.store.Keys + {k}
      else
        && u.store.Keys == t.store.Keys - {t.order[0]} + {k}
        && forall x :: x in t.store && x != t.order[0] ==> LastUse(uses, t.order[0]) < LastUse(uses, x)
  {
    var s0 := Start(cfg, l2);
    var t := Run(cfg, s0, run).tier;
    RunKeepsTier(cfg, l2, run);
    RunByRecency(cfg, l2, run);
    if k !in t.store && |t.order| >= cfg.maxItems {
      PopOldestOk(t);
      assert Evicted(t, cfg.maxItems) == PopOldest(t);
      forall x | x in t.store && x != t.order[0]
        ensures LastUse(Touches(cfg, s0, run), t.order[0]) < LastUse(Touches(cfg, s0, run), x)
      {
        assert x in t.order;
      }
    }
    assert Put(t, k, e, cfg.maxItems).store == Cleared(t, k, cfg.maxItems).store[k := e];
  }
}
