/** The tag index of `cache/resilience.py`, told from the calls: which keys it names for a tag at any time. */
module CacheIndex {
  import opened Wrappers
  import opened Sequences
  import opened CacheModel
  import opened CacheTheorems

  /** The entries with the tag that left L1. */
  function Lost(t: Tier, u: Tier, tag: Tag): set<Key> {
    set x | x in t.store && x !in u.store && tag in t.store[x].tags
  }

  function Only(k: Key, yes: bool): set<Key> {
    if yes then {k} else {}
  }

  /** An entry of `get` that is found expired is taken off the index before Redis is asked. */
  predicate Expires(s: State, op: Op, now: real, tag: Tag) {
    op.Get? && op.key in s.tier.store && Expired(s.tier.store[op.key], now) && tag in s.tier.store[op.key].tags
  }

  /** The operation stores an item with the tag: a set, or a promotion from Redis. */
  predicate Tags(cfg: Config, s: State, op: Op, now: real, tag: Tag) {
    match op
    case Set(_, _, _, tags, _) => tag in tags
    case Get(k, fault) => L2Hit(cfg, s, k, now, fault) && tag in s.l2[k].tags
    case _ => false
  }

  /**
   The keys named for the tag after an operation, from those named before. An invalidation by tag forgets its own
   tag and leaves its keys under their other tags; every other way out of L1 takes the entry off all its tags.
   */
  function Named(cfg: Config, s: State, op: Op, now: real, tag: Tag, before: set<Key>): set<Key>
    requires cfg.maxItems >= 1
  {
    if op.InvalidateTag? then if op.tag == tag then {} else before
    else
      var left := Lost(s.tier, Step(cfg, s, op, now).tier, tag);
      if op.Set? || op.Get? then
        before - Only(op.key, Expires(s, op, now, tag)) - left + Only(op.key, Tags(cfg, s, op, now, tag))
      else before - left
  }

  function NamedIn(cfg: Config, s: State, run: seq<Timed>, tag: Tag): set<Key>
    requires cfg.maxItems >= 1
  {
    if run == [] then {}
    else
      var n := |run| - 1;
      Named(cfg, Run(cfg, s, run[..n]), run[n].op, run[n].now, tag, NamedIn(cfg, s, run[..n], tag))
  }

  // ---- What leaves L1 leaves the index ----

  lemma {:induction false} EvictedUnlists(t: Tier, maxItems: int, tag: Tag)
    requires maxItems >= 1 && Consistent(t)
    ensures Indexed(Evicted(t, maxItems).index, tag)
         == Indexed(t.index, tag) - Lost(t, Evicted(t, maxItems), tag)
    decreases |t.order|
  {
    if |t.order| >= maxItems {
      var pop, u := PopOldest(t), Evicted(t, maxItems);
      PopOldestOk(t);
      EvictedUnlists(pop, maxItems, tag);
      EvictedKeeps(pop, maxItems);
      PopUnlists(t, tag);
      LostInTurn(t, pop, u, tag);
    } else {
      assert Lost(t, t, tag) == {};
    }
  }

  lemma PopUnlists(t: Tier, tag: Tag)
    requires t.order != [] && Consistent(t)
    ensures Indexed(PopOldest(t).index, tag) == Indexed(t.index, tag) - Lost(t, PopOldest(t), tag)
  {
    var k := t.order[0];
    assert Lost(t, PopOldest(t), tag) == Only(k, tag in t.store[k].tags);
  }

  lemma LostInTurn(t: Tier, u: Tier, v: Tier, tag: Tag)
    requires SubStore(u, t) && SubStore(v, u)
    ensures Lost(t, v, tag) == Lost(t, u, tag) + Lost(u, v, tag)
  {
  }

  lemma {:induction false} UnlinkedAllUnlists(t: Tier, ks: seq<Key>, tag: Tag)
    ensures Indexed(UnlinkedAll(t, ks).index, tag) == Indexed(t.index, tag) - Lost(t, UnlinkedAll(t, ks), tag)
    ensures SubStore(UnlinkedAll(t, ks), t)
    decreases |ks|
  {
    if ks == [] {
      assert Lost(t, t, tag) == {};
    } else if ks[0] in t.store {
      var u := Unlinked(t, ks[0]);
      UnlinkedAllUnlists(u, ks[1..], tag);
      UnlinkUnlists(t, ks[0], tag);
      LostInTurn(t, u, UnlinkedAll(u, ks[1..]), tag);
    } else {
      UnlinkedAllUnlists(t, ks[1..], tag);
    }
  }

  lemma UnlinkUnlists(t: Tier, k: Key, tag: Tag)
    requires k in t.store
    ensures Lost(t, Unlinked(t, k), tag) == Only(k, tag in t.store[k].tags)
    ensures Indexed(Unlinked(t, k).index, tag) == Indexed(t.index, tag) - Only(k, tag in t.store[k].tags)
  {
  }

  /** Storing an item evicts what does not fit and names the key under the tags of the item. */
  lemma PutNames(cfg: Config, t: Tier, k: Key, e: Entry, tag: Tag)
    requires cfg.maxItems >= 1 && Consistent(t)
    ensures Indexed(Put(t, k, e, cfg.maxItems).index, tag)
         == Indexed(t.index, tag) - Lost(t, Put(t, k, e, cfg.maxItems), tag) + Only(k, tag in e.tags)
  {
    var u, w := Cleared(t, k, cfg.maxItems), Put(t, k, e, cfg.maxItems);
    if k in t.store {
      assert Lost(t, w, tag) == {};
    } else {
      EvictedUnlists(t, cfg.maxItems, tag);
      assert Lost(t, w, tag) == Lost(t, u, tag);
    }
    assert Indexed(w.index, tag) == Indexed(u.index, tag) + Only(k, tag in e.tags);
  }

  // ---- One operation ----

  /** The index names exactly the keys given. */
  predicate Names(t: Tier, tag: Tag, keys: set<Key>) {
    Indexed(t.index, tag) == keys
  }

  lemma GetNames(cfg: Config, s: State, k: Key, fault: bool, now: real, tag: Tag)
    requires cfg.maxItems >= 1 && Consistent(s.tier)
    ensures var op := Get(k, fault);
      Names(GetStep(cfg, s, k, now, fault).tier, tag, Named(cfg, s, op, now, tag, Indexed(s.tier.index, tag)))
  {
    var t, u := AfterExpiry(s, k), GetStep(cfg, s, k, now, fault).tier;
    if L1Hit(s, k, now) {
      assert Lost(s.tier, u, tag) == {};
    } else {
      if k in s.tier.store { UnlinkUnlists(s.tier, k, tag); }
      if L2Hit(cfg, s, k, now, fault) {
        ExpiryKeeps(s, k);
        var item := s.l2[k];
        PutNames(cfg, t, k, Entry(item.value, now, None, item.tags), tag);
        assert Lost(s.tier, u, tag) == Lost(t, u, tag);
      } else {
        assert u == t;
        assert Lost(s.tier, t, tag) == Only(k, Expires(s, Get(k, fault), now, tag));
      }
    }
  }

  lemma ExpiryKeeps(s: State, k: Key)
    requires Consistent(s.tier)
    ensures Consistent(AfterExpiry(s, k))
  {
    WithoutNoDup(s.tier.order, {k});
    WithoutElements(s.tier.order, {k});
  }

  lemma SetNames(cfg: Config, s: State, op: Op, now: real, tag: Tag)
    requires cfg.maxItems >= 1 && Consistent(s.tier) && op.Set?
    ensures Names(Step(cfg, s, op, now).tier, tag, Named(cfg, s, op, now, tag, Indexed(s.tier.index, tag)))
  {
    PutNames(cfg, s.tier, op.key, Entry(op.value, now, op.ttl, op.tags), tag);
    assert Indexed(s.tier.index, tag) - Only(op.key, false) == Indexed(s.tier.index, tag);
  }

  lemma OneNames(cfg: Config, s: State, k: Key, fault: bool, now: real, tag: Tag)
    requires cfg.maxItems >= 1
    ensures var op := Invalidate(k, fault);
      Names(InvalidateStep(cfg, s, k, now, fault).tier, tag, Named(cfg, s, op, now, tag, Indexed(s.tier.index, tag)))
  {
    if k in s.tier.store { UnlinkUnlists(s.tier, k, tag); } else { assert Lost(s.tier, s.tier, tag) == {}; }
  }

  lemma TagNames(cfg: Config, s: State, t: Tag, faults: set<Key>, now: real, tag: Tag)
    requires cfg.maxItems >= 1
    ensures var op := InvalidateTag(t, faults);
      Names(TagStep(cfg, s, t, now, faults).tier, tag, Named(cfg, s, op, now, tag, Indexed(s.tier.index, tag)))
  {
  }

  lemma PrefixNames(cfg: Config, s: State, prefix: string, failAt: Option<nat>, now: real, tag: Tag)
    requires cfg.maxItems >= 1
    ensures var op := InvalidatePrefix(prefix, failAt);
      Names(PrefixStep(cfg, s, prefix, now, failAt).tier, tag,
            Named(cfg, s, op, now, tag, Indexed(s.tier.index, tag)))
  {
    UnlinkedAllUnlists(s.tier, Prefixed(s.tier.order, prefix), tag);
  }

  lemma StepNames(cfg: Config, s: State, op: Op, now: real, tag: Tag)
    requires cfg.maxItems >= 1 && Consistent(s.tier)
    ensures Names(Step(cfg, s, op, now).tier, tag, Named(cfg, s, op, now, tag, Indexed(s.tier.index, tag)))
  {
    match op {
      case Set(_, _, _, _, _) => SetNames(cfg, s, op, now, tag);
      case Get(k, fault) => GetNames(cfg, s, k, fault, now, tag);
      case Invalidate(k, fault) => OneNames(cfg, s, k, fault, now, tag);
      case InvalidateTag(t, faults) => TagNames(cfg, s, t, faults, now, tag);
      case InvalidatePrefix(prefix, failAt) => PrefixNames(cfg, s, prefix, failAt, now, tag);
    }
  }

  /** After every run the index names for a tag exactly the keys that the history of calls accounts for. */
  lemma {:induction false} IndexExactly(cfg: Config, l2: map<Key, Stored>, run: seq<Timed>, tag: Tag)
    requires cfg.maxItems >= 1
    ensures Indexed(Run(cfg, Start(cfg, l2), run).tier.index, tag) == NamedIn(cfg, Start(cfg, l2), run, tag)
  {
    if run == [] {
    } else {
      var n := |run| - 1;
      IndexExactly(cfg, l2, run[..n], tag);
      RunKeepsTier(cfg, l2, run[..n]);
      StepNames(cfg, Run(cfg, Start(cfg, l2), run[..n]), run[n].op, run[n].now, tag);
    }
  }

  // ---- A key that lost its tag ----

  /**
   A value stored without the tag is invalidated by it, in both tiers, if an earlier value of its key had it and
   is still resident: a set leaves the key under the tags it had.
   */
  lemma RetaggedKeyIsDropped(cfg: Config, s: State, k: Key, earlier: Value, later: Value, tag: Tag, now: real)
    requires cfg.maxItems >= 1 && cfg.redis && s.breaker.mode != Degraded
    ensures var tagged := SetStep(cfg, s, k, earlier, None, {tag}, now, false);
      var retagged := SetStep(cfg, tagged, k, later, None, {}, now, false);
      && GetResult(cfg, retagged, k, now, false) == later
      && GetResult(cfg, TagStep(cfg, retagged, tag, now, {}), k, now, false) == None
  {
    var tagged := SetStep(cfg, s, k, earlier, None, {tag}, now, false);
    var retagged := SetStep(cfg, tagged, k, later, None, {}, now, false);
    Resident(s.tier, k, Entry(earlier, now, None, {tag}), cfg.maxItems);
    Resident(tagged.tier, k, Entry(later, now, None, {}), cfg.maxItems);
    assert k in Indexed(tagged.tier.index, tag) && k in Indexed(retagged.tier.index, tag);
  }

  lemma Resident(t: Tier, k: Key, e: Entry, maxItems: int)
    requires maxItems >= 1
    ensures var u := Put(t, k, e, maxItems);
      && k in u.store && u.store[k] == e
      && forall tag :: tag in e.tags || (k in t.store && k in Indexed(t.index, tag)) ==> k in Indexed(u.index, tag)
  {
  }
}
