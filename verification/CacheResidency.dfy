/** Tag invalidation in healthy runs, in terms of what a caller can see: which items are resident in L1. */
module CacheResidency {
  import opened Wrappers
  import opened CacheModel
  import opened CacheTheorems
  import opened CacheRefinement

  predicate ListedAs(s: State, k: Key, tag: Tag) {
    k in s.l2 && tag in s.l2[k].tags && k in Indexed(s.tier.index, tag)
  }

  /** A key that the index lists under a tag which Redis also gives it is resident. */
  ghost predicate ListedResident(s: State) {
    forall k, tag :: ListedAs(s, k, tag) ==> k in s.tier.store
  }

  /** A pair that the index of `u` still lists, was listed by `t`, and its key was not evicted with that tag. */
  predicate StillListed(t: Tier, u: Tier, k: Key, tag: Tag) {
    k in Indexed(u.index, tag) ==>
      k in Indexed(t.index, tag) && (k in t.store && tag in t.store[k].tags ==> k in u.store)
  }

  lemma {:induction false} EvictionUnlists(t: Tier, maxItems: int, k: Key, tag: Tag)
    requires maxItems >= 1 && Consistent(t)
    ensures StillListed(t, Evicted(t, maxItems), k, tag)
    decreases |t.order|
  {
    if |t.order| >= maxItems {
      PopOldestOk(t);
      EvictionUnlists(PopOldest(t), maxItems, k, tag);
    }
  }

  lemma PutListed(cfg: Config, t: Tier, l2: map<Key, Stored>, k: Key, e: Entry, x: Key, tag: Tag)
    requires cfg.maxItems >= 1 && TierOk(cfg, t) && x != k && x in l2 && tag in l2[x].tags
    requires x in Indexed(t.index, tag) ==> x in t.store && t.store[x].tags == l2[x].tags
    ensures var u := Put(t, k, e, cfg.maxItems); x in Indexed(u.index, tag) ==> x in u.store
  {
    EvictionUnlists(t, cfg.maxItems, x, tag);
  }

  lemma SetListed(cfg: Config, s: State, k: Key, v: Value, tags: set<Tag>, now: real)
    requires cfg.maxItems >= 1 && cfg.redis && TierOk(cfg, s.tier) && Coherent(s) && ListedResident(s)
    ensures ListedResident(SetStep(cfg, s, k, v, None, tags, now, false))
  {
    var u := SetStep(cfg, s, k, v, None, tags, now, false);
    forall x, tag | ListedAs(u, x, tag)
      ensures x in u.tier.store
    {
      if x != k {
        assert x in Indexed(s.tier.index, tag) ==> ListedAs(s, x, tag);
        PutListed(cfg, s.tier, s.l2, k, Entry(v, now, None, tags), x, tag);
      }
    }
  }

  lemma GetListed(cfg: Config, s: State, k: Key, now: real)
    requires cfg.maxItems >= 1 && cfg.redis && TierOk(cfg, s.tier) && Coherent(s) && ListedResident(s)
    ensures ListedResident(GetStep(cfg, s, k, now, false))
  {
    var u := GetStep(cfg, s, k, now, false);
    if !L1Hit(s, k, now) && k in s.l2 {
      assert k !in s.tier.store;
      var e := Entry(s.l2[k].value, now, None, s.l2[k].tags);
      assert u.tier == Put(s.tier, k, e, cfg.maxItems) && u.l2 == s.l2;
      forall x, tag | ListedAs(u, x, tag)
        ensures x in u.tier.store
      {
        if x != k {
          assert x in Indexed(s.tier.index, tag) ==> ListedAs(s, x, tag);
          PutListed(cfg, s.tier, s.l2, k, e, x, tag);
        }
      }
    } else {
      assert forall x, tag :: ListedAs(u, x, tag) ==> ListedAs(s, x, tag);
    }
  }

  function Pairs(index: map<Tag, set<Key>>): set<(Key, Tag)> {
    set tag, k | tag in index && k in index[tag] :: (k, tag)
  }

  /** Invalidations list nothing new. */
  lemma EraseListsNothingNew(cfg: Config, s: State, op: Op, now: real)
    requires cfg.maxItems >= 1 && !op.Set? && !op.Get?
    ensures IndexFrom(Step(cfg, s, op, now).tier.index, Pairs(s.tier.index))
  {
    match op {
      case Invalidate(k, _) =>
      case InvalidateTag(tag, _) =>
      case InvalidatePrefix(prefix, _) =>
        UnlinkedAllIndex(s.tier, Prefixed(s.tier.order, prefix), Pairs(s.tier.index));
    }
  }

  lemma EraseListed(cfg: Config, s: State, op: Op, now: real)
    requires cfg.maxItems >= 1 && cfg.redis && Consistent(s.tier) && Healthy(op) && !op.Set? && !op.Get?
    requires ListedResident(s)
    ensures ListedResident(Step(cfg, s, op, now))
  {
    var u := Step(cfg, s, op, now);
    EraseListsNothingNew(cfg, s, op, now);
    InvalidationsAreErase(cfg, s, op, now);
    forall x, tag | ListedAs(u, x, tag)
      ensures x in u.tier.store
    {
      assert (x, tag) in Pairs(s.tier.index);
      assert ListedAs(s, x, tag);
    }
  }

  lemma {:induction false} RunListed(cfg: Config, l2: map<Key, Stored>, run: seq<Timed>)
    requires cfg.maxItems >= 1 && cfg.redis && Permanent(l2) && AllHealthy(run)
    ensures ListedResident(Run(cfg, Start(cfg, l2), run))
  {
    if run == [] {
    } else {
      var n := |run| - 1;
      var s, op, now := Run(cfg, Start(cfg, l2), run[..n]), run[n].op, run[n].now;
      RunListed(cfg, l2, run[..n]);
      RunKeepsTier(cfg, l2, run[..n]);
      HealthyRunIsPlainMap(cfg, l2, run[..n]);
      match op {
        case Set(k, v, _, tags, _) => SetListed(cfg, s, k, v, tags, now);
        case Get(k, _) => GetListed(cfg, s, k, now);
        case _ => EraseListed(cfg, s, op, now);
      }
    }
  }

  /**
   After any healthy run, tag invalidation clears both tiers exactly when every item that Redis holds with
   the tag is resident in L1.
   */
  lemma TagCompleteExactly(cfg: Config, l2: map<Key, Stored>, run: seq<Timed>, tag: Tag, now: real)
    requires cfg.maxItems >= 1 && cfg.redis && Permanent(l2) && AllHealthy(run)
    ensures var s := Run(cfg, Start(cfg, l2), run);
      TagGone(TagStep(cfg, s, tag, now, {}), tag)
      <==> forall k :: k in s.l2 && tag in s.l2[k].tags ==> k in s.tier.store
  {
    var s := Run(cfg, Start(cfg, l2), run);
    RunListed(cfg, l2, run);
    RunKeepsTier(cfg, l2, run);
    HealthyRunIsPlainMap(cfg, l2, run);
    TagInvalidationExactly(cfg, s, tag, now);
    forall k | k in s.l2 && tag in s.l2[k].tags
      ensures k in s.tier.store <==> k in Indexed(s.tier.index, tag)
    {
      assert k in Indexed(s.tier.index, tag) ==> ListedAs(s, k, tag);
    }
  }
}
