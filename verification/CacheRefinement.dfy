/** The cache with a healthy Redis is a plain map; where the code falls short of that, exactly when. */
module CacheRefinement {
  import opened Wrappers
  import opened Sequences
  import opened CacheModel
  import opened CacheTheorems

  // ---- A plain map ----

  datatype Command = Write(key: Key, value: Value) | Read(key: Key) | Erase(keys: set<Key>)

  function Apply(m: map<Key, Value>, c: Command): map<Key, Value> {
    match c
    case Write(k, v) => m[k := v]
    case Read(_) => m
    case Erase(ks) => m - ks
  }

  function Applied(m: map<Key, Value>, cs: seq<Command>): map<Key, Value> {
    if cs == [] then m else Apply(Applied(m, cs[..|cs| - 1]), cs[|cs| - 1])
  }

  function Answer(m: map<Key, Value>, c: Command): seq<Value> {
    if c.Read? then [if c.key in m then m[c.key] else None] else []
  }

  function PlainAnswers(m: map<Key, Value>, cs: seq<Command>): seq<Value> {
    if cs == [] then []
    else PlainAnswers(m, cs[..|cs| - 1]) + Answer(Applied(m, cs[..|cs| - 1]), cs[|cs| - 1])
  }

  // ---- The cache seen as commands ----

  function Values(l2: map<Key, Stored>): map<Key, Value> {
    map k | k in l2 :: l2[k].value
  }

  /** What an operation asks of the map; an invalidation erases the keys that L1 or its index names. */
  function CommandOf(s: State, op: Op): Command {
    match op
    case Set(k, v, _, _, _) => Write(k, v)
    case Get(k, _) => Read(k)
    case Invalidate(k, _) => Erase({k})
    case InvalidateTag(tag, _) => Erase(Indexed(s.tier.index, tag))
    case InvalidatePrefix(prefix, _) => Erase(set k | k in s.tier.store && prefix <= k)
  }

  function Commands(cfg: Config, s: State, run: seq<Timed>): seq<Command>
    requires cfg.maxItems >= 1
  {
    if run == [] then []
    else
      var n := |run| - 1;
      Commands(cfg, s, run[..n]) + [CommandOf(Run(cfg, s, run[..n]), run[n].op)]
  }

  function Answered(cfg: Config, s: State, op: Op, now: real): seq<Value> {
    if op.Get? then [GetResult(cfg, s, op.key, now, op.fault)] else []
  }

  /** What the `get` calls of a run returned. */
  function Answers(cfg: Config, s: State, run: seq<Timed>): seq<Value>
    requires cfg.maxItems >= 1
  {
    if run == [] then []
    else
      var n := |run| - 1;
      Answers(cfg, s, run[..n]) + Answered(cfg, Run(cfg, s, run[..n]), run[n].op, run[n].now)
  }

  // ---- Healthy runs ----

  /** No TTL, and Redis answers. */
  predicate Healthy(op: Op) {
    match op
    case Set(_, _, ttl, _, fault) => ttl.None? && !fault
    case Get(_, fault) => !fault
    case Invalidate(_, fault) => !fault
    case InvalidateTag(_, faults) => faults == {}
    case InvalidatePrefix(_, failAt) => failAt.None?
  }

  ghost predicate AllHealthy(run: seq<Timed>) {
    forall i :: 0 <= i < |run| ==> Healthy(run[i].op)
  }

  ghost predicate Permanent(l2: map<Key, Stored>) {
    forall k :: k in l2 ==> l2[k].expiresAt.None?
  }

  ghost predicate Mirrors(t: Tier, l2: map<Key, Stored>) {
    forall k :: k in t.store ==>
      k in l2 && t.store[k].ttl.None? && t.store[k].value == l2[k].value && t.store[k].tags == l2[k].tags
  }

  /** Every L1 entry equals the Redis entry for its key. */
  ghost predicate Coherent(s: State) {
    Permanent(s.l2) && Mirrors(s.tier, s.l2) && s.breaker.mode == Normal && s.breaker.failures == 0
  }

  lemma PutMirrors(cfg: Config, t: Tier, l2: map<Key, Stored>, k: Key, e: Entry)
    requires cfg.maxItems >= 1 && TierOk(cfg, t)
    requires forall x :: x in t.store && x != k ==>
      x in l2 && t.store[x].ttl.None? && t.store[x].value == l2[x].value && t.store[x].tags == l2[x].tags
    requires k in l2 && e.ttl.None? && e.value == l2[k].value && e.tags == l2[k].tags
    ensures Mirrors(Put(t, k, e, cfg.maxItems), l2)
  {
    EvictedKeeps(t, cfg.maxItems);
  }

  lemma PrefixStepDrops(cfg: Config, s: State, prefix: string)
    requires Consistent(s.tier)
    ensures var ks := Prefixed(s.tier.order, prefix);
      && Elements(ks) == (set k | k in s.tier.store && prefix <= k)
      && UnlinkedAll(s.tier, ks).store == s.tier.store - Elements(ks)
  {
    PrefixedFacts(s.tier.order, prefix);
    UnlinkedAllDrops(s.tier, Prefixed(s.tier.order, prefix));
  }

  lemma SetIsWrite(cfg: Config, s: State, k: Key, v: Value, tags: set<Tag>, now: real)
    requires cfg.maxItems >= 1 && cfg.redis && TierOk(cfg, s.tier) && Coherent(s)
    ensures var u := SetStep(cfg, s, k, v, None, tags, now, false);
      Coherent(u) && Values(u.l2) == Values(s.l2)[k := v]
  {
    PutMirrors(cfg, s.tier, s.l2[k := Stored(v, tags, None)], k, Entry(v, now, None, tags));
  }

  lemma GetIsRead(cfg: Config, s: State, k: Key, now: real)
    requires cfg.maxItems >= 1 && cfg.redis && TierOk(cfg, s.tier) && Coherent(s)
    ensures var u := GetStep(cfg, s, k, now, false);
      && Coherent(u) && u.l2 == s.l2
      && GetResult(cfg, s, k, now, false) == if k in s.l2 then s.l2[k].value else None
  {
    if !L1Hit(s, k, now) && k in s.l2 {
      assert AfterExpiry(s, k) == s.tier;
      PutMirrors(cfg, s.tier, s.l2, k, Entry(s.l2[k].value, now, None, s.l2[k].tags));
    }
  }

  lemma TagIsErase(cfg: Config, s: State, tag: Tag, now: real)
    requires cfg.redis
    ensures var u := TagStep(cfg, s, tag, now, {});
      && u.l2 == s.l2 - Indexed(s.tier.index, tag) && u.tier.store == s.tier.store - Indexed(s.tier.index, tag)
      && u.breaker == s.breaker
  {
    var gone := Indexed(s.tier.index, tag);
    assert gone * {} == {} && Common(gone, {}) == 0 && gone - {} == gone;
    if tag !in s.tier.index {
      assert s.l2 - gone == s.l2 && s.tier.store - gone == s.tier.store;
    }
  }

  lemma InvalidationsAreErase(cfg: Config, s: State, op: Op, now: real)
    requires cfg.maxItems >= 1 && cfg.redis && Consistent(s.tier) && Healthy(op)
    requires !op.Set? && !op.Get?
    ensures var u := Step(cfg, s, op, now);
      && u.l2 == s.l2 - CommandOf(s, op).keys && u.tier.store == s.tier.store - CommandOf(s, op).keys
      && u.breaker == s.breaker
  {
    match op {
      case Invalidate(k, _) => assert k !in s.tier.store ==> s.tier.store - {k} == s.tier.store;
      case InvalidateTag(tag, faults) => TagIsErase(cfg, s, tag, now);
      case InvalidatePrefix(prefix, _) => PrefixStepDrops(cfg, s, prefix);
    }
  }

  lemma EraseKeepsCoherent(s: State, u: State, gone: set<Key>)
    requires Coherent(s) && u.l2 == s.l2 - gone && u.tier.store == s.tier.store - gone && u.breaker == s.breaker
    ensures Coherent(u) && Values(u.l2) == Values(s.l2) - gone
  {
  }

  lemma EraseIsCommand(cfg: Config, s: State, op: Op, now: real)
    requires cfg.maxItems >= 1 && cfg.redis && Consistent(s.tier) && Coherent(s) && Healthy(op)
    requires !op.Set? && !op.Get?
    ensures Coherent(Step(cfg, s, op, now))
    ensures Values(Step(cfg, s, op, now).l2) == Values(s.l2) - CommandOf(s, op).keys
  {
    InvalidationsAreErase(cfg, s, op, now);
    var u := Step(cfg, s, op, now);
    var gone := CommandOf(s, op).keys;
    assert u.l2 == s.l2 - gone && u.tier.store == s.tier.store - gone && u.breaker == s.breaker;
    EraseKeepsCoherent(s, u, gone);
  }

  /** One healthy operation keeps the tiers equal and acts on Redis as its command acts on a map. */
  lemma StepIsCommand(cfg: Config, s: State, op: Op, now: real)
    requires cfg.maxItems >= 1 && cfg.redis && TierOk(cfg, s.tier) && Coherent(s) && Healthy(op)
    ensures Coherent(Step(cfg, s, op, now))
    ensures Values(Step(cfg, s, op, now).l2) == Apply(Values(s.l2), CommandOf(s, op))
  {
    match op {
      case Set(k, v, ttl, tags, _) => SetIsWrite(cfg, s, k, v, tags, now);
      case Get(k, fault) => GetIsRead(cfg, s, k, now);
      case _ => EraseIsCommand(cfg, s, op, now);
    }
  }

  /** A healthy `get` returns what the map answers. */
  lemma AnswerIsCommand(cfg: Config, s: State, op: Op, now: real)
    requires cfg.maxItems >= 1 && cfg.redis && TierOk(cfg, s.tier) && Coherent(s) && Healthy(op)
    ensures Answered(cfg, s, op, now) == Answer(Values(s.l2), CommandOf(s, op))
  {
    if op.Get? {
      GetIsRead(cfg, s, op.key, now);
    }
  }

  /** A healthy run answers every `get` as the plain map does, whatever was evicted or promoted. */
  lemma {:induction false} HealthyRunIsPlainMap(cfg: Config, l2: map<Key, Stored>, run: seq<Timed>)
    requires cfg.maxItems >= 1 && cfg.redis && Permanent(l2) && AllHealthy(run)
    ensures var s0 := Start(cfg, l2);
      && Coherent(Run(cfg, s0, run))
      && Answers(cfg, s0, run) == PlainAnswers(Values(l2), Commands(cfg, s0, run))
      && Values(Run(cfg, s0, run).l2) == Applied(Values(l2), Commands(cfg, s0, run))
  {
    var s0 := Start(cfg, l2);
    if run == [] {
    } else {
      var n := |run| - 1;
      HealthyRunIsPlainMap(cfg, l2, run[..n]);
      RunKeepsTier(cfg, l2, run[..n]);
      var s := Run(cfg, s0, run[..n]);
      StepIsCommand(cfg, s, run[n].op, run[n].now);
      AnswerIsCommand(cfg, s, run[n].op, run[n].now);
      var cs := Commands(cfg, s0, run[..n]);
      var c := CommandOf(s, run[n].op);
      assert Commands(cfg, s0, run) == cs + [c];
      assert (cs + [c])[..|cs + [c]| - 1] == cs;
    }
  }

  ghost predicate KeyedOnly(run: seq<Timed>) {
    forall i :: 0 <= i < |run| ==> !run[i].op.InvalidateTag? && !run[i].op.InvalidatePrefix?
  }

  lemma {:induction false} KeyedCommands(cfg: Config, cfg': Config, s: State, s': State, run: seq<Timed>)
    requires cfg.maxItems >= 1 && cfg'.maxItems >= 1 && KeyedOnly(run)
    ensures Commands(cfg, s, run) == Commands(cfg', s', run)
  {
    if run == [] {
    } else {
      KeyedCommands(cfg, cfg', s, s', run[..|run| - 1]);
    }
  }

  /** The size of L1 cannot be observed through `get` in a healthy run of keyed operations. */
  lemma CapacityIsInvisible(cfg: Config, cfg': Config, l2: map<Key, Stored>, run: seq<Timed>)
    requires cfg.maxItems >= 1 && cfg'.maxItems >= 1 && cfg.redis && cfg'.redis
    requires Permanent(l2) && AllHealthy(run) && KeyedOnly(run)
    ensures Answers(cfg, Start(cfg, l2), run) == Answers(cfg', Start(cfg', l2), run)
  {
    HealthyRunIsPlainMap(cfg, l2, run);
    HealthyRunIsPlainMap(cfg', l2, run);
    KeyedCommands(cfg, cfg', Start(cfg, l2), Start(cfg', l2), run);
  }

  // ---- Invalidation by tag and by prefix ----

  /** No L1 entry keeps an invalidated tag, and no entry outside the tag's index set is touched. */
  lemma TagInvalidationClearsL1(cfg: Config, s: State, tag: Tag, now: real, faults: set<Key>)
    requires IndexComplete(s.tier)
    ensures var t := TagStep(cfg, s, tag, now, faults).tier;
      && (forall k :: k in t.store ==> tag !in t.store[k].tags)
      && t.store == s.tier.store - Indexed(s.tier.index, tag)
      && tag !in t.index
  {
    if tag !in s.tier.index {
      assert Indexed(s.tier.index, tag) == {};
    }
  }

  /** The documented promise: afterwards no tier holds an item with the tag. */
  ghost predicate TagGone(s: State, tag: Tag) {
    && (forall k :: k in s.tier.store ==> tag !in s.tier.store[k].tags)
    && forall k :: k in s.l2 ==> tag !in s.l2[k].tags
  }

  /** It holds exactly when no item was evicted from L1 while Redis still tags it. */
  lemma TagInvalidationExactly(cfg: Config, s: State, tag: Tag, now: real)
    requires cfg.maxItems >= 1 && cfg.redis && TierOk(cfg, s.tier)
    ensures TagGone(TagStep(cfg, s, tag, now, {}), tag)
      <==> forall k :: k in s.l2 && tag in s.l2[k].tags ==> k in Indexed(s.tier.index, tag)
  {
    var after := TagStep(cfg, s, tag, now, {});
    TagIsErase(cfg, s, tag, now);
    assert forall k :: k in after.l2 <==> k in s.l2 && k !in Indexed(s.tier.index, tag);
    assert forall k :: k in after.l2 ==> after.l2[k] == s.l2[k];
    if forall k :: k in s.l2 && tag in s.l2[k].tags ==> k in Indexed(s.tier.index, tag) {
      forall k | k in after.l2
        ensures tag !in after.l2[k].tags
      {
        assert k in s.l2 && after.l2[k] == s.l2[k];
      }
    }
  }

  ghost predicate PrefixGone(s: State, prefix: string) {
    (forall k :: k in s.tier.store ==> !(prefix <= k)) && forall k :: k in s.l2 ==> !(prefix <= k)
  }

  /** Prefix invalidation reaches every tier exactly when Redis holds no matching key beyond L1's. */
  lemma PrefixInvalidationExactly(cfg: Config, s: State, prefix: string, now: real)
    requires cfg.maxItems >= 1 && cfg.redis && TierOk(cfg, s.tier)
    ensures PrefixGone(PrefixStep(cfg, s, prefix, now, None), prefix)
      <==> forall k :: k in s.l2 && prefix <= k ==> k in s.tier.store
  {
    PrefixStepDrops(cfg, s, prefix);
    var after := PrefixStep(cfg, s, prefix, now, None);
    assert forall k :: k in after.l2 <==> k in s.l2 && !(k in s.tier.store && prefix <= k);
  }

  // ---- Within capacity invalidation is complete ----

  /** L1 and Redis hold the same keys. */
  ghost predicate Twin(s: State, universe: set<Key>) {
    s.tier.store.Keys == s.l2.Keys && s.l2.Keys <= universe
  }

  ghost predicate Within(run: seq<Timed>, universe: set<Key>) {
    forall i :: 0 <= i < |run| && run[i].op.Set? ==> run[i].op.key in universe
  }

  lemma RoomForOneMore(cfg: Config, t: Tier, k: Key, universe: set<Key>)
    requires Consistent(t) && t.store.Keys <= universe && k in universe && k !in t.store && |universe| <= cfg.maxItems
    ensures |t.order| < cfg.maxItems
  {
    NoDupSize(t.order);
    assert Elements(t.order) == t.store.Keys;
    SubsetSizes(t.store.Keys + {k}, universe);
  }

  lemma SetKeepsTwin(cfg: Config, s: State, k: Key, v: Value, tags: set<Tag>, now: real, universe: set<Key>)
    requires cfg.maxItems >= 1 && cfg.redis && Consistent(s.tier) && s.breaker.mode == Normal
    requires Twin(s, universe) && |universe| <= cfg.maxItems && k in universe
    ensures Twin(SetStep(cfg, s, k, v, None, tags, now, false), universe)
  {
    if k !in s.tier.store { RoomForOneMore(cfg, s.tier, k, universe); }
    assert Put(s.tier, k, Entry(v, now, None, tags), cfg.maxItems).store.Keys == s.tier.store.Keys + {k};
  }

  lemma StepKeepsTwin(cfg: Config, s: State, op: Op, now: real, universe: set<Key>)
    requires cfg.maxItems >= 1 && cfg.redis && TierOk(cfg, s.tier) && Coherent(s) && Healthy(op)
    requires Twin(s, universe) && |universe| <= cfg.maxItems && (op.Set? ==> op.key in universe)
    ensures Twin(Step(cfg, s, op, now), universe)
  {
    match op {
      case Set(k, v, ttl, tags, _) => SetKeepsTwin(cfg, s, k, v, tags, now, universe);
      case Get(k, _) => assert k in s.tier.store ==> L1Hit(s, k, now);
      case _ =>
        InvalidationsAreErase(cfg, s, op, now);
    }
  }

  lemma {:induction false} RunKeepsTwin(cfg: Config, run: seq<Timed>, universe: set<Key>)
    requires cfg.maxItems >= 1 && cfg.redis && AllHealthy(run) && Within(run, universe) && |universe| <= cfg.maxItems
    ensures Twin(Run(cfg, Start(cfg, map[]), run), universe)
  {
    if run == [] {
    } else {
      var n := |run| - 1;
      RunKeepsTwin(cfg, run[..n], universe);
      RunKeepsTier(cfg, map[], run[..n]);
      HealthyRunIsPlainMap(cfg, map[], run[..n]);
      StepKeepsTwin(cfg, Run(cfg, Start(cfg, map[]), run[..n]), run[n].op, run[n].now, universe);
    }
  }

  /**
   From an empty cache, while the distinct keys ever set fit in L1, tag and prefix invalidation clear
   both tiers, as documented.
   */
  lemma InvalidationCompleteWithinCapacity(cfg: Config, run: seq<Timed>, universe: set<Key>, tag: Tag,
                                           prefix: string, now: real)
    requires cfg.maxItems >= 1 && cfg.redis && AllHealthy(run) && Within(run, universe) && |universe| <= cfg.maxItems
    ensures var s := Run(cfg, Start(cfg, map[]), run);
      TagGone(TagStep(cfg, s, tag, now, {}), tag) && PrefixGone(PrefixStep(cfg, s, prefix, now, None), prefix)
  {
    var s := Run(cfg, Start(cfg, map[]), run);
    RunKeepsTwin(cfg, run, universe);
    RunKeepsTier(cfg, map[], run);
    HealthyRunIsPlainMap(cfg, map[], run);
    forall k | k in s.l2 && tag in s.l2[k].tags
      ensures k in Indexed(s.tier.index, tag)
    {
      assert k in s.tier.store && tag in s.tier.store[k].tags;
    }
    TagInvalidationExactly(cfg, s, tag, now);
    PrefixInvalidationExactly(cfg, s, prefix, now);
  }

  // ---- The index never names a key that did not carry the tag ----

  function TagPairs(k: Key, tags: set<Tag>): set<(Key, Tag)> {
    set t | t in tags :: (k, t)
  }

  /** The (key, tag) pairs stored by a run, on top of those Redis started with. */
  function EverTagged(start: set<(Key, Tag)>, run: seq<Timed>): set<(Key, Tag)> {
    if run == [] then start
    else
      var op := run[|run| - 1].op;
      EverTagged(start, run[..|run| - 1]) + (if op.Set? then TagPairs(op.key, op.tags) else {})
  }

  ghost predicate TagsFrom(s: State, pairs: set<(Key, Tag)>) {
    && (forall k, tag :: k in Indexed(s.tier.index, tag) ==> (k, tag) in pairs)
    && forall k, tag :: k in s.l2 && tag in s.l2[k].tags ==> (k, tag) in pairs
  }

  ghost predicate IndexFrom(index: map<Tag, set<Key>>, pairs: set<(Key, Tag)>) {
    forall k, tag :: k in Indexed(index, tag) ==> (k, tag) in pairs
  }

  lemma {:induction false} EvictedIndex(t: Tier, maxItems: int, pairs: set<(Key, Tag)>)
    requires maxItems >= 1 && IndexFrom(t.index, pairs)
    ensures IndexFrom(Evicted(t, maxItems).index, pairs)
    decreases |t.order|
  {
    if |t.order| >= maxItems {
      EvictedIndex(PopOldest(t), maxItems, pairs);
    }
  }

  lemma PutIndex(t: Tier, k: Key, e: Entry, maxItems: int, pairs: set<(Key, Tag)>, more: set<(Key, Tag)>)
    requires maxItems >= 1 && IndexFrom(t.index, pairs) && pairs <= more
    requires forall tag :: tag in e.tags ==> (k, tag) in more
    ensures IndexFrom(Put(t, k, e, maxItems).index, more)
  {
    EvictedIndex(t, maxItems, pairs);
    var u := Cleared(t, k, maxItems);
    assert IndexFrom(u.index, pairs);
  }

  lemma {:induction false} UnlinkedAllIndex(t: Tier, ks: seq<Key>, pairs: set<(Key, Tag)>)
    requires IndexFrom(t.index, pairs)
    ensures IndexFrom(UnlinkedAll(t, ks).index, pairs)
    decreases |ks|
  {
    if ks == [] {
    } else if ks[0] in t.store {
      UnlinkedAllIndex(Unlinked(t, ks[0]), ks[1..], pairs);
    } else {
      UnlinkedAllIndex(t, ks[1..], pairs);
    }
  }

  lemma GetTagsFrom(cfg: Config, s: State, k: Key, now: real, fault: bool, pairs: set<(Key, Tag)>)
    requires cfg.maxItems >= 1 && TagsFrom(s, pairs)
    ensures TagsFrom(GetStep(cfg, s, k, now, fault), pairs)
  {
    assert IndexFrom(s.tier.index, pairs) && IndexFrom(AfterExpiry(s, k).index, pairs);
    if L2Hit(cfg, s, k, now, fault) {
      PutIndex(AfterExpiry(s, k), k, Entry(s.l2[k].value, now, None, s.l2[k].tags), cfg.maxItems, pairs, pairs);
    }
  }

  lemma SetTagsFrom(cfg: Config, s: State, k: Key, v: Value, ttl: Option<real>, tags: set<Tag>, now: real, fault: bool,
                    pairs: set<(Key, Tag)>)
    requires cfg.maxItems >= 1 && TagsFrom(s, pairs)
    ensures TagsFrom(SetStep(cfg, s, k, v, ttl, tags, now, fault), pairs + TagPairs(k, tags))
  {
    PutIndex(s.tier, k, Entry(v, now, ttl, tags), cfg.maxItems, pairs, pairs + TagPairs(k, tags));
  }

  lemma StepTagsFrom(cfg: Config, s: State, op: Op, now: real, pairs: set<(Key, Tag)>)
    requires cfg.maxItems >= 1 && TagsFrom(s, pairs)
    ensures TagsFrom(Step(cfg, s, op, now), pairs + (if op.Set? then TagPairs(op.key, op.tags) else {}))
  {
    assert pairs + {} == pairs;
    match op {
      case Set(k, v, ttl, tags, fault) => SetTagsFrom(cfg, s, k, v, ttl, tags, now, fault, pairs);
      case Get(k, fault) => GetTagsFrom(cfg, s, k, now, fault, pairs);
      case _ => EraseTagsFrom(cfg, s, op, now, pairs);
    }
  }

  lemma EraseTagsFrom(cfg: Config, s: State, op: Op, now: real, pairs: set<(Key, Tag)>)
    requires cfg.maxItems >= 1 && TagsFrom(s, pairs) && !op.Set? && !op.Get?
    ensures TagsFrom(Step(cfg, s, op, now), pairs)
  {
    if op.InvalidatePrefix? { UnlinkedAllIndex(s.tier, Prefixed(s.tier.order, op.prefix), pairs); }
  }

  /** After any run, tag invalidation can only erase keys that were once stored with that tag. */
  lemma {:induction false} IndexNamesOnlyTagged(cfg: Config, l2: map<Key, Stored>, start: set<(Key, Tag)>,
                                                run: seq<Timed>)
    requires cfg.maxItems >= 1
    requires forall k, tag :: k in l2 && tag in l2[k].tags ==> (k, tag) in start
    ensures TagsFrom(Run(cfg, Start(cfg, l2), run), EverTagged(start, run))
  {
    if run == [] {
    } else {
      var n := |run| - 1;
      IndexNamesOnlyTagged(cfg, l2, start, run[..n]);
      StepTagsFrom(cfg, Run(cfg, Start(cfg, l2), run[..n]), run[n].op, run[n].now, EverTagged(start, run[..n]));
    }
  }

  // ---- Where the plain map is lost ----

  lemma RunExtends(cfg: Config, s: State, run: seq<Timed>, last: Timed)
    requires cfg.maxItems >= 1
    ensures Run(cfg, s, run + [last]) == Step(cfg, Run(cfg, s, run), last.op, last.now)
  {
    assert (run + [last])[..|run|] == run;
  }

  /** A promotion drops the TTL: the value is served after Redis let it expire. */
  lemma PromotionOutlivesTtl()
    ensures var cfg := Config(true, 1, 3, 30.0);
      var run := [Timed(Set("a", Some("old"), Some(10.0), {}, false), 0.0),
                  Timed(Set("b", Some("x"), None, {}, false), 1.0),
                  Timed(Get("a", false), 5.0)];
      var s := Run(cfg, Start(cfg, map[]), run);
      && Reply(s, "a", 20.0) == None
      && GetResult(cfg, s, "a", 20.0, false) == Some("old")
  {
    var cfg := Config(true, 1, 3, 30.0);
    var a := Timed(Set("a", Some("old"), Some(10.0), {}, false), 0.0);
    var b := Timed(Set("b", Some("x"), None, {}, false), 1.0);
    var g := Timed(Get("a", false), 5.0);
    var s0 := Start(cfg, map[]);
    assert [] + [a] == [a] && [a] + [b] == [a, b] && [a, b] + [g] == [a, b, g];
    RunExtends(cfg, s0, [], a);
    RunExtends(cfg, s0, [a], b);
    RunExtends(cfg, s0, [a, b], g);
    var s1 := Run(cfg, s0, [a]);
    assert s1 == Step(cfg, s0, a.op, 0.0);
    assert s1.l2["a"] == Stored(Some("old"), {}, Some(10.0));
    var s2 := Run(cfg, s0, [a, b]);
    assert s2 == Step(cfg, s1, b.op, 1.0);
    assert Evicted(s1.tier, 1) == PopOldest(s1.tier);
    assert "a" !in s2.tier.store && s2.l2["a"] == s1.l2["a"];
    var s3 := Run(cfg, s0, [a, b, g]);
    assert s3 == Step(cfg, s2, g.op, 5.0);
    assert s3.tier.store["a"] == Entry(Some("old"), 5.0, None, {});
  }

  const SmallCache := Config(true, 1, 3, 30.0)

  function OneEvicted(): seq<Timed> {
    [Timed(Set("a", Some("v"), None, {"t"}, false), 0.0), Timed(Set("b", Some("x"), None, {}, false), 1.0)]
  }

  lemma OneEvictedState()
    ensures var s := Run(SmallCache, Start(SmallCache, map[]), OneEvicted());
      && s.tier.order == ["b"] && "a" !in s.tier.store && Indexed(s.tier.index, "t") == {}
      && "a" in s.l2 && s.l2["a"] == Stored(Some("v"), {"t"}, None)
      && Consistent(s.tier)
  {
    var a, b := OneEvicted()[0], OneEvicted()[1];
    var s0 := Start(SmallCache, map[]);
    assert [] + [a] == [a] && [a] + [b] == OneEvicted();
    RunExtends(SmallCache, s0, [], a);
    RunExtends(SmallCache, s0, [a], b);
    var s1 := Run(SmallCache, s0, [a]);
    assert s1 == Step(SmallCache, s0, a.op, 0.0);
    assert Evicted(s1.tier, 1) == PopOldest(s1.tier);
    RunKeepsTier(SmallCache, map[], OneEvicted());
  }

  lemma RedisAnswers(u: State, k: Key, now: real)
    requires k !in u.tier.store && k in u.l2 && u.l2[k].expiresAt.None?
    ensures GetResult(SmallCache, u, k, now, false) == u.l2[k].value
  {
  }

  lemma UnlistedKeySurvives(s: State, op: Op, k: Key, now: real)
    requires k !in s.tier.store && k in s.l2 && s.l2[k].expiresAt.None? && Consistent(s.tier)
    requires Healthy(op) && !op.Set? && !op.Get? && k !in CommandOf(s, op).keys
    ensures GetResult(SmallCache, Step(SmallCache, s, op, now), k, now, false) == s.l2[k].value
  {
    InvalidationsAreErase(SmallCache, s, op, now);
    RedisAnswers(Step(SmallCache, s, op, now), k, now);
  }

  /** An evicted key outlives the invalidation of its tag and of its prefix, and is served again. */
  lemma EvictedKeyOutlivesInvalidation()
    ensures var s := Run(SmallCache, Start(SmallCache, map[]), OneEvicted());
      && GetResult(SmallCache, Step(SmallCache, s, InvalidateTag("t", {}), 2.0), "a", 2.0, false) == Some("v")
      && GetResult(SmallCache, Step(SmallCache, s, InvalidatePrefix("a", None), 2.0), "a", 2.0, false) == Some("v")
  {
    OneEvictedState();
    var s := Run(SmallCache, Start(SmallCache, map[]), OneEvicted());
    UnlistedKeySurvives(s, InvalidateTag("t", {}), "a", 2.0);
    UnlistedKeySurvives(s, InvalidatePrefix("a", None), "a", 2.0);
  }

  /** A write that Redis missed is undone by eviction: the older value comes back. */
  lemma MissedWriteIsUndone()
    ensures var cfg := Config(true, 1, 3, 30.0);
      var run := [Timed(Set("a", Some("old"), None, {}, false), 0.0),
                  Timed(Set("a", Some("new"), None, {}, true), 1.0)];
      var s := Run(cfg, Start(cfg, map[]), run);
      var t := Step(cfg, s, Set("b", Some("x"), None, {}, false), 2.0);
      && GetResult(cfg, s, "a", 2.0, false) == Some("new")
      && GetResult(cfg, t, "a", 3.0, false) == Some("old")
  {
    var cfg := Config(true, 1, 3, 30.0);
    var a := Timed(Set("a", Some("old"), None, {}, false), 0.0);
    var b := Timed(Set("a", Some("new"), None, {}, true), 1.0);
    var s0 := Start(cfg, map[]);
    assert [] + [a] == [a] && [a] + [b] == [a, b];
    RunExtends(cfg, s0, [], a);
    RunExtends(cfg, s0, [a], b);
    var s1 := Run(cfg, s0, [a]);
    assert s1 == Step(cfg, s0, a.op, 0.0);
    var s2 := Run(cfg, s0, [a, b]);
    assert s2 == Step(cfg, s1, b.op, 1.0);
    assert s2.l2["a"].value == Some("old") && s2.tier.order == ["a"];
    assert Evicted(s2.tier, 1) == PopOldest(s2.tier);
  }
}
