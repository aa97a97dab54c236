/** `ResilientCacheManager` of `cache/resilience.py`: its fields, loops and updates, refining `CacheModel`. */
module CacheManager {
  import opened Wrappers
  import opened Sequences
  import opened CacheModel

  lemma EnrollNothing(index: map<Tag, set<Key>>, key: Key)
    ensures Enroll(index, key, {}) == index
  {
    assert index.Keys + {} == index.Keys;
    assert forall t :: t in index ==> Enroll(index, key, {})[t] == index[t];
  }

  /** One more tag, in a map that is given. */
  lemma EnrollOne(index: map<Tag, set<Key>>, key: Key, done: set<Tag>, tag: Tag, enrolled: map<Tag, set<Key>>)
    requires enrolled == Enroll(index, key, done)
    ensures Enroll(index, key, done + {tag}) == enrolled[tag := Indexed(enrolled, tag) + {key}]
  {
    var more, updated := Enroll(index, key, done + {tag}), enrolled[tag := Indexed(enrolled, tag) + {key}];
    assert more.Keys == updated.Keys;
    forall t | t in more.Keys
      ensures more[t] == updated[t]
    {
      EnrolledUnder(index, key, done + {tag}, t);
      if t in enrolled { EnrolledUnder(index, key, done, t); }
    }
  }

  lemma EnrolledUnder(index: map<Tag, set<Key>>, key: Key, tags: set<Tag>, t: Tag)
    requires t in Enroll(index, key, tags)
    ensures Enroll(index, key, tags)[t] == Indexed(index, t) + if t in tags then {key} else {}
  {
  }

  /** The effect of one more key on a count of common keys. */
  lemma CountOne(done: set<Key>, k: Key, base: set<Key>)
    requires k !in done
    ensures Common(done + {k}, base) == Common(done, base) + if k in base then 1 else 0
  {
    if k in base {
      assert (done + {k}) * base == done * base + {k};
    } else {
      assert (done + {k}) * base == done * base;
    }
  }

  /** The effect of one more key on what is left of a map. */
  lemma LoseOne<V>(done: set<Key>, k: Key, kept: set<Key>, m: map<Key, V>)
    ensures m - (done + {k} - kept) == if k in kept then m - (done - kept) else (m - (done - kept)) - {k}
  {
    assert k in kept ==> done + {k} - kept == done - kept;
    assert k !in kept ==> done + {k} - kept == done - kept + {k};
  }

  lemma WithoutOneMore(order: seq<Key>, done: set<Key>, k: Key)
    ensures Without(order, done + {k}) == Without(Without(order, done), {k})
    ensures k !in order ==> Without(order, done + {k}) == Without(order, done)
  {
    WithoutTwice(order, done, {k});
    WithoutElements(order, done);
    if k !in order {
      WithoutNothing(Without(order, done), {k});
    }
  }

  lemma PrefixHit(t: Tier, keys: seq<Key>, i: nat, prefix: string)
    requires i < |keys| && keys[i] in t.store && prefix <= keys[i]
    ensures Prefixed(keys[i..], prefix) == [keys[i]] + Prefixed(keys[i + 1..], prefix)
    ensures UnlinkedAll(t, Prefixed(keys[i..], prefix)) ==
      UnlinkedAll(Unlinked(t, keys[i]), Prefixed(keys[i + 1..], prefix))
  {
    var rest := Prefixed(keys[i + 1..], prefix);
    assert keys[i..] == [keys[i]] + keys[i + 1..];
    assert ([keys[i]] + rest)[1..] == rest;
  }

  lemma PrefixMiss(keys: seq<Key>, i: nat, prefix: string)
    requires i < |keys| && !(prefix <= keys[i])
    ensures Prefixed(keys[i..], prefix) == Prefixed(keys[i + 1..], prefix)
  {
    assert keys[i..] == [keys[i]] + keys[i + 1..];
    assert [] + Prefixed(keys[i + 1..], prefix) == Prefixed(keys[i + 1..], prefix);
  }

  lemma NothingGone(gone: set<Key>, faults: set<Key>, l2: map<Key, Stored>)
    ensures gone == {} ==> Common(gone, faults) == 0 && l2 - (gone - faults) == l2
  {
    if gone == {} {
      assert gone * faults == {} && gone - faults == {};
    }
  }

  class ResilientCacheManager {
    const cfg: Config
    // The OrderedDict `_l1_cache`, as its key order and its entries.
    var l1Order: seq<Key>
    var l1Store: map<Key, Entry>
    var tagToKeys: map<Tag, set<Key>>
    // What the Redis server behind `redis_client` holds.
    var l2: map<Key, Stored>
    var mode: Mode
    var failures: nat
    var lastFailure: real
    var redisErrors: nat
    var fallbackEvents: nat
    var hits: nat
    var misses: nat
    var l1Hits: nat
    var l2Hits: nat
    var invalidations: nat

    ghost function L1(): Tier
      reads this
    {
      Tier(l1Order, l1Store, tagToKeys)
    }

    ghost function Health(): Breaker
      reads this
    {
      Breaker(mode, failures, lastFailure, redisErrors, fallbackEvents)
    }

    ghost function Model(): State
      reads this
    {
      State(L1(), l2, Health(), Stats(hits, misses, l1Hits, l2Hits, invalidations))
    }

    ghost predicate Valid()
      reads this
    {
      cfg.maxItems >= 1 && TierOk(cfg, L1())
    }

    constructor (cfg: Config, l2: map<Key, Stored>)
      requires cfg.maxItems >= 1
      ensures this.cfg == cfg && Valid() && Model() == Start(cfg, l2)
    {
      this.cfg := cfg;
      this.l2 := l2;
      l1Order, l1Store, tagToKeys := [], map[], map[];
      mode := if cfg.redis then Normal else Degraded;
      failures, lastFailure, redisErrors, fallbackEvents := 0, 0.0, 0, 0;
      hits, misses, l1Hits, l2Hits, invalidations := 0, 0, 0, 0, 0;
    }

    method OnRedisFailure(now: real)
      modifies this`redisErrors, this`failures, this`lastFailure, this`mode, this`fallbackEvents
      ensures Health() == Failed(cfg, old(Health()), now)
      ensures failures == old(failures) + 1 && redisErrors == old(redisErrors) + 1 && lastFailure == now
      ensures failures >= cfg.threshold ==> mode == Degraded
    {
      redisErrors := redisErrors + 1;
      failures := failures + 1;
      lastFailure := now;
      if failures >= cfg.threshold && mode != Degraded {
        mode := Degraded;
        fallbackEvents := fallbackEvents + 1;
      }
    }

    method OnRedisSuccess()
      modifies this`failures, this`mode
      ensures Health() == Succeeded(old(Health()))
      ensures failures == 0 && (old(failures) > 0 || old(mode) == Degraded ==> mode == Normal)
    {
      if mode == Degraded || failures > 0 {
        mode := Normal;
        failures := 0;
      }
    }

    method DiscardFromTags(key: Key, tags: set<Tag>)
      modifies this`tagToKeys
      ensures tagToKeys == Discard(old(tagToKeys), key, tags)
    {
      var todo := tags;
      while todo != {}
        invariant todo <= tags
        invariant tagToKeys == Discard(old(tagToKeys), key, tags - todo)
        decreases todo
      {
        var tag :| tag in todo;
        if tag in tagToKeys {
          tagToKeys := tagToKeys[tag := tagToKeys[tag] - {key}];
        }
        todo := todo - {tag};
      }
      assert tags - todo == tags;
    }

    method PruneFromTags(key: Key, tags: set<Tag>)
      modifies this`tagToKeys
      ensures tagToKeys == Prune(old(tagToKeys), key, tags)
    {
      var todo := tags;
      while todo != {}
        invariant todo <= tags
        invariant tagToKeys == Prune(old(tagToKeys), key, tags - todo)
        decreases todo
      {
        var tag :| tag in todo;
        if tag in tagToKeys {
          tagToKeys := tagToKeys[tag := tagToKeys[tag] - {key}];
          if tagToKeys[tag] == {} {
            tagToKeys := tagToKeys - {tag};
          }
        }
        todo := todo - {tag};
      }
      assert tags - todo == tags;
    }

    method EnrollInTags(key: Key, tags: set<Tag>)
      modifies this`tagToKeys
      ensures tagToKeys == Enroll(old(tagToKeys), key, tags)
    {
      var todo := tags;
      ghost var done: set<Tag> := {};
      EnrollNothing(tagToKeys, key);
      while todo != {}
        invariant done + todo == tags
        invariant tagToKeys == Enroll(old(tagToKeys), key, done)
        decreases todo
      {
        var tag :| tag in todo;
        EnrollOne(old(tagToKeys), key, done, tag, tagToKeys);
        done := done + {tag};
        if tag !in tagToKeys {
          tagToKeys := tagToKeys[tag := {}];
        }
        tagToKeys := tagToKeys[tag := tagToKeys[tag] + {key}];
        todo := todo - {tag};
      }
      assert done == tags;
    }

    method EvictL1LruIfNeeded()
      requires Valid()
      modifies this`l1Order, this`l1Store, this`tagToKeys
      ensures Valid() && L1() == Evicted(old(L1()), cfg.maxItems) && |l1Order| < cfg.maxItems
    {
      while |l1Order| >= cfg.maxItems
        invariant Valid()
        invariant Evicted(L1(), cfg.maxItems) == Evicted(old(L1()), cfg.maxItems)
        decreases |l1Order|
      {
        ghost var t := L1();
        var oldest := l1Order[0];
        PopOldestOk(t);
        var entry := l1Store[oldest];
        l1Order := l1Order[1..];
        l1Store := l1Store - {oldest};
        PruneFromTags(oldest, entry.tags);
        assert L1() == PopOldest(t);
      }
    }

    /** `_l1_cache[key] = entry` for an absent key, and the enrolment of its tags. */
    method Append(key: Key, entry: Entry)
      modifies this`l1Order, this`l1Store, this`tagToKeys
      ensures L1() == Tier(old(l1Order) + [key], old(l1Store)[key := entry], Enroll(old(tagToKeys), key, entry.tags))
    {
      l1Order := l1Order + [key];
      l1Store := l1Store[key := entry];
      EnrollInTags(key, entry.tags);
    }

    /** Removal of a resident key and of its tags. */
    method Unlink(key: Key)
      requires key in l1Store
      modifies this`l1Order, this`l1Store, this`tagToKeys
      ensures L1() == Unlinked(old(L1()), key)
    {
      var entry := l1Store[key];
      l1Order := Without(l1Order, {key});
      l1Store := l1Store - {key};
      DiscardFromTags(key, entry.tags);
    }

    method StoreInL1(key: Key, entry: Entry)
      requires Valid()
      modifies this`l1Order, this`l1Store, this`tagToKeys
      ensures Valid() && L1() == Put(old(L1()), key, entry, cfg.maxItems)
    {
      PutOk(cfg, L1(), key, entry);
      if key in l1Store {
        l1Order := Without(l1Order, {key});
        l1Store := l1Store - {key};
      } else {
        EvictL1LruIfNeeded();
      }
      Append(key, entry);
    }

    /** The Redis half of `set`. */
    method WriteToRedis(key: Key, item: Stored, now: real, fails: bool)
      modifies this`l2, this`redisErrors, this`failures, this`lastFailure, this`mode, this`fallbackEvents
      ensures l2 == if fails then old(l2) else old(l2)[key := item]
      ensures Health() == if fails then Failed(cfg, old(Health()), now) else Succeeded(old(Health()))
    {
      if fails {
        OnRedisFailure(now);
      } else {
        l2 := l2[key := item];
        OnRedisSuccess();
      }
    }

    method Set(key: Key, value: Value, ttl: Option<real>, tags: set<Tag>, now: real, fault: bool)
      requires Valid()
      modifies this
      ensures Valid() && Model() == SetStep(cfg, old(Model()), key, value, ttl, tags, now, fault)
    {
      StoreInL1(key, Entry(value, now, ttl, tags));
      if cfg.redis && mode != Degraded {
        WriteToRedis(key, Stored(value, tags, Expiry(ttl, now)), now, fault || Refused(ttl));
      }
    }

    /** The L1 half of `get`: an expired entry is dropped, a live one becomes the most recent. */
    method LookupL1(key: Key, now: real) returns (found: Option<Value>)
      requires Valid()
      modifies this`l1Order, this`l1Store, this`tagToKeys
      ensures Valid()
      ensures if L1Hit(old(Model()), key, now)
        then found == Some(old(l1Store)[key].value) && L1() == Refreshed(old(L1()), key)
        else found == None && L1() == AfterExpiry(old(Model()), key) && key !in l1Store
    {
      if key in l1Store {
        var entry := l1Store[key];
        if Expired(entry, now) {
          DroppedOk(cfg, L1(), {key}, Discard(tagToKeys, key, l1Store[key].tags));
          Unlink(key);
        } else {
          RefreshedOk(cfg, L1(), key);
          l1Order := Without(l1Order, {key}) + [key];
          return Some(entry.value);
        }
      }
      return None;
    }

    method Promote(key: Key, data: Stored, now: real)
      requires Valid() && key !in l1Store
      modifies this`l1Order, this`l1Store, this`tagToKeys
      ensures Valid() && L1() == Put(old(L1()), key, Entry(data.value, now, None, data.tags), cfg.maxItems)
    {
      PutOk(cfg, L1(), key, Entry(data.value, now, None, data.tags));
      EvictL1LruIfNeeded();
      Append(key, Entry(data.value, now, None, data.tags));
    }

    method ProbeIfDue(now: real)
      modifies this`mode
      ensures Health() == Probed(cfg, old(Health()), now)
    {
      if mode == Degraded && now - lastFailure > cfg.probeInterval {
        mode := Recovering;
      }
    }

    /** The Redis half of `get`, for a key that is not in L1: the probe, the read and the promotion. */
    method LookupL2(key: Key, now: real, fault: bool) returns (found: Option<Value>)
      requires Valid() && cfg.redis && key !in l1Store
      modifies this
      ensures Valid() && l2 == old(l2) && misses == old(misses) && invalidations == old(invalidations)
      ensures var probed := Probed(cfg, old(Health()), now);
        if fault || !(key in l2 && Live(l2[key], now)) then
          && found == None && L1() == old(L1())
          && hits == old(hits) && l1Hits == old(l1Hits) && l2Hits == old(l2Hits)
          && Health() == if fault then Failed(cfg, probed, now) else probed
        else
          && found == Some(l2[key].value)
          && L1() == Put(old(L1()), key, Entry(l2[key].value, now, None, l2[key].tags), cfg.maxItems)
          && hits == old(hits) + 1 && l1Hits == old(l1Hits) && l2Hits == old(l2Hits) + 1
          && Health() == Succeeded(probed)
    {
      ProbeIfDue(now);
      if fault {
        OnRedisFailure(now);
      } else if key in l2 && Live(l2[key], now) {
        Promote(key, l2[key], now);
        hits := hits + 1;
        l2Hits := l2Hits + 1;
        OnRedisSuccess();
        return Some(l2[key].value);
      }
      return None;
    }

    method Get(key: Key, now: real, fault: bool) returns (value: Value)
      requires Valid()
      modifies this
      ensures Valid() && Model() == GetStep(cfg, old(Model()), key, now, fault)
      ensures value == GetResult(cfg, old(Model()), key, now, fault)
    {
      var found := LookupL1(key, now);
      if found.Some? {
        hits := hits + 1;
        l1Hits := l1Hits + 1;
        return found.value;
      }
      if cfg.redis {
        found := LookupL2(key, now, fault);
        if found.Some? {
          return found.value;
        }
      }
      misses := misses + 1;
      return None;
    }

    method Invalidate(key: Key, now: real, fault: bool)
      requires Valid()
      modifies this
      ensures Valid() && Model() == InvalidateStep(cfg, old(Model()), key, now, fault)
    {
      if key in l1Store {
        DroppedOk(cfg, L1(), {key}, Discard(tagToKeys, key, l1Store[key].tags));
        Unlink(key);
      }
      invalidations := invalidations + 1;
      if cfg.redis {
        if fault {
          OnRedisFailure(now);
        } else {
          l2 := l2 - {key};
        }
      }
    }

    /** Drops `k` from L1 if it is there, leaving the index alone. */
    method DropKey(k: Key) returns (resident: bool)
      requires forall x :: x in l1Order ==> x in l1Store
      modifies this`l1Order, this`l1Store
      ensures resident == (k in old(l1Store))
      ensures l1Order == Without(old(l1Order), {k}) && l1Store == old(l1Store) - {k}
    {
      resident := k in l1Store;
      if resident {
        l1Order := Without(l1Order, {k});
        l1Store := l1Store - {k};
      } else {
        WithoutNothing(l1Order, {k});
      }
    }

    /** Drops the keys of a tag from L1; returns how many were resident. */
    method DropKeys(gone: set<Key>) returns (count: nat)
      requires forall k :: k in l1Order ==> k in l1Store
      modifies this`l1Order, this`l1Store
      ensures l1Order == Without(old(l1Order), gone) && l1Store == old(l1Store) - gone
      ensures count == Common(gone, old(l1Store).Keys)
    {
      count := 0;
      var todo := gone;
      ghost var done: set<Key>, order, store := {}, l1Order, l1Store;
      WithoutNothing(order, done);
      while todo != {}
        invariant done + todo == gone && done !! todo
        invariant l1Order == Without(order, done) && l1Store == store - done
        invariant count == Common(done, store.Keys)
        decreases todo
      {
        var k :| k in todo;
        CountOne(done, k, store.Keys);
        WithoutOneMore(order, done, k);
        WithoutElements(order, done);
        done := done + {k};
        var resident := DropKey(k);
        if resident {
          count := count + 1;
        }
        todo := todo - {k};
      }
      assert done == gone;
    }

    /** The L1 half of tag invalidation; returns the keys to delete from Redis and how many were resident. */
    method EvictTag(tag: Tag) returns (gone: set<Key>, count: nat)
      requires forall k :: k in l1Order ==> k in l1Store
      modifies this`l1Order, this`l1Store, this`tagToKeys
      ensures gone == Indexed(old(tagToKeys), tag) && count == Common(gone, old(l1Store).Keys)
      ensures L1() == TagDropped(old(L1()), tag)
    {
      gone, count := {}, 0;
      if tag in tagToKeys {
        gone := tagToKeys[tag];
        count := DropKeys(gone);
        tagToKeys := tagToKeys - {tag};
      }
    }

    /** Deletes a set of keys from Redis one by one; a key in `faults` fails. */
    method DeleteFromRedis(gone: set<Key>, now: real, faults: set<Key>)
      modifies this`l2, this`redisErrors, this`failures, this`lastFailure, this`mode, this`fallbackEvents
      ensures l2 == old(l2) - (gone - faults)
      ensures Health() == FailedTimes(cfg, old(Health()), now, Common(gone, faults))
    {
      var todo := gone;
      ghost var done: set<Key> := {};
      assert done * faults == {} && done - faults == {} && l2 - (done - faults) == l2;
      while todo != {}
        invariant done + todo == gone && done !! todo
        invariant l2 == old(l2) - (done - faults)
        invariant Health() == FailedTimes(cfg, old(Health()), now, Common(done, faults))
        decreases todo
      {
        var k :| k in todo;
        CountOne(done, k, faults);
        LoseOne(done, k, faults, old(l2));
        done := done + {k};
        if k in faults {
          OnRedisFailure(now);
        } else {
          l2 := l2 - {k};
        }
        todo := todo - {k};
      }
      assert done == gone;
    }

    method InvalidateByTag(tag: Tag, now: real, faults: set<Key>) returns (count: nat)
      requires Valid()
      modifies this
      ensures Valid() && Model() == TagStep(cfg, old(Model()), tag, now, faults)
      ensures count == Common(Indexed(old(tagToKeys), tag), old(l1Store).Keys)
    {
      if tag in tagToKeys { DroppedOk(cfg, L1(), tagToKeys[tag], tagToKeys - {tag}); }
      count := InvalidateTagged(tag, now, faults);
    }

    /** `InvalidateByTag` without the invariant, which only the keys of the tag can affect. */
    method InvalidateTagged(tag: Tag, now: real, faults: set<Key>) returns (count: nat)
      requires forall k :: k in l1Order ==> k in l1Store
      modifies this
      ensures Model() == TagStep(cfg, old(Model()), tag, now, faults)
      ensures count == Common(Indexed(old(tagToKeys), tag), old(l1Store).Keys)
    {
      var gone;
      gone, count := EvictTag(tag);
      NothingGone(gone, faults, l2);
      if gone != {} && cfg.redis {
        DeleteFromRedis(gone, now, faults);
      }
      invalidations := invalidations + count;
    }

    /** The L1 half of prefix invalidation, over a snapshot of the keys. */
    method EvictPrefix(prefix: string) returns (removed: seq<Key>)
      requires NoDup(l1Order) && forall k :: k in l1Order ==> k in l1Store
      modifies this`l1Order, this`l1Store, this`tagToKeys
      ensures removed == Prefixed(old(l1Order), prefix)
      ensures L1() == UnlinkedAll(old(L1()), removed)
    {
      var keys := l1Order;
      removed := [];
      var i := 0;
      ghost var start := L1();
      while i < |keys|
        invariant 0 <= i <= |keys|
        invariant removed + Prefixed(keys[i..], prefix) == Prefixed(keys, prefix)
        invariant UnlinkedAll(L1(), Prefixed(keys[i..], prefix)) == UnlinkedAll(start, Prefixed(keys, prefix))
        invariant NoDup(keys[i..]) && forall k :: k in keys[i..] ==> k in l1Store
      {
        var k := keys[i];
        assert keys[i..] == [k] + keys[i + 1..];
        ghost var t := L1();
        if prefix <= k {
          PrefixHit(t, keys, i, prefix);
          Unlink(k);
          assert L1() == Unlinked(t, k);
          removed := removed + [k];
        } else {
          PrefixMiss(keys, i, prefix);
        }
        i := i + 1;
      }
    }

    /** Deletes keys from Redis in order, stopping at the deletion that raises. */
    method DeleteInOrder(removed: seq<Key>, now: real, failAt: Option<nat>)
      modifies this`l2, this`redisErrors, this`failures, this`lastFailure, this`mode, this`fallbackEvents
      ensures if failAt.Some? && failAt.value < |removed|
        then l2 == old(l2) - Elements(removed[..failAt.value]) && Health() == Failed(cfg, old(Health()), now)
        else l2 == old(l2) - Elements(removed) && Health() == old(Health())
    {
      var i := 0;
      while i < |removed| && failAt != Some(i)
        invariant 0 <= i <= |removed|
        invariant l2 == old(l2) - Elements(removed[..i])
        invariant failAt.Some? ==> i <= failAt.value || failAt.value >= |removed|
        invariant Health() == old(Health())
      {
        l2 := l2 - {removed[i]};
        assert removed[..i + 1] == removed[..i] + [removed[i]];
        i := i + 1;
      }
      assert i == |removed| ==> removed[..i] == removed;
      if i < |removed| {
        OnRedisFailure(now);
      }
    }

    method InvalidatePrefix(prefix: string, now: real, failAt: Option<nat>) returns (count: nat)
      requires Valid()
      modifies this
      ensures Valid() && Model() == PrefixStep(cfg, old(Model()), prefix, now, failAt)
      ensures count == |Prefixed(old(l1Order), prefix)|
    {
      UnlinkedAllOk(cfg, L1(), Prefixed(l1Order, prefix));
      var removed := EvictPrefix(prefix);
      count := |removed|;
      if cfg.redis {
        DeleteInOrder(removed, now, failAt);
      }
      invalidations := invalidations + count;
    }
  }
}
