/** Message deduplication: `_remember_message_id` of `channels/mochat.py`. */
module SeenIds {
  import opened Sequences

  type Key = string
  type Id = string

  const MAX_SEEN: nat := 2000

  /** The last `MAX_SEEN` items. */
  function Recent(log: seq<Id>): seq<Id> {
    if |log| <= MAX_SEEN then log else log[|log| - MAX_SEEN..]
  }

  ghost predicate AmongLast(log: seq<Id>, id: Id) {
    exists i :: 0 <= i < |log| && |log| - i <= 2000 && log[i] == id
  }

  lemma RecentExactly(log: seq<Id>, id: Id)
    ensures id in Recent(log) <==> AmongLast(log, id)
  {
    if |log| > MAX_SEEN {
      assert forall i :: |log| - MAX_SEEN <= i < |log| ==> log[i] == Recent(log)[i - (|log| - MAX_SEEN)];
    }
  }

  function LogOf(logs: map<Key, seq<Id>>, key: Key): seq<Id> {
    if key in logs then logs[key] else []
  }

  /** One more id in the queue, the oldest falling out beyond the limit. */
  function Pushed(queue: seq<Id>, id: Id): seq<Id> {
    Recent(queue + [id])
  }

  lemma PushedNoDup(queue: seq<Id>, id: Id)
    requires NoDup(queue) && id !in queue
    ensures NoDup(Pushed(queue, id))
  {
    NoDupAppend(queue, id);
    NoDupSuffix(queue + [id], |queue + [id]| - |Pushed(queue, id)|);
  }

  /** The queue is duplicate-free and the recent part of the log; the set is exactly its elements. */
  ghost predicate Window(queue: seq<Id>, seen: set<Id>, log: seq<Id>) {
    queue == Recent(log) && NoDup(queue) && seen == Elements(queue)
  }

  ghost predicate Tracks(queues: map<Key, seq<Id>>, sets: map<Key, set<Id>>, logs: map<Key, seq<Id>>) {
    && queues.Keys == sets.Keys == logs.Keys
    && forall k :: k in logs ==> Window(queues[k], sets[k], logs[k])
  }

  class Deduplicator {
    // The `deque` and the `set` of each key.
    var seenQueue: map<Key, seq<Id>>
    var seenSet: map<Key, set<Id>>
    // Every id ever recorded for a key, in order.
    ghost var recorded: map<Key, seq<Id>>

    ghost predicate Valid()
      reads this
    {
      Tracks(seenQueue, seenSet, recorded)
    }

    constructor ()
      ensures Valid() && recorded == map[]
    {
      seenQueue, seenSet, recorded := map[], map[], map[];
    }

    /**
     A message is a duplicate exactly when its id is among the last 2000 newly recorded ids of its
     key; only a new id is recorded, and only under its own key.
     */
    method RememberMessageId(key: Key, id: Id) returns (duplicate: bool)
      requires Valid()
      modifies this
      ensures Valid()
      ensures duplicate <==> AmongLast(LogOf(old(recorded), key), id)
      ensures recorded == old(recorded)[key := LogOf(old(recorded), key) + if duplicate then [] else [id]]
      ensures seenQueue == old(seenQueue)[key := Recent(recorded[key])] && |seenQueue[key]| <= 2000
    {
      ghost var log := LogOf(recorded, key);
      var queue: seq<Id>, seen: set<Id> := [], {};
      if key in seenSet {
        queue, seen := seenQueue[key], seenSet[key];
      }
      assert Window(queue, seen, log);
      RecentExactly(log, id);
      queue, seen, log, duplicate := Looked(queue, seen, log, id);
      seenQueue, seenSet, recorded := seenQueue[key := queue], seenSet[key := seen], recorded[key := log];
    }

    /** The lookup and the recording on one key's queue and set. */
    method Looked(queue: seq<Id>, seen: set<Id>, ghost log: seq<Id>, id: Id)
      returns (q: seq<Id>, s: set<Id>, ghost l: seq<Id>, duplicate: bool)
      requires Window(queue, seen, log)
      ensures Window(q, s, l) && l == log + (if duplicate then [] else [id])
      ensures duplicate <==> id in Recent(log)
    {
      q, s, l, duplicate := queue, seen, log, id in seen;
      assert log + [] == log;
      if !duplicate {
        PushedNoDup(queue, id);
        NoDupAppend(queue, id);
        q, s := Trimmed(queue + [id], seen + {id});
        l := log + [id];
      }
    }

    /** The `while` loop that forgets the oldest ids beyond the limit. */
    method Trimmed(queue: seq<Id>, seen: set<Id>) returns (q: seq<Id>, s: set<Id>)
      requires NoDup(queue) && seen == Elements(queue)
      ensures q == Recent(queue) && s == Elements(q)
    {
      q, s := queue, seen;
      while |q| > MAX_SEEN
        invariant Recent(q) == Recent(queue)
        invariant NoDup(q) && s == Elements(q)
        decreases |q|
      {
        s := s - {q[0]};
        q := q[1..];
      }
    }
  }

  // ---- Whole runs for one key ----

  /** The ids recorded while a sequence of ids arrives. */
  function Recorded(ids: seq<Id>): seq<Id> {
    if ids == [] then [] else Logged(Recorded(ids[..|ids| - 1]), ids[|ids| - 1])
  }

  function Logged(log: seq<Id>, id: Id): seq<Id> {
    if id in Recent(log) then log else log + [id]
  }

  ghost predicate Spaced(log: seq<Id>) {
    forall i, j :: 0 <= i < j < |log| && j - i <= 2000 ==> log[i] != log[j]
  }

  /** Two acceptances of one id are more than 2000 acceptances apart. */
  lemma {:induction false} AcceptancesAreSpaced(ids: seq<Id>)
    ensures Spaced(Recorded(ids))
  {
    if ids == [] {
    } else {
      AcceptancesAreSpaced(ids[..|ids| - 1]);
    }
  }

  /** An arriving id is accepted exactly if it is not among the last 2000 accepted: after 2000 others it is again. */
  lemma AcceptedExactly(ids: seq<Id>, id: Id)
    ensures Recorded(ids + [id]) == Recorded(ids) + if AmongLast(Recorded(ids), id) then [] else [id]
  {
    assert (ids + [id])[..|ids|] == ids;
    assert Recorded(ids) + [] == Recorded(ids);
    RecentExactly(Recorded(ids), id);
  }

  /** Nothing is lost: exactly the ids that arrive are accepted at some time. */
  lemma {:induction false} EveryIdAccepted(ids: seq<Id>, x: Id)
    ensures x in Recorded(ids) <==> x in ids
  {
    if ids == [] {
    } else {
      var n := |ids| - 1;
      EveryIdAccepted(ids[..n], x);
      assert ids == ids[..n] + [ids[n]];
    }
  }
}
