/** `ChannelRateLimiter` of `channels/resilience.py`: a token bucket per channel, over real time. */
module TokenBucket {
  import opened Wrappers

  type Channel = string

  /** The stored pair (tokens, last refill). */
  datatype Bucket = Bucket(tokens: real, at: real)

  datatype Verdict = Blocked | Short | Granted

  function Min(x: real, y: real): real {
    if x <= y then x else y
  }

  /** `max(refill_rate * 2.0, 5.0)`. */
  function Capacity(rate: real): real {
    if rate * 2.0 >= 5.0 then rate * 2.0 else 5.0
  }

  /** The tokens available at `now`; a channel without a bucket starts full. */
  function Refilled(b: Option<Bucket>, rate: real, now: real): real {
    match b
    case None => Capacity(rate)
    case Some(bucket) => Min(Capacity(rate), bucket.tokens + (now - bucket.at) * rate)
  }

  /** One pass through the critical section of `acquire`. */
  function Judge(b: Option<Bucket>, blockedUntil: real, rate: real, now: real, cost: real): Verdict {
    if now < blockedUntil then Blocked
    else if Refilled(b, rate, now) >= cost then Granted
    else Short
  }

  function After(b: Option<Bucket>, blockedUntil: real, rate: real, now: real, cost: real): Option<Bucket> {
    if Judge(b, blockedUntil, rate, now, cost) == Granted then Some(Bucket(Refilled(b, rate, now) - cost, now)) else b
  }

  /** The back-off of `report_rate_limit`. */
  function Delay(retryAfter: Option<real>): real {
    if retryAfter.Some? && retryAfter.value > 0.0 then retryAfter.value else 5.0
  }

  // ---- Runs of one channel ----

  datatype Event = Attempt(now: real, cost: real) | Report(now: real, retryAfter: Option<real>)

  datatype State = State(bucket: Option<Bucket>, blockedUntil: real)

  datatype Grant = Grant(at: real, cost: real)

  function Step(s: State, rate: real, e: Event): State {
    match e
    case Attempt(now, cost) => s.(bucket := After(s.bucket, s.blockedUntil, rate, now, cost))
    case Report(now, retryAfter) => s.(blockedUntil := now + Delay(retryAfter))
  }

  function Run(rate: real, events: seq<Event>): State {
    if events == [] then State(None, 0.0)
    else Step(Run(rate, events[..|events| - 1]), rate, events[|events| - 1])
  }

  predicate Grants(s: State, rate: real, e: Event) {
    e.Attempt? && Judge(s.bucket, s.blockedUntil, rate, e.now, e.cost) == Granted
  }

  /** Everything granted during a run, in order. */
  function Log(rate: real, events: seq<Event>): seq<Grant> {
    if events == [] then []
    else
      var n := |events| - 1;
      Log(rate, events[..n])
        + if Grants(Run(rate, events[..n]), rate, events[n]) then [Grant(events[n].now, events[n].cost)] else []
  }

  /** The monotonic clock, and costs that are not negative. */
  ghost predicate WellTimed(events: seq<Event>) {
    && (forall i, j :: 0 <= i < j < |events| ==> events[i].now <= events[j].now)
    && forall i :: 0 <= i < |events| && events[i].Attempt? ==> events[i].cost >= 0.0
  }

  // ---- The envelope ----

  /** The cost granted from grant `i` to the end. */
  function Spent(log: seq<Grant>, i: nat): real
    requires i <= |log|
    decreases |log| - i
  {
    if i == |log| then 0.0 else log[i].cost + Spent(log, i + 1)
  }

  /** How much of the burst allowance since grant `i` is left at `now`. */
  function Slack(log: seq<Grant>, rate: real, i: nat, now: real): real
    requires i < |log|
  {
    Capacity(rate) + rate * (now - log[i].at) - Spent(log, i)
  }

  ghost predicate RoomFor(log: seq<Grant>, rate: real, now: real, cost: real) {
    cost <= Capacity(rate) && forall i :: 0 <= i < |log| ==> cost <= Slack(log, rate, i, now)
  }

  /** The stored tokens are the tightest slack over all grants so far. */
  ghost predicate Tightest(b: Bucket, log: seq<Grant>, rate: real) {
    && log != [] && b.at == log[|log| - 1].at
    && (forall i :: 0 <= i < |log| ==> b.tokens <= Slack(log, rate, i, b.at))
    && exists i :: 0 <= i < |log| && b.tokens == Slack(log, rate, i, b.at)
  }

  lemma SlackLater(log: seq<Grant>, rate: real, i: nat, now: real, later: real)
    requires i < |log|
    ensures Slack(log, rate, i, later) == Slack(log, rate, i, now) + (later - now) * rate
  {
    assert rate * (later - log[i].at) == rate * (now - log[i].at) + (later - now) * rate;
  }

  lemma {:induction false} SpentAppend(log: seq<Grant>, g: Grant, i: nat)
    requires i <= |log|
    ensures Spent(log + [g], i) == Spent(log, i) + g.cost
    decreases |log| - i
  {
    if i == |log| {
      assert Spent(log + [g], i + 1) == 0.0;
    } else {
      SpentAppend(log, g, i + 1);
    }
  }

  lemma SlackAppend(log: seq<Grant>, g: Grant, rate: real, i: nat)
    requires i <= |log|
    ensures Slack(log + [g], rate, i, g.at)
         == (if i == |log| then Capacity(rate) else Slack(log, rate, i, g.at)) - g.cost
  {
    SpentAppend(log, g, i);
    if i == |log| {
      assert rate * (g.at - g.at) == 0.0;
    }
  }

  /** What is available is the tightest slack at `now`, and never more than the capacity. */
  lemma AvailableIsRoom(b: Option<Bucket>, log: seq<Grant>, rate: real, now: real, cost: real)
    requires if b.None? then log == [] else Tightest(b.value, log, rate)
    ensures cost <= Refilled(b, rate, now) <==> RoomFor(log, rate, now, cost)
  {
    if b.Some? {
      var bucket := b.value;
      forall i | 0 <= i < |log|
        ensures Slack(log, rate, i, now) == Slack(log, rate, i, bucket.at) + (now - bucket.at) * rate
      {
        SlackLater(log, rate, i, bucket.at, now);
      }
      var k :| 0 <= k < |log| && bucket.tokens == Slack(log, rate, k, bucket.at);
      assert bucket.tokens + (now - bucket.at) * rate == Slack(log, rate, k, now);
    }
  }

  /** What a grant costs every slack, the time since the last refill gives back. */
  lemma GrantMovesSlack(b: Bucket, log: seq<Grant>, rate: real, now: real, cost: real, i: nat)
    requires i < |log|
    ensures Slack(log + [Grant(now, cost)], rate, i, now) == Slack(log, rate, i, b.at) + (now - b.at) * rate - cost
  {
    SlackAppend(log, Grant(now, cost), rate, i);
    SlackLater(log, rate, i, b.at, now);
  }

  /** A grant leaves the tightest slack of the longer log. */
  lemma GrantIsTightest(b: Option<Bucket>, log: seq<Grant>, rate: real, now: real, cost: real)
    requires if b.None? then log == [] else Tightest(b.value, log, rate)
    ensures Tightest(Bucket(Refilled(b, rate, now) - cost, now), log + [Grant(now, cost)], rate)
  {
    var longer := log + [Grant(now, cost)];
    var tokens := Refilled(b, rate, now) - cost;
    SlackAppend(log, Grant(now, cost), rate, |log|);
    assert Slack(longer, rate, |log|, now) == Capacity(rate) - cost;
    forall i | 0 <= i < |longer|
      ensures tokens <= Slack(longer, rate, i, now)
    {
      if i < |log| {
        GrantMovesSlack(b.value, log, rate, now, cost, i);
        var gained, before := (now - b.value.at) * rate, Slack(log, rate, i, b.value.at);
        assert b.value.tokens <= before && tokens <= b.value.tokens + gained - cost;
        assert Slack(longer, rate, i, now) == before + gained - cost;
      }
    }
    if b.Some? {
      var k :| 0 <= k < |log| && b.value.tokens == Slack(log, rate, k, b.value.at);
      GrantMovesSlack(b.value, log, rate, now, cost, k);
      assert tokens == Slack(longer, rate, k, now) || tokens == Slack(longer, rate, |log|, now);
    } else {
      assert tokens == Slack(longer, rate, |log|, now);
    }
  }

  /** After every run the bucket is exactly the tightest slack of what was granted; failures store nothing. */
  lemma {:induction false} RunIsTightest(rate: real, events: seq<Event>)
    ensures var b := Run(rate, events).bucket;
      if b.None? then Log(rate, events) == [] else Tightest(b.value, Log(rate, events), rate)
  {
    if events == [] {
    } else {
      var n := |events| - 1;
      RunIsTightest(rate, events[..n]);
      var s := Run(rate, events[..n]);
      var before := Log(rate, events[..n]);
      if Grants(s, rate, events[n]) {
        GrantIsTightest(s.bucket, before, rate, events[n].now, events[n].cost);
        assert Log(rate, events) == before + [Grant(events[n].now, events[n].cost)];
      } else {
        assert Log(rate, events) == before + [] == before;
        assert Run(rate, events).bucket == s.bucket;
      }
    }
  }

  /**
   An attempt is granted exactly when the channel is not blocked and the cost fits the burst
   allowance of every interval since a past grant: the bucket is the most permissive limiter that
   keeps the envelope.
   */
  lemma GrantedExactly(rate: real, events: seq<Event>, now: real, cost: real)
    ensures var s := Run(rate, events);
      (Judge(s.bucket, s.blockedUntil, rate, now, cost) == Granted)
      <==> (now >= s.blockedUntil && RoomFor(Log(rate, events), rate, now, cost))
  {
    RunIsTightest(rate, events);
    AvailableIsRoom(Run(rate, events).bucket, Log(rate, events), rate, now, cost);
  }

  /** While nothing has been granted, a channel that is not blocked grants twice its rate, or five if that is more. */
  lemma BurstExactly(rate: real, events: seq<Event>, now: real, cost: real)
    requires Log(rate, events) == [] && now >= Run(rate, events).blockedUntil
    ensures Grants(Run(rate, events), rate, Attempt(now, cost)) <==> cost <= 2.0 * rate || cost <= 5.0
  {
    GrantedExactly(rate, events, now, cost);
  }

  /** The cost granted from grant `i` up to and including grant `j`. */
  function Between(log: seq<Grant>, i: nat, j: nat): real
    requires i <= j < |log|
  {
    Spent(log[..j + 1], i)
  }

  ghost predicate Envelope(log: seq<Grant>, rate: real) {
    forall i, j :: 0 <= i <= j < |log| ==> WithinBurst(log, rate, i, j)
  }

  predicate WithinBurst(log: seq<Grant>, rate: real, i: nat, j: nat)
    requires i <= j < |log|
  {
    Between(log, i, j) <= Capacity(rate) + rate * (log[j].at - log[i].at)
  }

  /**
   The total granted between any two grants, both included, is at most the capacity plus the rate
   times the time between them.
   */
  lemma {:induction false} RateBound(rate: real, events: seq<Event>)
    ensures Envelope(Log(rate, events), rate)
  {
    if events == [] {
    } else {
      var n := |events| - 1;
      var before := Log(rate, events[..n]);
      RateBound(rate, events[..n]);
      GrantedExactly(rate, events[..n], events[n].now, if events[n].Attempt? then events[n].cost else 0.0);
      if Grants(Run(rate, events[..n]), rate, events[n]) {
        EnvelopeAppend(before, rate, Grant(events[n].now, events[n].cost));
      } else {
        assert before + [] == before;
      }
    }
  }

  lemma EnvelopeAppend(log: seq<Grant>, rate: real, g: Grant)
    requires Envelope(log, rate) && RoomFor(log, rate, g.at, g.cost)
    ensures Envelope(log + [g], rate)
  {
    var longer := log + [g];
    forall i, j | 0 <= i <= j < |longer|
      ensures WithinBurst(longer, rate, i, j)
    {
      if j < |log| {
        assert longer[..j + 1] == log[..j + 1];
        assert WithinBurst(log, rate, i, j);
      } else {
        UpToTheLast(log, rate, g, i);
      }
    }
  }

  lemma UpToTheLast(log: seq<Grant>, rate: real, g: Grant, i: nat)
    requires i <= |log| && RoomFor(log, rate, g.at, g.cost)
    ensures WithinBurst(log + [g], rate, i, |log|)
  {
    assert (log + [g])[..|log| + 1] == log + [g];
    SpentAppend(log, g, i);
    if i < |log| {
      assert g.cost <= Slack(log, rate, i, g.at);
    } else {
      assert rate * (g.at - g.at) == 0.0;
    }
  }

  /** Stored tokens stay within the capacity and never go below zero. */
  lemma {:induction false} TokensBounded(rate: real, events: seq<Event>)
    requires WellTimed(events)
    ensures var b := Run(rate, events).bucket; b.Some? ==> 0.0 <= b.value.tokens <= Capacity(rate)
  {
    if events == [] {
    } else {
      TokensBounded(rate, events[..|events| - 1]);
    }
  }

  /** Nothing is granted between a report and the end of its back-off, until a later report replaces it. */
  lemma {:induction false} NoGrantWhileBlocked(rate: real, events: seq<Event>, i: nat, j: nat)
    requires i < j < |events| && events[i].Report?
    requires forall k :: i < k < j ==> events[k].Attempt?
    requires events[j].now < events[i].now + Delay(events[i].retryAfter)
    ensures !Grants(Run(rate, events[..j]), rate, events[j])
  {
    BlockedStays(rate, events, i, j);
  }

  /** The report that rules at an attempt is the latest one before it. */
  lemma {:induction false} LatestRules(rate: real, events: seq<Event>, i: nat, j: nat) returns (k: nat)
    requires i < j <= |events| && events[i].Report?
    ensures i <= k < j && events[k].Report? && forall m :: k < m < j ==> events[m].Attempt?
    ensures var wait := events[k].retryAfter;
      Run(rate, events[..j]).blockedUntil
      == events[k].now + if wait.Some? && wait.value > 0.0 then wait.value else 5.0
    decreases j
  {
    assert events[..j][..j - 1] == events[..j - 1];
    if events[j - 1].Report? {
      k := j - 1;
    } else {
      k := LatestRules(rate, events, i, j - 1);
    }
  }

  /**
   A back-off ends early only one way: a later report asks for an earlier end. A grant before the end of
   report `i` means that the latest report before the grant came after `i` and had ended.
   */
  lemma CutShortByLaterReport(rate: real, events: seq<Event>, i: nat, j: nat)
    requires i < j < |events| && events[i].Report? && Grants(Run(rate, events[..j]), rate, events[j])
    requires events[j].now < events[i].now + Delay(events[i].retryAfter)
    ensures exists k :: i < k < j && events[k].Report? && EndsBy(events[k], events[j].now)
                        && forall m :: k < m < j ==> events[m].Attempt?
  {
    var k := LatestRules(rate, events, i, j);
    assert k != i && EndsBy(events[k], events[j].now);
  }

  predicate EndsBy(report: Event, now: real)
    requires report.Report?
  {
    report.now + Delay(report.retryAfter) <= now
  }

  /** It happens: sixty seconds asked for at time 0 end at time 2 when one second is asked for at time 1. */
  lemma ShorterReportReplacesLonger(rate: real)
    ensures var events := [Report(0.0, Some(60.0)), Report(1.0, Some(1.0)), Attempt(3.0, 1.0)];
      Grants(Run(rate, events[..2]), rate, events[2])
  {
    var events := [Report(0.0, Some(60.0)), Report(1.0, Some(1.0)), Attempt(3.0, 1.0)];
    assert events[..2] == [events[0], events[1]] && events[..2][..1] == [events[0]];
    assert [events[0]][..0] == [];
    assert Run(rate, [events[0]]) == State(None, 60.0);
    assert Run(rate, events[..2]) == State(None, 2.0);
  }

  lemma {:induction false} BlockedStays(rate: real, events: seq<Event>, i: nat, j: nat)
    requires i < j <= |events| && events[i].Report?
    requires forall k :: i < k < j ==> events[k].Attempt?
    ensures Run(rate, events[..j]).blockedUntil == events[i].now + Delay(events[i].retryAfter)
    decreases j
  {
    assert events[..j][..j - 1] == events[..j - 1];
    if j > i + 1 {
      BlockedStays(rate, events, i, j - 1);
    }
  }

  // ---- The limiter ----

  /** The clock readings of one pass of the `acquire` loop: the guard, the critical section, the wait check. */
  datatype Pass = Pass(check: real, now: real, recheck: real)

  datatype Outcome = Acquired(pass: nat) | Refused | Waiting

  class ChannelRateLimiter {
    // `get_channel_capability(channel).rate_limit_messages_per_sec`.
    const rateOf: Channel -> real
    var buckets: map<Channel, Bucket>
    var rateLimitedUntil: map<Channel, real>

    constructor (rateOf: Channel -> real)
      ensures this.rateOf == rateOf && forall c :: Model(c) == Run(rateOf(c), [])
    {
      this.rateOf := rateOf;
      buckets, rateLimitedUntil := map[], map[];
    }

    /** One channel's state. */
    function Model(c: Channel): State
      reads this
    {
      State(if c in buckets then Some(buckets[c]) else None, if c in rateLimitedUntil then rateLimitedUntil[c] else 0.0)
    }

    /** One pass under the lock; no other channel is affected. */
    method TryOnce(channel: Channel, cost: real, now: real) returns (v: Verdict)
      modifies this`buckets
      ensures v == Judge(old(Model(channel)).bucket, old(Model(channel)).blockedUntil, rateOf(channel), now, cost)
      ensures Model(channel) == Step(old(Model(channel)), rateOf(channel), Attempt(now, cost))
      ensures v != Granted ==> buckets == old(buckets)
      ensures forall c :: c != channel ==> Model(c) == old(Model(c))
    {
      var refillRate := rateOf(channel);
      var capacity := Capacity(refillRate);
      var blockedUntil := if channel in rateLimitedUntil then rateLimitedUntil[channel] else 0.0;
      if now < blockedUntil {
        return Blocked;
      }
      var bucket := if channel in buckets then buckets[channel] else Bucket(capacity, now);
      var elapsed := now - bucket.at;
      assert channel !in buckets ==> elapsed * refillRate == 0.0;
      var tokens := Min(capacity, bucket.tokens + elapsed * refillRate);
      assert tokens == Refilled(Model(channel).bucket, refillRate, now);
      if tokens >= cost {
        buckets := buckets[channel := Bucket(tokens - cost, now)];
        return Granted;
      }
      return Short;
    }

    /** What a lone `acquire` does over its passes, from a given channel state. */
    static function Awaited(s: State, rate: real, cost: real, timeout: real, start: real, passes: seq<Pass>,
                            i: nat): Outcome
      requires i <= |passes|
      decreases |passes| - i
    {
      if i == |passes| then Waiting
      else
        var p := passes[i];
        if p.check - start >= timeout then Refused
        else
          match Judge(s.bucket, s.blockedUntil, rate, p.now, cost)
          case Granted => Acquired(i)
          case Blocked =>
            if s.blockedUntil - p.now > timeout - (p.recheck - start) then Refused
            else Awaited(s, rate, cost, timeout, start, passes, i + 1)
          case Short => Awaited(s, rate, cost, timeout, start, passes, i + 1)
    }

    /** The pass ends the wait with a refusal: the time is up, or the back-off ends too late. */
    static predicate GivesUp(s: State, timeout: real, start: real, p: Pass) {
      || p.check - start >= timeout
      || (p.now < s.blockedUntil && s.blockedUntil - p.now > timeout - (p.recheck - start))
    }

    /** The pass comes in time and finds the tokens. */
    static predicate Succeeds(s: State, rate: real, cost: real, timeout: real, start: real, p: Pass) {
      p.check - start < timeout && p.now >= s.blockedUntil && Refilled(s.bucket, rate, p.now) >= cost
    }

    /** The first pass that succeeds or gives up decides. */
    static lemma {:induction false} FirstDecides(s: State, rate: real, cost: real, timeout: real, start: real,
                                                 passes: seq<Pass>, i: nat) returns (n: nat)
      requires i <= |passes|
      ensures i <= n <= |passes|
      ensures forall m :: i <= m < n ==>
        !GivesUp(s, timeout, start, passes[m]) && !Succeeds(s, rate, cost, timeout, start, passes[m])
      ensures n == |passes| ==> Awaited(s, rate, cost, timeout, start, passes, i) == Waiting
      ensures n < |passes| ==>
        if Succeeds(s, rate, cost, timeout, start, passes[n])
        then Awaited(s, rate, cost, timeout, start, passes, i) == Acquired(n)
        else GivesUp(s, timeout, start, passes[n]) && Awaited(s, rate, cost, timeout, start, passes, i) == Refused
      decreases |passes| - i
    {
      n := i;
      if i < |passes| && !GivesUp(s, timeout, start, passes[i])
         && !Succeeds(s, rate, cost, timeout, start, passes[i]) {
        n := FirstDecides(s, rate, cost, timeout, start, passes, i + 1);
      }
    }

    /**
     `acquire` without other callers: it takes tokens at most once, at the first pass that can, and
     an unsuccessful call leaves no trace. Waiting means that the given passes did not decide it.
     */
    method Acquire(channel: Channel, cost: real, timeout: real, start: real, passes: seq<Pass>) returns (r: Outcome)
      modifies this`buckets
      ensures r == Awaited(old(Model(channel)), rateOf(channel), cost, timeout, start, passes, 0)
      ensures r.Acquired? ==>
        && r.pass < |passes|
        && Grants(old(Model(channel)), rateOf(channel), Attempt(passes[r.pass].now, cost))
        && Model(channel) == Step(old(Model(channel)), rateOf(channel), Attempt(passes[r.pass].now, cost))
      ensures !r.Acquired? ==> buckets == old(buckets)
      ensures forall c :: c != channel ==> Model(c) == old(Model(c))
    {
      var i := 0;
      while i < |passes|
        invariant 0 <= i <= |passes| && buckets == old(buckets)
        invariant Awaited(Model(channel), rateOf(channel), cost, timeout, start, passes, 0)
          == Awaited(Model(channel), rateOf(channel), cost, timeout, start, passes, i)
      {
        if passes[i].check - start >= timeout {
          return Refused;
        }
        var v := TryOnce(channel, cost, passes[i].now);
        if v == Granted {
          return Acquired(i);
        }
        if v == Blocked {
          var blockedUntil := if channel in rateLimitedUntil then rateLimitedUntil[channel] else 0.0;
          var waitNeeded := blockedUntil - passes[i].now;
          if waitNeeded > timeout - (passes[i].recheck - start) {
            return Refused;
          }
        }
        i := i + 1;
      }
      return Waiting;
    }

    method ReportRateLimit(channel: Channel, retryAfter: Option<real>, now: real)
      modifies this`rateLimitedUntil
      ensures Model(channel) == Step(old(Model(channel)), rateOf(channel), Report(now, retryAfter))
      ensures Model(channel).blockedUntil
        == now + if retryAfter.Some? && retryAfter.value > 0.0 then retryAfter.value else 5.0
      ensures forall c :: c != channel ==> Model(c) == old(Model(c))
    {
      var delay := if retryAfter.Some? && retryAfter.value > 0.0 then retryAfter.value else 5.0;
      rateLimitedUntil := rateLimitedUntil[channel := now + delay];
    }
  }
}
