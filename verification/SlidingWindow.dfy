/** `RateLimiterMiddleware` of `api/middleware.py`: a sliding-window limiter per client. */
module SlidingWindow {

  type Client = string

  const EXEMPT: set<string> := {"/health", "/metrics", "/docs", "/openapi.json", "/favicon.ico"}

  // ---- The reference limiter: every admission is remembered ----

  /** How many times are later than `cutoff`. */
  function Later(times: seq<real>, cutoff: real): nat {
    if times == [] then 0
    else Later(times[..|times| - 1], cutoff) + (if times[|times| - 1] > cutoff then 1 else 0)
  }

  predicate Admits(log: seq<real>, now: real, limit: int, window: real) {
    Later(log, now - window) < limit
  }

  /** The admissions among one client's arrivals, judged on the full log of its admissions. */
  function Admissions(arrivals: seq<real>, limit: int, window: real): seq<real> {
    if arrivals == [] then []
    else
      var n := |arrivals| - 1;
      var log := Admissions(arrivals[..n], limit, window);
      if Admits(log, arrivals[n], limit, window) then log + [arrivals[n]] else log
  }

  /** How many times lie in the half-open interval (lo, hi]. */
  function Within(times: seq<real>, lo: real, hi: real): nat {
    if times == [] then 0
    else
      var t := times[|times| - 1];
      Within(times[..|times| - 1], lo, hi) + (if lo < t <= hi then 1 else 0)
  }

  lemma {:induction false} WithinAtMostLater(times: seq<real>, lo: real, hi: real, cutoff: real)
    requires cutoff <= lo
    ensures Within(times, lo, hi) <= Later(times, cutoff)
  {
    if times == [] {
    } else {
      WithinAtMostLater(times[..|times| - 1], lo, hi, cutoff);
    }
  }

  /** Every half-open interval of the window's length holds at most `limit` admissions. */
  lemma {:induction false} IntervalBound(arrivals: seq<real>, limit: int, window: real, x: real)
    ensures Within(Admissions(arrivals, limit, window), x, x + window) <= if limit > 0 then limit else 0
  {
    if arrivals == [] {
    } else {
      var n := |arrivals| - 1;
      var now := arrivals[n];
      var log := Admissions(arrivals[..n], limit, window);
      IntervalBound(arrivals[..n], limit, window, x);
      if Admits(log, now, limit, window) {
        assert (log + [now])[..|log|] == log;
        if x < now <= x + window {
          WithinAtMostLater(log, x, x + window, now - window);
        }
      }
    }
  }

  /** A refusal is never gratuitous: one more admission would break the bound on the last window. */
  lemma RefusedOnlyAtTheLimit(arrivals: seq<real>, limit: int, window: real, now: real)
    requires window > 0.0 && AllUpTo(arrivals, now)
    ensures var log := Admissions(arrivals, limit, window);
      !Admits(log, now, limit, window) <==> Within(log + [now], now - window, now) > limit
  {
    var log := Admissions(arrivals, limit, window);
    AdmissionsUpTo(arrivals, limit, window, now);
    assert (log + [now])[..|log|] == log;
    AllLaterWithin(log, now - window, now);
  }

  ghost predicate AllUpTo(times: seq<real>, now: real) {
    forall i :: 0 <= i < |times| ==> times[i] <= now
  }

  lemma {:induction false} AdmissionsUpTo(arrivals: seq<real>, limit: int, window: real, now: real)
    requires AllUpTo(arrivals, now)
    ensures AllUpTo(Admissions(arrivals, limit, window), now)
  {
    if arrivals == [] {
    } else {
      AdmissionsUpTo(arrivals[..|arrivals| - 1], limit, window, now);
    }
  }

  lemma {:induction false} AllLaterWithin(times: seq<real>, lo: real, hi: real)
    requires AllUpTo(times, hi)
    ensures Within(times, lo, hi) == Later(times, lo)
  {
    if times == [] {
    } else {
      var n := |times| - 1;
      AllLaterWithin(times[..n], lo, hi);
    }
  }

  // ---- The pruned lists ----

  /** `[t for t in times if t > cutoff]`. */
  function Kept(times: seq<real>, cutoff: real): seq<real> {
    if times == [] then []
    else
      var n := |times| - 1;
      Kept(times[..n], cutoff) + (if times[n] > cutoff then [times[n]] else [])
  }

  lemma {:induction false} KeptLength(times: seq<real>, cutoff: real)
    ensures |Kept(times, cutoff)| == Later(times, cutoff)
  {
    if times == [] {
    } else {
      KeptLength(times[..|times| - 1], cutoff);
    }
  }

  lemma {:induction false} KeptTwice(times: seq<real>, a: real, b: real)
    requires a <= b
    ensures Kept(Kept(times, a), b) == Kept(times, b)
  {
    if times == [] {
    } else {
      var n := |times| - 1;
      KeptTwice(times[..n], a, b);
      assert Kept(times[..n], a) + [] == Kept(times[..n], a);
      assert Kept(times[..n], b) + [] == Kept(times[..n], b);
    }
  }

  /** Two lists that no later cutoff can tell apart. */
  ghost predicate Agree(pruned: seq<real>, full: seq<real>, from: real) {
    forall v :: v >= from ==> Kept(pruned, v) == Kept(full, v)
  }

  /** Pruning a list, or pruning and appending, keeps it equivalent to the full log. */
  lemma PruneAgrees(pruned: seq<real>, full: seq<real>, from: real, cutoff: real, now: real)
    requires Agree(pruned, full, from) && from <= cutoff
    ensures Agree(Kept(pruned, cutoff), full, cutoff)
    ensures Agree(Kept(pruned, cutoff) + [now], full + [now], cutoff)
    ensures |Kept(pruned, cutoff)| == Later(full, cutoff)
  {
    KeptLength(pruned, cutoff);
    KeptLength(full, cutoff);
    assert Kept(pruned, cutoff) == Kept(full, cutoff);
    forall v | v >= cutoff
      ensures Kept(Kept(pruned, cutoff), v) == Kept(full, v)
      ensures Kept(Kept(pruned, cutoff) + [now], v) == Kept(full + [now], v)
    {
      KeptTwice(pruned, cutoff, v);
      assert Kept(pruned, v) == Kept(full, v);
    }
  }

  function Listed(m: map<Client, seq<real>>, c: Client): seq<real> {
    if c in m then m[c] else []
  }

  /** No future request can tell the pruned lists from the full admission logs. */
  ghost predicate AllAgree(requests: map<Client, seq<real>>, arrivals: map<Client, seq<real>>,
                           limit: int, window: real, from: real) {
    forall c :: AgreesFor(requests, arrivals, limit, window, from, c)
  }

  ghost predicate AgreesFor(requests: map<Client, seq<real>>, arrivals: map<Client, seq<real>>,
                            limit: int, window: real, from: real, c: Client) {
    Agree(Listed(requests, c), Admissions(Listed(arrivals, c), limit, window), from)
  }

  lemma AllAgreeUpdate(requests: map<Client, seq<real>>, arrivals: map<Client, seq<real>>,
                       limit: int, window: real, from: real, later: real,
                       client: Client, kept: seq<real>, arrived: seq<real>)
    requires AllAgree(requests, arrivals, limit, window, from) && from <= later
    requires Agree(kept, Admissions(arrived, limit, window), later)
    ensures AllAgree(requests[client := kept], arrivals[client := arrived], limit, window, later)
  {
    var requests', arrivals' := requests[client := kept], arrivals[client := arrived];
    forall c
      ensures AgreesFor(requests', arrivals', limit, window, later, c)
    {
      if c != client {
        assert AgreesFor(requests, arrivals, limit, window, from, c);
      }
    }
  }

  class RateLimiter {
    const maxRequests: int
    const windowSeconds: int
    var requests: map<Client, seq<real>>
    // Every arrival of every client, and the latest clock reading.
    ghost var arrivals: map<Client, seq<real>>
    ghost var clock: real

    ghost function Log(c: Client): seq<real>
      reads this
    {
      Admissions(Listed(arrivals, c), maxRequests, windowSeconds as real)
    }

    ghost predicate Valid()
      reads this
    {
      AllAgree(requests, arrivals, maxRequests, windowSeconds as real, clock - windowSeconds as real)
    }

    constructor (maxRequests: int, windowSeconds: int, ghost now: real)
      ensures Valid() && this.maxRequests == maxRequests && this.windowSeconds == windowSeconds
      ensures arrivals == map[] && clock == now
    {
      this.maxRequests, this.windowSeconds := maxRequests, windowSeconds;
      requests, arrivals, clock := map[], map[], now;
    }

    /**
     Judges a request on the pruned list exactly as the reference judges it on the full log of the
     client's own admissions; exempt paths pass and leave no trace.
     */
    method Dispatch(path: string, client: Client, now: real) returns (admitted: bool)
      requires Valid() && now >= clock
      modifies this
      ensures Valid()
      ensures admitted <==>
        || path in {"/health", "/metrics", "/docs", "/openapi.json", "/favicon.ico"}
        || Admits(old(Log(client)), now, maxRequests, windowSeconds as real)
      ensures path in EXEMPT ==> requests == old(requests) && arrivals == old(arrivals) && clock == old(clock)
      ensures path !in EXEMPT ==>
        clock == now && arrivals == old(arrivals)[client := Listed(old(arrivals), client) + [now]]
      ensures path !in EXEMPT ==> Log(client) == old(Log(client)) + if admitted then [now] else []
      ensures forall c :: c != client ==> Log(c) == old(Log(c)) && Listed(requests, c) == Listed(old(requests), c)
    {
      if path in EXEMPT {
        return true;
      }
      ghost var arrived := Listed(arrivals, client) + [now];
      var timestamps;
      timestamps, admitted := Judge(client, now);
      AllAgreeUpdate(requests, arrivals, maxRequests, windowSeconds as real, clock - windowSeconds as real,
                     now - windowSeconds as real, client, timestamps, arrived);
      requests := requests[client := timestamps];
      arrivals := arrivals[client := arrived];
      clock := now;
    }

    /** The verdict, and the client's list pruned and, if admitted, extended. */
    method Judge(client: Client, now: real) returns (timestamps: seq<real>, admitted: bool)
      requires Valid() && now >= clock
      ensures admitted <==> Admits(Log(client), now, maxRequests, windowSeconds as real)
      ensures Admissions(Listed(arrivals, client) + [now], maxRequests, windowSeconds as real)
        == Log(client) + if admitted then [now] else []
      ensures Agree(timestamps, Log(client) + (if admitted then [now] else []), now - windowSeconds as real)
    {
      var cutoff := now - windowSeconds as real;
      assert AgreesFor(requests, arrivals, maxRequests, windowSeconds as real, clock - windowSeconds as real, client);
      PruneAgrees(Listed(requests, client), Log(client), clock - windowSeconds as real, cutoff, now);
      timestamps := Kept(Listed(requests, client), cutoff);
      assert Log(client) + [] == Log(client);
      if |timestamps| >= maxRequests {
        return timestamps, false;
      }
      timestamps := timestamps + [now];
      return timestamps, true;
    }

    /** `reset()`. */
    method Reset()
      requires Valid()
      modifies this
      ensures Valid() && requests == map[] && arrivals == map[] && clock == old(clock)
    {
      requests := map[];
      arrivals := map[];
    }
  }
}
