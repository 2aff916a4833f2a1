/**
 * Sliding-window rate limiting (rate_limiter.py): three independent per-user lists of
 * attempt times (PIN, 2FA, general requests). Every check drops the times that left the
 * window, then either refuses with the time until the oldest one leaves, or records `now`.
 * Time is an integer number of seconds passed in by the caller.
 */
module RateLimiting {

  /** The answer of a check: allowed with the attempts still left, or refused with the
      seconds until the next attempt can be made. */
  datatype Verdict = Allowed(remaining: int) | Denied(wait: int)

  /** The attempts still inside the window at `now` (`now - t < window`), in order, each
      kept as often as it was recorded. */
  function Prune(ts: seq<int>, now: int, window: int): (r: seq<int>)
    ensures |r| <= |ts|
    ensures forall t :: t in r <==> t in ts && now - t < window
    ensures forall t :: multiset(r)[t] == (if now - t < window then multiset(ts)[t] else 0)
  {
    if ts == [] then []
    else
      assert ts == [ts[0]] + ts[1..];
      if now - ts[0] < window then [ts[0]] + Prune(ts[1..], now, window)
      else Prune(ts[1..], now, window)
  }

  /** `min(ts)`. */
  function Oldest(ts: seq<int>): (r: int)
    requires ts != []
    ensures r in ts
    ensures forall t :: t in ts ==> r <= t
  {
    if |ts| == 1 then ts[0]
    else
      var m := Oldest(ts[1..]);
      assert forall t :: t in ts ==> t == ts[0] || t in ts[1..];
      if ts[0] <= m then ts[0] else m
  }

  /** A check on the attempts `ts` of one user: the verdict and the list it leaves. */
  function Check(ts: seq<int>, now: int, window: int, limit: int): (r: (Verdict, seq<int>))
    requires limit >= 1
    ensures r.0.Allowed? <==> |Prune(ts, now, window)| < limit
    ensures forall t :: t in r.1 ==> t == now || (t in ts && now - t < window)
  {
    var live := Prune(ts, now, window);
    if |live| >= limit then (Denied(window - (now - Oldest(live))), live)
    else (Allowed(limit - |live| - 1), live + [now])
  }

  /** After a check every stored attempt is inside the window. */
  lemma CheckKeepsWindow(ts: seq<int>, now: int, window: int, limit: int)
    requires limit >= 1 && window >= 1
    ensures forall t :: t in Check(ts, now, window, limit).1 ==> now - t < window
  {
  }

  /** An allowed check records exactly `now` and reports how many attempts are left after
      it; a refused one records nothing, and its wait is at least one second and, when no
      recorded attempt lies in the future, at most the window. */
  lemma CheckOutcome(ts: seq<int>, now: int, window: int, limit: int)
    requires limit >= 1
    ensures var (v, r) := Check(ts, now, window, limit);
      && (v.Allowed? ==> r == Prune(ts, now, window) + [now] && v.remaining == limit - |r| && |r| <= limit)
      && (v.Denied? ==> r == Prune(ts, now, window) && |r| >= limit && 1 <= v.wait)
      && (v.Denied? && (forall t :: t in ts ==> t <= now) ==> v.wait <= window)
  {
    var live := Prune(ts, now, window);
    if |live| >= limit {
      var oldest := Oldest(live);
      assert now - oldest < window;
      assert oldest in ts;
    }
  }

  /** With a fixed limit no list ever grows beyond it. */
  lemma CheckBound(ts: seq<int>, now: int, window: int, limit: int)
    requires limit >= 1 && |ts| <= limit
    ensures |Check(ts, now, window, limit).1| <= limit
  {
  }

  /** The list after `n` checks in a row at the same moment, starting from none. */
  function Burst(n: nat, now: int, window: int, limit: int): seq<int>
    requires limit >= 1
  {
    if n == 0 then [] else Check(Burst(n - 1, now, window, limit), now, window, limit).1
  }

  /** At a fixed moment the first `limit` checks each record one attempt at that moment. */
  lemma {:induction false} BurstRecords(n: nat, now: int, window: int, limit: int)
    requires limit >= 1 && window >= 1 && n <= limit
    ensures Burst(n, now, window, limit) == seq(n, _ => now)
  {
    if n > 0 {
      BurstRecords(n - 1, now, window, limit);
      var prev := Burst(n - 1, now, window, limit);
      PruneAllLive(prev, now, window);
      assert Burst(n, now, window, limit) == prev + [now];
      assert prev + [now] == seq(n, _ => now);
    }
  }

  /** At a fixed moment the first `limit` checks are allowed, each recording one attempt. */
  lemma BurstAllowed(n: nat, now: int, window: int, limit: int)
    requires limit >= 1 && window >= 1 && n <= limit
    ensures Burst(n, now, window, limit) == seq(n, _ => now)
    ensures n < limit ==> Check(Burst(n, now, window, limit), now, window, limit).0 == Allowed(limit - n - 1)
  {
    BurstRecords(n, now, window, limit);
    PruneAllLive(Burst(n, now, window, limit), now, window);
  }

  /** ... and the next one is refused for the whole window. */
  lemma BurstThenDenied(now: int, window: int, limit: int)
    requires limit >= 1 && window >= 1
    ensures Check(Burst(limit, now, window, limit), now, window, limit).0 == Denied(window)
  {
    BurstAllowed(limit, now, window, limit);
    var b := Burst(limit, now, window, limit);
    PruneAllLive(b, now, window);
    assert b[0] == now;
  }

  /** Once the window has fully elapsed for every recorded attempt, a check is allowed again. */
  lemma AllowedAfterWindow(ts: seq<int>, now: int, window: int, limit: int)
    requires limit >= 1
    requires forall t :: t in ts ==> now - t >= window
    ensures Check(ts, now, window, limit).0 == Allowed(limit - 1)
  {
    PruneNoneLive(ts, now, window);
  }

  lemma {:induction false} PruneAllLive(ts: seq<int>, now: int, window: int)
    requires forall t :: t in ts ==> now - t < window
    ensures Prune(ts, now, window) == ts
  {
    if ts != [] {
      assert ts[0] in ts;
      assert forall t :: t in ts[1..] ==> t in ts;
      PruneAllLive(ts[1..], now, window);
      assert ts == [ts[0]] + ts[1..];
    }
  }

  lemma {:induction false} PruneNoneLive(ts: seq<int>, now: int, window: int)
    requires forall t :: t in ts ==> now - t >= window
    ensures Prune(ts, now, window) == []
  {
    if ts != [] {
      assert ts[0] in ts;
      assert forall t :: t in ts[1..] ==> t in ts;
      PruneNoneLive(ts[1..], now, window);
    }
  }

  /** The list a `defaultdict(list)` hands out for `u`. */
  function Attempts(m: map<int, seq<int>>, u: int): seq<int> {
    if u in m then m[u] else []
  }

  /** Every list in `m` is at most `limit` long. */
  ghost predicate Bounded(m: map<int, seq<int>>, limit: int) {
    forall u :: u in m ==> |m[u]| <= limit
  }

  class RateLimiter {
    var pinAttempts: map<int, seq<int>>
    var twofaAttempts: map<int, seq<int>>
    var requestCounts: map<int, seq<int>>

    const maxPinAttempts: int
    const maxTwofaAttempts: int
    const maxRequestsPerMinute: int
    const pinLockoutDuration: int
    const twofaLockoutDuration: int
    /** The general-request window, fixed at 60 seconds. */
    const requestWindow: int

    /** Positive limits and windows (a zero limit would make `min([])` fail), and no list
        longer than its limit. */
    ghost predicate Valid()
      reads this
    {
      && maxPinAttempts >= 1 && maxTwofaAttempts >= 1 && maxRequestsPerMinute >= 1
      && pinLockoutDuration >= 1 && twofaLockoutDuration >= 1 && requestWindow == 60
      && Bounded(pinAttempts, maxPinAttempts)
      && Bounded(twofaAttempts, maxTwofaAttempts)
      && Bounded(requestCounts, maxRequestsPerMinute)
    }

    constructor (maxPin: int := 5, maxTwofa: int := 3, maxRequests: int := 10,
                 pinLockout: int := 300, twofaLockout: int := 180)
      requires maxPin >= 1 && maxTwofa >= 1 && maxRequests >= 1 && pinLockout >= 1 && twofaLockout >= 1
      ensures Valid()
      ensures pinAttempts == map[] && twofaAttempts == map[] && requestCounts == map[]
      ensures maxPinAttempts == maxPin && maxTwofaAttempts == maxTwofa && maxRequestsPerMinute == maxRequests
      ensures pinLockoutDuration == pinLockout && twofaLockoutDuration == twofaLockout
    {
      pinAttempts := map[];
      twofaAttempts := map[];
      requestCounts := map[];
      maxPinAttempts := maxPin;
      maxTwofaAttempts := maxTwofa;
      maxRequestsPerMinute := maxRequests;
      pinLockoutDuration := pinLockout;
      twofaLockoutDuration := twofaLockout;
      requestWindow := 60;
    }

    /** `check_pin_rate_limit`; the other categories are untouched. */
    method CheckPinRateLimit(u: int, now: int) returns (v: Verdict)
      requires Valid()
      modifies this
      ensures Valid()
      ensures u in pinAttempts
      ensures (v, pinAttempts[u]) == Check(Attempts(old(pinAttempts), u), now, pinLockoutDuration, maxPinAttempts)
      ensures pinAttempts == old(pinAttempts)[u := pinAttempts[u]]
      ensures twofaAttempts == old(twofaAttempts) && requestCounts == old(requestCounts)
    {
      var live := Prune(Attempts(pinAttempts, u), now, pinLockoutDuration);
      if |live| >= maxPinAttempts {
        pinAttempts := pinAttempts[u := live];
        return Denied(pinLockoutDuration - (now - Oldest(live)));
      }
      pinAttempts := pinAttempts[u := live + [now]];
      v := Allowed(maxPinAttempts - |pinAttempts[u]|);
    }

    /** `check_twofa_rate_limit`; the other categories are untouched. */
    method CheckTwofaRateLimit(u: int, now: int) returns (v: Verdict)
      requires Valid()
      modifies this
      ensures Valid()
      ensures u in twofaAttempts
      ensures (v, twofaAttempts[u]) == Check(Attempts(old(twofaAttempts), u), now, twofaLockoutDuration, maxTwofaAttempts)
      ensures twofaAttempts == old(twofaAttempts)[u := twofaAttempts[u]]
      ensures pinAttempts == old(pinAttempts) && requestCounts == old(requestCounts)
    {
      var live := Prune(Attempts(twofaAttempts, u), now, twofaLockoutDuration);
      if |live| >= maxTwofaAttempts {
        twofaAttempts := twofaAttempts[u := live];
        return Denied(twofaLockoutDuration - (now - Oldest(live)));
      }
      twofaAttempts := twofaAttempts[u := live + [now]];
      v := Allowed(maxTwofaAttempts - |twofaAttempts[u]|);
    }

    /** `check_request_rate_limit`; the other categories are untouched. */
    method CheckRequestRateLimit(u: int, now: int) returns (v: Verdict)
      requires Valid()
      modifies this
      ensures Valid()
      ensures u in requestCounts
      ensures (v, requestCounts[u]) == Check(Attempts(old(requestCounts), u), now, requestWindow, maxRequestsPerMinute)
      ensures requestCounts == old(requestCounts)[u := requestCounts[u]]
      ensures pinAttempts == old(pinAttempts) && twofaAttempts == old(twofaAttempts)
    {
      var live := Prune(Attempts(requestCounts, u), now, requestWindow);
      if |live| >= maxRequestsPerMinute {
        requestCounts := requestCounts[u := live];
        return Denied(requestWindow - (now - Oldest(live)));
      }
      requestCounts := requestCounts[u := live + [now]];
      v := Allowed(maxRequestsPerMinute - |requestCounts[u]|);
    }

    /** `reset_pin_attempts`: forgets `u`'s PIN attempts only (nothing for an unknown user). */
    method ResetPinAttempts(u: int)
      requires Valid()
      modifies this
      ensures Valid()
      ensures pinAttempts == old(pinAttempts) - {u}
      ensures twofaAttempts == old(twofaAttempts) && requestCounts == old(requestCounts)
    {
      if u in pinAttempts {
        pinAttempts := pinAttempts - {u};
      }
    }

    /** `reset_twofa_attempts`: forgets `u`'s 2FA attempts only. */
    method ResetTwofaAttempts(u: int)
      requires Valid()
      modifies this
      ensures Valid()
      ensures twofaAttempts == old(twofaAttempts) - {u}
      ensures pinAttempts == old(pinAttempts) && requestCounts == old(requestCounts)
    {
      if u in twofaAttempts {
        twofaAttempts := twofaAttempts - {u};
      }
    }

    /** `get_pin_attempts_remaining`: prunes in place but never records an attempt. */
    method GetPinAttemptsRemaining(u: int, now: int) returns (n: int)
      requires Valid()
      modifies this
      ensures Valid()
      ensures pinAttempts == old(pinAttempts)[u := Prune(Attempts(old(pinAttempts), u), now, pinLockoutDuration)]
      ensures n == maxPinAttempts - |pinAttempts[u]| && 0 <= n <= maxPinAttempts
      ensures twofaAttempts == old(twofaAttempts) && requestCounts == old(requestCounts)
    {
      var live := Prune(Attempts(pinAttempts, u), now, pinLockoutDuration);
      pinAttempts := pinAttempts[u := live];
      n := if maxPinAttempts - |live| > 0 then maxPinAttempts - |live| else 0;
    }

    /** `get_twofa_attempts_remaining`: prunes in place but never records an attempt. */
    method GetTwofaAttemptsRemaining(u: int, now: int) returns (n: int)
      requires Valid()
      modifies this
      ensures Valid()
      ensures twofaAttempts == old(twofaAttempts)[u := Prune(Attempts(old(twofaAttempts), u), now, twofaLockoutDuration)]
      ensures n == maxTwofaAttempts - |twofaAttempts[u]| && 0 <= n <= maxTwofaAttempts
      ensures pinAttempts == old(pinAttempts) && requestCounts == old(requestCounts)
    {
      var live := Prune(Attempts(twofaAttempts, u), now, twofaLockoutDuration);
      twofaAttempts := twofaAttempts[u := live];
      n := if maxTwofaAttempts - |live| > 0 then maxTwofaAttempts - |live| else 0;
    }
  }
}
