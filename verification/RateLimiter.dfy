/**
 * The fixed-window checkout limiter, with INCR and its EXPIRE as one step at a millisecond:
 * which calls of any history are let through, and how many fit in any stretch of time.
 */
module RateLimiter {
  import opened Numbers
  import opened Options

  /** A counter key and the instant it expires. */
  datatype Entry = Entry(count: nat, expiresAt: int)

  datatype Decision = Decision(allowed: bool, retryAfterSec: int, remaining: int)

  /** INCR on an absent or expired key starts at one. */
  function Count(entry: Option<Entry>, now: int): nat {
    if entry.Some? && now < entry.value.expiresAt then entry.value.count + 1 else 1
  }

  /** The key after INCR and, on the first hit, EXPIRE; a timeout that is not positive deletes the key. */
  function Hit(entry: Option<Entry>, now: int, windowMs: int): Option<Entry> {
    var count := Count(entry, now);
    if count > 1 then Some(entry.value.(count := count))
    else if windowMs > 0 then Some(Entry(1, now + windowMs))
    else None
  }

  class CheckoutRateLimiterService {
    var keys: map<string, Entry>

    ghost function At(key: string): Option<Entry>
      reads this
    {
      if key in keys then Some(keys[key]) else None
    }

    constructor ()
      ensures keys == map[]
    {
      keys := map[];
    }

    /** `ttl` is the reply to the TTL command asked when the call is refused. */
    method Check(key: string, limit: int, windowSeconds: int, now: int, ttl: int) returns (d: Decision)
      modifies this
      ensures At(key) == Hit(old(At(key)), now, windowSeconds * 1000)
      ensures forall other :: other != key ==> At(other) == old(At(other))
      ensures d.allowed <==> Count(old(At(key)), now) <= limit
      ensures d.allowed ==> d.remaining == limit - Count(old(At(key)), now) && d.retryAfterSec == 0
      ensures !d.allowed ==> d.remaining == 0 && (windowSeconds > 0 ==> d.retryAfterSec > 0)
    {
      var entry := if key in keys then Some(keys[key]) else None;
      var live := entry.Some? && now < entry.value.expiresAt;
      var count := if live then entry.value.count + 1 else 1;
      if count == 1 {
        if windowSeconds > 0 {
          keys := keys[key := Entry(1, now + windowSeconds * 1000)];
        } else {
          keys := keys - {key};
        }
      } else {
        keys := keys[key := Entry(count, entry.value.expiresAt)];
      }
      if count > limit {
        return Decision(false, if ttl > 0 then ttl else windowSeconds, 0);
      }
      return Decision(true, 0, Max(0, limit - count));
    }
  }

  // ----- Histories of one key -----

  ghost predicate Ordered(times: seq<int>) {
    forall i, j :: 0 <= i < j < |times| ==> times[i] <= times[j]
  }

  /** The key after a history of calls. */
  function After(times: seq<int>, w: int): Option<Entry> {
    if times == [] then None else Hit(After(times[..|times| - 1], w), times[|times| - 1], w)
  }

  predicate Allowed(times: seq<int>, w: int, limit: int, i: nat)
    requires i < |times|
  {
    Count(After(times[..i], w), times[i]) <= limit
  }

  /** Where the window of call i starts: at the call itself once the previous call's window is over. */
  function WindowStart(times: seq<int>, w: int, i: nat): int
    requires i < |times|
  {
    if i == 0 || times[i] >= WindowStart(times, w, i - 1) + w then times[i] else WindowStart(times, w, i - 1)
  }

  /** Calls at or after an instant. */
  function CallsSince(times: seq<int>, start: int): nat {
    if times == [] then 0
    else CallsSince(times[..|times| - 1], start) + if times[|times| - 1] >= start then 1 else 0
  }

  /** Calls let through in [a, b). */
  function AllowedIn(times: seq<int>, w: int, limit: int, a: int, b: int): nat {
    if times == [] then 0
    else
      var n := |times| - 1;
      AllowedIn(times[..n], w, limit, a, b) + if a <= times[n] < b && Allowed(times, w, limit, n) then 1 else 0
  }

  lemma {:induction false} NoCallsSince(times: seq<int>, start: int)
    requires forall i :: 0 <= i < |times| ==> times[i] < start
    ensures CallsSince(times, start) == 0
  {
    if times != [] {
      assert forall i :: 0 <= i < |times| - 1 ==> times[..|times| - 1][i] == times[i];
      NoCallsSince(times[..|times| - 1], start);
    }
  }

  lemma {:induction false} StartIsPast(times: seq<int>, w: int, i: nat)
    requires Ordered(times) && w > 0 && i < |times|
    ensures WindowStart(times, w, i) <= times[i] < WindowStart(times, w, i) + w
  {
    if i > 0 { StartIsPast(times, w, i - 1); }
  }

  /** The stored counter is the number of calls since the window's start. */
  lemma {:induction false} CounterCountsTheWindow(times: seq<int>, w: int, i: nat)
    requires Ordered(times) && w > 0 && i < |times|
    ensures After(times[..i + 1], w)
            == Some(Entry(CallsSince(times[..i + 1], WindowStart(times, w, i)), WindowStart(times, w, i) + w))
    ensures CallsSince(times[..i + 1], WindowStart(times, w, i)) == Count(After(times[..i], w), times[i])
  {
    assert times[..i + 1][..i] == times[..i];
    var start := WindowStart(times, w, i);
    StartIsPast(times, w, i);
    if i == 0 {
      assert times[..0] == [];
    } else {
      CounterCountsTheWindow(times, w, i - 1);
      StartIsPast(times, w, i - 1);
      if start == times[i] && times[i] >= WindowStart(times, w, i - 1) + w {
        NoCallsSince(times[..i], start);
      }
      assert CallsSince(times[..i + 1], start) == CallsSince(times[..i], start) + 1;
    }
  }

  /** A call is let through exactly when it is among the first `limit` calls of its window. */
  lemma FirstOfEachWindow(times: seq<int>, w: int, limit: int, i: nat)
    requires Ordered(times) && w > 0 && i < |times|
    ensures Allowed(times, w, limit, i) <==> CallsSince(times[..i + 1], WindowStart(times, w, i)) <= limit
    ensures WindowStart(times, w, i) <= times[i] < WindowStart(times, w, i) + w
  {
    CounterCountsTheWindow(times, w, i);
    StartIsPast(times, w, i);
  }

  lemma {:induction false} NoneBefore(times: seq<int>, w: int, limit: int, a: int, b: int)
    requires forall i :: 0 <= i < |times| ==> times[i] < a
    ensures AllowedIn(times, w, limit, a, b) == 0
  {
    if times != [] {
      assert forall i :: 0 <= i < |times| - 1 ==> times[..|times| - 1][i] == times[i];
      NoneBefore(times[..|times| - 1], w, limit, a, b);
    }
  }

  /** What the key tells about an interval, while no call lies beyond it. */
  ghost predicate IntervalOk(times: seq<int>, w: int, limit: int, a: int) {
    var sofar := AllowedIn(times, w, limit, a, a + w);
    match After(times, w)
    case None => times == []
    case Some(e) =>
      times != [] && e.count >= 1 && e.expiresAt - w <= times[|times| - 1] &&
      if e.expiresAt - w < a then sofar <= Max(0, Min(e.count, limit) - 1)
      else sofar <= Max(0, limit - 1) + Max(0, Min(e.count, limit))
  }

  lemma {:induction false} IntervalHolds(times: seq<int>, w: int, limit: int, a: int)
    requires Ordered(times) && w > 0 && forall i :: 0 <= i < |times| ==> times[i] < a + w
    ensures IntervalOk(times, w, limit, a)
  {
    if times != [] {
      var n := |times| - 1;
      IntervalHolds(times[..n], w, limit, a);
      if times[n] < a {
        NoneBefore(times[..n], w, limit, a, a + w);
      }
    }
  }

  /** Any interval as long as the window sees at most 2 * limit - 1 calls let through, wherever it starts. */
  lemma {:induction false} AtMostTwiceTheLimit(times: seq<int>, w: int, limit: int, a: int)
    requires Ordered(times) && w > 0
    ensures AllowedIn(times, w, limit, a, a + w) <= Max(0, 2 * limit - 1)
  {
    if times != [] {
      var n := |times| - 1;
      if times[n] >= a + w {
        AtMostTwiceTheLimit(times[..n], w, limit, a);
      } else {
        IntervalHolds(times, w, limit, a);
      }
    }
  }

  // ----- The bound is reached -----

  function Repeat(t: int, n: nat): seq<int> {
    seq(n, i => t)
  }

  /** Calls at one instant inside a live window: each counts one more, and those up to the limit pass. */
  lemma {:induction false} BurstInWindow(before: seq<int>, t: int, n: nat, w: int, limit: int, a: int, b: int, e: Entry)
    requires After(before, w) == Some(e) && e.count >= 1 && t < e.expiresAt && a <= t < b && e.count + n <= limit
    ensures After(before + Repeat(t, n), w) == Some(e.(count := e.count + n))
    ensures AllowedIn(before + Repeat(t, n), w, limit, a, b) == AllowedIn(before, w, limit, a, b) + n
  {
    var all := before + Repeat(t, n);
    if n == 0 {
      assert all == before;
    } else {
      assert all[..|all| - 1] == before + Repeat(t, n - 1);
      BurstInWindow(before, t, n - 1, w, limit, a, b, e);
    }
  }

  lemma OneCall(before: seq<int>, t: int, w: int, limit: int, a: int, b: int)
    requires w > 0 && limit >= 1 && (After(before, w).Some? ==> After(before, w).value.expiresAt <= t)
    ensures After(before + [t], w) == Some(Entry(1, t + w))
    ensures AllowedIn(before + [t], w, limit, a, b) == AllowedIn(before, w, limit, a, b) + if a <= t < b then 1 else 0
  {
    assert (before + [t])[..|before|] == before;
  }

  /** A call at t, then calls at u up to the limit. */
  function Filled(before: seq<int>, t: int, u: int, limit: int): seq<int>
    requires limit >= 1
  {
    before + [t] + Repeat(u, limit - 1)
  }

  /** One call, a burst just before its window ends and another just after. */
  function Burst(limit: int, w: int): seq<int>
    requires limit >= 1
  {
    Filled(Filled([], 0, w - 1, limit), w, w, limit)
  }

  lemma TheBoundIsReached(limit: int, w: int)
    requires limit >= 1 && w > 1
    ensures Ordered(Burst(limit, w))
    ensures AllowedIn(Burst(limit, w), w, limit, w - 1, w - 1 + w) == 2 * limit - 1
  {
    BurstIsOrdered(limit, w);
    BurstIsCounted(limit, w);
  }

  lemma BurstIsOrdered(limit: int, w: int)
    requires limit >= 1 && w > 1
    ensures Ordered(Burst(limit, w))
  {
    var times := Burst(limit, w);
    forall i | 0 <= i < |times| ensures times[i] == if i == 0 then 0 else if i < limit then w - 1 else w {
    }
  }

  /** A window opened at t and filled by calls at u in the interval: all but the opening call count if it came before. */
  lemma FilledWindow(before: seq<int>, t: int, u: int, w: int, limit: int, a: int, b: int)
    requires limit >= 1 && t <= u < t + w && a <= u < b
    requires After(before, w).Some? ==> After(before, w).value.expiresAt <= t
    ensures var all := Filled(before, t, u, limit);
            After(all, w) == Some(Entry(limit, t + w))
            && AllowedIn(all, w, limit, a, b) == AllowedIn(before, w, limit, a, b) + limit - if a <= t < b then 0 else 1
  {
    var upto := before + [t];
    OneCall(before, t, w, limit, a, b);
    BurstInWindow(upto, u, limit - 1, w, limit, a, b, Entry(1, t + w));
  }

  lemma BurstIsCounted(limit: int, w: int)
    requires limit >= 1 && w > 1
    ensures AllowedIn(Burst(limit, w), w, limit, w - 1, w - 1 + w) == 2 * limit - 1
  {
    var a, b := w - 1, w - 1 + w;
    FilledWindow([], 0, w - 1, w, limit, a, b);
    FilledWindow(Filled([], 0, w - 1, limit), w, w, w, limit, a, b);
  }

  /** A window that is not positive never limits: every call is the first of its own. */
  lemma {:induction false} EmptyWindowsNeverLimit(times: seq<int>, w: int, limit: int, i: nat)
    requires w <= 0 && i < |times|
    ensures Allowed(times, w, limit, i) <==> limit >= 1
  {
    NoKeyIsKept(times[..i], w);
  }

  lemma {:induction false} NoKeyIsKept(times: seq<int>, w: int)
    requires w <= 0
    ensures After(times, w) == None
  {
    if times != [] { NoKeyIsKept(times[..|times| - 1], w); }
  }
}
