/** hitRateLimit in api/analyze.js: a sliding-window limiter keeping, per
    client address, the times (in ms) of its recent admitted requests. The
    clock and the two settings are parameters of each call. */
module RateLimit {

  /** `rateBuckets.get(ip) || []` */
  function Bucket(buckets: map<string, seq<int>>, ip: string): seq<int> {
    if ip in buckets then buckets[ip] else []
  }

  /** `existing.filter((ts) => now - ts < window)` */
  function Recent(stamps: seq<int>, now: int, window: int): (r: seq<int>)
    ensures |r| <= |stamps|
  {
    if stamps == [] then []
    else (if now - stamps[0] < window then [stamps[0]] else []) + Recent(stamps[1..], now, window)
  }

  /** The filter keeps exactly the stamps inside the window, in order. */
  lemma {:induction false} RecentKeeps(stamps: seq<int>, now: int, window: int)
    ensures forall i :: 0 <= i < |Recent(stamps, now, window)| ==> now - Recent(stamps, now, window)[i] < window
    ensures forall t :: t in Recent(stamps, now, window) <==> t in stamps && now - t < window
    ensures (forall i :: 0 <= i < |stamps| ==> now - stamps[i] < window) ==> Recent(stamps, now, window) == stamps
  {
    if stamps != [] {
      RecentKeeps(stamps[1..], now, window);
      assert stamps == [stamps[0]] + stamps[1..];
      if forall i :: 0 <= i < |stamps| ==> now - stamps[i] < window {
        assert forall i :: 0 <= i < |stamps[1..]| ==> stamps[1..][i] == stamps[i + 1];
      }
    }
  }

  /** The verdict of one call and the map it leaves behind. */
  datatype Hit = Hit(limited: bool, buckets: map<string, seq<int>>)

  /** What one call of hitRateLimit decides and stores. */
  function HitStep(buckets: map<string, seq<int>>, ip: string, now: int, window: int, maxRequests: int): (h: Hit)
    ensures ip in h.buckets
  {
    var recent := Recent(Bucket(buckets, ip), now, window);
    if |recent| >= maxRequests then Hit(true, buckets[ip := recent])
    else Hit(false, buckets[ip := recent + [now]])
  }

  /** Every bucket holds at most `maxRequests` stamps. */
  predicate Bounded(buckets: map<string, seq<int>>, maxRequests: int) {
    forall ip :: ip in buckets ==> |buckets[ip]| <= maxRequests
  }

  class RateLimiter {
    /** `rateBuckets`, kept across requests. */
    var buckets: map<string, seq<int>>

    constructor()
      ensures buckets == map[]
    {
      buckets := map[];
    }

    /** hitRateLimit(ip) at time `now`: true when the request is refused. */
    method HitRateLimit(ip: string, now: int, window: int, maxRequests: int) returns (limited: bool)
      modifies this
      ensures Hit(limited, buckets) == HitStep(old(buckets), ip, now, window, maxRequests)
    {
      var existing := if ip in buckets then buckets[ip] else [];
      var recent := Recent(existing, now, window);
      if |recent| >= maxRequests {
        buckets := buckets[ip := recent];
        return true;
      }
      recent := recent + [now];
      buckets := buckets[ip := recent];
      return false;
    }
  }

  // ---------------------------------------------------------------------------
  // Properties

  /** A request is refused exactly when the address already has
      `maxRequests` or more stamps inside the window. */
  lemma {:induction false} RefusedIff(buckets: map<string, seq<int>>, ip: string, now: int, window: int, maxRequests: int)
    ensures HitStep(buckets, ip, now, window, maxRequests).limited
        <==> |Recent(Bucket(buckets, ip), now, window)| >= maxRequests
  {}

  /** A refused call stores the stamps still in the window and adds none;
      an admitted one adds exactly `now` after them. */
  lemma {:induction false} StoredBucket(buckets: map<string, seq<int>>, ip: string, now: int, window: int, maxRequests: int)
    ensures var h := HitStep(buckets, ip, now, window, maxRequests);
      var recent := Recent(Bucket(buckets, ip), now, window);
      (h.limited ==> h.buckets[ip] == recent) && (!h.limited ==> h.buckets[ip] == recent + [now])
  {}

  /** After a call the address's bucket holds only stamps inside the window
      (the new stamp `now` is inside it when the window is positive). */
  lemma {:induction false} StoredInWindow(buckets: map<string, seq<int>>, ip: string, now: int, window: int, maxRequests: int)
    requires window > 0
    ensures var b := HitStep(buckets, ip, now, window, maxRequests).buckets[ip];
      forall i :: 0 <= i < |b| ==> now - b[i] < window
  {
    RecentKeeps(Bucket(buckets, ip), now, window);
  }

  /** No other address's bucket changes, and no address is dropped. */
  lemma {:induction false} OthersUnchanged(buckets: map<string, seq<int>>, ip: string, now: int, window: int, maxRequests: int, other: string)
    requires other != ip
    ensures var h := HitStep(buckets, ip, now, window, maxRequests);
      h.buckets.Keys == buckets.Keys + {ip} && Bucket(h.buckets, other) == Bucket(buckets, other)
  {}

  /** With a fixed maximum of zero or more, no bucket ever grows beyond it. */
  lemma {:induction false} BoundedKept(buckets: map<string, seq<int>>, ip: string, now: int, window: int, maxRequests: int)
    requires maxRequests >= 0 && Bounded(buckets, maxRequests)
    ensures Bounded(HitStep(buckets, ip, now, window, maxRequests).buckets, maxRequests)
  {
    var h := HitStep(buckets, ip, now, window, maxRequests);
    assert |Bucket(buckets, ip)| <= maxRequests;
    forall k | k in h.buckets ensures |h.buckets[k]| <= maxRequests {
      if k != ip {
        assert h.buckets[k] == buckets[k];
      }
    }
  }

  /** A refused address that retries at the same instant is refused
      again: refusing keeps every stamp that counted against it. */
  lemma {:induction false} RefusedStaysRefused(buckets: map<string, seq<int>>, ip: string, now: int, window: int, maxRequests: int)
    requires HitStep(buckets, ip, now, window, maxRequests).limited
    ensures HitStep(HitStep(buckets, ip, now, window, maxRequests).buckets, ip, now, window, maxRequests).limited
  {
    var recent := Recent(Bucket(buckets, ip), now, window);
    RecentKeeps(recent, now, window);
    RecentKeeps(Bucket(buckets, ip), now, window);
  }
}
