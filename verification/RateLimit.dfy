/** The sliding-window limiter of the HTTP interface. */
module RateLimit {
  import opened Nostr

  /** Instants and durations are in nanoseconds. */
  const SECOND: nat := 1_000_000_000
  const RATE_WINDOW: nat := 60 * SECOND

  datatype QuotaKind = Bootstrap | Messages | Invites

  function Since(now: nat, t: nat): nat {
    if now >= t then now - t else 0
  }

  function Max(a: nat, b: nat): nat {
    if a < b then b else a
  }

  // ----- One bucket --------------------------------------------------------------

  /** Forget what has left the window, from the front. */
  function Pop(bucket: seq<nat>, now: nat): (r: seq<nat>)
    ensures |r| <= |bucket| && r == bucket[|bucket| - |r|..]
    ensures forall i :: 0 <= i < |bucket| - |r| ==> Since(now, bucket[i]) > RATE_WINDOW
    ensures r != [] ==> Since(now, r[0]) <= RATE_WINDOW
  {
    if bucket != [] && Since(now, bucket[0]) > RATE_WINDOW then Pop(bucket[1..], now) else bucket
  }

  lemma PopOne(bucket: seq<nat>, now: nat)
    requires bucket != [] && Since(now, bucket[0]) > RATE_WINDOW
    ensures Pop(bucket, now) == Pop(bucket[1..], now)
  {
  }

  lemma PopNone(bucket: seq<nat>, now: nat)
    requires bucket == [] || Since(now, bucket[0]) <= RATE_WINDOW
    ensures Pop(bucket, now) == bucket
  {
  }

  /** Whole seconds, at least one. */
  function RetryAfter(front: nat, now: nat): nat {
    Max((if Since(now, front) < RATE_WINDOW then RATE_WINDOW - Since(now, front) else 0) / SECOND, 1)
  }

  /** The bucket after a call, and how long to wait when it was refused. */
  function CheckBucket(bucket: seq<nat>, now: nat, quota: nat): (seq<nat>, Option<nat>)
    requires quota > 0
  {
    var kept := Pop(bucket, now);
    if |kept| >= quota then (kept, Some(RetryAfter(kept[0], now))) else (kept + [now], None)
  }

  function BucketOf(requests: map<(string, QuotaKind), seq<nat>>, key: (string, QuotaKind)): seq<nat> {
    if key in requests then requests[key] else []
  }

  class ObeliskHttpLimiter {
    var requests: map<(string, QuotaKind), seq<nat>>

    constructor ()
      ensures requests == map[]
    {
      requests := map[];
    }

    method Check(pubkey: string, kind: QuotaKind, perMinute: U32, now: nat) returns (retryAfter: Option<nat>)
      modifies this
      ensures perMinute == 0 ==> retryAfter == None && requests == old(requests)
      ensures perMinute > 0 ==>
        var key := (pubkey, kind);
        var (bucket, refused) := CheckBucket(BucketOf(old(requests), key), now, perMinute);
        retryAfter == refused && requests == old(requests)[key := bucket]
    {
      hide *;
      if perMinute == 0 { return None; }
      var key := (pubkey, kind);
      var bucket := BucketOf(requests, key);
      ghost var before := bucket;
      while bucket != [] && Since(now, bucket[0]) > RATE_WINDOW
        invariant Pop(bucket, now) == Pop(before, now) && requests == old(requests)
        decreases |bucket|
      {
        PopOne(bucket, now);
        bucket := bucket[1..];
      }
      PopNone(bucket, now);
      CheckIs(before, now, perMinute);
      assert Pop(before, now) == bucket;
      if |bucket| >= perMinute {
        assert CheckBucket(before, now, perMinute) == (bucket, Some(RetryAfter(bucket[0], now)));
        requests := requests[key := bucket];
        return Some(RetryAfter(bucket[0], now));
      }
      assert CheckBucket(before, now, perMinute) == (bucket + [now], None);
      requests := requests[key := bucket + [now]];
      retryAfter := None;
    }
  }

  // ----- Runs of one bucket -------------------------------------------------------

  datatype Run = Run(bucket: seq<nat>, grants: seq<nat>)

  /** The bucket and all grants so far, after calls at these times. */
  function After(times: seq<nat>, quota: nat): Run
    requires quota > 0
  {
    if times == [] then Run([], [])
    else
      Record(After(times[..|times| - 1], quota), times[|times| - 1], quota)
  }

  predicate IsMonotone(times: seq<nat>) {
    forall i, j :: 0 <= i < j < |times| ==> times[i] <= times[j]
  }

  /** How many grants lie in the last sixty seconds. */
  function InWindow(grants: seq<nat>, now: nat): nat {
    if grants == [] then 0
    else InWindow(grants[..|grants| - 1], now) + if now <= grants[|grants| - 1] + 60_000_000_000 then 1 else 0
  }

  /** The bucket is the recent end of the grants, everything before it is out of the
      window, and nothing is later than `now`. */
  predicate Tracks(r: Run, now: nat, quota: nat) {
    && |r.bucket| <= quota && |r.bucket| <= |r.grants|
    && r.bucket == r.grants[|r.grants| - |r.bucket|..]
    && IsMonotone(r.grants) && (forall i :: 0 <= i < |r.grants| ==> r.grants[i] <= now)
    && (forall i :: 0 <= i < |r.grants| - |r.bucket| ==> now - r.grants[i] > RATE_WINDOW)
    && IsSpread(r.grants, quota)
  }

  /** Grants that are the quota apart in number are more than the window apart in time. */
  predicate IsSpread(grants: seq<nat>, quota: nat) {
    forall i, j :: 0 <= i < j < |grants| && j - i >= quota ==> grants[j] - grants[i] > RATE_WINDOW
  }

  lemma {:induction false} AfterTracks(times: seq<nat>, quota: nat, now: nat)
    requires quota > 0 && IsMonotone(times) && (times != [] ==> times[|times| - 1] <= now)
    ensures Tracks(After(times, quota), now, quota)
  {
    if times != [] {
      var n := |times| - 1;
      var t := times[n];
      AfterTracks(times[..n], quota, t);
      CheckTracks(After(times[..n], quota), t, quota);
      TracksLater(After(times, quota), t, now, quota);
    }
  }

  lemma TracksLater(r: Run, t: nat, now: nat, quota: nat)
    requires Tracks(r, t, quota) && t <= now
    ensures Tracks(r, now, quota)
  {
  }

  lemma SuffixOf<X>(s: seq<X>, d: nat, k: nat)
    requires d + k <= |s|
    ensures s[d..][k..] == s[d + k..]
  {
  }

  lemma PopTracks(r: Run, now: nat, quota: nat)
    requires Tracks(r, now, quota)
    ensures Tracks(r.(bucket := Pop(r.bucket, now)), now, quota)
  {
    hide IsSpread, IsMonotone, Pop;
    var kept := Pop(r.bucket, now);
    var d, k := |r.grants| - |r.bucket|, |r.bucket| - |kept|;
    SuffixOf(r.grants, d, k);
    assert d + k == |r.grants| - |kept|;
    forall i | d <= i < d + k ensures now - r.grants[i] > RATE_WINDOW {
      assert r.grants[i] == r.bucket[i - d];
    }
  }

  lemma FrontIsGranted(r: Run, now: nat, quota: nat)
    requires Tracks(r, now, quota)
    ensures |r.bucket| <= quota && (r.bucket != [] ==> r.bucket[0] <= now)
  {
    hide IsSpread, IsMonotone;
    if r.bucket != [] { assert r.bucket[0] == r.grants[|r.grants| - |r.bucket|]; }
  }

  lemma GrantTracks(r: Run, now: nat, quota: nat)
    requires Tracks(r, now, quota) && |r.bucket| < quota
    ensures Tracks(Run(r.bucket + [now], r.grants + [now]), now, quota)
  {
    var grants := r.grants + [now];
    var d := |r.grants| - |r.bucket|;
    assert r.bucket + [now] == grants[d..];
    assert forall i :: 0 <= i < |r.grants| ==> grants[i] == r.grants[i];
    forall i, j | 0 <= i < j < |grants| && j - i >= quota ensures grants[j] - grants[i] > RATE_WINDOW {
      assert j == |r.grants| ==> i < d;
    }
  }

  lemma CheckIs(bucket: seq<nat>, now: nat, quota: nat)
    requires quota > 0
    ensures CheckBucket(bucket, now, quota).1.None? <==> |Pop(bucket, now)| < quota
    ensures |Pop(bucket, now)| < quota ==> CheckBucket(bucket, now, quota).0 == Pop(bucket, now) + [now]
    ensures |Pop(bucket, now)| >= quota ==> CheckBucket(bucket, now, quota).0 == Pop(bucket, now)
    ensures |Pop(bucket, now)| >= quota ==> CheckBucket(bucket, now, quota).1 == Some(RetryAfter(Pop(bucket, now)[0], now))
  {
    hide Pop, RetryAfter;
  }

  function Record(r: Run, now: nat, quota: nat): Run
    requires quota > 0
  {
    var (bucket, refused) := CheckBucket(r.bucket, now, quota);
    Run(bucket, if refused.None? then r.grants + [now] else r.grants)
  }

  lemma CheckTracks(r: Run, now: nat, quota: nat)
    requires quota > 0 && Tracks(r, now, quota)
    ensures Tracks(Record(r, now, quota), now, quota)
  {
    hide Tracks, CheckBucket, Pop, RetryAfter;
    PopTracks(r, now, quota);
    CheckIs(r.bucket, now, quota);
    var kept := r.(bucket := Pop(r.bucket, now));
    if |kept.bucket| < quota { GrantTracks(kept, now, quota); }
  }

  /** A call is granted exactly when fewer than the quota of grants lie in the last
      sixty seconds. */
  lemma AdmitsIff(times: seq<nat>, quota: nat, now: nat)
    requires quota > 0 && IsMonotone(times) && (times != [] ==> times[|times| - 1] <= now)
    ensures CheckBucket(After(times, quota).bucket, now, quota).1.None? <==>
      InWindow(After(times, quota).grants, now) < quota
  {
    hide Tracks, CheckBucket, Pop, RetryAfter, After, InWindow;
    AfterTracks(times, quota, now);
    var r := After(times, quota);
    PopTracks(r, now, quota);
    CheckIs(r.bucket, now, quota);
    KeptAreInWindow(r.(bucket := Pop(r.bucket, now)), now, quota);
  }

  lemma KeptAreInWindow(r: Run, now: nat, quota: nat)
    requires Tracks(r, now, quota) && (r.bucket != [] ==> Since(now, r.bucket[0]) <= RATE_WINDOW)
    ensures InWindow(r.grants, now) == |r.bucket|
  {
    hide IsSpread, InWindow;
    var d := |r.grants| - |r.bucket|;
    forall i | 0 <= i < |r.grants| ensures Since(now, r.grants[i]) <= RATE_WINDOW <==> d <= i {
      if d <= i { assert r.grants[d] == r.bucket[0] && r.grants[d] <= r.grants[i]; }
    }
    CountInWindow(r.grants, d, now);
  }

  lemma {:induction false} CountInWindow(grants: seq<nat>, d: nat, now: nat)
    requires d <= |grants| && forall i :: 0 <= i < |grants| ==> (Since(now, grants[i]) <= RATE_WINDOW <==> d <= i)
    ensures InWindow(grants, now) == |grants| - d
  {
    if grants != [] {
      var n := |grants| - 1;
      CountInWindow(grants[..n], if d <= n then d else n, now);
    }
  }

  /** Any `quota + 1` consecutive grants span more than sixty seconds. */
  lemma GrantsAreSpread(times: seq<nat>, quota: nat, i: nat)
    requires quota > 0 && IsMonotone(times) && i + quota < |After(times, quota).grants|
    ensures After(times, quota).grants[i + quota] > After(times, quota).grants[i] + 60_000_000_000
  {
    AfterTracks(times, quota, if times == [] then 0 else times[|times| - 1]);
  }

  // ----- Waiting ------------------------------------------------------------------------

  lemma SinceIs(now: nat, t: nat)
    requires t <= now
    ensures Since(now, t) == now - t
  {
  }

  lemma RefusalTracks(r: Run, now: nat, quota: nat)
    requires quota > 0 && Tracks(r, now, quota) && CheckBucket(r.bucket, now, quota).1.Some?
    ensures var (bucket, refused) := CheckBucket(r.bucket, now, quota);
      && |bucket| == quota && bucket[0] <= now && Since(now, bucket[0]) <= RATE_WINDOW
      && refused == Some(RetryAfter(bucket[0], now))
  {
    CheckIs(r.bucket, now, quota);
    hide *;
    var kept := Pop(r.bucket, now);
    PopTracks(r, now, quota);
    FrontIsGranted(r.(bucket := kept), now, quota);
  }

  /** What a refusal leaves: a full bucket whose front is still in the window. */
  lemma RefusedIsFull(times: seq<nat>, quota: nat, now: nat)
    requires quota > 0 && IsMonotone(times) && (times != [] ==> times[|times| - 1] <= now)
    requires CheckBucket(After(times, quota).bucket, now, quota).1.Some?
    ensures var (bucket, refused) := CheckBucket(After(times, quota).bucket, now, quota);
      && |bucket| == quota && bucket[0] <= now && now - bucket[0] <= RATE_WINDOW
      && refused == Some(RetryAfter(bucket[0], now))
  {
    hide *;
    AfterTracks(times, quota, now);
    RefusalTracks(After(times, quota), now, quota);
    SinceIs(now, CheckBucket(After(times, quota).bucket, now, quota).0[0]);
  }

  /** A full bucket admits again exactly when its front has left the window. */
  lemma FullAdmitsIff(bucket: seq<nat>, quota: nat, later: nat)
    requires quota > 0 && |bucket| == quota
    ensures CheckBucket(bucket, later, quota).1.None? <==> Since(later, bucket[0]) > RATE_WINDOW
  {
  }

  /** One second more than told is always enough. */
  lemma WaitingOneMoreSucceeds(times: seq<nat>, quota: nat, now: nat, later: nat)
    requires quota > 0 && IsMonotone(times) && (times != [] ==> times[|times| - 1] <= now)
    requires var (_, refused) := CheckBucket(After(times, quota).bucket, now, quota);
      refused.Some? && later >= now + (refused.value + 1) * SECOND
    ensures var (bucket, _) := CheckBucket(After(times, quota).bucket, now, quota);
      CheckBucket(bucket, later, quota).1.None?
  {
    hide CheckBucket, RetryAfter, After, IsMonotone;
    RefusedIsFull(times, quota, now);
    var bucket := CheckBucket(After(times, quota).bucket, now, quota).0;
    RetryIsFloored(bucket[0], now, later);
    FullAdmitsIff(bucket, quota, later);
  }

  lemma RetryIsFloored(front: nat, now: nat, later: nat)
    requires front <= now && now - front <= RATE_WINDOW && later >= now + (RetryAfter(front, now) + 1) * SECOND
    ensures later - front > RATE_WINDOW
  {
    var left := RATE_WINDOW - (now - front);
    assert left < (left / SECOND + 1) * SECOND;
    assert RetryAfter(front, now) >= left / SECOND;
    assert (RetryAfter(front, now) + 1) * SECOND >= (left / SECOND + 1) * SECOND;
  }

  /** Waiting just as long as told is enough exactly when the oldest request in the
      window had less than a second left. */
  lemma WaitingAsToldIff(times: seq<nat>, quota: nat, now: nat)
    requires quota > 0 && IsMonotone(times) && (times != [] ==> times[|times| - 1] <= now)
    requires CheckBucket(After(times, quota).bucket, now, quota).1.Some?
    ensures var (bucket, refused) := CheckBucket(After(times, quota).bucket, now, quota);
      CheckBucket(bucket, now + refused.value * SECOND, quota).1.None? <==> RATE_WINDOW - (now - bucket[0]) < SECOND
  {
    hide *;
    RefusedIsFull(times, quota, now);
    var bucket := CheckBucket(After(times, quota).bucket, now, quota).0;
    RetryLeaves(bucket[0], now);
    FullAdmitsIff(bucket, quota, now + RetryAfter(bucket[0], now) * SECOND);
  }

  lemma RetryLeaves(front: nat, now: nat)
    requires front <= now && now - front <= RATE_WINDOW
    ensures var wait := RetryAfter(front, now) * SECOND;
      Since(now + wait, front) > RATE_WINDOW <==> RATE_WINDOW - (now - front) < SECOND
  {
    var left := RATE_WINDOW - (now - front);
    assert left >= SECOND ==> left / SECOND >= 1 && (left / SECOND) * SECOND <= left;
    assert left < SECOND ==> left / SECOND == 0;
  }
}
