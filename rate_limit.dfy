/** The fixed-window, in-memory rate limiter: one bucket per key holding
    the number of requests seen in the current window and the instant the
    window ends. */
module RateLimit {
  import opened Wrappers

  datatype Bucket = Bucket(count: int, resetAt: int)

  datatype RateLimitResult = RateLimitResult(ok: bool, remaining: int, resetAt: int)

  type Buckets = map<string, Bucket>

  /** A request at `now` opens a new window: no bucket yet, or its window is over. */
  predicate OpensWindow(store: Buckets, key: string, now: int) {
    key !in store || now >= store[key].resetAt
  }

  /** One `checkRateLimit` call on the bucket map `store`: the answer and
      the map afterwards. Only the bucket of `key` may change; a request is
      refused exactly when it falls in a running window that has already
      seen `limit` requests, and a refusal changes nothing. */
  function Check(store: Buckets, key: string, limit: int, windowMs: int, now: int)
    : (out: (RateLimitResult, Buckets))
    ensures out.1.Keys == store.Keys + {key}
    ensures forall k :: k in store && k != key ==> out.1[k] == store[k]
    ensures out.0.ok <==> OpensWindow(store, key, now) || store[key].count < limit
    ensures !out.0.ok ==> out.1 == store && out.0.remaining == 0 && out.0.resetAt == store[key].resetAt
    ensures OpensWindow(store, key, now) ==>
      out.1[key] == Bucket(1, now + windowMs) && out.0 == RateLimitResult(true, limit - 1, now + windowMs)
    ensures out.0.ok && !OpensWindow(store, key, now) ==>
      out.1[key] == Bucket(store[key].count + 1, store[key].resetAt) &&
      out.0 == RateLimitResult(true, Max(0, limit - out.1[key].count), store[key].resetAt)
  {
    if OpensWindow(store, key, now) then
      (RateLimitResult(true, limit - 1, now + windowMs), store[key := Bucket(1, now + windowMs)])
    else if store[key].count >= limit then
      (RateLimitResult(false, 0, store[key].resetAt), store)
    else
      var b := store[key].(count := store[key].count + 1);
      (RateLimitResult(true, Max(0, limit - b.count), b.resetAt), store[key := b])
  }

  /** The answers to a series of requests on one key at the given instants. */
  function Run(store: Buckets, key: string, limit: int, windowMs: int, times: seq<int>)
    : (rs: seq<RateLimitResult>)
    ensures |rs| == |times|
    decreases |times|
  {
    if times == [] then []
    else
      var out := Check(store, key, limit, windowMs, times[0]);
      [out.0] + Run(out.1, key, limit, windowMs, times[1..])
  }

  /** Inside a running window holding `c >= 1` requests, the i-th further
      request is admitted exactly when `c + i < limit`, and an admitted one
      reports the requests left after it. */
  lemma {:induction false} WithinWindow(store: Buckets, key: string, limit: int, windowMs: int, times: seq<int>)
    requires key in store && store[key].count >= 1
    requires forall i :: 0 <= i < |times| ==> times[i] < store[key].resetAt
    ensures forall i :: 0 <= i < |times| ==>
      (Run(store, key, limit, windowMs, times)[i].ok <==> store[key].count + i < limit) &&
      Run(store, key, limit, windowMs, times)[i].resetAt == store[key].resetAt &&
      (Run(store, key, limit, windowMs, times)[i].ok ==>
         Run(store, key, limit, windowMs, times)[i].remaining == Max(0, limit - (store[key].count + i + 1)))
    decreases |times|
  {
    if times != [] {
      var out := Check(store, key, limit, windowMs, times[0]);
      var rs := Run(store, key, limit, windowMs, times);
      var tail := Run(out.1, key, limit, windowMs, times[1..]);
      assert rs == [out.0] + tail;
      assert forall i :: 0 <= i < |times| - 1 ==> times[1..][i] < out.1[key].resetAt;
      WithinWindow(out.1, key, limit, windowMs, times[1..]);
      var c := store[key].count;
      if c < limit {
        assert out.1[key].count == c + 1;
        forall i | 1 <= i < |times|
          ensures (rs[i].ok <==> c + i < limit) && rs[i].resetAt == store[key].resetAt &&
                  (rs[i].ok ==> rs[i].remaining == Max(0, limit - (c + i + 1)))
        {
          assert rs[i] == tail[i - 1];
        }
      } else {
        assert out.1 == store;
        forall i | 1 <= i < |times|
          ensures (rs[i].ok <==> c + i < limit) && rs[i].resetAt == store[key].resetAt
        {
          assert rs[i] == tail[i - 1];
        }
      }
    }
  }

  /** The property the limiter exists for: with `limit >= 1`, a series of
      requests that opens a window and stays inside it is admitted for
      exactly its first `limit` requests. */
  lemma AdmitsExactlyLimit(store: Buckets, key: string, limit: int, windowMs: int, times: seq<int>)
    requires limit >= 1 && |times| > 0
    requires OpensWindow(store, key, times[0])
    requires forall i :: 0 < i < |times| ==> times[i] < times[0] + windowMs
    ensures forall i :: 0 <= i < |times| ==> (Run(store, key, limit, windowMs, times)[i].ok <==> i < limit)
  {
    var out := Check(store, key, limit, windowMs, times[0]);
    var rs := Run(store, key, limit, windowMs, times);
    var tail := Run(out.1, key, limit, windowMs, times[1..]);
    assert rs == [out.0] + tail;
    assert forall i :: 0 <= i < |times| - 1 ==> times[1..][i] < out.1[key].resetAt;
    WithinWindow(out.1, key, limit, windowMs, times[1..]);
    assert out.1[key].count == 1;
    forall i | 1 <= i < |times| ensures rs[i].ok <==> i < limit {
      assert rs[i] == tail[i - 1];
    }
  }

  /** No bucket counts more than `limit` requests (or 1, the opening
      request, when `limit < 1`). */
  predicate CountsBounded(store: Buckets, limit: int) {
    forall k :: k in store ==> store[k].count <= Max(1, limit)
  }

  lemma CheckKeepsCountsBounded(store: Buckets, key: string, limit: int, windowMs: int, now: int)
    requires CountsBounded(store, limit)
    ensures CountsBounded(Check(store, key, limit, windowMs, now).1, limit)
  {
    var s' := Check(store, key, limit, windowMs, now).1;
    forall k | k in s' ensures s'[k].count <= Max(1, limit) {
      if k == key && !OpensWindow(store, key, now) && store[key].count < limit {
        assert s'[k].count == store[key].count + 1;
      }
    }
  }

  /** Requests on one key never change the answer given on another. */
  lemma KeysIndependent(store: Buckets, k1: string, k2: string, limit1: int, window1: int, now1: int,
                        limit2: int, window2: int, now2: int)
    requires k1 != k2
    ensures Check(Check(store, k1, limit1, window1, now1).1, k2, limit2, window2, now2).0
         == Check(store, k2, limit2, window2, now2).0
  {
    var s' := Check(store, k1, limit1, window1, now1).1;
    assert k2 in s' <==> k2 in store;
    if k2 in store {
      assert s'[k2] == store[k2];
    }
  }

  /** `resetRateLimiter(key)` on the bucket map: no key (or the empty key)
      clears every bucket, any other key drops only its own. */
  function Reset(store: Buckets, key: Option<string>): (s: Buckets)
    ensures key == None || key == Some("") ==> s == map[]
    ensures key != None && key != Some("") ==>
      s.Keys == store.Keys - {key.value} && forall k :: k in s ==> s[k] == store[k]
  {
    if key == None || key == Some("") then map[] else store - {key.value}
  }

  /** After a reset of its key the next request always opens a new window. */
  lemma ResetReopens(store: Buckets, key: string, limit: int, windowMs: int, now: int)
    ensures Check(Reset(store, Some(key)), key, limit, windowMs, now).0.ok
  {
  }

  /** The limiter's process-wide bucket map. */
  class Limiter {
    var store: Buckets

    constructor()
      ensures store == map[]
    {
      store := map[];
    }

    /** `checkRateLimit(key, limit, windowMs)` with the clock reading `now`. */
    method CheckRateLimit(key: string, limit: int, windowMs: int, now: int) returns (r: RateLimitResult)
      modifies this
      ensures (r, store) == Check(old(store), key, limit, windowMs, now)
    {
      if key !in store || now >= store[key].resetAt {
        store := store[key := Bucket(1, now + windowMs)];
        return RateLimitResult(true, limit - 1, now + windowMs);
      }
      var bucket := store[key];
      if bucket.count >= limit {
        return RateLimitResult(false, 0, bucket.resetAt);
      }
      bucket := bucket.(count := bucket.count + 1);
      store := store[key := bucket];
      r := RateLimitResult(true, Max(0, limit - bucket.count), bucket.resetAt);
    }

    /** `resetRateLimiter(key)`. */
    method ResetRateLimiter(key: Option<string>)
      modifies this
      ensures store == Reset(old(store), key)
    {
      if key == None || key == Some("") {
        store := map[];
        return;
      }
      store := store - {key.value};
    }
  }
}
