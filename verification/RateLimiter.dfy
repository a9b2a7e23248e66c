/** The token-bucket rate limiter with idle sweep and a hard cap on tracked keys, against the
    limiter that keeps one bucket per key forever. Times are seconds. */
module RateLimiter {
  import opened Common

  datatype Bucket = Bucket(tokens: real, updated: real, lastSeen: real)
  type Buckets = map<string, Bucket>

  datatype Verdict = Allowed | Limited(retryAfterSecs: int)

  const IDLE_SECS: real := 600.0

  function Ceil(x: real): int { -((-x).Floor) }

  /** Elapsed time, zero when the reading is older than the bucket. */
  function Since(now: real, then_: real): real { if now < then_ then 0.0 else now - then_ }

  /** Burst capacity and refill per second. */
  datatype Limit = Limit(capacity: real, rate: real)

  function LimitOf(rpm: nat): (lim: Limit)
    ensures if rpm > 0 then Limiting(lim) else Disabled(lim)
  {
    Limit(rpm as real, rpm as real / 60.0)
  }

  /** `rpm == 0` switches limiting off. */
  predicate Disabled(lim: Limit) { lim.rate <= 0.0 }

  /** A limiter that is switched on: a minute's refill is the whole capacity, of at least one token. */
  predicate Limiting(lim: Limit) { lim.capacity == 60.0 * lim.rate && lim.capacity >= 1.0 }

  // The unbounded limiter ---------------------------------------------------

  function Fresh(lim: Limit, now: real): Bucket { Bucket(lim.capacity, now, now) }

  /** Tokens of a bucket once refilled up to `now`. */
  function Refilled(lim: Limit, b: Bucket, now: real): real {
    Min(b.tokens + Minted(lim, b.updated, now), lim.capacity)
  }

  /** Refill a bucket and take one token if there is one. */
  function Take(lim: Limit, b: Bucket, now: real): (r: (Bucket, Verdict))
    requires lim.rate > 0.0
  {
    var tokens := Refilled(lim, b, now);
    if tokens >= 1.0 then (Bucket(tokens - 1.0, now, now), Allowed)
    else
      var wait := Ceil((1.0 - tokens) / lim.rate);
      (Bucket(tokens, now, now), Limited(if wait < 1 then 1 else wait))
  }

  /** One bucket per key, never forgotten: the reference. */
  function FreeCheck(lim: Limit, bs: Buckets, key: string, now: real): (r: (Buckets, Verdict)) {
    if Disabled(lim) then (bs, Allowed)
    else
      var (b, v) := Take(lim, if key in bs then bs[key] else Fresh(lim, now), now);
      (bs[key := b], v)
  }

  // The bounded limiter -----------------------------------------------------

  predicate Full(bs: Buckets, key: string, cap: nat) { key !in bs && |bs| >= cap }

  function Swept(bs: Buckets, now: real): Buckets {
    map k | k in bs && Since(now, bs[k].lastSeen) < IDLE_SECS :: bs[k]
  }

  /** The buckets a check works on: swept only when a new key finds the map full. */
  function Admitted(bs: Buckets, key: string, cap: nat, now: real): Buckets {
    if Full(bs, key, cap) then Swept(bs, now) else bs
  }

  /** The hard-cap refusal: a new key still finds the swept map full. */
  predicate CapRefuses(lim: Limit, bs: Buckets, key: string, cap: nat, now: real) {
    !Disabled(lim) && Full(Admitted(bs, key, cap, now), key, cap)
  }

  function Check(lim: Limit, bs: Buckets, key: string, cap: nat, now: real): (r: (Buckets, Verdict)) {
    if Disabled(lim) then (bs, Allowed)
    else if CapRefuses(lim, bs, key, cap, now) then (Admitted(bs, key, cap, now), Limited(60))
    else FreeCheck(lim, Admitted(bs, key, cap, now), key, now)
  }

  class Limiter {
    const rpm: nat
    const maxBuckets: nat
    var buckets: Buckets

    constructor (rpm: nat, maxBuckets: nat)
      ensures this.rpm == rpm && this.maxBuckets == maxBuckets && buckets == map[]
    {
      this.rpm, this.maxBuckets := rpm, maxBuckets;
      buckets := map[];
    }

    method Spend(bucket: Bucket, capacity: real, refillPerSec: real, now: real) returns (b: Bucket, verdict: Verdict)
      requires rpm > 0 && capacity == rpm as real && refillPerSec == LimitOf(rpm).rate
      ensures (b, verdict) == Take(LimitOf(rpm), bucket, now)
    {
      var elapsed := Since(now, bucket.updated);
      b := Bucket(Min(bucket.tokens + elapsed * refillPerSec, capacity), now, now);
      if b.tokens >= 1.0 {
        b := b.(tokens := b.tokens - 1.0);
        verdict := Allowed;
      } else {
        var need := 1.0 - b.tokens;
        var wait := Ceil(need / refillPerSec);
        verdict := Limited(if wait < 1 then 1 else wait);
      }
    }

    method CheckKey(key: string, now: real) returns (verdict: Verdict)
      requires |buckets| <= maxBuckets
      modifies this
      ensures (buckets, verdict) == Check(LimitOf(rpm), old(buckets), key, maxBuckets, now)
      ensures |buckets| <= maxBuckets
    {
      if rpm == 0 {
        return Allowed;
      }
      var capacity := rpm as real;
      var refillPerSec := capacity / 60.0;
      SweepShrinks(buckets, now);
      if key !in buckets && |buckets| >= maxBuckets {
        buckets := map k | k in buckets && Since(now, buckets[k].lastSeen) < 600.0 :: buckets[k];
        if |buckets| >= maxBuckets {
          return Limited(60);
        }
      }
      ghost var admitted := buckets;
      assert admitted == Admitted(old(buckets), key, maxBuckets, now);
      if key !in buckets {
        buckets := buckets[key := Bucket(capacity, now, now)];
      }
      var bucket;
      bucket, verdict := Spend(buckets[key], capacity, refillPerSec, now);
      buckets := buckets[key := bucket];
      assert buckets == admitted[key := bucket];
    }
  }

  lemma SweepShrinks(bs: Buckets, now: real)
    ensures |Swept(bs, now)| <= |bs|
  {
    SubsetSize(Swept(bs, now).Keys, bs.Keys);
  }

  // Runs --------------------------------------------------------------------

  datatype Request = Request(key: string, now: real)

  predicate Monotone(from: real, rs: seq<Request>)
    decreases |rs|
  {
    rs == [] || (from <= rs[0].now && Monotone(rs[0].now, rs[1..]))
  }

  /** The clock is read before the lock is taken, so readings may reach the map out of order: here none is more
      than `late` seconds behind the highest one before it, and `top` is the highest so far. */
  predicate Behind(top: real, late: real, rs: seq<Request>)
    decreases |rs|
  {
    rs == [] || (top - late <= rs[0].now && Behind(Max(top, rs[0].now), late, rs[1..]))
  }

  function RunChecks(lim: Limit, bs: Buckets, cap: nat, rs: seq<Request>): (r: (Buckets, seq<Verdict>))
    ensures |r.1| == |rs|
    decreases |rs|
  {
    if rs == [] then (bs, [])
    else
      var (bs', v) := Check(lim, bs, rs[0].key, cap, rs[0].now);
      var (bs'', vs) := RunChecks(lim, bs', cap, rs[1..]);
      (bs'', [v] + vs)
  }

  /** Which requests of a run the hard cap refuses. */
  function CapRefusals(lim: Limit, bs: Buckets, cap: nat, rs: seq<Request>): (r: seq<bool>)
    ensures |r| == |rs|
    decreases |rs|
  {
    if rs == [] then []
    else [CapRefuses(lim, bs, rs[0].key, cap, rs[0].now)]
         + CapRefusals(lim, Check(lim, bs, rs[0].key, cap, rs[0].now).0, cap, rs[1..])
  }

  /** The reference limiter on the same run; requests marked as skipped never reach it. */
  function RunFree(lim: Limit, bs: Buckets, rs: seq<Request>, skip: seq<bool>): (r: seq<Verdict>)
    requires |skip| == |rs|
    ensures |r| == |rs|
    decreases |rs|
  {
    if rs == [] then []
    else if skip[0] then [Limited(60)] + RunFree(lim, bs, rs[1..], skip[1..])
    else
      var (bs', v) := FreeCheck(lim, bs, rs[0].key, rs[0].now);
      [v] + RunFree(lim, bs', rs[1..], skip[1..])
  }

  ghost predicate BucketOk(lim: Limit, b: Bucket) {
    0.0 <= b.tokens <= lim.capacity && b.updated == b.lastSeen
  }

  ghost predicate Ok(lim: Limit, bs: Buckets) {
    forall k {:trigger BucketOk(lim, bs[k])} :: k in bs ==> BucketOk(lim, bs[k])
  }

  /** The bounded map is the reference map minus buckets idle for the sweep's 600 s. */
  ghost predicate Simulates(bounded: Buckets, free: Buckets, top: real) {
    forall k :: k in free ==>
      if k in bounded then bounded[k] == free[k] else top - free[k].updated >= IDLE_SECS
  }

  /** A minute refills a bucket; one swept after 600 s would be full for readings up to 540 s behind. */
  const REFILL_SECS: real := 60.0
  const SLACK_SECS: real := 540.0

  lemma IdleBucketIsFull(lim: Limit, b: Bucket, now: real)
    requires Limiting(lim) && BucketOk(lim, b) && now - b.updated >= REFILL_SECS
    ensures Refilled(lim, b, now) == lim.capacity == Refilled(lim, Fresh(lim, now), now)
  {
  }

  lemma TakeKeepsOk(lim: Limit, b: Bucket, now: real)
    requires Limiting(lim) && BucketOk(lim, b)
    ensures BucketOk(lim, Take(lim, b, now).0)
  {
  }

  lemma CheckKeepsOk(lim: Limit, bs: Buckets, key: string, cap: nat, now: real)
    requires Disabled(lim) || Limiting(lim)
    requires Ok(lim, bs)
    ensures Ok(lim, Check(lim, bs, key, cap, now).0)
    ensures Ok(lim, FreeCheck(lim, bs, key, now).0)
  {
    if !Disabled(lim) {
      var b := if key in bs then bs[key] else Fresh(lim, now);
      TakeKeepsOk(lim, b, now);
      TakeKeepsOk(lim, Fresh(lim, now), now);
    }
  }

  /** One request: same verdict, and the maps stay related. */
  lemma CheckSimulates(lim: Limit, bs: Buckets, free: Buckets, key: string, cap: nat, top: real, now: real)
    requires Limiting(lim) && top - SLACK_SECS <= now && Ok(lim, bs) && Ok(lim, free)
    requires bs.Keys <= free.Keys && Simulates(bs, free, top)
    ensures var (bs', v) := Check(lim, bs, key, cap, now);
            if CapRefuses(lim, bs, key, cap, now) then
              v == Limited(60) && bs'.Keys <= free.Keys && Simulates(bs', free, Max(top, now))
            else
              var (free', v') := FreeCheck(lim, free, key, now);
              v == v' && bs'.Keys <= free'.Keys && Simulates(bs', free', Max(top, now))
  {
    var admitted := Admitted(bs, key, cap, now);
    SweptSimulates(lim, bs, free, key, cap, top, now);
    if !CapRefuses(lim, bs, key, cap, now) && key !in admitted && key in free {
      assert BucketOk(lim, free[key]);
      IdleBucketIsFull(lim, free[key], now);
    }
  }

  lemma SweptSimulates(lim: Limit, bs: Buckets, free: Buckets, key: string, cap: nat, top: real, now: real)
    requires top - SLACK_SECS <= now && Ok(lim, bs) && bs.Keys <= free.Keys && Simulates(bs, free, top)
    ensures var admitted := Admitted(bs, key, cap, now);
            && admitted.Keys <= free.Keys && Simulates(admitted, free, Max(top, now))
            && (key in free && key !in admitted ==> now - free[key].updated >= REFILL_SECS)
  {
    var admitted := Admitted(bs, key, cap, now);
    forall k | k in free && k !in admitted
      ensures Max(top, now) - free[k].updated >= IDLE_SECS
      ensures now - free[k].updated >= REFILL_SECS
    {
      if k in bs {
        assert BucketOk(lim, bs[k]);
      }
    }
  }

  lemma {:induction false} RunSimulates(lim: Limit, bs: Buckets, free: Buckets, cap: nat, top: real, rs: seq<Request>)
    requires Limiting(lim) && Behind(top, SLACK_SECS, rs) && Ok(lim, bs) && Ok(lim, free)
    requires bs.Keys <= free.Keys && Simulates(bs, free, top)
    ensures RunChecks(lim, bs, cap, rs).1 == RunFree(lim, free, rs, CapRefusals(lim, bs, cap, rs))
    decreases |rs|
  {
    if rs != [] {
      var r := rs[0];
      CheckSimulates(lim, bs, free, r.key, cap, top, r.now);
      CheckKeepsOk(lim, bs, r.key, cap, r.now);
      CheckKeepsOk(lim, free, r.key, cap, r.now);
      var skip := CapRefusals(lim, bs, cap, rs);
      var bs' := Check(lim, bs, r.key, cap, r.now).0;
      assert skip[1..] == CapRefusals(lim, bs', cap, rs[1..]);
      var free' := if skip[0] then free else FreeCheck(lim, free, r.key, r.now).0;
      RunSimulates(lim, bs', free', cap, Max(top, r.now), rs[1..]);
    }
  }

  /** Each verdict is either the hard-cap refusal or exactly what a limiter with one bucket per key, never swept,
      gives for the requests the cap let through. */
  predicate Invisible(rpm: nat, cap: nat, rs: seq<Request>) {
    var lim := LimitOf(rpm);
    RunChecks(lim, map[], cap, rs).1 == RunFree(lim, map[], rs, CapRefusals(lim, map[], cap, rs))
  }

  /** The sweep is invisible on every run whose readings reach the map at most 540 s late, those in clock order in
      particular. */
  lemma SweepIsInvisible(rpm: nat, cap: nat, top: real, rs: seq<Request>)
    requires Behind(top, SLACK_SECS, rs)
    ensures Invisible(rpm, cap, rs)
  {
    if rpm > 0 {
      RunSimulates(LimitOf(rpm), map[], map[], cap, top, rs);
    } else {
      DisabledAllows(LimitOf(rpm), map[], cap, rs);
    }
  }

  lemma {:induction false} BehindLess(top: real, a: real, b: real, rs: seq<Request>)
    requires a <= b && Behind(top, a, rs)
    ensures Behind(top, b, rs)
    decreases |rs|
  {
    if rs != [] {
      BehindLess(Max(top, rs[0].now), a, b, rs[1..]);
    }
  }

  lemma {:induction false} DisabledAllows(lim: Limit, bs: Buckets, cap: nat, rs: seq<Request>)
    requires Disabled(lim)
    ensures RunChecks(lim, bs, cap, rs).1 == RunFree(lim, bs, rs, CapRefusals(lim, bs, cap, rs))
    decreases |rs|
  {
    if rs != [] {
      var skip := CapRefusals(lim, bs, cap, rs);
      assert skip[1..] == CapRefusals(lim, bs, cap, rs[1..]);
      DisabledAllows(lim, bs, cap, rs[1..]);
    }
  }

  lemma CheckKeepsCap(lim: Limit, bs: Buckets, key: string, cap: nat, now: real)
    requires |bs| <= cap
    ensures |Check(lim, bs, key, cap, now).0| <= cap
  {
    SweepShrinks(bs, now);
  }

  /** In every run the number of tracked buckets stays within the cap. */
  lemma {:induction false} RunKeepsCap(lim: Limit, bs: Buckets, cap: nat, rs: seq<Request>)
    requires |bs| <= cap
    ensures |RunChecks(lim, bs, cap, rs).0| <= cap
    decreases |rs|
  {
    if rs != [] {
      CheckKeepsCap(lim, bs, rs[0].key, cap, rs[0].now);
      RunKeepsCap(lim, Check(lim, bs, rs[0].key, cap, rs[0].now).0, cap, rs[1..]);
    }
  }

  /** The cap refuses, with a minute's wait, exactly a key without a bucket that finds `cap` others in use within the
      last ten minutes. */
  lemma CapRefusesIff(lim: Limit, bs: Buckets, key: string, cap: nat, now: real)
    requires Limiting(lim)
    ensures var recent := set k | k in bs && Since(now, bs[k].lastSeen) < 600.0;
            && (CapRefuses(lim, bs, key, cap, now) <==> key !in bs && |recent| >= cap)
            && (CapRefuses(lim, bs, key, cap, now) ==> Check(lim, bs, key, cap, now).1 == Limited(60))
  {
    var recent := set k | k in bs && Since(now, bs[k].lastSeen) < 600.0;
    assert Swept(bs, now).Keys == recent;
    SubsetSize(recent, bs.Keys);
  }

  /** At zero requests per minute limiting is off: everything is allowed and nothing is tracked. */
  lemma ZeroRpmAllows(bs: Buckets, key: string, cap: nat, now: real)
    ensures Check(LimitOf(0), bs, key, cap, now) == (bs, Allowed)
  {
  }

  /** `n` requests of one key at one instant. */
  function Burst(key: string, now: real, n: nat): (rs: seq<Request>) {
    seq(n, i => Request(key, now))
  }

  lemma {:induction false} BurstFrom(lim: Limit, key: string, now: real, tokens: nat, n: nat)
    requires Limiting(lim) && tokens as real <= lim.capacity
    ensures AllowedCount(key, Burst(key, now, n),
                         RunChecks(lim, map[key := Bucket(tokens as real, now, now)], 1, Burst(key, now, n)).1)
            == if n < tokens then n else tokens
    decreases n
  {
    if n > 0 {
      var b := Bucket(tokens as real, now, now);
      var rest := Burst(key, now, n - 1);
      assert Burst(key, now, n) == [Request(key, now)] + rest;
      assert Minted(lim, now, now) == 0.0;
      CheckTracked(lim, b, key, 1, now);
      RunFirst(lim, map[key := b], 1, Request(key, now), rest);
      var left: nat := if tokens >= 1 then tokens - 1 else 0;
      assert Take(lim, b, now).0 == Bucket(left as real, now, now);
      BurstFrom(lim, key, now, left, n - 1);
    }
  }

  lemma FreshBurst(lim: Limit, tokens: nat, key: string, now: real, n: nat)
    requires Limiting(lim) && lim.capacity == tokens as real
    ensures AllowedCount(key, Burst(key, now, n), RunChecks(lim, map[], 1, Burst(key, now, n)).1)
            == if n < tokens then n else tokens
  {
    if n > 0 {
      var rest := Burst(key, now, n - 1);
      assert Burst(key, now, n) == [Request(key, now)] + rest;
      FreshTake(lim, now);
      assert Check(lim, map[], key, 1, now) == (map[key := Bucket((tokens - 1) as real, now, now)], Allowed);
      RunFirst(lim, map[], 1, Request(key, now), rest);
      BurstFrom(lim, key, now, tokens - 1, n - 1);
    }
  }

  /** A fresh key is allowed exactly its requests per minute at once. */
  lemma BurstIsRpm(rpm: nat, key: string, now: real, n: nat)
    requires rpm > 0
    ensures AllowedCount(key, Burst(key, now, n), RunChecks(LimitOf(rpm), map[], 1, Burst(key, now, n)).1)
            == if n < rpm then n else rpm
  {
    FreshBurst(LimitOf(rpm), rpm, key, now, n);
  }

  // Rate bound --------------------------------------------------------------

  /** Tokens minted between two readings, none when the second is the older one. */
  function Minted(lim: Limit, from: real, to: real): (m: real) { Since(to, from) * lim.rate }

  /** Tokens minted along the readings of a run. */
  function MintedOver(lim: Limit, from: real, rs: seq<Request>): (m: real)
    decreases |rs|
  {
    if rs == [] then 0.0 else Minted(lim, from, rs[0].now) + MintedOver(lim, rs[0].now, rs[1..])
  }

  /** Tokens `key` could spend at time `t`; an untracked key would get a full bucket. */
  function Available(lim: Limit, bs: Buckets, key: string, t: real): real {
    if key in bs then Refilled(lim, bs[key], t) else lim.capacity
  }

  /** Allowed verdicts for `key` in a run. */
  function AllowedCount(key: string, rs: seq<Request>, vs: seq<Verdict>): (n: nat)
    requires |vs| == |rs|
  {
    if rs == [] then 0
    else (if rs[0].key == key && vs[0] == Allowed then 1 else 0) + AllowedCount(key, rs[1..], vs[1..])
  }

  /** What a check does to every key's tokens: a request the cap lets through is allowed exactly when a token is
      available, an allowed request takes exactly one, and nothing else changes, sweep included. */
  lemma CheckTakesOneToken(lim: Limit, bs: Buckets, key: string, cap: nat, k: string, now: real)
    requires Limiting(lim) && Ok(lim, bs)
    ensures var (bs', v) := Check(lim, bs, key, cap, now);
            && (!CapRefuses(lim, bs, key, cap, now) ==> (v == Allowed <==> Available(lim, bs, key, now) >= 1.0))
            && Available(lim, bs', k, now) + (if k == key && v == Allowed then 1.0 else 0.0)
                 == Available(lim, bs, k, now)
  {
    var admitted := Admitted(bs, key, cap, now);
    if k in bs && k !in admitted {
      assert BucketOk(lim, bs[k]);
      IdleBucketIsFull(lim, bs[k], now);
    }
    assert Available(lim, admitted, k, now) == Available(lim, bs, k, now);
    if key in admitted {
      assert BucketOk(lim, admitted[key]);
    }
  }

  lemma AvailableGrowsAtRate(lim: Limit, bs: Buckets, key: string, t: real, now: real)
    requires Limiting(lim) && Ok(lim, bs)
    ensures Available(lim, bs, key, now) <= Available(lim, bs, key, t) + Minted(lim, t, now)
    ensures 0.0 <= Available(lim, bs, key, t) <= lim.capacity
  {
    MintedGrows(lim, t, now);
    if key in bs {
      var b := bs[key];
      assert BucketOk(lim, b);
      MintedGrows(lim, b.updated, t);
      MintedAdds(lim, b.updated, t, now);
    }
  }

  lemma MintedGrows(lim: Limit, from: real, to: real)
    requires lim.rate >= 0.0
    ensures Minted(lim, from, to) >= 0.0
  {
  }

  lemma MintedAdds(lim: Limit, a: real, b: real, c: real)
    requires lim.rate >= 0.0
    ensures Minted(lim, a, c) <= Minted(lim, a, b) + Minted(lim, b, c)
    ensures a <= b <= c ==> Minted(lim, a, c) == Minted(lim, a, b) + Minted(lim, b, c)
  {
    var x, y, z := Since(c, a), Since(b, a), Since(c, b);
    assert x <= y + z && (a <= b <= c ==> x == y + z);
    assert (y + z) * lim.rate == y * lim.rate + z * lim.rate;
    Scales(x, y + z, lim.rate);
  }

  /** The tokens a key holds before a run, and the mint of the run, pay for all it is allowed:
      `left` is what is still unspent of them at the end. */
  lemma {:induction false} RunSpends(lim: Limit, bs: Buckets, cap: nat, key: string, t: real, rs: seq<Request>)
    returns (paid: real, left: real)
    requires Limiting(lim) && Ok(lim, bs)
    ensures paid == AllowedCount(key, rs, RunChecks(lim, bs, cap, rs).1) as real
    ensures left >= 0.0 && paid + left <= Available(lim, bs, key, t) + MintedOver(lim, t, rs)
    decreases |rs|
  {
    if rs == [] {
      AvailableGrowsAtRate(lim, bs, key, t, t);
      paid, left := 0.0, 0.0;
    } else {
      var r := rs[0];
      var (bs', v) := Check(lim, bs, r.key, cap, r.now);
      CheckKeepsOk(lim, bs, r.key, cap, r.now);
      var spent := FirstRequestSpends(lim, bs, cap, key, t, r);
      paid, left := RunSpends(lim, bs', cap, key, r.now, rs[1..]);
      CountFirst(lim, bs, cap, key, rs);
      paid := paid + spent;
    }
  }

  lemma FirstRequestSpends(lim: Limit, bs: Buckets, cap: nat, key: string, t: real, r: Request) returns (spent: real)
    requires Limiting(lim) && Ok(lim, bs)
    ensures spent == if r.key == key && Check(lim, bs, r.key, cap, r.now).1 == Allowed then 1.0 else 0.0
    ensures Available(lim, Check(lim, bs, r.key, cap, r.now).0, key, r.now) + spent
            <= Available(lim, bs, key, t) + Minted(lim, t, r.now)
  {
    CheckTakesOneToken(lim, bs, r.key, cap, key, r.now);
    AvailableGrowsAtRate(lim, bs, key, t, r.now);
    spent := if r.key == key && Check(lim, bs, r.key, cap, r.now).1 == Allowed then 1.0 else 0.0;
  }

  lemma CountFirst(lim: Limit, bs: Buckets, cap: nat, key: string, rs: seq<Request>)
    requires rs != []
    ensures var (bs', v) := Check(lim, bs, rs[0].key, cap, rs[0].now);
            AllowedCount(key, rs, RunChecks(lim, bs, cap, rs).1)
            == (if rs[0].key == key && v == Allowed then 1 else 0)
               + AllowedCount(key, rs[1..], RunChecks(lim, bs', cap, rs[1..]).1)
  {
  }

  lemma {:induction false} RunKeepsOk(lim: Limit, bs: Buckets, cap: nat, rs: seq<Request>)
    requires Limiting(lim) && Ok(lim, bs)
    ensures Ok(lim, RunChecks(lim, bs, cap, rs).0)
    decreases |rs|
  {
    if rs != [] {
      CheckKeepsOk(lim, bs, rs[0].key, cap, rs[0].now);
      RunKeepsOk(lim, Check(lim, bs, rs[0].key, cap, rs[0].now).0, cap, rs[1..]);
    }
  }

  /** For every key and every window of every run, readings in any order: at most capacity + rate * T `Allowed`
      verdicts, where T is how far the readings of the window moved forward in all. */
  lemma WindowBound(lim: Limit, cap: nat, key: string, past: seq<Request>, window: seq<Request>) returns (count: real)
    requires Limiting(lim) && window != []
    ensures var bs := RunChecks(lim, map[], cap, past).0;
            count == AllowedCount(key, window, RunChecks(lim, bs, cap, window).1) as real
    ensures count <= lim.capacity + MintedOver(lim, window[0].now, window)
  {
    var bs := RunChecks(lim, map[], cap, past).0;
    RunKeepsOk(lim, map[], cap, past);
    var left;
    count, left := RunSpends(lim, bs, cap, key, window[0].now, window);
    AvailableGrowsAtRate(lim, bs, key, window[0].now, window[0].now);
  }

  function EndTime(from: real, rs: seq<Request>): real {
    if rs == [] then from else rs[|rs| - 1].now
  }

  lemma {:induction false} MintedInOrder(lim: Limit, from: real, rs: seq<Request>)
    requires lim.rate >= 0.0 && Monotone(from, rs)
    ensures from <= EndTime(from, rs) && MintedOver(lim, from, rs) == Minted(lim, from, EndTime(from, rs))
    decreases |rs|
  {
    if rs != [] {
      MintedInOrder(lim, rs[0].now, rs[1..]);
      MintedAdds(lim, from, rs[0].now, EndTime(from, rs));
    }
  }

  /** In clock order that is the plain rate: requests spanning T seconds get at most rpm + rpm * T / 60. */
  lemma OrderedWindowBound(lim: Limit, cap: nat, key: string, past: seq<Request>, window: seq<Request>)
    returns (count: real)
    requires Limiting(lim) && window != [] && Monotone(window[0].now, window)
    ensures var bs := RunChecks(lim, map[], cap, past).0;
            count == AllowedCount(key, window, RunChecks(lim, bs, cap, window).1) as real
    ensures count <= lim.capacity + Minted(lim, window[0].now, window[|window| - 1].now)
  {
    count := WindowBound(lim, cap, key, past, window);
    MintedInOrder(lim, window[0].now, window);
  }

  lemma MintedAtRpm(rpm: nat, from: real, to: real)
    requires from <= to
    ensures LimitOf(rpm).capacity == rpm as real
    ensures Minted(LimitOf(rpm), from, to) == Product(rpm as real / 60.0, to - from)
  {
  }

  /** In requests per minute: a window in clock order of T seconds lets through at most rpm + rpm / 60 * T. */
  lemma RpmBound(rpm: nat, cap: nat, key: string, past: seq<Request>, window: seq<Request>)
    returns (count: real, bound: real)
    requires rpm > 0 && window != [] && Monotone(window[0].now, window)
    ensures var bs := RunChecks(LimitOf(rpm), map[], cap, past).0;
            count == AllowedCount(key, window, RunChecks(LimitOf(rpm), bs, cap, window).1) as real
    ensures bound == rpm as real + Product(rpm as real / 60.0, window[|window| - 1].now - window[0].now)
    ensures count <= bound
  {
    var lim, first, last := LimitOf(rpm), window[0].now, window[|window| - 1].now;
    count := OrderedWindowBound(lim, cap, key, past, window);
    MintedInOrder(lim, first, window);
    bound := lim.capacity + Minted(lim, first, last);
    MintedAtRpm(rpm, first, last);
  }

  // The key's own readings --------------------------------------------------

  function Own(key: string, rs: seq<Request>): (own: seq<Request>)
    decreases |rs|
  {
    if rs == [] then [] else if rs[0].key == key then [rs[0]] + Own(key, rs[1..]) else Own(key, rs[1..])
  }

  lemma MintedSkips(lim: Limit, t: real, u: real, rs: seq<Request>)
    requires lim.rate >= 0.0
    ensures MintedOver(lim, t, rs) <= Minted(lim, t, u) + MintedOver(lim, u, rs)
  {
    MintedGrows(lim, t, u);
    if rs != [] {
      MintedAdds(lim, t, u, rs[0].now);
    }
  }

  lemma FreeTakesOneToken(lim: Limit, free: Buckets, key: string, k: string, now: real)
    requires Limiting(lim) && Ok(lim, free)
    ensures var (free', v) := FreeCheck(lim, free, key, now);
            if k != key then k in free' <==> k in free && (k in free ==> free'[k] == free[k])
            else Available(lim, free', k, now) + (if v == Allowed then 1.0 else 0.0) == Available(lim, free, k, now)
  {
    if key in free {
      assert BucketOk(lim, free[key]);
    }
  }

  /** The reference limiter looks at no other key's readings. */
  lemma {:induction false} FreeSpends(lim: Limit, free: Buckets, key: string, t: real, rs: seq<Request>,
                                      skip: seq<bool>)
    returns (paid: real, left: real)
    requires Limiting(lim) && Ok(lim, free) && |skip| == |rs|
    ensures paid == AllowedCount(key, rs, RunFree(lim, free, rs, skip)) as real
    ensures left >= 0.0 && paid + left <= Available(lim, free, key, t) + MintedOver(lim, t, Own(key, rs))
    decreases |rs|
  {
    AvailableGrowsAtRate(lim, free, key, t, t);
    if rs == [] {
      paid, left := 0.0, 0.0;
    } else {
      var r := rs[0];
      var (free', v) := FreeCheck(lim, free, r.key, r.now);
      FreeTakesOneToken(lim, free, r.key, key, r.now);
      CheckKeepsOk(lim, free, r.key, 0, r.now);
      if skip[0] {
        paid, left := FreeSpends(lim, free, key, t, rs[1..], skip[1..]);
        MintedSkips(lim, t, r.now, Own(key, rs[1..]));
      } else if r.key != key {
        paid, left := FreeSpends(lim, free', key, t, rs[1..], skip[1..]);
      } else {
        AvailableGrowsAtRate(lim, free, key, t, r.now);
        paid, left := FreeSpends(lim, free', key, r.now, rs[1..], skip[1..]);
        paid := paid + if v == Allowed then 1.0 else 0.0;
      }
    }
  }

  /** After any run at most 540 s late the bounded map still simulates a reference map. */
  lemma {:induction false} PastSimulates(lim: Limit, bs: Buckets, free: Buckets, cap: nat, top: real,
                                         past: seq<Request>, window: seq<Request>)
    returns (free': Buckets, top': real)
    requires Limiting(lim) && Behind(top, SLACK_SECS, past + window) && Ok(lim, bs) && Ok(lim, free)
    requires bs.Keys <= free.Keys && Simulates(bs, free, top)
    ensures var bs' := RunChecks(lim, bs, cap, past).0;
            Ok(lim, bs') && Ok(lim, free') && bs'.Keys <= free'.Keys && Simulates(bs', free', top')
    ensures Behind(top', SLACK_SECS, window)
    decreases |past|
  {
    if past == [] {
      assert past + window == window;
      free', top' := free, top;
    } else {
      var r := past[0];
      assert (past + window)[0] == r && (past + window)[1..] == past[1..] + window;
      CheckSimulates(lim, bs, free, r.key, cap, top, r.now);
      CheckKeepsOk(lim, bs, r.key, cap, r.now);
      CheckKeepsOk(lim, free, r.key, cap, r.now);
      var next := if CapRefuses(lim, bs, r.key, cap, r.now) then free else FreeCheck(lim, free, r.key, r.now).0;
      free', top' := PastSimulates(lim, Check(lim, bs, r.key, cap, r.now).0, next, cap, Max(top, r.now), past[1..],
          window);
    }
  }

  /** While readings are at most 540 s late only the key's own count: at most capacity + rate * T of its requests in a
      window are allowed, where T is how far its own readings in the window moved forward in all. */
  lemma OwnWindowBound(lim: Limit, cap: nat, key: string, top: real, past: seq<Request>, window: seq<Request>)
    returns (count: real)
    requires Limiting(lim) && Behind(top, SLACK_SECS, past + window) && Own(key, window) != []
    ensures var bs := RunChecks(lim, map[], cap, past).0;
            count == AllowedCount(key, window, RunChecks(lim, bs, cap, window).1) as real
    ensures count <= lim.capacity + MintedOver(lim, Own(key, window)[0].now, Own(key, window))
  {
    var bs := RunChecks(lim, map[], cap, past).0;
    var free, top' := PastSimulates(lim, map[], map[], cap, top, past, window);
    RunSimulates(lim, bs, free, cap, top', window);
    var t, left := Own(key, window)[0].now, 0.0;
    count, left := FreeSpends(lim, free, key, t, window, CapRefusals(lim, bs, cap, window));
    AvailableGrowsAtRate(lim, free, key, t, t);
  }

  // The retry hint ----------------------------------------------------------

  /** Requests of other keys leave a tracked bucket as it is, or sweep it. */
  lemma {:induction false} QuietBucketIsUntouched(lim: Limit, bs: Buckets, cap: nat, key: string, rs: seq<Request>)
    requires forall i :: 0 <= i < |rs| ==> rs[i].key != key
    ensures var bs' := RunChecks(lim, bs, cap, rs).0; key in bs' ==> key in bs && bs'[key] == bs[key]
    decreases |rs|
  {
    if rs != [] {
      QuietBucketIsUntouched(lim, Check(lim, bs, rs[0].key, cap, rs[0].now).0, cap, key, rs[1..]);
    }
  }

  lemma WaitRefills(rate: real, tokens: real, wait: int, elapsed: real)
    requires rate > 0.0 && tokens < 1.0 && wait >= Ceil((1.0 - tokens) / rate) && elapsed >= wait as real
    ensures tokens + elapsed * rate >= 1.0
  {
  }

  lemma WaitingPays(lim: Limit, b: Bucket, now: real, later: real)
    requires Limiting(lim) && Take(lim, b, now).1.Limited?
    requires later >= now + Take(lim, b, now).1.retryAfterSecs as real
    ensures Take(lim, Take(lim, b, now).0, later).1 == Allowed
  {
    var (b', v) := Take(lim, b, now);
    WaitRefills(lim.rate, b'.tokens, v.retryAfterSecs, later - now);
  }

  /** The wait is the least whole number of seconds, at least one, after which the key is allowed: one second less is
      too early, unless the wait is a single second. */
  lemma WaitIsLeast(lim: Limit, b: Bucket, now: real, later: real)
    requires Limiting(lim) && Take(lim, b, now).1.Limited?
    ensures var (b', v) := Take(lim, b, now); var wait := v.retryAfterSecs;
            && wait >= 1
            && (later >= now + wait as real ==> Take(lim, b', later).1 == Allowed)
            && (wait > 1 && now <= later <= now + (wait - 1) as real ==> Take(lim, b', later).1.Limited?)
  {
    var (b', v) := Take(lim, b, now);
    var wait := v.retryAfterSecs;
    if later >= now + wait as real {
      WaitingPays(lim, b, now, later);
    } else if wait > 1 && now <= later <= now + (wait - 1) as real {
      TooEarly(lim.rate, b'.tokens, wait, later - now);
    }
  }

  lemma TooEarly(rate: real, tokens: real, wait: int, elapsed: real)
    requires rate > 0.0 && wait == Ceil((1.0 - tokens) / rate) && 0.0 <= elapsed <= (wait - 1) as real
    ensures tokens + elapsed * rate < 1.0
  {
    var need := (1.0 - tokens) / rate;
    assert need * rate == 1.0 - tokens;
    assert elapsed < need;
    assert elapsed * rate < need * rate;
  }

  /** A key limited by its own bucket that stays quiet for the advertised time is allowed next, whatever the
      other keys did, as long as its bucket is still tracked. */
  lemma RetryAfterIsHonoured(lim: Limit, bs: Buckets, cap: nat, key: string, now: real, others: seq<Request>,
                             later: real)
    requires Limiting(lim) && !CapRefuses(lim, bs, key, cap, now) && Check(lim, bs, key, cap, now).1.Limited?
    requires forall i :: 0 <= i < |others| ==> others[i].key != key
    requires later >= now + Check(lim, bs, key, cap, now).1.retryAfterSecs as real
    requires key in RunChecks(lim, Check(lim, bs, key, cap, now).0, cap, others).0
    ensures Check(lim, RunChecks(lim, Check(lim, bs, key, cap, now).0, cap, others).0, key, cap, later).1 == Allowed
  {
    var admitted := Admitted(bs, key, cap, now);
    var b := if key in admitted then admitted[key] else Fresh(lim, now);
    var bs' := Check(lim, bs, key, cap, now).0;
    assert Check(lim, bs, key, cap, now) == (admitted[key := Take(lim, b, now).0], Take(lim, b, now).1);
    QuietBucketIsUntouched(lim, bs', cap, key, others);
    WaitingPays(lim, b, now, later);
  }

  // Late readings -----------------------------------------------------------

  lemma RunFirst(lim: Limit, bs: Buckets, cap: nat, r: Request, rs: seq<Request>)
    ensures var (bs', v) := Check(lim, bs, r.key, cap, r.now); var (end, vs) := RunChecks(lim, bs', cap, rs);
            && RunChecks(lim, bs, cap, [r] + rs) == (end, [v] + vs)
            && CapRefusals(lim, bs, cap, [r] + rs) == [CapRefuses(lim, bs, r.key, cap, r.now)]
                 + CapRefusals(lim, bs', cap, rs)
            && forall key :: AllowedCount(key, [r] + rs, [v] + vs)
                             == (if r.key == key && v == Allowed then 1 else 0) + AllowedCount(key, rs, vs)
  {
    assert ([r] + rs)[1..] == rs;
    var (bs', v) := Check(lim, bs, r.key, cap, r.now);
    var vs := RunChecks(lim, bs', cap, rs).1;
    assert ([v] + vs)[1..] == vs;
  }

  lemma CheckTracked(lim: Limit, b: Bucket, key: string, cap: nat, now: real)
    requires Limiting(lim)
    ensures Check(lim, map[key := b], key, cap, now) == (map[key := Take(lim, b, now).0], Take(lim, b, now).1)
  {
    assert map[key := b][key := Take(lim, b, now).0] == map[key := Take(lim, b, now).0];
  }

  const ONE_RPM := LimitOf(1)
  const EMPTY_EARLY := Bucket(0.0, 0.0, 0.0)
  const ON_TIME := Request("k", 0.0)

  /** `n` times a reading `h` seconds late, then one on time. */
  function Rocking(h: real, n: nat): seq<Request> {
    if n == 0 then [] else [Request("k", -h)] + ([ON_TIME] + Rocking(h, n - 1))
  }

  lemma {:induction false} RockingReadings(h: real, n: nat)
    requires h >= 0.0
    ensures Behind(0.0, h, Rocking(h, n))
    ensures forall r :: r in Rocking(h, n) ==> r.key == "k" && -h <= r.now <= 0.0
  {
    if n > 0 {
      RockingReadings(h, n - 1);
      BehindFirst(0.0, h, ON_TIME, Rocking(h, n - 1));
      BehindFirst(0.0, h, Request("k", -h), [ON_TIME] + Rocking(h, n - 1));
    }
  }

  function Held(b: Bucket): Buckets { map["k" := b] }

  /** Requests of the key let through from a bucket on. */
  function CountFrom(lim: Limit, b: Bucket, rs: seq<Request>): nat {
    AllowedCount("k", rs, RunChecks(lim, Held(b), 1, rs).1)
  }

  lemma CountPair(lim: Limit, b: Bucket, first: real, second: real, rest: seq<Request>)
    requires Limiting(lim) && Take(lim, b, first).1.Limited?
    ensures var b1 := Take(lim, b, first).0; var (b2, v) := Take(lim, b1, second);
            CountFrom(lim, b, [Request("k", first)] + ([Request("k", second)] + rest))
            == (if v == Allowed then 1 else 0) + CountFrom(lim, b2, rest)
  {
    var b1 := Take(lim, b, first).0;
    CheckTracked(lim, b, "k", 1, first);
    CheckTracked(lim, b1, "k", 1, second);
    RunFirst(lim, Held(b1), 1, Request("k", second), rest);
    RunFirst(lim, Held(b), 1, Request("k", first), [Request("k", second)] + rest);
  }

  /** Back: no credit, and the stamp moves back. */
  lemma SwingBack(lim: Limit, h: real, tokens: real)
    requires Limiting(lim) && lim.capacity == 1.0 && 0.0 < h && 0.0 <= tokens < 1.0
    ensures Take(lim, Bucket(tokens, 0.0, 0.0), -h).0 == Bucket(tokens, -h, -h)
    ensures Take(lim, Bucket(tokens, 0.0, 0.0), -h).1.Limited?
  {
    assert Minted(lim, 0.0, -h) == 0.0;
  }

  /** Forth: the same interval is credited again. */
  lemma SwingForth(lim: Limit, h: real, step: real, tokens: real) returns (left: real)
    requires Limiting(lim) && lim.capacity == 1.0 && 0.0 < h && 0.0 <= tokens < 1.0
    requires Minted(lim, -h, 0.0) == step && 0.0 <= step <= 0.5
    ensures var (b, v) := Take(lim, Bucket(tokens, -h, -h), 0.0);
            && b == Bucket(left, 0.0, 0.0) && 0.0 <= left < 1.0
            && (if v == Allowed then 1.5 + left >= tokens + step else left == tokens + step)
  {
    left := Take(lim, Bucket(tokens, -h, -h), 0.0).0.tokens;
  }

  function Times(n: nat, step: real): real { n as real * step }

  lemma OneMoreTime(n: nat, step: real)
    requires n > 0
    ensures Times(n, step) == Times(n - 1, step) + step
  {
  }

  lemma {:induction false} RockingAllowed(lim: Limit, h: real, step: real, tokens: real, n: nat)
    returns (count: nat, paid: real)
    requires Limiting(lim) && lim.capacity == 1.0 && 0.0 < h && 0.0 <= tokens < 1.0
    requires Minted(lim, -h, 0.0) == step && 0.0 <= step <= 0.5
    ensures count == CountFrom(lim, Bucket(tokens, 0.0, 0.0), Rocking(h, n))
    ensures paid == 1.5 * count as real && paid + 1.0 >= tokens + Times(n, step)
    decreases n
  {
    if n == 0 {
      count, paid := 0, 0.0;
    } else {
      SwingBack(lim, h, tokens);
      var left := SwingForth(lim, h, step, tokens);
      CountPair(lim, Bucket(tokens, 0.0, 0.0), -h, 0.0, Rocking(h, n - 1));
      var allowed := Take(lim, Bucket(tokens, -h, -h), 0.0).1 == Allowed;
      count, paid := RockingAllowed(lim, h, step, left, n - 1);
      OneMoreTime(n, step);
      if allowed {
        count, paid := count + 1, paid + 1.5;
      }
    }
  }

  lemma EnoughSwings(x: real, step: real) returns (n: nat)
    requires x >= 0.0 && step > 0.0
    ensures Times(n, step) >= x
  {
    n := Ceil(x / step);
    Scales(x / step, n as real, step);
  }

  /** Out of order the plain rate bounds nothing, however little the lateness: at one request per minute, readings at
      most `late` seconds behind, all within half a minute, get any number of requests through. */
  lemma LateReadingsBeatTheRate(late: real, m: nat) returns (h: real, rs: seq<Request>)
    requires late > 0.0
    ensures 0.0 < h <= late && h <= 30.0 && Behind(0.0, late, rs)
    ensures forall r :: r in rs ==> r.key == "k" && -h <= r.now <= 0.0
    ensures AllowedCount("k", rs, RunChecks(ONE_RPM, map[], 1, rs).1) > m
  {
    h := Min(late, 30.0);
    var n := SwingsAllow(ONE_RPM, h, m);
    rs := [ON_TIME] + Rocking(h, n);
    RockingReadings(h, n);
    BehindLess(0.0, h, late, Rocking(h, n));
    BehindFirst(0.0, late, ON_TIME, Rocking(h, n));
  }

  lemma SwingsAllow(lim: Limit, h: real, m: nat) returns (n: nat)
    requires Limiting(lim) && lim.capacity == 1.0 && 0.0 < h <= 30.0
    ensures var rs := [ON_TIME] + Rocking(h, n); AllowedCount("k", rs, RunChecks(lim, map[], 1, rs).1) > m
  {
    var step := Minted(lim, -h, 0.0);
    HalfAToken(lim, h);
    var goal := 1.5 * m as real;
    n := EnoughSwings(goal + 1.0, step);
    var count, paid := RockingAllowed(lim, h, step, 0.0, n);
    FirstIsAllowed(lim, Rocking(h, n));
    assert paid >= goal;
  }

  lemma HalfAToken(lim: Limit, h: real)
    requires Limiting(lim) && lim.capacity == 1.0 && 0.0 < h <= 30.0
    ensures 0.0 < Minted(lim, -h, 0.0) <= 0.5
  {
    Scales(h, 30.0, lim.rate);
  }

  lemma FirstIsAllowed(lim: Limit, rest: seq<Request>)
    requires Limiting(lim) && lim.capacity == 1.0
    ensures AllowedCount("k", [ON_TIME] + rest, RunChecks(lim, map[], 1, [ON_TIME] + rest).1)
            == 1 + CountFrom(lim, EMPTY_EARLY, rest)
  {
    FreshTake(lim, 0.0);
    assert Check(lim, map[], "k", 1, 0.0) == (Held(EMPTY_EARLY), Allowed);
    RunFirst(lim, map[], 1, ON_TIME, rest);
  }

  /** The requests of `key` in a window of a run get no more through than capacity + rate * T, with T the span of the
      window's readings. */
  ghost predicate WithinRate(rpm: nat, cap: nat, key: string, past: seq<Request>, window: seq<Request>,
                             lo: real, hi: real)
  {
    var lim := LimitOf(rpm);
    (forall r :: r in window ==> lo <= r.now <= hi) ==>
      AllowedCount(key, window, RunChecks(lim, RunChecks(lim, map[], cap, past).0, cap, window).1) as real
      <= lim.capacity + Minted(lim, lo, hi)
  }

  ghost predicate AlwaysWithinRate(late: real) {
    forall rpm: nat, cap: nat, key: string, top: real, past, window, lo: real, hi: real
      {:trigger Behind(top, late, past + window), WithinRate(rpm, cap, key, past, window, lo, hi)} ::
      rpm > 0 && lo <= hi && Behind(top, late, past + window) ==> WithinRate(rpm, cap, key, past, window, lo, hi)
  }

  lemma {:induction false} InOrder(top: real, late: real, past: seq<Request>, window: seq<Request>)
    requires late <= 0.0 && Behind(top, late, past + window) && window != []
    ensures Monotone(window[0].now, window)
    decreases |past| + |window|
  {
    var rs := past + window;
    if past == [] {
      assert rs == window;
      if |window| > 1 {
        assert [] + window[1..] == window[1..];
        InOrder(Max(top, window[0].now), late, [], window[1..]);
      }
    } else {
      assert rs[1..] == past[1..] + window;
      InOrder(Max(top, rs[0].now), late, past[1..], window);
    }
  }

  /** The plain rate bounds every window of every run with readings at most `late` seconds behind exactly when none is
      late at all. */
  lemma AlwaysWithinRateIff(late: real)
    ensures AlwaysWithinRate(late) <==> late <= 0.0
  {
    if late <= 0.0 {
      forall rpm: nat, cap: nat, key: string, top: real, past, window, lo: real, hi: real
        | rpm > 0 && lo <= hi && Behind(top, late, past + window)
        ensures WithinRate(rpm, cap, key, past, window, lo, hi)
      {
        OrderedIsWithinRate(rpm, cap, key, top, late, past, window, lo, hi);
      }
    } else {
      var h, rs := LateReadingsBeatTheRate(late, 1);
      var rpm: nat, cap: nat, top, lo, hi := 1, 1, 0.0, -h, 0.0;
      var past: seq<Request> := [];
      HalfAToken(ONE_RPM, h);
      assert Behind(top, late, past + rs) by { assert past + rs == rs; }
      assert !WithinRate(rpm, cap, "k", past, rs, lo, hi);
    }
  }

  lemma OrderedIsWithinRate(rpm: nat, cap: nat, key: string, top: real, late: real, past: seq<Request>,
                            window: seq<Request>, lo: real, hi: real)
    requires rpm > 0 && lo <= hi && late <= 0.0 && Behind(top, late, past + window)
    ensures WithinRate(rpm, cap, key, past, window, lo, hi)
  {
    var lim := LimitOf(rpm);
    if window == [] {
      MintedGrows(lim, lo, hi);
    } else if forall r :: r in window ==> lo <= r.now <= hi {
      InOrder(top, late, past, window);
      SpannedIsWithin(lim, cap, key, past, window, lo, hi);
    }
  }

  lemma SpannedIsWithin(lim: Limit, cap: nat, key: string, past: seq<Request>, window: seq<Request>, lo: real, hi: real)
    requires Limiting(lim) && window != [] && Monotone(window[0].now, window)
    requires forall r :: r in window ==> lo <= r.now <= hi
    ensures AllowedCount(key, window, RunChecks(lim, RunChecks(lim, map[], cap, past).0, cap, window).1) as real
            <= lim.capacity + Minted(lim, lo, hi)
  {
    var count := OrderedWindowBound(lim, cap, key, past, window);
    var first, last := window[0], window[|window| - 1];
    assert first in window && last in window;
    MintedWithin(lim, lo, first.now, last.now, hi);
  }

  lemma MintedWithin(lim: Limit, lo: real, a: real, b: real, hi: real)
    requires lo <= a <= hi && lo <= b <= hi && lim.rate >= 0.0
    ensures Minted(lim, a, b) <= Minted(lim, lo, hi)
  {
    Scales(Since(b, a), Since(hi, lo), lim.rate);
  }

  const A := Request("a", 0.0)
  const B := Request("b", 0.0)
  const C := Request("c", 600.0)

  /** What requests A and B leave behind, what C leaves, and a last request of A's key that its old bucket would
      refuse. */
  ghost predicate Refilling(lim: Limit, early: Bucket, late: Bucket, d: Request) {
    && Limiting(lim) && early.lastSeen == 0.0 && d.key == "a"
    && Take(lim, Fresh(lim, A.now), A.now) == (early, Allowed) && Take(lim, Fresh(lim, C.now), C.now) == (late, Allowed)
    && Take(lim, early, d.now).1.Limited? && Take(lim, Fresh(lim, d.now), d.now).1 == Allowed
  }

  lemma CheckRoom(lim: Limit, bs: Buckets, key: string, now: real)
    requires Limiting(lim) && key !in bs && |bs| < 2
    ensures var (b, v) := Take(lim, Fresh(lim, now), now);
            Check(lim, bs, key, 2, now) == (bs[key := b], v) && !CapRefuses(lim, bs, key, 2, now)
  {
  }

  lemma CheckSweeps(lim: Limit, bs: Buckets, key: string, now: real)
    requires Limiting(lim) && key !in bs && |bs| == 2 && forall k :: k in bs ==> Since(now, bs[k].lastSeen) >= IDLE_SECS
    ensures var (b, v) := Take(lim, Fresh(lim, now), now);
            Check(lim, bs, key, 2, now) == (map[key := b], v) && !CapRefuses(lim, bs, key, 2, now)
  {
    assert Swept(bs, now) == map[];
  }

  lemma FreeFirst(lim: Limit, bs: Buckets, r: Request, rs: seq<Request>, skip: seq<bool>)
    requires |skip| == |rs|
    ensures RunFree(lim, bs, [r] + rs, [false] + skip)
            == [FreeCheck(lim, bs, r.key, r.now).1] + RunFree(lim, FreeCheck(lim, bs, r.key, r.now).0, rs, skip)
  {
    assert ([r] + rs)[1..] == rs && ([false] + skip)[1..] == skip;
  }

  /** The bounded limiter fills up, sweeps both keys, and gives the last request a fresh bucket. */
  lemma SweptRun(lim: Limit, early: Bucket, late: Bucket, d: Request) returns (vs: seq<Verdict>)
    requires Refilling(lim, early, late, d)
    ensures var rs := [A] + ([B] + ([C] + ([d] + [])));
            && vs == RunChecks(lim, map[], 2, rs).1 && vs[3] == Allowed
            && CapRefusals(lim, map[], 2, rs) == [false] + ([false] + ([false] + ([false] + [])))
  {
    var one, swept := map["a" := early], map["c" := late];
    var two := one["b" := early];
    CheckRoom(lim, map[], "a", A.now);
    assert map[]["a" := early] == one;
    CheckRoom(lim, one, "b", B.now);
    CheckSweeps(lim, two, "c", C.now);
    CheckRoom(lim, swept, "a", d.now);
    RunFirst(lim, swept, 2, d, []);
    RunFirst(lim, two, 2, C, [d] + []);
    RunFirst(lim, one, 2, B, [C] + ([d] + []));
    RunFirst(lim, map[], 2, A, [B] + ([C] + ([d] + [])));
    vs := RunChecks(lim, map[], 2, [A] + ([B] + ([C] + ([d] + [])))).1;
  }

  /** The reference still has the old bucket. */
  lemma FreeRun(lim: Limit, early: Bucket, late: Bucket, d: Request) returns (vs: seq<Verdict>)
    requires Refilling(lim, early, late, d)
    ensures vs == RunFree(lim, map[], [A] + ([B] + ([C] + ([d] + []))),
                          [false] + ([false] + ([false] + ([false] + []))))
    ensures vs[3].Limited?
  {
    var f1 := FreeCheck(lim, map[], A.key, A.now).0;
    var f2 := FreeCheck(lim, f1, B.key, B.now).0;
    var f3 := FreeCheck(lim, f2, C.key, C.now).0;
    assert f1["a"] == f2["a"] == f3["a"] == early;
    FreeFirst(lim, f3, d, [], []);
    FreeFirst(lim, f2, C, [d] + [], [false] + []);
    FreeFirst(lim, f1, B, [C] + ([d] + []), [false] + ([false] + []));
    FreeFirst(lim, map[], A, [B] + ([C] + ([d] + [])), [false] + ([false] + ([false] + [])));
    vs := RunFree(lim, map[], [A] + ([B] + ([C] + ([d] + []))), [false] + ([false] + ([false] + ([false] + []))));
  }

  lemma FreshTake(lim: Limit, now: real)
    requires Limiting(lim)
    ensures Take(lim, Fresh(lim, now), now) == (Bucket(lim.capacity - 1.0, now, now), Allowed)
  {
    assert Minted(lim, now, now) == 0.0;
  }

  lemma WithinTheMinute(lim: Limit, now: real)
    requires Limiting(lim) && lim.capacity == 1.0 && now < 60.0
    ensures Take(lim, EMPTY_EARLY, now).1.Limited?
  {
    var elapsed := Since(now, 0.0);
    assert Minted(lim, 0.0, now) == elapsed * lim.rate < 60.0 * lim.rate;
  }

  lemma OneTokenRefilling(lim: Limit, d: Request)
    requires Limiting(lim) && lim.capacity == 1.0 && d.key == "a" && d.now < 60.0
    ensures Refilling(lim, EMPTY_EARLY, Bucket(0.0, C.now, C.now), d)
  {
    FreshTake(lim, A.now);
    FreshTake(lim, C.now);
    FreshTake(lim, d.now);
    WithinTheMinute(lim, d.now);
  }

  /** Nor is the sweep invisible to readings more than 540 s late: a key swept at 600 s is let through by a fresh
      bucket where its own would still be refilling. */
  lemma LateReadingsShowTheSweep(late: real) returns (rpm: nat, cap: nat, top: real, rs: seq<Request>)
    requires late > SLACK_SECS
    ensures rpm == 1 && cap == 2 && |rs| == 4 && Behind(top, late, rs) && !Invisible(rpm, cap, rs)
  {
    rpm, cap, top := 1, 2, 0.0;
    var d := Request("a", 600.0 - late);
    rs := [A] + ([B] + ([C] + ([d] + [])));
    OneTokenRefilling(ONE_RPM, d);
    var vs := SweptRun(ONE_RPM, EMPTY_EARLY, Bucket(0.0, C.now, C.now), d);
    var free := FreeRun(ONE_RPM, EMPTY_EARLY, Bucket(0.0, C.now, C.now), d);
    BehindFirst(600.0, late, d, []);
    BehindFirst(0.0, late, C, [d] + []);
    BehindFirst(0.0, late, B, [C] + ([d] + []));
    BehindFirst(0.0, late, A, [B] + ([C] + ([d] + [])));
  }

  lemma BehindFirst(top: real, late: real, r: Request, rs: seq<Request>)
    ensures Behind(top, late, [r] + rs) <==> top - late <= r.now && Behind(Max(top, r.now), late, rs)
  {
    assert ([r] + rs)[1..] == rs;
  }

  ghost predicate AlwaysInvisible(late: real) {
    forall rpm: nat, cap: nat, top: real, rs {:trigger Behind(top, late, rs), Invisible(rpm, cap, rs)} ::
      Behind(top, late, rs) ==> Invisible(rpm, cap, rs)
  }

  /** The sweep is invisible on all runs with readings at most `late` seconds behind exactly when `late` is within
      540 s. */
  lemma SweepIsInvisibleIff(late: real)
    ensures AlwaysInvisible(late) <==> late <= SLACK_SECS
  {
    if late <= SLACK_SECS {
      forall rpm: nat, cap: nat, top: real, rs | Behind(top, late, rs)
        ensures Invisible(rpm, cap, rs)
      {
        BehindLess(top, late, SLACK_SECS, rs);
        SweepIsInvisible(rpm, cap, top, rs);
      }
    } else {
      var rpm, cap, top, rs := LateReadingsShowTheSweep(late);
    }
  }
}
