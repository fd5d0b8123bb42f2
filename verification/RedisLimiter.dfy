/** The rate limiter shared by all replicas: buckets in Redis hashes that expire. Time is
    in milliseconds. */
module RedisLimiter {
  import opened TokenBucket

  function Ceil(x: real): int {
    -((-x).Floor)
  }

  function SharedLimits(rpm: nat, burst: nat): (l: Limits) {
    Limits(burst as real, rpm as real / 60000.0)
  }

  function TtlSeconds(rpm: nat, burst: nat): (ttl: nat)
    requires rpm >= 1
    ensures ttl >= 60
  {
    var refillSeconds := Ceil(burst as real / (rpm as real / 60.0));
    if 2 * refillSeconds >= 60 then 2 * refillSeconds else 60
  }

  /** A hash and the instant at which it expires. */
  datatype Key = Key(bucket: Bucket, deadline: real)

  type Keys = map<string, Key>

  /** An expired key is gone for every reader. */
  predicate Live(keys: Keys, client: string, now: real) {
    client in keys && now < keys[client].deadline
  }

  function HeldInRedis(l: Limits, keys: Keys, client: string, now: real): real {
    if Live(keys, client, now) then Level(l, keys[client].bucket, now) else l.burst
  }

  function RedisStep(l: Limits, ttl: nat, keys: Keys, r: Request): (Keys, Outcome) {
    var o := Serve(HeldInRedis(l, keys, r.client, r.now));
    (keys[r.client := Key(Bucket(o.left, r.now), r.now + 1000.0 * ttl as real)], o)
  }

  /** Seconds to wait, told to a refused client. */
  function RetryAfter(l: Limits, o: Outcome): int
    requires l.Sound()
  {
    if o.allowed then 0 else Wait(l, o.left)
  }

  function Wait(l: Limits, left: real): int
    requires l.Sound()
  {
    var wait := Ceil((1.0 - left) / (l.rate * 1000.0));
    if wait >= 1 then wait else 1
  }

  class Redis {
    var keys: Keys

    constructor ()
      ensures keys == map[]
    {
      keys := map[];
    }

    /** The script, which Redis runs atomically. */
    method Consume(rpm: nat, burst: nat, client: string, now: real) returns (allowed: bool, retryAfter: int)
      requires rpm >= 1 && burst >= 1
      modifies this
      ensures var l := SharedLimits(rpm, burst);
              var step := RedisStep(l, TtlSeconds(rpm, burst), old(keys), Request(client, now));
              keys == step.0 && allowed == step.1.allowed && retryAfter == RetryAfter(l, step.1)
    {
      var l := SharedLimits(rpm, burst);
      var ttl := TtlSeconds(rpm, burst);
      var tokens, at := l.burst, now;
      if Live(keys, client, now) {
        tokens, at := keys[client].bucket.tokens, keys[client].bucket.at;
      }
      LevelAtOnce(l, now);
      tokens := Level(l, Bucket(tokens, at), now);
      assert tokens == HeldInRedis(l, keys, client, now);
      allowed := false;
      if tokens >= 1.0 {
        tokens := tokens - 1.0;
        allowed := true;
      }
      keys := keys[client := Key(Bucket(tokens, now), now + 1000.0 * ttl as real)];
      retryAfter := 0;
      if !allowed {
        retryAfter := Wait(l, tokens);
      }
    }
  }

  // ---------------------------------------------------------------------------
  // Expiry cannot be observed
  // ---------------------------------------------------------------------------

  function RedisRun(l: Limits, ttl: nat, keys: Keys, requests: seq<Request>): (answers: seq<Outcome>)
    ensures |answers| == |requests|
    decreases |requests|
  {
    if requests == [] then []
    else
      var step := RedisStep(l, ttl, keys, requests[0]);
      [step.1] + RedisRun(l, ttl, step.0, requests[1..])
  }

  /** A key that is left alone until it expires would be full by then. */
  predicate Covers(l: Limits, ttl: nat) {
    1000.0 * ttl as real * l.rate >= l.burst
  }

  lemma TtlCovers(rpm: nat, burst: nat)
    requires rpm >= 1 && burst >= 1
    ensures SharedLimits(rpm, burst).Sound()
    ensures Covers(SharedLimits(rpm, burst), TtlSeconds(rpm, burst))
  {
    var perSecond := rpm as real / 60.0;
    var refill := burst as real / perSecond;
    var ttl := TtlSeconds(rpm, burst) as real;
    assert refill * perSecond == burst as real;
    assert refill >= 0.0;
    assert ttl >= refill;
    assert ttl * perSecond >= refill * perSecond;
    var rate := rpm as real / 60000.0;
    assert 1000.0 * rate == perSecond;
    assert 1000.0 * ttl * rate == ttl * (1000.0 * rate);
  }

  /** The store that expires and the one that never does hold the same buckets. */
  predicate Coupled(l: Limits, ttl: nat, keys: Keys, buckets: Buckets, now: real) {
    && keys.Keys == buckets.Keys
    && forall c :: c in keys ==>
         && keys[c].bucket == buckets[c]
         && Kept(l, buckets[c], now)
         && keys[c].deadline == buckets[c].at + 1000.0 * ttl as real
  }

  lemma SameHeld(l: Limits, ttl: nat, keys: Keys, buckets: Buckets, client: string, now: real)
    requires l.Sound() && Covers(l, ttl) && Coupled(l, ttl, keys, buckets, now)
    ensures HeldInRedis(l, keys, client, now) == Held(l, buckets, client, now)
    ensures 0.0 <= Held(l, buckets, client, now) <= l.burst
  {
    if client in keys {
      var b := buckets[client];
      assert keys[client].bucket == b;
      LevelGrows(l, b, now, now);
      if !Live(keys, client, now) {
        FullByThen(l, b, 1000.0 * ttl as real, now);
      }
    } else {
      assert client !in buckets.Keys;
    }
  }

  lemma FullByThen(l: Limits, b: Bucket, wait: real, now: real)
    requires l.Sound() && Kept(l, b, now) && wait >= 0.0 && wait * l.rate >= l.burst && now >= b.at + wait
    ensures Level(l, b, now) == l.burst
  {
    GainAdds(l, b.at, b.at + wait, now);
    assert Gain(l, b.at, b.at + wait) == wait * l.rate;
  }

  lemma CoupledStep(l: Limits, ttl: nat, keys: Keys, buckets: Buckets, r: Request, now: real)
    requires l.Sound() && Covers(l, ttl) && Coupled(l, ttl, keys, buckets, now) && now <= r.now
    ensures var step, ideal := RedisStep(l, ttl, keys, r), IdealStep(l, buckets, r);
            step.1 == ideal.1 && Coupled(l, ttl, step.0, ideal.0, r.now)
  {
    SameHeld(l, ttl, keys, buckets, r.client, r.now);
  }

  lemma {:induction false} ExpiryIsUnobservableFrom(l: Limits, ttl: nat, keys: Keys, buckets: Buckets,
                                                    requests: seq<Request>, now: real)
    requires l.Sound() && Covers(l, ttl) && Coupled(l, ttl, keys, buckets, now) && InOrder(requests, now)
    ensures RedisRun(l, ttl, keys, requests) == IdealRun(l, buckets, requests)
    decreases |requests|
  {
    if requests != [] {
      CoupledStep(l, ttl, keys, buckets, requests[0], now);
      ExpiryIsUnobservableFrom(l, ttl, RedisStep(l, ttl, keys, requests[0]).0,
        IdealStep(l, buckets, requests[0]).0, requests[1..], requests[0].now);
    }
  }

  /** For every sequence of requests in order of time, the expiring store gives the
      answers of one that never expires. */
  lemma ExpiryIsUnobservable(rpm: nat, burst: nat, requests: seq<Request>, start: real)
    requires rpm >= 1 && burst >= 1 && InOrder(requests, start)
    ensures RedisRun(SharedLimits(rpm, burst), TtlSeconds(rpm, burst), map[], requests)
         == IdealRun(SharedLimits(rpm, burst), map[], requests)
  {
    TtlCovers(rpm, burst);
    ExpiryIsUnobservableFrom(SharedLimits(rpm, burst), TtlSeconds(rpm, burst), map[], map[], requests, start);
  }

  // ---------------------------------------------------------------------------
  // Waiting as told is enough, and about as short as can be
  // ---------------------------------------------------------------------------

  /** Seconds times tokens per second, whichever way the factors are grouped. */
  lemma PerSecond(wait: real, rate: real)
    ensures 1000.0 * wait * rate == wait * (rate * 1000.0)
  {
  }

  lemma MoreGains(perSecond: real, more: real, less: real)
    requires perSecond > 0.0 && more >= less
    ensures more * perSecond >= less * perSecond
    ensures more > less ==> more * perSecond > less * perSecond
  {
    var d := more - less;
    assert d * perSecond >= 0.0;
    assert d > 0.0 ==> d * perSecond > 0.0;
    assert more * perSecond == less * perSecond + d * perSecond;
  }

  lemma Enough(left: real, rate: real, wait: real, need: real)
    requires rate > 0.0 && need * (rate * 1000.0) == 1.0 - left && wait >= need
    ensures left + 1000.0 * wait * rate >= 1.0
  {
    PerSecond(wait, rate);
    MoreGains(rate * 1000.0, wait, need);
  }

  lemma TooEarly(left: real, rate: real, wait: real, need: real)
    requires rate > 0.0 && need * (rate * 1000.0) == 1.0 - left && wait < need
    ensures left + 1000.0 * wait * rate < 1.0
  {
    PerSecond(wait, rate);
    MoreGains(rate * 1000.0, need, wait);
  }

  lemma Quotient(a: real, b: real)
    requires b > 0.0
    ensures a / b * b == a && (a > 0.0 ==> a / b > 0.0)
  {
  }

  lemma WaitIsLeast(l: Limits, left: real)
    requires l.Sound() && left < 1.0
    ensures var wait := Wait(l, left);
            && wait >= 1
            && left + 1000.0 * wait as real * l.rate >= 1.0
            && (wait > 1 ==> left + 1000.0 * (wait - 1) as real * l.rate < 1.0)
  {
    var need := (1.0 - left) / (l.rate * 1000.0);
    var wait := Wait(l, left);
    Quotient(1.0 - left, l.rate * 1000.0);
    Enough(left, l.rate, wait as real, need);
    if wait > 1 {
      TooEarly(left, l.rate, (wait - 1) as real, need);
    }
  }

  lemma LevelAfter(l: Limits, left: real, now: real, wait: real)
    requires wait >= 0.0
    ensures Level(l, Bucket(left, now), now + wait) == Min(l.burst, left + wait * l.rate)
  {
    assert now + wait - now == wait;
  }

  /** A refused client that waits for `RetryAfter` seconds is let through, and one that
      comes back a whole second earlier is not. */
  lemma RetryAfterIsExact(l: Limits, left: real, now: real)
    requires l.Sound() && left < 1.0
    ensures var wait := RetryAfter(l, Outcome(false, left));
            && wait >= 1
            && Serve(Level(l, Bucket(left, now), now + 1000.0 * wait as real)).allowed
            && (wait > 1 ==> !Serve(Level(l, Bucket(left, now), now + 1000.0 * (wait - 1) as real)).allowed)
  {
    var wait := Wait(l, left);
    WaitIsLeast(l, left);
    LevelAfter(l, left, now, 1000.0 * wait as real);
    if wait > 1 {
      LevelAfter(l, left, now, 1000.0 * (wait - 1) as real);
    }
  }
}
