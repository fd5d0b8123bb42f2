/** The two backends of the rate limiter compared. */
module LimiterBackends {
  import opened TokenBucket
  import LocalLimiter
  import RedisLimiter

  lemma SameRates(rpm: nat, burst: nat)
    ensures Finer(LocalLimiter.LocalLimits(rpm, burst), 1000.0) == RedisLimiter.SharedLimits(rpm, burst)
  {
    var r := rpm as real;
    assert r / 60.0 / 1000.0 == r / 60000.0;
  }

  lemma {:induction false} FinerStaysInOrder(requests: seq<Request>, start: real)
    requires InOrder(requests, start)
    ensures InOrder(InFinerUnits(requests, 1000.0), start * 1000.0)
  {
    if requests != [] {
      FinerStaysInOrder(requests[1..], requests[0].now);
    }
  }

  /** On the same requests, counted in seconds by one replica's table and in milliseconds
      by Redis, a client whose bucket is never evicted early is let through by both or
      refused by both, with the same tokens left. */
  lemma BackendsAgree(rpm: nat, burst: nat, requests: seq<Request>, start: real, c: string, k: nat)
    requires rpm >= 1 && burst >= 1 && InOrder(requests, start) && k < |requests| && requests[k].client == c
    requires LocalLimiter.EarlyEvictions(LocalLimiter.LocalLimits(rpm, burst), [], requests, c) == 0
    ensures LocalLimiter.LocalRun(LocalLimiter.LocalLimits(rpm, burst), [], requests)[k]
         == RedisLimiter.RedisRun(RedisLimiter.SharedLimits(rpm, burst), RedisLimiter.TtlSeconds(rpm, burst), map[],
              InFinerUnits(requests, 1000.0))[k]
  {
    var l := LocalLimiter.LocalLimits(rpm, burst);
    SameRates(rpm, burst);
    FinerStaysInOrder(requests, start);
    LocalLimiter.AnswersLikeIdeal(l, requests, start, c, k);
    UnitsDoNotMatter(l, map[], map[], requests, 1000.0);
    RedisLimiter.ExpiryIsUnobservable(rpm, burst, InFinerUnits(requests, 1000.0), start * 1000.0);
  }
}
