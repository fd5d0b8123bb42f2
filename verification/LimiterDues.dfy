/** What a client is due: no limiter refuses a client that has tokens, and whoever is
    refused has used up a full bucket and the refill since. */
module LimiterDues {
  import opened TokenBucket
  import opened LocalLimiter
  import RedisLimiter

  lemma LocalRunUnfolds(l: Limits, table: Table, requests: seq<Request>)
    requires requests != []
    ensures var step, answers := LocalStep(l, table, requests[0]), LocalRun(l, table, requests);
            answers[0] == step.1 && answers[1..] == LocalRun(l, step.0, requests[1..])
  {
  }

  // ---------------------------------------------------------------------------
  // Tokens can be used
  // ---------------------------------------------------------------------------

  /** One request of `c` takes one of its tokens, if there is one; others take none. */
  lemma UseStep(l: Limits, table: Table, r: Request, now: real, c: string, n: nat)
    returns (after: Table, first: Outcome)
    requires l.Sound() && Orderly(l, table, now) && now <= r.now && n >= 1
    requires HeldLocally(l, table, c, now) >= n as real
    ensures (after, first) == LocalStep(l, table, r) && Orderly(l, after, r.now)
    ensures r.client == c ==> first.allowed
    ensures HeldLocally(l, after, c, r.now) >= (if r.client == c then n - 1 else n) as real
  {
    after, first := LocalStep(l, table, r).0, LocalStep(l, table, r).1;
    StepOfClient(l, table, r, now, c);
    HeldIsBounded(l, table, c, now);
    if Has(table, c) {
      LevelGrows(l, Lookup(table, c), now, r.now);
    }
    TableStaysOrderly(l, table, r, now);
    LevelOfLeft(l, first.left, r.now);
  }

  lemma {:induction false} LocalPurse(l: Limits, table: Table, requests: seq<Request>, now: real, c: string, n: nat)
    requires l.Sound() && Orderly(l, table, now) && InOrder(requests, now)
    requires HeldLocally(l, table, c, now) >= n as real
    ensures Purse(LocalRun(l, table, requests), requests, c, n)
    decreases |requests|
  {
    if requests != [] && n > 0 {
      var r := requests[0];
      var after, first := UseStep(l, table, r, now, c, n);
      LocalRunUnfolds(l, table, requests);
      LocalPurse(l, after, requests[1..], r.now, c, if r.client == c then n - 1 else n);
    }
  }

  /** A client that holds `n` tokens is let through `n` times in a row, however its
      requests and those of others interleave. From an empty table that is `burst`
      times. */
  lemma TokensCanBeUsed(rpm: nat, burst: nat, table: Table, requests: seq<Request>, start: real, c: string, k: nat,
                        n: nat)
    requires rpm >= 1 && burst >= 1 && Orderly(LocalLimits(rpm, burst), table, start) && InOrder(requests, start)
    requires k < |requests| && requests[k].client == c && Asked(requests, c, 0, k) < n
    requires HeldLocally(LocalLimits(rpm, burst), table, c, start) >= n as real || (!Has(table, c) && n <= burst)
    ensures LocalRun(LocalLimits(rpm, burst), table, requests)[k].allowed
  {
    var l := LocalLimits(rpm, burst);
    LocalPurse(l, table, requests, start, c, n);
    PurseAt(LocalRun(l, table, requests), requests, c, n, k);
  }

  // ---------------------------------------------------------------------------
  // Refusals are earned
  // ---------------------------------------------------------------------------

  /** The bucket of `c` is full when the request comes, or its eviction refills it. */
  predicate FullFor(l: Limits, table: Table, r: Request, c: string) {
    r.client == c && (EvictedEarly(l, table, r, c) || HeldLocally(l, table, c, r.now) >= l.burst)
  }

  /** How a request moves the account of `c`. */
  lemma AccountStep(l: Limits, table: Table, r: Request, now: real, c: string, spent: nat, since: real)
    requires l.Sound() && Orderly(l, table, now) && now <= r.now
    requires Has(table, c) ==> Accounts(l, Lookup(table, c), spent, since, now)
    ensures var step, full := LocalStep(l, table, r), FullFor(l, table, r, c);
            && (full ==> step.1.allowed)
            && (Has(step.0, c) ==>
                  Accounts(l, Lookup(step.0, c), SpentAfter(full, spent, step.1, r, c),
                           SinceAfter(full, since, r.now), r.now))
            && (!full && (r.client == c || Has(step.0, c)) ==> Has(table, c))
            && (r.client == c && !step.1.allowed ==> Exhausts(l, spent, since, r.now))
  {
    StepOfClient(l, table, r, now, c);
    if r.client == c {
      KeptLater(l, table, now, r.now);
      HeldIsBounded(l, table, c, r.now);
      FreshAccount(l, r.now);
      if !FullFor(l, table, r, c) {
        AccountGoesOn(l, Lookup(table, c), spent, since, r.now);
      }
    }
  }

  /** One request, with the account of `c` after it. */
  lemma Drawing(l: Limits, table: Table, r: Request, now: real, c: string, spent: nat, since: real)
    returns (after: Table, first: Outcome, full: bool)
    requires l.Sound() && Orderly(l, table, now) && now <= r.now
    requires Has(table, c) ==> Accounts(l, Lookup(table, c), spent, since, now)
    ensures (after, first) == LocalStep(l, table, r) && Orderly(l, after, r.now)
    ensures Has(after, c) ==>
              Accounts(l, Lookup(after, c), SpentAfter(full, spent, first, r, c), SinceAfter(full, since, r.now), r.now)
    ensures Books(l, first, r, c, Has(table, c), Has(after, c), full, spent, since)
  {
    full := FullFor(l, table, r, c);
    after, first := LocalStep(l, table, r).0, LocalStep(l, table, r).1;
    AccountStep(l, table, r, now, c, spent, since);
    TableStaysOrderly(l, table, r, now);
  }

  lemma {:induction false} LocalLedger(l: Limits, table: Table, requests: seq<Request>, now: real, c: string,
                                       spent: nat, since: real)
    requires l.Sound() && Orderly(l, table, now) && InOrder(requests, now)
    requires Has(table, c) ==> Accounts(l, Lookup(table, c), spent, since, now)
    ensures Ledger(l, LocalRun(l, table, requests), requests, c, Has(table, c), spent, since)
    decreases |requests|
  {
    if requests != [] {
      var r := requests[0];
      var after, first, full := Drawing(l, table, r, now, c, spent, since);
      LocalRunUnfolds(l, table, requests);
      LocalLedger(l, after, requests[1..], r.now, c, SpentAfter(full, spent, first, r, c),
                  SinceAfter(full, since, r.now));
    }
  }

  /** `n` admissions in a stretch of time use up a full bucket and its refill. */
  predicate UsesUp(n: nat, burst: real, rate: real, time: real) {
    n as real > burst + time * rate - 1.0
  }

  lemma ExhaustsIsUse(l: Limits, n: nat, since: real, until: real)
    requires since <= until && Exhausts(l, n, since, until)
    ensures UsesUp(n, l.burst, l.rate, until - since)
  {
    assert Gain(l, since, until) == (until - since) * l.rate;
  }

  lemma EarnedAt(l: Limits, answers: seq<Outcome>, requests: seq<Request>, start: real, c: string, k: nat)
    returns (m: nat)
    requires InOrder(requests, start) && k < |requests| == |answers| && Earned(l, answers, requests, c, k)
    ensures m < k && requests[m].client == c && requests[m].now <= requests[k].now
    ensures UsesUp(LetThrough(answers, requests, c, m, k), l.burst, l.rate, requests[k].now - requests[m].now)
  {
    m :| m < k && requests[m].client == c
      && Exhausts(l, LetThrough(answers, requests, c, m, k), requests[m].now, requests[k].now);
    InOrderBetween(requests, start, m, k);
    ExhaustsIsUse(l, LetThrough(answers, requests, c, m, k), requests[m].now, requests[k].now);
  }

  lemma {:induction false} InOrderBetween(requests: seq<Request>, start: real, m: nat, k: nat)
    requires InOrder(requests, start) && m <= k < |requests|
    ensures requests[m].now <= requests[k].now
    decreases m
  {
    if m > 0 {
      InOrderBetween(requests[1..], requests[0].now, m - 1, k - 1);
    } else if k > 0 {
      InOrderLater(requests[1..], requests[0].now, k - 1);
    }
  }

  /** Whenever a client is refused, there is an earlier request of its own since which it
      was let through more than burst + T * rpm / 60 - 1 times, where T is the time
      between. So with the bound on admissions no limiter of these limits refuses less. */
  lemma RefusalIsEarned(rpm: nat, burst: nat, requests: seq<Request>, start: real, c: string, k: nat)
    returns (m: nat)
    requires rpm >= 1 && burst >= 1 && InOrder(requests, start) && k < |requests| && requests[k].client == c
    requires !LocalRun(LocalLimits(rpm, burst), [], requests)[k].allowed
    ensures m < k && requests[m].client == c && requests[m].now <= requests[k].now
    ensures LetThrough(LocalRun(LocalLimits(rpm, burst), [], requests), requests, c, m, k) as real
            > burst as real + (requests[k].now - requests[m].now) * (rpm as real / 60.0) - 1.0
  {
    m := LocalRefusalEarned(LocalLimits(rpm, burst), requests, start, c, k);
  }

  lemma LocalRefusalEarned(l: Limits, requests: seq<Request>, start: real, c: string, k: nat) returns (m: nat)
    requires l.Sound() && InOrder(requests, start) && k < |requests| && requests[k].client == c
    requires !LocalRun(l, [], requests)[k].allowed
    ensures m < k && requests[m].client == c && requests[m].now <= requests[k].now
    ensures UsesUp(LetThrough(LocalRun(l, [], requests), requests, c, m, k), l.burst, l.rate,
                   requests[k].now - requests[m].now)
  {
    LocalLedger(l, [], requests, start, c, 0, start);
    LedgerEarns(l, LocalRun(l, [], requests), requests, c, k, false, 0, start);
    m := EarnedAt(l, LocalRun(l, [], requests), requests, start, c, k);
  }

  lemma IdealRefusalEarned(l: Limits, requests: seq<Request>, start: real, c: string, k: nat) returns (m: nat)
    requires l.Sound() && InOrder(requests, start) && k < |requests| && requests[k].client == c
    requires !IdealRun(l, map[], requests)[k].allowed
    ensures m < k && requests[m].client == c && requests[m].now <= requests[k].now
    ensures UsesUp(LetThrough(IdealRun(l, map[], requests), requests, c, m, k), l.burst, l.rate,
                   requests[k].now - requests[m].now)
  {
    IdealLedger(l, map[], requests, start, c, 0, start);
    LedgerEarns(l, IdealRun(l, map[], requests), requests, c, k, false, 0, start);
    m := EarnedAt(l, IdealRun(l, map[], requests), requests, start, c, k);
  }

  // ---------------------------------------------------------------------------
  // The shared limiter
  // ---------------------------------------------------------------------------

  /** The answers of the shared limiter from its start. */
  function SharedAnswers(rpm: nat, burst: nat, requests: seq<Request>): (answers: seq<Outcome>)
    requires rpm >= 1
    ensures |answers| == |requests|
  {
    RedisLimiter.RedisRun(RedisLimiter.SharedLimits(rpm, burst), RedisLimiter.TtlSeconds(rpm, burst), map[], requests)
  }

  lemma SharedIsIdeal(rpm: nat, burst: nat, requests: seq<Request>, start: real)
    requires rpm >= 1 && burst >= 1 && InOrder(requests, start)
    ensures RedisLimiter.SharedLimits(rpm, burst).Sound()
    ensures SharedAnswers(rpm, burst, requests) == IdealRun(RedisLimiter.SharedLimits(rpm, burst), map[], requests)
  {
    RedisLimiter.ExpiryIsUnobservable(rpm, burst, requests, start);
  }

  /** From its start the shared limiter, too, lets a client through `burst` times. */
  lemma SharedTokensCanBeUsed(rpm: nat, burst: nat, requests: seq<Request>, start: real, c: string, k: nat)
    requires rpm >= 1 && burst >= 1 && InOrder(requests, start)
    requires k < |requests| && requests[k].client == c && Asked(requests, c, 0, k) < burst
    ensures SharedAnswers(rpm, burst, requests)[k].allowed
  {
    var l := RedisLimiter.SharedLimits(rpm, burst);
    SharedIsIdeal(rpm, burst, requests, start);
    IdealPurse(l, map[], requests, start, c, burst);
    PurseAt(IdealRun(l, map[], requests), requests, c, burst, k);
  }

  lemma SharedRefusal(rpm: nat, burst: nat, requests: seq<Request>, start: real, c: string, k: nat) returns (m: nat)
    requires rpm >= 1 && burst >= 1 && InOrder(requests, start) && k < |requests| && requests[k].client == c
    requires !SharedAnswers(rpm, burst, requests)[k].allowed
    ensures m < k && requests[m].client == c && requests[m].now <= requests[k].now
    ensures var l := RedisLimiter.SharedLimits(rpm, burst);
            UsesUp(LetThrough(SharedAnswers(rpm, burst, requests), requests, c, m, k), l.burst, l.rate,
                   requests[k].now - requests[m].now)
  {
    SharedIsIdeal(rpm, burst, requests, start);
    m := IdealRefusalEarned(RedisLimiter.SharedLimits(rpm, burst), requests, start, c, k);
  }

  lemma PerMillisecond(n: nat, rpm: nat, burst: nat, time: real)
    requires UsesUp(n, RedisLimiter.SharedLimits(rpm, burst).burst, RedisLimiter.SharedLimits(rpm, burst).rate, time)
    ensures n as real > burst as real + time * (rpm as real / 60000.0) - 1.0
  {
  }

  /** The same for the shared limiter, in milliseconds. */
  lemma SharedRefusalIsEarned(rpm: nat, burst: nat, requests: seq<Request>, start: real, c: string, k: nat)
    returns (m: nat)
    requires rpm >= 1 && burst >= 1 && InOrder(requests, start) && k < |requests| && requests[k].client == c
    requires !SharedAnswers(rpm, burst, requests)[k].allowed
    ensures m < k && requests[m].client == c && requests[m].now <= requests[k].now
    ensures LetThrough(SharedAnswers(rpm, burst, requests), requests, c, m, k) as real
            > burst as real + (requests[k].now - requests[m].now) * (rpm as real / 60000.0) - 1.0
  {
    m := SharedRefusal(rpm, burst, requests, start, c, k);
    PerMillisecond(LetThrough(SharedAnswers(rpm, burst, requests), requests, c, m, k), rpm, burst,
                   requests[k].now - requests[m].now);
  }

  /** In a stretch of time it lets a client through at most burst + T * rpm / 60000
      times. */
  lemma SharedTokensAreConserved(rpm: nat, burst: nat, requests: seq<Request>, start: real, end: real, c: string)
    requires rpm >= 1 && burst >= 1 && InOrder(requests, start) && start <= end
    requires requests != [] ==> requests[|requests| - 1].now <= end
    ensures LetThrough(SharedAnswers(rpm, burst, requests), requests, c, 0, |requests|) as real
            <= burst as real + (end - start) * (rpm as real / 60000.0)
  {
    SharedIsIdeal(rpm, burst, requests, start);
    var l := RedisLimiter.SharedLimits(rpm, burst);
    IdealConservation(l, map[], requests, start, end, c);
    SharedGain(rpm, burst, start, end);
  }

  lemma SharedGain(rpm: nat, burst: nat, start: real, end: real)
    requires start <= end
    ensures var l := RedisLimiter.SharedLimits(rpm, burst);
            l.burst + Gain(l, start, end) == burst as real + (end - start) * (rpm as real / 60000.0)
  {
  }
}
