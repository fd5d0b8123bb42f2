/** Token buckets and the ideal rate limiter: one bucket for every client, kept forever.
    Amounts of tokens and instants are real numbers. */
module TokenBucket {

  /** The capacity of a bucket, and the tokens it regains per unit of time. */
  datatype Limits = Limits(burst: real, rate: real) {
    predicate Sound() {
      burst >= 1.0 && rate > 0.0
    }
  }

  datatype Bucket = Bucket(tokens: real, at: real)

  datatype Request = Request(client: string, now: real)

  /** Whether a request is let through, and what is left in its bucket. */
  datatype Outcome = Outcome(allowed: bool, left: real)

  function Min(a: real, b: real): real {
    if a <= b then a else b
  }

  /** The tokens regained from one instant to another; none if the clock went back. */
  function Gain(l: Limits, from: real, to: real): real {
    if from <= to then (to - from) * l.rate else 0.0
  }

  /** The tokens of a bucket at an instant. */
  function Level(l: Limits, b: Bucket, now: real): real {
    Min(l.burst, b.tokens + Gain(l, b.at, now))
  }

  /** A bucket as a limiter leaves it. */
  predicate Kept(l: Limits, b: Bucket, now: real) {
    0.0 <= b.tokens <= l.burst && b.at <= now
  }

  function Serve(level: real): Outcome {
    if level >= 1.0 then Outcome(true, level - 1.0) else Outcome(false, level)
  }

  lemma GainAdds(l: Limits, from: real, mid: real, to: real)
    requires l.Sound() && from <= mid <= to
    ensures Gain(l, from, to) == Gain(l, from, mid) + Gain(l, mid, to)
    ensures Gain(l, from, mid) >= 0.0 && Gain(l, mid, to) >= 0.0
  {
    Positive(mid - from, l.rate);
    Positive(to - mid, l.rate);
  }

  lemma Positive(d: real, rate: real)
    requires d >= 0.0 && rate > 0.0
    ensures d * rate >= 0.0
  {
  }

  /** Between two instants a bucket loses nothing and gains at most the refill. */
  lemma LevelGrows(l: Limits, b: Bucket, now: real, later: real)
    requires l.Sound() && Kept(l, b, now) && now <= later
    ensures 0.0 <= Level(l, b, now) <= Level(l, b, later) <= l.burst
    ensures Level(l, b, later) <= Level(l, b, now) + Gain(l, now, later)
  {
    GainAdds(l, b.at, now, later);
  }

  /** If the clock goes back, a bucket neither gains nor loses. */
  lemma GoingBackCostsNothing(l: Limits, b: Bucket, now: real)
    requires b.tokens <= l.burst && now <= b.at
    ensures Level(l, b, now) == b.tokens
  {
    if now == b.at {
      assert (now - b.at) * l.rate == 0.0;
    }
  }

  lemma LevelAtOnce(l: Limits, now: real)
    ensures Level(l, Bucket(l.burst, now), now) == l.burst
  {
  }

  // ---------------------------------------------------------------------------
  // The ideal limiter
  // ---------------------------------------------------------------------------

  type Buckets = map<string, Bucket>

  /** The tokens of a client; a client without a bucket has a full one. */
  function Held(l: Limits, buckets: Buckets, client: string, now: real): real {
    if client in buckets then Level(l, buckets[client], now) else l.burst
  }

  function IdealStep(l: Limits, buckets: Buckets, r: Request): (Buckets, Outcome) {
    var o := Serve(Held(l, buckets, r.client, r.now));
    (buckets[r.client := Bucket(o.left, r.now)], o)
  }

  function IdealRun(l: Limits, buckets: Buckets, requests: seq<Request>): (answers: seq<Outcome>)
    ensures |answers| == |requests|
    decreases |requests|
  {
    if requests == [] then []
    else
      var step := IdealStep(l, buckets, requests[0]);
      [step.1] + IdealRun(l, step.0, requests[1..])
  }

  /** Requests that come in order, none before `start`. */
  predicate InOrder(requests: seq<Request>, start: real) {
    requests == [] || (requests[0].now >= start && InOrder(requests[1..], requests[0].now))
  }

  lemma {:induction false} InOrderLater(requests: seq<Request>, start: real, k: nat)
    requires InOrder(requests, start) && k < |requests|
    ensures requests[k].now >= start
    decreases k
  {
    if k > 0 {
      InOrderLater(requests[1..], requests[0].now, k - 1);
    }
  }

  // ---------------------------------------------------------------------------
  // No client is refused what it is due
  // ---------------------------------------------------------------------------

  /** How many of the requests from one index to another come from `c`, and how many of
      them are let through. */
  function Asked(requests: seq<Request>, c: string, from: nat, to: nat): nat
    requires from <= to <= |requests|
    decreases |requests| - from
  {
    if from == to then 0 else (if requests[from].client == c then 1 else 0) + Asked(requests, c, from + 1, to)
  }

  function LetThrough(answers: seq<Outcome>, requests: seq<Request>, c: string, from: nat, to: nat): nat
    requires from <= to <= |requests| == |answers|
    decreases |requests| - from
  {
    if from == to then 0
    else
      (if requests[from].client == c && answers[from].allowed then 1 else 0)
        + LetThrough(answers, requests, c, from + 1, to)
  }

  lemma {:induction false} CountsShift(answers: seq<Outcome>, requests: seq<Request>, c: string, from: nat, to: nat)
    requires from <= to < |requests| == |answers|
    ensures LetThrough(answers, requests, c, from + 1, to + 1) == LetThrough(answers[1..], requests[1..], c, from, to)
    ensures Asked(requests, c, from + 1, to + 1) == Asked(requests[1..], c, from, to)
    decreases |requests| - from
  {
    if from < to {
      CountsShift(answers, requests, c, from + 1, to);
    }
  }

  /** The bucket was full at `since`, and `spent` tokens were taken out of it since. */
  predicate Accounts(l: Limits, b: Bucket, spent: nat, since: real, now: real) {
    since <= b.at <= now && b.tokens == l.burst - spent as real + Gain(l, since, b.at)
  }

  /** More than what a full bucket at `since` has given until `until`, short of a token. */
  predicate Exhausts(l: Limits, admitted: nat, since: real, until: real) {
    admitted as real > l.burst + Gain(l, since, until) - 1.0
  }

  /** A bucket that is not full again holds the balance of its account. */
  lemma BalanceHeld(l: Limits, b: Bucket, spent: nat, since: real, now: real)
    requires l.Sound() && Accounts(l, b, spent, since, now) && Level(l, b, now) < l.burst
    ensures Level(l, b, now) == l.burst - spent as real + Gain(l, since, now)
  {
    GainAdds(l, since, b.at, now);
  }

  /** Opening an account with a full bucket. */
  lemma FreshAccount(l: Limits, now: real)
    requires l.Sound()
    ensures Serve(l.burst).allowed && Accounts(l, Bucket(Serve(l.burst).left, now), 1, now, now)
  {
  }

  /** And drawing on it. */
  lemma AccountGoesOn(l: Limits, b: Bucket, spent: nat, since: real, now: real)
    requires l.Sound() && Accounts(l, b, spent, since, now) && Level(l, b, now) < l.burst
    ensures var o := Serve(Level(l, b, now));
            && Accounts(l, Bucket(o.left, now), spent + (if o.allowed then 1 else 0), since, now)
            && (!o.allowed ==> Exhausts(l, spent, since, now))
  {
    BalanceHeld(l, b, spent, since, now);
  }

  /** A refused client has used up a full bucket and the refill since. */
  ghost predicate Earned(l: Limits, answers: seq<Outcome>, requests: seq<Request>, c: string, k: nat)
    requires k < |requests| == |answers|
  {
    exists m: nat :: m < k && requests[m].client == c
      && Exhausts(l, LetThrough(answers, requests, c, m, k), requests[m].now, requests[k].now)
  }

  lemma EarnedLater(l: Limits, answers: seq<Outcome>, requests: seq<Request>, c: string, k: nat)
    requires k + 1 < |requests| == |answers| && Earned(l, answers[1..], requests[1..], c, k)
    ensures Earned(l, answers, requests, c, k + 1)
  {
    var m: nat :| m < k && requests[1..][m].client == c
      && Exhausts(l, LetThrough(answers[1..], requests[1..], c, m, k), requests[1..][m].now, requests[1..][k].now);
    CountsShift(answers, requests, c, m, k);
    assert requests[m + 1].client == c;
  }

  function Drawn(o: Outcome, r: Request, c: string): nat {
    if r.client == c && o.allowed then 1 else 0
  }

  function SpentAfter(full: bool, spent: nat, o: Outcome, r: Request, c: string): nat {
    (if full then 0 else spent) + Drawn(o, r, c)
  }

  function SinceAfter(full: bool, since: real, now: real): real {
    if full then now else since
  }

  /** One request of a ledger: `c` has a bucket before it if `had`, and after it if `has`;
      `full` opens a new account; a refusal closes one that is exhausted. */
  predicate Books(l: Limits, o: Outcome, r: Request, c: string, had: bool, has: bool, full: bool, spent: nat,
                  since: real)
  {
    && (full ==> r.client == c && o.allowed)
    && (!full && has ==> had)
    && (r.client == c && !o.allowed ==> had && Exhausts(l, spent, since, r.now))
  }

  /** The answers to `c` follow from an account of its bucket. */
  ghost predicate Ledger(l: Limits, answers: seq<Outcome>, requests: seq<Request>, c: string, had: bool, spent: nat,
                         since: real)
    requires |answers| == |requests|
    decreases |requests|
  {
    requests == []
    || exists has: bool, full: bool ::
         && Ledger(l, answers[1..], requests[1..], c, has, SpentAfter(full, spent, answers[0], requests[0], c),
                   SinceAfter(full, since, requests[0].now))
         && Books(l, answers[0], requests[0], c, had, has, full, spent, since)
  }

  /** An account exhausted later, seen from before the first request. */
  lemma ExhaustedLater(l: Limits, answers: seq<Outcome>, requests: seq<Request>, c: string, k: nat, full: bool,
                       spent: nat, since: real)
    requires 0 < k < |requests| == |answers|
    requires full ==> requests[0].client == c && answers[0].allowed
    requires Exhausts(l, SpentAfter(full, spent, answers[0], requests[0], c)
                         + LetThrough(answers[1..], requests[1..], c, 0, k - 1),
                      SinceAfter(full, since, requests[0].now), requests[k].now)
    ensures if full then Earned(l, answers, requests, c, k)
            else Exhausts(l, spent + LetThrough(answers, requests, c, 0, k), since, requests[k].now)
  {
    CountsShift(answers, requests, c, 0, k - 1);
    if full {
      assert requests[0].client == c;
    }
  }

  /** By the ledger, every refusal is earned. */
  lemma {:induction false} LedgerEarns(l: Limits, answers: seq<Outcome>, requests: seq<Request>, c: string, k: nat,
                                       had: bool, spent: nat, since: real)
    requires k < |requests| == |answers| && requests[k].client == c && !answers[k].allowed
    requires Ledger(l, answers, requests, c, had, spent, since)
    ensures || Earned(l, answers, requests, c, k)
            || (had && Exhausts(l, spent + LetThrough(answers, requests, c, 0, k), since, requests[k].now))
    decreases k
  {
    var has, full :|
      && Ledger(l, answers[1..], requests[1..], c, has, SpentAfter(full, spent, answers[0], requests[0], c),
                SinceAfter(full, since, requests[0].now))
      && Books(l, answers[0], requests[0], c, had, has, full, spent, since);
    if k > 0 {
      LedgerEarns(l, answers[1..], requests[1..], c, k - 1, has,
                  SpentAfter(full, spent, answers[0], requests[0], c), SinceAfter(full, since, requests[0].now));
      if Earned(l, answers[1..], requests[1..], c, k - 1) {
        EarnedLater(l, answers, requests, c, k - 1);
      } else {
        ExhaustedLater(l, answers, requests, c, k, full, spent, since);
      }
    }
  }

  lemma IdealRunUnfolds(l: Limits, buckets: Buckets, requests: seq<Request>)
    requires requests != []
    ensures var step, answers := IdealStep(l, buckets, requests[0]), IdealRun(l, buckets, requests);
            answers[0] == step.1 && answers[1..] == IdealRun(l, step.0, requests[1..])
  {
  }

  lemma {:induction false} IdealLedger(l: Limits, buckets: Buckets, requests: seq<Request>, now: real, c: string,
                                       spent: nat, since: real)
    requires l.Sound() && InOrder(requests, now)
    requires c in buckets ==> Accounts(l, buckets[c], spent, since, now)
    ensures Ledger(l, IdealRun(l, buckets, requests), requests, c, c in buckets, spent, since)
    decreases |requests|
  {
    if requests != [] {
      var r := requests[0];
      var step := IdealStep(l, buckets, r);
      IdealRunUnfolds(l, buckets, requests);
      var full := r.client == c && Held(l, buckets, c, r.now) >= l.burst;
      if full {
        FreshAccount(l, r.now);
      } else if r.client == c {
        AccountGoesOn(l, buckets[c], spent, since, r.now);
      }
      IdealLedger(l, step.0, requests[1..], r.now, c, SpentAfter(full, spent, step.1, r, c),
                  SinceAfter(full, since, r.now));
      assert Books(l, step.1, r, c, c in buckets, c in step.0, full, spent, since);
    }
  }

  /** The next `n` requests of `c` are let through. */
  predicate Purse(answers: seq<Outcome>, requests: seq<Request>, c: string, n: nat)
    requires |answers| == |requests|
    decreases |requests|
  {
    requests == [] || n == 0
    || (&& (requests[0].client == c ==> answers[0].allowed)
        && Purse(answers[1..], requests[1..], c, if requests[0].client == c then n - 1 else n))
  }

  lemma {:induction false} PurseAt(answers: seq<Outcome>, requests: seq<Request>, c: string, n: nat, k: nat)
    requires k < |requests| == |answers| && requests[k].client == c
    requires Purse(answers, requests, c, n) && Asked(requests, c, 0, k) < n
    ensures answers[k].allowed
    decreases k
  {
    if k > 0 {
      CountsShift(answers, requests, c, 0, k - 1);
      PurseAt(answers[1..], requests[1..], c, if requests[0].client == c then n - 1 else n, k - 1);
    }
  }

  lemma {:induction false} IdealPurse(l: Limits, buckets: Buckets, requests: seq<Request>, now: real, c: string, n: nat)
    requires l.Sound() && InOrder(requests, now) && (c in buckets ==> Kept(l, buckets[c], now))
    requires Held(l, buckets, c, now) >= n as real
    ensures Purse(IdealRun(l, buckets, requests), requests, c, n)
    decreases |requests|
  {
    if requests != [] && n > 0 {
      var r := requests[0];
      var step := IdealStep(l, buckets, r);
      IdealRunUnfolds(l, buckets, requests);
      if c in buckets {
        LevelGrows(l, buckets[c], now, r.now);
      }
      LevelOfLeft(l, step.1.left, r.now);
      IdealPurse(l, step.0, requests[1..], r.now, c, if r.client == c then n - 1 else n);
    }
  }

  lemma CountsFrom(answers: seq<Outcome>, requests: seq<Request>, c: string)
    requires 0 < |requests| == |answers|
    ensures LetThrough(answers, requests, c, 0, |requests|)
         == Drawn(answers[0], requests[0], c) + LetThrough(answers[1..], requests[1..], c, 0, |requests| - 1)
  {
    CountsShift(answers, requests, c, 0, |requests| - 1);
  }

  lemma LastNotEarlier(requests: seq<Request>, start: real)
    requires requests != [] && InOrder(requests, start)
    ensures start <= requests[0].now <= requests[|requests| - 1].now
  {
    if |requests| > 1 {
      InOrderLater(requests[1..], requests[0].now, |requests| - 2);
    }
  }

  lemma {:induction false} IdealConservation(l: Limits, buckets: Buckets, requests: seq<Request>, start: real,
                                             end: real, c: string)
    requires l.Sound() && InOrder(requests, start) && (c in buckets ==> Kept(l, buckets[c], start)) && start <= end
    requires requests != [] ==> requests[|requests| - 1].now <= end
    ensures LetThrough(IdealRun(l, buckets, requests), requests, c, 0, |requests|) as real
            <= Held(l, buckets, c, start) + Gain(l, start, end)
    decreases |requests|
  {
    if requests == [] {
      GainAdds(l, start, start, end);
      if c in buckets {
        LevelGrows(l, buckets[c], start, start);
      }
    } else {
      var r, answers := requests[0], IdealRun(l, buckets, requests);
      var step := IdealStep(l, buckets, r);
      IdealRunUnfolds(l, buckets, requests);
      LastNotEarlier(requests, start);
      GainAdds(l, start, r.now, end);
      if c in buckets {
        LevelGrows(l, buckets[c], start, r.now);
      }
      LevelOfLeft(l, step.1.left, r.now);
      IdealConservation(l, step.0, requests[1..], r.now, end, c);
      CountsFrom(answers, requests, c);
    }
  }

  lemma LevelOfLeft(l: Limits, left: real, now: real)
    requires left <= l.burst
    ensures Level(l, Bucket(left, now), now) == left
  {
  }

  // ---------------------------------------------------------------------------
  // The unit of time does not matter
  // ---------------------------------------------------------------------------

  /** The same limits, requests and buckets with time in units `u` times smaller. */
  function Finer(l: Limits, u: real): Limits
    requires u > 0.0
  {
    Limits(l.burst, l.rate / u)
  }

  function InFinerUnits(requests: seq<Request>, u: real): (finer: seq<Request>)
    ensures |finer| == |requests|
  {
    if requests == [] then []
    else [Request(requests[0].client, requests[0].now * u)] + InFinerUnits(requests[1..], u)
  }

  predicate SameBuckets(coarse: Buckets, fine: Buckets, u: real) {
    && coarse.Keys == fine.Keys
    && forall c :: c in coarse ==> fine[c] == Bucket(coarse[c].tokens, coarse[c].at * u)
  }

  lemma FinerLevel(l: Limits, b: Bucket, now: real, u: real)
    requires u > 0.0
    ensures Level(Finer(l, u), Bucket(b.tokens, b.at * u), now * u) == Level(l, b, now)
  {
    var d := now - b.at;
    assert now * u - b.at * u == d * u;
    Scaled(d, l.rate, u);
    assert b.at <= now <==> b.at * u <= now * u;
  }

  lemma Scaled(d: real, rate: real, u: real)
    requires u > 0.0
    ensures d * u * (rate / u) == d * rate
  {
    var q := rate / u;
    assert q * u == rate;
    assert d * u * q == d * (q * u);
  }

  lemma FinerHeld(l: Limits, coarse: Buckets, fine: Buckets, client: string, now: real, u: real)
    requires u > 0.0 && SameBuckets(coarse, fine, u)
    ensures Held(Finer(l, u), fine, client, now * u) == Held(l, coarse, client, now)
  {
    if client in coarse {
      var b := coarse[client];
      FinerLevel(l, b, now, u);
      assert fine[client] == Bucket(b.tokens, b.at * u);
    } else {
      assert client !in fine.Keys;
    }
  }

  lemma SameAfterWrite(coarse: Buckets, fine: Buckets, client: string, left: real, now: real, later: real, u: real)
    requires u > 0.0 && SameBuckets(coarse, fine, u) && later == now * u
    ensures SameBuckets(coarse[client := Bucket(left, now)], fine[client := Bucket(left, later)], u)
  {
  }

  lemma StepFromHeld(l: Limits, buckets: Buckets, r: Request, held: real)
    requires held == Held(l, buckets, r.client, r.now)
    ensures IdealStep(l, buckets, r) == (buckets[r.client := Bucket(Serve(held).left, r.now)], Serve(held))
  {
  }

  lemma FinerStep(l: Limits, coarse: Buckets, fine: Buckets, r: Request, r': Request, u: real)
    requires u > 0.0 && SameBuckets(coarse, fine, u) && r' == Request(r.client, r.now * u)
    ensures var step, step' := IdealStep(l, coarse, r), IdealStep(Finer(l, u), fine, r');
            step.1 == step'.1 && SameBuckets(step.0, step'.0, u)
  {
    var held := Held(l, coarse, r.client, r.now);
    FinerHeld(l, coarse, fine, r.client, r.now, u);
    StepFromHeld(l, coarse, r, held);
    StepFromHeld(Finer(l, u), fine, r', held);
    SameAfterWrite(coarse, fine, r.client, Serve(held).left, r.now, r'.now, u);
  }

  /** Counting time in finer units changes no answer. */
  lemma {:induction false} UnitsDoNotMatter(l: Limits, coarse: Buckets, fine: Buckets, requests: seq<Request>, u: real)
    requires u > 0.0 && SameBuckets(coarse, fine, u)
    ensures IdealRun(Finer(l, u), fine, InFinerUnits(requests, u)) == IdealRun(l, coarse, requests)
    decreases |requests|
  {
    if requests != [] {
      var r := requests[0];
      var r' := Request(r.client, r.now * u);
      var requests' := InFinerUnits(requests, u);
      assert requests'[0] == r' && requests'[1..] == InFinerUnits(requests[1..], u);
      FinerStep(l, coarse, fine, r, r', u);
      var step, step' := IdealStep(l, coarse, r), IdealStep(Finer(l, u), fine, r');
      UnitsDoNotMatter(l, step.0, step'.0, requests[1..], u);
    }
  }
}
