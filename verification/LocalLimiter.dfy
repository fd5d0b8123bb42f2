/** The rate limiter of one replica: a bounded table of buckets in order of last use.
    Time is in seconds. */
module LocalLimiter {
  import opened TokenBucket

  const CAPACITY: nat := 10000
  const STALE_AFTER: real := 600.0

  function LocalLimits(rpm: nat, burst: nat): (l: Limits)
    ensures rpm >= 1 && burst >= 1 ==> l.Sound()
  {
    Limits(burst as real, rpm as real / 60.0)
  }

  /** An ordered dictionary: its entries from the least to the most recently written. */
  datatype Entry = Entry(client: string, bucket: Bucket)

  type Table = seq<Entry>

  predicate Has(table: Table, client: string) {
    exists i :: 0 <= i < |table| && table[i].client == client
  }

  function Lookup(table: Table, client: string): (b: Bucket)
    requires Has(table, client)
    ensures exists i :: 0 <= i < |table| && table[i] == Entry(client, b)
  {
    if table[0].client == client then table[0].bucket else Lookup(table[1..], client)
  }

  function Without(table: Table, client: string): (rest: Table)
  {
    if table == [] then []
    else (if table[0].client == client then [] else [table[0]]) + Without(table[1..], client)
  }

  /** Assignment followed by `move_to_end`. */
  function Written(table: Table, client: string, b: Bucket): Table {
    Without(table, client) + [Entry(client, b)]
  }

  /** Entries are dropped from the front up to the first one that is not stale. */
  function Swept(table: Table, staleBefore: real): Table {
    if table == [] || table[0].bucket.at >= staleBefore then table else Swept(table[1..], staleBefore)
  }

  /** Room is made only when the table is full and the client is new. */
  function Roomy(table: Table, client: string, now: real): Table {
    if |table| >= CAPACITY && !Has(table, client) then
      var swept := Swept(table, now - STALE_AFTER);
      if |swept| >= CAPACITY then swept[1..] else swept
    else table
  }

  function HeldLocally(l: Limits, table: Table, client: string, now: real): real {
    if Has(table, client) then Level(l, Lookup(table, client), now) else l.burst
  }

  function LocalStep(l: Limits, table: Table, r: Request): (Table, Outcome) {
    var room := Roomy(table, r.client, r.now);
    var o := Serve(HeldLocally(l, room, r.client, r.now));
    (Written(room, r.client, Bucket(o.left, r.now)), o)
  }

  function Wait(l: Limits, left: real): int
    requires l.Sound()
  {
    var wait := ((1.0 - left) / l.rate).Floor + 1;
    if wait >= 1 then wait else 1
  }

  class RateTable {
    var table: Table

    constructor ()
      ensures table == []
    {
      table := [];
    }

    method MakeRoom(client: string, now: real)
      modifies this
      ensures table == Roomy(old(table), client, now)
    {
      if |table| >= CAPACITY && !Has(table, client) {
        ghost var was := table;
        while table != []
          invariant Swept(table, now - STALE_AFTER) == Swept(was, now - STALE_AFTER)
          decreases |table|
        {
          if table[0].bucket.at >= now - STALE_AFTER {
            break;
          }
          table := table[1..];
        }
        if |table| >= CAPACITY {
          table := table[1..];
        }
      }
    }

    /** One request, under the lock. */
    method Consume(rpm: nat, burst: nat, client: string, now: real) returns (allowed: bool, retryAfter: int)
      requires rpm >= 1 && burst >= 1
      modifies this
      ensures var l := LocalLimits(rpm, burst);
              var step := LocalStep(l, old(table), Request(client, now));
              table == step.0 && allowed == step.1.allowed
              && retryAfter == if allowed then 0 else Wait(l, step.1.left)
    {
      var l := LocalLimits(rpm, burst);
      MakeRoom(client, now);
      var bucket := if Has(table, client) then Lookup(table, client) else Bucket(l.burst, now);
      LevelAtOnce(l, now);
      var tokens := Level(l, bucket, now);
      assert tokens == HeldLocally(l, table, client, now);
      if tokens < 1.0 {
        retryAfter := Wait(l, tokens);
        table := Written(table, client, Bucket(tokens, now));
        return false, retryAfter;
      }
      table := Written(table, client, Bucket(tokens - 1.0, now));
      return true, 0;
    }
  }

  // ---------------------------------------------------------------------------
  // The table is a bounded list in order of last use
  // ---------------------------------------------------------------------------

  predicate OncePerClient(table: Table) {
    forall i, j :: 0 <= i < j < |table| ==> table[i].client != table[j].client
  }

  predicate ByLastUse(table: Table) {
    forall i, j :: 0 <= i < j < |table| ==> table[i].bucket.at <= table[j].bucket.at
  }

  predicate AllKept(l: Limits, table: Table, now: real) {
    forall i :: 0 <= i < |table| ==> Kept(l, table[i].bucket, now)
  }

  predicate Orderly(l: Limits, table: Table, now: real) {
    |table| <= CAPACITY && OncePerClient(table) && ByLastUse(table) && AllKept(l, table, now)
  }

  lemma {:induction false} LookupIsEntry(table: Table, i: nat)
    requires OncePerClient(table) && i < |table|
    ensures Has(table, table[i].client) && Lookup(table, table[i].client) == table[i].bucket
  {
    if i > 0 {
      assert table[0].client != table[i].client;
      assert table[1..][i - 1] == table[i];
      LookupIsEntry(table[1..], i - 1);
    }
  }

  lemma {:induction false} WithoutIsRest(table: Table, client: string)
    ensures forall e :: e in Without(table, client) <==> e in table && e.client != client
    ensures |Without(table, client)| <= |table|
    ensures Has(table, client) ==> |Without(table, client)| < |table|
  {
    if table != [] {
      WithoutIsRest(table[1..], client);
      assert table == [table[0]] + table[1..];
      if Has(table, client) && table[0].client != client {
        var i :| 0 <= i < |table| && table[i].client == client;
        assert table[1..][i - 1].client == client;
      }
    }
  }

  lemma HeadIsEarliest(l: Limits, table: Table, now: real)
    requires Orderly(l, table, now) && table != []
    ensures Orderly(l, table[1..], now)
    ensures forall e :: e in table[1..] ==> e.client != table[0].client && e.bucket.at >= table[0].bucket.at
  {
    var rest := table[1..];
    forall i | 0 <= i < |rest| ensures rest[i] == table[i + 1] {
    }
  }

  lemma {:induction false} WithoutIsOrderly(l: Limits, table: Table, client: string, now: real)
    requires Orderly(l, table, now)
    ensures Orderly(l, Without(table, client), now)
  {
    if table != [] {
      var first, rest := table[0], table[1..];
      HeadIsEarliest(l, table, now);
      WithoutIsOrderly(l, rest, client, now);
      WithoutIsRest(rest, client);
      if first.client == client {
        assert Without(table, client) == Without(rest, client);
      } else {
        ConsIsOrderly(l, first, Without(rest, client), now);
        assert Without(table, client) == [first] + Without(rest, client);
      }
    }
  }

  lemma ConsIsOrderly(l: Limits, first: Entry, rest: Table, now: real)
    requires Orderly(l, rest, now) && |rest| < CAPACITY && Kept(l, first.bucket, now)
    requires forall e :: e in rest ==> e.client != first.client && e.bucket.at >= first.bucket.at
    ensures Orderly(l, [first] + rest, now)
  {
    var table := [first] + rest;
    forall i, j | 0 <= i < j < |table| ensures table[i].client != table[j].client
        && table[i].bucket.at <= table[j].bucket.at {
      assert table[j] == rest[j - 1] && rest[j - 1] in rest;
      if i > 0 {
        assert table[i] == rest[i - 1];
      }
    }
  }

  lemma SuffixIsOrderly(l: Limits, table: Table, k: nat, now: real)
    requires Orderly(l, table, now) && k <= |table|
    ensures Orderly(l, table[k..], now)
  {
  }

  lemma {:induction false} SweptIsSuffix(table: Table, staleBefore: real) returns (k: nat)
    ensures k <= |table| && Swept(table, staleBefore) == table[k..]
    ensures k < |table| ==> table[k].bucket.at >= staleBefore
    ensures forall i :: 0 <= i < k ==> table[i].bucket.at < staleBefore
  {
    k := 0;
    if table != [] && table[0].bucket.at < staleBefore {
      var rest := table[1..];
      k := SweptIsSuffix(rest, staleBefore);
      k := k + 1;
      assert forall i :: 0 < i < k ==> table[i] == rest[i - 1];
    }
  }

  /** The sweep, which stops at the first fresh entry, removes exactly the stale ones. */
  lemma SweepRemovesTheStale(table: Table, staleBefore: real)
    requires ByLastUse(table)
    ensures forall e :: e in Swept(table, staleBefore) <==> e in table && e.bucket.at >= staleBefore
  {
    var k := SweptIsSuffix(table, staleBefore);
    forall e ensures e in table[k..] <==> e in table && e.bucket.at >= staleBefore {
      if e in table[k..] {
        var i :| k <= i < |table| && table[i] == e;
        assert table[k].bucket.at <= table[i].bucket.at;
      }
    }
  }

  lemma RoomyIsOrderly(l: Limits, table: Table, client: string, now: real)
    requires Orderly(l, table, now)
    ensures Orderly(l, Roomy(table, client, now), now)
    ensures |Roomy(table, client, now)| < CAPACITY || Has(Roomy(table, client, now), client)
  {
    var k := SweptIsSuffix(table, now - STALE_AFTER);
    SuffixIsOrderly(l, table, k, now);
    if |table[k..]| >= CAPACITY {
      SuffixIsOrderly(l, table[k..], 1, now);
    }
  }

  lemma KeptLater(l: Limits, table: Table, now: real, later: real)
    requires Orderly(l, table, now) && now <= later
    ensures Orderly(l, table, later)
  {
    assert forall i :: 0 <= i < |table| ==> Kept(l, table[i].bucket, now);
  }

  lemma WrittenIsOrderly(l: Limits, table: Table, client: string, b: Bucket, now: real)
    requires Orderly(l, table, now) && (|table| < CAPACITY || Has(table, client))
    requires Kept(l, b, now) && b.at == now
    ensures Orderly(l, Written(table, client, b), now)
  {
    var rest := Without(table, client);
    WithoutIsOrderly(l, table, client, now);
    WithoutIsRest(table, client);
    var all := Written(table, client, b);
    forall i | 0 <= i < |rest| ensures all[i].client != client && all[i].bucket.at <= now {
      assert rest[i] in rest && Kept(l, rest[i].bucket, now);
    }
  }

  lemma HeldIsBounded(l: Limits, table: Table, client: string, now: real)
    requires l.Sound() && AllKept(l, table, now)
    ensures 0.0 <= HeldLocally(l, table, client, now) <= l.burst
    ensures Has(table, client) ==> Kept(l, Lookup(table, client), now)
  {
    if Has(table, client) {
      LevelGrows(l, Lookup(table, client), now, now);
    }
  }

  /** Every request leaves at most 10000 buckets, one per client, in order of last use,
      with 0 to `burst` tokens each; and the client's own is the last one. */
  lemma TableStaysOrderly(l: Limits, table: Table, r: Request, now: real)
    requires l.Sound() && Orderly(l, table, now) && now <= r.now
    ensures Orderly(l, LocalStep(l, table, r).0, r.now) && |LocalStep(l, table, r).0| <= 10000
    ensures var after := LocalStep(l, table, r).0;
            after != [] && after[|after| - 1].client == r.client && after[|after| - 1].bucket.at == r.now
  {
    var room := Roomy(table, r.client, r.now);
    KeptLater(l, table, now, r.now);
    RoomyIsOrderly(l, table, r.client, r.now);
    HeldIsBounded(l, room, r.client, r.now);
    var o := Serve(HeldLocally(l, room, r.client, r.now));
    WrittenIsOrderly(l, room, r.client, Bucket(o.left, r.now), r.now);
  }

  // ---------------------------------------------------------------------------
  // What a step does to each client
  // ---------------------------------------------------------------------------

  lemma LookupAfterWrite(table: Table, client: string, b: Bucket)
    requires OncePerClient(Written(table, client, b))
    ensures Has(Written(table, client, b), client) && Lookup(Written(table, client, b), client) == b
  {
    var all := Written(table, client, b);
    assert all[|all| - 1] == Entry(client, b);
    LookupIsEntry(all, |all| - 1);
  }

  lemma LookupOfOther(table: Table, client: string, b: Bucket, other: string)
    requires OncePerClient(table) && OncePerClient(Written(table, client, b)) && other != client
    ensures Has(Written(table, client, b), other) <==> Has(table, other)
    ensures Has(table, other) ==> Lookup(Written(table, client, b), other) == Lookup(table, other)
  {
    var all := Written(table, client, b);
    WithoutIsRest(table, client);
    if Has(table, other) {
      var e := Entry(other, Lookup(table, other));
      assert e in Without(table, client) && e in all;
      var j :| 0 <= j < |all| && all[j] == e;
      LookupIsEntry(all, j);
    }
    if Has(all, other) {
      var j :| 0 <= j < |all| && all[j].client == other;
      assert all[j] in Without(table, client);
      assert all[j] in table;
    }
  }

  lemma SuffixOnce(table: Table, m: nat)
    requires OncePerClient(table) && m <= |table|
    ensures OncePerClient(table[m..])
  {
  }

  lemma SameEntry(a: Table, i: nat, b: Table, j: nat)
    requires OncePerClient(a) && OncePerClient(b) && i < |a| && j < |b| && a[i] == b[j]
    ensures Has(a, a[i].client) && Has(b, a[i].client) && Lookup(a, a[i].client) == Lookup(b, a[i].client)
  {
    LookupIsEntry(a, i);
    LookupIsEntry(b, j);
  }

  lemma LookupInSuffixAt(table: Table, m: nat, i: nat)
    requires OncePerClient(table) && m <= i < |table|
    ensures Has(table[m..], table[i].client) && Has(table, table[i].client)
    ensures Lookup(table[m..], table[i].client) == Lookup(table, table[i].client)
  {
    SuffixOnce(table, m);
    SameEntry(table[m..], i - m, table, i);
  }

  lemma LookupInSuffix(table: Table, m: nat, c: string)
    requires OncePerClient(table) && m <= |table| && Has(table[m..], c)
    ensures Has(table, c) && Lookup(table[m..], c) == Lookup(table, c)
  {
    var i :| 0 <= i < |table[m..]| && table[m..][i].client == c;
    LookupInSuffixAt(table, m, m + i);
  }

  lemma RoomyIsSuffix(table: Table, client: string, now: real) returns (m: nat)
    ensures m <= |table| && Roomy(table, client, now) == table[m..]
    ensures Has(table, client) ==> m == 0
  {
    m := 0;
    assert table[0..] == table;
    if |table| >= CAPACITY && !Has(table, client) {
      m := SweptIsSuffix(table, now - STALE_AFTER);
      if |table[m..]| >= CAPACITY {
        assert table[m..][1..] == table[m + 1..];
        m := m + 1;
      }
    }
  }

  lemma LookupInRoom(l: Limits, table: Table, client: string, now: real, c: string)
    requires Orderly(l, table, now)
    ensures Has(Roomy(table, client, now), c) ==>
              Has(table, c) && Lookup(Roomy(table, client, now), c) == Lookup(table, c)
    ensures Has(table, client) ==> Roomy(table, client, now) == table
  {
    var m := RoomyIsSuffix(table, client, now);
    if Has(table[m..], c) {
      LookupInSuffix(table, m, c);
    }
  }

  /** The bucket of `c` is evicted before it is full again. */
  predicate EvictedEarly(l: Limits, table: Table, r: Request, c: string) {
    Has(table, c) && !Has(Roomy(table, r.client, r.now), c) && Level(l, Lookup(table, c), r.now) < l.burst
  }

  /** The tokens of `c` after a request: what it held, one less if it was let through,
      and a full bucket if its own was evicted early. */
  lemma StepOfClient(l: Limits, table: Table, r: Request, now: real, c: string)
    requires l.Sound() && Orderly(l, table, now) && now <= r.now
    ensures var step := LocalStep(l, table, r);
            var held := HeldLocally(l, table, c, r.now);
            var had := if EvictedEarly(l, table, r, c) then l.burst else held;
            && (c == r.client ==>
                  step.1 == Serve(had) && Has(step.0, c) && Lookup(step.0, c) == Bucket(step.1.left, r.now))
            && (c != r.client ==> HeldLocally(l, step.0, c, r.now) == had)
            && (c != r.client && Has(step.0, c) ==> Has(table, c) && Lookup(step.0, c) == Lookup(table, c))
            && (c != r.client && !Has(step.0, c) && Has(table, c) && !EvictedEarly(l, table, r, c) ==> held == l.burst)
  {
    var room := Roomy(table, r.client, r.now);
    var o := Serve(HeldLocally(l, room, r.client, r.now));
    var b := Bucket(o.left, r.now);
    KeptLater(l, table, now, r.now);
    RoomyIsOrderly(l, table, r.client, r.now);
    TableStaysOrderly(l, table, r, now);
    LookupInRoom(l, table, r.client, r.now, c);
    HeldIsBounded(l, table, c, r.now);
    if c == r.client {
      LookupAfterWrite(room, r.client, b);
    } else {
      LookupOfOther(room, r.client, b, c);
    }
  }

  // ---------------------------------------------------------------------------
  // Conservation
  // ---------------------------------------------------------------------------

  function LocalRun(l: Limits, table: Table, requests: seq<Request>): (answers: seq<Outcome>)
    ensures |answers| == |requests|
    decreases |requests|
  {
    if requests == [] then []
    else
      var step := LocalStep(l, table, requests[0]);
      [step.1] + LocalRun(l, step.0, requests[1..])
  }

  /** How many requests of `c` are let through. */
  function Admitted(l: Limits, table: Table, requests: seq<Request>, c: string): nat
    decreases |requests|
  {
    if requests == [] then 0
    else
      var step := LocalStep(l, table, requests[0]);
      (if requests[0].client == c && step.1.allowed then 1 else 0) + Admitted(l, step.0, requests[1..], c)
  }

  /** How often the bucket of `c` is evicted before it is full again. */
  function EarlyEvictions(l: Limits, table: Table, requests: seq<Request>, c: string): nat
    decreases |requests|
  {
    if requests == [] then 0
    else
      var step := LocalStep(l, table, requests[0]);
      (if EvictedEarly(l, table, requests[0], c) then 1 else 0) + EarlyEvictions(l, step.0, requests[1..], c)
  }

  /** One request spends at most what is gained by waiting and by an early eviction. */
  lemma StepConserves(l: Limits, table: Table, r: Request, start: real, c: string)
    requires l.Sound() && Orderly(l, table, start) && start <= r.now
    ensures var step := LocalStep(l, table, r);
            (if r.client == c && step.1.allowed then 1.0 else 0.0) + HeldLocally(l, step.0, c, r.now)
              <= HeldLocally(l, table, c, start) + Gain(l, start, r.now)
                 + (if EvictedEarly(l, table, r, c) then l.burst else 0.0)
  {
    StepOfClient(l, table, r, start, c);
    HeldGrows(l, table, c, start, r.now);
    if c == r.client {
      var step := LocalStep(l, table, r);
      JustWritten(l, step.1.left, r.now);
      KeptLater(l, table, start, r.now);
      HeldIsBounded(l, table, c, r.now);
    }
  }

  lemma JustWritten(l: Limits, left: real, now: real)
    ensures Level(l, Bucket(left, now), now) <= left
  {
  }

  lemma HeldGrows(l: Limits, table: Table, c: string, now: real, later: real)
    requires l.Sound() && AllKept(l, table, now) && now <= later
    ensures HeldLocally(l, table, c, later) <= HeldLocally(l, table, c, now) + Gain(l, now, later)
    ensures 0.0 <= HeldLocally(l, table, c, later) <= l.burst
  {
    if Has(table, c) {
      HeldIsBounded(l, table, c, now);
      LevelGrows(l, Lookup(table, c), now, later);
    } else {
      GainAdds(l, now, now, later);
    }
  }

  /** `n` full buckets. */
  function Bursts(n: nat, burst: real): real {
    if n == 0 then 0.0 else burst + Bursts(n - 1, burst)
  }

  lemma {:induction false} BurstsIsProduct(n: nat, burst: real)
    ensures Bursts(n, burst) == n as real * burst
  {
    if n == 0 {
      assert n as real == 0.0;
    } else {
      BurstsIsProduct(n - 1, burst);
      var m := (n - 1) as real;
      assert n as real == 1.0 + m && (1.0 + m) * burst == burst + m * burst;
    }
  }

  lemma {:induction false} Conservation(l: Limits, table: Table, requests: seq<Request>, start: real, end: real,
                                        c: string)
    requires l.Sound() && Orderly(l, table, start) && InOrder(requests, start) && start <= end
    requires requests != [] ==> requests[|requests| - 1].now <= end
    ensures Admitted(l, table, requests, c) as real
         <= HeldLocally(l, table, c, start) + Gain(l, start, end)
             + Bursts(EarlyEvictions(l, table, requests, c), l.burst)
    decreases |requests|
  {
    if requests == [] {
      HeldIsBounded(l, table, c, start);
      GainAdds(l, start, start, end);
    } else {
      var r, rest := requests[0], requests[1..];
      LastNotEarlier(requests, start);
      if rest != [] {
        assert rest[|rest| - 1] == requests[|requests| - 1];
      }
      TableStaysOrderly(l, table, r, start);
      StepConserves(l, table, r, start, c);
      var table' := LocalStep(l, table, r).0;
      Conservation(l, table', rest, r.now, end, c);
      GainAdds(l, start, r.now, end);
      CountsUnfold(l, table, requests, c);
    }
  }

  lemma CountsUnfold(l: Limits, table: Table, requests: seq<Request>, c: string)
    requires requests != []
    ensures var r, rest, step := requests[0], requests[1..], LocalStep(l, table, requests[0]);
            && Admitted(l, table, requests, c) as real
               == (if r.client == c && step.1.allowed then 1.0 else 0.0) + Admitted(l, step.0, rest, c) as real
            && Bursts(EarlyEvictions(l, table, requests, c), l.burst)
               == (if EvictedEarly(l, table, r, c) then l.burst else 0.0)
                   + Bursts(EarlyEvictions(l, step.0, rest, c), l.burst)
  {
  }

  lemma ConservedInSum(l: Limits, table: Table, requests: seq<Request>, start: real, end: real, c: string)
    requires l.Sound() && Orderly(l, table, start) && InOrder(requests, start) && start <= end
    requires requests != [] ==> requests[|requests| - 1].now <= end
    ensures Admitted(l, table, requests, c) as real
         <= Bursts(1 + EarlyEvictions(l, table, requests, c), l.burst) + Gain(l, start, end)
  {
    Conservation(l, table, requests, start, end, c);
    HeldIsBounded(l, table, c, start);
  }

  lemma AsProducts(rpm: nat, burst: nat, n: nat, start: real, end: real)
    requires start <= end
    ensures Bursts(n, LocalLimits(rpm, burst).burst) + Gain(LocalLimits(rpm, burst), start, end)
         == n as real * burst as real + (end - start) * (rpm as real / 60.0)
  {
    BurstsIsProduct(n, burst as real);
  }

  /** In any stretch of time, whatever the other clients do, a client is let through at
      most (1 + e) * burst + T * rpm / 60 times, where T is the length of the stretch and
      e counts the evictions of its bucket before it was full again. */
  lemma TokensAreConserved(rpm: nat, burst: nat, table: Table, requests: seq<Request>, start: real, end: real,
                           c: string)
    requires rpm >= 1 && burst >= 1 && Orderly(LocalLimits(rpm, burst), table, start)
    requires InOrder(requests, start) && start <= end
    requires requests != [] ==> requests[|requests| - 1].now <= end
    ensures Admitted(LocalLimits(rpm, burst), table, requests, c) as real
         <= (1 + EarlyEvictions(LocalLimits(rpm, burst), table, requests, c)) as real * burst as real
            + (end - start) * (rpm as real / 60.0)
  {
    ConservedInSum(LocalLimits(rpm, burst), table, requests, start, end, c);
    AsProducts(rpm, burst, 1 + EarlyEvictions(LocalLimits(rpm, burst), table, requests, c), start, end);
  }

  // ---------------------------------------------------------------------------
  // The bounded table answers like the ideal limiter
  // ---------------------------------------------------------------------------

  /** The table knows about `c` what the ideal limiter knows, unless that is a full
      bucket. */
  predicate CoupledFor(l: Limits, table: Table, buckets: Buckets, now: real, c: string) {
    && (Has(table, c) ==> c in buckets && buckets[c] == Lookup(table, c))
    && (c in buckets ==> Kept(l, buckets[c], now))
    && (c in buckets && !Has(table, c) ==> Level(l, buckets[c], now) == l.burst)
  }

  lemma CoupledLater(l: Limits, table: Table, buckets: Buckets, now: real, later: real, c: string)
    requires l.Sound() && CoupledFor(l, table, buckets, now, c) && now <= later
    ensures CoupledFor(l, table, buckets, later, c)
    ensures HeldLocally(l, table, c, later) == Held(l, buckets, c, later)
  {
    if c in buckets {
      LevelGrows(l, buckets[c], now, later);
    }
  }

  lemma CoupledStep(l: Limits, table: Table, buckets: Buckets, r: Request, now: real, c: string)
    requires l.Sound() && Orderly(l, table, now) && now <= r.now
    requires CoupledFor(l, table, buckets, now, c) && !EvictedEarly(l, table, r, c)
    ensures var step, ideal := LocalStep(l, table, r), IdealStep(l, buckets, r);
            CoupledFor(l, step.0, ideal.0, r.now, c) && (r.client == c ==> step.1 == ideal.1)
  {
    CoupledLater(l, table, buckets, now, r.now, c);
    StepOfClient(l, table, r, now, c);
    KeptLater(l, table, now, r.now);
    HeldIsBounded(l, table, c, r.now);
  }

  lemma NoneEarlyLater(l: Limits, table: Table, requests: seq<Request>, c: string)
    requires requests != [] && EarlyEvictions(l, table, requests, c) == 0
    ensures !EvictedEarly(l, table, requests[0], c)
    ensures EarlyEvictions(l, LocalStep(l, table, requests[0]).0, requests[1..], c) == 0
  {
  }

  lemma LaterAnswers(l: Limits, table: Table, buckets: Buckets, requests: seq<Request>, k: nat)
    requires 0 < k < |requests|
    ensures LocalRun(l, table, requests)[k] == LocalRun(l, LocalStep(l, table, requests[0]).0, requests[1..])[k - 1]
    ensures IdealRun(l, buckets, requests)[k] == IdealRun(l, IdealStep(l, buckets, requests[0]).0, requests[1..])[k - 1]
  {
  }

  lemma {:induction false} AnswersFrom(l: Limits, table: Table, buckets: Buckets, requests: seq<Request>, now: real,
                                       c: string, k: nat)
    requires l.Sound() && Orderly(l, table, now) && InOrder(requests, now) && k < |requests|
    requires CoupledFor(l, table, buckets, now, c) && EarlyEvictions(l, table, requests, c) == 0
    requires requests[k].client == c
    ensures LocalRun(l, table, requests)[k] == IdealRun(l, buckets, requests)[k]
    decreases k
  {
    var r := requests[0];
    var table', buckets' := LocalStep(l, table, r).0, IdealStep(l, buckets, r).0;
    CoupledStep(l, table, buckets, r, now, c);
    if k > 0 {
      TableStaysOrderly(l, table, r, now);
      NoneEarlyLater(l, table, requests, c);
      AnswersFrom(l, table', buckets', requests[1..], r.now, c, k - 1);
      LaterAnswers(l, table, buckets, requests, k);
    }
  }

  /** A client whose bucket is never evicted early gets, from an empty table, the very
      answers of the ideal limiter, whatever the other clients do. */
  lemma AnswersLikeIdeal(l: Limits, requests: seq<Request>, start: real, c: string, k: nat)
    requires l.Sound() && InOrder(requests, start) && k < |requests| && requests[k].client == c
    requires EarlyEvictions(l, [], requests, c) == 0
    ensures LocalRun(l, [], requests)[k] == IdealRun(l, map[], requests)[k]
  {
    AnswersFrom(l, [], map[], requests, start, c, k);
  }

  // ---------------------------------------------------------------------------
  // When evictions are early
  // ---------------------------------------------------------------------------

  predicate Stale(b: Bucket, now: real) {
    b.at < now - STALE_AFTER
  }

  lemma StaleIsFull(rpm: nat, burst: nat, b: Bucket, now: real)
    requires rpm >= 1 && 1 <= burst <= 10 * rpm
    requires Kept(LocalLimits(rpm, burst), b, now) && Stale(b, now)
    ensures Level(LocalLimits(rpm, burst), b, now) == burst as real
  {
    var l := LocalLimits(rpm, burst);
    var rate := rpm as real / 60.0;
    GainAdds(l, b.at, b.at + STALE_AFTER, now);
    assert STALE_AFTER * rate == 10.0 * rpm as real;
    assert burst as real <= 10.0 * rpm as real;
  }

  /** Dropping stale buckets is harmless exactly when `burst` is at most ten minutes of
      refill: then, and only then, every stale bucket is full. */
  lemma StaleIsFullIff(rpm: nat, burst: nat)
    requires rpm >= 1 && burst >= 1
    ensures burst <= 10 * rpm <==>
            forall b, now | Kept(LocalLimits(rpm, burst), b, now) && Stale(b, now) ::
              Level(LocalLimits(rpm, burst), b, now) == burst as real
  {
    var l := LocalLimits(rpm, burst);
    if burst <= 10 * rpm {
      forall b, now | Kept(l, b, now) && Stale(b, now) ensures Level(l, b, now) == burst as real {
        StaleIsFull(rpm, burst, b, now);
      }
    } else {
      var b, extra := Bucket(0.0, 0.0), 30.0 / rpm as real;
      var now := 600.0 + extra;
      assert extra > 0.0 && extra * rpm as real == 30.0;
      assert Kept(l, b, now) && Stale(b, now);
      assert now * l.rate == 10.0 * rpm as real + 0.5 by {
        assert extra * (rpm as real / 60.0) == extra * rpm as real / 60.0;
        assert 600.0 * (rpm as real / 60.0) == 10.0 * rpm as real;
      }
      assert burst as real >= 10.0 * rpm as real + 1.0;
      assert Level(l, b, now) < burst as real;
    }
  }

  /** With `burst` at most ten minutes of refill, a bucket is evicted early exactly when
      a new client meets a table of 10000 buckets all used in the last ten minutes, this
      one the longest ago, and it is not full yet. */
  lemma EarlyOnlyInACrowd(rpm: nat, burst: nat, table: Table, r: Request, c: string)
    requires rpm >= 1 && 1 <= burst <= 10 * rpm && Orderly(LocalLimits(rpm, burst), table, r.now)
    ensures EvictedEarly(LocalLimits(rpm, burst), table, r, c) <==>
            && |table| == 10000 && !Has(table, r.client)
            && table[0].client == c && !Stale(table[0].bucket, r.now)
            && Level(LocalLimits(rpm, burst), table[0].bucket, r.now) < burst as real
  {
    var l := LocalLimits(rpm, burst);
    var room := Roomy(table, r.client, r.now);
    if |table| == CAPACITY && !Has(table, r.client) {
      var k := SweptIsSuffix(table, r.now - STALE_AFTER);
      LookupIsEntry(table, 0);
      if Has(table, c) {
        var i :| 0 <= i < |table| && table[i].client == c;
        LookupIsEntry(table, i);
        if i < k {
          assert Kept(l, table[i].bucket, r.now);
          StaleIsFull(rpm, burst, table[i].bucket, r.now);
          assert table[0].client == c ==> i == 0;
        } else if k > 0 || i > 0 {
          var j := if k > 0 then i - k else i - 1;
          assert room[j] == table[i];
          assert Has(room, c);
          assert table[0].client == c ==> i == 0;
        } else {
          assert room == table[1..];
          assert forall j :: 0 <= j < |room| ==> room[j] == table[j + 1] && room[j].client != table[0].client;
          assert !Has(room, c);
        }
      }
    }
  }

  // ---------------------------------------------------------------------------
  // Waiting as told is enough
  // ---------------------------------------------------------------------------

  lemma WaitBrackets(need: real, rate: real, wait: int)
    requires rate > 0.0 && (wait - 1) as real <= need < wait as real
    ensures wait as real * rate > need * rate >= (wait - 1) as real * rate
  {
    var over, under := wait as real - need, need - (wait - 1) as real;
    assert over * rate > 0.0 && under * rate >= 0.0;
    assert wait as real * rate == need * rate + over * rate;
    assert (wait - 1) as real * rate == need * rate - under * rate;
  }

  /** The announced wait is the least whole number of seconds after which there is more
      than one token. */
  lemma WaitIsLeast(l: Limits, left: real)
    requires l.Sound() && left < 1.0
    ensures Wait(l, left) >= 1
    ensures left + Wait(l, left) as real * l.rate > 1.0
    ensures left + (Wait(l, left) - 1) as real * l.rate <= 1.0
  {
    var need := (1.0 - left) / l.rate;
    assert need * l.rate == 1.0 - left;
    assert need > 0.0;
    WaitBrackets(need, l.rate, need.Floor + 1);
  }

  lemma EnoughBy(l: Limits, left: real, at: real, again: real)
    requires l.Sound() && left < 1.0 && again >= at + Wait(l, left) as real
    ensures Level(l, Bucket(left, at), again) >= 1.0
  {
    WaitIsLeast(l, left);
    var wait := Wait(l, left) as real;
    GainAdds(l, at, at + wait, again);
    assert Gain(l, at, at + wait) == wait * l.rate;
  }

  lemma {:induction false} OthersNeverHurt(l: Limits, table: Table, requests: seq<Request>, now: real, later: real,
                                           c: string) returns (after: Table)
    requires l.Sound() && Orderly(l, table, now) && InOrder(requests, now) && now <= later
    requires requests != [] ==> requests[|requests| - 1].now <= later
    requires forall k :: 0 <= k < |requests| ==> requests[k].client != c
    ensures after == AfterRun(l, table, requests) && Orderly(l, after, later)
    ensures HeldLocally(l, after, c, later) >= HeldLocally(l, table, c, later)
    decreases |requests|
  {
    if requests == [] {
      after := table;
      KeptLater(l, table, now, later);
    } else {
      var r, rest := requests[0], requests[1..];
      LastNotEarlier(requests, now);
      if rest != [] {
        assert rest[|rest| - 1] == requests[|requests| - 1];
      }
      TableStaysOrderly(l, table, r, now);
      StepOfClient(l, table, r, now, c);
      KeptLater(l, table, now, later);
      HeldIsBounded(l, table, c, later);
      after := OthersNeverHurt(l, LocalStep(l, table, r).0, rest, r.now, later, c);
    }
  }

  function AfterRun(l: Limits, table: Table, requests: seq<Request>): Table
    decreases |requests|
  {
    if requests == [] then table else AfterRun(l, LocalStep(l, table, requests[0]).0, requests[1..])
  }

  /** Requests from `start` to `end`, in order and none of them by `c`. */
  predicate WithoutClient(requests: seq<Request>, start: real, end: real, c: string) {
    && InOrder(requests, start) && start <= end
    && (requests != [] ==> requests[|requests| - 1].now <= end)
    && forall k :: 0 <= k < |requests| ==> requests[k].client != c
  }

  lemma EnoughAfterOthers(l: Limits, table: Table, others: seq<Request>, now: real, again: real, c: string)
    requires l.Sound() && Orderly(l, table, now) && WithoutClient(others, now, again, c)
    requires HeldLocally(l, table, c, again) >= 1.0
    ensures LocalStep(l, AfterRun(l, table, others), Request(c, again)).1.allowed
  {
    var after := OthersNeverHurt(l, table, others, now, again, c);
    StepOfClient(l, after, Request(c, again), again, c);
  }

  /** A client that is refused, waits for the announced seconds without asking again, and
      then asks, is let through: whatever other clients do in between, evictions
      included. */
  lemma RetryAfterSuffices(l: Limits, table: Table, r: Request, now: real, others: seq<Request>, again: real)
    requires l.Sound() && Orderly(l, table, now) && now <= r.now
    requires !LocalStep(l, table, r).1.allowed
    requires WithoutClient(others, r.now, again, r.client)
    requires again >= r.now + Wait(l, LocalStep(l, table, r).1.left) as real
    ensures LocalStep(l, AfterRun(l, LocalStep(l, table, r).0, others), Request(r.client, again)).1.allowed
  {
    var step := LocalStep(l, table, r);
    TableStaysOrderly(l, table, r, now);
    StepOfClient(l, table, r, now, r.client);
    EnoughBy(l, step.1.left, r.now, again);
    EnoughAfterOthers(l, step.0, others, r.now, again, r.client);
  }
}
