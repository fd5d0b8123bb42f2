/** The auto-tune ladder: which chunking configuration is tried next. */
module Tuning {

  /** Go's `ChunkingStrategy` is a string; these are its three named values. */
  type Strategy = string

  const SEMANTIC: Strategy := "semantic"
  const RECURSIVE: Strategy := "recursive"
  const FIXED: Strategy := "fixed"

  datatype Chunking = Chunking(strategy: Strategy, maxTokens: int, overlap: int)

  /** The smallest maxTokens auto-tune shrinks a chunk to. */
  const CHUNK_FLOOR := 300

  /** Go's integer division by a positive number, which truncates toward zero. */
  function GoDiv(a: int, b: int): int
    requires b > 0
  {
    if a >= 0 then a / b else -((-a) / b)
  }

  function RotateStrategy(s: Strategy): Strategy {
    if s == SEMANTIC then RECURSIVE
    else if s == RECURSIVE then FIXED
    else SEMANTIC
  }

  /** True where the ladder gives up on sizes and rotates the split strategy. */
  predicate AtLastRung(c: Chunking) {
    c.maxTokens <= CHUNK_FLOOR && c.overlap + 40 > GoDiv(c.maxTokens, 2)
  }

  /** One step of the ladder. For any configuration at all, the overlap never
      passes half a chunk and a chunk above the floor never shrinks below it; and
      no field becomes zero, which the worker would read as "not set". */
  function NextChunking(c: Chunking): (d: Chunking)
    ensures d.overlap <= GoDiv(d.maxTokens, 2)
    ensures d.maxTokens >= if c.maxTokens < CHUNK_FLOOR then c.maxTokens else CHUNK_FLOOR
    ensures NonNegative(c) ==> d.maxTokens >= 1 && d.overlap >= 1
    ensures d.strategy == c.strategy || (AtLastRung(c) && d.strategy == RotateStrategy(c.strategy))
  {
    if AtLastRung(c) then
      Chunking(RotateStrategy(c.strategy), 800, 80)
    else
      var grown := c.overlap + 40;
      if grown > GoDiv(c.maxTokens, 2) then
        var shrunk :=
          if c.maxTokens > CHUNK_FLOOR then
            if c.maxTokens - 200 < CHUNK_FLOOR then CHUNK_FLOOR else c.maxTokens - 200
          else c.maxTokens;
        Chunking(c.strategy, shrunk, GoDiv(shrunk, 5))
      else
        c.(overlap := grown)
  }

  /** The three kinds of step: 40 more tokens of overlap while that leaves it at most half
      the chunk; else a chunk smaller by 200, but not below 300, with a fifth of it as
      overlap; else 800/80 with the next of the three strategies. */
  lemma StepKinds(c: Chunking)
    requires NonNegative(c)
    ensures var d := NextChunking(c);
            if 2 * (c.overlap + 40) <= c.maxTokens then d == Chunking(c.strategy, c.maxTokens, c.overlap + 40)
            else if c.maxTokens > 300 then
              && d.strategy == c.strategy && 5 * d.overlap <= d.maxTokens < 5 * (d.overlap + 1)
              && d.maxTokens == (if c.maxTokens >= 500 then c.maxTokens - 200 else 300)
            else
              && d.maxTokens == 800 && d.overlap == 80
              && d.strategy == (if c.strategy == "semantic" then "recursive"
                                else if c.strategy == "recursive" then "fixed" else "semantic")
  {
  }

  /** Configurations the API server admits, with zero meaning "not set". */
  predicate NonNegative(c: Chunking) {
    c.maxTokens >= 0 && c.overlap >= 0
  }

  /** `n` ladder steps from `c`. */
  function Climb(c: Chunking, n: nat): Chunking {
    if n == 0 then c else NextChunking(Climb(c, n - 1))
  }

  // ---------------------------------------------------------------------------
  // The descent to the first rotation
  // ---------------------------------------------------------------------------

  /** Room left for the overlap to grow. */
  function Room(c: Chunking): nat {
    var r := GoDiv(c.maxTokens, 2) - c.overlap;
    if r < 0 then 0 else r
  }

  /** Lexicographic descent: smaller chunks, or equal chunks with less room. */
  predicate Below(d: Chunking, c: Chunking) {
    d.maxTokens < c.maxTokens || (d.maxTokens == c.maxTokens && d.overlap > c.overlap)
  }

  lemma StepDescends(c: Chunking)
    requires NonNegative(c) && !AtLastRung(c)
    ensures var d := NextChunking(c);
            && d.strategy == c.strategy && NonNegative(d)
            && Below(d, c)
            && (d.maxTokens < c.maxTokens || (d.maxTokens == c.maxTokens && Room(d) < Room(c)))
  {
  }

  /** How many steps keep the strategy before the ladder rotates. */
  function StepsToRotation(c: Chunking): nat
    requires NonNegative(c)
    decreases c.maxTokens, Room(c)
  {
    if AtLastRung(c) then 0
    else
      StepDescends(c);
      1 + StepsToRotation(NextChunking(c))
  }

  lemma {:induction false} ClimbShift(c: Chunking, n: nat)
    ensures Climb(NextChunking(c), n) == Climb(c, n + 1)
  {
    if n > 0 {
      ClimbShift(c, n - 1);
    }
  }

  lemma {:induction false} ClimbAdd(c: Chunking, m: nat, n: nat)
    ensures Climb(Climb(c, m), n) == Climb(c, m + n)
  {
    if n > 0 {
      ClimbAdd(c, m, n - 1);
    }
  }

  /** Before step `StepsToRotation(c)` nothing rotates; that step's configuration
      is the last rung. */
  lemma {:induction false} DescentShape(c: Chunking, i: nat)
    requires NonNegative(c) && i <= StepsToRotation(c)
    ensures var d := Climb(c, i);
            && NonNegative(d) && d.strategy == c.strategy
            && (AtLastRung(d) <==> i == StepsToRotation(c))
    decreases i
  {
    if i > 0 {
      StepDescends(c);
      DescentShape(NextChunking(c), i - 1);
      ClimbShift(c, i - 1);
    }
  }

  lemma {:induction false} DescentStrict(c: Chunking, i: nat, j: nat)
    requires NonNegative(c) && i < j <= StepsToRotation(c)
    ensures Below(Climb(c, j), Climb(c, i))
    decreases j
  {
    DescentShape(c, j - 1);
    StepDescends(Climb(c, j - 1));
    if i < j - 1 {
      DescentStrict(c, i, j - 1);
    }
  }

  /** From any non-negative configuration the ladder tries pairwise different
      configurations of one strategy and then, after finitely many steps, rotates
      to the next strategy at 800/80. */
  lemma RotationComesWithoutRepeats(c: Chunking)
    requires NonNegative(c)
    ensures var n := StepsToRotation(c);
            && Climb(c, n + 1) == Chunking(RotateStrategy(c.strategy), 800, 80)
            && (forall i, j :: 0 <= i < j <= n ==> Climb(c, i) != Climb(c, j))
            && (forall i :: 0 <= i <= n ==> Climb(c, i).strategy == c.strategy)
  {
    var n := StepsToRotation(c);
    DescentShape(c, n);
    forall i, j | 0 <= i < j <= n ensures Climb(c, i) != Climb(c, j) {
      DescentStrict(c, i, j);
    }
    forall i | 0 <= i <= n ensures Climb(c, i).strategy == c.strategy {
      DescentShape(c, i);
    }
  }

  // ---------------------------------------------------------------------------
  // The cycle after the first rotation
  // ---------------------------------------------------------------------------

  /** The 21 sizes tried with one strategy, in order. */
  function Rung(s: Strategy, i: nat): Chunking
    requires i < 21
  {
    if i < 9 then Chunking(s, 800, 80 + 40 * i)
    else if i < 14 then Chunking(s, 600, 120 + 40 * (i - 9))
    else if i < 18 then Chunking(s, 400, 80 + 40 * (i - 14))
    else Chunking(s, 300, 60 + 40 * (i - 18))
  }

  lemma RungStep(s: Strategy, i: nat)
    requires i < 21
    ensures NextChunking(Rung(s, i)) == if i < 20 then Rung(s, i + 1) else Rung(RotateStrategy(s), 0)
  {
  }

  /** The strategy after `k` rotations from semantic. */
  function StrategyAt(k: nat): Strategy {
    if k % 3 == 0 then SEMANTIC else if k % 3 == 1 then RECURSIVE else FIXED
  }

  lemma StrategyNames()
    ensures SEMANTIC != RECURSIVE && RECURSIVE != FIXED && SEMANTIC != FIXED
  {
    assert |SEMANTIC| == 8 && |RECURSIVE| == 9 && |FIXED| == 5;
  }

  lemma NextStrategy(k: nat)
    ensures StrategyAt(k + 1) == RotateStrategy(StrategyAt(k))
  {
    StrategyNames();
  }

  lemma ClimbOne(c: Chunking, n: nat)
    ensures Climb(c, n + 1) == NextChunking(Climb(c, n))
  {
  }

  /** Rung `r` after `q` rotations is `21 * q + r` steps from the start. */
  lemma {:induction false} LadderRung(q: nat, r: nat)
    requires r < 21
    ensures Climb(Rung(SEMANTIC, 0), 21 * q + r) == Rung(StrategyAt(q), r)
    decreases q, r
  {
    if r > 0 {
      LadderRung(q, r - 1);
      ClimbOne(Rung(SEMANTIC, 0), 21 * q + (r - 1));
      RungStep(StrategyAt(q), r - 1);
    } else if q > 0 {
      LadderRung(q - 1, 20);
      ClimbOne(Rung(SEMANTIC, 0), 21 * (q - 1) + 20);
      NextStrategy(q - 1);
      RungStep(StrategyAt(q - 1), 20);
    }
  }

  /** Position `n` on the endless ladder that starts at semantic 800/80. */
  lemma LadderPosition(n: nat)
    ensures Climb(Rung(SEMANTIC, 0), n) == Rung(StrategyAt(n / 21), n % 21)
  {
    LadderRung(n / 21, n % 21);
  }

  lemma RungsDiffer(s: Strategy, t: Strategy, i: nat, j: nat)
    requires i < 21 && j < 21
    ensures Rung(s, i) == Rung(t, j) <==> s == t && i == j
  {
  }

  lemma SamePosition(a: nat, b: nat)
    ensures Climb(Rung(SEMANTIC, 0), a) == Climb(Rung(SEMANTIC, 0), b) <==> a % 63 == b % 63
  {
    LadderPosition(a);
    LadderPosition(b);
    RungsDiffer(StrategyAt(a / 21), StrategyAt(b / 21), a % 21, b % 21);
    StrategiesDiffer(a / 21, b / 21);
    SameResidue(a, b);
  }

  lemma StrategiesDiffer(p: nat, q: nat)
    ensures StrategyAt(p) == StrategyAt(q) <==> p % 3 == q % 3
  {
    StrategyNames();
  }

  lemma SameResidue(a: nat, b: nat)
    ensures a % 63 == b % 63 <==> a / 21 % 3 == b / 21 % 3 && a % 21 == b % 21
  {
    PositionIsResidue(a);
    PositionIsResidue(b);
  }

  /** Started at the top of any strategy, the ladder is a cycle of exactly 63
      configurations: two positions agree precisely when they are congruent. */
  lemma LadderCycles(k: nat, m: nat, n: nat)
    requires k < 3
    ensures Climb(Rung(StrategyAt(k), 0), m) == Climb(Rung(StrategyAt(k), 0), n) <==> m % 63 == n % 63
  {
    var c := 21 * k;
    TopOfStrategy(k);
    ClimbAdd(Rung(SEMANTIC, 0), c, m);
    ClimbAdd(Rung(SEMANTIC, 0), c, n);
    SamePosition(c + m, c + n);
    ShiftedResidues(c, m, n);
  }

  lemma TopOfStrategy(k: nat)
    ensures Climb(Rung(SEMANTIC, 0), 21 * k) == Rung(StrategyAt(k), 0)
  {
    LadderPosition(21 * k);
    assert 21 * k / 21 == k && 21 * k % 21 == 0;
  }

  lemma ShiftedResidues(shift: nat, m: nat, n: nat)
    ensures (shift + m) % 63 == (shift + n) % 63 <==> m % 63 == n % 63
  {
    var a, b := (shift + m) % 63 - (shift + n) % 63, m % 63 - n % 63;
    var q := (m / 63 - n / 63) - ((shift + m) / 63 - (shift + n) / 63);
    assert a == b + 63 * q;
  }

  /** From any non-negative configuration: a repeat-free descent, one rotation,
      then for ever the cycle of 63 distinct configurations. */
  lemma LadderFromAnywhere(c: Chunking, m: nat, n: nat)
    requires NonNegative(c)
    ensures var after := StepsToRotation(c) + 1;
            Climb(c, after + m) == Climb(c, after + n) <==> m % 63 == n % 63
  {
    var after := StepsToRotation(c) + 1;
    var k := FirstRotation(c, after);
    CycleReached(c, after, k, m, n);
  }

  lemma CycleReached(c: Chunking, after: nat, k: nat, m: nat, n: nat)
    requires k < 3 && Climb(c, after) == Rung(StrategyAt(k), 0)
    ensures Climb(c, after + m) == Climb(c, after + n) <==> m % 63 == n % 63
  {
    ClimbAdd(c, after, m);
    ClimbAdd(c, after, n);
    LadderCycles(k, m, n);
  }

  lemma FirstRotation(c: Chunking, after: nat) returns (k: nat)
    requires NonNegative(c) && after == StepsToRotation(c) + 1
    ensures k < 3 && Climb(c, after) == Rung(StrategyAt(k), 0)
  {
    RotationComesWithoutRepeats(c);
    StrategyNames();
    k := if c.strategy == SEMANTIC then 1 else if c.strategy == RECURSIVE then 2 else 0;
  }

  lemma PositionIsResidue(n: nat)
    ensures n % 63 == 21 * (n / 21 % 3) + n % 21
  {
    var q := n / 21;
    assert n == 21 * q + n % 21;
    assert n == 63 * (q / 3) + 21 * (q % 3) + n % 21;
  }
}
