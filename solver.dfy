/** The driver of `hybrid_meanfield_equilibrium`: starting from `p = 0.5`, it
    runs exactly `iters` rounds (no early exit); each round computes the raw
    estimate `p_new` from the payoff engine and the aggregator, appends it to
    the history and damps `p := 0.5*p + 0.5*p_new`. */
module Solver {
  import opened Basics
  import opened Degrees
  import opened Population
  import opened Payoff
  import opened Aggregate

  /** The solver's default minimum degree and degree cap. */
  const DefaultM: int := 3
  const DefaultKcap: Option<int> := Some(6000)

  /** The fixed 50/50 damping step: the new state lies between the old state
      and the raw estimate, inclusive. */
  function Damp(p: real, pNew: real): (r: real)
    ensures p <= pNew ==> p <= r <= pNew
    ensures pNew <= p ==> pNew <= r <= p
    ensures r == p <==> p == pNew
  {
    0.5 * p + 0.5 * pNew
  }

  /** The raw estimate of one round, taken at the current state `p`. */
  function Estimate(pop: Agents, g: Game, p: real): (r: real)
    requires pop.Valid()
    ensures 0.0 <= r <= 1.0
  {
    NewFraction(pop, CombinedA(g, p), CombinedB(g, p))
  }

  /** The state `p` after `n` rounds; it never leaves [0, 1]. */
  function State(pop: Agents, g: Game, n: nat): (p: real)
    requires pop.Valid()
    ensures 0.0 <= p <= 1.0
  {
    if n == 0 then 0.5
    else
      var q := State(pop, g, n - 1);
      Damp(q, Estimate(pop, g, q))
  }

  /** The history after `n` rounds: one raw estimate per round, each in [0, 1]. */
  function History(pop: Agents, g: Game, n: nat): (h: seq<real>)
    requires pop.Valid()
    ensures |h| == n
    ensures forall j :: 0 <= j < n ==> 0.0 <= h[j] <= 1.0
  {
    if n == 0 then []
    else History(pop, g, n - 1) + [Estimate(pop, g, State(pop, g, n - 1))]
  }

  /** Entry `j` of the history is the raw estimate taken at the state reached
      after `j` rounds, however many rounds are run in all. */
  lemma {:induction false} HistoryEntry(pop: Agents, g: Game, n: nat, j: nat)
    requires pop.Valid() && j < n
    ensures History(pop, g, n)[j] == Estimate(pop, g, State(pop, g, j))
  {
    if j < n - 1 {
      HistoryEntry(pop, g, n - 1, j);
    }
  }

  /** Prefix consistency: with the same inputs, the history of a shorter run
      is the start of the history of a longer one. */
  lemma {:induction false} HistoryPrefix(pop: Agents, g: Game, n: nat, n': nat)
    requires pop.Valid() && n <= n'
    ensures History(pop, g, n) == History(pop, g, n')[..n]
  {
    forall j | 0 <= j < n ensures History(pop, g, n)[j] == History(pop, g, n')[j] {
      HistoryEntry(pop, g, n, j);
      HistoryEntry(pop, g, n', j);
    }
  }

  /** The value returned is the damped state, which combines the state before
      the last round with the last history entry; it is the last entry itself
      only when that entry equals the previous state. */
  lemma FinalIsDamped(pop: Agents, g: Game, n: nat)
    requires pop.Valid() && n >= 1
    ensures State(pop, g, n) == Damp(State(pop, g, n - 1), History(pop, g, n)[n - 1])
    ensures State(pop, g, n) == History(pop, g, n)[n - 1] <==> State(pop, g, n - 1) == History(pop, g, n)[n - 1]
  {
  }

  /** With one agent, every history entry is exactly 0 or 1. */
  lemma {:induction false} SingleAgentHistory(pop: Agents, g: Game, n: nat)
    requires pop.Valid() && pop.Size() == 1
    ensures forall j :: 0 <= j < n ==> History(pop, g, n)[j] == 0.0 || History(pop, g, n)[j] == 1.0
  {
    forall j | 0 <= j < n ensures History(pop, g, n)[j] == 0.0 || History(pop, g, n)[j] == 1.0 {
      HistoryEntry(pop, g, n, j);
      var q := State(pop, g, j);
      SingleAgent(pop, CombinedA(g, q), CombinedB(g, q));
    }
  }

  /** `0.5 ^ n`, the closed form used by `SymmetricDecay`. */
  function HalfPower(n: nat): real
  {
    if n == 0 then 1.0 else 0.5 * HalfPower(n - 1)
  }

  /** A fully symmetric game with identical jitters does not settle near 0.5:
      every agent ties, ties go to B, so every raw estimate is 0 and the
      damped state halves each round, ending at `0.5 ^ (n + 1)`. */
  lemma {:induction false} SymmetricDecay(pop: Agents, g: Game, n: nat)
    requires pop.Valid() && Symmetric(g)
    requires forall i :: 0 <= i < pop.Size() ==> pop.jitterA[i] == pop.jitterB[i]
    ensures State(pop, g, n) == HalfPower(n + 1)
    ensures forall j :: 0 <= j < n ==> History(pop, g, n)[j] == 0.0
  {
    if n > 0 {
      SymmetricDecay(pop, g, n - 1);
      var q := State(pop, g, n - 1);
      SymmetricTie(g, q);
      TieGoesToB(pop, CombinedA(g, q));
    }
  }

  /** The solver loop, proved against `State` and `History`. */
  method Iterate(pop: Agents, g: Game, iters: nat) returns (p: real, hist: seq<real>)
    requires pop.Valid()
    ensures p == State(pop, g, iters) && hist == History(pop, g, iters)
    ensures 0.0 <= p <= 1.0 && |hist| == iters
  {
    p := 0.5;
    hist := [];
    var t := 0;
    while t < iters
      invariant 0 <= t <= iters
      invariant p == State(pop, g, t)
      invariant hist == History(pop, g, t)
    {
      var pNew := Estimate(pop, g, p);
      hist := hist + [pNew];
      p := Damp(p, pNew);
      t := t + 1;
    }
  }

  /** The degrees one call works with: the raw degrees clamped, as reals. */
  function DegreeVector(raw: seq<int>, m: int, kcap: Option<int>): (k: seq<real>)
    ensures |k| == |raw|
    ensures forall i :: 0 <= i < |raw| ==> k[i] == ClampDegree(raw[i], m, kcap) as real
  {
    ClampedEach(raw, m, kcap);
    AsReals(Clamped(raw, m, kcap))
  }

  /** The per-agent vectors one call builds from its draws: clamped degrees
      as reals, kernel weights, and clipped jitters. `k.max()` is divided by
      only when `kernel_tau > 0`, and only then must it be non-zero. */
  function Setup(raw: seq<int>, m: int, kcap: Option<int>, tau: real, pow: (real, real) -> real,
                 drawsA: seq<real>, drawsB: seq<real>): (pop: Agents)
    requires |raw| > 0 && |drawsA| == |raw| && |drawsB| == |raw|
    requires tau > 0.0 ==> MaxDegree(DegreeVector(raw, m, kcap)) != 0.0
    ensures pop.Valid() && pop.Size() == |raw|
    ensures tau <= 0.0 ==> forall i :: 0 <= i < |raw| ==> pop.weight[i] == 1.0
    ensures forall i :: 0 <= i < |raw| ==> pop.k[i] == ClampDegree(raw[i], m, kcap) as real
  {
    var k := DegreeVector(raw, m, kcap);
    Agents(k, KernelWeights(k, tau, pow), Jitters(drawsA), Jitters(drawsB))
  }

  /** A positive floor and a positive cap (if any) make every degree, and so
      `k.max()`, positive: the kernel weights are defined for every exponent. */
  lemma PositiveFloorDefined(raw: seq<int>, m: int, kcap: Option<int>)
    requires |raw| > 0 && m > 0 && (kcap.None? || kcap.value > 0)
    ensures MaxDegree(DegreeVector(raw, m, kcap)) > 0.0
  {
    var k := DegreeVector(raw, m, kcap);
    ClampedPositive(raw, m, kcap);
    assert k[0] > 0.0;
  }

  /** A negative floor with raw degrees at or below it (as `floor(m/sqrt(1-u))`
      is when `m < 0`) raises every degree to exactly `m`, unless a cap below
      `m` lowers them all to the cap; either way `k.max()` is that common value. */
  lemma NegativeFloorMax(raw: seq<int>, m: int, kcap: Option<int>)
    requires |raw| > 0 && m < 0
    requires forall i :: 0 <= i < |raw| ==> raw[i] <= m
    ensures kcap.None? || kcap.value >= m ==> MaxDegree(DegreeVector(raw, m, kcap)) == m as real
    ensures kcap.Some? && kcap.value < m ==> MaxDegree(DegreeVector(raw, m, kcap)) == kcap.value as real
  {
    var k := DegreeVector(raw, m, kcap);
    assert forall i :: 0 <= i < |raw| ==> k[i] == ClampDegree(raw[i], m, kcap) as real;
  }

  /** With the default `m = 3` and `kcap = 6000` every degree lies in
      [3, 6000], so `k.max()` is positive and the call is defined for every
      exponent. */
  lemma DefaultDegrees(raw: seq<int>)
    requires |raw| > 0
    ensures forall i :: 0 <= i < |raw| ==> 3.0 <= DegreeVector(raw, DefaultM, DefaultKcap)[i] <= 6000.0
    ensures MaxDegree(DegreeVector(raw, DefaultM, DefaultKcap)) >= 3.0
  {
    var k := DegreeVector(raw, DefaultM, DefaultKcap);
    assert k[0] >= 3.0;
  }

  /** `hybrid_meanfield_equilibrium`, with the raw degrees, the normal draws
      for both jitter vectors and the real power supplied by the caller.
      Returns the damped state and the raw per-round history. */
  method HybridMeanfieldEquilibrium(raw: seq<int>, m: int, kcap: Option<int>, tau: real,
                                    pow: (real, real) -> real, drawsA: seq<real>, drawsB: seq<real>,
                                    g: Game, iters: nat) returns (p: real, hist: seq<real>)
    requires |raw| > 0 && |drawsA| == |raw| && |drawsB| == |raw|
    requires tau > 0.0 ==> MaxDegree(DegreeVector(raw, m, kcap)) != 0.0
    ensures 0.0 <= p <= 1.0 && |hist| == iters
    ensures forall j :: 0 <= j < iters ==> 0.0 <= hist[j] <= 1.0
    ensures p == State(Setup(raw, m, kcap, tau, pow, drawsA, drawsB), g, iters)
    ensures hist == History(Setup(raw, m, kcap, tau, pow, drawsA, drawsB), g, iters)
  {
    var degrees := SampleDegrees(raw, m, kcap);
    var k := AsReals(degrees);
    var weight := KernelWeights(k, tau, pow);
    var pop := Agents(k, weight, Jitters(drawsA), Jitters(drawsB));
    assert pop == Setup(raw, m, kcap, tau, pow, drawsA, drawsB);
    p, hist := Iterate(pop, g, iters);
  }
}
