/** The utility aggregator: the two combined scalars are scaled per agent by
    `k_weight[i] * k[i]`, divided by that agent's own jitter, compared
    strictly, and the share of agents on the A side is the new estimate. */
module Aggregate {
  import opened Population

  /** `k_weight * k * combined / jitter` for one agent, evaluated left to right.
      With a positive scale `w*k` and a positive jitter the agent's utility has
      the sign of the combined utility; with a zero scale it is 0. */
  function AgentUtility(w: real, k: real, combined: real, jitter: real): (u: real)
    requires jitter != 0.0
    ensures w * k > 0.0 && jitter > 0.0 ==> (u > 0.0 <==> combined > 0.0) && (u == 0.0 <==> combined == 0.0)
    ensures w * k == 0.0 ==> u == 0.0
  {
    if w * k > 0.0 && jitter > 0.0 then
      ScaledComparison(w * k, combined, 0.0, jitter);
      ScaledComparison(w * k, 0.0, combined, jitter);
      w * k * combined / jitter
    else
      w * k * combined / jitter
  }

  /** Agent `i` counts for A iff `U_A[i] > U_B[i]`. The comparison is strict,
      so a tie never counts for A; and when the agent's two jitters agree and
      its `w*k` is positive, it counts for A iff the combined A-utility beats
      the combined B-utility. */
  predicate PrefersA(pop: Agents, ca: real, cb: real, i: int)
    requires pop.Valid() && 0 <= i < pop.Size()
    ensures ca == cb && pop.jitterA[i] == pop.jitterB[i] ==> !PrefersA(pop, ca, cb, i)
    ensures pop.jitterA[i] == pop.jitterB[i] && pop.weight[i] * pop.k[i] > 0.0 ==> (PrefersA(pop, ca, cb, i) <==> ca > cb)
  {
    var wk := pop.weight[i] * pop.k[i];
    if pop.jitterA[i] == pop.jitterB[i] && wk > 0.0 then
      ScaledComparison(wk, ca, cb, pop.jitterA[i]);
      assert AgentUtility(pop.weight[i], pop.k[i], ca, pop.jitterA[i]) == wk * ca / pop.jitterA[i];
      assert AgentUtility(pop.weight[i], pop.k[i], cb, pop.jitterB[i]) == wk * cb / pop.jitterA[i];
      AgentUtility(pop.weight[i], pop.k[i], ca, pop.jitterA[i])
        > AgentUtility(pop.weight[i], pop.k[i], cb, pop.jitterB[i])
    else
      AgentUtility(pop.weight[i], pop.k[i], ca, pop.jitterA[i])
        > AgentUtility(pop.weight[i], pop.k[i], cb, pop.jitterB[i])
  }

  /** The number of agents among the first `n` that count for A. */
  function CountA(pop: Agents, ca: real, cb: real, n: nat): (c: nat)
    requires pop.Valid() && n <= pop.Size()
    ensures c <= n
  {
    if n == 0 then 0
    else CountA(pop, ca, cb, n - 1) + (if PrefersA(pop, ca, cb, n - 1) then 1 else 0)
  }

  /** `(U_A > U_B).mean()`: the share of agents counting for A. */
  function NewFraction(pop: Agents, ca: real, cb: real): (r: real)
    requires pop.Valid()
    ensures 0.0 <= r <= 1.0
    ensures r == CountA(pop, ca, cb, pop.Size()) as real / pop.Size() as real
  {
    var c := CountA(pop, ca, cb, pop.Size());
    FractionBound(c, pop.Size());
    c as real / pop.Size() as real
  }

  lemma FractionBound(c: nat, n: nat)
    requires 0 < n && c <= n
    ensures 0.0 <= c as real / n as real <= 1.0
  {
    assert c as real <= n as real;
  }

  /** The count is the whole prefix exactly when every agent in it prefers A,
      and zero exactly when none does. */
  lemma {:induction false} CountAExtremes(pop: Agents, ca: real, cb: real, n: nat)
    requires pop.Valid() && n <= pop.Size()
    ensures CountA(pop, ca, cb, n) == n <==> forall i :: 0 <= i < n ==> PrefersA(pop, ca, cb, i)
    ensures CountA(pop, ca, cb, n) == 0 <==> forall i :: 0 <= i < n ==> !PrefersA(pop, ca, cb, i)
  {
    if n > 0 {
      CountAExtremes(pop, ca, cb, n - 1);
    }
  }

  /** With a single agent the estimate is exactly 0 or 1. */
  lemma SingleAgent(pop: Agents, ca: real, cb: real)
    requires pop.Valid() && pop.Size() == 1
    ensures NewFraction(pop, ca, cb) == 0.0 || NewFraction(pop, ca, cb) == 1.0
    ensures NewFraction(pop, ca, cb) == 1.0 <==> PrefersA(pop, ca, cb, 0)
  {
    assert CountA(pop, ca, cb, 1) == if PrefersA(pop, ca, cb, 0) then 1 else 0;
  }

  /** Dividing both sides by the same positive jitter and scaling both by the
      same positive `w*k` preserves the strict comparison. */
  lemma ScaledComparison(wk: real, x: real, y: real, j: real)
    requires wk > 0.0 && j > 0.0
    ensures wk * x / j > wk * y / j <==> x > y
  {
    if x > y {
      assert wk * x > wk * y;
    } else {
      assert wk * x <= wk * y;
    }
    assert wk * x / j > wk * y / j <==> wk * x > wk * y;
  }

  /** When each agent's two jitters agree and its `k_weight*k` is positive,
      an agent counts for A iff the combined A-utility beats the combined
      B-utility; so the estimate is all-or-nothing, and 0 on a tie. */
  lemma EqualJitter(pop: Agents, ca: real, cb: real)
    requires pop.Valid()
    requires forall i :: 0 <= i < pop.Size() ==> pop.jitterA[i] == pop.jitterB[i]
    requires forall i :: 0 <= i < pop.Size() ==> pop.weight[i] * pop.k[i] > 0.0
    ensures forall i :: 0 <= i < pop.Size() ==> (PrefersA(pop, ca, cb, i) <==> ca > cb)
    ensures NewFraction(pop, ca, cb) == if ca > cb then 1.0 else 0.0
  {
    var n := pop.Size();
    forall i | 0 <= i < n ensures PrefersA(pop, ca, cb, i) <==> ca > cb {
      assert pop.jitterA[i] == pop.jitterB[i] && pop.weight[i] * pop.k[i] > 0.0;
    }
    CountAExtremes(pop, ca, cb, n);
    var c := CountA(pop, ca, cb, n);
    if ca > cb {
      assert c == n;
      assert c as real / n as real == 1.0;
    } else {
      assert c == 0;
    }
  }

  /** Identical combined utilities and identical jitters make every agent's
      two utilities equal, and a tie never counts for A: the estimate is 0. */
  lemma TieGoesToB(pop: Agents, c: real)
    requires pop.Valid()
    requires forall i :: 0 <= i < pop.Size() ==> pop.jitterA[i] == pop.jitterB[i]
    ensures NewFraction(pop, c, c) == 0.0
  {
    CountAExtremes(pop, c, c, pop.Size());
  }
}
