/** The payoff engine of `hybrid_meanfield_equilibrium`: for the current
    fraction `p` of A-players, the expected utility of each side in the
    PD-like, HD-like and SH-like games, and their mix. Every formula is a
    polynomial in `p`, so the model computes over exact reals. */
module Payoff {
  import opened Basics

  /** An (A-side, B-side) pair, as the tuples `uPD`, `cPD`, ... */
  datatype Pair = Pair(a: real, b: real)

  /** The payoff bundle and mixing weights the solver is called with. */
  datatype Game = Game(
    mixPD: real, mixHD: real, mixSH: real,
    uPD: Pair, uHD: Pair, uSH: Pair,
    alpha: real, beta: real, deltaHD: real, gamma: real, deltaSH: real,
    cPD: Pair, cHD: Pair, cSH: Pair)

  /** The keyword defaults of the solver; the baseline utilities are logarithms
      (`np.log(2.0)`, ...) and are therefore supplied. */
  function DefaultGame(uPD: Pair, uHD: Pair, uSH: Pair): (g: Game)
    ensures g.mixPD + g.mixHD + g.mixSH == 1.0
    ensures g.mixPD == g.mixHD == g.mixSH
    ensures g.uPD == uPD && g.uHD == uHD && g.uSH == uSH
  {
    Game(1.0 / 3.0, 1.0 / 3.0, 1.0 / 3.0, uPD, uHD, uSH,
         0.7, 1.08, 1.0, 1.30, 0.03,
         Pair(0.30, 0.08), Pair(0.22, 0.12), Pair(0.70, 0.10))
  }

  /** The population-wide blend `p*x1 + (1-p)*x0`: the value at all-A is `x1`,
      at all-B is `x0`, and in between it stays between the two. */
  function Blend(p: real, x1: real, x0: real): (r: real)
    ensures p == 1.0 ==> r == x1
    ensures p == 0.0 ==> r == x0
    ensures 0.0 <= p <= 1.0 && x0 <= x1 ==> x0 <= r <= x1
    ensures 0.0 <= p <= 1.0 && x1 <= x0 ==> x1 <= r <= x0
  {
    BlendOffset(p, x1, x0);
    p * x1 + (1.0 - p) * x0
  }

  /** The blend moves from `x0` towards `x1` by the share `p` of the gap. */
  lemma BlendOffset(p: real, x1: real, x0: real)
    ensures p * x1 + (1.0 - p) * x0 == x0 + p * (x1 - x0)
    ensures 0.0 <= p <= 1.0 ==> x0 + p * (x1 - x0) == x1 - (1.0 - p) * (x1 - x0)
    ensures 0.0 <= p <= 1.0 && x0 <= x1 ==> 0.0 <= p * (x1 - x0) && 0.0 <= (1.0 - p) * (x1 - x0)
    ensures 0.0 <= p <= 1.0 && x1 <= x0 ==> p * (x1 - x0) <= 0.0 && (1.0 - p) * (x1 - x0) <= 0.0
  {
    if 0.0 <= p <= 1.0 {
      var d := x1 - x0;
      if d >= 0.0 {
        ProductNonnegative(p, d);
        ProductNonnegative(1.0 - p, d);
      } else {
        ProductNonnegative(p, -d);
        ProductNonnegative(1.0 - p, -d);
      }
    }
  }

  // PD-like game: half own baseline plus half the blend, less the own cost.

  function EuPdA(g: Game, p: real): (r: real)
    ensures p == 1.0 ==> r == g.uPD.a - g.cPD.a * g.uPD.a
    ensures p == 0.0 ==> r == 0.5 * (g.uPD.a + g.uPD.b) - g.cPD.a * g.uPD.a
  {
    0.5 * (g.uPD.a + Blend(p, g.uPD.a, g.uPD.b)) - g.cPD.a * g.uPD.a
  }

  function EuPdB(g: Game, p: real): (r: real)
    ensures p == 1.0 ==> r == 0.5 * (g.uPD.b + g.uPD.a) - g.cPD.b * g.uPD.b
    ensures p == 0.0 ==> r == g.uPD.b - g.cPD.b * g.uPD.b
  {
    0.5 * (g.uPD.b + Blend(p, g.uPD.a, g.uPD.b)) - g.cPD.b * g.uPD.b
  }

  // HD-like game: the same term scaled by a state-dependent factor,
  // `p*alpha + (1-p)*delta_hd` for A and `p*delta_hd + (1-p)*beta` for B.

  function EuHdA(g: Game, p: real): (r: real)
    ensures p == 1.0 ==> r == g.uHD.a * g.alpha - g.cHD.a * g.uHD.a
    ensures p == 0.0 ==> r == 0.5 * (g.uHD.a + g.uHD.b) * g.deltaHD - g.cHD.a * g.uHD.a
  {
    (0.5 * (g.uHD.a + Blend(p, g.uHD.a, g.uHD.b))) * Blend(p, g.alpha, g.deltaHD) - g.cHD.a * g.uHD.a
  }

  function EuHdB(g: Game, p: real): (r: real)
    ensures p == 1.0 ==> r == 0.5 * (g.uHD.b + g.uHD.a) * g.deltaHD - g.cHD.b * g.uHD.b
    ensures p == 0.0 ==> r == g.uHD.b * g.beta - g.cHD.b * g.uHD.b
  {
    (0.5 * (g.uHD.b + Blend(p, g.uHD.a, g.uHD.b))) * Blend(p, g.deltaHD, g.beta) - g.cHD.b * g.uHD.b
  }

  // SH-like game: factors `p*gamma + (1-p)*delta_sh` for A and
  // `p*delta_sh + (1-p)*1.0` for B.

  function EuShA(g: Game, p: real): (r: real)
    ensures p == 1.0 ==> r == g.uSH.a * g.gamma - g.cSH.a * g.uSH.a
    ensures p == 0.0 ==> r == 0.5 * (g.uSH.a + g.uSH.b) * g.deltaSH - g.cSH.a * g.uSH.a
  {
    (0.5 * (g.uSH.a + Blend(p, g.uSH.a, g.uSH.b))) * Blend(p, g.gamma, g.deltaSH) - g.cSH.a * g.uSH.a
  }

  function EuShB(g: Game, p: real): (r: real)
    ensures p == 1.0 ==> r == 0.5 * (g.uSH.b + g.uSH.a) * g.deltaSH - g.cSH.b * g.uSH.b
    ensures p == 0.0 ==> r == g.uSH.b - g.cSH.b * g.uSH.b
  {
    (0.5 * (g.uSH.b + Blend(p, g.uSH.a, g.uSH.b))) * Blend(p, g.deltaSH, 1.0) - g.cSH.b * g.uSH.b
  }

  /** `mix_PD*EU_PD_A + mix_HD*EU_HD_A + mix_SH*EU_SH_A`: when everyone plays
      A, each game pays its own A-baseline scaled by the game's all-A factor. */
  function CombinedA(g: Game, p: real): (r: real)
    ensures p == 1.0 ==> r == g.mixPD * (g.uPD.a - g.cPD.a * g.uPD.a)
                             + g.mixHD * (g.uHD.a * g.alpha - g.cHD.a * g.uHD.a)
                             + g.mixSH * (g.uSH.a * g.gamma - g.cSH.a * g.uSH.a)
  {
    g.mixPD * EuPdA(g, p) + g.mixHD * EuHdA(g, p) + g.mixSH * EuShA(g, p)
  }

  /** `mix_PD*EU_PD_B + mix_HD*EU_HD_B + mix_SH*EU_SH_B`: when everyone plays
      B, each game pays its own B-baseline scaled by the game's all-B factor. */
  function CombinedB(g: Game, p: real): (r: real)
    ensures p == 0.0 ==> r == g.mixPD * (g.uPD.b - g.cPD.b * g.uPD.b)
                             + g.mixHD * (g.uHD.b * g.beta - g.cHD.b * g.uHD.b)
                             + g.mixSH * (g.uSH.b - g.cSH.b * g.uSH.b)
  {
    g.mixPD * EuPdB(g, p) + g.mixHD * EuHdB(g, p) + g.mixSH * EuShB(g, p)
  }

  /** In the PD-like game the advantage of A over B does not depend on the
      population state: the blend enters both sides identically. */
  lemma PdAdvantageConstant(g: Game, p: real, q: real)
    ensures EuPdA(g, p) - EuPdB(g, p) == EuPdA(g, q) - EuPdB(g, q)
    ensures EuPdA(g, p) - EuPdB(g, p) == 0.5 * (g.uPD.a - g.uPD.b) - (g.cPD.a * g.uPD.a - g.cPD.b * g.uPD.b)
  {
  }

  /** A game whose sides carry identical baselines and costs and whose
      modulation scalars are all 1 gives neither side an edge. */
  predicate Symmetric(g: Game)
  {
    && g.uPD.a == g.uPD.b && g.uHD.a == g.uHD.b && g.uSH.a == g.uSH.b
    && g.cPD.a == g.cPD.b && g.cHD.a == g.cHD.b && g.cSH.a == g.cSH.b
    && g.alpha == 1.0 && g.beta == 1.0 && g.deltaHD == 1.0 && g.gamma == 1.0 && g.deltaSH == 1.0
  }

  /** For a symmetric game the two combined utilities coincide at every state. */
  lemma SymmetricTie(g: Game, p: real)
    requires Symmetric(g)
    ensures CombinedA(g, p) == CombinedB(g, p)
  {
    assert EuPdA(g, p) == EuPdB(g, p);
    assert EuHdA(g, p) == EuHdB(g, p);
    assert EuShA(g, p) == EuShB(g, p);
  }
}
