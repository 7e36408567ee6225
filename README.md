# Mean-field equilibrium solver (BTUT) — Dafny model

This project models the equilibrium solver of the BTUT demo harness. A large population chooses between strategies A and B. Each agent plays a fixed mix of three games: a Prisoner's-Dilemma-like game (PD), a Hawk–Dove-like game (HD) and a Stag-Hunt-like game (SH). The solver returns the damped fraction of A-players after a fixed number of rounds, together with the raw per-round estimates.

The model follows `btut_grok_test.py` and its six pieces:

- **Degree sampler** (`sample_BA_degrees`), module `Degrees`. The raw degrees `floor(m / sqrt(1 - u))` are an input. The two masked assignments are modelled as `ClampInPlace`, an in-place method over an `array<int>`. It first raises every degree to `m`, then caps every degree at `kcap`. `SampleDegrees` copies the raw degrees into a fresh array and calls it.
- **Per-agent vectors**, module `Population`. Kernel weights are `(k / k.max()) ** kernel_tau`, or all ones when `kernel_tau <= 0`. The real power is passed in as a function `pow`. Jitters are normal draws, supplied as inputs, clipped to [0.7, 1.3] (`Basics.Clip` is `np.clip`).
- **Payoff engine**, module `Payoff`. It holds the six expected-utility formulas and their mix. They are computed over exact reals.
- **Aggregator**, module `Aggregate`. Agent `i` counts for A when `w*k*combinedA/jitterA > w*k*combinedB/jitterB`. The comparison is strict, so ties go to B. `p_new` is the number of A-agents divided by N.
- **Driver**, module `Solver`. The spec functions `State` and `History` give the result after `n` rounds. The loop method `Iterate` is proved against them. `HybridMeanfieldEquilibrium` chains the whole call: clamp, weights, jitters, then the loop.
- **PD curve** (`pd_curve`), module `PdCurve`. It computes the closed-form cooperation fraction over a `linspace` grid of costs.

A fully symmetric configuration does not settle near 0.5, although one might expect it to. Here, symmetric means equal baselines and costs on both sides, all modulation scalars equal to 1, and identical jitters. Every agent's two utilities are then equal, and ties count for B. So every raw estimate is 0, and the damped state halves each round, ending at `0.5^(iters+1)`. `Solver.SymmetricDecay` proves this. The model follows the code.

The code raises no error when `kcap < m`: every degree then ends up equal to `kcap` (`Degrees.CapBelowFloor`). It does not reject `m <= 0` either. The model follows the code here too.

## Model

| member | source | states |
|---|---|---|
| `Basics.Clip` | btut_grok_test.py:67-68 | `np.clip`: result at most `hi`, at least `lo` when the bounds are ordered, unchanged inside the range, pinned to the bound outside it |
| `Degrees.RaiseTo` | btut_grok_test.py:50 | the first mask: the result is at least `m`, equal to `m` below it and unchanged at or above it |
| `Degrees.CapAt` | btut_grok_test.py:51-52 | the second mask: unchanged without a cap; with one, at most `kcap`, unchanged at or below it and equal to `kcap` above it |
| `Degrees.ClampDegree` | btut_grok_test.py:50-52 | one agent's degree after both masks: `>= m` without a cap; `<= kcap` with one; inside `[m, kcap]` and unchanged if already there when `kcap >= m`; exactly `kcap` when `kcap < m` |
| `Degrees.Clamped` | btut_grok_test.py:50-53 | the clamped vector `ClampInPlace` is proved against has one degree per agent (its entries are given by `ClampedAt`) |
| `Degrees.ClampedAt` | btut_grok_test.py:50-52 | the clamped vector has length N and entry `i` is the clamp of raw entry `i` alone (by induction) |
| `Degrees.ClampedEach` | btut_grok_test.py:50-52 | the same fact for all agents at once |
| `Degrees.ClampedBounds` | btut_grok_test.py:47-53 | with no cap, or a cap `>= m`: length N, every entry `>= m`, every entry `<= kcap`, entries already in `[m, kcap]` unchanged |
| `Degrees.CapBelowFloor` | btut_grok_test.py:50-52 | with `kcap < m` no error occurs and every degree equals `kcap`, because the cap is applied last |
| `Degrees.ClampedPositive` | btut_grok_test.py:50-52 | with `m > 0` and a positive cap (if any), every clamped degree is positive, so `k.max()` is a valid divisor |
| `Degrees.ClampInPlace` | btut_grok_test.py:50-52 | the two masked assignments on the array in place, floor first, then cap; the new contents equal `Clamped` of the old contents |
| `Degrees.SampleDegrees` | btut_grok_test.py:45-53 | the returned degrees have length N and entry `i` is raw entry `i` raised to `m`, then capped |
| `Degrees.AsReals` | btut_grok_test.py:53 | `astype(float)`: same length, each entry the same number as a real |
| `Population.Jitters` | btut_grok_test.py:67-68 | every jitter lies in [0.7, 1.3], so it is strictly positive; draws already in range pass through unchanged |
| `Population.Agents.Valid` | btut_grok_test.py:64-68 | the per-agent vectors are non-empty, of equal length, with every jitter in [0.7, 1.3]; so every jitter is positive and the divisions at lines 85-86 are defined |
| `Population.NoSpreadNoJitter` | btut_grok_test.py:67-68 | when every draw is exactly 1.0 (zero spread), every jitter is 1.0 |
| `Population.MaxDegree` | btut_grok_test.py:66 | `k.max()` bounds every degree from above and is one of them |
| `Population.DegreeRatios` | btut_grok_test.py:66 | with positive degrees each `k[i]/k.max()` lies in (0, 1], and is 1 for a largest degree |
| `Population.RatioAt` | btut_grok_test.py:66 | one agent's `k[i]/k.max()` lies in (0, 1] and is 1 at the maximum |
| `Population.KernelWeights` | btut_grok_test.py:66 | identically 1 when `kernel_tau <= 0` (and `k.max()` is then not needed); otherwise `pow(k[i]/k.max(), kernel_tau)` per agent, for any non-zero `k.max()` |
| `Population.KernelWeightsPositive` | btut_grok_test.py:66 | with positive degrees `k.max()` is positive, and when the power is positive on (0, 1] every kernel weight is positive |
| `Payoff.Blend` | btut_grok_test.py:76-83 | `p*x1 + (1-p)*x0` equals `x1` at p = 1 and `x0` at p = 0, and lies between them for p in [0, 1] |
| `Payoff.BlendOffset` | btut_grok_test.py:76-83 | the blend is `x0` moved by the share `p` of the gap, with the sign of each part fixed by the order of `x0`, `x1` |
| `Payoff.EuPdA` | btut_grok_test.py:76 | PD, side A: `(1 - cA)*uA` when all play A; `0.5*(uA+uB) - cA*uA` when all play B |
| `Payoff.EuPdB` | btut_grok_test.py:77 | PD, side B: `0.5*(uB+uA) - cB*uB` at all-A; `(1 - cB)*uB` at all-B |
| `Payoff.EuHdA` | btut_grok_test.py:79 | HD, side A: factor `alpha` at all-A and `delta_hd` at all-B, times the own/blend term, less `cA*uA` |
| `Payoff.EuHdB` | btut_grok_test.py:80 | HD, side B: factor `delta_hd` at all-A and `beta` at all-B, less `cB*uB` |
| `Payoff.EuShA` | btut_grok_test.py:82 | SH, side A: factor `gamma` at all-A and `delta_sh` at all-B, less `cA*uA` |
| `Payoff.EuShB` | btut_grok_test.py:83 | SH, side B: factor `p*delta_sh + (1-p)*1.0`, which is `delta_sh` at all-A and 1 at all-B, less `cB*uB` |
| `Payoff.PdAdvantageConstant` | btut_grok_test.py:76-77 | the PD advantage `EU_PD_A - EU_PD_B` is the same at every state: `0.5*(uA-uB) - (cA*uA - cB*uB)` |
| `Payoff.SymmetricTie` | btut_grok_test.py:76-86 | with identical sides and all modulation scalars 1, the combined A- and B-utilities are equal at every state |
| `Payoff.CombinedA` | btut_grok_test.py:85 | the mixed A-utility; when everyone plays A it is the mix of `(1-cA)*uA` (PD), `uA*alpha - cA*uA` (HD) and `uA*gamma - cA*uA` (SH) |
| `Payoff.CombinedB` | btut_grok_test.py:86 | the mixed B-utility; when everyone plays B it is the mix of `(1-cB)*uB` (PD), `uB*beta - cB*uB` (HD) and `(1-cB)*uB` (SH) |
| `Payoff.DefaultGame` | btut_grok_test.py:56-62 | the keyword defaults: equal mixing weights summing to 1, the supplied (logarithmic) baselines kept as given |
| `Aggregate.CountA` | btut_grok_test.py:88 | the number of A-agents among the first `n` is at most `n` |
| `Aggregate.AgentUtility` | btut_grok_test.py:85-86 | `k_weight*k*combined/jitter`; with positive `w*k` and jitter it has the sign of the combined utility (zero iff it is zero); with `w*k = 0` it is 0 |
| `Aggregate.PrefersA` | btut_grok_test.py:85-88 | the strict `U_A[i] > U_B[i]`: a tie never counts for A; with equal jitters and positive `w*k`, the agent counts for A iff combined A > combined B |
| `Aggregate.NewFraction` | btut_grok_test.py:88 | `p_new` is the A-count divided by N and lies in [0, 1] |
| `Aggregate.FractionBound` | btut_grok_test.py:88 | a count of at most N, divided by N, lies in [0, 1] |
| `Aggregate.CountAExtremes` | btut_grok_test.py:88 | the count is all of N exactly when every agent prefers A, and 0 exactly when none does (both directions) |
| `Aggregate.SingleAgent` | btut_grok_test.py:88 | for N = 1, `p_new` is exactly 0 or 1, and it is 1 iff the single agent strictly prefers A |
| `Aggregate.ScaledComparison` | btut_grok_test.py:85-86 | scaling both utilities by the same positive `w*k` and dividing by the same positive jitter keeps the strict order |
| `Aggregate.EqualJitter` | btut_grok_test.py:85-88 | with equal jitters and positive `w*k` for every agent, each agent counts for A iff combined A > combined B, and `p_new` is 1 in that case and 0 otherwise, including on a tie |
| `Aggregate.TieGoesToB` | btut_grok_test.py:85-88 | with equal combined utilities and equal jitters, `p_new` is 0: ties go to B |
| `Solver.Damp` | btut_grok_test.py:90 | the damped state lies between the old state and `p_new`, inclusive, and is unchanged only when they coincide |
| `Solver.Estimate` | btut_grok_test.py:76-88 | the raw estimate of one round lies in [0, 1] |
| `Solver.State` | btut_grok_test.py:73-90 | starting from 0.5, the state after any number of rounds stays in [0, 1] (by the recursive contract) |
| `Solver.History` | btut_grok_test.py:74-89 | the history after `n` rounds has exactly `n` entries, each in [0, 1] |
| `Solver.HistoryEntry` | btut_grok_test.py:88-89 | entry `j` is the raw estimate at the state after `j` rounds, whatever the total number of rounds |
| `Solver.HistoryPrefix` | btut_grok_test.py:74-90 | prefix consistency: for `n <= n'` with the same inputs, the `n`-round history is the first `n` entries of the `n'`-round history |
| `Solver.FinalIsDamped` | btut_grok_test.py:89-91 | the returned value is the damped state, not `hist[-1]`; the two agree only when the last raw entry equals the previous state |
| `Solver.SingleAgentHistory` | btut_grok_test.py:88-89 | with N = 1, every history entry is exactly 0 or 1 |
| `Solver.SymmetricDecay` | btut_grok_test.py:73-90 | a symmetric game with equal jitters gives raw estimate 0 in every round and final state `0.5^(n+1)` |
| `Solver.Iterate` | btut_grok_test.py:73-91 | the fixed-count loop (no early exit) returns exactly `State(iters)` and `History(iters)`: `p` in [0, 1] and `iters` history entries |
| `Solver.DegreeVector` | btut_grok_test.py:47-53 | the degrees the call works with: one per agent, entry `i` the clamped raw degree `i` as a real |
| `Solver.PositiveFloorDefined` | btut_grok_test.py:50-66 | a positive `m` and a positive cap (if any) make `k.max()` positive, so the weights are defined for every exponent |
| `Solver.NegativeFloorMax` | btut_grok_test.py:48-66 | with `m < 0` and raw degrees at or below `m`, `k.max()` is `m` (or the cap, when the cap is below `m`), so it is non-zero unless the cap is 0 |
| `Solver.DefaultDegrees` | btut_grok_test.py:55-66 | with the defaults `m = 3`, `kcap = 6000` every degree lies in [3, 6000] and `k.max() >= 3` |
| `Solver.Setup` | btut_grok_test.py:64-68 | the per-agent vectors are valid: N agents, equal lengths, jitters in [0.7, 1.3]; degree `i` is the clamped raw degree `i`; weights are 1 when `kernel_tau <= 0`; `k.max()` must be non-zero only when `kernel_tau > 0` |
| `Solver.HybridMeanfieldEquilibrium` | btut_grok_test.py:55-91 | the whole call, given a non-zero `k.max()` when `kernel_tau > 0`, returns `p` in [0, 1] and a history of `iters` entries in [0, 1], equal to `State`/`History` on the vectors built by `Setup` |
| `PdCurve.Linspace` | btut_grok_test.py:31 | `np.linspace`: `n` points, first `lo`, last `hi` when `n >= 2`, consecutive points a constant step apart |
| `PdCurve.LinspaceEnd` | btut_grok_test.py:31 | `n - 1` steps from `lo` land exactly on `hi` |
| `PdCurve.PdFraction` | btut_grok_test.py:32-34 | the fraction is 1 when `2*lam < m` and `(m/(2*lam))^2` otherwise; it lies in [0, 1], so the clip never changes it (for `m > 0`) |
| `PdCurve.SquareOfRatioAtMostOne` | btut_grok_test.py:33-34 | for `0 < m <= 2*lam` the ratio and its square lie in (0, 1] |
| `PdCurve.RatioShrinks` | btut_grok_test.py:33 | `m/(2*lam)` does not grow as `lam` grows |
| `PdCurve.PdFractionNonIncreasing` | btut_grok_test.py:32-34 | cooperation never rises with the per-edge cost `lam` |
| `PdCurve.SquareMonotone` | btut_grok_test.py:33 | squaring keeps the order of non-negative ratios |
| `PdCurve.PdCurveFractions` | btut_grok_test.py:30-34 | the plotted curve has `npts` points, each the fraction at the matching grid cost and each in [0, 1] |
| `PdCurve.LinspaceRises` | btut_grok_test.py:31 | a grid from 0 to a non-negative `lam_max` rises along its index |
| `PdCurve.LinspaceNonPositive` | btut_grok_test.py:31 | a grid from 0 to a negative `lam_max` has no positive point |
| `PdCurve.PdCurveNonIncreasing` | btut_grok_test.py:30-34 | for every `lam_max` the curve does not rise along the grid (for `lam_max < 0` every point is 1) |

## Left out

- Random number generation (`default_rng`, `rng.random`, `rng.normal`). The uniform-derived raw degrees and the normal draws for both jitter vectors are inputs. Seed determinism is numpy's business; the model's functions are deterministic by construction.
- `sqrt`, `floor` and the int64 cast in the raw degree, `np.log` in the default baselines, and the real power `(k/k.max())**kernel_tau`. These values are inputs: the raw degree sequence, the baselines in `Payoff.DefaultGame`, and the function `pow`.
- Floating-point rounding. The model uses exact reals.
- N = 0. `k.max()` raises ValueError when `kernel_tau > 0`; otherwise the mean of an empty comparison is NaN. Neither can be expressed over reals, so `Population.Agents.Valid` requires N > 0.
- Solver.HybridMeanfieldEquilibrium: when `kernel_tau > 0` it requires `k.max() != 0` (also on `Solver.Setup`). The maximum is zero only when no degree is positive and one is 0, for instance with `m = 0` or a cap of 0; numpy then divides by zero and gives NaN or infinite weights, which reals cannot represent. A negative `m` does not reach this case (`Solver.NegativeFloorMax`).
- PdCurve.PdFraction and PdCurve.PdCurveFractions: require `m > 0`, the only value the harness passes (the default 3.0, at lines 158 and 166). For `m < 0` numpy clips `(m/(2*lam))^2` to 1 where it exceeds 1 (at `lam = 0` it clips an infinity), and for `m = 0` at `lam = 0` it gives NaN; the model covers neither.
- `pd_curve` plotting, `savefig_unique`, the import-time `os.makedirs`, the `demo_*` functions and the argparse `main`. They do plotting, file output and command-line handling around the solver.
- `btut_animate.py`, `btut_diagnostics.py`, `btut_scaling_test.py` and `btut_random_sweep.py` are not part of this model. They are GIF rendering, JSON reports, wall-clock timing and shell-driven parameter sweeps around repeated solver calls.
