/** The per-agent vectors the solver draws once per call: degrees (as reals),
    kernel weights and the two jitter vectors. Random draws and the real power
    are supplied by the caller; the model covers what the code computes from
    them. */
module Population {
  import opened Basics

  /** Parallel per-agent vectors, positional by agent index. */
  datatype Agents = Agents(k: seq<real>, weight: seq<real>, jitterA: seq<real>, jitterB: seq<real>)
  {
    function Size(): nat
    {
      |k|
    }

    /** What the aggregator needs: a non-empty population, equal lengths, and
        every jitter inside the clip range, hence strictly positive, so that
        the divisions by the jitters are defined. */
    predicate Valid()
      ensures Valid() ==> (forall i :: 0 <= i < |jitterA| ==> jitterA[i] > 0.0) && (forall i :: 0 <= i < |jitterB| ==> jitterB[i] > 0.0)
    {
      && |k| > 0
      && |weight| == |k| && |jitterA| == |k| && |jitterB| == |k|
      && (forall i :: 0 <= i < |k| ==> JitterLow <= jitterA[i] <= JitterHigh)
      && (forall i :: 0 <= i < |k| ==> JitterLow <= jitterB[i] <= JitterHigh)
    }
  }

  const JitterLow: real := 0.7
  const JitterHigh: real := 1.3

  /** `np.clip(rng.normal(1.0, jitter_sigma, size=N), 0.7, 1.3)`, the normal
      draws given. */
  function Jitters(draws: seq<real>): (j: seq<real>)
    ensures |j| == |draws|
    ensures forall i :: 0 <= i < |draws| ==> JitterLow <= j[i] <= JitterHigh && j[i] > 0.0
    ensures forall i :: 0 <= i < |draws| && JitterLow <= draws[i] <= JitterHigh ==> j[i] == draws[i]
  {
    seq(|draws|, i requires 0 <= i < |draws| => Clip(draws[i], JitterLow, JitterHigh))
  }

  /** With zero spread every normal draw is exactly 1.0, and so is every jitter. */
  lemma NoSpreadNoJitter(draws: seq<real>)
    requires forall i :: 0 <= i < |draws| ==> draws[i] == 1.0
    ensures Jitters(draws) == seq(|draws|, _ => 1.0)
  {
  }

  /** `k.max()`. */
  function MaxDegree(k: seq<real>): (r: real)
    requires |k| > 0
    ensures forall i :: 0 <= i < |k| ==> k[i] <= r
    ensures exists i :: 0 <= i < |k| && k[i] == r
  {
    if |k| == 1 then k[0]
    else
      var rest := MaxDegree(k[1..]);
      assert forall i :: 1 <= i < |k| ==> k[i] == k[1..][i - 1];
      if k[0] >= rest then k[0] else rest
  }

  /** The base of the kernel power: each degree relative to the largest one.
      With positive degrees every ratio lies in (0, 1] and the largest degree
      has ratio exactly 1. */
  function DegreeRatios(k: seq<real>): (r: seq<real>)
    requires |k| > 0
    requires forall i :: 0 <= i < |k| ==> k[i] > 0.0
    ensures |r| == |k|
    ensures forall i :: 0 <= i < |k| ==> 0.0 < r[i] <= 1.0
    ensures forall i :: 0 <= i < |k| && k[i] == MaxDegree(k) ==> r[i] == 1.0
  {
    var top := MaxDegree(k);
    seq(|k|, i requires 0 <= i < |k| => RatioAt(k[i], top))
  }

  /** One agent's ratio to the largest degree. */
  function RatioAt(x: real, top: real): (r: real)
    requires 0.0 < x <= top
    ensures 0.0 < r <= 1.0
    ensures x == top ==> r == 1.0
  {
    x / top
  }

  /** `(k / k.max()) ** kernel_tau if kernel_tau > 0 else np.ones_like(k)`;
      `pow` stands for the real power. The maximum is only taken when
      `kernel_tau > 0`, as in the conditional expression, and only then must
      it be non-zero. */
  function KernelWeights(k: seq<real>, tau: real, pow: (real, real) -> real): (w: seq<real>)
    requires |k| > 0
    requires tau > 0.0 ==> MaxDegree(k) != 0.0
    ensures |w| == |k|
    ensures tau <= 0.0 ==> forall i :: 0 <= i < |k| ==> w[i] == 1.0
    ensures tau > 0.0 ==> forall i :: 0 <= i < |k| ==> w[i] == pow(k[i] / MaxDegree(k), tau)
  {
    if tau > 0.0 then
      var top := MaxDegree(k);
      seq(|k|, i requires 0 <= i < |k| => pow(k[i] / top, tau))
    else
      seq(|k|, _ => 1.0)
  }

  /** When the power is positive on (0, 1] (as a real power of a positive base
      is), every kernel weight is positive, whatever the exponent. */
  lemma {:induction false} KernelWeightsPositive(k: seq<real>, tau: real, pow: (real, real) -> real)
    requires |k| > 0
    requires forall i :: 0 <= i < |k| ==> k[i] > 0.0
    requires forall x, t :: 0.0 < x <= 1.0 && t > 0.0 ==> pow(x, t) > 0.0
    ensures MaxDegree(k) > 0.0
    ensures forall i :: 0 <= i < |k| ==> KernelWeights(k, tau, pow)[i] > 0.0
  {
    if tau > 0.0 {
      var ratios := DegreeRatios(k);
      forall i | 0 <= i < |k| ensures KernelWeights(k, tau, pow)[i] > 0.0 {
        assert KernelWeights(k, tau, pow)[i] == pow(ratios[i], tau);
      }
    }
  }
}
