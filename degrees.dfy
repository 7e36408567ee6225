/** The degree sampler (`sample_BA_degrees`): each agent's raw degree
    `floor(m / sqrt(1 - u))` arrives as an input, and the model covers the two
    masked assignments that follow it, the floor at `m` and then the optional
    cap at `kcap`, applied in that order to the array in place. */
module Degrees {
  import opened Basics

  /** The first mask: `k[k < m] = m`. */
  function RaiseTo(x: int, m: int): (r: int)
    ensures r >= m
    ensures x >= m ==> r == x
    ensures x < m ==> r == m
  {
    if x < m then m else x
  }

  /** The second mask: `k[k > kcap] = kcap`, skipped when no cap is given. */
  function CapAt(x: int, kcap: Option<int>): (r: int)
    ensures kcap.None? ==> r == x
    ensures kcap.Some? ==> r <= kcap.value
    ensures kcap.Some? && x <= kcap.value ==> r == x
    ensures kcap.Some? && x > kcap.value ==> r == kcap.value
  {
    match kcap
    case None => x
    case Some(c) => if x > c then c else x
  }

  /** One agent's final degree: raised to `m`, then capped. */
  function ClampDegree(x: int, m: int, kcap: Option<int>): (r: int)
    ensures kcap.None? ==> r >= m && (x >= m ==> r == x)
    ensures kcap.Some? ==> r <= kcap.value
    ensures kcap.Some? && kcap.value >= m ==> m <= r && (m <= x <= kcap.value ==> r == x)
    ensures kcap.Some? && kcap.value < m ==> r == kcap.value
  {
    CapAt(RaiseTo(x, m), kcap)
  }

  /** The whole clamped degree vector, built agent by agent; it has one
      degree per agent. */
  function Clamped(raw: seq<int>, m: int, kcap: Option<int>): (k: seq<int>)
    ensures |k| == |raw|
  {
    if raw == [] then [] else Clamped(raw[..|raw| - 1], m, kcap) + [ClampDegree(raw[|raw| - 1], m, kcap)]
  }

  /** `Clamped` keeps the length and clamps each agent independently. */
  lemma {:induction false} ClampedAt(raw: seq<int>, m: int, kcap: Option<int>, i: int)
    requires 0 <= i < |raw|
    ensures |Clamped(raw, m, kcap)| == |raw|
    ensures Clamped(raw, m, kcap)[i] == ClampDegree(raw[i], m, kcap)
  {
    var n := |raw| - 1;
    if i < n {
      ClampedAt(raw[..n], m, kcap, i);
    }
  }

  /** The clamp keeps the vector's length and acts on each agent alone. */
  lemma {:induction false} ClampedEach(raw: seq<int>, m: int, kcap: Option<int>)
    ensures |Clamped(raw, m, kcap)| == |raw|
    ensures forall i :: 0 <= i < |raw| ==> Clamped(raw, m, kcap)[i] == ClampDegree(raw[i], m, kcap)
  {
    forall i | 0 <= i < |raw| ensures Clamped(raw, m, kcap)[i] == ClampDegree(raw[i], m, kcap) {
      ClampedAt(raw, m, kcap, i);
    }
  }

  /** Degree floor and cap: with no cap, or a cap not below `m`, every degree
      lies in `[m, kcap]`; degrees already there are left alone. */
  lemma {:induction false} ClampedBounds(raw: seq<int>, m: int, kcap: Option<int>)
    requires kcap.None? || kcap.value >= m
    ensures |Clamped(raw, m, kcap)| == |raw|
    ensures forall i :: 0 <= i < |raw| ==> Clamped(raw, m, kcap)[i] >= m
    ensures kcap.Some? ==> forall i :: 0 <= i < |raw| ==> Clamped(raw, m, kcap)[i] <= kcap.value
    ensures forall i :: 0 <= i < |raw| && m <= raw[i] && (kcap.None? || raw[i] <= kcap.value) ==>
      Clamped(raw, m, kcap)[i] == raw[i]
  {
    ClampedEach(raw, m, kcap);
  }

  /** A cap below the floor raises no error: the cap is applied last, so every
      agent ends up with degree exactly `kcap`. */
  lemma {:induction false} CapBelowFloor(raw: seq<int>, m: int, c: int)
    requires c < m
    ensures Clamped(raw, m, Some(c)) == seq(|raw|, _ => c)
  {
    ClampedEach(raw, m, Some(c));
  }

  /** The two masked assignments, performed on the array in place: first every
      entry below `m` is set to `m`, then every entry above the cap to the cap. */
  method ClampInPlace(k: array<int>, m: int, kcap: Option<int>)
    modifies k
    ensures k[..] == Clamped(old(k[..]), m, kcap)
  {
    ghost var raw := k[..];
    var i := 0;
    while i < k.Length
      invariant 0 <= i <= k.Length
      invariant forall j :: 0 <= j < i ==> k[j] == RaiseTo(raw[j], m)
      invariant forall j :: i <= j < k.Length ==> k[j] == raw[j]
    {
      if k[i] < m {
        k[i] := m;
      }
      i := i + 1;
    }
    if kcap.Some? {
      var c := kcap.value;
      i := 0;
      while i < k.Length
        invariant 0 <= i <= k.Length
        invariant forall j :: 0 <= j < i ==> k[j] == ClampDegree(raw[j], m, kcap)
        invariant forall j :: i <= j < k.Length ==> k[j] == RaiseTo(raw[j], m)
      {
        if k[i] > c {
          k[i] := c;
        }
        i := i + 1;
      }
    }
    ClampedEach(raw, m, kcap);
  }

  /** `sample_BA_degrees` after its random draws: copy the raw degrees into a
      fresh array, clamp it in place and hand back its contents. */
  method SampleDegrees(raw: seq<int>, m: int, kcap: Option<int>) returns (k: seq<int>)
    ensures k == Clamped(raw, m, kcap)
    ensures |k| == |raw|
    ensures forall i :: 0 <= i < |raw| ==> k[i] == ClampDegree(raw[i], m, kcap)
  {
    var a := new int[|raw|](i requires 0 <= i < |raw| => raw[i]);
    assert a[..] == raw;
    ClampInPlace(a, m, kcap);
    k := a[..];
    ClampedEach(raw, m, kcap);
  }

  /** `k.astype(float)`. */
  function AsReals(k: seq<int>): (r: seq<real>)
    ensures |r| == |k|
    ensures forall i :: 0 <= i < |k| ==> r[i] == k[i] as real
  {
    seq(|k|, i requires 0 <= i < |k| => k[i] as real)
  }

  /** With a positive floor and a positive cap (if any), every clamped degree
      is positive, whichever of the two clamps decides it. */
  lemma {:induction false} ClampedPositive(raw: seq<int>, m: int, kcap: Option<int>)
    ensures |Clamped(raw, m, kcap)| == |raw|
    ensures m > 0 && (kcap.None? || kcap.value > 0) ==> forall i :: 0 <= i < |raw| ==> Clamped(raw, m, kcap)[i] > 0
  {
    ClampedEach(raw, m, kcap);
  }
}
