/** The arithmetic of the query clusterer: features, their normalization, and the centroids of clusters. */
module Centroids {
  type Fingerprint = string
  type Feature = seq<real>
  type Features = map<Fingerprint, Feature>

  function Zeros(n: nat): (c: Feature)
    ensures |c| == n && forall i :: 0 <= i < n ==> c[i] == 0.0
  {
    seq(n, _ => 0.0)
  }

  // ----- Normalization -----

  function SumSquares(f: Feature): real {
    if f == [] then 0.0 else SumSquares(f[..|f| - 1]) + f[|f| - 1] * f[|f| - 1]
  }

  function Scaled(f: Feature, x: real): Feature
    requires x != 0.0
  {
    seq(|f|, i requires 0 <= i < |f| => f[i] / x)
  }

  /** AddFeature divides by the sum of squares, not by its root. */
  function Normalized(f: Feature): Feature {
    if SumSquares(f) > 0.0 then Scaled(f, SumSquares(f)) else f
  }

  method Normalize(feature: Feature) returns (f: Feature)
    ensures f == Normalized(feature)
  {
    f := feature;
    var norm := 0.0;
    for i := 0 to |feature|
      invariant norm == SumSquares(feature[..i])
    {
      assert feature[..i + 1][..i] == feature[..i];
      norm := norm + feature[i] * feature[i];
    }
    assert feature[..|feature|] == feature;
    if norm > 0.0 {
      for i := 0 to |feature|
        invariant |f| == |feature| && f[i..] == feature[i..] && f[..i] == Scaled(feature, norm)[..i]
      {
        f := f[i := f[i] / norm];
      }
    }
  }

  lemma ScaledTerm(a: real, b: real, x: real, s: real, g: real)
    requires a * (x * x) == s && b * x == g
    ensures (a + b * b) * (x * x) == s + g * g
  {
    assert (b * x) * (b * x) == (b * b) * (x * x);
    assert (a + b * b) * (x * x) == a * (x * x) + (b * b) * (x * x);
  }

  lemma {:induction false} ScaledSquares(f: Feature, x: real)
    requires x > 0.0
    ensures SumSquares(Scaled(f, x)) * (x * x) == SumSquares(f)
  {
    if f != [] {
      var m := |f| - 1;
      ScaledSquares(f[..m], x);
      assert Scaled(f, x)[..m] == Scaled(f[..m], x);
      ScaledTerm(SumSquares(Scaled(f[..m], x)), f[m] / x, x, SumSquares(f[..m]), f[m]);
    }
  }

  /** A feature that is not zero gets unit length if and only if it had it before. */
  lemma NormalizedIff(f: Feature)
    requires SumSquares(f) > 0.0
    ensures SumSquares(Normalized(f)) == 1.0 <==> SumSquares(f) == 1.0
  {
    var x, y := SumSquares(f), SumSquares(Scaled(f, SumSquares(f)));
    ScaledSquares(f, x);
    assert y * (x * x) == (y * x) * x;
    assert (y * x - 1.0) * x == 0.0;
    assert y * x == 1.0;
  }

  // ----- Centroids -----

  ghost predicate FeaturesOk(fs: Features, n: nat) {
    forall fp :: fp in fs ==> |fs[fp]| == n
  }

  ghost function SumAt(ts: set<Fingerprint>, fs: Features, i: nat): real
    requires ts <= fs.Keys && forall fp :: fp in ts ==> i < |fs[fp]|
  {
    if ts == {} then 0.0
    else
      var fp :| fp in ts;
      SumAt(ts - {fp}, fs, i) + fs[fp][i]
  }

  lemma {:induction false} SumWithout(ts: set<Fingerprint>, fs: Features, i: nat, fp: Fingerprint)
    requires fp in ts && ts <= fs.Keys && forall g :: g in ts ==> i < |fs[g]|
    ensures SumAt(ts, fs, i) == SumAt(ts - {fp}, fs, i) + fs[fp][i]
    decreases ts
  {
    var g :| g in ts && SumAt(ts, fs, i) == SumAt(ts - {g}, fs, i) + fs[g][i];
    if g != fp {
      SumWithout(ts - {g}, fs, i, fp);
      SumWithout(ts - {fp}, fs, i, g);
      assert ts - {g} - {fp} == ts - {fp} - {g};
    }
  }

  /** The mean of the templates' features; zero for no templates. */
  ghost function Mean(ts: set<Fingerprint>, fs: Features, n: nat): (c: Feature)
    requires ts <= fs.Keys && FeaturesOk(fs, n)
    ensures |c| == n
  {
    if ts == {} then Zeros(n) else seq(n, i requires 0 <= i < n => SumAt(ts, fs, i) / |ts| as real)
  }

  /** What AddTemplateAndUpdateCentroid makes of the centroid of `k` templates. */
  function Shifted(c: Feature, k: nat, f: Feature): (r: Feature)
    requires |c| == |f|
    ensures |r| == |c|
  {
    seq(|c|, i requires 0 <= i < |c| => c[i] + (c[i] * k as real + f[i]) * 1.0 / (k + 1) as real)
  }

  /** One more feature moves the mean to the weighted mean of the two. */
  lemma MeanAt(ts: set<Fingerprint>, fs: Features, n: nat, fp: Fingerprint, i: nat)
    requires ts <= fs.Keys && FeaturesOk(fs, n) && fp in fs && fp !in ts && i < n
    ensures Mean(ts + {fp}, fs, n)[i] == (Mean(ts, fs, n)[i] * |ts| as real + fs[fp][i]) / (|ts| + 1) as real
  {
    var more, k := ts + {fp}, |ts| as real;
    SumWithout(more, fs, i, fp);
    assert more - {fp} == ts && |more| == |ts| + 1;
    if ts != {} {
      var s := SumAt(ts, fs, i);
      assert s / k * k == s;
    }
  }

  /** Adding a template to a cluster whose centroid is the mean leaves the mean if and only if the old mean is zero. */
  lemma ShiftGivesMeanIff(ts: set<Fingerprint>, fs: Features, n: nat, fp: Fingerprint)
    requires ts <= fs.Keys && FeaturesOk(fs, n) && fp in fs && fp !in ts
    ensures Shifted(Mean(ts, fs, n), |ts|, fs[fp]) == Mean(ts + {fp}, fs, n) <==> Mean(ts, fs, n) == Zeros(n)
  {
    var c := Mean(ts, fs, n);
    var a, b := Shifted(c, |ts|, fs[fp]), Mean(ts + {fp}, fs, n);
    forall i: nat | i < n ensures a[i] == c[i] + b[i] { MeanAt(ts, fs, n, fp, i); }
    if a == b {
      forall i: nat | i < n ensures c[i] == 0.0 { assert a[i] == b[i]; }
    }
  }
}
