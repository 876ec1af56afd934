/** Clusters of query templates and the index over their centroids. */
module Clusters {
  import opened Centroids

  datatype Info = Info(templates: set<Fingerprint>, centroid: Feature)

  class Cluster {
    var templates: set<Fingerprint>
    var centroid: Feature

    constructor (n: nat)
      ensures View() == Info({}, Zeros(n))
    {
      templates, centroid := {}, Zeros(n);
    }

    ghost function View(): Info
      reads this
    {
      Info(templates, centroid)
    }

    method AddTemplateAndUpdateCentroid(fp: Fingerprint, feature: Feature)
      requires |feature| == |centroid|
      modifies this
      ensures View() == Info(old(templates) + {fp}, Shifted(old(centroid), |old(templates)|, feature))
    {
      var k := |templates|;
      for i := 0 to |feature|
        invariant templates == old(templates) && |centroid| == |feature|
        invariant forall j :: i <= j < |feature| ==> centroid[j] == old(centroid)[j]
        invariant forall j :: 0 <= j < i ==> centroid[j] == Shifted(old(centroid), k, feature)[j]
      {
        centroid := centroid[i := centroid[i] + (centroid[i] * k as real + feature[i]) * 1.0 / (k + 1) as real];
      }
      templates := templates + {fp};
    }

    method AddTemplate(fp: Fingerprint)
      modifies this
      ensures View() == Info(old(templates) + {fp}, old(centroid))
    {
      templates := templates + {fp};
    }

    method RemoveTemplate(fp: Fingerprint)
      modifies this
      ensures View() == Info(old(templates) - {fp}, old(centroid))
    {
      templates := templates - {fp};
    }

    method UpdateCentroid(fs: Features)
      requires templates != {} && templates <= fs.Keys && FeaturesOk(fs, |centroid|)
      modifies this`centroid
      ensures View() == Info(old(templates), Mean(old(templates), fs, |old(centroid)|))
    {
      var n := |centroid|;
      centroid := Zeros(n);
      var rest := templates;
      assert templates - rest == {};
      while rest != {}
        invariant rest <= templates && |centroid| == n
        invariant forall i: nat :: i < n ==> centroid[i] == SumAt(templates - rest, fs, i)
        decreases rest
      {
        var fp :| fp in rest;
        AddFeature(fs[fp]);
        forall i: nat | i < n { SumWithout(templates - (rest - {fp}), fs, i, fp); }
        assert templates - (rest - {fp}) - {fp} == templates - rest;
        rest := rest - {fp};
      }
      assert templates - rest == templates;
      Divide(|templates|);
    }

    method AddFeature(f: Feature)
      requires |f| == |centroid|
      modifies this`centroid
      ensures |centroid| == |old(centroid)| && forall i :: 0 <= i < |f| ==> centroid[i] == old(centroid)[i] + f[i]
    {
      for i := 0 to |f|
        invariant |centroid| == |f| && forall j :: i <= j < |f| ==> centroid[j] == old(centroid)[j]
        invariant forall j :: 0 <= j < i ==> centroid[j] == old(centroid)[j] + f[j]
      {
        centroid := centroid[i := centroid[i] + f[i]];
      }
    }

    method Divide(k: nat)
      requires k > 0
      modifies this`centroid
      ensures |centroid| == |old(centroid)|
      ensures forall i :: 0 <= i < |centroid| ==> centroid[i] == old(centroid)[i] / k as real
    {
      for i := 0 to |centroid|
        invariant |centroid| == |old(centroid)| && forall j :: i <= j < |centroid| ==> centroid[j] == old(centroid)[j]
        invariant forall j :: 0 <= j < i ==> centroid[j] == old(centroid)[j] / k as real
      {
        centroid := centroid[i := centroid[i] / k as real];
      }
    }
  }

  /** Each of the clusters stands in the list exactly once, and nothing else does. */
  ghost predicate Lists(l: seq<Cluster>, cs: set<Cluster>) {
    multiset(l) == multiset(cs)
  }

  lemma ListedIn(l: seq<Cluster>, cs: set<Cluster>, c: Cluster)
    requires Lists(l, cs)
    ensures c in l <==> c in cs
  {
    assert c in l <==> c in multiset(l);
  }

  lemma ListedOnce(l: seq<Cluster>, cs: set<Cluster>, i: nat, j: nat)
    requires Lists(l, cs) && i < j < |l|
    ensures l[i] != l[j]
  {
    assert l == l[..j] + [l[j]] + l[j + 1..];
    assert l[..j][i] in multiset(l[..j]);
    assert multiset(cs)[l[j]] <= 1;
  }

  lemma ListOneMore(l: seq<Cluster>, cs: set<Cluster>, c: Cluster)
    requires Lists(l, cs) && c !in cs
    ensures Lists(l + [c], cs + {c})
  {
  }

  /** The answer of the index to its n-th question: a place among the points, and a similarity.  Any answers at all. */
  type Oracle = (nat, Feature, seq<Feature>) -> (nat, real)

  /** `points` are the centroids that the index was last built from. */
  class KDTree {
    const oracle: Oracle
    var clusters: seq<Cluster>
    var points: seq<Feature>
    var asked: nat

    ghost predicate Valid()
      reads this
    {
      |points| == |clusters|
    }

    constructor (o: Oracle)
      ensures Valid() && oracle == o && clusters == [] && asked == 0
    {
      oracle, clusters, points, asked := o, [], [], 0;
    }

    method Insert(c: Cluster)
      requires Valid()
      modifies this`clusters, this`points
      ensures Valid() && clusters == old(clusters) + [c] && points == old(points) + [c.centroid]
    {
      points := points + [c.centroid];
      clusters := clusters + [c];
    }

    ghost function Nearest(feature: Feature): (Cluster, real)
      requires Valid() && clusters != []
      reads this
    {
      var (i, similarity) := oracle(asked, feature, points);
      (clusters[i % |clusters|], similarity)
    }

    /** The cluster the index names, or none when there is no cluster. */
    method GetNN(feature: Feature) returns (c: Cluster?, similarity: real)
      requires Valid()
      modifies this`asked
      ensures Valid() && asked == old(asked) + 1
      ensures if clusters == [] then c == null else (c, similarity) == old(Nearest(feature))
    {
      asked := asked + 1;
      if |clusters| == 0 {
        return null, 0.0;
      }
      var (i, s) := oracle(asked - 1, feature, points);
      return clusters[i % |clusters|], s;
    }

    /** Builds the index again from the centroids as they are. */
    method Update()
      modifies this`points
      ensures Valid() && forall i :: 0 <= i < |clusters| ==> points[i] == clusters[i].centroid
    {
      points := [];
      for i := 0 to |clusters|
        invariant |points| == i && forall j :: 0 <= j < i ==> points[j] == clusters[j].centroid
      {
        points := points + [clusters[i].centroid];
      }
    }

    method Build(cs: set<Cluster>)
      modifies this`clusters, this`points
      ensures Valid() && Lists(clusters, cs)
      ensures forall i :: 0 <= i < |clusters| ==> points[i] == clusters[i].centroid
    {
      clusters := Enumerate(cs);
      Update();
    }
  }

  /** The elements in any order. */
  method Enumerate(cs: set<Cluster>) returns (l: seq<Cluster>)
    ensures Lists(l, cs)
  {
    l := [];
    var rest := cs;
    assert cs - rest == {};
    while rest != {}
      invariant rest <= cs && Lists(l, cs - rest)
      decreases rest
    {
      var c :| c in rest;
      ListOneMore(l, cs - rest, c);
      assert cs - (rest - {c}) == cs - rest + {c};
      l := l + [c];
      rest := rest - {c};
    }
    assert cs - rest == cs;
  }
}
