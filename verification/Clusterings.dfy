/** What the query clusterer does to its clusters, as relations between values. */
module Clusterings {
  import opened Centroids
  import opened Clusters

  /** The number of features, the similarity asked for, the cosine of two vectors and the index's answers. */
  datatype Setting = Setting(n: nat, threshold: real, cosine: (Feature, Feature) -> real, oracle: Oracle)

  type Views = map<Cluster, Info>
  type Homes = map<Fingerprint, Cluster>

  /** The clusters in use and what each holds, where each template is, and what the index lists. */
  datatype State = State(
    views: Views, home: Homes, live: set<Cluster>, list: seq<Cluster>, points: seq<Feature>, asked: nat)

  /** The index lists the clusters in use, each once and with the centroid it has now. */
  ghost predicate StateOk(st: Setting, s: State, fs: Features) {
    && FeaturesOk(fs, st.n) && Lists(s.list, s.live)
    && IndexOk(st.n, s.views, s.live, s.list, s.points)
  }

  ghost predicate IndexOk(n: nat, v: Views, live: set<Cluster>, list: seq<Cluster>, points: seq<Feature>) {
    && |points| == |list| && live <= v.Keys
    && forall i: nat {:trigger PointOk(n, v, live, list, points, i)} ::
         i < |list| ==> PointOk(n, v, live, list, points, i)
  }

  ghost predicate PointOk(n: nat, v: Views, live: set<Cluster>, list: seq<Cluster>, points: seq<Feature>, i: nat)
    requires |points| == |list| && i < |list| && live <= v.Keys
  {
    list[i] in live && points[i] == v[list[i]].centroid && |points[i]| == n
  }

  lemma CentroidOk(st: Setting, s: State, fs: Features, c: Cluster)
    requires StateOk(st, s, fs) && c in s.live
    ensures c in s.views && |s.views[c].centroid| == st.n
  {
    ListedIn(s.list, s.live, c);
    var i: nat :| i < |s.list| && s.list[i] == c;
    assert PointOk(st.n, s.views, s.live, s.list, s.points, i);
  }

  ghost predicate SplitBut(s: State, fs: Features, but: set<Fingerprint>) {
    Partition(s.views, s.home - but, fs.Keys - but, s.live)
  }

  ghost predicate Split(s: State, fs: Features) {
    Partition(s.views, s.home, fs.Keys, s.live)
  }

  // ----- The partition -----

  ghost predicate HomeOk(v: Views, home: Homes, live: set<Cluster>, fp: Fingerprint) {
    fp in home && home[fp] in live && home[fp] in v && fp in v[home[fp]].templates
  }

  ghost predicate ClusterOk(v: Views, home: Homes, c: Cluster) {
    c in v && forall fp :: fp in v[c].templates ==> fp in home && home[fp] == c
  }

  /** The live clusters split the known templates, and `home` says where each one is. */
  ghost predicate Partition(v: Views, home: Homes, known: set<Fingerprint>, live: set<Cluster>) {
    && home.Keys == known
    && (forall fp {:trigger HomeOk(v, home, live, fp)} :: fp in known ==> HomeOk(v, home, live, fp))
    && (forall c {:trigger ClusterOk(v, home, c)} :: c in live ==> ClusterOk(v, home, c))
  }

  lemma AddKeeps(v: Views, home: Homes, known: set<Fingerprint>, live: set<Cluster>, fp: Fingerprint, c: Cluster,
      x: Feature)
    requires Partition(v, home, known, live) && fp !in known && c in live
    ensures c in v && Partition(v[c := Info(v[c].templates + {fp}, x)], home[fp := c], known + {fp}, live)
  {
    assert ClusterOk(v, home, c);
    var v', home' := v[c := Info(v[c].templates + {fp}, x)], home[fp := c];
    forall g | g in known + {fp} ensures HomeOk(v', home', live, g) { assert g != fp ==> HomeOk(v, home, live, g); }
    forall d | d in live ensures ClusterOk(v', home', d) { assert ClusterOk(v, home, d); }
  }

  lemma AddAloneKeeps(v: Views, home: Homes, known: set<Fingerprint>, live: set<Cluster>, fp: Fingerprint, c: Cluster,
      x: Feature)
    requires Partition(v, home, known, live) && fp !in known && c !in live
    ensures Partition(v[c := Info({fp}, x)], home[fp := c], known + {fp}, live + {c})
  {
    var v', home' := v[c := Info({fp}, x)], home[fp := c];
    forall g | g in known + {fp} ensures HomeOk(v', home', live + {c}, g) {
      assert g != fp ==> HomeOk(v, home, live, g);
    }
    forall d | d in live + {c} ensures ClusterOk(v', home', d) { assert d != c ==> ClusterOk(v, home, d); }
  }

  lemma RemoveKeeps(v: Views, home: Homes, known: set<Fingerprint>, live: set<Cluster>, fp: Fingerprint)
    requires Partition(v, home, known, live) && fp in known
    ensures home[fp] in live && home[fp] in v
    ensures var x := v[home[fp]];
            Partition(v[home[fp] := Info(x.templates - {fp}, x.centroid)], home - {fp}, known - {fp}, live)
  {
    assert HomeOk(v, home, live, fp);
    var x := v[home[fp]];
    var v', home' := v[home[fp] := Info(x.templates - {fp}, x.centroid)], home - {fp};
    forall g | g in known - {fp} ensures HomeOk(v', home', live, g) { assert HomeOk(v, home, live, g); }
    forall d | d in live ensures ClusterOk(v', home', d) { assert ClusterOk(v, home, d); }
  }

  ghost function Rehomed(home: Homes, fps: set<Fingerprint>, c: Cluster): Homes {
    home + map fp | fp in fps :: c
  }

  lemma RehomeOne(home: Homes, fps: set<Fingerprint>, c: Cluster, fp: Fingerprint)
    ensures Rehomed(home, fps, c)[fp := c] == Rehomed(home, fps + {fp}, c)
    ensures Rehomed(home, {}, c) == home
  {
  }

  /** Merging `left` into `right` and forgetting `left`. */
  lemma MergeKeeps(v: Views, home: Homes, known: set<Fingerprint>, live: set<Cluster>, left: Cluster, right: Cluster,
      x: Feature)
    requires Partition(v, home, known, live) && left in live && right in live && left != right
    ensures left in v && right in v
    ensures Partition(v[right := Info(v[right].templates + v[left].templates, x)],
                      Rehomed(home, v[left].templates, right), known, live - {left})
  {
    assert ClusterOk(v, home, left) && ClusterOk(v, home, right);
    var v' := v[right := Info(v[right].templates + v[left].templates, x)];
    var home' := Rehomed(home, v[left].templates, right);
    forall g | g in known ensures HomeOk(v', home', live - {left}, g) { assert HomeOk(v, home, live, g); }
    forall d | d in live - {left} ensures ClusterOk(v', home', d) { assert ClusterOk(v, home, d); }
  }

  /** Templates do not change, and clusters without any are forgotten. */
  lemma ForgetEmpty(v: Views, v': Views, home: Homes, known: set<Fingerprint>, live: set<Cluster>, gone: set<Cluster>)
    requires Partition(v, home, known, live) && live <= v.Keys && live <= v'.Keys
    requires forall c :: c in live ==> v'[c].templates == v[c].templates
    requires forall c :: c in gone && c in live ==> v[c].templates == {}
    ensures Partition(v', home, known, live - gone)
  {
    forall g | g in known ensures HomeOk(v', home, live - gone, g) { assert HomeOk(v, home, live, g); }
    forall c | c in live - gone ensures ClusterOk(v', home, c) { assert ClusterOk(v, home, c); }
  }

  // ----- Placing one template -----

  ghost function Nearest(st: Setting, s: State, feature: Feature): (Cluster, real)
    requires s.list != []
  {
    var (i, similarity) := st.oracle(s.asked, feature, s.points);
    (s.list[i % |s.list|], similarity)
  }

  /** The index names a cluster and calls it similar enough. */
  ghost predicate IsClose(st: Setting, s: State, feature: Feature) {
    s.list != [] && Nearest(st, s, feature).1 > st.threshold
  }

  /** The template is in the cluster, and nothing else has changed. */
  ghost predicate JoinedTo(s: State, s': State, c: Cluster, fp: Fingerprint, feature: Feature, isNew: bool) {
    && c in s.views && |s.views[c].centroid| == |feature|
    && var x := s.views[c];
       var centroid := if isNew then Shifted(x.centroid, |x.templates|, feature) else x.centroid;
       && s'.views == s.views[c := Info(x.templates + {fp}, centroid)] && s'.home == s.home[fp := c]
       && s'.live == s.live && s'.list == s.list && (!isNew ==> s'.points == s.points)
  }

  /** The template is alone in one more cluster, and nothing else has changed. */
  ghost predicate FoundedFor(s: State, s': State, fp: Fingerprint, feature: Feature) {
    && |s'.list| == |s.list| + 1
    && var c, centroid := s'.list[|s.list|], Shifted(Zeros(|feature|), 0, feature);
       && c !in s.live && s'.list == s.list + [c] && s'.points == s.points + [centroid]
       && s'.views == s.views[c := Info({fp}, centroid)] && s'.home == s.home[fp := c] && s'.live == s.live + {c}
  }

  /** The template is in the cluster that the index names if that is similar enough, or else in one of its own. */
  ghost predicate Placed(st: Setting, s: State, s': State, fp: Fingerprint, feature: Feature, isNew: bool) {
    && s'.asked == s.asked + 1
    && if IsClose(st, s, feature) then JoinedTo(s, s', Nearest(st, s, feature).0, fp, feature, isNew)
       else FoundedFor(s, s', fp, feature)
  }

  lemma PlacedNow(st: Setting, s: State, s': State, fp: Fingerprint, feature: Feature, isNew: bool)
    requires s'.asked == s.asked + 1
    requires var m := s.(asked := s.asked + 1);
             if IsClose(st, s, feature) then JoinedTo(m, s', Nearest(st, s, feature).0, fp, feature, isNew)
             else FoundedFor(m, s', fp, feature)
    ensures Placed(st, s, s', fp, feature, isNew)
  {
  }

  ghost function LeftBehind(s: State, fp: Fingerprint): State
    requires fp in s.home && s.home[fp] in s.views
  {
    var x := s.views[s.home[fp]];
    s.(views := s.views[s.home[fp] := Info(x.templates - {fp}, x.centroid)])
  }

  lemma JoinKeeps(st: Setting, s: State, s': State, c: Cluster, fs: Features, fp: Fingerprint, isNew: bool)
    requires StateOk(st, s, fs) && fp in fs && SplitBut(s, fs, {fp}) && c in s.live
    requires JoinedTo(s, s', c, fp, fs[fp], isNew) && |s'.points| == |s'.list|
    requires isNew ==> forall i :: 0 <= i < |s'.list| ==>
               s'.list[i] in s'.views && s'.points[i] == s'.views[s'.list[i]].centroid
    ensures StateOk(st, s', fs) && Split(s', fs)
  {
    AddKeeps(s.views, s.home - {fp}, fs.Keys - {fp}, s.live, fp, c, s'.views[c].centroid);
    assert s'.home == (s.home - {fp})[fp := c] && fs.Keys - {fp} + {fp} == fs.Keys;
    forall i: nat | i < |s'.list| ensures PointOk(st.n, s'.views, s'.live, s'.list, s'.points, i) {
      assert PointOk(st.n, s.views, s.live, s.list, s.points, i);
    }
  }

  lemma FoundKeeps(st: Setting, s: State, s': State, fs: Features, fp: Fingerprint)
    requires StateOk(st, s, fs) && fp in fs && SplitBut(s, fs, {fp}) && FoundedFor(s, s', fp, fs[fp])
    ensures StateOk(st, s', fs) && Split(s', fs)
  {
    var c := s'.list[|s.list|];
    ListOneMore(s.list, s.live, c);
    AddAloneKeeps(s.views, s.home - {fp}, fs.Keys - {fp}, s.live, fp, c, s'.views[c].centroid);
    assert s'.home == (s.home - {fp})[fp := c] && fs.Keys - {fp} + {fp} == fs.Keys;
    forall i: nat | i < |s'.list| ensures PointOk(st.n, s'.views, s'.live, s'.list, s'.points, i) {
      assert i < |s.list| ==> PointOk(st.n, s.views, s.live, s.list, s.points, i);
    }
  }

  lemma LeaveKeeps(st: Setting, s: State, fs: Features, fp: Fingerprint)
    requires StateOk(st, s, fs) && fp in fs && Split(s, fs)
    ensures fp in s.home && s.home[fp] in s.live && s.home[fp] in s.views
    ensures StateOk(st, LeftBehind(s, fp), fs) && SplitBut(LeftBehind(s, fp), fs, {fp})
  {
    RemoveKeeps(s.views, s.home, fs.Keys, s.live, fp);
    var s' := LeftBehind(s, fp);
    forall i: nat | i < |s'.list| ensures PointOk(st.n, s'.views, s'.live, s'.list, s'.points, i) {
      assert PointOk(st.n, s.views, s.live, s.list, s.points, i);
    }
  }

  ghost predicate NoneEmpty(s: State)
    requires s.live <= s.views.Keys
  {
    forall c :: c in s.live ==> s.views[c].templates != {}
  }

  // ----- Reconsidering every template -----

  /** The template is not similar enough to the centroid of its cluster. */
  ghost predicate Drifts(st: Setting, s: State, fs: Features, fp: Fingerprint)
    requires fp in fs && fp in s.home && s.home[fp] in s.views
  {
    st.cosine(s.views[s.home[fp]].centroid, fs[fp]) < st.threshold
  }

  ghost predicate Reconsidered(st: Setting, s: State, s': State, fs: Features, fp: Fingerprint)
    requires fp in fs && fp in s.home && s.home[fp] in s.views
  {
    if Drifts(st, s, fs, fp) then Placed(st, LeftBehind(s, fp), s', fp, fs[fp], false) else s' == s
  }

  /** The question to the index that moved a template, and how many clusters the index listed then. */
  datatype Move = Move(question: nat, size: nat)

  type Moves = map<Fingerprint, Move>

  /** The template is where the answer to the question put it. */
  ghost predicate AsAnswered(st: Setting, s: State, fp: Fingerprint, m: Move, feature: Feature) {
    && m.size <= |s.list| == |s.points| && fp in s.home
    && var (i, similarity) := st.oracle(m.question, feature, s.points[..m.size]);
       if m.size > 0 && similarity > st.threshold then s.home[fp] == s.list[i % m.size]
       else m.size < |s.list| && s.home[fp] == s.list[m.size]
  }

  /** A template that did not drift, or was not looked at yet, is where it was; a drifting one is where the index's
      answer put it. */
  ghost predicate StayOk(
      st: Setting, s0: State, s: State, fs: Features, rest: set<Fingerprint>, moves: Moves, fp: Fingerprint)
    requires fp in fs
  {
    && fp in s0.home && s0.home[fp] in s0.views && fp in s.home
    && (fp in moves <==> fp !in rest && Drifts(st, s0, fs, fp))
    && if fp in moves then
         s0.asked <= moves[fp].question < s.asked && AsAnswered(st, s, fp, moves[fp], fs[fp])
       else s.home[fp] == s0.home[fp]
  }

  ghost predicate SameAt(s0: State, s: State, i: nat)
    requires i < |s0.list| == |s0.points| <= |s.list| == |s.points|
  {
    s.list[i] == s0.list[i] && s.points[i] == s0.points[i]
  }

  ghost predicate SameCentroid(s0: State, s: State, c: Cluster) {
    c in s0.views && c in s.views && s.views[c].centroid == s0.views[c].centroid
  }

  /** Since `s0` the index has answered one question for each move and has only grown, and no centroid has changed. */
  ghost predicate Grown(s0: State, s: State, fs: Features, moves: Moves) {
    && |s0.list| == |s0.points| <= |s.list| == |s.points| && s.asked == s0.asked + |moves| && moves.Keys <= fs.Keys
    && (forall i: nat {:trigger SameAt(s0, s, i)} :: i < |s0.list| ==> SameAt(s0, s, i))
    && (forall c {:trigger SameCentroid(s0, s, c)} :: c in s0.live ==> SameCentroid(s0, s, c))
  }

  ghost predicate RoundFor(
      st: Setting, s0: State, s: State, fs: Features, rest: set<Fingerprint>, moves: Moves, fp: Fingerprint)
  {
    Grown(s0, s, fs, moves) && (fp in fs ==> StayOk(st, s0, s, fs, rest, moves, fp))
  }

  /** From `s0` to `s` all templates but those in `rest` have been reconsidered; exactly the drifting ones were moved,
      each by one question to the index. */
  ghost predicate Round(st: Setting, s0: State, s: State, fs: Features, rest: set<Fingerprint>, moves: Moves) {
    forall fp {:trigger RoundFor(st, s0, s, fs, rest, moves, fp)} :: RoundFor(st, s0, s, fs, rest, moves, fp)
  }

  lemma RoundStarts(st: Setting, s: State, fs: Features)
    requires StateOk(st, s, fs) && Split(s, fs)
    ensures Round(st, s, s, fs, fs.Keys, map[])
  {
    forall c | c in s.live ensures SameCentroid(s, s, c) { assert ClusterOk(s.views, s.home, c); }
    forall fp ensures RoundFor(st, s, s, fs, fs.Keys, map[], fp) {
      if fp in fs { assert HomeOk(s.views, s.home, s.live, fp); }
    }
  }

  /** A template that does not drift is left alone. */
  lemma RoundStays(
      st: Setting, s0: State, s: State, fs: Features, rest: set<Fingerprint>, moves: Moves, fp: Fingerprint)
    requires Round(st, s0, s, fs, rest, moves) && fp in fs && fp in rest
    requires fp in s0.home && s0.home[fp] in s0.views && !Drifts(st, s0, fs, fp)
    ensures Round(st, s0, s, fs, rest - {fp}, moves)
  {
    forall g ensures RoundFor(st, s0, s, fs, rest - {fp}, moves, g) {
      assert RoundFor(st, s0, s, fs, rest, moves, g);
    }
  }

  lemma AnswerKept(st: Setting, s: State, s': State, fp: Fingerprint, m: Move, feature: Feature)
    requires AsAnswered(st, s, fp, m, feature) && |s.list| <= |s'.list| == |s'.points|
    requires s'.list[..|s.list|] == s.list && s'.points[..|s.list|] == s.points
    requires fp in s'.home && s'.home[fp] == s.home[fp]
    ensures AsAnswered(st, s', fp, m, feature)
  {
    assert s'.points[..m.size] == s.points[..m.size];
    assert forall i :: 0 <= i < |s.list| ==> s'.list[i] == s'.list[..|s.list|][i];
  }

  lemma AnswerNow(st: Setting, s: State, s': State, fp: Fingerprint, feature: Feature)
    requires |s.list| == |s.points| && Placed(st, s, s', fp, feature, false)
    ensures |s.list| <= |s'.list| == |s'.points|
    ensures s'.list[..|s.list|] == s.list && s'.points[..|s.list|] == s.points
    ensures AsAnswered(st, s', fp, Move(s.asked, |s.list|), feature)
  {
  }

  lemma MoveStay(st: Setting, s0: State, s: State, s': State, fs: Features, rest: set<Fingerprint>, moves: Moves,
      fp: Fingerprint, g: Fingerprint)
    requires fp in fs && g in fs && fp in rest && fp !in moves && StayOk(st, s0, s, fs, rest, moves, g)
    requires StayOk(st, s0, s, fs, rest, moves, fp) && Drifts(st, s0, fs, fp)
    requires s0.asked <= s.asked && |s.list| == |s.points| && s.home[fp] in s.views
    requires Placed(st, LeftBehind(s, fp), s', fp, fs[fp], false)
    ensures StayOk(st, s0, s', fs, rest - {fp}, moves[fp := Move(s.asked, |s.list|)], g)
  {
    AnswerNow(st, LeftBehind(s, fp), s', fp, fs[fp]);
    if g in moves && g != fp { AnswerKept(st, s, s', g, moves[g], fs[g]); }
  }

  lemma MoveGrown(st: Setting, s0: State, s: State, s': State, fs: Features, moves: Moves, fp: Fingerprint)
    requires Grown(s0, s, fs, moves) && fp in fs && fp !in moves && s0.live <= s.live
    requires fp in s.home && s.home[fp] in s.views && Placed(st, LeftBehind(s, fp), s', fp, fs[fp], false)
    ensures Grown(s0, s', fs, moves[fp := Move(s.asked, |s.list|)])
  {
    AnswerNow(st, LeftBehind(s, fp), s', fp, fs[fp]);
    forall i: nat | i < |s0.list| ensures SameAt(s0, s', i) {
      assert SameAt(s0, s, i);
      assert s'.list[i] == s'.list[..|s.list|][i] && s'.points[i] == s'.points[..|s.list|][i];
    }
    forall c | c in s0.live ensures SameCentroid(s0, s', c) { assert SameCentroid(s0, s, c); }
  }

  /** A drifting template is moved as the index answers. */
  lemma RoundMoves(st: Setting, s0: State, s: State, s': State, fs: Features, rest: set<Fingerprint>, moves: Moves,
      fp: Fingerprint)
    requires Round(st, s0, s, fs, rest, moves) && fp in fs && fp in rest
    requires fp in s0.home && s0.home[fp] in s0.views && Drifts(st, s0, fs, fp)
    requires s0.live <= s.live && fp in s.home && s.home[fp] in s.views
    requires Placed(st, LeftBehind(s, fp), s', fp, fs[fp], false)
    ensures Round(st, s0, s', fs, rest - {fp}, moves[fp := Move(s.asked, |s.list|)])
  {
    assert RoundFor(st, s0, s, fs, rest, moves, fp);
    var now := moves[fp := Move(s.asked, |s.list|)];
    MoveGrown(st, s0, s, s', fs, moves, fp);
    forall g ensures RoundFor(st, s0, s', fs, rest - {fp}, now, g) {
      assert RoundFor(st, s0, s, fs, rest, moves, g);
      if g in fs { MoveStay(st, s0, s, s', fs, rest, moves, fp, g); }
    }
  }

  lemma RoundNext(st: Setting, s0: State, s: State, s': State, fs: Features, rest: set<Fingerprint>, moves: Moves,
      fp: Fingerprint) returns (more: Moves)
    requires Round(st, s0, s, fs, rest, moves) && fp in fs && fp in rest && s0.live <= s.live && Split(s0, fs)
    requires fp in s.home && s.home[fp] in s.views && Reconsidered(st, s, s', fs, fp)
    ensures Round(st, s0, s', fs, rest - {fp}, more) && s0.live <= s'.live
  {
    assert RoundFor(st, s0, s, fs, rest, moves, fp) && HomeOk(s0.views, s0.home, s0.live, fp);
    assert fp !in moves && SameCentroid(s0, s, s0.home[fp]);
    assert Drifts(st, s, fs, fp) <==> Drifts(st, s0, fs, fp);
    if Drifts(st, s, fs, fp) {
      RoundMoves(st, s0, s, s', fs, rest, moves, fp);
      more := moves[fp := Move(s.asked, |s.list|)];
    } else {
      RoundStays(st, s0, s, fs, rest, moves, fp);
      more := moves;
    }
  }

  // ----- New centroids -----

  /** The cluster's centroid is the mean of its templates; an empty one is as it was. */
  ghost predicate RefreshedAt(st: Setting, v: Views, v': Views, fs: Features, c: Cluster) {
    && c in v && c in v' && v[c].templates <= fs.Keys && FeaturesOk(fs, st.n)
    && v'[c] == if v[c].templates == {} then v[c] else Info(v[c].templates, Mean(v[c].templates, fs, st.n))
  }

  /** The clusters that hold templates are in use, with their means as centroids, and no template has moved. */
  ghost predicate Refreshed(st: Setting, s: State, s': State, fs: Features) {
    && s'.home == s.home && s'.asked == s.asked && s.live <= s.views.Keys
    && s'.live == (set c | c in s.live && s.views[c].templates != {})
    && forall c {:trigger RefreshedAt(st, s.views, s'.views, fs, c)} :: c in s.live ==>
         RefreshedAt(st, s.views, s'.views, fs, c)
  }

  lemma TemplatesKnown(v: Views, home: Homes, known: set<Fingerprint>, live: set<Cluster>, c: Cluster)
    requires Partition(v, home, known, live) && c in live
    ensures c in v && v[c].templates <= known
  {
    assert ClusterOk(v, home, c);
  }

  /** What holds of every cluster once the empty ones are set aside. */
  ghost predicate HeldOk(st: Setting, v: Views, c: Cluster) {
    c in v && v[c].templates != {} && |v[c].centroid| == st.n
  }

  ghost predicate AllHeld(st: Setting, v: Views, live: set<Cluster>) {
    forall c {:trigger HeldOk(st, v, c)} :: c in live ==> HeldOk(st, v, c)
  }

  /** The clusters outside `rest` have been refreshed, and the empty ones among them are in `gone`. */
  ghost predicate HalfAt(
      st: Setting, v: Views, v': Views, fs: Features, rest: set<Cluster>, gone: set<Cluster>, c: Cluster)
  {
    if c in rest then c !in gone && c in v && c in v' && v'[c] == v[c]
    else RefreshedAt(st, v, v', fs, c) && (c in gone <==> v[c].templates == {})
  }

  ghost predicate HalfRefreshed(
      st: Setting, v: Views, v': Views, fs: Features, live: set<Cluster>, rest: set<Cluster>, gone: set<Cluster>)
  {
    forall c {:trigger HalfAt(st, v, v', fs, rest, gone, c)} :: c in live ==> HalfAt(st, v, v', fs, rest, gone, c)
  }

  lemma RefreshNext(st: Setting, v: Views, v': Views, v'': Views, fs: Features, live: set<Cluster>,
      rest: set<Cluster>, gone: set<Cluster>, c: Cluster)
    requires HalfRefreshed(st, v, v', fs, live, rest, gone) && c in rest && c in live
    requires c in v && v[c].templates <= fs.Keys && FeaturesOk(fs, st.n)
    requires v'' == if v[c].templates == {} then v' else v'[c := Info(v[c].templates, Mean(v[c].templates, fs, st.n))]
    ensures HalfRefreshed(st, v, v'', fs, live, rest - {c}, if v[c].templates == {} then gone + {c} else gone)
  {
    forall d | d in live
      ensures HalfAt(st, v, v'', fs, rest - {c}, if v[c].templates == {} then gone + {c} else gone, d)
    {
      assert HalfAt(st, v, v', fs, rest, gone, d) && HalfAt(st, v, v', fs, rest, gone, c);
    }
  }

  lemma RefreshKeeps(st: Setting, v: Views, v': Views, home: Homes, fs: Features, live: set<Cluster>,
      gone: set<Cluster>)
    requires Partition(v, home, fs.Keys, live) && HalfRefreshed(st, v, v', fs, live, {}, gone)
    ensures Partition(v', home, fs.Keys, live - gone) && AllHeld(st, v', live - gone)
    ensures live <= v.Keys && live - gone == set c | c in live && v[c].templates != {}
    ensures forall c {:trigger RefreshedAt(st, v, v', fs, c)} :: c in live ==> RefreshedAt(st, v, v', fs, c)
  {
    forall c | c in live ensures c in v && RefreshedAt(st, v, v', fs, c) && (c in gone <==> v[c].templates == {}) {
      assert HalfAt(st, v, v', fs, {}, gone, c);
    }
    ForgetEmpty(v, v', home, fs.Keys, live, gone);
    forall c | c in live - gone ensures HeldOk(st, v', c) { assert RefreshedAt(st, v, v', fs, c); }
  }

  // ----- Merging -----

  /** What merging has done so far; the clusters in `gone` are to be deleted. */
  datatype Merger = Merger(views: Views, home: Homes, gone: set<Cluster>)

  ghost predicate IsPair(st: Setting, v: Views, a: Cluster, b: Cluster) {
    a in v && b in v && st.cosine(v[a].centroid, v[b].centroid) > st.threshold
  }

  /** `j` is the place of the first cluster after the i-th one that is similar to it. */
  ghost predicate IsTarget(st: Setting, v: Views, order: seq<Cluster>, i: nat, j: nat)
    requires i < |order|
  {
    && i < j < |order| && IsPair(st, v, order[i], order[j])
    && forall h :: i < h < j ==> !IsPair(st, v, order[i], order[h])
  }

  ghost predicate MergedInto(st: Setting, fs: Features, a: Merger, b: Merger, left: Cluster, right: Cluster) {
    && left in a.views && right in a.views && FeaturesOk(fs, st.n)
    && var ts := a.views[left].templates;
       var all := a.views[right].templates + ts;
       && all <= fs.Keys && b.views == a.views[right := Info(all, Mean(all, fs, st.n))]
       && b.home == Rehomed(a.home, ts, right) && b.gone == a.gone + {left}
  }

  /** The first `i` clusters have been looked at; those in `gone` were merged into later ones. */
  ghost predicate MergingOk(st: Setting, fs: Features, live: set<Cluster>, order: seq<Cluster>, i: nat, m: Merger)
    requires i <= |order|
  {
    && FeaturesOk(fs, st.n) && Lists(order, live) && AllHeld(st, m.views, live)
    && Partition(m.views, m.home, fs.Keys, live - m.gone)
    && forall c {:trigger c in m.gone} :: c in m.gone ==> c in order[..i]
  }

  lemma StillThere(st: Setting, fs: Features, live: set<Cluster>, order: seq<Cluster>, i: nat, m: Merger, j: nat)
    requires i <= j < |order| && MergingOk(st, fs, live, order, i, m)
    ensures order[j] in live - m.gone && HeldOk(st, m.views, order[j])
  {
    ListedIn(order, live, order[j]);
    if order[j] in m.gone {
      var h: nat :| h < i && order[..i][h] == order[j];
      ListedOnce(order, live, h, j);
    }
  }

  lemma MergeStepOk(st: Setting, fs: Features, live: set<Cluster>, order: seq<Cluster>, i: nat, j: nat, a: Merger,
      b: Merger)
    requires i < j < |order| && MergingOk(st, fs, live, order, i, a)
    requires MergedInto(st, fs, a, b, order[i], order[j])
    ensures MergingOk(st, fs, live, order, i + 1, b)
  {
    var left, right := order[i], order[j];
    StillThere(st, fs, live, order, i, a, i);
    StillThere(st, fs, live, order, i, a, j);
    ListedOnce(order, live, i, j);
    MergeKeeps(a.views, a.home, fs.Keys, live - a.gone, left, right, b.views[right].centroid);
    assert live - b.gone == live - a.gone - {left};
    forall c | c in live ensures HeldOk(st, b.views, c) { assert HeldOk(st, a.views, c); }
    assert order[..i + 1] == order[..i] + [left];
  }

  lemma MergeSkipOk(st: Setting, fs: Features, live: set<Cluster>, order: seq<Cluster>, i: nat, a: Merger)
    requires i < |order| && MergingOk(st, fs, live, order, i, a)
    ensures MergingOk(st, fs, live, order, i + 1, a)
  {
    assert order[..i + 1] == order[..i] + [order[i]];
  }

  /** The i-th cluster has been merged into the first later one similar to it; if there is none, nothing is done. */
  ghost predicate MergesAt(st: Setting, fs: Features, order: seq<Cluster>, i: nat, a: Merger, b: Merger)
    requires i < |order|
  {
    && (forall j: nat :: IsTarget(st, a.views, order, i, j) ==> MergedInto(st, fs, a, b, order[i], order[j]))
    && ((forall j :: i < j < |order| ==> !IsPair(st, a.views, order[i], order[j])) ==> b == a)
  }

  lemma OnlyTarget(st: Setting, v: Views, order: seq<Cluster>, i: nat, j: nat)
    requires i < |order| && IsTarget(st, v, order, i, j)
    ensures forall h: nat :: IsTarget(st, v, order, i, h) ==> h == j
  {
  }

  ghost predicate TraceStep(st: Setting, fs: Features, order: seq<Cluster>, trace: seq<Merger>, i: nat)
    requires i < |order| && i + 1 < |trace|
  {
    MergesAt(st, fs, order, i, trace[i], trace[i + 1])
  }

  /** The first clusters in the order, one after the other. */
  ghost predicate MergeTrace(st: Setting, fs: Features, order: seq<Cluster>, trace: seq<Merger>) {
    && 1 <= |trace| <= |order| + 1 && trace[0].gone == {}
    && forall i: nat {:trigger TraceStep(st, fs, order, trace, i)} ::
         i + 1 < |trace| ==> TraceStep(st, fs, order, trace, i)
  }

  lemma StepAt(st: Setting, fs: Features, order: seq<Cluster>, trace: seq<Merger>, i: nat, a: Merger, b: Merger)
    requires i < |order| && i + 1 < |trace| && trace[i] == a && trace[i + 1] == b && MergesAt(st, fs, order, i, a, b)
    ensures TraceStep(st, fs, order, trace, i)
  {
  }

  lemma TraceGrows(st: Setting, fs: Features, order: seq<Cluster>, trace: seq<Merger>, b: Merger)
    requires MergeTrace(st, fs, order, trace) && |trace| <= |order|
    requires MergesAt(st, fs, order, |trace| - 1, trace[|trace| - 1], b)
    ensures MergeTrace(st, fs, order, trace + [b])
  {
    var more := trace + [b];
    forall i: nat | i + 1 < |more| ensures TraceStep(st, fs, order, more, i) {
      if i + 1 < |trace| {
        assert TraceStep(st, fs, order, trace, i);
        StepAt(st, fs, order, more, i, trace[i], trace[i + 1]);
      } else {
        StepAt(st, fs, order, more, i, trace[i], b);
      }
    }
  }

  ghost predicate NoPairFrom(st: Setting, v: Views, order: seq<Cluster>, i: nat)
    requires i < |order|
  {
    forall j :: i < j < |order| ==> !IsPair(st, v, order[i], order[j])
  }

  lemma {:induction false} FirstTarget(st: Setting, v: Views, order: seq<Cluster>, i: nat, from: nat) returns (j: nat)
    requires i < from <= |order| && (forall h :: i < h < from ==> !IsPair(st, v, order[i], order[h]))
    requires !NoPairFrom(st, v, order, i)
    ensures IsTarget(st, v, order, i, j)
    decreases |order| - from
  {
    if IsPair(st, v, order[i], order[from]) {
      j := from;
    } else {
      j := FirstTarget(st, v, order, i, from + 1);
    }
  }

  lemma MergesIff(st: Setting, fs: Features, order: seq<Cluster>, i: nat, a: Merger, b: Merger)
    requires i < |order| && MergesAt(st, fs, order, i, a, b)
    ensures NoPairFrom(st, a.views, order, i) ==> b == a
    ensures !NoPairFrom(st, a.views, order, i) ==> b.gone == a.gone + {order[i]}
  {
    if !NoPairFrom(st, a.views, order, i) {
      var j := FirstTarget(st, a.views, order, i, i + 1);
      assert MergedInto(st, fs, a, b, order[i], order[j]);
    }
  }

  ghost predicate NoPairBefore(st: Setting, v: Views, order: seq<Cluster>, n: nat)
    requires n <= |order|
  {
    forall i: nat {:trigger NoPairFrom(st, v, order, i)} :: i < n ==> NoPairFrom(st, v, order, i)
  }

  lemma OneMoreBefore(st: Setting, v: Views, order: seq<Cluster>, n: nat)
    requires n < |order|
    ensures NoPairBefore(st, v, order, n + 1) <==> NoPairBefore(st, v, order, n) && NoPairFrom(st, v, order, n)
  {
    if NoPairBefore(st, v, order, n + 1) { assert NoPairFrom(st, v, order, n); }
  }

  ghost predicate QuietUpTo(st: Setting, order: seq<Cluster>, first: Merger, now: Merger, n: nat)
    requires n <= |order|
  {
    && (now.gone == {} ==> now == first)
    && (now.gone == {} <==> NoPairBefore(st, first.views, order, n))
  }

  lemma QuietStep(st: Setting, fs: Features, order: seq<Cluster>, first: Merger, a: Merger, b: Merger, n: nat)
    requires n < |order| && QuietUpTo(st, order, first, a, n) && MergesAt(st, fs, order, n, a, b)
    ensures QuietUpTo(st, order, first, b, n + 1)
  {
    MergesIff(st, fs, order, n, a, b);
    OneMoreBefore(st, first.views, order, n);
  }

  lemma {:induction false} TracePrefix(st: Setting, fs: Features, order: seq<Cluster>, trace: seq<Merger>, i: nat)
    requires MergeTrace(st, fs, order, trace) && i < |trace|
    ensures QuietUpTo(st, order, trace[0], trace[i], i)
  {
    if i > 0 {
      TracePrefix(st, fs, order, trace, i - 1);
      assert TraceStep(st, fs, order, trace, i - 1);
      QuietStep(st, fs, order, trace[0], trace[i - 1], trace[i], i - 1);
    }
  }

  /** No cluster is merged if and only if no two of them are similar, the earlier to the later. */
  lemma NoneMergedIff(st: Setting, fs: Features, order: seq<Cluster>, trace: seq<Merger>)
    requires MergeTrace(st, fs, order, trace) && |trace| == |order| + 1
    ensures trace[|order|].gone == {} <==>
            forall i, j :: 0 <= i < j < |order| ==> !IsPair(st, trace[0].views, order[i], order[j])
  {
    TracePrefix(st, fs, order, trace, |order|);
    var v := trace[0].views;
    if NoPairBefore(st, v, order, |order|) {
      forall i: nat, j | i < j < |order| ensures !IsPair(st, v, order[i], order[j]) {
        assert NoPairFrom(st, v, order, i);
      }
    }
  }
}
