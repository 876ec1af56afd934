/** The query clusterer: templates are spread over clusters, and an index of centroids finds the nearest one. */
module QueryClusterers {
  import opened Centroids
  import opened Clusters
  import opened Clusterings

  class QueryClusterer {
    const setting: Setting
    const tree: KDTree
    var clusters: set<Cluster>
    var templateCluster: Homes
    var features: Features
    ghost var views: Views

    ghost predicate Viewed()
      reads this, clusters
    {
      forall c :: c in clusters ==> c in views && c.View() == views[c]
    }

    ghost function Now(): State
      reads this, tree
    {
      State(views, templateCluster, clusters, tree.clusters, tree.points, tree.asked)
    }

    /** Index and views are in step with the clusters, some of which may be empty. */
    ghost predicate Sound()
      reads this, tree, clusters
    {
      tree.oracle == setting.oracle && Viewed() && StateOk(setting, Now(), features)
    }

    ghost predicate Valid()
      reads this, tree, clusters
    {
      Sound() && Split(Now(), features) && NoneEmpty(Now())
    }

    constructor (st: Setting)
      ensures Valid() && setting == st && clusters == {} && features == map[] && fresh(tree)
    {
      setting := st;
      tree := new KDTree(st.oracle);
      clusters, templateCluster, features, views := {}, map[], map[], map[];
    }

    // ----- One template -----

    /** Puts a template that is in no cluster into the nearest one, or into one of its own. */
    method UpdateTemplate(fp: Fingerprint, isNew: bool)
      requires Sound() && fp in features && SplitBut(Now(), features, {fp})
      modifies this`clusters, this`templateCluster, this`views, tree, clusters
      ensures Sound() && Split(Now(), features) && Placed(setting, old(Now()), Now(), fp, features[fp], isNew)
      ensures old(clusters) <= clusters && fresh(clusters - old(clusters))
    {
      ghost var s := Now();
      var c, similarity := tree.GetNN(features[fp]);
      assert Now() == s.(asked := s.asked + 1);
      if c != null && similarity > setting.threshold {
        ListedIn(tree.clusters, clusters, c);
        Join(fp, c, isNew);
      } else {
        Found(fp);
      }
      PlacedNow(setting, s, Now(), fp, features[fp], isNew);
    }

    /** Adds a template to a cluster that is there already. */
    method Join(fp: Fingerprint, c: Cluster, isNew: bool)
      requires Sound() && c in clusters && fp in features && SplitBut(Now(), features, {fp})
      modifies this`templateCluster, this`views, tree`points, c
      ensures Sound() && Split(Now(), features) && JoinedTo(old(Now()), Now(), c, fp, features[fp], isNew)
    {
      if isNew {
        JoinAndShift(fp, c);
      } else {
        JoinOnly(fp, c);
      }
    }

    method JoinAndShift(fp: Fingerprint, c: Cluster)
      requires Sound() && c in clusters && fp in features && SplitBut(Now(), features, {fp})
      modifies this`templateCluster, this`views, tree`points, c
      ensures Sound() && Split(Now(), features) && JoinedTo(old(Now()), Now(), c, fp, features[fp], true)
    {
      CentroidOk(setting, Now(), features, c);
      c.AddTemplateAndUpdateCentroid(fp, features[fp]);
      tree.Update();
      views := views[c := c.View()];
      templateCluster := templateCluster[fp := c];
      forall i: nat | i < |tree.clusters|
        ensures tree.clusters[i] in views && tree.points[i] == views[tree.clusters[i]].centroid
      {
        ListedIn(tree.clusters, clusters, tree.clusters[i]);
      }
      JoinKeeps(setting, old(Now()), Now(), c, features, fp, true);
    }

    method JoinOnly(fp: Fingerprint, c: Cluster)
      requires Sound() && c in clusters && fp in features && SplitBut(Now(), features, {fp})
      modifies this`templateCluster, this`views, c
      ensures Sound() && Split(Now(), features) && JoinedTo(old(Now()), Now(), c, fp, features[fp], false)
    {
      CentroidOk(setting, Now(), features, c);
      c.AddTemplate(fp);
      views := views[c := c.View()];
      templateCluster := templateCluster[fp := c];
      JoinKeeps(setting, old(Now()), Now(), c, features, fp, false);
    }

    /** Makes a new cluster for a template. */
    method Found(fp: Fingerprint)
      requires Sound() && fp in features && SplitBut(Now(), features, {fp})
      modifies this`clusters, this`templateCluster, this`views, tree`clusters, tree`points
      ensures Sound() && Split(Now(), features) && FoundedFor(old(Now()), Now(), fp, features[fp])
      ensures fresh(clusters - old(clusters))
    {
      var n := new Cluster(setting.n);
      n.AddTemplateAndUpdateCentroid(fp, features[fp]);
      tree.Insert(n);
      clusters := clusters + {n};
      views := views[n := n.View()];
      templateCluster := templateCluster[fp := n];
      assert {} + {fp} == {fp};
      FoundKeeps(setting, old(Now()), Now(), features, fp);
    }

    method AddFeature(fp: Fingerprint, feature: Feature)
      requires Valid() && |feature| == setting.n
      modifies this, tree, clusters
      ensures Valid() && features == old(features)[fp := Normalized(feature)]
      ensures if fp in old(features) then Now() == old(Now())
              else Placed(setting, old(Now()), Now(), fp, Normalized(feature), true)
      ensures old(clusters) <= clusters && fresh(clusters - old(clusters))
    {
      var f := Normalize(feature);
      if fp !in features {
        features := features[fp := f];
        assert templateCluster - {fp} == templateCluster && features.Keys - {fp} == old(features).Keys;
        UpdateTemplate(fp, true);
      } else {
        features := features[fp := f];
        assert features.Keys == old(features).Keys;
      }
    }

    // ----- All templates -----

    /** Takes a template out of its cluster. */
    method Leave(fp: Fingerprint)
      requires Sound() && Split(Now(), features) && fp in features
      modifies this`views, clusters
      ensures fp in templateCluster && templateCluster[fp] in old(views)
      ensures Sound() && SplitBut(Now(), features, {fp}) && Now() == LeftBehind(old(Now()), fp)
    {
      LeaveKeeps(setting, Now(), features, fp);
      var c := templateCluster[fp];
      c.RemoveTemplate(fp);
      views := views[c := c.View()];
    }

    /** Moves a template when it is no longer similar to its cluster. */
    method Reconsider(fp: Fingerprint)
      requires Sound() && Split(Now(), features) && fp in features
      modifies this`clusters, this`templateCluster, this`views, tree, clusters
      ensures fp in old(templateCluster) && old(templateCluster)[fp] in old(views)
      ensures Sound() && Split(Now(), features) && Reconsidered(setting, old(Now()), Now(), features, fp)
      ensures old(clusters) <= clusters && fresh(clusters - old(clusters))
    {
      assert HomeOk(views, templateCluster, clusters, fp);
      var c := templateCluster[fp];
      var similarity := setting.cosine(c.centroid, features[fp]);
      if similarity < setting.threshold {
        Leave(fp);
        UpdateTemplate(fp, false);
      }
    }

    /** All templates but those in `rest` have been reconsidered since `s0`, as far as `fp` goes. */
    ghost predicate InRoundFor(s0: State, rest: set<Fingerprint>, moves: Moves, fp: Fingerprint)
      reads this, tree, clusters
    {
      && Sound() && Split(Now(), features) && Split(s0, features) && s0.live <= clusters && rest <= features.Keys
      && RoundFor(setting, s0, Now(), features, rest, moves, fp)
    }

    ghost predicate InRound(s0: State, rest: set<Fingerprint>, moves: Moves)
      reads this, tree, clusters
    {
      forall fp {:trigger InRoundFor(s0, rest, moves, fp)} :: InRoundFor(s0, rest, moves, fp)
    }

    method ReconsiderNext(fp: Fingerprint, ghost s0: State, ghost rest: set<Fingerprint>, ghost moves: Moves)
      returns (ghost more: Moves)
      requires fp in rest && InRound(s0, rest, moves)
      modifies this`clusters, this`templateCluster, this`views, tree, clusters
      ensures InRound(s0, rest - {fp}, more) && fresh(clusters - old(clusters))
    {
      ghost var s := Now();
      assert InRoundFor(s0, rest, moves, fp);
      forall g ensures RoundFor(setting, s0, s, features, rest, moves, g) { assert InRoundFor(s0, rest, moves, g); }
      Reconsider(fp);
      more := RoundNext(setting, s0, s, Now(), features, rest, moves, fp);
      forall g ensures InRoundFor(s0, rest - {fp}, more, g) {
        assert RoundFor(setting, s0, Now(), features, rest - {fp}, more, g);
      }
    }

    method ReconsiderEach(ghost s0: State) returns (ghost moves: Moves)
      requires InRound(s0, features.Keys, map[])
      modifies this`clusters, this`templateCluster, this`views, tree, clusters
      ensures InRound(s0, {}, moves) && fresh(clusters - old(clusters))
    {
      moves := map[];
      var rest := features.Keys;
      while rest != {}
        invariant InRound(s0, rest, moves) && fresh(clusters - old(clusters))
        decreases rest
      {
        var fp :| fp in rest;
        moves := ReconsiderNext(fp, s0, rest, moves);
        rest := rest - {fp};
      }
    }

    method ReconsiderAll() returns (ghost moves: Moves)
      requires Sound() && Split(Now(), features)
      modifies this`clusters, this`templateCluster, this`views, tree, clusters
      ensures Sound() && Split(Now(), features) && Round(setting, old(Now()), Now(), features, {}, moves)
      ensures fresh(clusters - old(clusters))
    {
      ghost var s0 := Now();
      RoundStarts(setting, s0, features);
      forall g ensures InRoundFor(s0, features.Keys, map[], g) {
        assert RoundFor(setting, s0, s0, features, features.Keys, map[], g);
      }
      moves := ReconsiderEach(s0);
      assert InRoundFor(s0, {}, moves, "");
      forall g ensures RoundFor(setting, s0, Now(), features, {}, moves, g) { assert InRoundFor(s0, {}, moves, g); }
    }

    /** Gives every cluster that holds templates their mean as its centroid, and finds the empty ones. */
    method Refresh() returns (gone: set<Cluster>)
      requires Sound() && Split(Now(), features)
      modifies this`views, clusters
      ensures Viewed() && HalfRefreshed(setting, old(views), views, features, clusters, {}, gone)
    {
      ghost var s := Now();
      gone := {};
      var rest := clusters;
      forall c | c in clusters ensures HalfAt(setting, views, views, features, rest, {}, c) { }
      while rest != {}
        invariant rest <= clusters && Viewed() && HalfRefreshed(setting, s.views, views, features, clusters, rest, gone)
        decreases rest
      {
        var c :| c in rest;
        gone := RefreshOne(c, s, rest, gone);
        rest := rest - {c};
      }
    }

    method RefreshOne(c: Cluster, ghost s: State, ghost rest: set<Cluster>, gone: set<Cluster>)
      returns (now: set<Cluster>)
      requires Viewed() && c in rest && c in clusters && s.live == clusters
      requires StateOk(setting, s, features) && Split(s, features)
      requires HalfRefreshed(setting, s.views, views, features, clusters, rest, gone)
      modifies this`views, c
      ensures Viewed() && HalfRefreshed(setting, s.views, views, features, clusters, rest - {c}, now)
    {
      ghost var v := views;
      assert HalfAt(setting, s.views, v, features, rest, gone, c);
      CentroidOk(setting, s, features, c);
      TemplatesKnown(s.views, s.home, features.Keys, clusters, c);
      now := gone;
      if |c.templates| == 0 {
        now := gone + {c};
      } else {
        c.UpdateCentroid(features);
        views := views[c := c.View()];
      }
      RefreshNext(setting, s.views, v, views, features, clusters, rest, gone, c);
    }

    /** Forgets clusters and rebuilds the index from those that stay. */
    method Drop(gone: set<Cluster>)
      requires tree.oracle == setting.oracle && Viewed() && FeaturesOk(features, setting.n)
      requires AllHeld(setting, views, clusters - gone)
      requires Partition(views, templateCluster, features.Keys, clusters - gone)
      modifies this`clusters, tree`clusters, tree`points
      ensures Valid() && clusters == old(clusters) - gone
    {
      clusters := clusters - gone;
      tree.Build(clusters);
      forall i: nat | i < |tree.clusters|
        ensures PointOk(setting.n, views, clusters, tree.clusters, tree.points, i)
      {
        ListedIn(tree.clusters, clusters, tree.clusters[i]);
        assert HeldOk(setting, views, tree.clusters[i]);
      }
      forall c | c in clusters ensures views[c].templates != {} { assert HeldOk(setting, views, c); }
    }

    /** Moves templates that have drifted away from their cluster, then drops the clusters left empty. */
    method UpdateExistingTemplates() returns (ghost mid: State, ghost moves: Moves)
      requires Valid()
      modifies this`clusters, this`templateCluster, this`views, tree, clusters
      ensures Valid() && fresh(clusters - old(clusters))
      ensures Round(setting, old(Now()), mid, features, {}, moves) && Refreshed(setting, mid, Now(), features)
    {
      moves := ReconsiderAll();
      mid := Now();
      var gone := Refresh();
      RefreshKeeps(setting, mid.views, views, templateCluster, features, clusters, gone);
      Drop(gone);
    }

    // ----- Merging -----

    ghost function MergerWith(gone: set<Cluster>): Merger
      reads this
    {
      Merger(views, templateCluster, gone)
    }

    /** The first cluster after the i-th one whose centroid is similar, or the end. */
    method FirstSimilar(order: seq<Cluster>, i: nat) returns (j: nat)
      requires Viewed() && i < |order| && Lists(order, clusters)
      ensures i < j <= |order|
      ensures if j < |order| then IsTarget(setting, views, order, i, j) else NoPairFrom(setting, views, order, i)
    {
      ListedIn(order, clusters, order[i]);
      j := i + 1;
      while j < |order|
        invariant i < j <= |order| && forall h :: i < h < j ==> !IsPair(setting, views, order[i], order[h])
      {
        ListedIn(order, clusters, order[j]);
        if setting.cosine(order[i].centroid, order[j].centroid) > setting.threshold {
          return;
        }
        j := j + 1;
      }
    }

    method Merge(left: Cluster, right: Cluster, ghost gone: set<Cluster>)
      requires Viewed() && left in clusters && right in clusters && left != right
      requires FeaturesOk(features, setting.n) && left.templates + right.templates <= features.Keys
      requires left.templates != {} && |right.centroid| == setting.n
      modifies this`templateCluster, this`views, right
      ensures Viewed()
      ensures MergedInto(setting, features, old(MergerWith(gone)), MergerWith(gone + {left}), left, right)
    {
      MoveTemplates(left, right);
      assert old(right.templates) + old(left.templates) == right.templates;
      right.UpdateCentroid(features);
      views := views[right := right.View()];
    }

    method MoveTemplates(left: Cluster, right: Cluster)
      requires left != right
      modifies this`templateCluster, right
      ensures right.View() == Info(old(right.templates) + left.templates, old(right.centroid))
      ensures templateCluster == Rehomed(old(templateCluster), left.templates, right)
    {
      var templates := left.templates;
      var rest := templates;
      assert templates - rest == {};
      while rest != {}
        invariant rest <= templates && left.templates == templates
        invariant right.View() == Info(old(right.templates) + (templates - rest), old(right.centroid))
        invariant templateCluster == Rehomed(old(templateCluster), templates - rest, right)
        decreases rest
      {
        var fp :| fp in rest;
        right.AddTemplate(fp);
        templateCluster := templateCluster[fp := right];
        RehomeOne(old(templateCluster), templates - rest, right, fp);
        assert templates - (rest - {fp}) == templates - rest + {fp};
        rest := rest - {fp};
      }
      assert templates - rest == templates;
    }

    method MergeOne(order: seq<Cluster>, i: nat, gone: set<Cluster>) returns (now: set<Cluster>)
      requires i < |order| && Viewed() && MergingOk(setting, features, clusters, order, i, MergerWith(gone))
      modifies this`templateCluster, this`views, clusters
      ensures Viewed() && MergingOk(setting, features, clusters, order, i + 1, MergerWith(now))
      ensures MergesAt(setting, features, order, i, old(MergerWith(gone)), MergerWith(now))
    {
      ghost var m := MergerWith(gone);
      var j := FirstSimilar(order, i);
      now := gone;
      if j < |order| {
        MergeReady(order, i, gone, i);
        MergeReady(order, i, gone, j);
        ListedOnce(order, clusters, i, j);
        Merge(order[i], order[j], gone);
        now := gone + {order[i]};
        MergeStepOk(setting, features, clusters, order, i, j, m, MergerWith(now));
        OnlyTarget(setting, m.views, order, i, j);
      } else {
        MergeSkipOk(setting, features, clusters, order, i, m);
      }
    }

    lemma MergeReady(order: seq<Cluster>, i: nat, gone: set<Cluster>, j: nat)
      requires Viewed() && i <= j < |order| && MergingOk(setting, features, clusters, order, i, MergerWith(gone))
      ensures var c := order[j];
              c in clusters && c.templates != {} && |c.centroid| == setting.n && c.templates <= features.Keys
    {
      StillThere(setting, features, clusters, order, i, MergerWith(gone), j);
      TemplatesKnown(views, templateCluster, features.Keys, clusters - gone, order[j]);
    }

    /** Going through the clusters in any order, merges each into the first similar one after it. */
    method MergeClusters() returns (ghost order: seq<Cluster>, ghost trace: seq<Merger>)
      requires Valid()
      modifies this`clusters, this`templateCluster, this`views, tree, clusters
      ensures Valid() && clusters <= old(clusters) && Lists(order, old(clusters))
      ensures MergeTrace(setting, features, order, trace) && |trace| == |order| + 1
      ensures trace[0] == old(MergerWith({})) && trace[|order|] == MergerWith(old(clusters) - clusters)
      ensures clusters == old(clusters) <==>
              forall i, j :: 0 <= i < j < |order| ==> !IsPair(setting, old(views), order[i], order[j])
    {
      var l := Enumerate(clusters);
      order := l;
      StartMerging(order);
      var gone;
      gone, trace := MergeAll(l);
      Drop(gone);
      assert old(clusters) - clusters == gone;
      NoneMergedIff(setting, features, order, trace);
    }

    lemma StartMerging(order: seq<Cluster>)
      requires Valid() && Lists(order, clusters)
      ensures MergingOk(setting, features, clusters, order, 0, MergerWith({}))
    {
      assert clusters - {} == clusters;
      forall c | c in clusters ensures HeldOk(setting, views, c) { CentroidOk(setting, Now(), features, c); }
    }

    method MergeAll(order: seq<Cluster>) returns (gone: set<Cluster>, ghost trace: seq<Merger>)
      requires Viewed() && MergingOk(setting, features, clusters, order, 0, MergerWith({}))
      modifies this`templateCluster, this`views, clusters
      ensures Viewed() && MergingOk(setting, features, clusters, order, |order|, MergerWith(gone)) && gone <= clusters
      ensures MergeTrace(setting, features, order, trace) && |trace| == |order| + 1
      ensures trace[0] == old(MergerWith({})) && trace[|order|] == MergerWith(gone)
    {
      gone := {};
      trace := [MergerWith(gone)];
      for i := 0 to |order|
        invariant Viewed() && MergingOk(setting, features, clusters, order, i, MergerWith(gone))
        invariant MergeTrace(setting, features, order, trace) && |trace| == i + 1
        invariant trace[0] == old(MergerWith({})) && trace[i] == MergerWith(gone)
      {
        gone := MergeOne(order, i, gone);
        TraceGrows(setting, features, order, trace, MergerWith(gone));
        trace := trace + [MergerWith(gone)];
      }
      forall c | c in gone ensures c in clusters { ListedIn(order, clusters, c); }
    }

    method UpdateCluster() returns (ghost mid: State, ghost moves: Moves, ghost next: State, ghost order: seq<Cluster>,
        ghost trace: seq<Merger>)
      requires Valid()
      modifies this`clusters, this`templateCluster, this`views, tree, clusters
      ensures Valid() && fresh(clusters - old(clusters))
      ensures Round(setting, old(Now()), mid, features, {}, moves) && Refreshed(setting, mid, next, features)
      ensures Lists(order, next.live) && MergeTrace(setting, features, order, trace) && |trace| == |order| + 1
      ensures trace[0] == Merger(next.views, next.home, {}) && trace[|order|] == MergerWith(next.live - clusters)
      ensures clusters <= next.live
    {
      mid, moves := UpdateExistingTemplates();
      next := Now();
      order, trace := MergeClusters();
    }
  }
}
