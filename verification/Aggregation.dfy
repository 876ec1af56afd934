/** Aggregates, their order independence, and "group by key, then fold" as the meaning of aggregation. */
module Aggregation {
  datatype Value = Null | Num(n: real)
  type Row = seq<Value>
  datatype Kind = COUNT | COUNT_STAR | SUM | AVG | MIN | MAX
  datatype CmpBool = CmpTrue | CmpFalse | CmpNull

  datatype Term = Term(kind: Kind, distinct: bool, eval: Row -> Value)

  /** `having` and `project` look at a row of the group and at the aggregated values. */
  datatype Plan = Plan(
    width: nat, groupBy: seq<nat>, terms: seq<Term>, having: (Row, Row) -> CmpBool, project: (Row, Row) -> Row)

  predicate PlanOk(p: Plan) { 0 < p.width && forall i :: 0 <= i < |p.groupBy| ==> p.groupBy[i] < p.width }

  predicate RowsOk(p: Plan, rows: seq<Row>) { forall i :: 0 <= i < |rows| ==> |rows[i]| == p.width }

  // ----- One aggregate -----

  /** `seen` is the set behind DISTINCT; NULL equals nothing, so every NULL is kept. */
  datatype Attribute = Attribute(kind: Kind, distinct: bool, seen: multiset<Value>, have: bool, total: real, count: nat)

  function NewAttribute(t: Term): Attribute { Attribute(t.kind, t.distinct, multiset{}, false, 0.0, 0) }

  function Larger(x: real, y: real): real { if x >= y then x else y }
  function Smaller(x: real, y: real): real { if x <= y then x else y }

  function DAdvance(a: Attribute, v: Value): Attribute {
    if a.kind == COUNT_STAR then a.(count := a.count + 1)
    else if v.Null? then a
    else match a.kind
      case COUNT => a.(count := a.count + 1)
      case COUNT_STAR => a
      case SUM => a.(have := true, total := if a.have then a.total + v.n else v.n)
      case AVG => a.(count := a.count + 1, total := if a.count == 0 then v.n else a.total + v.n)
      case MIN => a.(have := true, total := if a.have then Smaller(a.total, v.n) else v.n)
      case MAX => a.(have := true, total := if a.have then Larger(a.total, v.n) else v.n)
  }

  function DFinalize(a: Attribute): Value {
    match a.kind
    case COUNT => Num(a.count as real)
    case COUNT_STAR => Num(a.count as real)
    case AVG => if a.count == 0 then Null else Num(a.total / a.count as real)
    case _ => if a.have then Num(a.total) else Null
  }

  function Noted(seen: multiset<Value>, v: Value): multiset<Value> {
    if v.Num? && v in seen then seen else seen + multiset{v}
  }

  function Advance(a: Attribute, v: Value): Attribute {
    if a.distinct then a.(seen := Noted(a.seen, v)) else DAdvance(a, v)
  }

  function Fold(a: Attribute, vs: seq<Value>): Attribute {
    if vs == [] then a else DAdvance(Fold(a, vs[..|vs| - 1]), vs[|vs| - 1])
  }

  function AdvanceEach(a: Attribute, vs: seq<Value>): Attribute {
    if vs == [] then a else Advance(AdvanceEach(a, vs[..|vs| - 1]), vs[|vs| - 1])
  }

  /** The first occurrence of every value, and every NULL. */
  function Distinct(vs: seq<Value>): seq<Value> {
    if vs == [] then []
    else
      var (prefix, v) := (Distinct(vs[..|vs| - 1]), vs[|vs| - 1]);
      if v.Num? && v in prefix then prefix else prefix + [v]
  }

  lemma StepsCommute(a: Attribute, v: Value, w: Value)
    ensures DAdvance(DAdvance(a, v), w) == DAdvance(DAdvance(a, w), v)
  {
    match a.kind {
      case COUNT =>
      case COUNT_STAR =>
      case SUM =>
      case AVG =>
      case MIN =>
      case MAX =>
    }
  }

  /** The sequence without its element at `i`. */
  function Remove<T>(vs: seq<T>, i: nat): (r: seq<T>)
    requires i < |vs|
    ensures |r| == |vs| - 1
  {
    var m := |vs| - 1;
    if i == m then vs[..m] else Remove(vs[..m], i) + [vs[m]]
  }

  lemma RemoveEnds<T>(vs: seq<T>, i: nat)
    requires i < |vs| - 1
    ensures var m, r := |vs| - 1, Remove(vs, i);
            r != [] && r[|r| - 1] == vs[m] && r[..|r| - 1] == Remove(vs[..m], i) && vs[..m][i] == vs[i]
  {
  }

  lemma {:induction false} RemoveCounts<T>(vs: seq<T>, i: nat)
    requires i < |vs|
    ensures multiset(vs) == multiset(Remove(vs, i)) + multiset{vs[i]}
  {
    var m := |vs| - 1;
    assert vs == vs[..m] + [vs[m]];
    if i < m { RemoveCounts(vs[..m], i); }
  }

  /** Where the last element of one sequence is in a permutation of it. */
  lemma FindLast<T>(vs: seq<T>, ws: seq<T>) returns (i: nat)
    requires multiset(vs) == multiset(ws) && vs != []
    ensures |vs| == |ws| && i < |ws| && ws[i] == vs[|vs| - 1]
    ensures multiset(vs[..|vs| - 1]) == multiset(Remove(ws, i))
  {
    assert |multiset(vs)| == |vs| && |multiset(ws)| == |ws|;
    var v := vs[|vs| - 1];
    assert v in multiset(vs);
    i :| i < |ws| && ws[i] == v;
    RemoveCounts(ws, i);
    RemoveCounts(vs, |vs| - 1);
    Cancel(multiset(vs[..|vs| - 1]), multiset(Remove(ws, i)), v);
  }

  lemma Cancel<T>(a: multiset<T>, b: multiset<T>, v: T)
    requires a + multiset{v} == b + multiset{v}
    ensures a == b
  {
    assert a == a + multiset{v} - multiset{v};
    assert b == b + multiset{v} - multiset{v};
  }

  /** The value at `i` may as well come last. */
  lemma {:induction false} FoldMoveLast(a: Attribute, vs: seq<Value>, i: nat)
    requires i < |vs|
    ensures Fold(a, vs) == DAdvance(Fold(a, Remove(vs, i)), vs[i])
  {
    var m := |vs| - 1;
    if i < m {
      RemoveEnds(vs, i);
      FoldMoveLast(a, vs[..m], i);
      StepsCommute(Fold(a, Remove(vs[..m], i)), vs[i], vs[m]);
    }
  }

  /** Aggregates do not depend on the order of their input. */
  lemma {:induction false} FoldPermute(a: Attribute, vs: seq<Value>, ws: seq<Value>)
    requires multiset(vs) == multiset(ws)
    ensures Fold(a, vs) == Fold(a, ws)
    decreases |vs|
  {
    if vs != [] {
      var i := FindLast(vs, ws);
      FoldMoveLast(a, ws, i);
      FoldPermute(a, vs[..|vs| - 1], Remove(ws, i));
    } else {
      assert |multiset(ws)| == |ws|;
    }
  }

  lemma {:induction false} SeenIsDistinct(a: Attribute, vs: seq<Value>)
    requires a.distinct && a.seen == multiset{}
    ensures AdvanceEach(a, vs) == a.(seen := multiset(Distinct(vs)))
  {
    if vs != [] { SeenIsDistinct(a, vs[..|vs| - 1]); }
  }

  lemma {:induction false} PlainIsFold(a: Attribute, vs: seq<Value>)
    requires !a.distinct
    ensures AdvanceEach(a, vs) == Fold(a, vs)
  {
    if vs != [] {
      PlainIsFold(a, vs[..|vs| - 1]);
      KindKept(a, vs[..|vs| - 1]);
    }
  }

  lemma {:induction false} KindKept(a: Attribute, vs: seq<Value>)
    ensures Fold(a, vs).kind == a.kind && Fold(a, vs).distinct == a.distinct
  {
    if vs != [] { KindKept(a, vs[..|vs| - 1]); }
  }

  /** What one aggregate of the values must give. */
  function Aggregated(t: Term, vs: seq<Value>): Value {
    DFinalize(Fold(NewAttribute(t), if t.distinct then Distinct(vs) else vs))
  }

  /** The set behind DISTINCT is walked in no particular order: any order `s` gives the same. */
  method Finalize(a: Attribute, ghost s: seq<Value>) returns (v: Value)
    requires a.distinct ==> multiset(s) == a.seen
    ensures v == if a.distinct then DFinalize(Fold(a, s)) else DFinalize(a)
  {
    var cur := a;
    if a.distinct {
      var rest := a.seen;
      ghost var done: seq<Value> := [];
      while |rest| > 0
        invariant cur == Fold(a, done) && multiset(done) + rest == a.seen
        decreases |rest|
      {
        var x :| x in rest;
        cur := DAdvance(cur, x);
        rest := rest - multiset{x};
        done := done + [x];
      }
      FoldPermute(a, done, s);
    }
    v := DFinalize(cur);
  }

  // ----- What the aggregates mean -----

  function Count(vs: seq<Value>): nat {
    if vs == [] then 0 else Count(vs[..|vs| - 1]) + if vs[|vs| - 1].Num? then 1 else 0
  }

  function Sum(vs: seq<Value>): real {
    if vs == [] then 0.0 else Sum(vs[..|vs| - 1]) + if vs[|vs| - 1].Num? then vs[|vs| - 1].n else 0.0
  }

  lemma FoldMeans(t: Term, vs: seq<Value>)
    ensures var r := DFinalize(Fold(NewAttribute(t), vs));
            && (t.kind == COUNT ==> r == Num(Count(vs) as real))
            && (t.kind == COUNT_STAR ==> r == Num(|vs| as real))
            && (t.kind == SUM ==> r == if Count(vs) == 0 then Null else Num(Sum(vs)))
            && (t.kind == AVG ==> r == if Count(vs) == 0 then Null else Num(Sum(vs) / Count(vs) as real))
  {
    FoldSums(NewAttribute(t), vs);
  }

  /** Counts, sums and averages pass over NULL; only COUNT(*) does not, and only counts are never NULL. */
  lemma SumsMean(t: Term, vs: seq<Value>)
    requires !t.distinct
    ensures t.kind == COUNT ==> Aggregated(t, vs) == Num(Count(vs) as real)
    ensures t.kind == COUNT_STAR ==> Aggregated(t, vs) == Num(|vs| as real)
    ensures t.kind == SUM ==> Aggregated(t, vs) == if Count(vs) == 0 then Null else Num(Sum(vs))
    ensures t.kind == AVG ==> Aggregated(t, vs) == if Count(vs) == 0 then Null else Num(Sum(vs) / Count(vs) as real)
  {
    FoldMeans(t, vs);
  }

  lemma {:induction false} FoldSums(a: Attribute, vs: seq<Value>)
    requires !a.have && a.count == 0 && a.total == 0.0
    ensures var b := Fold(a, vs);
            && b.kind == a.kind
            && (a.kind == COUNT || a.kind == AVG ==> b.count == Count(vs))
            && (a.kind == COUNT_STAR ==> b.count == |vs|)
            && (a.kind == SUM ==> b.have == (Count(vs) > 0))
            && (a.kind == SUM || a.kind == AVG ==> b.total == Sum(vs))
  {
    if vs != [] {
      FoldSums(a, vs[..|vs| - 1]);
      NoneIsZero(vs[..|vs| - 1]);
    }
  }

  lemma {:induction false} NoneIsZero(vs: seq<Value>)
    ensures Count(vs) == 0 ==> Sum(vs) == 0.0
  {
    if vs != [] { NoneIsZero(vs[..|vs| - 1]); }
  }

  /** MIN and MAX give NULL for no value, and otherwise one of the values that none lies below or above. */
  lemma ExtremesMean(t: Term, vs: seq<Value>)
    requires t.kind == MIN || t.kind == MAX
    ensures var r := Aggregated(t, vs);
            if NonNulls(vs) == {} then r == Null
            else r.Num? && IsExtreme(t.kind, r.n, NonNulls(vs))
  {
    var a, ws := NewAttribute(t), if t.distinct then Distinct(vs) else vs;
    FoldExtreme(a, ws);
    if t.distinct { DistinctNonNulls(vs); }
  }

  ghost predicate IsExtreme(kind: Kind, r: real, vs: set<Value>) {
    Num(r) in vs && forall v :: v in vs && v.Num? ==> if kind == MIN then r <= v.n else r >= v.n
  }

  lemma {:induction false} FoldExtreme(a: Attribute, vs: seq<Value>)
    requires !a.have && (a.kind == MIN || a.kind == MAX)
    ensures var b := Fold(a, vs);
            b.kind == a.kind && b.have == (NonNulls(vs) != {}) && (b.have ==> IsExtreme(a.kind, b.total, NonNulls(vs)))
    ensures forall v :: v in NonNulls(vs) ==> v.Num?
  {
    if vs != [] { FoldExtreme(a, vs[..|vs| - 1]); }
  }

  lemma {:induction false} DistinctNonNulls(vs: seq<Value>)
    ensures NonNulls(Distinct(vs)) == NonNulls(vs)
  {
    if vs != [] {
      var m := |vs| - 1;
      var prefix, v := Distinct(vs[..m]), vs[m];
      DistinctNonNulls(vs[..m]);
      if v.Num? { DistinctHolds(vs[..m], v); }
      assert (prefix + [v])[..|prefix|] == prefix;
    }
  }

  /** The values that are not NULL. */
  function NonNulls(vs: seq<Value>): set<Value> {
    if vs == [] then {}
    else NonNulls(vs[..|vs| - 1]) + if vs[|vs| - 1].Num? then {vs[|vs| - 1]} else {}
  }

  /** COUNT of distinct values is the size of the set of values that are not NULL. */
  lemma CountDistinctMeans(t: Term, vs: seq<Value>)
    requires t.kind == COUNT && t.distinct
    ensures Aggregated(t, vs) == Num(|NonNulls(vs)| as real)
  {
    CountDistinct(NewAttribute(t), vs);
  }

  /** The values that are not NULL, in order and with repeats. */
  function Nums(vs: seq<Value>): seq<Value> {
    if vs == [] then []
    else Nums(vs[..|vs| - 1]) + if vs[|vs| - 1].Num? then [vs[|vs| - 1]] else []
  }

  lemma {:induction false} NumsSum(vs: seq<Value>)
    ensures Sum(Nums(vs)) == Sum(vs) && Count(vs) == |Nums(vs)|
  {
    if vs != [] {
      var prefix, v := Nums(vs[..|vs| - 1]), vs[|vs| - 1];
      NumsSum(vs[..|vs| - 1]);
      assert (prefix + [v])[..|prefix|] == prefix && prefix + [] == prefix;
    }
  }

  lemma {:induction false} DistinctParts(vs: seq<Value>)
    ensures multiset(Nums(Distinct(vs))) == multiset(NonNulls(vs))
    ensures |Distinct(vs)| == |NonNulls(vs)| + (|vs| - Count(vs))
  {
    if vs != [] {
      var m := |vs| - 1;
      var v, prefix, seen := vs[m], Distinct(vs[..m]), NonNulls(vs[..m]);
      DistinctParts(vs[..m]);
      if v.Num? { DistinctHolds(vs[..m], v); }
      if v.Num? && v in seen {
        assert seen + {v} == seen;
      } else {
        assert (prefix + [v])[..|prefix|] == prefix;
        assert v.Num? ==> multiset(seen + {v}) == multiset(seen) + multiset{v} && |seen + {v}| == |seen| + 1;
        assert v.Null? ==> seen + {} == seen;
      }
    }
  }

  lemma SumPermute(a: Attribute, vs: seq<Value>, ws: seq<Value>)
    requires !a.have && a.count == 0 && a.total == 0.0 && a.kind == SUM && multiset(vs) == multiset(ws)
    ensures Sum(vs) == Sum(ws)
  {
    FoldPermute(a, vs, ws);
    FoldSums(a, vs);
    FoldSums(a, ws);
  }

  lemma DistinctSums(a: Attribute, vs: seq<Value>, listed: seq<Value>)
    requires !a.have && a.count == 0 && a.total == 0.0 && a.kind == SUM && multiset(listed) == multiset(NonNulls(vs))
    ensures Sum(Distinct(vs)) == Sum(listed) && Count(Distinct(vs)) == |listed|
  {
    var nums := Nums(Distinct(vs));
    NumsSum(Distinct(vs));
    DistinctParts(vs);
    SumPermute(a, nums, listed);
    assert |listed| == |multiset(listed)| == |multiset(nums)| == |nums|;
  }

  /** With DISTINCT a sum or average is taken over the set of values that are not NULL, here listed in any order, and
      COUNT(*) adds the NULLs, which are all kept. */
  lemma DistinctMeans(t: Term, vs: seq<Value>, listed: seq<Value>)
    requires t.distinct && multiset(listed) == multiset(NonNulls(vs))
    ensures t.kind == SUM ==> Aggregated(t, vs) == if listed == [] then Null else Num(Sum(listed))
    ensures t.kind == AVG ==> Aggregated(t, vs) == if listed == [] then Null else Num(Sum(listed) / |listed| as real)
    ensures t.kind == COUNT_STAR ==> Aggregated(t, vs) == Num((|NonNulls(vs)| + (|vs| - Count(vs))) as real)
  {
    FoldMeans(t, Distinct(vs));
    DistinctSums(NewAttribute(t).(kind := SUM), vs, listed);
    DistinctParts(vs);
  }

  lemma {:induction false} CountDistinct(a: Attribute, vs: seq<Value>)
    requires a.kind == COUNT && a.count == 0
    ensures Fold(a, Distinct(vs)).kind == COUNT && Fold(a, Distinct(vs)).count == |NonNulls(vs)|
  {
    if vs != [] {
      var m := |vs| - 1;
      var v, prefix, seen := vs[m], Distinct(vs[..m]), NonNulls(vs[..m]);
      CountDistinct(a, vs[..m]);
      if v.Num? { DistinctHolds(vs[..m], v); }
      if v.Num? && v in seen {
        assert seen + {v} == seen;
      } else {
        assert (prefix + [v])[..|prefix|] == prefix;
        assert v.Num? ==> |seen + {v}| == |seen| + 1;
        assert v.Null? ==> seen + {} == seen;
      }
    }
  }

  lemma {:induction false} DistinctHolds(vs: seq<Value>, v: Value)
    requires v.Num?
    ensures v in Distinct(vs) <==> v in NonNulls(vs)
  {
    if vs != [] { DistinctHolds(vs[..|vs| - 1], v); }
  }

  // ----- Groups -----

  function KeyOf(p: Plan, r: Row): Row
    requires PlanOk(p) && |r| == p.width
  {
    seq(|p.groupBy|, i requires 0 <= i < |p.groupBy| => r[p.groupBy[i]])
  }

  predicate NonNull(k: Row) { forall i :: 0 <= i < |k| ==> k[i].Num? }

  function RowsOf(p: Plan, rows: seq<Row>, k: Row): seq<Row>
    requires PlanOk(p) && RowsOk(p, rows)
  {
    if rows == [] then []
    else RowsOf(p, rows[..|rows| - 1], k) + if KeyOf(p, rows[|rows| - 1]) == k then [rows[|rows| - 1]] else []
  }

  /** The keys in order of their first row. */
  function FirstKeys(p: Plan, rows: seq<Row>): seq<Row>
    requires PlanOk(p) && RowsOk(p, rows)
  {
    if rows == [] then []
    else
      var (before, k) := (FirstKeys(p, rows[..|rows| - 1]), KeyOf(p, rows[|rows| - 1]));
      if k in before then before else before + [k]
  }

  function Evals(t: Term, rows: seq<Row>): seq<Value> {
    seq(|rows|, i requires 0 <= i < |rows| => t.eval(rows[i]))
  }

  function Aggregates(p: Plan, rows: seq<Row>): Row {
    seq(|p.terms|, i requires 0 <= i < |p.terms| => Aggregated(p.terms[i], Evals(p.terms[i], rows)))
  }

  /** The row one group gives, unless the filter is definitely false. */
  function GroupOutput(p: Plan, group: seq<Row>): seq<Row> {
    if group == [] then []
    else
      var values := Aggregates(p, group);
      if p.having(group[0], values) == CmpFalse then [] else [p.project(group[0], values)]
  }

  function GroupOutputs(p: Plan, groups: seq<seq<Row>>): seq<Row> {
    if groups == [] then []
    else GroupOutputs(p, groups[..|groups| - 1]) + GroupOutput(p, groups[|groups| - 1])
  }

  function GroupsFor(p: Plan, rows: seq<Row>, order: seq<Row>): seq<seq<Row>>
    requires PlanOk(p) && RowsOk(p, rows)
  {
    seq(|order|, i requires 0 <= i < |order| => RowsOf(p, rows, order[i]))
  }

  /** Group by key, then fold, in a given order of the keys. */
  function Grouped(p: Plan, rows: seq<Row>, order: seq<Row>): seq<Row>
    requires PlanOk(p) && RowsOk(p, rows)
  {
    if order == [] then []
    else Grouped(p, rows, order[..|order| - 1]) + GroupOutput(p, RowsOf(p, rows, order[|order| - 1]))
  }

  lemma {:induction false} GroupedIsOutputs(p: Plan, rows: seq<Row>, order: seq<Row>)
    requires PlanOk(p) && RowsOk(p, rows)
    ensures Grouped(p, rows, order) == GroupOutputs(p, GroupsFor(p, rows, order))
  {
    if order != [] {
      var m := |order| - 1;
      GroupedIsOutputs(p, rows, order[..m]);
      assert GroupsFor(p, rows, order)[..m] == GroupsFor(p, rows, order[..m]);
    }
  }

  /** The elements `f` gives for each of `order`, in no order. */
  function BagOf<A, B>(f: A -> multiset<B>, order: seq<A>): multiset<B> {
    if order == [] then multiset{} else BagOf(f, order[..|order| - 1]) + f(order[|order| - 1])
  }

  lemma {:induction false} BagMoveLast<A, B>(f: A -> multiset<B>, order: seq<A>, i: nat)
    requires i < |order|
    ensures BagOf(f, order) == BagOf(f, Remove(order, i)) + f(order[i])
  {
    var m := |order| - 1;
    if i < m {
      RemoveEnds(order, i);
      BagMoveLast(f, order[..m], i);
    }
  }

  lemma {:induction false} BagPermute<A, B>(f: A -> multiset<B>, a: seq<A>, b: seq<A>)
    requires multiset(a) == multiset(b)
    ensures BagOf(f, a) == BagOf(f, b)
    decreases |a|
  {
    if a != [] {
      var i := FindLast(a, b);
      BagMoveLast(f, b, i);
      BagPermute(f, a[..|a| - 1], Remove(b, i));
    } else {
      assert |multiset(b)| == |b|;
    }
  }

  function KeyOutput(p: Plan, rows: seq<Row>, k: Row): multiset<Row> {
    if PlanOk(p) && RowsOk(p, rows) then multiset(GroupOutput(p, RowsOf(p, rows, k))) else multiset{}
  }

  lemma {:induction false} BagOfGrouped(p: Plan, rows: seq<Row>, order: seq<Row>, f: Row -> multiset<Row>)
    requires PlanOk(p) && RowsOk(p, rows) && forall k :: f(k) == KeyOutput(p, rows, k)
    ensures multiset(Grouped(p, rows, order)) == BagOf(f, order)
  {
    if order != [] { BagOfGrouped(p, rows, order[..|order| - 1], f); }
  }

  /** The order of the groups only permutes the result. */
  lemma GroupedPermute(p: Plan, rows: seq<Row>, a: seq<Row>, b: seq<Row>)
    requires PlanOk(p) && RowsOk(p, rows) && multiset(a) == multiset(b)
    ensures multiset(Grouped(p, rows, a)) == multiset(Grouped(p, rows, b))
  {
    var f := k => KeyOutput(p, rows, k);
    BagPermute(f, a, b);
    BagOfGrouped(p, rows, a, f);
    BagOfGrouped(p, rows, b, f);
  }

  // ----- The keys -----

  function KeySet(p: Plan, rows: seq<Row>): set<Row>
    requires PlanOk(p) && RowsOk(p, rows)
  {
    if rows == [] then {} else KeySet(p, rows[..|rows| - 1]) + {KeyOf(p, rows[|rows| - 1])}
  }

  lemma {:induction false} FirstKeysAll(p: Plan, rows: seq<Row>, k: Row)
    requires PlanOk(p) && RowsOk(p, rows)
    ensures k in FirstKeys(p, rows) <==> k in KeySet(p, rows)
  {
    if rows != [] { FirstKeysAll(p, rows[..|rows| - 1], k); }
  }

  /** The keys in order of appearance list each key once. */
  lemma {:induction false} FirstKeysBag(p: Plan, rows: seq<Row>)
    requires PlanOk(p) && RowsOk(p, rows)
    ensures multiset(FirstKeys(p, rows)) == multiset(KeySet(p, rows))
  {
    if rows != [] {
      var before, k := rows[..|rows| - 1], KeyOf(p, rows[|rows| - 1]);
      FirstKeysBag(p, before);
      FirstKeysAll(p, before, k);
      if k in KeySet(p, before) { assert KeySet(p, before) + {k} == KeySet(p, before); }
    }
  }

  lemma {:induction false} KeysHaveRows(p: Plan, rows: seq<Row>, k: Row)
    requires PlanOk(p) && RowsOk(p, rows)
    ensures k in FirstKeys(p, rows) <==> RowsOf(p, rows, k) != []
  {
    if rows != [] { KeysHaveRows(p, rows[..|rows| - 1], k); }
  }

  ghost predicate NoRepeats(ks: seq<Row>) { forall i, j :: 0 <= i < j < |ks| ==> ks[i] != ks[j] }

  lemma {:induction false} KeysOnce(p: Plan, rows: seq<Row>)
    requires PlanOk(p) && RowsOk(p, rows)
    ensures NoRepeats(FirstKeys(p, rows))
  {
    if rows != [] { KeysOnce(p, rows[..|rows| - 1]); }
  }

  // ----- Runs of equal keys -----

  /** Two key columns differ only when the comparison is definitely true. */
  predicate Differs(v: Value, w: Value) { v.Num? && w.Num? && v != w }

  predicate Boundary(k: Row, l: Row)
    requires |k| == |l|
  {
    exists i :: 0 <= i < |k| && Differs(k[i], l[i])
  }

  predicate RunOk(p: Plan, run: seq<Row>) { run != [] && RowsOk(p, run) }

  /** The input cut where a row's key differs from that of the first row of the current run. */
  function Runs(p: Plan, rows: seq<Row>): (runs: seq<seq<Row>>)
    requires PlanOk(p) && RowsOk(p, rows)
    ensures forall i :: 0 <= i < |runs| ==> RunOk(p, runs[i])
    ensures rows == [] <==> runs == []
  {
    if rows == [] then []
    else
      var (before, r) := (Runs(p, rows[..|rows| - 1]), rows[|rows| - 1]);
      if before == [] then [[r]]
      else
        var run := before[|before| - 1];
        if Boundary(KeyOf(p, r), KeyOf(p, run[0])) then before + [[r]]
        else before[..|before| - 1] + [run + [r]]
  }

  function Joined(runs: seq<seq<Row>>): seq<Row> {
    if runs == [] then [] else Joined(runs[..|runs| - 1]) + runs[|runs| - 1]
  }

  /** No row of the run differs from its first row, which differs from the first row of the run before. */
  ghost predicate CutAt(p: Plan, runs: seq<seq<Row>>, i: nat)
    requires PlanOk(p) && i < |runs|
  {
    && RunOk(p, runs[i])
    && (forall j :: 0 <= j < |runs[i]| ==> !Boundary(KeyOf(p, runs[i][j]), KeyOf(p, runs[i][0])))
    && (i > 0 ==> RunOk(p, runs[i - 1]) && Boundary(KeyOf(p, runs[i][0]), KeyOf(p, runs[i - 1][0])))
  }

  lemma {:induction false} RunsJoin(p: Plan, rows: seq<Row>)
    requires PlanOk(p) && RowsOk(p, rows)
    ensures Joined(Runs(p, rows)) == rows
  {
    if rows != [] {
      var m := |rows| - 1;
      var before, r, runs := Runs(p, rows[..m]), rows[m], Runs(p, rows);
      RunsJoin(p, rows[..m]);
      assert rows == rows[..m] + [r];
      if before == [] {
        assert runs[..0] == [];
      } else if Boundary(KeyOf(p, r), KeyOf(p, before[|before| - 1][0])) {
        assert runs[..|before|] == before;
      } else {
        var n := |before| - 1;
        assert runs[..n] == before[..n];
        assert Joined(before[..n]) + (before[n] + [r]) == Joined(before[..n]) + before[n] + [r];
      }
    }
  }

  lemma CutSame(p: Plan, before: seq<seq<Row>>, runs: seq<seq<Row>>, i: nat)
    requires PlanOk(p) && i < |before| && i < |runs| && CutAt(p, before, i)
    requires runs[i] == before[i] && (i > 0 ==> runs[i - 1] == before[i - 1])
    ensures CutAt(p, runs, i)
  {
  }

  lemma CutExtended(p: Plan, before: seq<seq<Row>>, runs: seq<seq<Row>>, i: nat, r: Row)
    requires PlanOk(p) && i < |before| && i < |runs| && CutAt(p, before, i) && |r| == p.width
    requires runs[i] == before[i] + [r] && (i > 0 ==> runs[i - 1] == before[i - 1])
    requires !Boundary(KeyOf(p, r), KeyOf(p, before[i][0]))
    ensures CutAt(p, runs, i)
  {
    var was, run := before[i], runs[i];
    forall j | 0 <= j < |run| ensures |run[j]| == p.width && !Boundary(KeyOf(p, run[j]), KeyOf(p, run[0])) {
      if j < |was| { assert run[j] == was[j]; }
    }
  }

  lemma {:induction false} RunCut(p: Plan, rows: seq<Row>, i: nat)
    requires PlanOk(p) && RowsOk(p, rows) && i < |Runs(p, rows)|
    ensures CutAt(p, Runs(p, rows), i)
  {
    var m := |rows| - 1;
    var before, r, runs := Runs(p, rows[..m]), rows[m], Runs(p, rows);
    if i < |before| {
      RunCut(p, rows[..m], i);
      if runs[i] == before[i] {
        CutSame(p, before, runs, i);
      } else {
        CutExtended(p, before, runs, i, r);
      }
    } else {
      assert runs[i] == [r];
    }
  }

  /** The input is cut exactly where a row differs from the first row of its run: put together again the runs are the
      input, no row of a run differs from the first, and the first differs from that of the run before. */
  lemma RunsCut(p: Plan, rows: seq<Row>)
    requires PlanOk(p) && RowsOk(p, rows)
    ensures Joined(Runs(p, rows)) == rows
    ensures forall i: nat :: i < |Runs(p, rows)| ==> CutAt(p, Runs(p, rows), i)
  {
    RunsJoin(p, rows);
    forall i: nat | i < |Runs(p, rows)| ensures CutAt(p, Runs(p, rows), i) { RunCut(p, rows, i); }
  }

  /** Rows with equal keys stand together. */
  ghost predicate Adjacent(p: Plan, rows: seq<Row>)
    requires PlanOk(p) && RowsOk(p, rows)
  {
    forall i, j, l :: 0 <= i < j < l < |rows| && KeyOf(p, rows[i]) == KeyOf(p, rows[l]) ==>
      KeyOf(p, rows[j]) == KeyOf(p, rows[i])
  }

  /** Where the key changes from one row to the next, the comparison sees it. */
  ghost predicate ChangeSeen(p: Plan, rows: seq<Row>, i: nat)
    requires PlanOk(p) && RowsOk(p, rows) && 0 < i < |rows|
  {
    KeyOf(p, rows[i]) != KeyOf(p, rows[i - 1]) ==> Boundary(KeyOf(p, rows[i]), KeyOf(p, rows[i - 1]))
  }

  ghost predicate ChangesSeen(p: Plan, rows: seq<Row>)
    requires PlanOk(p) && RowsOk(p, rows)
  {
    forall i {:trigger ChangeSeen(p, rows, i)} :: 0 < i < |rows| ==> ChangeSeen(p, rows, i)
  }

  ghost predicate KeysNonNull(p: Plan, rows: seq<Row>)
    requires PlanOk(p) && RowsOk(p, rows)
  {
    forall i :: 0 <= i < |rows| ==> NonNull(KeyOf(p, rows[i]))
  }

  lemma BoundaryIff(k: Row, l: Row)
    requires |k| == |l| && NonNull(k) && NonNull(l)
    ensures Boundary(k, l) <==> k != l
  {
    if k != l {
      var i :| 0 <= i < |k| && k[i] != l[i];
      assert Differs(k[i], l[i]);
    }
  }

  lemma {:induction false} KeyPresent(p: Plan, rows: seq<Row>, k: Row)
    requires PlanOk(p) && RowsOk(p, rows)
    ensures k in FirstKeys(p, rows) <==> exists i :: 0 <= i < |rows| && KeyOf(p, rows[i]) == k
  {
    if rows != [] {
      var m := |rows| - 1;
      KeyPresent(p, rows[..m], k);
      if i :| 0 <= i < |rows| && KeyOf(p, rows[i]) == k { assert i < m ==> rows[..m][i] == rows[i]; }
      if i :| 0 <= i < m && KeyOf(p, rows[..m][i]) == k { assert KeyOf(p, rows[i]) == k; }
    }
  }

  lemma {:induction false} FirstRowOf(p: Plan, rows: seq<Row>, k: Row)
    requires PlanOk(p) && RowsOk(p, rows)
    ensures RowsOk(p, RowsOf(p, rows, k))
    ensures forall i :: 0 <= i < |RowsOf(p, rows, k)| ==>
            RowsOf(p, rows, k)[i] in rows && KeyOf(p, RowsOf(p, rows, k)[i]) == k
  {
    if rows != [] { FirstRowOf(p, rows[..|rows| - 1], k); }
  }

  /** In adjacent rows a key seen before is the key of the row just before. */
  lemma SeenIsLatest(p: Plan, rows: seq<Row>)
    requires PlanOk(p) && RowsOk(p, rows) && Adjacent(p, rows) && |rows| >= 2
    ensures var m := |rows| - 1;
            KeyOf(p, rows[m]) in FirstKeys(p, rows[..m]) <==> KeyOf(p, rows[m]) == KeyOf(p, rows[m - 1])
  {
    var m := |rows| - 1;
    var before := rows[..m];
    KeyPresent(p, before, KeyOf(p, rows[m]));
    assert before[m - 1] == rows[m - 1];
  }

  /** Every group after one more row. */
  lemma GroupsAfter(p: Plan, rows: seq<Row>, keys: seq<Row>)
    requires PlanOk(p) && RowsOk(p, rows) && rows != []
    ensures var before, r := rows[..|rows| - 1], rows[|rows| - 1];
            var groups, now := GroupsFor(p, before, keys), GroupsFor(p, rows, keys);
            forall i :: 0 <= i < |keys| ==> now[i] == if keys[i] == KeyOf(p, r) then groups[i] + [r] else groups[i]
  {
    forall i | 0 <= i < |keys| { RowsOfGrown(p, rows, keys[i]); }
  }

  /** The groups of other keys do not change. */
  lemma OthersUnchanged(p: Plan, rows: seq<Row>, keys: seq<Row>)
    requires PlanOk(p) && RowsOk(p, rows) && rows != [] && KeyOf(p, rows[|rows| - 1]) !in keys
    ensures GroupsFor(p, rows, keys) == GroupsFor(p, rows[..|rows| - 1], keys)
  {
    GroupsAfter(p, rows, keys);
    assert forall i :: 0 <= i < |keys| ==> keys[i] in keys;
  }

  /** A row with a new key adds a group. */
  lemma GroupAdded(p: Plan, rows: seq<Row>)
    requires PlanOk(p) && RowsOk(p, rows) && rows != []
    requires KeyOf(p, rows[|rows| - 1]) !in FirstKeys(p, rows[..|rows| - 1])
    ensures var before, r := rows[..|rows| - 1], rows[|rows| - 1];
            GroupsFor(p, rows, FirstKeys(p, rows)) == GroupsFor(p, before, FirstKeys(p, before)) + [[r]]
  {
    var before, r := rows[..|rows| - 1], rows[|rows| - 1];
    var k, keys := KeyOf(p, r), FirstKeys(p, before);
    OthersUnchanged(p, rows, keys);
    assert RowsOf(p, rows, k) == [r] by {
      KeysHaveRows(p, before, k);
      RowsOfGrown(p, rows, k);
      assert [] + [r] == [r];
    }
    assert GroupsFor(p, rows, keys + [k]) == GroupsFor(p, rows, keys) + [RowsOf(p, rows, k)];
  }

  /** A row with the latest key extends the last group. */
  lemma GroupExtended(p: Plan, rows: seq<Row>)
    requires PlanOk(p) && RowsOk(p, rows) && rows != []
    requires var keys := FirstKeys(p, rows[..|rows| - 1]); keys != [] && KeyOf(p, rows[|rows| - 1]) == keys[|keys| - 1]
    ensures var before, r := rows[..|rows| - 1], rows[|rows| - 1];
            var groups := GroupsFor(p, before, FirstKeys(p, before));
            var m := |groups| - 1;
            GroupsFor(p, rows, FirstKeys(p, rows)) == groups[..m] + [groups[m] + [r]]
  {
    var before, r := rows[..|rows| - 1], rows[|rows| - 1];
    var keys := FirstKeys(p, before);
    var m := |keys| - 1;
    var groups, now := GroupsFor(p, before, keys), GroupsFor(p, rows, keys);
    GroupsAfter(p, rows, keys);
    KeysOnce(p, before);
    assert keys[m] in keys;
    LastGrows(keys, groups, now, r);
  }

  lemma LastGrows(keys: seq<Row>, groups: seq<seq<Row>>, now: seq<seq<Row>>, r: Row)
    requires NoRepeats(keys) && |keys| == |groups| == |now| > 0
    requires forall i :: 0 <= i < |keys| ==>
               now[i] == if keys[i] == keys[|keys| - 1] then groups[i] + [r] else groups[i]
    ensures var m := |keys| - 1; now == groups[..m] + [groups[m] + [r]]
  {
  }

  lemma RowsOfGrown(p: Plan, rows: seq<Row>, k: Row)
    requires PlanOk(p) && RowsOk(p, rows) && rows != []
    ensures var before, r := rows[..|rows| - 1], rows[|rows| - 1];
            RowsOf(p, rows, k) == if KeyOf(p, r) == k then RowsOf(p, before, k) + [r] else RowsOf(p, before, k)
  {
  }

  /** Without NULLs among the keys every change is seen. */
  lemma NonNullChangesSeen(p: Plan, rows: seq<Row>)
    requires PlanOk(p) && RowsOk(p, rows) && KeysNonNull(p, rows)
    ensures ChangesSeen(p, rows)
  {
    forall i: nat | 0 < i < |rows| ensures ChangeSeen(p, rows, i) {
      BoundaryIff(KeyOf(p, rows[i]), KeyOf(p, rows[i - 1]));
    }
  }

  lemma BeforeLast(p: Plan, rows: seq<Row>)
    requires PlanOk(p) && RowsOk(p, rows) && rows != [] && Adjacent(p, rows) && ChangesSeen(p, rows)
    ensures Adjacent(p, rows[..|rows| - 1]) && ChangesSeen(p, rows[..|rows| - 1])
  {
    var before := rows[..|rows| - 1];
    assert forall i :: 0 <= i < |before| ==> before[i] == rows[i];
    forall i: nat | 0 < i < |before| ensures ChangeSeen(p, before, i) { assert ChangeSeen(p, rows, i); }
  }

  /** Cutting adjacent rows at the boundaries groups them by key, as long as the changes of key are seen. */
  lemma {:induction false} RunsAreGroups(p: Plan, rows: seq<Row>)
    requires PlanOk(p) && RowsOk(p, rows) && Adjacent(p, rows) && ChangesSeen(p, rows)
    ensures Runs(p, rows) == GroupsFor(p, rows, FirstKeys(p, rows))
    ensures rows != [] ==>
              var keys := FirstKeys(p, rows); keys != [] && keys[|keys| - 1] == KeyOf(p, rows[|rows| - 1])
  {
    if |rows| == 1 {
      GroupAdded(p, rows);
    } else if |rows| > 1 {
      var m := |rows| - 1;
      var before, r, keys := rows[..m], rows[m], FirstKeys(p, rows[..m]);
      BeforeLast(p, rows);
      RunsAreGroups(p, before);
      SeenIsLatest(p, rows);
      if KeyOf(p, r) in keys { GroupExtended(p, rows); } else { GroupAdded(p, rows); }
      var run := Runs(p, before)[|keys| - 1];
      assert run == RowsOf(p, before, KeyOf(p, before[m - 1]));
      FirstRowOf(p, before, KeyOf(p, before[m - 1]));
      assert ChangeSeen(p, rows, m);
    }
  }

  /** If the last row has a key seen before and the runs are the groups, that key is the latest one and the row was
      added to the last run. */
  lemma LastRunExtended(p: Plan, rows: seq<Row>)
    requires PlanOk(p) && RowsOk(p, rows) && |rows| > 1 && Runs(p, rows) == GroupsFor(p, rows, FirstKeys(p, rows))
    requires KeyOf(p, rows[|rows| - 1]) in FirstKeys(p, rows[..|rows| - 1])
    ensures var before := rows[..|rows| - 1];
            var keys := FirstKeys(p, before);
            keys[|keys| - 1] == KeyOf(p, rows[|rows| - 1]) && Runs(p, before) == GroupsFor(p, before, keys)
  {
    var before, r := rows[..|rows| - 1], rows[|rows| - 1];
    var keys, runs := FirstKeys(p, before), Runs(p, before);
    var groups, now, n := GroupsFor(p, before, keys), GroupsFor(p, rows, keys), |keys| - 1;
    var last := now[n];
    FirstRowOf(p, rows, keys[n]);
    assert last[|last| - 1] == r;
    GroupsAfter(p, rows, keys);
    KeysOnce(p, before);
    KeysHaveRows(p, before, keys[n]);
    assert keys[n] in keys;
    assert last == groups[n] + [r] && |last| >= 2;
    assert now == runs[..n] + [runs[n] + [r]];
    SameButLast(keys, runs, groups, r);
  }

  lemma SameButLast(keys: seq<Row>, runs: seq<seq<Row>>, groups: seq<seq<Row>>, r: Row)
    requires NoRepeats(keys) && |keys| == |groups| == |runs| > 0
    requires var n := |keys| - 1;
             runs[..n] + [runs[n] + [r]] == groups[..n] + [groups[n] + [r]]
    ensures runs == groups
  {
    var n := |keys| - 1;
    assert runs[..n] == (runs[..n] + [runs[n] + [r]])[..n] == groups[..n];
    assert runs[n] + [r] == (runs[..n] + [runs[n] + [r]])[n] == groups[n] + [r];
    assert runs[n] == (runs[n] + [r])[..|runs[n]|] == groups[n];
  }

  /** If the last row has a new key and the runs are the groups, the row was cut off. */
  lemma LastRunCut(p: Plan, rows: seq<Row>)
    requires PlanOk(p) && RowsOk(p, rows) && |rows| > 1 && Runs(p, rows) == GroupsFor(p, rows, FirstKeys(p, rows))
    requires KeyOf(p, rows[|rows| - 1]) !in FirstKeys(p, rows[..|rows| - 1])
    ensures var before := rows[..|rows| - 1];
            var runs := Runs(p, before);
            && runs == GroupsFor(p, before, FirstKeys(p, before))
            && Boundary(KeyOf(p, rows[|rows| - 1]), KeyOf(p, runs[|runs| - 1][0]))
  {
    var before, r := rows[..|rows| - 1], rows[|rows| - 1];
    var runs, groups := Runs(p, before), GroupsFor(p, before, FirstKeys(p, before));
    var whole := Runs(p, rows);
    GroupAdded(p, rows);
    assert whole[|whole| - 1] == [r];
    var run := runs[|runs| - 1];
    assert run + [r] != [r];
    assert whole == runs + [[r]];
    assert runs == whole[..|whole| - 1] == groups;
  }

  /** When the runs are the groups, the last run starts with the latest key. */
  lemma LastRunKey(p: Plan, rows: seq<Row>)
    requires PlanOk(p) && RowsOk(p, rows) && rows != [] && Adjacent(p, rows) && ChangesSeen(p, rows)
    ensures var keys, runs := FirstKeys(p, rows), Runs(p, rows);
            keys[|keys| - 1] == KeyOf(p, rows[|rows| - 1]) == KeyOf(p, runs[|runs| - 1][0])
  {
    var k := KeyOf(p, rows[|rows| - 1]);
    RunsAreGroups(p, rows);
    FirstRowOf(p, rows, k);
    assert Runs(p, rows)[|Runs(p, rows)| - 1] == RowsOf(p, rows, k);
  }

  lemma {:induction false} GroupsAreAdjacent(p: Plan, rows: seq<Row>)
    requires PlanOk(p) && RowsOk(p, rows) && Runs(p, rows) == GroupsFor(p, rows, FirstKeys(p, rows))
    ensures Adjacent(p, rows) && ChangesSeen(p, rows)
  {
    if |rows| > 1 {
      var m := |rows| - 1;
      var before, k := rows[..m], KeyOf(p, rows[m]);
      if k in FirstKeys(p, before) { LastRunExtended(p, rows); } else { LastRunCut(p, rows); }
      GroupsAreAdjacent(p, before);
      LastRunKey(p, before);
      OneMoreRow(p, rows);
    }
  }

  lemma OneMoreRow(p: Plan, rows: seq<Row>)
    requires PlanOk(p) && RowsOk(p, rows) && |rows| > 1
    requires var before := rows[..|rows| - 1];
             Adjacent(p, before) && ChangesSeen(p, before) && ChangeSeen(p, rows, |rows| - 1) &&
             (KeyOf(p, rows[|rows| - 1]) in FirstKeys(p, before) ==>
               KeyOf(p, rows[|rows| - 1]) == KeyOf(p, rows[|rows| - 2]))
    ensures Adjacent(p, rows) && ChangesSeen(p, rows)
  {
    var m := |rows| - 1;
    var before := rows[..m];
    assert forall i :: 0 <= i < m ==> before[i] == rows[i];
    KeyPresent(p, before, KeyOf(p, rows[m]));
    forall i, j, l | 0 <= i < j < l < |rows| && KeyOf(p, rows[i]) == KeyOf(p, rows[l])
      ensures KeyOf(p, rows[j]) == KeyOf(p, rows[i])
    {
      var l' := if l < m then l else m - 1;
      assert KeyOf(p, before[i]) == KeyOf(p, before[l']);
      if j < l' { assert KeyOf(p, before[j]) == KeyOf(p, before[i]); }
    }
    forall i: nat | 0 < i < |rows| ensures ChangeSeen(p, rows, i) {
      if i < m { assert ChangeSeen(p, before, i); }
    }
  }

  /** Sorted aggregation cuts the rows into their groups if and only if equal keys stand together and the comparison
      sees every change of key. */
  lemma RunsAreGroupsIff(p: Plan, rows: seq<Row>)
    requires PlanOk(p) && RowsOk(p, rows)
    ensures Runs(p, rows) == GroupsFor(p, rows, FirstKeys(p, rows)) <==> Adjacent(p, rows) && ChangesSeen(p, rows)
  {
    if Runs(p, rows) == GroupsFor(p, rows, FirstKeys(p, rows)) { GroupsAreAdjacent(p, rows); }
    if Adjacent(p, rows) && ChangesSeen(p, rows) { RunsAreGroups(p, rows); }
  }

  /** What sorting by key and cutting at boundaries emits. */
  function SortedOutput(p: Plan, rows: seq<Row>): seq<Row>
    requires PlanOk(p) && RowsOk(p, rows)
  {
    GroupOutputs(p, Runs(p, rows))
  }

  /** Sorted aggregation emits the rows of hash aggregation, whatever order the hash table is walked in. */
  lemma SortedAndHashAgree(p: Plan, rows: seq<Row>, order: seq<Row>)
    requires PlanOk(p) && RowsOk(p, rows) && Adjacent(p, rows) && ChangesSeen(p, rows)
    requires multiset(order) == multiset(FirstKeys(p, rows))
    ensures multiset(SortedOutput(p, rows)) == multiset(Grouped(p, rows, order))
  {
    RunsAreGroups(p, rows);
    GroupedIsOutputs(p, rows, FirstKeys(p, rows));
    GroupedPermute(p, rows, order, FirstKeys(p, rows));
  }

  /** A NULL key is never on the far side of a boundary, so its row joins the group before it. */
  lemma NullKeyJoins(p: Plan, r: Row, n: Row)
    requires PlanOk(p) && |r| == |n| == p.width && KeyOf(p, r) != KeyOf(p, n)
    requires forall i :: 0 <= i < |p.groupBy| ==> KeyOf(p, n)[i].Null?
    ensures Runs(p, [r, n]) == [[r, n]] && |FirstKeys(p, [r, n])| == 2
  {
    assert [r, n][..1] == [r] && [r][..0] == [];
    assert Runs(p, [r]) == [[r]];
    assert [r] + [n] == [r, n];
    assert FirstKeys(p, [r]) == [KeyOf(p, r)];
  }
}
