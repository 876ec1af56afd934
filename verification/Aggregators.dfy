/** The aggregates of a group, and sorted aggregation, fed one row at a time. */
module Aggregators {
  import opened Aggregation
  import opened GroupResults

  // ----- The aggregates of one group -----

  function AggsAfter(p: Plan, rows: seq<Row>): seq<Attribute> {
    seq(|p.terms|, i requires 0 <= i < |p.terms| => AdvanceEach(NewAttribute(p.terms[i]), Evals(p.terms[i], rows)))
  }

  lemma AggsStep(p: Plan, rows: seq<Row>, r: Row, i: nat)
    requires i < |p.terms|
    ensures AggsAfter(p, rows + [r])[i] == Advance(AggsAfter(p, rows)[i], p.terms[i].eval(r))
  {
    var t := p.terms[i];
    assert Evals(t, rows + [r]) == Evals(t, rows) + [t.eval(r)];
    assert (Evals(t, rows) + [t.eval(r)])[..|rows|] == Evals(t, rows);
  }

  function NewAggregates(p: Plan): (aggs: seq<Attribute>)
    ensures aggs == AggsAfter(p, [])
  {
    seq(|p.terms|, i requires 0 <= i < |p.terms| => NewAttribute(p.terms[i]))
  }

  /** The aggregate of a group, fed row by row and then finalized, is the one specified. */
  lemma FinalMeans(t: Term, vs: seq<Value>)
    ensures var a := AdvanceEach(NewAttribute(t), vs);
            && a.distinct == t.distinct && (a.distinct ==> a.seen == multiset(Distinct(vs)))
            && Aggregated(t, vs) == if a.distinct then DFinalize(Fold(a, Distinct(vs))) else DFinalize(a)
  {
    var n := NewAttribute(t);
    if t.distinct {
      SeenIsDistinct(n, vs);
      SeenIgnored(n, multiset(Distinct(vs)), Distinct(vs));
    } else {
      PlainIsFold(n, vs);
      KindKept(n, vs);
    }
  }

  lemma {:induction false} SeenIgnored(a: Attribute, seen: multiset<Value>, vs: seq<Value>)
    ensures Fold(a.(seen := seen), vs) == Fold(a, vs).(seen := seen)
  {
    if vs != [] { SeenIgnored(a, seen, vs[..|vs| - 1]); }
  }

  method AdvanceAll(p: Plan, aggs: seq<Attribute>, r: Row, ghost rows: seq<Row>) returns (next: seq<Attribute>)
    requires aggs == AggsAfter(p, rows)
    ensures next == AggsAfter(p, rows + [r])
  {
    next := [];
    for i := 0 to |p.terms|
      invariant next == AggsAfter(p, rows + [r])[..i]
    {
      AggsStep(p, rows, r, i);
      next := next + [Advance(aggs[i], p.terms[i].eval(r))];
    }
  }

  method FinalizeOne(t: Term, a: Attribute, ghost vs: seq<Value>) returns (v: Value)
    requires a == AdvanceEach(NewAttribute(t), vs)
    ensures v == Aggregated(t, vs)
  {
    FinalMeans(t, vs);
    v := Finalize(a, Distinct(vs));
  }

  method FinalizeAll(p: Plan, aggs: seq<Attribute>, ghost group: seq<Row>) returns (values: Row)
    requires aggs == AggsAfter(p, group)
    ensures values == Aggregates(p, group)
  {
    values := [];
    for i := 0 to |p.terms|
      invariant values == Aggregates(p, group)[..i]
    {
      var v := FinalizeOne(p.terms[i], aggs[i], Evals(p.terms[i], group));
      values := values + [v];
    }
  }

  /** Emits the row of a finished group. */
  method Helper(p: Plan, first: Row, aggs: seq<Attribute>, ghost group: seq<Row>) returns (out: seq<Row>)
    requires group != [] && first == group[0] && aggs == AggsAfter(p, group)
    ensures out == GroupOutput(p, group)
    ensures forall x :: multiset(out)[x] == if Emits(p, group, x) then 1 else 0
  {
    var values := FinalizeAll(p, aggs, group);
    if p.having(first, values) == CmpFalse {
      return [];
    }
    return [p.project(first, values)];
  }

  // ----- Sorted aggregation -----

  class SortedAggregator {
    const plan: Plan
    var first: Row
    var aggs: seq<Attribute>
    var output: seq<Row>
    ghost var rows: seq<Row>
    ghost var finished: seq<seq<Row>>
    ghost var run: seq<Row>

    /** The runs before the current one have been emitted, and the current one is aggregated so far. */
    ghost predicate Valid()
      reads this
    {
      && PlanOk(plan) && RowsOk(plan, rows) && Split(plan, rows, finished, run)
      && output == GroupOutputs(plan, finished)
      && if run == [] then first == [] else first == run[0] && aggs == AggsAfter(plan, run)
    }

    constructor (p: Plan)
      requires PlanOk(p)
      ensures Valid() && plan == p && rows == []
    {
      plan, first, aggs, output, rows, finished, run := p, [], [], [], [], [], [];
    }

    /** Emits the current group when the row starts a new one. */
    method Advance(r: Row)
      requires Valid() && |r| == plan.width
      modifies this
      ensures Valid() && rows == old(rows) + [r]
    {
      var start := first == [];
      if !start {
        start := CrossesBoundary(plan, r, first);
      }
      if start {
        SplitCut(plan, rows, finished, run, r);
        NewRun(r);
      } else {
        SplitExtend(plan, rows, finished, run, r);
        Extend(r);
      }
    }

    method Consume(input: seq<Row>)
      requires Valid() && RowsOk(plan, input)
      modifies this
      ensures Valid() && rows == old(rows) + input
    {
      for i := 0 to |input|
        invariant Valid() && rows == old(rows) + input[..i]
      {
        Advance(input[i]);
        assert input[..i + 1] == input[..i] + [input[i]];
      }
      assert input[..|input|] == input;
    }

    method NewRun(r: Row)
      requires Valid() && |r| == plan.width && RowsOk(plan, rows + [r])
      requires Split(plan, rows + [r], WithRun(finished, run), [r])
      modifies this
      ensures Valid() && rows == old(rows) + [r]
    {
      Flush();
      Start(r);
      rows := rows + [r];
    }

    method Extend(r: Row)
      requires Valid() && run != [] && RowsOk(plan, rows + [r]) && Split(plan, rows + [r], finished, run + [r])
      modifies this`aggs, this`run, this`rows
      ensures Valid() && rows == old(rows) + [r]
    {
      aggs := AdvanceAll(plan, aggs, r, run);
      run := run + [r];
      rows := rows + [r];
    }

    /** Emits the current group, if there is one. */
    method Flush()
      requires PlanOk(plan) && output == GroupOutputs(plan, finished)
      requires if run == [] then first == [] else first != [] && first == run[0] && aggs == AggsAfter(plan, run)
      modifies this`output, this`finished
      ensures finished == WithRun(old(finished), run) && output == GroupOutputs(plan, finished)
    {
      if first != [] {
        var out := Helper(plan, first, aggs, run);
        output := output + out;
        assert (finished + [run])[..|finished|] == finished;
        finished := finished + [run];
      }
    }

    method Start(r: Row)
      modifies this`first, this`aggs, this`run
      ensures first == r && run == [r] && aggs == AggsAfter(plan, [r])
    {
      first := r;
      aggs := AdvanceAll(plan, NewAggregates(plan), r, []);
      run := [r];
      assert [] + [r] == [r];
    }

    /** Emits the last group. */
    method Finalize()
      requires Valid()
      modifies this`output, this`finished
      ensures output == SortedOutput(plan, rows) && EmitsOnce(plan, Runs(plan, rows), output)
    {
      Flush();
      OutputsOnce(plan, finished);
    }
  }

  ghost function WithRun(finished: seq<seq<Row>>, run: seq<Row>): seq<seq<Row>> {
    if run == [] then finished else finished + [run]
  }

  /** The runs of the input are the finished ones and the current one. */
  ghost predicate Split(p: Plan, rows: seq<Row>, finished: seq<seq<Row>>, run: seq<Row>)
    requires PlanOk(p) && RowsOk(p, rows)
  {
    && Runs(p, rows) == WithRun(finished, run)
    && (run == [] ==> finished == []) && (run != [] ==> RunOk(p, run) && run[0] != [])
  }

  lemma SplitCut(p: Plan, rows: seq<Row>, finished: seq<seq<Row>>, run: seq<Row>, r: Row)
    requires PlanOk(p) && RowsOk(p, rows) && |r| == p.width && Split(p, rows, finished, run)
    requires run == [] || Boundary(KeyOf(p, r), KeyOf(p, run[0]))
    ensures RowsOk(p, rows + [r]) && Split(p, rows + [r], WithRun(finished, run), [r])
  {
    assert (rows + [r])[..|rows|] == rows;
  }

  lemma SplitExtend(p: Plan, rows: seq<Row>, finished: seq<seq<Row>>, run: seq<Row>, r: Row)
    requires PlanOk(p) && RowsOk(p, rows) && |r| == p.width && Split(p, rows, finished, run)
    requires run != [] && !Boundary(KeyOf(p, r), KeyOf(p, run[0]))
    ensures RowsOk(p, rows + [r]) && Split(p, rows + [r], finished, run + [r])
  {
    assert (rows + [r])[..|rows|] == rows;
    assert Runs(p, rows)[..|finished|] == finished;
  }

  method CrossesBoundary(p: Plan, r: Row, first: Row) returns (crossed: bool)
    requires PlanOk(p) && |r| == |first| == p.width
    ensures crossed == Boundary(KeyOf(p, r), KeyOf(p, first))
  {
    for i := 0 to |p.groupBy|
      invariant forall j :: 0 <= j < i ==> !Differs(KeyOf(p, r)[j], KeyOf(p, first)[j])
    {
      if Differs(r[p.groupBy[i]], first[p.groupBy[i]]) {
        assert Differs(KeyOf(p, r)[i], KeyOf(p, first)[i]);
        return true;
      }
    }
    return false;
  }
}
