/** What aggregation emits, told by the filter and the projection of the plan. */
module GroupResults {
  import opened Aggregation

  /** The group gives the row `x`: its filter is not false and its first row and aggregates project to `x`. */
  predicate Emits(p: Plan, group: seq<Row>, x: Row) {
    && group != []
    && p.having(group[0], Aggregates(p, group)) != CmpFalse
    && p.project(group[0], Aggregates(p, group)) == x
  }

  lemma OneOutput(p: Plan, group: seq<Row>, x: Row)
    ensures multiset(GroupOutput(p, group))[x] == if Emits(p, group, x) then 1 else 0
  {
  }

  // ----- Over a list of groups -----

  /** How many of the groups give `x`. */
  function Emitting(p: Plan, groups: seq<seq<Row>>, x: Row): nat {
    if groups == [] then 0
    else Emitting(p, groups[..|groups| - 1], x) + if Emits(p, groups[|groups| - 1], x) then 1 else 0
  }

  /** Each group whose filter is not false gives its row once, and nothing else is emitted. */
  ghost predicate EmitsOnce(p: Plan, groups: seq<seq<Row>>, out: seq<Row>) {
    forall x :: multiset(out)[x] == Emitting(p, groups, x)
  }

  lemma {:induction false} OutputsCount(p: Plan, groups: seq<seq<Row>>, x: Row)
    ensures multiset(GroupOutputs(p, groups))[x] == Emitting(p, groups, x)
  {
    if groups != [] {
      OutputsCount(p, groups[..|groups| - 1], x);
      OneOutput(p, groups[|groups| - 1], x);
    }
  }

  lemma OutputsOnce(p: Plan, groups: seq<seq<Row>>)
    ensures EmitsOnce(p, groups, GroupOutputs(p, groups))
  {
    forall x ensures multiset(GroupOutputs(p, groups))[x] == Emitting(p, groups, x) { OutputsCount(p, groups, x); }
  }

  // ----- Over a list of keys without repeats -----

  function Chosen(yes: Row -> bool, order: seq<Row>): set<Row> {
    set k | k in order && yes(k)
  }

  lemma {:induction false} BagCount(f: Row -> multiset<Row>, yes: Row -> bool, order: seq<Row>, x: Row)
    requires NoRepeats(order) && forall k :: f(k)[x] == if yes(k) then 1 else 0
    ensures BagOf(f, order)[x] == |Chosen(yes, order)|
  {
    if order != [] {
      var m := |order| - 1;
      var k := order[m];
      BagCount(f, yes, order[..m], x);
      assert order == order[..m] + [k];
      if yes(k) {
        assert Chosen(yes, order) == Chosen(yes, order[..m]) + {k};
      } else {
        assert Chosen(yes, order) == Chosen(yes, order[..m]);
      }
    }
  }

  // ----- Over the keys of the input -----

  predicate KeyEmits(p: Plan, rows: seq<Row>, k: Row, x: Row) {
    PlanOk(p) && RowsOk(p, rows) && Emits(p, RowsOf(p, rows, k), x)
  }

  function EmittingKeys(p: Plan, rows: seq<Row>, x: Row): set<Row>
    requires PlanOk(p) && RowsOk(p, rows)
  {
    set k | k in KeySet(p, rows) && KeyEmits(p, rows, k, x)
  }

  /** A row comes out as often as there are keys whose filter is not false and whose group projects to it. */
  ghost predicate EmitsByKey(p: Plan, rows: seq<Row>, out: seq<Row>)
    requires PlanOk(p) && RowsOk(p, rows)
  {
    forall x :: multiset(out)[x] == |EmittingKeys(p, rows, x)|
  }

  lemma KeyCount(p: Plan, rows: seq<Row>, k: Row, x: Row)
    requires PlanOk(p) && RowsOk(p, rows)
    ensures KeyOutput(p, rows, k)[x] == if KeyEmits(p, rows, k, x) then 1 else 0
  {
    OneOutput(p, RowsOf(p, rows, k), x);
  }

  lemma GroupedCount(p: Plan, rows: seq<Row>, x: Row)
    requires PlanOk(p) && RowsOk(p, rows)
    ensures multiset(Grouped(p, rows, FirstKeys(p, rows)))[x] == |EmittingKeys(p, rows, x)|
  {
    var keys, f, yes := FirstKeys(p, rows), k => KeyOutput(p, rows, k), k => KeyEmits(p, rows, k, x);
    KeysOnce(p, rows);
    forall k ensures f(k)[x] == if yes(k) then 1 else 0 { KeyCount(p, rows, k, x); }
    BagOfGrouped(p, rows, keys, f);
    BagCount(f, yes, keys, x);
    forall k ensures k in Chosen(yes, keys) <==> k in EmittingKeys(p, rows, x) { FirstKeysAll(p, rows, k); }
    assert Chosen(yes, keys) == EmittingKeys(p, rows, x);
  }

  /** Grouping by key and folding emits one row for each key whose filter is not false. */
  lemma GroupedByKey(p: Plan, rows: seq<Row>)
    requires PlanOk(p) && RowsOk(p, rows)
    ensures EmitsByKey(p, rows, Grouped(p, rows, FirstKeys(p, rows)))
  {
    forall x ensures multiset(Grouped(p, rows, FirstKeys(p, rows)))[x] == |EmittingKeys(p, rows, x)| {
      GroupedCount(p, rows, x);
    }
  }

  /** The same holds of every output with the same rows. */
  lemma ByKeyPermuted(p: Plan, rows: seq<Row>, out: seq<Row>)
    requires PlanOk(p) && RowsOk(p, rows) && multiset(out) == multiset(Grouped(p, rows, FirstKeys(p, rows)))
    ensures EmitsByKey(p, rows, out)
  {
    GroupedByKey(p, rows);
  }

  // ----- The group of a key -----

  /** The group of a key holds each row of that key as often as the input does, and no other row. */
  lemma {:induction false} GroupHolds(p: Plan, rows: seq<Row>, k: Row, r: Row)
    requires PlanOk(p) && RowsOk(p, rows)
    ensures multiset(RowsOf(p, rows, k))[r] == if |r| == p.width && KeyOf(p, r) == k then multiset(rows)[r] else 0
  {
    if rows != [] {
      var m := |rows| - 1;
      GroupHolds(p, rows[..m], k, r);
      assert rows == rows[..m] + [rows[m]];
    } else {
      assert multiset(rows)[r] == 0;
    }
  }

  /** Its first row is the first of that key in the input. */
  lemma {:induction false} GroupStarts(p: Plan, rows: seq<Row>, k: Row, i: nat)
    requires PlanOk(p) && RowsOk(p, rows) && i < |rows| && KeyOf(p, rows[i]) == k
    requires forall j :: 0 <= j < i ==> KeyOf(p, rows[j]) != k
    ensures RowsOf(p, rows, k) != [] && RowsOf(p, rows, k)[0] == rows[i]
  {
    var m := |rows| - 1;
    if i == m {
      KeyPresent(p, rows[..m], k);
      KeysHaveRows(p, rows[..m], k);
    } else {
      GroupStarts(p, rows[..m], k, i);
    }
  }
}
