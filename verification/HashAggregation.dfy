/** Hash aggregation fed one row at a time, with the table's own comparison of keys. */
module HashAggregation {
  import opened Aggregation
  import opened Aggregators
  import opened GroupResults

  // ----- Where rows are put -----

  /** The table takes two keys for the same when they hash alike and no column definitely differs. */
  predicate Matches(hash: Row -> nat, k: Row, l: Row) {
    |k| == |l| && hash(k) == hash(l) && !Boundary(k, l)
  }

  /** Row `i` went under a stored key that matches its own, or under its own key when none did. */
  predicate PlacedAt(hash: Row -> nat, p: Plan, rows: seq<Row>, homes: seq<Row>, i: nat)
    requires PlanOk(p) && RowsOk(p, rows) && |rows| == |homes| && i < |rows|
  {
    var k := KeyOf(p, rows[i]);
    if homes[i] in homes[..i] then Matches(hash, k, homes[i])
    else homes[i] == k && forall l :: l in homes[..i] ==> !Matches(hash, k, l)
  }

  ghost predicate Placed(hash: Row -> nat, p: Plan, rows: seq<Row>, homes: seq<Row>)
    requires PlanOk(p) && RowsOk(p, rows)
  {
    && |rows| == |homes|
    && forall i {:trigger PlacedAt(hash, p, rows, homes, i)} :: 0 <= i < |rows| ==> PlacedAt(hash, p, rows, homes, i)
  }

  lemma PlacedMore(hash: Row -> nat, p: Plan, rows: seq<Row>, homes: seq<Row>, r: Row, home: Row)
    requires PlanOk(p) && RowsOk(p, rows) && |r| == p.width && Placed(hash, p, rows, homes)
    requires if home in homes then Matches(hash, KeyOf(p, r), home)
             else home == KeyOf(p, r) && forall l :: l in homes ==> !Matches(hash, KeyOf(p, r), l)
    ensures Placed(hash, p, rows + [r], homes + [home])
  {
    var more, now := rows + [r], homes + [home];
    forall i | 0 <= i < |more| ensures PlacedAt(hash, p, more, now, i) {
      assert now[..i] == homes[..i];
      if i < |rows| { assert PlacedAt(hash, p, rows, homes, i); } else { assert homes[..i] == homes; }
    }
  }

  // ----- When that is grouping by key -----

  /** Each row is under its own key. */
  ghost predicate ByKey(p: Plan, rows: seq<Row>, homes: seq<Row>)
    requires PlanOk(p) && RowsOk(p, rows) && |rows| == |homes|
  {
    forall i :: 0 <= i < |rows| ==> homes[i] == KeyOf(p, rows[i])
  }

  /** No two keys that differ are taken for the same. */
  ghost predicate ToldApart(hash: Row -> nat, p: Plan, rows: seq<Row>)
    requires PlanOk(p) && RowsOk(p, rows)
  {
    forall i, j :: 0 <= i < |rows| && 0 <= j < |rows| && Matches(hash, KeyOf(p, rows[i]), KeyOf(p, rows[j])) ==>
      KeyOf(p, rows[i]) == KeyOf(p, rows[j])
  }

  lemma {:induction false} ToldApartPlaces(hash: Row -> nat, p: Plan, rows: seq<Row>, homes: seq<Row>, i: nat)
    requires PlanOk(p) && RowsOk(p, rows) && Placed(hash, p, rows, homes) && ToldApart(hash, p, rows) && i < |rows|
    ensures homes[i] == KeyOf(p, rows[i])
  {
    assert PlacedAt(hash, p, rows, homes, i);
    if homes[i] in homes[..i] {
      var j :| 0 <= j < i && homes[..i][j] == homes[i];
      ToldApartPlaces(hash, p, rows, homes, j);
      assert Matches(hash, KeyOf(p, rows[i]), KeyOf(p, rows[j]));
    }
  }

  lemma MatchesBothWays(hash: Row -> nat, k: Row, l: Row)
    ensures Matches(hash, k, l) ==> Matches(hash, l, k)
  {
  }

  /** The first row of a key. */
  lemma {:induction false} FirstOf(p: Plan, rows: seq<Row>, i: nat) returns (m: nat)
    requires PlanOk(p) && RowsOk(p, rows) && i < |rows|
    ensures m <= i && KeyOf(p, rows[m]) == KeyOf(p, rows[i])
    ensures forall j :: 0 <= j < m ==> KeyOf(p, rows[j]) != KeyOf(p, rows[i])
  {
    m := i;
    if j :| 0 <= j < i && KeyOf(p, rows[j]) == KeyOf(p, rows[i]) { m := FirstOf(p, rows, j); }
  }

  /** Of two keys that differ, the later one to come was compared with the earlier one. */
  lemma LaterCompared(hash: Row -> nat, p: Plan, rows: seq<Row>, homes: seq<Row>, i: nat, j: nat)
    requires PlanOk(p) && RowsOk(p, rows) && Placed(hash, p, rows, homes) && ByKey(p, rows, homes) && i < j < |rows|
    requires forall m :: 0 <= m < j ==> KeyOf(p, rows[m]) != KeyOf(p, rows[j])
    ensures !Matches(hash, KeyOf(p, rows[j]), KeyOf(p, rows[i]))
  {
    assert PlacedAt(hash, p, rows, homes, j);
    assert homes[..j][i] == KeyOf(p, rows[i]);
    assert forall m :: 0 <= m < j ==> homes[..j][m] == KeyOf(p, rows[m]);
  }

  lemma ByKeyTellsApart(hash: Row -> nat, p: Plan, rows: seq<Row>, homes: seq<Row>, i: nat, j: nat)
    requires PlanOk(p) && RowsOk(p, rows) && Placed(hash, p, rows, homes) && ByKey(p, rows, homes)
    requires i < |rows| && j < |rows| && KeyOf(p, rows[i]) != KeyOf(p, rows[j])
    ensures !Matches(hash, KeyOf(p, rows[i]), KeyOf(p, rows[j]))
  {
    var a := FirstOf(p, rows, i);
    var b := FirstOf(p, rows, j);
    if a < b { LaterCompared(hash, p, rows, homes, a, b); } else { LaterCompared(hash, p, rows, homes, b, a); }
    MatchesBothWays(hash, KeyOf(p, rows[i]), KeyOf(p, rows[j]));
  }

  /** The rows are grouped by key if and only if the table takes no two different keys for the same. */
  lemma ByKeyIff(hash: Row -> nat, p: Plan, rows: seq<Row>, homes: seq<Row>)
    requires PlanOk(p) && RowsOk(p, rows) && Placed(hash, p, rows, homes)
    ensures ByKey(p, rows, homes) <==> ToldApart(hash, p, rows)
  {
    if ToldApart(hash, p, rows) {
      forall i: nat | i < |rows| ensures homes[i] == KeyOf(p, rows[i]) { ToldApartPlaces(hash, p, rows, homes, i); }
    }
    if ByKey(p, rows, homes) {
      forall i: nat, j: nat | i < |rows| && j < |rows| && KeyOf(p, rows[i]) != KeyOf(p, rows[j])
        ensures !Matches(hash, KeyOf(p, rows[i]), KeyOf(p, rows[j]))
      {
        ByKeyTellsApart(hash, p, rows, homes, i, j);
      }
    }
  }

  /** A row whose key matches the one stored first joins its group, though the keys differ. */
  lemma MatchingKeyJoins(hash: Row -> nat, p: Plan, r: Row, n: Row, homes: seq<Row>)
    requires PlanOk(p) && |r| == |n| == p.width && KeyOf(p, r) != KeyOf(p, n)
    requires Matches(hash, KeyOf(p, n), KeyOf(p, r)) && Placed(hash, p, [r, n], homes)
    ensures homes == [KeyOf(p, r), KeyOf(p, r)]
  {
    assert PlacedAt(hash, p, [r, n], homes, 0) && PlacedAt(hash, p, [r, n], homes, 1);
    assert homes[..0] == [] && homes[..1] == [homes[0]];
  }

  /** Keys without NULL are told apart, whatever their hash values. */
  lemma NonNullToldApart(hash: Row -> nat, p: Plan, rows: seq<Row>)
    requires PlanOk(p) && RowsOk(p, rows) && KeysNonNull(p, rows)
    ensures ToldApart(hash, p, rows)
  {
    forall i, j | 0 <= i < |rows| && 0 <= j < |rows| && Matches(hash, KeyOf(p, rows[i]), KeyOf(p, rows[j]))
      ensures KeyOf(p, rows[i]) == KeyOf(p, rows[j])
    {
      BoundaryIff(KeyOf(p, rows[i]), KeyOf(p, rows[j]));
    }
  }

  // ----- The groups -----

  /** The rows put under `l`, in order. */
  function RowsAt(rows: seq<Row>, homes: seq<Row>, l: Row): seq<Row>
    requires |rows| == |homes|
  {
    if rows == [] then []
    else
      var m := |rows| - 1;
      RowsAt(rows[..m], homes[..m], l) + if homes[m] == l then [rows[m]] else []
  }

  lemma RowsAtStep(rows: seq<Row>, homes: seq<Row>, r: Row, home: Row, l: Row)
    requires |rows| == |homes|
    ensures RowsAt(rows + [r], homes + [home], l) == RowsAt(rows, homes, l) + if home == l then [r] else []
  {
    assert (rows + [r])[..|rows|] == rows && (homes + [home])[..|homes|] == homes;
  }

  lemma {:induction false} RowsAtHome(rows: seq<Row>, homes: seq<Row>, l: Row)
    requires |rows| == |homes|
    ensures RowsAt(rows, homes, l) != [] <==> l in homes
  {
    if rows != [] {
      var m := |rows| - 1;
      RowsAtHome(rows[..m], homes[..m], l);
      assert homes == homes[..m] + [homes[m]];
    }
  }

  /** Under its own key each row is in the group of that key. */
  lemma {:induction false} ByKeyRows(p: Plan, rows: seq<Row>, homes: seq<Row>, k: Row)
    requires PlanOk(p) && RowsOk(p, rows) && |rows| == |homes| && ByKey(p, rows, homes)
    ensures RowsAt(rows, homes, k) == RowsOf(p, rows, k)
    ensures k in homes <==> k in FirstKeys(p, rows)
  {
    if rows != [] {
      var m := |rows| - 1;
      ByKeyRows(p, rows[..m], homes[..m], k);
      assert homes == homes[..m] + [homes[m]];
      RowsOfGrown(p, rows, k);
    }
  }

  /** Fold the rows under each key, in a given order of the keys. */
  function FoldedAt(p: Plan, rows: seq<Row>, homes: seq<Row>, order: seq<Row>): seq<Row>
    requires |rows| == |homes|
  {
    if order == [] then []
    else FoldedAt(p, rows, homes, order[..|order| - 1]) + GroupOutput(p, RowsAt(rows, homes, order[|order| - 1]))
  }

  lemma FoldedStep(p: Plan, rows: seq<Row>, homes: seq<Row>, order: seq<Row>, k: Row)
    requires |rows| == |homes|
    ensures FoldedAt(p, rows, homes, order + [k]) ==
            FoldedAt(p, rows, homes, order) + GroupOutput(p, RowsAt(rows, homes, k))
  {
    assert (order + [k])[..|order|] == order;
  }

  predicate HomeEmits(p: Plan, rows: seq<Row>, homes: seq<Row>, l: Row, x: Row) {
    |rows| == |homes| && Emits(p, RowsAt(rows, homes, l), x)
  }

  function EmittingHomes(p: Plan, rows: seq<Row>, homes: seq<Row>, x: Row): set<Row> {
    set l | l in homes && HomeEmits(p, rows, homes, l, x)
  }

  /** A row comes out as often as there are homes whose filter is not false and whose rows project to it. */
  ghost predicate EmitsByHome(p: Plan, rows: seq<Row>, homes: seq<Row>, out: seq<Row>) {
    forall x :: multiset(out)[x] == |EmittingHomes(p, rows, homes, x)|
  }

  function HomeOutput(p: Plan, rows: seq<Row>, homes: seq<Row>, l: Row): multiset<Row> {
    if |rows| == |homes| then multiset(GroupOutput(p, RowsAt(rows, homes, l))) else multiset{}
  }

  lemma {:induction false} BagOfFolded(
      p: Plan, rows: seq<Row>, homes: seq<Row>, order: seq<Row>, f: Row -> multiset<Row>)
    requires |rows| == |homes| && forall l :: f(l) == HomeOutput(p, rows, homes, l)
    ensures multiset(FoldedAt(p, rows, homes, order)) == BagOf(f, order)
  {
    if order != [] { BagOfFolded(p, rows, homes, order[..|order| - 1], f); }
  }

  lemma ListedOnce(order: seq<Row>, s: set<Row>)
    requires multiset(order) == multiset(s)
    ensures NoRepeats(order) && forall l :: l in order <==> l in s
  {
    forall i, j | 0 <= i < j < |order| ensures order[i] != order[j] {
      assert order == order[..j] + [order[j]] + order[j + 1..];
      assert multiset(s)[order[j]] <= 1;
      assert order[..j][i] in multiset(order[..j]);
    }
    forall l ensures l in order <==> l in s { assert l in multiset(order) <==> l in multiset(s); }
  }

  lemma FoldedCount(p: Plan, rows: seq<Row>, homes: seq<Row>, order: seq<Row>, x: Row)
    requires |rows| == |homes| && multiset(order) == multiset(set l | l in homes)
    ensures multiset(FoldedAt(p, rows, homes, order))[x] == |EmittingHomes(p, rows, homes, x)|
  {
    var f, yes := l => HomeOutput(p, rows, homes, l), l => HomeEmits(p, rows, homes, l, x);
    ListedOnce(order, set l | l in homes);
    forall l ensures f(l)[x] == if yes(l) then 1 else 0 { OneOutput(p, RowsAt(rows, homes, l), x); }
    BagOfFolded(p, rows, homes, order, f);
    BagCount(f, yes, order, x);
    assert Chosen(yes, order) == EmittingHomes(p, rows, homes, x);
  }

  /** Folding each home once emits one row for each home whose filter is not false. */
  lemma FoldedByHome(p: Plan, rows: seq<Row>, homes: seq<Row>, order: seq<Row>)
    requires |rows| == |homes| && multiset(order) == multiset(set l | l in homes)
    ensures EmitsByHome(p, rows, homes, FoldedAt(p, rows, homes, order))
  {
    forall x ensures multiset(FoldedAt(p, rows, homes, order))[x] == |EmittingHomes(p, rows, homes, x)| {
      FoldedCount(p, rows, homes, order, x);
    }
  }

  lemma {:induction false} ByKeyFolded(p: Plan, rows: seq<Row>, homes: seq<Row>, order: seq<Row>)
    requires PlanOk(p) && RowsOk(p, rows) && |rows| == |homes| && ByKey(p, rows, homes)
    ensures FoldedAt(p, rows, homes, order) == Grouped(p, rows, order)
  {
    if order != [] {
      ByKeyFolded(p, rows, homes, order[..|order| - 1]);
      ByKeyRows(p, rows, homes, order[|order| - 1]);
    }
  }

  /** Listing each home once is then listing each key once. */
  lemma ByKeyOrder(p: Plan, rows: seq<Row>, homes: seq<Row>, order: seq<Row>)
    requires PlanOk(p) && RowsOk(p, rows) && |rows| == |homes| && ByKey(p, rows, homes)
    requires multiset(order) == multiset(set l | l in homes)
    ensures multiset(order) == multiset(FirstKeys(p, rows))
  {
    FirstKeysBag(p, rows);
    forall k ensures k in (set l | l in homes) <==> k in KeySet(p, rows) {
      ByKeyRows(p, rows, homes, k);
      FirstKeysAll(p, rows, k);
    }
    assert (set l | l in homes) == KeySet(p, rows);
  }

  // ----- The aggregator -----

  datatype Group = Group(first: Row, aggs: seq<Attribute>)

  ghost predicate IsGroup(p: Plan, g: Group, rows: seq<Row>) {
    rows != [] && g == Group(rows[0], AggsAfter(p, rows))
  }

  /** The table holds the groups. */
  ghost predicate HoldsGroups(p: Plan, groups: map<Row, Group>, rows: seq<Row>, homes: seq<Row>)
    requires |rows| == |homes|
  {
    forall l {:trigger GroupAt(p, groups, rows, homes, l)} :: GroupAt(p, groups, rows, homes, l)
  }

  ghost predicate GroupAt(p: Plan, groups: map<Row, Group>, rows: seq<Row>, homes: seq<Row>, l: Row)
    requires |rows| == |homes|
  {
    (l in groups <==> l in homes) && (l in groups ==> IsGroup(p, groups[l], RowsAt(rows, homes, l)))
  }

  /** The entry for a row: that of the group so far, or a new one that starts with the row. */
  lemma GroupFound(p: Plan, rows: seq<Row>, homes: seq<Row>, r: Row, home: Row, groups: map<Row, Group>, g: Group)
    requires |rows| == |homes| && HoldsGroups(p, groups, rows, homes)
    requires g == if home in groups then groups[home] else Group(r, NewAggregates(p))
    ensures var group := RowsAt(rows, homes, home); g == Group((group + [r])[0], AggsAfter(p, group))
  {
    RowsAtHome(rows, homes, home);
    assert GroupAt(p, groups, rows, homes, home);
  }

  lemma GroupsAdvance(p: Plan, rows: seq<Row>, homes: seq<Row>, r: Row, home: Row, groups: map<Row, Group>, g: Group)
    requires |rows| == |homes| && HoldsGroups(p, groups, rows, homes)
    requires var group := RowsAt(rows, homes, home) + [r]; g == Group(group[0], AggsAfter(p, group))
    ensures HoldsGroups(p, groups[home := g], rows + [r], homes + [home])
  {
    var now, more, all := groups[home := g], rows + [r], homes + [home];
    forall l ensures GroupAt(p, now, more, all, l) {
      assert GroupAt(p, groups, rows, homes, l);
      GroupAdvances(p, rows, homes, r, home, groups, g, l);
    }
  }

  lemma GroupAdvances(
      p: Plan, rows: seq<Row>, homes: seq<Row>, r: Row, home: Row, groups: map<Row, Group>, g: Group, l: Row)
    requires |rows| == |homes| && GroupAt(p, groups, rows, homes, l)
    requires var group := RowsAt(rows, homes, home) + [r]; g == Group(group[0], AggsAfter(p, group))
    ensures GroupAt(p, groups[home := g], rows + [r], homes + [home], l)
  {
    RowsAtStep(rows, homes, r, home, l);
    var was := RowsAt(rows, homes, l);
    assert was + [] == was;
  }

  lemma HomesStored(p: Plan, groups: map<Row, Group>, rows: seq<Row>, homes: seq<Row>)
    requires |rows| == |homes| && HoldsGroups(p, groups, rows, homes)
    ensures groups.Keys == set l | l in homes
  {
    forall l ensures l in groups <==> l in homes { assert GroupAt(p, groups, rows, homes, l); }
  }

  class HashAggregator {
    const plan: Plan
    const hash: Row -> nat
    var groups: map<Row, Group>
    var output: seq<Row>
    ghost var rows: seq<Row>
    ghost var homes: seq<Row>

    ghost predicate Valid()
      reads this
    {
      && PlanOk(plan) && RowsOk(plan, rows) && Placed(hash, plan, rows, homes)
      && HoldsGroups(plan, groups, rows, homes)
    }

    constructor (p: Plan, h: Row -> nat)
      requires PlanOk(p)
      ensures Valid() && plan == p && hash == h && rows == [] && output == []
    {
      plan, hash, groups, output, rows, homes := p, h, map[], [], [], [];
    }

    /** Any entry that the table takes for the key. */
    method Find(k: Row) returns (home: Row)
      requires Valid()
      ensures if home in groups then Matches(hash, k, home)
              else home == k && forall l :: l in groups ==> !Matches(hash, k, l)
    {
      home := k;
      var rest := groups.Keys;
      while rest != {}
        invariant home == k && rest <= groups.Keys
        invariant forall l :: l in groups && l !in rest ==> !Matches(hash, k, l)
        decreases |rest|
      {
        var l :| l in rest;
        if Matches(hash, k, l) {
          return l;
        }
        rest := rest - {l};
      }
      SelfMatches(hash, k);
    }

    method Advance(r: Row)
      requires Valid() && |r| == plan.width
      modifies this`groups, this`rows, this`homes
      ensures Valid() && rows == old(rows) + [r] && old(homes) <= homes
    {
      var home := Find(KeyOf(plan, r));
      var g := if home in groups then groups[home] else Group(r, NewAggregates(plan));
      GroupFound(plan, rows, homes, r, home, groups, g);
      var next := AdvanceAll(plan, g.aggs, r, RowsAt(rows, homes, home));
      GroupsAdvance(plan, rows, homes, r, home, groups, g.(aggs := next));
      assert forall l :: l in groups <==> l in homes by { HomesStored(plan, groups, rows, homes); }
      PlacedMore(hash, plan, rows, homes, r, home);
      groups := groups[home := g.(aggs := next)];
      rows, homes := rows + [r], homes + [home];
    }

    method Consume(input: seq<Row>)
      requires Valid() && RowsOk(plan, input)
      modifies this`groups, this`rows, this`homes
      ensures Valid() && rows == old(rows) + input
    {
      for i := 0 to |input|
        invariant Valid() && rows == old(rows) + input[..i]
      {
        Advance(input[i]);
        assert input[..i + 1] == input[..i] + [input[i]];
      }
      assert input[..|input|] == input;
    }

    /** Emits every group, in whatever order the table is walked. */
    method Finalize() returns (ghost order: seq<Row>)
      requires Valid()
      modifies this`output
      ensures output == old(output) + FoldedAt(plan, rows, homes, order)
      ensures multiset(order) == multiset(set l | l in homes)
      ensures ToldApart(hash, plan, rows) ==>
                output == old(output) + Grouped(plan, rows, order) && multiset(order) == multiset(FirstKeys(plan, rows))
      ensures EmitsByHome(plan, rows, homes, output[|old(output)|..])
    {
      var keys := Enumerate(groups.Keys);
      assert forall i :: 0 <= i < |keys| ==> keys[i] in multiset(keys);
      EmitAll(keys);
      order := keys;
      HomesStored(plan, groups, rows, homes);
      FoldedByHome(plan, rows, homes, order);
      assert output[|old(output)|..] == FoldedAt(plan, rows, homes, order);
      ByKeyIff(hash, plan, rows, homes);
      if ToldApart(hash, plan, rows) {
        ByKeyFolded(plan, rows, homes, order);
        ByKeyOrder(plan, rows, homes, order);
      }
    }

    method EmitAll(keys: seq<Row>)
      requires Valid() && forall i :: 0 <= i < |keys| ==> keys[i] in groups
      modifies this`output
      ensures output == old(output) + FoldedAt(plan, rows, homes, keys)
    {
      ghost var order: seq<Row> := [];
      for i := 0 to |keys|
        invariant order == keys[..i] && output == old(output) + FoldedAt(plan, rows, homes, order)
      {
        EmitNext(keys[i], old(output), order);
        order := order + [keys[i]];
      }
      assert order == keys;
    }

    method EmitNext(k: Row, ghost before: seq<Row>, ghost order: seq<Row>)
      requires Valid() && k in groups && output == before + FoldedAt(plan, rows, homes, order)
      modifies this`output
      ensures output == before + FoldedAt(plan, rows, homes, order + [k])
    {
      EmitGroup(k);
      FoldedStep(plan, rows, homes, order, k);
    }

    method EmitGroup(k: Row)
      requires Valid() && k in groups
      modifies this`output
      ensures output == old(output) + GroupOutput(plan, RowsAt(rows, homes, k))
    {
      assert GroupAt(plan, groups, rows, homes, k);
      var out := Helper(plan, groups[k].first, groups[k].aggs, RowsAt(rows, homes, k));
      output := output + out;
    }
  }

  lemma SelfMatches(hash: Row -> nat, k: Row)
    ensures Matches(hash, k, k)
  {
  }

  /** The keys of the table in any order. */
  method Enumerate(keys: set<Row>) returns (order: seq<Row>)
    ensures multiset(order) == multiset(keys)
  {
    order := [];
    var rest := keys;
    while rest != {}
      invariant multiset(order) + multiset(rest) == multiset(keys)
      decreases rest
    {
      var k :| k in rest;
      TakeOne(rest, k);
      order := order + [k];
      rest := rest - {k};
    }
  }

  lemma TakeOne(s: set<Row>, k: Row)
    requires k in s
    ensures multiset(s) == multiset(s - {k}) + multiset{k}
  {
  }

  // ----- Both aggregators on one input -----

  method AggregateHashed(p: Plan, hash: Row -> nat, rows: seq<Row>) returns (out: seq<Row>)
    requires PlanOk(p) && RowsOk(p, rows)
    ensures ToldApart(hash, p, rows) ==> EmitsByKey(p, rows, out)
    ensures ToldApart(hash, p, rows) ==> multiset(out) == multiset(Grouped(p, rows, FirstKeys(p, rows)))
  {
    var h := new HashAggregator(p, hash);
    h.Consume(rows);
    assert [] + rows == rows;
    var order := h.Finalize();
    out := h.output;
    if ToldApart(hash, p, rows) {
      GroupedPermute(p, rows, order, FirstKeys(p, rows));
      ByKeyPermuted(p, rows, out);
    }
  }

  method AggregateSorted(p: Plan, rows: seq<Row>) returns (out: seq<Row>)
    requires PlanOk(p) && RowsOk(p, rows)
    ensures out == SortedOutput(p, rows)
  {
    var s := new SortedAggregator(p);
    s.Consume(rows);
    assert [] + rows == rows;
    s.Finalize();
    out := s.output;
  }

  /** Fed the same rows, each aggregator emits one row for every key whose filter is not false: the sorted one whenever
      equal keys stand together and it sees every change of key, the other one whenever its table tells all keys
      apart.  When both hold, they emit the same rows up to their order. */
  method AggregateBothWays(p: Plan, hash: Row -> nat, rows: seq<Row>) returns (sorted: seq<Row>, hashed: seq<Row>)
    requires PlanOk(p) && RowsOk(p, rows)
    ensures Adjacent(p, rows) && ChangesSeen(p, rows) ==> EmitsByKey(p, rows, sorted)
    ensures ToldApart(hash, p, rows) ==> EmitsByKey(p, rows, hashed)
    ensures Adjacent(p, rows) && ChangesSeen(p, rows) && ToldApart(hash, p, rows) ==>
              multiset(sorted) == multiset(hashed)
  {
    sorted := AggregateSorted(p, rows);
    hashed := AggregateHashed(p, hash, rows);
    if Adjacent(p, rows) && ChangesSeen(p, rows) {
      SortedAndHashAgree(p, rows, FirstKeys(p, rows));
      ByKeyPermuted(p, rows, sorted);
    }
  }
}
