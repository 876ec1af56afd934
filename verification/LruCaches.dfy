/** The least-recently-used cache: a list of keys, most recent first, beside a map of values. */
module LruCaches {
  import opened Base
  type Key = nat

  datatype Op = Find(key: Key) | Insert(key: Key, value: Value) | DeleteKey(key: Key)

  datatype Lru = Lru(list: seq<Key>, values: map<Key, Value>)

  const EMPTY_CACHE := Lru([], map[])

  // ----- What the operations do -----

  function Without(l: seq<Key>, k: Key): seq<Key> {
    if l == [] then [] else (if l[0] == k then [] else [l[0]]) + Without(l[1..], k)
  }

  function Touch(l: seq<Key>, k: Key): seq<Key> { [k] + Without(l, k) }

  /** Drops keys from the back until the capacity holds. */
  function Evicted(c: Lru, capacity: nat): Lru
    decreases |c.list|
  {
    if |c.list| <= capacity then c
    else Evicted(Lru(c.list[..|c.list| - 1], c.values - {c.list[|c.list| - 1]}), capacity)
  }

  function Step(c: Lru, capacity: nat, op: Op): Lru {
    match op
    case Find(k) => if k in c.values then c.(list := Touch(c.list, k)) else c
    case Insert(k, v) =>
      if k in c.values then Lru(Touch(c.list, k), c.values[k := v])
      else Evicted(Lru([k] + c.list, c.values[k := v]), capacity)
    case DeleteKey(k) => if k in c.values then Lru(Without(c.list, k), c.values - {k}) else c
  }

  function Run(capacity: nat, ops: seq<Op>): Lru {
    if ops == [] then EMPTY_CACHE else Step(Run(capacity, ops[..|ops| - 1]), capacity, ops[|ops| - 1])
  }

  // ----- The list and the map -----

  function Elems(l: seq<Key>): set<Key> { if l == [] then {} else {l[0]} + Elems(l[1..]) }

  ghost predicate NoRepeats(l: seq<Key>) { l == [] || (l[0] !in Elems(l[1..]) && NoRepeats(l[1..])) }

  ghost predicate LruOk(c: Lru) { NoRepeats(c.list) && Elems(c.list) == c.values.Keys }

  lemma {:induction false} ListSize(l: seq<Key>)
    requires NoRepeats(l)
    ensures |l| == |Elems(l)|
  {
    if l != [] { ListSize(l[1..]); }
  }

  lemma {:induction false} WithoutMeans(l: seq<Key>, k: Key)
    ensures Elems(Without(l, k)) == Elems(l) - {k}
    ensures k !in Elems(l) ==> Without(l, k) == l
    ensures NoRepeats(l) ==> NoRepeats(Without(l, k)) && |Without(l, k)| == if k in Elems(l) then |l| - 1 else |l|
  {
    if l != [] {
      var r, rest := Without(l, k), Without(l[1..], k);
      WithoutMeans(l[1..], k);
      if l[0] == k {
        assert r == rest;
      } else {
        assert r[0] == l[0] && r[1..] == rest;
        assert l == [l[0]] + l[1..];
      }
    }
  }

  lemma {:induction false} DropLast(l: seq<Key>)
    requires NoRepeats(l) && l != []
    ensures var m := |l| - 1; l[m] in Elems(l) && Elems(l[..m]) == Elems(l) - {l[m]} && NoRepeats(l[..m])
  {
    var m := |l| - 1;
    if m > 0 {
      assert l[1..][..m - 1] == l[..m][1..];
      DropLast(l[1..]);
    }
  }

  // ----- The cache told by time stamps -----

  /** Every key with its value and the time it was last touched. */
  datatype Stamped = Stamped(clock: nat, entries: map<Key, (Value, nat)>)

  ghost predicate IsOldest(m: map<Key, (Value, nat)>, k: Key) {
    k in m && forall j :: j in m ==> m[k].1 <= m[j].1
  }

  lemma {:induction false} SomeOldest(m: map<Key, (Value, nat)>)
    requires m != map[]
    ensures exists k :: IsOldest(m, k)
    decreases |m|
  {
    var k :| k in m;
    var rest := m - {k};
    if rest == map[] {
      assert forall j :: j in m && j != k ==> j in rest;
      assert IsOldest(m, k);
    } else {
      assert m.Keys == rest.Keys + {k};
      assert |m| == |m.Keys| && |rest| == |rest.Keys|;
      SomeOldest(rest);
      var j :| IsOldest(rest, j);
      assert forall i :: i in m && i != k ==> i in rest;
      assert IsOldest(m, if m[k].1 <= m[j].1 then k else j);
    }
  }

  ghost function Oldest(m: map<Key, (Value, nat)>): (k: Key)
    requires m != map[]
    ensures IsOldest(m, k)
  {
    SomeOldest(m);
    var k :| IsOldest(m, k); k
  }

  /** A full cache makes room by forgetting the key that was touched longest ago. */
  ghost function StampedStep(r: Stamped, capacity: nat, op: Op): Stamped
    requires capacity > 0
  {
    var e := r.entries;
    match op
    case Find(k) => Stamped(r.clock + 1, if k in e then e[k := (e[k].0, r.clock)] else e)
    case Insert(k, v) =>
      var room := if k in e || |e| < capacity then e else e - {Oldest(e)};
      Stamped(r.clock + 1, room[k := (v, r.clock)])
    case DeleteKey(k) => Stamped(r.clock + 1, e - {k})
  }

  ghost function StampedRun(capacity: nat, ops: seq<Op>): Stamped
    requires capacity > 0
  {
    if ops == [] then Stamped(0, map[])
    else StampedStep(StampedRun(capacity, ops[..|ops| - 1]), capacity, ops[|ops| - 1])
  }

  ghost predicate AllBefore(ks: set<Key>, e: map<Key, (Value, nat)>, t: nat) {
    forall k :: k in ks ==> k in e && e[k].1 < t
  }

  /** The list goes from the latest stamp to the earliest. */
  ghost predicate Latest(l: seq<Key>, e: map<Key, (Value, nat)>) {
    l == [] || (l[0] in e && AllBefore(Elems(l[1..]), e, e[l[0]].1) && Latest(l[1..], e))
  }

  ghost function Vals(e: map<Key, (Value, nat)>): map<Key, Value> { map k | k in e :: e[k].0 }

  ghost predicate Matches(c: Lru, r: Stamped) {
    && NoRepeats(c.list) && Elems(c.list) == r.entries.Keys && c.values == Vals(r.entries)
    && Latest(c.list, r.entries) && AllBefore(r.entries.Keys, r.entries, r.clock)
  }

  lemma {:induction false} LatestMeans(l: seq<Key>, e: map<Key, (Value, nat)>, i: nat, j: nat)
    requires Latest(l, e) && i < j < |l|
    ensures l[i] in e && l[j] in e && e[l[i]].1 > e[l[j]].1
  {
    ElemAt(l[1..], j - 1);
    if i > 0 { LatestMeans(l[1..], e, i - 1, j - 1); }
  }

  lemma {:induction false} ElemAt(l: seq<Key>, i: nat)
    requires i < |l|
    ensures l[i] in Elems(l)
  {
    if i > 0 { ElemAt(l[1..], i - 1); }
  }

  lemma {:induction false} LatestWithout(l: seq<Key>, k: Key, e: map<Key, (Value, nat)>, f: map<Key, (Value, nat)>)
    requires Latest(l, e) && forall x :: x in e && x != k ==> x in f && f[x] == e[x]
    ensures Latest(Without(l, k), f)
  {
    if l != [] {
      LatestWithout(l[1..], k, e, f);
      WithoutMeans(l[1..], k);
      var r := Without(l, k);
      if l[0] == k {
        assert r == Without(l[1..], k);
      } else {
        assert r[0] == l[0] && r[1..] == Without(l[1..], k);
      }
    }
  }

  lemma {:induction false} LatestDropLast(l: seq<Key>, e: map<Key, (Value, nat)>)
    requires Latest(l, e) && NoRepeats(l) && l != []
    ensures var m := |l| - 1;
            l[m] in e && Latest(l[..m], e - {l[m]}) && forall k :: k in Elems(l[..m]) ==> k in e && e[l[m]].1 < e[k].1
  {
    var m := |l| - 1;
    if m > 0 {
      var i := l[..m];
      assert i[0] == l[0] && i[1..] == l[1..][..m - 1];
      DropLast(l[1..]);
      LatestDropLast(l[1..], e);
      assert l[1..][m - 1] == l[m];
    }
  }

  /** Putting a key that is not in the list in front of it, at the present time. */
  lemma FrontMatches(l: seq<Key>, e: map<Key, (Value, nat)>, clock: nat, k: Key, v: Value)
    requires NoRepeats(l) && Elems(l) == e.Keys && Latest(l, e) && AllBefore(e.Keys, e, clock) && k !in e
    ensures Matches(Lru([k] + l, Vals(e)[k := v]), Stamped(clock + 1, e[k := (v, clock)]))
  {
    var n, f := [k] + l, e[k := (v, clock)];
    assert n[0] == k && n[1..] == l;
    LatestSame(l, e, f);
    assert Vals(f) == Vals(e)[k := v];
  }

  lemma {:induction false} LatestSame(l: seq<Key>, e: map<Key, (Value, nat)>, f: map<Key, (Value, nat)>)
    requires Latest(l, e) && Elems(l) <= e.Keys && forall x :: x in e ==> x in f && f[x] == e[x]
    ensures Latest(l, f)
  {
    if l != [] { LatestSame(l[1..], e, f); }
  }

  /** The list and the stamps without one key. */
  lemma DeleteMatches(c: Lru, r: Stamped, k: Key)
    requires Matches(c, r)
    ensures Matches(Lru(Without(c.list, k), c.values - {k}), r.(entries := r.entries - {k}))
    ensures |Without(c.list, k)| == if k in c.values then |c.list| - 1 else |c.list|
  {
    WithoutMeans(c.list, k);
    LatestWithout(c.list, k, r.entries, r.entries - {k});
    ValsWithout(r.entries, k);
  }

  lemma ValsWithout(e: map<Key, (Value, nat)>, k: Key)
    ensures Vals(e - {k}) == Vals(e) - {k} && (e - {k}).Keys == e.Keys - {k}
  {
  }

  /** Touching a key now puts it in front. */
  lemma TouchMatches(c: Lru, r: Stamped, k: Key, v: Value)
    requires Matches(c, r) && k in c.values
    ensures Matches(Lru(Touch(c.list, k), c.values[k := v]), Stamped(r.clock + 1, r.entries[k := (v, r.clock)]))
    ensures |Touch(c.list, k)| == |c.list|
  {
    DeleteMatches(c, r, k);
    FrontMatches(Without(c.list, k), r.entries - {k}, r.clock, k, v);
    assert Vals(r.entries - {k})[k := v] == c.values[k := v];
    assert (r.entries - {k})[k := (v, r.clock)] == r.entries[k := (v, r.clock)];
  }

  /** The key at the back is the one touched longest ago. */
  lemma LastIsOldest(c: Lru, r: Stamped)
    requires Matches(c, r) && c.list != []
    ensures var m := |c.list| - 1;
            && r.entries != map[] && Oldest(r.entries) == c.list[m]
            && Matches(Lru(c.list[..m], c.values - {c.list[m]}), r.(entries := r.entries - {c.list[m]}))
  {
    var m := |c.list| - 1;
    DropLast(c.list);
    LatestDropLast(c.list, r.entries);
    assert Vals(r.entries - {c.list[m]}) == c.values - {c.list[m]};
  }

  lemma InsertMatches(c: Lru, r: Stamped, capacity: nat, k: Key, v: Value)
    requires Matches(c, r) && capacity > 0 && |c.list| <= capacity && k !in c.values
    ensures var op := Insert(k, v);
            Matches(Step(c, capacity, op), StampedStep(r, capacity, op)) && |Step(c, capacity, op).list| <= capacity
  {
    ListSize(c.list);
    assert |r.entries| == |r.entries.Keys|;
    if |c.list| < capacity {
      FrontMatches(c.list, r.entries, r.clock, k, v);
    } else {
      var m := |c.list| - 1;
      LastIsOldest(c, r);
      FrontMatches(c.list[..m], r.entries - {c.list[m]}, r.clock, k, v);
      EvictLast(c, k, v);
    }
  }

  /** Inserting into a full cache drops exactly the last key. */
  lemma EvictLast(c: Lru, k: Key, v: Value)
    requires LruOk(c) && c.list != [] && k !in c.values
    ensures var m := |c.list| - 1;
            Step(c, |c.list|, Insert(k, v)) == Lru([k] + c.list[..m], (c.values - {c.list[m]})[k := v])
  {
    var m := |c.list| - 1;
    DropLast(c.list);
    var e := Lru([k] + c.list, c.values[k := v]);
    assert e.list[..|e.list| - 1] == [k] + c.list[..m] && e.list[|e.list| - 1] == c.list[m];
    assert e.values - {c.list[m]} == (c.values - {c.list[m]})[k := v];
    var d := Lru([k] + c.list[..m], (c.values - {c.list[m]})[k := v]);
    assert Evicted(e, |c.list|) == Evicted(d, |c.list|) == d;
  }

  /** Each operation does to the list and the map what it does to the stamped keys. */
  lemma StepMatches(c: Lru, r: Stamped, capacity: nat, op: Op)
    requires Matches(c, r) && capacity > 0 && |c.list| <= capacity
    ensures Matches(Step(c, capacity, op), StampedStep(r, capacity, op)) && |Step(c, capacity, op).list| <= capacity
  {
    match op {
      case Find(k) => FindMatches(c, r, k);
      case DeleteKey(k) => ForgetMatches(c, r, k);
      case Insert(k, v) =>
        if k in c.values { TouchMatches(c, r, k, v); } else { InsertMatches(c, r, capacity, k, v); }
    }
  }

  lemma FindMatches(c: Lru, r: Stamped, k: Key)
    requires Matches(c, r)
    ensures var d := if k in c.values then c.(list := Touch(c.list, k)) else c;
            var e := if k in r.entries then r.entries[k := (r.entries[k].0, r.clock)] else r.entries;
            Matches(d, Stamped(r.clock + 1, e)) && |d.list| == |c.list|
  {
    if k in c.values {
      TouchMatches(c, r, k, c.values[k]);
      assert c.values[k := c.values[k]] == c.values;
    }
  }

  lemma ForgetMatches(c: Lru, r: Stamped, k: Key)
    requires Matches(c, r)
    ensures var d := if k in c.values then Lru(Without(c.list, k), c.values - {k}) else c;
            Matches(d, Stamped(r.clock + 1, r.entries - {k})) && |d.list| <= |c.list|
  {
    if k in c.values {
      DeleteMatches(c, r, k);
    } else {
      assert r.entries - {k} == r.entries;
    }
  }

  /**
   * Over every run the cache holds the stamped keys, in order of last touch and with the values last given; it never
   * grows beyond its capacity, and each eviction removes the key touched longest ago.
   */
  lemma {:induction false} RunMatches(capacity: nat, ops: seq<Op>)
    requires capacity > 0
    ensures Matches(Run(capacity, ops), StampedRun(capacity, ops)) && |Run(capacity, ops).list| <= capacity
  {
    if ops != [] {
      var m := |ops| - 1;
      RunMatches(capacity, ops[..m]);
      StepMatches(Run(capacity, ops[..m]), StampedRun(capacity, ops[..m]), capacity, ops[m]);
    }
  }

  // ----- Without deletions: the most recently touched keys -----

  /** All keys touched, the latest first, when nothing is ever evicted. */
  function Recent(touches: seq<Key>): seq<Key> {
    if touches == [] then [] else Touch(Recent(touches[..|touches| - 1]), touches[|touches| - 1])
  }

  function Take(l: seq<Key>, n: nat): seq<Key> { if |l| <= n then l else l[..n] }

  /** The keys a run touches: insertions, and look-ups that succeed. */
  function Touches(capacity: nat, ops: seq<Op>): seq<Key> {
    if ops == [] then []
    else
      var (before, op) := (Touches(capacity, ops[..|ops| - 1]), ops[|ops| - 1]);
      if op.Insert? || (op.Find? && op.key in Run(capacity, ops[..|ops| - 1]).values) then before + [op.key] else before
  }

  lemma {:induction false} RecentOnce(touches: seq<Key>)
    ensures NoRepeats(Recent(touches))
  {
    if touches != [] {
      var m := |touches| - 1;
      RecentOnce(touches[..m]);
      WithoutMeans(Recent(touches[..m]), touches[m]);
      assert Recent(touches)[1..] == Without(Recent(touches[..m]), touches[m]);
    }
  }

  /** Taking one key out of a prefix, or out of what lies behind it. */
  lemma {:induction false} TakeWithout(l: seq<Key>, k: Key, n: nat)
    requires NoRepeats(l) && n > 0
    ensures k in Elems(Take(l, n)) ==> Take(Without(l, k), n - 1) == Without(Take(l, n), k)
    ensures k !in Elems(Take(l, n)) ==> Take(Without(l, k), n - 1) == Take(l, n - 1)
  {
    if l != [] {
      var t := Take(l, n);
      assert t[0] == l[0] && t[1..] == Take(l[1..], n - 1);
      TakeElems(l[1..], n - 1);
      if l[0] == k {
        WithoutMeans(l[1..], k);
        WithoutMeans(t[1..], k);
      } else if n > 1 {
        TakeWithout(l[1..], k, n - 1);
        TakeCons(l[0], Without(l[1..], k), n - 1);
        TakeCons(l[0], l[1..], n - 1);
        assert Without(l, k) == [l[0]] + Without(l[1..], k);
        assert l == [l[0]] + l[1..];
      }
    }
  }

  lemma TakeCons(x: Key, l: seq<Key>, n: nat)
    requires n > 0
    ensures Take([x] + l, n) == [x] + Take(l, n - 1)
  {
  }

  lemma {:induction false} TakeElems(l: seq<Key>, n: nat)
    ensures Elems(Take(l, n)) <= Elems(l)
  {
    if l != [] && n > 0 {
      TakeElems(l[1..], n - 1);
      assert Take(l, n)[1..] == Take(l[1..], n - 1);
    }
  }

  /**
   * Without deletions the cache holds the most recently touched keys, as many as fit, in that order: a key is there
   * exactly when fewer than `capacity` others were touched after it.
   */
  lemma {:induction false} HoldsMostRecent(capacity: nat, ops: seq<Op>)
    requires capacity > 0 && forall i :: 0 <= i < |ops| ==> !ops[i].DeleteKey?
    ensures Run(capacity, ops).list == Take(Recent(Touches(capacity, ops)), capacity)
  {
    if ops != [] {
      var m := |ops| - 1;
      var c, l := Run(capacity, ops[..m]), Recent(Touches(capacity, ops[..m]));
      HoldsMostRecent(capacity, ops[..m]);
      RunMatches(capacity, ops[..m]);
      var op := ops[m];
      if op.Insert? || op.key in c.values {
        var touches := Touches(capacity, ops[..m]);
        assert (touches + [op.key])[..|touches|] == touches;
        RecentOnce(touches);
        TouchHolds(c, capacity, l, op);
      }
    }
  }

  lemma TouchHolds(c: Lru, capacity: nat, l: seq<Key>, op: Op)
    requires capacity > 0 && NoRepeats(l) && LruOk(c) && c.list == Take(l, capacity)
    requires op.Insert? || (op.Find? && op.key in c.values)
    ensures Step(c, capacity, op).list == Take(Touch(l, op.key), capacity)
  {
    TakeWithout(l, op.key, capacity);
    TakeCons(op.key, Without(l, op.key), capacity);
    if op.key !in c.values {
      if |c.list| == capacity {
        EvictLast(c, op.key, op.value);
        assert Take(l, capacity - 1) == c.list[..|c.list| - 1];
      } else {
        assert Take(l, capacity - 1) == l;
      }
    }
  }

  // ----- The cache -----

  class Cache {
    const capacity: nat
    var list: seq<Key>
    var values: map<Key, Value>

    ghost function View(): Lru
      reads this
    {
      Lru(list, values)
    }

    ghost predicate Valid()
      reads this
    {
      LruOk(View()) && |list| <= capacity
    }

    constructor (capacity: nat)
      ensures Valid() && this.capacity == capacity && View() == EMPTY_CACHE
    {
      this.capacity := capacity;
      list, values := [], map[];
    }

    /** Looks a key up and makes it the most recent one. */
    method Find(k: Key) returns (v: Option<Value>)
      requires Valid()
      modifies this`list
      ensures Valid() && View() == Step(old(View()), capacity, Op.Find(k))
      ensures v == if k in values then Some(values[k]) else None
    {
      if k in values {
        WithoutMeans(list, k);
        assert Touch(list, k)[1..] == Without(list, k);
        list := Touch(list, k);
        v := Some(values[k]);
      } else {
        v := None;
      }
    }

    /** Inserts or updates a value, makes its key the most recent one, and evicts from the back. */
    method Insert(k: Key, v: Value)
      requires Valid()
      modifies this
      ensures Valid() && View() == Step(old(View()), capacity, Op.Insert(k, v))
    {
      StepOk(View(), k, v);
      if k !in values {
        list := [k] + list;
        values := values[k := v];
        Evict();
      } else {
        list := Touch(list, k);
        values := values[k := v];
      }
    }

    method Evict()
      requires LruOk(View())
      modifies this
      ensures Valid() && View() == Evicted(old(View()), capacity)
    {
      SizesAgree(View());
      while |values| > capacity
        invariant LruOk(View()) && |list| == |values|
        invariant Evicted(View(), capacity) == Evicted(old(View()), capacity)
        decreases |list|
      {
        DropLast(list);
        var last := list[|list| - 1];
        values := values - {last};
        list := list[..|list| - 1];
        SizesAgree(View());
      }
    }

    method DeleteKey(k: Key)
      requires Valid()
      modifies this
      ensures Valid() && View() == Step(old(View()), capacity, Op.DeleteKey(k))
    {
      if k in values {
        WithoutMeans(list, k);
        list := Without(list, k);
        values := values - {k};
      }
    }

    method Size() returns (n: nat)
      requires Valid()
      ensures n == |list| <= capacity
    {
      SizesAgree(View());
      n := |values|;
    }
  }

  lemma StepOk(c: Lru, k: Key, v: Value)
    requires LruOk(c)
    ensures k !in c.values ==> LruOk(Lru([k] + c.list, c.values[k := v]))
    ensures k in c.values ==> LruOk(Lru(Touch(c.list, k), c.values[k := v])) && |Touch(c.list, k)| == |c.list|
  {
    WithoutMeans(c.list, k);
    assert Touch(c.list, k)[1..] == Without(c.list, k);
    assert ([k] + c.list)[1..] == c.list;
  }

  lemma SizesAgree(c: Lru)
    requires LruOk(c)
    ensures |c.list| == |c.values|
  {
    ListSize(c.list);
    assert |c.values| == |c.values.Keys|;
  }
}
