/** Open addressing with linear probing: what a bucket array means and which arrays can be probed. */
module OpenAddressing {
  type Key = seq<int>
  type Val = int

  /** The inline value is the first one stored for the key; further values move to a list with a copy of it. */
  datatype Bucket =
    | Free
    | Single(hash: nat, key: Key, inline: Val)
    | Multi(hash: nat, key: Key, inline: Val, list: seq<Val>)

  function Values(x: Bucket): (r: seq<Val>) {
    match x
    case Free => []
    case Single(_, _, v) => [v]
    case Multi(_, _, _, vs) => vs
  }

  /** The bucket after one more value for its key. */
  function Appended(x: Bucket, v: Val): Bucket
    requires !x.Free?
  {
    match x
    case Single(h, k, w) => Multi(h, k, w, [w, v])
    case Multi(h, k, w, vs) => Multi(h, k, w, vs + [v])
  }

  lemma AppendedValues(x: Bucket, v: Val)
    requires !x.Free? && (x.Multi? ==> |x.list| >= 2)
    ensures Values(Appended(x, v)) == Values(x) + [v]
    ensures var y := Appended(x, v); y.Multi? && y.hash == x.hash && y.key == x.key && |y.list| >= 2
  {
  }

  // ----- The bucket mask -----

  function Pow2(e: nat): (r: nat)
    ensures r > 0
  {
    if e == 0 then 1 else 2 * Pow2(e - 1)
  }

  ghost predicate IsPow2(n: nat) { exists e: nat :: n == Pow2(e) }

  function BitAnd(a: nat, b: nat): nat {
    if a == 0 || b == 0 then 0
    else 2 * BitAnd(a / 2, b / 2) + (if a % 2 == 1 && b % 2 == 1 then 1 else 0)
  }

  /** The bucket a hash value starts probing at. */
  function Home(n: nat, hash: nat): nat
    requires n > 0
  {
    BitAnd(n - 1, hash)
  }

  lemma MaskStep(p: nat, h: nat)
    requires p > 0
    ensures BitAnd(2 * p - 1, h) == 2 * BitAnd(p - 1, h / 2) + h % 2
  {
    assert (2 * p - 1) / 2 == p - 1 && (2 * p - 1) % 2 == 1;
  }

  lemma {:induction false} MaskIsRemainder(e: nat, h: nat)
    ensures BitAnd(Pow2(e) - 1, h) == h % Pow2(e)
  {
    if e > 0 {
      var p := Pow2(e - 1);
      MaskStep(p, h);
      MaskIsRemainder(e - 1, h / 2);
      HalfRemainder(h, p);
    }
  }

  lemma HalfRemainder(h: nat, p: nat)
    requires p > 0
    ensures h % (2 * p) == 2 * (h / 2 % p) + h % 2
  {
    var q, r := h / 2 / p, h / 2 % p;
    assert h / 2 == p * q + r;
    assert h == (2 * p) * q + (2 * r + h % 2) by {
      assert h == 2 * (h / 2) + h % 2;
      assert 2 * (p * q) == (2 * p) * q;
    }
    RemainderUnique(h, 2 * p, q, 2 * r + h % 2);
  }

  lemma RemainderUnique(h: nat, m: nat, q: nat, r: nat)
    requires m > 0 && r < m && h == m * q + r
    ensures h % m == r
  {
    var d := h / m - q;
    assert h == m * (h / m) + h % m;
    assert m * d == r - h % m by { assert m * d == m * (h / m) - m * q; }
    ProductSign(m, d);
  }

  lemma ProductSign(m: nat, d: int)
    ensures d > 0 ==> m * d >= m
    ensures d < 0 ==> m * d <= -(m as int)
  {
  }

  lemma HomeInTable(n: nat, h: nat)
    requires IsPow2(n) && n > 0
    ensures Home(n, h) == h % n < n
  {
    var e: nat :| n == Pow2(e);
    MaskIsRemainder(e, h);
  }

  // ----- The way round -----

  function Next(i: nat, n: nat): nat { if i + 1 == n then 0 else i + 1 }

  /** Probing from `home` passes `i` before it comes to `j`. */
  predicate Passes(home: nat, i: nat, j: nat) {
    if home <= j then home <= i < j else home <= i || i < j
  }

  lemma OneComesFirst(home: nat, i: nat, j: nat)
    ensures i == j || Passes(home, i, j) || Passes(home, j, i)
  {
  }

  function Gap(i: nat, j: nat, n: nat): nat
    requires i < n && j < n
  {
    if i <= j then j - i else j + n - i
  }

  // ----- Tables -----

  predicate Used(b: seq<Bucket>, j: nat) { j < |b| && !b[j].Free? }

  ghost predicate PathFull(b: seq<Bucket>, home: nat, j: nat) {
    forall i :: 0 <= i < |b| && Passes(home, i, j) ==> !b[i].Free?
  }

  /** A used bucket stores its key's hash and can be reached by probing for it. */
  ghost predicate BucketOk(b: seq<Bucket>, hash: Key -> nat, j: nat)
    requires |b| > 0
  {
    Used(b, j) ==>
      b[j].hash == hash(b[j].key) && (b[j].Multi? ==> |b[j].list| >= 2) && PathFull(b, Home(|b|, b[j].hash), j)
  }

  ghost predicate KeysApart(b: seq<Bucket>) {
    forall i: nat, j: nat {:trigger Used(b, i), Used(b, j)} :: Used(b, i) && Used(b, j) && i != j ==>
      b[i].key != b[j].key
  }

  ghost predicate TableOk(b: seq<Bucket>, hash: Key -> nat) {
    && |b| > 0 && IsPow2(|b|) && KeysApart(b)
    && forall j: nat {:trigger Used(b, j)} :: Used(b, j) ==> BucketOk(b, hash, j)
  }

  /** What the table stores: for every key its values, oldest first. */
  ghost function Keys(b: seq<Bucket>): set<Key> {
    set j: nat {:trigger Used(b, j)} | j < |b| && Used(b, j) :: b[j].key
  }

  ghost function Where(b: seq<Bucket>, k: Key): (j: nat)
    requires k in Keys(b)
    ensures Used(b, j) && b[j].key == k
  {
    var j: nat :| Used(b, j) && b[j].key == k; j
  }

  ghost function Contents(b: seq<Bucket>): map<Key, seq<Val>> {
    map k | k in Keys(b) :: Values(b[Where(b, k)])
  }

  function Lookup(m: map<Key, seq<Val>>, k: Key): seq<Val> { if k in m then m[k] else [] }

  lemma ContentsAt(b: seq<Bucket>, j: nat)
    requires KeysApart(b) && Used(b, j)
    ensures b[j].key in Contents(b) && Contents(b)[b[j].key] == Values(b[j])
  {
    assert Used(b, Where(b, b[j].key));
  }

  /** A probe that meets a free bucket has seen every place its key could be. */
  lemma MissMeansAbsent(b: seq<Bucket>, hash: Key -> nat, k: Key, j: nat)
    requires TableOk(b, hash) && j < |b| && b[j].Free?
    requires forall i :: 0 <= i < |b| && Passes(Home(|b|, hash(k)), i, j) ==> !b[i].Free? && b[i].key != k
    ensures k !in Contents(b)
  {
    if k in Contents(b) {
      var i := Where(b, k);
      assert BucketOk(b, hash, i);
      OneComesFirst(Home(|b|, hash(k)), i, j);
    }
  }

  /** Filling the free bucket a probe ends at, or changing a bucket's values, keeps the table searchable. */
  lemma StoreKeeps(b: seq<Bucket>, hash: Key -> nat, j: nat, x: Bucket)
    requires TableOk(b, hash) && j < |b| && !x.Free? && x.hash == hash(x.key) && (x.Multi? ==> |x.list| >= 2)
    requires (b[j].Free? && x.key !in Contents(b) && PathFull(b, Home(|b|, x.hash), j)) ||
             (!b[j].Free? && b[j].key == x.key)
    ensures TableOk(b[j := x], hash) && Contents(b[j := x]) == Contents(b)[x.key := Values(x)]
  {
    var c := b[j := x];
    StoreApart(b, j, x);
    forall i: nat | Used(c, i) ensures BucketOk(c, hash, i) {
      assert i != j ==> Used(b, i);
      if !b[j].Free? { assert Used(b, j); }
      if i != j || !b[j].Free? {
        assert BucketOk(b, hash, i);
      }
    }
    StoreContents(b, j, x);
  }

  lemma StoreApart(b: seq<Bucket>, j: nat, x: Bucket)
    requires KeysApart(b) && j < |b| && !x.Free?
    requires (b[j].Free? && x.key !in Contents(b)) || (!b[j].Free? && b[j].key == x.key)
    ensures KeysApart(b[j := x])
  {
    var c := b[j := x];
    forall i: nat, l: nat | Used(c, i) && Used(c, l) && i != l ensures c[i].key != c[l].key {
      StoreOther(b, j, x, i);
      StoreOther(b, j, x, l);
    }
  }

  lemma StoreOther(b: seq<Bucket>, j: nat, x: Bucket, i: nat)
    requires KeysApart(b) && j < |b| && !x.Free? && i < |b|
    requires (b[j].Free? && x.key !in Contents(b)) || (!b[j].Free? && b[j].key == x.key)
    ensures i != j && Used(b[j := x], i) ==> Used(b, i) && b[j := x][i] == b[i] && b[i].key != x.key
  {
    if i != j && Used(b, i) {
      ContentsAt(b, i);
      if !b[j].Free? { assert Used(b, j); }
    }
  }

  lemma StoreContents(b: seq<Bucket>, j: nat, x: Bucket)
    requires KeysApart(b) && j < |b| && !x.Free?
    requires (b[j].Free? && x.key !in Contents(b)) || (!b[j].Free? && b[j].key == x.key)
    ensures Contents(b[j := x]) == Contents(b)[x.key := Values(x)]
  {
    var c := b[j := x];
    StoreApart(b, j, x);
    assert Used(c, j);
    ContentsAt(c, j);
    forall k | k in Contents(c) && k != x.key ensures k in Contents(b) && Contents(b)[k] == Contents(c)[k] {
      var i := Where(c, k);
      StoreOther(b, j, x, i);
      ContentsAt(b, i);
    }
    forall k | k in Contents(b) && k != x.key ensures k in Contents(c) {
      var i := Where(b, k);
      assert Used(c, i);
      ContentsAt(c, i);
    }
    assert Contents(c).Keys == Contents(b)[x.key := Values(x)].Keys;
  }

  // ----- Counting -----

  /** The used buckets, or with `values` the values they hold. */
  function Tally(b: seq<Bucket>, values: bool): (r: nat)
    ensures !values ==> r <= |b|
  {
    if b == [] then 0
    else Tally(b[..|b| - 1], values) + Weight(b[|b| - 1], values)
  }

  function Weight(x: Bucket, values: bool): nat {
    if values then |Values(x)| else if x.Free? then 0 else 1
  }

  lemma {:induction false} TallyStore(b: seq<Bucket>, j: nat, x: Bucket, values: bool)
    requires j < |b|
    ensures Tally(b[j := x], values) == Tally(b, values) - Weight(b[j], values) + Weight(x, values)
  {
    var m := |b| - 1;
    if j == m {
      assert b[j := x][..m] == b[..m];
    } else {
      TallyStore(b[..m], j, x, values);
      assert b[j := x][..m] == b[..m][j := x];
    }
  }

  lemma {:induction false} FreeBucketLeft(b: seq<Bucket>) returns (j: nat)
    requires Tally(b, false) < |b|
    ensures j < |b| && b[j].Free?
  {
    var m := |b| - 1;
    if b[m].Free? { j := m; } else { j := FreeBucketLeft(b[..m]); }
  }

  lemma {:induction false} TallyPrefix(b: seq<Bucket>, n: nat, values: bool)
    requires n <= |b|
    ensures Tally(b[..n], values) <= Tally(b, values)
    ensures Tally(b[..n], false) == Tally(b, false) ==> forall i :: n <= i < |b| ==> b[i].Free?
  {
    if n == |b| {
      assert b[..n] == b;
    } else {
      var m := |b| - 1;
      assert b[..m][..n] == b[..n];
      TallyPrefix(b[..m], n, values);
      TallyPrefix(b[..m], n, false);
      forall i | n <= i < m ensures b[i] == b[..m][i] {}
    }
  }

  lemma {:induction false} TallyFree(b: seq<Bucket>, values: bool)
    requires forall i :: 0 <= i < |b| ==> b[i].Free?
    ensures Tally(b, values) == 0
  {
    if b != [] { TallyFree(b[..|b| - 1], values); }
  }

  // ----- Storing one value -----

  /** A probe for `k` can end at bucket `j`. */
  ghost predicate ProbeEnd(b: seq<Bucket>, hash: Key -> nat, j: nat, k: Key) {
    j < |b| &&
    if b[j].Free? then k !in Contents(b) && PathFull(b, Home(|b|, hash(k)), j) else b[j].key == k
  }

  function WithValue(x: Bucket, h: nat, k: Key, v: Val): Bucket {
    if x.Free? then Single(h, k, v) else Appended(x, v)
  }

  lemma StoreEffect(b: seq<Bucket>, hash: Key -> nat, j: nat, k: Key, v: Val)
    requires TableOk(b, hash) && ProbeEnd(b, hash, j, k)
    ensures var c := b[j := WithValue(b[j], hash(k), k, v)];
            && TableOk(c, hash) && Contents(c) == Contents(b)[k := Lookup(Contents(b), k) + [v]]
            && Tally(c, true) == Tally(b, true) + 1
            && Tally(c, false) == Tally(b, false) + (if b[j].Free? then 1 else 0)
    ensures b[j].Free? <==> k !in Contents(b)
  {
    var x := WithValue(b[j], hash(k), k, v);
    if !b[j].Free? {
      assert Used(b, j) && BucketOk(b, hash, j);
      ContentsAt(b, j);
      AppendedValues(b[j], v);
    }
    assert Values(x) == Lookup(Contents(b), k) + [v];
    StoreKeeps(b, hash, j, x);
    TallyStore(b, j, x, true);
    TallyStore(b, j, x, false);
  }

  // ----- Scanning the table -----

  function Pairs(x: Bucket): seq<(Key, Val)> {
    if x.Free? then [] else seq(|Values(x)|, i requires 0 <= i < |Values(x)| => (x.key, Values(x)[i]))
  }

  /** Every pair, bucket by bucket. */
  function Scan(b: seq<Bucket>): seq<(Key, Val)> {
    if b == [] then [] else Scan(b[..|b| - 1]) + Pairs(b[|b| - 1])
  }

  /** The values given to `k`, in order. */
  function Project(ps: seq<(Key, Val)>, k: Key): seq<Val> {
    if ps == [] then []
    else Project(ps[..|ps| - 1], k) + (if ps[|ps| - 1].0 == k then [ps[|ps| - 1].1] else [])
  }

  /** A multimap built by adding the pairs one at a time. */
  function Grouped(ps: seq<(Key, Val)>): map<Key, seq<Val>> {
    if ps == [] then map[]
    else
      var (k, v) := ps[|ps| - 1];
      var m := Grouped(ps[..|ps| - 1]);
      m[k := Lookup(m, k) + [v]]
  }

  lemma {:induction false} GroupedIsProject(ps: seq<(Key, Val)>, k: Key)
    ensures Lookup(Grouped(ps), k) == Project(ps, k)
  {
    if ps != [] { GroupedIsProject(ps[..|ps| - 1], k); }
  }

  lemma {:induction false} ProjectConcat(a: seq<(Key, Val)>, c: seq<(Key, Val)>, k: Key)
    ensures Project(a + c, k) == Project(a, k) + Project(c, k)
  {
    if c == [] {
      assert a + c == a;
    } else {
      assert (a + c)[..|a + c| - 1] == a + c[..|c| - 1];
      ProjectConcat(a, c[..|c| - 1], k);
    }
  }

  lemma {:induction false} ProjectUniform(ps: seq<(Key, Val)>, own: Key, vs: seq<Val>, k: Key)
    requires |ps| == |vs| && forall i :: 0 <= i < |ps| ==> ps[i] == (own, vs[i])
    ensures Project(ps, k) == if own == k then vs else []
  {
    if ps != [] {
      var m := |ps| - 1;
      ProjectUniform(ps[..m], own, vs[..m], k);
      assert vs == vs[..m] + [vs[m]];
    }
  }

  lemma ProjectPairs(x: Bucket, k: Key)
    ensures Project(Pairs(x), k) == if !x.Free? && x.key == k then Values(x) else []
  {
    if !x.Free? { ProjectUniform(Pairs(x), x.key, Values(x), k); }
  }

  lemma {:induction false} ScanMiss(b: seq<Bucket>, k: Key)
    requires forall i: nat {:trigger Used(b, i)} :: Used(b, i) ==> b[i].key != k
    ensures Project(Scan(b), k) == []
  {
    if b != [] {
      var m := |b| - 1;
      forall i: nat | Used(b[..m], i) ensures b[..m][i].key != k { assert Used(b, i); }
      ScanMiss(b[..m], k);
      assert !b[m].Free? ==> Used(b, m);
      ProjectPairs(b[m], k);
      ProjectConcat(Scan(b[..m]), Pairs(b[m]), k);
    }
  }

  lemma {:induction false} ScanHit(b: seq<Bucket>, j: nat)
    requires KeysApart(b) && Used(b, j)
    ensures Project(Scan(b), b[j].key) == Values(b[j])
  {
    var m, k := |b| - 1, b[j].key;
    ProjectPairs(b[m], k);
    ProjectConcat(Scan(b[..m]), Pairs(b[m]), k);
    forall i: nat | Used(b[..m], i) ensures Used(b, i) && b[..m][i] == b[i] {}
    if j == m {
      ScanMiss(b[..m], k);
    } else {
      assert Used(b[..m], j);
      ScanHit(b[..m], j);
      assert !b[m].Free? ==> Used(b, m);
    }
  }

  /** A full scan delivers, for every key, exactly the values stored for it. */
  lemma ScanIsContents(b: seq<Bucket>, k: Key)
    requires KeysApart(b)
    ensures Project(Scan(b), k) == Lookup(Contents(b), k)
  {
    if k in Contents(b) {
      var j := Where(b, k);
      ScanHit(b, j);
    } else {
      forall i: nat | Used(b, i) ensures b[i].key != k { ContentsAt(b, i); }
      ScanMiss(b, k);
    }
  }

  lemma {:induction false} ProjectCount(ps: seq<(Key, Val)>, p: (Key, Val))
    ensures multiset(ps)[p] == multiset(Project(ps, p.0))[p.1]
  {
    if ps != [] {
      var m := |ps| - 1;
      ProjectCount(ps[..m], p);
      assert ps == ps[..m] + [ps[m]];
    }
  }

  /** A table that holds the pairs `ps` is scanned as a permutation of them: each is delivered exactly once. */
  lemma ScanDeliversAll(b: seq<Bucket>, ps: seq<(Key, Val)>)
    requires KeysApart(b) && Contents(b) == Grouped(ps)
    ensures multiset(Scan(b)) == multiset(ps)
  {
    forall p: (Key, Val) ensures multiset(Scan(b))[p] == multiset(ps)[p] {
      ScanIsContents(b, p.0);
      GroupedIsProject(ps, p.0);
      ProjectCount(Scan(b), p);
      ProjectCount(ps, p);
    }
  }

  // ----- Moving the buckets to a larger table -----

  ghost function Entries(b: seq<Bucket>): set<Bucket> {
    set j: nat {:trigger Used(b, j)} | j < |b| && Used(b, j) :: b[j]
  }

  lemma EntryAt(b: seq<Bucket>, j: nat)
    requires Used(b, j)
    ensures b[j] in Entries(b)
  {
  }

  lemma SameEntries(b: seq<Bucket>, c: seq<Bucket>)
    requires KeysApart(b) && KeysApart(c) && Entries(b) == Entries(c)
    ensures Contents(b) == Contents(c)
  {
    SameEntriesOneWay(b, c);
    SameEntriesOneWay(c, b);
    assert Contents(b).Keys == Contents(c).Keys;
  }

  lemma SameEntriesOneWay(b: seq<Bucket>, c: seq<Bucket>)
    requires KeysApart(b) && KeysApart(c) && Entries(b) == Entries(c)
    ensures forall k :: k in Contents(b) ==> k in Contents(c) && Contents(c)[k] == Contents(b)[k]
  {
    forall k | k in Contents(b) ensures k in Contents(c) && Contents(c)[k] == Contents(b)[k] {
      var j := Where(b, k);
      EntryAt(b, j);
      ContentsAt(b, j);
      var i: nat :| Used(c, i) && c[i] == b[j];
      ContentsAt(c, i);
    }
  }

  /** The first `n` old buckets have been moved to `c`. */
  ghost predicate MovedTo(b: seq<Bucket>, n: nat, c: seq<Bucket>, hash: Key -> nat)
    requires n <= |b|
  {
    && TableOk(c, hash) && Entries(c) == Entries(b[..n])
    && Tally(c, false) == Tally(b[..n], false) && Tally(c, true) == Tally(b[..n], true)
  }

  lemma MoveStarts(b: seq<Bucket>, c: seq<Bucket>, hash: Key -> nat)
    requires IsPow2(|c|) && |c| > 0 && forall i :: 0 <= i < |c| ==> c[i].Free?
    ensures MovedTo(b, 0, c, hash) && Contents(c) == map[]
  {
    TallyFree(c, false);
    TallyFree(c, true);
    assert forall j: nat :: !Used(c, j);
    assert Keys(c) == {};
    assert Contents(c).Keys == {};
    assert Entries(c) == {} == Entries(b[..0]);
  }

  lemma MoveSkips(b: seq<Bucket>, n: nat, to: seq<Bucket>, hash: Key -> nat)
    requires n < |b| && MovedTo(b, n, to, hash) && b[n].Free?
    ensures MovedTo(b, n + 1, to, hash)
  {
    var a, c := b[..n], b[..n + 1];
    assert c[..n] == a;
    forall j: nat | Used(c, j) ensures c[j] in Entries(a) { assert Used(a, j); }
    forall j: nat | Used(a, j) ensures a[j] in Entries(c) { assert Used(c, j); }
  }

  lemma MoveCopies(b: seq<Bucket>, n: nat, c: seq<Bucket>, hash: Key -> nat, j: nat)
    requires TableOk(b, hash) && n < |b| && MovedTo(b, n, c, hash) && !b[n].Free?
    requires j < |c| && c[j].Free? && PathFull(c, Home(|c|, b[n].hash), j)
    ensures MovedTo(b, n + 1, c[j := b[n]], hash)
  {
    var x := b[n];
    assert Used(b, n) && BucketOk(b, hash, n);
    NotMovedYet(b, n, c);
    StoreKeeps(c, hash, j, x);
    TallyStore(c, j, x, false);
    TallyStore(c, j, x, true);
    assert b[..n + 1][..n] == b[..n];
    GrownEntries(b[..n], x);
    assert b[..n + 1] == b[..n] + [x];
    StoredEntries(c, j, x);
  }

  lemma NotMovedYet(b: seq<Bucket>, n: nat, c: seq<Bucket>)
    requires KeysApart(b) && Used(b, n) && KeysApart(c) && Entries(c) == Entries(b[..n])
    ensures b[n].key !in Contents(c)
  {
    if b[n].key in Contents(c) {
      var i := Where(c, b[n].key);
      EntryAt(c, i);
      var l: nat :| Used(b[..n], l) && b[..n][l] == c[i];
      PrefixUsed(b, n, l);
    }
  }

  lemma PrefixUsed(b: seq<Bucket>, n: nat, l: nat)
    requires n <= |b|
    ensures Used(b[..n], l) ==> l < n && Used(b, l) && b[..n][l] == b[l]
  {
  }

  lemma GrownEntries(b: seq<Bucket>, x: Bucket)
    requires !x.Free?
    ensures Entries(b + [x]) == Entries(b) + {x}
  {
    var c := b + [x];
    forall j: nat | Used(b, j) ensures b[j] in Entries(c) { assert Used(c, j); }
    assert Used(c, |b|);
    forall j: nat | Used(c, j) ensures c[j] in Entries(b) + {x} { assert j < |b| ==> Used(b, j); }
  }

  lemma StoredEntries(c: seq<Bucket>, j: nat, x: Bucket)
    requires j < |c| && c[j].Free? && !x.Free?
    ensures Entries(c[j := x]) == Entries(c) + {x}
  {
    var d := c[j := x];
    assert Used(d, j);
    forall i: nat | Used(c, i) ensures c[i] in Entries(d) { assert Used(d, i); }
    forall i: nat | Used(d, i) ensures d[i] in Entries(c) + {x} { assert i != j ==> Used(c, i); }
  }

  /** Once as many buckets were moved as are used, nothing is left behind. */
  lemma MoveEnds(b: seq<Bucket>, n: nat, c: seq<Bucket>, hash: Key -> nat)
    requires KeysApart(b) && n <= |b| && MovedTo(b, n, c, hash) && Tally(c, false) == Tally(b, false)
    ensures Contents(c) == Contents(b) && Tally(c, true) == Tally(b, true)
  {
    TallyPrefix(b, n, true);
    AllFreeAfter(b, n, true);
    forall j: nat | Used(b, j) ensures b[j] in Entries(b[..n]) { assert Used(b[..n], j); }
    forall j: nat | Used(b[..n], j) ensures b[..n][j] in Entries(b) { assert Used(b, j); }
    assert Entries(b) == Entries(c);
    SameEntries(b, c);
  }

  lemma {:induction false} AllFreeAfter(b: seq<Bucket>, n: nat, values: bool)
    requires n <= |b| && forall i :: n <= i < |b| ==> b[i].Free?
    ensures Tally(b[..n], values) == Tally(b, values)
  {
    if n == |b| {
      assert b[..n] == b;
    } else {
      var m := |b| - 1;
      assert b[..m][..n] == b[..n];
      AllFreeAfter(b[..m], n, values);
    }
  }

  // ----- How the table grows -----

  /** Buckets, resize threshold and used buckets. */
  datatype Size = Size(buckets: nat, threshold: nat, used: nat)

  /** The least power of two that is at least `n`, from two on. For 1 the source counts the leading zeros of 0, which
      has no defined result: `undefined` stands for what comes out. */
  function NextPowerOf2(n: nat, undefined: nat): (r: nat)
    requires n > 0
    ensures n >= 2 ==> n <= r < 2 * n && IsPow2(r)
    ensures n == 1 ==> r == undefined
  {
    if n == 1 then undefined else SmallestPow2(n, 0)
  }

  function SmallestPow2(n: nat, e: nat): (r: nat)
    requires e > 0 ==> Pow2(e - 1) < n
    requires n > 0
    ensures n <= r < 2 * n && IsPow2(r)
    decreases n - Pow2(e)
  {
    if n <= Pow2(e) then Pow2(e) else SmallestPow2(n, e + 1)
  }

  function InitialSize(buckets: nat): Size {
    Size(buckets, buckets / 2, 0)
  }

  /** Storing a value, for a new key or for one in the table, doubles the table first when the threshold is met. */
  function Grown(s: Size, newKey: bool): Size {
    var used := if newKey then s.used + 1 else s.used;
    if s.used == s.threshold then Size(2 * s.buckets, 2 * s.threshold, used) else s.(used := used)
  }

  function AfterStores(buckets: nat, newKeys: seq<bool>): Size {
    if newKeys == [] then InitialSize(buckets)
    else Grown(AfterStores(buckets, newKeys[..|newKeys| - 1]), newKeys[|newKeys| - 1])
  }

  lemma {:induction false} HalfFull(buckets: nat, newKeys: seq<bool>)
    requires IsPow2(buckets) && buckets >= 2
    ensures var s := AfterStores(buckets, newKeys);
            s.used <= s.threshold && 1 <= s.threshold && s.buckets == 2 * s.threshold
  {
    if newKeys == [] {
      var e: nat :| buckets == Pow2(e);
    } else {
      HalfFull(buckets, newKeys[..|newKeys| - 1]);
    }
  }

  /** The table is only doubled when it is half full: it has its first size, or a quarter of its buckets is used. */
  lemma {:induction false} GrowsAtHalf(buckets: nat, newKeys: seq<bool>)
    requires IsPow2(buckets) && buckets >= 2
    ensures var s := AfterStores(buckets, newKeys); s.buckets == buckets || s.buckets <= 4 * s.used
  {
    if newKeys != [] {
      GrowsAtHalf(buckets, newKeys[..|newKeys| - 1]);
      HalfFull(buckets, newKeys[..|newKeys| - 1]);
    }
  }

  predicate HasRoom(s: Size) { s.used < s.buckets }

  /** A free bucket always remains, whatever is stored, exactly for tables that start with two buckets or more. */
  lemma FreeBucketIff(buckets: nat)
    requires IsPow2(buckets)
    ensures (forall newKeys :: HasRoom(AfterStores(buckets, newKeys))) <==> buckets >= 2
  {
    if buckets >= 2 {
      forall newKeys ensures HasRoom(AfterStores(buckets, newKeys)) { HalfFull(buckets, newKeys); }
    } else {
      var e: nat :| buckets == Pow2(e);
      OneBucketFills();
    }
  }

  /** A table that starts with one bucket has threshold zero and is full after two keys. */
  lemma OneBucketFills()
    ensures !HasRoom(AfterStores(1, [true, true]))
  {
    assert [true, true][..1] == [true] && [true][..0] == [];
    assert AfterStores(1, []) == Size(1, 0, 0);
    assert AfterStores(1, [true]) == Size(2, 0, 1);
  }

  /** Which of the pairs, stored one after the other, bring a new key. */
  function NewKeys(ps: seq<(Key, Val)>): seq<bool> {
    if ps == [] then []
    else NewKeys(ps[..|ps| - 1]) + [ps[|ps| - 1].0 !in Grouped(ps[..|ps| - 1])]
  }
}
