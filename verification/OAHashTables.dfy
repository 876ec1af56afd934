/** The hash table used by hash joins and aggregations, as the loops that probe, store, resize and scan. */
module OAHashTables {
  import opened OpenAddressing

  class OAHashTable {
    const hash: Key -> nat
    var buckets: array<Bucket>
    var threshold: nat
    var numValid: nat
    var numEntries: nat

    ghost predicate Valid()
      reads this, buckets
    {
      && TableOk(buckets[..], hash)
      && numValid == Tally(buckets[..], false) && numEntries == Tally(buckets[..], true)
    }

    ghost function Stored(): map<Key, seq<Val>>
      reads this, buckets
    {
      Contents(buckets[..])
    }

    ghost function Sizes(): Size
      reads this
    {
      Size(buckets.Length, threshold, numValid)
    }

    /** The number of buckets must come out as a power of two, which from an estimate of two on it does. */
    constructor (hash: Key -> nat, estimate: nat, undefined: nat)
      requires estimate > 0 && (estimate == 1 ==> IsPow2(undefined))
      ensures Valid() && Stored() == map[] && numEntries == 0 && fresh(buckets) && this.hash == hash
      ensures Sizes() == InitialSize(NextPowerOf2(estimate, undefined))
    {
      this.hash := hash;
      var n := NextPowerOf2(estimate, undefined);
      buckets := new Bucket[n](_ => Free);
      threshold, numValid, numEntries := n / 2, 0, 0;
      new;
      MoveStarts([], buckets[..], hash);
    }

    /** Looks for `k` from its home bucket on, and stops at the key or at a free bucket. */
    method Probe(k: Key) returns (found: bool, index: nat)
      requires Valid() && HasRoom(Sizes())
      ensures index < buckets.Length && found == (k in Stored())
      ensures found ==> Used(buckets[..], index) && buckets[index].key == k
      ensures !found ==> buckets[index].Free? && PathFull(buckets[..], Home(buckets.Length, hash(k)), index)
      ensures Fits(index, k)
    {
      var h := hash(k);
      ghost var b := buckets[..];
      ghost var end := FreeBucketLeft(b);
      HomeInTable(buckets.Length, h);
      index := Home(buckets.Length, h);
      while !buckets[index].Free?
        invariant index < buckets.Length
        invariant forall i :: 0 <= i < |b| && Passes(Home(|b|, h), i, index) ==> !b[i].Free? && b[i].key != k
        decreases Gap(index, end, buckets.Length)
      {
        if buckets[index].hash == h && buckets[index].key == k {
          ContentsAt(b, index);
          return true, index;
        }
        assert Used(b, index) && BucketOk(b, hash, index);
        index := Next(index, buckets.Length);
      }
      MissMeansAbsent(b, hash, k, index);
      found := false;
    }

    /** Delivers every value stored for `k`. */
    method FindAll(k: Key) returns (out: seq<Val>)
      requires Valid() && HasRoom(Sizes())
      ensures out == Lookup(Stored(), k)
    {
      var found, index := Probe(k);
      out := [];
      if found {
        ContentsAt(buckets[..], index);
        assert BucketOk(buckets[..], hash, index);
        out := Deliver(buckets[index]);
      }
    }

    /** Hands out the values of one used bucket, of which there is at least one. */
    static method Deliver(x: Bucket) returns (out: seq<Val>)
      requires !x.Free? && (x.Multi? ==> |x.list| >= 2)
      ensures out == Values(x)
    {
      var count := if x.Single? then 1 else |x.list|;
      out := [Values(x)[0]];
      var i := 1;
      while i < count
        invariant 1 <= i <= count && out == Values(x)[..i]
      {
        out := out + [Values(x)[i]];
        i := i + 1;
      }
    }

    /** Hands out the key of a used bucket with each of its values. */
    static method DeliverPairs(x: Bucket) returns (out: seq<(Key, Val)>)
      requires !x.Free? && (x.Multi? ==> |x.list| >= 2)
      ensures out == Pairs(x)
    {
      var count := if x.Single? then 1 else |x.list|;
      out := [(x.key, Values(x)[0])];
      var i := 1;
      while i < count
        invariant 1 <= i <= count && out == Pairs(x)[..i]
      {
        out := out + [(x.key, Values(x)[i])];
        i := i + 1;
      }
    }

    /** Delivers every key with every value, each exactly once. */
    method Iterate() returns (out: seq<(Key, Val)>)
      requires Valid()
      ensures out == Scan(buckets[..])
      ensures forall k :: Project(out, k) == Lookup(Stored(), k)
    {
      ghost var b := buckets[..];
      out := [];
      var i := 0;
      while i < buckets.Length
        invariant 0 <= i <= buckets.Length && out == Scan(b[..i])
      {
        if !buckets[i].Free? {
          assert Used(b, i) && BucketOk(b, hash, i);
          var pairs := DeliverPairs(buckets[i]);
          out := out + pairs;
        }
        assert b[..i + 1][..i] == b[..i];
        i := i + 1;
      }
      assert b[..i] == b;
      forall k ensures Project(out, k) == Lookup(Stored(), k) { ScanIsContents(b, k); }
    }

    /** The first free bucket on the way from the home of `h`. */
    static method FindNextFreeEntry(table: array<Bucket>, h: nat) returns (index: nat)
      requires table.Length > 0 && IsPow2(table.Length) && Tally(table[..], false) < table.Length
      ensures index < table.Length && table[index].Free? && PathFull(table[..], Home(table.Length, h), index)
    {
      ghost var end := FreeBucketLeft(table[..]);
      HomeInTable(table.Length, h);
      index := Home(table.Length, h);
      while !table[index].Free?
        invariant index < table.Length
        invariant PathFull(table[..], Home(table.Length, h), index)
        decreases Gap(index, end, table.Length)
      {
        index := Next(index, table.Length);
      }
    }

    /** Copies the used bucket `x` to the first free bucket of the new table. */
    static method MoveBucket(table: array<Bucket>, x: Bucket, ghost b: seq<Bucket>, ghost i: nat,
        ghost hash: Key -> nat)
      returns (index: nat)
      requires TableOk(b, hash) && i < |b| && b[i] == x && !x.Free? && MovedTo(b, i, table[..], hash)
      requires Tally(table[..], false) < table.Length
      modifies table
      ensures MovedTo(b, i + 1, table[..], hash)
      ensures index < table.Length && old(table[index]).Free? && table[..] == old(table[..])[index := x]
    {
      index := FindNextFreeEntry(table, x.hash);
      ghost var was := table[..];
      table[index] := x;
      assert table[..] == was[index := x];
      MoveCopies(b, i, was, hash, index);
    }

    /** Moves the `valid` used buckets of `from` to a table of twice its size and follows the bucket `entry`. */
    static method Rehash(from: array<Bucket>, valid: nat, entry: nat, ghost hash: Key -> nat)
      returns (table: array<Bucket>, moved: nat)
      requires TableOk(from[..], hash) && valid == Tally(from[..], false) && entry < from.Length
      ensures fresh(table) && table.Length == 2 * from.Length && TableOk(table[..], hash)
      ensures Contents(table[..]) == Contents(from[..])
      ensures forall values :: Tally(table[..], values) == Tally(from[..], values)
      ensures Used(from[..], entry) ==> moved < table.Length && table[moved] == from[entry]
    {
      ghost var b := from[..];
      table := new Bucket[2 * from.Length](_ => Free);
      DoublePow2(from.Length);
      MoveStarts(b, table[..], hash);
      var done, i := 0, 0;
      moved := entry;
      while done < valid
        invariant 0 <= i <= from.Length && fresh(table)
        invariant done == Tally(table[..], false) <= valid
        invariant MovedTo(b, i, table[..], hash)
        invariant entry < i && Used(b, entry) ==> moved < table.Length && table[moved] == b[entry]
        decreases from.Length - i
      {
        StillUnmoved(b, i);
        if from[i].Free? {
          MoveSkips(b, i, table[..], hash);
        } else {
          TallyPrefix(b, i + 1, false);
          var index := MoveBucket(table, from[i], b, i, hash);
          assert b[..i + 1][..i] == b[..i];
          done := done + 1;
          if entry == i { moved := index; }
        }
        i := i + 1;
      }
      TallyPrefix(b, i, false);
      MoveEnds(b, i, table[..], hash);
      forall values ensures Tally(table[..], values) == Tally(b, values) { if !values { assert !values; } }
    }

    /** Doubles the table. A used bucket `entry` is followed to its new place. */
    method Resize(entry: nat) returns (moved: nat)
      requires Valid() && numValid == threshold && entry < buckets.Length
      modifies this`buckets, this`threshold
      ensures Valid() && fresh(buckets) && Stored() == old(Stored())
      ensures buckets.Length == 2 * old(buckets.Length) && threshold == 2 * old(threshold)
      ensures old(Used(buckets[..], entry)) ==> moved < buckets.Length && buckets[moved] == old(buckets[entry])
    {
      threshold := 2 * threshold;
      var table;
      table, moved := Rehash(buckets, numValid, entry, hash);
      buckets := table;
    }

    /** The bucket `k` belongs to once there is room for one more key. */
    method MakeRoom(entry: nat, k: Key) returns (place: nat)
      requires Valid() && HasRoom(Sizes()) && Fits(entry, k)
      modifies this`buckets, this`threshold
      ensures Valid() && (buckets == old(buckets) || fresh(buckets)) && Stored() == old(Stored())
      ensures Fits(place, k) && buckets[place].Free? == old(buckets[entry].Free?)
      ensures if numValid == old(threshold)
              then threshold == 2 * old(threshold) && buckets.Length == 2 * old(buckets.Length)
              else threshold == old(threshold) && buckets.Length == old(buckets.Length)
    {
      var free := buckets[entry].Free?;
      place := entry;
      if numValid == threshold {
        assert free || Used(buckets[..], entry);
        place := Resize(entry);
        if free {
          place := FindNextFreeEntry(buckets, hash(k));
        }
      }
    }

    /** A probe for `k` can end at this bucket. */
    ghost predicate Fits(entry: nat, k: Key)
      reads this, buckets
    {
      ProbeEnd(buckets[..], hash, entry, k)
    }

    /** Stores `v` for `k` at the bucket a probe ended at, growing the table first when it is half full. */
    method StoreTuple(entry: nat, k: Key, v: Val)
      requires Valid() && HasRoom(Sizes()) && Fits(entry, k)
      modifies this, buckets
      ensures Valid() && (buckets == old(buckets) || fresh(buckets))
      ensures Stored() == old(Stored())[k := Lookup(old(Stored()), k) + [v]]
      ensures numEntries == old(numEntries) + 1 && Sizes() == Grown(old(Sizes()), k !in old(Stored()))
    {
      var place := MakeRoom(entry, k);
      StoreAt(place, k, v);
    }

    method StoreAt(place: nat, k: Key, v: Val)
      requires Valid() && Fits(place, k)
      modifies this`numEntries, this`numValid, buckets
      ensures Valid() && Stored() == old(Stored())[k := Lookup(old(Stored()), k) + [v]]
      ensures numEntries == old(numEntries) + 1
      ensures numValid == if k in old(Stored()) then old(numValid) else old(numValid) + 1
    {
      ghost var b := buckets[..];
      StoreEffect(b, hash, place, k, v);
      numEntries := numEntries + 1;
      if buckets[place].Free? {
        numValid := numValid + 1;
        buckets[place] := Single(hash(k), k, v);
      } else {
        buckets[place] := Appended(buckets[place], v);
      }
      assert buckets[..] == b[place := WithValue(b[place], hash(k), k, v)];
    }

    /** Adds a value for a key, whether or not the key is there already. */
    method Insert(k: Key, v: Val)
      requires Valid() && HasRoom(Sizes())
      modifies this, buckets
      ensures Valid() && (buckets == old(buckets) || fresh(buckets))
      ensures Stored() == old(Stored())[k := Lookup(old(Stored()), k) + [v]]
      ensures numEntries == old(numEntries) + 1 && Sizes() == Grown(old(Sizes()), k !in old(Stored()))
    {
      var found, index := Probe(k);
      StoreTuple(index, k, v);
    }

    /**
     * Updates the inline value of a key that is there; otherwise stores `v` for it. Readers of a key with several
     * values look at its list and not at the inline value, so for them such an update is lost.
     */
    method ProbeOrInsert(k: Key, f: Val -> Val, v: Val) returns (found: bool)
      requires Valid() && HasRoom(Sizes())
      modifies this, buckets
      ensures Valid() && (buckets == old(buckets) || fresh(buckets))
      ensures found == (k in old(Stored())) && (found ==> |old(Stored())[k]| > 0)
      ensures Stored() == ProbedOrInserted(old(Stored()), k, f, v)
      ensures Sizes() == if found then old(Sizes()) else Grown(old(Sizes()), true)
    {
      var index;
      found, index := Probe(k);
      if found {
        UpdateInline(index, f);
      } else {
        ghost var m := Stored();
        StoreTuple(index, k, v);
        assert Lookup(m, k) + [v] == [v];
      }
    }

    method UpdateInline(index: nat, f: Val -> Val)
      requires Valid() && Used(buckets[..], index)
      modifies buckets
      ensures Valid() && old(buckets[index].key in Stored() && |Stored()[buckets[index].key]| > 0)
      ensures Stored() == ProbedOrInserted(old(Stored()), old(buckets[index].key), f, 0)
    {
      ghost var b := buckets[..];
      UpdateEffect(b, hash, index, f);
      buckets[index] := buckets[index].(inline := f(buckets[index].inline));
      assert buckets[..] == b[index := b[index].(inline := f(b[index].inline))];
    }
  }

  /** Builds a table from a list of pairs, as the build side of a hash join does. Planned for at least two entries it
      never runs out of free buckets, and each key ends up with its values in order. */
  method BuildTable(hash: Key -> nat, estimate: nat, pairs: seq<(Key, Val)>) returns (t: OAHashTable)
    requires estimate >= 2
    ensures fresh(t) && fresh(t.buckets) && t.Valid() && HasRoom(t.Sizes())
    ensures t.Stored() == Grouped(pairs) && t.Sizes() == AfterStores(NextPowerOf2(estimate, 0), NewKeys(pairs))
  {
    t := new OAHashTable(hash, estimate, 0);
    ghost var n := NextPowerOf2(estimate, 0);
    HalfFull(n, []);
    for i := 0 to |pairs|
      invariant fresh(t) && fresh(t.buckets) && t.Valid() && HasRoom(t.Sizes())
      invariant t.Stored() == Grouped(pairs[..i]) && t.Sizes() == AfterStores(n, NewKeys(pairs[..i]))
    {
      assert pairs[..i + 1][..i] == pairs[..i];
      t.Insert(pairs[i].0, pairs[i].1);
      ghost var flags := NewKeys(pairs[..i + 1]);
      assert flags[..|flags| - 1] == NewKeys(pairs[..i]);
      HalfFull(n, flags);
    }
    assert pairs[..|pairs|] == pairs;
  }

  /** What is built from a list of pairs and then scanned is that list again, up to the order of the keys. */
  method BuildAndScan(hash: Key -> nat, estimate: nat, pairs: seq<(Key, Val)>) returns (out: seq<(Key, Val)>)
    requires estimate >= 2
    ensures forall k :: Project(out, k) == Project(pairs, k)
    ensures multiset(out) == multiset(pairs)
  {
    var t := BuildTable(hash, estimate, pairs);
    out := t.Iterate();
    forall k ensures Project(out, k) == Project(pairs, k) { GroupedIsProject(pairs, k); }
    ScanDeliversAll(t.buckets[..], pairs);
  }

  /** Probing a table built from a list of pairs gives the values of the key, in order. */
  method BuildAndFind(hash: Key -> nat, estimate: nat, pairs: seq<(Key, Val)>, k: Key) returns (out: seq<Val>)
    requires estimate >= 2
    ensures out == Project(pairs, k)
  {
    var t := BuildTable(hash, estimate, pairs);
    out := t.FindAll(k);
    GroupedIsProject(pairs, k);
  }

  lemma UpdateEffect(b: seq<Bucket>, hash: Key -> nat, j: nat, f: Val -> Val)
    requires TableOk(b, hash) && Used(b, j)
    ensures var c := b[j := b[j].(inline := f(b[j].inline))];
            && TableOk(c, hash) && Tally(c, true) == Tally(b, true) && Tally(c, false) == Tally(b, false)
            && b[j].key in Contents(b) && |Contents(b)[b[j].key]| > 0
            && Contents(c) == ProbedOrInserted(Contents(b), b[j].key, f, 0)
  {
    var x := b[j].(inline := f(b[j].inline));
    assert BucketOk(b, hash, j);
    ContentsAt(b, j);
    StoreKeeps(b, hash, j, x);
    TallyStore(b, j, x, true);
    TallyStore(b, j, x, false);
  }

  /** The table as an update of the first value of a key that is there, or a first value for a new one. */
  ghost function ProbedOrInserted(m: map<Key, seq<Val>>, k: Key, f: Val -> Val, v: Val): map<Key, seq<Val>>
    requires k in m ==> |m[k]| > 0
  {
    if k !in m then m[k := [v]]
    else if |m[k]| == 1 then m[k := [f(m[k][0])]]
    else m
  }

  lemma DoublePow2(n: nat)
    requires IsPow2(n)
    ensures IsPow2(2 * n)
  {
    var e: nat :| n == Pow2(e);
    assert 2 * n == Pow2(e + 1);
  }

  /** While fewer buckets were moved than are used, the scan has not reached the end. */
  lemma StillUnmoved(b: seq<Bucket>, i: nat)
    requires i <= |b|
    ensures Tally(b[..i], false) < Tally(b, false) ==> i < |b|
  {
    if i == |b| { assert b[..i] == b; }
  }
}
