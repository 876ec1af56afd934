/** Storing whole rows in the packed format and loading them back. */
module CompactStorages {
  import opened Base
  import opened Bits
  import opened PackedRows

  // ----- Writing into a buffer -----

  function Splice(b: Bytes, at: nat, x: Bytes): (r: Bytes)
    requires at + |x| <= |b|
    ensures |r| == |b|
  {
    b[..at] + x + b[at + |x|..]
  }

  method WriteBytes(area: array<bv8>, at: nat, x: Bytes)
    requires at + |x| <= area.Length
    modifies area
    ensures area[..] == Splice(old(area[..]), at, x)
  {
    for i := 0 to |x|
      invariant forall j :: 0 <= j < area.Length ==> area[j] == if at <= j < at + i then x[j - at] else old(area[j])
    {
      area[at + i] := x[i];
    }
  }

  /** Only the bytes of one row may differ. */
  ghost predicate OutsideSame(was: Bytes, now: Bytes, at: nat, size: nat)
    requires at + size <= |was|
  {
    |now| == |was| && now[..at] == was[..at] && now[at + size..] == was[at + size..]
  }

  lemma SplicedRow(b: Bytes, at: nat, size: nat, pos: nat, x: Bytes)
    requires at + size <= |b| && pos + |x| <= size
    ensures OutsideSame(b, Splice(b, at + pos, x), at, size)
    ensures Splice(b, at + pos, x)[at..at + size] == Splice(b[at..at + size], pos, x)
  {
  }

  lemma SpliceElsewhere(b: Bytes, at: nat, x: Bytes, lo: nat, hi: nat)
    requires at + |x| <= |b| && lo <= hi <= |b| && (hi <= at || at + |x| <= lo)
    ensures Splice(b, at, x)[lo..hi] == b[lo..hi]
  {
  }

  /** Writing the part of entry `i` changes no other part and no bit of the bitmap. */
  lemma SplicedPart(row: Bytes, schema: seq<Column>, f: seq<Entry>, i: nat, x: Bytes)
    requires i < |f| && |row| == RowSize(schema, f) && |x| == f[i].size
    ensures Place(schema, f, i) + |x| <= |row|
    ensures var now := Splice(row, Place(schema, f, i), x);
            && SliceAt(now, schema, f, i) == x
            && (forall j :: 0 <= j < |f| && j != i ==> SliceAt(now, schema, f, j) == SliceAt(row, schema, f, j))
            && (forall b :: 0 <= b < BitmapBytes(|schema|) ==> now[b] == row[b])
  {
    OffsetGrows(f, i + 1, |f|);
    var now := Splice(row, Place(schema, f, i), x);
    forall j | 0 <= j < |f| && j != i ensures SliceAt(now, schema, f, j) == SliceAt(row, schema, f, j) {
      OffsetGrows(f, j + 1, |f|);
      if j < i { OffsetGrows(f, j + 1, i); } else { OffsetGrows(f, i + 1, j); }
      SpliceElsewhere(row, Place(schema, f, i), x, Place(schema, f, j), Place(schema, f, j) + f[j].size);
    }
  }

  lemma SplicedBitmap(row: Bytes, schema: seq<Column>, f: seq<Entry>, x: Bytes)
    requires |row| == RowSize(schema, f) && |x| == BitmapBytes(|schema|)
    ensures var now := Splice(row, 0, x);
            && (forall j :: 0 <= j < |f| ==> SliceAt(now, schema, f, j) == SliceAt(row, schema, f, j))
            && (forall b :: 0 <= b < |x| ==> now[b] == x[b])
  {
    var now := Splice(row, 0, x);
    forall j | 0 <= j < |f| ensures SliceAt(now, schema, f, j) == SliceAt(row, schema, f, j) {
      OffsetGrows(f, j + 1, |f|);
      SpliceElsewhere(row, 0, x, Place(schema, f, j), Place(schema, f, j) + f[j].size);
    }
  }

  // ----- The bitmap under construction -----

  type Bitmap = seq<Option<bv8>>

  function ByteOf(b: Option<bv8>): bv8 { if b.Some? then b.value else 0 }

  predicate BitOf(b: Bitmap, c: nat)
    requires c / 8 < |b|
  {
    Bit(ByteOf(b[c / 8]), c % 8)
  }

  function SetBit(b: Bitmap, c: nat, v: bool): Bitmap
    requires c / 8 < |b|
  {
    var shifted := Flag(v) << (c % 8);
    b[c / 8 := Some(if b[c / 8].None? then shifted else b[c / 8].value | shifted)]
  }

  lemma SetBitAt(b: Bitmap, c: nat, v: bool, d: nat)
    requires c / 8 < |b| && d / 8 < |b|
    ensures BitOf(SetBit(b, c, v), d) == (BitOf(b, d) || (d == c && v))
  {
    if c / 8 == d / 8 {
      OrBit(ByteOf(b[c / 8]), c % 8, v, d % 8);
      ZeroOr(Flag(v) << (c % 8));
    }
  }

  lemma ZeroOr(x: bv8)
    ensures 0 | x == x
  {
  }

  // ----- Sorting the entries -----

  ghost predicate Descending(f: seq<Entry>) { forall i, j :: 0 <= i < j < |f| ==> f[i].size >= f[j].size }

  method SortBySize(f: seq<Entry>) returns (g: seq<Entry>)
    ensures multiset(g) == multiset(f) && Descending(g)
  {
    g := [];
    for i := 0 to |f|
      invariant multiset(g) == multiset(f[..i]) && Descending(g)
    {
      g := InsertBySize(g, f[i]);
      assert f[..i + 1] == f[..i] + [f[i]];
    }
    assert f[..|f|] == f;
  }

  method InsertBySize(g: seq<Entry>, e: Entry) returns (r: seq<Entry>)
    requires Descending(g)
    ensures multiset(r) == multiset(g) + multiset{e} && Descending(r)
  {
    var k := 0;
    while k < |g| && g[k].size >= e.size
      invariant 0 <= k <= |g| && forall i :: 0 <= i < k ==> g[i].size >= e.size
    {
      k := k + 1;
    }
    r := g[..k] + [e] + g[k..];
    Inserted(g, e, k);
  }

  lemma Inserted(g: seq<Entry>, e: Entry, k: nat)
    requires Descending(g) && k <= |g| && (forall i :: 0 <= i < k ==> g[i].size >= e.size)
    requires k < |g| ==> g[k].size < e.size
    ensures var r := g[..k] + [e] + g[k..]; multiset(r) == multiset(g) + multiset{e} && Descending(r)
  {
    var r := g[..k] + [e] + g[k..];
    assert multiset(r) == multiset(g) + multiset{e} by { assert g == g[..k] + g[k..]; }
    forall i, j | 0 <= i < j < |r| ensures r[i].size >= r[j].size { InsertedPair(g, e, k, i, j); }
  }

  lemma InsertedPair(g: seq<Entry>, e: Entry, k: nat, i: nat, j: nat)
    requires Descending(g) && k <= |g| && (forall l :: 0 <= l < k ==> g[l].size >= e.size)
    requires (k < |g| ==> g[k].size < e.size) && i < j <= |g|
    ensures var r := g[..k] + [e] + g[k..]; r[i].size >= r[j].size
  {
    if j < k {
    } else if j == k {
    } else if i < k {
      assert (g[..k] + [e] + g[k..])[j] == g[j - 1];
    } else if i == k {
      assert (g[..k] + [e] + g[k..])[j] == g[j - 1];
      assert g[k].size >= g[j - 1].size;
    } else {
      assert (g[..k] + [e] + g[k..])[i] == g[i - 1] && (g[..k] + [e] + g[k..])[j] == g[j - 1];
    }
  }

  /** An entry for every value and every length, largest first. */
  method BuildFormat(types: seq<Column>) returns (format: seq<Entry>)
    ensures multiset(format) == multiset(Entries(types)) && Descending(format) && IsLayout(types, format)
  {
    var entries: seq<Entry> := [];
    for i := 0 to |types|
      invariant entries == Entries(types[..i])
    {
      entries := entries + ColumnEntries(types[i], i);
      assert types[..i + 1][..i] == types[..i];
    }
    assert types[..|types|] == types;
    format := SortBySize(entries);
    PermutedIsLayout(types, format);
  }

  // ----- The storage -----

  class CompactStorage {
    var ready: bool
    var schema: seq<Column>
    var format: seq<Entry>

    ghost predicate Valid()
      reads this
    {
      ready && IsLayout(schema, format)
    }

    constructor ()
      ensures !ready
    {
      ready, schema, format := false, [], [];
    }

    /** Only the first call has an effect. */
    method Setup(types: seq<Column>)
      requires ready ==> Valid()
      modifies this
      ensures Valid()
      ensures if old(ready) then schema == old(schema) && format == old(format)
              else schema == types && multiset(format) == multiset(Entries(types)) && Descending(format)
    {
      if ready {
        return;
      }
      schema := types;
      format := BuildFormat(types);
      ready := true;
    }

    /** Writes one row and says where it ends. Nothing outside the row changes. */
    method StoreValues(area: array<bv8>, at: nat, items: seq<Item>) returns (end: nat)
      requires Valid() && ItemsOk(schema, items) && at + RowSize(schema, format) <= area.Length
      modifies area
      ensures end == at + RowSize(schema, format)
      ensures RowStored(old(area[..]), area[..], at, schema, format, items)
    {
      end := StoreRow(schema, format, area, at, items);
    }

    /** Reads one row from whatever bytes are there and says where it ends. */
    method LoadValues(area: array<bv8>, at: nat) returns (items: seq<Item>, end: nat)
      requires Valid() && at + RowSize(schema, format) <= area.Length
      ensures end == at + RowSize(schema, format)
      ensures Holds(area[at..end], schema, format, items)
    {
      end := at + RowSize(schema, format);
      items := LoadParts(schema, format, area[at..end]);
    }
  }

  // ----- Rows one after the other -----

  function Start(size: nat, i: nat): nat {
    if i == 0 then 0 else Start(size, i - 1) + size
  }

  lemma {:induction false} StartGrows(size: nat, i: nat, j: nat)
    requires i <= j
    ensures Start(size, i) <= Start(size, j)
    decreases j - i
  {
    if i < j { StartGrows(size, i, j - 1); }
  }

  ghost predicate RowHeld(bytes: Bytes, schema: seq<Column>, f: seq<Entry>, rows: seq<seq<Item>>, i: nat) {
    && i < |rows|
    && var at := Start(RowSize(schema, f), i);
       at + RowSize(schema, f) <= |bytes| && Holds(bytes[at..at + RowSize(schema, f)], schema, f, rows[i])
  }

  /** A row written behind others leaves them alone. */
  lemma RowsKept(was: Bytes, now: Bytes, schema: seq<Column>, f: seq<Entry>, rows: seq<seq<Item>>, i: nat, j: nat)
    requires j < i < |rows| && Start(RowSize(schema, f), i) + RowSize(schema, f) <= |was|
    requires OutsideSame(was, now, Start(RowSize(schema, f), i), RowSize(schema, f)) && RowHeld(was, schema, f, rows, j)
    ensures RowHeld(now, schema, f, rows, j)
  {
    var size := RowSize(schema, f);
    var at, end := Start(size, j), Start(size, i);
    StartGrows(size, j + 1, i);
    assert now[at..at + size] == now[..end][at..at + size] == was[..end][at..at + size] == was[at..at + size];
  }

  method StoreAll(st: CompactStorage, area: array<bv8>, rows: seq<seq<Item>>)
    requires st.Valid() && forall i :: 0 <= i < |rows| ==> ItemsOk(st.schema, rows[i])
    requires area.Length == Start(RowSize(st.schema, st.format), |rows|)
    modifies area
    ensures forall j: nat :: j < |rows| ==> RowHeld(area[..], st.schema, st.format, rows, j)
  {
    ghost var size := RowSize(st.schema, st.format);
    var at := 0;
    for i := 0 to |rows|
      invariant at == Start(size, i)
      invariant forall j: nat :: j < i ==> RowHeld(area[..], st.schema, st.format, rows, j)
    {
      StartGrows(size, i + 1, |rows|);
      ghost var was := area[..];
      at := st.StoreValues(area, at, rows[i]);
      forall j: nat | j < i ensures RowHeld(area[..], st.schema, st.format, rows, j) {
        RowsKept(was, area[..], st.schema, st.format, rows, i, j);
      }
    }
  }

  method LoadAll(st: CompactStorage, area: array<bv8>, count: nat, ghost rows: seq<seq<Item>>)
      returns (loaded: seq<seq<Item>>)
    requires st.Valid() && count == |rows| && area.Length == Start(RowSize(st.schema, st.format), count)
    requires forall j: nat :: j < count ==> RowHeld(area[..], st.schema, st.format, rows, j)
    ensures loaded == rows
  {
    ghost var size := RowSize(st.schema, st.format);
    var at := 0;
    loaded := [];
    for i := 0 to count
      invariant at == Start(size, i) && loaded == rows[..i]
    {
      assert RowHeld(area[..], st.schema, st.format, rows, i);
      var items, end := st.LoadValues(area, at);
      assert area[..][at..end] == area[at..end];
      RoundTrip(area[at..end], st.schema, st.format, rows[i], items);
      loaded, at := loaded + [items], end;
    }
  }

  /** Rows stored one after the other in one area are loaded back as they were. */
  method StoreThenLoad(types: seq<Column>, rows: seq<seq<Item>>) returns (loaded: seq<seq<Item>>)
    requires forall i :: 0 <= i < |rows| ==> ItemsOk(types, rows[i])
    ensures loaded == rows
  {
    var st := new CompactStorage();
    st.Setup(types);
    var area := new bv8[Start(RowSize(st.schema, st.format), |rows|)];
    StoreAll(st, area, rows);
    loaded := LoadAll(st, area, |rows|, rows);
  }

  method StoreRow(schema: seq<Column>, f: seq<Entry>, area: array<bv8>, at: nat, items: seq<Item>) returns (end: nat)
    requires IsLayout(schema, f) && ItemsOk(schema, items) && at + RowSize(schema, f) <= area.Length
    modifies area
    ensures end == at + RowSize(schema, f) && RowStored(old(area[..]), area[..], at, schema, f, items)
  {
    end := at + RowSize(schema, f);
    ghost var was := area[..];
    var bitmap := StoreParts(schema, f, area, at, items);
    StoreEnds(was, area[..], at, schema, f, items, bitmap);
    WriteBitmap(area, at, bitmap);
  }

  /** The row at `at` holds the items, and nothing outside it has changed. */
  ghost predicate RowStored(was: Bytes, now: Bytes, at: nat, schema: seq<Column>, f: seq<Entry>, items: seq<Item>)
    requires at + RowSize(schema, f) <= |was|
  {
    OutsideSame(was, now, at, RowSize(schema, f)) && Holds(now[at..at + RowSize(schema, f)], schema, f, items)
  }

  /** The parts are written in the order of the layout while the null bits are collected by column. */
  method StoreParts(schema: seq<Column>, f: seq<Entry>, area: array<bv8>, at: nat, items: seq<Item>)
      returns (bitmap: Bitmap)
    requires IsLayout(schema, f) && ItemsOk(schema, items) && at + RowSize(schema, f) <= area.Length
    modifies area
    ensures Stored(old(area[..]), area[..], at, schema, f, items, bitmap, |f|)
  {
    ghost var was := area[..];
    bitmap := seq(BitmapBytes(|schema|), _ => None);
    NoBits(schema, f, items, bitmap);
    for i := 0 to |f|
      invariant Stored(was, area[..], at, schema, f, items, bitmap, i)
    {
      var e := f[i];
      assert EntryOk(schema, e);
      StoreStep(was, area[..], at, schema, f, items, bitmap, i);
      WriteBytes(area, at + Place(schema, f, i), Part(items, e));
      if !e.isLength {
        bitmap := SetBit(bitmap, e.col, items[e.col].isNull);
      }
    }
  }

  /** The first `n` entries of the row at `at` are stored and their null bits collected. */
  ghost predicate Stored(was: Bytes, now: Bytes, at: nat, schema: seq<Column>, f: seq<Entry>, items: seq<Item>,
      bitmap: Bitmap, n: nat) {
    && at + RowSize(schema, f) <= |was| && OutsideSame(was, now, at, RowSize(schema, f))
    && PartsDone(now[at..at + RowSize(schema, f)], schema, f, items, n)
    && BitsDone(bitmap, schema, f, items, n)
  }

  lemma StoreStep(was: Bytes, b: Bytes, at: nat, schema: seq<Column>, f: seq<Entry>, items: seq<Item>, bitmap: Bitmap,
      i: nat)
    requires Stored(was, b, at, schema, f, items, bitmap, i)
    requires i < |f| && ItemsOk(schema, items) && EntryOk(schema, f[i])
    ensures f[i].col < |items| && at + Place(schema, f, i) + |Part(items, f[i])| <= |b|
    ensures Stored(was, Splice(b, at + Place(schema, f, i), Part(items, f[i])), at, schema, f, items,
                   if f[i].isLength then bitmap else SetBit(bitmap, f[i].col, items[f[i].col].isNull), i + 1)
  {
    var e, size := f[i], RowSize(schema, f);
    var x := Part(items, e);
    assert ItemOk(schema[e.col], items[e.col]);
    PartStep(b[at..at + size], schema, f, items, i);
    SplicedRow(b, at, size, Place(schema, f, i), x);
    OutsideTwice(was, b, Splice(b, at + Place(schema, f, i), x), at, size);
    BitStep(bitmap, schema, f, items, i);
  }

  lemma PartStep(row: Bytes, schema: seq<Column>, f: seq<Entry>, items: seq<Item>, i: nat)
    requires PartsDone(row, schema, f, items, i) && i < |f| && EntryOk(schema, f[i])
    requires f[i].col < |items| && |Part(items, f[i])| == f[i].size
    ensures Place(schema, f, i) + f[i].size <= |row|
    ensures PartsDone(Splice(row, Place(schema, f, i), Part(items, f[i])), schema, f, items, i + 1)
  {
    SplicedPart(row, schema, f, i, Part(items, f[i]));
    var now := Splice(row, Place(schema, f, i), Part(items, f[i]));
    forall j: nat | j < i + 1 ensures PartDone(now, schema, f, items, j) {
      if j < i { assert PartDone(row, schema, f, items, j); }
    }
  }

  lemma OutsideTwice(a: Bytes, b: Bytes, c: Bytes, at: nat, size: nat)
    requires at + size <= |a| && OutsideSame(a, b, at, size) && OutsideSame(b, c, at, size)
    ensures OutsideSame(a, c, at, size)
  {
  }

  function BitmapRow(bitmap: Bitmap): Bytes {
    seq(|bitmap|, i requires 0 <= i < |bitmap| => ByteOf(bitmap[i]))
  }

  lemma StoreEnds(was: Bytes, b: Bytes, at: nat, schema: seq<Column>, f: seq<Entry>, items: seq<Item>, bitmap: Bitmap)
    requires Stored(was, b, at, schema, f, items, bitmap, |f|) && IsLayout(schema, f) && ItemsOk(schema, items)
    ensures at + |bitmap| <= |b|
    ensures RowStored(was, Splice(b, at, BitmapRow(bitmap)), at, schema, f, items)
  {
    var size, x := RowSize(schema, f), BitmapRow(bitmap);
    var now := Splice(b, at, x);
    RowEnds(b[at..at + size], schema, f, items, bitmap);
    assert OutsideSame(b, now, at, size) && now[at..at + size] == Splice(b[at..at + size], 0, x) by {
      SplicedRow(b, at, size, 0, x);
    }
    OutsideTwice(was, b, now, at, size);
  }

  lemma RowEnds(row: Bytes, schema: seq<Column>, f: seq<Entry>, items: seq<Item>, bitmap: Bitmap)
    requires IsLayout(schema, f) && ItemsOk(schema, items)
    requires PartsDone(row, schema, f, items, |f|) && BitsDone(bitmap, schema, f, items, |f|)
    ensures Holds(Splice(row, 0, BitmapRow(bitmap)), schema, f, items)
  {
    var x := BitmapRow(bitmap);
    var now := Splice(row, 0, x);
    SplicedBitmap(row, schema, f, x);
    BitsAll(bitmap, schema, f, items);
    forall c: nat | c < |schema| ensures NullBit(now, c) == items[c].isNull { assert now[c / 8] == x[c / 8]; }
    forall j: nat | j < |f| ensures PartDone(now, schema, f, items, j) { assert PartDone(row, schema, f, items, j); }
  }

  ghost predicate PartsDone(row: Bytes, schema: seq<Column>, f: seq<Entry>, items: seq<Item>, n: nat) {
    && n <= |f| && |row| == RowSize(schema, f)
    && forall j: nat {:trigger PartDone(row, schema, f, items, j)} :: j < n ==> PartDone(row, schema, f, items, j)
  }

  ghost predicate BitsDone(b: Bitmap, schema: seq<Column>, f: seq<Entry>, items: seq<Item>, n: nat) {
    && |items| == |schema| && n <= |f| && |b| == BitmapBytes(|schema|)
    && forall c: nat :: c < |schema| ==> BitOf(b, c) == (items[c].isNull && Covers(f[..n], c, false))
  }

  lemma NoBits(schema: seq<Column>, f: seq<Entry>, items: seq<Item>, b: Bitmap)
    requires |items| == |schema| && |b| == BitmapBytes(|schema|) && forall i :: 0 <= i < |b| ==> b[i] == None
    ensures BitsDone(b, schema, f, items, 0)
  {
    forall c: nat | c < |schema| ensures !BitOf(b, c) { AllOrNothing(c % 8); }
  }

  lemma BitStep(b: Bitmap, schema: seq<Column>, f: seq<Entry>, items: seq<Item>, n: nat)
    requires BitsDone(b, schema, f, items, n) && n < |f| && EntryOk(schema, f[n])
    ensures BitsDone(if f[n].isLength then b else SetBit(b, f[n].col, items[f[n].col].isNull), schema, f, items, n + 1)
  {
    var e := f[n];
    var now := if e.isLength then b else SetBit(b, e.col, items[e.col].isNull);
    forall c: nat | c < |schema| ensures BitOf(now, c) == (items[c].isNull && Covers(f[..n + 1], c, false)) {
      if !e.isLength { SetBitAt(b, e.col, items[e.col].isNull, c); }
      CoversGrows(f, n, c);
    }
  }

  lemma CoversGrows(f: seq<Entry>, n: nat, c: nat)
    requires n < |f|
    ensures Covers(f[..n + 1], c, false) <==> Covers(f[..n], c, false) || (f[n].col == c && !f[n].isLength)
  {
    var a, b := f[..n], f[..n + 1];
    assert b == a + [f[n]];
    if Covers(a, c, false) {
      var i :| 0 <= i < |a| && a[i].col == c && a[i].isLength == false;
      assert b[i] == a[i];
    }
    if f[n].col == c && !f[n].isLength { assert b[n] == f[n]; }
  }

  lemma BitsAll(b: Bitmap, schema: seq<Column>, f: seq<Entry>, items: seq<Item>)
    requires IsLayout(schema, f) && BitsDone(b, schema, f, items, |f|)
    ensures forall c: nat :: c < |schema| ==> BitOf(b, c) == items[c].isNull
  {
    assert f[..|f|] == f;
  }

  method WriteBitmap(area: array<bv8>, at: nat, bitmap: Bitmap)
    requires at + |bitmap| <= area.Length
    modifies area
    ensures area[..] == Splice(old(area[..]), at, BitmapRow(bitmap))
  {
    ghost var x := BitmapRow(bitmap);
    for i := 0 to |bitmap|
      invariant forall j :: 0 <= j < area.Length ==> area[j] == if at <= j < at + i then x[j - at] else old(area[j])
    {
      area[at + i] := if bitmap[i].Some? then bitmap[i].value else 0;
    }
  }

  method LoadParts(schema: seq<Column>, f: seq<Entry>, row: Bytes) returns (items: seq<Item>)
    requires IsLayout(schema, f) && |row| == RowSize(schema, f)
    ensures Holds(row, schema, f, items)
  {
    var n := |schema|;
    var vals: seq<Bytes> := seq(n, _ => []);
    var lens: seq<Bytes> := seq(n, _ => []);
    var nulls := seq(n, _ => false);
    for i := 0 to |f|
      invariant Loaded(row, schema, f, vals, lens, nulls, i)
    {
      var e := f[i];
      LoadStep(row, schema, f, vals, lens, nulls, i);
      var x := SliceAt(row, schema, f, i);
      if e.isLength {
        lens := lens[e.col := x];
      } else {
        vals := vals[e.col := x];
        nulls := nulls[e.col := NullBit(row, e.col)];
      }
    }
    LoadEnds(row, schema, f, vals, lens, nulls);
    items := seq(n, c requires 0 <= c < n => Item(vals[c], lens[c], nulls[c]));
  }

  ghost predicate EntryLoaded(row: Bytes, schema: seq<Column>, f: seq<Entry>, vals: seq<Bytes>, lens: seq<Bytes>,
      nulls: seq<bool>, j: nat)
    requires |row| == RowSize(schema, f) && |vals| == |lens| == |nulls| == |schema| && j < |f|
  {
    EntryOk(schema, f[j]) &&
    if f[j].isLength then lens[f[j].col] == SliceAt(row, schema, f, j)
    else vals[f[j].col] == SliceAt(row, schema, f, j) && nulls[f[j].col] == NullBit(row, f[j].col)
  }

  ghost predicate Loaded(row: Bytes, schema: seq<Column>, f: seq<Entry>, vals: seq<Bytes>, lens: seq<Bytes>,
      nulls: seq<bool>, n: nat) {
    && IsLayout(schema, f) && |row| == RowSize(schema, f) && |vals| == |lens| == |nulls| == |schema| && n <= |f|
    && (forall j: nat :: j < n ==> EntryLoaded(row, schema, f, vals, lens, nulls, j))
    && (forall c :: 0 <= c < |schema| && schema[c].lenSize == 0 ==> lens[c] == [])
  }

  lemma LoadStep(row: Bytes, schema: seq<Column>, f: seq<Entry>, vals: seq<Bytes>, lens: seq<Bytes>, nulls: seq<bool>,
      i: nat)
    requires Loaded(row, schema, f, vals, lens, nulls, i) && i < |f|
    ensures f[i].col < |schema| && Place(schema, f, i) + f[i].size <= |row|
    ensures var (c, x) := (f[i].col, SliceAt(row, schema, f, i));
            if f[i].isLength then Loaded(row, schema, f, vals, lens[c := x], nulls, i + 1)
            else Loaded(row, schema, f, vals[c := x], lens, nulls[c := NullBit(row, c)], i + 1)
  {
    var e, x := f[i], SliceAt(row, schema, f, i);
    assert EntryOk(schema, e);
    OffsetGrows(f, i + 1, |f|);
    if e.isLength {
      var lens' := lens[e.col := x];
      forall j: nat | j < i + 1 ensures EntryLoaded(row, schema, f, vals, lens', nulls, j) {
        if j < i { assert EntryLoaded(row, schema, f, vals, lens, nulls, j) && (f[j].isLength ==> f[j].col != e.col); }
      }
    } else {
      var vals', nulls' := vals[e.col := x], nulls[e.col := NullBit(row, e.col)];
      forall j: nat | j < i + 1 ensures EntryLoaded(row, schema, f, vals', lens, nulls', j) {
        if j < i { assert EntryLoaded(row, schema, f, vals, lens, nulls, j) && (f[j].isLength || f[j].col != e.col); }
      }
    }
  }

  lemma LoadEnds(row: Bytes, schema: seq<Column>, f: seq<Entry>, vals: seq<Bytes>, lens: seq<Bytes>, nulls: seq<bool>)
    requires Loaded(row, schema, f, vals, lens, nulls, |f|)
    ensures Holds(row, schema, f, seq(|schema|, c requires 0 <= c < |schema| => Item(vals[c], lens[c], nulls[c])))
  {
    var items := seq(|schema|, c requires 0 <= c < |schema| => Item(vals[c], lens[c], nulls[c]));
    forall c: nat | c < |schema| ensures ItemOk(schema[c], items[c]) && NullBit(row, c) == items[c].isNull {
      assert Covers(f, c, false);
      var i :| 0 <= i < |f| && f[i].col == c && f[i].isLength == false;
      assert EntryLoaded(row, schema, f, vals, lens, nulls, i);
      if schema[c].lenSize > 0 {
        assert Covers(f, c, true);
        var j :| 0 <= j < |f| && f[j].col == c && f[j].isLength == true;
        assert EntryLoaded(row, schema, f, vals, lens, nulls, j);
      }
    }
    forall j: nat | j < |f| ensures PartDone(row, schema, f, items, j) {
      assert EntryLoaded(row, schema, f, vals, lens, nulls, j);
    }
  }
}
