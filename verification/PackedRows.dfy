/** The packed row format: a null bitmap, then the parts of all columns ordered by size, without padding. */
module PackedRows {
  import opened Bits
  type Bytes = seq<bv8>

  /** Sizes in bytes of a column's value and of its length part, which fixed-size columns lack (0). */
  datatype Column = Column(valSize: nat, lenSize: nat, nullable: bool)

  datatype Entry = Entry(col: nat, isLength: bool, size: nat)

  /** The raw value, the raw length and the null bit of one column. */
  datatype Item = Item(val: Bytes, len: Bytes, isNull: bool)

  predicate ItemOk(c: Column, x: Item) { |x.val| == c.valSize && |x.len| == c.lenSize }

  predicate ItemsOk(schema: seq<Column>, items: seq<Item>) {
    |items| == |schema| && forall i :: 0 <= i < |schema| ==> ItemOk(schema[i], items[i])
  }

  // ----- Layouts -----

  function ColumnEntries(c: Column, i: nat): seq<Entry> {
    [Entry(i, false, c.valSize)] + if c.lenSize > 0 then [Entry(i, true, c.lenSize)] else []
  }

  function Entries(schema: seq<Column>): seq<Entry> {
    if schema == [] then []
    else
      var m := |schema| - 1;
      Entries(schema[..m]) + ColumnEntries(schema[m], m)
  }

  predicate EntryOk(schema: seq<Column>, e: Entry) {
    e.col < |schema| &&
    if e.isLength then e.size == schema[e.col].lenSize > 0 else e.size == schema[e.col].valSize
  }

  ghost predicate Covers(f: seq<Entry>, col: nat, isLength: bool) {
    exists i :: 0 <= i < |f| && f[i].col == col && f[i].isLength == isLength
  }

  /** Every part of every column has exactly one place. */
  ghost predicate IsLayout(schema: seq<Column>, f: seq<Entry>) {
    && (forall i {:trigger EntryOk(schema, f[i])} :: 0 <= i < |f| ==> EntryOk(schema, f[i]))
    && (forall i, j :: 0 <= i < j < |f| ==> f[i].col != f[j].col || f[i].isLength != f[j].isLength)
    && (forall c: nat {:trigger Covers(f, c, false)} :: c < |schema| ==> Covers(f, c, false))
    && (forall c: nat {:trigger Covers(f, c, true)} :: c < |schema| && schema[c].lenSize > 0 ==> Covers(f, c, true))
  }

  lemma {:induction false} EntryCount(schema: seq<Column>, e: Entry)
    ensures multiset(Entries(schema))[e] == if EntryOk(schema, e) then 1 else 0
  {
    if schema != [] {
      var m := |schema| - 1;
      EntryCount(schema[..m], e);
      var es := ColumnEntries(schema[m], m);
      assert multiset(es)[e] == if e.col == m && EntryOk(schema, e) then 1 else 0;
      assert e.col < m ==> schema[..m][e.col] == schema[e.col];
    }
  }

  /** Sorting the entries in any way gives a layout. */
  lemma PermutedIsLayout(schema: seq<Column>, f: seq<Entry>)
    requires multiset(f) == multiset(Entries(schema))
    ensures IsLayout(schema, f)
  {
    forall i | 0 <= i < |f| ensures EntryOk(schema, f[i]) {
      assert f[i] in multiset(f);
      EntryCount(schema, f[i]);
    }
    forall i, j | 0 <= i < j < |f| ensures f[i].col != f[j].col || f[i].isLength != f[j].isLength {
      EntryCount(schema, f[i]);
      TwiceCounted(f, i, j);
      assert EntryOk(schema, f[i]) && EntryOk(schema, f[j]);
    }
    forall c: nat | c < |schema| ensures Covers(f, c, false) {
      CoversOne(schema, f, Entry(c, false, schema[c].valSize));
    }
    forall c: nat | c < |schema| && schema[c].lenSize > 0 ensures Covers(f, c, true) {
      CoversOne(schema, f, Entry(c, true, schema[c].lenSize));
    }
  }

  lemma CoversOne(schema: seq<Column>, f: seq<Entry>, e: Entry)
    requires multiset(f) == multiset(Entries(schema)) && EntryOk(schema, e)
    ensures Covers(f, e.col, e.isLength)
  {
    EntryCount(schema, e);
    assert e in multiset(f);
    var i :| 0 <= i < |f| && f[i] == e;
  }

  lemma TwiceCounted<T>(f: seq<T>, i: nat, j: nat)
    requires i < j < |f|
    ensures f[i] == f[j] ==> multiset(f)[f[i]] >= 2
  {
    assert f == f[..j] + [f[j]] + f[j + 1..];
    assert f[i] == f[..j][i];
    assert f[i] in multiset(f[..j]);
  }

  // ----- Places -----

  /** The fewest bytes that have a bit for every column. */
  function BitmapBytes(n: nat): (r: nat)
    ensures 8 * r >= n && (r > 0 ==> 8 * (r - 1) < n)
  {
    (n + 7) / 8
  }

  function Offset(f: seq<Entry>, n: nat): nat
    requires n <= |f|
  {
    if n == 0 then 0 else Offset(f, n - 1) + f[n - 1].size
  }

  lemma {:induction false} OffsetGrows(f: seq<Entry>, i: nat, j: nat)
    requires i <= j <= |f|
    ensures Offset(f, i) <= Offset(f, j)
    decreases j - i
  {
    if i < j { OffsetGrows(f, i, j - 1); }
  }

  function RowSize(schema: seq<Column>, f: seq<Entry>): nat { BitmapBytes(|schema|) + Offset(f, |f|) }

  function Part(items: seq<Item>, e: Entry): Bytes
    requires e.col < |items|
  {
    if e.isLength then items[e.col].len else items[e.col].val
  }

  /** The bytes of entry `i` in a row. */
  function Place(schema: seq<Column>, f: seq<Entry>, i: nat): (p: nat)
    requires i <= |f|
  {
    BitmapBytes(|schema|) + Offset(f, i)
  }

  function SliceAt(bytes: Bytes, schema: seq<Column>, f: seq<Entry>, i: nat): (r: Bytes)
    requires i < |f| && |bytes| == RowSize(schema, f)
    ensures |r| == f[i].size
  {
    OffsetGrows(f, i + 1, |f|);
    bytes[Place(schema, f, i)..Place(schema, f, i) + f[i].size]
  }

  lemma {:induction false} EntryHolding(f: seq<Entry>, q: nat, n: nat) returns (i: nat)
    requires n <= |f| && q < Offset(f, n)
    ensures i < n && Offset(f, i) <= q < Offset(f, i) + f[i].size
  {
    if q < Offset(f, n - 1) { i := EntryHolding(f, q, n - 1); } else { i := n - 1; }
  }

  /** Byte `p` of a row belongs to entry `i`. */
  predicate Owns(schema: seq<Column>, f: seq<Entry>, i: nat, p: nat) {
    i < |f| && Place(schema, f, i) <= p < Place(schema, f, i) + f[i].size
  }

  /** There is no padding: every byte after the bitmap belongs to exactly one entry. */
  lemma NoPadding(schema: seq<Column>, f: seq<Entry>, p: nat) returns (i: nat)
    requires BitmapBytes(|schema|) <= p < RowSize(schema, f)
    ensures Owns(schema, f, i, p) && forall j: nat :: Owns(schema, f, j, p) ==> j == i
  {
    i := EntryHolding(f, p - BitmapBytes(|schema|), |f|);
    forall j: nat | Owns(schema, f, j, p) ensures j == i {
      if j < i { OffsetGrows(f, j + 1, i); } else if i < j { OffsetGrows(f, i + 1, j); }
    }
  }

  function NullBit(bytes: Bytes, c: nat): bool
    requires c / 8 < |bytes|
  {
    Bit(bytes[c / 8], c % 8)
  }

  /** The bytes of entry `j` are its part of the items. */
  ghost predicate PartDone(row: Bytes, schema: seq<Column>, f: seq<Entry>, items: seq<Item>, j: nat)
    requires |row| == RowSize(schema, f) && j < |f|
  {
    f[j].col < |items| && SliceAt(row, schema, f, j) == Part(items, f[j])
  }

  /** The row holds these items. */
  ghost predicate Holds(bytes: Bytes, schema: seq<Column>, f: seq<Entry>, items: seq<Item>) {
    && ItemsOk(schema, items) && IsLayout(schema, f) && |bytes| == RowSize(schema, f)
    && (forall i: nat {:trigger PartDone(bytes, schema, f, items, i)} :: i < |f| ==>
      PartDone(bytes, schema, f, items, i))
    && (forall c: nat {:trigger NullBit(bytes, c)} :: c < |schema| ==> NullBit(bytes, c) == items[c].isNull)
  }

  /** A row of bytes holds the items of one row only: what was stored is what is loaded. */
  lemma RoundTrip(bytes: Bytes, schema: seq<Column>, f: seq<Entry>, stored: seq<Item>, loaded: seq<Item>)
    requires Holds(bytes, schema, f, stored) && Holds(bytes, schema, f, loaded)
    ensures loaded == stored
  {
    forall c: nat | c < |schema| ensures stored[c] == loaded[c] {
      assert NullBit(bytes, c) == stored[c].isNull;
      assert ItemOk(schema[c], stored[c]) && ItemOk(schema[c], loaded[c]);
      SamePart(bytes, schema, f, stored, loaded, c, false);
      if schema[c].lenSize > 0 { SamePart(bytes, schema, f, stored, loaded, c, true); }
    }
  }

  lemma SamePart(bytes: Bytes, schema: seq<Column>, f: seq<Entry>, x: seq<Item>, y: seq<Item>, c: nat, isLength: bool)
    requires Holds(bytes, schema, f, x) && Holds(bytes, schema, f, y) && c < |schema| && Covers(f, c, isLength)
    ensures if isLength then x[c].len == y[c].len else x[c].val == y[c].val
  {
    var i :| 0 <= i < |f| && f[i].col == c && f[i].isLength == isLength;
    assert PartDone(bytes, schema, f, x, i) && PartDone(bytes, schema, f, y, i);
  }
}
