/** Packed rows whose columns are read and written one at a time, with a write-back cache of the null bitmap. */
module UpdateableStorages {
  import opened Base
  import opened Bits
  import opened PackedRows
  import opened CompactStorages

  /** The raw value and length of a column. */
  datatype Cell = Cell(val: Bytes, len: Bytes)

  predicate CellOk(c: Column, x: Cell) { |x.val| == c.valSize && |x.len| == c.lenSize }

  // ----- What a row with a cached bitmap means -----

  function Effective(row: Bytes, cache: Bitmap, b: nat): bv8
    requires b < |cache| <= |row|
  {
    if cache[b].Some? then cache[b].value else row[b]
  }

  function NullAt(row: Bytes, cache: Bitmap, c: nat): bool
    requires c / 8 < |cache| <= |row|
  {
    Bit(Effective(row, cache, c / 8), c % 8)
  }

  ghost function EntryFor(f: seq<Entry>, c: nat, isLength: bool): (i: nat)
    requires Covers(f, c, isLength)
    ensures i < |f| && f[i].col == c && f[i].isLength == isLength
  {
    var i: nat :| i < |f| && f[i].col == c && f[i].isLength == isLength; i
  }

  ghost predicate RowOk(row: Bytes, schema: seq<Column>, f: seq<Entry>) {
    IsLayout(schema, f) && |row| == RowSize(schema, f)
  }

  ghost function RawPart(row: Bytes, schema: seq<Column>, f: seq<Entry>, c: nat, isLength: bool): Bytes
    requires RowOk(row, schema, f) && c < |schema|
  {
    if isLength && schema[c].lenSize == 0 then []
    else
      assert Covers(f, c, isLength);
      SliceAt(row, schema, f, EntryFor(f, c, isLength))
  }

  /** The cell at column `c`, or None for NULL. */
  ghost function CellAt(row: Bytes, cache: Bitmap, schema: seq<Column>, f: seq<Entry>, c: nat): Option<Cell>
    requires RowOk(row, schema, f) && c < |schema| && |cache| == BitmapBytes(|schema|)
  {
    if NullAt(row, cache, c) then None
    else Some(Cell(RawPart(row, schema, f, c, false), RawPart(row, schema, f, c, true)))
  }

  ghost function Cells(row: Bytes, cache: Bitmap, schema: seq<Column>, f: seq<Entry>): seq<Option<Cell>>
    requires RowOk(row, schema, f) && |cache| == BitmapBytes(|schema|)
  {
    seq(|schema|, c requires 0 <= c < |schema| => CellAt(row, cache, schema, f, c))
  }

  /** Clean bytes of the cache agree with memory, and dirty ones are there. */
  ghost predicate CacheOk(row: Bytes, cache: Bitmap, dirty: seq<bool>) {
    && |cache| == |dirty| <= |row|
    && forall b :: 0 <= b < |cache| ==> if dirty[b] then cache[b].Some? else cache[b].Some? ==> cache[b].value == row[b]
  }

  function WithBit(b: bv8, k: nat, v: bool): bv8
    requires k < 8
  {
    (b & !Mask(k)) | (Flag(v) << k)
  }

  lemma WithBitAt(b: bv8, k: nat, v: bool, j: nat)
    requires k < 8 && j < 8
    ensures Bit(WithBit(b, k, v), j) == if j == k then v else Bit(b, j)
  {
    ClearBit(b, k, j);
    OrBit(b & !Mask(k), k, v, j);
  }

  /** The shorter code for a null bit known in advance does the same. */
  lemma KnownBit(b: bv8, k: nat)
    requires k < 8
    ensures b | Mask(k) == WithBit(b, k, true)
    ensures b & !Mask(k) == WithBit(b, k, false)
  {
    assert Flag(true) << k == Mask(k) && Flag(false) << k == 0 by { Masks(k); }
    OrAfterClear(b, Mask(k));
  }

  method NewByte(b: bv8, k: nat, v: bool, known: bool) returns (r: bv8)
    requires k < 8
    ensures r == WithBit(b, k, v)
  {
    KnownBit(b, k);
    if known {
      r := if v then b | Mask(k) else b & !Mask(k);
    } else {
      r := (b & !Mask(k)) | (Flag(v) << k);
    }
  }

  lemma OrAfterClear(b: bv8, m: bv8)
    ensures (b & !m) | m == b | m
    ensures (b & !m) | 0 == b & !m
  {
  }

  /** A null bit set in the cache shows for its own column only. */
  lemma NullSet(row: Bytes, cache: Bitmap, c: nat, v: bool, d: nat)
    requires c / 8 < |cache| <= |row| && d / 8 < |cache|
    ensures var now := cache[c / 8 := Some(WithBit(Effective(row, cache, c / 8), c % 8, v))];
            NullAt(row, now, d) == if d == c then v else NullAt(row, cache, d)
  {
    if c / 8 == d / 8 { WithBitAt(Effective(row, cache, c / 8), c % 8, v, d % 8); }
  }

  lemma PartWritten(row: Bytes, schema: seq<Column>, f: seq<Entry>, i: nat, x: Bytes, c: nat, isLength: bool)
    requires RowOk(row, schema, f) && i < |f| && |x| == f[i].size && c < |schema|
    ensures Place(schema, f, i) + |x| <= |row|
    ensures var now := Splice(row, Place(schema, f, i), x);
            && RowOk(now, schema, f)
            && RawPart(now, schema, f, c, isLength) ==
               if c == f[i].col && isLength == f[i].isLength then x else RawPart(row, schema, f, c, isLength)
  {
    SplicedPart(row, schema, f, i, x);
    assert EntryOk(schema, f[i]);
    if !(isLength && schema[c].lenSize == 0) {
      assert Covers(f, c, isLength);
    }
  }

  /** Column `c` holds the cell `x`, and every other column and null bit is as before. */
  ghost predicate CellWritten(row: Bytes, now: Bytes, schema: seq<Column>, f: seq<Entry>, c: nat, x: Cell)
    requires RowOk(row, schema, f) && c < |schema|
  {
    && RowOk(now, schema, f)
    && RawPart(now, schema, f, c, false) == x.val && RawPart(now, schema, f, c, true) == x.len
    && (forall d: nat, isLength :: d < |schema| && d != c ==>
      RawPart(now, schema, f, d, isLength) == RawPart(row, schema, f, d, isLength))
    && (forall b :: 0 <= b < BitmapBytes(|schema|) ==> now[b] == row[b])
  }

  lemma FirstPartWritten(row: Bytes, schema: seq<Column>, f: seq<Entry>, c: nat, x: Cell)
    requires RowOk(row, schema, f) && c < |schema| && CellOk(schema[c], x) && Covers(f, c, false)
    ensures var i := EntryFor(f, c, false);
            && Place(schema, f, i) + |x.val| <= |row|
            && CellWritten(row, Splice(row, Place(schema, f, i), x.val), schema, f, c,
              Cell(x.val, RawPart(row, schema, f, c, true)))
  {
    var i := EntryFor(f, c, false);
    assert EntryOk(schema, f[i]);
    SplicedPart(row, schema, f, i, x.val);
    var now := Splice(row, Place(schema, f, i), x.val);
    forall d: nat, isLength | d < |schema|
      ensures RawPart(now, schema, f, d, isLength) ==
              if d == c && !isLength then x.val else RawPart(row, schema, f, d, isLength)
    {
      PartWritten(row, schema, f, i, x.val, d, isLength);
    }
  }

  lemma SecondPartWritten(row: Bytes, mid: Bytes, schema: seq<Column>, f: seq<Entry>, c: nat, x: Cell)
    requires RowOk(row, schema, f) && c < |schema| && CellOk(schema[c], x) && Covers(f, c, true)
    requires CellWritten(row, mid, schema, f, c, Cell(x.val, RawPart(row, schema, f, c, true)))
    ensures var i := EntryFor(f, c, true);
            && Place(schema, f, i) + |x.len| <= |mid|
            && CellWritten(row, Splice(mid, Place(schema, f, i), x.len), schema, f, c, x)
  {
    var i := EntryFor(f, c, true);
    assert EntryOk(schema, f[i]);
    SplicedPart(mid, schema, f, i, x.len);
    var now := Splice(mid, Place(schema, f, i), x.len);
    forall d: nat, isLength | d < |schema|
      ensures RawPart(now, schema, f, d, isLength) ==
              if d == c && isLength then x.len else RawPart(mid, schema, f, d, isLength)
    {
      PartWritten(mid, schema, f, i, x.len, d, isLength);
    }
  }

  lemma CacheKept(row: Bytes, now: Bytes, schema: seq<Column>, f: seq<Entry>, c: nat, x: Cell, cache: Bitmap,
      dirty: seq<bool>)
    requires RowOk(row, schema, f) && c < |schema| && CellWritten(row, now, schema, f, c, x)
    requires CacheOk(row, cache, dirty) && |cache| == BitmapBytes(|schema|)
    ensures CacheOk(now, cache, dirty)
  {
  }

  lemma CellsWritten(row: Bytes, now: Bytes, cache: Bitmap, nowCache: Bitmap, schema: seq<Column>, f: seq<Entry>,
      c: nat, v: Option<Cell>)
    requires RowOk(row, schema, f) && c < |schema| && |cache| == |nowCache| == BitmapBytes(|schema|)
    requires forall d: nat :: d / 8 < |cache| ==>
               NullAt(row, nowCache, d) == if d == c then v.None? else NullAt(row, cache, d)
    requires if v.None? then now == row else CellWritten(row, now, schema, f, c, v.value)
    ensures RowOk(now, schema, f) && Cells(now, nowCache, schema, f) == Cells(row, cache, schema, f)[c := v]
  {
    var cells := Cells(row, cache, schema, f)[c := v];
    forall d: nat | d < |schema| ensures CellAt(now, nowCache, schema, f, d) == cells[d] {
      assert NullAt(now, nowCache, d) == NullAt(row, nowCache, d);
    }
  }

  /** Writing back the bitmap changes what no column reads, and afterwards memory alone tells. */
  lemma WriteBackKeepsCells(row: Bytes, now: Bytes, cache: Bitmap, empty: Bitmap, schema: seq<Column>, f: seq<Entry>)
    requires RowOk(row, schema, f) && |now| == |row| && |cache| == |empty| == BitmapBytes(|schema|)
    requires forall b :: 0 <= b < |cache| ==> empty[b] == None && now[b] == Effective(row, cache, b)
    requires forall b :: |cache| <= b < |row| ==> now[b] == row[b]
    ensures Cells(now, empty, schema, f) == Cells(row, cache, schema, f)
  {
    forall j: nat | j < |f| ensures SliceAt(now, schema, f, j) == SliceAt(row, schema, f, j) {
      OffsetGrows(f, j + 1, |f|);
      var lo := Place(schema, f, j);
      assert forall b :: lo <= b < lo + f[j].size ==> now[b] == row[b];
      assert now[lo..lo + f[j].size] == row[lo..lo + f[j].size];
    }
    forall d: nat | d < |schema| ensures CellAt(now, empty, schema, f, d) == CellAt(row, cache, schema, f, d) {
      assert Effective(now, empty, d / 8) == Effective(row, cache, d / 8);
    }
  }

  // ----- The bitmap -----

  class NullBitmap {
    const space: array<bv8>
    var bytes: Bitmap
    var dirty: seq<bool>

    ghost predicate Valid()
      reads this, space
    {
      CacheOk(space[..], bytes, dirty)
    }

    constructor (space: array<bv8>, columns: nat)
      requires BitmapBytes(columns) <= space.Length
      ensures Valid() && this.space == space && bytes == seq(BitmapBytes(columns), _ => None)
    {
      this.space := space;
      bytes := seq(BitmapBytes(columns), _ => None);
      dirty := seq(BitmapBytes(columns), _ => false);
    }

    /** Every column becomes NULL. */
    method InitAllNull()
      requires Valid()
      modifies this
      ensures Valid() && |bytes| == old(|bytes|)
      ensures forall c: nat :: c / 8 < |bytes| ==> NullAt(space[..], bytes, c)
    {
      bytes := seq(|bytes|, _ => Some(0xFF as bv8));
      dirty := seq(|bytes|, _ => true);
      forall c: nat | c / 8 < |bytes| ensures NullAt(space[..], bytes, c) { AllOrNothing(c % 8); }
    }

    /** The byte with the bit of column `c`, loaded unless it is cached. */
    method ByteFor(c: nat) returns (b: bv8)
      requires Valid() && c / 8 < |bytes|
      modifies this`bytes
      ensures Valid() && b == Effective(space[..], old(bytes), c / 8)
      ensures bytes == old(bytes)[c / 8 := Some(b)]
    {
      if bytes[c / 8].None? {
        bytes := bytes[c / 8 := Some(space[c / 8])];
      }
      b := bytes[c / 8].value;
    }

    method IsNull(c: nat) returns (isNull: bool)
      requires Valid() && c / 8 < |bytes|
      modifies this`bytes
      ensures Valid() && |bytes| == old(|bytes|) && isNull == NullAt(space[..], bytes, c)
      ensures forall d: nat :: d / 8 < |bytes| ==> NullAt(space[..], bytes, d) == old(NullAt(space[..], bytes, d))
    {
      var b := ByteFor(c);
      isNull := b & Mask(c % 8) != 0;
    }

    /** `known` says that the bit is a constant, for which shorter code is emitted. */
    method SetNull(c: nat, v: bool, known: bool)
      requires Valid() && c / 8 < |bytes|
      modifies this
      ensures Valid() && |bytes| == old(|bytes|)
      ensures forall d: nat :: d / 8 < |bytes| ==>
                NullAt(space[..], bytes, d) == if d == c then v else old(NullAt(space[..], bytes, d))
    {
      ghost var was := bytes;
      var b := ByteFor(c);
      var now := NewByte(b, c % 8, v, known);
      bytes := bytes[c / 8 := Some(now)];
      dirty := dirty[c / 8 := true];
      assert bytes == was[c / 8 := Some(WithBit(Effective(space[..], was, c / 8), c % 8, v))];
      forall d: nat | d / 8 < |bytes|
        ensures NullAt(space[..], bytes, d) == if d == c then v else NullAt(space[..], was, d)
      {
        NullSet(space[..], was, c, v, d);
      }
    }

    /** Writes the dirty bytes and empties the cache: memory alone now says what is NULL. */
    method WriteBack()
      requires Valid()
      modifies this, space
      ensures Valid() && bytes == seq(old(|bytes|), _ => None)
      ensures forall b :: 0 <= b < |bytes| ==> space[b] == old(Effective(space[..], bytes, b))
      ensures forall b :: |bytes| <= b < space.Length ==> space[b] == old(space[b])
      ensures forall schema, f :: RowOk(old(space[..]), schema, f) && BitmapBytes(|schema|) == |bytes| ==>
                                    RowOk(space[..], schema, f) &&
                                    Cells(space[..], bytes, schema, f) == old(Cells(space[..], bytes, schema, f))
    {
      ghost var row, cache := space[..], bytes;
      for i := 0 to |bytes|
        invariant bytes == cache && dirty == old(dirty)
        invariant forall b :: 0 <= b < i ==> space[b] == Effective(row, cache, b)
        invariant forall b :: i <= b < space.Length ==> space[b] == row[b]
      {
        if dirty[i] {
          space[i] := bytes[i].value;
        }
      }
      bytes := seq(|bytes|, _ => None);
      dirty := seq(|bytes|, _ => false);
      forall schema, f | RowOk(row, schema, f) && BitmapBytes(|schema|) == |bytes|
        ensures RowOk(space[..], schema, f) && Cells(space[..], bytes, schema, f) == Cells(row, cache, schema, f)
      {
        WriteBackKeepsCells(row, space[..], cache, bytes, schema, f);
      }
    }
  }

  // ----- The storage -----

  class UpdateableStorage {
    var ready: bool
    var schema: seq<Column>
    var format: seq<Entry>

    constructor ()
      ensures !ready && schema == []
    {
      ready, schema, format := false, [], [];
    }

    ghost predicate Valid()
      reads this
    {
      ready && IsLayout(schema, format)
    }

    method AddType(c: Column) returns (index: nat)
      requires !ready
      modifies this`schema
      ensures schema == old(schema) + [c] && index == |old(schema)|
    {
      schema := schema + [c];
      index := |schema| - 1;
    }

    method Finalize()
      requires ready ==> Valid()
      modifies this`ready, this`format
      ensures Valid() && (old(ready) ==> format == old(format))
      ensures !old(ready) ==> multiset(format) == multiset(Entries(schema)) && Descending(format)
    {
      if !ready {
        format := BuildFormat(schema);
        ready := true;
      }
    }

    /** Physical positions count the bitmap bytes first; -1 says that there is no length. */
    method FindStoragePositionFor(c: nat) returns (val: int, len: int)
      requires Valid() && c < |schema|
      ensures Covers(format, c, false) && val == BitmapBytes(|schema|) + EntryFor(format, c, false)
      ensures if schema[c].lenSize == 0 then len == -1
              else Covers(format, c, true) && len == BitmapBytes(|schema|) + EntryFor(format, c, true)
    {
      val, len := -1, -1;
      var base := BitmapBytes(|schema|);
      for i := 0 to |format|
        invariant forall j :: 0 <= j < i && format[j].col == c ==> (if format[j].isLength then len else val) == base + j
        invariant len != -1 ==> base <= len < base + i && format[len - base].col == c && format[len - base].isLength
        invariant len != -1 ==> schema[c].lenSize > 0
      {
        assert EntryOk(schema, format[i]);
        if format[i].col == c {
          if format[i].isLength { len := base + i; } else { val := base + i; }
        }
      }
      assert Covers(format, c, false);
      assert schema[c].lenSize > 0 ==> Covers(format, c, true);
    }

    /** The raw cell, whatever its null bit says. */
    method GetValueSkipNull(space: array<bv8>, c: nat) returns (x: Cell)
      requires Valid() && c < |schema| && RowOk(space[..], schema, format)
      ensures x == Cell(RawPart(space[..], schema, format, c, false), RawPart(space[..], schema, format, c, true))
    {
      var val, len := FindStoragePositionFor(c);
      var base := BitmapBytes(|schema|);
      x := Cell(SliceAt(space[..], schema, format, val - base), []);
      if len > 0 {
        x := x.(len := SliceAt(space[..], schema, format, len - base));
      }
    }

    /** Writes the raw cell and changes no other cell and no null bit. */
    method SetValueSkipNull(space: array<bv8>, c: nat, x: Cell)
      requires Valid() && c < |schema| && RowOk(space[..], schema, format) && CellOk(schema[c], x)
      modifies space
      ensures CellWritten(old(space[..]), space[..], schema, format, c, x)
    {
      var val, len := FindStoragePositionFor(c);
      var base := BitmapBytes(|schema|);
      ghost var row := space[..];
      FirstPartWritten(row, schema, format, c, x);
      WriteBytes(space, Place(schema, format, val - base), x.val);
      if len > 0 {
        SecondPartWritten(row, space[..], schema, format, c, x);
        WriteBytes(space, Place(schema, format, len - base), x.len);
      }
    }

    method GetValue(c: nat, bitmap: NullBitmap) returns (v: Option<Cell>)
      requires Valid() && c < |schema| && Fits(bitmap)
      modifies bitmap`bytes
      ensures Fits(bitmap)
      ensures Cells(bitmap.space[..], bitmap.bytes, schema, format) ==
              old(Cells(bitmap.space[..], bitmap.bytes, schema, format))
      ensures v == Cells(bitmap.space[..], bitmap.bytes, schema, format)[c]
    {
      var isNull := bitmap.IsNull(c);
      if isNull {
        v := None;
      } else {
        var x := GetValueSkipNull(bitmap.space, c);
        v := Some(x);
      }
    }

    /** Writes one column of the row: all others read as before. */
    method SetValue(c: nat, v: Option<Cell>, bitmap: NullBitmap, known: bool)
      requires Valid() && c < |schema| && schema[c].nullable && Fits(bitmap) && (v.Some? ==> CellOk(schema[c], v.value))
      modifies bitmap, bitmap.space
      ensures Fits(bitmap)
      ensures Cells(bitmap.space[..], bitmap.bytes, schema, format) ==
              old(Cells(bitmap.space[..], bitmap.bytes, schema, format))[c := v]
    {
      ghost var row, cache := bitmap.space[..], bitmap.bytes;
      bitmap.SetNull(c, v.None?, known);
      ghost var now := bitmap.bytes;
      if v.Some? {
        SetValueSkipNull(bitmap.space, c, v.value);
        CacheKept(row, bitmap.space[..], schema, format, c, v.value, now, bitmap.dirty);
      }
      CellsWritten(row, bitmap.space[..], cache, now, schema, format, c, v);
    }

    /** The bitmap is that of a row in this format. */
    ghost predicate Fits(bitmap: NullBitmap)
      reads this, bitmap, bitmap.space
    {
      RowOk(bitmap.space[..], schema, format) && bitmap.Valid() && |bitmap.bytes| == BitmapBytes(|schema|)
    }
  }

  // ----- Many writes -----

  datatype Access = Put(c: nat, v: Option<Cell>, known: bool) | Flush | ClearAll

  predicate AccessOk(schema: seq<Column>, a: Access) {
    a.Put? ==> a.c < |schema| && schema[a.c].nullable && (a.v.Some? ==> CellOk(schema[a.c], a.v.value))
  }

  /** What column `c` must hold: the last value written to it, or NULL if all were cleared since. */
  function LastWrite(ops: seq<Access>, c: nat, was: Option<Cell>): Option<Cell> {
    if ops == [] then was
    else
      match ops[|ops| - 1]
      case Put(d, v, _) => if d == c then v else LastWrite(ops[..|ops| - 1], c, was)
      case Flush => LastWrite(ops[..|ops| - 1], c, was)
      case ClearAll => None
  }

  method Perform(st: UpdateableStorage, bitmap: NullBitmap, a: Access)
    requires st.Valid() && st.Fits(bitmap) && AccessOk(st.schema, a)
    modifies bitmap, bitmap.space
    ensures st.Fits(bitmap)
    ensures var now := Cells(bitmap.space[..], bitmap.bytes, st.schema, st.format);
            var was := old(Cells(bitmap.space[..], bitmap.bytes, st.schema, st.format));
            forall c: nat :: c < |st.schema| ==> now[c] == LastWrite([a], c, was[c])
  {
    match a
    case Put(c, v, known) => st.SetValue(c, v, bitmap, known);
    case Flush => bitmap.WriteBack();
    case ClearAll => bitmap.InitAllNull();
  }

  /** Every column holds the last value written to it, however writes and write-backs of the bitmap are mixed. */
  method PerformAll(st: UpdateableStorage, bitmap: NullBitmap, ops: seq<Access>)
    requires st.Valid() && st.Fits(bitmap) && forall i :: 0 <= i < |ops| ==> AccessOk(st.schema, ops[i])
    modifies bitmap, bitmap.space
    ensures st.Fits(bitmap)
    ensures var now := Cells(bitmap.space[..], bitmap.bytes, st.schema, st.format);
            var was := old(Cells(bitmap.space[..], bitmap.bytes, st.schema, st.format));
            forall c: nat :: c < |st.schema| ==> now[c] == LastWrite(ops, c, was[c])
  {
    ghost var was := Cells(bitmap.space[..], bitmap.bytes, st.schema, st.format);
    for i := 0 to |ops|
      invariant st.Fits(bitmap)
      invariant var now := Cells(bitmap.space[..], bitmap.bytes, st.schema, st.format);
                forall c: nat :: c < |st.schema| ==> now[c] == LastWrite(ops[..i], c, was[c])
    {
      Perform(st, bitmap, ops[i]);
      forall c: nat | c < |st.schema|
        ensures LastWrite([ops[i]], c, LastWrite(ops[..i], c, was[c])) == LastWrite(ops[..i + 1], c, was[c])
      {
        assert ops[..i + 1][..i] == ops[..i] && [ops[i]][..0] == [];
      }
    }
    assert ops[..|ops|] == ops;
  }

  /** A row that starts as all NULL, is written in any way and written back, gives a later reader with a new bitmap
      the last value written. */
  method WriteThenRead(types: seq<Column>, ops: seq<Access>, c: nat) returns (v: Option<Cell>)
    requires c < |types| && forall i :: 0 <= i < |ops| ==> AccessOk(types, ops[i])
    ensures v == LastWrite(ops, c, None)
  {
    var st := new UpdateableStorage();
    st.schema := types;
    st.Finalize();
    var space := new bv8[RowSize(st.schema, st.format)];
    var bitmap := new NullBitmap(space, |st.schema|);
    bitmap.InitAllNull();
    PerformAll(st, bitmap, ops);
    bitmap.WriteBack();
    var reader := new NullBitmap(space, |st.schema|);
    v := st.GetValue(c, reader);
  }
}
