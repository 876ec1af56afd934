/** The read/write set against the ownership marks on the slots. */
module Bookkeeping {
  import opened Base
  import opened Mvto
  import opened MvtoInvariant
  import opened FieldWrites

  // ----- Which slots a transaction owns -----

  predicate Writes(kind: RWType) {
    kind == UPDATE || kind == DELETE
  }

  /** The slots that the read/write set of `t` says it should own: every entry but the plain reads, and the
      new version of each update and delete. */
  ghost predicate Claimed(s: Store, t: Cid, l: Loc)
    requires IsActive(s, t)
  {
    var rw := s.txns[t].rw;
    || (l in rw && rw[l] != READ)
    || exists o :: o in rw && o in s.slots && Writes(rw[o]) && s.slots[o].prev == Some(l)
  }

  /** It owns exactly those, and each committed version it owns carries its id as the last reader. */
  lemma OwnedExactly(s: Store, t: Cid, l: Loc)
    requires Inv(s) && IsActive(s, t) && l in s.slots
    ensures s.slots[l].txnId == t <==> Claimed(s, t, l)
    ensures s.slots[l].txnId == t && s.slots[l].begin != MAX_CID ==> s.slots[l].lastReader == t
  {
    var rw := s.txns[t].rw;
    assert SlotOk(s, l);
    if l in rw { assert EntryOk(s, t, l); }
    if o :| o in rw && o in s.slots && Writes(rw[o]) && s.slots[o].prev == Some(l) {
      assert EntryOk(s, t, o) && SlotOk(s, o);
    }
    if s.slots[l].txnId == t && l !in rw {
      assert s.slots[s.slots[l].next.value].prev == Some(l);
    }
  }

  /** The same while commit and abort loops are under way: a transaction in its own loop still owns what the entries not
      finished yet have not released. */
  ghost predicate StillClaimed(f: Fine, t: Cid, l: Loc)
    requires IsActive(f.store, t)
  {
    if t !in f.work then Claimed(f.store, t, l)
    else
      var w, rw := f.work[t], f.store.txns[t].rw;
      || (l in w.rest && l in rw && DoneOn(w, l) < WriteCount(w.commits, rw[l]))
      || exists o :: o in w.rest && o in rw && o in f.store.slots && Writes(rw[o]) && DoneOn(w, o) < 4 &&
                     f.store.slots[o].prev == Some(l)
  }

  /** In every state between field writes a transaction owns exactly the slots it still claims. */
  lemma OwnedThroughLoops(f: Fine, t: Cid, l: Loc)
    requires FineInv(f) && IsActive(f.store, t) && l in f.store.slots
    ensures f.store.slots[l].txnId == t <==> StillClaimed(f, t, l)
    ensures t !in f.work && f.store.slots[l].txnId == t && f.store.slots[l].begin != MAX_CID ==>
              f.store.slots[l].lastReader == t
  {
    WorkersKnown(f);
    if t in f.work {
      OwnedInLoop(f, t, l);
    } else {
      OwnedExactly(Settled(f), t, l);
      SameClaims(f, t, l);
    }
  }

  lemma OwnedInLoop(f: Fine, t: Cid, l: Loc)
    requires FineInv(f) && t in f.work && IsActive(f.store, t) && l in f.store.slots
    ensures f.store.slots[l].txnId == t <==> StillClaimed(f, t, l)
  {
    var w, rw := f.work[t], f.store.txns[t].rw;
    assert WorkOk(f, t) && Accounted(f, t, l);
    if l in w.rest { assert OpenEntry(f.store, t, w.commits, l, DoneOn(w, l)); }
    if o :| o in w.rest && o in rw && o in f.store.slots && Writes(rw[o]) && DoneOn(w, o) < 4 &&
            f.store.slots[o].prev == Some(l) {
      assert OpenEntry(f.store, t, w.commits, o, DoneOn(w, o));
    }
  }

  /** Loops of others do not change what a running transaction claims. */
  lemma SameClaims(f: Fine, t: Cid, l: Loc)
    requires FineInv(f) && MarksFree(f) && IsActive(f.store, t) && t !in f.work && l in f.store.slots
    ensures IsActive(Settled(f), t) && Settled(f).txns[t] == f.store.txns[t]
    ensures Claimed(Settled(f), t, l) <==> Claimed(f.store, t, l)
    ensures f.store.slots[l].txnId == t <==> Settled(f).slots[l].txnId == t
    ensures f.store.slots[l].txnId == t ==> Settled(f).slots[l] == f.store.slots[l]
  {
    var s, rw := Settled(f), f.store.txns[t].rw;
    assert t in s.txns;
    forall o | o in rw && o in s.slots && Writes(rw[o]) ensures s.slots[o] == f.store.slots[o] {
      assert EntryOk(s, t, o);
    }
  }

  // ----- Entries only move forward -----

  /** The arrows of the state diagram for one tuple, with the self loops. */
  predicate Forward(from: Option<RWType>, to: Option<RWType>) {
    || from == to
    || (from == None && to.Some? && (to.value == READ || to.value == READ_OWN || to.value == INSERT))
    || (from == Some(READ) && to.Some? && (to.value == READ_OWN || to.value == UPDATE || to.value == DELETE))
    || (from == Some(READ_OWN) && to.Some? && (to.value == UPDATE || to.value == DELETE))
    || (from == Some(UPDATE) && to == Some(DELETE))
    || (from == Some(INSERT) && to == Some(INS_DEL))
  }

  lemma EntriesMoveForward(s: Store, a: Action, t: Cid, l: Loc)
    requires Inv(s) && Enabled(s, a) && IsActive(s, t)
    ensures t in Step(s, a).txns && Forward(RwOf(s.txns[t].rw, l), RwOf(Step(s, a).txns[t].rw, l))
  {
    if !a.Begin? && l in s.txns[a.t].rw { assert EntryOk(s, a.t, l); }
    if a.DeleteOwn? { assert SlotOk(s, a.loc); }
  }

  // ----- The insert counter -----

  function Inserts(rw: map<Loc, RWType>): set<Loc> {
    set l | l in rw && rw[l] == INSERT
  }

  predicate CountOk(x: Txn) {
    x.insertCount == |Inserts(x.rw)|
  }

  lemma CountSet(rw: map<Loc, RWType>, l: Loc, kind: RWType)
    ensures |Inserts(rw[l := kind])| ==
            |Inserts(rw)| - (if RwOf(rw, l) == Some(INSERT) then 1 else 0) + (if kind == INSERT then 1 else 0)
  {
    var others := Inserts(rw) - {l};
    assert Inserts(rw[l := kind]) == if kind == INSERT then others + {l} else others;
    assert Inserts(rw) == if RwOf(rw, l) == Some(INSERT) then others + {l} else others;
  }

  /** No recording loses track of the inserts, whatever the entry was before. */
  lemma RecordsCount(x: Txn, l: Loc)
    requires CountOk(x)
    ensures CountOk(RecordRead(x, l)) && CountOk(RecordReadOwn(x, l)) && CountOk(RecordUpdate(x, l))
    ensures CountOk(RecordInsert(x, l)) && CountOk(RecordDelete(x, l))
  {
    CountSet(x.rw, l, READ);
    CountSet(x.rw, l, READ_OWN);
    CountSet(x.rw, l, UPDATE);
    CountSet(x.rw, l, DELETE);
    CountSet(x.rw, l, INSERT);
    CountSet(x.rw, l, INS_DEL);
  }

  ghost predicate CountsOk(s: Store) {
    forall t :: t in s.txns ==> CountOk(s.txns[t])
  }

  lemma StepKeepsCounts(s: Store, a: Action)
    requires CountsOk(s) && Enabled(s, a)
    ensures CountsOk(Step(s, a))
  {
    match a {
      case Begin(_) =>
      case Read(t, loc) => RecordsCount(s.txns[t], loc);
      case ReadForUpdate(t, loc) => RecordsCount(s.txns[t], loc);
      case Insert(t, loc, _, _) => RecordsCount(s.txns[t], loc);
      case Update(t, loc, _, _) => RecordsCount(s.txns[t], loc);
      case Delete(t, loc, _) => RecordsCount(s.txns[t], loc);
      case Overwrite(_, _, _) =>
      case DeleteOwn(t, loc) =>
        RecordsCount(s.txns[t], if s.slots[loc].next.Some? then s.slots[loc].next.value else loc);
      case Commit(_) =>
      case Abort(_) =>
    }
  }

  lemma CountsHold(s: Store, actions: seq<Action>)
    requires CountsOk(s) && Run(s, actions).Some?
    ensures CountsOk(Run(s, actions).value)
    decreases |actions|
  {
    if actions != [] {
      StepKeepsCounts(s, actions[0]);
      CountsHold(Step(s, actions[0]), actions[1..]);
    }
  }

  // ----- The mark of writing transactions -----

  predicate Changes(rw: map<Loc, RWType>) {
    exists l :: l in rw && Writes(rw[l])
  }

  /** The mark is set exactly when some entry is an update or a delete. */
  predicate MarkOk(x: Txn) {
    x.isWritten <==> Changes(x.rw)
  }

  ghost predicate MarksOk(s: Store) {
    forall t :: t in s.txns ==> MarkOk(s.txns[t])
  }

  lemma ChangesSet(rw: map<Loc, RWType>, l: Loc, kind: RWType)
    ensures Writes(kind) ==> Changes(rw[l := kind])
    ensures !Writes(kind) && !(l in rw && Writes(rw[l])) ==> (Changes(rw[l := kind]) <==> Changes(rw))
  {
    var now := rw[l := kind];
    if Writes(kind) { assert l in now && Writes(now[l]); }
    if o :| o in rw && Writes(rw[o]) && o != l { assert o in now && Writes(now[o]); }
  }

  /** Every recording keeps the mark right; updates and deletes are recorded on entries that exist. */
  lemma RecordsMark(x: Txn, l: Loc)
    requires MarkOk(x)
    ensures MarkOk(RecordRead(x, l)) && MarkOk(RecordReadOwn(x, l)) && MarkOk(RecordInsert(x, l))
    ensures l in x.rw ==> MarkOk(RecordUpdate(x, l)) && MarkOk(RecordDelete(x, l))
  {
    ChangesSet(x.rw, l, READ);
    ChangesSet(x.rw, l, READ_OWN);
    ChangesSet(x.rw, l, INSERT);
    ChangesSet(x.rw, l, UPDATE);
    ChangesSet(x.rw, l, DELETE);
    ChangesSet(x.rw, l, INS_DEL);
  }

  lemma StepKeepsMarks(s: Store, a: Action)
    requires Inv(s) && MarksOk(s) && Enabled(s, a)
    ensures MarksOk(Step(s, a))
  {
    match a {
      case Begin(_) =>
      case Read(t, loc) => RecordsMark(s.txns[t], loc);
      case ReadForUpdate(t, loc) => RecordsMark(s.txns[t], loc);
      case Insert(t, loc, _, _) => RecordsMark(s.txns[t], loc);
      case Update(t, loc, _, _) => RecordsMark(s.txns[t], loc);
      case Delete(t, loc, _) => RecordsMark(s.txns[t], loc);
      case Overwrite(_, _, _) =>
      case DeleteOwn(t, loc) =>
        assert SlotOk(s, loc);
        RecordsMark(s.txns[t], if s.slots[loc].next.Some? then s.slots[loc].next.value else loc);
      case Commit(_) =>
      case Abort(_) =>
    }
  }

  /** The test the program makes for a transaction that has changed nothing. */
  predicate IsReadOnly(x: Txn) {
    !x.isWritten && x.insertCount == 0
  }

  lemma MarksHold(s: Store, actions: seq<Action>)
    requires Inv(s) && MarksOk(s) && Run(s, actions).Some?
    ensures MarksOk(Run(s, actions).value)
    decreases |actions|
  {
    if actions != [] {
      StepKeeps(s, actions[0]);
      StepKeepsMarks(s, actions[0]);
      MarksHold(Step(s, actions[0]), actions[1..]);
    }
  }

  /** In every run a transaction passes the test if and only if none of its entries is an insert, an update or a delete;
      a tuple that it has inserted and deleted again does not count. */
  lemma ReadOnlyIff(actions: seq<Action>, s: Store, t: Cid)
    requires Run(EMPTY_STORE, actions) == Some(s) && t in s.txns
    ensures IsReadOnly(s.txns[t]) <==>
            forall l :: l in s.txns[t].rw ==> !Writes(s.txns[t].rw[l]) && s.txns[t].rw[l] != INSERT
  {
    CountsHold(EMPTY_STORE, actions);
    MarksHold(EMPTY_STORE, actions);
    var rw := s.txns[t].rw;
    if Inserts(rw) != {} { var l :| l in Inserts(rw); }
    if l :| l in rw && rw[l] == INSERT { assert l in Inserts(rw); }
  }
}
