/** The inductive invariant of the version store. */
module MvtoInvariant {
  import opened Base
  import opened Mvto

  /** Left behind by an aborted insert or update, or by a transaction that deleted its own insert. */
  predicate Dead(x: Slot) {
    x.begin == MAX_CID && x.txnId == INVALID_TXN_ID
  }

  predicate IsCommitted(s: Store, t: Cid) {
    t in s.txns && s.txns[t].status == Committed
  }

  /** Owner mark and visibility range of one slot. */
  predicate RangeOk(s: Store, loc: Loc)
    requires loc in s.slots
  {
    var x := s.slots[loc];
    && x.tuple in s.index
    && (x.txnId <= INITIAL_TXN_ID || IsActive(s, x.txnId))
    && (x.begin == MAX_CID ==> x.txnId != INITIAL_TXN_ID && x.prev == None && (Dead(x) ==> x.end == MAX_CID))
    && (x.begin != MAX_CID ==>
          && IsCommitted(s, x.begin) && x.begin < x.end
          && (x.end != MAX_CID ==> IsCommitted(s, x.end) && x.prev.Some? && x.txnId == INITIAL_TXN_ID)
          && (x.end == MAX_CID && x.txnId <= INITIAL_TXN_ID ==> x.prev == None)
          && (x.txnId == INVALID_TXN_ID ==> x.next.Some?))
  }

  /** `n` sits directly above `o` in a version chain. */
  predicate Linked(s: Store, n: Loc, o: Loc) {
    && n in s.slots && o in s.slots
    && s.slots[n].next == Some(o) && s.slots[o].prev == Some(n)
    && s.slots[n].tuple == s.slots[o].tuple
    && !Dead(s.slots[n])
    && s.slots[o].begin != MAX_CID && s.slots[o].txnId != INVALID_TXN_ID
    && if s.slots[n].begin == MAX_CID
       then s.slots[o].end == MAX_CID && s.slots[o].txnId == s.slots[n].txnId
       else s.slots[o].end == s.slots[n].begin
  }

  predicate LinksOk(s: Store, loc: Loc)
    requires loc in s.slots
  {
    var x := s.slots[loc];
    && (x.prev.Some? ==> Linked(s, x.prev.value, loc))
    && (x.next.Some? && !Dead(x) ==> Linked(s, loc, x.next.value))
  }

  /** What an owned slot is to its owner, by the owner's read/write set. */
  predicate OwnerOk(s: Store, loc: Loc)
    requires loc in s.slots
  {
    var x := s.slots[loc];
    IsActive(s, x.txnId) ==>
      var rw := s.txns[x.txnId].rw;
      && (x.begin != MAX_CID ==> loc in rw && x.lastReader == x.txnId && x.begin < x.txnId)
      && (x.begin == MAX_CID ==> x.lastReader == 0 && (x.end == MAX_CID || x.end == INVALID_CID))
      && match RwOf(rw, loc)
         case Some(READ) => false
         case Some(READ_OWN) => x.begin != MAX_CID && x.prev == None
         case Some(UPDATE) => x.begin != MAX_CID && x.prev.Some?
         case Some(DELETE) => x.begin != MAX_CID && x.prev.Some?
         case Some(INSERT) => x.begin == MAX_CID && x.next == None && x.end == MAX_CID
         case Some(INS_DEL) => x.begin == MAX_CID && x.next == None && x.end == INVALID_CID
         case None => x.next.Some? && RwOf(rw, x.next.value) == Some(if x.end == MAX_CID then UPDATE else DELETE)
  }

  /** Entries other than plain reads are owned; a version read is still current at the reader's id. */
  predicate EntryOk(s: Store, t: Cid, loc: Loc)
    requires IsActive(s, t) && loc in s.txns[t].rw
  {
    && loc in s.slots
    && var x := s.slots[loc];
       if s.txns[t].rw[loc] == READ then
         && x.begin < t < x.end && x.lastReader >= t
         && x.txnId != INVALID_TXN_ID && x.txnId != t
       else x.txnId == t
  }

  predicate HeadOk(s: Store, k: TupleId)
    requires k in s.index
  {
    && s.index[k] in s.slots
    && s.slots[s.index[k]].tuple == k && s.slots[s.index[k]].prev == None
  }

  /** A live slot with nothing above it is the one the index points to. */
  predicate TopIsHead(s: Store, loc: Loc)
    requires loc in s.slots
  {
    !Dead(s.slots[loc]) && s.slots[loc].prev == None ==>
      s.slots[loc].tuple in s.index && s.index[s.slots[loc].tuple] == loc
  }

  /** Two versions of one tuple never overlap in time, and an uncommitted one comes after all of them. */
  predicate PairOk(s: Store, a: Loc, b: Loc)
    requires a in s.slots && b in s.slots
  {
    var x, y := s.slots[a], s.slots[b];
    a != b && x.tuple == y.tuple && y.begin != MAX_CID && !Dead(x) ==>
      if x.begin != MAX_CID then x.end <= y.begin || y.end <= x.begin
      else x.next.Some? && y.begin < x.txnId && (x.next == Some(b) || y.end < x.txnId)
  }

  predicate SlotOk(s: Store, loc: Loc)
    requires loc in s.slots
  {
    RangeOk(s, loc) && LinksOk(s, loc) && OwnerOk(s, loc) && TopIsHead(s, loc)
  }

  ghost predicate SlotsOk(s: Store) {
    forall loc {:trigger SlotOk(s, loc)} :: loc in s.slots ==> SlotOk(s, loc)
  }

  ghost predicate EntriesOk(s: Store) {
    forall t, loc {:trigger EntryOk(s, t, loc)} :: IsActive(s, t) && loc in s.txns[t].rw ==> EntryOk(s, t, loc)
  }

  ghost predicate HeadsOk(s: Store) {
    forall k {:trigger HeadOk(s, k)} :: k in s.index ==> HeadOk(s, k)
  }

  ghost predicate PairsOk(s: Store) {
    forall a, b {:trigger PairOk(s, a, b)} :: a in s.slots && b in s.slots ==> PairOk(s, a, b)
  }

  ghost predicate IdsOk(s: Store) {
    forall t :: t in s.txns ==> INITIAL_TXN_ID < t < MAX_CID
  }

  ghost predicate Inv(s: Store) {
    IdsOk(s) && SlotsOk(s) && EntriesOk(s) && HeadsOk(s) && PairsOk(s)
  }

  // ----- Each action keeps it -----

  lemma EntriesExist(s: Store, t: Cid)
    requires Inv(s) && IsActive(s, t)
    ensures s.txns[t].rw.Keys <= s.slots.Keys
  {
    forall l | l in s.txns[t].rw ensures l in s.slots {
      assert EntryOk(s, t, l);
    }
  }

  /** The fields that place a version in its chain and in time are untouched. */
  ghost predicate SamePlaces(s: Store, s': Store) {
    && s'.index == s.index && s'.slots.Keys == s.slots.Keys
    && forall l :: l in s.slots ==>
         && s'.slots[l].tuple == s.slots[l].tuple && s'.slots[l].prev == s.slots[l].prev
         && s'.slots[l].begin == s.slots[l].begin && (s.slots[l].begin != MAX_CID ==> s'.slots[l].end == s.slots[l].end)
         && s'.slots[l].next == s.slots[l].next
         && (s.slots[l].begin == MAX_CID ==> s'.slots[l].txnId == s.slots[l].txnId)
  }

  lemma SamePlacesKeep(s: Store, s': Store)
    requires Inv(s) && SamePlaces(s, s')
    ensures HeadsOk(s') && PairsOk(s')
  {
    forall k | k in s'.index ensures HeadOk(s', k) {
      assert HeadOk(s, k);
    }
    forall a, b | a in s'.slots && b in s'.slots ensures PairOk(s', a, b) {
      assert PairOk(s, a, b);
    }
  }

  lemma BeginKeeps(s: Store, t: Cid)
    requires Inv(s) && CanBegin(s, t)
    ensures Inv(Step(s, Begin(t)))
  {
    var s' := Step(s, Begin(t));
    forall l | l in s'.slots ensures SlotOk(s', l) {
      assert SlotOk(s, l);
    }
    forall u, l | IsActive(s', u) && l in s'.txns[u].rw ensures EntryOk(s', u, l) {
      assert EntryOk(s, u, l);
    }
    SamePlacesKeep(s, s');
  }

  lemma ReadSlot(s: Store, t: Cid, loc: Loc, l: Loc)
    requires Inv(s) && CanRead(s, t, loc) && l in s.slots
    ensures SlotOk(DoRead(s, t, loc), l)
  {
    assert SlotOk(s, l);
  }

  lemma ReadEntry(s: Store, t: Cid, loc: Loc, u: Cid, l: Loc)
    requires Inv(s) && CanRead(s, t, loc)
    requires var s' := DoRead(s, t, loc); IsActive(s', u) && l in s'.txns[u].rw
    ensures EntryOk(DoRead(s, t, loc), u, l)
  {
    assert SlotOk(s, loc);
    if l in s.txns[u].rw { assert EntryOk(s, u, l); }
  }

  lemma ReadKeeps(s: Store, t: Cid, loc: Loc)
    requires Inv(s) && CanRead(s, t, loc)
    ensures Inv(DoRead(s, t, loc))
  {
    var s' := DoRead(s, t, loc);
    forall l | l in s'.slots ensures SlotOk(s', l) { ReadSlot(s, t, loc, l); }
    forall u, l | IsActive(s', u) && l in s'.txns[u].rw ensures EntryOk(s', u, l) { ReadEntry(s, t, loc, u, l); }
    SamePlacesKeep(s, s');
  }

  lemma ReadForUpdateSlot(s: Store, t: Cid, loc: Loc, l: Loc)
    requires Inv(s) && CanReadForUpdate(s, t, loc) && l in s.slots
    ensures SlotOk(DoReadForUpdate(s, t, loc), l)
  {
    assert SlotOk(s, loc) && SlotOk(s, l);
    if loc in s.txns[t].rw { assert EntryOk(s, t, loc); }
  }

  lemma ReadForUpdateEntry(s: Store, t: Cid, loc: Loc, u: Cid, l: Loc)
    requires Inv(s) && CanReadForUpdate(s, t, loc)
    requires var s' := DoReadForUpdate(s, t, loc); IsActive(s', u) && l in s'.txns[u].rw
    ensures EntryOk(DoReadForUpdate(s, t, loc), u, l)
  {
    assert SlotOk(s, loc);
    if l in s.txns[u].rw { assert EntryOk(s, u, l); }
  }

  lemma ReadForUpdateKeeps(s: Store, t: Cid, loc: Loc)
    requires Inv(s) && CanReadForUpdate(s, t, loc)
    ensures Inv(DoReadForUpdate(s, t, loc))
  {
    var s' := DoReadForUpdate(s, t, loc);
    forall l | l in s'.slots ensures SlotOk(s', l) { ReadForUpdateSlot(s, t, loc, l); }
    forall u, l | IsActive(s', u) && l in s'.txns[u].rw ensures EntryOk(s', u, l) {
      ReadForUpdateEntry(s, t, loc, u, l);
    }
    SamePlacesKeep(s, s');
  }

  lemma InsertSlot(s: Store, t: Cid, loc: Loc, k: TupleId, v: Value, l: Loc)
    requires Inv(s) && CanInsert(s, t, loc, k) && (l == loc || l in s.slots)
    ensures SlotOk(DoInsert(s, t, loc, k, v), l)
  {
    EntriesExist(s, t);
    if l != loc { assert SlotOk(s, l); }
  }

  lemma InsertEntry(s: Store, t: Cid, loc: Loc, k: TupleId, v: Value, u: Cid, l: Loc)
    requires Inv(s) && CanInsert(s, t, loc, k)
    requires var s' := DoInsert(s, t, loc, k, v); IsActive(s', u) && l in s'.txns[u].rw
    ensures EntryOk(DoInsert(s, t, loc, k, v), u, l)
  {
    EntriesExist(s, u);
    EntriesExist(s, t);
    if l in s.txns[u].rw { assert EntryOk(s, u, l); }
  }

  lemma InsertPair(s: Store, t: Cid, loc: Loc, k: TupleId, v: Value, a: Loc, b: Loc)
    requires Inv(s) && CanInsert(s, t, loc, k) && (a == loc || a in s.slots) && (b == loc || b in s.slots)
    ensures PairOk(DoInsert(s, t, loc, k, v), a, b)
  {
    if a != loc { assert SlotOk(s, a); }
    if b != loc { assert SlotOk(s, b); }
    if a != loc && b != loc { assert PairOk(s, a, b); }
  }

  lemma InsertKeeps(s: Store, t: Cid, loc: Loc, k: TupleId, v: Value)
    requires Inv(s) && CanInsert(s, t, loc, k)
    ensures Inv(DoInsert(s, t, loc, k, v))
  {
    var s' := DoInsert(s, t, loc, k, v);
    forall l | l in s'.slots ensures SlotOk(s', l) { InsertSlot(s, t, loc, k, v, l); }
    forall u, l | IsActive(s', u) && l in s'.txns[u].rw ensures EntryOk(s', u, l) {
      InsertEntry(s, t, loc, k, v, u, l);
    }
    forall j | j in s'.index ensures HeadOk(s', j) {
      if j != k { assert HeadOk(s, j); }
    }
    forall a, b | a in s'.slots && b in s'.slots ensures PairOk(s', a, b) { InsertPair(s, t, loc, k, v, a, b); }
  }

  /** A plain read turned into ownership, the first half of an update or delete. */
  function Locked(s: Store, t: Cid, loc: Loc): Store
    requires t in s.txns && loc in s.slots
  {
    s.(slots := s.slots[loc := s.slots[loc].(txnId := t)],
       txns := s.txns[t := s.txns[t].(rw := s.txns[t].rw[loc := READ_OWN])])
  }

  lemma LockedSlot(s: Store, t: Cid, loc: Loc, newLoc: Loc, l: Loc)
    requires Inv(s) && CanReplace(s, t, loc, newLoc) && l in s.slots
    ensures SlotOk(Locked(s, t, loc), l)
  {
    assert EntryOk(s, t, loc);
    assert SlotOk(s, loc) && SlotOk(s, l);
  }

  lemma LockedEntry(s: Store, t: Cid, loc: Loc, newLoc: Loc, u: Cid, l: Loc)
    requires Inv(s) && CanReplace(s, t, loc, newLoc) && IsActive(s, u) && l in s.txns[u].rw
    ensures EntryOk(Locked(s, t, loc), u, l)
  {
    assert EntryOk(s, t, loc);
    assert EntryOk(s, u, l);
  }

  lemma LockedKeeps(s: Store, t: Cid, loc: Loc, newLoc: Loc)
    requires Inv(s) && CanReplace(s, t, loc, newLoc)
    ensures Inv(Locked(s, t, loc))
  {
    var s' := Locked(s, t, loc);
    assert s'.txns.Keys == s.txns.Keys;
    forall l | l in s'.slots ensures SlotOk(s', l) { LockedSlot(s, t, loc, newLoc, l); }
    forall u, l | IsActive(s', u) && l in s'.txns[u].rw ensures EntryOk(s', u, l) {
      LockedEntry(s, t, loc, newLoc, u, l);
    }
    LockedPlaces(s, t, loc, newLoc);
  }

  lemma LockedPlaces(s: Store, t: Cid, loc: Loc, newLoc: Loc)
    requires Inv(s) && CanReplace(s, t, loc, newLoc)
    ensures HeadsOk(Locked(s, t, loc)) && PairsOk(Locked(s, t, loc))
  {
    assert SlotOk(s, loc) && EntryOk(s, t, loc);
    SamePlacesKeep(s, Locked(s, t, loc));
  }

  /** The second half: a new version above an owned one. */
  function Pushed(s: Store, t: Cid, loc: Loc, newLoc: Loc, kind: RWType, v: Value): Store
    requires t in s.txns && loc in s.slots
  {
    Replace(s, t, loc, newLoc, if kind == DELETE then INVALID_CID else MAX_CID, v,
            s.txns[t].(rw := s.txns[t].rw[loc := kind]))
  }

  predicate CanPush(s: Store, t: Cid, loc: Loc, newLoc: Loc, kind: RWType) {
    && IsActive(s, t) && loc in s.slots && newLoc !in s.slots
    && RwOf(s.txns[t].rw, loc) == Some(READ_OWN) && (kind == UPDATE || kind == DELETE)
  }

  lemma PushedSlot(s: Store, t: Cid, loc: Loc, newLoc: Loc, kind: RWType, v: Value, l: Loc)
    requires Inv(s) && CanPush(s, t, loc, newLoc, kind) && (l == newLoc || l in s.slots)
    ensures SlotOk(Pushed(s, t, loc, newLoc, kind, v), l)
  {
    EntriesExist(s, t);
    assert EntryOk(s, t, loc);
    assert SlotOk(s, loc);
    if l != newLoc { assert SlotOk(s, l); }
  }

  lemma PushedEntry(s: Store, t: Cid, loc: Loc, newLoc: Loc, kind: RWType, v: Value, u: Cid, l: Loc)
    requires Inv(s) && CanPush(s, t, loc, newLoc, kind)
    requires IsActive(s, u) && l in s.txns[u].rw
    ensures EntryOk(Pushed(s, t, loc, newLoc, kind, v), u, l)
  {
    assert EntryOk(s, u, l) && EntryOk(s, t, loc);
  }

  lemma PushedPair(s: Store, t: Cid, loc: Loc, newLoc: Loc, kind: RWType, v: Value, a: Loc, b: Loc)
    requires Inv(s) && CanPush(s, t, loc, newLoc, kind)
    requires (a == newLoc || a in s.slots) && (b == newLoc || b in s.slots)
    ensures PairOk(Pushed(s, t, loc, newLoc, kind, v), a, b)
  {
    if b != newLoc {
      assert EntryOk(s, t, loc) && SlotOk(s, loc) && SlotOk(s, b);
      assert PairOk(s, if a == newLoc then loc else a, b);
    }
  }

  lemma PushedPlaces(s: Store, t: Cid, loc: Loc, newLoc: Loc, kind: RWType, v: Value)
    requires Inv(s) && CanPush(s, t, loc, newLoc, kind)
    ensures HeadsOk(Pushed(s, t, loc, newLoc, kind, v)) && PairsOk(Pushed(s, t, loc, newLoc, kind, v))
  {
    var s' := Pushed(s, t, loc, newLoc, kind, v);
    forall k | k in s'.index ensures HeadOk(s', k) {
      if k != s.slots[loc].tuple { assert HeadOk(s, k); }
    }
    forall a, b | a in s'.slots && b in s'.slots ensures PairOk(s', a, b) {
      PushedPair(s, t, loc, newLoc, kind, v, a, b);
    }
  }

  lemma PushedKeeps(s: Store, t: Cid, loc: Loc, newLoc: Loc, kind: RWType, v: Value)
    requires Inv(s) && CanPush(s, t, loc, newLoc, kind)
    ensures Inv(Pushed(s, t, loc, newLoc, kind, v))
  {
    var s' := Pushed(s, t, loc, newLoc, kind, v);
    forall l | l in s'.slots ensures SlotOk(s', l) { PushedSlot(s, t, loc, newLoc, kind, v, l); }
    forall u, l | IsActive(s', u) && l in s'.txns[u].rw ensures EntryOk(s', u, l) {
      assert u == t ==> l in s.txns[t].rw;
      PushedEntry(s, t, loc, newLoc, kind, v, u, l);
    }
    PushedPlaces(s, t, loc, newLoc, kind, v);
  }

  /** Values, operation logs and the written flag play no part in the invariant. */
  ghost predicate SameButValues(s: Store, s': Store) {
    && s'.index == s.index && s'.slots.Keys == s.slots.Keys && s'.txns.Keys == s.txns.Keys
    && (forall l :: l in s.slots ==> s'.slots[l] == s.slots[l].(value := s'.slots[l].value))
    && (forall t :: t in s.txns ==> s'.txns[t].status == s.txns[t].status && s'.txns[t].rw == s.txns[t].rw)
  }

  lemma SameButValuesKeep(s: Store, s': Store)
    requires Inv(s) && SameButValues(s, s')
    ensures Inv(s')
  {
    forall l | l in s'.slots ensures SlotOk(s', l) { SameButValuesSlot(s, s', l); }
    forall u, l | IsActive(s', u) && l in s'.txns[u].rw ensures EntryOk(s', u, l) {
      assert EntryOk(s, u, l);
    }
    SamePlacesKeep(s, s');
  }

  lemma SameButValuesSlot(s: Store, s': Store, l: Loc)
    requires Inv(s) && SameButValues(s, s') && l in s.slots
    ensures SlotOk(s', l)
  {
    assert SlotOk(s, l);
  }

  /** An update or delete is taking ownership, unless already taken, and then pushing. */
  lemma UpdateKeeps(s: Store, t: Cid, loc: Loc, newLoc: Loc, v: Value)
    requires Inv(s) && CanReplace(s, t, loc, newLoc)
    ensures Inv(DoUpdate(s, t, loc, newLoc, v))
  {
    LockedKeeps(s, t, loc, newLoc);
    var m := Locked(s, t, loc);
    PushedKeeps(m, t, loc, newLoc, UPDATE, v);
    SameButValuesKeep(Pushed(m, t, loc, newLoc, UPDATE, v), DoUpdate(s, t, loc, newLoc, v));
  }

  lemma DeleteKeeps(s: Store, t: Cid, loc: Loc, newLoc: Loc)
    requires Inv(s) && CanReplace(s, t, loc, newLoc)
    ensures Inv(DoDelete(s, t, loc, newLoc))
  {
    LockedKeeps(s, t, loc, newLoc);
    var m := Locked(s, t, loc);
    PushedKeeps(m, t, loc, newLoc, DELETE, 0);
    SameButValuesKeep(Pushed(m, t, loc, newLoc, DELETE, 0), DoDelete(s, t, loc, newLoc));
  }

  lemma OverwriteKeeps(s: Store, t: Cid, loc: Loc, v: Value)
    requires Inv(s) && CanChangeOwn(s, t, loc)
    ensures Inv(DoOverwrite(s, t, loc, v))
  {
    SameButValuesKeep(s, DoOverwrite(s, t, loc, v));
  }

  lemma DeleteOwnSlot(s: Store, t: Cid, loc: Loc, l: Loc)
    requires Inv(s) && CanChangeOwn(s, t, loc) && l in s.slots
    ensures SlotOk(DoDeleteOwn(s, t, loc), l)
  {
    assert SlotOk(s, loc) && SlotOk(s, l);
  }

  lemma DeleteOwnEntry(s: Store, t: Cid, loc: Loc, u: Cid, l: Loc)
    requires Inv(s) && CanChangeOwn(s, t, loc)
    requires var s' := DoDeleteOwn(s, t, loc); IsActive(s', u) && l in s'.txns[u].rw
    ensures EntryOk(DoDeleteOwn(s, t, loc), u, l)
  {
    assert SlotOk(s, loc);
    assert EntryOk(s, u, l);
  }

  lemma DeleteOwnKeeps(s: Store, t: Cid, loc: Loc)
    requires Inv(s) && CanChangeOwn(s, t, loc)
    ensures Inv(DoDeleteOwn(s, t, loc))
  {
    var s' := DoDeleteOwn(s, t, loc);
    forall l | l in s'.slots ensures SlotOk(s', l) { DeleteOwnSlot(s, t, loc, l); }
    forall u, l | IsActive(s', u) && l in s'.txns[u].rw ensures EntryOk(s', u, l) { DeleteOwnEntry(s, t, loc, u, l); }
    SamePlacesKeep(s, s');
  }

  lemma CommitSlot(s: Store, t: Cid, l: Loc)
    requires Inv(s) && IsActive(s, t) && l in s.slots
    ensures SlotOk(DoCommit(s, t), l)
  {
    assert SlotOk(s, l);
    var x := s.slots[l];
    if x.prev.Some? { assert SlotOk(s, x.prev.value); }
    if x.next.Some? && !Dead(x) { assert SlotOk(s, x.next.value); }
  }

  lemma CommitEntry(s: Store, t: Cid, u: Cid, l: Loc)
    requires Inv(s) && IsActive(s, t)
    requires var s' := DoCommit(s, t); IsActive(s', u) && l in s'.txns[u].rw
    ensures EntryOk(DoCommit(s, t), u, l)
  {
    assert EntryOk(s, u, l);
    assert SlotOk(s, l);
  }

  lemma CommitPair(s: Store, t: Cid, a: Loc, b: Loc)
    requires Inv(s) && IsActive(s, t) && a in s.slots && b in s.slots
    ensures PairOk(DoCommit(s, t), a, b)
  {
    assert PairOk(s, a, b) && PairOk(s, b, a);
    assert SlotOk(s, a) && SlotOk(s, b);
  }

  lemma CommitHead(s: Store, t: Cid, k: TupleId)
    requires Inv(s) && IsActive(s, t) && k in s.index
    ensures HeadOk(DoCommit(s, t), k)
  {
    assert HeadOk(s, k);
    assert SlotOk(s, s.index[k]);
  }

  lemma CommitKeeps(s: Store, t: Cid)
    requires Inv(s) && IsActive(s, t)
    ensures Inv(DoCommit(s, t))
  {
    var s' := DoCommit(s, t);
    forall l | l in s'.slots ensures SlotOk(s', l) { CommitSlot(s, t, l); }
    forall u, l | IsActive(s', u) && l in s'.txns[u].rw ensures EntryOk(s', u, l) { CommitEntry(s, t, u, l); }
    forall k | k in s'.index ensures HeadOk(s', k) { CommitHead(s, t, k); }
    forall a, b | a in s'.slots && b in s'.slots ensures PairOk(s', a, b) { CommitPair(s, t, a, b); }
  }

  lemma AbortSlot(s: Store, t: Cid, l: Loc)
    requires Inv(s) && IsActive(s, t) && l in s.slots
    ensures SlotOk(DoAbort(s, t), l)
  {
    assert SlotOk(s, l);
    var x := s.slots[l];
    if x.prev.Some? { assert SlotOk(s, x.prev.value); }
    if x.next.Some? && !Dead(x) { assert SlotOk(s, x.next.value); }
  }

  lemma AbortEntry(s: Store, t: Cid, u: Cid, l: Loc)
    requires Inv(s) && IsActive(s, t)
    requires var s' := DoAbort(s, t); IsActive(s', u) && l in s'.txns[u].rw
    ensures EntryOk(DoAbort(s, t), u, l)
  {
    assert EntryOk(s, u, l);
    assert SlotOk(s, l);
  }

  lemma AbortHead(s: Store, t: Cid, k: TupleId)
    requires Inv(s) && IsActive(s, t) && k in s.index
    ensures HeadOk(DoAbort(s, t), k)
  {
    assert HeadOk(s, k);
    assert SlotOk(s, s.index[k]);
    var x := s.slots[s.index[k]];
    if x.next.Some? && !Dead(x) { assert SlotOk(s, x.next.value); }
  }

  lemma AbortPair(s: Store, t: Cid, a: Loc, b: Loc)
    requires Inv(s) && IsActive(s, t) && a in s.slots && b in s.slots
    ensures PairOk(DoAbort(s, t), a, b)
  {
    assert PairOk(s, a, b);
    assert SlotOk(s, a) && SlotOk(s, b);
  }

  lemma AbortKeeps(s: Store, t: Cid)
    requires Inv(s) && IsActive(s, t)
    ensures Inv(DoAbort(s, t))
  {
    var s' := DoAbort(s, t);
    forall l | l in s'.slots ensures SlotOk(s', l) { AbortSlot(s, t, l); }
    forall u, l | IsActive(s', u) && l in s'.txns[u].rw ensures EntryOk(s', u, l) { AbortEntry(s, t, u, l); }
    forall k | k in s'.index ensures HeadOk(s', k) { AbortHead(s, t, k); }
    forall a, b | a in s'.slots && b in s'.slots ensures PairOk(s', a, b) { AbortPair(s, t, a, b); }
  }

  lemma StepKeeps(s: Store, a: Action)
    requires Inv(s) && Enabled(s, a)
    ensures Inv(Step(s, a))
  {
    match a
    case Begin(t) => BeginKeeps(s, t);
    case Read(t, loc) => ReadKeeps(s, t, loc);
    case ReadForUpdate(t, loc) => ReadForUpdateKeeps(s, t, loc);
    case Insert(t, loc, k, v) => InsertKeeps(s, t, loc, k, v);
    case Update(t, loc, newLoc, v) => UpdateKeeps(s, t, loc, newLoc, v);
    case Delete(t, loc, newLoc) => DeleteKeeps(s, t, loc, newLoc);
    case Overwrite(t, loc, v) => OverwriteKeeps(s, t, loc, v);
    case DeleteOwn(t, loc) => DeleteOwnKeeps(s, t, loc);
    case Commit(t) => CommitKeeps(s, t);
    case Abort(t) => AbortKeeps(s, t);
  }
}
