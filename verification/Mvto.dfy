/** Multi-version timestamp ordering as a labelled state machine. */
module Mvto {
  import opened Base

  // A `Store` holds the version slots, the index heads and the transaction contexts.  Each API call of the transaction
  // manager is one `Action`; `Step` says when a call succeeds and what it writes.  A call that fails changes nothing
  // and is not a step.  Commit and abort are atomic here; module `FieldWrites` splits them into single field writes
  // and shows that the split machine refines this one.

  datatype Slot = Slot(
    txnId: Cid, begin: Cid, end: Cid,
    next: Option<Loc>, prev: Option<Loc>,
    lastReader: Cid, tuple: TupleId, value: Value)

  datatype RWType = READ | READ_OWN | UPDATE | DELETE | INSERT | INS_DEL

  datatype Visibility = OK | DELETED | INVISIBLE

  /** What a caller asked for and got: the tuple, its value and the item pointer passed to the call. */
  datatype Op =
    | Got(tuple: TupleId, value: Value, at: Loc)
    | Wrote(tuple: TupleId, value: Value, at: Loc)
    | Inserted(tuple: TupleId, value: Value, at: Loc)
    | Deleted(tuple: TupleId, at: Loc)

  datatype Status = Active | Committed | Aborted

  datatype Txn = Txn(status: Status, rw: map<Loc, RWType>, isWritten: bool, insertCount: int, log: seq<Op>)

  datatype Store = Store(slots: map<Loc, Slot>, index: map<TupleId, Loc>, txns: map<Cid, Txn>)

  const EMPTY_STORE := Store(map[], map[], map[])

  datatype Action =
    | Begin(t: Cid)
    | Read(t: Cid, loc: Loc)
    | ReadForUpdate(t: Cid, loc: Loc)
    | Insert(t: Cid, loc: Loc, tuple: TupleId, value: Value)
    | Update(t: Cid, loc: Loc, newLoc: Loc, value: Value)
    | Delete(t: Cid, loc: Loc, newLoc: Loc)
    | Overwrite(t: Cid, loc: Loc, value: Value)
    | DeleteOwn(t: Cid, loc: Loc)
    | Commit(t: Cid)
    | Abort(t: Cid)

  // ----- Visibility and ownership tests -----

  function IsVisible(x: Slot, txnId: Cid, visId: Cid, rwType: Option<RWType>): Visibility {
    var covered := visId >= x.begin && !(visId >= x.end);
    if x.txnId == INVALID_TXN_ID then
      if covered then DELETED else INVISIBLE
    else if x.txnId == txnId then
      if x.begin == MAX_CID && x.end != INVALID_CID then OK
      else if rwType == Some(READ_OWN) then OK
      else if x.end == INVALID_CID then DELETED
      else INVISIBLE
    else if x.txnId != INITIAL_TXN_ID && x.begin == MAX_CID then INVISIBLE
    else if covered then OK else INVISIBLE
  }

  predicate IsOwnable(x: Slot) {
    x.txnId == INITIAL_TXN_ID && x.end == MAX_CID
  }

  /** The test under the latch in AcquireOwnership, together with its compare-and-swap on the owner. */
  predicate CanAcquire(x: Slot, t: Cid) {
    x.lastReader <= t && x.txnId == INITIAL_TXN_ID
  }

  function RwOf(rw: map<Loc, RWType>, loc: Loc): Option<RWType> {
    if loc in rw then Some(rw[loc]) else None
  }

  predicate IsActive(s: Store, t: Cid) {
    t in s.txns && s.txns[t].status == Active
  }

  predicate SeesVersion(s: Store, t: Cid, loc: Loc) {
    IsActive(s, t) && loc in s.slots &&
    IsVisible(s.slots[loc], t, t, RwOf(s.txns[t].rw, loc)) == OK
  }

  /** What a READ_ONLY transaction with read id `r` can read. */
  predicate ReaderSees(s: Store, r: Cid, loc: Loc) {
    loc in s.slots && IsVisible(s.slots[loc], r, r, None) == OK
  }

  // ----- The per-tuple read/write state of a transaction -----

  function RecordRead(x: Txn, loc: Loc): Txn {
    if loc in x.rw then x else x.(rw := x.rw[loc := READ])
  }

  function RecordReadOwn(x: Txn, loc: Loc): Txn {
    if loc in x.rw && x.rw[loc] != READ then x else x.(rw := x.rw[loc := READ_OWN])
  }

  function RecordUpdate(x: Txn, loc: Loc): Txn {
    if loc !in x.rw then x.(rw := x.rw[loc := UPDATE])
    else if x.rw[loc] == READ || x.rw[loc] == READ_OWN then x.(rw := x.rw[loc := UPDATE], isWritten := true)
    else x
  }

  function RecordInsert(x: Txn, loc: Loc): Txn {
    if loc in x.rw then x else x.(rw := x.rw[loc := INSERT], insertCount := x.insertCount + 1)
  }

  function RecordDelete(x: Txn, loc: Loc): Txn {
    if loc !in x.rw then x.(rw := x.rw[loc := DELETE])
    else match x.rw[loc]
      case READ => x.(rw := x.rw[loc := DELETE], isWritten := true)
      case READ_OWN => x.(rw := x.rw[loc := DELETE], isWritten := true)
      case UPDATE => x.(rw := x.rw[loc := DELETE])
      case INSERT => x.(rw := x.rw[loc := INS_DEL], insertCount := x.insertCount - 1)
      case _ => x
  }

  function Log(x: Txn, op: Op): Txn {
    x.(log := x.log + [op])
  }

  // ----- Reads -----

  predicate CanRead(s: Store, t: Cid, loc: Loc) {
    SeesVersion(s, t, loc) && (s.slots[loc].txnId == t || s.slots[loc].txnId == INITIAL_TXN_ID)
  }

  function DoRead(s: Store, t: Cid, loc: Loc): Store
    requires CanRead(s, t, loc)
  {
    var x := s.slots[loc];
    var op := Got(x.tuple, x.value, loc);
    if x.txnId == t then
      s.(txns := s.txns[t := Log(s.txns[t], op)])
    else
      s.(slots := s.slots[loc := x.(lastReader := Max(x.lastReader, t))],
         txns := s.txns[t := Log(RecordRead(s.txns[t], loc), op)])
  }

  predicate CanReadForUpdate(s: Store, t: Cid, loc: Loc) {
    SeesVersion(s, t, loc) &&
    (s.slots[loc].txnId == t || (IsOwnable(s.slots[loc]) && CanAcquire(s.slots[loc], t)))
  }

  function DoReadForUpdate(s: Store, t: Cid, loc: Loc): Store
    requires CanReadForUpdate(s, t, loc)
  {
    var x := s.slots[loc];
    var op := Got(x.tuple, x.value, loc);
    if x.txnId == t then
      s.(txns := s.txns[t := Log(s.txns[t], op)])
    else
      s.(slots := s.slots[loc := x.(txnId := t, lastReader := Max(x.lastReader, t))],
         txns := s.txns[t := Log(RecordReadOwn(s.txns[t], loc), op)])
  }

  // ----- Writes -----

  predicate CanInsert(s: Store, t: Cid, loc: Loc, k: TupleId) {
    IsActive(s, t) && loc !in s.slots && k !in s.index
  }

  function DoInsert(s: Store, t: Cid, loc: Loc, k: TupleId, v: Value): Store
    requires CanInsert(s, t, loc, k)
  {
    Store(s.slots[loc := Slot(t, MAX_CID, MAX_CID, None, None, 0, k, v)],
          s.index[k := loc],
          s.txns[t := Log(RecordInsert(s.txns[t], loc), Inserted(k, v, loc))])
  }

  /** Ownership of a version already read, taken now unless a select-for-update took it before. */
  predicate CanReplace(s: Store, t: Cid, loc: Loc, newLoc: Loc) {
    IsActive(s, t) && loc in s.slots && newLoc !in s.slots && loc in s.txns[t].rw &&
    (s.txns[t].rw[loc] == READ || s.txns[t].rw[loc] == READ_OWN) &&
    (s.slots[loc].txnId == t || (IsOwnable(s.slots[loc]) && CanAcquire(s.slots[loc], t)))
  }

  /** Links `newLoc` above `loc` and moves the index head to it. */
  function Replace(s: Store, t: Cid, loc: Loc, newLoc: Loc, end: Cid, v: Value, txn: Txn): Store
    requires loc in s.slots
  {
    var x := s.slots[loc];
    Store(s.slots[loc := x.(txnId := t, prev := Some(newLoc))]
                 [newLoc := Slot(t, MAX_CID, end, Some(loc), None, 0, x.tuple, v)],
          s.index[x.tuple := newLoc],
          s.txns[t := txn])
  }

  function DoUpdate(s: Store, t: Cid, loc: Loc, newLoc: Loc, v: Value): Store
    requires CanReplace(s, t, loc, newLoc)
  {
    Replace(s, t, loc, newLoc, MAX_CID, v,
            Log(RecordUpdate(s.txns[t], loc), Wrote(s.slots[loc].tuple, v, loc)))
  }

  function DoDelete(s: Store, t: Cid, loc: Loc, newLoc: Loc): Store
    requires CanReplace(s, t, loc, newLoc)
  {
    Replace(s, t, loc, newLoc, INVALID_CID, s.slots[loc].value,
            Log(RecordDelete(s.txns[t], loc), Deleted(s.slots[loc].tuple, loc)))
  }

  /** The version is this transaction's own uncommitted one and is not yet marked deleted. */
  predicate CanChangeOwn(s: Store, t: Cid, loc: Loc) {
    IsActive(s, t) && loc in s.slots && s.slots[loc].txnId == t &&
    s.slots[loc].begin == MAX_CID && s.slots[loc].end == MAX_CID
  }

  function DoOverwrite(s: Store, t: Cid, loc: Loc, v: Value): Store
    requires CanChangeOwn(s, t, loc)
  {
    var x := s.slots[loc];
    s.(slots := s.slots[loc := x.(value := v)],
       txns := s.txns[t := Log(s.txns[t], Wrote(x.tuple, v, loc))])
  }

  function DoDeleteOwn(s: Store, t: Cid, loc: Loc): Store
    requires CanChangeOwn(s, t, loc)
  {
    var x := s.slots[loc];
    var entry := if x.next.Some? then x.next.value else loc;
    s.(slots := s.slots[loc := x.(end := INVALID_CID)],
       txns := s.txns[t := Log(RecordDelete(s.txns[t], entry), Deleted(x.tuple, loc))])
  }

  // ----- Commit and abort: what the loops over the read/write set leave behind -----

  /** A version not in the read/write set is the new version of the entry it points back to. */
  predicate ReplacesDeleted(x: Slot, rw: map<Loc, RWType>) {
    x.next.Some? && RwOf(rw, x.next.value) == Some(DELETE)
  }

  function SettleCommit(x: Slot, loc: Loc, t: Cid, rw: map<Loc, RWType>): Slot {
    if x.txnId != t then x
    else match RwOf(rw, loc)
      case Some(READ) => x
      case Some(READ_OWN) => x.(txnId := INITIAL_TXN_ID)
      case Some(UPDATE) => x.(txnId := INITIAL_TXN_ID, end := t)
      case Some(DELETE) => x.(txnId := INITIAL_TXN_ID, end := t)
      case Some(INSERT) => x.(txnId := INITIAL_TXN_ID, begin := t, end := MAX_CID)
      case Some(INS_DEL) => x.(txnId := INVALID_TXN_ID, begin := MAX_CID, end := MAX_CID)
      case None =>
        x.(txnId := if ReplacesDeleted(x, rw) then INVALID_TXN_ID else INITIAL_TXN_ID,
           begin := t, end := MAX_CID)
  }

  function SettleAbort(x: Slot, loc: Loc, t: Cid, rw: map<Loc, RWType>): Slot {
    if x.txnId != t then x
    else match RwOf(rw, loc)
      case Some(READ) => x
      case Some(READ_OWN) => x.(txnId := INITIAL_TXN_ID)
      case Some(UPDATE) => x.(txnId := INITIAL_TXN_ID, prev := None)
      case Some(DELETE) => x.(txnId := INITIAL_TXN_ID, prev := None)
      case _ => x.(txnId := INVALID_TXN_ID, begin := MAX_CID, end := MAX_CID)
  }

  function SettledHead(slots: map<Loc, Slot>, h: Loc, t: Cid): Loc {
    if h in slots && slots[h].txnId == t && slots[h].begin == MAX_CID && slots[h].next.Some?
    then slots[h].next.value else h
  }

  function DoCommit(s: Store, t: Cid): Store
    requires IsActive(s, t)
  {
    var rw := s.txns[t].rw;
    s.(slots := map loc | loc in s.slots :: SettleCommit(s.slots[loc], loc, t, rw),
       txns := s.txns[t := s.txns[t].(status := Committed)])
  }

  function DoAbort(s: Store, t: Cid): Store
    requires IsActive(s, t)
  {
    var rw := s.txns[t].rw;
    Store(map loc | loc in s.slots :: SettleAbort(s.slots[loc], loc, t, rw),
          map k | k in s.index :: SettledHead(s.slots, s.index[k], t),
          s.txns[t := s.txns[t].(status := Aborted)])
  }

  // ----- Steps and runs -----

  predicate CanBegin(s: Store, t: Cid) {
    t !in s.txns && INITIAL_TXN_ID < t < MAX_CID
  }

  predicate Enabled(s: Store, a: Action) {
    match a
    case Begin(t) => CanBegin(s, t)
    case Read(t, loc) => CanRead(s, t, loc)
    case ReadForUpdate(t, loc) => CanReadForUpdate(s, t, loc)
    case Insert(t, loc, k, _) => CanInsert(s, t, loc, k)
    case Update(t, loc, newLoc, _) => CanReplace(s, t, loc, newLoc)
    case Delete(t, loc, newLoc) => CanReplace(s, t, loc, newLoc)
    case Overwrite(t, loc, _) => CanChangeOwn(s, t, loc)
    case DeleteOwn(t, loc) => CanChangeOwn(s, t, loc)
    case Commit(t) => IsActive(s, t)
    case Abort(t) => IsActive(s, t)
  }

  function Step(s: Store, a: Action): Store
    requires Enabled(s, a)
  {
    match a
    case Begin(t) => s.(txns := s.txns[t := Txn(Active, map[], false, 0, [])])
    case Read(t, loc) => DoRead(s, t, loc)
    case ReadForUpdate(t, loc) => DoReadForUpdate(s, t, loc)
    case Insert(t, loc, k, v) => DoInsert(s, t, loc, k, v)
    case Update(t, loc, newLoc, v) => DoUpdate(s, t, loc, newLoc, v)
    case Delete(t, loc, newLoc) => DoDelete(s, t, loc, newLoc)
    case Overwrite(t, loc, v) => DoOverwrite(s, t, loc, v)
    case DeleteOwn(t, loc) => DoDeleteOwn(s, t, loc)
    case Commit(t) => DoCommit(s, t)
    case Abort(t) => DoAbort(s, t)
  }

  /** The state after the actions, when each is enabled in turn. */
  function Run(s: Store, actions: seq<Action>): Option<Store>
    decreases |actions|
  {
    if actions == [] then Some(s)
    else if Enabled(s, actions[0]) then Run(Step(s, actions[0]), actions[1..])
    else None
  }
}
