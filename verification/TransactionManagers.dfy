/** The transaction manager as the program runs it, proved against modules `Mvto` and `FieldWrites`. */
module TransactionManagers {
  import opened Base
  import opened Mvto
  import opened MvtoInvariant
  import opened FieldWrites
  import opened TransactionContexts

  // ----- A whole entry, one field write after the other -----

  lemma WriteFieldKeeps(s: Store, t: Cid, commits: bool, kind: RWType, loc: Loc, i: nat)
    requires loc in s.slots
    ensures loc in WriteField(s, t, commits, kind, loc, i).slots
    ensures WriteField(s, t, commits, kind, loc, i).txns == s.txns
  {
  }

  /** What is left of the entry at `loc` after the writes from number `i` on. */
  function Written(s: Store, t: Cid, commits: bool, kind: RWType, loc: Loc, i: nat): Store
    requires loc in s.slots
    decreases WriteCount(commits, kind) - i
  {
    if i >= WriteCount(commits, kind) then s
    else
      WriteFieldKeeps(s, t, commits, kind, loc, i);
      Written(WriteField(s, t, commits, kind, loc, i), t, commits, kind, loc, i + 1)
  }

  lemma {:induction false} EntryWritten(f: Fine, t: Cid)
    requires FineInv(f) && FineEnabled(f, Write(t))
    ensures var w := f.work[t];
            var loc := w.current.value;
            var kind := f.store.txns[t].rw[loc];
            var g := Fine(Written(f.store, t, w.commits, kind, loc, w.done), f.work[t := Leave(w, loc)]);
            FineInv(g) && Settled(g) == Settled(f) && g.store.txns == f.store.txns
    decreases var w := f.work[t]; WriteCount(w.commits, f.store.txns[t].rw[w.current.value]) - w.done
  {
    var w := f.work[t];
    var loc := w.current.value;
    if Writing(f, t) {
      var g := FineStep(f, Write(t));
      WriteSettles(f, t);
      WriteKeepsFine(f, t);
      WriteFieldKeeps(f.store, t, w.commits, f.store.txns[t].rw[loc], loc, w.done);
      EntryWritten(g, t);
      assert g.work[t := Leave(g.work[t], loc)] == f.work[t := Leave(w, loc)];
    } else {
      LeaveKeepsFine(f, t);
    }
  }

  // ----- The manager -----

  class TimestampOrderingTransactionManager {
    var slots: map<Loc, Slot>
    var index: map<TupleId, Loc>
    ghost var txns: map<Cid, Txn>  // what the contexts of all transactions hold

    constructor ()
      ensures View() == EMPTY_STORE
    {
      slots, index, txns := map[], map[], map[];
    }

    ghost function View(): Store
      reads this
    {
      Store(slots, index, txns)
    }

    ghost predicate Knows(txn: TransactionContext)
      reads this, txn
    {
      txn.id in txns && txns[txn.id] == txn.View() && IsActive(View(), txn.id) && Inv(View())
    }

    method BeginTransaction(t: Cid) returns (txn: TransactionContext)
      requires Inv(View()) && CanBegin(View(), t)
      modifies this`txns
      ensures fresh(txn) && txn.id == t && Knows(txn) && View() == Step(old(View()), Begin(t))
    {
      BeginKeeps(View(), t);
      txn := new TransactionContext(t);
      txns := txns[t := txn.View()];
    }

    method SetLastReaderCommitId(loc: Loc, cid: Cid, isOwner: bool) returns (ok: bool)
      requires loc in slots
      modifies this`slots
      ensures ok == (isOwner || old(slots)[loc].txnId == INITIAL_TXN_ID)
      ensures slots == if ok
                       then old(slots)[loc := old(slots)[loc].(lastReader := Max(old(slots)[loc].lastReader, cid))]
                       else old(slots)
    {
      if !isOwner && slots[loc].txnId != INITIAL_TXN_ID {
        return false;
      }
      if slots[loc].lastReader < cid {
        slots := slots[loc := slots[loc].(lastReader := cid)];
      } else {
        assert slots == slots[loc := slots[loc]];
      }
      return true;
    }

    method AcquireOwnership(txn: TransactionContext, loc: Loc) returns (ok: bool)
      requires loc in slots
      modifies this`slots
      ensures ok == CanAcquire(old(slots)[loc], txn.id)
      ensures slots == if ok then old(slots)[loc := old(slots)[loc].(txnId := txn.id)] else old(slots)
    {
      if slots[loc].lastReader > txn.id {
        return false;
      }
      if slots[loc].txnId != INITIAL_TXN_ID {
        return false;
      }
      slots := slots[loc := slots[loc].(txnId := txn.id)];
      return true;
    }

    method YieldOwnership(txn: TransactionContext, loc: Loc)
      requires loc in slots && slots[loc].txnId == txn.id
      modifies this`slots
      ensures slots == old(slots)[loc := old(slots)[loc].(txnId := INITIAL_TXN_ID)]
    {
      slots := slots[loc := slots[loc].(txnId := INITIAL_TXN_ID)];
    }

    /** Takes the ghost copy of the context along. */
    ghost method Sync(txn: TransactionContext)
      modifies this`txns
      ensures txns == old(txns)[txn.id := txn.View()]
    {
      txns := txns[txn.id := txn.View()];
    }

    /** A read of a version that passed the visibility test, at level serializable. */
    method PerformRead(txn: TransactionContext, loc: Loc) returns (ok: bool, value: Value)
      requires Knows(txn) && SeesVersion(View(), txn.id, loc)
      modifies this`slots, this`txns, txn`rw, txn`log
      ensures Knows(txn) && ok == CanRead(old(View()), txn.id, loc) && value == old(slots)[loc].value
      ensures View() == if ok then DoRead(old(View()), txn.id, loc) else old(View())
    {
      ghost var s := View();
      var x := slots[loc];
      value := x.value;
      if CanRead(s, txn.id, loc) { ReadKeeps(s, txn.id, loc); }
      if x.txnId != txn.id {
        ok := SetLastReaderCommitId(loc, txn.id, false);
        if !ok {
          return;
        }
        if loc in txn.rw { assert EntryOk(s, txn.id, loc); }
        txn.RecordRead(loc);
      }
      ok := true;
      txn.Note(Got(x.tuple, x.value, loc));
      Sync(txn);
    }

    /** Select-for-update of a version that passed the visibility test. */
    method PerformReadForUpdate(txn: TransactionContext, loc: Loc) returns (ok: bool, value: Value)
      requires Knows(txn) && SeesVersion(View(), txn.id, loc)
      modifies this`slots, this`txns, txn`rw, txn`log
      ensures Knows(txn) && ok == CanReadForUpdate(old(View()), txn.id, loc) && value == old(slots)[loc].value
      ensures View() == if ok then DoReadForUpdate(old(View()), txn.id, loc) else old(View())
    {
      ghost var s := View();
      var x := slots[loc];
      value := x.value;
      if CanReadForUpdate(s, txn.id, loc) { ReadForUpdateKeeps(s, txn.id, loc); }
      if x.txnId != txn.id {
        if !IsOwnable(x) {
          return false, value;
        }
        ok := AcquireOwnership(txn, loc);
        if !ok {
          return;
        }
        if loc in txn.rw { assert EntryOk(s, txn.id, loc); }
        txn.RecordReadOwn(loc);
        ok := SetLastReaderCommitId(loc, txn.id, true);
        assert slots == DoReadForUpdate(s, txn.id, loc).slots;
      }
      ok := true;
      txn.Note(Got(x.tuple, x.value, loc));
      Sync(txn);
    }

    method PerformInsert(txn: TransactionContext, loc: Loc, k: TupleId, v: Value)
      requires Knows(txn) && CanInsert(View(), txn.id, loc, k)
      modifies this, txn`rw, txn`insertCount, txn`log
      ensures Knows(txn) && View() == DoInsert(old(View()), txn.id, loc, k, v)
    {
      ghost var s := View();
      InsertKeeps(s, txn.id, loc, k, v);
      EntriesExist(s, txn.id);
      slots := slots[loc := Slot(txn.id, MAX_CID, MAX_CID, None, None, 0, k, v)];
      index := index[k := loc];
      txn.RecordInsert(loc);
      txn.Note(Inserted(k, v, loc));
      Sync(txn);
    }

    /** Ownership for an update or delete, unless the version is owned already. */
    method Own(txn: TransactionContext, loc: Loc) returns (ok: bool)
      requires loc in slots
      modifies this`slots
      ensures var x := old(slots)[loc];
              ok == (x.txnId == txn.id || (IsOwnable(x) && CanAcquire(x, txn.id)))
      ensures slots == if ok then old(slots)[loc := old(slots)[loc].(txnId := txn.id)] else old(slots)
    {
      if slots[loc].txnId == txn.id {
        assert slots == slots[loc := slots[loc].(txnId := txn.id)];
        return true;
      }
      if !IsOwnable(slots[loc]) {
        return false;
      }
      ok := AcquireOwnership(txn, loc);
    }

    /** Replaces a version read before by a new one at `newLoc`. */
    method Update(txn: TransactionContext, loc: Loc, newLoc: Loc, v: Value) returns (ok: bool)
      requires Knows(txn) && loc in slots && newLoc !in slots && loc in txn.rw
      requires (txn.rw[loc] == READ || txn.rw[loc] == READ_OWN)
      modifies this, txn`rw, txn`isWritten, txn`log
      ensures Knows(txn) && ok == CanReplace(old(View()), txn.id, loc, newLoc)
      ensures View() == if ok then DoUpdate(old(View()), txn.id, loc, newLoc, v) else old(View())
    {
      ghost var s := View();
      var k := slots[loc].tuple;
      ok := Own(txn, loc);
      if ok {
        UpdateKeeps(s, txn.id, loc, newLoc, v);
        slots := slots[loc := slots[loc].(prev := Some(newLoc))];
        slots := slots[newLoc := Slot(txn.id, MAX_CID, MAX_CID, Some(loc), None, 0, k, v)];
        assert slots == DoUpdate(s, txn.id, loc, newLoc, v).slots;
        index := index[k := newLoc];
        txn.RecordUpdate(loc);
        txn.Note(Wrote(k, v, loc));
        Sync(txn);
      }
    }

    /** Replaces a version read before by an empty one at `newLoc`. */
    method Delete(txn: TransactionContext, loc: Loc, newLoc: Loc) returns (ok: bool)
      requires Knows(txn) && loc in slots && newLoc !in slots && loc in txn.rw
      requires (txn.rw[loc] == READ || txn.rw[loc] == READ_OWN)
      modifies this, txn`rw, txn`isWritten, txn`insertCount, txn`log
      ensures Knows(txn) && ok == CanReplace(old(View()), txn.id, loc, newLoc)
      ensures View() == if ok then DoDelete(old(View()), txn.id, loc, newLoc) else old(View())
    {
      ghost var s := View();
      var x := slots[loc];
      ok := Own(txn, loc);
      if ok {
        DeleteKeeps(s, txn.id, loc, newLoc);
        slots := slots[loc := slots[loc].(prev := Some(newLoc))];
        slots := slots[newLoc := Slot(txn.id, MAX_CID, INVALID_CID, Some(loc), None, 0, x.tuple, x.value)];
        assert slots == DoDelete(s, txn.id, loc, newLoc).slots;
        index := index[x.tuple := newLoc];
        var insDel := txn.RecordDelete(loc);
        txn.Note(Deleted(x.tuple, loc));
        Sync(txn);
      }
    }

    /** Writes over the transaction's own uncommitted version in place. */
    method OverwriteOwnVersion(txn: TransactionContext, loc: Loc, v: Value)
      requires Knows(txn) && CanChangeOwn(View(), txn.id, loc)
      modifies this`slots, this`txns, txn`log
      ensures Knows(txn) && View() == DoOverwrite(old(View()), txn.id, loc, v)
    {
      OverwriteKeeps(View(), txn.id, loc, v);
      var x := slots[loc];
      slots := slots[loc := x.(value := v)];
      txn.Note(Wrote(x.tuple, v, loc));
      Sync(txn);
    }

    /** Marks the transaction's own uncommitted version as deleted. */
    method DeleteOwnVersion(txn: TransactionContext, loc: Loc)
      requires Knows(txn) && CanChangeOwn(View(), txn.id, loc)
      modifies this`slots, this`txns, txn`rw, txn`isWritten, txn`insertCount, txn`log
      ensures Knows(txn) && View() == DoDeleteOwn(old(View()), txn.id, loc)
    {
      ghost var s := View();
      var x := slots[loc];
      DeleteOwnKeeps(s, txn.id, loc);
      assert SlotOk(s, loc);
      slots := slots[loc := x.(end := INVALID_CID)];
      var insDel := txn.RecordDelete(if x.next.Some? then x.next.value else loc);
      txn.Note(Deleted(x.tuple, loc));
      Sync(txn);
    }

    /** Installs the new version at `n` above the entry at `loc`. */
    method InstallReplaced(t: Cid, kind: RWType, loc: Loc, n: Loc)
      requires loc in slots && n in slots && loc != n && (kind == UPDATE || kind == DELETE)
      requires slots[loc].prev == Some(n)
      modifies this`slots
      ensures View() == Written(old(View()), t, true, kind, loc, 0)
    {
      ghost var s := View();
      var cid := slots[loc].end;
      slots := slots[n := slots[n].(begin := t)];
      ghost var s1 := View();
      slots := slots[n := slots[n].(end := cid)];
      ghost var s2 := View();
      slots := slots[loc := slots[loc].(end := t)];
      ghost var s3 := View();
      slots := slots[n := slots[n].(txnId := if kind == UPDATE then INITIAL_TXN_ID else INVALID_TXN_ID)];
      ghost var s4 := View();
      slots := slots[loc := slots[loc].(txnId := INITIAL_TXN_ID)];
      assert Written(View(), t, true, kind, loc, 5) == View();
      assert Written(s4, t, true, kind, loc, 4) == View();
      assert Written(s3, t, true, kind, loc, 3) == View();
      assert Written(s2, t, true, kind, loc, 2) == View();
      assert Written(s1, t, true, kind, loc, 1) == View();
    }

    /** Unlinks the new version at `n` from the entry at `loc` again. */
    method RollBackReplaced(t: Cid, kind: RWType, loc: Loc, n: Loc)
      requires loc in slots && n in slots && loc != n && (kind == UPDATE || kind == DELETE)
      requires slots[loc].prev == Some(n)
      modifies this`slots, this`index
      ensures View() == Written(old(View()), t, false, kind, loc, 0)
    {
      slots := slots[n := slots[n].(begin := MAX_CID)];
      ghost var s1 := View();
      slots := slots[n := slots[n].(end := MAX_CID)];
      ghost var s2 := View();
      index := index[slots[loc].tuple := loc];
      ghost var s3 := View();
      slots := slots[n := slots[n].(txnId := INVALID_TXN_ID)];
      ghost var s4 := View();
      slots := slots[loc := slots[loc].(prev := None)];
      ghost var s5 := View();
      slots := slots[loc := slots[loc].(txnId := INITIAL_TXN_ID)];
      assert Written(View(), t, false, kind, loc, 6) == View();
      assert Written(s5, t, false, kind, loc, 5) == View();
      assert Written(s4, t, false, kind, loc, 4) == View();
      assert Written(s3, t, false, kind, loc, 3) == View();
      assert Written(s2, t, false, kind, loc, 2) == View();
      assert Written(s1, t, false, kind, loc, 1) == View();
    }

    /** Keeps an inserted version or throws it away. */
    method SettleInserted(t: Cid, commits: bool, kind: RWType, loc: Loc)
      requires loc in slots && (kind == INSERT || kind == INS_DEL)
      modifies this`slots
      ensures View() == Written(old(View()), t, commits, kind, loc, 0)
    {
      var keep := commits && kind == INSERT;
      slots := slots[loc := slots[loc].(begin := if keep then t else MAX_CID)];
      ghost var s1 := View();
      slots := slots[loc := slots[loc].(end := MAX_CID)];
      ghost var s2 := View();
      slots := slots[loc := slots[loc].(txnId := if keep then INITIAL_TXN_ID else INVALID_TXN_ID)];
      assert Written(View(), t, commits, kind, loc, 3) == View();
      assert Written(s2, t, commits, kind, loc, 2) == View();
      assert Written(s1, t, commits, kind, loc, 1) == View();
    }

    /** One entry of the read/write set, in the commit loop or in the abort loop. */
    method SettleEntry(txn: TransactionContext, commits: bool, loc: Loc)
      requires txn.id in txns && txns[txn.id].rw == txn.rw && loc in txn.rw
      requires OpenEntry(View(), txn.id, commits, loc, 0)
      modifies this`slots, this`index
      ensures View() == Written(old(View()), txn.id, commits, txn.rw[loc], loc, 0)
    {
      var kind := txn.rw[loc];
      match kind {
        case READ =>
        case READ_OWN =>
          YieldOwnership(txn, loc);
          assert Written(View(), txn.id, commits, kind, loc, 1) == View();
        case UPDATE =>
          if commits { InstallReplaced(txn.id, kind, loc, slots[loc].prev.value); }
          else { RollBackReplaced(txn.id, kind, loc, slots[loc].prev.value); }
        case DELETE =>
          if commits { InstallReplaced(txn.id, kind, loc, slots[loc].prev.value); }
          else { RollBackReplaced(txn.id, kind, loc, slots[loc].prev.value); }
        case INSERT => SettleInserted(txn.id, commits, kind, loc);
        case INS_DEL => SettleInserted(txn.id, commits, kind, loc);
      }
    }

    /** The loop over the read/write set, which may visit its entries in any order. */
    method EndTransaction(txn: TransactionContext, commits: bool)
      requires Knows(txn)
      modifies this, txn`status
      ensures View() == Step(old(View()), EndOf(txn.id, commits)) && txns[txn.id] == txn.View()
      ensures forall l :: l in slots ==> slots[l].txnId != txn.id
    {
      ghost var s, t := View(), txn.id;
      LoopStarts(s, t, commits);
      var rest := txn.rw.Keys;
      while rest != {}
        invariant rest <= txn.rw.Keys && txns == s.txns
        invariant InLoop(View(), s, t, commits, rest)
        decreases rest
      {
        var loc :| loc in rest;
        LoopStep(View(), s, t, commits, rest, loc);
        SettleEntry(txn, commits, loc);
        rest := rest - {loc};
      }
      LoopEnds(View(), s, t, commits);
      txn.status := if commits then Committed else Aborted;
      Sync(txn);
    }

    method CommitTransaction(txn: TransactionContext)
      requires Knows(txn)
      modifies this, txn`status
      ensures View() == DoCommit(old(View()), txn.id) && txns[txn.id] == txn.View()
      ensures forall l :: l in slots ==> slots[l].txnId != txn.id
    {
      EndTransaction(txn, true);
    }

    method AbortTransaction(txn: TransactionContext)
      requires Knows(txn)
      modifies this, txn`status
      ensures View() == DoAbort(old(View()), txn.id) && txns[txn.id] == txn.View()
      ensures forall l :: l in slots ==> slots[l].txnId != txn.id
    {
      EndTransaction(txn, false);
    }
  }

  // ----- The loop as a run of field writes -----

  function LoopState(now: Store, t: Cid, commits: bool, rest: set<Loc>, current: Option<Loc>): Fine {
    Fine(now, map[t := Work(commits, rest, current, 0)])
  }

  /** With the entries in `rest` still to do, finishing them gives the atomic commit or abort of `s`. */
  ghost predicate InLoop(now: Store, s: Store, t: Cid, commits: bool, rest: set<Loc>) {
    && IsActive(s, t) && now.txns == s.txns && rest <= s.txns[t].rw.Keys
    && FineInv(LoopState(now, t, commits, rest, None))
    && Settled(LoopState(now, t, commits, rest, None)) == Step(s, EndOf(t, commits))
  }

  lemma LoopStarts(s: Store, t: Cid, commits: bool)
    requires Inv(s) && IsActive(s, t)
    ensures InLoop(s, s, t, commits, s.txns[t].rw.Keys)
  {
    var f := Fine(s, map[]);
    SettledWhenIdle(f);
    StartSettles(f, t, commits);
    StartKeepsFine(f, t, commits);
    assert FineStep(f, Start(t, commits)) == LoopState(s, t, commits, s.txns[t].rw.Keys, None);
  }

  lemma LoopPicks(now: Store, s: Store, t: Cid, commits: bool, rest: set<Loc>, loc: Loc)
    requires InLoop(now, s, t, commits, rest) && loc in rest
    ensures var g := LoopState(now, t, commits, rest, Some(loc));
            FineInv(g) && Settled(g) == Step(s, EndOf(t, commits)) && OpenEntry(now, t, commits, loc, 0)
  {
    var f := LoopState(now, t, commits, rest, None);
    PickKeepsFine(f, t, loc);
    var g := LoopState(now, t, commits, rest, Some(loc));
    assert FineStep(f, Pick(t, loc)) == g;
    assert WorkOk(g, t);
    assert OpenEntry(g.store, t, commits, loc, DoneOn(g.work[t], loc));
  }

  lemma LoopStep(now: Store, s: Store, t: Cid, commits: bool, rest: set<Loc>, loc: Loc)
    requires InLoop(now, s, t, commits, rest) && loc in rest
    ensures OpenEntry(now, t, commits, loc, 0)
    ensures InLoop(Written(now, t, commits, now.txns[t].rw[loc], loc, 0), s, t, commits, rest - {loc})
  {
    LoopPicks(now, s, t, commits, rest, loc);
    var g := LoopState(now, t, commits, rest, Some(loc));
    EntryWritten(g, t);
    assert g.work[t := Leave(g.work[t], loc)] == map[t := Work(commits, rest - {loc}, None, 0)];
  }

  lemma LoopEnds(now: Store, s: Store, t: Cid, commits: bool)
    requires InLoop(now, s, t, commits, {})
    ensures now.(txns := now.txns[t := now.txns[t].(status := if commits then Committed else Aborted)]) ==
            Step(s, EndOf(t, commits))
    ensures forall l :: l in now.slots ==> now.slots[l].txnId != t
  {
    var f := LoopState(now, t, commits, {}, None);
    forall l | l in now.slots ensures now.slots[l].txnId != t { NothingOwned(f, t, l); }
    FinishSettles(f, t);
    var g := FineStep(f, Finish(t));
    assert g.work == map[];
    SettledWhenIdle(g);
  }
}
