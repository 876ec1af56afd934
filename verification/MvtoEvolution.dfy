/** What no step can undo. */
module MvtoEvolution {
  import opened Base
  import opened Mvto
  import opened MvtoInvariant

  // A committed version keeps its value and its begin id, its end id is set at most once and never below its last
  // reader, and stamps only grow.

  /** The transaction that wrote a live version. */
  function Writer(x: Slot): Cid {
    if x.begin != MAX_CID then x.begin else x.txnId
  }

  predicate SlotEvolves(s: Store, s': Store, l: Loc)
    requires l in s.slots
  {
    && l in s'.slots
    && var x, y := s.slots[l], s'.slots[l];
       && y.tuple == x.tuple && y.next == x.next && x.lastReader <= y.lastReader
       && (Dead(x) ==> Dead(y))
       && (x.begin != MAX_CID ==>
             && y.begin == x.begin && y.value == x.value
             && (y.txnId == INVALID_TXN_ID <==> x.txnId == INVALID_TXN_ID)
             && (y.end != x.end ==> x.end == MAX_CID && x.lastReader <= y.end && IsCommitted(s', y.end)))
       && (!Dead(y) ==> Writer(y) == Writer(x))
  }

  ghost predicate Evolves(s: Store, s': Store) {
    && s.index.Keys <= s'.index.Keys
    && (forall t :: IsCommitted(s, t) ==> IsCommitted(s', t))
    && forall l {:trigger SlotEvolves(s, s', l)} :: l in s.slots ==> SlotEvolves(s, s', l)
  }

  /** A slot that was free before is now a fresh tuple or sits on a version that was there. */
  predicate SlotAppears(s: Store, s': Store, l: Loc)
    requires l in s'.slots
  {
    l !in s.slots ==>
      var y := s'.slots[l];
      && y.begin == MAX_CID
      && (y.tuple in s.index ==>
            && y.next.Some? && y.next.value in s.slots
            && var o := s.slots[y.next.value];
               o.tuple == y.tuple && o.begin < y.txnId && o.begin != MAX_CID && o.txnId != INVALID_TXN_ID)
  }

  ghost predicate Appears(s: Store, s': Store) {
    forall l {:trigger SlotAppears(s, s', l)} :: l in s'.slots ==> SlotAppears(s, s', l)
  }

  /** A call changes the context of its caller only. */
  lemma StepTxns(s: Store, a: Action)
    requires Enabled(s, a)
    ensures a.t in Step(s, a).txns && Step(s, a).txns == s.txns[a.t := Step(s, a).txns[a.t]]
  {
  }

  lemma LogGrows(s: Store, a: Action)
    requires Enabled(s, a) && a.t in s.txns
    ensures s.txns[a.t].log <= Step(s, a).txns[a.t].log
  {
  }

  lemma EvolvesTransitive(s: Store, m: Store, s': Store)
    requires Evolves(s, m) && Evolves(m, s')
    ensures Evolves(s, s')
  {
    forall l | l in s.slots ensures SlotEvolves(s, s', l) {
      assert SlotEvolves(s, m, l) && SlotEvolves(m, s', l);
    }
  }

  lemma CommitEvolves(s: Store, t: Cid, l: Loc)
    requires Inv(s) && IsActive(s, t) && l in s.slots
    ensures SlotEvolves(s, DoCommit(s, t), l)
  {
    assert SlotOk(s, l);
  }

  lemma AbortEvolves(s: Store, t: Cid, l: Loc)
    requires Inv(s) && IsActive(s, t) && l in s.slots
    ensures SlotEvolves(s, DoAbort(s, t), l)
  {
    assert SlotOk(s, l);
  }

  lemma ReplaceEvolves(s: Store, t: Cid, loc: Loc, newLoc: Loc, end: Cid, v: Value, txn: Txn, l: Loc)
    requires Inv(s) && CanReplace(s, t, loc, newLoc) && l in s.slots
    ensures var s' := Replace(s, t, loc, newLoc, end, v, txn);
            SlotEvolves(s, s', l) && SlotAppears(s, s', newLoc)
  {
    assert EntryOk(s, t, loc);
    assert SlotOk(s, loc) && SlotOk(s, l);
  }

  lemma StepEvolves(s: Store, a: Action)
    requires Inv(s) && Enabled(s, a)
    ensures Evolves(s, Step(s, a)) && Appears(s, Step(s, a))
  {
    var s' := Step(s, a);
    forall l | l in s.slots ensures SlotEvolves(s, s', l) {
      StepEvolvesSlot(s, a, l);
    }
    forall l | l in s'.slots ensures SlotAppears(s, s', l) {
      StepAppears(s, a, l);
    }
  }

  lemma StepEvolvesSlot(s: Store, a: Action, l: Loc)
    requires Inv(s) && Enabled(s, a) && l in s.slots
    ensures SlotEvolves(s, Step(s, a), l)
  {
    match a {
      case Update(t, loc, newLoc, v) =>
        ReplaceEvolves(s, t, loc, newLoc, MAX_CID, v, Step(s, a).txns[t], l);
      case Delete(t, loc, newLoc) =>
        ReplaceEvolves(s, t, loc, newLoc, INVALID_CID, s.slots[loc].value, Step(s, a).txns[t], l);
      case Commit(t) => CommitEvolves(s, t, l);
      case Abort(t) => AbortEvolves(s, t, l);
      case _ => assert SlotOk(s, l);
    }
  }

  lemma StepAppears(s: Store, a: Action, l: Loc)
    requires Inv(s) && Enabled(s, a) && l in Step(s, a).slots
    ensures SlotAppears(s, Step(s, a), l)
  {
    match a {
      case Update(t, loc, newLoc, v) =>
        ReplaceEvolves(s, t, loc, newLoc, MAX_CID, v, Step(s, a).txns[t], loc);
      case Delete(t, loc, newLoc) =>
        ReplaceEvolves(s, t, loc, newLoc, INVALID_CID, s.slots[loc].value, Step(s, a).txns[t], loc);
      case _ =>
    }
  }
}
