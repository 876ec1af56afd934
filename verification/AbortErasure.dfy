/** An aborted transaction leaves no trace on the others. */
module AbortErasure {
  import opened Base
  import opened Mvto
  import opened MvtoInvariant
  import opened MvtoEvolution

  // Taking its calls out of a run gives a run in which every other transaction makes the same calls, gets the same
  // answers and ends in the same context.

  /** Slots nobody but `t` can see: its uncommitted versions and dead ones. */
  predicate Hidden(x: Slot, t: Cid) {
    Dead(x) || (x.txnId == t && x.begin == MAX_CID)
  }

  /** `y` is `x` without what `t` did to it; `t` may have raised the last-reader stamp. */
  predicate SlotErased(x: Slot, y: Slot, t: Cid) {
    && y == x.(txnId := y.txnId, prev := y.prev, lastReader := y.lastReader)
    && y.lastReader <= x.lastReader
    && (if x.txnId == t then y.txnId == INITIAL_TXN_ID && y.prev == None else y.txnId == x.txnId && y.prev == x.prev)
  }

  predicate ErasedAt(s: Store, u: Store, t: Cid, l: Loc) {
    && (l in u.slots ==>
          && l in s.slots && SlotErased(s.slots[l], u.slots[l], t)
          && (s.slots[l].txnId == t ==> s.slots[l].begin != MAX_CID))
    && (l in s.slots && l !in u.slots ==> Hidden(s.slots[l], t))
  }

  /** Index entries of tuples inserted by `t` are gone, a head on a version of `t` is one further down. */
  predicate HeadErasedAt(s: Store, u: Store, t: Cid, k: TupleId) {
    && (k in u.index ==> k in s.index && u.index[k] == SettledHead(s.slots, s.index[k], t))
    && (k in s.index && k !in u.index ==>
          s.index[k] in s.slots && s.slots[s.index[k]].next == None && Hidden(s.slots[s.index[k]], t))
  }

  ghost predicate Erased(s: Store, u: Store, t: Cid) {
    && INITIAL_TXN_ID < t && u.txns == s.txns - {t}
    && (forall l {:trigger ErasedAt(s, u, t, l)} :: ErasedAt(s, u, t, l))
    && (forall k {:trigger HeadErasedAt(s, u, t, k)} :: HeadErasedAt(s, u, t, k))
  }

  function Erase(actions: seq<Action>, t: Cid): seq<Action> {
    if actions == [] then []
    else (if actions[0].t == t then [] else [actions[0]]) + Erase(actions[1..], t)
  }

  // ----- Calls of the erased transaction -----

  predicate Ends(a: Action) {
    a.Commit? || a.Abort?
  }

  /** A committed version with nothing above it, which the index points to. */
  predicate IsTop(s: Store, l: Loc) {
    && l in s.slots
    && var x := s.slots[l];
       x.begin != MAX_CID && x.prev == None && x.tuple in s.index && s.index[x.tuple] == l
  }

  /** What a transaction takes or replaces is such a version. */
  predicate TakesTop(s: Store, a: Action)
    requires Enabled(s, a)
  {
    && (a.ReadForUpdate? && s.slots[a.loc].txnId != a.t ==> IsTop(s, a.loc))
    && (a.Update? || a.Delete? ==> IsTop(s, a.loc))
  }

  lemma OwnCallSlot(s: Store, u: Store, a: Action, l: Loc)
    requires Erased(s, u, a.t) && Enabled(s, a) && TakesTop(s, a) && !Ends(a)
    ensures ErasedAt(Step(s, a), u, a.t, l)
  {
    assert ErasedAt(s, u, a.t, l);
  }

  lemma OwnCallHead(s: Store, u: Store, a: Action, k: TupleId)
    requires Erased(s, u, a.t) && Enabled(s, a) && TakesTop(s, a) && !Ends(a)
    requires k in s.index ==> s.index[k] in s.slots
    ensures HeadErasedAt(Step(s, a), u, a.t, k)
  {
    assert HeadErasedAt(s, u, a.t, k);
    if !a.Begin? && a.loc in s.slots { assert ErasedAt(s, u, a.t, a.loc); }
  }

  lemma OwnCall(s: Store, u: Store, a: Action)
    requires Erased(s, u, a.t) && Enabled(s, a) && TakesTop(s, a) && !Ends(a)
    requires forall k :: k in s.index ==> s.index[k] in s.slots
    ensures Erased(Step(s, a), u, a.t)
  {
    forall l ensures ErasedAt(Step(s, a), u, a.t, l) { OwnCallSlot(s, u, a, l); }
    forall k ensures HeadErasedAt(Step(s, a), u, a.t, k) { OwnCallHead(s, u, a, k); }
    OwnStepTxns(s, a);
  }

  lemma OwnStepTxns(s: Store, a: Action)
    requires Enabled(s, a)
    ensures Step(s, a).txns - {a.t} == s.txns - {a.t}
  {
  }

  lemma AbortErased(s: Store, u: Store, t: Cid)
    requires Inv(s) && Erased(s, u, t) && IsActive(s, t)
    ensures Erased(DoAbort(s, t), u, t)
  {
    forall l ensures ErasedAt(DoAbort(s, t), u, t, l) {
      assert ErasedAt(s, u, t, l);
      if l in s.slots { assert SlotOk(s, l); }
    }
    forall k ensures HeadErasedAt(DoAbort(s, t), u, t, k) {
      assert HeadErasedAt(s, u, t, k);
      if k in s.index { assert HeadOk(s, k) && SlotOk(s, s.index[k]); }
    }
    OwnStepTxns(s, Abort(t));
  }

  lemma TopTaken(s: Store, a: Action)
    requires Inv(s) && Enabled(s, a)
    ensures TakesTop(s, a)
  {
    if a.ReadForUpdate? || a.Update? || a.Delete? {
      assert SlotOk(s, a.loc);
      if !a.ReadForUpdate? { assert EntryOk(s, a.t, a.loc); }
    }
  }

  lemma OwnStep(s: Store, u: Store, a: Action)
    requires Inv(s) && Erased(s, u, a.t) && Enabled(s, a) && !a.Commit?
    ensures Erased(Step(s, a), u, a.t)
  {
    if a.Abort? {
      AbortErased(s, u, a.t);
    } else {
      TopTaken(s, a);
      forall k | k in s.index ensures s.index[k] in s.slots { assert HeadOk(s, k); }
      OwnCall(s, u, a);
    }
  }

  // ----- Calls of the others -----

  /** The others' calls go through without `t` as well: locks are fewer and stamps are no higher. */
  lemma OtherEnabled(s: Store, u: Store, t: Cid, a: Action)
    requires Erased(s, u, t) && Enabled(s, a) && a.t != t && INITIAL_TXN_ID < a.t
    ensures Enabled(u, a)
  {
    match a {
      case Begin(_) =>
      case Read(_, loc) => assert ErasedAt(s, u, t, loc);
      case ReadForUpdate(_, loc) => assert ErasedAt(s, u, t, loc);
      case Insert(_, loc, k, _) => assert ErasedAt(s, u, t, loc) && HeadErasedAt(s, u, t, k);
      case Update(_, loc, newLoc, _) => assert ErasedAt(s, u, t, loc) && ErasedAt(s, u, t, newLoc);
      case Delete(_, loc, newLoc) => assert ErasedAt(s, u, t, loc) && ErasedAt(s, u, t, newLoc);
      case Overwrite(_, loc, _) => assert ErasedAt(s, u, t, loc);
      case DeleteOwn(_, loc) => assert ErasedAt(s, u, t, loc);
      case Commit(_) =>
      case Abort(_) =>
    }
  }

  predicate FieldsOnly(a: Action) {
    a.Begin? || a.Read? || a.ReadForUpdate? || a.Overwrite? || a.DeleteOwn?
  }

  lemma OtherSlotFields(s: Store, u: Store, t: Cid, a: Action, l: Loc)
    requires Erased(s, u, t) && Enabled(s, a) && Enabled(u, a) && a.t != t && FieldsOnly(a)
    requires INITIAL_TXN_ID < a.t
    ensures ErasedAt(Step(s, a), Step(u, a), t, l)
  {
    assert ErasedAt(s, u, t, l);
  }

  lemma OtherSlotNew(s: Store, u: Store, t: Cid, a: Action, l: Loc)
    requires Erased(s, u, t) && Enabled(s, a) && Enabled(u, a) && a.t != t && !FieldsOnly(a) && !Ends(a)
    requires INITIAL_TXN_ID < a.t
    ensures ErasedAt(Step(s, a), Step(u, a), t, l)
  {
    assert ErasedAt(s, u, t, l) && ErasedAt(s, u, t, a.loc);
  }

  lemma OtherHeadFields(s: Store, u: Store, t: Cid, a: Action, k: TupleId)
    requires Erased(s, u, t) && Enabled(s, a) && Enabled(u, a) && a.t != t && FieldsOnly(a)
    requires INITIAL_TXN_ID < a.t
    ensures HeadErasedAt(Step(s, a), Step(u, a), t, k)
  {
    assert HeadErasedAt(s, u, t, k);
  }

  lemma OtherHeadNew(s: Store, u: Store, t: Cid, a: Action, k: TupleId)
    requires Erased(s, u, t) && Enabled(s, a) && Enabled(u, a) && a.t != t && !FieldsOnly(a) && !Ends(a)
    requires INITIAL_TXN_ID < a.t
    ensures HeadErasedAt(Step(s, a), Step(u, a), t, k)
  {
    assert HeadErasedAt(s, u, t, k) && ErasedAt(s, u, t, a.loc);
  }

  lemma OtherTxn(s: Store, u: Store, t: Cid, a: Action)
    requires Erased(s, u, t) && Enabled(s, a) && Enabled(u, a) && a.t != t
    ensures a.t in Step(u, a).txns && a.t in Step(s, a).txns && Step(u, a).txns[a.t] == Step(s, a).txns[a.t]
  {
    if !a.Begin? && !Ends(a) && a.loc in s.slots { assert ErasedAt(s, u, t, a.loc); }
  }

  lemma OtherTxns(s: Store, u: Store, t: Cid, a: Action)
    requires Erased(s, u, t) && Enabled(s, a) && Enabled(u, a) && a.t != t
    ensures Step(u, a).txns == Step(s, a).txns - {t}
  {
    StepTxns(s, a);
    StepTxns(u, a);
    OtherTxn(s, u, t, a);
  }

  lemma OtherCall(s: Store, u: Store, t: Cid, a: Action)
    requires Erased(s, u, t) && Enabled(s, a) && a.t != t && INITIAL_TXN_ID < a.t && !Ends(a)
    ensures Enabled(u, a) && Erased(Step(s, a), Step(u, a), t)
  {
    OtherEnabled(s, u, t, a);
    OtherTxns(s, u, t, a);
    forall l ensures ErasedAt(Step(s, a), Step(u, a), t, l) {
      if FieldsOnly(a) { OtherSlotFields(s, u, t, a, l); } else { OtherSlotNew(s, u, t, a, l); }
    }
    forall k ensures HeadErasedAt(Step(s, a), Step(u, a), t, k) {
      if FieldsOnly(a) { OtherHeadFields(s, u, t, a, k); } else { OtherHeadNew(s, u, t, a, k); }
    }
  }

  // ----- Commits and aborts of the others -----

  lemma OtherSlotEnd(s: Store, u: Store, t: Cid, a: Action, l: Loc)
    requires Inv(s) && Erased(s, u, t) && Enabled(s, a) && Enabled(u, a) && a.t != t && Ends(a)
    ensures ErasedAt(Step(s, a), Step(u, a), t, l)
  {
    assert ErasedAt(s, u, t, l);
    if l in s.slots { assert SlotOk(s, l); }
  }

  lemma OtherHeadEnd(s: Store, u: Store, t: Cid, a: Action, k: TupleId)
    requires Inv(s) && Erased(s, u, t) && Enabled(s, a) && Enabled(u, a) && a.t != t && Ends(a)
    ensures HeadErasedAt(Step(s, a), Step(u, a), t, k)
  {
    assert HeadErasedAt(s, u, t, k);
    if k in s.index {
      var h := s.index[k];
      assert HeadOk(s, k) && SlotOk(s, h) && ErasedAt(s, u, t, h);
      if s.slots[h].next.Some? { assert ErasedAt(s, u, t, s.slots[h].next.value); }
    }
  }

  lemma OtherStep(s: Store, u: Store, t: Cid, a: Action)
    requires Inv(s) && Inv(u) && Erased(s, u, t) && Enabled(s, a) && a.t != t
    ensures Enabled(u, a) && Erased(Step(s, a), Step(u, a), t)
  {
    if Ends(a) {
      assert a.t in u.txns;
      OtherTxns(s, u, t, a);
      forall l ensures ErasedAt(Step(s, a), Step(u, a), t, l) { OtherSlotEnd(s, u, t, a, l); }
      forall k ensures HeadErasedAt(Step(s, a), Step(u, a), t, k) { OtherHeadEnd(s, u, t, a, k); }
    } else {
      assert a.t in s.txns ==> INITIAL_TXN_ID < a.t;
      OtherCall(s, u, t, a);
    }
  }

  // ----- Whole runs -----

  lemma CommittedForGood(s: Store, actions: seq<Action>, t: Cid)
    requires Run(s, actions).Some? && IsCommitted(s, t)
    ensures IsCommitted(Run(s, actions).value, t)
    decreases |actions|
  {
    if actions != [] { CommittedForGood(Step(s, actions[0]), actions[1..], t); }
  }

  lemma {:induction false} EraseRun(s: Store, u: Store, actions: seq<Action>, t: Cid)
    requires Inv(s) && Inv(u) && Erased(s, u, t)
    requires Run(s, actions).Some? && !IsCommitted(Run(s, actions).value, t)
    ensures Run(u, Erase(actions, t)).Some?
    ensures Inv(Run(s, actions).value) && Inv(Run(u, Erase(actions, t)).value)
    ensures Erased(Run(s, actions).value, Run(u, Erase(actions, t)).value, t)
    decreases |actions|
  {
    if actions != [] {
      var a := actions[0];
      StepKeeps(s, a);
      if a.t == t {
        if a.Commit? { CommittedForGood(Step(s, a), actions[1..], t); }
        OwnStep(s, u, a);
        EraseRun(Step(s, a), u, actions[1..], t);
        assert Erase(actions, t) == Erase(actions[1..], t);
      } else {
        OtherStep(s, u, t, a);
        StepKeeps(u, a);
        EraseRun(Step(s, a), Step(u, a), actions[1..], t);
        assert Erase(actions, t) == [a] + Erase(actions[1..], t);
        assert ([a] + Erase(actions[1..], t))[1..] == Erase(actions[1..], t);
      }
    }
  }

  /** At this slot the two stores differ in the last-reader stamp at most; a slot that only one has is dead. */
  predicate SlotTraceless(s: Store, u: Store, l: Loc) {
    && (l in u.slots ==>
          && l in s.slots && u.slots[l].lastReader <= s.slots[l].lastReader
          && u.slots[l] == s.slots[l].(lastReader := u.slots[l].lastReader))
    && (l in s.slots && l !in u.slots ==> Dead(s.slots[l]))
  }

  /** The index has the same heads; an entry that only one has leads to a dead slot. */
  predicate HeadTraceless(s: Store, u: Store, k: TupleId) {
    && (k in u.index ==> k in s.index && s.index[k] == u.index[k])
    && (k in s.index && k !in u.index ==> s.index[k] in s.slots && Dead(s.slots[s.index[k]]))
  }

  /** `s` shows no trace of the finished transaction `t` that `u` is without: the other contexts and logs are the
      same, and every other transaction and every reader sees the same versions. */
  ghost predicate NoTrace(s: Store, u: Store, t: Cid) {
    && u.txns == s.txns - {t}
    && (forall k :: HeadTraceless(s, u, k)) && (forall l :: SlotTraceless(s, u, l))
    && (forall t', l :: t' != t ==> (SeesVersion(s, t', l) <==> SeesVersion(u, t', l)))
    && (forall r, l :: ReaderSees(s, r, l) <==> ReaderSees(u, r, l))
  }

  /** After `t` has aborted, the run without its calls is possible and ends in a store that differs in no way another
      transaction could notice.  Only last-reader stamps may be lower. */
  lemma AbortInvisible(actions: seq<Action>, t: Cid, s: Store)
    requires Run(EMPTY_STORE, actions) == Some(s) && t in s.txns && s.txns[t].status == Aborted
    ensures Run(EMPTY_STORE, Erase(actions, t)).Some?
    ensures NoTrace(s, Run(EMPTY_STORE, Erase(actions, t)).value, t)
  {
    var e := EMPTY_STORE;
    StatusKnown(e, actions, t);
    NothingErased(t);
    assert Inv(e);
    EraseRun(e, e, actions, t);
    forall l | l in s.slots ensures s.slots[l].txnId != t { assert SlotOk(s, l); }
    AbortedNoTrace(s, Run(e, Erase(actions, t)).value, t);
  }

  lemma NothingErased(t: Cid)
    requires INITIAL_TXN_ID < t
    ensures Erased(EMPTY_STORE, EMPTY_STORE, t)
  {
  }

  lemma AbortedNoTrace(s: Store, u: Store, t: Cid)
    requires Erased(s, u, t) && forall l :: l in s.slots ==> s.slots[l].txnId != t
    ensures NoTrace(s, u, t)
  {
    forall l ensures SlotTraceless(s, u, l) { assert ErasedAt(s, u, t, l); }
    forall l, t' | t' != t ensures SeesVersion(s, t', l) <==> SeesVersion(u, t', l) {
      assert ErasedAt(s, u, t, l);
    }
    forall r, l ensures ReaderSees(s, r, l) <==> ReaderSees(u, r, l) { assert ErasedAt(s, u, t, l); }
    forall k ensures HeadTraceless(s, u, k) { assert HeadErasedAt(s, u, t, k); }
  }

  /** Even while it runs, an uncommitted transaction changes nothing that another one can see. */
  lemma OthersSee(s: Store, u: Store, t: Cid, t': Cid, l: Loc)
    requires Erased(s, u, t) && t' != t && INITIAL_TXN_ID < t'
    ensures SeesVersion(s, t', l) <==> SeesVersion(u, t', l)
    ensures ReaderSees(s, t', l) <==> ReaderSees(u, t', l)
  {
    assert ErasedAt(s, u, t, l);
  }

  lemma StatusKnown(s: Store, actions: seq<Action>, t: Cid)
    requires Inv(s) && Run(s, actions).Some? && t in Run(s, actions).value.txns
    ensures INITIAL_TXN_ID < t
    decreases |actions|
  {
    if actions != [] {
      StepKeeps(s, actions[0]);
      StatusKnown(Step(s, actions[0]), actions[1..], t);
    }
  }
}
