/** A call is refused only for a cause. */
module Acceptance {
  import opened Base
  import opened Mvto
  import opened MvtoInvariant
  import opened MvtoEvolution
  import opened MvtoHistory
  import opened WriterViews

  // ----- Stamps and entries come from reads -----

  ghost predicate HasRead(s: Store, u: Cid, l: Loc) {
    u in s.txns && exists i :: 0 <= i < |s.txns[u].log| && s.txns[u].log[i].Got? && s.txns[u].log[i].at == l
  }

  ghost predicate HasInserted(s: Store, u: Cid, k: TupleId) {
    u in s.txns && exists i :: 0 <= i < |s.txns[u].log| && s.txns[u].log[i].Inserted? && s.txns[u].log[i].tuple == k
  }

  /** The last-reader stamp is the id of a transaction that read the version. */
  ghost predicate StampOk(s: Store, l: Loc)
    requires l in s.slots
  {
    s.slots[l].lastReader == 0 || HasRead(s, s.slots[l].lastReader, l)
  }

  /** What a running transaction has read is in its read/write set, or is its own new version. */
  predicate GotOk(s: Store, t: Cid, i: nat)
    requires IsActive(s, t) && i < |s.txns[t].log|
  {
    var op := s.txns[t].log[i];
    op.Got? ==>
      || op.at in s.txns[t].rw
      || (op.at in s.slots && s.slots[op.at].txnId == t && s.slots[op.at].begin == MAX_CID)
  }

  /** A read leaves its stamp, unless the version is the reader's own. */
  predicate StampLeft(s: Store, u: Cid, i: nat)
    requires u in s.txns && i < |s.txns[u].log|
  {
    var op := s.txns[u].log[i];
    op.Got? ==>
      && op.at in s.slots
      && var x := s.slots[op.at];
         u <= x.lastReader || x.begin == u || (x.begin == MAX_CID && x.txnId == u) || Dead(x)
  }

  /** The index knows a tuple because somebody inserted it. */
  ghost predicate KeyOk(s: Store, k: TupleId) {
    exists u :: HasInserted(s, u, k)
  }

  ghost predicate CauseInv(s: Store) {
    && (forall l {:trigger StampOk(s, l)} :: l in s.slots ==> StampOk(s, l))
    && (forall t, i: nat {:trigger GotOk(s, t, i)} :: IsActive(s, t) && i < |s.txns[t].log| ==> GotOk(s, t, i))
    && (forall u, i: nat {:trigger StampLeft(s, u, i)} :: u in s.txns && i < |s.txns[u].log| ==> StampLeft(s, u, i))
    && (forall k {:trigger KeyOk(s, k)} :: k in s.index ==> KeyOk(s, k))
  }

  lemma LogKept(s: Store, a: Action, u: Cid)
    requires Enabled(s, a) && u in s.txns
    ensures u in Step(s, a).txns && s.txns[u].log <= Step(s, a).txns[u].log
  {
    StepTxns(s, a);
    if u == a.t { LogGrows(s, a); }
  }

  lemma HasReadKept(s: Store, a: Action, u: Cid, l: Loc)
    requires Enabled(s, a) && HasRead(s, u, l)
    ensures HasRead(Step(s, a), u, l)
  {
    LogKept(s, a, u);
    var i :| 0 <= i < |s.txns[u].log| && s.txns[u].log[i].Got? && s.txns[u].log[i].at == l;
    assert Step(s, a).txns[u].log[i] == s.txns[u].log[i];
  }

  lemma StampKept(s: Store, a: Action, l: Loc)
    requires Inv(s) && CauseInv(s) && Enabled(s, a) && l in Step(s, a).slots
    ensures StampOk(Step(s, a), l)
  {
    var s' := Step(s, a);
    if l in s.slots {
      assert StampOk(s, l);
      if s.slots[l].lastReader != 0 { HasReadKept(s, a, s.slots[l].lastReader, l); }
      if s'.slots[l].lastReader != s.slots[l].lastReader {
        var log := s'.txns[a.t].log;
        assert log[|log| - 1].Got? && log[|log| - 1].at == l;
      }
    }
  }

  lemma GotKept(s: Store, a: Action, t: Cid, i: nat)
    requires Inv(s) && CauseInv(s) && Enabled(s, a) && IsActive(Step(s, a), t) && i < |Step(s, a).txns[t].log|
    ensures GotOk(Step(s, a), t, i)
  {
    var s' := Step(s, a);
    StepTxns(s, a);
    if t in s.txns && i < |s.txns[t].log| {
      LogKept(s, a, t);
      assert s'.txns[t].log[i] == s.txns[t].log[i];
      assert GotOk(s, t, i);
    }
  }

  lemma StampStays(s: Store, a: Action, u: Cid, i: nat)
    requires Inv(s) && CauseInv(s) && Enabled(s, a) && u in Step(s, a).txns && i < |Step(s, a).txns[u].log|
    ensures StampLeft(Step(s, a), u, i)
  {
    var s' := Step(s, a);
    StepTxns(s, a);
    if u in s.txns && i < |s.txns[u].log| {
      LogKept(s, a, u);
      assert s'.txns[u].log[i] == s.txns[u].log[i];
      assert StampLeft(s, u, i);
      var l := s.txns[u].log[i].at;
      if s.txns[u].log[i].Got? {
        StepEvolvesSlot(s, a, l);
        assert SlotOk(s, l);
      }
    } else if a.Read? || a.ReadForUpdate? {
      assert SlotOk(s, a.loc);
    }
  }

  lemma KeyKept(s: Store, a: Action, k: TupleId)
    requires Inv(s) && CauseInv(s) && Enabled(s, a) && k in Step(s, a).index
    ensures KeyOk(Step(s, a), k)
  {
    var s' := Step(s, a);
    if a.Insert? && k == a.tuple {
      var log := s'.txns[a.t].log;
      assert log[|log| - 1].Inserted? && log[|log| - 1].tuple == k;
      assert HasInserted(s', a.t, k);
    } else {
      if a.Update? || a.Delete? { assert SlotOk(s, a.loc); }
      assert KeyOk(s, k);
      var u :| HasInserted(s, u, k);
      LogKept(s, a, u);
      var i :| 0 <= i < |s.txns[u].log| && s.txns[u].log[i].Inserted? && s.txns[u].log[i].tuple == k;
      assert s'.txns[u].log[i] == s.txns[u].log[i];
      assert HasInserted(s', u, k);
    }
  }

  lemma StepKeepsCauses(s: Store, a: Action)
    requires Inv(s) && CauseInv(s) && Enabled(s, a)
    ensures CauseInv(Step(s, a))
  {
    var s' := Step(s, a);
    forall l | l in s'.slots ensures StampOk(s', l) { StampKept(s, a, l); }
    forall t, i: nat | IsActive(s', t) && i < |s'.txns[t].log| ensures GotOk(s', t, i) { GotKept(s, a, t, i); }
    forall u, i: nat | u in s'.txns && i < |s'.txns[u].log| ensures StampLeft(s', u, i) { StampStays(s, a, u, i); }
    forall k | k in s'.index ensures KeyOk(s', k) { KeyKept(s, a, k); }
  }

  // ----- Why a call is refused -----

  predicate OwnedByOther(s: Store, t: Cid, l: Loc) {
    l in s.slots && s.slots[l].txnId != t && IsActive(s, s.slots[l].txnId)
  }

  ghost predicate ReadByLater(s: Store, t: Cid, l: Loc) {
    exists u: Cid :: t < u && HasRead(s, u, l)
  }

  ghost predicate Superseded(s: Store, l: Loc)
    requires l in s.slots
  {
    exists n :: n in s.slots && s.slots[n].tuple == s.slots[l].tuple && s.slots[l].begin < s.slots[n].begin < MAX_CID
  }

  /** One of the conflicts that multi-version timestamp ordering resolves by refusing the later comer. */
  ghost predicate Conflict(s: Store, t: Cid, l: Loc)
    requires l in s.slots
  {
    OwnedByOther(s, t, l) || ReadByLater(s, t, l) || Superseded(s, l)
  }

  predicate Takeable(s: Store, t: Cid, l: Loc)
    requires l in s.slots
  {
    var x := s.slots[l];
    x.txnId == t || (x.txnId == INITIAL_TXN_ID && x.end == MAX_CID && x.lastReader <= t)
  }

  /** Ownership of a committed version is denied exactly for a conflict. */
  lemma TakeableIff(s: Store, t: Cid, l: Loc)
    requires Inv(s) && CauseInv(s) && IsActive(s, t) && l in s.slots
    requires s.slots[l].begin < t && s.slots[l].txnId != INVALID_TXN_ID
    ensures Takeable(s, t, l) <==> !Conflict(s, t, l)
  {
    var x := s.slots[l];
    assert SlotOk(s, l) && StampOk(s, l);
    if Takeable(s, t, l) {
      forall u: Cid | t < u ensures !HasRead(s, u, l) { LaterNotRead(s, t, l, u); }
      forall n | n in s.slots && s.slots[n].tuple == x.tuple && s.slots[n].begin != MAX_CID
        ensures s.slots[n].begin <= x.begin
      {
        assert SlotOk(s, n) && PairOk(s, n, l);
      }
    } else if x.end != MAX_CID {
      assert SlotOk(s, x.prev.value);
    }
  }

  lemma LaterNotRead(s: Store, t: Cid, l: Loc, u: Cid)
    requires Inv(s) && CauseInv(s) && IsActive(s, t) && l in s.slots && s.slots[l].begin < t < u
    requires Takeable(s, t, l)
    ensures !HasRead(s, u, l)
  {
    assert SlotOk(s, l);
    forall i: nat | u in s.txns && i < |s.txns[u].log| && s.txns[u].log[i].Got? ensures s.txns[u].log[i].at != l {
      assert StampLeft(s, u, i);
    }
  }

  /** A visible version can be read if and only if no other transaction owns it. */
  lemma ReadAcceptedIff(s: Store, t: Cid, l: Loc)
    requires Inv(s) && SeesVersion(s, t, l)
    ensures Enabled(s, Read(t, l)) <==> !OwnedByOther(s, t, l)
  {
    assert SlotOk(s, l);
  }

  /** A visible version of another's can be selected for update if and only if there is no conflict about it. */
  lemma SelectAcceptedIff(s: Store, t: Cid, l: Loc)
    requires Inv(s) && CauseInv(s) && SeesVersion(s, t, l)
    ensures s.slots[l].begin == MAX_CID ==> Enabled(s, ReadForUpdate(t, l))
    ensures s.slots[l].begin != MAX_CID ==> (Enabled(s, ReadForUpdate(t, l)) <==> !Conflict(s, t, l))
  {
    assert SlotOk(s, l);
    if s.slots[l].begin != MAX_CID { TakeableIff(s, t, l); }
  }

  /** What a transaction has read and not yet replaced it can update or delete if and only if there is no conflict. */
  lemma ReplaceAcceptedIff(s: Store, t: Cid, l: Loc, n: Loc, v: Value)
    requires Inv(s) && LogInv(s) && CauseInv(s) && IsActive(s, t) && HasRead(s, t, l) && n !in s.slots
    requires l in s.slots && EffectOn(s.txns[t].log, s.slots[l].tuple) == Untouched
    ensures Enabled(s, Update(t, l, n, v)) <==> !Conflict(s, t, l)
    ensures Enabled(s, Delete(t, l, n)) <==> !Conflict(s, t, l)
  {
    var i: nat :| i < |s.txns[t].log| && s.txns[t].log[i].Got? && s.txns[t].log[i].at == l;
    assert GotOk(s, t, i) && SlotOk(s, l);
    if s.slots[l].txnId == t { UntouchedOwn(s, t, l); }
    assert EntryOk(s, t, l);
    TakeableIff(s, t, l);
  }

  /** What a transaction has written it can write again or delete, whatever the others do. */
  lemma OwnNeverRefused(s: Store, t: Cid, k: TupleId, v: Value)
    requires Inv(s) && LogInv(s) && IsActive(s, t) && EffectOn(s.txns[t].log, k).Present?
    ensures k in s.index && s.index[k] in s.slots && s.slots[s.index[k]].tuple == k
    ensures Enabled(s, Overwrite(t, s.index[k], v)) && Enabled(s, DeleteOwn(t, s.index[k]))
  {
    TouchedHead(s, t, k);
    assert SlotOk(s, s.index[k]);
  }

  /** A tuple can be inserted unless somebody has inserted it before. */
  lemma InsertRefusedWhy(s: Store, t: Cid, l: Loc, k: TupleId, v: Value)
    requires CauseInv(s) && IsActive(s, t) && l !in s.slots
    ensures Enabled(s, Insert(t, l, k, v)) || exists u :: HasInserted(s, u, k)
  {
    if k in s.index { assert KeyOk(s, k); }
  }
}
