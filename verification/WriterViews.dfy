/** What an updating transaction sees is exactly the database it must work on. */
module WriterViews {
  import opened Base
  import opened Mvto
  import opened MvtoInvariant
  import opened MvtoHistory
  import opened Serializability

  predicate SeesAs(s: Store, t: Cid, k: TupleId, l: Loc) {
    SeesVersion(s, t, l) && s.slots[l].tuple == k
  }

  predicate ReportsDeleted(s: Store, t: Cid, k: TupleId, l: Loc) {
    && IsActive(s, t) && l in s.slots && s.slots[l].tuple == k
    && IsVisible(s.slots[l], t, t, RwOf(s.txns[t].rw, l)) == DELETED
  }

  ghost function ViewOf(s: Store, t: Cid, k: TupleId): Option<Value>
    requires t in s.txns
  {
    Expected(s, t, s.txns[t].log, k)
  }

  // ----- A tuple the transaction has written or deleted itself -----

  /** Its own version is at the head, and it is the only one that can be visible or reported deleted. */
  lemma TouchedHead(s: Store, t: Cid, k: TupleId)
    requires Inv(s) && LogInv(s) && IsActive(s, t) && EffectOn(s.txns[t].log, k) != Untouched
    ensures k in s.index && s.index[k] in s.slots
    ensures var x := s.slots[s.index[k]];
            && x.tuple == k && x.txnId == t && x.begin == MAX_CID
            && EffectOn(s.txns[t].log, k) == if x.end == INVALID_CID then Gone else Present(x.value)
  {
    assert TouchedOk(s, t, k) && HeadOk(s, k) && SlotEffectOk(s, s.index[k]);
  }

  lemma TouchedOthers(s: Store, t: Cid, k: TupleId, l: Loc)
    requires Inv(s) && LogInv(s) && IsActive(s, t) && EffectOn(s.txns[t].log, k) != Untouched
    requires l in s.slots && s.slots[l].tuple == k && k in s.index && l != s.index[k]
    ensures IsVisible(s.slots[l], t, t, RwOf(s.txns[t].rw, l)) == INVISIBLE
  {
    var h := s.index[k];
    TouchedHead(s, t, k);
    assert SlotOk(s, h) && SlotOk(s, l) && PairOk(s, h, l);
  }

  /** The new version of a tuple it has not touched cannot be its own. */
  lemma UntouchedOwn(s: Store, t: Cid, l: Loc)
    requires Inv(s) && LogInv(s) && IsActive(s, t) && l in s.slots && s.slots[l].txnId == t
    requires EffectOn(s.txns[t].log, s.slots[l].tuple) == Untouched
    ensures s.slots[l].begin != MAX_CID && RwOf(s.txns[t].rw, l) == Some(READ_OWN)
    ensures s.slots[l].begin < t && s.slots[l].end == MAX_CID
  {
    assert SlotOk(s, l) && SlotEffectOk(s, l);
    assert s.slots[l].prev.Some? ==> SlotEffectOk(s, s.slots[l].prev.value);
  }

  /** For a tuple it has not touched, a version is visible exactly when it was current just before its id. */
  lemma UntouchedSees(s: Store, t: Cid, l: Loc)
    requires Inv(s) && LogInv(s) && IsActive(s, t) && l in s.slots
    requires EffectOn(s.txns[t].log, s.slots[l].tuple) == Untouched
    ensures SeesVersion(s, t, l) <==> At(s, l, s.slots[l].tuple, t)
  {
    assert SlotOk(s, l);
    if s.slots[l].txnId == t { UntouchedOwn(s, t, l); }
  }

  /** A tuple is in the transaction's view of the database if and only if one of its versions is visible to it, and
      every visible version holds the value in that view. */
  lemma WriterSeesExactly(s: Store, t: Cid, k: TupleId)
    requires Inv(s) && LogInv(s) && IsActive(s, t)
    ensures ViewOf(s, t, k).Some? <==> exists l :: SeesAs(s, t, k, l)
    ensures forall l :: SeesAs(s, t, k, l) ==> ViewOf(s, t, k) == Some(s.slots[l].value)
  {
    if EffectOn(s.txns[t].log, k) == Untouched {
      forall l | l in s.slots && s.slots[l].tuple == k ensures SeesVersion(s, t, l) <==> At(s, l, k, t) {
        UntouchedSees(s, t, l);
      }
      forall l | SeesAs(s, t, k, l) ensures ViewOf(s, t, k) == Some(s.slots[l].value) { SnapshotAt(s, l, k, t); }
      if k in Snapshot(s, t) {
        var l :| At(s, l, k, t);
        assert SeesAs(s, t, k, l);
      }
    } else {
      TouchedHead(s, t, k);
      forall l | l in s.slots && s.slots[l].tuple == k && l != s.index[k] ensures !SeesAs(s, t, k, l) {
        TouchedOthers(s, t, k, l);
      }
      var h := s.index[k];
      assert SlotOk(s, h);
      assert SeesAs(s, t, k, h) <==> s.slots[h].end != INVALID_CID;
    }
  }

  // ----- Deleted tuples -----

  /** Some committed transaction below `t` left the tuple present. */
  ghost predicate Existed(s: Store, t: Cid, k: TupleId) {
    exists u: Cid :: u < t && IsCommitted(s, u) && EffectOn(s.txns[u].log, k).Present?
  }

  /** Above a version that began before `t` there is one that was current just before `t`, a tombstone perhaps. */
  lemma {:induction false} CurrentBefore(s: Store, t: Cid, l: Loc) returns (m: Loc)
    requires Inv(s) && IsActive(s, t) && l in s.slots && s.slots[l].begin < t
    ensures m in s.slots && s.slots[m].tuple == s.slots[l].tuple && s.slots[m].begin < t < s.slots[m].end
    decreases t - s.slots[l].begin
  {
    assert SlotOk(s, l);
    if t < s.slots[l].end {
      m := l;
    } else {
      assert SlotOk(s, s.slots[l].prev.value);
      m := CurrentBefore(s, t, s.slots[l].prev.value);
    }
  }

  lemma TombstoneMeansExisted(s: Store, t: Cid, l: Loc)
    requires Inv(s) && LogInv(s) && IsActive(s, t) && l in s.slots && s.slots[l].begin <= t
    requires s.slots[l].txnId == INVALID_TXN_ID
    ensures Existed(s, t, s.slots[l].tuple)
  {
    assert SlotOk(s, l);
    var o := s.slots[l].next.value;
    assert SlotOk(s, o) && SlotEffectOk(s, o);
  }

  lemma ExistedLeavesVersion(s: Store, t: Cid, k: TupleId) returns (l: Loc)
    requires Inv(s) && LogInv(s) && IsActive(s, t) && Existed(s, t, k)
    ensures l in s.slots && s.slots[l].tuple == k && s.slots[l].begin < t
  {
    var u: Cid :| u < t && IsCommitted(s, u) && EffectOn(s.txns[u].log, k).Present?;
    assert TouchedOk(s, u, k);
    l :| l in s.slots && s.slots[l].tuple == k && s.slots[l].begin == u;
  }

  /** A transaction is told that a tuple is deleted if and only if it deleted the tuple itself, or has not touched it
      and the tuple existed below its id but is not in the database it reads from. */
  lemma DeletedReportedIff(s: Store, t: Cid, k: TupleId)
    requires Inv(s) && LogInv(s) && IsActive(s, t)
    ensures (exists l :: ReportsDeleted(s, t, k, l)) <==>
            ViewOf(s, t, k) == None && (EffectOn(s.txns[t].log, k) == Gone || Existed(s, t, k))
  {
    if EffectOn(s.txns[t].log, k) == Untouched {
      UntouchedDeletedIff(s, t, k);
    } else {
      TouchedHead(s, t, k);
      var h := s.index[k];
      assert SlotOk(s, h);
      forall l | l in s.slots && s.slots[l].tuple == k && l != h ensures !ReportsDeleted(s, t, k, l) {
        TouchedOthers(s, t, k, l);
      }
      assert ReportsDeleted(s, t, k, h) <==> s.slots[h].end == INVALID_CID;
    }
  }

  lemma UntouchedDeletedIff(s: Store, t: Cid, k: TupleId)
    requires Inv(s) && LogInv(s) && IsActive(s, t) && EffectOn(s.txns[t].log, k) == Untouched
    ensures (exists l :: ReportsDeleted(s, t, k, l)) <==> k !in Snapshot(s, t) && Existed(s, t, k)
  {
    if l :| ReportsDeleted(s, t, k, l) {
      assert SlotOk(s, l);
      if s.slots[l].txnId == t { UntouchedOwn(s, t, l); }
      TombstoneMeansExisted(s, t, l);
      forall m ensures !At(s, m, k, t) {
        if m in s.slots { assert SlotOk(s, m) && PairOk(s, l, m); }
      }
    }
    if k !in Snapshot(s, t) && Existed(s, t, k) {
      var l := ExistedLeavesVersion(s, t, k);
      var m := CurrentBefore(s, t, l);
      assert SlotOk(s, m);
      assert !At(s, m, k, t);
      assert ReportsDeleted(s, t, k, m);
    }
  }
}
