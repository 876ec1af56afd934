/** An aborted transaction leaves no trace, with commits and aborts taken one field write at a time. */
module FineErasure {
  import opened Base
  import opened Mvto
  import opened MvtoInvariant
  import opened FieldWrites
  import opened AbortErasure

  // The same relation as between runs of whole calls, now on the store itself with loops half done.  Every call and
  // every field write of the erased transaction is dropped.

  function EraseFine(bs: seq<FineAction>, t: Cid): seq<FineAction> {
    if bs == [] then []
    else (if FineActor(bs[0]) == t then [] else [bs[0]]) + EraseFine(bs[1..], t)
  }

  ghost predicate FineErased(f: Fine, g: Fine, t: Cid) {
    && FineInv(f) && FineInv(g) && Erased(f.store, g.store, t) && g.work == f.work - {t}
    && (t in f.work ==> !f.work[t].commits)
  }

  // ----- What holds of the store itself -----

  /** The index points to a slot of the tuple, moved or not. */
  lemma RawHead(f: Fine, k: TupleId)
    requires FineInv(f) && k in f.store.index
    ensures f.store.index[k] in f.store.slots && f.store.slots[f.store.index[k]].tuple == k
  {
    var h := f.store.index[k];
    assert HeadOk(Settled(f), k);
    if SettledIndex(f, h) != h {
      var u, o := f.store.slots[h].txnId, SettledIndex(f, h);
      HeadMoves(f, h);
      assert WorkOk(f, u) && Accounted(f, u, h);
      var e := if h in f.store.txns[u].rw then h else o;
      assert OpenEntry(f.store, u, f.work[u].commits, e, DoneOn(f.work[u], e));
    }
  }

  lemma RawTop(f: Fine, a: Action)
    requires FineInv(f) && FineEnabled(f, Call(a))
    ensures TakesTop(f.store, a)
  {
    WorkersKnown(f);
    if a.ReadForUpdate? || a.Update? || a.Delete? {
      var s, x := Settled(f), f.store.slots[a.loc];
      assert SlotOk(s, a.loc) && a.t in s.txns;
      if !a.ReadForUpdate? { assert EntryOk(s, a.t, a.loc); }
      if x.tuple in f.store.index && SettledIndex(f, f.store.index[x.tuple]) != f.store.index[x.tuple] {
        HeadMoves(f, f.store.index[x.tuple]);
      }
    }
  }

  // ----- Steps of the erased transaction -----

  lemma OwnWriteSlot(f: Fine, g: Fine, t: Cid, l: Loc)
    requires FineErased(f, g, t) && Writing(f, t)
    ensures ErasedAt(FineStep(f, Write(t)).store, g.store, t, l)
  {
    CurrentOpen(f, t);
    assert ErasedAt(f.store, g.store, t, l);
  }

  lemma OwnWriteHead(f: Fine, g: Fine, t: Cid, k: TupleId)
    requires FineErased(f, g, t) && Writing(f, t)
    ensures HeadErasedAt(FineStep(f, Write(t)).store, g.store, t, k)
  {
    CurrentOpen(f, t);
    assert HeadErasedAt(f.store, g.store, t, k);
    if k in f.store.index { RawHead(f, k); }
  }

  lemma OwnFine(f: Fine, g: Fine, b: FineAction)
    requires FineErased(f, g, FineActor(b)) && FineEnabled(f, b) && (b.Start? ==> !b.commits)
    ensures FineErased(FineStep(f, b), g, FineActor(b))
  {
    var t, f' := FineActor(b), FineStep(f, b);
    FineStepRefines(f, b);
    assert f'.work - {t} == f.work - {t};
    if b.Call? {
      RawTop(f, b.a);
      forall k | k in f.store.index ensures f.store.index[k] in f.store.slots { RawHead(f, k); }
      OwnCall(f.store, g.store, b.a);
    } else if b.Write? && Writing(f, t) {
      forall l ensures ErasedAt(f'.store, g.store, t, l) { OwnWriteSlot(f, g, t, l); }
      forall k ensures HeadErasedAt(f'.store, g.store, t, k) { OwnWriteHead(f, g, t, k); }
    } else {
      SameSlots(f.store, f'.store, g.store, t);
    }
  }

  lemma SameSlots(s: Store, s': Store, u: Store, t: Cid)
    requires Erased(s, u, t) && s'.slots == s.slots && s'.index == s.index && s'.txns - {t} == s.txns - {t}
    ensures Erased(s', u, t)
  {
    forall l ensures ErasedAt(s', u, t, l) { assert ErasedAt(s, u, t, l); }
    forall k ensures HeadErasedAt(s', u, t, k) { assert HeadErasedAt(s, u, t, k); }
  }

  // ----- Steps of the others -----

  lemma OtherFineEnabled(f: Fine, g: Fine, t: Cid, b: FineAction)
    requires FineErased(f, g, t) && FineEnabled(f, b) && FineActor(b) != t
    ensures FineEnabled(g, b)
  {
    match b {
      case Call(a) =>
        assert a.t in f.store.txns ==> a.t in Settled(f).txns;
        OtherEnabled(f.store, g.store, t, a);
      case Start(_, _) =>
      case Pick(_, _) =>
      case Write(x) =>
        var w := g.work[x];
        assert WorkOk(f, x) && WorkOk(g, x);
        assert OpenEntry(g.store, x, w.commits, w.current.value, DoneOn(w, w.current.value));
      case Finish(_) =>
    }
  }

  /** Two stores in which transaction `x` is about to make the same write. */
  ghost predicate SameWrite(s: Store, u: Store, t: Cid, x: Cid, commits: bool, loc: Loc, done: nat) {
    && Erased(s, u, t) && x != t && INITIAL_TXN_ID < x
    && OpenEntry(s, x, commits, loc, done) && OpenEntry(u, x, commits, loc, done)
    && s.txns[x] == u.txns[x] && done < WriteCount(commits, s.txns[x].rw[loc])
  }

  lemma SameEntry(f: Fine, g: Fine, t: Cid, x: Cid)
    requires FineErased(f, g, t) && Writing(f, x) && x != t
    ensures Writing(g, x) && g.work[x] == f.work[x] && g.store.txns[x] == f.store.txns[x]
    ensures SameWrite(f.store, g.store, t, x, f.work[x].commits, f.work[x].current.value, f.work[x].done)
  {
    OtherFineEnabled(f, g, t, Write(x));
    CurrentOpen(f, x);
    CurrentOpen(g, x);
  }

  function Written(s: Store, x: Cid, commits: bool, loc: Loc, done: nat): Store
    requires x in s.txns && loc in s.txns[x].rw && loc in s.slots
  {
    WriteField(s, x, commits, s.txns[x].rw[loc], loc, done)
  }

  // Updates and deletes write to the entry and to the new version above it.

  lemma InstalledSlot(s: Store, u: Store, t: Cid, x: Cid, loc: Loc, done: nat, l: Loc)
    requires SameWrite(s, u, t, x, true, loc, done)
    requires s.txns[x].rw[loc] == UPDATE || s.txns[x].rw[loc] == DELETE
    ensures ErasedAt(Written(s, x, true, loc, done), Written(u, x, true, loc, done), t, l)
  {
    assert ErasedAt(s, u, t, l) && ErasedAt(s, u, t, loc);
    if done < 4 { assert ErasedAt(s, u, t, s.slots[loc].prev.value); }
  }

  lemma RolledBackSlot(s: Store, u: Store, t: Cid, x: Cid, loc: Loc, done: nat, l: Loc)
    requires SameWrite(s, u, t, x, false, loc, done)
    requires s.txns[x].rw[loc] == UPDATE || s.txns[x].rw[loc] == DELETE
    ensures ErasedAt(Written(s, x, false, loc, done), Written(u, x, false, loc, done), t, l)
  {
    assert ErasedAt(s, u, t, l) && ErasedAt(s, u, t, loc);
    if done < 4 { assert ErasedAt(s, u, t, s.slots[loc].prev.value); }
  }

  lemma SingleSlot(s: Store, u: Store, t: Cid, x: Cid, commits: bool, loc: Loc, done: nat, l: Loc)
    requires SameWrite(s, u, t, x, commits, loc, done)
    requires s.txns[x].rw[loc] != UPDATE && s.txns[x].rw[loc] != DELETE
    ensures ErasedAt(Written(s, x, commits, loc, done), Written(u, x, commits, loc, done), t, l)
  {
    assert ErasedAt(s, u, t, l) && ErasedAt(s, u, t, loc);
  }

  lemma OtherWriteSlot(s: Store, u: Store, t: Cid, x: Cid, commits: bool, loc: Loc, done: nat, l: Loc)
    requires SameWrite(s, u, t, x, commits, loc, done)
    ensures ErasedAt(Written(s, x, commits, loc, done), Written(u, x, commits, loc, done), t, l)
  {
    if s.txns[x].rw[loc] != UPDATE && s.txns[x].rw[loc] != DELETE {
      SingleSlot(s, u, t, x, commits, loc, done, l);
    } else if commits {
      InstalledSlot(s, u, t, x, loc, done, l);
    } else {
      RolledBackSlot(s, u, t, x, loc, done, l);
    }
  }

  lemma ReplacedHead(s: Store, u: Store, t: Cid, x: Cid, commits: bool, loc: Loc, done: nat, k: TupleId)
    requires SameWrite(s, u, t, x, commits, loc, done)
    requires s.txns[x].rw[loc] == UPDATE || s.txns[x].rw[loc] == DELETE
    ensures HeadErasedAt(Written(s, x, commits, loc, done), Written(u, x, commits, loc, done), t, k)
  {
    assert HeadErasedAt(s, u, t, k) && ErasedAt(s, u, t, loc);
  }

  lemma OtherWriteHead(s: Store, u: Store, t: Cid, x: Cid, commits: bool, loc: Loc, done: nat, k: TupleId)
    requires SameWrite(s, u, t, x, commits, loc, done)
    ensures HeadErasedAt(Written(s, x, commits, loc, done), Written(u, x, commits, loc, done), t, k)
  {
    if s.txns[x].rw[loc] == UPDATE || s.txns[x].rw[loc] == DELETE {
      ReplacedHead(s, u, t, x, commits, loc, done, k);
    } else {
      assert HeadErasedAt(s, u, t, k);
    }
  }

  lemma OtherWrite(s: Store, u: Store, t: Cid, x: Cid, commits: bool, loc: Loc, done: nat)
    requires SameWrite(s, u, t, x, commits, loc, done)
    ensures Erased(Written(s, x, commits, loc, done), Written(u, x, commits, loc, done), t)
  {
    forall l ensures ErasedAt(Written(s, x, commits, loc, done), Written(u, x, commits, loc, done), t, l) {
      OtherWriteSlot(s, u, t, x, commits, loc, done, l);
    }
    forall k ensures HeadErasedAt(Written(s, x, commits, loc, done), Written(u, x, commits, loc, done), t, k) {
      OtherWriteHead(s, u, t, x, commits, loc, done, k);
    }
    assert Written(s, x, commits, loc, done).txns == s.txns && Written(u, x, commits, loc, done).txns == u.txns;
  }

  /** What a step of another transaction does to the store. */
  lemma OtherStore(f: Fine, g: Fine, t: Cid, b: FineAction)
    requires FineErased(f, g, t) && FineEnabled(f, b) && FineActor(b) != t && FineEnabled(g, b)
    ensures Erased(FineStep(f, b).store, FineStep(g, b).store, t)
  {
    match b {
      case Call(a) =>
        assert a.t in f.store.txns ==> a.t in Settled(f).txns;
        OtherCall(f.store, g.store, t, a);
      case Write(x) =>
        if Writing(f, x) {
          SameEntry(f, g, t, x);
          OtherWrite(f.store, g.store, t, x, f.work[x].commits, f.work[x].current.value, f.work[x].done);
        }
      case _ => SameChange(f.store, FineStep(f, b).store, g.store, FineStep(g, b).store, t);
    }
  }

  lemma OtherWork(f: Fine, g: Fine, t: Cid, b: FineAction)
    requires FineErased(f, g, t) && FineEnabled(f, b) && FineActor(b) != t && FineEnabled(g, b)
    ensures FineStep(g, b).work == FineStep(f, b).work - {t}
    ensures t in FineStep(f, b).work ==> t in f.work && FineStep(f, b).work[t] == f.work[t]
  {
  }

  lemma OtherFine(f: Fine, g: Fine, t: Cid, b: FineAction)
    requires FineErased(f, g, t) && FineEnabled(f, b) && FineActor(b) != t
    ensures FineEnabled(g, b) && FineErased(FineStep(f, b), FineStep(g, b), t)
  {
    OtherFineEnabled(f, g, t, b);
    OtherStore(f, g, t, b);
    OtherWork(f, g, t, b);
    FineStepRefines(f, b);
    FineStepRefines(g, b);
  }

  lemma SameChange(s: Store, s': Store, u: Store, u': Store, t: Cid)
    requires Erased(s, u, t) && s'.slots == s.slots && s'.index == s.index && u'.slots == u.slots && u'.index == u.index
    requires u'.txns == s'.txns - {t}
    ensures Erased(s', u', t)
  {
    forall l ensures ErasedAt(s', u', t, l) { assert ErasedAt(s, u, t, l); }
    forall k ensures HeadErasedAt(s', u', t, k) { assert HeadErasedAt(s, u, t, k); }
  }

  // ----- Whole runs -----

  /** A commit loop once started cannot be taken back. */
  lemma CommitDecided(f: Fine, t: Cid, bs: seq<FineAction>)
    requires FineInv(f) && FineEnabled(f, Start(t, true)) && FineRun(FineStep(f, Start(t, true)), bs).Some?
    ensures IsCommitted(Settled(FineRun(FineStep(f, Start(t, true)), bs).value), t)
  {
    var f' := FineStep(f, Start(t, true));
    StartSettles(f, t, true);
    FineStepRefines(f, Start(t, true));
    FineRunRefines(f', bs);
    CommittedForGood(Settled(f'), Meanings(bs), t);
  }

  lemma {:induction false} FineEraseRun(f: Fine, g: Fine, bs: seq<FineAction>, t: Cid)
    requires FineErased(f, g, t) && FineRun(f, bs).Some? && !IsCommitted(Settled(FineRun(f, bs).value), t)
    ensures FineRun(g, EraseFine(bs, t)).Some?
    ensures FineErased(FineRun(f, bs).value, FineRun(g, EraseFine(bs, t)).value, t)
    decreases |bs|
  {
    if bs != [] {
      var b, rest := bs[0], EraseFine(bs[1..], t);
      if FineActor(b) == t {
        if b == Start(t, true) { CommitDecided(f, t, bs[1..]); }
        OwnFine(f, g, b);
        FineEraseRun(FineStep(f, b), g, bs[1..], t);
        assert EraseFine(bs, t) == rest;
      } else {
        OtherFine(f, g, t, b);
        FineEraseRun(FineStep(f, b), FineStep(g, b), bs[1..], t);
        assert EraseFine(bs, t) == [b] + rest && ([b] + rest)[1..] == rest;
      }
    }
  }

  /** Others cannot tell the two stores apart: they see the same versions, now. */
  ghost predicate SameToOthers(s: Store, u: Store, t: Cid) {
    forall x, l :: INITIAL_TXN_ID < x != t ==>
      (SeesVersion(s, x, l) <==> SeesVersion(u, x, l)) && (ReaderSees(s, x, l) <==> ReaderSees(u, x, l))
  }

  /** Drop every call and every field write of a transaction that has not committed, running or aborting or aborted.
      What is left is a possible run.  It ends with the same contexts and the same loops under way, and in its store
      every other transaction, at whatever level, sees the same versions; once the abort is over, the stores
      themselves agree but for last-reader stamps and dead slots. */
  lemma FineAbortInvisible(bs: seq<FineAction>, f: Fine, t: Cid)
    requires FineRun(FINE_START, bs) == Some(f) && t in f.store.txns && !IsCommitted(Settled(f), t)
    ensures FineRun(FINE_START, EraseFine(bs, t)).Some?
    ensures var g := FineRun(FINE_START, EraseFine(bs, t)).value;
            && g.work == f.work - {t} && g.store.txns == f.store.txns - {t} && SameToOthers(f.store, g.store, t)
            && (!IsActive(f.store, t) ==> NoTrace(f.store, g.store, t))
  {
    FineStart();
    FineRunRefines(FINE_START, bs);
    assert t in Settled(f).txns;
    NothingErased(t);
    FineEraseRun(FINE_START, FINE_START, bs, t);
    var g := FineRun(FINE_START, EraseFine(bs, t)).value;
    forall x, l | INITIAL_TXN_ID < x != t
      ensures SeesVersion(f.store, x, l) <==> SeesVersion(g.store, x, l)
      ensures ReaderSees(f.store, x, l) <==> ReaderSees(g.store, x, l)
    {
      OthersSee(f.store, g.store, t, x, l);
    }
    if !IsActive(f.store, t) {
      forall l | l in f.store.slots ensures f.store.slots[l].txnId != t { NotOwnedAfter(f, t, l); }
      AbortedNoTrace(f.store, g.store, t);
    }
  }

  lemma NotOwnedAfter(f: Fine, t: Cid, l: Loc)
    requires FineInv(f) && t in f.store.txns && !IsActive(f.store, t) && l in f.store.slots
    ensures f.store.slots[l].txnId != t
  {
    assert t in f.work ==> WorkOk(f, t);
    assert t in Settled(f).txns && SlotOk(Settled(f), l);
  }
}
