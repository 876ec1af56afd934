/** What the invariants promise about versions: stable reads, well-formed chains, one readable version. */
module VersionTheorems {
  import opened Base
  import opened Mvto
  import opened MvtoInvariant
  import opened MvtoEvolution
  import opened MvtoHistory
  import opened FieldWrites

  // ----- Read stability -----

  lemma RunEvolves(s: Store, actions: seq<Action>)
    requires Inv(s) && Run(s, actions).Some?
    ensures Inv(Run(s, actions).value) && Evolves(s, Run(s, actions).value)
    decreases |actions|
  {
    if actions == [] {
      forall l | l in s.slots ensures SlotEvolves(s, s, l) { }
    } else {
      var m := Step(s, actions[0]);
      StepKeeps(s, actions[0]);
      StepEvolves(s, actions[0]);
      RunEvolves(m, actions[1..]);
      EvolvesTransitive(s, m, Run(m, actions[1..]).value);
    }
  }

  predicate IsReadOf(a: Action, loc: Loc) {
    (a.Read? || a.ReadForUpdate?) && a.loc == loc
  }

  /** The atomic machine: nothing but the commit of `t` itself ends a version that `t` has read, plainly or for
      update, at or before `t`, or puts another version of the tuple between the two. */
  lemma AtomicReadStability(s: Store, a: Action, loc: Loc, actions: seq<Action>, s': Store, n: Loc)
    requires Inv(s) && Enabled(s, a) && IsReadOf(a, loc) && s.slots[loc].begin != MAX_CID
    requires Run(Step(s, a), actions) == Some(s')
    ensures loc in s'.slots
    ensures s'.slots[loc].begin == s.slots[loc].begin < a.t && s'.slots[loc].value == s.slots[loc].value
    ensures a.t < s'.slots[loc].end || (a.t == s'.slots[loc].end && IsCommitted(s', a.t))
    ensures n in s'.slots && s'.slots[n].begin != MAX_CID && s'.slots[n].tuple == s.slots[loc].tuple ==>
              s'.slots[loc].begin < s'.slots[n].begin <= a.t ==> s'.slots[n].begin == a.t && IsCommitted(s', a.t)
  {
    var m := Step(s, a);
    StepKeeps(s, a);
    RunEvolves(m, actions);
    assert SlotOk(s, loc) && SlotOk(m, loc);
    assert SlotEvolves(m, s', loc);
    CoversKept(m, s', loc, m.slots[loc].tuple, a.t);
    if n in s'.slots { assert PairOk(s', loc, n) && SlotOk(s', n); }
  }

  /** The owner of a version that was committed once has it in its read/write set, and not as an insert. */
  predicate Held(f: Fine, l: Loc) {
    && l in f.store.slots
    && var x := f.store.slots[l];
       x.txnId > INITIAL_TXN_ID ==>
         && x.txnId in f.store.txns && l in f.store.txns[x.txnId].rw
         && f.store.txns[x.txnId].rw[l] != INSERT && f.store.txns[x.txnId].rw[l] != INS_DEL
  }

  lemma HeldAfterCall(s: Store, a: Action, l: Loc)
    requires Enabled(s, a) && !IsEnd(a) && Held(Fine(s, map[]), l)
    requires a.t in s.txns && l in s.txns[a.t].rw && s.txns[a.t].rw[l] != READ ==> s.slots[l].txnId == a.t
    ensures Held(Fine(Step(s, a), map[]), l)
  {
  }

  lemma CallerOwns(f: Fine, a: Action, l: Loc)
    requires FineInv(f) && FineEnabled(f, Call(a)) && l in f.store.slots && a.t in f.store.txns
    requires l in f.store.txns[a.t].rw
    ensures f.store.txns[a.t].rw[l] != READ ==> f.store.slots[l].txnId == a.t
  {
    WorkersKnown(f);
    assert IsActive(Settled(f), a.t);
    assert EntryOk(Settled(f), a.t, l);
  }

  lemma HeldKept(f: Fine, b: FineAction, l: Loc)
    requires FineInv(f) && FineEnabled(f, b) && Held(f, l)
    ensures Held(FineStep(f, b), l)
  {
    WorkersKnown(f);
    match b {
      case Call(a) =>
        if a.t in f.store.txns && l in f.store.txns[a.t].rw { CallerOwns(f, a, l); }
        HeldAfterCall(f.store, a, l);
      case Write(t) =>
        if Writing(f, t) {
          CurrentOpen(f, t);
          WriteTouches(f, t, l);
        }
      case _ =>
    }
  }

  lemma HeldInRun(f: Fine, bs: seq<FineAction>, l: Loc)
    requires FineInv(f) && Held(f, l) && FineRun(f, bs).Some?
    ensures Held(FineRun(f, bs).value, l)
    decreases |bs|
  {
    if bs != [] {
      HeldKept(f, bs[0], l);
      FineStepRefines(f, bs[0]);
      HeldInRun(FineStep(f, bs[0]), bs[1..], l);
    }
  }

  /** What a half-written store shows of a version that was committed once: only its end may still be missing. */
  lemma HeldFields(f: Fine, l: Loc)
    requires FineInv(f) && Held(f, l) && Settled(f).slots[l].begin != MAX_CID
    ensures var x, y := f.store.slots[l], Settled(f).slots[l];
            x.begin == y.begin && x.value == y.value && (x.end == y.end || x.end == MAX_CID)
  {
    WorkersKnown(f);
    var t := f.store.slots[l].txnId;
    if t in f.work {
      assert WorkOk(f, t) && Accounted(f, t, l);
      assert OpenEntry(f.store, t, f.work[t].commits, l, DoneOn(f.work[t], l));
    }
  }

  lemma RawBegin(f: Fine, l: Loc)
    requires FineInv(f) && l in f.store.slots && f.store.slots[l].begin != MAX_CID
    ensures Settled(f).slots[l].begin == f.store.slots[l].begin
  {
    WorkersKnown(f);
    var t := f.store.slots[l].txnId;
    if t in f.work {
      assert WorkOk(f, t) && Accounted(f, t, l);
      var e := if l in f.store.txns[t].rw then l else f.store.slots[l].next.value;
      assert OpenEntry(f.store, t, f.work[t].commits, e, DoneOn(f.work[t], e));
    }
  }

  /** Once `t` has read a version, plainly or for update, then in every state of every later run, in the middle of
      other commits and aborts too, that version does not end at or before `t` and no version of the tuple begins
      between the two, except by the commit of `t` itself. */
  lemma ReadStability(f: Fine, a: Action, loc: Loc, bs: seq<FineAction>, g: Fine, n: Loc)
    requires FineInv(f) && FineEnabled(f, Call(a)) && IsReadOf(a, loc) && f.store.slots[loc].begin != MAX_CID
    requires FineRun(FineStep(f, Call(a)), bs) == Some(g)
    ensures loc in g.store.slots
    ensures g.store.slots[loc].begin == f.store.slots[loc].begin < a.t
    ensures g.store.slots[loc].value == f.store.slots[loc].value
    ensures a.t < g.store.slots[loc].end || (a.t == g.store.slots[loc].end && IsCommitted(Settled(g), a.t))
    ensures n in g.store.slots && g.store.slots[n].begin != MAX_CID &&
            g.store.slots[n].tuple == f.store.slots[loc].tuple ==>
              g.store.slots[loc].begin < g.store.slots[n].begin <= a.t ==>
                g.store.slots[n].begin == a.t && IsCommitted(Settled(g), a.t)
  {
    ReadStaysSettled(f, a, loc, bs, g, n);
    HeldFields(g, loc);
    if n in g.store.slots && g.store.slots[n].begin != MAX_CID {
      RawBegin(g, n);
      assert Settled(g).slots[n].tuple == g.store.slots[n].tuple;
    }
  }

  lemma ReadStaysSettled(f: Fine, a: Action, loc: Loc, bs: seq<FineAction>, g: Fine, n: Loc)
    requires FineInv(f) && FineEnabled(f, Call(a)) && IsReadOf(a, loc) && f.store.slots[loc].begin != MAX_CID
    requires FineRun(FineStep(f, Call(a)), bs) == Some(g)
    ensures FineInv(g) && Held(g, loc) && a.t < MAX_CID
    ensures var s, x := Settled(g), f.store.slots[loc];
            && s.slots[loc].begin == x.begin < a.t && s.slots[loc].value == x.value
            && (a.t < s.slots[loc].end || (a.t == s.slots[loc].end && IsCommitted(s, a.t)))
            && (n in s.slots && s.slots[n].begin != MAX_CID && s.slots[n].tuple == x.tuple ==>
                  s.slots[loc].begin < s.slots[n].begin <= a.t ==> s.slots[n].begin == a.t && IsCommitted(s, a.t))
  {
    var m := FineStep(f, Call(a));
    FineStepRefines(f, Call(a));
    FineRunRefines(m, bs);
    ReadHolds(f, a, loc);
    HeldInRun(m, bs, loc);
    AtomicReadStability(Settled(f), a, loc, Meanings(bs), Settled(g), n);
    assert a.t in Settled(f).txns;
  }

  lemma ReadHolds(f: Fine, a: Action, loc: Loc)
    requires FineInv(f) && FineEnabled(f, Call(a)) && IsReadOf(a, loc) && f.store.slots[loc].begin != MAX_CID
    ensures Enabled(Settled(f), a) && Settled(FineStep(f, Call(a))) == Step(Settled(f), a)
    ensures Settled(f).slots[loc].begin == f.store.slots[loc].begin
    ensures Settled(f).slots[loc].value == f.store.slots[loc].value
    ensures Settled(f).slots[loc].tuple == f.store.slots[loc].tuple
    ensures Held(FineStep(f, Call(a)), loc)
  {
    WorkersKnown(f);
    CallSettles(f, a);
    CallEnabled(f, a);
    assert SlotOk(Settled(f), loc);
    if loc in f.store.txns[a.t].rw { assert EntryOk(Settled(f), a.t, loc); }
  }

  // ----- At most one readable version, even in the middle of a commit or abort -----

  /** What IsVisible followed by PerformRead lets a serializable transaction read. */
  predicate Readable(f: Fine, t: Cid, l: Loc) {
    t !in f.work && CanRead(f.store, t, l)
  }

  /** What a read-only transaction at `r` may read: PerformRead never refuses it. */
  predicate ReadableAt(f: Fine, r: Cid, l: Loc) {
    ReaderSees(f.store, r, l)
  }

  /** `r` is below every transaction that still runs, commits or aborts, and is none of them. */
  ghost predicate BelowWriters(f: Fine, r: Cid) {
    INITIAL_TXN_ID < r && forall t :: t in f.store.txns && f.store.txns[t].status == Active ==> r < t
  }

  lemma OneReadable(f: Fine, t: Cid, a: Loc, b: Loc)
    requires FineInv(f) && Readable(f, t, a) && Readable(f, t, b)
    requires f.store.slots[a].tuple == f.store.slots[b].tuple
    ensures a == b
  {
    WorkersKnown(f);
    var s := Settled(f);
    assert IsActive(s, t);
    assert SlotOk(s, a) && SlotOk(s, b) && PairOk(s, a, b) && PairOk(s, b, a);
  }

  /** A version visible to a reader below all writers is settled, and visible in the settled view too. */
  lemma ReadOnlySeesSettled(f: Fine, r: Cid, l: Loc)
    requires FineInv(f) && BelowWriters(f, r) && l in f.store.slots
    ensures ReadableAt(f, r, l) <==> (var x := Settled(f).slots[l]; x.txnId != INVALID_TXN_ID && x.begin <= r < x.end)
  {
    WorkersKnown(f);
    var s := Settled(f);
    assert SlotOk(s, l);
    var x := f.store.slots[l];
    if x.txnId in f.work {
      assert WorkOk(f, x.txnId) && Accounted(f, x.txnId, l);
      var w := f.work[x.txnId];
      var o := if l in f.store.txns[x.txnId].rw then l else x.next.value;
      assert OpenEntry(f.store, x.txnId, w.commits, o, DoneOn(w, o));
    }
  }

  lemma OneCovering(s: Store, r: Cid, a: Loc, b: Loc)
    requires Inv(s) && r < MAX_CID && a in s.slots && b in s.slots && s.slots[a].tuple == s.slots[b].tuple
    requires s.slots[a].begin <= r < s.slots[a].end && s.slots[b].begin <= r < s.slots[b].end
    ensures a == b
  {
    assert PairOk(s, a, b);
  }

  /** The same for a read-only transaction. */
  lemma OneReadableAt(f: Fine, r: Cid, a: Loc, b: Loc)
    requires FineInv(f) && BelowWriters(f, r) && ReadableAt(f, r, a) && ReadableAt(f, r, b)
    requires f.store.slots[a].tuple == f.store.slots[b].tuple
    ensures a == b
  {
    ReadOnlySeesSettled(f, r, a);
    ReadOnlySeesSettled(f, r, b);
    assert SlotOk(Settled(f), a);
    OneCovering(Settled(f), r, a, b);
  }

  /** A version that stands for a delete: installed, to be installed by a loop under way, or marked by a transaction
      that still runs.  Versions that an abort throws away count as well. */
  ghost predicate StandsForDelete(f: Fine, l: Loc) {
    && l in f.store.slots
    && var x := f.store.slots[l];
       || Settled(f).slots[l].txnId == INVALID_TXN_ID
       || (x.begin == MAX_CID && x.end == INVALID_CID)
       || NewVersionOfDelete(f, l)
  }

  /** The new version of a DELETE entry that its transaction has not released yet. */
  predicate NewVersionOfDelete(f: Fine, l: Loc)
    requires l in f.store.slots
  {
    var x := f.store.slots[l];
    && IsActive(f.store, x.txnId) && l !in f.store.txns[x.txnId].rw
    && x.next.Some? && RwOf(f.store.txns[x.txnId].rw, x.next.value) == Some(DELETE)
  }

  /** Such a version is readable to nobody, its deleter included, in any state between two field writes. */
  lemma TombstoneNeverReadable(f: Fine, l: Loc, t: Cid, r: Cid)
    requires FineInv(f) && StandsForDelete(f, l)
    ensures !Readable(f, t, l) && (BelowWriters(f, r) ==> !ReadableAt(f, r, l))
  {
    WorkersKnown(f);
    var s := Settled(f);
    assert SlotOk(s, l);
    if BelowWriters(f, r) { ReadOnlySeesSettled(f, r, l); }
  }
}
