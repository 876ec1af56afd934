/** A scan that tests visibility in one loop and reads in a second one. */
module ReadRace {
  import opened Base
  import opened Mvto
  import opened MvtoInvariant
  import opened MvtoEvolution
  import opened MvtoHistory

  // Between the two loops a version may be replaced; PerformRead does not look at the visibility range again.  Here any
  // transaction may scan in this way, with anything happening between a test and its read.

  /** `found` holds the versions a transaction has found visible, `stale` which entries of its log are reads of a
      version that was no longer visible to it when it was read. */
  datatype Race = Race(s: Store, found: set<(Cid, Loc)>, stale: set<(Cid, nat)>)

  datatype RaceAction = Plain(a: Action) | Test(t: Cid, loc: Loc) | ReadFound(t: Cid, loc: Loc)

  /** PerformRead by itself: the version is the transaction's own or nobody's. */
  predicate CanReadLate(s: Store, t: Cid, loc: Loc) {
    IsActive(s, t) && loc in s.slots && (s.slots[loc].txnId == t || s.slots[loc].txnId == INITIAL_TXN_ID)
  }

  function ReadLate(s: Store, t: Cid, loc: Loc): Store
    requires CanReadLate(s, t, loc)
  {
    var x := s.slots[loc];
    var op := Got(x.tuple, x.value, loc);
    if x.txnId == t then
      s.(txns := s.txns[t := Log(s.txns[t], op)])
    else
      s.(slots := s.slots[loc := x.(lastReader := Max(x.lastReader, t))],
         txns := s.txns[t := Log(RecordRead(s.txns[t], loc), op)])
  }

  predicate RaceEnabled(r: Race, b: RaceAction) {
    match b
    case Plain(a) => Enabled(r.s, a)
    case Test(t, loc) => SeesVersion(r.s, t, loc)
    case ReadFound(t, loc) => (t, loc) in r.found && CanReadLate(r.s, t, loc)
  }

  function RaceStep(r: Race, b: RaceAction): Race
    requires RaceEnabled(r, b)
  {
    match b
    case Plain(a) => r.(s := Step(r.s, a))
    case Test(t, loc) => r.(found := r.found + {(t, loc)})
    case ReadFound(t, loc) =>
      Race(ReadLate(r.s, t, loc), r.found,
           if SeesVersion(r.s, t, loc) then r.stale else r.stale + {(t, |r.s.txns[t].log|)})
  }

  function RaceRun(r: Race, actions: seq<RaceAction>): Option<Race>
    decreases |actions|
  {
    if actions == [] then Some(r)
    else if RaceEnabled(r, actions[0]) then RaceRun(RaceStep(r, actions[0]), actions[1..])
    else None
  }

  // ----- The run without the stale reads -----

  /** The log of `t` without its stale reads. */
  function Fresh(stale: set<(Cid, nat)>, t: Cid, log: seq<Op>): seq<Op> {
    if log == [] then []
    else
      var m := |log| - 1;
      Fresh(stale, t, log[..m]) + if (t, m) in stale then [] else [log[m]]
  }

  predicate SlotShadow(s: Store, u: Store, l: Loc)
    requires l in s.slots && l in u.slots
  {
    var x, y := s.slots[l], u.slots[l];
    x == y.(lastReader := x.lastReader) && y.lastReader <= x.lastReader
  }

  /** A version that ended at or before `t`. */
  predicate Past(u: Store, t: Cid, l: Loc) {
    l in u.slots && u.slots[l].txnId == INITIAL_TXN_ID && u.slots[l].end <= t
  }

  /** Stale reads leave READ entries, on versions that `t` can do nothing with. */
  predicate EntryShadow(u: Store, t: Cid, xs: map<Loc, RWType>, ys: map<Loc, RWType>, l: Loc) {
    && (l in ys ==> l in xs && xs[l] == ys[l])
    && (l in xs && l !in ys ==> xs[l] == READ && Past(u, t, l))
  }

  /** Flags, counters and log of a context, apart from the extra entries. */
  predicate RestShadow(stale: set<(Cid, nat)>, t: Cid, x: Txn, y: Txn) {
    x == y.(rw := x.rw, log := x.log) && y.log == Fresh(stale, t, x.log)
  }

  ghost predicate TxnShadow(r: Race, u: Store, t: Cid)
    requires t in r.s.txns && t in u.txns
  {
    var x, y := r.s.txns[t], u.txns[t];
    && RestShadow(r.stale, t, x, y)
    && (x.status == Active ==> forall l {:trigger EntryShadow(u, t, x.rw, y.rw, l)} :: EntryShadow(u, t, x.rw, y.rw, l))
  }

  /** A version found visible began before the transaction or is its own. */
  predicate FoundOk(u: Store, t: Cid, l: Loc) {
    t in u.txns && (IsActive(u, t) ==> l in u.slots && (u.slots[l].begin <= t || u.slots[l].txnId == t))
  }

  predicate StaleOk(s: Store, t: Cid, i: nat) {
    t in s.txns && i < |s.txns[t].log| && s.txns[t].log[i].Got?
  }

  /** `u` is the same store without the stale reads. */
  ghost predicate Shadow(r: Race, u: Store) {
    && Inv(u) && LogInv(u)
    && r.s.slots.Keys == u.slots.Keys && r.s.index == u.index && r.s.txns.Keys == u.txns.Keys
    && (forall l {:trigger SlotShadow(r.s, u, l)} :: l in u.slots ==> SlotShadow(r.s, u, l))
    && (forall t {:trigger TxnShadow(r, u, t)} :: t in u.txns ==> TxnShadow(r, u, t))
    && (forall t, l {:trigger FoundOk(u, t, l)} :: (t, l) in r.found ==> FoundOk(u, t, l))
    && (forall t, i {:trigger StaleOk(r.s, t, i)} :: (t, i) in r.stale ==> StaleOk(r.s, t, i))
  }

  lemma FreshStep(stale: set<(Cid, nat)>, t: Cid, log: seq<Op>, op: Op)
    ensures Fresh(stale, t, log + [op]) == Fresh(stale, t, log) + if (t, |log|) in stale then [] else [op]
  {
    assert (log + [op])[..|log|] == log;
  }

  lemma {:induction false} FreshSame(stale: set<(Cid, nat)>, stale': set<(Cid, nat)>, t: Cid, log: seq<Op>)
    requires forall i :: 0 <= i < |log| ==> ((t, i) in stale <==> (t, i) in stale')
    ensures Fresh(stale', t, log) == Fresh(stale, t, log)
  {
    if log != [] { FreshSame(stale, stale', t, log[..|log| - 1]); }
  }

  // ----- A call of the interface -----

  /** The same call goes through without the stale reads: stamps are no higher, and no call can use their entries. */
  lemma PlainEnabled(r: Race, u: Store, a: Action)
    requires Shadow(r, u) && Enabled(r.s, a)
    ensures Enabled(u, a)
  {
    if !a.Begin? { assert TxnShadow(r, u, a.t); }
    match a {
      case Begin(_) =>
      case Read(t, loc) => OneSlot(r, u, t, loc);
      case ReadForUpdate(t, loc) => OneSlot(r, u, t, loc);
      case Insert(_, _, _, _) =>
      case Update(t, loc, _, _) => OneSlot(r, u, t, loc);
      case Delete(t, loc, _) => OneSlot(r, u, t, loc);
      case Overwrite(t, loc, _) => OneSlot(r, u, t, loc);
      case DeleteOwn(t, loc) => OneSlot(r, u, t, loc);
      case Commit(_) =>
      case Abort(_) =>
    }
  }

  lemma OneSlot(r: Race, u: Store, t: Cid, l: Loc)
    requires Shadow(r, u) && IsActive(r.s, t) && l in r.s.slots
    ensures IsActive(u, t) && l in u.slots && SlotShadow(r.s, u, l)
    ensures EntryShadow(u, t, r.s.txns[t].rw, u.txns[t].rw, l)
    ensures t < MAX_CID
  {
    assert TxnShadow(r, u, t) && SlotShadow(r.s, u, l);
    assert EntryShadow(u, t, r.s.txns[t].rw, u.txns[t].rw, l);
  }

  predicate EndsOne(a: Action) { a.Commit? || a.Abort? }

  lemma PlainSlot(r: Race, u: Store, a: Action, l: Loc)
    requires Shadow(r, u) && Enabled(r.s, a) && Enabled(u, a) && !EndsOne(a)
    ensures l in Step(u, a).slots <==> l in Step(r.s, a).slots
    ensures l in Step(u, a).slots ==> SlotShadow(Step(r.s, a), Step(u, a), l)
  {
    if l in u.slots { assert SlotShadow(r.s, u, l); }
    match a {
      case Begin(_) =>
      case Read(t, loc) => OneSlot(r, u, t, loc);
      case ReadForUpdate(t, loc) => OneSlot(r, u, t, loc);
      case Insert(_, _, _, _) =>
      case Update(t, loc, _, _) => OneSlot(r, u, t, loc);
      case Delete(t, loc, _) => OneSlot(r, u, t, loc);
      case Overwrite(t, loc, _) => OneSlot(r, u, t, loc);
      case DeleteOwn(t, loc) => OneSlot(r, u, t, loc);
    }
  }

  lemma EndSlot(r: Race, u: Store, a: Action, l: Loc)
    requires Shadow(r, u) && Enabled(r.s, a) && Enabled(u, a) && EndsOne(a)
    ensures l in Step(u, a).slots <==> l in Step(r.s, a).slots
    ensures l in Step(u, a).slots ==> SlotShadow(Step(r.s, a), Step(u, a), l)
  {
    if l in u.slots {
      OneSlot(r, u, a.t, l);
      assert SlotOk(u, l);
      if u.slots[l].next.Some? && u.slots[l].txnId == a.t {
        var o := u.slots[l].next.value;
        assert TxnShadow(r, u, a.t) && EntryShadow(u, a.t, r.s.txns[a.t].rw, u.txns[a.t].rw, o);
      }
    }
  }

  lemma PlainIndex(r: Race, u: Store, a: Action)
    requires Shadow(r, u) && Enabled(r.s, a) && Enabled(u, a)
    ensures Step(r.s, a).index == Step(u, a).index
  {
    match a {
      case Begin(_) =>
      case Read(_, _) =>
      case ReadForUpdate(_, _) =>
      case Insert(_, _, _, _) =>
      case Update(t, loc, _, _) => OneSlot(r, u, t, loc);
      case Delete(t, loc, _) => OneSlot(r, u, t, loc);
      case Overwrite(_, _, _) =>
      case DeleteOwn(_, _) =>
      case Commit(_) =>
      case Abort(t) =>
        forall k | k in u.index ensures SettledHead(r.s.slots, u.index[k], t) == SettledHead(u.slots, u.index[k], t) {
          if u.index[k] in u.slots { OneSlot(r, u, t, u.index[k]); }
        }
    }
  }

  /** A version that has ended stays as it is. */
  lemma PastKept(u: Store, a: Action, t: Cid, l: Loc)
    requires Inv(u) && Enabled(u, a) && Past(u, t, l) && t in u.txns
    ensures Past(Step(u, a), t, l)
  {
    match a {
      case Begin(_) =>
      case Read(_, _) =>
      case ReadForUpdate(_, _) =>
      case Insert(_, _, _, _) =>
      case Update(x, loc, _, _) => assert EntryOk(u, x, loc);
      case Delete(x, loc, _) => assert EntryOk(u, x, loc);
      case Overwrite(_, _, _) =>
      case DeleteOwn(_, _) =>
      case Commit(_) => assert a.t in u.txns;
      case Abort(_) => assert a.t in u.txns;
    }
  }

  lemma FoundKept(u: Store, a: Action, t: Cid, l: Loc)
    requires Inv(u) && Enabled(u, a) && FoundOk(u, t, l)
    ensures FoundOk(Step(u, a), t, l)
  {
    StepEvolves(u, a);
    if IsActive(u, t) {
      assert SlotEvolves(u, Step(u, a), l) && SlotOk(u, l);
      if u.slots[l].begin > t && IsActive(Step(u, a), t) {
        StepKeeps(u, a);
        assert SlotOk(Step(u, a), l);
      }
    }
  }

  /** What the call does to the read/write set it does with and without the extra entries. */
  lemma ActorEntry(r: Race, u: Store, a: Action, l: Loc)
    requires Shadow(r, u) && Enabled(r.s, a) && Enabled(u, a) && !a.Begin? && !EndsOne(a)
    ensures EntryShadow(Step(u, a), a.t, Step(r.s, a).txns[a.t].rw, Step(u, a).txns[a.t].rw, l)
  {
    var t := a.t;
    assert TxnShadow(r, u, t) && EntryShadow(u, t, r.s.txns[t].rw, u.txns[t].rw, l);
    if Past(u, t, l) { PastKept(u, a, t, l); }
    if a.Insert? { assert EntryShadow(u, t, r.s.txns[t].rw, u.txns[t].rw, a.loc); } else { OneSlot(r, u, t, a.loc); }
    if a.Read? || a.ReadForUpdate? || a.Insert? {
      NewEntry(r, u, a, l);
    } else if a.DeleteOwn? {
      assert SlotOk(u, a.loc);
      if u.slots[a.loc].next.Some? { OneSlot(r, u, t, u.slots[a.loc].next.value); }
    }
  }

  lemma NewEntry(r: Race, u: Store, a: Action, l: Loc)
    requires Shadow(r, u) && Enabled(r.s, a) && Enabled(u, a) && (a.Read? || a.ReadForUpdate? || a.Insert?)
    requires EntryShadow(u, a.t, r.s.txns[a.t].rw, u.txns[a.t].rw, l)
    requires EntryShadow(u, a.t, r.s.txns[a.t].rw, u.txns[a.t].rw, a.loc)
    requires Past(u, a.t, l) ==> Past(Step(u, a), a.t, l)
    ensures EntryShadow(Step(u, a), a.t, Step(r.s, a).txns[a.t].rw, Step(u, a).txns[a.t].rw, l)
  {
    if !a.Insert? { OneSlot(r, u, a.t, a.loc); }
  }

  lemma ReaderRest(r: Race, u: Store, a: Action)
    requires Shadow(r, u) && Enabled(r.s, a) && Enabled(u, a) && (a.Read? || a.ReadForUpdate?)
    requires (a.t, |r.s.txns[a.t].log|) !in r.stale
    ensures RestShadow(r.stale, a.t, Step(r.s, a).txns[a.t], Step(u, a).txns[a.t])
  {
    assert TxnShadow(r, u, a.t);
    OneSlot(r, u, a.t, a.loc);
    FreshStep(r.stale, a.t, r.s.txns[a.t].log, Got(r.s.slots[a.loc].tuple, r.s.slots[a.loc].value, a.loc));
  }

  lemma WriterRest(r: Race, u: Store, a: Action)
    requires Shadow(r, u) && Enabled(r.s, a) && Enabled(u, a) && (a.Update? || a.Delete? || a.Overwrite?)
    requires (a.t, |r.s.txns[a.t].log|) !in r.stale
    ensures RestShadow(r.stale, a.t, Step(r.s, a).txns[a.t], Step(u, a).txns[a.t])
  {
    assert TxnShadow(r, u, a.t);
    OneSlot(r, u, a.t, a.loc);
    var k := r.s.slots[a.loc].tuple;
    FreshStep(r.stale, a.t, r.s.txns[a.t].log, if a.Delete? then Deleted(k, a.loc) else Wrote(k, a.value, a.loc));
  }

  lemma InserterRest(r: Race, u: Store, t: Cid, loc: Loc, k: TupleId, v: Value)
    requires Shadow(r, u) && CanInsert(r.s, t, loc, k) && CanInsert(u, t, loc, k)
    requires (t, |r.s.txns[t].log|) !in r.stale
    ensures RestShadow(r.stale, t, DoInsert(r.s, t, loc, k, v).txns[t], DoInsert(u, t, loc, k, v).txns[t])
  {
    assert TxnShadow(r, u, t) && EntryShadow(u, t, r.s.txns[t].rw, u.txns[t].rw, loc);
    EntriesExist(u, t);
    FreshStep(r.stale, t, r.s.txns[t].log, Inserted(k, v, loc));
  }

  lemma ActorRest(r: Race, u: Store, a: Action)
    requires Shadow(r, u) && Enabled(r.s, a) && Enabled(u, a)
    ensures a.t in Step(r.s, a).txns && a.t in Step(u, a).txns
    ensures RestShadow(r.stale, a.t, Step(r.s, a).txns[a.t], Step(u, a).txns[a.t])
  {
    if a.t in u.txns {
      assert TxnShadow(r, u, a.t);
      assert (a.t, |r.s.txns[a.t].log|) in r.stale ==> StaleOk(r.s, a.t, |r.s.txns[a.t].log|);
    }
    match a {
      case Begin(_) =>
      case Read(_, _) => ReaderRest(r, u, a);
      case ReadForUpdate(_, _) => ReaderRest(r, u, a);
      case Insert(t, loc, k, v) => InserterRest(r, u, t, loc, k, v);
      case Update(_, _, _, _) => WriterRest(r, u, a);
      case Delete(_, _, _) => WriterRest(r, u, a);
      case Overwrite(_, _, _) => WriterRest(r, u, a);
      case DeleteOwn(t, loc) => DeleteOwnRest(r, u, t, loc);
      case Commit(_) =>
      case Abort(_) =>
    }
  }

  lemma DeleteOwnRest(r: Race, u: Store, t: Cid, loc: Loc)
    requires Shadow(r, u) && CanChangeOwn(r.s, t, loc) && CanChangeOwn(u, t, loc)
    requires (t, |r.s.txns[t].log|) !in r.stale
    ensures RestShadow(r.stale, t, DoDeleteOwn(r.s, t, loc).txns[t], DoDeleteOwn(u, t, loc).txns[t])
  {
    OneSlot(r, u, t, loc);
    assert SlotOk(u, loc) && TxnShadow(r, u, t);
    if u.slots[loc].next.Some? { OneSlot(r, u, t, u.slots[loc].next.value); }
    FreshStep(r.stale, t, r.s.txns[t].log, Deleted(r.s.slots[loc].tuple, loc));
  }

  lemma PlainTxn(r: Race, u: Store, a: Action, t: Cid)
    requires Shadow(r, u) && Enabled(r.s, a) && Enabled(u, a) && t in Step(u, a).txns
    ensures t in Step(r.s, a).txns && TxnShadow(r.(s := Step(r.s, a)), Step(u, a), t)
  {
    var r', u' := r.(s := Step(r.s, a)), Step(u, a);
    StepTxns(r.s, a);
    StepTxns(u, a);
    if t == a.t {
      ActorRest(r, u, a);
      if r'.s.txns[t].status == Active && !a.Begin? {
        forall l ensures EntryShadow(u', t, r'.s.txns[t].rw, u'.txns[t].rw, l) { ActorEntry(r, u, a, l); }
      }
    } else {
      assert TxnShadow(r, u, t);
      if u.txns[t].status == Active {
        forall l ensures EntryShadow(u', t, r'.s.txns[t].rw, u'.txns[t].rw, l) {
          assert EntryShadow(u, t, r.s.txns[t].rw, u.txns[t].rw, l);
          if Past(u, t, l) { PastKept(u, a, t, l); }
        }
      }
    }
  }

  lemma StaleKept(r: Race, u: Store, a: Action, t: Cid, i: nat)
    requires Shadow(r, u) && Enabled(r.s, a) && Enabled(u, a) && (t, i) in r.stale
    ensures StaleOk(Step(r.s, a), t, i)
  {
    assert StaleOk(r.s, t, i);
    StepTxns(r.s, a);
    if t == a.t { LogGrows(r.s, a); }
  }

  lemma PlainShadow(r: Race, u: Store, a: Action)
    requires Shadow(r, u) && Enabled(r.s, a)
    ensures Enabled(u, a) && Shadow(r.(s := Step(r.s, a)), Step(u, a))
  {
    PlainEnabled(r, u, a);
    var r', u' := r.(s := Step(r.s, a)), Step(u, a);
    StepKeeps(u, a);
    StepKeepsLog(u, a);
    PlainIndex(r, u, a);
    assert r'.s.txns.Keys == u'.txns.Keys by {
      StepTxns(r.s, a);
      StepTxns(u, a);
    }
    forall l ensures l in u'.slots <==> l in r'.s.slots ensures l in u'.slots ==> SlotShadow(r'.s, u', l) {
      if EndsOne(a) { EndSlot(r, u, a, l); } else { PlainSlot(r, u, a, l); }
    }
    forall t | t in u'.txns ensures TxnShadow(r', u', t) { PlainTxn(r, u, a, t); }
    forall t, l | (t, l) in r'.found ensures FoundOk(u', t, l) { FoundKept(u, a, t, l); }
    forall t, i | (t, i) in r'.stale ensures StaleOk(r'.s, t, i) { StaleKept(r, u, a, t, i); }
  }

  // ----- Tests and reads -----

  lemma TestShadow(r: Race, u: Store, t: Cid, loc: Loc)
    requires Shadow(r, u) && SeesVersion(r.s, t, loc)
    ensures Shadow(r.(found := r.found + {(t, loc)}), u)
  {
    var r' := r.(found := r.found + {(t, loc)});
    OneSlot(r, u, t, loc);
    assert SlotOk(u, loc) && FoundOk(u, t, loc);
    forall x | x in u.txns ensures TxnShadow(r', u, x) { assert TxnShadow(r, u, x); }
  }

  /** A stale read changes a stamp, an entry nobody can use and the log. */
  lemma StaleShadow(r: Race, u: Store, t: Cid, loc: Loc)
    requires Shadow(r, u) && RaceEnabled(r, ReadFound(t, loc)) && !SeesVersion(r.s, t, loc)
    ensures Shadow(RaceStep(r, ReadFound(t, loc)), u)
  {
    var r' := RaceStep(r, ReadFound(t, loc));
    var log := r.s.txns[t].log;
    assert r'.s.slots.Keys == u.slots.Keys && r'.s.txns.Keys == u.txns.Keys && r'.s.index == u.index by {
      OneSlot(r, u, t, loc);
    }
    forall l | l in u.slots ensures SlotShadow(r'.s, u, l) { StaleSlot(r, u, t, loc, l); }
    forall x | x in u.txns ensures TxnShadow(r', u, x) { StaleTxn(r, u, t, loc, x); }
    forall x, i | (x, i) in r'.stale ensures StaleOk(r'.s, x, i) {
      if (x, i) != (t, |log|) { assert StaleOk(r.s, x, i); }
    }
  }

  lemma StaleSlot(r: Race, u: Store, t: Cid, loc: Loc, l: Loc)
    requires Shadow(r, u) && RaceEnabled(r, ReadFound(t, loc)) && l in u.slots
    ensures SlotShadow(RaceStep(r, ReadFound(t, loc)).s, u, l)
  {
    assert SlotShadow(r.s, u, l);
  }

  lemma StaleTxn(r: Race, u: Store, t: Cid, loc: Loc, x: Cid)
    requires Shadow(r, u) && RaceEnabled(r, ReadFound(t, loc)) && !SeesVersion(r.s, t, loc) && x in u.txns
    ensures TxnShadow(RaceStep(r, ReadFound(t, loc)), u, x)
  {
    var r' := RaceStep(r, ReadFound(t, loc));
    var log := r.s.txns[x].log;
    assert TxnShadow(r, u, x);
    FreshSame(r.stale, r'.stale, x, log);
    if x == t {
      OneSlot(r, u, t, loc);
      assert FoundOk(u, t, loc);
      FreshStep(r'.stale, t, log, Got(r.s.slots[loc].tuple, r.s.slots[loc].value, loc));
      forall l ensures EntryShadow(u, t, r'.s.txns[t].rw, u.txns[t].rw, l) {
        assert EntryShadow(u, t, r.s.txns[t].rw, u.txns[t].rw, l);
      }
    }
  }

  /** The call a step of the scanning machine stands for: a read of what is still visible is an ordinary read. */
  function Matched(r: Race, b: RaceAction): Option<Action> {
    match b
    case Plain(a) => Some(a)
    case Test(_, _) => None
    case ReadFound(t, loc) => if SeesVersion(r.s, t, loc) then Some(Read(t, loc)) else None
  }

  function After(u: Store, a: Option<Action>): Store
    requires a.Some? ==> Enabled(u, a.value)
  {
    if a.Some? then Step(u, a.value) else u
  }

  /** Every step of the scanning machine is one call, or none, of the machine that tests and reads in one step. */
  lemma RaceStepShadow(r: Race, u: Store, b: RaceAction)
    requires Shadow(r, u) && RaceEnabled(r, b)
    ensures Matched(r, b).Some? ==> Enabled(u, Matched(r, b).value)
    ensures Shadow(RaceStep(r, b), After(u, Matched(r, b)))
  {
    match b {
      case Plain(a) => PlainShadow(r, u, a);
      case Test(t, loc) => TestShadow(r, u, t, loc);
      case ReadFound(t, loc) =>
        if SeesVersion(r.s, t, loc) { PlainShadow(r, u, Read(t, loc)); } else { StaleShadow(r, u, t, loc); }
    }
  }

  lemma RaceRunShadow(r: Race, u: Store, actions: seq<RaceAction>) returns (u': Store)
    requires Shadow(r, u) && RaceRun(r, actions).Some?
    ensures Shadow(RaceRun(r, actions).value, u')
    decreases |actions|
  {
    u' := u;
    if actions != [] {
      RaceStepShadow(r, u, actions[0]);
      u' := RaceRunShadow(RaceStep(r, actions[0]), After(u, Matched(r, actions[0])), actions[1..]);
    }
  }

  lemma NoRaceYet(s: Store)
    requires Inv(s) && LogInv(s)
    ensures Shadow(Race(s, {}, {}), s)
  {
    forall t | t in s.txns ensures TxnShadow(Race(s, {}, {}), s, t) { AllFresh(t, s.txns[t].log); }
  }

  lemma {:induction false} AllFresh(t: Cid, log: seq<Op>)
    ensures Fresh({}, t, log) == log
  {
    if log != [] { AllFresh(t, log[..|log| - 1]); }
  }
}
