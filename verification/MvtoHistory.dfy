/** How the operation log of each transaction agrees with the version slots. */
module MvtoHistory {
  import opened Base
  import opened Mvto
  import opened MvtoInvariant
  import opened MvtoEvolution

  /** What a sequence of operations leaves of one tuple. */
  datatype Effect = Untouched | Present(value: Value) | Gone

  function EffectOf(op: Op, k: TupleId): Effect {
    match op
    case Wrote(j, v, _) => if j == k then Present(v) else Untouched
    case Inserted(j, v, _) => if j == k then Present(v) else Untouched
    case Deleted(j, _) => if j == k then Gone else Untouched
    case Got(_, _, _) => Untouched
  }

  function EffectOn(log: seq<Op>, k: TupleId): Effect {
    if log == [] then Untouched
    else if EffectOf(log[|log| - 1], k) != Untouched then EffectOf(log[|log| - 1], k)
    else EffectOn(log[..|log| - 1], k)
  }

  lemma EffectAppend(log: seq<Op>, op: Op, k: TupleId)
    ensures EffectOn(log + [op], k) == if EffectOf(op, k) != Untouched then EffectOf(op, k) else EffectOn(log, k)
  {
    assert (log + [op])[..|log|] == log;
  }

  /** `loc` is the version of `k` that a transaction with id `t` must work on. */
  predicate Covers(s: Store, loc: Loc, k: TupleId, t: Cid) {
    && loc in s.slots
    && var x := s.slots[loc];
       && x.tuple == k && x.txnId != INVALID_TXN_ID && t <= x.lastReader
       && x.begin < t <= x.end && x.begin != MAX_CID && (t == x.end ==> IsCommitted(s, t))
  }

  /** No version of `k` is older than `t`. */
  ghost predicate Born(s: Store, k: TupleId, t: Cid) {
    && k in s.index
    && forall l :: l in s.slots && s.slots[l].tuple == k && !Dead(s.slots[l]) ==> t <= Writer(s.slots[l])
  }

  predicate HasHistory(s: Store, t: Cid) {
    t in s.txns && s.txns[t].status != Aborted
  }

  /** The i-th operation saw its own earlier effect, or else the version current at the transaction's id. */
  ghost predicate OpOk(s: Store, t: Cid, i: nat)
    requires t in s.txns && i < |s.txns[t].log|
  {
    var op := s.txns[t].log[i];
    var before := EffectOn(s.txns[t].log[..i], op.tuple);
    match op
    case Got(k, v, at) => before == Present(v) || (before == Untouched && Covers(s, at, k, t) && s.slots[at].value == v)
    case Wrote(k, _, at) => before.Present? || (before == Untouched && Covers(s, at, k, t))
    case Deleted(k, at) => before.Present? || (before == Untouched && Covers(s, at, k, t))
    case Inserted(k, _, _) => before == Untouched && Born(s, k, t)
  }

  predicate SlotEffectOk(s: Store, l: Loc)
    requires l in s.slots
  {
    var x := s.slots[l];
    !Dead(x) ==>
      && Writer(x) in s.txns
      && EffectOn(s.txns[Writer(x)].log, x.tuple) ==
         if (x.begin == MAX_CID && x.end == INVALID_CID) || (x.begin != MAX_CID && x.txnId == INVALID_TXN_ID)
         then Gone else Present(x.value)
  }

  ghost predicate Installed(s: Store, k: TupleId, t: Cid) {
    exists l :: l in s.slots && s.slots[l].tuple == k && s.slots[l].begin == t
  }

  ghost predicate NeverBorn(s: Store, k: TupleId) {
    forall l :: l in s.slots && s.slots[l].tuple == k ==> Dead(s.slots[l])
  }

  ghost predicate TouchedOk(s: Store, t: Cid, k: TupleId)
    requires HasHistory(s, t)
  {
    EffectOn(s.txns[t].log, k) != Untouched ==>
      && k in s.index
      && if IsActive(s, t) then
           s.index[k] in s.slots && s.slots[s.index[k]].txnId == t && s.slots[s.index[k]].begin == MAX_CID
         else Installed(s, k, t) || (EffectOn(s.txns[t].log, k) == Gone && NeverBorn(s, k))
  }

  ghost predicate OpsOk(s: Store) {
    forall t, i: nat {:trigger OpOk(s, t, i)} :: HasHistory(s, t) && i < |s.txns[t].log| ==> OpOk(s, t, i)
  }

  ghost predicate EffectsOk(s: Store) {
    forall l {:trigger SlotEffectOk(s, l)} :: l in s.slots ==> SlotEffectOk(s, l)
  }

  ghost predicate AllTouchedOk(s: Store) {
    forall t, k {:trigger TouchedOk(s, t, k)} :: HasHistory(s, t) ==> TouchedOk(s, t, k)
  }

  ghost predicate LogInv(s: Store) {
    OpsOk(s) && EffectsOk(s) && AllTouchedOk(s)
  }

  // ----- Operations already logged stay right -----

  lemma CoversKept(s: Store, s': Store, loc: Loc, k: TupleId, t: Cid)
    requires Evolves(s, s') && Covers(s, loc, k, t)
    ensures Covers(s', loc, k, t) && s'.slots[loc].value == s.slots[loc].value
  {
    assert SlotEvolves(s, s', loc);
  }

  lemma BornKept(s: Store, s': Store, k: TupleId, t: Cid)
    requires Evolves(s, s') && Appears(s, s') && Born(s, k, t)
    ensures Born(s', k, t)
  {
    forall l | l in s'.slots && s'.slots[l].tuple == k && !Dead(s'.slots[l]) ensures t <= Writer(s'.slots[l]) {
      if l in s.slots {
        assert SlotEvolves(s, s', l);
      } else {
        assert SlotAppears(s, s', l);
      }
    }
  }

  lemma OldOpKept(s: Store, s': Store, t: Cid, i: nat)
    requires Evolves(s, s') && Appears(s, s')
    requires t in s.txns && i < |s.txns[t].log| && OpOk(s, t, i)
    requires t in s'.txns && s.txns[t].log <= s'.txns[t].log
    ensures OpOk(s', t, i)
  {
    assert s'.txns[t].log[..i] == s.txns[t].log[..i];
    var op := s.txns[t].log[i];
    assert s'.txns[t].log[i] == op;
    if Covers(s, op.at, op.tuple, t) { CoversKept(s, s', op.at, op.tuple, t); }
    if Born(s, op.tuple, t) { BornKept(s, s', op.tuple, t); }
  }

  // ----- The operation a step logs is right -----

  /** Once `t` has written a tuple, every version of it is over before `t`, or is the one `t` wrote above. */
  lemma TouchedBelow(s: Store, t: Cid, loc: Loc)
    requires Inv(s) && LogInv(s) && IsActive(s, t) && loc in s.slots && s.slots[loc].begin != MAX_CID
    ensures EffectOn(s.txns[t].log, s.slots[loc].tuple) != Untouched ==>
              s.slots[loc].end < t || (s.slots[loc].txnId == t && s.slots[loc].prev.Some?)
  {
    var k := s.slots[loc].tuple;
    assert TouchedOk(s, t, k);
    if EffectOn(s.txns[t].log, k) != Untouched {
      assert HeadOk(s, k) && SlotOk(s, s.index[k]) && PairOk(s, s.index[k], loc);
    }
  }

  /** The version `t` is about to act on, and that it has no effect of its own on the tuple yet. */
  predicate Current(s: Store, t: Cid, loc: Loc)
    requires loc in s.slots
  {
    var x := s.slots[loc];
    x.begin < t < x.end && x.begin != MAX_CID && x.txnId != INVALID_TXN_ID && (x.txnId == t ==> x.prev == None)
  }

  lemma ReadableIsCurrent(s: Store, t: Cid, loc: Loc)
    requires Inv(s) && CanRead(s, t, loc)
    ensures var x := s.slots[loc];
            Current(s, t, loc) || (x.txnId == t && x.begin == MAX_CID && x.end == MAX_CID)
  {
    assert SlotOk(s, loc);
  }

  lemma ReplaceableIsCurrent(s: Store, t: Cid, loc: Loc, newLoc: Loc)
    requires Inv(s) && CanReplace(s, t, loc, newLoc)
    ensures Current(s, t, loc) && s.slots[loc].lastReader >= t && s.slots[loc].end == MAX_CID
    ensures s.slots[loc].prev == None
  {
    assert SlotOk(s, loc) && EntryOk(s, t, loc);
  }

  lemma NewOpRead(s: Store, s': Store, t: Cid, loc: Loc)
    requires Inv(s) && LogInv(s)
    requires (CanRead(s, t, loc) && s' == DoRead(s, t, loc)) ||
             (CanReadForUpdate(s, t, loc) && s' == DoReadForUpdate(s, t, loc))
    ensures OpOk(s', t, |s.txns[t].log|)
  {
    ReadableIsCurrent(s, t, loc);
    var log := s.txns[t].log;
    assert s'.txns[t].log[..|log|] == log;
    assert SlotEffectOk(s, loc) && SlotOk(s, loc);
    if Current(s, t, loc) { TouchedBelow(s, t, loc); }
  }

  lemma NewOpReplace(s: Store, s': Store, t: Cid, loc: Loc, newLoc: Loc, v: Value)
    requires Inv(s) && LogInv(s) && CanReplace(s, t, loc, newLoc)
    requires s' == DoUpdate(s, t, loc, newLoc, v) || s' == DoDelete(s, t, loc, newLoc)
    ensures OpOk(s', t, |s.txns[t].log|)
  {
    ReplaceableIsCurrent(s, t, loc, newLoc);
    TouchedBelow(s, t, loc);
    assert s'.txns[t].log[..|s.txns[t].log|] == s.txns[t].log;
  }

  lemma NewOpOwn(s: Store, s': Store, t: Cid, loc: Loc, v: Value)
    requires Inv(s) && LogInv(s) && CanChangeOwn(s, t, loc)
    requires s' == DoOverwrite(s, t, loc, v) || s' == DoDeleteOwn(s, t, loc)
    ensures OpOk(s', t, |s.txns[t].log|)
  {
    assert SlotEffectOk(s, loc);
    assert s'.txns[t].log[..|s.txns[t].log|] == s.txns[t].log;
  }

  lemma TuplesIndexed(s: Store)
    requires Inv(s)
    ensures forall l :: l in s.slots ==> s.slots[l].tuple in s.index
  {
    forall l | l in s.slots ensures s.slots[l].tuple in s.index {
      assert SlotOk(s, l);
    }
  }

  lemma NewOpInsert(s: Store, t: Cid, loc: Loc, k: TupleId, v: Value)
    requires Inv(s) && LogInv(s) && CanInsert(s, t, loc, k)
    ensures OpOk(DoInsert(s, t, loc, k, v), t, |s.txns[t].log|)
  {
    var s' := DoInsert(s, t, loc, k, v);
    assert s'.txns[t].log[..|s.txns[t].log|] == s.txns[t].log;
    assert TouchedOk(s, t, k);
    TuplesIndexed(s);
  }

  // ----- The effects on slots -----

  /** The slot is the same but for its owner and stamp, and the log has one more read. */
  lemma EffectAfterRead(s: Store, s': Store, t: Cid, op: Op, l: Loc)
    requires l in s.slots && l in s'.slots && SlotEffectOk(s, l) && t in s.txns && t in s'.txns && op.Got?
    requires s'.txns == s.txns[t := s'.txns[t]] && s'.txns[t].log == s.txns[t].log + [op]
    requires var x, y := s.slots[l], s'.slots[l];
             && y == x.(txnId := y.txnId, lastReader := y.lastReader)
             && (y.txnId != x.txnId ==> x.begin != MAX_CID && x.txnId != INVALID_TXN_ID && y.txnId != INVALID_TXN_ID)
    ensures SlotEffectOk(s', l)
  {
    EffectAppend(s.txns[t].log, op, s.slots[l].tuple);
  }

  lemma EffectRead(s: Store, s': Store, t: Cid, loc: Loc, l: Loc)
    requires Inv(s) && LogInv(s) && l in s.slots
    requires (CanRead(s, t, loc) && s' == DoRead(s, t, loc)) ||
             (CanReadForUpdate(s, t, loc) && s' == DoReadForUpdate(s, t, loc))
    ensures SlotEffectOk(s', l)
  {
    assert SlotEffectOk(s, l) && SlotOk(s, l);
    EffectAfterRead(s, s', t, Got(s.slots[loc].tuple, s.slots[loc].value, loc), l);
  }

  lemma EffectInsert(s: Store, t: Cid, loc: Loc, k: TupleId, v: Value, l: Loc)
    requires Inv(s) && LogInv(s) && CanInsert(s, t, loc, k) && (l == loc || l in s.slots)
    ensures SlotEffectOk(DoInsert(s, t, loc, k, v), l)
  {
    var op := Inserted(k, v, loc);
    if l == loc {
      EffectAppend(s.txns[t].log, op, k);
    } else {
      assert SlotEffectOk(s, l) && SlotOk(s, l);
      EffectAppend(s.txns[t].log, op, s.slots[l].tuple);
    }
  }

  lemma EffectReplace(s: Store, s': Store, t: Cid, loc: Loc, newLoc: Loc, v: Value, op: Op, l: Loc)
    requires Inv(s) && LogInv(s) && CanReplace(s, t, loc, newLoc) && (l == newLoc || l in s.slots)
    requires (s' == DoUpdate(s, t, loc, newLoc, v) && op == Wrote(s.slots[loc].tuple, v, loc)) ||
             (s' == DoDelete(s, t, loc, newLoc) && op == Deleted(s.slots[loc].tuple, loc))
    ensures SlotEffectOk(s', l)
  {
    ReplaceableIsCurrent(s, t, loc, newLoc);
    assert s'.txns[t].log == s.txns[t].log + [op];
    EffectAppend(s.txns[t].log, op, s'.slots[l].tuple);
    assert SlotOk(s, loc);
    if l != newLoc {
      assert SlotEffectOk(s, l) && SlotOk(s, l);
    }
  }

  lemma EffectOwn(s: Store, s': Store, t: Cid, loc: Loc, v: Value, op: Op, l: Loc)
    requires Inv(s) && LogInv(s) && CanChangeOwn(s, t, loc) && l in s.slots
    requires (s' == DoOverwrite(s, t, loc, v) && op == Wrote(s.slots[loc].tuple, v, loc)) ||
             (s' == DoDeleteOwn(s, t, loc) && op == Deleted(s.slots[loc].tuple, loc))
    ensures SlotEffectOk(s', l)
  {
    assert s'.txns[t].log == s.txns[t].log + [op];
    EffectAppend(s.txns[t].log, op, s.slots[l].tuple);
    assert SlotEffectOk(s, l) && SlotOk(s, l) && SlotOk(s, loc);
  }

  lemma EffectCommit(s: Store, t: Cid, l: Loc)
    requires Inv(s) && LogInv(s) && IsActive(s, t) && l in s.slots
    ensures SlotEffectOk(DoCommit(s, t), l)
  {
    assert SlotEffectOk(s, l) && SlotOk(s, l);
  }

  lemma EffectAbort(s: Store, t: Cid, l: Loc)
    requires Inv(s) && LogInv(s) && IsActive(s, t) && l in s.slots
    ensures SlotEffectOk(DoAbort(s, t), l)
  {
    assert SlotEffectOk(s, l) && SlotOk(s, l);
  }

  // ----- The tuples a transaction has an effect on -----

  lemma InstalledKept(s: Store, s': Store, k: TupleId, t: Cid)
    requires Evolves(s, s') && Installed(s, k, t) && t != MAX_CID
    ensures Installed(s', k, t)
  {
    var l :| l in s.slots && s.slots[l].tuple == k && s.slots[l].begin == t;
    assert SlotEvolves(s, s', l);
  }

  lemma NeverBornKept(s: Store, s': Store, k: TupleId)
    requires Evolves(s, s') && Appears(s, s') && NeverBorn(s, k) && k in s.index
    ensures NeverBorn(s', k)
  {
    forall l | l in s'.slots && s'.slots[l].tuple == k ensures Dead(s'.slots[l]) {
      assert SlotAppears(s, s', l);
      assert SlotEvolves(s, s', l);
    }
  }

  /** A committed transaction's effects stay where they are. */
  lemma TouchedByCommitted(s: Store, s': Store, u: Cid, k: TupleId)
    requires Inv(s) && LogInv(s) && Evolves(s, s') && Appears(s, s')
    requires IsCommitted(s, u) && u in s'.txns && s'.txns[u] == s.txns[u]
    ensures TouchedOk(s', u, k)
  {
    assert TouchedOk(s, u, k);
    if Installed(s, k, u) { InstalledKept(s, s', k, u); }
    if NeverBorn(s, k) && k in s.index { NeverBornKept(s, s', k); }
  }

  /** The last effect on `k` decides whether a step's own log touches it. */
  lemma TouchedOwnAppend(s: Store, s': Store, t: Cid, op: Op, k: TupleId)
    requires Inv(s) && LogInv(s) && IsActive(s, t) && IsActive(s', t)
    requires s'.txns[t].log == s.txns[t].log + [op]
    requires s.index.Keys <= s'.index.Keys
    requires EffectOf(op, k) == Untouched && k in s.index ==> s'.index[k] == s.index[k]
    requires forall l :: l in s.slots && s.slots[l].txnId == t && s.slots[l].begin == MAX_CID ==>
               l in s'.slots && s'.slots[l].txnId == t && s'.slots[l].begin == MAX_CID
    requires EffectOf(op, k) != Untouched ==>
               && k in s'.index && s'.index[k] in s'.slots
               && s'.slots[s'.index[k]].txnId == t && s'.slots[s'.index[k]].begin == MAX_CID
    ensures TouchedOk(s', t, k)
  {
    EffectAppend(s.txns[t].log, op, k);
    assert TouchedOk(s, t, k);
  }

  /** Another running transaction's uncommitted versions and their heads are not touched. */
  lemma TouchedByOther(s: Store, a: Action, u: Cid, k: TupleId)
    requires Inv(s) && LogInv(s) && Enabled(s, a) && IsActive(s, u) && u != a.t
    ensures TouchedOk(Step(s, a), u, k)
  {
    assert TouchedOk(s, u, k);
    match a {
      case Update(t, loc, newLoc, v) =>
        ReplaceableIsCurrent(s, t, loc, newLoc);
        assert SlotOk(s, loc);
      case Delete(t, loc, newLoc) =>
        ReplaceableIsCurrent(s, t, loc, newLoc);
        assert SlotOk(s, loc);
      case _ =>
    }
  }

  lemma TouchedCommit(s: Store, t: Cid, k: TupleId)
    requires Inv(s) && LogInv(s) && IsActive(s, t)
    ensures TouchedOk(DoCommit(s, t), t, k)
  {
    var s' := DoCommit(s, t);
    assert TouchedOk(s, t, k);
    if EffectOn(s.txns[t].log, k) != Untouched {
      var h := s.index[k];
      assert SlotOk(s, h) && HeadOk(s, k) && SlotEffectOk(s, h);
      if RwOf(s.txns[t].rw, h) == Some(INS_DEL) {
        forall l | l in s'.slots && s'.slots[l].tuple == k ensures Dead(s'.slots[l]) {
          assert SlotOk(s, l) && PairOk(s, h, l);
        }
      } else {
        assert s'.slots[h].begin == t;
      }
    }
  }

  /** The operation a step appends to the log of its transaction. */
  function Logged(s: Store, a: Action): Option<Op>
    requires Enabled(s, a)
  {
    match a
    case Read(_, loc) => Some(Got(s.slots[loc].tuple, s.slots[loc].value, loc))
    case ReadForUpdate(_, loc) => Some(Got(s.slots[loc].tuple, s.slots[loc].value, loc))
    case Insert(_, loc, k, v) => Some(Inserted(k, v, loc))
    case Update(_, loc, _, v) => Some(Wrote(s.slots[loc].tuple, v, loc))
    case Delete(_, loc, _) => Some(Deleted(s.slots[loc].tuple, loc))
    case Overwrite(_, loc, v) => Some(Wrote(s.slots[loc].tuple, v, loc))
    case DeleteOwn(_, loc) => Some(Deleted(s.slots[loc].tuple, loc))
    case _ => None
  }

  lemma StepLogs(s: Store, a: Action)
    requires Enabled(s, a)
    ensures var s' := Step(s, a);
            && s'.txns.Keys == s.txns.Keys + {a.t}
            && (forall u :: u in s.txns && u != a.t ==> s'.txns[u] == s.txns[u])
            && (!a.Begin? ==>
                  s'.txns[a.t].log == s.txns[a.t].log + if Logged(s, a).Some? then [Logged(s, a).value] else [])
  {
  }

  lemma TouchedInPlace(s: Store, a: Action, k: TupleId)
    requires Inv(s) && LogInv(s) && Enabled(s, a) && (a.Read? || a.ReadForUpdate? || a.Overwrite? || a.DeleteOwn?)
    ensures TouchedOk(Step(s, a), a.t, k)
  {
    if a.Overwrite? || a.DeleteOwn? { assert SlotOk(s, a.loc); }
    StepLogs(s, a);
    TouchedOwnAppend(s, Step(s, a), a.t, Logged(s, a).value, k);
  }

  lemma TouchedByNew(s: Store, a: Action, k: TupleId)
    requires Inv(s) && LogInv(s) && Enabled(s, a) && (a.Insert? || a.Update? || a.Delete?)
    ensures TouchedOk(Step(s, a), a.t, k)
  {
    if a.Update? || a.Delete? { ReplaceableIsCurrent(s, a.t, a.loc, a.newLoc); }
    StepLogs(s, a);
    TouchedOwnAppend(s, Step(s, a), a.t, Logged(s, a).value, k);
  }

  lemma TouchedKept(s: Store, a: Action, u: Cid, k: TupleId)
    requires Inv(s) && LogInv(s) && Enabled(s, a) && HasHistory(Step(s, a), u)
    ensures TouchedOk(Step(s, a), u, k)
  {
    StepLogs(s, a);
    if u != a.t {
      if IsActive(s, u) {
        TouchedByOther(s, a, u, k);
      } else {
        StepEvolves(s, a);
        TouchedByCommitted(s, Step(s, a), u, k);
      }
    } else if a.Commit? {
      TouchedCommit(s, a.t, k);
    } else if a.Insert? || a.Update? || a.Delete? {
      TouchedByNew(s, a, k);
    } else if !a.Begin? {
      TouchedInPlace(s, a, k);
    }
  }

  lemma EffectKept(s: Store, a: Action, l: Loc)
    requires Inv(s) && LogInv(s) && Enabled(s, a) && l in Step(s, a).slots
    ensures SlotEffectOk(Step(s, a), l)
  {
    match a
    case Begin(t) => assert SlotEffectOk(s, l) && SlotOk(s, l);
    case Read(t, loc) => EffectRead(s, Step(s, a), t, loc, l);
    case ReadForUpdate(t, loc) => EffectRead(s, Step(s, a), t, loc, l);
    case Insert(t, loc, k, v) => EffectInsert(s, t, loc, k, v, l);
    case Update(t, loc, newLoc, v) => EffectReplace(s, Step(s, a), t, loc, newLoc, v, Logged(s, a).value, l);
    case Delete(t, loc, newLoc) => EffectReplace(s, Step(s, a), t, loc, newLoc, 0, Logged(s, a).value, l);
    case Overwrite(t, loc, v) => EffectOwn(s, Step(s, a), t, loc, v, Logged(s, a).value, l);
    case DeleteOwn(t, loc) => EffectOwn(s, Step(s, a), t, loc, 0, Logged(s, a).value, l);
    case Commit(t) => EffectCommit(s, t, l);
    case Abort(t) => EffectAbort(s, t, l);
  }

  lemma NewOpOk(s: Store, a: Action)
    requires Inv(s) && LogInv(s) && Enabled(s, a) && Logged(s, a).Some?
    ensures |Step(s, a).txns[a.t].log| == |s.txns[a.t].log| + 1 && OpOk(Step(s, a), a.t, |s.txns[a.t].log|)
  {
    match a
    case Read(t, loc) => NewOpRead(s, Step(s, a), t, loc);
    case ReadForUpdate(t, loc) => NewOpRead(s, Step(s, a), t, loc);
    case Insert(t, loc, k, v) => NewOpInsert(s, t, loc, k, v);
    case Update(t, loc, newLoc, v) => NewOpReplace(s, Step(s, a), t, loc, newLoc, v);
    case Delete(t, loc, newLoc) => NewOpReplace(s, Step(s, a), t, loc, newLoc, 0);
    case Overwrite(t, loc, v) => NewOpOwn(s, Step(s, a), t, loc, v);
    case DeleteOwn(t, loc) => NewOpOwn(s, Step(s, a), t, loc, 0);
  }

  lemma OpKept(s: Store, a: Action, u: Cid, i: nat)
    requires Inv(s) && LogInv(s) && Enabled(s, a)
    requires HasHistory(Step(s, a), u) && i < |Step(s, a).txns[u].log|
    ensures OpOk(Step(s, a), u, i)
  {
    StepLogs(s, a);
    if u in s.txns && i < |s.txns[u].log| {
      assert OpOk(s, u, i);
      StepEvolves(s, a);
      OldOpKept(s, Step(s, a), u, i);
    } else {
      NewOpOk(s, a);
    }
  }

  lemma StepKeepsLog(s: Store, a: Action)
    requires Inv(s) && LogInv(s) && Enabled(s, a)
    ensures LogInv(Step(s, a))
  {
    var s' := Step(s, a);
    forall u, i: nat | HasHistory(s', u) && i < |s'.txns[u].log| ensures OpOk(s', u, i) { OpKept(s, a, u, i); }
    forall l | l in s'.slots ensures SlotEffectOk(s', l) { EffectKept(s, a, l); }
    forall u, k | HasHistory(s', u) ensures TouchedOk(s', u, k) { TouchedKept(s, a, u, k); }
  }
}
