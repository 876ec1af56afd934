/** Every run is equivalent to a serial one. */
module Serializability {
  import opened Base
  import opened Mvto
  import opened MvtoInvariant
  import opened MvtoHistory

  // The committed transactions, run one at a time in commit-id order on a store that keeps a single value per tuple,
  // give the same answers and the same database.

  // ----- The reference: a single-version database -----

  type Db = map<TupleId, Value>

  /** One operation, refused when it does not fit the database or did not return this value. */
  function Apply(db: Db, op: Op): Option<Db> {
    match op
    case Got(k, v, _) => if k in db && db[k] == v then Some(db) else None
    case Wrote(k, v, _) => if k in db then Some(db[k := v]) else None
    case Inserted(k, v, _) => if k !in db then Some(db[k := v]) else None
    case Deleted(k, _) => if k in db then Some(db - {k}) else None
  }

  function Replay(db: Db, ops: seq<Op>): Option<Db> {
    if ops == [] then Some(db)
    else
      var rest := Replay(db, ops[..|ops| - 1]);
      if rest == None then None else Apply(rest.value, ops[|ops| - 1])
  }

  /** The transactions of `order`, whole and one after the other. */
  function SerialRun(s: Store, db: Db, order: seq<Cid>): Option<Db>
    requires forall t :: t in order ==> t in s.txns
  {
    if order == [] then Some(db)
    else
      var before := SerialRun(s, db, order[..|order| - 1]);
      if before == None then None else Replay(before.value, s.txns[order[|order| - 1]].log)
  }

  ghost predicate CommitOrder(s: Store, order: seq<Cid>) {
    && (forall i, j :: 0 <= i < j < |order| ==> order[i] < order[j])
    && (forall t :: t in order <==> IsCommitted(s, t))
  }

  // ----- What the version slots say the database was just before `t` -----

  predicate At(s: Store, l: Loc, k: TupleId, t: Cid) {
    && l in s.slots
    && var x := s.slots[l];
       x.tuple == k && x.begin < t <= x.end && x.begin != MAX_CID && x.txnId != INVALID_TXN_ID
  }

  ghost function Snapshot(s: Store, t: Cid): Db {
    map k | k in s.index && exists l :: At(s, l, k, t) :: var l :| At(s, l, k, t); s.slots[l].value
  }

  lemma SnapshotAt(s: Store, l: Loc, k: TupleId, t: Cid)
    requires Inv(s) && At(s, l, k, t)
    ensures k in Snapshot(s, t) && Snapshot(s, t)[k] == s.slots[l].value
  {
    assert SlotOk(s, l);
    forall m | At(s, m, k, t) ensures m == l {
      assert PairOk(s, l, m);
    }
  }

  /** The value transaction `t` must read for `k` after the calls in `log`: its own last effect, or else the value in
      the database below its id. */
  ghost function Expected(s: Store, t: Cid, log: seq<Op>, k: TupleId): Option<Value> {
    match EffectOn(log, k)
    case Present(v) => Some(v)
    case Gone => None
    case Untouched => var db := Snapshot(s, t); if k in db then Some(db[k]) else None
  }

  /** `db` is `start` with the effects of `log` laid over it. */
  predicate AgreesAt(start: Db, log: seq<Op>, db: Db, k: TupleId) {
    match EffectOn(log, k)
    case Untouched => if k in start then k in db && db[k] == start[k] else k !in db
    case Present(v) => k in db && db[k] == v
    case Gone => k !in db
  }

  ghost predicate Agrees(start: Db, log: seq<Op>, db: Db) {
    forall k {:trigger AgreesAt(start, log, db, k)} :: AgreesAt(start, log, db, k)
  }

  lemma AgreesUnique(start: Db, log: seq<Op>, db: Db, db': Db)
    requires Agrees(start, log, db) && Agrees(start, log, db')
    ensures db == db'
  {
    forall k: TupleId ensures k in db <==> k in db' ensures k in db ==> db[k] == db'[k] {
      assert AgreesAt(start, log, db, k) && AgreesAt(start, log, db', k);
    }
  }

  // ----- Steps that leave it alone -----

  lemma AtKeptByWrite(u: Store, a: Action, t: Cid, l: Loc, k: TupleId)
    requires Inv(u) && Enabled(u, a) && t <= a.t && (a.Update? || a.Delete?)
    ensures At(Step(u, a), l, k, t) <==> At(u, l, k, t)
    ensures At(u, l, k, t) ==> Step(u, a).slots[l].value == u.slots[l].value
  {
    if l in u.slots { assert SlotOk(u, l); }
    assert EntryOk(u, a.t, a.loc) && SlotOk(u, a.loc);
  }

  /** Transactions with ids from `t` on do not change the database below `t`. */
  lemma AtKept(u: Store, a: Action, t: Cid, l: Loc, k: TupleId)
    requires Inv(u) && Enabled(u, a) && t <= a.t
    ensures At(Step(u, a), l, k, t) <==> At(u, l, k, t)
    ensures At(u, l, k, t) ==> Step(u, a).slots[l].value == u.slots[l].value
  {
    if a.Update? || a.Delete? {
      AtKeptByWrite(u, a, t, l, k);
    } else if l in u.slots {
      assert SlotOk(u, l);
    }
  }

  lemma SnapshotKept(u: Store, a: Action, t: Cid, k: TupleId)
    requires Inv(u) && Enabled(u, a) && t <= a.t
    ensures k in Snapshot(Step(u, a), t) <==> k in Snapshot(u, t)
    ensures k in Snapshot(u, t) ==> Snapshot(Step(u, a), t)[k] == Snapshot(u, t)[k]
  {
    StepKeeps(u, a);
    if k in Snapshot(u, t) {
      var l :| At(u, l, k, t);
      AtKept(u, a, t, l, k);
      SnapshotAt(u, l, k, t);
      SnapshotAt(Step(u, a), l, k, t);
    } else if k in Snapshot(Step(u, a), t) {
      var l :| At(Step(u, a), l, k, t);
      AtKept(u, a, t, l, k);
      SnapshotAt(u, l, k, t);
    }
  }

  // ----- One transaction -----

  lemma ApplyOk(s: Store, t: Cid, i: nat, db: Db)
    requires Inv(s) && LogInv(s) && IsCommitted(s, t) && i < |s.txns[t].log|
    requires Agrees(Snapshot(s, t), s.txns[t].log[..i], db)
    ensures Apply(db, s.txns[t].log[i]).Some?
  {
    var op := s.txns[t].log[i];
    assert OpOk(s, t, i);
    assert AgreesAt(Snapshot(s, t), s.txns[t].log[..i], db, op.tuple);
    if Covers(s, op.at, op.tuple, t) { SnapshotAt(s, op.at, op.tuple, t); }
  }

  lemma ApplyAgrees(start: Db, log: seq<Op>, db: Db, op: Op)
    requires Agrees(start, log, db) && Apply(db, op).Some?
    ensures Agrees(start, log + [op], Apply(db, op).value)
  {
    forall k ensures AgreesAt(start, log + [op], Apply(db, op).value, k) {
      assert AgreesAt(start, log, db, k);
      EffectAppend(log, op, k);
    }
  }

  lemma {:induction false} ReplayOk(s: Store, t: Cid, i: nat) returns (db: Db)
    requires Inv(s) && LogInv(s) && IsCommitted(s, t) && i <= |s.txns[t].log|
    ensures Replay(Snapshot(s, t), s.txns[t].log[..i]) == Some(db)
    ensures Agrees(Snapshot(s, t), s.txns[t].log[..i], db)
  {
    var start, log := Snapshot(s, t), s.txns[t].log;
    if i == 0 {
      db := start;
      assert forall k :: AgreesAt(start, log[..0], db, k);
    } else {
      var mid := ReplayOk(s, t, i - 1);
      ApplyOk(s, t, i - 1, mid);
      ApplyAgrees(start, log[..i - 1], mid, log[i - 1]);
      assert log[..i] == log[..i - 1] + [log[i - 1]];
      assert log[..i][..i - 1] == log[..i - 1];
      db := Apply(mid, log[i - 1]).value;
    }
  }

  // ----- From one transaction to the next -----

  ghost predicate NoneBetween(s: Store, t: Cid, t': Cid) {
    t < t' <= MAX_CID && forall u :: IsCommitted(s, u) && t < u ==> t' <= u
  }

  lemma EndsAfter(s: Store, t: Cid, t': Cid, l: Loc)
    requires Inv(s) && LogInv(s) && IsCommitted(s, t) && NoneBetween(s, t, t') && l in s.slots
    requires s.slots[l].begin != MAX_CID && t < s.slots[l].end
    ensures t' <= s.slots[l].end
  {
    assert SlotOk(s, l);
  }

  /** A version that ends at `t` was replaced by `t`. */
  lemma EndedBy(s: Store, t: Cid, l: Loc)
    requires Inv(s) && LogInv(s) && l in s.slots && s.slots[l].begin < s.slots[l].end == t < MAX_CID
    ensures t in s.txns && EffectOn(s.txns[t].log, s.slots[l].tuple) != Untouched
  {
    assert SlotOk(s, l);
    assert SlotEffectOk(s, s.slots[l].prev.value);
  }

  lemma NextUntouched(s: Store, t: Cid, t': Cid, l: Loc, k: TupleId)
    requires Inv(s) && LogInv(s) && IsCommitted(s, t) && NoneBetween(s, t, t')
    requires EffectOn(s.txns[t].log, k) == Untouched
    ensures At(s, l, k, t) <==> At(s, l, k, t')
  {
    if At(s, l, k, t) {
      if s.slots[l].end != t { EndsAfter(s, t, t', l); } else { EndedBy(s, t, l); }
    }
    if At(s, l, k, t') {
      assert SlotOk(s, l) && SlotEffectOk(s, l);
    }
  }

  lemma NextPresent(s: Store, t: Cid, t': Cid, k: TupleId)
    requires Inv(s) && LogInv(s) && IsCommitted(s, t) && NoneBetween(s, t, t')
    requires EffectOn(s.txns[t].log, k).Present?
    ensures k in Snapshot(s, t') && Snapshot(s, t')[k] == EffectOn(s.txns[t].log, k).value
  {
    assert TouchedOk(s, t, k);
    var l :| l in s.slots && s.slots[l].tuple == k && s.slots[l].begin == t;
    assert SlotOk(s, l) && SlotEffectOk(s, l);
    EndsAfter(s, t, t', l);
    SnapshotAt(s, l, k, t');
  }

  lemma NextGone(s: Store, t: Cid, t': Cid, k: TupleId, l: Loc)
    requires Inv(s) && LogInv(s) && IsCommitted(s, t) && NoneBetween(s, t, t')
    requires EffectOn(s.txns[t].log, k) == Gone
    ensures !At(s, l, k, t')
  {
    assert TouchedOk(s, t, k);
    if l in s.slots && s.slots[l].begin != MAX_CID && s.slots[l].tuple == k {
      assert SlotOk(s, l) && SlotEffectOk(s, l);
      var n :| n in s.slots && s.slots[n].tuple == k && s.slots[n].begin == t;
      assert SlotOk(s, n) && PairOk(s, l, n);
    }
  }

  lemma NextSnapshot(s: Store, t: Cid, t': Cid)
    requires Inv(s) && LogInv(s) && IsCommitted(s, t) && NoneBetween(s, t, t')
    ensures Agrees(Snapshot(s, t), s.txns[t].log, Snapshot(s, t'))
  {
    forall k ensures AgreesAt(Snapshot(s, t), s.txns[t].log, Snapshot(s, t'), k) {
      match EffectOn(s.txns[t].log, k) {
        case Untouched =>
          forall l ensures At(s, l, k, t) <==> At(s, l, k, t') { NextUntouched(s, t, t', l, k); }
          if l :| At(s, l, k, t) {
            SnapshotAt(s, l, k, t);
            SnapshotAt(s, l, k, t');
          }
        case Present(_) => NextPresent(s, t, t', k);
        case Gone => forall l ensures !At(s, l, k, t') { NextGone(s, t, t', k, l); }
      }
    }
  }

  /** One whole transaction takes the database from its own snapshot to the next one. */
  lemma TransactionReplays(s: Store, t: Cid, t': Cid)
    requires Inv(s) && LogInv(s) && IsCommitted(s, t) && NoneBetween(s, t, t')
    ensures Replay(Snapshot(s, t), s.txns[t].log) == Some(Snapshot(s, t'))
  {
    var log := s.txns[t].log;
    var db := ReplayOk(s, t, |log|);
    assert log[..|log|] == log;
    NextSnapshot(s, t, t');
    AgreesUnique(Snapshot(s, t), log, db, Snapshot(s, t'));
  }

  // ----- All of them -----

  /** `t` comes after the first `i` transactions and not after the rest. */
  ghost predicate Splits(order: seq<Cid>, i: nat, t: Cid) {
    i <= |order| && t <= MAX_CID &&
    forall j :: 0 <= j < |order| ==> (if j < i then order[j] < t else t <= order[j])
  }

  lemma LastBefore(s: Store, order: seq<Cid>, i: nat, t: Cid)
    requires CommitOrder(s, order) && Splits(order, i, t)
    ensures i == 0 ==> forall u :: IsCommitted(s, u) ==> t <= u
    ensures i > 0 ==> IsCommitted(s, order[i - 1]) && NoneBetween(s, order[i - 1], t)
    ensures i > 0 ==> Splits(order, i - 1, order[i - 1])
  {
    forall u: Cid | IsCommitted(s, u) && (i > 0 ==> order[i - 1] < u) ensures t <= u {
      var j :| 0 <= j < |order| && order[j] == u;
    }
    if i > 0 { assert order[i - 1] in order; }
  }

  /** The first `i` transactions, run serially, lead to the snapshot of any id after them and not after the rest. */
  lemma {:induction false} SerialPrefix(s: Store, order: seq<Cid>, i: nat, t: Cid)
    requires Inv(s) && LogInv(s) && CommitOrder(s, order) && Splits(order, i, t)
    ensures forall u :: u in order[..i] ==> u in s.txns
    ensures SerialRun(s, map[], order[..i]) == Some(Snapshot(s, t))
  {
    LastBefore(s, order, i, t);
    if i == 0 {
      SnapshotStart(s, t);
    } else {
      SerialPrefix(s, order, i - 1, order[i - 1]);
      TransactionReplays(s, order[i - 1], t);
      assert order[..i][..i - 1] == order[..i - 1];
    }
  }

  lemma SnapshotStart(s: Store, t: Cid)
    requires Inv(s) && forall u :: IsCommitted(s, u) ==> t <= u
    ensures Snapshot(s, t) == map[]
  {
    forall l, k | l in s.slots && s.slots[l].begin != MAX_CID ensures !At(s, l, k, t) {
      assert SlotOk(s, l);
    }
  }

  lemma InvariantsHold(s: Store, actions: seq<Action>)
    requires Inv(s) && LogInv(s) && Run(s, actions).Some?
    ensures Inv(Run(s, actions).value) && LogInv(Run(s, actions).value)
    decreases |actions|
  {
    if actions != [] {
      StepKeeps(s, actions[0]);
      StepKeepsLog(s, actions[0]);
      InvariantsHold(Step(s, actions[0]), actions[1..]);
    }
  }

  /** In every reachable state the committed transactions, taken in commit-id order, could have produced
      every value they read and every tuple they wrote by running serially, and they lead to exactly the
      versions that are current. */
  lemma Serializable(actions: seq<Action>, s: Store, order: seq<Cid>)
    requires Run(EMPTY_STORE, actions) == Some(s)
    requires CommitOrder(s, order)
    ensures forall t :: t in order ==> t in s.txns
    ensures SerialRun(s, map[], order) == Some(Snapshot(s, MAX_CID))
  {
    InvariantsHold(EMPTY_STORE, actions);
    forall j | 0 <= j < |order| ensures order[j] < MAX_CID {
      assert order[j] in order;
    }
    SerialPrefix(s, order, |order|, MAX_CID);
    assert order[..|order|] == order;
  }

  /** `l` is the version of `k` that a read-only transaction with read id `r` finds. */
  predicate Shows(s: Store, l: Loc, k: TupleId, r: Cid) {
    l in s.slots && s.slots[l].tuple == k && s.slots[l].begin <= r < s.slots[l].end &&
    s.slots[l].txnId != INVALID_TXN_ID
  }

  /** What a reader at `r` finds: each version holds the value its tuple has after exactly the committed
      transactions with ids up to `r` have run serially, and each tuple then present has a version. */
  lemma ShownIsSerial(s: Store, order: seq<Cid>, i: nat, r: Cid, k: TupleId)
    requires Inv(s) && LogInv(s) && CommitOrder(s, order) && i <= |order| && r < MAX_CID
    requires forall j :: 0 <= j < |order| ==> (if j < i then order[j] <= r else r < order[j])
    ensures forall u :: u in order[..i] ==> u in s.txns
    ensures SerialRun(s, map[], order[..i]).Some?
    ensures var db := SerialRun(s, map[], order[..i]).value;
            && (forall l :: Shows(s, l, k, r) ==> k in db && db[k] == s.slots[l].value)
            && (k in db ==> exists l :: Shows(s, l, k, r))
  {
    var t := r + 1;
    SerialPrefix(s, order, i, t);
    forall l | Shows(s, l, k, r) ensures k in Snapshot(s, t) && Snapshot(s, t)[k] == s.slots[l].value {
      SnapshotAt(s, l, k, t);
    }
    if k in Snapshot(s, t) {
      var l :| At(s, l, k, t);
      assert Shows(s, l, k, r);
    }
  }

  /** A version reported as deleted stands for a tuple that is gone: the transaction deleted it itself, or it is not
      in the database the transaction reads from. */
  lemma DeletedMeansGone(s: Store, t: Cid, l: Loc)
    requires Inv(s) && LogInv(s) && IsActive(s, t) && l in s.slots
    requires IsVisible(s.slots[l], t, t, RwOf(s.txns[t].rw, l)) == DELETED
    ensures EffectOn(s.txns[t].log, s.slots[l].tuple) == Gone || s.slots[l].tuple !in Snapshot(s, t)
  {
    assert SlotOk(s, l) && SlotEffectOk(s, l);
    var x := s.slots[l];
    if x.txnId == INVALID_TXN_ID {
      forall m ensures !At(s, m, x.tuple, t) {
        if m in s.slots { assert PairOk(s, l, m) && SlotOk(s, m); }
      }
    }
  }
}
