/** When scans in two loops are harmless. */
module RaceTheorems {
  import opened Base
  import opened Mvto
  import opened MvtoInvariant
  import opened MvtoEvolution
  import opened MvtoHistory
  import opened Serializability
  import opened ReadRace

  // ----- When there is a serial run -----

  /** The i-th entry in the log of `t` is a read of the expected value. */
  ghost predicate ReadRight(s: Store, t: Cid, i: nat) {
    StaleOk(s, t, i) &&
    var log := s.txns[t].log;
    Expected(s, t, log[..i], log[i].tuple) == Some(log[i].value)
  }

  /** The first `n` log entries of `t` hold no stale read of a wrong value. */
  ghost predicate RightUpTo(r: Race, t: Cid, n: nat) {
    forall i {:trigger ReadRight(r.s, t, i)} :: 0 <= i < n && (t, i) in r.stale ==> ReadRight(r.s, t, i)
  }

  lemma {:induction false} FreshEffect(stale: set<(Cid, nat)>, t: Cid, log: seq<Op>, k: TupleId)
    requires forall i :: 0 <= i < |log| && (t, i) in stale ==> log[i].Got?
    ensures EffectOn(Fresh(stale, t, log), k) == EffectOn(log, k)
  {
    if log != [] {
      var m := |log| - 1;
      FreshEffect(stale, t, log[..m], k);
      EffectAppend(Fresh(stale, t, log[..m]), log[m], k);
      assert Fresh(stale, t, log[..m]) + [] == Fresh(stale, t, log[..m]);
    }
  }

  lemma {:induction false} FreshPrefix(stale: set<(Cid, nat)>, t: Cid, log: seq<Op>, n: nat)
    requires n <= |log|
    ensures Fresh(stale, t, log[..n]) <= Fresh(stale, t, log)
  {
    if n < |log| {
      var m := |log| - 1;
      FreshPrefix(stale, t, log[..m], n);
      assert log[..m][..n] == log[..n];
    } else {
      assert log[..n] == log;
    }
  }

  lemma SnapshotShadow(r: Race, u: Store, t: Cid, k: TupleId)
    requires Shadow(r, u)
    ensures k in Snapshot(r.s, t) <==> k in Snapshot(u, t)
    ensures k in Snapshot(u, t) ==> Snapshot(r.s, t)[k] == Snapshot(u, t)[k]
  {
    forall l ensures At(r.s, l, k, t) <==> At(u, l, k, t) {
      if l in u.slots { assert SlotShadow(r.s, u, l); }
    }
    if k in Snapshot(r.s, t) {
      var l :| At(r.s, l, k, t) && Snapshot(r.s, t)[k] == r.s.slots[l].value;
      SnapshotAt(u, l, k, t);
      assert SlotShadow(r.s, u, l);
    }
  }

  /** The log without the first stale reads replays up to any point. */
  lemma FreshReplays(r: Race, u: Store, t: Cid, n: nat) returns (db: Db)
    requires Shadow(r, u) && IsCommitted(u, t) && n <= |r.s.txns[t].log|
    ensures var part := Fresh(r.stale, t, r.s.txns[t].log[..n]);
            Replay(Snapshot(u, t), part) == Some(db) && Agrees(Snapshot(u, t), part, db)
  {
    var log := r.s.txns[t].log;
    var part := Fresh(r.stale, t, log[..n]);
    assert TxnShadow(r, u, t);
    FreshPrefix(r.stale, t, log, n);
    db := ReplayOk(u, t, |part|);
    assert u.txns[t].log[..|part|] == part;
  }

  /** A stale read fits the replay exactly when its value is the expected one. */
  lemma StaleFitsIff(r: Race, u: Store, t: Cid, i: nat, db: Db)
    requires Shadow(r, u) && IsCommitted(u, t) && (t, i) in r.stale
    requires StaleOk(r.s, t, i) && Agrees(Snapshot(u, t), Fresh(r.stale, t, r.s.txns[t].log[..i]), db)
    ensures Apply(db, r.s.txns[t].log[i]) == if ReadRight(r.s, t, i) then Some(db) else None
  {
    var log := r.s.txns[t].log;
    var k := log[i].tuple;
    forall j | 0 <= j < i && (t, j) in r.stale ensures log[..i][j].Got? { assert StaleOk(r.s, t, j); }
    FreshEffect(r.stale, t, log[..i], k);
    SnapshotShadow(r, u, t, k);
    assert AgreesAt(Snapshot(u, t), Fresh(r.stale, t, log[..i]), db, k);
  }

  lemma {:induction false} ReplayWithStale(r: Race, u: Store, t: Cid, n: nat)
    requires Shadow(r, u) && IsCommitted(u, t) && n <= |r.s.txns[t].log|
    ensures var start, log := Snapshot(u, t), r.s.txns[t].log[..n];
            Replay(start, log) == if RightUpTo(r, t, n) then Replay(start, Fresh(r.stale, t, log)) else None
  {
    if n > 0 {
      var start, log, m := Snapshot(u, t), r.s.txns[t].log, n - 1;
      ReplayWithStale(r, u, t, m);
      assert log[..n][..m] == log[..m] && log[..n] == log[..m] + [log[m]];
      var db := FreshReplays(r, u, t, m);
      FreshStep(r.stale, t, log[..m], log[m]);
      RightStep(r, t, m);
      var part := Fresh(r.stale, t, log[..m]);
      if (t, m) in r.stale {
        assert StaleOk(r.s, t, m);
        StaleFitsIff(r, u, t, m, db);
        assert part + [] == part;
      } else {
        assert (part + [log[m]])[..|part|] == part;
      }
    }
  }

  lemma RightStep(r: Race, t: Cid, m: nat)
    ensures RightUpTo(r, t, m + 1) <==> RightUpTo(r, t, m) && ((t, m) in r.stale ==> ReadRight(r.s, t, m))
  {
    if RightUpTo(r, t, m + 1) && (t, m) in r.stale { assert ReadRight(r.s, t, m); }
  }

  /** No committed transaction of the order holds a stale read of a wrong value. */
  ghost predicate OrderRight(r: Race, order: seq<Cid>)
    requires forall t :: t in order ==> t in r.s.txns
  {
    forall j :: 0 <= j < |order| ==> RightUpTo(r, order[j], |r.s.txns[order[j]].log|)
  }

  lemma OrderRightStep(r: Race, order: seq<Cid>, m: nat)
    requires m < |order| && forall t :: t in order ==> t in r.s.txns
    ensures OrderRight(r, order[..m + 1]) <==>
            OrderRight(r, order[..m]) && RightUpTo(r, order[m], |r.s.txns[order[m]].log|)
  {
    var longer := order[..m + 1];
    assert longer[m] == order[m] && forall j :: 0 <= j < m ==> longer[j] == order[..m][j];
  }

  /** Where the transaction stands in the order, it replays unless a stale read is wrong. */
  lemma ReplayInOrder(r: Race, u: Store, order: seq<Cid>, m: nat)
    requires Shadow(r, u) && CommitOrder(u, order) && m < |order|
    ensures order[m] in r.s.txns && order[m] in u.txns && forall t :: t in order[..m] ==> t in u.txns
    ensures SerialRun(u, map[], order[..m]).Some?
    ensures var db, t := SerialRun(u, map[], order[..m]).value, order[m];
            Replay(db, r.s.txns[t].log) ==
            if RightUpTo(r, t, |r.s.txns[t].log|) then Replay(db, u.txns[t].log) else None
  {
    var t := order[m];
    assert t in order;
    SerialPrefix(u, order, m, t);
    var log := r.s.txns[t].log;
    ReplayWithStale(r, u, t, |log|);
    assert log[..|log|] == log && TxnShadow(r, u, t);
  }

  lemma SerialStep(s: Store, order: seq<Cid>, m: nat)
    requires m < |order| && forall t :: t in order ==> t in s.txns
    ensures SerialRun(s, map[], order[..m + 1]) ==
            var before := SerialRun(s, map[], order[..m]);
            if before == None then None else Replay(before.value, s.txns[order[m]].log)
  {
    assert order[..m + 1][..m] == order[..m];
  }

  lemma {:induction false} SerialWithStale(r: Race, u: Store, order: seq<Cid>, i: nat)
    requires Shadow(r, u) && CommitOrder(u, order) && i <= |order|
    ensures forall t :: t in order ==> t in r.s.txns && t in u.txns
    ensures SerialRun(r.s, map[], order[..i]) ==
            if OrderRight(r, order[..i]) then SerialRun(u, map[], order[..i]) else None
  {
    if i > 0 {
      var m := i - 1;
      SerialWithStale(r, u, order, m);
      OrderRightStep(r, order, m);
      ReplayInOrder(r, u, order, m);
      SerialStep(r.s, order, m);
      SerialStep(u, order, m);
    }
  }

  /** Every stale read of a committed transaction returned the value that the transaction had to read. */
  ghost predicate StaleReadsRight(r: Race) {
    forall t, i {:trigger ReadRight(r.s, t, i)} :: (t, i) in r.stale && IsCommitted(r.s, t) ==> ReadRight(r.s, t, i)
  }

  lemma ShadowSerial(r: Race, u: Store, order: seq<Cid>)
    requires Shadow(r, u) && CommitOrder(u, order)
    ensures forall t :: t in order ==> t in r.s.txns
    ensures SerialRun(r.s, map[], order).Some? <==> StaleReadsRight(r)
    ensures SerialRun(r.s, map[], order).Some? ==> SerialRun(r.s, map[], order) == Some(Snapshot(u, MAX_CID))
  {
    forall j | 0 <= j < |order| ensures order[j] < MAX_CID { assert order[j] in order; }
    SerialPrefix(u, order, |order|, MAX_CID);
    SerialWithStale(r, u, order, |order|);
    assert order[..|order|] == order;
    OrderRightIff(r, u, order);
  }

  lemma OrderRightIff(r: Race, u: Store, order: seq<Cid>)
    requires Shadow(r, u) && CommitOrder(u, order) && forall t :: t in order ==> t in r.s.txns
    ensures OrderRight(r, order) <==> StaleReadsRight(r)
  {
    forall t | t in u.txns ensures IsCommitted(r.s, t) <==> IsCommitted(u, t) { assert TxnShadow(r, u, t); }
    if OrderRight(r, order) {
      forall t, i | (t, i) in r.stale && IsCommitted(r.s, t) ensures ReadRight(r.s, t, i) {
        assert StaleOk(r.s, t, i) && t in order;
        var j :| 0 <= j < |order| && order[j] == t;
        assert RightUpTo(r, order[j], |r.s.txns[order[j]].log|);
      }
    }
    if StaleReadsRight(r) {
      forall j | 0 <= j < |order| ensures RightUpTo(r, order[j], |r.s.txns[order[j]].log|) {
        assert order[j] in order;
      }
    }
  }

  /** Any transactions scan in two loops, any number of times, between any other calls.  Then the committed ones have a
      serial run in commit-id order if and only if each of their stale reads, and these alone, returned the value that
      the transaction had to read; and it ends in the current versions. */
  lemma RaceSerialIff(s: Store, actions: seq<RaceAction>, r: Race, order: seq<Cid>)
    requires Inv(s) && LogInv(s) && RaceRun(Race(s, {}, {}), actions) == Some(r) && CommitOrder(r.s, order)
    ensures forall t :: t in order ==> t in r.s.txns
    ensures SerialRun(r.s, map[], order).Some? <==> StaleReadsRight(r)
    ensures SerialRun(r.s, map[], order).Some? ==> SerialRun(r.s, map[], order) == Some(Snapshot(r.s, MAX_CID))
  {
    NoRaceYet(s);
    var u := RaceRunShadow(Race(s, {}, {}), s, actions);
    assert CommitOrder(u, order) by {
      forall t ensures IsCommitted(r.s, t) <==> IsCommitted(u, t) { if t in u.txns { assert TxnShadow(r, u, t); } }
    }
    ShadowSerial(r, u, order);
    assert Snapshot(r.s, MAX_CID) == Snapshot(u, MAX_CID) by {
      forall k: TupleId
        ensures k in Snapshot(r.s, MAX_CID) <==> k in Snapshot(u, MAX_CID)
        ensures k in Snapshot(u, MAX_CID) ==> Snapshot(r.s, MAX_CID)[k] == Snapshot(u, MAX_CID)[k]
      {
        SnapshotShadow(r, u, MAX_CID, k);
      }
    }
  }

  /** A version that still passes the visibility test holds the expected value, so such reads need no check. */
  lemma StillVisibleIsExpected(s: Store, t: Cid, loc: Loc)
    requires Inv(s) && LogInv(s) && CanReadLate(s, t, loc) && SeesVersion(s, t, loc)
    ensures Expected(s, t, s.txns[t].log, s.slots[loc].tuple) == Some(s.slots[loc].value)
  {
    var s' := Step(s, Read(t, loc));
    var x, log := s.slots[loc], s.txns[t].log;
    StepKeepsLog(s, Read(t, loc));
    assert s'.txns[t].log[..|log|] == log;
    assert OpOk(s', t, |log|);
    if EffectOn(log, x.tuple) == Untouched {
      assert SlotOk(s, loc);
      SnapshotAt(s, loc, x.tuple, t);
    }
  }

  // ----- When it can be decided -----

  function Actor(b: RaceAction): Cid {
    if b.Plain? then b.a.t else b.t
  }

  lemma RaceLogGrows(r: Race, b: RaceAction, t: Cid)
    requires RaceEnabled(r, b) && t in r.s.txns
    ensures t in RaceStep(r, b).s.txns && r.s.txns[t].log <= RaceStep(r, b).s.txns[t].log
  {
    if b.Plain? {
      StepTxns(r.s, b.a);
      if b.a.t == t { LogGrows(r.s, b.a); }
    }
  }

  lemma DbKept(r: Race, u: Store, b: RaceAction, t: Cid, k: TupleId)
    requires Shadow(r, u) && RaceEnabled(r, b) && t <= Actor(b)
    ensures SameAt(Snapshot(r.s, t), Snapshot(RaceStep(r, b).s, t), k)
  {
    var m := Matched(r, b);
    RaceStepShadow(r, u, b);
    SnapshotShadow(r, u, t, k);
    SnapshotShadow(RaceStep(r, b), After(u, m), t, k);
    if m.Some? { SnapshotKept(u, m.value, t, k); }
  }

  predicate SameAt(db: Db, db': Db, k: TupleId) {
    (k in db <==> k in db') && (k in db ==> db[k] == db'[k])
  }

  lemma RightSame(s: Store, s': Store, t: Cid, i: nat)
    requires StaleOk(s, t, i) && t in s'.txns && s.txns[t].log <= s'.txns[t].log
    requires SameAt(Snapshot(s, t), Snapshot(s', t), s.txns[t].log[i].tuple)
    ensures ReadRight(s', t, i) <==> ReadRight(s, t, i)
  {
    assert s'.txns[t].log[..i] == s.txns[t].log[..i] && s'.txns[t].log[i] == s.txns[t].log[i];
  }

  lemma RightKept(r: Race, u: Store, b: RaceAction, t: Cid, i: nat)
    requires Shadow(r, u) && RaceEnabled(r, b) && t <= Actor(b) && StaleOk(r.s, t, i)
    ensures ReadRight(RaceStep(r, b).s, t, i) <==> ReadRight(r.s, t, i)
  {
    RaceLogGrows(r, b, t);
    DbKept(r, u, b, t, r.s.txns[t].log[i].tuple);
    RightSame(r.s, RaceStep(r, b).s, t, i);
  }

  lemma RightKeptRun(r: Race, u: Store, actions: seq<RaceAction>, t: Cid, i: nat)
    requires Shadow(r, u) && RaceRun(r, actions).Some? && StaleOk(r.s, t, i)
    requires forall j :: 0 <= j < |actions| ==> t <= Actor(actions[j])
    ensures ReadRight(RaceRun(r, actions).value.s, t, i) <==> ReadRight(r.s, t, i)
    decreases |actions|
  {
    if actions != [] {
      assert t <= Actor(actions[0]);
      RightKept(r, u, actions[0], t, i);
      RaceStepShadow(r, u, actions[0]);
      RaceLogGrows(r, actions[0], t);
      RightKeptRun(RaceStep(r, actions[0]), After(u, Matched(r, actions[0])), actions[1..], t, i);
    }
  }

  /** Whether a stale read was right is settled once no transaction with a smaller id makes a call any more. */
  lemma RightSettles(s: Store, actions: seq<RaceAction>, r: Race, more: seq<RaceAction>, r': Race, t: Cid, i: nat)
    requires Inv(s) && LogInv(s) && RaceRun(Race(s, {}, {}), actions) == Some(r) && (t, i) in r.stale
    requires RaceRun(r, more) == Some(r') && forall j :: 0 <= j < |more| ==> t <= Actor(more[j])
    ensures ReadRight(r'.s, t, i) <==> ReadRight(r.s, t, i)
  {
    NoRaceYet(s);
    var u := RaceRunShadow(Race(s, {}, {}), s, actions);
    assert StaleOk(r.s, t, i);
    RightKeptRun(r, u, more, t, i);
  }
}
