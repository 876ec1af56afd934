/** A scan in two loops that has no serial order. */
module RaceExample {
  import opened Base
  import opened Mvto
  import opened Serializability
  import opened ReadRace
  import opened RaceTheorems

  const SETUP := [Begin(5), Insert(5, 0, 0, 100), Commit(5), Begin(7), Begin(8), Begin(9)]
  const FIRST_UPDATE := [Read(7, 0), Update(7, 0, 1, 100), Commit(7)]
  const SECOND_UPDATE := [Read(8, 1), Update(8, 1, 2, 300), Commit(8)]

  const OLD_LOG := [Inserted(0, 100, 0)]
  const FIRST_LOG := [Got(0, 100, 0), Wrote(0, 100, 0)]
  const SECOND_LOG := [Got(0, 100, 1), Wrote(0, 300, 1)]
  const LATE_LOG := [Got(0, 100, 0)]

  const IDLE := Txn(Active, map[], false, 0, [])
  const WRITER := Txn(Committed, map[0 := INSERT], false, 1, OLD_LOG)

  function Prepared(): Store {
    Store(map[0 := Slot(INITIAL_TXN_ID, 5, MAX_CID, None, None, 0, 0, 100)], map[0 := 0],
          map[5 := WRITER, 7 := IDLE, 8 := IDLE, 9 := IDLE])
  }

  function Updated(): Store {
    Store(map[0 := Slot(INITIAL_TXN_ID, 5, 7, None, Some(1), 7, 0, 100),
              1 := Slot(INITIAL_TXN_ID, 7, MAX_CID, Some(0), None, 0, 0, 100)],
          map[0 := 1],
          map[5 := WRITER, 7 := Txn(Committed, map[0 := UPDATE], true, 0, FIRST_LOG), 8 := IDLE, 9 := IDLE])
  }

  /** After the late read of transaction 9. */
  function ReadStale(): Store {
    Updated().(slots := Updated().slots[0 := Slot(INITIAL_TXN_ID, 5, 7, None, Some(1), 9, 0, 100)],
               txns := Updated().txns[9 := Txn(Active, map[0 := READ], false, 0, LATE_LOG)])
  }

  function UpdatedTwice(): Store {
    Store(map[0 := Slot(INITIAL_TXN_ID, 5, 7, None, Some(1), 9, 0, 100),
              1 := Slot(INITIAL_TXN_ID, 7, 8, Some(0), Some(2), 8, 0, 100),
              2 := Slot(INITIAL_TXN_ID, 8, MAX_CID, Some(1), None, 0, 0, 300)],
          map[0 := 2],
          ReadStale().txns[8 := Txn(Committed, map[1 := UPDATE], true, 0, SECOND_LOG)])
  }

  lemma Three(s: Store, a: Action, b: Action, c: Action)
    requires Enabled(s, a) && Enabled(Step(s, a), b) && Enabled(Step(Step(s, a), b), c)
    ensures Run(s, [a, b, c]) == Some(Step(Step(Step(s, a), b), c))
  {
    assert [a, b, c][1..] == [b, c] && [b, c][1..] == [c] && [c][1..] == [];
    assert Run(Step(Step(s, a), b), [c]) == Some(Step(Step(Step(s, a), b), c));
    assert Run(Step(s, a), [b, c]) == Run(Step(Step(s, a), b), [c]);
  }

  lemma SetupRuns()
    ensures Run(EMPTY_STORE, SETUP) == Some(Prepared())
  {
    var s1 := Step(EMPTY_STORE, Begin(5));
    var s2 := Step(s1, Insert(5, 0, 0, 100));
    assert s2.txns[5].log == OLD_LOG;
    var s3 := Step(s2, Commit(5));
    assert s3.slots == Prepared().slots;
    Three(EMPTY_STORE, Begin(5), Insert(5, 0, 0, 100), Commit(5));
    Three(s3, Begin(7), Begin(8), Begin(9));
    assert Step(Step(Step(s3, Begin(7)), Begin(8)), Begin(9)).txns == Prepared().txns;
    assert SETUP == [Begin(5), Insert(5, 0, 0, 100), Commit(5)] + [Begin(7), Begin(8), Begin(9)];
    RunJoins(EMPTY_STORE, [Begin(5), Insert(5, 0, 0, 100), Commit(5)], [Begin(7), Begin(8), Begin(9)]);
  }

  lemma RunJoins(s: Store, a: seq<Action>, b: seq<Action>)
    requires Run(s, a).Some?
    ensures Run(s, a + b) == Run(Run(s, a).value, b)
    decreases |a|
  {
    if a == [] {
      assert a + b == b;
    } else {
      assert (a + b)[1..] == a[1..] + b;
      RunJoins(Step(s, a[0]), a[1..], b);
    }
  }

  /** What a transaction leaves that reads one version, replaces it and commits, with nobody else at work. */
  function Replaced(s: Store, t: Cid, loc: Loc, n: Loc, v: Value): Store
    requires loc in s.slots
  {
    var x := s.slots[loc];
    Store(s.slots[loc := x.(end := t, prev := Some(n), lastReader := t)]
                 [n := Slot(INITIAL_TXN_ID, t, MAX_CID, Some(loc), None, 0, x.tuple, v)],
          s.index[x.tuple := n],
          s.txns[t := Txn(Committed, map[loc := UPDATE], true, 0,
                          [Got(x.tuple, x.value, loc), Wrote(x.tuple, v, loc)])])
  }

  /** The same before the commit. */
  function Pending(s: Store, t: Cid, loc: Loc, n: Loc, v: Value): Store
    requires loc in s.slots
  {
    var x := s.slots[loc];
    Store(s.slots[loc := x.(txnId := t, prev := Some(n), lastReader := t)]
                 [n := Slot(t, MAX_CID, MAX_CID, Some(loc), None, 0, x.tuple, v)],
          s.index[x.tuple := n],
          s.txns[t := Txn(Active, map[loc := UPDATE], true, 0,
                          [Got(x.tuple, x.value, loc), Wrote(x.tuple, v, loc)])])
  }

  predicate Idle(s: Store, t: Cid, loc: Loc, n: Loc) {
    && t in s.txns && s.txns[t] == IDLE && loc in s.slots && n !in s.slots && INITIAL_TXN_ID < t < MAX_CID
    && (forall l :: l in s.slots ==> s.slots[l].txnId == INITIAL_TXN_ID)
    && s.slots[loc].begin < t && s.slots[loc].end == MAX_CID && s.slots[loc].lastReader <= t
  }

  lemma ReplacePends(s: Store, t: Cid, loc: Loc, n: Loc, v: Value)
    requires Idle(s, t, loc, n)
    ensures Enabled(s, Read(t, loc)) && Enabled(Step(s, Read(t, loc)), Update(t, loc, n, v))
    ensures Step(Step(s, Read(t, loc)), Update(t, loc, n, v)) == Pending(s, t, loc, n, v)
  {
    var x, p := s.slots[loc], Pending(s, t, loc, n, v);
    var s1 := Step(s, Read(t, loc));
    assert s1.txns[t] == Txn(Active, map[loc := READ], false, 0, [Got(x.tuple, x.value, loc)]);
    var s2 := Step(s1, Update(t, loc, n, v));
    assert map[loc := READ][loc := UPDATE] == map[loc := UPDATE];
    assert s2.txns[t] == p.txns[t];
    assert s2.slots == p.slots && s2.index == p.index && s2.txns == p.txns;
  }

  lemma ReplaceRuns(s: Store, t: Cid, loc: Loc, n: Loc, v: Value)
    requires Idle(s, t, loc, n)
    ensures Run(s, [Read(t, loc), Update(t, loc, n, v), Commit(t)]) == Some(Replaced(s, t, loc, n, v))
  {
    ReplacePends(s, t, loc, n, v);
    var e, z := Step(Pending(s, t, loc, n, v), Commit(t)), Replaced(s, t, loc, n, v);
    assert e.slots == z.slots && e.index == z.index && e.txns == z.txns;
    Three(s, Read(t, loc), Update(t, loc, n, v), Commit(t));
  }

  lemma FirstUpdateRuns()
    ensures Run(Prepared(), FIRST_UPDATE) == Some(Updated())
  {
    ReplaceRuns(Prepared(), 7, 0, 1, 100);
    var s := Replaced(Prepared(), 7, 0, 1, 100);
    assert s.slots == Updated().slots && s.index == Updated().index && s.txns == Updated().txns;
  }

  lemma SecondUpdateRuns()
    ensures Run(ReadStale(), SECOND_UPDATE) == Some(UpdatedTwice())
  {
    ReplaceRuns(ReadStale(), 8, 1, 2, 300);
    var s := Replaced(ReadStale(), 8, 1, 2, 300);
    assert s.slots == UpdatedTwice().slots && s.index == UpdatedTwice().index && s.txns == UpdatedTwice().txns;
  }

  lemma StaleReadRuns()
    ensures var r := Race(Updated(), {(9, 0)}, {});
            && RaceEnabled(r, ReadFound(9, 0))
            && RaceStep(r, ReadFound(9, 0)) == Race(ReadStale(), {(9, 0)}, {(9, 0)})
  {
    var s := RaceStep(Race(Updated(), {(9, 0)}, {}), ReadFound(9, 0)).s;
    assert [] + [Got(0, 100, 0)] == LATE_LOG;
    assert s.txns[9] == ReadStale().txns[9] && s.slots == ReadStale().slots && s.txns == ReadStale().txns;
  }

  lemma Replays()
    ensures Replay(map[], OLD_LOG) == Some(map[0 := 100])
    ensures Replay(map[0 := 100], FIRST_LOG) == Some(map[0 := 100])
    ensures Replay(map[0 := 100], SECOND_LOG) == Some(map[0 := 300])
    ensures Replay(map[0 := 300], LATE_LOG) == None
  {
    assert OLD_LOG[..0] == [] && LATE_LOG[..0] == [];
    assert FIRST_LOG[..1] == [Got(0, 100, 0)] && SECOND_LOG[..1] == [Got(0, 100, 1)];
    assert Replay(map[0 := 100], FIRST_LOG[..1]) == Some(map[0 := 100]);
    assert Replay(map[0 := 100], SECOND_LOG[..1]) == Some(map[0 := 100]);
    assert map[0 := 100][0 := 100] == map[0 := 100] && map[0 := 100][0 := 300] == map[0 := 300];
  }

  lemma NoSerialRun(s: Store)
    requires {5, 7, 8, 9} <= s.txns.Keys && s.txns[5].log == OLD_LOG && s.txns[7].log == FIRST_LOG
    requires s.txns[8].log == SECOND_LOG && s.txns[9].log == LATE_LOG
    ensures SerialRun(s, map[], [5, 7, 8, 9]) == None
  {
    Replays();
    assert [5, 7, 8, 9][..3] == [5, 7, 8] && [5, 7, 8][..2] == [5, 7] && [5, 7][..1] == [5] && [5][..0] == [];
    assert SerialRun(s, map[], [5]) == Some(map[0 := 100]);
    assert SerialRun(s, map[], [5, 7]) == Some(map[0 := 100]);
    assert SerialRun(s, map[], [5, 7, 8]) == Some(map[0 := 300]);
  }

  lemma RightWhenRead()
    ensures ReadRight(ReadStale(), 9, 0)
  {
    var s := ReadStale();
    assert LATE_LOG[..0] == [];
    assert At(s, 1, 0, 9) && forall l :: At(s, l, 0, 9) ==> l == 1;
  }

  function Plains(calls: seq<Action>): seq<RaceAction> {
    if calls == [] then [] else [Plain(calls[0])] + Plains(calls[1..])
  }

  lemma PlainRuns(r: Race, calls: seq<Action>)
    requires Run(r.s, calls).Some?
    ensures RaceRun(r, Plains(calls)) == Some(r.(s := Run(r.s, calls).value))
    decreases |calls|
  {
    if calls != [] {
      assert Plains(calls)[1..] == Plains(calls[1..]);
      PlainRuns(r.(s := Step(r.s, calls[0])), calls[1..]);
    }
  }

  lemma RaceJoins(r: Race, a: seq<RaceAction>, b: seq<RaceAction>)
    requires RaceRun(r, a).Some?
    ensures RaceRun(r, a + b) == RaceRun(RaceRun(r, a).value, b)
    decreases |a|
  {
    if a == [] {
      assert a + b == b;
    } else {
      assert (a + b)[1..] == a[1..] + b;
      RaceJoins(RaceStep(r, a[0]), a[1..], b);
    }
  }

  const START := Race(EMPTY_STORE, {}, {})
  const TO_THE_READ := Plains(SETUP) + [Test(9, 0)] + Plains(FIRST_UPDATE) + [ReadFound(9, 0)]
  const FROM_THE_READ := Plains(SECOND_UPDATE) + [Plain(Commit(9))]

  lemma OneStep(r: Race, b: RaceAction)
    requires RaceEnabled(r, b)
    ensures RaceRun(r, [b]) == Some(RaceStep(r, b))
  {
    assert [b][1..] == [];
  }

  lemma ToTheRead()
    ensures RaceRun(START, TO_THE_READ) == Some(Race(ReadStale(), {(9, 0)}, {(9, 0)}))
  {
    var a, b, c, d := Plains(SETUP), [Test(9, 0)], Plains(FIRST_UPDATE), [ReadFound(9, 0)];
    SetupRuns();
    PlainRuns(START, SETUP);
    OneStep(Race(Prepared(), {}, {}), Test(9, 0));
    RaceJoins(START, a, b);
    var found := Race(Prepared(), {(9, 0)}, {});
    assert RaceRun(START, a + b) == Some(found) by { assert {} + {(9, 0)} == {(9, 0)}; }
    FirstUpdateRuns();
    PlainRuns(found, FIRST_UPDATE);
    RaceJoins(START, a + b, c);
    StaleReadRuns();
    OneStep(Race(Updated(), {(9, 0)}, {}), ReadFound(9, 0));
    RaceJoins(START, a + b + c, d);
  }

  lemma FromTheRead()
    ensures RaceRun(Race(ReadStale(), {(9, 0)}, {(9, 0)}), FROM_THE_READ) ==
            Some(Race(DoCommit(UpdatedTwice(), 9), {(9, 0)}, {(9, 0)}))
  {
    var r := Race(ReadStale(), {(9, 0)}, {(9, 0)});
    SecondUpdateRuns();
    PlainRuns(r, SECOND_UPDATE);
    RaceJoins(r, Plains(SECOND_UPDATE), [Plain(Commit(9))]);
    OneStep(r.(s := UpdatedTwice()), Plain(Commit(9)));
  }

  /** Transaction 9 finds a version visible; 7 replaces it by one with the same value and commits; 9 reads the first
      one.  At that moment the value is the expected one.  But the read has stamped the wrong version: 8 can still
      replace the second one, and after all have committed there is no serial run in commit-id order. */
  lemma LateReadNotSerializable()
    ensures var r := RaceRun(START, TO_THE_READ);
            && r.Some? && r.value.stale == {(9, 0)} && ReadRight(r.value.s, 9, 0)
            && var e := RaceRun(r.value, FROM_THE_READ);
               && e.Some? && CommitOrder(e.value.s, [5, 7, 8, 9])
               && SerialRun(e.value.s, map[], [5, 7, 8, 9]) == None
  {
    ToTheRead();
    RightWhenRead();
    FromTheRead();
    LateCommit();
  }

  lemma LateCommit()
    ensures CommitOrder(DoCommit(UpdatedTwice(), 9), [5, 7, 8, 9])
    ensures SerialRun(DoCommit(UpdatedTwice(), 9), map[], [5, 7, 8, 9]) == None
  {
    NoSerialRun(DoCommit(UpdatedTwice(), 9));
  }
}
