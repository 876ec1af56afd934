/** Every serial history is accepted, call by call. */
module SerialHistories {
  import opened Base
  import opened Mvto
  import opened MvtoInvariant
  import opened MvtoEvolution
  import opened MvtoHistory
  import opened Serializability
  import opened WriterViews
  import opened Acceptance

  // ----- Histories -----

  /** What a client asks for, and whether it asks for a read as a select-for-update; `op.at` is not given. */
  datatype Call = Call(op: Op, forUpdate: bool)

  datatype Session = Session(t: Cid, calls: seq<Call>)

  /** What the clients know: the single-version database, the tuples asked for in this session, and the tuple ids
      handed out so far. */
  datatype Client = Client(db: Db, asked: set<TupleId>, used: set<TupleId>)

  predicate SameCall(op: Op, call: Call) {
    op == call.op.(at := op.at)
  }

  /** The action is the one the client asked for. */
  predicate Serves(a: Action, call: Call) {
    match call.op
    case Got(_, _, _) => if call.forUpdate then a.ReadForUpdate? else a.Read?
    case Wrote(_, v, _) => (a.Update? && a.value == v) || (a.Overwrite? && a.value == v)
    case Inserted(k, v, _) => a.Insert? && a.tuple == k && a.value == v
    case Deleted(_, _) => a.Delete? || a.DeleteOwn?
  }

  /** A call that fits the database, asks for a tuple before changing it and takes a new id for a new tuple. */
  function Next(c: Client, op: Op): Option<Client> {
    var db := Apply(c.db, op);
    if db == None then None
    else if (op.Wrote? || op.Deleted?) && op.tuple !in c.asked then None
    else if op.Inserted? && op.tuple in c.used then None
    else Some(Client(db.value, c.asked + {op.tuple}, if op.Inserted? then c.used + {op.tuple} else c.used))
  }

  function After(c: Client, calls: seq<Call>): Option<Client>
    decreases |calls|
  {
    if calls == [] then Some(c)
    else
      var c' := Next(c, calls[0].op);
      if c' == None then None else After(c'.value, calls[1..])
  }

  /** The sessions run one after the other, with growing ids, each accepted by the single-version database. */
  predicate SerialHistory(c: Client, last: Cid, h: seq<Session>)
    decreases |h|
  {
    h == [] ||
    var c' := After(c.(asked := {}), h[0].calls);
    last < h[0].t < MAX_CID && c'.Some? && SerialHistory(c'.value, h[0].t, h[1..])
  }

  /** The actions start with the session's own calls, in order, between begin and commit. */
  predicate CarriesFirst(actions: seq<Action>, x: Session) {
    && |actions| >= |x.calls| + 2 && actions[0] == Begin(x.t) && actions[|x.calls| + 1] == Commit(x.t)
    && forall i: nat {:trigger CarriesCall(actions, x, i)} :: i < |x.calls| ==> CarriesCall(actions, x, i)
  }

  predicate CarriesCall(actions: seq<Action>, x: Session, i: nat)
    requires i < |x.calls| < |actions|
  {
    actions[i + 1].t == x.t && Serves(actions[i + 1], x.calls[i])
  }

  /** The actions are those of the sessions, one session after the other. */
  predicate Carries(actions: seq<Action>, h: seq<Session>)
    decreases |h|
  {
    if h == [] then actions == []
    else CarriesFirst(actions, h[0]) && Carries(actions[|h[0].calls| + 2..], h[1..])
  }

  predicate Answered(log: seq<Op>, calls: seq<Call>) {
    |log| == |calls| && forall i :: 0 <= i < |log| ==> SameCall(log[i], calls[i])
  }

  predicate Done(s: Store, x: Session) {
    IsCommitted(s, x.t) && Answered(s.txns[x.t].log, x.calls)
  }

  function Ids(h: seq<Session>): set<Cid> {
    set i | 0 <= i < |h| :: h[i].t
  }

  // ----- One session on its own -----

  function Find(db: Db, k: TupleId): Option<Value> {
    if k in db then Some(db[k]) else None
  }

  predicate HasAsked(log: seq<Op>, k: TupleId) {
    exists i :: 0 <= i < |log| && log[i].tuple == k
  }

  ghost predicate Alone(s: Store, t: Cid) {
    && Inv(s) && LogInv(s) && CauseInv(s) && IsActive(s, t)
    && forall u :: u in s.txns ==> u <= t && (IsActive(s, u) ==> u == t)
  }

  /** The session sees the client's database. */
  ghost predicate InStep(s: Store, t: Cid, c: Client) {
    && Alone(s, t)
    && (forall k {:trigger ViewOf(s, t, k)} :: ViewOf(s, t, k) == Find(c.db, k))
    && s.index.Keys <= c.used
    && (forall k :: k in c.asked ==> HasAsked(s.txns[t].log, k))
  }

  /** The action does what was asked and logs it. */
  predicate Obeys(s: Store, t: Cid, a: Action, call: Call) {
    && Enabled(s, a) && a.t == t && Serves(a, call) && Logged(s, a).Some? && SameCall(Logged(s, a).value, call)
  }

  lemma NoConflictAlone(s: Store, t: Cid, l: Loc)
    requires Alone(s, t) && l in s.slots && s.slots[l].begin < t <= s.slots[l].end
    ensures !Conflict(s, t, l)
  {
    forall n | n in s.slots && s.slots[n].tuple == s.slots[l].tuple && s.slots[n].begin != MAX_CID
      ensures s.slots[n].begin <= s.slots[l].begin
    {
      assert SlotOk(s, n) && PairOk(s, n, l);
    }
  }

  lemma GotAlone(s: Store, t: Cid, c: Client, call: Call) returns (a: Action)
    requires InStep(s, t, c) && call.op.Got? && Next(c, call.op).Some?
    ensures Obeys(s, t, a, call)
  {
    var k := call.op.tuple;
    WriterSeesExactly(s, t, k);
    assert ViewOf(s, t, k) == Find(c.db, k);
    var l :| SeesAs(s, t, k, l);
    assert SlotOk(s, l);
    if call.forUpdate {
      SelectAcceptedIff(s, t, l);
      if s.slots[l].begin != MAX_CID { NoConflictAlone(s, t, l); }
      a := ReadForUpdate(t, l);
    } else {
      ReadAcceptedIff(s, t, l);
      a := Read(t, l);
    }
  }

  lemma {:induction false} UntouchedBefore(log: seq<Op>, i: nat, k: TupleId)
    requires EffectOn(log, k) == Untouched && i <= |log|
    ensures EffectOn(log[..i], k) == Untouched
    decreases |log|
  {
    if i == |log| {
      assert log[..i] == log;
    } else {
      UntouchedBefore(log[..|log| - 1], i, k);
      assert log[..|log| - 1][..i] == log[..i];
    }
  }

  lemma UntouchedOp(log: seq<Op>, i: nat, k: TupleId)
    requires EffectOn(log, k) == Untouched && i < |log| && log[i].tuple == k
    ensures log[i].Got?
  {
    UntouchedBefore(log, i + 1, k);
    assert log[..i + 1][i] == log[i];
  }

  /** A tuple asked for and not touched has a version the session can replace. */
  lemma AskedVersion(s: Store, t: Cid, k: TupleId) returns (l: Loc)
    requires Alone(s, t) && HasAsked(s.txns[t].log, k) && EffectOn(s.txns[t].log, k) == Untouched
    ensures l in s.slots && s.slots[l].tuple == k && HasRead(s, t, l) && !Conflict(s, t, l)
  {
    var log := s.txns[t].log;
    var i: nat :| i < |log| && log[i].tuple == k;
    UntouchedOp(log, i, k);
    UntouchedBefore(log, i, k);
    assert OpOk(s, t, i);
    l := log[i].at;
    NoConflictAlone(s, t, l);
  }

  lemma ChangeAlone(s: Store, t: Cid, c: Client, call: Call) returns (a: Action)
    requires InStep(s, t, c) && (call.op.Wrote? || call.op.Deleted?) && Next(c, call.op).Some?
    ensures Obeys(s, t, a, call)
  {
    var k := call.op.tuple;
    var v := if call.op.Wrote? then call.op.value else 0;
    assert ViewOf(s, t, k) == Find(c.db, k);
    if EffectOn(s.txns[t].log, k) == Untouched {
      var l := AskedVersion(s, t, k);
      var n := Unused(s.slots.Keys);
      ReplaceAcceptedIff(s, t, l, n, v);
      a := if call.op.Wrote? then Update(t, l, n, v) else Delete(t, l, n);
    } else {
      OwnNeverRefused(s, t, k, v);
      a := if call.op.Wrote? then Overwrite(t, s.index[k], v) else DeleteOwn(t, s.index[k]);
    }
  }

  lemma OneCall(s: Store, t: Cid, c: Client, call: Call) returns (a: Action)
    requires InStep(s, t, c) && Next(c, call.op).Some?
    ensures Obeys(s, t, a, call)
  {
    if call.op.Got? {
      a := GotAlone(s, t, c, call);
    } else if call.op.Inserted? {
      a := Insert(t, Unused(s.slots.Keys), call.op.tuple, call.op.value);
    } else {
      a := ChangeAlone(s, t, c, call);
    }
  }

  lemma AloneKept(s: Store, t: Cid, a: Action)
    requires Alone(s, t) && Enabled(s, a) && a.t == t && Logged(s, a).Some?
    ensures Alone(Step(s, a), t) && Step(s, a).txns[t].log == s.txns[t].log + [Logged(s, a).value]
  {
    StepKeeps(s, a);
    StepKeepsLog(s, a);
    StepKeepsCauses(s, a);
    StepTxns(s, a);
    StepLogs(s, a);
  }

  /** One more operation in the log changes the view of its own tuple only. */
  lemma ViewAppend(s: Store, s': Store, t: Cid, op: Op, k: TupleId)
    requires t in s.txns && t in s'.txns && s'.txns[t].log == s.txns[t].log + [op]
    requires Find(Snapshot(s', t), k) == Find(Snapshot(s, t), k)
    ensures ViewOf(s', t, k) ==
            match EffectOf(op, k) case Untouched => ViewOf(s, t, k) case Present(v) => Some(v) case Gone => None
  {
    EffectAppend(s.txns[t].log, op, k);
  }

  lemma DbAppend(db: Db, op: Op, k: TupleId)
    requires Apply(db, op).Some?
    ensures Find(Apply(db, op).value, k) ==
            match EffectOf(op, k) case Untouched => Find(db, k) case Present(v) => Some(v) case Gone => None
  {
  }

  lemma ViewKept(s: Store, s': Store, t: Cid, c: Client, op: Op, call: Call, k: TupleId)
    requires t in s.txns && t in s'.txns && s'.txns[t].log == s.txns[t].log + [op]
    requires EffectOf(op, k) == EffectOf(call.op, k) && Find(Snapshot(s', t), k) == Find(Snapshot(s, t), k)
    requires ViewOf(s, t, k) == Find(c.db, k) && Apply(c.db, call.op).Some?
    ensures ViewOf(s', t, k) == Find(Apply(c.db, call.op).value, k)
  {
    ViewAppend(s, s', t, op, k);
    DbAppend(c.db, call.op, k);
  }

  lemma SameEffect(op: Op, call: Call, k: TupleId)
    requires SameCall(op, call)
    ensures EffectOf(op, k) == EffectOf(call.op, k)
  {
  }

  lemma SameBelow(s: Store, t: Cid, a: Action, k: TupleId)
    requires Inv(s) && Enabled(s, a) && a.t == t
    ensures Find(Snapshot(Step(s, a), t), k) == Find(Snapshot(s, t), k)
  {
    SnapshotKept(s, a, t, k);
  }

  lemma ViewsKept(s: Store, t: Cid, c: Client, a: Action, call: Call)
    requires InStep(s, t, c) && Obeys(s, t, a, call) && Next(c, call.op).Some?
    ensures t in Step(s, a).txns
    ensures var s', db := Step(s, a), Next(c, call.op).value.db;
            forall k {:trigger ViewOf(s', t, k)} :: ViewOf(s', t, k) == Find(db, k)
  {
    var s', op := Step(s, a), Logged(s, a).value;
    AloneKept(s, t, a);
    forall k ensures ViewOf(s', t, k) == Find(Next(c, call.op).value.db, k) {
      SameBelow(s, t, a, k);
      SameEffect(op, call, k);
      assert ViewOf(s, t, k) == Find(c.db, k);
      ViewKept(s, s', t, c, op, call, k);
    }
  }

  lemma InStepKept(s: Store, t: Cid, c: Client, a: Action, call: Call)
    requires InStep(s, t, c) && Obeys(s, t, a, call) && Next(c, call.op).Some?
    ensures InStep(Step(s, a), t, Next(c, call.op).value)
  {
    var s', c' := Step(s, a), Next(c, call.op).value;
    AloneKept(s, t, a);
    ViewsKept(s, t, c, a, call);
    forall k | k in c'.asked ensures HasAsked(s'.txns[t].log, k) {
      var log := s.txns[t].log;
      assert s'.txns[t].log[|log|].tuple == call.op.tuple;
      if k in c.asked {
        var i :| 0 <= i < |log| && log[i].tuple == k;
        assert s'.txns[t].log[i].tuple == k;
      }
    }
    if a.Update? || a.Delete? { assert SlotOk(s, a.loc); }
  }

  lemma RunOne(s: Store, a: Action)
    requires Enabled(s, a)
    ensures Run(s, [a]) == Some(Step(s, a))
  {
    assert [a][1..] == [] && Run(Step(s, a), []) == Some(Step(s, a));
  }

  lemma {:induction false} RunJoins(s: Store, a: seq<Action>, m: Store, b: seq<Action>)
    requires Run(s, a) == Some(m)
    ensures Run(s, a + b) == Run(m, b)
    decreases |a|
  {
    if a == [] {
      assert a + b == b;
    } else {
      assert (a + b)[1..] == a[1..] + b;
      RunJoins(Step(s, a[0]), a[1..], m, b);
    }
  }

  /** The log of `t` has grown by the answers to the calls, and no other transaction has changed. */
  predicate Answers(s: Store, s': Store, t: Cid, calls: seq<Call>) {
    && t in s.txns && t in s'.txns && s'.txns == s.txns[t := s'.txns[t]]
    && s.txns[t].log <= s'.txns[t].log && Answered(s'.txns[t].log[|s.txns[t].log|..], calls)
  }

  lemma AnswersJoin(s: Store, m: Store, s': Store, t: Cid, calls: seq<Call>)
    requires calls != [] && Answers(s, m, t, calls[..1]) && Answers(m, s', t, calls[1..])
    ensures Answers(s, s', t, calls)
  {
    var n, log, log' := |s.txns[t].log|, m.txns[t].log, s'.txns[t].log;
    assert |log| == n + 1;
    forall i | 0 <= i < |calls| ensures SameCall(log'[n..][i], calls[i]) {
      if i == 0 {
        assert log'[n..][0] == log[n..][0];
        assert calls[..1][0] == calls[0];
      } else {
        assert log'[n..][i] == log'[n + 1..][i - 1];
        assert calls[1..][i - 1] == calls[i];
      }
    }
  }

  lemma StepOnce(s: Store, t: Cid, c: Client, call: Call) returns (a: Action, m: Store)
    requires InStep(s, t, c) && Next(c, call.op).Some?
    ensures Run(s, [a]) == Some(m) && a.t == t && Serves(a, call)
    ensures InStep(m, t, Next(c, call.op).value) && Answers(s, m, t, [call])
  {
    a := OneCall(s, t, c, call);
    m := Step(s, a);
    InStepKept(s, t, c, a, call);
    AloneKept(s, t, a);
    StepTxns(s, a);
    RunOne(s, a);
  }

  lemma {:induction false} SessionRuns(s: Store, t: Cid, c: Client, calls: seq<Call>)
    returns (actions: seq<Action>, s': Store)
    requires InStep(s, t, c) && After(c, calls).Some?
    ensures Run(s, actions) == Some(s') && InStep(s', t, After(c, calls).value) && Answers(s, s', t, calls)
    ensures |actions| == |calls| && forall i :: 0 <= i < |calls| ==> actions[i].t == t && Serves(actions[i], calls[i])
    decreases |calls|
  {
    if calls == [] {
      actions, s' := [], s;
    } else {
      var a, m := StepOnce(s, t, c, calls[0]);
      var rest;
      rest, s' := SessionRuns(m, t, Next(c, calls[0].op).value, calls[1..]);
      actions := [a] + rest;
      RunJoins(s, [a], m, rest);
      assert calls[..1] == [calls[0]];
      AnswersJoin(s, m, s', t, calls);
    }
  }

  // ----- One session after another -----

  /** Between sessions: nothing is running, and the current versions are the client's database. */
  ghost predicate Idle(s: Store, last: Cid, c: Client) {
    && Inv(s) && LogInv(s) && CauseInv(s)
    && (forall u :: u in s.txns ==> u <= last && !IsActive(s, u))
    && Snapshot(s, MAX_CID) == c.db && s.index.Keys <= c.used
  }

  /** Above all known ids every snapshot is the same. */
  lemma SnapshotAbove(s: Store, t: Cid, k: TupleId)
    requires Inv(s) && t <= MAX_CID && forall u :: u in s.txns ==> u < t
    ensures Find(Snapshot(s, t), k) == Find(Snapshot(s, MAX_CID), k)
  {
    forall l | l in s.slots ensures At(s, l, k, t) <==> At(s, l, k, MAX_CID) { assert SlotOk(s, l); }
    if l :| At(s, l, k, t) {
      SnapshotAt(s, l, k, t);
      SnapshotAt(s, l, k, MAX_CID);
    }
  }

  lemma SessionBegins(s: Store, last: Cid, c: Client, t: Cid) returns (m: Store)
    requires Idle(s, last, c) && INITIAL_TXN_ID <= last < t < MAX_CID
    ensures Run(s, [Begin(t)]) == Some(m) && InStep(m, t, c.(asked := {}))
    ensures m.txns == s.txns[t := Txn(Active, map[], false, 0, [])]
  {
    var a := Begin(t);
    m := Step(s, a);
    RunOne(s, a);
    StepKeeps(s, a);
    StepKeepsLog(s, a);
    StepKeepsCauses(s, a);
    forall k ensures ViewOf(Step(s, a), t, k) == Find(c.db, k) {
      SnapshotKept(s, a, t, k);
      SnapshotAbove(s, t, k);
    }
  }

  lemma CommittedDb(s: Store, t: Cid, c: Client)
    requires InStep(s, t, c)
    ensures Snapshot(Step(s, Commit(t)), MAX_CID) == c.db
  {
    var a := Commit(t);
    var s', log := Step(s, a), s.txns[t].log;
    StepKeeps(s, a);
    StepKeepsLog(s, a);
    assert NoneBetween(s', t, MAX_CID);
    NextSnapshot(s', t, MAX_CID);
    forall k ensures AgreesAt(Snapshot(s', t), log, c.db, k) {
      assert ViewOf(s, t, k) == Find(c.db, k);
      SnapshotKept(s, a, t, k);
    }
    AgreesUnique(Snapshot(s', t), log, c.db, Snapshot(s', MAX_CID));
  }

  lemma SessionCommits(s: Store, t: Cid, c: Client) returns (m: Store)
    requires InStep(s, t, c)
    ensures Run(s, [Commit(t)]) == Some(m) && Idle(m, t, c)
    ensures m.txns == s.txns[t := s.txns[t].(status := Committed)]
  {
    var a := Commit(t);
    m := Step(s, a);
    RunOne(s, a);
    StepKeeps(s, a);
    StepKeepsLog(s, a);
    StepKeepsCauses(s, a);
    CommittedDb(s, t, c);
  }

  lemma CarriesOne(mid: seq<Action>, x: Session)
    requires |mid| == |x.calls| && forall i :: 0 <= i < |mid| ==> mid[i].t == x.t && Serves(mid[i], x.calls[i])
    ensures CarriesFirst([Begin(x.t)] + mid + [Commit(x.t)], x)
  {
    var actions := [Begin(x.t)] + mid + [Commit(x.t)];
    forall i: nat | i < |x.calls| ensures CarriesCall(actions, x, i) { assert actions[i + 1] == mid[i]; }
  }

  lemma DoneOnCommit(s: Store, m: Store, e: Store, s': Store, x: Session)
    requires m.txns == s.txns[x.t := Txn(Active, map[], false, 0, [])] && Answers(m, e, x.t, x.calls)
    requires s'.txns == e.txns[x.t := e.txns[x.t].(status := Committed)]
    ensures OneDone(s, s', x)
  {
    assert e.txns[x.t].log[0..] == e.txns[x.t].log;
  }

  lemma WholeSession(s: Store, last: Cid, c: Client, x: Session) returns (actions: seq<Action>, s': Store)
    requires Idle(s, last, c) && INITIAL_TXN_ID <= last < x.t < MAX_CID
    requires After(c.(asked := {}), x.calls).Some?
    ensures ThroughOne(s, actions, s', x) && Idle(s', x.t, After(c.(asked := {}), x.calls).value)
  {
    var c0 := c.(asked := {});
    var m := SessionBegins(s, last, c, x.t);
    var mid, e := SessionRuns(m, x.t, c0, x.calls);
    s' := SessionCommits(e, x.t, After(c0, x.calls).value);
    actions := [Begin(x.t)] + mid + [Commit(x.t)];
    RunJoins(s, [Begin(x.t)], m, mid);
    RunJoins(s, [Begin(x.t)] + mid, e, [Commit(x.t)]);
    CarriesOne(mid, x);
    DoneOnCommit(s, m, e, s', x);
  }

  lemma FirstKept(first: seq<Action>, rest: seq<Action>, x: Session)
    requires |first| == |x.calls| + 2 && CarriesFirst(first, x)
    ensures CarriesFirst(first + rest, x)
  {
    var all := first + rest;
    assert all[0] == first[0] && all[|x.calls| + 1] == first[|x.calls| + 1];
    forall i: nat | i < |x.calls| ensures CarriesCall(all, x, i) {
      assert CarriesCall(first, x, i);
      assert all[i + 1] == first[i + 1];
    }
  }

  lemma CarriesJoin(first: seq<Action>, rest: seq<Action>, h: seq<Session>)
    requires h != [] && |first| == |h[0].calls| + 2 && CarriesFirst(first, h[0]) && Carries(rest, h[1..])
    ensures Carries(first + rest, h)
  {
    FirstKept(first, rest, h[0]);
    assert (first + rest)[|first|..] == rest;
  }

  /** The session is done, and what was there before is as it was. */
  predicate OneDone(s: Store, s': Store, x: Session) {
    Done(s', x) && s'.txns == s.txns[x.t := s'.txns[x.t]]
  }

  ghost predicate ThroughOne(s: Store, actions: seq<Action>, s': Store, x: Session) {
    Run(s, actions) == Some(s') && |actions| == |x.calls| + 2 && CarriesFirst(actions, x) && OneDone(s, s', x)
  }

  /** The sessions of `h` are done, and what was there before is as it was. */
  ghost predicate AllDone(s: Store, s': Store, h: seq<Session>) {
    && s'.txns.Keys == s.txns.Keys + Ids(h)
    && (forall u :: u in s.txns ==> u in s'.txns && s'.txns[u] == s.txns[u])
    && forall i :: 0 <= i < |h| ==> Done(s', h[i])
  }

  /** The actions take the store through the sessions. */
  ghost predicate Through(s: Store, actions: seq<Action>, s': Store, h: seq<Session>) {
    Run(s, actions) == Some(s') && Carries(actions, h) && AllDone(s, s', h)
  }

  lemma AllDoneJoin(s: Store, m: Store, s': Store, h: seq<Session>)
    requires h != [] && h[0].t !in s.txns && OneDone(s, m, h[0]) && AllDone(m, s', h[1..])
    ensures AllDone(s, s', h)
  {
    IdsStep(h);
    assert m.txns.Keys == s.txns.Keys + {h[0].t};
    assert forall i :: 0 < i < |h| ==> h[i] == h[1..][i - 1];
  }

  lemma ThroughJoin(s: Store, first: seq<Action>, m: Store, rest: seq<Action>, s': Store, h: seq<Session>)
    requires h != [] && h[0].t !in s.txns && ThroughOne(s, first, m, h[0]) && Through(m, rest, s', h[1..])
    ensures Through(s, first + rest, s', h)
  {
    RunJoins(s, first, m, rest);
    CarriesJoin(first, rest, h);
    AllDoneJoin(s, m, s', h);
  }

  lemma {:induction false} SessionsRun(s: Store, last: Cid, c: Client, h: seq<Session>)
    returns (actions: seq<Action>, s': Store)
    requires Idle(s, last, c) && INITIAL_TXN_ID <= last && SerialHistory(c, last, h)
    ensures Through(s, actions, s', h)
    decreases |h|
  {
    if h == [] {
      actions, s' := [], s;
    } else {
      var first, m := WholeSession(s, last, c, h[0]);
      var rest;
      rest, s' := SessionsRun(m, h[0].t, After(c.(asked := {}), h[0].calls).value, h[1..]);
      actions := first + rest;
      ThroughJoin(s, first, m, rest, s', h);
    }
  }

  lemma IdsStep(h: seq<Session>)
    requires h != []
    ensures Ids(h) == {h[0].t} + Ids(h[1..])
  {
    forall t | t in Ids(h) ensures t in {h[0].t} + Ids(h[1..]) {
      var i :| 0 <= i < |h| && h[i].t == t;
      if i > 0 { assert h[1..][i - 1] == h[i]; }
    }
    forall t | t in Ids(h[1..]) ensures t in Ids(h) {
      var i :| 0 <= i < |h| - 1 && h[1..][i].t == t;
      assert h[i + 1].t == t;
    }
  }

  /** Every serial history that a single-version database accepts is accepted by the manager from the empty store:
      each session begins, gets exactly the answers it should, with any of its reads a select-for-update, and
      commits; nothing else is ever known to the store. */
  lemma SerialAccepted(h: seq<Session>) returns (actions: seq<Action>, s: Store)
    requires SerialHistory(Client(map[], {}, {}), INITIAL_TXN_ID, h)
    ensures Run(EMPTY_STORE, actions) == Some(s) && Carries(actions, h)
    ensures s.txns.Keys == Ids(h) && forall i :: 0 <= i < |h| ==> Done(s, h[i])
  {
    assert Snapshot(EMPTY_STORE, MAX_CID) == map[];
    actions, s := SessionsRun(EMPTY_STORE, INITIAL_TXN_ID, Client(map[], {}, {}), h);
  }
}
