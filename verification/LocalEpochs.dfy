/** The epoch classes as the program runs them, proved against module `Epochs`. */
module LocalEpochs {
  import opened Base
  import opened Epochs

  const UINT64_MAX: nat := 0xFFFF_FFFF_FFFF_FFFF

  /** The epochs a thread's transactions are in.  The queue and the map share their epoch records, so the queue
      is kept as the set of queued ids and the counts live in the map. */
  class LocalEpoch {
    var lowerBound: nat
    var queue: set<Eid>
    var epochMap: map<Eid, nat>

    constructor ()
      ensures Valid() && View() == NEW_LOCAL
    {
      lowerBound, queue, epochMap := UINT64_MAX, {}, map[];
    }

    ghost predicate Valid()
      reads this
    {
      queue == epochMap.Keys && (queue != {} ==> lowerBound != UINT64_MAX)
    }

    ghost function View(): Local
      reads this
    {
      Local(if lowerBound == UINT64_MAX then None else Some(lowerBound), epochMap)
    }

    method EnterEpoch(e: Eid, kind: TimestampType) returns (ok: bool)
      requires Valid() && 1 <= e < UINT64_MAX
      modifies this
      ensures Valid() && ok == !Refuses(old(View()), e, kind)
      ensures View() == if ok then Enter(old(View()), e, kind) else old(View())
    {
      if lowerBound == UINT64_MAX {
        lowerBound := e - 1;
      } else if lowerBound >= e {
        if kind == SNAPSHOT_READ {
          lowerBound := e - 1;
        } else {
          return false;
        }
      }
      if kind != COMMIT_TS {
        if e !in epochMap {
          queue := queue + {e};
          epochMap := epochMap[e := 1];
        } else {
          epochMap := epochMap[e := epochMap[e] + 1];
        }
      }
      return true;
    }

    /** The top of the priority queue: the smallest queued epoch. */
    method Top() returns (m: Eid)
      requires Valid() && queue != {}
      ensures m in queue && forall x :: x in queue ==> m <= x
    {
      var rest := queue;
      m :| m in rest;
      while rest != {}
        invariant rest <= queue && m in queue
        invariant forall x :: x in queue ==> x in rest || m <= x
        decreases rest
      {
        var x :| x in rest;
        if x < m { m := x; }
        rest := rest - {x};
      }
    }

    /** The loop shared by ExitEpoch and GetExpiredEpochId. */
    method PopEmpty()
      requires Valid()
      requires forall e :: e in epochMap ==> 1 <= e && lowerBound < e < UINT64_MAX
      modifies this
      ensures Valid() && View() == Trim(old(View()))
      ensures forall e :: e in epochMap ==> e in old(epochMap)
    {
      ghost var start := View();
      while queue != {}
        invariant Valid() && epochMap.Keys <= start.counts.Keys && View().lower == start.lower
        invariant forall e :: e in epochMap ==> epochMap[e] == start.counts[e]
        invariant forall e :: e in start.counts && e !in epochMap ==>
                    start.counts[e] == 0 && forall d :: d in epochMap ==> e < d
        decreases queue
      {
        var e := Top();
        if epochMap[e] == 0 {
          epochMap := epochMap - {e};
          queue := queue - {e};
        } else {
          assert e == Least(Live(start.counts)) by {
            assert e in Live(start.counts);
            assert Least(Live(start.counts)) in epochMap;
          }
          lowerBound := e - 1;
          assert epochMap == Trim(start).counts;
          return;
        }
      }
      assert Live(start.counts) == {};
    }

    method ExitEpoch(e: Eid)
      requires Valid() && LocalOk(View()) && e in epochMap && epochMap[e] > 0
      requires forall d :: d in epochMap ==> d < UINT64_MAX
      modifies this
      ensures Valid() && View() == Exit(old(View()), e)
    {
      epochMap := epochMap[e := epochMap[e] - 1];
      PopEmpty();
    }

    method GetExpiredEpochId(current: Eid) returns (r: Eid)
      requires Valid() && LocalOk(View()) && 1 <= current < UINT64_MAX
      requires forall d :: d in epochMap ==> d < UINT64_MAX
      modifies this
      ensures Valid() && View() == Expire(old(View()), current) && View().lower == Some(r)
      ensures r + 1 == OldestIn(old(View()), current)
      ensures forall e :: e in epochMap ==> e in old(epochMap)
    {
      ExpireIsOldest(View(), current);
      if queue == {} {
        lowerBound := current - 1;
      } else {
        TrimOk(View());
        PopEmpty();
      }
      r := lowerBound;
    }
  }

  class DecentralizedEpochManager {
    var currentGlobal: Eid
    var snapshotGlobal: Eid
    var nextTxnId: nat
    const locals: map<Thread, LocalEpoch>
    ghost var views: map<Thread, Local>  // what each local epoch holds

    constructor (locals: map<Thread, LocalEpoch>)
      requires Separate(locals) && forall th :: th in locals ==> locals[th].Valid() && locals[th].View() == NEW_LOCAL
      ensures this.locals == locals && Valid() && views == map th | th in locals :: NEW_LOCAL
      ensures currentGlobal == 1 && snapshotGlobal == 1 && nextTxnId == 0
    {
      this.locals := locals;
      currentGlobal, snapshotGlobal, nextTxnId := 1, 1, 0;
      views := map th | th in locals :: NEW_LOCAL;
      new;
      forall th | th in this.locals ensures ThreadValid(th) { }
    }

    static ghost predicate Separate(locals: map<Thread, LocalEpoch>) {
      forall a, b :: a in locals && b in locals && a != b ==> locals[a] != locals[b]
    }

    static ghost predicate Bounded(l: Local) {
      LocalOk(l) && forall d :: d in l.counts ==> d < UINT64_MAX
    }

    ghost predicate ThreadValid(th: Thread)
      requires th in locals
      reads this, locals[th]
    {
      th in views && locals[th].Valid() && locals[th].View() == views[th] && Bounded(views[th])
    }

    ghost predicate Valid()
      reads this, locals.Values
    {
      && Separate(locals) && views.Keys == locals.Keys
      && 1 <= snapshotGlobal < UINT64_MAX && 1 <= currentGlobal < UINT64_MAX
      && forall th {:trigger ThreadValid(th)} :: th in locals ==> ThreadValid(th)
    }

    /** The part of the epoch state that the manager holds itself. */
    ghost function View(): EpochState
      reads this
    {
      EpochState(currentGlobal, snapshotGlobal, views, map[], map[])
    }

    /** One thread's latched call; the other threads are not touched. */
    method TryEnter(th: Thread, e: Eid, kind: TimestampType) returns (ok: bool)
      requires Valid() && th in locals && 1 <= e < UINT64_MAX
      modifies locals[th], this`views
      ensures Valid() && ok == !Refuses(old(views)[th], e, kind)
      ensures views == if ok then old(views)[th := Enter(old(views)[th], e, kind)] else old(views)
    {
      assert ThreadValid(th);
      if !Refuses(views[th], e, kind) { EnterOk(views[th], e, kind); }
      ok := locals[th].EnterEpoch(e, kind);
      if ok { views := views[th := Enter(views[th], e, kind)]; }
      forall x | x in locals ensures ThreadValid(x) {
        assert old(ThreadValid(x));
      }
    }

    /** A read-only transaction enters the snapshot epoch. */
    method EnterSnapshotEpoch(th: Thread) returns (id: Cid)
      requires Valid() && th in locals
      modifies locals[th], this`views
      ensures Valid() && id == snapshotGlobal * 0x1_0000_0000
      ensures views == old(views)[th := Enter(old(views)[th], snapshotGlobal, SNAPSHOT_READ)]
    {
      var ok := TryEnter(th, snapshotGlobal, SNAPSHOT_READ);
      id := snapshotGlobal * 0x1_0000_0000;
    }

    /** The retry loop.  `observed` lists what successive loads of the global epoch return; the loop ends with the
        first that the thread accepts.  `done` is false when the list is used up before that. */
    method EnterReadEpoch(th: Thread, observed: seq<Eid>) returns (done: bool, id: Cid, tries: nat)
      requires Valid() && th in locals && forall i :: 0 <= i < |observed| ==> 1 <= observed[i] < UINT64_MAX
      modifies this`nextTxnId, locals[th], this`views
      ensures Valid() && tries <= |observed| && done == (tries < |observed|)
      ensures forall i :: 0 <= i < tries ==> Refuses(old(views)[th], observed[i], READ_TS)
      ensures done ==>
                && !Refuses(old(views)[th], observed[tries], READ_TS)
                && id == observed[tries] * 0x1_0000_0000 + old(nextTxnId) && nextTxnId == old(nextTxnId) + 1
                && views == old(views)[th := Enter(old(views)[th], observed[tries], READ_TS)]
      ensures !done ==> views == old(views) && nextTxnId == old(nextTxnId)
    {
      tries, id, done := 0, 0, false;
      while tries < |observed|
        invariant Valid() && tries <= |observed| && !done
        invariant views == old(views) && nextTxnId == old(nextTxnId)
        invariant forall i :: 0 <= i < tries ==> Refuses(old(views)[th], observed[i], READ_TS)
      {
        done := TryEnter(th, observed[tries], READ_TS);
        if done {
          id := observed[tries] * 0x1_0000_0000 + nextTxnId;
          label entered:
          nextTxnId := nextTxnId + 1;
          forall x | x in locals ensures ThreadValid(x) { assert old@entered(ThreadValid(x)); }
          return;
        }
        tries := tries + 1;
      }
    }

    method ExitEpoch(th: Thread, e: Eid)
      requires Valid() && th in locals && e in views[th].counts && views[th].counts[e] > 0
      modifies locals[th], this`views
      ensures Valid() && views == old(views)[th := Exit(old(views)[th], e)]
    {
      assert ThreadValid(th);
      ExitLocal(views[th], e);
      locals[th].ExitEpoch(e);
      views := views[th := Exit(views[th], e)];
      forall x | x in locals ensures ThreadValid(x) {
        assert old(ThreadValid(x));
      }
    }

    method AskThread(th: Thread) returns (bound: Eid)
      requires Valid() && th in locals
      modifies locals[th], this`views
      ensures Valid() && views == old(views)[th := Expire(old(views)[th], currentGlobal)]
      ensures bound == Bound(views[th]) && bound + 1 < UINT64_MAX
    {
      assert ThreadValid(th);
      ExpireBounded(views[th], currentGlobal);
      bound := locals[th].GetExpiredEpochId(currentGlobal);
      views := views[th := Expire(views[th], currentGlobal)];
      forall x | x in locals ensures ThreadValid(x) {
        assert old(ThreadValid(x));
      }
    }

    /** Asks every thread, in any order, for its bound. */
    method SmallestAnswer() returns (r: Eid)
      requires Valid() && locals != map[]
      modifies locals.Values, this`views
      ensures Valid() && views == Collected(old(View()))
      ensures r == ExpiredId(old(View())) && r + 1 < UINT64_MAX
    {
      ghost var g := View();
      r := UINT64_MAX;
      var rest := locals.Keys;
      while rest != {}
        invariant rest <= locals.Keys && Valid() && Asked(g, views, rest, r)
        decreases rest
      {
        var th :| th in rest;
        ghost var before, smallest := views, r;
        var bound := AskThread(th);
        if bound < r { r := bound; }
        AskedOne(g, before, rest, smallest, th);
        rest := rest - {th};
      }
      AskedAll(g, views, r);
    }

    lemma AnswerIsOldest()
      requires Valid() && locals != map[]
      ensures BeforeOldest(View(), ExpiredId(View()))
    {
      forall th | th in locals ensures LocalOk(views[th]) { assert ThreadValid(th); }
      SmallestBound(View());
    }

    method PassSnapshot(r: Eid)
      requires Valid() && r + 1 < UINT64_MAX
      modifies this`snapshotGlobal
      ensures Valid() && snapshotGlobal == if r >= old(snapshotGlobal) then r + 1 else old(snapshotGlobal)
    {
      if r != UINT64_MAX && r >= snapshotGlobal {
        snapshotGlobal := r + 1;
        forall x | x in locals ensures ThreadValid(x) { assert old(ThreadValid(x)); }
      }
    }

    /** Moves the snapshot epoch behind the smallest answer. */
    method GetExpiredEpochId() returns (r: Eid)
      requires Valid() && locals != map[]
      modifies this`snapshotGlobal, locals.Values, this`views
      ensures Valid() && r == ExpiredId(old(View()))
      ensures View() == EpochStep(old(View()), Collect)
      ensures BeforeOldest(old(View()), r)
    {
      AnswerIsOldest();
      r := SmallestAnswer();
      PassSnapshot(r);
    }
  }

  /** The threads outside `rest` have been asked and `r` is the smallest of their answers so far. */
  ghost predicate Asked(g: EpochState, views: map<Thread, Local>, rest: set<Thread>, r: nat) {
    && g.current >= 1 && views.Keys == g.locals.Keys
    && (forall th :: th in views ==> views[th] == if th in rest then g.locals[th] else Collected(g)[th])
    && (forall th :: th in views && th !in rest ==> r <= Bound(Collected(g)[th]))
    && (if rest == g.locals.Keys then r == UINT64_MAX
        else r + 1 < UINT64_MAX && exists th :: th in g.locals && r == Bound(Collected(g)[th]))
  }

  lemma AskedOne(g: EpochState, views: map<Thread, Local>, rest: set<Thread>, r: nat, th: Thread)
    requires Asked(g, views, rest, r) && th in rest && rest <= g.locals.Keys && Bound(Collected(g)[th]) + 1 < UINT64_MAX
    ensures Asked(g, views[th := Expire(views[th], g.current)], rest - {th},
                  if Bound(Collected(g)[th]) < r then Bound(Collected(g)[th]) else r)
  {
  }

  lemma AskedAll(g: EpochState, views: map<Thread, Local>, r: nat)
    requires Asked(g, views, {}, r) && g.locals != map[]
    ensures views == Collected(g) && r == ExpiredId(g) && r + 1 < UINT64_MAX
  {
    var some :| some in g.locals;
    assert g.locals.Keys != {};
    var bounds := set th | th in g.locals :: Bound(Expire(g.locals[th], g.current));
    var th :| th in g.locals && r == Bound(Collected(g)[th]);
    assert Bound(Expire(g.locals[th], g.current)) in bounds;
  }

  lemma ExpireBounded(l: Local, current: Eid)
    requires DecentralizedEpochManager.Bounded(l) && 1 <= current < UINT64_MAX
    ensures var l' := Expire(l, current);
            DecentralizedEpochManager.Bounded(l') && l'.lower.Some? && l'.lower.value + 1 < UINT64_MAX
  {
    if l.counts != map[] {
      TrimOk(l);
      assert Least(Live(l.counts)) in l.counts;
    }
  }
}
