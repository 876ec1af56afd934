/** Epochs: which transactions are in which epoch on which thread, and which epochs have expired. */
module Epochs {
  import opened Base

  type Eid = nat
  type Thread = nat

  datatype TimestampType = READ_TS | SNAPSHOT_READ | COMMIT_TS

  /** One thread: the lower bound (None stands for the start value, the largest integer) and the number of
      running transactions per queued epoch. */
  datatype Local = Local(lower: Option<Eid>, counts: map<Eid, nat>)

  const NEW_LOCAL := Local(None, map[])

  ghost function Least(s: set<Eid>): (m: Eid)
    requires s != {}
    ensures m in s && forall x :: x in s ==> m <= x
  {
    var x :| x in s;
    if s == {x} then x
    else
      assert s == (s - {x}) + {x};
      var m := Least(s - {x});
      if x < m then x else m
  }

  function Live(counts: map<Eid, nat>): set<Eid> {
    set e | e in counts && counts[e] > 0
  }

  /** Pop empty epochs off the front of the queue; the bound follows the first one that is in use. */
  ghost function Trim(l: Local): Local {
    if Live(l.counts) == {} then Local(l.lower, map[])
    else
      var m := Least(Live(l.counts));
      Local(Some(if m == 0 then 0 else m - 1), map e | e in l.counts && m <= e :: l.counts[e])
  }

  predicate Refuses(l: Local, e: Eid, kind: TimestampType) {
    kind != SNAPSHOT_READ && l.lower.Some? && l.lower.value >= e
  }

  function Enter(l: Local, e: Eid, kind: TimestampType): Local
    requires e >= 1 && !Refuses(l, e, kind)
  {
    Local(if l.lower == None || l.lower.value >= e then Some(e - 1) else l.lower,
          if kind == COMMIT_TS then l.counts
          else l.counts[e := if e in l.counts then l.counts[e] + 1 else 1])
  }

  ghost function Exit(l: Local, e: Eid): Local
    requires e in l.counts && l.counts[e] > 0
  {
    Trim(l.(counts := l.counts[e := l.counts[e] - 1]))
  }

  ghost function Expire(l: Local, current: Eid): Local
    requires current >= 1
  {
    if l.counts == map[] then l.(lower := Some(current - 1)) else Trim(l)
  }

  /** Every queued epoch exceeds the lower bound and the front of the queue is in use. */
  ghost predicate LocalOk(l: Local) {
    && (forall e :: e in l.counts ==> l.lower.Some? && l.lower.value < e)
    && (l.counts != map[] ==> Live(l.counts) != {} && forall e :: e in l.counts ==> Least(Live(l.counts)) <= e)
  }

  lemma EnterOk(l: Local, e: Eid, kind: TimestampType)
    requires LocalOk(l) && e >= 1 && !Refuses(l, e, kind)
    ensures LocalOk(Enter(l, e, kind))
  {
    var l' := Enter(l, e, kind);
    if kind != COMMIT_TS {
      assert e in Live(l'.counts);
      assert Live(l.counts) <= Live(l'.counts);
    }
  }

  lemma TrimOk(l: Local)
    requires forall e :: e in l.counts ==> l.lower.Some? && l.lower.value < e
    ensures LocalOk(Trim(l))
    ensures Live(l.counts) != {} ==> Trim(l).lower == Some(Least(Live(l.counts)) - 1)
    ensures Live(l.counts) == {} ==> Trim(l).lower == l.lower
    ensures Live(Trim(l).counts) == Live(l.counts)
    ensures forall e :: e in Live(l.counts) ==> e in Trim(l).counts && Trim(l).counts[e] == l.counts[e]
  {
    if Live(l.counts) != {} {
      var m := Least(Live(l.counts));
      assert m in Live(Trim(l).counts);
    }
  }

  function CountOf(l: Local, e: Eid): nat {
    if e in l.counts then l.counts[e] else 0
  }

  /** Trimming drops nothing but zeros. */
  lemma TrimCounts(l: Local, e: Eid)
    requires forall d :: d in l.counts ==> l.lower.Some? && l.lower.value < d
    ensures CountOf(Trim(l), e) == CountOf(l, e)
  {
    TrimOk(l);
    assert e in Live(l.counts) <==> CountOf(l, e) > 0;
    assert e in Live(Trim(l).counts) <==> CountOf(Trim(l), e) > 0;
  }

  // ----- All threads together -----

  /** Who is in an epoch: an updating transaction, named by its commit id, or a read-only one. */
  datatype Client = Writer(id: Cid) | Reader(handle: nat, id: Cid)

  datatype Entry = Entry(thread: Thread, epoch: Eid)

  /** `loaded` holds the global epoch a thread has loaded and not yet entered with. */
  datatype EpochState = EpochState(
    current: Eid, snapshot: Eid,
    locals: map<Thread, Local>, loaded: map<Thread, Eid>, active: map<Client, Entry>)

  datatype EpochAction =
    | Tick
    | Load(thread: Thread)
    | EnterRead(thread: Thread, client: Client)
    | Retry(thread: Thread)
    | EnterSnapshot(thread: Thread, client: Client)
    | Leave(client: Client)
    | Collect

  predicate EpochEnabled(g: EpochState, a: EpochAction) {
    match a
    case Tick => true
    case Load(th) => th in g.locals
    case EnterRead(th, c) =>
      th in g.loaded && th in g.locals && c !in g.active && g.loaded[th] >= 1 &&
      !Refuses(g.locals[th], g.loaded[th], READ_TS)
    case Retry(th) => th in g.loaded && th in g.locals && Refuses(g.locals[th], g.loaded[th], READ_TS)
    case EnterSnapshot(th, c) => th in g.locals && c !in g.active && g.snapshot >= 1
    case Leave(c) =>
      c in g.active && g.active[c].thread in g.locals && g.active[c].epoch in g.locals[g.active[c].thread].counts &&
      g.locals[g.active[c].thread].counts[g.active[c].epoch] > 0
    case Collect => g.locals != map[] && g.current >= 1
  }

  function Bound(l: Local): Eid {
    if l.lower.Some? then l.lower.value else 0
  }

  ghost function Collected(g: EpochState): map<Thread, Local>
    requires g.current >= 1
  {
    map th | th in g.locals :: Expire(g.locals[th], g.current)
  }

  /** The smallest bound over all threads, after each has been asked. */
  ghost function ExpiredId(g: EpochState): Eid
    requires g.locals != map[] && g.current >= 1
  {
    var bounds := set th | th in g.locals :: Bound(Expire(g.locals[th], g.current));
    var th :| th in g.locals;
    assert Bound(Expire(g.locals[th], g.current)) in bounds;
    Least(bounds)
  }

  ghost function EpochStep(g: EpochState, a: EpochAction): EpochState
    requires EpochEnabled(g, a)
  {
    match a
    case Tick => g.(current := g.current + 1)
    case Load(th) => g.(loaded := g.loaded[th := g.current])
    case EnterRead(th, c) =>
      g.(locals := g.locals[th := Enter(g.locals[th], g.loaded[th], READ_TS)],
         loaded := g.loaded - {th},
         active := g.active[c := Entry(th, g.loaded[th])])
    case Retry(th) => g.(loaded := g.loaded - {th})
    case EnterSnapshot(th, c) =>
      g.(locals := g.locals[th := Enter(g.locals[th], g.snapshot, SNAPSHOT_READ)],
         active := g.active[c := Entry(th, g.snapshot)])
    case Leave(c) =>
      var en := g.active[c];
      g.(locals := g.locals[en.thread := Exit(g.locals[en.thread], en.epoch)], active := g.active - {c})
    case Collect =>
      g.(locals := Collected(g),
         snapshot := if ExpiredId(g) >= g.snapshot then ExpiredId(g) + 1 else g.snapshot)
  }

  // ----- The invariant -----

  function Inside(active: map<Client, Entry>, th: Thread, e: Eid): set<Client> {
    set c | c in active && active[c] == Entry(th, e)
  }

  predicate CountedAt(g: EpochState, th: Thread, e: Eid)
    requires th in g.locals
  {
    |Inside(g.active, th, e)| == CountOf(g.locals[th], e)
  }

  /** The queue of the thread and the transactions that run on it. */
  ghost predicate CountsOk(g: EpochState, th: Thread)
    requires th in g.locals
  {
    var l := g.locals[th];
    && LocalOk(l)
    && (l.lower.Some? ==> l.lower.value + 1 <= g.current)
    && (forall e :: e in l.counts ==> e <= g.current)
    && (forall e {:trigger CountedAt(g, th, e)} :: CountedAt(g, th, e))
  }

  /** The snapshot epoch is not ahead of the thread's bound. */
  predicate BoundOk(g: EpochState, th: Thread)
    requires th in g.locals
  {
    if g.locals[th].lower == None then g.snapshot == 1 else g.snapshot <= g.locals[th].lower.value + 1
  }

  /** What holds whether or not the expired ids returned so far were safe. */
  ghost predicate CountsInv(g: EpochState) {
    && 1 <= g.snapshot <= g.current && g.locals != map[]
    && (forall th {:trigger CountsOk(g, th)} :: th in g.locals ==> CountsOk(g, th))
    && (forall th :: th in g.loaded ==> th in g.locals && 1 <= g.loaded[th] <= g.current)
    && (forall c :: c in g.active ==> g.active[c].thread in g.locals)
  }

  ghost predicate EpochInv(g: EpochState) {
    CountsInv(g) && forall th {:trigger BoundOk(g, th)} :: th in g.locals ==> BoundOk(g, th)
  }

  /** A running transaction is counted, so its epoch is above its thread's bound. */
  lemma RunningCounted(g: EpochState, c: Client)
    requires CountsInv(g) && c in g.active
    ensures var en := g.active[c];
            && en.thread in g.locals && en.epoch in g.locals[en.thread].counts
            && g.locals[en.thread].counts[en.epoch] > 0
            && g.locals[en.thread].lower.Some? && g.locals[en.thread].lower.value < en.epoch <= g.current
  {
    var en := g.active[c];
    assert CountsOk(g, en.thread) && CountedAt(g, en.thread, en.epoch);
    assert c in Inside(g.active, en.thread, en.epoch);
  }

  /** If all ids returned were safe, it is not below the snapshot either. */
  lemma ActiveCounted(g: EpochState, c: Client)
    requires EpochInv(g) && c in g.active
    ensures var en := g.active[c];
            && en.thread in g.locals && en.epoch in g.locals[en.thread].counts
            && g.locals[en.thread].counts[en.epoch] > 0
            && g.snapshot <= en.epoch <= g.current
  {
    RunningCounted(g, c);
    assert BoundOk(g, g.active[c].thread);
  }

  lemma EnterCounts(g: EpochState, g': EpochState, th: Thread, e: Eid, c: Client, kind: TimestampType, x: Thread,
      d: Eid)
    requires th in g.locals && x in g.locals && c !in g.active && kind != COMMIT_TS && e >= 1
    requires !Refuses(g.locals[th], e, kind)
    requires g'.locals == g.locals[th := Enter(g.locals[th], e, kind)] && g'.active == g.active[c := Entry(th, e)]
    requires CountedAt(g, x, d)
    ensures CountedAt(g', x, d)
  {
    if x == th && d == e {
      assert Inside(g'.active, x, d) == Inside(g.active, x, d) + {c};
    } else {
      assert Inside(g'.active, x, d) == Inside(g.active, x, d);
    }
  }

  lemma EnterThread(g: EpochState, g': EpochState, th: Thread, e: Eid, c: Client, kind: TimestampType, x: Thread)
    requires CountsInv(g) && th in g.locals && x in g.locals && c !in g.active && kind != COMMIT_TS
    requires 1 <= e <= g.current && !Refuses(g.locals[th], e, kind)
    requires g'.locals == g.locals[th := Enter(g.locals[th], e, kind)] && g'.active == g.active[c := Entry(th, e)]
    requires g'.current == g.current
    ensures CountsOk(g', x)
  {
    assert CountsOk(g, x) && CountsOk(g, th);
    EnterOk(g.locals[th], e, kind);
    forall d ensures CountedAt(g', x, d) {
      assert CountedAt(g, x, d);
      EnterCounts(g, g', th, e, c, kind, x, d);
    }
  }

  /** An accepted read enters an epoch not below the snapshot, however stale the epoch it loaded. */
  lemma AcceptedEpoch(g: EpochState, th: Thread, c: Client)
    requires EpochInv(g) && EpochEnabled(g, EnterRead(th, c))
    ensures g.snapshot <= g.loaded[th] <= g.current
  {
    assert BoundOk(g, th);
  }

  /** A refused read had loaded an epoch that has since passed, so a fresh load can be accepted. */
  lemma RefusedMeansAdvanced(g: EpochState, th: Thread)
    requires CountsInv(g) && th in g.locals && th in g.loaded
    ensures Refuses(g.locals[th], g.loaded[th], READ_TS) ==> g.loaded[th] < g.current
    ensures !Refuses(g.locals[th], g.current, READ_TS)
  {
    assert CountsOk(g, th);
  }

  function Decremented(l: Local, e: Eid): Local
    requires e in l.counts && l.counts[e] > 0
  {
    l.(counts := l.counts[e := l.counts[e] - 1])
  }

  lemma ExitCounts(g: EpochState, c: Client, x: Thread, d: Eid)
    requires CountsInv(g) && EpochEnabled(g, Leave(c)) && x in g.locals
    ensures CountedAt(EpochStep(g, Leave(c)), x, d)
  {
    var en := g.active[c];
    var g' := EpochStep(g, Leave(c));
    assert CountsOk(g, x) && CountedAt(g, x, d);
    if x == en.thread { TrimCounts(Decremented(g.locals[x], en.epoch), d); }
    if x == en.thread && d == en.epoch {
      assert Inside(g'.active, x, d) == Inside(g.active, x, d) - {c};
    } else {
      assert Inside(g'.active, x, d) == Inside(g.active, x, d);
    }
  }

  lemma ExitLocal(l: Local, e: Eid)
    requires LocalOk(l) && e in l.counts && l.counts[e] > 0
    ensures var l' := Exit(l, e);
            && LocalOk(l') && l'.lower.Some? && l.lower.value <= l'.lower.value
            && l'.counts.Keys <= l.counts.Keys
            && (l'.lower == l.lower || l'.lower.value + 1 in l.counts)
  {
    var mid := Decremented(l, e);
    TrimOk(mid);
    if Live(mid.counts) != {} { assert Least(Live(mid.counts)) in l.counts; }
  }

  lemma ExitThread(g: EpochState, c: Client, x: Thread)
    requires CountsInv(g) && EpochEnabled(g, Leave(c)) && x in g.locals
    ensures CountsOk(EpochStep(g, Leave(c)), x)
  {
    var en := g.active[c];
    var g' := EpochStep(g, Leave(c));
    assert CountsOk(g, x);
    if x == en.thread { ExitLocal(g.locals[x], en.epoch); }
    forall d ensures CountedAt(g', x, d) { ExitCounts(g, c, x, d); }
  }

  /** After being asked, a thread has a bound below the current epoch and below all it runs, no lower than before. */
  lemma ExpireThread(g: EpochState, x: Thread)
    requires CountsInv(g) && x in g.locals
    ensures var l := Expire(g.locals[x], g.current);
            && LocalOk(l) && l.lower.Some? && l.lower.value + 1 <= g.current
            && Bound(g.locals[x]) <= l.lower.value
            && (forall e :: e in l.counts ==> e <= g.current)
            && (forall d :: CountOf(l, d) == CountOf(g.locals[x], d))
  {
    assert CountsOk(g, x);
    var l := g.locals[x];
    if l.counts != map[] {
      TrimOk(l);
      assert Least(Live(l.counts)) in l.counts;
      forall d ensures CountOf(Trim(l), d) == CountOf(l, d) { TrimCounts(l, d); }
    }
  }

  lemma ExpiredIdLeast(g: EpochState)
    requires CountsInv(g)
    ensures ExpiredId(g) + 1 <= g.current
    ensures exists x :: x in g.locals && ExpiredId(g) == Bound(Expire(g.locals[x], g.current))
    ensures forall x :: x in g.locals ==> ExpiredId(g) <= Bound(Expire(g.locals[x], g.current))
  {
    var bounds := set th | th in g.locals :: Bound(Expire(g.locals[th], g.current));
    var th :| th in g.locals && Bound(Expire(g.locals[th], g.current)) == ExpiredId(g);
    ExpireThread(g, th);
    forall x | x in g.locals ensures ExpiredId(g) <= Bound(Expire(g.locals[x], g.current)) {
      assert Bound(Expire(g.locals[x], g.current)) in bounds;
    }
  }

  lemma ExpiredIdBounds(g: EpochState)
    requires EpochInv(g)
    ensures g.snapshot <= ExpiredId(g) + 1 <= g.current
    ensures forall x :: x in g.locals ==> ExpiredId(g) <= Bound(Expire(g.locals[x], g.current))
  {
    ExpiredIdLeast(g);
    var th :| th in g.locals && Bound(Expire(g.locals[th], g.current)) == ExpiredId(g);
    assert BoundOk(g, th);
    ExpireThread(g, th);
  }

  // ----- The expired id, told by who is running -----

  /** The oldest epoch a thread is in, or the current one when it runs nothing. */
  ghost function OldestIn(l: Local, current: Eid): Eid {
    if Live(l.counts) == {} then current else Least(Live(l.counts))
  }

  ghost function OldestOn(g: EpochState, th: Thread): Eid {
    Least({g.current} + set c | c in g.active && g.active[c].thread == th :: g.active[c].epoch)
  }

  /** The oldest epoch anyone is in, or the current one when nobody runs. */
  ghost function Oldest(g: EpochState): Eid {
    Least({g.current} + set c | c in g.active :: g.active[c].epoch)
  }

  lemma ExpireIsOldest(l: Local, current: Eid)
    requires LocalOk(l) && current >= 1
    ensures Bound(Expire(l, current)) + 1 == OldestIn(l, current)
  {
    if l.counts != map[] { TrimOk(l); }
  }

  /** `r` is the epoch before the oldest one that some thread is in. */
  ghost predicate BeforeOldest(g: EpochState, r: Eid) {
    && (exists th :: th in g.locals && r + 1 == OldestIn(g.locals[th], g.current))
    && (forall th :: th in g.locals ==> r + 1 <= OldestIn(g.locals[th], g.current))
  }

  lemma SmallestBound(g: EpochState)
    requires g.locals != map[] && g.current >= 1 && forall th :: th in g.locals ==> LocalOk(g.locals[th])
    ensures BeforeOldest(g, ExpiredId(g))
  {
    var bounds := set th | th in g.locals :: Bound(Expire(g.locals[th], g.current));
    forall th | th in g.locals ensures ExpiredId(g) + 1 <= OldestIn(g.locals[th], g.current) {
      ExpireIsOldest(g.locals[th], g.current);
      assert Bound(Expire(g.locals[th], g.current)) in bounds;
    }
    var th :| th in g.locals && Bound(Expire(g.locals[th], g.current)) == ExpiredId(g);
    ExpireIsOldest(g.locals[th], g.current);
  }

  lemma OldestOnThread(g: EpochState, th: Thread)
    requires CountsInv(g) && th in g.locals
    ensures OldestOn(g, th) == OldestIn(g.locals[th], g.current)
  {
    var live := Live(g.locals[th].counts);
    var here := set c | c in g.active && g.active[c].thread == th :: g.active[c].epoch;
    assert CountsOk(g, th);
    forall e ensures e in live <==> e in here {
      assert CountedAt(g, th, e);
      assert e in live <==> CountOf(g.locals[th], e) > 0;
      if c :| c in Inside(g.active, th, e) { assert e in here; }
      if e in here {
        var c :| c in g.active && g.active[c].thread == th && g.active[c].epoch == e;
        assert c in Inside(g.active, th, e);
      }
    }
    assert live == here;
  }

  lemma OldestOfAll(g: EpochState)
    requires CountsInv(g)
    ensures exists th :: th in g.locals && Oldest(g) == OldestOn(g, th)
    ensures forall th :: th in g.locals ==> Oldest(g) <= OldestOn(g, th)
  {
    var all := set c | c in g.active :: g.active[c].epoch;
    forall th | th in g.locals ensures Oldest(g) <= OldestOn(g, th) {
      var here := set c | c in g.active && g.active[c].thread == th :: g.active[c].epoch;
      assert here <= all;
    }
    if Oldest(g) in all {
      var c :| c in g.active && g.active[c].epoch == Oldest(g);
      var th := g.active[c].thread;
      var here := set d | d in g.active && g.active[d].thread == th :: g.active[d].epoch;
      assert Oldest(g) in here;
    } else {
      var th :| th in g.locals;
      CurrentIsTop(g, th);
    }
  }

  lemma CurrentIsTop(g: EpochState, th: Thread)
    ensures OldestOn(g, th) <= g.current
  {
    assert g.current in {g.current} + set c | c in g.active && g.active[c].thread == th :: g.active[c].epoch;
  }

  /** What GetExpiredEpochId returns is the epoch just before the oldest one anyone is in; nothing is held back by a
      thread that runs nothing. */
  lemma ExpiredIsOldest(g: EpochState)
    requires CountsInv(g)
    ensures ExpiredId(g) + 1 == Oldest(g)
  {
    forall th | th in g.locals ensures LocalOk(g.locals[th]) { assert CountsOk(g, th); }
    SmallestBound(g);
    OldestOfAll(g);
    forall th | th in g.locals ensures OldestOn(g, th) == OldestIn(g.locals[th], g.current) { OldestOnThread(g, th); }
  }

  /** The snapshot epoch becomes the oldest one anyone is in, one more than the expired id, and never goes back. */
  lemma SnapshotFollows(g: EpochState)
    requires EpochInv(g)
    ensures EpochStep(g, Collect).snapshot == ExpiredId(g) + 1 == Oldest(g)
    ensures g.snapshot - 1 <= ExpiredId(g)
  {
    ExpiredIdBounds(g);
    ExpiredIsOldest(g);
  }

  lemma SameThread(g: EpochState, g': EpochState, x: Thread)
    requires CountsInv(g) && x in g.locals && x in g'.locals && g'.active == g.active && g.current <= g'.current
    requires g'.locals[x] == g.locals[x] || g'.locals[x] == Expire(g.locals[x], g.current)
    ensures CountsOk(g', x)
  {
    assert CountsOk(g, x);
    ExpireThread(g, x);
    forall d ensures CountedAt(g', x, d) { assert CountedAt(g, x, d); }
  }

  /** Every step keeps the counts right, whatever the snapshot epoch is. */
  lemma CountsKept(g: EpochState, a: EpochAction)
    requires CountsInv(g) && EpochEnabled(g, a)
    ensures CountsInv(EpochStep(g, a)) && g.snapshot <= EpochStep(g, a).snapshot
  {
    var g' := EpochStep(g, a);
    if a.Collect? {
      ExpiredIdLeast(g);
      assert g'.locals.Keys == g.locals.Keys;
    }
    forall x | x in g'.locals ensures CountsOk(g', x) {
      match a {
        case EnterRead(th, c) => EnterThread(g, g', th, g.loaded[th], c, READ_TS, x);
        case EnterSnapshot(th, c) => EnterThread(g, g', th, g.snapshot, c, SNAPSHOT_READ, x);
        case Leave(c) => ExitThread(g, c, x);
        case _ => SameThread(g, g', x);
      }
    }
  }

  lemma BoundKept(g: EpochState, a: EpochAction, x: Thread)
    requires EpochInv(g) && EpochEnabled(g, a) && x in EpochStep(g, a).locals
    ensures BoundOk(EpochStep(g, a), x)
  {
    assert BoundOk(g, x);
    match a {
      case EnterRead(th, c) => AcceptedEpoch(g, th, c);
      case Leave(c) =>
        assert CountsOk(g, g.active[c].thread);
        ExitLocal(g.locals[g.active[c].thread], g.active[c].epoch);
      case Collect =>
        ExpiredIdBounds(g);
        ExpireThread(g, x);
      case _ =>
    }
  }

  lemma EpochStepKeeps(g: EpochState, a: EpochAction)
    requires EpochInv(g) && EpochEnabled(g, a)
    ensures EpochInv(EpochStep(g, a)) && g.snapshot <= EpochStep(g, a).snapshot
  {
    CountsKept(g, a);
    forall x | x in EpochStep(g, a).locals ensures BoundOk(EpochStep(g, a), x) { BoundKept(g, a, x); }
  }

  // ----- Runs -----

  ghost function EpochRun(g: EpochState, actions: seq<EpochAction>): Option<EpochState>
    decreases |actions|
  {
    if actions == [] then Some(g)
    else if EpochEnabled(g, actions[0]) then EpochRun(EpochStep(g, actions[0]), actions[1..])
    else None
  }

  lemma EpochRunKeeps(g: EpochState, actions: seq<EpochAction>)
    requires EpochInv(g) && EpochRun(g, actions).Some?
    ensures EpochInv(EpochRun(g, actions).value) && g.snapshot <= EpochRun(g, actions).value.snapshot
    decreases |actions|
  {
    if actions != [] {
      EpochStepKeeps(g, actions[0]);
      EpochRunKeeps(EpochStep(g, actions[0]), actions[1..]);
    }
  }

  /** Once an id has been returned as expired, then and at any later time every running transaction is in a
      later epoch, and the next one to enter on any thread will be too. */
  lemma EpochSafety(g: EpochState, actions: seq<EpochAction>, g': EpochState)
    requires EpochInv(g) && EpochRun(EpochStep(g, Collect), actions) == Some(g')
    ensures EpochInv(g')
    ensures forall c :: c in g'.active ==> ExpiredId(g) < g'.active[c].epoch
    ensures forall th, c :: EpochEnabled(g', EnterRead(th, c)) ==> ExpiredId(g) < g'.loaded[th]
    ensures ExpiredId(g) < g'.snapshot
    ensures ExpiredId(g) <= ExpiredId(g')
  {
    SnapshotFollows(g);
    EpochStepKeeps(g, Collect);
    EpochRunKeeps(EpochStep(g, Collect), actions);
    forall c | c in g'.active ensures ExpiredId(g) < g'.active[c].epoch { ActiveCounted(g', c); }
    forall th, c | EpochEnabled(g', EnterRead(th, c)) ensures ExpiredId(g) < g'.loaded[th] {
      AcceptedEpoch(g', th, c);
    }
    SnapshotFollows(g');
  }

  /** Start of the manager: a fixed, non-empty set of threads, none of which has been used. */
  function EpochStart(threads: set<Thread>, current: Eid): EpochState {
    EpochState(current, 1, map th | th in threads :: NEW_LOCAL, map[], map[])
  }

  lemma EpochStartOk(threads: set<Thread>, current: Eid)
    requires threads != {} && current >= 1
    ensures EpochInv(EpochStart(threads, current))
  {
    var g := EpochStart(threads, current);
    var th :| th in threads;
    assert th in g.locals;
    forall x | x in g.locals ensures CountsOk(g, x) {
      forall d ensures CountedAt(g, x, d) { assert Inside(g.active, x, d) == {}; }
    }
  }
}
