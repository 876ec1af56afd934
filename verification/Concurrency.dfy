/** The version store and the epoch manager together. */
module Concurrency {
  import opened Base
  import opened Mvto
  import opened MvtoInvariant
  import opened FieldWrites
  import opened VersionTheorems
  import opened Epochs
  import opened MvtoHistory
  import opened Serializability

  // Transactions get their ids from epochs, and what the epochs promise about ids carries over to what transactions
  // can see.

  const SHIFT: nat := 0x1_0000_0000

  /** Commit ids are (epoch << 32) | n; read-only ids have n = 0. */
  function Id(e: Eid, n: nat): Cid {
    e * SHIFT + n
  }

  function EpochOf(id: Cid): Eid {
    id / SHIFT
  }

  /** `counter` is the number the next updating transaction draws. */
  datatype System = System(fine: Fine, epochs: EpochState, counter: nat)

  datatype SystemAction =
    | Clock
    | LoadEpoch(thread: Thread)
    | RetryEnter(thread: Thread)
    | BeginWriter(thread: Thread)
    | BeginReader(thread: Thread, handle: nat)
    | Proceed(b: FineAction)
    | End(client: Client)
    | Garbage

  function NextWriter(y: System, th: Thread): Client
    requires th in y.epochs.loaded
  {
    Writer(Id(y.epochs.loaded[th], y.counter))
  }

  function NextReader(y: System, h: nat): Client {
    Reader(h, Id(y.epochs.snapshot, 0))
  }

  /** The calls an updating transaction makes once it has begun. */
  predicate IsBegin(b: FineAction) {
    b.Call? && b.a.Begin?
  }

  predicate SystemEnabled(y: System, a: SystemAction) {
    match a
    case Clock => y.epochs.current + 1 < SHIFT - 1
    case LoadEpoch(th) => EpochEnabled(y.epochs, Load(th))
    case RetryEnter(th) => EpochEnabled(y.epochs, Retry(th))
    case BeginWriter(th) =>
      th in y.epochs.loaded && y.counter < SHIFT && EpochEnabled(y.epochs, EnterRead(th, NextWriter(y, th)))
    case BeginReader(th, h) => EpochEnabled(y.epochs, EnterSnapshot(th, NextReader(y, h)))
    case Proceed(b) => !IsBegin(b) && FineEnabled(y.fine, b)
    case End(c) =>
      && EpochEnabled(y.epochs, Leave(c))
      && (c.Writer? ==> c.id in y.fine.store.txns && y.fine.store.txns[c.id].status != Active)
    case Garbage => EpochEnabled(y.epochs, Collect)
  }

  function Begun(s: Store, t: Cid): Store {
    s.(txns := s.txns[t := Txn(Active, map[], false, 0, [])])
  }

  ghost function SystemStep(y: System, a: SystemAction): System
    requires SystemEnabled(y, a)
  {
    match a
    case Clock => y.(epochs := EpochStep(y.epochs, Tick))
    case LoadEpoch(th) => y.(epochs := EpochStep(y.epochs, Load(th)))
    case RetryEnter(th) => y.(epochs := EpochStep(y.epochs, Retry(th)))
    case BeginWriter(th) =>
      var c := NextWriter(y, th);
      System(y.fine.(store := Begun(y.fine.store, c.id)), EpochStep(y.epochs, EnterRead(th, c)), y.counter + 1)
    case BeginReader(th, h) => y.(epochs := EpochStep(y.epochs, EnterSnapshot(th, NextReader(y, h))))
    case Proceed(b) => y.(fine := FineStep(y.fine, b))
    case End(c) => y.(epochs := EpochStep(y.epochs, Leave(c)))
    case Garbage => y.(epochs := EpochStep(y.epochs, Collect))
  }

  ghost function SystemRun(y: System, actions: seq<SystemAction>): Option<System>
    decreases |actions|
  {
    if actions == [] then Some(y)
    else if SystemEnabled(y, actions[0]) then SystemRun(SystemStep(y, actions[0]), actions[1..])
    else None
  }

  // ----- The invariant that ties the two -----

  /** An updating transaction that runs, commits or aborts is inside the epoch its id names. */
  predicate WriterOk(y: System, t: Cid)
    requires t in y.fine.store.txns
  {
    && t % SHIFT < y.counter
    && (y.fine.store.txns[t].status == Active ==>
          Writer(t) in y.epochs.active && y.epochs.active[Writer(t)].epoch == EpochOf(t))
  }

  /** A read-only transaction has the id of its epoch. */
  predicate PersonOk(y: System, c: Client)
    requires c in y.epochs.active
  {
    if c.Writer? then c.id in y.fine.store.txns else c.id == Id(y.epochs.active[c].epoch, 0)
  }

  /** What holds whether or not the expired ids returned so far were safe. */
  ghost predicate BasicInv(y: System) {
    && FineInv(y.fine) && CountsInv(y.epochs)
    && y.counter <= SHIFT && y.epochs.current < SHIFT - 1
    && (forall t {:trigger WriterOk(y, t)} :: t in y.fine.store.txns ==> WriterOk(y, t))
    && (forall c {:trigger PersonOk(y, c)} :: c in y.epochs.active ==> PersonOk(y, c))
  }

  /** A read-only transaction is in the snapshot epoch, which stays while it runs. */
  predicate ClientOk(y: System, c: Client)
    requires c in y.epochs.active
  {
    PersonOk(y, c) && (c.Reader? ==> y.epochs.active[c].epoch == y.epochs.snapshot)
  }

  ghost predicate SystemInv(y: System) {
    && BasicInv(y) && EpochInv(y.epochs)
    && (forall c {:trigger ClientOk(y, c)} :: c in y.epochs.active ==> ClientOk(y, c))
  }

  lemma IdParts(e: Eid, n: nat)
    requires n < SHIFT
    ensures EpochOf(Id(e, n)) == e && Id(e, n) % SHIFT == n
  {
  }

  // ----- Each step keeps it -----

  /** What a step of the system is to the epochs. */
  function EpochPart(y: System, a: SystemAction): Option<EpochAction>
    requires SystemEnabled(y, a)
  {
    match a
    case Clock => Some(Tick)
    case LoadEpoch(th) => Some(Load(th))
    case RetryEnter(th) => Some(Retry(th))
    case BeginWriter(th) => Some(EnterRead(th, NextWriter(y, th)))
    case BeginReader(th, h) => Some(EnterSnapshot(th, NextReader(y, h)))
    case Proceed(_) => None
    case End(c) => Some(EpochAction.Leave(c))
    case Garbage => Some(Collect)
  }

  lemma EpochsFollow(y: System, a: SystemAction)
    requires SystemEnabled(y, a)
    ensures var e := EpochPart(y, a);
            && (e.Some? ==> EpochEnabled(y.epochs, e.value))
            && SystemStep(y, a).epochs == if e.Some? then EpochStep(y.epochs, e.value) else y.epochs
  {
  }

  lemma NumbersUsed(y: System)
    requires BasicInv(y)
    ensures forall t :: t in y.fine.store.txns ==> t % SHIFT < y.counter
  {
    forall t | t in y.fine.store.txns ensures t % SHIFT < y.counter { assert WriterOk(y, t); }
  }

  /** A drawn id is new: the counter has passed every number used before. */
  lemma FreshId(y: System, th: Thread)
    requires BasicInv(y) && SystemEnabled(y, BeginWriter(th))
    ensures FineEnabled(y.fine, Call(Begin(NextWriter(y, th).id)))
    ensures y.fine.(store := Begun(y.fine.store, NextWriter(y, th).id)) ==
            FineStep(y.fine, Call(Begin(NextWriter(y, th).id)))
  {
    IdParts(y.epochs.loaded[th], y.counter);
    NumbersUsed(y);
    WorkersKnown(y.fine);
  }

  lemma FineStatus(f: Fine, b: FineAction)
    requires FineEnabled(f, b) && !IsBegin(b)
    ensures FineStep(f, b).store.txns.Keys == f.store.txns.Keys
    ensures forall t :: t in f.store.txns && FineStep(f, b).store.txns[t].status == Active ==>
            f.store.txns[t].status == Active
  {
  }

  lemma FineKept(y: System, a: SystemAction)
    requires BasicInv(y) && SystemEnabled(y, a)
    ensures FineInv(SystemStep(y, a).fine)
  {
    if a.BeginWriter? {
      FreshId(y, a.thread);
      FineStepRefines(y.fine, Call(Begin(NextWriter(y, a.thread).id)));
    } else if a.Proceed? {
      FineStepRefines(y.fine, a.b);
    }
  }

  lemma WriterKept(y: System, a: SystemAction, t: Cid)
    requires BasicInv(y) && SystemEnabled(y, a) && t in SystemStep(y, a).fine.store.txns
    ensures WriterOk(SystemStep(y, a), t)
  {
    match a {
      case BeginWriter(th) =>
        IdParts(y.epochs.loaded[th], y.counter);
        if t != NextWriter(y, th).id { assert WriterOk(y, t); }
      case Proceed(b) =>
        FineStatus(y.fine, b);
        assert WriterOk(y, t);
      case _ => assert WriterOk(y, t);
    }
  }

  lemma PersonKept(y: System, a: SystemAction, c: Client)
    requires BasicInv(y) && SystemEnabled(y, a) && c in SystemStep(y, a).epochs.active
    ensures PersonOk(SystemStep(y, a), c)
  {
    if a.Proceed? { FineStatus(y.fine, a.b); }
    if c in y.epochs.active { assert PersonOk(y, c); }
  }

  lemma BasicStepKeeps(y: System, a: SystemAction)
    requires BasicInv(y) && SystemEnabled(y, a)
    ensures BasicInv(SystemStep(y, a)) && y.epochs.snapshot <= SystemStep(y, a).epochs.snapshot
  {
    var y' := SystemStep(y, a);
    EpochsFollow(y, a);
    if EpochPart(y, a).Some? { CountsKept(y.epochs, EpochPart(y, a).value); }
    FineKept(y, a);
    forall t | t in y'.fine.store.txns ensures WriterOk(y', t) { WriterKept(y, a, t); }
    forall c | c in y'.epochs.active ensures PersonOk(y', c) { PersonKept(y, a, c); }
  }

  /** Collecting cannot pass a running reader: its own count holds the bound of its thread down. */
  lemma SnapshotHeld(g: EpochState, c: Client)
    requires EpochInv(g) && c in g.active && g.active[c].epoch == g.snapshot
    ensures EpochStep(g, Collect).snapshot == g.snapshot
  {
    EpochStepKeeps(g, Collect);
    ActiveCounted(EpochStep(g, Collect), c);
  }

  lemma ClientKept(y: System, a: SystemAction, c: Client)
    requires SystemInv(y) && SystemEnabled(y, a) && c in SystemStep(y, a).epochs.active
    ensures ClientOk(SystemStep(y, a), c)
  {
    PersonKept(y, a, c);
    if c in y.epochs.active {
      assert ClientOk(y, c);
      if a.Garbage? && c.Reader? { SnapshotHeld(y.epochs, c); }
    }
  }

  lemma SystemStepKeeps(y: System, a: SystemAction)
    requires SystemInv(y) && SystemEnabled(y, a)
    ensures SystemInv(SystemStep(y, a)) && y.epochs.snapshot <= SystemStep(y, a).epochs.snapshot
  {
    var y' := SystemStep(y, a);
    BasicStepKeeps(y, a);
    EpochsFollow(y, a);
    if EpochPart(y, a).Some? { EpochStepKeeps(y.epochs, EpochPart(y, a).value); }
    forall c | c in y'.epochs.active ensures ClientOk(y', c) { ClientKept(y, a, c); }
  }

  lemma SystemRunKeeps(y: System, actions: seq<SystemAction>)
    requires SystemInv(y) && SystemRun(y, actions).Some?
    ensures SystemInv(SystemRun(y, actions).value)
    ensures y.epochs.snapshot <= SystemRun(y, actions).value.epochs.snapshot
    decreases |actions|
  {
    if actions != [] {
      SystemStepKeeps(y, actions[0]);
      SystemRunKeeps(SystemStep(y, actions[0]), actions[1..]);
    }
  }

  function SystemStart(threads: set<Thread>, current: Eid, counter: nat): System {
    System(FINE_START, EpochStart(threads, current), counter)
  }

  lemma SystemStartOk(threads: set<Thread>, current: Eid, counter: nat)
    requires threads != {} && 1 <= current < SHIFT - 1 && counter <= SHIFT
    ensures SystemInv(SystemStart(threads, current, counter))
  {
    FineStart();
    EpochStartOk(threads, current);
  }

  // ----- Read-only snapshots -----

  /** No unfinished updating transaction has drawn the very id of reader `c`. */
  predicate Apart(y: System, c: Client) {
    !IsActive(y.fine.store, c.id)
  }

  /** Every transaction that runs, commits or aborts has an id above the read id of a running reader, exactly
      when none of them has that same id. */
  lemma ReadersBelowWriters(y: System, c: Client)
    requires SystemInv(y) && c in y.epochs.active && c.Reader?
    ensures BelowWriters(y.fine, c.id) <==> Apart(y, c)
  {
    assert ClientOk(y, c);
    forall t | t in y.fine.store.txns && y.fine.store.txns[t].status == Active ensures c.id <= t {
      assert WriterOk(y, t);
      ActiveCounted(y.epochs, Writer(t));
    }
  }

  /** The version is live and its visibility range holds `r`. */
  predicate CoveredAt(s: Store, r: Cid, l: Loc) {
    l in s.slots && s.slots[l].txnId != INVALID_TXN_ID && s.slots[l].begin <= r < s.slots[l].end
  }

  lemma ReaderSeesSettled(y: System, c: Client, l: Loc)
    requires SystemInv(y) && c in y.epochs.active && c.Reader? && Apart(y, c)
    ensures ReadableAt(y.fine, c.id, l) <==> CoveredAt(Settled(y.fine), c.id, l)
  {
    ReadersBelowWriters(y, c);
    if l in y.fine.store.slots { ReadOnlySeesSettled(y.fine, c.id, l); }
  }

  // ----- Reclamation -----

  /** Owner marks are the two constants or ids of transactions that have not finished. */
  lemma OwnerUnfinished(f: Fine, l: Loc)
    requires FineInv(f) && l in f.store.slots
    ensures f.store.slots[l].txnId <= INITIAL_TXN_ID || IsActive(f.store, f.store.slots[l].txnId)
  {
    var t := f.store.slots[l].txnId;
    WorkersKnown(f);
    if t in f.work { assert WorkOk(f, t); } else { assert SlotOk(Settled(f), l); }
  }

  /** An uncommitted version has no end yet or is marked as deleted. */
  predicate UncommittedEnd(x: Slot) {
    x.begin == MAX_CID ==> x.end == MAX_CID || x.end == INVALID_CID
  }

  /** An owned version that has no begin id yet has no end id either, in every state between field writes. */
  lemma OwnedUncommitted(f: Fine, l: Loc)
    requires FineInv(f) && l in f.store.slots && f.store.slots[l].txnId > INITIAL_TXN_ID
    ensures UncommittedEnd(f.store.slots[l])
  {
    var t := f.store.slots[l].txnId;
    WorkersKnown(f);
    OwnerUnfinished(f, l);
    if t in f.work {
      var w := f.work[t];
      assert WorkOk(f, t) && Accounted(f, t, l);
      if l in w.rest { assert OpenEntry(f.store, t, w.commits, l, DoneOn(w, l)); }
      else if f.store.slots[l].next.Some? {
        var o := f.store.slots[l].next.value;
        assert o in w.rest ==> OpenEntry(f.store, t, w.commits, o, DoneOn(w, o));
      }
    } else {
      assert t in Settled(f).txns && SlotOk(Settled(f), l);
    }
  }

  /** A version that ended in an epoch before that of the transaction is invisible to it. */
  lemma InvisibleToReader(y: System, l: Loc, c: Client)
    requires BasicInv(y) && c in y.epochs.active && c.Reader? && l in y.fine.store.slots
    requires EpochOf(y.fine.store.slots[l].end) < y.epochs.active[c].epoch
    ensures !ReadableAt(y.fine, c.id, l)
  {
    assert PersonOk(y, c);
    RunningCounted(y.epochs, c);
    if y.fine.store.slots[l].txnId == c.id { OwnedUncommitted(y.fine, l); }
  }

  lemma InvisibleToWriter(y: System, l: Loc, c: Client)
    requires BasicInv(y) && c in y.epochs.active && c.Writer? && l in y.fine.store.slots
    requires EpochOf(y.fine.store.slots[l].end) < y.epochs.active[c].epoch
    ensures !(c.id !in y.fine.work && SeesVersion(y.fine.store, c.id, l))
  {
    assert PersonOk(y, c) && WriterOk(y, c.id);
    if IsActive(y.fine.store, c.id) && c.id !in y.fine.work {
      WorkersKnown(y.fine);
      assert IsActive(Settled(y.fine), c.id);
      assert SlotOk(Settled(y.fine), l);
    }
  }

  /** Once an id has been returned as expired, a slot whose end id lies in an epoch at most that is never
      again visible to a transaction, whether it runs already or begins later. */
  lemma ReclamationSafe(y: System, actions: seq<SystemAction>, y': System, l: Loc, c: Client)
    requires SystemInv(y) && SystemRun(SystemStep(y, Garbage), actions) == Some(y')
    requires c in y'.epochs.active && l in y'.fine.store.slots
    requires EpochOf(y'.fine.store.slots[l].end) <= ExpiredId(y.epochs)
    ensures c.Writer? ==> !(c.id !in y'.fine.work && SeesVersion(y'.fine.store, c.id, l))
    ensures c.Reader? ==> !ReadableAt(y'.fine, c.id, l)
  {
    SnapshotFollows(y.epochs);
    SystemStepKeeps(y, Garbage);
    SystemRunKeeps(SystemStep(y, Garbage), actions);
    ActiveCounted(y'.epochs, c);
    if c.Reader? { InvisibleToReader(y', l, c); } else { InvisibleToWriter(y', l, c); }
  }

  // ----- Serializability of the whole system -----

  /** The store actions inside a run of the system. */
  ghost function StoreTrace(y: System, actions: seq<SystemAction>): seq<FineAction>
    requires SystemRun(y, actions).Some?
    decreases |actions|
  {
    if actions == [] then []
    else
      var a := actions[0];
      (if a.Proceed? then [a.b] else if a.BeginWriter? then [Call(Begin(NextWriter(y, a.thread).id))] else [])
      + StoreTrace(SystemStep(y, a), actions[1..])
  }

  lemma {:induction false} StoreTraceRuns(y: System, actions: seq<SystemAction>)
    requires SystemInv(y) && SystemRun(y, actions).Some?
    ensures FineRun(y.fine, StoreTrace(y, actions)) == Some(SystemRun(y, actions).value.fine)
    decreases |actions|
  {
    if actions != [] {
      var a := actions[0];
      var y' := SystemStep(y, a);
      SystemStepKeeps(y, a);
      StoreTraceRuns(y', actions[1..]);
      var rest := StoreTrace(y', actions[1..]);
      if a.BeginWriter? { FreshId(y, a.thread); }
      if a.Proceed? || a.BeginWriter? {
        var b := if a.Proceed? then a.b else Call(Begin(NextWriter(y, a.thread).id));
        assert ([b] + rest)[1..] == rest;
        assert FineRun(y.fine, [b] + rest) == FineRun(y'.fine, rest);
      } else {
        assert [] + rest == rest;
      }
    }
  }

  lemma SystemHistory(y: System, actions: seq<SystemAction>)
    requires SystemInv(y) && y.fine == FINE_START && SystemRun(y, actions).Some?
    ensures Inv(Settled(SystemRun(y, actions).value.fine)) && LogInv(Settled(SystemRun(y, actions).value.fine))
  {
    var bs := StoreTrace(y, actions);
    StoreTraceRuns(y, actions);
    FineStart();
    FineRunRefines(FINE_START, bs);
    InvariantsHold(EMPTY_STORE, Meanings(bs));
  }

  /** Ids come from epochs, commits and aborts are single field writes, readers run beside writers: the
      committed transactions still have a serial run in commit-id order, and what a read-only transaction
      finds for a tuple is what the transactions with ids up to its read id leave when run serially. */
  lemma SystemSerializable(y: System, actions: seq<SystemAction>, y': System, order: seq<Cid>)
    requires SystemInv(y) && y.fine == FINE_START && SystemRun(y, actions) == Some(y')
    requires CommitOrder(Settled(y'.fine), order)
    ensures forall u :: u in order ==> u in Settled(y'.fine).txns
    ensures SerialRun(Settled(y'.fine), map[], order) == Some(Snapshot(Settled(y'.fine), MAX_CID))
  {
    var s := Settled(y'.fine);
    SystemHistory(y, actions);
    forall j | 0 <= j < |order| ensures order[j] < MAX_CID { assert order[j] in order; }
    SerialPrefix(s, order, |order|, MAX_CID);
    assert order[..|order|] == order;
  }

  predicate Finds(f: Fine, r: Cid, k: TupleId, l: Loc) {
    ReadableAt(f, r, l) && f.store.slots[l].tuple == k
  }

  lemma FindsShown(y: System, c: Client, k: TupleId, l: Loc)
    requires SystemInv(y) && c in y.epochs.active && c.Reader? && Apart(y, c)
    ensures Finds(y.fine, c.id, k, l) <==> Shows(Settled(y.fine), l, k, c.id)
    ensures Finds(y.fine, c.id, k, l) ==> Settled(y.fine).slots[l].value == y.fine.store.slots[l].value
  {
    ReaderSeesSettled(y, c, l);
  }

  /** For every tuple a reader finds exactly what the transactions with ids up to its read id leave when run serially:
      the value of each version it can read, and a version for each tuple that is there. */
  lemma ReaderFindsSerialState(
      y: System, actions: seq<SystemAction>, y': System, order: seq<Cid>, i: nat, c: Client, k: TupleId)
    requires SystemInv(y) && y.fine == FINE_START && SystemRun(y, actions) == Some(y')
    requires CommitOrder(Settled(y'.fine), order) && i <= |order|
    requires c in y'.epochs.active && c.Reader? && Apart(y', c)
    requires forall j :: 0 <= j < |order| ==> (if j < i then order[j] <= c.id else c.id < order[j])
    ensures forall u :: u in order[..i] ==> u in Settled(y'.fine).txns
    ensures SerialRun(Settled(y'.fine), map[], order[..i]).Some?
    ensures var db := SerialRun(Settled(y'.fine), map[], order[..i]).value;
            && (forall l :: Finds(y'.fine, c.id, k, l) ==> k in db && db[k] == y'.fine.store.slots[l].value)
            && (k in db ==> exists l :: Finds(y'.fine, c.id, k, l))
  {
    var s := Settled(y'.fine);
    SystemHistory(y, actions);
    SystemRunKeeps(y, actions);
    assert ClientOk(y', c);
    ShownIsSerial(s, order, i, c.id, k);
    forall l
      ensures Finds(y'.fine, c.id, k, l) <==> Shows(s, l, k, c.id)
      ensures Finds(y'.fine, c.id, k, l) ==> s.slots[l].value == y'.fine.store.slots[l].value
    {
      FindsShown(y', c, k, l);
    }
  }
}
