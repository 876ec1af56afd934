/** Exactly when a read-only transaction keeps seeing the same versions. */
module ReaderSnapshots {
  import opened Base
  import opened Mvto
  import opened MvtoInvariant
  import opened FieldWrites
  import opened VersionTheorems
  import opened Epochs
  import opened Concurrency

  // ----- Transactions above the read id -----

  lemma StepKeepsView(s: Store, a: Action, r: Cid, l: Loc)
    requires Enabled(s, a) && !IsEnd(a) && INITIAL_TXN_ID < r < a.t
    requires l in s.slots && s.slots[l].txnId == INITIAL_TXN_ID ==> s.slots[l].begin != MAX_CID
    requires r < MAX_CID
    ensures ReaderSees(Step(s, a), r, l) <==> ReaderSees(s, r, l)
  {
  }

  lemma CallKeepsView(f: Fine, a: Action, r: Cid, l: Loc)
    requires FineInv(f) && FineEnabled(f, Call(a)) && INITIAL_TXN_ID < r < a.t
    ensures ReadableAt(FineStep(f, Call(a)), r, l) <==> ReadableAt(f, r, l)
  {
    WorkersKnown(f);
    assert a.t in f.store.txns ==> a.t in Settled(f).txns;
    if l in f.store.slots { assert SlotOk(Settled(f), l); }
    StepKeepsView(f.store, a, r, l);
  }

  lemma WriteKeepsView(f: Fine, t: Cid, r: Cid, l: Loc)
    requires FineInv(f) && FineEnabled(f, Write(t)) && INITIAL_TXN_ID < r < t
    ensures ReadableAt(FineStep(f, Write(t)), r, l) <==> ReadableAt(f, r, l)
  {
    assert WorkOk(f, t) && t in Settled(f).txns;
    if Writing(f, t) { CurrentOpen(f, t); }
  }

  /** No call and no field write of a transaction above `r` changes what can be read at `r`. */
  lemma AboveKeepsView(f: Fine, b: FineAction, r: Cid, l: Loc)
    requires FineInv(f) && FineEnabled(f, b) && INITIAL_TXN_ID < r < FineActor(b)
    ensures ReadableAt(FineStep(f, b), r, l) <==> ReadableAt(f, r, l)
  {
    match b {
      case Call(a) => CallKeepsView(f, a, r, l);
      case Write(t) => WriteKeepsView(f, t, r, l);
      case _ =>
    }
  }

  // ----- A reader whose id no unfinished writer has -----

  /** From entry to exit the versions a read-only transaction can read are the same: no step of the system,
      not even a single field write of a commit or abort, adds one or takes one away. */
  lemma SnapshotStable(y: System, a: SystemAction, c: Client, l: Loc)
    requires SystemInv(y) && SystemEnabled(y, a) && c in y.epochs.active && c.Reader? && a != End(c)
    requires a.Proceed? ==> FineActor(a.b) != c.id
    ensures c in SystemStep(y, a).epochs.active
    ensures ReadableAt(SystemStep(y, a).fine, c.id, l) <==> ReadableAt(y.fine, c.id, l)
  {
    if a.Proceed? {
      ActorAbove(y, a.b, c);
      AboveKeepsView(y.fine, a.b, c.id, l);
    }
  }

  /** Whoever makes a step has an id not below that of a running reader. */
  lemma ActorAbove(y: System, b: FineAction, c: Client)
    requires SystemInv(y) && SystemEnabled(y, Proceed(b)) && c in y.epochs.active && c.Reader?
    ensures INITIAL_TXN_ID < c.id <= FineActor(b)
  {
    var t := FineActor(b);
    assert ClientOk(y, c);
    assert IsActive(y.fine.store, t) by {
      if t in y.fine.work { assert WorkOk(y.fine, t); }
    }
    assert WriterOk(y, t);
    ActiveCounted(y.epochs, Writer(t));
  }

  /** A writer can still draw the id of the readers: number 0 is next, and the snapshot epoch can be entered or some
      thread has loaded it already. */
  predicate CanShare(y: System) {
    && y.counter == 0
    && (y.epochs.current == y.epochs.snapshot ||
        exists th :: th in y.epochs.loaded && y.epochs.loaded[th] == y.epochs.snapshot)
  }

  /** Once no writer shares the reader's id or can draw it, none ever will while the reader runs. */
  lemma ApartKept(y: System, a: SystemAction, c: Client)
    requires SystemInv(y) && SystemEnabled(y, a) && c in y.epochs.active && c.Reader? && a != End(c)
    requires Apart(y, c) && !CanShare(y)
    ensures Apart(SystemStep(y, a), c) && !CanShare(SystemStep(y, a))
  {
    var y' := SystemStep(y, a);
    assert ClientOk(y, c);
    SystemStepKeeps(y, a);
    assert ClientOk(y', c);
    IdParts(y.epochs.snapshot, 0);
    match a {
      case BeginWriter(th) => IdParts(y.epochs.loaded[th], y.counter);
      case Proceed(b) => FineStatus(y.fine, b);
      case _ =>
    }
  }

  ghost predicate SameView(y: System, y': System, c: Client) {
    forall l :: ReadableAt(y'.fine, c.id, l) <==> ReadableAt(y.fine, c.id, l)
  }

  lemma ApartView(y: System, a: SystemAction, c: Client)
    requires SystemInv(y) && SystemEnabled(y, a) && c in y.epochs.active && c.Reader? && a != End(c) && Apart(y, c)
    ensures c in SystemStep(y, a).epochs.active && SameView(y, SystemStep(y, a), c)
  {
    if a.Proceed? && FineActor(a.b) in y.fine.work { assert WorkOk(y.fine, FineActor(a.b)); }
    forall l ensures ReadableAt(SystemStep(y, a).fine, c.id, l) <==> ReadableAt(y.fine, c.id, l) {
      SnapshotStable(y, a, c, l);
    }
    SnapshotStable(y, a, c, 0);
  }

  /** Over a whole run a reader that shares its id with no unfinished writer keeps reading the same versions until it
      ends, unless a writer can still draw that id. */
  lemma SnapshotStableRun(y: System, actions: seq<SystemAction>, c: Client)
    requires SystemInv(y) && c in y.epochs.active && c.Reader? && Apart(y, c) && !CanShare(y)
    requires SystemRun(y, actions).Some? && End(c) !in actions
    ensures SameView(y, SystemRun(y, actions).value, c)
    decreases |actions|
  {
    if actions != [] {
      SystemStepKeeps(y, actions[0]);
      ApartKept(y, actions[0], c);
      ApartView(y, actions[0], c);
      SnapshotStableRun(SystemStep(y, actions[0]), actions[1..], c);
    }
  }

  // ----- A reader that shares its id with a transaction in its commit or abort loop -----

  /** Some write still to be made for the entry changes what a reader with the same id can read. */
  predicate Noisy(commits: bool, kind: RWType, done: nat) {
    && kind != READ && !(commits && kind == DELETE)
    && done < NoisyWrites(commits, kind)
  }

  /** The number of the last such write, plus one: the release of a version, kept or thrown away. */
  function NoisyWrites(commits: bool, kind: RWType): nat {
    if commits && kind == UPDATE then 4 else WriteCount(commits, kind)
  }

  predicate NoisyAt(f: Fine, t: Cid, l: Loc)
    requires t in f.work && t in f.store.txns
  {
    && l in f.work[t].rest && l in f.store.txns[t].rw
    && Noisy(f.work[t].commits, f.store.txns[t].rw[l], DoneOn(f.work[t], l))
  }

  ghost predicate Quiet(f: Fine, t: Cid)
    requires t in f.work && t in f.store.txns
  {
    forall l {:trigger NoisyAt(f, t, l)} :: !NoisyAt(f, t, l)
  }

  lemma QuietWrite(f: Fine, t: Cid, l: Loc)
    requires FineInv(f) && FineEnabled(f, Write(t)) && Quiet(f, t)
    ensures ReadableAt(FineStep(f, Write(t)), t, l) <==> ReadableAt(f, t, l)
  {
    assert WorkOk(f, t) && t in Settled(f).txns;
    if Writing(f, t) {
      CurrentOpen(f, t);
      assert !NoisyAt(f, t, f.work[t].current.value);
    }
  }

  lemma QuietKept(f: Fine, b: FineAction, t: Cid)
    requires FineInv(f) && FineEnabled(f, b) && t in f.work && t in f.store.txns && Quiet(f, t)
    ensures t in FineStep(f, b).store.txns
    ensures t in FineStep(f, b).work ==> Quiet(FineStep(f, b), t)
    ensures t !in FineStep(f, b).work ==> !IsActive(FineStep(f, b).store, t)
  {
    var g := FineStep(f, b);
    if t in g.work {
      forall l ensures !NoisyAt(g, t, l) {
        assert !NoisyAt(f, t, l);
        if b.Call? { CallOthers(f.store, b.a, t); }
      }
    }
  }

  lemma CallOthers(s: Store, a: Action, t: Cid)
    requires Enabled(s, a) && a.t != t && t in s.txns
    ensures t in Step(s, a).txns && Step(s, a).txns[t] == s.txns[t]
  {
  }

  lemma LoopStep(y: System, a: SystemAction, c: Client)
    requires SystemInv(y) && SystemEnabled(y, a) && c in y.epochs.active && c.Reader? && a != End(c)
    requires c.id in y.fine.work && c.id in y.fine.store.txns && Quiet(y.fine, c.id)
    ensures var y' := SystemStep(y, a);
            && c in y'.epochs.active && SameView(y, y', c) && c.id in y'.fine.store.txns
            && (if c.id in y'.fine.work then Quiet(y'.fine, c.id) else Apart(y', c) && !CanShare(y'))
  {
    var y' := SystemStep(y, a);
    assert WriterOk(y, c.id);
    SnapshotStays(y, a, c);
    if a.Proceed? {
      QuietKept(y.fine, a.b, c.id);
    } else if c.id in y'.fine.work {
      forall l ensures !NoisyAt(y'.fine, c.id, l) { assert !NoisyAt(y.fine, c.id, l); }
    }
    forall l ensures ReadableAt(y'.fine, c.id, l) <==> ReadableAt(y.fine, c.id, l) {
      if a.Proceed? && FineActor(a.b) == c.id {
        if a.b.Write? { QuietWrite(y.fine, c.id, l); }
      } else {
        SnapshotStable(y, a, c, l);
      }
    }
  }

  lemma SnapshotStays(y: System, a: SystemAction, c: Client)
    requires SystemEnabled(y, a) && c in y.epochs.active && a != End(c)
    ensures c in SystemStep(y, a).epochs.active && y.counter <= SystemStep(y, a).counter
  {
  }

  lemma LoopStableRun(y: System, actions: seq<SystemAction>, c: Client)
    requires SystemInv(y) && c in y.epochs.active && c.Reader?
    requires c.id in y.fine.work && c.id in y.fine.store.txns && Quiet(y.fine, c.id)
    requires SystemRun(y, actions).Some? && End(c) !in actions
    ensures SameView(y, SystemRun(y, actions).value, c)
    decreases |actions|
  {
    if actions != [] {
      var y' := SystemStep(y, actions[0]);
      SystemStepKeeps(y, actions[0]);
      LoopStep(y, actions[0], c);
      if c.id in y'.fine.work {
        LoopStableRun(y', actions[1..], c);
      } else {
        SnapshotStableRun(y', actions[1..], c);
      }
    }
  }

  // ----- What a reader must not meet -----

  /** Until it ends, whatever happens, the reader can read the same versions. */
  ghost predicate Stable(y: System, c: Client) {
    forall actions {:trigger SystemRun(y, actions)} ::
      SystemRun(y, actions).Some? && End(c) !in actions ==> SameView(y, SystemRun(y, actions).value, c)
  }

  lemma StableStep(y: System, a: SystemAction, c: Client)
    requires Stable(y, c) && SystemEnabled(y, a) && a != End(c)
    ensures SameView(y, SystemStep(y, a), c) && Stable(SystemStep(y, a), c)
  {
    var y' := SystemStep(y, a);
    assert [a][1..] == [] && SystemRun(y', []) == Some(y');
    assert SystemRun(y, [a]) == Some(y');
    forall actions | SystemRun(y', actions).Some? && End(c) !in actions
      ensures SameView(y', SystemRun(y', actions).value, c)
    {
      assert ([a] + actions)[1..] == actions;
      assert SystemRun(y, [a] + actions) == SystemRun(y', actions);
    }
  }

  /** When a writer does share the reader's id, its very next insert becomes readable to the reader. */
  lemma SharedIdBreaksSnapshot(y: System, c: Client)
    requires SystemInv(y) && c in y.epochs.active && c.Reader? && !Apart(y, c) && c.id !in y.fine.work
    ensures !Stable(y, c)
  {
    var s := y.fine.store;
    var loc, k := Unused(s.slots.Keys), Unused(s.index.Keys);
    var a := Proceed(Call(Insert(c.id, loc, k, 0)));
    assert SystemEnabled(y, a) && c.id in Settled(y.fine).txns;
    assert !ReadableAt(y.fine, c.id, loc) && ReadableAt(SystemStep(y, a).fine, c.id, loc);
    if Stable(y, c) { StableStep(y, a, c); }
  }

  lemma NoWriterYet(y: System)
    requires BasicInv(y) && y.counter == 0
    ensures forall c :: c in y.epochs.active ==> c.Reader?
  {
    NumbersUsed(y);
    forall c | c in y.epochs.active ensures c.Reader? { assert PersonOk(y, c); }
  }

  /** A thread that has loaded the snapshot epoch and is not refused draws the reader's id. */
  lemma DrawBreaksSnapshot(y: System, c: Client, th: Thread)
    requires SystemInv(y) && c in y.epochs.active && c.Reader? && y.counter == 0
    requires th in y.epochs.loaded && y.epochs.loaded[th] == y.epochs.snapshot
    requires th in y.epochs.locals && !Refuses(y.epochs.locals[th], y.epochs.snapshot, READ_TS)
    ensures !Stable(y, c)
  {
    assert ClientOk(y, c);
    NoWriterYet(y);
    FreshId(y, th);
    var y' := SystemStep(y, BeginWriter(th));
    SystemStepKeeps(y, BeginWriter(th));
    SharedIdBreaksSnapshot(y', c);
    if Stable(y, c) { StableStep(y, BeginWriter(th), c); }
  }

  lemma UnusedHandle(clients: set<Client>) returns (h: nat)
    ensures forall c :: c in clients && c.Reader? ==> c.handle < h
  {
    var handles := set c | c in clients && c.Reader? :: c.handle;
    h := Unused(handles);
    forall c | c in clients && c.Reader? ensures c.handle < h { assert c.handle in handles; }
  }

  /** Refused or not: a reader that enters on that thread lowers its bound again. */
  lemma LoadBreaksSnapshot(y: System, c: Client, th: Thread)
    requires SystemInv(y) && c in y.epochs.active && c.Reader? && y.counter == 0
    requires th in y.epochs.loaded && y.epochs.loaded[th] == y.epochs.snapshot
    ensures !Stable(y, c)
  {
    if Refuses(y.epochs.locals[th], y.epochs.snapshot, READ_TS) {
      var h := UnusedHandle(y.epochs.active.Keys);
      var y' := SystemStep(y, BeginReader(th, h));
      SystemStepKeeps(y, BeginReader(th, h));
      DrawBreaksSnapshot(y', c, th);
      if Stable(y, c) { StableStep(y, BeginReader(th, h), c); }
    } else {
      DrawBreaksSnapshot(y, c, th);
    }
  }

  lemma ShareBreaksSnapshot(y: System, c: Client)
    requires SystemInv(y) && c in y.epochs.active && c.Reader? && CanShare(y)
    ensures !Stable(y, c)
  {
    if y.epochs.current == y.epochs.snapshot {
      var th :| th in y.epochs.locals;
      SystemStepKeeps(y, LoadEpoch(th));
      LoadBreaksSnapshot(SystemStep(y, LoadEpoch(th)), c, th);
      if Stable(y, c) { StableStep(y, LoadEpoch(th), c); }
    } else {
      var th :| th in y.epochs.loaded && y.epochs.loaded[th] == y.epochs.snapshot;
      LoadBreaksSnapshot(y, c, th);
    }
  }

  /** The last noisy write of an entry shows or hides a version. */
  lemma LastNoisyWrite(f: Fine, t: Cid) returns (l: Loc)
    requires FineInv(f) && Writing(f, t) && NoisyAt(f, t, f.work[t].current.value)
    requires f.work[t].done + 1 == NoisyWrites(f.work[t].commits, f.store.txns[t].rw[f.work[t].current.value])
    ensures ReadableAt(FineStep(f, Write(t)), t, l) != ReadableAt(f, t, l)
  {
    var loc := f.work[t].current.value;
    CurrentOpen(f, t);
    assert t in Settled(f).txns && SlotOk(Settled(f), loc);
    l := if f.work[t].commits && f.store.txns[t].rw[loc] == UPDATE then f.store.slots[loc].prev.value else loc;
  }

  /** The number of loop steps that are left. */
  function StepsLeft(w: Work): int {
    8 * |w.rest| - if w.current == None then 0 else 1 + if w.done < 6 then w.done else 6
  }

  /** The next step of a loop that has an entry with noisy writes left. */
  function NextStep(f: Fine, t: Cid, l: Loc): FineAction
    requires t in f.work
  {
    if f.work[t].current == None then Pick(t, l) else Write(t)
  }

  lemma NoisyStep(f: Fine, t: Cid, l: Loc)
    requires FineInv(f) && t in f.work && t in f.store.txns && NoisyAt(f, t, l)
    requires f.work[t].current == Some(l) ==>
               f.work[t].done + 1 != NoisyWrites(f.work[t].commits, f.store.txns[t].rw[l])
    ensures FineEnabled(f, NextStep(f, t, l))
    ensures var g := FineStep(f, NextStep(f, t, l));
            && t in g.work && t in g.store.txns && NoisyAt(g, t, l)
            && 0 <= StepsLeft(g.work[t]) < StepsLeft(f.work[t])
  {
    var w := f.work[t];
    assert WorkOk(f, t);
    if w.current.Some? {
      assert OpenEntry(f.store, t, w.commits, w.current.value, DoneOn(w, w.current.value));
    }
    assert {l} <= w.rest;
    LeaveShrinks(w);
  }

  lemma LeaveShrinks(w: Work)
    requires w.current.Some? ==> w.current.value in w.rest
    ensures w.current.Some? ==> |w.rest| == |w.rest - {w.current.value}| + 1
  {
    if w.current.Some? { assert w.rest == (w.rest - {w.current.value}) + {w.current.value}; }
  }

  lemma {:induction false} NoisyBreaksSnapshot(y: System, c: Client, l: Loc)
    requires SystemInv(y) && c in y.epochs.active && c.Reader?
    requires c.id in y.fine.work && c.id in y.fine.store.txns && NoisyAt(y.fine, c.id, l)
    ensures !Stable(y, c)
    decreases StepsLeft(y.fine.work[c.id])
  {
    var t, w := c.id, y.fine.work[c.id];
    if Stable(y, c) {
      if w.current == Some(l) && w.done + 1 == NoisyWrites(w.commits, y.fine.store.txns[t].rw[l]) {
        assert WorkOk(y.fine, t) && OpenEntry(y.fine.store, t, w.commits, l, DoneOn(w, l));
        StableStep(y, Proceed(Write(t)), c);
        var n := LastNoisyWrite(y.fine, t);
      } else {
        NoisyStep(y.fine, t, l);
        var a := Proceed(NextStep(y.fine, t, l));
        SystemStepKeeps(y, a);
        StableStep(y, a, c);
        NoisyBreaksSnapshot(SystemStep(y, a), c, l);
      }
    }
  }

  // ----- The exact condition -----

  /** No unfinished writer has the reader's id and none can still draw it; or one has, is in its commit or abort loop,
      and no write left in that loop shows or hides a version. */
  ghost predicate Undisturbed(y: System, c: Client) {
    if c.id in y.fine.work && c.id in y.fine.store.txns then Quiet(y.fine, c.id)
    else Apart(y, c) && !CanShare(y)
  }

  /** A running reader keeps seeing the same versions in every run, whatever happens, if and only if it is undisturbed
      now. */
  lemma StableIff(y: System, c: Client)
    requires SystemInv(y) && c in y.epochs.active && c.Reader?
    ensures Stable(y, c) <==> Undisturbed(y, c)
  {
    WorkersKnown(y.fine);
    if Undisturbed(y, c) {
      forall actions | SystemRun(y, actions).Some? && End(c) !in actions
        ensures SameView(y, SystemRun(y, actions).value, c)
      {
        if c.id in y.fine.work { LoopStableRun(y, actions, c); } else { SnapshotStableRun(y, actions, c); }
      }
    } else if c.id in y.fine.work {
      var l :| NoisyAt(y.fine, c.id, l);
      NoisyBreaksSnapshot(y, c, l);
    } else if !Apart(y, c) {
      SharedIdBreaksSnapshot(y, c);
    } else {
      ShareBreaksSnapshot(y, c);
    }
  }

  // ----- It happens -----

  /** A writer that draws 0 in the snapshot epoch shares its id with the next reader. */
  lemma ZeroIsShared(y: System, th: Thread, h: nat)
    requires SystemInv(y) && y.counter == 0 && SystemEnabled(y, BeginWriter(th))
    requires y.epochs.loaded[th] == y.epochs.snapshot
    requires NextReader(y, h) !in y.epochs.active
    ensures var y1 := SystemStep(y, BeginWriter(th));
            && SystemEnabled(y1, BeginReader(th, h))
            && var y2 := SystemStep(y1, BeginReader(th, h));
               NextReader(y1, h) in y2.epochs.active && !Apart(y2, NextReader(y1, h))
  {
    NumbersUsed(y);
    SystemStepKeeps(y, BeginWriter(th));
  }

  /** The counter does start at 0, and the snapshot epoch and the global epoch both at 1. */
  lemma CounterStartsAtZero(threads: set<Thread>, th: Thread)
    requires th in threads
    ensures var y := SystemStart(threads, 1, 0);
            && SystemEnabled(y, LoadEpoch(th))
            && var y1 := SystemStep(y, LoadEpoch(th));
               && SystemInv(y1) && y1.counter == 0
               && SystemEnabled(y1, BeginWriter(th)) && y1.epochs.loaded[th] == y1.epochs.snapshot
  {
    SystemStartOk(threads, 1, 0);
    SystemStepKeeps(SystemStart(threads, 1, 0), LoadEpoch(th));
  }
}
