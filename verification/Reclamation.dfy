/** The system while expired epochs are collected by asking one thread after the other. */
module Reclamation {
  import opened Base
  import opened Mvto
  import opened FieldWrites
  import opened VersionTheorems
  import opened Epochs
  import opened EpochSweeps
  import opened Concurrency

  // Transactions begin, work and end between the questions of a sweep.  When the sweep closes, the id it returns is
  // used to reclaim versions.

  /** The store, the number drawn next, and the epochs with the sweep under way. */
  datatype Swept = Swept(fine: Fine, counter: nat, w: Sweep)

  datatype SweptAction = Sys(a: SystemAction) | AskThread(thread: Thread) | CloseSweep

  function SystemOf(j: Swept): System {
    System(j.fine, j.w.g, j.counter)
  }

  predicate SweptEnabled(j: Swept, b: SweptAction) {
    match b
    case Sys(a) => !a.Garbage? && SystemEnabled(SystemOf(j), a)
    case AskThread(th) => SweepEnabled(j.w, Ask(th))
    case CloseSweep => SweepEnabled(j.w, Close)
  }

  /** What a step is to the sweep. */
  function SweepPart(j: Swept, b: SweptAction): Option<SweepAction>
    requires SweptEnabled(j, b)
  {
    match b
    case Sys(a) =>
      var e := EpochPart(SystemOf(j), a);
      if e.Some? then Some(Other(e.value)) else None
    case AskThread(th) => Some(Ask(th))
    case CloseSweep => Some(Close)
  }

  ghost function SweptStep(j: Swept, b: SweptAction): Swept
    requires SweptEnabled(j, b)
  {
    var p := SweepPart(j, b);
    var w := if p.Some? then SweepStep(j.w, p.value) else j.w;
    if b.Sys? then
      var y := SystemStep(SystemOf(j), b.a);
      Swept(y.fine, y.counter, w)
    else j.(w := w)
  }

  ghost function SweptRun(j: Swept, actions: seq<SweptAction>): Option<Swept>
    decreases |actions|
  {
    if actions == [] then Some(j)
    else if SweptEnabled(j, actions[0]) then SweptRun(SweptStep(j, actions[0]), actions[1..])
    else None
  }

  ghost predicate SweptInv(j: Swept) {
    BasicInv(SystemOf(j)) && AnyInv(j.w)
  }

  /** Between the questions the joint machine is the system. */
  lemma SysStep(j: Swept, a: SystemAction)
    requires SweptEnabled(j, Sys(a))
    ensures SystemOf(SweptStep(j, Sys(a))) == SystemStep(SystemOf(j), a)
  {
    EpochsFollow(SystemOf(j), a);
  }

  /** Asking and closing move nobody. */
  lemma SamePeople(y: System, y': System)
    requires BasicInv(y) && CountsInv(y'.epochs) && y'.fine == y.fine && y'.counter == y.counter
    requires y'.epochs.active == y.epochs.active && y'.epochs.current == y.epochs.current
    ensures BasicInv(y')
  {
    forall t | t in y'.fine.store.txns ensures WriterOk(y', t) { assert WriterOk(y, t); }
    forall c | c in y'.epochs.active ensures PersonOk(y', c) { assert PersonOk(y, c); }
  }

  lemma SweepFollows(j: Swept, b: SweptAction)
    requires SweptEnabled(j, b)
    ensures var p := SweepPart(j, b);
            && (p.Some? ==> SweepEnabled(j.w, p.value))
            && SweptStep(j, b).w == if p.Some? then SweepStep(j.w, p.value) else j.w
  {
    if b.Sys? { EpochsFollow(SystemOf(j), b.a); }
  }

  /** Every step of the system and of the sweeps keeps both invariants, even a close that returns an unsafe id. */
  lemma SweptStepKeeps(j: Swept, b: SweptAction)
    requires SweptInv(j) && SweptEnabled(j, b)
    ensures SweptInv(SweptStep(j, b))
  {
    SweepFollows(j, b);
    if SweepPart(j, b).Some? { AnyStepKeeps(j.w, SweepPart(j, b).value); }
    if b.Sys? {
      SysStep(j, b.a);
      BasicStepKeeps(SystemOf(j), b.a);
    } else {
      SamePeople(SystemOf(j), SystemOf(SweptStep(j, b)));
    }
  }

  lemma SweptStartOk(threads: set<Thread>, current: Eid, counter: nat)
    requires threads != {} && 1 <= current < SHIFT - 1 && counter <= SHIFT
    ensures var y := SystemStart(threads, current, counter);
            SweptInv(Swept(y.fine, y.counter, Sweep(y.epochs, {}, 0, {})))
  {
    SystemStartOk(threads, current, counter);
    AnyStartOk(threads, current);
  }

  lemma SweptRunPassed(j: Swept, e: Eid, actions: seq<SweptAction>)
    requires SweptInv(j) && Passed(j.w.g, e) && SweptRun(j, actions).Some?
    ensures SweptInv(SweptRun(j, actions).value) && Passed(SweptRun(j, actions).value.w.g, e)
    decreases |actions|
  {
    if actions != [] {
      SweptStepKeeps(j, actions[0]);
      SweepFollows(j, actions[0]);
      if SweepPart(j, actions[0]).Some? { SweepPassed(j.w, e, SweepPart(j, actions[0]).value); }
      SweptRunPassed(SweptStep(j, actions[0]), e, actions[1..]);
    }
  }

  /** Once a sweep has returned a safe id, a slot whose end id lies in an epoch at most that is never again visible to a
      transaction, whatever begins, works and ends and whatever is swept later.  Which ids are safe is decided by what
      the sweep can see before it closes. */
  lemma SweptReclamationSafe(j: Swept, actions: seq<SweptAction>, j': Swept, l: Loc, c: Client)
    requires SweptInv(j) && SweptEnabled(j, CloseSweep) && SweptRun(SweptStep(j, CloseSweep), actions) == Some(j')
    requires j.w.least < j.w.g.snapshot || NoneLate(j.w)
    requires c in j'.w.g.active && l in j'.fine.store.slots && EpochOf(j'.fine.store.slots[l].end) <= j.w.least
    ensures c.Writer? ==> !(c.id !in j'.fine.work && SeesVersion(j'.fine.store, c.id, l))
    ensures c.Reader? ==> !ReadableAt(j'.fine, c.id, l)
  {
    ClosePassed(j.w);
    SweptStepKeeps(j, CloseSweep);
    SweptRunPassed(SweptStep(j, CloseSweep), j.w.least, actions);
    if c.Reader? { InvisibleToReader(SystemOf(j'), l, c); } else { InvisibleToWriter(SystemOf(j'), l, c); }
  }
}
