/** GetExpiredEpochId asks the threads one after the other; other threads enter and leave epochs meanwhile. */
module EpochSweeps {
  import opened Base
  import opened Epochs

  /** A sweep under way: the threads asked so far, the smallest bound among their answers, and who has entered on
      a thread after it was asked and is still there. */
  datatype Sweep = Sweep(g: EpochState, asked: set<Thread>, least: Eid, late: set<Client>)

  datatype SweepAction = Other(a: EpochAction) | Ask(thread: Thread) | Close

  predicate SweepEnabled(w: Sweep, b: SweepAction) {
    match b
    case Other(a) => !a.Collect? && EpochEnabled(w.g, a)
    case Ask(th) => th in w.g.locals && th !in w.asked && w.g.current >= 1
    case Close => w.asked == w.g.locals.Keys && w.asked != {}
  }

  ghost function AskedThread(g: EpochState, th: Thread): EpochState
    requires th in g.locals && g.current >= 1
  {
    g.(locals := g.locals[th := Expire(g.locals[th], g.current)])
  }

  function LateAfter(w: Sweep, a: EpochAction): set<Client> {
    match a
    case EnterRead(th, c) => if th in w.asked then w.late + {c} else w.late
    case EnterSnapshot(th, c) => if th in w.asked then w.late + {c} else w.late
    case Leave(c) => w.late - {c}
    case _ => w.late
  }

  ghost function SweepStep(w: Sweep, b: SweepAction): Sweep
    requires SweepEnabled(w, b)
  {
    match b
    case Other(a) => w.(g := EpochStep(w.g, a), late := LateAfter(w, a))
    case Ask(th) =>
      var bound := Bound(Expire(w.g.locals[th], w.g.current));
      Sweep(AskedThread(w.g, th), w.asked + {th}, if w.asked == {} || bound < w.least then bound else w.least, w.late)
    case Close =>
      Sweep(if w.least >= w.g.snapshot then w.g.(snapshot := w.least + 1) else w.g, {}, w.least, {})
  }

  /** Every thread asked still has a bound no smaller than the answers so far. */
  ghost predicate SweepInv(w: Sweep) {
    && EpochInv(w.g) && w.asked <= w.g.locals.Keys
    && forall th :: th in w.asked ==> w.g.locals[th].lower.Some? && w.least <= w.g.locals[th].lower.value
  }

  /** A read-only transaction does not enter on a thread asked already, unless the sweep cannot pass its epoch. */
  predicate Considerate(w: Sweep, b: SweepAction) {
    b.Other? && b.a.EnterSnapshot? && b.a.thread in w.asked ==> w.least < w.g.snapshot
  }

  lemma AskKeepsCounts(g: EpochState, th: Thread)
    requires CountsInv(g) && th in g.locals
    ensures CountsInv(AskedThread(g, th))
  {
    var g' := AskedThread(g, th);
    forall x | x in g'.locals ensures CountsOk(g', x) { SameThread(g, g', x); }
  }

  lemma AskKeepsEpochs(g: EpochState, th: Thread)
    requires EpochInv(g) && th in g.locals
    ensures EpochInv(AskedThread(g, th))
  {
    var g' := AskedThread(g, th);
    AskKeepsCounts(g, th);
    ExpireThread(g, th);
    forall x | x in g'.locals ensures BoundOk(g', x) { assert BoundOk(g, x); }
  }

  lemma AskKeeps(w: Sweep, th: Thread)
    requires SweepInv(w) && SweepEnabled(w, Ask(th))
    ensures SweepInv(SweepStep(w, Ask(th)))
  {
    AskKeepsEpochs(w.g, th);
    ExpireThread(w.g, th);
  }

  lemma OtherKeeps(w: Sweep, a: EpochAction)
    requires SweepInv(w) && SweepEnabled(w, Other(a)) && Considerate(w, Other(a))
    ensures SweepInv(SweepStep(w, Other(a)))
  {
    EpochStepKeeps(w.g, a);
    if a.Leave? {
      var en := w.g.active[a.client];
      assert CountsOk(w.g, en.thread);
      ExitLocal(w.g.locals[en.thread], en.epoch);
    }
  }

  lemma CloseKeepsCounts(w: Sweep)
    requires CountsInv(w.g) && SweepEnabled(w, Close) && w.least < w.g.current
    ensures CountsInv(SweepStep(w, Close).g) && w.least < SweepStep(w, Close).g.snapshot
  {
    var g' := SweepStep(w, Close).g;
    forall x | x in g'.locals ensures CountsOk(g', x) { SameThread(w.g, g', x); }
  }

  lemma CloseKeeps(w: Sweep)
    requires SweepInv(w) && SweepEnabled(w, Close)
    ensures SweepInv(SweepStep(w, Close)) && w.least < SweepStep(w, Close).g.snapshot
  {
    var g' := SweepStep(w, Close).g;
    var th :| th in w.asked;
    assert CountsOk(w.g, th);
    CloseKeepsCounts(w);
    forall x | x in g'.locals ensures BoundOk(g', x) { assert BoundOk(w.g, x); }
  }

  lemma SweepStepKeeps(w: Sweep, b: SweepAction)
    requires SweepInv(w) && SweepEnabled(w, b) && Considerate(w, b)
    ensures SweepInv(SweepStep(w, b))
  {
    match b {
      case Other(a) => OtherKeeps(w, a);
      case Ask(th) => AskKeeps(w, th);
      case Close => CloseKeeps(w);
    }
  }

  /** A run of steps that are all considerate. */
  ghost function SweepRun(w: Sweep, actions: seq<SweepAction>): Option<Sweep>
    decreases |actions|
  {
    if actions == [] then Some(w)
    else if SweepEnabled(w, actions[0]) && Considerate(w, actions[0]) then
      SweepRun(SweepStep(w, actions[0]), actions[1..])
    else None
  }

  lemma SweepRunKeeps(w: Sweep, actions: seq<SweepAction>)
    requires SweepInv(w) && SweepRun(w, actions).Some?
    ensures SweepInv(SweepRun(w, actions).value)
    decreases |actions|
  {
    if actions != [] {
      SweepStepKeeps(w, actions[0]);
      SweepRunKeeps(SweepStep(w, actions[0]), actions[1..]);
    }
  }

  /** A sweep made of single questions is as safe as one atomic step: nobody is in an epoch it returns, or enters
      one. */
  lemma SweepSafety(w: Sweep, actions: seq<SweepAction>, done: Sweep, later: seq<EpochAction>, g': EpochState)
    requires SweepInv(w) && SweepRun(w, actions) == Some(done) && SweepEnabled(done, Close)
    requires EpochRun(SweepStep(done, Close).g, later) == Some(g')
    ensures EpochInv(g') && done.least < g'.snapshot
    ensures forall c :: c in g'.active ==> done.least < g'.active[c].epoch
    ensures forall th, c :: EpochEnabled(g', EnterRead(th, c)) ==> done.least < g'.loaded[th]
  {
    SweepRunKeeps(w, actions);
    CloseKeeps(done);
    EpochRunKeeps(SweepStep(done, Close).g, later);
    forall c | c in g'.active ensures done.least < g'.active[c].epoch { ActiveCounted(g', c); }
    forall th, c | EpochEnabled(g', EnterRead(th, c)) ensures done.least < g'.loaded[th] { AcceptedEpoch(g', th, c); }
  }

  // ----- Any entries during the sweep -----

  ghost function AnyRun(w: Sweep, actions: seq<SweepAction>): Option<Sweep>
    decreases |actions|
  {
    if actions == [] then Some(w)
    else if SweepEnabled(w, actions[0]) then AnyRun(SweepStep(w, actions[0]), actions[1..])
    else None
  }

  /** Whoever runs on a thread asked already and was there when it was asked is in an epoch above the answers. */
  predicate EarlyAbove(w: Sweep, c: Client)
    requires c in w.g.active
  {
    w.g.active[c].thread in w.asked && c !in w.late ==> w.least < w.g.active[c].epoch
  }

  /** The bound of a thread asked already is no smaller than the answers, or a late reader has lowered it to just below
      the snapshot epoch. */
  predicate AskedBound(w: Sweep, th: Thread)
    requires th in w.g.locals
  {
    var lower := w.g.locals[th].lower;
    lower.Some? && (w.least <= lower.value || w.g.snapshot <= lower.value + 1)
  }

  ghost predicate AnyInv(w: Sweep) {
    && CountsInv(w.g) && w.asked <= w.g.locals.Keys && (w.asked != {} ==> w.least < w.g.current)
    && (forall c {:trigger EarlyAbove(w, c)} :: c in w.g.active ==> EarlyAbove(w, c))
    && (forall th {:trigger AskedBound(w, th)} :: th in w.asked ==> AskedBound(w, th))
  }

  lemma AskKeepsAny(w: Sweep, th: Thread)
    requires AnyInv(w) && SweepEnabled(w, Ask(th))
    ensures AnyInv(SweepStep(w, Ask(th)))
  {
    var w' := SweepStep(w, Ask(th));
    AskKeepsCounts(w.g, th);
    ExpireThread(w.g, th);
    forall c | c in w'.g.active ensures EarlyAbove(w', c) {
      assert EarlyAbove(w, c);
      RunningCounted(w'.g, c);
    }
    forall x | x in w'.asked ensures AskedBound(w', x) {
      if x != th { assert AskedBound(w, x); }
    }
  }

  lemma OtherKeepsAny(w: Sweep, a: EpochAction)
    requires AnyInv(w) && SweepEnabled(w, Other(a))
    ensures AnyInv(SweepStep(w, Other(a)))
  {
    var w' := SweepStep(w, Other(a));
    CountsKept(w.g, a);
    forall c | c in w'.g.active ensures EarlyAbove(w', c) {
      if c in w.g.active { assert EarlyAbove(w, c); }
    }
    forall x | x in w'.asked ensures AskedBound(w', x) {
      assert AskedBound(w, x) && CountsOk(w.g, x);
      if a.Leave? && w.g.active[a.client].thread == x { ExitLocal(w.g.locals[x], w.g.active[a.client].epoch); }
    }
  }

  /** Every step keeps the invariant, even a close that returns an unsafe id. */
  lemma AnyStepKeeps(w: Sweep, b: SweepAction)
    requires AnyInv(w) && SweepEnabled(w, b)
    ensures AnyInv(SweepStep(w, b))
  {
    match b {
      case Other(a) => OtherKeepsAny(w, a);
      case Ask(th) => AskKeepsAny(w, th);
      case Close =>
        CloseKeepsCounts(w);
        forall c | c in w.g.active ensures EarlyAbove(SweepStep(w, Close), c) { assert EarlyAbove(w, c); }
    }
  }

  lemma AnyRunKeeps(w: Sweep, actions: seq<SweepAction>)
    requires AnyInv(w) && AnyRun(w, actions).Some?
    ensures AnyInv(AnyRun(w, actions).value)
    decreases |actions|
  {
    if actions != [] {
      AnyStepKeeps(w, actions[0]);
      AnyRunKeeps(SweepStep(w, actions[0]), actions[1..]);
    }
  }

  lemma AnyStartOk(threads: set<Thread>, current: Eid)
    requires threads != {} && current >= 1
    ensures AnyInv(Sweep(EpochStart(threads, current), {}, 0, {}))
  {
    EpochStartOk(threads, current);
  }

  // ----- When the returned id is safe -----

  predicate AllAbove(g: EpochState, e: Eid) {
    forall c :: c in g.active ==> e < g.active[c].epoch
  }

  /** Now and at any later time, whatever is swept then, nobody is in an epoch up to `e`. */
  ghost predicate SafeFrom(w: Sweep, e: Eid) {
    forall later {:trigger AnyRun(w, later)} :: AnyRun(w, later).Some? ==> AllAbove(AnyRun(w, later).value.g, e)
  }

  /** What the sweep can still look at before it closes: a late entry is over or passed, and a thread that has loaded
      an epoch the sweep passes will be refused. */
  predicate NoneLate(w: Sweep) {
    && (forall c :: c in w.late && c in w.g.active ==> w.least < w.g.active[c].epoch)
    && (forall th :: th in w.g.loaded && th in w.g.locals && w.g.loaded[th] <= w.least ==>
          Refuses(w.g.locals[th], w.g.loaded[th], READ_TS))
  }

  /** The thread will refuse what it has loaded up to `e`. */
  predicate RefusesUpTo(g: EpochState, e: Eid, th: Thread)
    requires th in g.locals
  {
    th in g.loaded && g.loaded[th] <= e ==> Refuses(g.locals[th], g.loaded[th], READ_TS)
  }

  ghost predicate Passed(g: EpochState, e: Eid) {
    && CountsInv(g) && e < g.snapshot && AllAbove(g, e)
    && forall th {:trigger RefusesUpTo(g, e, th)} :: th in g.locals ==> RefusesUpTo(g, e, th)
  }

  lemma StepPassed(g: EpochState, e: Eid, a: EpochAction)
    requires Passed(g, e) && EpochEnabled(g, a) && !a.Collect?
    ensures Passed(EpochStep(g, a), e)
  {
    var g' := EpochStep(g, a);
    CountsKept(g, a);
    if a.EnterRead? { assert RefusesUpTo(g, e, a.thread); }
    forall x | x in g'.locals ensures RefusesUpTo(g', e, x) {
      assert RefusesUpTo(g, e, x) && CountsOk(g, x);
      if a.Leave? && g.active[a.client].thread == x { ExitLocal(g.locals[x], g.active[a.client].epoch); }
    }
  }

  lemma SweepPassed(w: Sweep, e: Eid, b: SweepAction)
    requires AnyInv(w) && Passed(w.g, e) && SweepEnabled(w, b)
    ensures AnyInv(SweepStep(w, b)) && Passed(SweepStep(w, b).g, e)
  {
    AnyStepKeeps(w, b);
    var g' := SweepStep(w, b).g;
    match b {
      case Other(a) => StepPassed(w.g, e, a);
      case Ask(th) =>
        ExpireThread(w.g, th);
        forall x | x in g'.locals ensures RefusesUpTo(g', e, x) { assert RefusesUpTo(w.g, e, x); }
      case Close => forall x | x in g'.locals ensures RefusesUpTo(g', e, x) { assert RefusesUpTo(w.g, e, x); }
    }
  }

  lemma RunPassed(w: Sweep, e: Eid, later: seq<SweepAction>)
    requires AnyInv(w) && Passed(w.g, e) && AnyRun(w, later).Some?
    ensures Passed(AnyRun(w, later).value.g, e)
    decreases |later|
  {
    if later != [] {
      SweepPassed(w, e, later[0]);
      RunPassed(SweepStep(w, later[0]), e, later[1..]);
    }
  }

  lemma ClosePassed(w: Sweep)
    requires AnyInv(w) && SweepEnabled(w, Close) && (w.least < w.g.snapshot || NoneLate(w))
    ensures Passed(SweepStep(w, Close).g, w.least)
  {
    var g' := SweepStep(w, Close).g;
    CloseKeepsCounts(w);
    forall c | c in g'.active ensures w.least < g'.active[c].epoch {
      assert EarlyAbove(w, c);
      RunningCounted(w.g, c);
      assert AskedBound(w, w.g.active[c].thread);
    }
    forall x | x in g'.locals ensures RefusesUpTo(g', w.least, x) { assert AskedBound(w, x); }
  }

  ghost function FreshNumber(clients: set<Client>): (n: nat)
    ensures forall c :: c in clients ==> c.id < n
  {
    if clients == {} then 0
    else
      var c :| c in clients;
      var n := FreshNumber(clients - {c});
      if c.id < n then n else c.id + 1
  }

  /** If the sweep could move the snapshot past a late entry, or past a stale load that is not refused, some run
      has a transaction in an epoch the sweep returned. */
  lemma LateIsUnsafe(w: Sweep)
    requires AnyInv(w) && SweepEnabled(w, Close) && w.g.snapshot <= w.least && !NoneLate(w)
    ensures !SafeFrom(SweepStep(w, Close), w.least)
  {
    var v := SweepStep(w, Close);
    if c :| c in w.late && c in w.g.active && w.g.active[c].epoch <= w.least {
      assert AnyRun(v, []) == Some(v) && !AllAbove(v.g, w.least);
    } else {
      var g := v.g;
      var th :| th in g.loaded && th in g.locals && g.loaded[th] <= w.least &&
                !Refuses(g.locals[th], g.loaded[th], READ_TS);
      var c := Writer(FreshNumber(g.active.Keys));
      var enter := Other(EnterRead(th, c));
      assert SweepEnabled(v, enter);
      var v' := SweepStep(v, enter);
      assert c in v'.g.active && v'.g.active[c].epoch == g.loaded[th];
      assert [enter][1..] == [] && AnyRun(v', []) == Some(v');
      assert AnyRun(v, [enter]) == Some(v') && !AllAbove(v'.g, w.least);
    }
  }

  /** Whatever enters and leaves, and whatever earlier sweeps returned, the id a sweep returns is safe if and only if
      the snapshot had passed it before, or nobody who entered late is still in an epoch up to it and no thread would
      accept one. */
  lemma SweepSafeIff(w: Sweep, actions: seq<SweepAction>, done: Sweep)
    requires AnyInv(w) && AnyRun(w, actions) == Some(done) && SweepEnabled(done, Close)
    ensures SafeFrom(SweepStep(done, Close), done.least) <==> done.least < done.g.snapshot || NoneLate(done)
  {
    AnyRunKeeps(w, actions);
    if done.least < done.g.snapshot || NoneLate(done) {
      var v := SweepStep(done, Close);
      ClosePassed(done);
      AnyStepKeeps(done, Close);
      forall later | AnyRun(v, later).Some? ensures AllAbove(AnyRun(v, later).value.g, done.least) {
        RunPassed(v, done.least, later);
      }
    } else {
      LateIsUnsafe(done);
    }
  }

  // ----- The returned id is not too small -----

  /** The step lets nobody into an epoch below `m`, and does not close the sweep. */
  predicate EntersFrom(w: Sweep, b: SweepAction, m: Eid)
    requires SweepEnabled(w, b)
  {
    match b
    case Other(EnterRead(th, _)) => m <= w.g.loaded[th]
    case Other(EnterSnapshot(_, _)) => m <= w.g.snapshot
    case Other(_) => true
    case Ask(_) => true
    case Close => false
  }

  ghost predicate AllEnterFrom(w: Sweep, actions: seq<SweepAction>, m: Eid)
    decreases |actions|
  {
    actions == [] || (SweepEnabled(w, actions[0]) && EntersFrom(w, actions[0], m) &&
                      AllEnterFrom(SweepStep(w, actions[0]), actions[1..], m))
  }

  ghost predicate Reaching(w: Sweep, m: Eid) {
    CountsInv(w.g) && m <= Oldest(w.g) && (w.asked != {} ==> m <= w.least + 1)
  }

  lemma OldestFrom(g: EpochState, m: Eid)
    requires m <= g.current && forall c :: c in g.active ==> m <= g.active[c].epoch
    ensures m <= Oldest(g)
  {
  }

  lemma OldestBelow(g: EpochState)
    ensures Oldest(g) <= g.current && forall c :: c in g.active ==> Oldest(g) <= g.active[c].epoch
  {
    var all := set c | c in g.active :: g.active[c].epoch;
    assert g.current in {g.current} + all;
    forall c | c in g.active ensures Oldest(g) <= g.active[c].epoch { assert g.active[c].epoch in all; }
  }

  lemma ReachingStep(w: Sweep, b: SweepAction, m: Eid)
    requires Reaching(w, m) && SweepEnabled(w, b) && EntersFrom(w, b, m)
    ensures Reaching(SweepStep(w, b), m)
  {
    var w' := SweepStep(w, b);
    OldestBelow(w.g);
    match b {
      case Other(a) => CountsKept(w.g, a);
      case Ask(th) =>
        AskKeepsCounts(w.g, th);
        assert CountsOk(w.g, th);
        ExpireIsOldest(w.g.locals[th], w.g.current);
        OldestOnThread(w.g, th);
        OldestOfAll(w.g);
    }
    OldestFrom(w'.g, m);
  }

  /** A sweep during which nobody is in, or enters, an epoch below `m` passes all epochs below `m`. */
  lemma {:induction false} SweepReaches(w: Sweep, actions: seq<SweepAction>, done: Sweep, m: Eid)
    requires Reaching(w, m) && AnyRun(w, actions) == Some(done) && AllEnterFrom(w, actions, m)
    ensures Reaching(done, m)
    decreases |actions|
  {
    if actions != [] {
      ReachingStep(w, actions[0], m);
      SweepReaches(SweepStep(w, actions[0]), actions[1..], done, m);
    }
  }

  predicate Quiet(b: SweepAction) {
    !b.Close? && (b.Other? ==> !b.a.EnterRead? && !b.a.EnterSnapshot?)
  }

  /** The answers are no larger than what runs on the threads asked. */
  ghost predicate Covering(w: Sweep) {
    CountsInv(w.g) && w.asked <= w.g.locals.Keys && forall th :: th in w.asked ==> w.least + 1 <= OldestOn(w.g, th)
  }

  lemma OldestOnGrows(g: EpochState, g': EpochState, th: Thread)
    requires g.current <= g'.current && forall c :: c in g'.active ==> c in g.active && g'.active[c] == g.active[c]
    ensures OldestOn(g, th) <= OldestOn(g', th)
  {
    var here := set c | c in g.active && g.active[c].thread == th :: g.active[c].epoch;
    var here' := set c | c in g'.active && g'.active[c].thread == th :: g'.active[c].epoch;
    assert here' <= here && g.current in {g.current} + here;
  }

  lemma CoveringStep(w: Sweep, b: SweepAction)
    requires Covering(w) && SweepEnabled(w, b) && Quiet(b)
    ensures Covering(SweepStep(w, b))
  {
    var w' := SweepStep(w, b);
    match b {
      case Other(a) => CountsKept(w.g, a);
      case Ask(th) =>
        AskKeepsCounts(w.g, th);
        assert CountsOk(w.g, th);
        ExpireIsOldest(w.g.locals[th], w.g.current);
        OldestOnThread(w.g, th);
    }
    forall th | th in w'.asked ensures w'.least + 1 <= OldestOn(w'.g, th) { OldestOnGrows(w.g, w'.g, th); }
  }

  lemma {:induction false} QuietRun(w: Sweep, actions: seq<SweepAction>, done: Sweep, m: Eid)
    requires Covering(w) && AnyRun(w, actions) == Some(done) && forall b :: b in actions ==> Quiet(b)
    ensures Covering(done) && AllEnterFrom(w, actions, m)
    decreases |actions|
  {
    if actions != [] {
      CoveringStep(w, actions[0]);
      QuietRun(SweepStep(w, actions[0]), actions[1..], done, m);
    }
  }

  /** When nobody enters meanwhile, a sweep returns the epoch before the oldest one anyone is in: no earlier than at
      its start and no later than at its end.  If nobody leaves either and the epoch stands still, the two are one. */
  lemma QuietSweepExact(w: Sweep, actions: seq<SweepAction>, done: Sweep)
    requires CountsInv(w.g) && w.asked == {} && AnyRun(w, actions) == Some(done) && SweepEnabled(done, Close)
    requires forall b :: b in actions ==> Quiet(b)
    ensures Oldest(w.g) <= done.least + 1 <= Oldest(done.g)
  {
    QuietRun(w, actions, done, Oldest(w.g));
    SweepReaches(w, actions, done, Oldest(w.g));
    OldestOfAll(done.g);
  }

  const LATE_READER := Reader(0, 0)

  const LATE_RUN := [Ask(0), Other(EnterSnapshot(0, LATE_READER)), Ask(1)]

  /** Two idle threads in epoch 10: a reader that enters on the first one between the two questions is in epoch 1
      when the sweep returns 9. */
  lemma LateEntryBreaksSweep()
    ensures var w := AnyRun(Sweep(EpochStart({0, 1}, 10), {}, 0, {}), LATE_RUN);
            && w.Some? && SweepEnabled(w.value, Close) && w.value.least == 9
            && LATE_READER in w.value.g.active && w.value.g.active[LATE_READER] == Entry(0, 1)
  {
    var w0 := Sweep(EpochStart({0, 1}, 10), {}, 0, {});
    assert w0.g.locals == map[0 := NEW_LOCAL, 1 := NEW_LOCAL];
    var w1 := SweepStep(w0, Ask(0));
    var w2 := SweepStep(w1, Other(EnterSnapshot(0, LATE_READER)));
    var w3 := SweepStep(w2, Ask(1));
    assert w3.asked == {0, 1} == w3.g.locals.Keys;
    assert LATE_RUN[1..] == [Other(EnterSnapshot(0, LATE_READER)), Ask(1)] && LATE_RUN[1..][1..] == [Ask(1)];
    assert AnyRun(w2, [Ask(1)]) == Some(w3);
    assert AnyRun(w1, LATE_RUN[1..]) == Some(w3);
  }
}
