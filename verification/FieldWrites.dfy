/** Commit and abort one field write at a time. */
module FieldWrites {
  import opened Base
  import opened Mvto
  import opened MvtoInvariant

  // The loops of CommitTransaction and AbortTransaction visit the read/write set in any order and write single header
  // fields; other transactions run in between.  `Settled` finishes by thought what a committing or aborting
  // transaction still has to write.  Under that view each field write changes nothing, and the moment the loop starts
  // is the atomic commit or abort of module `Mvto`.

  /** A loop in progress: the entries not done, the one being written and the field writes done on it. */
  datatype Work = Work(commits: bool, rest: set<Loc>, current: Option<Loc>, done: nat)

  datatype Fine = Fine(store: Store, work: map<Cid, Work>)

  datatype FineAction =
    | Call(a: Action)
    | Start(t: Cid, commits: bool)
    | Pick(t: Cid, loc: Loc)
    | Write(t: Cid)
    | Finish(t: Cid)

  // ----- The field writes, in source order -----

  function WriteCount(commits: bool, kind: RWType): nat {
    match kind
    case READ => 0
    case READ_OWN => 1
    case UPDATE => if commits then 5 else 6
    case DELETE => if commits then 5 else 6
    case INSERT => 3
    case INS_DEL => 3
  }

  function SetSlot(s: Store, loc: Loc, x: Slot): Store {
    s.(slots := s.slots[loc := x])
  }

  /** Write number `i` for an entry of kind update or delete at `loc`, whose new version is at `n`. */
  function WriteReplaced(s: Store, t: Cid, commits: bool, kind: RWType, loc: Loc, n: Loc, i: nat): Store
    requires loc in s.slots && n in s.slots
  {
    var x, y := s.slots[loc], s.slots[n];
    if commits then
      match i
      case 0 => SetSlot(s, n, y.(begin := t))
      case 1 => SetSlot(s, n, y.(end := x.end))
      case 2 => SetSlot(s, loc, x.(end := t))
      case 3 => SetSlot(s, n, y.(txnId := if kind == UPDATE then INITIAL_TXN_ID else INVALID_TXN_ID))
      case _ => SetSlot(s, loc, x.(txnId := INITIAL_TXN_ID))
    else
      match i
      case 0 => SetSlot(s, n, y.(begin := MAX_CID))
      case 1 => SetSlot(s, n, y.(end := MAX_CID))
      case 2 => s.(index := s.index[x.tuple := loc])
      case 3 => SetSlot(s, n, y.(txnId := INVALID_TXN_ID))
      case 4 => SetSlot(s, loc, x.(prev := None))
      case _ => SetSlot(s, loc, x.(txnId := INITIAL_TXN_ID))
  }

  /** Write number `i` for an inserted version, kept or thrown away. */
  function WriteInserted(s: Store, t: Cid, keep: bool, loc: Loc, i: nat): Store
    requires loc in s.slots
  {
    var x := s.slots[loc];
    match i
    case 0 => SetSlot(s, loc, x.(begin := if keep then t else MAX_CID))
    case 1 => SetSlot(s, loc, x.(end := MAX_CID))
    case _ => SetSlot(s, loc, x.(txnId := if keep then INITIAL_TXN_ID else INVALID_TXN_ID))
  }

  function WriteField(s: Store, t: Cid, commits: bool, kind: RWType, loc: Loc, i: nat): Store
    requires loc in s.slots
  {
    var x := s.slots[loc];
    var n := if x.prev.Some? && x.prev.value in s.slots then x.prev.value else loc;
    match kind
    case READ => s
    case READ_OWN => SetSlot(s, loc, x.(txnId := INITIAL_TXN_ID))
    case UPDATE => WriteReplaced(s, t, commits, kind, loc, n, i)
    case DELETE => WriteReplaced(s, t, commits, kind, loc, n, i)
    case INSERT => WriteInserted(s, t, commits, loc, i)
    case INS_DEL => WriteInserted(s, t, false, loc, i)
  }

  // ----- Steps -----

  predicate IsEnd(a: Action) {
    a.Commit? || a.Abort?
  }

  /** Whose step it is. */
  function FineActor(b: FineAction): Cid {
    if b.Call? then b.a.t else b.t
  }

  predicate FineEnabled(f: Fine, b: FineAction) {
    match b
    case Call(a) => !IsEnd(a) && a.t !in f.work && Enabled(f.store, a)
    case Start(t, _) => IsActive(f.store, t) && t !in f.work
    case Pick(t, loc) => t in f.work && f.work[t].current == None && loc in f.work[t].rest
    case Write(t) => t in f.work && f.work[t].current.Some? && f.work[t].current.value in f.store.slots &&
                     t in f.store.txns && f.work[t].current.value in f.store.txns[t].rw
    case Finish(t) => t in f.work && t in f.store.txns && f.work[t].rest == {}
  }

  function Leave(w: Work, loc: Loc): Work {
    w.(rest := w.rest - {loc}, current := None, done := 0)
  }

  function FineStep(f: Fine, b: FineAction): Fine
    requires FineEnabled(f, b)
  {
    match b
    case Call(a) => f.(store := Step(f.store, a))
    case Start(t, commits) => f.(work := f.work[t := Work(commits, f.store.txns[t].rw.Keys, None, 0)])
    case Pick(t, loc) => f.(work := f.work[t := f.work[t].(current := Some(loc), done := 0)])
    case Write(t) =>
      var w := f.work[t];
      var loc := w.current.value;
      var kind := f.store.txns[t].rw[loc];
      if w.done < WriteCount(w.commits, kind) then
        Fine(WriteField(f.store, t, w.commits, kind, loc, w.done), f.work[t := w.(done := w.done + 1)])
      else f.(work := f.work[t := Leave(w, loc)])
    case Finish(t) =>
      var end := if f.work[t].commits then Committed else Aborted;
      Fine(f.store.(txns := f.store.txns[t := f.store.txns[t].(status := end)]),
           f.work - {t})
  }

  function FineRun(f: Fine, actions: seq<FineAction>): Option<Fine>
    decreases |actions|
  {
    if actions == [] then Some(f)
    else if FineEnabled(f, actions[0]) then FineRun(FineStep(f, actions[0]), actions[1..])
    else None
  }

  // ----- The settled view -----

  function SettledSlot(f: Fine, loc: Loc): Slot
    requires loc in f.store.slots
  {
    var x := f.store.slots[loc];
    if x.txnId in f.work && x.txnId in f.store.txns then
      var rw := f.store.txns[x.txnId].rw;
      if f.work[x.txnId].commits then SettleCommit(x, loc, x.txnId, rw) else SettleAbort(x, loc, x.txnId, rw)
    else x
  }

  function SettledIndex(f: Fine, h: Loc): Loc {
    if h in f.store.slots && f.store.slots[h].txnId in f.work && !f.work[f.store.slots[h].txnId].commits
    then SettledHead(f.store.slots, h, f.store.slots[h].txnId) else h
  }

  function SettledTxn(f: Fine, t: Cid): Txn
    requires t in f.store.txns
  {
    if t in f.work then f.store.txns[t].(status := if f.work[t].commits then Committed else Aborted)
    else f.store.txns[t]
  }

  function Settled(f: Fine): Store {
    Store(map loc | loc in f.store.slots :: SettledSlot(f, loc),
          map k | k in f.store.index :: SettledIndex(f, f.store.index[k]),
          map t | t in f.store.txns :: SettledTxn(f, t))
  }

  // ----- What a loop in progress may rely on -----

  /** The uncommitted version above an entry, after `done` writes on the entry. */
  predicate NewVersionOk(s: Store, t: Cid, commits: bool, loc: Loc, n: Loc, done: nat) {
    && t in s.txns && loc in s.txns[t].rw && loc in s.slots && n in s.slots && n !in s.txns[t].rw
    && var y := s.slots[n];
       && y.txnId == t && y.next == Some(loc) && y.prev == None && y.tuple == s.slots[loc].tuple
       && y.begin == (if commits && done >= 1 then t else MAX_CID)
       && y.end == (if done < 2 && s.txns[t].rw[loc] == DELETE then INVALID_CID else MAX_CID)
  }

  /** The only version of its tuple, as an insert makes it. */
  predicate LoneVersion(s: Store, loc: Loc)
    requires loc in s.slots
  {
    var x := s.slots[loc];
    x.next == None && x.prev == None && x.tuple in s.index && s.index[x.tuple] == loc
  }

  /** An entry on which `done` field writes have been made, the last of which releases it. */
  predicate OpenEntry(s: Store, t: Cid, commits: bool, loc: Loc, done: nat) {
    && t in s.txns && loc in s.txns[t].rw && loc in s.slots
    && var x := s.slots[loc];
       var kind := s.txns[t].rw[loc];
       done < WriteCount(commits, kind) ==>
         && x.txnId == t
         && match kind
            case READ => true
            case READ_OWN => x.begin < t && x.begin != MAX_CID && x.prev == None
            case INSERT =>
              LoneVersion(s, loc) && x.begin == (if commits && done >= 1 then t else MAX_CID) && x.end == MAX_CID
            case INS_DEL =>
              LoneVersion(s, loc) && x.begin == MAX_CID && x.end == (if done < 2 then INVALID_CID else MAX_CID)
            case _ =>
              && x.begin < t && x.begin != MAX_CID
              && (done < 4 ==> x.prev.Some? && NewVersionOk(s, t, commits, loc, x.prev.value, done))
              && (if commits then x.end == if done >= 3 then t else MAX_CID
                  else
                    && x.tuple in s.index
                    && (if done >= 3 then s.index[x.tuple] == loc else x.prev == Some(s.index[x.tuple]))
                    && (done >= 5 ==> x.prev == None))
  }

  function DoneOn(w: Work, loc: Loc): nat {
    if w.current == Some(loc) then w.done else 0
  }

  /** A slot still owned by the loop belongs to an entry that is not done. */
  predicate Accounted(f: Fine, t: Cid, l: Loc)
    requires t in f.work && t in f.store.txns && l in f.store.slots
  {
    var w, rw := f.work[t], f.store.txns[t].rw;
    f.store.slots[l].txnId == t ==>
      if l in rw then l in w.rest && DoneOn(w, l) < WriteCount(w.commits, rw[l])
      else
        && f.store.slots[l].next.Some?
        && var o := f.store.slots[l].next.value;
           && o in w.rest && o in rw && (rw[o] == UPDATE || rw[o] == DELETE) && DoneOn(w, o) < 4
           && o in f.store.slots && f.store.slots[o].prev == Some(l)
  }

  ghost predicate WorkOk(f: Fine, t: Cid)
    requires t in f.work
  {
    && IsActive(f.store, t)
    && (f.work[t].current.Some? ==> f.work[t].current.value in f.work[t].rest)
    && (forall l {:trigger OpenEntry(f.store, t, f.work[t].commits, l, DoneOn(f.work[t], l))} :: l in f.work[t].rest ==>
          OpenEntry(f.store, t, f.work[t].commits, l, DoneOn(f.work[t], l)))
    && (forall l {:trigger Accounted(f, t, l)} :: l in f.store.slots ==> Accounted(f, t, l))
  }

  ghost predicate FineInv(f: Fine) {
    && Inv(Settled(f))
    && forall t {:trigger WorkOk(f, t)} :: t in f.work ==> WorkOk(f, t)
  }

  predicate MarksFree(f: Fine) {
    INVALID_TXN_ID !in f.work && INITIAL_TXN_ID !in f.work && f.work.Keys <= f.store.txns.Keys
  }

  lemma WorkersKnown(f: Fine)
    requires FineInv(f)
    ensures MarksFree(f) && forall t :: t in f.work ==> INITIAL_TXN_ID < t
  {
    forall t | t in f.work ensures t in f.store.txns && INITIAL_TXN_ID < t {
      assert WorkOk(f, t);
      assert t in Settled(f).txns;
    }
  }

  // ----- Calls of running transactions commute with settling -----

  lemma CallEnabled(f: Fine, a: Action)
    requires MarksFree(f) && FineEnabled(f, Call(a))
    ensures Enabled(Settled(f), a)
  {
  }

  predicate IsRead(a: Action) {
    a.Begin? || a.Read? || a.ReadForUpdate?
  }

  lemma CallSlotRead(f: Fine, a: Action, l: Loc)
    requires MarksFree(f) && FineEnabled(f, Call(a)) && Enabled(Settled(f), a) && IsRead(a)
    ensures var g, s' := FineStep(f, Call(a)), Step(Settled(f), a);
            (l in g.store.slots <==> l in s'.slots) && (l in s'.slots ==> SettledSlot(g, l) == s'.slots[l])
  {
    match a {
      case Begin(_) =>
      case Read(_, _) =>
      case ReadForUpdate(_, _) =>
    }
  }

  lemma CallSlotWrite(f: Fine, a: Action, l: Loc)
    requires MarksFree(f) && FineEnabled(f, Call(a)) && Enabled(Settled(f), a) && !IsRead(a)
    ensures var g, s' := FineStep(f, Call(a)), Step(Settled(f), a);
            (l in g.store.slots <==> l in s'.slots) && (l in s'.slots ==> SettledSlot(g, l) == s'.slots[l])
  {
    match a {
      case Insert(_, _, _, _) =>
      case Update(_, _, _, _) =>
      case Delete(_, _, _) =>
      case Overwrite(_, _, _) =>
      case DeleteOwn(_, _) =>
    }
  }

  predicate HeadAgrees(g: Fine, s: Store, k: TupleId) {
    (k in g.store.index <==> k in s.index) && (k in s.index ==> SettledIndex(g, g.store.index[k]) == s.index[k])
  }

  lemma CallHeadRead(f: Fine, a: Action, k: TupleId)
    requires MarksFree(f) && FineEnabled(f, Call(a)) && Enabled(Settled(f), a) && IsRead(a)
    ensures HeadAgrees(FineStep(f, Call(a)), Step(Settled(f), a), k)
  {
    match a {
      case Begin(_) =>
      case Read(_, _) =>
      case ReadForUpdate(_, _) =>
    }
  }

  lemma CallHeadWrite(f: Fine, a: Action, k: TupleId)
    requires MarksFree(f) && FineEnabled(f, Call(a)) && Enabled(Settled(f), a) && !IsRead(a)
    ensures HeadAgrees(FineStep(f, Call(a)), Step(Settled(f), a), k)
  {
    match a {
      case Insert(_, _, _, _) =>
      case Update(_, _, _, _) =>
      case Delete(_, _, _) =>
      case Overwrite(_, _, _) =>
      case DeleteOwn(_, _) =>
    }
  }

  lemma CallTxnRead(f: Fine, a: Action, u: Cid)
    requires MarksFree(f) && FineEnabled(f, Call(a)) && Enabled(Settled(f), a) && IsRead(a)
    ensures var g, s' := FineStep(f, Call(a)), Step(Settled(f), a);
            (u in g.store.txns <==> u in s'.txns) && (u in s'.txns ==> SettledTxn(g, u) == s'.txns[u])
  {
    match a {
      case Begin(_) =>
      case Read(_, _) =>
      case ReadForUpdate(_, _) =>
    }
  }

  lemma CallTxnWrite(f: Fine, a: Action, u: Cid)
    requires MarksFree(f) && FineEnabled(f, Call(a)) && Enabled(Settled(f), a) && !IsRead(a)
    ensures var g, s' := FineStep(f, Call(a)), Step(Settled(f), a);
            (u in g.store.txns <==> u in s'.txns) && (u in s'.txns ==> SettledTxn(g, u) == s'.txns[u])
  {
    match a {
      case Insert(_, _, _, _) =>
      case Update(_, _, _, _) =>
      case Delete(_, _, _) =>
      case Overwrite(_, _, _) =>
      case DeleteOwn(_, _) =>
    }
  }

  lemma CallSlots(f: Fine, a: Action)
    requires MarksFree(f) && FineEnabled(f, Call(a)) && Enabled(Settled(f), a)
    ensures Settled(FineStep(f, Call(a))).slots == Step(Settled(f), a).slots
  {
    var g, s' := FineStep(f, Call(a)), Step(Settled(f), a);
    forall l: Loc
      ensures (l in g.store.slots <==> l in s'.slots) && (l in s'.slots ==> SettledSlot(g, l) == s'.slots[l])
    {
      if IsRead(a) { CallSlotRead(f, a, l); } else { CallSlotWrite(f, a, l); }
    }
  }

  lemma SameIndex(g: Fine, s: Store)
    requires forall k {:trigger HeadAgrees(g, s, k)} :: HeadAgrees(g, s, k)
    ensures Settled(g).index == s.index
  {
    assert forall k :: k in g.store.index || k in s.index ==> HeadAgrees(g, s, k);
  }

  lemma CallIndex(f: Fine, a: Action)
    requires MarksFree(f) && FineEnabled(f, Call(a)) && Enabled(Settled(f), a)
    ensures Settled(FineStep(f, Call(a))).index == Step(Settled(f), a).index
  {
    forall k: TupleId ensures HeadAgrees(FineStep(f, Call(a)), Step(Settled(f), a), k) {
      if IsRead(a) { CallHeadRead(f, a, k); } else { CallHeadWrite(f, a, k); }
    }
    SameIndex(FineStep(f, Call(a)), Step(Settled(f), a));
  }

  lemma CallTxns(f: Fine, a: Action)
    requires MarksFree(f) && FineEnabled(f, Call(a)) && Enabled(Settled(f), a)
    ensures Settled(FineStep(f, Call(a))).txns == Step(Settled(f), a).txns
  {
    var g, s' := FineStep(f, Call(a)), Step(Settled(f), a);
    forall u: Cid
      ensures (u in g.store.txns <==> u in s'.txns) && (u in s'.txns ==> SettledTxn(g, u) == s'.txns[u])
    {
      if IsRead(a) { CallTxnRead(f, a, u); } else { CallTxnWrite(f, a, u); }
    }
  }

  lemma CallSettles(f: Fine, a: Action)
    requires MarksFree(f) && FineEnabled(f, Call(a))
    ensures Enabled(Settled(f), a) && Settled(FineStep(f, Call(a))) == Step(Settled(f), a)
  {
    CallEnabled(f, a);
    CallSlots(f, a);
    CallIndex(f, a);
    CallTxns(f, a);
  }

  // ----- A loop in progress is not disturbed by the calls of others -----

  /** A call changes slots of its own or of nobody, and only its own context. */
  lemma CallTouches(s: Store, a: Action, u: Cid, l: Loc)
    requires Enabled(s, a) && !IsEnd(a) && u in s.txns && u != a.t && u > INITIAL_TXN_ID
    ensures l in s.slots && s.slots[l].txnId == u ==> l in Step(s, a).slots && Step(s, a).slots[l] == s.slots[l]
    ensures l in Step(s, a).slots && Step(s, a).slots[l].txnId == u ==> l in s.slots && s.slots[l].txnId == u
    ensures u in Step(s, a).txns && Step(s, a).txns[u] == s.txns[u]
  {
  }

  /** The head of a tuple that `u` is rolling back cannot be moved by a call of another transaction. */
  lemma CallKeepsHead(f: Fine, a: Action, u: Cid, loc: Loc)
    requires FineInv(f) && FineEnabled(f, Call(a)) && u in f.work && u != a.t && loc in f.store.slots
    requires var x := f.store.slots[loc];
             x.txnId == u && x.tuple in f.store.index && SettledIndex(f, f.store.index[x.tuple]) == loc
    ensures var k, now := f.store.slots[loc].tuple, Step(f.store, a).index; k in now && now[k] == f.store.index[k]
  {
    WorkersKnown(f);
    CallSettles(f, a);
    if a.Update? || a.Delete? {
      var s := Settled(f);
      assert SlotOk(s, a.loc) && EntryOk(s, a.t, a.loc);
      assert HeadOk(s, f.store.slots[loc].tuple);
    }
  }

  lemma CallKeepsEntry(f: Fine, a: Action, u: Cid, l: Loc)
    requires FineInv(f) && FineEnabled(f, Call(a)) && u in f.work && l in f.work[u].rest
    ensures OpenEntry(Step(f.store, a), u, f.work[u].commits, l, DoneOn(f.work[u], l))
  {
    WorkersKnown(f);
    assert WorkOk(f, u);
    assert OpenEntry(f.store, u, f.work[u].commits, l, DoneOn(f.work[u], l));
    CallTouches(f.store, a, u, l);
    var x := f.store.slots[l];
    if x.prev.Some? { CallTouches(f.store, a, u, x.prev.value); }
    if x.txnId == u && x.tuple in f.store.index && SettledIndex(f, f.store.index[x.tuple]) == l {
      CallKeepsHead(f, a, u, l);
    }
  }

  lemma CallKeepsWork(f: Fine, a: Action, u: Cid)
    requires FineInv(f) && FineEnabled(f, Call(a)) && u in f.work
    ensures WorkOk(FineStep(f, Call(a)), u)
  {
    WorkersKnown(f);
    assert WorkOk(f, u);
    var g := FineStep(f, Call(a));
    CallTouches(f.store, a, u, 0);
    forall l | l in g.work[u].rest ensures OpenEntry(g.store, u, g.work[u].commits, l, DoneOn(g.work[u], l)) {
      CallKeepsEntry(f, a, u, l);
    }
    forall l | l in g.store.slots ensures Accounted(g, u, l) {
      CallTouches(f.store, a, u, l);
      if l in f.store.slots { assert Accounted(f, u, l); }
    }
  }

  lemma CallKeepsFine(f: Fine, a: Action)
    requires FineInv(f) && FineEnabled(f, Call(a))
    ensures FineInv(FineStep(f, Call(a)))
  {
    WorkersKnown(f);
    CallSettles(f, a);
    StepKeeps(Settled(f), a);
    var g := FineStep(f, Call(a));
    forall u | u in g.work ensures WorkOk(g, u) { CallKeepsWork(f, a, u); }
  }

  // ----- Starting the loop is the atomic commit or abort -----

  function EndOf(t: Cid, commits: bool): Action {
    if commits then Commit(t) else Abort(t)
  }

  lemma StartSlot(f: Fine, t: Cid, commits: bool, l: Loc)
    requires MarksFree(f) && FineEnabled(f, Start(t, commits)) && IsActive(Settled(f), t) && INITIAL_TXN_ID < t
    requires l in f.store.slots
    ensures l in Step(Settled(f), EndOf(t, commits)).slots
    ensures SettledSlot(FineStep(f, Start(t, commits)), l) == Step(Settled(f), EndOf(t, commits)).slots[l]
  {
  }

  lemma StartHead(f: Fine, t: Cid, commits: bool, k: TupleId)
    requires FineInv(f) && FineEnabled(f, Start(t, commits)) && IsActive(Settled(f), t) && k in f.store.index
    ensures k in Step(Settled(f), EndOf(t, commits)).index
    ensures SettledIndex(FineStep(f, Start(t, commits)), f.store.index[k]) ==
            Step(Settled(f), EndOf(t, commits)).index[k]
  {
    WorkersKnown(f);
    var h := f.store.index[k];
    assert HeadOk(Settled(f), k);
    if h in f.store.slots && f.store.slots[h].txnId in f.work {
      var u := f.store.slots[h].txnId;
      assert WorkOk(f, u) && Accounted(f, u, h);
      var o := if h in f.store.txns[u].rw then h else f.store.slots[h].next.value;
      assert OpenEntry(f.store, u, f.work[u].commits, o, DoneOn(f.work[u], o));
    }
  }

  lemma StartIndex(f: Fine, t: Cid, commits: bool)
    requires FineInv(f) && FineEnabled(f, Start(t, commits)) && IsActive(Settled(f), t)
    ensures Settled(FineStep(f, Start(t, commits))).index == Step(Settled(f), EndOf(t, commits)).index
  {
    forall k: TupleId ensures HeadAgrees(FineStep(f, Start(t, commits)), Step(Settled(f), EndOf(t, commits)), k) {
      if k in f.store.index { StartHead(f, t, commits, k); }
    }
    SameIndex(FineStep(f, Start(t, commits)), Step(Settled(f), EndOf(t, commits)));
  }

  lemma StartSettles(f: Fine, t: Cid, commits: bool)
    requires FineInv(f) && FineEnabled(f, Start(t, commits))
    ensures IsActive(Settled(f), t)
    ensures Settled(FineStep(f, Start(t, commits))) == Step(Settled(f), EndOf(t, commits))
  {
    WorkersKnown(f);
    assert t in Settled(f).txns;
    var g, s' := FineStep(f, Start(t, commits)), Step(Settled(f), EndOf(t, commits));
    assert Settled(g).slots == s'.slots by {
      forall l | l in g.store.slots ensures SettledSlot(g, l) == s'.slots[l] { StartSlot(f, t, commits, l); }
    }
    StartIndex(f, t, commits);
    assert Settled(g).txns == s'.txns;
  }

  /** A head that settling moves down is the new version of an entry still to be rolled back. */
  lemma HeadMoves(f: Fine, h: Loc)
    requires FineInv(f) && SettledIndex(f, h) != h
    ensures h in f.store.slots && SettledIndex(f, h) in f.store.slots
    ensures var o := SettledIndex(f, h);
            && f.store.slots[h].txnId in f.work && f.store.slots[h].next == Some(o) && f.store.slots[h].begin == MAX_CID
            && f.store.slots[o].txnId == f.store.slots[h].txnId && f.store.slots[o].prev == Some(h)
  {
    var u, o := f.store.slots[h].txnId, SettledIndex(f, h);
    assert WorkOk(f, u) && Accounted(f, u, h);
    var e := if h in f.store.txns[u].rw then h else o;
    assert OpenEntry(f.store, u, f.work[u].commits, e, DoneOn(f.work[u], e));
  }

  /** When the loop starts, every entry is untouched and every owned slot belongs to an entry. */
  lemma StartEntry(f: Fine, t: Cid, commits: bool, l: Loc)
    requires FineInv(f) && FineEnabled(f, Start(t, commits)) && l in f.store.txns[t].rw
    ensures OpenEntry(f.store, t, commits, l, 0)
  {
    WorkersKnown(f);
    var s := Settled(f);
    assert IsActive(s, t);
    assert EntryOk(s, t, l) && SlotOk(s, l);
    if s.slots[l].prev.Some? { assert SlotOk(s, s.slots[l].prev.value); }
    var h := f.store.index[s.slots[l].tuple];
    if SettledIndex(f, h) != h { HeadMoves(f, h); }
  }

  lemma StartAccounted(f: Fine, t: Cid, commits: bool, l: Loc)
    requires FineInv(f) && FineEnabled(f, Start(t, commits)) && l in f.store.slots
    ensures Accounted(FineStep(f, Start(t, commits)), t, l)
  {
    WorkersKnown(f);
    var s := Settled(f);
    assert SlotOk(s, l);
    if f.store.slots[l].txnId == t && l in f.store.txns[t].rw { StartEntry(f, t, commits, l); }
  }

  lemma StartKeepsFine(f: Fine, t: Cid, commits: bool)
    requires FineInv(f) && FineEnabled(f, Start(t, commits))
    ensures FineInv(FineStep(f, Start(t, commits)))
  {
    StartSettles(f, t, commits);
    StepKeeps(Settled(f), EndOf(t, commits));
    var g := FineStep(f, Start(t, commits));
    forall u | u in g.work ensures WorkOk(g, u) {
      if u == t {
        forall l | l in g.work[u].rest ensures OpenEntry(g.store, u, g.work[u].commits, l, DoneOn(g.work[u], l)) {
          StartEntry(f, t, commits, l);
        }
        forall l | l in g.store.slots ensures Accounted(g, u, l) { StartAccounted(f, t, commits, l); }
      } else {
        WorkElsewhere(f, g, u);
      }
    }
  }

  /** A loop is unaffected by what happens to the work of others while the store stays. */
  lemma WorkElsewhere(f: Fine, g: Fine, u: Cid)
    requires u in f.work && WorkOk(f, u) && g.store == f.store && u in g.work && g.work[u] == f.work[u]
    ensures WorkOk(g, u)
  {
    forall l | l in g.work[u].rest ensures OpenEntry(g.store, u, g.work[u].commits, l, DoneOn(g.work[u], l)) {
      assert OpenEntry(f.store, u, f.work[u].commits, l, DoneOn(f.work[u], l));
    }
    forall l | l in g.store.slots ensures Accounted(g, u, l) {
      assert Accounted(f, u, l);
    }
  }

  // ----- A field write changes nothing that is settled -----

  predicate Writing(f: Fine, t: Cid) {
    && FineEnabled(f, Write(t))
    && f.work[t].done < WriteCount(f.work[t].commits, f.store.txns[t].rw[f.work[t].current.value])
  }

  /** What holds of the entry being written. */
  lemma CurrentOpen(f: Fine, t: Cid)
    requires FineInv(f) && Writing(f, t)
    ensures OpenEntry(f.store, t, f.work[t].commits, f.work[t].current.value, f.work[t].done)
    ensures MarksFree(f) && INITIAL_TXN_ID < t
  {
    WorkersKnown(f);
    assert WorkOk(f, t);
    var loc := f.work[t].current.value;
    assert OpenEntry(f.store, t, f.work[t].commits, loc, DoneOn(f.work[t], loc));
  }

  lemma WriteSlot(f: Fine, t: Cid, l: Loc)
    requires Writing(f, t) && MarksFree(f) && INITIAL_TXN_ID < t && l in f.store.slots
    requires OpenEntry(f.store, t, f.work[t].commits, f.work[t].current.value, f.work[t].done)
    ensures l in FineStep(f, Write(t)).store.slots && SettledSlot(FineStep(f, Write(t)), l) == SettledSlot(f, l)
  {
  }

  /** An update or delete being rolled back leaves the replaced version as the settled head. */
  lemma CurrentIsHead(f: Fine, t: Cid)
    requires FineInv(f) && Writing(f, t)
    ensures var loc := f.work[t].current.value;
            var x := f.store.slots[loc];
            && x.tuple in f.store.index
            && (!f.work[t].commits && x.begin != MAX_CID && f.store.txns[t].rw[loc] in {UPDATE, DELETE} ==>
                  SettledIndex(f, f.store.index[x.tuple]) == loc)
  {
    CurrentOpen(f, t);
    assert SlotOk(Settled(f), f.work[t].current.value);
  }

  lemma WriteReplacedHead(f: Fine, t: Cid, k: TupleId)
    requires Writing(f, t) && MarksFree(f) && k in f.store.index && HeadOk(Settled(f), k)
    requires OpenEntry(f.store, t, f.work[t].commits, f.work[t].current.value, f.work[t].done)
    requires var loc := f.work[t].current.value;
             var x := f.store.slots[loc];
             && x.tuple in f.store.index
             && (!f.work[t].commits && x.begin != MAX_CID && f.store.txns[t].rw[loc] in {UPDATE, DELETE} ==>
                   SettledIndex(f, f.store.index[x.tuple]) == loc)
    requires f.store.txns[t].rw[f.work[t].current.value] in {UPDATE, DELETE}
    ensures var g := FineStep(f, Write(t));
            k in g.store.index && SettledIndex(g, g.store.index[k]) == SettledIndex(f, f.store.index[k])
  {
  }

  lemma WriteHead(f: Fine, t: Cid, k: TupleId)
    requires Writing(f, t) && MarksFree(f) && k in f.store.index && HeadOk(Settled(f), k)
    requires OpenEntry(f.store, t, f.work[t].commits, f.work[t].current.value, f.work[t].done)
    requires var loc := f.work[t].current.value;
             var x := f.store.slots[loc];
             && x.tuple in f.store.index
             && (!f.work[t].commits && x.begin != MAX_CID && f.store.txns[t].rw[loc] in {UPDATE, DELETE} ==>
                   SettledIndex(f, f.store.index[x.tuple]) == loc)
    ensures var g := FineStep(f, Write(t));
            k in g.store.index && SettledIndex(g, g.store.index[k]) == SettledIndex(f, f.store.index[k])
  {
    if f.store.txns[t].rw[f.work[t].current.value] in {UPDATE, DELETE} { WriteReplacedHead(f, t, k); }
  }

  lemma WriteKeys(f: Fine, t: Cid)
    requires FineInv(f) && Writing(f, t)
    ensures var g := FineStep(f, Write(t));
            g.store.slots.Keys == f.store.slots.Keys && g.store.index.Keys == f.store.index.Keys &&
            g.store.txns == f.store.txns
  {
    CurrentOpen(f, t);
    CurrentIsHead(f, t);
  }

  lemma WriteSettles(f: Fine, t: Cid)
    requires FineInv(f) && Writing(f, t)
    ensures Settled(FineStep(f, Write(t))) == Settled(f)
  {
    var g := FineStep(f, Write(t));
    WriteKeys(f, t);
    CurrentOpen(f, t);
    assert Settled(g).slots == Settled(f).slots by {
      forall l | l in f.store.slots ensures SettledSlot(g, l) == SettledSlot(f, l) { WriteSlot(f, t, l); }
    }
    assert Settled(g).index == Settled(f).index by {
      CurrentIsHead(f, t);
      forall k | k in f.store.index ensures SettledIndex(g, g.store.index[k]) == SettledIndex(f, f.store.index[k]) {
        assert HeadOk(Settled(f), k);
        WriteHead(f, t, k);
      }
    }
    assert Settled(g).txns == Settled(f).txns;
  }

  // ----- Field writes keep every loop in progress on track -----

  /** The entry being written moves on by one write. */
  lemma WriteAdvances(f: Fine, t: Cid)
    requires FineInv(f) && Writing(f, t)
    ensures var g := FineStep(f, Write(t));
            OpenEntry(g.store, t, g.work[t].commits, g.work[t].current.value, g.work[t].done)
  {
    CurrentOpen(f, t);
    CurrentIsHead(f, t);
  }

  /** Only slots of the writing transaction change, and only the entry's own two. */
  lemma WriteTouches(f: Fine, t: Cid, l: Loc)
    requires Writing(f, t) && l in f.store.slots
    requires OpenEntry(f.store, t, f.work[t].commits, f.work[t].current.value, f.work[t].done)
    ensures var loc := f.work[t].current.value;
            var g := FineStep(f, Write(t));
            && l in g.store.slots
            && (l != loc && f.store.slots[loc].prev != Some(l) ==> g.store.slots[l] == f.store.slots[l])
            && (f.store.slots[l].txnId != t ==> g.store.slots[l] == f.store.slots[l])
            && (g.store.slots[l].txnId == f.store.slots[l].txnId || g.store.slots[l].txnId <= INITIAL_TXN_ID)
            && g.store.slots[l].next == f.store.slots[l].next
            && (l != loc || f.work[t].done < 4 ==> g.store.slots[l].prev == f.store.slots[l].prev)
  {
  }

  /** A head already moved back by another loop stays: the two tuples differ. */
  lemma WriteKeepsHead(f: Fine, t: Cid, u: Cid, l: Loc)
    requires FineInv(f) && Writing(f, t) && u in f.work && l in f.store.slots && l != f.work[t].current.value
    requires var x := f.store.slots[l];
             && x.txnId == u && x.tuple in f.store.index && SettledIndex(f, f.store.index[x.tuple]) == l
    ensures var k := f.store.slots[l].tuple;
            k in FineStep(f, Write(t)).store.index && FineStep(f, Write(t)).store.index[k] == f.store.index[k]
  {
    CurrentOpen(f, t);
    CurrentIsHead(f, t);
  }

  lemma WriteKeepsEntry(f: Fine, t: Cid, u: Cid, l: Loc)
    requires FineInv(f) && Writing(f, t) && u in f.work && l in f.work[u].rest && l != f.work[t].current.value
    ensures var g := FineStep(f, Write(t)); OpenEntry(g.store, u, g.work[u].commits, l, DoneOn(g.work[u], l))
  {
    CurrentOpen(f, t);
    WriteKeys(f, t);
    assert WorkOk(f, u);
    assert OpenEntry(f.store, u, f.work[u].commits, l, DoneOn(f.work[u], l));
    WriteTouches(f, t, l);
    var x := f.store.slots[l];
    if x.prev.Some? && x.prev.value in f.store.slots { WriteTouches(f, t, x.prev.value); }
    if x.txnId == u && x.tuple in f.store.index && SettledIndex(f, f.store.index[x.tuple]) == l {
      WriteKeepsHead(f, t, u, l);
    }
  }

  lemma WriteKeepsAccounted(f: Fine, t: Cid, u: Cid, l: Loc)
    requires FineInv(f) && Writing(f, t) && u in f.work && l in f.store.slots
    ensures var g := FineStep(f, Write(t)); u in g.store.txns && l in g.store.slots && Accounted(g, u, l)
  {
    CurrentOpen(f, t);
    WriteKeys(f, t);
    WorkersKnown(f);
    assert WorkOk(f, u) && Accounted(f, u, l);
    WriteTouches(f, t, l);
    if f.store.slots[l].next.Some? && f.store.slots[l].next.value in f.work[u].rest {
      var o := f.store.slots[l].next.value;
      assert OpenEntry(f.store, u, f.work[u].commits, o, DoneOn(f.work[u], o));
      WriteTouches(f, t, o);
    }
  }

  lemma WriteKeepsFine(f: Fine, t: Cid)
    requires FineInv(f) && Writing(f, t)
    ensures FineInv(FineStep(f, Write(t)))
  {
    WriteSettles(f, t);
    WriteKeys(f, t);
    WriteAdvances(f, t);
    var g := FineStep(f, Write(t));
    forall u | u in g.work ensures WorkOk(g, u) {
      assert WorkOk(f, u);
      forall l | l in g.work[u].rest ensures OpenEntry(g.store, u, g.work[u].commits, l, DoneOn(g.work[u], l)) {
        if l != f.work[t].current.value {
          WriteKeepsEntry(f, t, u, l);
        } else if u != t {
          CurrentOpen(f, t);
          assert OpenEntry(f.store, u, f.work[u].commits, l, DoneOn(f.work[u], l));
        }
      }
      forall l | l in g.store.slots ensures Accounted(g, u, l) { WriteKeepsAccounted(f, t, u, l); }
    }
  }

  // ----- Moving between entries and leaving the loop -----

  lemma SameStoreSettles(f: Fine, g: Fine)
    requires g.store == f.store && g.work.Keys == f.work.Keys
    requires forall u :: u in f.work ==> g.work[u].commits == f.work[u].commits
    ensures Settled(g) == Settled(f)
  {
    assert Settled(g).slots == Settled(f).slots;
    assert Settled(g).index == Settled(f).index;
    assert Settled(g).txns == Settled(f).txns;
  }

  lemma PickKeepsFine(f: Fine, t: Cid, loc: Loc)
    requires FineInv(f) && FineEnabled(f, Pick(t, loc))
    ensures FineInv(FineStep(f, Pick(t, loc))) && Settled(FineStep(f, Pick(t, loc))) == Settled(f)
  {
    var g := FineStep(f, Pick(t, loc));
    SameStoreSettles(f, g);
    forall u | u in g.work ensures WorkOk(g, u) {
      assert WorkOk(f, u);
      forall l | l in g.work[u].rest ensures OpenEntry(g.store, u, g.work[u].commits, l, DoneOn(g.work[u], l)) {
        assert OpenEntry(f.store, u, f.work[u].commits, l, DoneOn(f.work[u], l));
      }
      forall l | l in g.store.slots ensures Accounted(g, u, l) {
        assert Accounted(f, u, l);
      }
    }
  }

  lemma LeaveKeepsFine(f: Fine, t: Cid)
    requires FineInv(f) && FineEnabled(f, Write(t)) && !Writing(f, t)
    ensures FineInv(FineStep(f, Write(t))) && Settled(FineStep(f, Write(t))) == Settled(f)
  {
    var g := FineStep(f, Write(t));
    SameStoreSettles(f, g);
    forall u | u in g.work ensures WorkOk(g, u) {
      assert WorkOk(f, u);
      forall l | l in g.work[u].rest ensures OpenEntry(g.store, u, g.work[u].commits, l, DoneOn(g.work[u], l)) {
        assert OpenEntry(f.store, u, f.work[u].commits, l, DoneOn(f.work[u], l));
      }
      forall l | l in g.store.slots ensures Accounted(g, u, l) {
        assert Accounted(f, u, l);
      }
    }
  }

  /** At the end of the loop no slot carries the transaction's id. */
  lemma NothingOwned(f: Fine, t: Cid, l: Loc)
    requires FineInv(f) && FineEnabled(f, Finish(t)) && l in f.store.slots
    ensures f.store.slots[l].txnId != t
  {
    assert WorkOk(f, t) && Accounted(f, t, l);
  }

  lemma FinishSettles(f: Fine, t: Cid)
    requires FineInv(f) && FineEnabled(f, Finish(t))
    ensures Settled(FineStep(f, Finish(t))) == Settled(f)
  {
    var g := FineStep(f, Finish(t));
    forall l | l in f.store.slots ensures f.store.slots[l].txnId != t { NothingOwned(f, t, l); }
    assert Settled(g).slots == Settled(f).slots;
    assert Settled(g).index == Settled(f).index;
    assert Settled(g).txns == Settled(f).txns;
  }

  lemma FinishKeepsFine(f: Fine, t: Cid)
    requires FineInv(f) && FineEnabled(f, Finish(t))
    ensures FineInv(FineStep(f, Finish(t)))
  {
    FinishSettles(f, t);
    var g := FineStep(f, Finish(t));
    forall u | u in g.work ensures WorkOk(g, u) {
      assert WorkOk(f, u);
      forall l | l in g.work[u].rest ensures OpenEntry(g.store, u, g.work[u].commits, l, DoneOn(g.work[u], l)) {
        assert OpenEntry(f.store, u, f.work[u].commits, l, DoneOn(f.work[u], l));
      }
      forall l | l in g.store.slots ensures Accounted(g, u, l) {
        assert Accounted(f, u, l);
      }
    }
  }

  // ----- The refinement -----

  /** The atomic action a fine step stands for, if any. */
  function Meaning(b: FineAction): seq<Action> {
    match b
    case Call(a) => [a]
    case Start(t, commits) => [EndOf(t, commits)]
    case _ => []
  }

  lemma FineStepRefines(f: Fine, b: FineAction)
    requires FineInv(f) && FineEnabled(f, b)
    ensures FineInv(FineStep(f, b))
    ensures Run(Settled(f), Meaning(b)) == Some(Settled(FineStep(f, b)))
  {
    WorkersKnown(f);
    match b {
      case Call(a) =>
        CallSettles(f, a);
        CallKeepsFine(f, a);
      case Start(t, commits) =>
        StartSettles(f, t, commits);
        StartKeepsFine(f, t, commits);
      case Pick(t, loc) => PickKeepsFine(f, t, loc);
      case Write(t) =>
        if Writing(f, t) { WriteSettles(f, t); WriteKeepsFine(f, t); } else { LeaveKeepsFine(f, t); }
      case Finish(t) =>
        FinishSettles(f, t);
        FinishKeepsFine(f, t);
    }
  }

  function Meanings(bs: seq<FineAction>): seq<Action> {
    if bs == [] then [] else Meaning(bs[0]) + Meanings(bs[1..])
  }

  lemma RunAppend(s: Store, a: seq<Action>, b: seq<Action>)
    requires Run(s, a).Some?
    ensures Run(s, a + b) == Run(Run(s, a).value, b)
    decreases |a|
  {
    if a == [] {
      assert a + b == b;
    } else {
      assert (a + b)[1..] == a[1..] + b;
      RunAppend(Step(s, a[0]), a[1..], b);
    }
  }

  /** Every run of single field writes, however interleaved, is a run of atomic commits and aborts. */
  lemma FineRunRefines(f: Fine, bs: seq<FineAction>)
    requires FineInv(f) && FineRun(f, bs).Some?
    ensures FineInv(FineRun(f, bs).value)
    ensures Run(Settled(f), Meanings(bs)) == Some(Settled(FineRun(f, bs).value))
    decreases |bs|
  {
    if bs != [] {
      FineStepRefines(f, bs[0]);
      FineRunRefines(FineStep(f, bs[0]), bs[1..]);
      RunAppend(Settled(f), Meaning(bs[0]), Meanings(bs[1..]));
    }
  }

  const FINE_START := Fine(EMPTY_STORE, map[])

  lemma FineStart()
    ensures FineInv(FINE_START) && Settled(FINE_START) == EMPTY_STORE
  {
    assert Settled(FINE_START).slots == map[];
    assert Settled(FINE_START).index == map[];
    assert Settled(FINE_START).txns == map[];
  }

  /** With no loop in progress the settled view is the store itself. */
  lemma SettledWhenIdle(f: Fine)
    requires f.work == map[]
    ensures Settled(f) == f.store
  {
    assert Settled(f).slots == f.store.slots;
    assert Settled(f).index == f.store.index;
    assert Settled(f).txns == f.store.txns;
  }
}
