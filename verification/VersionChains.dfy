/** Version chains in the store as it is, with commits and aborts under way. */
module VersionChains {
  import opened Base
  import opened Mvto
  import opened MvtoInvariant
  import opened FieldWrites

  // ----- States between the installs of entries -----

  /** No loop is in the middle of an entry: the current one is untouched or completely written. */
  predicate BetweenInstalls(f: Fine) {
    forall t :: t in f.work && f.work[t].current.Some? ==>
      var w := f.work[t];
      w.done == 0 || (t in f.store.txns && w.current.value in f.store.txns[t].rw &&
                      w.done >= WriteCount(w.commits, f.store.txns[t].rw[w.current.value]))
  }

  /** The entry that a slot owned by a loop belongs to. */
  function EntryOf(f: Fine, l: Loc): Loc
    requires l in f.store.slots
  {
    var x := f.store.slots[l];
    if x.txnId in f.store.txns && l !in f.store.txns[x.txnId].rw && x.next.Some? then x.next.value else l
  }

  /** A slot still owned by a loop belongs to an entry that nothing has been written on. */
  lemma Untouched(f: Fine, l: Loc)
    requires FineInv(f) && BetweenInstalls(f) && l in f.store.slots && f.store.slots[l].txnId in f.work
    ensures var t := f.store.slots[l].txnId;
            var e := EntryOf(f, l);
            && t in f.store.txns && OpenEntry(f.store, t, f.work[t].commits, e, 0) && f.store.slots[e].txnId == t
            && f.store.txns[t].rw[e] != READ
            && (e != l ==> f.store.txns[t].rw[e] == UPDATE || f.store.txns[t].rw[e] == DELETE)
            && (e != l ==> f.store.slots[e].prev == Some(l))
            && (l in f.store.txns[t].rw ==> e == l)
  {
    var t := f.store.slots[l].txnId;
    assert WorkOk(f, t) && Accounted(f, t, l);
    var e := EntryOf(f, l);
    assert OpenEntry(f.store, t, f.work[t].commits, e, DoneOn(f.work[t], e));
  }

  // ----- What makes chains well formed -----

  predicate SpanOk(s: Store, l: Loc)
    requires l in s.slots
  {
    var x := s.slots[l];
    && x.tuple in s.index && x.begin <= MAX_CID
    && (x.begin == MAX_CID ==> x.prev == None)
    && (x.begin != MAX_CID ==> x.begin < x.end && (x.end != MAX_CID ==> x.prev.Some?))
  }

  predicate ChainSlotOk(s: Store, l: Loc)
    requires l in s.slots
  {
    SpanOk(s, l) && LinksOk(s, l) && TopIsHead(s, l)
  }

  ghost predicate ChainsOk(s: Store) {
    && (forall l {:trigger ChainSlotOk(s, l)} :: l in s.slots ==> ChainSlotOk(s, l))
    && (forall k {:trigger HeadOk(s, k)} :: k in s.index ==> HeadOk(s, k))
  }

  lemma RawSpan(f: Fine, l: Loc)
    requires FineInv(f) && BetweenInstalls(f) && l in f.store.slots
    ensures SpanOk(f.store, l)
  {
    WorkersKnown(f);
    var s, t := Settled(f), f.store.slots[l].txnId;
    assert SlotOk(s, l);
    if t in f.work {
      Untouched(f, l);
      assert SlotOk(s, EntryOf(f, l));
    }
  }

  /** Upwards: the version above is there, points back, and is of the same tuple. */
  lemma RawPrev(f: Fine, l: Loc)
    requires FineInv(f) && BetweenInstalls(f) && l in f.store.slots && f.store.slots[l].prev.Some?
    ensures Linked(f.store, f.store.slots[l].prev.value, l)
  {
    WorkersKnown(f);
    var s, t := Settled(f), f.store.slots[l].txnId;
    assert SlotOk(s, l);
    if t in f.work {
      Untouched(f, l);
    } else {
      var n := f.store.slots[l].prev.value;
      if f.store.slots[n].txnId in f.work { Untouched(f, n); }
    }
  }

  /** Downwards. */
  lemma RawNext(f: Fine, l: Loc)
    requires FineInv(f) && BetweenInstalls(f) && l in f.store.slots && f.store.slots[l].next.Some?
    requires !Dead(f.store.slots[l])
    ensures Linked(f.store, l, f.store.slots[l].next.value)
  {
    WorkersKnown(f);
    var s, t, o := Settled(f), f.store.slots[l].txnId, f.store.slots[l].next.value;
    assert SlotOk(s, l);
    if t in f.work { Untouched(f, l); }
    if t !in f.work || EntryOf(f, l) == l {
      assert SlotOk(s, o);
      if f.store.slots[o].txnId in f.work { Untouched(f, o); }
    } else {
      assert SlotOk(s, EntryOf(f, l));
      RawPrev(f, o);
    }
  }

  /** A live slot with nothing above it is the index head. */
  lemma RawTop(f: Fine, l: Loc)
    requires FineInv(f) && BetweenInstalls(f) && l in f.store.slots
    ensures TopIsHead(f.store, l)
  {
    WorkersKnown(f);
    RawSpan(f, l);
    var s, x := Settled(f), f.store.slots[l];
    var h := f.store.index[x.tuple];
    assert SlotOk(s, l);
    assert s.index[x.tuple] == SettledIndex(f, h);
    if SettledIndex(f, h) != h { HeadMoves(f, h); }
    if x.txnId in f.work {
      Untouched(f, l);
      assert x.txnId in s.txns;
    }
  }

  lemma RawHead(f: Fine, k: TupleId)
    requires FineInv(f) && BetweenInstalls(f) && k in f.store.index
    ensures HeadOk(f.store, k)
  {
    WorkersKnown(f);
    var s, h := Settled(f), f.store.index[k];
    assert HeadOk(s, k);
    if SettledIndex(f, h) != h {
      HeadMoves(f, h);
      RawSpan(f, h);
      RawPrev(f, SettledIndex(f, h));
    } else {
      assert SlotOk(s, h);
      if f.store.slots[h].txnId in f.work { Untouched(f, h); }
    }
  }

  /** In every state between the installs of entries the store itself has well-formed chains. */
  lemma RawChainsOk(f: Fine)
    requires FineInv(f) && BetweenInstalls(f)
    ensures ChainsOk(f.store)
  {
    forall l | l in f.store.slots ensures ChainSlotOk(f.store, l) {
      RawSpan(f, l);
      RawTop(f, l);
      if f.store.slots[l].prev.Some? { RawPrev(f, l); }
      if f.store.slots[l].next.Some? && !Dead(f.store.slots[l]) { RawNext(f, l); }
    }
    forall k | k in f.store.index ensures HeadOk(f.store, k) { RawHead(f, k); }
  }

  // ----- Chains -----

  /** The slots met by following next pointers. */
  ghost function Chain(s: Store, loc: Loc): seq<Loc>
    requires ChainsOk(s) && loc in s.slots
    decreases s.slots[loc].begin
  {
    var x := s.slots[loc];
    assert ChainSlotOk(s, loc);
    if Dead(x) || x.next == None then [loc]
    else
      assert ChainSlotOk(s, x.next.value);
      [loc] + Chain(s, x.next.value)
  }

  lemma {:induction false} LinkedAlong(s: Store, loc: Loc, i: nat)
    requires ChainsOk(s) && loc in s.slots && i + 1 < |Chain(s, loc)|
    ensures var c := Chain(s, loc);
            Linked(s, c[i], c[i + 1]) && s.slots[c[i + 1]].begin < s.slots[c[i]].begin
    decreases i
  {
    assert ChainSlotOk(s, loc);
    var x := s.slots[loc];
    assert ChainSlotOk(s, x.next.value);
    if i > 0 {
      LinkedAlong(s, x.next.value, i - 1);
    } else {
      assert Chain(s, loc)[1] == Chain(s, x.next.value)[0];
    }
  }

  /** Newest first: adjacent slots are doubly linked, begin ids fall strictly, an older version ends where the
      next newer one begins, and all of them are versions of one tuple. */
  lemma ChainShape(f: Fine, loc: Loc, i: nat)
    requires FineInv(f) && BetweenInstalls(f) && loc in f.store.slots
    ensures ChainsOk(f.store)
    ensures var s := f.store;
            var c := Chain(s, loc);
            i + 1 < |c| ==>
              && c[i] in s.slots && c[i + 1] in s.slots
              && s.slots[c[i]].next == Some(c[i + 1]) && s.slots[c[i + 1]].prev == Some(c[i])
              && s.slots[c[i]].tuple == s.slots[c[i + 1]].tuple
              && s.slots[c[i + 1]].begin < s.slots[c[i]].begin
              && s.slots[c[i + 1]].end == s.slots[c[i]].begin
  {
    RawChainsOk(f);
    if i + 1 < |Chain(f.store, loc)| { LinkedAlong(f.store, loc, i); }
  }

  /** A committed version is open-ended exactly when no committed version stands above it. */
  lemma NewestCommitted(f: Fine, l: Loc)
    requires FineInv(f) && BetweenInstalls(f) && l in f.store.slots && f.store.slots[l].begin != MAX_CID
    ensures var x := f.store.slots[l];
            && (x.prev.Some? ==> x.prev.value in f.store.slots)
            && (x.end == MAX_CID <==> x.prev == None || f.store.slots[x.prev.value].begin == MAX_CID)
  {
    RawSpan(f, l);
    if f.store.slots[l].prev.Some? { RawPrev(f, l); }
  }

  lemma {:induction false} ClosedBelow(s: Store, loc: Loc, n: Loc)
    requires ChainsOk(s) && loc in s.slots && n in Chain(s, loc)
    ensures n in s.slots && s.slots[n].tuple == s.slots[loc].tuple
    ensures !Dead(s.slots[n]) && s.slots[n].next.Some? ==> s.slots[n].next.value in Chain(s, loc)
    decreases s.slots[loc].begin
  {
    assert ChainSlotOk(s, loc);
    var x := s.slots[loc];
    if !Dead(x) && x.next.Some? {
      assert ChainSlotOk(s, x.next.value);
      assert x.next.value in Chain(s, x.next.value);
      if n != loc { ClosedBelow(s, x.next.value, n); }
    }
  }

  /** A chain holds versions of one tuple only, and everything they point to. */
  lemma ChainClosed(f: Fine, loc: Loc, n: Loc)
    requires FineInv(f) && BetweenInstalls(f) && loc in f.store.slots
    ensures ChainsOk(f.store)
    ensures n in Chain(f.store, loc) ==>
              && n in f.store.slots && f.store.slots[n].tuple == f.store.slots[loc].tuple
              && (!Dead(f.store.slots[n]) && f.store.slots[n].next.Some? ==>
                f.store.slots[n].next.value in Chain(f.store, loc))
  {
    RawChainsOk(f);
    if n in Chain(f.store, loc) { ClosedBelow(f.store, loc, n); }
  }

  lemma {:induction false} FoundFromHead(s: Store, l: Loc)
    requires ChainsOk(s) && l in s.slots && !Dead(s.slots[l])
    ensures s.slots[l].tuple in s.index && s.index[s.slots[l].tuple] in s.slots
    ensures l in Chain(s, s.index[s.slots[l].tuple])
    decreases MAX_CID - s.slots[l].begin
  {
    assert ChainSlotOk(s, l);
    var x := s.slots[l];
    assert HeadOk(s, x.tuple);
    if x.prev.Some? {
      assert ChainSlotOk(s, x.prev.value);
      FoundFromHead(s, x.prev.value);
      ClosedBelow(s, s.index[x.tuple], x.prev.value);
    } else {
      assert Chain(s, l)[0] == l;
    }
  }

  /** Every live slot of a tuple is found from the index head. */
  lemma ChainComplete(f: Fine, l: Loc)
    requires FineInv(f) && BetweenInstalls(f) && l in f.store.slots && !Dead(f.store.slots[l])
    ensures ChainsOk(f.store) && f.store.slots[l].tuple in f.store.index
    ensures f.store.index[f.store.slots[l].tuple] in f.store.slots
    ensures l in Chain(f.store, f.store.index[f.store.slots[l].tuple])
  {
    RawChainsOk(f);
    FoundFromHead(f.store, l);
  }

  /** In particular in every run of calls and field writes. */
  lemma ChainsInEveryRun(bs: seq<FineAction>, f: Fine)
    requires FineRun(FINE_START, bs) == Some(f) && BetweenInstalls(f)
    ensures ChainsOk(f.store)
  {
    FineStart();
    FineRunRefines(FINE_START, bs);
    RawChainsOk(f);
  }
}
