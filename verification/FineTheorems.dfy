/** Consequences of the refinement for runs made of single field writes. */
module FineTheorems {
  import opened Base
  import opened Mvto
  import opened MvtoInvariant
  import opened FieldWrites
  import opened Serializability

  /** Serializability with commits and aborts taken one field write at a time.  A transaction counts as
      committed from the moment its commit loop starts. */
  lemma FineSerializable(bs: seq<FineAction>, f: Fine, order: seq<Cid>)
    requires FineRun(FINE_START, bs) == Some(f) && CommitOrder(Settled(f), order)
    ensures forall t :: t in order ==> t in Settled(f).txns
    ensures SerialRun(Settled(f), map[], order) == Some(Snapshot(Settled(f), MAX_CID))
  {
    FineStart();
    FineRunRefines(FINE_START, bs);
    Serializable(Meanings(bs), Settled(f), order);
  }

  predicate IsLoopStep(b: FineAction) {
    b.Pick? || b.Write? || b.Finish?
  }

  lemma LoopMeansNothing(bs: seq<FineAction>)
    requires forall i :: 0 <= i < |bs| ==> IsLoopStep(bs[i])
    ensures Meanings(bs) == []
  {
    if bs != [] {
      assert IsLoopStep(bs[0]);
      LoopMeansNothing(bs[1..]);
    }
  }

  /** Whatever order a commit or abort loop visits the read/write set in, it ends in the same store, and in
      that store no slot carries the transaction's id. */
  lemma LoopOrderIrrelevant(f: Fine, t: Cid, commits: bool, bs: seq<FineAction>, g: Fine)
    requires FineInv(f) && f.work == map[] && IsActive(f.store, t)
    requires forall i :: 0 <= i < |bs| ==> IsLoopStep(bs[i])
    requires FineRun(f, [Start(t, commits)] + bs) == Some(g) && g.work == map[]
    ensures g.store == Step(f.store, EndOf(t, commits))
    ensures forall l :: l in g.store.slots ==> g.store.slots[l].txnId != t
  {
    LoopMeansNothing(bs);
    var all := [Start(t, commits)] + bs;
    assert all[1..] == bs;
    assert Meanings(all) == [EndOf(t, commits)];
    FineRunRefines(f, all);
    SettledWhenIdle(f);
    SettledWhenIdle(g);
    assert Run(f.store, [EndOf(t, commits)]) == Some(Step(f.store, EndOf(t, commits)));
    forall l | l in g.store.slots ensures g.store.slots[l].txnId != t {
      assert SlotOk(g.store, l);
    }
  }
}
