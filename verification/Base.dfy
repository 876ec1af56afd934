/** Identifiers and constants shared by the concurrency modules. */
module Base {
  datatype Option<+T> = None | Some(value: T)

  type Cid = nat
  type Loc = nat
  type TupleId = nat
  type Value = int

  // Ownership marks of a version slot.
  const INVALID_TXN_ID: Cid := 0
  const INITIAL_TXN_ID: Cid := 1

  // Bounds of a version's visibility range.
  const INVALID_CID: Cid := 0
  const MAX_CID: Cid := 0xFFFF_FFFF_FFFF_FFFF

  function Max(a: nat, b: nat): nat {
    if a < b then b else a
  }

  ghost function Unused(taken: set<nat>): (n: nat)
    ensures forall x :: x in taken ==> x < n
  {
    if taken == {} then 0
    else
      var x :| x in taken;
      assert taken == (taken - {x}) + {x};
      var n := Unused(taken - {x});
      if x < n then n else x + 1
  }
}
