/** A transaction's own record of what it has read and written. */
module TransactionContexts {
  import opened Base
  import Mvto
  type RWType = Mvto.RWType
  type Txn = Mvto.Txn

  class TransactionContext {
    const id: Cid
    var rw: map<Loc, RWType>
    var isWritten: bool
    var insertCount: int
    var status: Mvto.Status
    ghost var log: seq<Mvto.Op>

    constructor (id: Cid)
      ensures this.id == id && View() == Mvto.Txn(Mvto.Active, map[], false, 0, [])
    {
      this.id := id;
      rw, isWritten, insertCount, status, log := map[], false, 0, Mvto.Active, [];
    }

    ghost function View(): Txn
      reads this
    {
      Mvto.Txn(status, rw, isWritten, insertCount, log)
    }

    /** Keeps the caller's view of the call. */
    ghost method Note(op: Mvto.Op)
      modifies this`log
      ensures View() == Mvto.Log(old(View()), op)
    {
      log := log + [op];
    }

    method RecordRead(loc: Loc)
      requires loc in rw ==> rw[loc] != Mvto.DELETE && rw[loc] != Mvto.INS_DEL
      modifies this`rw
      ensures View() == Mvto.RecordRead(old(View()), loc)
    {
      if loc !in rw { rw := rw[loc := Mvto.READ]; }
    }

    method RecordReadOwn(loc: Loc)
      requires loc in rw ==> rw[loc] != Mvto.DELETE && rw[loc] != Mvto.INS_DEL
      modifies this`rw
      ensures View() == Mvto.RecordReadOwn(old(View()), loc)
    {
      if loc in rw {
        if rw[loc] == Mvto.READ { rw := rw[loc := Mvto.READ_OWN]; }
      } else {
        rw := rw[loc := Mvto.READ_OWN];
      }
    }

    method RecordUpdate(loc: Loc)
      requires loc in rw ==> rw[loc] != Mvto.DELETE && rw[loc] != Mvto.INS_DEL
      modifies this`rw, this`isWritten
      ensures View() == Mvto.RecordUpdate(old(View()), loc)
    {
      if loc in rw {
        if rw[loc] == Mvto.READ || rw[loc] == Mvto.READ_OWN {
          isWritten := true;
          rw := rw[loc := Mvto.UPDATE];
        }
      } else {
        rw := rw[loc := Mvto.UPDATE];
      }
    }

    method RecordInsert(loc: Loc)
      requires loc !in rw
      modifies this`rw, this`insertCount
      ensures View() == Mvto.RecordInsert(old(View()), loc)
    {
      rw := rw[loc := Mvto.INSERT];
      insertCount := insertCount + 1;
    }

    /** True when an insert of this transaction is undone. */
    method RecordDelete(loc: Loc) returns (insDel: bool)
      requires loc in rw ==> rw[loc] != Mvto.DELETE && rw[loc] != Mvto.INS_DEL
      modifies this`rw, this`isWritten, this`insertCount
      ensures View() == Mvto.RecordDelete(old(View()), loc)
      ensures insDel == (Mvto.RwOf(old(rw), loc) == Some(Mvto.INSERT))
    {
      if loc !in rw {
        rw := rw[loc := Mvto.DELETE];
        return false;
      }
      match rw[loc] {
        case READ => rw, isWritten := rw[loc := Mvto.DELETE], true;
        case READ_OWN => rw, isWritten := rw[loc := Mvto.DELETE], true;
        case UPDATE => rw := rw[loc := Mvto.DELETE];
        case INSERT =>
          rw := rw[loc := Mvto.INS_DEL];
          insertCount := insertCount - 1;
          return true;
      }
      return false;
    }
  }
}
