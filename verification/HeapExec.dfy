/**
 The two state models meet: the machine works on a state that is a value, with exec's rollback a
 reassignment; the StateDB works on objects in the heap, with exec's rollback a copy made before the call
 and set back after it.
 */
module HeapExec {
  import opened Effects
  import opened Evm
  import opened StateDb

  /** What the machine has done, done to the objects by way of their copies, leaves them in the machine's world. */
  method Replay(db: StateDB, env: Env, ops: seq<Op>)
    requires db.Valid() && db.Abs() == env.start && env.Traced() && ops == env.trace
    modifies db, db.objects.Values
    ensures db.Valid() && db.Abs() == env.world
    ensures fresh(db.objects.Values - old(db.objects.Values))
  {
    hide StateDB.Abs, StateDB.Valid, Meaning;
    PerformAll(db, ops);
  }
}
