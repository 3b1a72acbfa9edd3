/** A database handle with transactions, any statement of which may fail. */
module Transactions {
  import opened ChunkIds

  datatype Error =
    Fault | KeyTaken | WrongWidth | ParseFailure | EmbedderMismatch | NewerSchema | BadVersion | TableExists

  datatype Outcome = Ok | Fail(error: Error) {
    predicate IsFailure() {
      Fail?
    }

    function PropagateFailure(): Outcome
      requires Fail?
    {
      this
    }
  }

  /** No statement is made to fail from outside. */
  ghost predicate Calm(fails: nat -> bool) {
    forall n :: !fails(n)
  }

  /** A database handle. Outside a transaction every statement commits by itself. A crash keeps
      `disk` and nothing else; `trace` lists every state that was ever on disk. The environment
      decides which statements fail: `fails` is any function of how many were tried before. */
  class Session<D(0)> {
    const fails: nat -> bool
    var clock: nat
    var disk: D
    var work: D
    var inTxn: bool
    var trace: seq<D>
    ghost var faults: nat

    /** Among other things, faults come from the environment only. */
    ghost predicate Valid()
      reads this
    {
      && trace != [] && trace[|trace| - 1] == disk
      && (!inTxn ==> work == disk)
      && (faults > 0 ==> !Calm(fails))
    }

    constructor Open(db: D, fails: nat -> bool)
      ensures Valid() && !inTxn && disk == db && trace == [db] && faults == 0 && this.fails == fails
    {
      this.fails, clock := fails, 0;
      disk, work, inTxn := db, db, false;
      trace, faults := [db], 0;
    }

    // -------------------------------------------------------------------------------------
    // Statements
    // -------------------------------------------------------------------------------------

    /** A query, or the chance of any statement to fail: it changes nothing. */
    method Query() returns (o: Outcome)
      requires Valid()
      modifies `clock, `faults
      ensures Valid() && faults >= old(faults)
      ensures o.Ok? ==> faults == old(faults)
      ensures o.Fail? ==> o.error == Fault && faults > old(faults)
    {
      clock := clock + 1;
      if fails(clock - 1) {
        faults := faults + 1;
        return Fail(Fault);
      }
      return Ok;
    }

    /** Runs one statement whose effect is `next`. It may fail, and then changes nothing. */
    method Exec(next: D) returns (o: Outcome)
      requires Valid()
      modifies this
      ensures faults >= old(faults)
      ensures Valid() && inTxn == old(inTxn)
      ensures o.Ok? ==> work == next && faults == old(faults)
      ensures o.Fail? ==> o.error == Fault && work == old(work) && faults > old(faults)
      ensures inTxn || o.Fail? ==> disk == old(disk) && trace == old(trace)
      ensures !inTxn && o.Ok? ==> trace == old(trace) + [next]
    {
      o := Ok;
      :- Query();
      work := next;
      if !inTxn {
        disk := work;
        trace := trace + [disk];
      }
    }

    method Begin() returns (o: Outcome)
      requires Valid() && !inTxn
      modifies this
      ensures faults >= old(faults)
      ensures Valid() && disk == old(disk) && trace == old(trace) && work == old(work)
      ensures o.Ok? ==> inTxn && faults == old(faults)
      ensures o.Fail? ==> o.error == Fault && !inTxn && faults > old(faults)
    {
      o := Ok;
      :- Query();
      inTxn := true;
    }

    method Commit() returns (o: Outcome)
      requires Valid() && inTxn
      modifies this
      ensures faults >= old(faults)
      ensures Valid() && work == old(work)
      ensures o.Ok? ==> !inTxn && disk == work && trace == old(trace) + [disk] && faults == old(faults)
      ensures o.Fail? ==> o.error == Fault && disk == old(disk) && trace == old(trace) && faults > old(faults)
    {
      o := Ok;
      :- Query();
      inTxn, disk := false, work;
      trace := trace + [disk];
    }

    /** Its own failure is ignored by the callers and leaves the transaction open. */
    method Rollback()
      requires Valid() && inTxn
      modifies this
      ensures Valid() && disk == old(disk) && trace == old(trace) && faults >= old(faults)
    {
      var o := Query();
      if o.Ok? {
        inTxn, work := false, disk;
      }
    }
  }

  /** What is on disk when the process is stopped at one of the states it committed, or is not. */
  function Reached<D>(trace: seq<D>, stop: Option<nat>): D
    requires trace != []
  {
    if stop.Some? && stop.value < |trace| then trace[stop.value] else trace[|trace| - 1]
  }
}
