/** What the reindex engine promises over whole runs: incremental and full runs agree, a second
    run is idle, and after any stop the index is well formed and can be brought up to date. */
module Recovery {
  import opened ChunkIds
  import opened IndexStore
  import opened Reindexer
  import opened Transactions

  /** From any two well-formed indexes, an incremental and a forced run over the same walk leave
      the same chunks, bodies, vectors, texts, symbols, imports, exports and file hashes. */
  method IncrementalAgreesWithFull(w: World, a: Connection, b: Connection, walked: seq<WalkedFile>, e: Embedder)
    returns (agreed: bool)
    requires a != b && a.Valid() && b.Valid() && !a.inTxn && !b.inTxn
    requires w.Sound() && DistinctPaths(walked) && WellFormed(w, a.disk) && WellFormed(w, b.disk)
    modifies a, b
    ensures agreed ==>
              && Stored(w, a.disk, State(Target(walked), w.repoId, e)) && ReadMeta(a.disk) == Some(e)
              && Stored(w, b.disk, State(Target(walked), w.repoId, e)) && ReadMeta(b.disk) == Some(e)
              && ViewOf(a.disk) == ViewOf(b.disk)
    ensures !agreed ==>
              || a.faults + b.faults > old(a.faults + b.faults)
              || !GatePasses(old(a.disk), e) || e.dim != old(a.disk).width || e.dim != old(b.disk).width
              || exists file :: file in walked && w.StructureOf(file.path, file.content).None?
    ensures agreed ==> CanRun(w, old(a.disk), walked, false, e) && CanRun(w, old(b.disk), walked, true, e)
    ensures !agreed && CanRun(w, old(a.disk), walked, false, e) && CanRun(w, old(b.disk), walked, true, e) ==>
              !Calm(a.fails) || !Calm(b.fails)
  {
    hide Stored, Between, ViewOf, CanRun;
    ghost var sa :| Stored(w, a.disk, sa);
    ghost var sb :| Stored(w, b.disk, sb);
    var oa, ra := Reindex(a, w, walked, false, e, sa);
    var ob, rb := Reindex(b, w, walked, true, e, sb);
    agreed := oa.Ok? && ob.Ok?;
    if agreed {
      StateDeterminesView(w, a.disk, b.disk, State(Target(walked), w.repoId, e));
    }
  }

  /** An incremental run on an index that already holds the walk: if no statement fails it indexes
      zero files and leaves the disk as it is. */
  method IdleRun(w: World, conn: Connection, walked: seq<WalkedFile>, e: Embedder) returns (o: Outcome, report: Report)
    requires conn.Valid() && !conn.inTxn && w.Sound() && DistinctPaths(walked)
    requires Stored(w, conn.disk, State(Target(walked), w.repoId, e)) && ReadMeta(conn.disk) == Some(e)
    modifies conn
    ensures conn.Valid() && conn.faults >= old(conn.faults) && old(conn.trace) <= conn.trace
    ensures conn.faults == old(conn.faults) || Calm(conn.fails) ==>
              o.Ok? && report == Report(0, 0, true) && conn.disk == old(conn.disk)
    ensures o.Ok? ==> Stored(w, conn.disk, State(Target(walked), w.repoId, e)) && ReadMeta(conn.disk) == Some(e)
  {
    hide Stored, Between, Writable;
    TargetIsCurrent(walked);
    ReportExtremes(w, walked, |walked|);
    StoredIsWritable(w, conn.disk, walked, State(Target(walked), w.repoId, e));
    o, report := Reindex(conn, w, walked, false, e, State(Target(walked), w.repoId, e));
  }

  /** Run again over the same walk, an incremental run that meets no fault writes nothing. */
  method SecondRunIsIdle(w: World, conn: Connection, walked: seq<WalkedFile>, force: bool, e: Embedder)
    returns (first: Outcome, second: Outcome, report: Report, between: Db)
    requires conn.Valid() && !conn.inTxn && w.Sound() && DistinctPaths(walked) && WellFormed(w, conn.disk)
    modifies conn
    ensures first.Ok? && conn.faults == old(conn.faults) ==>
              second.Ok? && report == Report(0, 0, true) && conn.disk == between
    ensures first.Ok? ==>
              && CanRun(w, old(conn.disk), walked, force, e)
              && between in conn.trace
              && Stored(w, between, State(Target(walked), w.repoId, e)) && ReadMeta(between) == Some(e)
    ensures Calm(conn.fails) && CanRun(w, old(conn.disk), walked, force, e) ==>
              first.Ok? && second.Ok? && report == Report(0, 0, true) && conn.disk == between
  {
    hide Stored, Between, CanRun;
    report := Report(0, 0, true);
    second := Ok;
    ghost var s :| Stored(w, conn.disk, s);
    var r;
    first, r := Reindex(conn, w, walked, force, e, s);
    between := conn.disk;
    if first.Ok? {
      second, report := IdleRun(w, conn, walked, e);
    }
  }

  lemma StagesAreWellFormed(w: World, trace: seq<Db>, from: nat, force: bool, before: Snapshot, target: Snapshot)
    requires Staged(w, trace, from, force, before, target)
    ensures forall i :: from <= i < |trace| ==> WellFormed(w, trace[i])
  {
    forall i | from <= i < |trace|
      ensures WellFormed(w, trace[i])
    {
      assert Stage(w, trace[i], force, before, target);
    }
  }

  /** A forced run stopped between its two stamps leaves a gate that lets through one embedder at most,
      the mix of the new id and the old dimension. So it refuses even its own embedder exactly when
      the dimension changed; a forced run is what gets past it. */
  lemma HalfStampGate(db: Db, e: Embedder, other: Embedder)
    ensures GatePasses(HalfStamped(db, e), other) <==>
            db.embedderDim.None? || other == Embedder(e.id, db.embedderDim.value)
    ensures GatePasses(HalfStamped(db, e), e) <==> db.embedderDim.None? || db.embedderDim.value == e.dim
  {
  }

  /** One run of the engine: which statements fail, and at which committed state the process is
      stopped, if it is. */
  datatype Run = Run(walked: seq<WalkedFile>, force: bool, e: Embedder, fails: nat -> bool, stop: Option<nat>) {
    ghost predicate Undisturbed() {
      Calm(fails) && stop.None?
    }
  }

  /** `meta` records nothing, or parts of this embedder only. */
  predicate MetaFits(db: Db, e: Embedder) {
    && (db.embedderId.None? || db.embedderId == Some(e.id))
    && (db.embedderDim.None? || db.embedderDim == Some(e.dim))
  }

  lemma StampsFit(db: Db, t: Db, e: Embedder)
    requires MetaFits(db, e) && StampedBy(e, db, t)
    ensures MetaFits(t, e) && GatePasses(t, e)
  {
  }

  /** Any number of runs from an empty index, each stopped at an arbitrary committed state and
      followed by a restart from what is on disk: the index is well formed throughout, so behind the
      gate it never holds vectors of two embedders. One more undisturbed run over a walk that can be
      written, forced or by the embedder of all the others, completes and brings the index to the
      state of a full rebuild. */
  method RunsFromEmpty(w: World, width: nat, runs: seq<Run>, last: Run) returns (db: Db, completed: bool)
    requires w.Sound() && DistinctPaths(last.walked)
    requires forall i :: 0 <= i < |runs| ==> DistinctPaths(runs[i].walked)
    ensures WellFormed(w, db) && db.width == width
    ensures completed ==>
              && Writable(w, last.walked, last.e, width)
              && Stored(w, db, State(Target(last.walked), w.repoId, last.e)) && ReadMeta(db) == Some(last.e)
    ensures last.Undisturbed() && Writable(w, last.walked, last.e, width)
            && (last.force || forall i :: 0 <= i < |runs| ==> runs[i].e == last.e)
            ==> completed
  {
    hide Stored, Between, Writable;
    db := Empty(width);
    EmptyIsStored(w, db, last.e);
    for i := 0 to |runs|
      invariant WellFormed(w, db) && db.width == width
      invariant (forall j :: 0 <= j < |runs| ==> runs[j].e == last.e) ==> MetaFits(db, last.e)
    {
      var conn, _ := OneRun(w, db, runs[i]);
      ghost var before := db;
      db := Reached(conn.trace, runs[i].stop);
      if runs[i].e == last.e && MetaFits(before, last.e) {
        StampsFit(before, db, last.e);
      }
    }
    var conn, o := OneRun(w, db, last);
    db := Reached(conn.trace, last.stop);
    completed := o.Ok? && last.stop.None?;
  }

  /** Opens the index and runs once; everything the run leaves on disk is well formed. Undisturbed, it
      succeeds exactly when the gate lets it through or it is forced, and the walk can be written. */
  method OneRun(w: World, db: Db, run: Run) returns (conn: Connection, o: Outcome)
    requires w.Sound() && DistinctPaths(run.walked) && WellFormed(w, db)
    ensures fresh(conn) && conn.Valid() && conn.fails == run.fails
    ensures forall i :: 0 <= i < |conn.trace| ==> WellFormed(w, conn.trace[i]) && StampedBy(run.e, db, conn.trace[i])
    ensures o.Ok? ==>
              && CanRun(w, db, run.walked, run.force, run.e)
              && Stored(w, conn.disk, State(Target(run.walked), w.repoId, run.e)) && ReadMeta(conn.disk) == Some(run.e)
    ensures Calm(run.fails) && CanRun(w, db, run.walked, run.force, run.e) ==> o.Ok?
  {
    hide Stored, Between, CanRun;
    conn := new Session<Db>.Open(db, run.fails);
    ghost var s :| Stored(w, db, s);
    var report;
    o, report := Reindex(conn, w, run.walked, run.force, run.e, s);
    StagesAreWellFormed(w, conn.trace, 1, run.force, s.snap, Target(run.walked));
  }
}
