/** Migration and reindexing together: what repeated opens do to an index of any age. */
module Upgrade {
  import opened ChunkIds
  import opened IndexStore
  import opened Reindexer
  import opened Recovery
  import opened Transactions
  import Schema

  /** The rows of a `files` table from before repository ids, for the files of a snapshot. */
  ghost predicate LegacyMatch(w: World, byPath: Schema.PathRows, snap: Snapshot) {
    && byPath.Keys == snap.Keys
    && forall p :: p in snap ==> byPath[p].hash == w.hash(snap[p]) && byPath[p].language == w.language(p)
  }

  /** A legacy index that holds a snapshot stands for a well-formed index of that snapshot, whose
      bookkeeping rows still wait for the repository's id. */
  lemma LegacyIsStored(w: World, db: Schema.Db, snap: Snapshot, e: Embedder)
    requires db.files.Legacy? && LegacyMatch(w, db.files.byPath, snap)
    requires Indexable(w, snap) && Holds(db.rest, Images(w, e, snap))
    requires db.rest.vec != map[] ==> ReadMeta(db.rest) == Some(e) && e.dim == db.rest.width
    ensures Stored(w, Schema.View(db), State(snap, PLACEHOLDER_REPO_ID, e))
  {
    hide Holds;
    SameRowsHold(db.rest, Schema.View(db), Images(w, e, snap));
    var files := Schema.View(db).files;
    forall k
      ensures k in files <==> k.0 == PLACEHOLDER_REPO_ID && k.1 in snap
    {
      if k.0 == PLACEHOLDER_REPO_ID && k.1 in snap {
        assert k == (PLACEHOLDER_REPO_ID, k.1) && k.1 in db.files.byPath;
      }
    }
  }

  /** Between migrations and runs: a well-formed index whose bookkeeping rows carry one id, so
      that giving the placeholder rows this repository's id takes no key twice. */
  ghost predicate Sane(w: World, db: Schema.Db) {
    && WellFormed(w, Schema.View(db))
    && Schema.Uniform(db.files, w.repoId)
    && !RewriteCollides(Schema.View(db).files, w.repoId)
  }

  lemma WellFormedIsSane(w: World, db: Schema.Db)
    requires WellFormed(w, Schema.View(db))
    ensures Sane(w, db)
  {
    hide Holds;
    var index := Schema.View(db);
    var s :| Stored(w, index, s);
    RewriteFiles(w, index.files, s.snap, s.owner);
  }

  /** The database whose index is `index` after a migration of `db`. */
  function WithIndex(db: Schema.Db, index: Db): Schema.Db {
    db.(files := Schema.Composite(index.files), rest := index)
  }

  /** Rows under one id: the rewrite of placeholders collides with nothing, leaves one id, and keeps
      every row. */
  lemma UniformRewrites(rows: Schema.RepoRows, repoId: string)
    requires Schema.Uniform(Schema.Composite(rows), repoId)
    ensures !RewriteCollides(rows, repoId)
    ensures Schema.Uniform(Schema.Composite(RewriteRepoId(rows, repoId)), repoId)
    ensures forall p, row :: Schema.Recorded(Schema.Composite(RewriteRepoId(rows, repoId)), p, row) <==>
                             Schema.Recorded(Schema.Composite(rows), p, row)
  {
    var rewritten := RewriteRepoId(rows, repoId);
    forall p, row
      ensures Schema.Recorded(Schema.Composite(rewritten), p, row) <==> Schema.Recorded(Schema.Composite(rows), p, row)
    {
      if repo: string :| (repo, p) in rows && rows[(repo, p)] == row {
        var key := if repo == PLACEHOLDER_REPO_ID then (repoId, p) else (repo, p);
        assert key in rewritten && rewritten[key] == row;
      }
      if repo: string :| (repo, p) in rewritten && rewritten[(repo, p)] == row {
        assert (repo, p) in rows || (PLACEHOLDER_REPO_ID, p) in rows;
      }
    }
  }

  /** One open: a migration, then a run. */
  datatype Opening = Opening(migration: Schema.Attempt, run: Run) {
    ghost predicate Undisturbed() {
      Calm(migration.fails) && migration.stop.None? && run.Undisturbed()
    }
  }

  /** Opens the index, migrates it and runs once, stopped anywhere: everything on the way is sane.
      Undisturbed, it completes exactly when the database can be migrated and the run succeeds on the
      index it stands for, and then the index is as the walk has it. */
  method OpenAndRun(w: World, db: Schema.Db, opening: Opening) returns (after: Schema.Db, completed: bool)
    requires w.Sound() && DistinctPaths(opening.run.walked) && WellFormed(w, Schema.View(db))
    ensures Sane(w, after) && Schema.Migratable(after) == Schema.Migratable(db)
    ensures StampedBy(opening.run.e, Schema.View(db), Schema.View(after))
    ensures completed ==>
              && Schema.Migratable(db)
              && CanRun(w, Schema.View(db), opening.run.walked, opening.run.force, opening.run.e)
              && Stored(w, Schema.View(after), State(Target(opening.run.walked), w.repoId, opening.run.e))
              && ReadMeta(Schema.View(after)) == Some(opening.run.e)
    ensures opening.Undisturbed() && Schema.Migratable(db)
            && CanRun(w, Schema.View(db), opening.run.walked, opening.run.force, opening.run.e)
            ==> completed
    ensures !Schema.Migratable(db) ==> Schema.Toward(db, after)
  {
    hide Stored, WellFormed, CanRun, Schema.Toward;
    completed := false;
    var migration := new Session<Schema.Db>.Open(db, opening.migration.fails);
    var o := Schema.Migrate(migration);
    Schema.TowardItself(db);
    if o.Fail? || opening.migration.stop.Some? {
      after := Reached(migration.trace, opening.migration.stop);
      Schema.TowardMeans(db, after);
      WellFormedIsSane(w, after);
      return;
    }
    var migrated := migration.disk;
    Schema.TowardMeans(db, migrated);
    Schema.MigrationStamps(db);
    var conn;
    conn, o := OneRun(w, Schema.View(migrated), opening.run);
    var index := Reached(conn.trace, opening.run.stop);
    completed := o.Ok? && opening.run.stop.None?;
    after := WithIndex(migrated, index);
    assert Schema.View(after) == index;
    WellFormedIsSane(w, after);
  }

  /** Any number of opens and runs, each stopped anywhere, from a legacy index, a current one or none
      at all: the index stays sane. If the database could be migrated from the start, one undisturbed
      open over a walk that can be written, forced or by the only embedder there ever was, completes
      and brings the index up to date; if it could not, no open ever completes. */
  method UpgradeRuns(w: World, start: Schema.Db, openings: seq<Opening>, last: Opening)
    returns (db: Schema.Db, completed: bool)
    requires w.Sound() && DistinctPaths(last.run.walked)
    requires forall i :: 0 <= i < |openings| ==> DistinctPaths(openings[i].run.walked)
    requires WellFormed(w, Schema.View(start))
    ensures Sane(w, db)
    ensures completed ==>
              && Schema.Migratable(start) && Writable(w, last.run.walked, last.run.e, start.rest.width)
              && Stored(w, Schema.View(db), State(Target(last.run.walked), w.repoId, last.run.e))
              && ReadMeta(Schema.View(db)) == Some(last.run.e)
    ensures last.Undisturbed() && Schema.Migratable(start)
            && Writable(w, last.run.walked, last.run.e, start.rest.width)
            && (last.run.force || OneEmbedder(start, openings, last.run.e))
            ==> completed
  {
    hide Stored, WellFormed, Writable, Schema.Migratable;
    db := start;
    var e := last.run.e;
    for i := 0 to |openings|
      invariant WellFormed(w, Schema.View(db))
      invariant Schema.Migratable(db) == Schema.Migratable(start) && Schema.View(db).width == start.rest.width
      invariant OneEmbedder(start, openings, e) ==> MetaFits(Schema.View(db), e)
    {
      ghost var before := Schema.View(db);
      db, completed := OpenAndRun(w, db, openings[i]);
      if OneEmbedder(start, openings, e) {
        StampsFit(before, Schema.View(db), e);
      }
    }
    if OneEmbedder(start, openings, e) {
      StampsFit(Schema.View(db), Schema.View(db), e);
    }
    db, completed := OpenAndRun(w, db, last);
  }

  /** No embedder but `e` has left a mark or does. */
  predicate OneEmbedder(start: Schema.Db, openings: seq<Opening>, e: Embedder) {
    MetaFits(Schema.View(start), e) && forall i :: 0 <= i < |openings| ==> openings[i].run.e == e
  }
}
