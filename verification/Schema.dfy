/** Schema migration, which every open runs before anything else: guarded statements that each
    commit by themselves, then the recreation of the `files` table in one transaction. */
module Schema {
  import opened ChunkIds
  import opened Transactions
  import Index = IndexStore

  const SCHEMA_VERSION: nat := 1
  const U32_MAX: nat := 0xFFFF_FFFF

  type FileRow = Index.FileRow
  type PathRows = map<string, FileRow>
  type RepoRows = map<(string, string), FileRow>

  /** The `files` table: not there yet, keyed by path alone, or keyed by repository and path. */
  datatype Files = Absent | Legacy(byPath: PathRows) | Composite(rows: RepoRows)

  /** A database of any age: whether `chunks` has its `kind` column, the other tables and indexes
      that exist, the `schema_version` row of `meta`, a `files_new` table if there is one, and the
      rows of all other tables (`rest`, whose own `files` component is unused). */
  datatype Db = Db(
    kindColumn: bool,
    tables: set<string>,
    files: Files,
    filesNew: Option<RepoRows>,
    version: Option<string>,
    rest: Index.Db)

  datatype Version = Unstamped | Unreadable | Stamped(n: nat)

  /** `str::parse::<u32>` */
  function ParseU32(s: string): Option<nat> {
    var digits := if s != [] && s[0] == '+' then s[1..] else s;
    if digits == [] || exists c :: c in digits && !IsDigit(c) then None
    else if Value(digits) <= U32_MAX then Some(Value(digits)) else None
  }

  function ReadVersion(db: Db): Version {
    match db.version
    case None => Unstamped
    case Some(s) =>
      match ParseU32(s)
      case None => Unreadable
      case Some(n) => Stamped(n)
  }

  /** The downgrade gate. */
  predicate Accepts(db: Db) {
    match ReadVersion(db)
    case Unstamped => true
    case Unreadable => false
    case Stamped(n) => n <= SCHEMA_VERSION
  }

  // ---------------------------------------------------------------------------------------
  // Where a migration leads
  // ---------------------------------------------------------------------------------------

  function Recreated(byPath: PathRows): RepoRows {
    map path | path in byPath :: (Index.PLACEHOLDER_REPO_ID, path) := byPath[path]
  }

  function RowsOf(files: Files): RepoRows {
    match files
    case Absent => map[]
    case Legacy(byPath) => Recreated(byPath)
    case Composite(rows) => rows
  }

  /** The index a database of any shape stands for. */
  function View(db: Db): Index.Db {
    db.rest.(files := RowsOf(db.files))
  }

  const STRUCTURAL: seq<string> := [
    "symbols", "file_imports", "idx_file_imports_path", "file_exports", "idx_file_exports_path", "chunks_fts", "meta"
  ]

  function CreateFiles(files: Files): Files {
    if files.Absent? then Legacy(map[]) else files
  }

  function Stamp(db: Db): Db {
    db.(version := Some(Decimal(SCHEMA_VERSION)))
  }

  function Migrated(db: Db): Db {
    Stamp(Db(true, db.tables + (set t | t in STRUCTURAL), Composite(RowsOf(db.files)), db.filesNew, db.version, db.rest))
  }

  /** No newer or unreadable version, and no stray `files_new` where a recreation is due. */
  predicate Migratable(db: Db) {
    Accepts(db) && (db.files.Composite? || db.filesNew.None?)
  }

  function OldRows(files: Files): PathRows {
    if files.Legacy? then files.byPath else map[]
  }

  /** What becomes of the `files` table `a`: it stays as it is, is created empty, or is recreated with
      exactly one row per old path, that row's data under the placeholder id. */
  ghost predicate FilesKept(a: Files, t: Files) {
    match t
    case Absent => a.Absent?
    case Legacy(byPath) => !a.Composite? && byPath == OldRows(a)
    case Composite(rows) =>
      if a.Composite? then t == a
      else
        && (forall k :: k in rows <==> k.0 == Index.PLACEHOLDER_REPO_ID && k.1 in OldRows(a))
        && forall path :: path in OldRows(a) ==> rows[(Index.PLACEHOLDER_REPO_ID, path)] == OldRows(a)[path]
  }

  /** `t` is on the way from `a`: it stands for the same index, can be migrated if `a` can, and then
      has the same destination. A database behind the gate keeps its `files` rows and its version. */
  ghost predicate Toward(a: Db, t: Db) {
    && Migrated(t) == Migrated(a) && View(t) == View(a)
    && Accepts(t) == Accepts(a) && Migratable(t) == Migratable(a)
    && FilesKept(a.files, t.files)
    && (!Migratable(a) ==> t.version == a.version && t.files.Composite? == a.files.Composite?)
  }

  lemma TowardThen(a: Db, b: Db, c: Db)
    requires Toward(a, b) && Toward(b, c)
    ensures Toward(a, c)
  {
    hide Migrated, View;
    assert OldRows(b.files) == if b.files.Composite? then map[] else OldRows(a.files);
  }

  lemma MigrationStamps(db: Db)
    ensures ReadVersion(Migrated(db)) == Stamped(SCHEMA_VERSION) && Accepts(Migrated(db))
  {
    DecimalRoundTrip(SCHEMA_VERSION);
    assert IsDigit(Decimal(SCHEMA_VERSION)[0]);
  }

  /** The shape of a migrated database: the `kind` column, the seven further tables and indexes beside those it
      had, version `1`, and in `files` the composite rows it had or one row per old path under the
      placeholder id; everything else is as it was. */
  lemma MigratedShape(db: Db)
    ensures var m := Migrated(db);
            && m.kindColumn && m.version == Some("1") && m.rest == db.rest && m.filesNew == db.filesNew
            && (forall t :: t in m.tables <==>
                  || t in db.tables
                  || t in {"symbols", "file_imports", "idx_file_imports_path", "file_exports",
                           "idx_file_exports_path", "chunks_fts", "meta"})
            && m.files.Composite?
            && (db.files.Composite? ==> m.files == db.files)
            && (db.files.Absent? ==> m.files.rows == map[])
            && (db.files.Legacy? ==>
                  && (forall k :: k in m.files.rows <==>
                        k.0 == "<MIGRATION_PLACEHOLDER_REPO_ID>" && k.1 in db.files.byPath)
                  && (forall k :: k in m.files.rows ==> m.files.rows[k] == db.files.byPath[k.1]))
  {
    assert Decimal(1) == "1";
    forall t
      ensures t in STRUCTURAL <==>
              t in {"symbols", "file_imports", "idx_file_imports_path", "file_exports",
                    "idx_file_exports_path", "chunks_fts", "meta"}
    {
      IsStructural(t);
    }
  }

  lemma IsStructural(t: string)
    ensures t in STRUCTURAL <==>
            t in {"symbols", "file_imports", "idx_file_imports_path", "file_exports",
                  "idx_file_exports_path", "chunks_fts", "meta"}
  {
    assert STRUCTURAL[0] == "symbols" && STRUCTURAL[1] == "file_imports" && STRUCTURAL[2] == "idx_file_imports_path";
    assert STRUCTURAL[3] == "file_exports" && STRUCTURAL[4] == "idx_file_exports_path";
    assert STRUCTURAL[5] == "chunks_fts" && STRUCTURAL[6] == "meta";
  }

  /** The gate: an unstamped database passes, one stamped with a number passes exactly when it is 0 or 1, and a
      stamp without digits or with a character that is neither a digit nor a leading plus does not. */
  lemma GateReads(db: Db, n: nat, text: string)
    ensures db.version.None? ==> Accepts(db)
    ensures db.version == Some(Decimal(n)) ==> (Accepts(db) <==> n <= 1)
    ensures db.version == Some(Decimal(n)) && n <= 0xFFFF_FFFF ==> ReadVersion(db) == Stamped(n)
    ensures db.version == Some(text) && (text == "" || text == "+") ==> !Accepts(db)
    ensures db.version == Some(text) && (exists i :: 0 <= i < |text| && !('0' <= text[i] <= '9') && (i > 0 || text[i] != '+'))
            ==> !Accepts(db)
  {
    DecimalRoundTrip(n);
    assert IsDigit(Decimal(n)[0]);
    if i: nat :| i < |text| && !('0' <= text[i] <= '9') && (i > 0 || text[i] != '+') {
      var digits := if text != [] && text[0] == '+' then text[1..] else text;
      assert digits[if digits == text then i else i - 1] == text[i];
      assert text[i] in digits && !IsDigit(text[i]);
    }
  }

  /** Migrating again changes nothing. */
  lemma MigrationIsIdempotent(db: Db)
    ensures Migrated(Migrated(db)) == Migrated(db)
    ensures View(Migrated(db)) == View(db)
  {
    assert Migrated(db).tables + (set t | t in STRUCTURAL) == Migrated(db).tables;
  }

  /** A file's row, under whatever repository id. */
  ghost predicate Recorded(files: Files, path: string, row: FileRow) {
    match files
    case Absent => false
    case Legacy(byPath) => path in byPath && byPath[path] == row
    case Composite(rows) => exists repo: string :: (repo, path) in rows && rows[(repo, path)] == row
  }

  /** Every file row keeps its path, hash, modification time and language, and none is added. */
  lemma RowsSurvive(db: Db, path: string, row: FileRow)
    ensures Recorded(Migrated(db).files, path, row) <==> Recorded(db.files, path, row)
  {
    var rows := Migrated(db).files.rows;
    if db.files.Legacy? && Recorded(db.files, path, row) {
      assert (Index.PLACEHOLDER_REPO_ID, path) in rows;
    }
  }

  /** If rows carry a repository id at all, they carry the same, the placeholder or this repository's. */
  ghost predicate Uniform(files: Files, repoId: string) {
    files.Composite? ==>
      || (forall k :: k in files.rows ==> k.0 == Index.PLACEHOLDER_REPO_ID)
      || (forall k :: k in files.rows ==> k.0 == repoId)
  }

  /** No state of a migration mixes ids unless the table it started from did. */
  lemma MigrationKeepsUniform(a: Db, t: Db, repoId: string)
    requires Toward(a, t)
    ensures Uniform(t.files, repoId) <==> Uniform(a.files, repoId)
  {
    hide Migrated, View;
  }

  // ---------------------------------------------------------------------------------------
  // The statements
  // ---------------------------------------------------------------------------------------

  ghost predicate AllToward(a: Db, trace: seq<Db>, from: nat) {
    forall i :: from <= i < |trace| ==> Toward(a, trace[i])
  }

  /** `migrate`. Whatever happens, everything it leaves on disk is on the way; it fails without a
      fault exactly when the gate refuses or a stray `files_new` is in the way of a recreation. */
  method Migrate(conn: Session<Db>) returns (o: Outcome)
    requires conn.Valid() && !conn.inTxn
    modifies conn
    ensures conn.Valid() && conn.faults >= old(conn.faults) && old(conn.trace) <= conn.trace
    ensures AllToward(old(conn.disk), conn.trace, |old(conn.trace)|) && Toward(old(conn.disk), conn.disk)
    ensures o.Ok? ==> !conn.inTxn && conn.faults == old(conn.faults)
    ensures o.Ok? ==> Migratable(old(conn.disk)) && conn.disk == Migrated(old(conn.disk))
    ensures o.Fail? ==> Refusal(old(conn.disk), o.error, conn.faults > old(conn.faults))
    ensures o.Fail? && conn.faults == old(conn.faults) ==> !Migratable(old(conn.disk))
  {
    hide Toward, Migrated;
    ghost var start := conn.disk;
    StartIsToward(start);
    o := Ok;
    :- conn.Exec(conn.work);
    if !conn.work.kindColumn {
      :- conn.Exec(conn.work.(kindColumn := true));
    }
    :- CreateTables(conn, start);
    :- MigrateFilesSchema(conn, start);
  }

  lemma StartIsToward(db: Db)
    ensures Toward(db, db) && Toward(db, db.(kindColumn := true))
  {
  }

  /** Why a migration of `db` may fail. */
  predicate Refusal(db: Db, error: Error, faulted: bool) {
    match error
    case Fault => faulted
    case NewerSchema => ReadVersion(db).Stamped? && ReadVersion(db).n > SCHEMA_VERSION
    case BadVersion => ReadVersion(db).Unreadable?
    case TableExists => Accepts(db) && !Migratable(db)
    case _ => false
  }

  /** The `CREATE … IF NOT EXISTS` batch. */
  method CreateTables(conn: Session<Db>, ghost start: Db) returns (o: Outcome)
    requires conn.Valid() && !conn.inTxn
    requires conn.disk == start.(kindColumn := true)
    modifies conn
    ensures conn.Valid() && conn.faults >= old(conn.faults) && old(conn.trace) <= conn.trace && !conn.inTxn
    ensures AllToward(start, conn.trace, |old(conn.trace)|)
    ensures o.Ok? ==> conn.faults == old(conn.faults) && conn.disk == Prepared(start)
    ensures o.Fail? ==> o.error == Fault && conn.faults > old(conn.faults)
  {
    o := Ok;
    :- conn.Exec(conn.work.(files := CreateFiles(conn.work.files)));
    for i := 0 to |STRUCTURAL|
      invariant conn.Valid() && !conn.inTxn && conn.faults == old(conn.faults) && old(conn.trace) <= conn.trace
      invariant AllToward(start, conn.trace, |old(conn.trace)|)
      invariant conn.disk == PreparedUpTo(start, i)
    {
      OneMoreTable(start, i);
      :- conn.Exec(conn.work.(tables := conn.work.tables + {STRUCTURAL[i]}));
    }
    assert STRUCTURAL[..|STRUCTURAL|] == STRUCTURAL;
  }

  function PreparedUpTo(db: Db, n: nat): Db
    requires n <= |STRUCTURAL|
  {
    db.(kindColumn := true, files := CreateFiles(db.files), tables := db.tables + set t | t in STRUCTURAL[..n])
  }

  function Prepared(db: Db): Db {
    PreparedUpTo(db, |STRUCTURAL|)
  }

  lemma OneMoreTable(db: Db, i: nat)
    requires i < |STRUCTURAL|
    ensures PreparedUpTo(db, i).tables + {STRUCTURAL[i]} == PreparedUpTo(db, i + 1).tables
    ensures Toward(db, PreparedUpTo(db, i)) && Toward(db, PreparedUpTo(db, i + 1))
  {
  }

  /** `migrate_files_schema` */
  method MigrateFilesSchema(conn: Session<Db>, ghost start: Db) returns (o: Outcome)
    requires conn.Valid() && !conn.inTxn && conn.disk == Prepared(start)
    modifies conn
    ensures conn.Valid() && conn.faults >= old(conn.faults) && old(conn.trace) <= conn.trace
    ensures AllToward(start, conn.trace, |old(conn.trace)|)
    ensures o.Ok? ==> !conn.inTxn && conn.faults == old(conn.faults)
    ensures o.Ok? ==> Migratable(start) && conn.disk == Migrated(start)
    ensures o.Fail? ==> Refusal(start, o.error, conn.faults > old(conn.faults))
  {
    match ReadVersion(conn.work) {
      case Unreadable => return Fail(BadVersion);
      case Stamped(n) =>
        if n > SCHEMA_VERSION {
          return Fail(NewerSchema);
        }
      case Unstamped =>
    }
    if conn.work.files.Composite? {
      MigratedIsToward(start);
      o := conn.Exec(Stamp(conn.work));
      return;
    }
    :- RecreateFiles(conn);
    MigratedIsToward(start);
    o := conn.Exec(Stamp(conn.work));
    match o
    case Ok => o := conn.Commit();
    case Fail(_) => conn.Rollback();
  }

  lemma MigratedIsToward(db: Db)
    requires Migratable(db)
    ensures Toward(db, Migrated(db))
    ensures Migrated(db) == Stamp(Prepared(db).(files := Composite(RowsOf(db.files))))
  {
    MigrationStamps(db);
    MigrationIsIdempotent(db);
    assert STRUCTURAL[..|STRUCTURAL|] == STRUCTURAL;
  }

  /** The batch that recreates `files`; if a statement fails the transaction stays open. */
  method RecreateFiles(conn: Session<Db>) returns (o: Outcome)
    requires conn.Valid() && !conn.inTxn && conn.work.files.Legacy?
    modifies conn
    ensures conn.Valid() && conn.faults >= old(conn.faults)
    ensures conn.trace == old(conn.trace) && conn.disk == old(conn.disk)
    ensures o.Ok? ==>
              && conn.inTxn && conn.faults == old(conn.faults)
              && conn.work == old(conn.work).(files := Composite(Recreated(old(conn.work).files.byPath)))
    ensures o.Fail? ==>
              || (o.error == Fault && conn.faults > old(conn.faults))
              || (o.error == TableExists && old(conn.work).filesNew.Some?)
    ensures o.Ok? ==> old(conn.work).filesNew.None?
  {
    o := Ok;
    :- conn.Begin();
    if conn.work.filesNew.Some? {
      return Fail(TableExists);
    }
    :- conn.Exec(conn.work.(filesNew := Some(map[])));
    :- conn.Exec(conn.work.(filesNew := Some(Recreated(conn.work.files.byPath))));
    :- conn.Exec(conn.work.(files := Absent));
    :- conn.Exec(conn.work.(files := Composite(conn.work.filesNew.value), filesNew := None));
  }

  // ---------------------------------------------------------------------------------------
  // Stops and repeats
  // ---------------------------------------------------------------------------------------

  /** One open: which of its statements fail, and where it is stopped if it is. */
  datatype Attempt = Attempt(fails: nat -> bool, stop: Option<nat>)

  /** Any number of opens, each stopped anywhere, then one that is left to finish. If no statement of
      that one is made to fail, it succeeds exactly when the database could be migrated from the start,
      and then reaches the state that a single undisturbed migration reaches. */
  method CutShortAndRepeat(db: Db, attempts: seq<Attempt>, fails: nat -> bool) returns (final: Db, o: Outcome)
    ensures Toward(db, final)
    ensures o.Ok? ==> Migratable(db) && final == Migrated(db)
    ensures Calm(fails) ==> (o.Ok? <==> Migratable(db))
    ensures o.Fail? && !Calm(fails) ==> o.error == Fault || !Migratable(db)
  {
    hide Toward;
    final := db;
    TowardItself(db);
    for i := 0 to |attempts|
      invariant Toward(db, final)
    {
      var conn := new Session<Db>.Open(final, attempts[i].fails);
      var _ := Migrate(conn);
      TowardItself(final);
      TowardThen(db, final, Reached(conn.trace, attempts[i].stop));
      final := Reached(conn.trace, attempts[i].stop);
    }
    var conn := new Session<Db>.Open(final, fails);
    o := Migrate(conn);
    TowardThen(db, final, conn.disk);
    TowardMeans(db, final);
    final := conn.disk;
  }

  lemma TowardItself(db: Db)
    ensures Toward(db, db)
  {
  }

  lemma TowardMeans(a: Db, t: Db)
    requires Toward(a, t)
    ensures Migrated(t) == Migrated(a) && Migratable(t) == Migratable(a) && View(t) == View(a)
  {
  }
}
