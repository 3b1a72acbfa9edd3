/** The connection to the index and the reindex engine: statements, transactions, and the full
    and incremental runs, any statement of which may fail. */
module Reindexer {
  import opened ChunkIds
  import opened Chunker
  import opened IndexStore
  import opened Transactions

  type Connection = Session<Db>

  datatype WalkedFile = WalkedFile(path: string, content: string, mtime: int)

  // -------------------------------------------------------------------------------------
  // Writing one chunk, one file
  // -------------------------------------------------------------------------------------

  /** `insert_chunk_full_with`: the chunk row takes any unused rowid, and its shadow rows must
      find that rowid free. */
  method InsertChunkFull(conn: Connection, w: World, e: Embedder, path: string, c: ChunkSpec) returns (o: Outcome)
    requires conn.Valid() && conn.inTxn && w.Sound() && Bound(conn.work)
    modifies conn
    ensures conn.Valid() && conn.inTxn && conn.disk == old(conn.disk) && conn.trace == old(conn.trace) && conn.faults >= old(conn.faults)
    ensures o.Ok? ==>
              && conn.faults == old(conn.faults) && !IdTaken(old(conn.work), IdOf(path, c)) && e.dim == old(conn.work).width
              && exists r :: && r !in old(conn.work).chunks && conn.work == InsertEntry(old(conn.work), r, EntryOf(w, e, path, c))
                             && r in conn.work.chunks && RowsShow(w, conn.work, e, r, path, c)
    ensures o == Fail(Fault) ==> conn.faults > old(conn.faults)
    ensures o == Fail(KeyTaken) ==> IdTaken(old(conn.work), IdOf(path, c))
    ensures o == Fail(WrongWidth) ==> e.dim != old(conn.work).width
    ensures o.Fail? ==> o.error in {Fault, KeyTaken, WrongWidth}
  {
    var row := RowOf(path, c);
    if exists r :: r in conn.work.chunks && conn.work.chunks[r].id == row.id {
      return Fail(KeyTaken);
    }
    var r: nat := FreeRowid(conn.work.chunks.Keys);
    :- conn.Exec(conn.work.(chunks := conn.work.chunks[r := row]));

    var indexed := Indexed(c.body);
    var vector := w.embed(e, indexed);
    if |vector| != conn.work.width {
      return Fail(WrongWidth);
    }
    if r in conn.work.vec {
      return Fail(KeyTaken);
    }
    :- conn.Exec(conn.work.(vec := conn.work.vec[r := vector]));

    if r in conn.work.fts {
      return Fail(KeyTaken);
    }
    :- conn.Exec(conn.work.(fts := conn.work.fts[r := w.tokens(indexed)]));

    var symbol := SymbolOf(w, c);
    if symbol.Some? {
      if row.id in conn.work.symbols {
        return Fail(KeyTaken);
      }
      :- conn.Exec(conn.work.(symbols := conn.work.symbols[row.id := symbol.value]));
    }
    assert conn.work == InsertEntry(old(conn.work), r, EntryOf(w, e, path, c));
    InsertShows(w, old(conn.work), e, r, path, c);
    return Ok;
  }

  /** `write_file_structural` */
  method WriteFileStructural(conn: Connection, path: string, s: Structure) returns (o: Outcome)
    requires conn.Valid() && conn.inTxn
    modifies conn
    ensures conn.Valid() && conn.inTxn && conn.disk == old(conn.disk) && conn.trace == old(conn.trace) && conn.faults >= old(conn.faults)
    ensures o.Ok? ==> conn.faults == old(conn.faults) && conn.work == AppendItems(old(conn.work), path, s.imports, s.exports)
    ensures o.Fail? ==> o.error == Fault && conn.faults > old(conn.faults)
  {
    ghost var start := conn.work;
    for i := 0 to |s.imports|
      invariant conn.Valid() && conn.inTxn && conn.disk == old(conn.disk) && conn.trace == old(conn.trace) && conn.faults == old(conn.faults)
      invariant conn.work == AppendItems(start, path, s.imports[..i], [])
    {
      :- conn.Exec(conn.work.(imports := conn.work.imports + [Tagged(path, s.imports[i])]));
      TagAllSnoc(path, s.imports, i);
    }
    assert s.imports[..|s.imports|] == s.imports;
    for i := 0 to |s.exports|
      invariant conn.Valid() && conn.inTxn && conn.disk == old(conn.disk) && conn.trace == old(conn.trace) && conn.faults == old(conn.faults)
      invariant conn.work == AppendItems(start, path, s.imports, s.exports[..i])
    {
      :- conn.Exec(conn.work.(exports := conn.work.exports + [Tagged(path, s.exports[i])]));
      TagAllSnoc(path, s.exports, i);
    }
    assert s.exports[..|s.exports|] == s.exports;
    return Ok;
  }

  /** The six deletions shared by reprocessing and removal. */
  method DeleteFileRows(conn: Connection, path: string) returns (o: Outcome)
    requires conn.Valid() && conn.inTxn
    modifies conn
    ensures conn.faults >= old(conn.faults)
    ensures conn.Valid() && conn.inTxn && conn.disk == old(conn.disk) && conn.trace == old(conn.trace)
    ensures o.Ok? ==> conn.work == DeleteFile(old(conn.work), path) && conn.faults == old(conn.faults)
    ensures o.Fail? ==> o.error == Fault && conn.faults > old(conn.faults)
  {
    o := Ok;
    :- conn.Exec(DeleteVec(conn.work, path));
    :- conn.Exec(DeleteFts(conn.work, path));
    :- conn.Exec(DeleteSymbols(conn.work, path));
    :- conn.Exec(DeleteImports(conn.work, path));
    :- conn.Exec(DeleteExports(conn.work, path));
    :- conn.Exec(DeleteChunks(conn.work, path));
    return Ok;
  }

  // ---------------------------------------------------------------------------------------
  // One file
  // ---------------------------------------------------------------------------------------

  /** The images of an index in which `path` has only these entries and no structural rows. */
  function Partly(images: map<string, FileImage>, path: string, entries: set<Entry>): map<string, FileImage> {
    images[path := FileImage(entries, [], [])]
  }

  lemma DeletedIsPartlyNone(db: Db, images: map<string, FileImage>, path: string)
    requires Holds(db, images)
    ensures Holds(DeleteFile(db, path), Partly(images, path, {}))
  {
    DeleteFileHolds(db, images, path);
    forall p
      ensures Get(images - {path}, p) == Get(Partly(images, path, {}), p)
    {
    }
  }

  lemma InsertedIsPartlyMore(db: Db, images: map<string, FileImage>, path: string, entries: set<Entry>,
                             entry: Entry, r: nat)
    requires Holds(db, Partly(images, path, entries)) && r !in db.chunks
    requires entry.vector.Some? && entry.text.Some? && entry.row.path == path
    requires entry.row.id == ChunkId(path, entry.row.start, entry.row.end) && !IdTaken(db, entry.row.id)
    ensures Holds(InsertEntry(db, r, entry), Partly(images, path, entries + {entry}))
  {
    hide Bound, Holds, IdTaken;
    InsertEntryHolds(db, Partly(images, path, entries), r, entry);
    assert WithEntry(Partly(images, path, entries), entry) == Partly(images, path, entries + {entry});
  }

  lemma NoEntriesYet(w: World, e: Embedder, path: string, chunks: seq<ChunkSpec>)
    ensures EntriesUpTo(w, e, path, chunks, 0) == {}
  {
  }

  lemma EntriesUpToNext(w: World, e: Embedder, path: string, chunks: seq<ChunkSpec>, n: nat)
    requires n < |chunks|
    ensures EntriesUpTo(w, e, path, chunks, n + 1) == EntriesUpTo(w, e, path, chunks, n) + {EntryOf(w, e, path, chunks[n])}
  {
  }

  /** With all chunks and the structural rows in place, the tables hold the new content. */
  lemma AppendedIsWhole(w: World, e: Embedder, db: Db, snap: Snapshot, path: string, content: string)
    requires Indexable(w, snap) && w.StructureOf(path, content).Some?
    requires Holds(db, Partly(Images(w, e, snap), path, AllEntries(w, e, path, content)))
    ensures Indexable(w, snap[path := content])
    ensures var s := w.StructureOf(path, content).value;
            Holds(AppendItems(db, path, s.imports, s.exports), Images(w, e, snap[path := content]))
  {
    hide Holds, Bound;
    var s := w.StructureOf(path, content).value;
    var images := Partly(Images(w, e, snap), path, AllEntries(w, e, path, content));
    AppendItemsHolds(db, images, path, s.imports, s.exports);
    assert images[path := FileImage(Get(images, path).entries, s.imports, s.exports)]
        == Images(w, e, snap[path := content]);
  }

  ghost function AllEntries(w: World, e: Embedder, path: string, content: string): set<Entry> {
    EntriesUpTo(w, e, path, w.chunk(path, content), |w.chunk(path, content)|)
  }

  function RecordFile(db: Db, repoId: string, path: string, row: FileRow): Db {
    db.(files := db.files[(repoId, path) := row])
  }

  lemma RecordedIsStored(w: World, db: Db, after: Db, s: State, path: string, content: string, row: FileRow)
    requires FilesMatch(w, db.files, s.snap, s.owner) && s.owner == w.repoId
    requires Indexable(w, s.snap[path := content])
    requires Holds(db, Images(w, s.madeBy, s.snap[path := content]))
    requires row.hash == w.hash(content) && row.language == w.language(path)
    requires ReadMeta(db) == Some(s.madeBy) && (db.vec != map[] ==> s.madeBy.dim == db.width)
    requires after == RecordFile(db, w.repoId, path, row)
    ensures Stored(w, after, s.(snap := s.snap[path := content]))
  {
    hide Holds, Bound;
    SameRowsHold(db, after, Images(w, s.madeBy, s.snap[path := content]));
  }

  lemma SameRowsHold(a: Db, b: Db, images: map<string, FileImage>)
    requires Holds(a, images)
    requires a.chunks == b.chunks && a.vec == b.vec && a.fts == b.fts && a.symbols == b.symbols
    requires a.imports == b.imports && a.exports == b.exports
    ensures Holds(b, images)
  {
    forall p
      ensures ImageAt(b, p) == Get(images, p)
    {
      assert ImageAt(a, p) == Get(images, p);
      SameChunksSameEntries(a, b, p);
    }
  }

  /** The chunk loop of `reprocess_file_with`. No insert can meet a taken key. */
  method InsertChunks(conn: Connection, w: World, e: Embedder, file: WalkedFile, specs: seq<ChunkSpec>,
                      ghost images: map<string, FileImage>)
    returns (o: Outcome)
    requires conn.Valid() && conn.inTxn && w.Sound()
    requires specs == w.chunk(file.path, file.content)
    requires Holds(conn.work, Partly(images, file.path, {}))
    modifies conn
    ensures conn.Valid() && conn.faults >= old(conn.faults) && conn.inTxn && conn.disk == old(conn.disk) && conn.trace == old(conn.trace)
    ensures o.Ok? ==>
              && conn.faults == old(conn.faults)
              && Holds(conn.work, Partly(images, file.path, AllEntries(w, e, file.path, file.content)))
              && conn.work.files == old(conn.work).files && SameSettings(conn.work, old(conn.work))
              && (specs == [] ==> conn.work == old(conn.work)) && (specs != [] ==> e.dim == old(conn.work).width)
    ensures o.Fail? ==> Explained(w, e, file, old(conn.work).width, o.error, conn.faults > old(conn.faults))
  {
    hide IdTaken, EntriesUpTo;
    var path := file.path;
    NoEntriesYet(w, e, path, specs);
    for n := 0 to |specs|
      invariant conn.Valid() && conn.inTxn && conn.disk == old(conn.disk) && conn.trace == old(conn.trace)
      invariant conn.faults == old(conn.faults)
      invariant Holds(conn.work, Partly(images, path, EntriesUpTo(w, e, path, specs, n)))
      invariant conn.work.files == old(conn.work).files && SameSettings(conn.work, old(conn.work))
      invariant if n == 0 then conn.work == old(conn.work) else e.dim == old(conn.work).width
    {
      ghost var before := conn.work;
      ghost var entries := EntriesUpTo(w, e, path, specs, n);
      NextIdFree(w, e, before, Partly(images, path, entries), path, file.content, n);
      :- InsertChunkFull(conn, w, e, path, specs[n]);
      ghost var r :| r !in before.chunks && conn.work == InsertEntry(before, r, EntryOf(w, e, path, specs[n]));
      InsertedIsPartlyMore(before, images, path, entries, EntryOf(w, e, path, specs[n]), r);
      EntriesUpToNext(w, e, path, specs, n);
    }
    return Ok;
  }

  /** The statements between BEGIN and COMMIT of `reprocess_file_with`. On success the working
      tables hold the new content of this file and are otherwise as before. */
  method ReprocessBody(conn: Connection, w: World, e: Embedder, file: WalkedFile, hash: string, ghost s: State)
    returns (o: Outcome, written: nat)
    requires conn.Valid() && conn.inTxn && w.Sound()
    requires Stored(w, conn.work, s) && s.owner == w.repoId && s.madeBy == e && ReadMeta(conn.work) == Some(e)
    requires hash == w.hash(file.content)
    modifies conn
    ensures conn.Valid() && conn.faults >= old(conn.faults) && conn.inTxn && conn.disk == old(conn.disk) && conn.trace == old(conn.trace)
    ensures o.Ok? ==>
              && conn.faults == old(conn.faults)
              && Stored(w, conn.work, s.(snap := s.snap[file.path := file.content]))
              && conn.work.files == old(conn.work).files[(w.repoId, file.path) := FileRow(hash, file.mtime, w.language(file.path))]
              && SameSettings(conn.work, old(conn.work))
              && written == |w.chunk(file.path, file.content)|
    ensures o.Fail? ==> Explained(w, e, file, old(conn.work).width, o.error, conn.faults > old(conn.faults))
  {
    written := 0;
    var path := file.path;
    var specs := ChunkFileOf(w, path, file.content);
    ghost var images := Images(w, e, s.snap);
    DeletedIsPartlyNone(conn.work, images, path);
    :- DeleteFileRows(conn, path);
    :- InsertChunks(conn, w, e, file, specs, images);

    var structure := w.StructureOf(path, file.content);
    if structure.None? {
      return Fail(ParseFailure), written;
    }
    AppendedIsWhole(w, e, conn.work, s.snap, path, file.content);
    :- WriteFileStructural(conn, path, structure.value);

    ghost var filled := conn.work;
    var row := FileRow(hash, file.mtime, w.language(path));
    :- conn.Exec(RecordFile(conn.work, w.repoId, path, row));
    RecordedIsStored(w, filled, conn.work, s, path, file.content, row);
    return Ok, |specs|;
  }

  method ChunkFileOf(w: World, path: string, content: string) returns (specs: seq<ChunkSpec>)
    requires w.Sound()
    ensures specs == w.chunk(path, content)
  {
    hide FileChunks, Lines;
    specs := ChunkFile(content, w.SpansOf(path, content));
  }

  predicate SameSettings(a: Db, b: Db) {
    a.embedderId == b.embedderId && a.embedderDim == b.embedderDim && a.width == b.width
  }

  /** The only ways in which writing a file can fail. */
  predicate Explained(w: World, e: Embedder, file: WalkedFile, width: nat, error: Error, faulted: bool) {
    match error
    case Fault => faulted
    case WrongWidth => e.dim != width && w.chunk(file.path, file.content) != []
    case ParseFailure => w.StructureOf(file.path, file.content).None?
    case _ => false
  }

  /** `reprocess_file_with`: one transaction per file, rolled back when its body fails. */
  method ReprocessFile(conn: Connection, w: World, e: Embedder, file: WalkedFile, hash: string, ghost s: State)
    returns (o: Outcome, written: nat)
    requires conn.Valid() && !conn.inTxn && w.Sound()
    requires Stored(w, conn.disk, s) && s.owner == w.repoId && s.madeBy == e && ReadMeta(conn.disk) == Some(e)
    requires hash == w.hash(file.content)
    modifies conn
    ensures conn.Valid() && conn.faults >= old(conn.faults)
    ensures o.Ok? ==>
              && !conn.inTxn && conn.faults == old(conn.faults)
              && conn.trace == old(conn.trace) + [conn.disk]
              && Stored(w, conn.disk, s.(snap := s.snap[file.path := file.content]))
              && conn.disk.files == old(conn.disk).files[(w.repoId, file.path) := FileRow(hash, file.mtime, w.language(file.path))]
              && SameSettings(conn.disk, old(conn.disk))
              && written == |w.chunk(file.path, file.content)|
    ensures o.Fail? ==>
              && conn.disk == old(conn.disk) && conn.trace == old(conn.trace)
              && Explained(w, e, file, old(conn.disk).width, o.error, conn.faults > old(conn.faults))
  {
    written := 0;
    :- conn.Begin();
    var result, n := ReprocessBody(conn, w, e, file, hash, s);
    if result.Ok? {
      :- conn.Commit();
      return Ok, n;
    }
    conn.Rollback();
    return result, 0;
  }

  // ---------------------------------------------------------------------------------------
  // Removing, wiping, stamping
  // ---------------------------------------------------------------------------------------

  function ForgetFile(db: Db, repoId: string, path: string): Db {
    db.(files := map k | k in db.files && k != (repoId, path) :: db.files[k])
  }

  lemma ForgottenFiles(w: World, db: Db, snap: Snapshot, path: string)
    requires FilesMatch(w, db.files, snap, w.repoId)
    ensures FilesMatch(w, ForgetFile(db, w.repoId, path).files, snap - {path}, w.repoId)
  {
  }

  lemma RemovedIsStored(w: World, db: Db, s: State, path: string, after: Db)
    requires Stored(w, db, s) && s.owner == w.repoId
    requires after == ForgetFile(DeleteFile(db, path), w.repoId, path)
    ensures Stored(w, after, State(s.snap - {path}, s.owner, s.madeBy))
  {
    hide Holds, Bound, FilesMatch, Images;
    var deleted := DeleteFile(db, path);
    DeleteFileHolds(db, Images(w, s.madeBy, s.snap), path);
    ImagesWithout(w, s.madeBy, s.snap, path);
    SameRowsHold(deleted, after, Images(w, s.madeBy, s.snap - {path}));
    ForgottenFiles(w, deleted, s.snap, path);
    DeleteFileRowsExact(db, path, after);
  }

  lemma ImagesWithout(w: World, e: Embedder, snap: Snapshot, path: string)
    requires Indexable(w, snap)
    ensures Images(w, e, snap) - {path} == Images(w, e, snap - {path})
  {
  }

  lemma DeleteFileRowsExact(db: Db, path: string, after: Db)
    requires after.vec == DeleteFile(db, path).vec && SameSettings(after, db)
    ensures after.vec != map[] ==> db.vec != map[]
    ensures ReadMeta(after) == ReadMeta(db)
  {
    if r :| r in after.vec {
      assert r in db.vec;
    }
  }

  /** `remove_file` */
  method RemoveFile(conn: Connection, w: World, path: string, ghost s: State) returns (o: Outcome)
    requires conn.Valid() && !conn.inTxn && Stored(w, conn.disk, s) && s.owner == w.repoId
    modifies conn
    ensures conn.Valid() && conn.faults >= old(conn.faults)
    ensures o.Ok? ==>
              && !conn.inTxn && conn.faults == old(conn.faults)
              && conn.trace == old(conn.trace) + [conn.disk]
              && Stored(w, conn.disk, State(s.snap - {path}, s.owner, s.madeBy))
              && SameSettings(conn.disk, old(conn.disk))
    ensures o.Fail? ==>
              && conn.disk == old(conn.disk) && conn.trace == old(conn.trace)
              && o.error == Fault && conn.faults > old(conn.faults)
  {
    o := Ok;
    :- conn.Begin();
    var result := RemoveBody(conn, w, path);
    if result.Ok? {
      RemovedIsStored(w, old(conn.disk), s, path, conn.work);
      :- conn.Commit();
      return Ok;
    }
    conn.Rollback();
    return result;
  }

  method RemoveBody(conn: Connection, w: World, path: string) returns (o: Outcome)
    requires conn.Valid() && conn.inTxn
    modifies conn
    ensures conn.Valid() && conn.faults >= old(conn.faults) && conn.inTxn && conn.disk == old(conn.disk) && conn.trace == old(conn.trace)
    ensures o.Ok? ==>
              conn.work == ForgetFile(DeleteFile(old(conn.work), path), w.repoId, path) && conn.faults == old(conn.faults)
    ensures o.Fail? ==> o.error == Fault && conn.faults > old(conn.faults)
  {
    o := Ok;
    :- DeleteFileRows(conn, path);
    :- conn.Exec(ForgetFile(conn.work, w.repoId, path));
    return Ok;
  }

  function Wiped(db: Db): Db {
    db.(vec := map[], fts := map[], symbols := map[], imports := [], exports := [], chunks := map[], files := map[])
  }

  /** `wipe_all`: one batch; a failure inside it leaves the transaction open and the disk as it was. */
  method WipeAll(conn: Connection) returns (o: Outcome)
    requires conn.Valid() && !conn.inTxn
    modifies conn
    ensures conn.Valid() && conn.faults >= old(conn.faults)
    ensures o.Ok? ==>
              && !conn.inTxn && conn.faults == old(conn.faults)
              && conn.disk == Wiped(old(conn.disk)) && conn.trace == old(conn.trace) + [conn.disk]
    ensures o.Fail? ==>
              && conn.disk == old(conn.disk) && conn.trace == old(conn.trace)
              && o.error == Fault && conn.faults > old(conn.faults)
  {
    o := Ok;
    :- conn.Begin();
    :- conn.Exec(conn.work.(vec := map[]));
    :- conn.Exec(conn.work.(fts := map[]));
    :- conn.Exec(conn.work.(symbols := map[]));
    :- conn.Exec(conn.work.(imports := []));
    :- conn.Exec(conn.work.(exports := []));
    :- conn.Exec(conn.work.(chunks := map[]));
    :- conn.Exec(conn.work.(files := map[]));
    :- conn.Commit();
    return Ok;
  }

  function RewriteRepoId(files: map<(string, string), FileRow>, repoId: string): map<(string, string), FileRow> {
    (map k | k in files && k.0 != PLACEHOLDER_REPO_ID :: files[k])
    + (map k | k in files && k.0 == PLACEHOLDER_REPO_ID :: (repoId, k.1) := files[k])
  }

  /** The UPDATE would give two rows the same composite key. */
  ghost predicate RewriteCollides(files: map<(string, string), FileRow>, repoId: string) {
    && repoId != PLACEHOLDER_REPO_ID
    && exists p :: (PLACEHOLDER_REPO_ID, p) in files && (repoId, p) in files
  }

  lemma RewriteFiles(w: World, files: map<(string, string), FileRow>, snap: Snapshot, owner: string)
    requires FilesMatch(w, files, snap, owner)
    requires owner == w.repoId || owner == PLACEHOLDER_REPO_ID
    ensures !RewriteCollides(files, w.repoId)
    ensures FilesMatch(w, RewriteRepoId(files, w.repoId), snap, w.repoId)
    ensures owner == w.repoId ==> RewriteRepoId(files, w.repoId) == files
  {
    forall p | p in snap
      ensures (w.repoId, p) in RewriteRepoId(files, w.repoId)
      ensures RewriteRepoId(files, w.repoId)[(w.repoId, p)] == files[(owner, p)]
    {
      assert (owner, p) in files;
    }
  }

  lemma RewriteIsStored(w: World, db: Db, s: State, after: Db)
    requires Stored(w, db, s)
    requires after == db.(files := RewriteRepoId(db.files, w.repoId))
    ensures !RewriteCollides(db.files, w.repoId)
    ensures Stored(w, after, s.(owner := w.repoId))
    ensures s.owner == w.repoId ==> after == db
  {
    hide Holds, Bound, RewriteRepoId, FilesMatch, RewriteCollides;
    RewriteFiles(w, db.files, s.snap, s.owner);
    SameRowsHold(db, after, Images(w, s.madeBy, s.snap));
  }

  /** `rewrite_placeholder_repo_id` */
  method RewritePlaceholder(conn: Connection, w: World, ghost s: State) returns (o: Outcome)
    requires conn.Valid() && !conn.inTxn && Stored(w, conn.disk, s)
    modifies conn
    ensures conn.Valid() && conn.faults >= old(conn.faults) && !conn.inTxn
    ensures o.Ok? ==>
              && conn.faults == old(conn.faults) && conn.trace == old(conn.trace) + [conn.disk]
              && Stored(w, conn.disk, State(s.snap, w.repoId, s.madeBy))
              && conn.disk == old(conn.disk).(files := conn.disk.files) && SameSettings(conn.disk, old(conn.disk))
              && (s.owner == w.repoId ==> conn.disk == old(conn.disk))
    ensures o.Fail? ==>
              && conn.disk == old(conn.disk) && conn.trace == old(conn.trace)
              && o.error == Fault && conn.faults > old(conn.faults)
  {
    ghost var after := conn.disk.(files := RewriteRepoId(conn.disk.files, w.repoId));
    RewriteIsStored(w, conn.disk, s, after);
    if w.repoId != PLACEHOLDER_REPO_ID
       && exists k :: k in conn.work.files && k.0 == PLACEHOLDER_REPO_ID && (w.repoId, k.1) in conn.work.files {
      return Fail(KeyTaken);
    }
    :- conn.Exec(conn.work.(files := RewriteRepoId(conn.work.files, w.repoId)));
    return Ok;
  }

  /** `write_embedder_meta`: two statements, each committing by itself. */
  method WriteEmbedderMeta(conn: Connection, e: Embedder) returns (o: Outcome)
    requires conn.Valid() && !conn.inTxn
    modifies conn
    ensures conn.Valid() && conn.faults >= old(conn.faults) && !conn.inTxn && old(conn.trace) <= conn.trace
    ensures forall i :: |old(conn.trace)| <= i < |conn.trace| ==>
              MetaAside(conn.trace[i], old(conn.disk)) && StampedBy(e, old(conn.disk), conn.trace[i])
    ensures o.Ok? ==>
              && conn.faults == old(conn.faults)
              && conn.disk == old(conn.disk).(embedderId := Some(e.id), embedderDim := Some(e.dim))
              && conn.trace == old(conn.trace) + [HalfStamped(old(conn.disk), e), conn.disk]
    ensures o.Fail? ==> o.error == Fault && conn.faults > old(conn.faults)
  {
    o := Ok;
    :- conn.Exec(conn.work.(embedderId := Some(e.id)));
    :- conn.Exec(conn.work.(embedderDim := Some(e.dim)));
    return Ok;
  }

  /** What is on disk between the two writes. */
  function HalfStamped(db: Db, e: Embedder): Db {
    db.(embedderId := Some(e.id))
  }

  /** Equal but for the embedder recorded in `meta`. */
  predicate MetaAside(a: Db, b: Db) {
    a == b.(embedderId := a.embedderId, embedderDim := a.embedderDim)
  }

  lemma UnstampedIsStored(w: World, a: Db, b: Db, s: State, madeBy: Embedder)
    requires Stored(w, b, s) && b.vec == map[] && MetaAside(a, b)
    ensures Stored(w, a, s.(madeBy := madeBy))
  {
    EmptyVecAnyEmbedder(w, b, s, madeBy);
    SameRowsHold(b, a, Images(w, madeBy, s.snap));
  }

  // ---------------------------------------------------------------------------------------
  // Runs
  // ---------------------------------------------------------------------------------------

  datatype Report = Report(filesIndexed: nat, chunks: nat, incremental: bool)

  ghost predicate DistinctPaths(walked: seq<WalkedFile>) {
    forall i, j :: 0 <= i < j < |walked| ==> walked[i].path != walked[j].path
  }

  /** The snapshot a walk asks for. */
  function Target(walked: seq<WalkedFile>): Snapshot {
    if walked == [] then map[]
    else Target(walked[..|walked| - 1])[walked[|walked| - 1].path := walked[|walked| - 1].content]
  }

  lemma {:induction false} TargetOf(walked: seq<WalkedFile>, p: string)
    ensures p in Target(walked) <==> exists i :: 0 <= i < |walked| && walked[i].path == p
    ensures DistinctPaths(walked) ==>
              forall i :: 0 <= i < |walked| && walked[i].path == p ==> Target(walked)[p] == walked[i].content
  {
    if walked != [] {
      var init := walked[..|walked| - 1];
      TargetOf(init, p);
      if i :| 0 <= i < |init| && init[i].path == p {
        assert walked[i].path == p;
      }
      assert walked[|walked| - 1].path in Target(walked);
    }
  }

  lemma TargetIsCurrent(walked: seq<WalkedFile>)
    requires DistinctPaths(walked)
    ensures forall i :: 0 <= i < |walked| ==> Current(Target(walked), walked[i])
  {
    forall i | 0 <= i < |walked|
      ensures Current(Target(walked), walked[i])
    {
      TargetOf(walked, walked[i].path);
    }
  }

  /** What is on disk after any prefix of a run: each file is as before or as the walk has it,
      or, in a forced run, absent. */
  ghost predicate Between(force: bool, before: Snapshot, target: Snapshot, mid: Snapshot) {
    forall p :: Lookup(mid, p) == Lookup(before, p) || Lookup(mid, p) == Lookup(target, p) || (force && p !in mid)
  }

  ghost predicate Stage(w: World, db: Db, force: bool, before: Snapshot, target: Snapshot) {
    exists s :: Stored(w, db, s) && Between(force, before, target, s.snap)
  }

  /** The settings of `t` are those of `a`, but for an embedder that `e` may have stamped over. */
  predicate StampedBy(e: Embedder, a: Db, t: Db) {
    && t.width == a.width
    && (t.embedderId == a.embedderId || t.embedderId == Some(e.id))
    && (t.embedderDim == a.embedderDim || t.embedderDim == Some(e.dim))
  }

  ghost predicate Staged(w: World, trace: seq<Db>, from: nat, force: bool, before: Snapshot, target: Snapshot) {
    forall i :: from <= i < |trace| ==> Stage(w, trace[i], force, before, target)
  }

  /** What is committed from a point on has the settings of `a`, but for stamps of `e`. */
  predicate AllStamped(e: Embedder, a: Db, trace: seq<Db>, from: nat) {
    forall i :: from <= i < |trace| ==> StampedBy(e, a, trace[i])
  }

  lemma StampedNext(e: Embedder, a: Db, trace: seq<Db>, db: Db, from: nat)
    requires AllStamped(e, a, trace, from) && SameSettings(db, a)
    ensures AllStamped(e, a, trace + [db], from)
  {
  }

  lemma StampedThen(e: Embedder, a: Db, b: Db, trace: seq<Db>, from: nat, mid: nat)
    requires from <= mid && StampedBy(e, a, b) && AllStamped(e, b, trace, mid)
    requires forall i :: from <= i < mid && i < |trace| ==> StampedBy(e, a, trace[i])
    ensures AllStamped(e, a, trace, from)
  {
  }

  /** The index already holds this file with this content. */
  predicate Current(before: Snapshot, file: WalkedFile) {
    Lookup(before, file.path) == Some(file.content)
  }

  /** Files a run over the first `n` walked files writes when it starts at `before`. */
  function PendingFiles(before: Snapshot, walked: seq<WalkedFile>, n: nat): nat
    requires n <= |walked|
  {
    if n == 0 then 0
    else PendingFiles(before, walked, n - 1) + if Current(before, walked[n - 1]) then 0 else 1
  }

  /** Chunks such a run writes. */
  function PendingChunks(w: World, before: Snapshot, walked: seq<WalkedFile>, n: nat): nat
    requires n <= |walked|
  {
    if n == 0 then 0
    else PendingChunks(w, before, walked, n - 1)
         + if Current(before, walked[n - 1]) then 0 else |w.chunk(walked[n - 1].path, walked[n - 1].content)|
  }

  /** The report of a run without faults. */
  function ExpectedReport(w: World, before: Snapshot, walked: seq<WalkedFile>, incremental: bool): Report {
    Report(PendingFiles(before, walked, |walked|), PendingChunks(w, before, walked, |walked|), incremental)
  }

  /** The running totals behind `ExpectedReport`. */
  lemma Tally(w: World, before: Snapshot, walked: seq<WalkedFile>, incremental: bool)
    returns (files: seq<nat>, chunks: seq<nat>)
    ensures |files| == |chunks| == |walked| + 1 && files[0] == chunks[0] == 0
    ensures forall i :: 0 <= i < |walked| ==> files[i + 1] == files[i] + if Current(before, walked[i]) then 0 else 1
    ensures forall i :: 0 <= i < |walked| ==>
              chunks[i + 1] == chunks[i] + if Current(before, walked[i]) then 0 else |w.chunk(walked[i].path, walked[i].content)|
    ensures ExpectedReport(w, before, walked, incremental) == Report(files[|walked|], chunks[|walked|], incremental)
  {
    files := seq(|walked| + 1, i requires 0 <= i <= |walked| => PendingFiles(before, walked, i));
    chunks := seq(|walked| + 1, i requires 0 <= i <= |walked| => PendingChunks(w, before, walked, i));
  }

  /** A forced run writes every file; a run on an up-to-date index writes none. */
  lemma {:induction false} ReportExtremes(w: World, walked: seq<WalkedFile>, n: nat)
    requires n <= |walked|
    ensures PendingFiles(map[], walked, n) == n
    ensures DistinctPaths(walked) ==>
              PendingFiles(Target(walked), walked, n) == 0 && PendingChunks(w, Target(walked), walked, n) == 0
  {
    if n > 0 {
      ReportExtremes(w, walked, n - 1);
      TargetOf(walked, walked[n - 1].path);
    }
  }

  /** Walked file `i` is new to `before` or has other content there. */
  predicate IsPending(before: Snapshot, walked: seq<WalkedFile>, i: nat)
    requires i < |walked|
  {
    walked[i].path !in before || before[walked[i].path] != walked[i].content
  }

  /** The pending files among the first `n`. */
  ghost function PendingSet(before: Snapshot, walked: seq<WalkedFile>, n: nat): set<nat>
    requires n <= |walked|
  {
    set i: nat | i < n && IsPending(before, walked, i)
  }

  /** The chunks of these, each with the number of its file. */
  ghost function PendingPairs(w: World, before: Snapshot, walked: seq<WalkedFile>, n: nat): set<(nat, ChunkSpec)>
    requires n <= |walked|
  {
    set i: nat, c | i < n && IsPending(before, walked, i) && c in w.chunk(walked[i].path, walked[i].content) :: (i, c)
  }

  ghost function Numbered<T>(tag: nat, items: seq<T>): set<(nat, T)> {
    set x | x in items :: (tag, x)
  }

  lemma {:induction false} NumberedCount<T>(tag: nat, items: seq<T>)
    requires forall i, j :: 0 <= i < j < |items| ==> items[i] != items[j]
    ensures |Numbered(tag, items)| == |items|
  {
    if items == [] {
      assert Numbered(tag, items) == {};
    } else {
      var n := |items| - 1;
      NumberedCount(tag, items[..n]);
      assert (tag, items[n]) !in Numbered(tag, items[..n]);
      assert Numbered(tag, items) == Numbered(tag, items[..n]) + {(tag, items[n])};
    }
  }

  /** One more file's chunks. */
  lemma PairsNext(w: World, before: Snapshot, walked: seq<WalkedFile>, i: nat)
    requires i < |walked|
    ensures PendingPairs(w, before, walked, i + 1) ==
            PendingPairs(w, before, walked, i)
            + if IsPending(before, walked, i) then Numbered(i, w.chunk(walked[i].path, walked[i].content)) else {}
    ensures PendingPairs(w, before, walked, i) !! Numbered(i, w.chunk(walked[i].path, walked[i].content))
  {
    hide IsPending;
  }

  lemma PairsCount(w: World, before: Snapshot, walked: seq<WalkedFile>, i: nat)
    requires i < |walked| && w.Sound()
    ensures |PendingPairs(w, before, walked, i + 1)| == |PendingPairs(w, before, walked, i)|
            + if IsPending(before, walked, i) then |w.chunk(walked[i].path, walked[i].content)| else 0
  {
    var chunks := w.chunk(walked[i].path, walked[i].content);
    ChunksAreDistinct(w, walked[i].path, walked[i].content);
    hide World.Sound, IsPending, PendingPairs, Numbered;
    NumberedCount(i, chunks);
    PairsNext(w, before, walked, i);
  }

  lemma FilesCount(before: Snapshot, walked: seq<WalkedFile>, i: nat)
    requires i < |walked|
    ensures |PendingSet(before, walked, i + 1)| == |PendingSet(before, walked, i)|
            + if Current(before, walked[i]) then 0 else 1
  {
    assert Current(before, walked[i]) <==> !IsPending(before, walked, i);
    assert PendingSet(before, walked, i + 1) == PendingSet(before, walked, i) + if IsPending(before, walked, i) then {i} else {};
  }

  /** What a report counts: the files that are new or changed, and their chunks. */
  lemma {:induction false} ReportCounts(w: World, before: Snapshot, walked: seq<WalkedFile>, n: nat)
    requires n <= |walked| && w.Sound()
    ensures PendingFiles(before, walked, n) == |PendingSet(before, walked, n)|
    ensures PendingChunks(w, before, walked, n) == |PendingPairs(w, before, walked, n)|
  {
    hide World.Sound, PendingPairs, PendingSet;
    if n == 0 {
      NothingYet(w, before, walked);
    } else {
      ReportCounts(w, before, walked, n - 1);
      PairsCount(w, before, walked, n - 1);
      FilesCount(before, walked, n - 1);
      assert Current(before, walked[n - 1]) <==> !IsPending(before, walked, n - 1);
    }
  }

  lemma NothingYet(w: World, before: Snapshot, walked: seq<WalkedFile>)
    ensures PendingPairs(w, before, walked, 0) == {} && PendingSet(before, walked, 0) == {}
  {
  }

  lemma ChunksAreDistinct(w: World, path: string, content: string)
    requires w.Sound()
    ensures forall i, j :: 0 <= i < j < |w.chunk(path, content)| ==> w.chunk(path, content)[i] != w.chunk(path, content)[j]
  {
    hide Lines, FileChunks;
    assert w.chunk(path, content) == FileChunks(content, w.SpansOf(path, content));
    ChunkIdsDistinct(path, content, w.SpansOf(path, content));
  }

  /** The bookkeeping row of a walked file. */
  predicate HasFileRow(w: World, db: Db, file: WalkedFile) {
    && (w.repoId, file.path) in db.files
    && db.files[(w.repoId, file.path)].hash == w.hash(file.content)
    && db.files[(w.repoId, file.path)].language == w.language(file.path)
  }

  predicate IsWalked(walked: seq<WalkedFile>, path: string) {
    exists i :: 0 <= i < |walked| && walked[i].path == path
  }

  /** Every chunk of the file has a row, and every row under its path is a chunk's. */
  ghost predicate HasChunkRows(w: World, db: Db, e: Embedder, file: WalkedFile) {
    var chunks := w.chunk(file.path, file.content);
    && (forall j :: 0 <= j < |chunks| ==> ShownBySome(w, db, e, file.path, chunks[j]))
    && (forall r :: r in db.chunks && db.chunks[r].path == file.path ==> ShowsSome(w, db, e, r, file.path, chunks))
  }

  /** The imports and exports of the file have rows as often as they occur. */
  ghost predicate HasItemRows(w: World, db: Db, file: WalkedFile) {
    match w.StructureOf(file.path, file.content)
    case None => false
    case Some(s) =>
      && (forall x: Import :: multiset(db.imports)[Tagged(file.path, x)] == multiset(s.imports)[x])
      && (forall x: Export :: multiset(db.exports)[Tagged(file.path, x)] == multiset(s.exports)[x])
  }

  /** What an index of a walk holds, table by table: for every walked file its bookkeeping row with the hash
      and language of its content, its chunks, imports and exports, and nothing for any other path. */
  lemma WalkIsStored(w: World, db: Db, walked: seq<WalkedFile>, e: Embedder)
    requires w.Sound() && DistinctPaths(walked) && Stored(w, db, State(Target(walked), w.repoId, e))
    ensures forall i :: 0 <= i < |walked| ==>
              HasFileRow(w, db, walked[i]) && HasChunkRows(w, db, e, walked[i]) && HasItemRows(w, db, walked[i])
    ensures forall k :: k in db.files ==> k.0 == w.repoId && IsWalked(walked, k.1)
    ensures forall r :: r in db.chunks ==> IsWalked(walked, db.chunks[r].path)
    ensures forall row :: row in db.imports ==> IsWalked(walked, row.path)
    ensures forall row :: row in db.exports ==> IsWalked(walked, row.path)
  {
    hide HasFileRow, HasChunkRows, HasItemRows, Stored, Target, World.Sound, IsWalked;
    var s := State(Target(walked), w.repoId, e);
    forall i | 0 <= i < |walked|
      ensures HasFileRow(w, db, walked[i]) && HasChunkRows(w, db, e, walked[i]) && HasItemRows(w, db, walked[i])
    {
      TargetOf(walked, walked[i].path);
      FileIsStored(w, db, s, walked[i]);
    }
    forall p
      ensures p in s.snap <==> IsWalked(walked, p)
    {
      WalkedIsTarget(walked, p);
    }
    OnlySnapshotStored(w, db, s);
  }

  lemma WalkedIsTarget(walked: seq<WalkedFile>, p: string)
    ensures p in Target(walked) <==> IsWalked(walked, p)
  {
    TargetOf(walked, p);
  }

  lemma FileIsStored(w: World, db: Db, s: State, file: WalkedFile)
    requires w.Sound() && Stored(w, db, s) && s.owner == w.repoId && Lookup(s.snap, file.path) == Some(file.content)
    ensures HasFileRow(w, db, file) && HasChunkRows(w, db, s.madeBy, file) && HasItemRows(w, db, file)
  {
    hide ShownBySome, ShowsSome, Holds, CarvedBySpans, CarvedByWindows, World.Sound;
    StoredColumns(w, db, s);
  }

  lemma OnlySnapshotStored(w: World, db: Db, s: State)
    requires w.Sound() && Stored(w, db, s)
    ensures forall k :: k in db.files ==> k.0 == s.owner && k.1 in s.snap
    ensures forall r :: r in db.chunks ==> db.chunks[r].path in s.snap
    ensures forall row :: row in db.imports ==> row.path in s.snap
    ensures forall row :: row in db.exports ==> row.path in s.snap
  {
    hide ShownBySome, ShowsSome, Holds, CarvedBySpans, CarvedByWindows, World.Sound, Indexable;
    StoredColumns(w, db, s);
    forall row | row in db.imports
      ensures row.path in s.snap
    {
      assert multiset(db.imports)[Tagged(row.path, row.item)] > 0;
    }
    forall row | row in db.exports
      ensures row.path in s.snap
    {
      assert multiset(db.exports)[Tagged(row.path, row.item)] > 0;
    }
  }

  /** The only ways in which writing a walk can fail: a fault, or a file that is not current and
      cannot be written. */
  ghost predicate WalkExplained(w: World, e: Embedder, before: Snapshot, walked: seq<WalkedFile>, width: nat,
                                error: Error, faulted: bool) {
    || (error == Fault && faulted)
    || exists i :: && 0 <= i < |walked| && (faulted || !Current(before, walked[i])) && error != Fault
                   && Explained(w, e, walked[i], width, error, faulted)
  }

  lemma StagedNext(w: World, trace: seq<Db>, db: Db, from: nat, force: bool, before: Snapshot, target: Snapshot, s: State)
    requires Staged(w, trace, from, force, before, target)
    requires Stored(w, db, s) && Between(force, before, target, s.snap)
    ensures Staged(w, trace + [db], from, force, before, target)
  {
    assert Stage(w, db, force, before, target);
  }

  lemma TargetNext(walked: seq<WalkedFile>, i: nat)
    requires i < |walked|
    ensures Target(walked[..i + 1]) == Target(walked[..i])[walked[i].path := walked[i].content]
  {
    assert walked[..i + 1][..i] == walked[..i];
  }

  /** The loop of a forced run, on an emptied and stamped index. */
  method RebuildAll(conn: Connection, w: World, walked: seq<WalkedFile>, e: Embedder, ghost before: Snapshot)
    returns (o: Outcome, report: Report)
    requires conn.Valid() && !conn.inTxn && w.Sound() && DistinctPaths(walked)
    requires Stored(w, conn.disk, State(map[], w.repoId, e)) && ReadMeta(conn.disk) == Some(e)
    modifies conn
    ensures conn.Valid() && conn.faults >= old(conn.faults) && old(conn.trace) <= conn.trace
    ensures Staged(w, conn.trace, |old(conn.trace)|, true, before, Target(walked))
    ensures AllStamped(e, old(conn.disk), conn.trace, |old(conn.trace)|)
    ensures o.Ok? ==>
              && !conn.inTxn && conn.faults == old(conn.faults)
              && Stored(w, conn.disk, State(Target(walked), w.repoId, e)) && ReadMeta(conn.disk) == Some(e)
              && report == ExpectedReport(w, map[], walked, false)
    ensures o.Fail? ==> WalkExplained(w, e, map[], walked, old(conn.disk).width, o.error, conn.faults > old(conn.faults))
  {
    hide Stored, Holds, Bound, Between, StampedBy;
    report := Report(0, 0, false);
    ghost var fileTally, chunkTally := Tally(w, map[], walked, false);
    var filesIndexed, chunks := 0, 0;
    for i := 0 to |walked|
      invariant conn.Valid() && !conn.inTxn && old(conn.trace) <= conn.trace
      invariant conn.faults == old(conn.faults)
      invariant Staged(w, conn.trace, |old(conn.trace)|, true, before, Target(walked))
      invariant AllStamped(e, old(conn.disk), conn.trace, |old(conn.trace)|)
      invariant Stored(w, conn.disk, State(Target(walked[..i]), w.repoId, e))
      invariant SameSettings(conn.disk, old(conn.disk))
      invariant filesIndexed == fileTally[i] && chunks == chunkTally[i]
    {
      var file := walked[i];
      ghost var s := State(Target(walked[..i]), w.repoId, e);
      ghost var s' := State(Target(walked[..i + 1]), w.repoId, e);
      ghost var trace := conn.trace;
      var result, written := ReprocessFile(conn, w, e, file, w.hash(file.content), s);
      if result.Fail? {
        return result, report;
      }
      TargetNext(walked, i);
      PrefixIsBetween(before, walked, i + 1);
      StagedNext(w, trace, conn.disk, |old(conn.trace)|, true, before, Target(walked), s');
      StampedNext(e, old(conn.disk), trace, conn.disk, |old(conn.trace)|);
      filesIndexed := filesIndexed + 1;
      chunks := chunks + written;
    }
    assert walked[..|walked|] == walked;
    return Ok, Report(filesIndexed, chunks, false);
  }

  lemma TargetPrefix(walked: seq<WalkedFile>, n: nat, p: string)
    requires n <= |walked| && DistinctPaths(walked)
    ensures p in Target(walked[..n]) ==> p in Target(walked) && Target(walked)[p] == Target(walked[..n])[p]
  {
    TargetOf(walked[..n], p);
    TargetOf(walked, p);
    if p in Target(walked[..n]) {
      var i :| 0 <= i < n && walked[..n][i].path == p;
      assert walked[i].path == p;
      assert DistinctPaths(walked[..n]);
    }
  }

  lemma PrefixIsBetween(before: Snapshot, walked: seq<WalkedFile>, n: nat)
    requires n <= |walked| && DistinctPaths(walked)
    ensures Between(true, before, Target(walked), Target(walked[..n]))
  {
    forall p | p in Target(walked[..n])
      ensures p in Target(walked) && Target(walked)[p] == Target(walked[..n])[p]
    {
      TargetPrefix(walked, n, p);
    }
  }

  // ---------------------------------------------------------------------------------------
  // Incremental runs
  // ---------------------------------------------------------------------------------------

  /** `stored_file_paths`, in whatever order the table gives. */
  method StoredFilePaths(conn: Connection, w: World) returns (o: Outcome, paths: seq<string>)
    requires conn.Valid()
    modifies conn`clock, conn`faults
    ensures conn.Valid() && conn.faults >= old(conn.faults)
    ensures o.Ok? ==> conn.faults == old(conn.faults) && forall p :: p in paths <==> (w.repoId, p) in conn.work.files
    ensures o.Fail? ==> o.error == Fault && conn.faults > old(conn.faults)
  {
    paths := [];
    :- conn.Query();
    var left := set k | k in conn.work.files && k.0 == w.repoId :: k.1;
    while left != {}
      invariant forall p :: (w.repoId, p) in conn.work.files <==> p in left || p in paths
    {
      var p :| p in left;
      left := left - {p};
      paths := paths + [p];
    }
    return Ok, paths;
  }

  /** `stored_file_state`: a failing query reads as "not indexed". */
  method StoredFileState(conn: Connection, w: World, path: string) returns (row: Option<FileRow>)
    requires conn.Valid()
    modifies conn`clock, conn`faults
    ensures conn.Valid() && conn.faults >= old(conn.faults)
    ensures row.Some? ==> row == Lookup(conn.work.files, (w.repoId, path))
    ensures conn.faults == old(conn.faults) ==> row == Lookup(conn.work.files, (w.repoId, path))
  {
    var o := conn.Query();
    row := if o.Ok? then Lookup(conn.work.files, (w.repoId, path)) else None;
  }

  function Surviving(before: Snapshot, target: Snapshot): Snapshot {
    map p | p in before && p in target :: before[p]
  }

  /** `before` without the paths of `seen` that the walk does not have. */
  function Kept(before: Snapshot, target: Snapshot, seen: seq<string>): Snapshot {
    map p | p in before && (p in target || p !in seen) :: before[p]
  }

  /** Drops every stored file the walk no longer has. */
  method RemoveVanished(conn: Connection, w: World, walked: seq<WalkedFile>, e: Embedder, ghost before: Snapshot)
    returns (o: Outcome)
    requires conn.Valid() && !conn.inTxn
    requires Stored(w, conn.disk, State(before, w.repoId, e))
    modifies conn
    ensures conn.Valid() && conn.faults >= old(conn.faults) && old(conn.trace) <= conn.trace
    ensures Staged(w, conn.trace, |old(conn.trace)|, false, before, Target(walked))
    ensures AllStamped(e, old(conn.disk), conn.trace, |old(conn.trace)|)
    ensures o.Ok? ==>
              && !conn.inTxn && conn.faults == old(conn.faults)
              && Stored(w, conn.disk, State(Surviving(before, Target(walked)), w.repoId, e))
              && SameSettings(conn.disk, old(conn.disk))
              && (before.Keys <= Target(walked).Keys ==> conn.disk == old(conn.disk))
    ensures o.Fail? ==> o.error == Fault && conn.faults > old(conn.faults)
  {
    hide Stored, Holds, Bound, Between, StampedBy;
    var walkedPaths := set i | 0 <= i < |walked| :: walked[i].path;
    ghost var target := Target(walked);
    forall p
      ensures p in walkedPaths <==> p in target
    {
      TargetOf(walked, p);
    }
    var paths;
    o, paths := StoredFilePaths(conn, w);
    if o.Fail? {
      return;
    }
    RecordedPaths(w, conn.disk, State(before, w.repoId, e));
    ghost var snaps := KeptSteps(before, target, paths);
    for j := 0 to |paths|
      invariant conn.Valid() && !conn.inTxn && old(conn.trace) <= conn.trace
      invariant conn.faults == old(conn.faults)
      invariant Staged(w, conn.trace, |old(conn.trace)|, false, before, target)
      invariant AllStamped(e, old(conn.disk), conn.trace, |old(conn.trace)|)
      invariant Stored(w, conn.disk, State(snaps[j], w.repoId, e))
      invariant SameSettings(conn.disk, old(conn.disk))
      invariant before.Keys <= target.Keys ==> conn.disk == old(conn.disk)
    {
      assert paths[j] in before;
      if paths[j] !in walkedPaths {
        ghost var trace := conn.trace;
        :- RemoveFile(conn, w, paths[j], State(snaps[j], w.repoId, e));
        StagedNext(w, trace, conn.disk, |old(conn.trace)|, false, before, target, State(snaps[j + 1], w.repoId, e));
        StampedNext(e, old(conn.disk), trace, conn.disk, |old(conn.trace)|);
      }
    }
    return Ok;
  }

  lemma RecordedPaths(w: World, db: Db, s: State)
    requires Stored(w, db, s)
    ensures forall p :: (s.owner, p) in db.files <==> p in s.snap
  {
  }

  /** The snapshots a removal pass goes through, from all stored files to the surviving ones. */
  lemma KeptSteps(before: Snapshot, target: Snapshot, paths: seq<string>) returns (snaps: seq<Snapshot>)
    requires forall p :: p in paths <==> p in before
    ensures |snaps| == |paths| + 1
    ensures snaps[0] == before && snaps[|paths|] == Surviving(before, target)
    ensures forall j :: 0 <= j < |paths| ==>
              snaps[j + 1] == if paths[j] in target then snaps[j] else snaps[j] - {paths[j]}
    ensures forall j :: 0 <= j <= |paths| ==> Between(false, before, target, snaps[j])
  {
    snaps := seq(|paths| + 1, j requires 0 <= j <= |paths| => Kept(before, target, paths[..j]));
    assert paths[..0] == [] && paths[..|paths|] == paths;
    forall j | 0 <= j < |paths|
      ensures snaps[j + 1] == if paths[j] in target then snaps[j] else snaps[j] - {paths[j]}
    {
      assert paths[..j + 1] == paths[..j] + [paths[j]];
    }
  }

  /** The snapshot after the first `n` walked files of an incremental run. */
  function Merged(before: Snapshot, walked: seq<WalkedFile>, n: nat): Snapshot
    requires n <= |walked|
  {
    var target := Target(walked);
    var done := Target(walked[..n]);
    map p | p in target && (p in done || p in before) :: if p in done then target[p] else before[p]
  }

  lemma MergedEnds(before: Snapshot, walked: seq<WalkedFile>)
    ensures Merged(before, walked, 0) == Surviving(before, Target(walked))
    ensures Merged(before, walked, |walked|) == Target(walked)
  {
    assert walked[..|walked|] == walked;
    assert Merged(before, walked, 0).Keys == Surviving(before, Target(walked)).Keys;
  }

  lemma MergedNext(before: Snapshot, walked: seq<WalkedFile>, i: nat)
    requires i < |walked| && DistinctPaths(walked)
    ensures Merged(before, walked, i + 1) == Merged(before, walked, i)[walked[i].path := walked[i].content]
    ensures Lookup(Merged(before, walked, i), walked[i].path) == Lookup(before, walked[i].path)
  {
    var path := walked[i].path;
    TargetNext(walked, i);
    TargetOf(walked, path);
    TargetOf(walked[..i], path);
    assert path !in Target(walked[..i]);
    assert path in Target(walked) && Target(walked)[path] == walked[i].content;
  }

  lemma MergedIsBetween(before: Snapshot, walked: seq<WalkedFile>, n: nat)
    requires n <= |walked|
    ensures Between(false, before, Target(walked), Merged(before, walked, n))
  {
    forall p
      ensures Lookup(Merged(before, walked, n), p) == Lookup(before, p)
           || Lookup(Merged(before, walked, n), p) == Lookup(Target(walked), p)
    {
    }
  }

  /** The snapshots an incremental run passes through, from the surviving files to the target. */
  lemma MergedSteps(before: Snapshot, walked: seq<WalkedFile>) returns (snaps: seq<Snapshot>)
    requires DistinctPaths(walked)
    ensures |snaps| == |walked| + 1
    ensures snaps[0] == Surviving(before, Target(walked)) && snaps[|walked|] == Target(walked)
    ensures forall i :: 0 <= i < |walked| ==>
              && snaps[i + 1] == snaps[i][walked[i].path := walked[i].content]
              && (Current(snaps[i], walked[i]) <==> Current(before, walked[i]))
    ensures forall i :: 0 <= i <= |walked| ==> Between(false, before, Target(walked), snaps[i])
  {
    snaps := seq(|walked| + 1, i requires 0 <= i <= |walked| => Merged(before, walked, i));
    MergedEnds(before, walked);
    forall i | 0 <= i < |walked|
      ensures snaps[i + 1] == snaps[i][walked[i].path := walked[i].content]
      ensures Current(snaps[i], walked[i]) <==> Current(before, walked[i])
    {
      MergedNext(before, walked, i);
    }
    forall i | 0 <= i <= |walked|
      ensures Between(false, before, Target(walked), snaps[i])
    {
      MergedIsBetween(before, walked, i);
    }
  }

  /** The authoritative check: the stored hash is the walked content's exactly when the index
      holds that content. */
  lemma StoredHashDecides(w: World, db: Db, s: State, file: WalkedFile, row: Option<FileRow>)
    requires w.Sound() && FilesMatch(w, db.files, s.snap, w.repoId)
    requires row.Some? ==> row == Lookup(db.files, (w.repoId, file.path))
    ensures row.Some? ==> (row.value.hash == w.hash(file.content) <==> Current(s.snap, file))
    ensures Lookup(db.files, (w.repoId, file.path)).None? <==> file.path !in s.snap
  {
  }

  lemma UpdateNoOp(snap: Snapshot, file: WalkedFile)
    requires Current(snap, file)
    ensures snap[file.path := file.content] == snap
  {
  }

  /** One turn of the incremental loop: the file is skipped or rewritten. */
  method UpdateFile(conn: Connection, w: World, e: Embedder, file: WalkedFile, ghost snap: Snapshot)
    returns (o: Outcome, changed: bool, written: nat)
    requires conn.Valid() && !conn.inTxn && w.Sound()
    requires Stored(w, conn.disk, State(snap, w.repoId, e)) && ReadMeta(conn.disk) == Some(e)
    modifies conn
    ensures conn.Valid() && conn.faults >= old(conn.faults)
    ensures o.Ok? ==>
              && !conn.inTxn
              && conn.trace == (if changed then old(conn.trace) + [conn.disk] else old(conn.trace))
              && Stored(w, conn.disk, State(snap[file.path := file.content], w.repoId, e))
              && SameSettings(conn.disk, old(conn.disk))
              && written == (if changed then |w.chunk(file.path, file.content)| else 0)
              && (Current(snap, file) && conn.faults == old(conn.faults) ==> !changed)
              && (!Current(snap, file) ==> changed)
              && (!changed ==> conn.disk == old(conn.disk))
    ensures o.Fail? ==>
              && conn.trace == old(conn.trace)
              && Explained(w, e, file, old(conn.disk).width, o.error, conn.faults > old(conn.faults))
              && (Current(snap, file) ==> conn.faults > old(conn.faults))
  {
    changed, written := false, 0;
    var hash := w.hash(file.content);
    var stored := StoredFileState(conn, w, file.path);
    StoredHashDecides(w, conn.disk, State(snap, w.repoId, e), file, stored);
    if stored.Some? && stored.value.hash == hash {
      UpdateNoOp(snap, file);
      return Ok, false, 0;
    }
    o, written := ReprocessFile(conn, w, e, file, hash, State(snap, w.repoId, e));
    changed := true;
  }

  /** The loop of an incremental run, after the vanished files are gone. */
  method UpdateChanged(conn: Connection, w: World, walked: seq<WalkedFile>, e: Embedder, ghost before: Snapshot)
    returns (o: Outcome, report: Report)
    requires conn.Valid() && !conn.inTxn && w.Sound() && DistinctPaths(walked)
    requires Stored(w, conn.disk, State(Surviving(before, Target(walked)), w.repoId, e)) && ReadMeta(conn.disk) == Some(e)
    modifies conn
    ensures conn.Valid() && conn.faults >= old(conn.faults) && old(conn.trace) <= conn.trace
    ensures Staged(w, conn.trace, |old(conn.trace)|, false, before, Target(walked))
    ensures AllStamped(e, old(conn.disk), conn.trace, |old(conn.trace)|)
    ensures o.Ok? ==>
              && !conn.inTxn
              && Stored(w, conn.disk, State(Target(walked), w.repoId, e)) && ReadMeta(conn.disk) == Some(e)
              && (conn.faults == old(conn.faults) ==> report == ExpectedReport(w, before, walked, true))
              && (report.filesIndexed == 0 ==> conn.disk == old(conn.disk))
    ensures o.Fail? ==> WalkExplained(w, e, before, walked, old(conn.disk).width, o.error, conn.faults > old(conn.faults))
  {
    hide Stored, Holds, Bound, Between, StampedBy;
    report := Report(0, 0, true);
    ghost var fileTally, chunkTally := Tally(w, before, walked, true);
    var filesIndexed, chunks := 0, 0;
    ghost var snaps := MergedSteps(before, walked);
    for i := 0 to |walked|
      invariant conn.Valid() && !conn.inTxn && old(conn.trace) <= conn.trace && conn.faults >= old(conn.faults)
      invariant Staged(w, conn.trace, |old(conn.trace)|, false, before, Target(walked))
      invariant AllStamped(e, old(conn.disk), conn.trace, |old(conn.trace)|)
      invariant Stored(w, conn.disk, State(snaps[i], w.repoId, e))
      invariant SameSettings(conn.disk, old(conn.disk))
      invariant conn.faults == old(conn.faults) ==> filesIndexed == fileTally[i] && chunks == chunkTally[i]
      invariant filesIndexed == 0 ==> conn.disk == old(conn.disk)
    {
      ghost var trace := conn.trace;
      var result, changed, written := UpdateFile(conn, w, e, walked[i], snaps[i]);
      if result.Fail? {
        return result, report;
      }
      if changed {
        StagedNext(w, trace, conn.disk, |old(conn.trace)|, false, before, Target(walked),
                   State(snaps[i + 1], w.repoId, e));
        StampedNext(e, old(conn.disk), trace, conn.disk, |old(conn.trace)|);
        filesIndexed := filesIndexed + 1;
      }
      chunks := chunks + written;
    }
    return Ok, Report(filesIndexed, chunks, true);
  }

  /** `verify_embedder_meta` */
  method VerifyEmbedderMeta(conn: Connection, e: Embedder) returns (o: Outcome)
    requires conn.Valid() && !conn.inTxn
    modifies conn`clock, conn`faults
    ensures conn.Valid() && conn.faults >= old(conn.faults)
    ensures o.Ok? ==> conn.faults == old(conn.faults) && GatePasses(conn.disk, e)
    ensures o.Fail? ==>
              || (o.error == EmbedderMismatch && !GatePasses(conn.disk, e))
              || (o.error == Fault && conn.faults > old(conn.faults))
  {
    o := Ok;
    :- conn.Query();
    var stored := ReadMeta(conn.work);
    if stored.Some? && stored.value != e {
      return Fail(EmbedderMismatch);
    }
    return Ok;
  }

  /** The gate and the first stamp of an incremental run. A never-stamped index is stamped while
      it holds no vector; an index stamped by another embedder is refused. */
  method VerifyAndStamp(conn: Connection, w: World, e: Embedder, ghost s: State) returns (o: Outcome)
    requires conn.Valid() && !conn.inTxn && Stored(w, conn.disk, s)
    modifies conn
    ensures conn.Valid() && conn.faults >= old(conn.faults) && !conn.inTxn && old(conn.trace) <= conn.trace
    ensures forall i :: |old(conn.trace)| <= i < |conn.trace| ==>
              && Stored(w, conn.trace[i], s.(madeBy := e)) && MetaAside(conn.trace[i], old(conn.disk))
              && StampedBy(e, old(conn.disk), conn.trace[i])
    ensures o.Ok? ==>
              && conn.faults == old(conn.faults)
              && Stored(w, conn.disk, s.(madeBy := e)) && ReadMeta(conn.disk) == Some(e)
              && MetaAside(conn.disk, old(conn.disk))
              && (ReadMeta(old(conn.disk)) == Some(e) ==> conn.disk == old(conn.disk))
    ensures o.Fail? ==>
              || (o.error == EmbedderMismatch && conn.disk == old(conn.disk) && !GatePasses(conn.disk, e))
              || (o.error == Fault && conn.faults > old(conn.faults))
    ensures !GatePasses(old(conn.disk), e) ==> conn.disk == old(conn.disk) && conn.trace == old(conn.trace)
  {
    o := Ok;
    :- VerifyEmbedderMeta(conn, e);
    :- conn.Query();
    if conn.disk.vec == map[] {
      UnstampedIsStored(w, conn.disk, conn.disk, s, e);
    }
    if ReadMeta(conn.work) == None {
      ghost var start := conn.disk;
      o := WriteEmbedderMeta(conn, e);
      forall i | |old(conn.trace)| <= i < |conn.trace|
        ensures Stored(w, conn.trace[i], s.(madeBy := e))
      {
        UnstampedIsStored(w, conn.trace[i], start, s, e);
      }
      return;
    }
    return Ok;
  }

  /** Wipe and stamp, the start of a forced run. */
  method WipeAndStamp(conn: Connection, w: World, e: Embedder, ghost before: Snapshot, ghost target: Snapshot)
    returns (o: Outcome)
    requires conn.Valid() && !conn.inTxn
    modifies conn
    ensures conn.Valid() && conn.faults >= old(conn.faults) && old(conn.trace) <= conn.trace
    ensures Staged(w, conn.trace, |old(conn.trace)|, true, before, target)
    ensures AllStamped(e, old(conn.disk), conn.trace, |old(conn.trace)|)
    ensures o.Ok? ==>
              && !conn.inTxn && conn.faults == old(conn.faults)
              && Stored(w, conn.disk, State(map[], w.repoId, e)) && ReadMeta(conn.disk) == Some(e)
              && conn.disk.width == old(conn.disk).width
              && conn.trace == old(conn.trace) + [Wiped(old(conn.disk)), HalfStamped(Wiped(old(conn.disk)), e), conn.disk]
    ensures o.Fail? ==> o.error == Fault && conn.faults > old(conn.faults)
  {
    o := Ok;
    :- WipeAll(conn);
    var stamped := WriteEmbedderMeta(conn, e);
    hide Stored, Stage;
    forall i | |old(conn.trace)| <= i < |conn.trace|
      ensures Stage(w, conn.trace[i], true, before, target)
    {
      EmptyIsStage(w, conn.trace[i], e, before, target);
    }
    if stamped.Ok? {
      EmptyIsStored(w, conn.disk, e);
    }
    return stamped;
  }

  lemma EmptyIsStage(w: World, db: Db, madeBy: Embedder, before: Snapshot, target: Snapshot)
    requires db.chunks == map[] && db.vec == map[] && db.fts == map[] && db.symbols == map[]
    requires db.imports == [] && db.exports == [] && db.files == map[]
    ensures Stage(w, db, true, before, target)
  {
    EmptyIsStored(w, db, madeBy);
    assert Between(true, before, target, map[]);
  }

  /** The wipe-and-rebuild branch. */
  method ForcedRun(conn: Connection, w: World, walked: seq<WalkedFile>, e: Embedder, ghost before: Snapshot)
    returns (o: Outcome, report: Report)
    requires conn.Valid() && !conn.inTxn && w.Sound() && DistinctPaths(walked)
    modifies conn
    ensures conn.Valid() && conn.faults >= old(conn.faults) && old(conn.trace) <= conn.trace
    ensures Staged(w, conn.trace, |old(conn.trace)|, true, before, Target(walked))
    ensures AllStamped(e, old(conn.disk), conn.trace, |old(conn.trace)|)
    ensures o.Ok? ==>
              && !conn.inTxn && conn.faults == old(conn.faults)
              && Stored(w, conn.disk, State(Target(walked), w.repoId, e)) && ReadMeta(conn.disk) == Some(e)
              && report == ExpectedReport(w, map[], walked, false)
              && HalfStamped(Wiped(old(conn.disk)), e) in conn.trace
    ensures o.Fail? ==> WalkExplained(w, e, map[], walked, old(conn.disk).width, o.error, conn.faults > old(conn.faults))
  {
    hide Stored, Stage, Wiped;
    report := Report(0, 0, false);
    :- WipeAndStamp(conn, w, e, before, Target(walked));
    ghost var stamped := conn.trace;
    assert stamped[|old(conn.trace)| + 1] == HalfStamped(Wiped(old(conn.disk)), e);
    o, report := RebuildAll(conn, w, walked, e, before);
    assert conn.trace[|old(conn.trace)| + 1] == stamped[|old(conn.trace)| + 1];
    StampedThen(e, old(conn.disk), stamped[|stamped| - 1], conn.trace, |old(conn.trace)|, |stamped|);
  }

  /** The hash-diff branch. */
  method IncrementalRun(conn: Connection, w: World, walked: seq<WalkedFile>, e: Embedder, ghost s: State)
    returns (o: Outcome, report: Report)
    requires conn.Valid() && !conn.inTxn && w.Sound() && DistinctPaths(walked)
    requires Stored(w, conn.disk, s) && s.owner == w.repoId
    modifies conn
    ensures conn.Valid() && conn.faults >= old(conn.faults) && old(conn.trace) <= conn.trace
    ensures Staged(w, conn.trace, |old(conn.trace)|, false, s.snap, Target(walked))
    ensures AllStamped(e, old(conn.disk), conn.trace, |old(conn.trace)|)
    ensures o.Ok? ==>
              && !conn.inTxn
              && Stored(w, conn.disk, State(Target(walked), w.repoId, e)) && ReadMeta(conn.disk) == Some(e)
              && (conn.faults == old(conn.faults) ==> report == ExpectedReport(w, s.snap, walked, true))
              && (UpToDate(s.snap, walked) && ReadMeta(old(conn.disk)) == Some(e) && report.filesIndexed == 0 ==>
                    conn.disk == old(conn.disk))
    ensures o.Fail? ==>
              || (o.error == EmbedderMismatch && !GatePasses(old(conn.disk), e))
              || WalkExplained(w, e, s.snap, walked, old(conn.disk).width, o.error, conn.faults > old(conn.faults))
    ensures !GatePasses(old(conn.disk), e) ==> o.Fail? && conn.disk == old(conn.disk)
  {
    hide Stored, Holds, Bound, Between, Stage;
    report := Report(0, 0, true);
    ghost var before, target := s.snap, Target(walked);
    o := VerifyAndStamp(conn, w, e, s);
    StampsAreStaged(w, conn.trace, |old(conn.trace)|, s.(madeBy := e), target);
    if o.Fail? {
      return;
    }
    ghost var start, stamped, count := old(conn.disk), conn.disk, |conn.trace|;
    assert StampedBy(e, start, stamped);
    o := RemoveVanished(conn, w, walked, e, before);
    StampedThen(e, start, stamped, conn.trace, |old(conn.trace)|, count);
    if o.Fail? {
      return;
    }
    ghost var removed, count' := conn.disk, |conn.trace|;
    assert StampedBy(e, start, removed);
    hide StampedBy;
    o, report := UpdateChanged(conn, w, walked, e, before);
    StampedThen(e, start, removed, conn.trace, |old(conn.trace)|, count');
  }

  /** The index holds exactly what the walk found. */
  predicate UpToDate(snap: Snapshot, walked: seq<WalkedFile>) {
    snap == Target(walked)
  }

  lemma StampsAreStaged(w: World, trace: seq<Db>, from: nat, s: State, target: Snapshot)
    requires forall i :: from <= i < |trace| ==> Stored(w, trace[i], s)
    ensures Staged(w, trace, from, false, s.snap, target)
  {
    assert Between(false, s.snap, target, s.snap);
  }

  // ---------------------------------------------------------------------------------------
  // When a run succeeds
  // ---------------------------------------------------------------------------------------

  /** Every walked file parses, and there are no vectors to write or they are as wide as the table. */
  ghost predicate Writable(w: World, walked: seq<WalkedFile>, e: Embedder, width: nat) {
    && (forall i :: 0 <= i < |walked| ==> w.StructureOf(walked[i].path, walked[i].content).Some?)
    && (e.dim == width || forall i :: 0 <= i < |walked| ==> w.chunk(walked[i].path, walked[i].content) == [])
  }

  /** The gate lets the run through, or is not asked, and the walk can be written. */
  ghost predicate CanRun(w: World, db: Db, walked: seq<WalkedFile>, force: bool, e: Embedder) {
    (force || GatePasses(db, e)) && Writable(w, walked, e, db.width)
  }

  lemma StoredIsWritable(w: World, db: Db, walked: seq<WalkedFile>, s: State)
    requires DistinctPaths(walked) && Stored(w, db, s) && s.snap == Target(walked)
    ensures Writable(w, walked, s.madeBy, db.width)
  {
    forall i | 0 <= i < |walked|
      ensures w.StructureOf(walked[i].path, walked[i].content).Some?
      ensures s.madeBy.dim == db.width || w.chunk(walked[i].path, walked[i].content) == []
    {
      var path := walked[i].path;
      TargetOf(walked, path);
      if w.chunk(path, walked[i].content) != [] {
        ChunkHasVector(w, db, s, path);
      }
    }
  }

  lemma ChunkHasVector(w: World, db: Db, s: State, path: string)
    requires Stored(w, db, s) && path in s.snap && w.chunk(path, s.snap[path]) != []
    ensures db.vec != map[]
  {
    var chunks := w.chunk(path, s.snap[path]);
    assert ImageAt(db, path) == Get(Images(w, s.madeBy, s.snap), path);
    assert EntryOf(w, s.madeBy, path, chunks[0]) in EntriesUpTo(w, s.madeBy, path, chunks, |chunks|);
    assert EntryOf(w, s.madeBy, path, chunks[0]) in EntriesOf(db, path);
    var r :| r in db.chunks && db.chunks[r].path == path;
    assert r in db.vec;
  }

  lemma FaultExplains(w: World, e: Embedder, before: Snapshot, walked: seq<WalkedFile>, width: nat)
    ensures WalkExplained(w, e, before, walked, width, Fault, true)
  {
  }

  lemma WritableIsNotRefused(w: World, e: Embedder, before: Snapshot, walked: seq<WalkedFile>, width: nat, error: Error)
    requires Writable(w, walked, e, width)
    ensures !WalkExplained(w, e, before, walked, width, error, false)
  {
  }

  /** `reindex_with`. Every state it leaves on disk, at whatever statement it stops, is well formed
      with each file as before, as walked, or (in a forced run) absent; on success the index holds
      exactly the walk, embedded by `e`. */
  method Reindex(conn: Connection, w: World, walked: seq<WalkedFile>, force: bool, e: Embedder, ghost s: State)
    returns (o: Outcome, report: Report)
    requires conn.Valid() && !conn.inTxn && w.Sound() && DistinctPaths(walked)
    requires Stored(w, conn.disk, s)
    modifies conn
    ensures conn.Valid() && conn.faults >= old(conn.faults) && old(conn.trace) <= conn.trace
    ensures Staged(w, conn.trace, |old(conn.trace)|, force, s.snap, Target(walked))
    ensures AllStamped(e, old(conn.disk), conn.trace, |old(conn.trace)|)
    ensures o.Ok? ==>
              && !conn.inTxn
              && Stored(w, conn.disk, State(Target(walked), w.repoId, e)) && ReadMeta(conn.disk) == Some(e)
              && (conn.faults == old(conn.faults) ==>
                    report == ExpectedReport(w, if force then map[] else s.snap, walked, !force))
              && (!force && UpToDate(s.snap, walked) && s.owner == w.repoId && ReadMeta(old(conn.disk)) == Some(e)
                  && report.filesIndexed == 0
                  ==> conn.disk == old(conn.disk))
    ensures o.Fail? ==>
              || (o.error == EmbedderMismatch && !force && !GatePasses(old(conn.disk), e))
              || WalkExplained(w, e, if force then map[] else s.snap, walked, old(conn.disk).width, o.error,
                               conn.faults > old(conn.faults))
    ensures !force && !GatePasses(old(conn.disk), e) ==>
              o.Fail? && conn.disk.chunks == old(conn.disk.chunks) && conn.disk.vec == old(conn.disk.vec)
    ensures o.Ok? ==> CanRun(w, old(conn.disk), walked, force, e)
    ensures o.Fail? && CanRun(w, old(conn.disk), walked, force, e) ==> !Calm(conn.fails)
  {
    hide Stored, Holds, Bound, Stage, CanRun, WalkExplained, Writable;
    report := Report(0, 0, !force);
    ghost var start, trace, target := conn.disk, conn.trace, Target(walked);
    ghost var owned := State(s.snap, w.repoId, s.madeBy);
    FaultExplains(w, e, if force then map[] else s.snap, walked, start.width);
    :- RewritePlaceholder(conn, w, s);
    ghost var rewritten := conn.trace;
    StagedNext(w, trace, conn.disk, |trace|, force, s.snap, target, owned);
    assert ReadMeta(conn.disk) == ReadMeta(start) && GatePasses(conn.disk, e) == GatePasses(start, e);
    hide Between, SameSettings, ReadMeta, GatePasses, ExpectedReport, Target;
    if force {
      o, report := ForcedRun(conn, w, walked, e, s.snap);
    } else {
      o, report := IncrementalRun(conn, w, walked, e, owned);
    }
    StampedThen(e, start, rewritten[|rewritten| - 1], conn.trace, |trace|, |rewritten|);
    hide AllStamped;
    SuccessIsExplained(w, start, conn.disk, walked, force, e, s.snap, o, conn.faults > old(conn.faults));
  }

  lemma SuccessIsExplained(w: World, db: Db, after: Db, walked: seq<WalkedFile>, force: bool, e: Embedder,
                           before: Snapshot, o: Outcome, faulted: bool)
    requires DistinctPaths(walked) && after.width == db.width
    requires o.Ok? ==> (force || GatePasses(db, e)) && Stored(w, after, State(Target(walked), w.repoId, e))
    requires o.Fail? ==>
               || (!force && !GatePasses(db, e))
               || WalkExplained(w, e, if force then map[] else before, walked, db.width, o.error, faulted)
    ensures o.Ok? ==> CanRun(w, db, walked, force, e)
    ensures o.Fail? && CanRun(w, db, walked, force, e) ==> faulted
  {
    hide Stored, WalkExplained, Writable;
    if o.Ok? {
      StoredIsWritable(w, after, walked, State(Target(walked), w.repoId, e));
    } else if Writable(w, walked, e, db.width) {
      WritableIsNotRefused(w, e, if force then map[] else before, walked, db.width, o.error);
    }
  }

  lemma TagAllSnoc<T>(path: string, items: seq<T>, i: nat)
    requires i < |items|
    ensures TagAll(path, items[..i + 1]) == TagAll(path, items[..i]) + [Tagged(path, items[i])]
    ensures forall rows: seq<Tagged<T>> ::
              rows + TagAll(path, items[..i + 1]) == rows + TagAll(path, items[..i]) + [Tagged(path, items[i])]
  {
  }

  /** Some rowid that is not in use. */
  method FreeRowid(used: set<nat>) returns (r: nat)
    ensures r !in used
  {
    FiniteLeavesRoom(used);
    r :| r !in used;
  }

  lemma {:induction false} FiniteLeavesRoom(used: set<nat>)
    ensures exists r: nat :: r !in used
  {
    var top := UpperBound(used);
    assert top !in used;
  }

  lemma {:induction false} UpperBound(used: set<nat>) returns (top: nat)
    ensures forall r :: r in used ==> r < top
  {
    top := 0;
    if used != {} {
      var r :| r in used;
      var rest := UpperBound(used - {r});
      assert used == (used - {r}) + {r};
      top := if r < rest then rest else r + 1;
    }
  }
}
