/** The tables of the search index and what they mean.

    The abstract state of an index is a snapshot: which files it holds and with which content.
    `Stored` ties the concrete tables, whose rowids are arbitrary, to that snapshot. */
module IndexStore {
  import opened ChunkIds
  import opened Chunker
  import Utf8

  datatype Language = TypeScript | Rust | Python | Go | Bash | Java | C | Ruby | Cpp

  type Vector = seq<real>

  /** The identity of an embedding backend, as recorded in `meta`. */
  datatype Embedder = Embedder(id: string, dim: nat)

  datatype Import = Import(source: string, kind: string, line: nat)
  datatype Export = Export(detail: string, line: nat)
  datatype Structure = Structure(imports: seq<Import>, exports: seq<Export>)

  const PLACEHOLDER_REPO_ID: string := "<MIGRATION_PLACEHOLDER_REPO_ID>"

  /** What the indexer calls: the content hash, the parser, the chunker, the embedding backends,
      the full-text tokenizer and the signature renderer, and the id of this repository's
      canonical root. Of these only the chunker is defined here, in module `Chunker`. */
  datatype World = World(
    repoId: string,
    hash: string -> string,
    language: string -> Option<Language>,
    spans: (string, Language) -> seq<Span>,
    structure: (string, Language) -> Option<Structure>,
    embed: (Embedder, string) -> Vector,
    chunk: (string, string) -> seq<ChunkSpec>,
    tokens: string -> string,
    render: (Signature, string) -> string)
  {
    /** The hash tells contents apart, spans start inside the file, the chunker is the one of
        module `Chunker`, and vectors have their embedder's dimension. */
    ghost predicate Sound() {
      && (forall c, d :: hash(c) == hash(d) ==> c == d)
      && (forall p, c {:trigger FileChunks(c, SpansOf(p, c))} :: chunk(p, c) == FileChunks(c, SpansOf(p, c)))
      && (forall c, l :: ParserContract(spans(c, l), |Lines(c)|))
      && (forall e, t :: |embed(e, t)| == e.dim)
    }

    function SpansOf(path: string, content: string): Option<seq<Span>> {
      match language(path)
      case Some(l) => Some(spans(content, l))
      case None => None
    }

    /** The imports and exports of a file; a file without a known language has none, and a
        parse failure gives no result. */
    function StructureOf(path: string, content: string): Option<Structure> {
      match language(path)
      case Some(l) => structure(content, l)
      case None => Some(Structure([], []))
    }

  }

  // ---------------------------------------------------------------------------------------
  // Tables
  // ---------------------------------------------------------------------------------------

  datatype ChunkRow = ChunkRow(id: string, path: string, start: nat, end: nat, body: string, kind: string)
  datatype SymbolRow = SymbolRow(name: string, signature: string, kind: string, line: nat)
  datatype FileRow = FileRow(hash: string, mtime: int, language: Option<Language>)

  /** A row of a table without a key that records something about a file. */
  datatype Tagged<T> = Tagged(path: string, item: T)

  datatype Db = Db(
    chunks: map<nat, ChunkRow>,
    vec: map<nat, Vector>,
    fts: map<nat, string>,
    symbols: map<string, SymbolRow>,
    imports: seq<Tagged<Import>>,
    exports: seq<Tagged<Export>>,
    files: map<(string, string), FileRow>,
    embedderId: Option<string>,
    embedderDim: Option<nat>,
    width: nat)

  const NO_ROWS: FileImage := FileImage({}, [], [])

  /** Everything the index stores about one chunk, without its rowid. */
  datatype Entry = Entry(row: ChunkRow, vector: Option<Vector>, text: Option<string>, symbol: Option<SymbolRow>)

  /** Everything the index stores about one file, without rowids and bookkeeping. */
  datatype FileImage = FileImage(entries: set<Entry>, imports: seq<Import>, exports: seq<Export>)

  function Lookup<K, V>(m: map<K, V>, k: K): Option<V> {
    if k in m then Some(m[k]) else None
  }

  function EntryAt(db: Db, rowid: nat): Entry
    requires rowid in db.chunks
  {
    var row := db.chunks[rowid];
    Entry(row, Lookup(db.vec, rowid), Lookup(db.fts, rowid), Lookup(db.symbols, row.id))
  }

  ghost function EntriesOf(db: Db, path: string): set<Entry> {
    set r | r in db.chunks && db.chunks[r].path == path :: EntryAt(db, r)
  }

  function Items<T>(rows: seq<Tagged<T>>, path: string): seq<T> {
    if rows == [] then []
    else (if rows[0].path == path then [rows[0].item] else []) + Items(rows[1..], path)
  }

  function Without<T>(rows: seq<Tagged<T>>, path: string): seq<Tagged<T>> {
    if rows == [] then []
    else (if rows[0].path == path then [] else [rows[0]]) + Without(rows[1..], path)
  }

  ghost function ImageAt(db: Db, path: string): FileImage {
    FileImage(EntriesOf(db, path), Items(db.imports, path), Items(db.exports, path))
  }

  function Get(m: map<string, FileImage>, path: string): FileImage {
    if path in m then m[path] else NO_ROWS
  }

  /** The shadow tables have exactly the rowids of `chunks`, ids are unique and name their own
      range, and a symbol belongs to a live chunk. */
  ghost predicate Bound(db: Db) {
    && SameRowids(db.vec, db.chunks) && SameRowids(db.fts, db.chunks)
    && IdsNameRanges(db.chunks) && IdsUnique(db.chunks) && SymbolsLive(db.chunks, db.symbols)
  }

  ghost predicate SameRowids<X, Y>(a: map<nat, X>, b: map<nat, Y>) {
    forall r :: r in a <==> r in b
  }

  ghost predicate IdsNameRanges(chunks: map<nat, ChunkRow>) {
    forall r :: r in chunks ==> chunks[r].id == ChunkId(chunks[r].path, chunks[r].start, chunks[r].end)
  }

  ghost predicate IdsUnique(chunks: map<nat, ChunkRow>) {
    forall r, s :: r in chunks && s in chunks && chunks[r].id == chunks[s].id ==> r == s
  }

  ghost predicate SymbolsLive(chunks: map<nat, ChunkRow>, symbols: map<string, SymbolRow>) {
    forall id :: id in symbols ==> exists r :: r in chunks && chunks[r].id == id
  }

  ghost predicate Holds(db: Db, images: map<string, FileImage>) {
    Bound(db) && forall p :: ImageAt(db, p) == Get(images, p)
  }

  // ---------------------------------------------------------------------------------------
  // What one file contributes
  // ---------------------------------------------------------------------------------------

  /** `ChunkSpec::kind_str` */
  function KindStr(c: ChunkSpec): string {
    match c.kind
    case Module => "module"
    case Window => "window"
    case Symbol =>
      if c.symbol.Some? && c.symbol.value.1 != Function then Keyword(c.symbol.value.1)
      else if c.symbol.Some? && IsMethod(c.symbol.value.0) then "method"
      else "function"
  }

  predicate IsMethod(sig: Signature) {
    sig.parameters != [] && sig.parameters[0].name == "self"
  }

  function Keyword(kind: SymbolKind): string {
    match kind
    case Function => "function"
    case Struct => "struct"
    case Enum => "enum"
    case Trait => "trait"
    case Class => "class"
    case Interface => "interface"
    case TypeAlias => "type"
    case ModuleDecl => "module"
  }

  /** The part of a body that is embedded and tokenized. */
  function Indexed(body: string): string {
    Utf8.LongestPrefix(body, MAX_CHUNK_BYTES)
  }

  function RowOf(path: string, c: ChunkSpec): ChunkRow {
    ChunkRow(IdOf(path, c), path, c.range.start, c.range.end, c.body, KindStr(c))
  }

  function SymbolOf(w: World, c: ChunkSpec): Option<SymbolRow> {
    match c.symbol
    case None => None
    case Some(s) => Some(SymbolRow(s.0.name, w.render(s.0, KindStr(c)), KindStr(c), s.0.line))
  }

  function EntryOf(w: World, e: Embedder, path: string, c: ChunkSpec): Entry {
    Entry(RowOf(path, c), Some(w.embed(e, Indexed(c.body))), Some(w.tokens(Indexed(c.body))), SymbolOf(w, c))
  }

  ghost function EntriesUpTo(w: World, e: Embedder, path: string, chunks: seq<ChunkSpec>, n: nat): set<Entry>
    requires n <= |chunks|
  {
    set i | 0 <= i < n :: EntryOf(w, e, path, chunks[i])
  }

  ghost function ImageOf(w: World, e: Embedder, path: string, content: string): FileImage
    requires w.StructureOf(path, content).Some?
  {
    var chunks := w.chunk(path, content);
    var s := w.StructureOf(path, content).value;
    FileImage(EntriesUpTo(w, e, path, chunks, |chunks|), s.imports, s.exports)
  }

  type Snapshot = map<string, string>

  ghost predicate Indexable(w: World, snap: Snapshot) {
    forall p :: p in snap ==> w.StructureOf(p, snap[p]).Some?
  }

  ghost function Images(w: World, e: Embedder, snap: Snapshot): map<string, FileImage>
    requires Indexable(w, snap)
  {
    map p | p in snap :: ImageOf(w, e, p, snap[p])
  }

  /** The abstract state: the files held, the repository id their bookkeeping rows carry, and
      the embedder that made the vectors. */
  datatype State = State(snap: Snapshot, owner: string, madeBy: Embedder)

  function ReadMeta(db: Db): Option<Embedder> {
    if db.embedderId.Some? && db.embedderDim.Some?
    then Some(Embedder(db.embedderId.value, db.embedderDim.value))
    else None
  }

  ghost predicate FilesMatch(w: World, files: map<(string, string), FileRow>, snap: Snapshot, owner: string) {
    && (forall k :: k in files <==> k.0 == owner && k.1 in snap)
    && (forall p :: p in snap ==>
          files[(owner, p)].hash == w.hash(snap[p]) && files[(owner, p)].language == w.language(p))
  }

  /** The tables hold exactly the snapshot, and stored vectors are vouched for by `meta` and as wide as
      their table. */
  ghost predicate Stored(w: World, db: Db, s: State) {
    && Indexable(w, s.snap)
    && Holds(db, Images(w, s.madeBy, s.snap))
    && FilesMatch(w, db.files, s.snap, s.owner)
    && (s.owner == w.repoId || s.owner == PLACEHOLDER_REPO_ID)
    && (db.vec != map[] ==> ReadMeta(db) == Some(s.madeBy) && s.madeBy.dim == db.width)
  }

  /** Each file is wholly there or wholly absent, and no embeddings are mixed. */
  ghost predicate WellFormed(w: World, db: Db) {
    exists s :: Stored(w, db, s)
  }

  function Empty(width: nat): Db {
    Db(map[], map[], map[], map[], [], [], map[], None, None, width)
  }

  lemma EmptyIsStored(w: World, db: Db, madeBy: Embedder)
    requires db.chunks == map[] && db.vec == map[] && db.fts == map[] && db.symbols == map[]
    requires db.imports == [] && db.exports == [] && db.files == map[]
    ensures Stored(w, db, State(map[], w.repoId, madeBy))
  {
    forall p
      ensures ImageAt(db, p) == NO_ROWS
    {
      assert EntriesOf(db, p) == {};
    }
  }

  // ---------------------------------------------------------------------------------------
  // Rows without a key
  // ---------------------------------------------------------------------------------------

  lemma ItemsHead<T>(rows: seq<Tagged<T>>, path: string)
    requires rows != []
    ensures Items(rows, path) == (if rows[0].path == path then [rows[0].item] else []) + Items(rows[1..], path)
  {
  }

  lemma {:induction false} ItemsAppend<T>(a: seq<Tagged<T>>, b: seq<Tagged<T>>, path: string)
    ensures Items(a + b, path) == Items(a, path) + Items(b, path)
  {
    if a == [] {
      assert a + b == b;
    } else {
      hide Items;
      ItemsAppend(a[1..], b, path);
      TailOfAppend(a, b);
      ItemsHead(a, path);
      ItemsHead(a + b, path);
      Regroup(if a[0].path == path then [a[0].item] else [], Items(a[1..], path), Items(b, path));
    }
  }

  lemma TailOfAppend<T>(a: seq<T>, b: seq<T>)
    requires a != []
    ensures (a + b)[0] == a[0] && (a + b)[1..] == a[1..] + b
  {
  }

  lemma {:induction false} ItemsWithout<T>(rows: seq<Tagged<T>>, path: string, other: string)
    ensures Items(Without(rows, path), other) == if other == path then [] else Items(rows, other)
  {
    if rows != [] {
      ItemsWithout(rows[1..], path, other);
      var head: seq<Tagged<T>> := if rows[0].path == path then [] else [rows[0]];
      ItemsAppend(head, Without(rows[1..], path), other);
      assert Items(head, other) == if rows[0].path == path || rows[0].path != other then [] else [rows[0].item] by {
        if head != [] {
          assert head[1..] == [];
        }
      }
    }
  }

  lemma {:induction false} ItemsOfOne<T>(path: string, items: seq<T>, n: nat, other: string)
    requires n <= |items|
    ensures Items(TagAll(path, items[..n]), other) == if other == path then items[..n] else []
  {
    if n > 0 {
      ItemsOfOne(path, items, n - 1, other);
      assert TagAll(path, items[..n]) == TagAll(path, items[..n - 1]) + [Tagged(path, items[n - 1])];
      ItemsAppend(TagAll(path, items[..n - 1]), [Tagged(path, items[n - 1])], other);
      assert [Tagged(path, items[n - 1])][1..] == [];
    }
  }

  function TagAll<T>(path: string, items: seq<T>): seq<Tagged<T>> {
    seq(|items|, i requires 0 <= i < |items| => Tagged(path, items[i]))
  }

  lemma {:induction false} ItemCount<T>(rows: seq<Tagged<T>>, row: Tagged<T>)
    ensures multiset(rows)[row] == multiset(Items(rows, row.path))[row.item]
  {
    if rows != [] {
      ItemCount(rows[1..], row);
      assert rows == [rows[0]] + rows[1..];
      var head := if rows[0].path == row.path then [rows[0].item] else [];
      assert multiset(Items(rows, row.path)) == multiset(head) + multiset(Items(rows[1..], row.path));
    }
  }

  // ---------------------------------------------------------------------------------------
  // Statements, as functions on the tables
  // ---------------------------------------------------------------------------------------

  /** `rowid IN (SELECT rowid FROM chunks WHERE file_path = path)` */
  predicate OwnedBy(db: Db, rowid: nat, path: string) {
    rowid in db.chunks && db.chunks[rowid].path == path
  }

  function DeleteVec(db: Db, path: string): Db {
    db.(vec := map r | r in db.vec && !OwnedBy(db, r, path) :: db.vec[r])
  }

  function DeleteFts(db: Db, path: string): Db {
    db.(fts := map r | r in db.fts && !OwnedBy(db, r, path) :: db.fts[r])
  }

  function DeleteSymbols(db: Db, path: string): Db {
    var ids := set r | r in db.chunks && db.chunks[r].path == path :: db.chunks[r].id;
    db.(symbols := map id | id in db.symbols && id !in ids :: db.symbols[id])
  }

  function DeleteImports(db: Db, path: string): Db {
    db.(imports := Without(db.imports, path))
  }

  function DeleteExports(db: Db, path: string): Db {
    db.(exports := Without(db.exports, path))
  }

  function DeleteChunks(db: Db, path: string): Db {
    db.(chunks := map r | r in db.chunks && db.chunks[r].path != path :: db.chunks[r])
  }

  /** The deletions of one file, shadow tables first. */
  function DeleteFile(db: Db, path: string): Db {
    DeleteChunks(DeleteExports(DeleteImports(DeleteSymbols(DeleteFts(DeleteVec(db, path), path), path), path), path), path)
  }

  /** The tables after the deletions, row by row. */
  lemma DeleteFileRows(db: Db, path: string, after: Db)
    requires after == DeleteFile(db, path)
    ensures forall r :: r in after.chunks <==> r in db.chunks && db.chunks[r].path != path
    ensures forall r :: r in after.chunks ==> after.chunks[r] == db.chunks[r]
    ensures forall r :: r in after.vec <==> r in db.vec && !OwnedBy(db, r, path)
    ensures forall r :: r in after.vec ==> after.vec[r] == db.vec[r]
    ensures forall r :: r in after.fts <==> r in db.fts && !OwnedBy(db, r, path)
    ensures forall r :: r in after.fts ==> after.fts[r] == db.fts[r]
    ensures forall id :: id in after.symbols <==>
              id in db.symbols && !exists r :: OwnedBy(db, r, path) && db.chunks[r].id == id
    ensures forall id :: id in after.symbols ==> after.symbols[id] == db.symbols[id]
    ensures after.imports == Without(db.imports, path) && after.exports == Without(db.exports, path)
  {
    var ids := set r | r in db.chunks && db.chunks[r].path == path :: db.chunks[r].id;
    assert forall id :: id in ids <==> exists r :: OwnedBy(db, r, path) && db.chunks[r].id == id;
  }

  lemma DeleteFileBound(db: Db, path: string, after: Db)
    requires Bound(db) && after == DeleteFile(db, path)
    ensures Bound(after)
  {
    DeleteFileRows(db, path, after);
    forall id | id in after.symbols
      ensures exists r :: r in after.chunks && after.chunks[r].id == id
    {
      var r :| r in db.chunks && db.chunks[r].id == id;
      assert !OwnedBy(db, r, path);
      assert r in after.chunks;
    }
  }

  lemma DeleteFileEntry(db: Db, path: string, after: Db, r: nat)
    requires Bound(db) && after == DeleteFile(db, path)
    requires r in after.chunks
    ensures r in db.chunks && EntryAt(after, r) == EntryAt(db, r)
  {
    DeleteFileRows(db, path, after);
    var id := db.chunks[r].id;
    assert id in db.symbols ==> id in after.symbols;
  }

  lemma DeleteFileHolds(db: Db, images: map<string, FileImage>, path: string)
    requires Holds(db, images)
    ensures Holds(DeleteFile(db, path), images - {path})
  {
    hide IdsNameRanges, IdsUnique, SymbolsLive, SameRowids, EntriesOf, Items, Without;
    var after := DeleteFile(db, path);
    DeleteFileBound(db, path, after);
    DeleteFileRows(db, path, after);
    forall p
      ensures ImageAt(after, p) == Get(images - {path}, p)
    {
      ItemsWithout(db.imports, path, p);
      ItemsWithout(db.exports, path, p);
      assert ImageAt(db, p) == Get(images, p);
      DeleteKeepsEntries(db, path, after, p);
    }
  }

  lemma DeleteKeepsEntries(db: Db, path: string, after: Db, p: string)
    requires Bound(db) && after == DeleteFile(db, path)
    ensures EntriesOf(after, p) == if p == path then {} else EntriesOf(db, p)
  {
    DeleteFileRows(db, path, after);
    forall r | r in after.chunks
      ensures EntryAt(after, r) == EntryAt(db, r)
    {
      DeleteFileEntry(db, path, after, r);
    }
    if p != path {
      assert forall r :: r in after.chunks && after.chunks[r].path == p <==> r in db.chunks && db.chunks[r].path == p;
    }
  }

  /** The four rows of one chunk, bound to one fresh rowid. */
  function InsertEntry(db: Db, rowid: nat, entry: Entry): Db
    requires entry.vector.Some? && entry.text.Some?
  {
    db.(chunks := db.chunks[rowid := entry.row],
        vec := db.vec[rowid := entry.vector.value],
        fts := db.fts[rowid := entry.text.value],
        symbols := if entry.symbol.Some? then db.symbols[entry.row.id := entry.symbol.value] else db.symbols)
  }

  predicate IdTaken(db: Db, id: string) {
    exists r :: r in db.chunks && db.chunks[r].id == id
  }

  lemma InsertEntryBound(db: Db, rowid: nat, entry: Entry, after: Db)
    requires Bound(db) && rowid !in db.chunks
    requires entry.vector.Some? && entry.text.Some? && after == InsertEntry(db, rowid, entry)
    requires entry.row.id == ChunkId(entry.row.path, entry.row.start, entry.row.end)
    requires !IdTaken(db, entry.row.id)
    ensures Bound(after)
  {
    var chunks := db.chunks[rowid := entry.row];
    assert IdsNameRanges(chunks);
    assert IdsUnique(chunks);
    InsertKeepsSymbolsLive(db.chunks, db.symbols, rowid, entry.row, chunks, after.symbols);
  }

  lemma InsertKeepsSymbolsLive(chunks: map<nat, ChunkRow>, symbols: map<string, SymbolRow>, rowid: nat, row: ChunkRow,
                               chunks': map<nat, ChunkRow>, symbols': map<string, SymbolRow>)
    requires SymbolsLive(chunks, symbols) && rowid !in chunks
    requires chunks' == chunks[rowid := row]
    requires forall id :: id in symbols' ==> id in symbols || id == row.id
    ensures SymbolsLive(chunks', symbols')
  {
    forall id | id in symbols'
      ensures exists r :: r in chunks' && chunks'[r].id == id
    {
      if id == row.id {
        assert chunks'[rowid].id == id;
      } else {
        var r :| r in chunks && chunks[r].id == id;
        assert chunks'[r].id == id;
      }
    }
  }

  lemma InsertEntryEntry(db: Db, rowid: nat, entry: Entry, after: Db, r: nat)
    requires Bound(db) && rowid !in db.chunks && r in after.chunks
    requires entry.vector.Some? && entry.text.Some? && after == InsertEntry(db, rowid, entry)
    requires !IdTaken(db, entry.row.id)
    ensures if r == rowid then EntryAt(after, r) == entry else r in db.chunks && EntryAt(after, r) == EntryAt(db, r)
  {
    assert entry.row.id !in db.symbols;
  }

  lemma InsertEntryHolds(db: Db, images: map<string, FileImage>, rowid: nat, entry: Entry)
    requires Holds(db, images) && rowid !in db.chunks
    requires entry.vector.Some? && entry.text.Some?
    requires entry.row.id == ChunkId(entry.row.path, entry.row.start, entry.row.end)
    requires !IdTaken(db, entry.row.id)
    ensures Holds(InsertEntry(db, rowid, entry), WithEntry(images, entry))
  {
    hide IdsNameRanges, IdsUnique, SymbolsLive, SameRowids, EntriesOf, IdTaken;
    var after := InsertEntry(db, rowid, entry);
    InsertEntryBound(db, rowid, entry, after);
    forall r | r in after.chunks
      ensures if r == rowid then EntryAt(after, r) == entry else r in db.chunks && EntryAt(after, r) == EntryAt(db, r)
    {
      InsertEntryEntry(db, rowid, entry, after, r);
    }
    forall p
      ensures ImageAt(after, p) == Get(WithEntry(images, entry), p)
    {
      assert ImageAt(db, p) == Get(images, p);
      InsertAddsEntry(db, rowid, entry, after, p);
    }
  }

  function WithEntry(images: map<string, FileImage>, entry: Entry): map<string, FileImage> {
    var image := Get(images, entry.row.path);
    images[entry.row.path := image.(entries := image.entries + {entry})]
  }

  lemma InsertAddsEntry(db: Db, rowid: nat, entry: Entry, after: Db, p: string)
    requires rowid !in db.chunks && rowid in after.chunks
    requires after.chunks == db.chunks[rowid := entry.row]
    requires EntryAt(after, rowid) == entry
    requires forall r :: r in db.chunks ==> EntryAt(after, r) == EntryAt(db, r)
    ensures EntriesOf(after, p) == EntriesOf(db, p) + if p == entry.row.path then {entry} else {}
  {
    forall x | x in EntriesOf(db, p)
      ensures x in EntriesOf(after, p)
    {
      var r :| r in db.chunks && db.chunks[r].path == p && x == EntryAt(db, r);
      assert EntryAt(after, r) == x;
    }
    if p == entry.row.path {
      assert EntryAt(after, rowid) in EntriesOf(after, p);
    }
  }

  /** A stored chunk of the file is one of the chunks inserted so far. */
  lemma RowIsEarlierChunk(w: World, e: Embedder, db: Db, images: map<string, FileImage>, path: string,
                          content: string, n: nat, r: nat) returns (i: nat)
    requires Holds(db, images) && n <= |w.chunk(path, content)|
    requires Get(images, path).entries == EntriesUpTo(w, e, path, w.chunk(path, content), n)
    requires r in db.chunks && db.chunks[r].path == path
    ensures i < n && db.chunks[r].id == IdOf(path, w.chunk(path, content)[i])
  {
    assert EntryAt(db, r) in EntriesOf(db, path);
    assert ImageAt(db, path) == Get(images, path);
    i :| 0 <= i < n && EntryAt(db, r) == EntryOf(w, e, path, w.chunk(path, content)[i]);
  }

  /** A chunk of a file whose earlier chunks alone have been inserted has a free id. */
  lemma NextIdFree(w: World, e: Embedder, db: Db, images: map<string, FileImage>, path: string, content: string, n: nat)
    requires w.Sound() && Holds(db, images)
    requires n < |w.chunk(path, content)|
    requires Get(images, path).entries == EntriesUpTo(w, e, path, w.chunk(path, content), n)
    ensures !IdTaken(db, IdOf(path, w.chunk(path, content)[n]))
  {
    var chunks := w.chunk(path, content);
    assert chunks == FileChunks(content, w.SpansOf(path, content));
    ChunkIdsDistinct(path, content, w.SpansOf(path, content));
    forall r | r in db.chunks
      ensures db.chunks[r].id != IdOf(path, chunks[n])
    {
      var row := db.chunks[r];
      if row.path == path {
        var i := RowIsEarlierChunk(w, e, db, images, path, content, n, r);
      } else {
        if row.id == IdOf(path, chunks[n]) {
          ChunkIdInjective(row.path, row.start, row.end, path, chunks[n].range.start, chunks[n].range.end);
        }
      }
    }
  }

  function AppendItems(db: Db, path: string, imports: seq<Import>, exports: seq<Export>): Db {
    db.(imports := db.imports + TagAll(path, imports), exports := db.exports + TagAll(path, exports))
  }

  lemma AppendItemsHolds(db: Db, images: map<string, FileImage>, path: string,
                         imports: seq<Import>, exports: seq<Export>)
    requires Holds(db, images)
    requires Get(images, path).imports == [] && Get(images, path).exports == []
    ensures Holds(AppendItems(db, path, imports, exports),
                  images[path := FileImage(Get(images, path).entries, imports, exports)])
  {
    hide IdsNameRanges, IdsUnique, SymbolsLive, SameRowids, EntriesOf, Items, TagAll;
    var after := AppendItems(db, path, imports, exports);
    forall p
      ensures ImageAt(after, p) == Get(images[path := FileImage(Get(images, path).entries, imports, exports)], p)
    {
      assert ImageAt(db, p) == Get(images, p);
      ItemsAppend(db.imports, TagAll(path, imports), p);
      ItemsAppend(db.exports, TagAll(path, exports), p);
      ItemsOfOne(path, imports, |imports|, p);
      ItemsOfOne(path, exports, |exports|, p);
      assert imports[..|imports|] == imports && exports[..|exports|] == exports;
      SameChunksSameEntries(db, after, p);
    }
  }

  lemma SameChunksSameEntries(a: Db, b: Db, p: string)
    requires a.chunks == b.chunks && a.vec == b.vec && a.fts == b.fts && a.symbols == b.symbols
    ensures EntriesOf(a, p) == EntriesOf(b, p)
  {
    assert forall r :: r in a.chunks ==> EntryAt(a, r) == EntryAt(b, r);
  }

  lemma ChunksGiveEntries(w: World, e: Embedder, path: string, chunks: seq<ChunkSpec>)
    ensures EntriesUpTo(w, e, path, chunks, |chunks|) == {} <==> chunks == []
  {
    if chunks != [] {
      assert EntryOf(w, e, path, chunks[0]) in EntriesUpTo(w, e, path, chunks, |chunks|);
    }
  }

  /** An index without vectors holds no chunk, so any embedder can claim it. */
  lemma EmptyVecAnyEmbedder(w: World, db: Db, s: State, madeBy: Embedder)
    requires Stored(w, db, s) && db.vec == map[]
    ensures Stored(w, db, s.(madeBy := madeBy))
  {
    assert forall r :: r !in db.chunks;
    forall p | p in s.snap
      ensures ImageOf(w, madeBy, p, s.snap[p]) == ImageOf(w, s.madeBy, p, s.snap[p])
    {
      var chunks := w.chunk(p, s.snap[p]);
      assert ImageAt(db, p) == Get(Images(w, s.madeBy, s.snap), p);
      assert EntriesOf(db, p) == {};
      ChunksGiveEntries(w, s.madeBy, p, chunks);
      ChunksGiveEntries(w, madeBy, p, chunks);
    }
    assert Images(w, madeBy, s.snap) == Images(w, s.madeBy, s.snap);
  }

  // ---------------------------------------------------------------------------------------
  // What a reader of the index can observe
  // ---------------------------------------------------------------------------------------

  /** The index without rowids, row order and mtimes. */
  datatype View = View(
    entries: set<Entry>,
    symbols: map<string, SymbolRow>,
    imports: multiset<Tagged<Import>>,
    exports: multiset<Tagged<Export>>,
    files: map<(string, string), (string, Option<Language>)>)

  ghost function ViewOf(db: Db): View {
    View(set r | r in db.chunks :: EntryAt(db, r),
         db.symbols,
         multiset(db.imports),
         multiset(db.exports),
         map k | k in db.files :: (db.files[k].hash, db.files[k].language))
  }

  lemma SameItemsSameRows<T>(a: seq<Tagged<T>>, b: seq<Tagged<T>>)
    requires forall p :: Items(a, p) == Items(b, p)
    ensures multiset(a) == multiset(b)
  {
    forall row: Tagged<T>
      ensures multiset(a)[row] == multiset(b)[row]
    {
      ItemCount(a, row);
      ItemCount(b, row);
      assert Items(a, row.path) == Items(b, row.path);
    }
  }

  lemma EntryFoundAgain(a: Db, b: Db, r: nat) returns (r': nat)
    requires r in a.chunks && SameImages(a, b)
    ensures r' in b.chunks && EntryAt(b, r') == EntryAt(a, r)
  {
    var p := a.chunks[r].path;
    assert ImageAt(a, p) == ImageAt(b, p);
    assert EntryAt(a, r) in EntriesOf(b, p);
    r' :| r' in b.chunks && b.chunks[r'].path == p && EntryAt(b, r') == EntryAt(a, r);
  }

  lemma SymbolFoundAgain(a: Db, b: Db, id: string)
    requires Bound(a) && Bound(b) && SameImages(a, b)
    requires id in a.symbols
    ensures id in b.symbols && b.symbols[id] == a.symbols[id]
  {
    var r :| r in a.chunks && a.chunks[r].id == id;
    var r' := EntryFoundAgain(a, b, r);
  }

  ghost predicate SameImages(a: Db, b: Db) {
    forall p :: ImageAt(a, p) == ImageAt(b, p)
  }

  lemma SameImagesSameEntries(a: Db, b: Db)
    requires SameImages(a, b)
    ensures ViewOf(a).entries <= ViewOf(b).entries
  {
    forall r | r in a.chunks
      ensures EntryAt(a, r) in ViewOf(b).entries
    {
      var r' := EntryFoundAgain(a, b, r);
    }
  }

  lemma SameImagesSameSymbols(a: Db, b: Db)
    requires Bound(a) && Bound(b) && SameImages(a, b)
    ensures a.symbols == b.symbols
  {
    forall id | id in a.symbols
      ensures id in b.symbols && b.symbols[id] == a.symbols[id]
    {
      SymbolFoundAgain(a, b, id);
    }
    forall id | id in b.symbols
      ensures id in a.symbols
    {
      SymbolFoundAgain(b, a, id);
    }
  }

  lemma SameImagesSameItems(a: Db, b: Db)
    requires SameImages(a, b)
    ensures multiset(a.imports) == multiset(b.imports) && multiset(a.exports) == multiset(b.exports)
  {
    forall p
      ensures Items(a.imports, p) == Items(b.imports, p) && Items(a.exports, p) == Items(b.exports, p)
    {
      assert ImageAt(a, p) == ImageAt(b, p);
    }
    SameItemsSameRows(a.imports, b.imports);
    SameItemsSameRows(a.exports, b.exports);
  }

  /** The abstract state determines everything a reader can observe. */
  lemma StateDeterminesView(w: World, a: Db, b: Db, s: State)
    requires Stored(w, a, s) && Stored(w, b, s)
    ensures ViewOf(a) == ViewOf(b)
  {
    hide Bound, EntriesOf, Images;
    forall p
      ensures ImageAt(a, p) == ImageAt(b, p)
    {
      assert ImageAt(a, p) == Get(Images(w, s.madeBy, s.snap), p);
      assert ImageAt(b, p) == Get(Images(w, s.madeBy, s.snap), p);
    }
    SameImagesSameEntries(a, b);
    SameImagesSameEntries(b, a);
    SameImagesSameSymbols(a, b);
    SameImagesSameItems(a, b);
  }

  // ---------------------------------------------------------------------------------------
  // The embedder gate
  // ---------------------------------------------------------------------------------------

  /** `verify_embedder_meta` */
  predicate GatePasses(db: Db, e: Embedder) {
    ReadMeta(db).Some? ==> ReadMeta(db).value == e
  }

  /** Of a body, the first `n` characters are embedded and tokenized: they have at most 8192 bytes, and any
      more of them would have more. */
  predicate IndexedTo(body: string, n: nat) {
    && n <= |body| && Utf8.ByteLen(body[..n]) <= 8192
    && forall m :: n < m <= |body| ==> Utf8.ByteLen(body[..m]) > 8192
  }

  lemma IndexedIsLongest(body: string)
    ensures IndexedTo(body, |Indexed(body)|) && body[..|Indexed(body)|] == Indexed(body)
  {
    hide Utf8.ByteLen, Utf8.LongestPrefix;
    Utf8.LongestPrefixIsLongest(body, MAX_CHUNK_BYTES);
    assert body[..|Indexed(body)|] == Indexed(body);
  }

  ghost predicate IsVectorOf(w: World, e: Embedder, body: string, vector: Vector) {
    exists n: nat :: IndexedTo(body, n) && vector == w.embed(e, body[..n])
  }

  ghost predicate IsTextOf(w: World, body: string, text: string) {
    exists n: nat :: IndexedTo(body, n) && text == w.tokens(body[..n])
  }

  lemma IndexedIsUsed(w: World, e: Embedder, body: string)
    ensures IsVectorOf(w, e, body, w.embed(e, Indexed(body))) && IsTextOf(w, body, w.tokens(Indexed(body)))
  {
    hide IndexedTo, Indexed;
    IndexedIsLongest(body);
  }

  /** Every stored vector is this embedder's vector of the first 8192 bytes, up to a character, of the body of
      the chunk with the same rowid, and every text row holds the tokens of these. */
  ghost predicate MadeBy(w: World, db: Db, e: Embedder) {
    && (forall r :: r in db.vec ==> r in db.chunks && IsVectorOf(w, e, db.chunks[r].body, db.vec[r]))
    && (forall r :: r in db.fts ==> r in db.chunks && IsTextOf(w, db.chunks[r].body, db.fts[r]))
  }

  /** A stored chunk is the entry of some chunk of its file. */
  lemma RowHasChunk(w: World, db: Db, s: State, r: nat) returns (i: nat)
    requires Stored(w, db, s) && r in db.chunks
    ensures var p := db.chunks[r].path;
            && p in s.snap && i < |w.chunk(p, s.snap[p])|
            && EntryAt(db, r) == EntryOf(w, s.madeBy, p, w.chunk(p, s.snap[p])[i])
  {
    var p := db.chunks[r].path;
    assert EntryAt(db, r) in ImageAt(db, p).entries;
    assert ImageAt(db, p) == Get(Images(w, s.madeBy, s.snap), p);
    var chunks := w.chunk(p, s.snap[p]);
    i :| 0 <= i < |chunks| && EntryAt(db, r) == EntryOf(w, s.madeBy, p, chunks[i]);
  }

  /** Every chunk of a stored file has its entry. */
  lemma ChunkHasRow(w: World, db: Db, s: State, p: string, i: nat) returns (r: nat)
    requires Stored(w, db, s) && p in s.snap && i < |w.chunk(p, s.snap[p])|
    ensures r in db.chunks && EntryAt(db, r) == EntryOf(w, s.madeBy, p, w.chunk(p, s.snap[p])[i])
  {
    var chunks := w.chunk(p, s.snap[p]);
    assert ImageAt(db, p) == Get(Images(w, s.madeBy, s.snap), p);
    assert EntryOf(w, s.madeBy, p, chunks[i]) in ImageAt(db, p).entries;
    r :| r in db.chunks && db.chunks[r].path == p && EntryAt(db, r) == EntryOf(w, s.madeBy, p, chunks[i]);
  }

  lemma StoredIsMadeBy(w: World, db: Db, s: State)
    requires Stored(w, db, s)
    ensures MadeBy(w, db, s.madeBy)
  {
    hide IsVectorOf, IsTextOf, Indexed, Images, EntriesOf, IdsNameRanges, IdsUnique, SymbolsLive;
    forall r | r in db.chunks
      ensures r in db.vec && IsVectorOf(w, s.madeBy, db.chunks[r].body, db.vec[r])
      ensures r in db.fts && IsTextOf(w, db.chunks[r].body, db.fts[r])
    {
      var i := RowHasChunk(w, db, s, r);
      IndexedIsUsed(w, s.madeBy, db.chunks[r].body);
    }
  }

  /** In a well-formed index the shadow tables have the rowids of `chunks`, ids are unique, symbols
      point at live chunks, and all vectors were made by the one embedder that `meta` records, which
      is as wide as the vector table, of the indexed part of their chunk's body. */
  lemma WellFormedRows(w: World, db: Db)
    requires WellFormed(w, db)
    ensures db.vec.Keys == db.chunks.Keys == db.fts.Keys
    ensures IdsUnique(db.chunks) && SymbolsLive(db.chunks, db.symbols)
    ensures db.vec != map[] ==> ReadMeta(db).Some? && MadeBy(w, db, ReadMeta(db).value) && ReadMeta(db).value.dim == db.width
    ensures db.vec != map[] ==> forall r :: r in db.chunks ==>
              && IsVectorOf(w, ReadMeta(db).value, db.chunks[r].body, db.vec[r])
              && IsTextOf(w, db.chunks[r].body, db.fts[r])
  {
    hide IsVectorOf, IsTextOf, Images, EntriesOf;
    var s :| Stored(w, db, s);
    StoredIsMadeBy(w, db, s);
  }

  // ---------------------------------------------------------------------------------------
  // The stored columns
  // ---------------------------------------------------------------------------------------

  /** The names of the kinds in the `kind` columns. */
  predicate KindNamed(c: ChunkSpec, kind: string) {
    && (c.kind == Module ==> kind == "module")
    && (c.kind == Window ==> kind == "window")
    && (c.kind == Symbol && c.symbol.Some? ==>
          match c.symbol.value.1
          case Function =>
            var parameters := c.symbol.value.0.parameters;
            kind == if parameters != [] && parameters[0].name == "self" then "method" else "function"
          case Struct => kind == "struct"
          case Enum => kind == "enum"
          case Trait => kind == "trait"
          case Class => kind == "class"
          case Interface => kind == "interface"
          case TypeAlias => kind == "type"
          case ModuleDecl => kind == "module")
  }

  /** The rows of one chunk: the id names path and lines, lines and body are the chunk's, and a symbol
      row exists exactly when the chunk has a symbol, with its name, line, kind and rendered signature. */
  ghost predicate RowsShow(w: World, db: Db, e: Embedder, r: nat, path: string, c: ChunkSpec)
    requires r in db.chunks
  {
    var row := db.chunks[r];
    && row.id == path + ":" + Decimal(c.range.start) + "-" + Decimal(c.range.end)
    && row.path == path && row.start == c.range.start && row.end == c.range.end && row.body == c.body
    && KindNamed(c, row.kind)
    && r in db.vec && IsVectorOf(w, e, c.body, db.vec[r]) && r in db.fts && IsTextOf(w, c.body, db.fts[r])
    && (row.id in db.symbols <==> c.symbol.Some?)
    && (c.symbol.Some? ==>
          db.symbols[row.id] ==
          SymbolRow(c.symbol.value.0.name, w.render(c.symbol.value.0, row.kind), row.kind, c.symbol.value.0.line))
  }

  lemma EntryShows(w: World, db: Db, e: Embedder, r: nat, path: string, c: ChunkSpec)
    requires r in db.chunks && EntryAt(db, r) == EntryOf(w, e, path, c)
    ensures RowsShow(w, db, e, r, path, c)
  {
    hide Indexed, IsVectorOf, IsTextOf, Decimal;
    IndexedIsUsed(w, e, c.body);
  }

  /** Inserting a chunk's entry under a fresh rowid makes the tables show it there. */
  lemma InsertShows(w: World, db: Db, e: Embedder, r: nat, path: string, c: ChunkSpec)
    requires Bound(db) && r !in db.chunks && !IdTaken(db, IdOf(path, c))
    ensures var after := InsertEntry(db, r, EntryOf(w, e, path, c));
            r in after.chunks && RowsShow(w, after, e, r, path, c)
  {
    hide RowsShow, Indexed, Decimal;
    var entry := EntryOf(w, e, path, c);
    var after := InsertEntry(db, r, entry);
    InsertEntryEntry(db, r, entry, after, r);
    EntryShows(w, after, e, r, path, c);
  }

  ghost predicate ShownBySome(w: World, db: Db, e: Embedder, path: string, c: ChunkSpec) {
    exists r :: r in db.chunks && RowsShow(w, db, e, r, path, c)
  }

  ghost predicate ShowsSome(w: World, db: Db, e: Embedder, r: nat, path: string, chunks: seq<ChunkSpec>)
    requires r in db.chunks
  {
    exists i :: 0 <= i < |chunks| && RowsShow(w, db, e, r, path, chunks[i])
  }

  /** What the tables of an index hold, column by column: a row for every chunk of every file of the snapshot,
      carved as module `Chunker` says, no other row, and the imports and exports of these files as often
      as they occur. */
  lemma StoredColumns(w: World, db: Db, s: State)
    requires w.Sound() && Stored(w, db, s)
    ensures forall p :: p in s.snap ==>
              var chunks, spans := w.chunk(p, s.snap[p]), w.SpansOf(p, s.snap[p]);
              && (spans.Some? ==> CarvedBySpans(chunks, Lines(s.snap[p]), spans.value))
              && (spans.None? ==> CarvedByWindows(chunks, Lines(s.snap[p])))
    ensures forall p, i :: p in s.snap && 0 <= i < |w.chunk(p, s.snap[p])| ==>
              ShownBySome(w, db, s.madeBy, p, w.chunk(p, s.snap[p])[i])
    ensures forall r :: r in db.chunks ==>
              var p := db.chunks[r].path;
              p in s.snap && ShowsSome(w, db, s.madeBy, r, p, w.chunk(p, s.snap[p]))
    ensures forall id :: id in db.symbols ==> exists r :: r in db.chunks && db.chunks[r].id == id
    ensures forall p, x: Import :: multiset(db.imports)[Tagged(p, x)] ==
              if p in s.snap then multiset(w.StructureOf(p, s.snap[p]).value.imports)[x] else 0
    ensures forall p, x: Export :: multiset(db.exports)[Tagged(p, x)] ==
              if p in s.snap then multiset(w.StructureOf(p, s.snap[p]).value.exports)[x] else 0
  {
    hide RowsShow, CarvedBySpans, CarvedByWindows, Lines, Stored, ShownBySome, ShowsSome;
    SnapshotIsCarved(w, s.snap);
    forall p, i | p in s.snap && 0 <= i < |w.chunk(p, s.snap[p])|
      ensures ShownBySome(w, db, s.madeBy, p, w.chunk(p, s.snap[p])[i])
    {
      ChunkIsShown(w, db, s, p, i);
    }
    forall r | r in db.chunks
      ensures db.chunks[r].path in s.snap
      ensures ShowsSome(w, db, s.madeBy, r, db.chunks[r].path, w.chunk(db.chunks[r].path, s.snap[db.chunks[r].path]))
    {
      RowShowsChunk(w, db, s, r);
    }
    SymbolsAreLive(w, db, s);
    StoredItems(w, db, s);
  }

  lemma SnapshotIsCarved(w: World, snap: Snapshot)
    requires w.Sound()
    ensures forall p :: p in snap ==>
              var chunks, spans := w.chunk(p, snap[p]), w.SpansOf(p, snap[p]);
              && (spans.Some? ==> CarvedBySpans(chunks, Lines(snap[p]), spans.value))
              && (spans.None? ==> CarvedByWindows(chunks, Lines(snap[p])))
  {
    hide CarvedBySpans, CarvedByWindows, Lines;
    forall p | p in snap
      ensures w.SpansOf(p, snap[p]).Some? ==> CarvedBySpans(w.chunk(p, snap[p]), Lines(snap[p]), w.SpansOf(p, snap[p]).value)
      ensures w.SpansOf(p, snap[p]).None? ==> CarvedByWindows(w.chunk(p, snap[p]), Lines(snap[p]))
    {
      FileIsCarved(snap[p], w.SpansOf(p, snap[p]));
    }
  }

  lemma ChunkIsShown(w: World, db: Db, s: State, p: string, i: nat)
    requires Stored(w, db, s) && p in s.snap && i < |w.chunk(p, s.snap[p])|
    ensures ShownBySome(w, db, s.madeBy, p, w.chunk(p, s.snap[p])[i])
  {
    hide Stored, RowsShow;
    var r := ChunkHasRow(w, db, s, p, i);
    EntryShows(w, db, s.madeBy, r, p, w.chunk(p, s.snap[p])[i]);
  }

  lemma RowShowsChunk(w: World, db: Db, s: State, r: nat)
    requires Stored(w, db, s) && r in db.chunks
    ensures var p := db.chunks[r].path;
            p in s.snap && ShowsSome(w, db, s.madeBy, r, p, w.chunk(p, s.snap[p]))
  {
    hide Stored, RowsShow;
    var i := RowHasChunk(w, db, s, r);
    EntryShows(w, db, s.madeBy, r, db.chunks[r].path, w.chunk(db.chunks[r].path, s.snap[db.chunks[r].path])[i]);
  }

  lemma SymbolsAreLive(w: World, db: Db, s: State)
    requires Stored(w, db, s)
    ensures forall id :: id in db.symbols ==> exists r :: r in db.chunks && db.chunks[r].id == id
    ensures Indexable(w, s.snap)
  {
  }

  lemma StoredItems(w: World, db: Db, s: State)
    requires Stored(w, db, s)
    ensures forall p, x: Import :: multiset(db.imports)[Tagged(p, x)] ==
              if p in s.snap then multiset(w.StructureOf(p, s.snap[p]).value.imports)[x] else 0
    ensures forall p, x: Export :: multiset(db.exports)[Tagged(p, x)] ==
              if p in s.snap then multiset(w.StructureOf(p, s.snap[p]).value.exports)[x] else 0
  {
    hide EntriesOf, Bound;
    forall p
      ensures Items(db.imports, p) == if p in s.snap then w.StructureOf(p, s.snap[p]).value.imports else []
      ensures Items(db.exports, p) == if p in s.snap then w.StructureOf(p, s.snap[p]).value.exports else []
    {
      assert ImageAt(db, p) == Get(Images(w, s.madeBy, s.snap), p);
    }
    forall p, x: Import {
      ItemCount(db.imports, Tagged(p, x));
    }
    forall p, x: Export {
      ItemCount(db.exports, Tagged(p, x));
    }
  }

  /** So a search that passes the gate compares vectors of the active embedder only. */
  lemma GateMeansOneEmbedder(w: World, db: Db, e: Embedder)
    requires WellFormed(w, db) && GatePasses(db, e)
    ensures MadeBy(w, db, e)
  {
    var s :| Stored(w, db, s);
    StoredIsMadeBy(w, db, s);
  }

  lemma VectorHasWidth(w: World, e: Embedder, body: string, vector: Vector)
    requires w.Sound() && IsVectorOf(w, e, body, vector)
    ensures |vector| == e.dim
  {
    hide Utf8.ByteLen;
    var n: nat :| IndexedTo(body, n) && vector == w.embed(e, body[..n]);
    assert |w.embed(e, body[..n])| == e.dim;
  }

  /** Where the gate is safe: of tables that hold one embedder's vectors, every embedder it lets through
      made those vectors exactly when there are none or `meta` records an embedder that did. So an
      index with vectors and no recorded embedder is open to embedders that did not make them. */
  lemma GateSafeIff(w: World, db: Db, e: Embedder)
    requires w.Sound() && MadeBy(w, db, e)
    ensures (forall other :: GatePasses(db, other) ==> MadeBy(w, db, other)) <==>
            db.vec == map[] || (ReadMeta(db).Some? && MadeBy(w, db, ReadMeta(db).value))
    ensures (forall other :: GatePasses(db, other) ==> other == e) <==> ReadMeta(db) == Some(e)
  {
    var wider := Embedder(e.id, e.dim + 1);
    if db.vec != map[] && ReadMeta(db).None? {
      var r :| r in db.vec;
      VectorHasWidth(w, e, db.chunks[r].body, db.vec[r]);
      if IsVectorOf(w, wider, db.chunks[r].body, db.vec[r]) {
        VectorHasWidth(w, wider, db.chunks[r].body, db.vec[r]);
      }
      assert GatePasses(db, wider) && !MadeBy(w, db, wider);
    }
    if ReadMeta(db).None? {
      assert GatePasses(db, wider) && wider != e;
    } else {
      assert GatePasses(db, ReadMeta(db).value);
    }
  }
}
