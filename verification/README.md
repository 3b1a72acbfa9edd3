# A model of the code search index

This project models the parts of apohara-codesearch that decide whether a search index can be trusted:
how files are carved into chunks, how the index follows the working tree through full, incremental and
interrupted runs, how hits are ranked, and the small protocols around it (watch loop, registry file,
schema migration, lazy build). It states and proves what those parts promise.

| file | what it covers |
|---|---|
| `Utf8`, `ChunkIds` | truncation at a character boundary, chunk ids and their parser |
| `Chunker` | symbol and module chunks, the capped splitter, overlapping windows |
| `IndexStore` | the tables, and when they hold exactly a snapshot of files |
| `Transactions` | a database session: statements that may fail, begin, commit, rollback |
| `Reindexer`, `Recovery` | the reindex engine, and what holds over runs that stop anywhere |
| `Schema`, `Upgrade` | migration on open, and migration together with reindexing |
| `Ordering`, `Fusion`, `Dedup`, `Vectors`, `Mmr`, `Pipeline` | sorting and greedy filters, then the ranking stages in their order |
| `WatchLoop`, `RegistryFile`, `BuildLock` | step protocols with their invariants |
| `Tokens`, `FeatureHash`, `SyntaxWalk` | the tokenizer, the hashing embedder, the syntax-tree walks |

## How to read it

**The index.** The abstract state of an index is a snapshot: which files it holds and with which
content. `IndexStore.Stored` ties the tables, whose rowids are arbitrary, to a snapshot, to the owner
recorded in the bookkeeping rows and to the embedder that made the vectors. `WellFormed` says that some
such state exists: each file is wholly there or wholly absent, shadow rows share their chunk's rowid,
symbols point at live chunks, and stored vectors are vouched for by `meta`. `ViewOf` is everything a
reader can observe, that is, the tables up to rowids and modification times.

**Faults and stops.** Any statement of a `Session` may fail: the environment decides by an arbitrary
function of how many were tried before, and is `Calm` if it fails none. `disk` is what a crash leaves, and
`trace` lists every state that was ever on disk, so "wherever the run stops" is "for every element of
`trace`". The ghost counter `faults` tells a failure of the environment from a failure the program causes,
and `Valid` ties it to the environment. Where runs are chained, each brings its own environment and the
committed state at which it is stopped; it is undisturbed if the environment is calm and it is not stopped. An
insert takes an arbitrary free rowid, so freed rowids may be reused in any way, and an insert into a
shadow table fails if the rowid is taken.

**Protocols.** A protocol is a state, a list of steps, `Enabled` and `Next`; `Run` executes a sequence
of steps. Invariants are proved for one step and then for every run.

**Given, not modelled.** The content hash (injective), the embedding backends (each returns vectors of
its dimension), the signature renderer, the structure extractor, the full-text tokenizer of the store,
ranked input lists and syntax trees are parameters. `IndexStore.World.Sound` states what is assumed of
them. Walked paths are distinct, and one repository id serves every run.

## Where code and documentation differ

- The comment on `MAX_CHUNK_BYTES` (`crates/apohara-indexer/src/chunker.rs:56-68`) calls it a cap. After
  a cut at a blank line the current line joins the rest without a second check, so the true bound is
  larger: `Chunker.ByteCapIsExceeded` gives a body of 12002 bytes, `Chunker.SplitBounds` the bound, and
  `Chunker.CapHoldsIff` says exactly when the cap holds.
- The clamp at `crates/apohara-indexer/src/chunker.rs:188` does not keep a span inside the file when it
  starts after the last line (`Chunker.ClampStaysInside`). The chunker relies on the parser for that; the
  precondition `Chunker.ParserContract` says so, and `SyntaxWalk.SpansMeetContract` derives it from the tree.
- `migrate` documents a newer schema version as refused (`crates/apohara-indexer/src/schema.rs:53-55`).
  It is, but only after the guarded statements have added missing tables and the `kind` column; what
  stays untouched is the `files` rows and the version.
- A stray `files_new` table makes the migration of a legacy database fail for good, and a failing
  recreation batch is not rolled back but left to the closing connection. Neither loses rows
  (`Schema.CutShortAndRepeat`).
- The watch loop promises that the next save recovers from a failed reindex
  (`crates/apohara-codesearch/src/watch.rs:141-143`). It does (`WatchLoop.NextSaveRecovers`), but until then the
  change is lost to it, unless a relevant event was already waiting (`WatchLoop.FailureRecoversIff`).
- "A racing caller may have built it" (`crates/apohara-codesearch/src/server.rs:149`): the test is only
  that the file exists, so a caller may go on while the build is unfinished
  (`BuildLock.CallerPassesEarly`).
- The build lock falls back to the raw path when a root cannot be canonicalized
  (`crates/apohara-codesearch/src/server.rs:132-134`). `BuildLock.BuildsExclusiveIffFaithful` shows that
  this is the one thing exclusion depends on.
- The lost update that the registry accepts (`crates/apohara-indexer/src/registry.rs:182-191`) is shown by
  `RegistryFile.UpdateCanBeLost`; `RegistryFile.SurvivesIff` says exactly when an entry is safe from it.
- The watch loop promises that the writes of a reindex never trigger another
  (`crates/apohara-codesearch/src/watch.rs:84-85`). It filters the index directory, but a reindex also writes the
  registry under the user's configuration directory: watching a root that contains it, every reindex starts
  the next (`WatchLoop.SelfTriggersIff`).
- The query side relies on tokens being alphanumeric only (`crates/apohara-indexer/src/search.rs:59-62`). A few letters
  beyond ASCII lowercase to a letter and a combining mark, which is not alphanumeric
  (`Tokens.DottedCapitalIsNotFixed`); the quoting there keeps this harmless.
- The embedder gate refuses mixed embeddings (`crates/apohara-indexer/src/schema.rs:281-288`). After a forced run
  stopped between its two stamps it may refuse every embedder that exists, over an empty index; only another
  forced run gets past it (`Recovery.HalfStampGate`).

## Model

| member | source | states |
|---|---|---|
| ChunkIds.ParseOfChunkId | crates/apohara-indexer/src/search.rs:333-339 | Parsing the id of `(path, start, end)` gives exactly that path and range back, for every path (also with `:` and `-` in it), if and only if both line numbers fit an `i64`; otherwise it gives nothing. |
| ChunkIds.ChunkIdInjective | crates/apohara-indexer/src/chunker.rs:131-133 | Equal ids come from equal paths and equal ranges, for all paths. |
| ChunkIds.DecimalCounts | crates/apohara-indexer/src/chunker.rs:131-133 | Line numbers are written in base ten: the last digit counts up, and after a 9 starts again while the rest counts up. |
| ChunkIds.ParseI64Signed | crates/apohara-indexer/src/search.rs:333-339 | A range bound may carry a sign and is read if and only if it fits an `i64`. |
| ChunkIds.ParseI64Refuses | crates/apohara-indexer/src/search.rs:333-339 | A bound without digits or with a stray character makes the id unparseable. |
| Utf8.LongestPrefixIsLongest | crates/apohara-indexer/src/storage.rs:23-39 | The truncated text is a prefix that fits, every longer prefix does not, nothing is cut from a text that fits, and a cut leaves at most three of the allowed bytes unused. |
| Utf8.LastBoundary | crates/apohara-indexer/src/storage.rs:30-39 | The last character boundary at or below the limit is where the longest fitting prefix ends, with boundaries read off the UTF-8 bytes (section 3 of RFC 3629). |
| Utf8.EncodeCharBits | crates/apohara-indexer/src/storage.rs:30-39 | The bytes this is computed on carry the bits of each character as section 3 of RFC 3629 lays them out, lengths and lead bytes included. |
| Utf8.TruncateOnCharBoundary | crates/apohara-indexer/src/storage.rs:30-39 | The downward loop over byte positions yields the encoding of the longest prefix that fits, in every case at most `max` bytes. |
| Chunker.SplitModuleRun | crates/apohara-indexer/src/chunker.rs:249-305 | The loop with its four running counters computes the cuts of a specification that has no counters. |
| Chunker.Reaccount | crates/apohara-indexer/src/chunker.rs:279-292 | Recounting after a cut restores line count, byte count and last blank line to those of the rest of the segment. |
| Chunker.SplitBounds | crates/apohara-indexer/src/chunker.rs:249-305 | The cuts tile the run with non-empty ranges of at most 200 lines, each body has fewer than 8192 bytes plus its last line; a body at or over 8192 bytes has no blank line before its last line and is one line or follows a cut at a blank line; every cut but the last was forced by a line with which the segment would have more than 200 lines or 8192 bytes, and ends at the last blank line before it if the segment has one. |
| Chunker.WalkedFileBound | crates/apohara-indexer/src/walker.rs:134 | For a file whose lines the walker admits, no module body reaches 8192 + 4096 bytes. |
| Chunker.ByteCapIsExceeded | crates/apohara-indexer/src/chunker.rs:56-68 | The byte cap alone is not a bound: four admitted lines give one body of 12002 bytes. |
| Chunker.CapHoldsIff | crates/apohara-indexer/src/chunker.rs:279-292 | Every body of a run stays under the byte cap if and only if no cut leaves a rest that passes the cap together with the line that forced the cut (nor a first line does alone): the check the splitter leaves out after re-accounting. |
| Chunker.NoBlankNoOvershoot | crates/apohara-indexer/src/chunker.rs:266-275 | Of lines the walker admits, a run without a blank line never passes the cap. |
| Chunker.ClampStaysInside | crates/apohara-indexer/src/chunker.rs:186-188 | The clamp keeps a span inside the file if and only if the file has a line and the span starts in it. |
| Chunker.ChunkParsed | crates/apohara-indexer/src/chunker.rs:166-235 | The two loops over the `covered` array compute the symbol chunks followed by the module chunks of the uncovered runs. |
| Chunker.EmitSymbols | crates/apohara-indexer/src/chunker.rs:182-208 | After the first loop the array marks exactly the lines some clamped span covers, and repeated ranges have been emitted once. |
| Chunker.EmitModules | crates/apohara-indexer/src/chunker.rs:218-232 | The second loop splits exactly the maximal uncovered runs. |
| Chunker.SymbolCoverage | crates/apohara-indexer/src/chunker.rs:185-208 | A line lies in a Symbol chunk if and only if a span covers it. |
| Chunker.ModuleCoverage | crates/apohara-indexer/src/chunker.rs:210-232 | A line no span covers lies in exactly one Module chunk, and a covered line in none. |
| Chunker.ExactCoverage | crates/apohara-indexer/src/chunker.rs:166-235 | For any overlapping or nested spans every line is in some Symbol chunk or in exactly one Module chunk, never in both. |
| Chunker.ParsedChunkShape | crates/apohara-indexer/src/chunker.rs:166-235 | Every chunk of a parsed file has a range inside the file and the joined lines of that range as its body. |
| Chunker.ParsedChunksDistinct | crates/apohara-indexer/src/chunker.rs:185-208 | No two chunks of a parsed file, symbol or module, have the same range. |
| Chunker.ChunkWindows | crates/apohara-indexer/src/chunker.rs:321-350 | The window loop stops after the number of windows given in closed form and computes exactly those. |
| Chunker.WindowShape | crates/apohara-indexer/src/chunker.rs:321-350 | Window `k` starts at line `1 + 45 k` and has 60 lines unless the file ends before; it ends the file if and only if it is the last one; neighbours share exactly 15 lines and windows further apart none. |
| Chunker.WindowsOfLine | crates/apohara-indexer/src/chunker.rs:321-350 | Every line is in one window or in two neighbouring ones. |
| Chunker.WindowsDistinct | crates/apohara-indexer/src/chunker.rs:321-350 | Windows have distinct ranges and the joined lines as bodies. |
| Chunker.ChunkFile | crates/apohara-indexer/src/chunker.rs:137-145 | With a parse: exactly one Symbol chunk for every span whose lines no earlier span has, carrying that span's signature and kind and exactly its lines inside the file; every other chunk is a Module chunk without symbol, a capped piece of a maximal run of lines no span has, ended before the run only by force; a line is in a Symbol chunk if and only if a span has it, and otherwise in exactly one Module chunk. Without a parse: only Window chunks without symbol, of 60 lines from line `1 + 45 k` on, until one reaches the end. Bodies are the joined lines, ranges differ. |
| Chunker.FileIsCarved | crates/apohara-indexer/src/chunker.rs:137-145 | The same of the chunks the indexer asks for, which are what the index stores. |
| Chunker.LinesStep | crates/apohara-indexer/src/chunker.rs:149-153 | A line ends at the first line feed, and loses a carriage return before it; text without a line feed is one line, no text none. |
| Chunker.LinesOfJoin | crates/apohara-indexer/src/chunker.rs:146-163 | Joining lines and splitting again gives the lines back, if none ends in a carriage return and the last is not empty. |
| Chunker.JoinConcat | crates/apohara-indexer/src/chunker.rs:155-163 | Two joined ranges with one line feed between are the join of both. |
| Chunker.BlankAscii | crates/apohara-indexer/src/chunker.rs:294-299 | An ASCII line is blank if and only if it holds spaces and the characters from tab to carriage return only. |
| Chunker.ChunkIdsDistinct | crates/apohara-indexer/src/chunker.rs:131-133 | All chunk ids of a file differ, and none equals an id of a chunk of another path, so no insert of a file can meet a taken key. |
| IndexStore.NextIdFree | crates/apohara-indexer/src/incremental.rs:259-308 | With a file deleted and its first `n` chunks inserted, the id of the next chunk is free in the whole index. |
| IndexStore.StateDeterminesView | crates/apohara-indexer/src/incremental.rs:99-178 | Two databases that store the same snapshot agree on chunks, bodies, vectors, texts, symbols, imports, exports, file hashes and languages, whatever their rowids and modification times. |
| IndexStore.WellFormedRows | crates/apohara-indexer/src/incremental.rs:259-308 | In a well-formed index the rowids of all three chunk tables agree, ids are unique, every symbol points at a live chunk, and for every chunk some number of characters of its body has at most 8192 bytes while any more have more, so that its vector is the vector of these by the one embedder recorded in `meta`, as wide as the table, and its text their tokens; a body of at most 8192 bytes is used whole. |
| IndexStore.IndexedIsLongest | crates/apohara-indexer/src/storage.rs:247-255 | The part of a body that is embedded and tokenized is its longest prefix of whole characters within 8192 bytes. |
| IndexStore.StoredColumns | crates/apohara-indexer/src/storage.rs:226-282 | An index of a snapshot has, for every chunk that carving gives of every file and for no other, a row with id `path:start-end`, lines, body and the kind string, its vector and tokens, and a symbol row with name, rendered signature, kind and line if and only if the chunk has a symbol; and every import and export of these files as often as it occurs. |
| IndexStore.InsertShows | crates/apohara-indexer/src/storage.rs:226-282 | Inserting a chunk under a fresh rowid makes the four tables show exactly this of it there. |
| IndexStore.GateMeansOneEmbedder | crates/apohara-indexer/src/schema.rs:281-301 | A search that passes the gate on a well-formed index compares vectors of the active embedder only. |
| IndexStore.GateSafeIff | crates/apohara-indexer/src/schema.rs:281-301 | On any tables that hold the vectors of one embedder, all embedders the gate lets through made those vectors if and only if there are none or `meta` records one that did; it lets only that embedder through if and only if `meta` records it. |
| Transactions.Session.Exec | crates/apohara-indexer/src/incremental.rs:256-343 | A statement has its whole effect or, failing, none; outside a transaction it reaches the disk at once, inside it does not. |
| Transactions.Session.Commit | crates/apohara-indexer/src/incremental.rs:333-336 | A commit makes all work of the transaction the next state on disk; a failing commit leaves the disk alone. |
| Transactions.Session.Rollback | crates/apohara-indexer/src/incremental.rs:337-342 | A rollback never changes the disk, even if it fails and leaves the transaction open. |
| Reindexer.InsertChunkFull | crates/apohara-indexer/src/storage.rs:226-282 | One chunk goes into all its tables under one arbitrary unused rowid, where they then show its id, lines, body, kind, the vector and tokens of its first 8192 bytes and its symbol, or the call fails; a taken id and a vector of the wrong width are the only failures besides a fault. |
| Reindexer.WriteFileStructural | crates/apohara-indexer/src/storage.rs:287-315 | Imports and exports are appended in order under the file's path, nothing else changes. |
| Reindexer.DeleteFileRows | crates/apohara-indexer/src/incremental.rs:259-291 | The six deletions remove exactly the rows of one path. |
| Reindexer.InsertChunks | crates/apohara-indexer/src/incremental.rs:293-308 | On the deleted file the chunk loop stores every chunk; it never meets a taken key. |
| Reindexer.ReprocessFile | crates/apohara-indexer/src/incremental.rs:245-344 | One file is wholly replaced in one committed state, its bookkeeping row recording hash, modification time and language and all other such rows untouched, or the disk is untouched; failures are faults, a width mismatch or a parse failure, never a key violation. |
| Reindexer.RemoveFile | crates/apohara-indexer/src/incremental.rs:353-394 | One file is wholly gone in one committed state, or the disk is untouched. |
| Reindexer.WipeAll | crates/apohara-indexer/src/incremental.rs:183-196 | The index is emptied in one committed state with `meta` and vector width kept, or the disk is untouched. |
| Reindexer.RewriteIsStored | crates/apohara-indexer/src/incremental.rs:218-225 | On a well-formed index the rewrite of placeholder ids meets no existing key and changes only the owner of the bookkeeping rows. |
| Reindexer.RewritePlaceholder | crates/apohara-indexer/src/incremental.rs:218-225 | The rewrite leaves the index of the same snapshot under this repository's id, or the disk untouched. |
| Reindexer.WriteEmbedderMeta | crates/apohara-indexer/src/schema.rs:251-263 | Two separate commits, first the id alone, then the pair; nothing but the recorded embedder changes. |
| Reindexer.VerifyEmbedderMeta | crates/apohara-indexer/src/schema.rs:289-301 | Without a fault it succeeds if and only if `meta` records no complete pair or the active embedder's. |
| Reindexer.StoredFilePaths | crates/apohara-indexer/src/incremental.rs:398-410 | Exactly the paths recorded under this repository's id, in any order. |
| Reindexer.StoredFileState | crates/apohara-indexer/src/incremental.rs:414-423 | The recorded row, where a failing query reads as not indexed. |
| Reindexer.RemoveVanished | crates/apohara-indexer/src/incremental.rs:146-153 | Exactly the stored files that the walk lacks disappear, one committed state each. |
| Reindexer.UpdateFile | crates/apohara-indexer/src/incremental.rs:155-169 | A file is rewritten if and only if its stored hash differs or is missing (a failing lookup only adds a rewrite); otherwise the disk stays as it is. |
| Reindexer.RebuildAll | crates/apohara-indexer/src/incremental.rs:140-144 | From an empty stamped index the loop reaches the index of the walk, and counts every file and chunk. |
| Reindexer.ForcedRun | crates/apohara-indexer/src/incremental.rs:135-144 | A forced run ends in the index of the walk; every state on the way, the half-stamped one included, holds each file wholly new or not at all, with one embedder's vectors. |
| Reindexer.IncrementalRun | crates/apohara-indexer/src/incremental.rs:121-169 | An incremental run ends in the index of the walk; on the way each file is wholly old, wholly new or gone; behind a mismatching gate nothing is written. |
| Reindexer.Reindex | crates/apohara-indexer/src/incremental.rs:99-178 | Either mode ends in the index of the walk stamped with the active embedder, reports exactly what it wrote, and passes only through well-formed states. It succeeds only if it can run, that is, forced or past the gate, every file parsing and every vector fitting, and if it can run only a statement made to fail from outside makes it fail. |
| Reindexer.ReportExtremes | crates/apohara-indexer/src/incremental.rs:132-170 | A forced run counts every file, and a run on an up-to-date index none. |
| Reindexer.ReportCounts | crates/apohara-indexer/src/incremental.rs:132-170 | A report counts exactly the walked files that are new or have other content, and the chunks of exactly these. |
| Reindexer.WalkIsStored | crates/apohara-indexer/src/incremental.rs:99-178 | What a finished run leaves, table by table: for every walked file a bookkeeping row with the hash and language of its content, its chunks, imports and exports, and nothing of any other path. |
| Recovery.IncrementalAgreesWithFull | crates/apohara-indexer/src/incremental.rs:99-178 | From any two well-formed indexes an incremental and a forced run over one walk both leave the index of that walk, stamped with the active embedder, and the same observable content; without statements made to fail, both succeed if and only if both can run. |
| Recovery.IdleRun | crates/apohara-indexer/src/incremental.rs:155-169 | On an index that holds the walk already, an incremental run in which no statement fails succeeds, reports zero files and zero chunks and leaves the disk as it was. |
| Recovery.SecondRunIsIdle | crates/apohara-indexer/src/incremental.rs:155-169 | After a first run the disk holds the index of the walk, and a second run over the same walk reports zero files and zero chunks and leaves the disk as the first left it; without statements made to fail, both runs succeed whenever the first can run. |
| Recovery.RunsFromEmpty | crates/apohara-indexer/src/incremental.rs:132-170 | After any number of runs, each stopped at any committed state, the index is well formed, hence never mixes embedders; one more undisturbed run over a walk that can be written, forced or by the embedder of all the others, completes and reaches the state of a full rebuild. |
| Recovery.OneRun | crates/apohara-indexer/src/incremental.rs:99-178 | One run from a well-formed index: every state it leaves on disk is well formed, and if no statement is made to fail it succeeds if and only if it is forced or the gate passes, every file parses, and the vectors, if any, are as wide as the table. |
| Recovery.HalfStampGate | crates/apohara-indexer/src/schema.rs:251-263 | Between the two stamps the gate lets through only the new id with the old dimension, so it refuses the very embedder of an interrupted forced run if and only if the dimension changed. |
| Schema.Migrate | crates/apohara-indexer/src/schema.rs:56-115 | Every state it leaves on disk leads to the same final schema and stands for the same index; it fails without a fault if and only if the stored version is newer or unreadable or a stray `files_new` blocks a due recreation; behind the gate the `files` rows and the version stay. |
| Schema.CreateTables | crates/apohara-indexer/src/schema.rs:71-110 | The guarded statements add the missing tables one commit at a time and touch nothing that exists. |
| Schema.MigrateFilesSchema | crates/apohara-indexer/src/schema.rs:130-192 | The recreation, stamp included, is one commit or none. |
| Schema.RecreateFiles | crates/apohara-indexer/src/schema.rs:161-176 | Inside the open transaction the new table holds each old row under the placeholder id. |
| Schema.MigrationIsIdempotent | crates/apohara-indexer/src/schema.rs:117-127 | Migrating a migrated database changes nothing, and migration does not change the index a database stands for. |
| Schema.MigratedShape | crates/apohara-indexer/src/schema.rs:56-192 | A migrated database has the `kind` column, the seven further tables and indexes beside those it had, version `1`, and its composite `files` rows or exactly one row per old path under the placeholder id; all else is as it was. |
| Schema.GateReads | crates/apohara-indexer/src/schema.rs:130-143 | An unstamped database passes the gate, one stamped with a number if and only if that is 0 or 1, and one stamped with something else than an optional plus and digits does not. |
| Schema.RowsSurvive | crates/apohara-indexer/src/schema.rs:171-174 | A path has a row with given hash, modification time and language after the migration if and only if it had it before. |
| Schema.MigrationKeepsUniform | crates/apohara-indexer/src/schema.rs:24-31 | Every state a migration leaves on disk carries one id in all stored rows if and only if the table it started from did: a composite table is kept as it is, an older one becomes exactly one placeholder row per old path. |
| Upgrade.UniformRewrites | crates/apohara-indexer/src/incremental.rs:218-225 | On any rows that carry one id, well formed or not, the rewrite of placeholders meets no existing key, leaves one id, and keeps every path with its hash, modification time and language. |
| Schema.CutShortAndRepeat | crates/apohara-indexer/src/schema.rs:39-51 | After any number of migrations cut short anywhere, one in which no statement is made to fail succeeds if and only if the database could be migrated from the start, and then reaches the state a single undisturbed migration reaches; a database that could not be migrated never can. |
| Upgrade.LegacyIsStored | crates/apohara-indexer/src/schema.rs:158-176 | A legacy index that holds a snapshot stands for a well-formed index of that snapshot owned by the placeholder. |
| Upgrade.OpenAndRun | crates/apohara-indexer/src/incremental.rs:99-178 | Open, migrate and reindex, stopped anywhere: the index stays well formed, its ids uniform, and the rewrite of placeholder ids can collide with no key. Undisturbed it completes if and only if the database can be migrated, the gate passes or is not asked, every file parses and the vectors fit the table. |
| Upgrade.UpgradeRuns | crates/apohara-codesearch/src/watch.rs:66-78 | Any number of such opens from a legacy, a current or a new database keep this, and one undisturbed open over a walk that can be written, forced or by the only embedder so far, completes and brings the index up to date if the database could be migrated. |
| Fusion.RrfFuseWeighted | crates/apohara-indexer/src/search.rs:142-188 | The result lists each id of either list once with its summed score, strictly sorted by score, then lexical rank, then id; the next rows say what that means in positions and weights. |
| Fusion.FusedIds | crates/apohara-indexer/src/search.rs:155-173 | The ids of the result are exactly those of the two lists, each once. |
| Fusion.FusedScores | crates/apohara-indexer/src/search.rs:155-169 | An id found first at (0-based) places `i` and `j` scores its lexical weight over `k + i + 1` plus its vector weight over `k + j + 1`; an id of one list scores that part alone. |
| Fusion.FusedTies | crates/apohara-indexer/src/search.rs:171-186 | Scores do not increase; equal scores stand in the order of the lexical list, and ids it lacks come after these in the order of their characters. |
| Fusion.WeightsDecide | crates/apohara-indexer/src/search.rs:142-188 | Of an id of the lexical list alone and one of the vector list alone, at 1-based ranks `r` and `s`, the first precedes if and only if the lexical weight times `k + s` is at least the vector weight times `k + r`. |
| Ordering.LessIsLexicographic | crates/apohara-indexer/src/search.rs:185 | Ids compare by the first character in which they differ, and a proper prefix comes first. |
| Fusion.FusionUnique | crates/apohara-indexer/src/search.rs:172-186 | Only one list meets that description, so the order in which a hash map is read cannot show. |
| Fusion.DominantComesFirst | crates/apohara-indexer/src/search.rs:142-188 | With positive weights an id no worse in both lists and better in one comes first. |
| Fusion.BothBeatsOne | crates/apohara-indexer/src/search.rs:142-188 | With equal positive weights and lists of at most `k + 1` entries every id in both lists comes before every id in one. |
| Fusion.BothBeatsOneIsTight | crates/apohara-indexer/src/search.rs:142-188 | For every `k` there are two lists of `k + 2` distinct ids on whose only fusion an id found by one list comes before an id found by both. |
| Fusion.ApplyStructuralBoost | crates/apohara-indexer/src/search.rs:538-590 | Exactly the entries of files with a matching import gain the bonus, none is added or lost, and the list is sorted again when there is such a file and untouched otherwise. |
| Fusion.BoostAdds | crates/apohara-indexer/src/search.rs:560-580 | An entry whose id names a range of a file gains 0.01 if and only if some import of that file shares a token with the query; an id that does not parse gains nothing. |
| Dedup.DedupOverlapping | crates/apohara-indexer/src/search.rs:371-390 | The loop keeps greedily what overlaps no earlier survivor. |
| Dedup.OverlapSurvivors | crates/apohara-indexer/src/search.rs:360-390 | Survivors keep their order, no two of one file overlap by more than half of the shorter range, a dropped entry overlaps a survivor, and an id that does not parse stays. |
| Dedup.OverlapOfChunks | crates/apohara-indexer/src/search.rs:344-390 | Two chunk ids overlap if and only if they are of one file and the lines they share are more than half of the lines of one of them, counted as sets of lines. |
| Dedup.NeighbouringWindows | crates/apohara-indexer/src/search.rs:344-390 | Of two neighbouring windows, ranked in either order, the filter keeps both if and only if the later one in the file has at least 30 lines, and otherwise the better ranked one. |
| Dedup.DedupContent | crates/apohara-indexer/src/search.rs:714-728 | The loop keeps greedily what resembles no earlier survivor. |
| Dedup.ContentSurvivors | crates/apohara-indexer/src/search.rs:688-728 | Survivors keep their order, no two have Jaccard similarity 0.9 or more, and a dropped hit resembles a survivor. |
| Dedup.SimilarIsJaccard | crates/apohara-indexer/src/search.rs:686-699 | Two fingerprints are similar if and only if, in reals, the shared tokens are at least 0.9 of all; two empty ones are not. |
| Dedup.ContentKept | crates/apohara-indexer/src/search.rs:714-728 | Every hit survives, or a survivor that stood before it is similar. |
| Vectors.CosineOf | crates/apohara-indexer/src/search.rs:436-452 | The single pass over both vectors gives the cosine of the angle between them, which lies between -1 and 1, and 0 for different lengths or a vector of zeros. |
| Vectors.CosineBounded | crates/apohara-indexer/src/search.rs:436-452 | Cosine similarity lies between -1 and 1 for every pair of vectors, by the Cauchy-Schwarz inequality. |
| Vectors.CosineIsCosine | crates/apohara-indexer/src/search.rs:436-452 | The result is the number `c` with `c * n` the dot product for the positive `n` whose square is the product of the squared lengths, whatever the square root; 0 where there is no such `n` or the lengths differ. |
| Vectors.CosineAtExtremes | crates/apohara-indexer/src/search.rs:436-452 | A vector that is not zero has similarity 1 to itself, and vectors with a dot product of at most 0 have similarity at most 0. |
| Vectors.DotOfUpdate | crates/apohara-indexer/src/search.rs:440-447 | Changing one coordinate changes the dot product by the difference times the matching coordinate of the other vector. |
| Mmr.BestRemaining | crates/apohara-indexer/src/search.rs:500-518 | The inner loop finds the earliest remaining candidate with the largest marginal. |
| Mmr.MmrRerank | crates/apohara-indexer/src/search.rs:468-525 | Each pick has the largest marginal among what remains, ties going to the earliest input; the output is the candidates in that order and a permutation of the input. |
| Mmr.PickedIsBest | crates/apohara-indexer/src/search.rs:468-525 | In scores and cosines alone: against every candidate picked later, `lambda` times the lead in score is at least `1 - lambda` times the excess of its largest cosine (or 0) to what was picked before, in units of the range of scores, ties going to the earlier input; when all scores are equal the cosines alone decide. |
| Mmr.CopyFallsBehind | crates/apohara-indexer/src/search.rs:454-467 | For `lambda` in [0, 1): a candidate with the vector of one already picked comes after one with no positive dot product to anything picked so far, unless `lambda` times its lead in score reaches `1 - lambda` times the range of scores. |
| Mmr.MmrPermutes | crates/apohara-indexer/src/search.rs:468-525 | The output is a permutation of the input with the original scores. |
| Mmr.RelevanceOnlySorts | crates/apohara-indexer/src/search.rs:466-467 | With `lambda` 1 the output is the input sorted by score, descending and stably. |
| Mmr.RelevanceOnlyIsIdentity | crates/apohara-indexer/src/search.rs:466-467 | With `lambda` 1 the input comes back as it is if and only if it was sorted by score. |
| Mmr.RelevanceLeadHolds | crates/apohara-indexer/src/search.rs:468-525 | For `lambda` in (0, 1] a candidate whose normalized relevance leads by more than `(1 - lambda) / lambda` always precedes the other. |
| Pipeline.RankChunks | crates/apohara-codesearch/src/server.rs:229-252 | The stages run in order, each fed by the one before; the ranked list has distinct ids from the two lists, no half-overlaps, and non-increasing scores without diversity. |
| Pipeline.SearchCode | crates/apohara-codesearch/src/server.rs:225-271 | For every combination of flags: every entry among the first `k` of the ranked list whose chunk still exists is returned with its fingerprint and score, unless a hit from an earlier entry shares at least nine tenths of its tokens; each hit comes from a place below `k`, in order, with the fingerprint hydration gives; at most `k` hits, each from one of the lists, distinct ids, no two of a file overlapping by more than half, no two similar at 0.9, scores non-increasing without diversity. |
| Pipeline.StrongerStays | crates/apohara-codesearch/src/server.rs:229-252 | The overlap filter sees boosted scores: every fused entry for a range of a file is in the ranked list with its score and its gain of 0.01 or nothing, or a ranked entry overlaps it by more than half and has at least that score. |
| Pipeline.CopiesRankLower | crates/apohara-codesearch/src/server.rs:247-252 | With diversity on, an entry whose vector copies one ranked before it comes after an entry unlike everything ranked so far, unless 0.7 times its lead in score reaches 0.3 times the range of scores. |
| WatchLoop.StepRemembers | crates/apohara-codesearch/src/watch.rs:113-145 | Every step but a failing reindex keeps the fact that a difference between index and tree is pending somewhere. |
| WatchLoop.NeverForgets | crates/apohara-codesearch/src/watch.rs:113-145 | From an up-to-date armed watcher, while the index differs from the tree the loop is armed, mid-reindex, or has a relevant event queued; idle on an empty queue it is up to date. |
| WatchLoop.ArmsIff | crates/apohara-codesearch/src/watch.rs:148-171 | The idle loop is armed by an error of the watcher and by a create, modify, remove or unspecified event with a path that is not in the root's `.apohara-codesearch`, and by nothing else. |
| WatchLoop.OneReindexPerBurst | crates/apohara-codesearch/src/watch.rs:107-133 | Over every run there are at most as many reindexes as events the idle loop received, no event is lost or taken twice, and when a reindex starts every event delivered until then has been taken. |
| WatchLoop.FailureRecoversIff | crates/apohara-codesearch/src/watch.rs:139-144 | After a failed reindex the loop by itself, without a further event, can come to rest with an up-to-date index if and only if the index already was or a relevant event was waiting. |
| WatchLoop.NextSaveRecovers | crates/apohara-codesearch/src/watch.rs:141-143 | From any state and through any number of failed reindexes, once an edit or another relevant event comes after the last failure nothing is forgotten any more, and the loop's own steps lead to an up-to-date index. |
| WatchLoop.FailureCanStrand | crates/apohara-codesearch/src/watch.rs:141-143 | One edit and one failing reindex leave an idle watcher, an empty queue and a stale index. |
| WatchLoop.NoSelfTrigger | crates/apohara-codesearch/src/watch.rs:148-171 | With the registry directory outside the watched root or under the index directory, the events of a reindex itself (reads, index writes, registry writes) never start another, however many arrive. |
| WatchLoop.SelfTriggersIff | crates/apohara-codesearch/src/watch.rs:66-85 | The events of a reindex itself can start another if and only if the registry directory lies below the watched root and not under the index directory. |
| WatchLoop.CanCatchUp | crates/apohara-codesearch/src/watch.rs:113-145 | Whenever the invariant holds, the loop's own steps lead to an idle watcher with the index equal to the tree. |
| RegistryFile.StepKeepsInv | crates/apohara-indexer/src/registry.rs:146-191 | Every step of every process and thread, crashes included, keeps names, temp files, published files and snapshots in order. |
| RegistryFile.PublishedIsFrozen | crates/apohara-indexer/src/registry.rs:163-180 | A file once renamed onto the target is never written again. |
| RegistryFile.NeverTorn | crates/apohara-indexer/src/registry.rs:146-191 | Over every run the target is absent or one complete serialization of entries from `register` calls, and every finished read saw such a file. |
| RegistryFile.RegisterAlone | crates/apohara-indexer/src/registry.rs:187-191 | Undisturbed, from any reachable state, one `register` call leaves in the file exactly its own entry and those entries of other roots whose database exists. |
| RegistryFile.LiveEntrySurvives | crates/apohara-indexer/src/registry.rs:187-191 | A live entry that every call in flight has in hand, reads from its file or is about to insert survives every run that neither re-registers its root nor deletes its database. |
| RegistryFile.SurvivesIff | crates/apohara-indexer/src/registry.rs:182-191 | That is exact: a live entry in the file survives all such runs if and only if every call in flight has it or is about to insert it. |
| RegistryFile.RenameDecides | crates/apohara-indexer/src/registry.rs:163-191 | After a rename the file has an entry if and only if the renaming call had it in its map. |
| RegistryFile.UpdateCanBeLost | crates/apohara-indexer/src/registry.rs:182-191 | For every two roots a run exists in which both calls have read before either writes and from then on only save; the first entry is in the file after the first save and gone after the second, with its database in place and its root registered nowhere else throughout. |
| BuildLock.BuildsExclusiveIffFaithful | crates/apohara-codesearch/src/server.rs:122-169 | Two lazy builds of one file are never under way together, in any schedule, if and only if roots that lead to one file resolve to one lock key. |
| BuildLock.OneBuildOpens | crates/apohara-codesearch/src/server.rs:143-169 | Under such keys at most one lazy build ever opens a given database file. |
| BuildLock.CallerPassesEarly | crates/apohara-codesearch/src/server.rs:143-152 | For every root a run exists in which one call returns while another is still building. |
| Tokens.SplitSegment | crates/apohara-indexer/src/tokens.rs:34-48 | The loop pushes the lowercased parts of the segment in order, for any text. |
| Tokens.Tokenize | crates/apohara-indexer/src/tokens.rs:20-30 | The tokens of all segments in order, empty segments giving none, for any text. |
| Tokens.PartsAreExact | crates/apohara-indexer/src/tokens.rs:34-80 | For any text: before lowercasing, the parts are non-empty, concatenate to the segment and start exactly at its boundaries. |
| Tokens.CutsOfSegment | crates/apohara-indexer/src/tokens.rs:57-80 | A segment is cut exactly before each capital that follows a small letter or an ASCII digit, or that follows a capital and comes before a small letter. |
| Tokens.TokensOfJoined | crates/apohara-indexer/src/tokens.rs:20-30 | Texts joined by any separator have the tokens of each text in turn. |
| Tokens.RetokenizingIff | crates/apohara-indexer/src/storage.rs:264 | For any text, tokenizing the stored space-joined tokens gives the same tokens if and only if every token on its own tokenizes to itself. |
| Tokens.RetokenizingIsIdentity | crates/apohara-indexer/src/storage.rs:264 | For ASCII text it always does, and all tokens are lowercase letters and digits. |
| Tokens.DottedCapitalIsNotFixed | crates/apohara-indexer/src/storage.rs:264 | Beyond ASCII it can fail: the capital I with a dot is stored as an `i` with a combining dot and read back as `i`. |
| Tokens.JoinedTokens | crates/apohara-indexer/src/tokens.rs:20-30 | Lowercase words joined by any separator tokenize to those words. |
| Tokens.CasingsAgree | crates/apohara-indexer/src/tokens.rs:57-80 | snake_case always tokenizes to its words; PascalCase and camelCase do if and only if in every hump either the left word has two characters or the right one goes on in a lowercase letter, which words of two characters always satisfy. |
| Tokens.AcronymBeforeWord | crates/apohara-indexer/src/tokens.rs:9-11 | A run of capitals before a capitalized word that goes on in a small letter is a token of its own, as in `HTTPServer`. |
| Tokens.ScreamingTokens | crates/apohara-indexer/src/tokens.rs:6-11 | Words in capitals joined by any separator, as in `MAX_SIZE`, give the words in small letters. |
| Tokens.OneLetterWordsMerge | crates/apohara-indexer/src/tokens.rs:57-80 | Two one-letter words in PascalCase run into one token. |
| FeatureHash.Accumulate | crates/apohara-indexer/src/embeddings.rs:31-39 | The in-place additions give every bucket the signed count of its tokens. |
| FeatureHash.FeatureHashEmbed | crates/apohara-indexer/src/embeddings.rs:21-47 | The vector has the asked width and is the signed counts scaled to length one, or zero if all counts are. |
| FeatureHash.TallyOfMultiset | crates/apohara-indexer/src/embeddings.rs:31-39 | The counts depend on the multiset of tokens only. |
| FeatureHash.TallyCounts | crates/apohara-indexer/src/embeddings.rs:31-39 | A bucket holds the number of tokens whose 32-bit word is its number modulo the width and whose sign bit is clear, less those whose bit is set. |
| FeatureHash.OneToken | crates/apohara-indexer/src/embeddings.rs:31-46 | The embedding of one token is 1, or -1 if its sign bit is set, at its word modulo the width and 0 elsewhere. |
| FeatureHash.EmbeddingOfMultiset | crates/apohara-indexer/src/embeddings.rs:21-47 | So does the embedding. |
| FeatureHash.EmbeddingIsUnique | crates/apohara-indexer/src/embeddings.rs:21-47 | The tokens determine the embedding. |
| FeatureHash.L1Parity | crates/apohara-indexer/src/embeddings.rs:31-39 | The L1 norm of the counts is at most the number of tokens and has its parity. |
| FeatureHash.OddIsNonZero | crates/apohara-indexer/src/embeddings.rs:31-39 | An odd number of tokens never cancels to the zero vector. |
| FeatureHash.SeparatorsDoNotMatter | crates/apohara-indexer/src/embeddings.rs:13-16 | ASCII words of any casing, joined by underscores, spaces or any other ASCII separator, have the same tokens, their lowercase forms. |
| SyntaxWalk.ExtractBashFunctionSpans | crates/apohara-indexer/src/parser.rs:2235-2257 | The spans, in document order, of `function_definition`, body descended; a node without a readable name is passed over, its body is not. |
| SyntaxWalk.ExtractCFunctionSpans | crates/apohara-indexer/src/parser.rs:2610-2632 | The spans, in document order, of `function_definition`, read by a given reader, body descended; a node without a readable name is passed over, its body is not. |
| SyntaxWalk.ExtractCppFunctionSpans | crates/apohara-indexer/src/parser.rs:2931-2969 | The spans, in document order, of `function_definition`, `class_specifier` as class and `struct_specifier` as struct, bodies descended; a node without a readable name is passed over, its body is not. |
| SyntaxWalk.ExtractPythonFunctionSpans | crates/apohara-indexer/src/parser.rs:1950-1981 | The spans, in document order, of `function_definition` and `class_definition` as class, bodies descended; a node without a readable name is passed over, its body is not. |
| SyntaxWalk.ExtractRubyFunctionSpans | crates/apohara-indexer/src/parser.rs:2781-2823 | The spans, in document order, of `class`, `module`, bodies descended, `method` and `singleton_method`, not descended. |
| SyntaxWalk.ExtractBashFunctions | crates/apohara-indexer/src/parser.rs:2199-2217 | The signatures, in document order, of `function_definition`, body descended. |
| SyntaxWalk.ExtractCFunctions | crates/apohara-indexer/src/parser.rs:2531-2549 | The signatures, in document order, of `function_definition`, read by a given reader, body descended. |
| SyntaxWalk.ExtractCppFunctions | crates/apohara-indexer/src/parser.rs:2895-2928 | The signatures, in document order, of `function_definition`, `class_specifier` and `struct_specifier`, bodies descended. |
| SyntaxWalk.ExtractPythonFunctions | crates/apohara-indexer/src/parser.rs:1746-1771 | The signatures, in document order, of `function_definition`; a `class_definition` is only descended. |
| SyntaxWalk.ExtractRubyFunctions | crates/apohara-indexer/src/parser.rs:2682-2708 | The signatures, in document order, of `class` and `module`, bodies descended, `method` and `singleton_method`, not descended. |
| SyntaxWalk.WalksAgree | crates/apohara-indexer/src/parser.rs:2199-2257 | On every tree the plain walk reports the signatures of the span walk in order: all of them for Bash, C, C++ and Ruby, and for Python those at exactly the places of its functions. |
| SyntaxWalk.SpansAreSymbols | crates/apohara-indexer/src/parser.rs:1950-1981 | A span is emitted if and only if some node the walk looks at (below ordinary nodes and the first `body` of definitions, not below Ruby methods) has the kind, the kind of symbol, the rows and the signature that a table of literal node kinds asks for in its grammar. |
| SyntaxWalk.DocumentOrder | crates/apohara-indexer/src/chunker.rs:178-181 | On a well-nested tree whose definitions are not filled by their bodies, of any two spans the first ends before the second starts or properly encloses it; so no byte range is emitted twice. |
| SyntaxWalk.EnclosingComesFirst | crates/apohara-indexer/src/chunker.rs:178-181 | On a well-nested tree a symbol is emitted before every symbol it encloses. |
| SyntaxWalk.SpansMeetContract | crates/apohara-indexer/src/parser.rs:1531-1539 | If every node the rules emit starts inside the file, the spans do, which is what the chunker relies on; the empty file is included. |
| SyntaxWalk.WalkedSpansAreSound | crates/apohara-indexer/src/parser.rs:1511-1526 | For the five languages this gives the parser contract that the index assumes of its parser. |

## Left out

- Several writers on one database at a time: every run has the index to itself, as one process and one
  connection. The registry and the build lock are the parts modelled with concurrent actors.
- SQLite, FTS5 scoring, sqlite-vec search, blake3, the tree-sitter grammars, JSON text and the directory
  walk are parameters or given inputs.
- Floating point: scores, weights and vectors are reals, so rounding, overflow and NaN do not occur; the
  square root is any function that inverts squaring on positive numbers. `resolve_weights` supplies finite
  weights that are not negative.
- An index with vectors but no recorded embedder passes every gate and is stamped with whichever embedder runs
  next (`IndexStore.GateSafeIff`); the chained runs start from indexes whose vectors `meta` vouches for, such as
  an empty one.
- Machine widths: line numbers, counters and modification times are unbounded integers except where an id
  is parsed as `i64` and a schema version as `u32`.
- Unicode tables: the character classes and lowercasing are given (`Tokens.Alphabet`), assumed only to agree with
  ASCII on ASCII; the results about particular words and casings are about ASCII words.
- FeatureHash.SeparatorsDoNotMatter: for ASCII words and separators, whose lowercasing does not depend on their
  neighbours.
- SyntaxWalk.WalksAgree: not stated for Rust, TypeScript, Go and Java, whose two walks differ on purpose or
  by field name; the functions that read parameters and return types off a node are given.
- Schema.Migrate: the rows of tables other than `files` and `meta` are carried along unchanged; reads of
  `PRAGMA table_info` fail as the statement after them would.
- RegistryFile.NeverTorn: the JSON codec is any pair of functions that round-trip; errors of the file system
  other than giving up are not told apart.
- WatchLoop.NeverForgets: starts once the watcher is armed; edits between the initial index and that moment
  are not seen by the program either. Every edit is taken to deliver an event for its path.
- BuildLock.OneBuildOpens: the server's `reindex` tool and the watcher take no build lock; a file they create
  appears as a step from elsewhere.
- The quarantined `insert_chunk`, the test-only legacy builder and the search fixtures under
  `examples/bench-corpus`: not on any path of the engine.
- The embedding model backends, weight heuristics, signature rendering, snippets, transfer objects, command
  line and scripts: plumbing, or tensor code over libraries whose source is elsewhere.
