# strax SQLite cache backend, modelled in Dafny

strax caches each computed dataset under a key. The SQLite backend
(`strax/storage/sql.py`) is meant to keep one table per key, with each data
row carrying a `chunk_i` column naming its chunk. A shared `metadata` table is
meant to hold one row `(name, metadata)` per key, where the second column is
the JSON-serialised metadata dict. Nothing makes that row unique: a second
`close` inserts another one (see "Behaviour as the code has it").

`SQLLiteStore` answers whether a key is cached. The key's table must exist,
and then exactly one well-formed metadata row must exist for it. The store
also reads one chunk back by its index. `SQLLiteSaver` writes one entry. It is
meant to stamp each chunk's rows with `chunk_i`, append them to the key's
table, collect the chunk descriptors, and at `close` insert one metadata row.
As written, it hands the unstamped records to the writer, and its first
descriptor append raises; both are recorded under "## Findings", and the
model's saver does what the backend is meant to do.

The model replaces the database with its contents: a map from table name to
the table's rows in stored order (`CacheTypes.Tables`). Every table is in
that map, the `metadata` table included, because the table listing of the
code reports it like any other. A row is an ordered list of named cells. This
keeps the width check on the metadata row and the positional read of its
second column meaningful.

The model has these parts:

- `CacheTypes`: cells, rows, chunk descriptors, the metadata dict and the
  errors. `Serialise`/`Parse` stand for `json.dumps`/`json.loads`. A cell
  `JsonText(doc)` is the text that dumping `doc` produced.
- `Rows`: reading a column, pandas column assignment, stamping a chunk with its
  index, and SQL's `WHERE column == value`.
- `SqlQueries`: the queries (`ReadMeta`, `Find`, `ReadChunk`) and the state
  changes (`Opened`, `ChunkSaved`, `Published`) as functions of the database
  contents, with lemmas about them.
- `SqlStore`: the classes. `Db` is the shared database file, updated in place.
  `Store` and `Saver` both hold the same `Db`, because both connect to
  `strax.db`. The mutating methods say exactly what the new state is in terms
  of the `SqlQueries` functions. The read-only methods return what those
  functions compute. `TwoChunkEntry` runs a whole entry through the classes.
- `Lifecycle`: the entry as a state machine, from a miss through writes and
  the close to a hit. It also covers what happens to an abandoned write, a
  close without chunks, and a double close.
- `Findings`: two defects of the saver, modelled as written.

## Behaviour as the code has it

- A chunk write creates the key's table at once, while the metadata row appears
  only at `close`. Between the two, `_find` does not report a miss. It raises
  "Metadata missing", because the table exists and the metadata row does not.
  `Lifecycle.MissWriteCloseHit` proves this. So does an abandoned saver that
  wrote at least one chunk: later lookups fail loudly instead of recomputing.
  The design intent is that an in-progress write reads as "not cached". The
  code does not do that, and the model follows the code.
- A saver closed without any chunk publishes metadata but creates no table, so
  the key still misses (`Lifecycle.CloseWithoutChunks`).
- Nothing guards against a second `close`. It inserts a second row, and every
  later lookup of that key fails with "Repeated metadata error"
  (`Lifecycle.DoubleClose`).
- `saver(key, metadata)` does not look at what is already stored under the key.

## Model

| member | source | states |
|---|---|---|
| `CacheTypes.Serialise` | strax/storage/sql.py:113 | loading the text that dumping the metadata produced gives the same metadata back |
| `CacheTypes.Parse` | strax/storage/sql.py:78 | only text that json.dumps produced loads, and it loads to the document it encodes; anything else is a JSON error |
| `Rows.Lookup` | strax/storage/sql.py:62 | a row has no value for a column exactly when the column is not among its column names; a value found is a cell of the row |
| `Rows.SetColumn` | strax/storage/sql.py:99 | after `row[c] = v` the column holds `v` and every other column reads as before; an existing column keeps its place, a new one is appended last |
| `Rows.Stamp` | strax/storage/sql.py:97-99 | one output row per input record; each has `chunk_i` equal to the chunk's index, and every other column reads as in the record |
| `Rows.Where` | strax/storage/sql.py:62 | the selection holds exactly the rows whose column equals the value, and no more rows than the table |
| `Rows.WhereAppend` | strax/storage/sql.py:62 | selecting from rows appended after others gives the earlier selection followed by the later one, so stored order is kept |
| `Rows.WhereAll` | strax/storage/sql.py:62 | when every row matches, the selection is the whole table in order |
| `Rows.WhereRepeated` | strax/storage/sql.py:71-73 | the selection holds more than one row exactly when two different positions match |
| `SqlQueries.ReadMeta` | strax/storage/sql.py:66-78 | the checks come in the code's order: two or more rows for the name is "Repeated metadata error"; none is "Metadata missing"; otherwise a single row whose width is not 2 is "Misformatted metadata"; otherwise the result is the loaded second column of that one row, and a second column that does not load is the JSON error. Each case holds exactly when its condition does. A missing metadata table is a "no such table" error, and the result is never NotCached |
| `SqlQueries.Find` | strax/storage/sql.py:49-59 | NotCached exactly when the key's table does not exist, whatever the metadata table holds; a hit (returning the key) exactly when the table exists and its metadata reads; otherwise the metadata error itself |
| `SqlQueries.ReadChunk` | strax/storage/sql.py:61-64 | the result holds exactly the rows of the table whose `chunk_i` equals the descriptor's index; a missing table is a "no such table" error |
| `SqlQueries.Appended` | strax/storage/sql.py:102-105 | the table gets the new rows after its old ones, and is created if absent; every other table is unchanged |
| `SqlQueries.Opened` | strax/storage/sql.py:33-37 | afterwards the metadata table exists; all existing tables are kept as they were; a created metadata table is empty |
| `SqlQueries.ChunkSaved` | strax/storage/sql.py:95-106 | the key's table becomes its old rows followed by the chunk's stamped rows; no other table changes |
| `SqlQueries.Published` | strax/storage/sql.py:111-116 | the metadata table gains exactly one row `(key, serialised metadata)` at its end and stays two columns wide; no data table changes and no table is created; with no metadata table, "no such table"; with a metadata table that is not two columns wide, the two-value insert fails. It fails exactly in those two cases |
| `SqlQueries.TwoWideNeverMisformatted` | strax/storage/sql.py:76-77 | a metadata table whose rows are all two columns wide never yields "Misformatted metadata"; whenever a lookup is misformatted, `close` on that database fails |
| `SqlQueries.MetaRowNamed` | strax/storage/sql.py:114 | the inserted row is selected by a name exactly when the name is the key it was inserted for |
| `SqlQueries.ReadMetaAfterPublish` | strax/storage/sql.py:111-116 | in a two-column metadata table, publishing for a key with no metadata row makes its metadata read back as exactly what was published |
| `SqlQueries.PublishTwiceRepeats` | strax/storage/sql.py:72-73 | in a two-column metadata table, after two publishes for one key, its metadata fails with "Repeated metadata error" |
| `SqlQueries.ChunkRoundTrip` | strax/storage/sql.py:95-106 | if the table has no rows for a chunk index, then after that chunk is saved, reading that index returns exactly its stamped rows in order |
| `SqlStore.Db.constructor` | strax/storage/sql.py:29-31 | the database opens with the file's existing tables |
| `SqlStore.Store.constructor` | strax/storage/sql.py:19-38 | afterwards the metadata table exists; if it was already there, nothing changes |
| `SqlStore.Store.GetTables` | strax/storage/sql.py:40-47 | lists exactly the tables of the database |
| `SqlStore.Store.Find` | strax/storage/sql.py:49-59 | lists the tables, then reads the metadata only for a present key; the result is `SqlQueries.Find` of the current database, and nothing changes |
| `SqlStore.Store.ReadChunk` | strax/storage/sql.py:61-64 | the result is `SqlQueries.ReadChunk` of the current database, and nothing changes |
| `SqlStore.Store.ReadMeta` | strax/storage/sql.py:66-78 | selects the rows named `table` and checks them in the code's order (more than one, none, width not 2) before loading the second column; the result is `SqlQueries.ReadMeta` of the current database, and nothing changes |
| `SqlStore.Store.NewSaver` | strax/storage/sql.py:80-82 | returns a new saver for the key on the same database, with the caller's metadata and an empty chunk list |
| `SqlStore.Saver.constructor` | strax/storage/sql.py:89-93 | the saver starts with the caller's metadata and an empty chunk list |
| `SqlStore.Saver.SaveChunk` | strax/storage/sql.py:95-106 | the new database is `SqlQueries.ChunkSaved` of the old: the key's table grows by the chunk's stamped rows, and is created if absent; other tables are unchanged; returns an empty dict |
| `SqlStore.Saver.SaveChunkMetadata` | strax/storage/sql.py:108-109 | exactly one descriptor is added at the end of the chunk list; earlier descriptors and other fields are unchanged |
| `SqlStore.Saver.Close` | strax/storage/sql.py:111-116 | inserts exactly one `(key, serialised metadata)` row into a two-column metadata table and changes no data table; with no metadata table, or one not two columns wide, it fails and changes nothing |
| `SqlStore.WriteTwoChunks` | strax/storage/sql.py:95-109 | a saver that writes chunks 0 and 1 holds both descriptors in order, and the database holds both stamped chunks |
| `SqlStore.TwoChunkEntry` | strax/storage/sql.py:49-116 | through the classes, on a file whose metadata table (if any) is two columns wide and has no row for the key, a new key misses (`NotCached`); after two chunks and a close it hits, its metadata reads back, and each chunk reads back by its index |
| `SqlStore.TwoChunksReadBack` | strax/storage/sql.py:61-64 | two chunks with different indices written to a new table each read back as their own stamped rows |
| `SqlStore.PublishKeepsEntry` | strax/storage/sql.py:111-116 | publishing a key with a table and no metadata row, into a two-column metadata table, makes it hit, reads its metadata back, and leaves every chunk read of it as before |
| `Lifecycle.AppendedTwice` | strax/storage/sql.py:102-105 | two appends to one table equal one append of both row sequences |
| `Lifecycle.AfterWritesAppends` | strax/storage/sql.py:95-106 | a series of chunk writes appends all stamped rows to the key's table in write order and touches no other table; no writes change nothing |
| `Lifecycle.WhereWrittenNone` | strax/storage/sql.py:61-64 | selecting by an index that no written chunk has finds nothing |
| `Lifecycle.WhereWrittenOne` | strax/storage/sql.py:61-64 | among chunks with distinct indices, selecting by one chunk's index gives exactly that chunk's stamped rows |
| `Lifecycle.ReadBack` | strax/storage/sql.py:61-64 | every chunk written to a new table reads back by its index as exactly the rows written for it, in order |
| `Lifecycle.MissWriteCloseHit` | strax/storage/sql.py:49-59 | on a file whose metadata table (if any) is two columns wide, a new key misses; after chunk writes and before the close it fails with "Metadata missing"; after the close it hits, and the metadata reads back with the descriptors in write order |
| `Lifecycle.CloseWithoutChunks` | strax/storage/sql.py:49-59 | on a file whose metadata table (if any) is two columns wide, a close without chunks succeeds and leaves a new key missing |
| `Lifecycle.DoubleClose` | strax/storage/sql.py:111-116 | on a file whose metadata table (if any) is two columns wide, a second close of an entry makes later lookups fail with "Repeated metadata error" |
| `Findings.Append` | strax/storage/sql.py:109 | `.append` adds one item at the end of a list and keeps the earlier items in place; on a dict it raises |
| `Findings.FirstDescriptorRaisesAsWritten` | strax/storage/sql.py:93 | with `md['chunks']` initialised to a dict, the first descriptor append raises |
| `Findings.DescriptorsAppendFromList` | strax/storage/sql.py:108-109 | starting from an empty list, successive appends hold exactly the descriptors in call order |
| `Findings.ChunkSavedAsWritten` | strax/storage/sql.py:102-105 | as written, the key's table receives the unstamped records |
| `Findings.ChunkLostAsWritten` | strax/storage/sql.py:97-105 | a record written as the code does cannot be read back by its chunk index (no rows in the model, "no such column" in SQLite), while the stamped write reads back |

## Findings

| source | as written | input that shows it | evidently intended | confidence | as-written member | corrected member |
|---|---|---|---|---|---|---|
| strax/storage/sql.py:93 | `md['chunks']` is initialised to `{}`, and `_save_chunk_metadata` (line 109) calls `.append` on it | any first descriptor, e.g. `{'chunk_i': 0}`: a dict has no `append`, so AttributeError | `md['chunks']` starts as an empty list that collects descriptors in order | high; not executed | `Findings.FirstDescriptorRaisesAsWritten` | `SqlStore.Saver.SaveChunkMetadata` |
| strax/storage/sql.py:102 | the stamped frame `table` is built (lines 97-99), but the original `data` is handed to the writer | one record `time=7` saved as chunk 0 into a new table: the read cannot return the chunk. SQLite raises on the missing `chunk_i` column, and the model, which treats a missing column as no match, returns no rows | the rows written carry `chunk_i`, so that `_read_chunk` (line 62) selects them | medium (petl's handling of the record array is not modelled); not executed | `Findings.ChunkLostAsWritten` | `SqlStore.Saver.SaveChunk` |

## Left out

- Connections, cursors and transactions are not modelled. Every state change takes effect at once and is seen by every connection. In the code, the `INSERT` of `close` (line 116) opens a transaction that is never committed, so the store's own connection would not see the metadata row, even within the same process; `etl.todb` commits its own writes by default. The hits after a close (`Lifecycle.MissWriteCloseHit`, `SqlStore.TwoChunkEntry`, `SqlStore.PublishKeepsEntry`) therefore rest on this immediate-effect abstraction. Whether anything survives the process is not modelled either.
- Building the SQL text and quoting it is not modelled. Each query is modelled by its meaning. A key containing a quote would break, or inject into, the generated statements (lines 62, 67 and 114), and this is not modelled. `json.dumps` does not escape `'`, so a metadata value holding a single quote breaks the `INSERT` of `close` (line 114) too; the model's `close` succeeds on such metadata.
- pandas and petl conversions are not modelled. Records are ordered lists of named cells. `_read_chunk`'s `dtype` and `compressor` arguments are ignored, as the code ignores them, and the record-array conversion of the result is not modelled.
- `SqlQueries.Published`, `SqlStore.Saver.Close`: the model gives a table no column count of its own, only rows. A metadata table is taken to be two columns wide when all its rows are. An empty metadata table of another width, left in the file from elsewhere, is treated as two columns wide, so `close` succeeds on it in the model where the program's insert fails.
- `Rows.Where`: a row without the selected column does not match. SQLite would instead reject the whole query when the table has no such column.
- `etl.todb(..., create=True)` is called on every chunk. It is modelled as "append the rows, creating the table if absent" (`SqlQueries.Appended`). petl's own create and drop behaviour is not modelled. If petl's `todb` empties the target table before inserting, or re-creates it on every call, then as written a second chunk for the same key replaces the first instead of following it. The multi-chunk read-backs (`Lifecycle.ReadBack`, `Lifecycle.MissWriteCloseHit`, `SqlStore.TwoChunkEntry`, `SqlStore.TwoChunksReadBack`) therefore rest on this append abstraction.
- JSON encoding is not modelled, only the dump/load pair. Text in the metadata column that json.dumps did not produce is treated as not loading.
- Debug prints and log calls are not modelled.
- The base classes `Store` and `Saver` and the class `CacheKey` (`strax/storage/common.py`) are not part of this model. `str(key)` is an opaque string. Whatever `super().__init__`, `super().saver` and `super().close()` check or do is not modelled. The lifecycle lemmas assume each chunk goes through `_save_chunk` and then `_save_chunk_metadata`, in order.
- `_get_tables` returns a list. The model returns the set of names, because the order of the catalogue is not used.
- Concurrent use of the store's and the saver's separate connections is not modelled.
- `setup.py`, `strax/__init__.py` and `strax/processing/__init__.py` hold packaging and re-exports only, and are not modelled.
