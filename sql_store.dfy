/** The two classes of the SQLite backend over one shared database object.
    `Store` and every `Saver` it hands out open the same file, so they hold
    the same `Db`; a change a saver makes is seen by the store at once. */
module SqlStore {
  import opened CacheTypes
  import opened Rows
  import opened SqlQueries
  import opened Lifecycle

  /** The database file `strax.db`: its tables, updated in place. */
  class Db {
    var tables: Tables

    constructor(existing: Tables)
      ensures tables == existing
    {
      tables := existing;
    }
  }

  /** `SQLLiteStore`: answers whether a key is cached and reads chunks back. */
  class Store {
    const db: Db

    /** Opens the database and creates the metadata table if it is not there. */
    constructor(db: Db)
      modifies db
      ensures this.db == db
      ensures db.tables == Opened(old(db.tables))
      ensures MetaTable in db.tables
      ensures MetaTable in old(db.tables) ==> db.tables == old(db.tables)
    {
      this.db := db;
      if MetaTable !in db.tables {
        db.tables := db.tables[MetaTable := []];
      }
    }

    /** `_get_tables`: the names of all tables in the database. */
    method GetTables() returns (names: set<string>)
      ensures forall n :: n in names <==> n in db.tables
    {
      names := db.tables.Keys;
    }

    /** `_find`: the key's table must exist, then its metadata must read back. */
    method Find(key: string) returns (r: Result<string>)
      ensures r == SqlQueries.Find(db.tables, key)
    {
      var names := GetTables();
      if key in names {
        var meta := ReadMeta(key);
        if meta.Err? {
          return Err(meta.error);
        }
        return Ok(key);
      }
      return Err(NotCached);
    }

    /** `_read_chunk`: the rows of `table` stamped with the descriptor's index. */
    method ReadChunk(table: string, info: ChunkInfo) returns (r: Result<seq<Row>>)
      ensures r == SqlQueries.ReadChunk(db.tables, table, info)
    {
      if table !in db.tables {
        return Err(NoSuchTable(table));
      }
      r := Ok(Where(db.tables[table], ChunkColumn, IntVal(info.chunkI)));
    }

    /** `_read_meta`: selects the metadata rows named `table` and checks them
        in the code's order before loading the second column. */
    method ReadMeta(table: string) returns (r: Result<Metadata>)
      ensures r == SqlQueries.ReadMeta(db.tables, table)
    {
      if MetaTable !in db.tables {
        return Err(NoSuchTable(MetaTable));
      }
      var results: seq<Row> := Where(db.tables[MetaTable], NameColumn, TextVal(table));
      if |results| > 1 {
        return Err(RepeatedMetadata);
      } else if |results| == 0 {
        return Err(MetadataMissing);
      } else if |results[0]| != 2 {
        return Err(MisformattedMetadata);
      }
      r := Parse(results[0][1].value);
    }

    /** `saver(key, metadata)`: a new saver on the same database. It does not
        look at what is already stored under `key`. */
    method NewSaver(key: string, metadata: Metadata) returns (s: Saver)
      ensures fresh(s)
      ensures s.db == db && s.key == key
      ensures s.md == metadata.(chunks := [])
    {
      s := new Saver(key, metadata, db);
    }
  }

  /** `SQLLiteSaver`: one write of one key. */
  class Saver {
    const db: Db
    const key: string
    var md: Metadata

    /** Starts from the caller's metadata with an empty chunk list.
        The code initialises `md['chunks']` to a dict and later appends to it;
        a list is what the append needs, and is modelled here. */
    constructor(key: string, metadata: Metadata, db: Db)
      ensures this.db == db && this.key == key
      ensures md == metadata.(chunks := [])
    {
      this.db := db;
      this.key := key;
      md := metadata.(chunks := []);
    }

    /** `_save_chunk`: stamps every row with the chunk's index and appends the
        rows to the key's table, creating it if absent; returns an empty dict.
        The code builds the stamped table but hands the unstamped `data` to the
        writer; the stamped rows are what the chunk read selects on, and are
        what is written here. Each write appends after the key's earlier
        rows; petl's create and empty behaviour is not modelled. */
    method SaveChunk(data: seq<Row>, info: ChunkInfo) returns (r: map<string, string>)
      modifies db
      ensures db.tables == ChunkSaved(old(db.tables), key, data, info)
      ensures r == map[]
    {
      var table := Stamp(data, info.chunkI);
      db.tables := Appended(db.tables, key, table);
      r := map[];
    }

    /** `_save_chunk_metadata`: one descriptor appended after the earlier ones. */
    method SaveChunkMetadata(info: ChunkInfo)
      modifies this
      ensures md.fields == old(md.fields)
      ensures md.chunks == old(md.chunks) + [info]
    {
      md := md.(chunks := md.chunks + [info]);
    }

    /** `close`: inserts one `(key, json)` row into the metadata table; no data
        table changes. Inserting into a missing metadata table, or into one
        that is not two columns wide, fails and changes nothing. */
    method Close() returns (r: Result<()>)
      modifies db
      ensures MetaTable in old(db.tables) && TwoWide(old(db.tables[MetaTable])) ==>
        r == Ok(()) && db.tables == Published(old(db.tables), key, md).value
      ensures MetaTable in old(db.tables) && TwoWide(old(db.tables[MetaTable])) ==>
        db.tables.Keys == old(db.tables).Keys &&
        db.tables[MetaTable] == old(db.tables[MetaTable]) + [MetaRow(key, md)]
      ensures MetaTable !in old(db.tables) ==>
        r == Err(NoSuchTable(MetaTable)) && db.tables == old(db.tables)
      ensures MetaTable in old(db.tables) && !TwoWide(old(db.tables[MetaTable])) ==>
        r == Err(ColumnCountMismatch(MetaTable)) && db.tables == old(db.tables)
      ensures forall n :: n in old(db.tables) && n != MetaTable ==> db.tables[n] == old(db.tables[n])
    {
      var published := Published(db.tables, key, md);
      if published.Err? {
        return Err(published.error);
      }
      db.tables := published.value;
      r := Ok(());
    }
  }

  /** Two chunks, indices 0 and 1, written through a new saver of `store`. */
  method WriteTwoChunks(store: Store, key: string, metadata: Metadata,
                        data0: seq<Row>, data1: seq<Row>, extra: map<string, string>)
    returns (saver: Saver)
    modifies store.db
    ensures fresh(saver) && saver.db == store.db && saver.key == key
    ensures saver.md == metadata.(chunks := [ChunkInfo(0, extra), ChunkInfo(1, extra)])
    ensures store.db.tables ==
      ChunkSaved(ChunkSaved(old(store.db.tables), key, data0, ChunkInfo(0, extra)), key, data1, ChunkInfo(1, extra))
  {
    saver := store.NewSaver(key, metadata);
    var info0, info1 := ChunkInfo(0, extra), ChunkInfo(1, extra);
    var _ := saver.SaveChunk(data0, info0);
    saver.SaveChunkMetadata(info0);
    var _ := saver.SaveChunk(data1, info1);
    saver.SaveChunkMetadata(info1);
  }

  /** Two chunks written through a saver and published: the store misses
      before, hits after the close, and reads each chunk back by its index. */
  method TwoChunkEntry(db: Db, key: string, metadata: Metadata,
                       data0: seq<Row>, data1: seq<Row>, extra: map<string, string>)
    returns (store: Store, saver: Saver, miss: Result<string>)
    requires key != MetaTable && key !in db.tables
    requires MetaTable in db.tables ==> Missing(db.tables[MetaTable], key) && TwoWide(db.tables[MetaTable])
    modifies db
    ensures store.db == db && saver.db == db
    ensures miss == Err(NotCached)
    ensures saver.md == metadata.(chunks := [ChunkInfo(0, extra), ChunkInfo(1, extra)])
    ensures SqlQueries.Find(db.tables, key) == Ok(key)
    ensures SqlQueries.ReadMeta(db.tables, key) == Ok(saver.md)
    ensures SqlQueries.ReadChunk(db.tables, key, ChunkInfo(0, extra)) == Ok(Stamp(data0, 0))
    ensures SqlQueries.ReadChunk(db.tables, key, ChunkInfo(1, extra)) == Ok(Stamp(data1, 1))
  {
    store := new Store(db);
    ghost var initial := db.tables;
    miss := store.Find(key);

    saver := WriteTwoChunks(store, key, metadata, data0, data1, extra);
    ghost var written := db.tables;
    TwoChunksReadBack(initial, key, data0, ChunkInfo(0, extra), data1, ChunkInfo(1, extra));
    assert Missing(initial[MetaTable], key);
    assert MetaTable in written && written[MetaTable] == initial[MetaTable];
    PublishKeepsEntry(written, key, saver.md);

    var closed := saver.Close();
  }

  /** The two writes of TwoChunkEntry read back chunk by chunk: the
      two-chunk instance of `Lifecycle.ReadBack`, unfolded for that method. */
  lemma TwoChunksReadBack(t: Tables, key: string, data0: seq<Row>, info0: ChunkInfo,
                          data1: seq<Row>, info1: ChunkInfo)
    requires key !in t && info0.chunkI != info1.chunkI
    ensures var written := ChunkSaved(ChunkSaved(t, key, data0, info0), key, data1, info1);
      ReadChunk(written, key, info0) == Ok(Stamp(data0, info0.chunkI)) &&
      ReadChunk(written, key, info1) == Ok(Stamp(data1, info1.chunkI))
  {
    var cs := [Chunk(data0, info0), Chunk(data1, info1)];
    assert cs[..1] == [Chunk(data0, info0)] && cs[..1][..0] == [];
    assert AfterWrites(t, key, cs[..1][..0]) == t;
    assert AfterWrites(t, key, cs[..1]) == ChunkSaved(t, key, data0, info0);
    assert AfterWrites(t, key, cs) == ChunkSaved(ChunkSaved(t, key, data0, info0), key, data1, info1);
    ReadBack(t, key, cs, 0);
    ReadBack(t, key, cs, 1);
  }

  /** Publishing a key's metadata makes the key hit, reads the metadata back
      and leaves the key's chunks readable as before. */
  lemma PublishKeepsEntry(t: Tables, key: string, md: Metadata)
    requires key != MetaTable && key in t
    requires MetaTable in t && Missing(t[MetaTable], key) && TwoWide(t[MetaTable])
    ensures Published(t, key, md).Ok?
    ensures var closed := Published(t, key, md).value;
      SqlQueries.Find(closed, key) == Ok(key) &&
      SqlQueries.ReadMeta(closed, key) == Ok(md) &&
      forall info :: SqlQueries.ReadChunk(closed, key, info) == SqlQueries.ReadChunk(t, key, info)
  {
    ReadMetaAfterPublish(t, key, md);
  }
}
