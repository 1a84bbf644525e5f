/** The SQLite backend's queries and state changes, as functions of the
    database contents. The classes in SqlStore run these against the shared
    database object; the lemmas here state what the queries decide. */
module SqlQueries {
  import opened CacheTypes
  import opened Rows

  /** Whether row `k` of `rows` is the metadata row of `name`. */
  predicate NamedAt(rows: seq<Row>, k: int, name: string)
    requires 0 <= k < |rows|
  {
    Matches(rows[k], NameColumn, TextVal(name))
  }

  /** Two different rows carry `name`. */
  predicate Repeated(rows: seq<Row>, name: string)
  {
    exists j, k :: 0 <= j < k < |rows| &&
      Matches(rows[j], NameColumn, TextVal(name)) && Matches(rows[k], NameColumn, TextVal(name))
  }

  /** Every row is two columns wide, as the table `SQLLiteStore.__init__`
      creates. A table whose rows are wider or narrower is one that was
      already in the file with another shape. */
  predicate TwoWide(rows: seq<Row>)
  {
    forall k :: 0 <= k < |rows| ==> |rows[k]| == 2
  }

  /** No row carries `name`. */
  predicate Missing(rows: seq<Row>, name: string)
  {
    forall k :: 0 <= k < |rows| ==> !NamedAt(rows, k, name)
  }

  /** `_read_meta(table)`: select the metadata rows named `table`; more than one
      is "Repeated metadata error", none is "Metadata missing", a row that is not
      two columns wide is "Misformatted metadata"; otherwise the second column
      is loaded as JSON. The checks happen in that order. */
  function ReadMeta(t: Tables, name: string): (r: Result<Metadata>)
    ensures r != Err(NotCached)
    ensures r == Err(NoSuchTable(MetaTable)) <==> MetaTable !in t
    ensures r == Err(RepeatedMetadata) <==> MetaTable in t && Repeated(t[MetaTable], name)
    ensures r == Err(MetadataMissing) <==> MetaTable in t && Missing(t[MetaTable], name)
    ensures r == Err(MisformattedMetadata) <==>
      MetaTable in t && !Repeated(t[MetaTable], name) &&
      exists k :: 0 <= k < |t[MetaTable]| && NamedAt(t[MetaTable], k, name) && |t[MetaTable][k]| != 2
    ensures r.Ok? <==>
      MetaTable in t && !Repeated(t[MetaTable], name) &&
      exists k :: 0 <= k < |t[MetaTable]| && NamedAt(t[MetaTable], k, name) &&
                  |t[MetaTable][k]| == 2 && t[MetaTable][k][1].value.JsonText?
    ensures r == Err(NotJson) <==>
      MetaTable in t && !Repeated(t[MetaTable], name) &&
      exists k :: 0 <= k < |t[MetaTable]| && NamedAt(t[MetaTable], k, name) &&
                  |t[MetaTable][k]| == 2 && !t[MetaTable][k][1].value.JsonText?
    ensures r.Ok? ==>
      exists k :: 0 <= k < |t[MetaTable]| && NamedAt(t[MetaTable], k, name) &&
                  |t[MetaTable][k]| == 2 && t[MetaTable][k][1].value == Serialise(r.value)
  {
    if MetaTable !in t then Err(NoSuchTable(MetaTable))
    else
      var rows := t[MetaTable];
      var hits := Where(rows, NameColumn, TextVal(name));
      WhereRepeated(rows, NameColumn, TextVal(name));
      if |hits| > 1 then
        var j, k :| 0 <= j < k < |rows| &&
          Matches(rows[j], NameColumn, TextVal(name)) && Matches(rows[k], NameColumn, TextVal(name));
        assert NamedAt(rows, j, name);
        Err(RepeatedMetadata)
      else if |hits| == 0 then
        assert Missing(rows, name) by {
          forall k | 0 <= k < |rows| ensures !NamedAt(rows, k, name) {
            assert rows[k] in rows;
          }
        }
        Err(MetadataMissing)
      else
        var row := hits[0];
        assert row in hits;
        var k :| 0 <= k < |rows| && rows[k] == row;
        assert NamedAt(rows, k, name);
        assert !Missing(rows, name);
        assert forall j :: 0 <= j < |rows| && NamedAt(rows, j, name) ==> rows[j] == row by {
          forall j | 0 <= j < |rows| && NamedAt(rows, j, name) ensures rows[j] == row {
            assert rows[j] in hits;
          }
        }
        if |row| != 2 then Err(MisformattedMetadata)
        else Parse(row[1].value)
  }

  /** `_find(key)`: a key is cached only if its table exists, and then only if
      its metadata reads back; a metadata fault is raised as is, never turned
      into NotCached. */
  function Find(t: Tables, key: string): (r: Result<string>)
    ensures r == Err(NotCached) <==> key !in t
    ensures r.Ok? <==> key in t && ReadMeta(t, key).Ok?
    ensures r.Ok? ==> r.value == key
    ensures key in t && r.Err? ==> r.error == ReadMeta(t, key).error
  {
    if key in t then
      match ReadMeta(t, key)
      case Ok(_) => Ok(key)
      case Err(e) => Err(e)
    else Err(NotCached)
  }

  /** `_read_chunk(table, chunk_info)`: the rows of `table` whose `chunk_i`
      column equals the descriptor's index, in stored order. */
  function ReadChunk(t: Tables, table: string, info: ChunkInfo): (r: Result<seq<Row>>)
    ensures r.Err? <==> table !in t
    ensures r.Err? ==> r.error == NoSuchTable(table)
    ensures r.Ok? ==> forall row :: row in r.value <==>
      row in t[table] && Lookup(row, ChunkColumn) == Some(IntVal(info.chunkI))
  {
    if table in t then Ok(Where(t[table], ChunkColumn, IntVal(info.chunkI)))
    else Err(NoSuchTable(table))
  }

  /** The rows already in table `name`, none when it does not exist yet. */
  function Existing(t: Tables, name: string): seq<Row>
  {
    if name in t then t[name] else []
  }

  /** Append rows to a table, creating it when absent. This is how the
      writer's `create=True` call is modelled; petl's own create and empty
      behaviour is not. */
  function Appended(t: Tables, name: string, rows: seq<Row>): (t': Tables)
    ensures t'.Keys == t.Keys + {name}
    ensures t'[name] == Existing(t, name) + rows
    ensures forall n :: n in t && n != name ==> t'[n] == t[n]
  {
    t[name := Existing(t, name) + rows]
  }

  /** `SQLLiteStore.__init__`: create the empty metadata table unless it exists. */
  function Opened(t: Tables): (t': Tables)
    ensures t'.Keys == t.Keys + {MetaTable}
    ensures forall n :: n in t ==> t'[n] == t[n]
    ensures MetaTable !in t ==> t'[MetaTable] == []
  {
    if MetaTable in t then t else t[MetaTable := []]
  }

  /** `SQLLiteSaver._save_chunk`: the chunk's rows stamped with its index,
      appended to the key's table. */
  function ChunkSaved(t: Tables, key: string, data: seq<Row>, info: ChunkInfo): (t': Tables)
    ensures t'.Keys == t.Keys + {key}
    ensures t'[key] == Existing(t, key) + Stamp(data, info.chunkI)
    ensures forall n :: n in t && n != key ==> t'[n] == t[n]
  {
    Appended(t, key, Stamp(data, info.chunkI))
  }

  /** The row `close` inserts: the key and the serialised metadata. */
  function MetaRow(key: string, md: Metadata): Row
  {
    [Field(NameColumn, TextVal(key)), Field(MetadataColumn, Serialise(md))]
  }

  /** `SQLLiteSaver.close`: one row `(key, json)` inserted into the metadata
      table. The insert supplies two values, so it fails on a metadata table
      whose rows are not two columns wide. */
  function Published(t: Tables, key: string, md: Metadata): (r: Result<Tables>)
    ensures r.Err? <==> MetaTable !in t || !TwoWide(t[MetaTable])
    ensures MetaTable !in t ==> r == Err(NoSuchTable(MetaTable))
    ensures MetaTable in t && !TwoWide(t[MetaTable]) ==> r == Err(ColumnCountMismatch(MetaTable))
    ensures r.Ok? ==> r.value.Keys == t.Keys && r.value[MetaTable] == t[MetaTable] + [MetaRow(key, md)]
    ensures r.Ok? ==> TwoWide(r.value[MetaTable])
    ensures r.Ok? ==> forall n :: n in t && n != MetaTable ==> r.value[n] == t[n]
  {
    if MetaTable !in t then Err(NoSuchTable(MetaTable))
    else if !TwoWide(t[MetaTable]) then Err(ColumnCountMismatch(MetaTable))
    else Ok(Appended(t, MetaTable, [MetaRow(key, md)]))
  }

  /** In a metadata table whose rows are all two columns wide, the metadata
      of a name is never misformatted: "Misformatted metadata" needs a table
      of another shape, and on such a table `close` fails. */
  lemma TwoWideNeverMisformatted(t: Tables, key: string, md: Metadata, name: string)
    requires MetaTable in t
    ensures TwoWide(t[MetaTable]) ==> ReadMeta(t, name) != Err(MisformattedMetadata)
    ensures ReadMeta(t, name) == Err(MisformattedMetadata) ==> Published(t, key, md) == Err(ColumnCountMismatch(MetaTable))
  {
  }

  /** The row `close` inserts is found by the name it carries. */
  lemma MetaRowNamed(key: string, md: Metadata, name: string)
    ensures Matches(MetaRow(key, md), NameColumn, TextVal(name)) <==> name == key
  {
  }

  /** Publishing metadata for a key that has none makes it read back exactly. */
  lemma ReadMetaAfterPublish(t: Tables, key: string, md: Metadata)
    requires MetaTable in t && Missing(t[MetaTable], key) && TwoWide(t[MetaTable])
    ensures Published(t, key, md).Ok?
    ensures ReadMeta(Published(t, key, md).value, key) == Ok(md)
  {
    var rows := t[MetaTable];
    var rows' := Published(t, key, md).value[MetaTable];
    MetaRowNamed(key, md, key);
    assert |rows'| == |rows| + 1 && rows'[|rows|] == MetaRow(key, md);
    assert NamedAt(rows', |rows|, key);
    assert !Repeated(rows', key) by {
      forall j | 0 <= j < |rows| ensures !Matches(rows'[j], NameColumn, TextVal(key)) {
        assert rows'[j] == rows[j];
        assert !NamedAt(rows, j, key);
      }
    }
  }

  /** A second publish for the same key leaves two rows for it, so its
      metadata no longer reads: "Repeated metadata error". */
  lemma PublishTwiceRepeats(t: Tables, key: string, md1: Metadata, md2: Metadata)
    requires MetaTable in t && TwoWide(t[MetaTable])
    ensures Published(t, key, md1).Ok?
    ensures Published(Published(t, key, md1).value, key, md2).Ok?
    ensures ReadMeta(Published(Published(t, key, md1).value, key, md2).value, key) == Err(RepeatedMetadata)
  {
    var t2 := Published(Published(t, key, md1).value, key, md2).value;
    var rows := t2[MetaTable];
    var n := |t[MetaTable]|;
    MetaRowNamed(key, md1, key);
    MetaRowNamed(key, md2, key);
    assert rows[n] == MetaRow(key, md1) && rows[n + 1] == MetaRow(key, md2);
    assert NamedAt(rows, n, key) && NamedAt(rows, n + 1, key);
  }

  /** Reading a chunk back after it was saved into a table with no rows for
      that index returns exactly the saved rows, stamped, in order. */
  lemma ChunkRoundTrip(t: Tables, key: string, data: seq<Row>, info: ChunkInfo)
    requires forall row :: row in Existing(t, key) ==> !Matches(row, ChunkColumn, IntVal(info.chunkI))
    ensures ReadChunk(ChunkSaved(t, key, data, info), key, info) == Ok(Stamp(data, info.chunkI))
  {
    var old_rows := Existing(t, key);
    var stamped := Stamp(data, info.chunkI);
    WhereAppend(old_rows, stamped, ChunkColumn, IntVal(info.chunkI));
    assert forall k :: 0 <= k < |old_rows| ==> old_rows[k] in old_rows;
    WhereNone(old_rows, ChunkColumn, IntVal(info.chunkI));
    WhereAll(stamped, ChunkColumn, IntVal(info.chunkI));
    assert ChunkSaved(t, key, data, info)[key] == old_rows + stamped;
    assert Where(old_rows + stamped, ChunkColumn, IntVal(info.chunkI)) == stamped;
  }
}
