/** Two places where `SQLLiteSaver` as written does not do what the rest of
    the backend relies on. Each is modelled as written, with the input that
    shows the problem; the corrected behaviour is what SqlStore.Saver does. */
module Findings {
  import opened CacheTypes
  import opened Rows
  import opened SqlQueries

  /** The Python containers `md['chunks']` can hold. */
  datatype Container = Dict(entries: map<string, ChunkInfo>) | List(items: seq<ChunkInfo>)

  /** `md['chunks'] = {}` as the saver's constructor writes it. */
  function InitialChunksAsWritten(): Container
  {
    Dict(map[])
  }

  /** `container.append(x)`: lists grow at the end; a dict has no `append`
      and raises AttributeError (None here). */
  function Append(c: Container, x: ChunkInfo): (r: Option<Container>)
    ensures r.Some? <==> c.List?
    ensures r.Some? ==> r.value.List? && |r.value.items| == |c.items| + 1 && r.value.items[|c.items|] == x
    ensures r.Some? ==> r.value.items[..|c.items|] == c.items
  {
    match c
    case List(items) => Some(List(items + [x]))
    case Dict(_) => None
  }

  /** As written, the first `_save_chunk_metadata` call raises. */
  lemma FirstDescriptorRaisesAsWritten(info: ChunkInfo)
    ensures Append(InitialChunksAsWritten(), info) == None
  {
  }

  /** Starting from an empty list instead, every call appends one descriptor. */
  lemma {:induction false} DescriptorsAppendFromList(infos: seq<ChunkInfo>)
    ensures AppendAll(List([]), infos) == Some(List(infos))
    decreases |infos|
  {
    if infos != [] {
      DescriptorsAppendFromList(infos[..|infos| - 1]);
      assert infos[..|infos| - 1] + [infos[|infos| - 1]] == infos;
    }
  }

  /** Successive `_save_chunk_metadata` calls on one container. */
  function AppendAll(c: Container, infos: seq<ChunkInfo>): Option<Container>
    decreases |infos|
  {
    if infos == [] then Some(c)
    else match AppendAll(c, infos[..|infos| - 1])
      case None => None
      case Some(c') => Append(c', infos[|infos| - 1])
  }

  /** `_save_chunk` as written: the stamped table is built, but the original
      records are what reach the database. */
  function ChunkSavedAsWritten(t: Tables, key: string, data: seq<Row>, info: ChunkInfo): (t': Tables)
    ensures key in t' && t'[key] == Existing(t, key) + data
  {
    Appended(t, key, data)
  }

  /** A one-record chunk with no `chunk_i` column, written as the code does,
      cannot be read back by its index. SQLite rejects the select because the
      table has no `chunk_i` column; the model, where a row without the column
      does not match, returns no rows. */
  lemma ChunkLostAsWritten()
    ensures var data := [[Field("time", IntVal(7))]];
      var info := ChunkInfo(0, map[]);
      var t := map[MetaTable := []];
      ReadChunk(ChunkSavedAsWritten(t, "k", data, info), "k", info) == Ok([]) &&
      ReadChunk(ChunkSaved(t, "k", data, info), "k", info) == Ok(Stamp(data, 0)) &&
      Stamp(data, 0) != []
  {
    var data := [[Field("time", IntVal(7))]];
    var info := ChunkInfo(0, map[]);
    var t: Tables := map[MetaTable := []];
    assert Lookup(data[0], ChunkColumn) == None;
    WhereNone(data, ChunkColumn, IntVal(0));
    assert ChunkSavedAsWritten(t, "k", data, info)["k"] == data;
    ChunkRoundTrip(t, "k", data, info);
  }
}
