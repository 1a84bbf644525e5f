/** The life of one cache entry over the database contents: the store opens
    the file, a saver writes chunks in order, closes, and the store looks the
    key up again. Each chunk is assumed to go through `_save_chunk` and then
    `_save_chunk_metadata`, which is how the backend's hooks are meant to be
    driven. */
module Lifecycle {
  import opened CacheTypes
  import opened Rows
  import opened SqlQueries

  /** One chunk handed to the saver: its records and its descriptor. */
  datatype Chunk = Chunk(data: seq<Row>, info: ChunkInfo)

  /** The rows the saver's writes put in the key's table, in write order. */
  function Written(cs: seq<Chunk>): seq<Row>
    decreases |cs|
  {
    if cs == [] then []
    else Written(cs[..|cs| - 1]) + Stamp(cs[|cs| - 1].data, cs[|cs| - 1].info.chunkI)
  }

  /** The descriptors the saver's `md['chunks']` holds after the writes. */
  function Descriptors(cs: seq<Chunk>): seq<ChunkInfo>
  {
    seq(|cs|, k requires 0 <= k < |cs| => cs[k].info)
  }

  /** The database after each chunk in `cs` was saved under `key`, in order. */
  function AfterWrites(t: Tables, key: string, cs: seq<Chunk>): Tables
    decreases |cs|
  {
    if cs == [] then t
    else ChunkSaved(AfterWrites(t, key, cs[..|cs| - 1]), key, cs[|cs| - 1].data, cs[|cs| - 1].info)
  }

  /** No two chunks share an index. */
  predicate DistinctIndices(cs: seq<Chunk>)
  {
    forall j, k :: 0 <= j < k < |cs| ==> cs[j].info.chunkI != cs[k].info.chunkI
  }

  /** Two appends to one table are one append of both row sequences. */
  lemma AppendedTwice(t: Tables, name: string, a: seq<Row>, b: seq<Row>)
    ensures Appended(Appended(t, name, a), name, b) == Appended(t, name, a + b)
  {
    assert Existing(t, name) + a + b == Existing(t, name) + (a + b);
  }

  /** Writing chunks only appends their stamped rows to the key's table and
      leaves every other table as it was; writing none changes nothing. */
  lemma {:induction false} AfterWritesAppends(t: Tables, key: string, cs: seq<Chunk>)
    ensures cs == [] ==> AfterWrites(t, key, cs) == t
    ensures cs != [] ==> AfterWrites(t, key, cs) == Appended(t, key, Written(cs))
    decreases |cs|
  {
    if cs != [] {
      var init := cs[..|cs| - 1];
      var last := cs[|cs| - 1];
      var stamped := Stamp(last.data, last.info.chunkI);
      assert Written(cs) == Written(init) + stamped;
      AfterWritesAppends(t, key, init);
      if init == [] {
        assert Written(cs) == stamped;
      } else {
        AppendedTwice(t, key, Written(init), stamped);
      }
    }
  }

  /** No row written for chunks other than index `i` is selected by `i`. */
  lemma {:induction false} WhereWrittenNone(cs: seq<Chunk>, i: int)
    requires forall k :: 0 <= k < |cs| ==> cs[k].info.chunkI != i
    ensures Where(Written(cs), ChunkColumn, IntVal(i)) == []
    decreases |cs|
  {
    if cs != [] {
      var init := cs[..|cs| - 1];
      var last := cs[|cs| - 1];
      WhereWrittenNone(init, i);
      var stamped := Stamp(last.data, last.info.chunkI);
      WhereAppend(Written(init), stamped, ChunkColumn, IntVal(i));
      WhereNone(stamped, ChunkColumn, IntVal(i));
    }
  }

  /** Among chunks with distinct indices, selecting by chunk `j`'s index gives
      exactly chunk `j`'s stamped rows. */
  lemma {:induction false} WhereWrittenOne(cs: seq<Chunk>, j: int)
    requires DistinctIndices(cs) && 0 <= j < |cs|
    ensures Where(Written(cs), ChunkColumn, IntVal(cs[j].info.chunkI)) == Stamp(cs[j].data, cs[j].info.chunkI)
    decreases |cs|
  {
    var init := cs[..|cs| - 1];
    var last := cs[|cs| - 1];
    var i := cs[j].info.chunkI;
    var stamped := Stamp(last.data, last.info.chunkI);
    WhereAppend(Written(init), stamped, ChunkColumn, IntVal(i));
    if j == |cs| - 1 {
      WhereWrittenNone(init, i);
      WhereAll(stamped, ChunkColumn, IntVal(i));
    } else {
      WhereWrittenOne(init, j);
      WhereNone(stamped, ChunkColumn, IntVal(i));
    }
  }

  /** Every chunk written into a new table reads back by its index as exactly
      the rows written for it, stamped, in their original order. */
  lemma ReadBack(t: Tables, key: string, cs: seq<Chunk>, j: int)
    requires key !in t
    requires DistinctIndices(cs) && 0 <= j < |cs|
    ensures ReadChunk(AfterWrites(t, key, cs), key, cs[j].info) == Ok(Stamp(cs[j].data, cs[j].info.chunkI))
  {
    AfterWritesAppends(t, key, cs);
    var written := AfterWrites(t, key, cs);
    assert key in written && written[key] == Written(cs);
    WhereWrittenOne(cs, j);
  }

  /** Miss, write, close, hit. A new key misses. Once a chunk has been written
      and before the close, the key's table exists but its metadata does not,
      so the lookup fails with "Metadata missing" rather than reporting a miss.
      After the close the lookup hits, and the metadata reads back with the
      chunk descriptors in write order. */
  lemma MissWriteCloseHit(t: Tables, key: string, cs: seq<Chunk>, seed: Metadata)
    requires key != MetaTable && key !in t
    requires MetaTable in t ==> Missing(t[MetaTable], key) && TwoWide(t[MetaTable])
    requires cs != []
    ensures Find(Opened(t), key) == Err(NotCached)
    ensures Find(AfterWrites(Opened(t), key, cs), key) == Err(MetadataMissing)
    ensures Published(AfterWrites(Opened(t), key, cs), key, seed.(chunks := Descriptors(cs))).Ok?
    ensures var closed := Published(AfterWrites(Opened(t), key, cs), key, seed.(chunks := Descriptors(cs))).value;
      Find(closed, key) == Ok(key) &&
      ReadMeta(closed, key) == Ok(seed.(chunks := Descriptors(cs)))
  {
    var t0 := Opened(t);
    var t1 := AfterWrites(t0, key, cs);
    AfterWritesAppends(t0, key, cs);
    assert t1[MetaTable] == t0[MetaTable];
    ReadMetaAfterPublish(t1, key, seed.(chunks := Descriptors(cs)));
  }

  /** A saver closed without any chunk publishes metadata but creates no
      table, so the key still misses. */
  lemma CloseWithoutChunks(t: Tables, key: string, seed: Metadata)
    requires key != MetaTable && key !in t
    requires MetaTable in t ==> TwoWide(t[MetaTable])
    ensures Published(AfterWrites(Opened(t), key, []), key, seed.(chunks := [])).Ok?
    ensures Find(Published(AfterWrites(Opened(t), key, []), key, seed.(chunks := [])).value, key) == Err(NotCached)
  {
  }

  /** Closing the same saver twice leaves two metadata rows for its key: the
      lookup then fails with "Repeated metadata error". */
  lemma DoubleClose(t: Tables, key: string, cs: seq<Chunk>, md: Metadata)
    requires key != MetaTable && cs != []
    requires MetaTable in t ==> TwoWide(t[MetaTable])
    ensures var written := AfterWrites(Opened(t), key, cs);
      Published(written, key, md).Ok? &&
      Published(Published(written, key, md).value, key, md).Ok? &&
      Find(Published(Published(written, key, md).value, key, md).value, key) == Err(RepeatedMetadata)
  {
    var written := AfterWrites(Opened(t), key, cs);
    AfterWritesAppends(Opened(t), key, cs);
    PublishTwiceRepeats(written, key, md, md);
  }
}
