/** Values shared by the SQLite cache backend: cells, rows, the table catalogue,
    the metadata document and the errors the backend raises. */
module CacheTypes {

  datatype Option<T> = None | Some(value: T)

  /** What a backend query returns: a value, or the exception the Python code raises. */
  datatype Result<T> = Ok(value: T) | Err(error: Error)

  datatype Error =
    | NotCached                 // strax.storage.common.NotCached
    | RepeatedMetadata          // RuntimeError("Repeated metadata error")
    | MetadataMissing           // RuntimeError("Metadata missing")
    | MisformattedMetadata      // RuntimeError("Misformatted metadata")
    | NotJson                   // json.loads rejects the stored text
    | NoSuchTable(name: string) // sqlite3.OperationalError: no such table
    | ColumnCountMismatch(name: string) // sqlite3.OperationalError: table has other than 2 columns

  /** One chunk descriptor (the `chunk_info` dict): its index and the other entries. */
  datatype ChunkInfo = ChunkInfo(chunkI: int, extra: map<string, string>)

  /** The saver's metadata dict: the caller's dataset-level entries plus `chunks`. */
  datatype Metadata = Metadata(fields: map<string, string>, chunks: seq<ChunkInfo>)

  /** A cell. `JsonText(doc)` is the text json.dumps wrote for `doc`; the
      encoding itself is not modelled, only that loading gives `doc` back. */
  datatype Value = IntVal(n: int) | TextVal(s: string) | JsonText(doc: Metadata)

  /** A named column of a row; a row keeps its columns in order. */
  datatype Field = Field(column: string, value: Value)

  type Row = seq<Field>

  /** The database file: every table by name, each a sequence of rows in stored order. */
  type Tables = map<string, seq<Row>>

  const MetaTable: string := "metadata"
  const NameColumn: string := "name"
  const MetadataColumn: string := "metadata"
  const ChunkColumn: string := "chunk_i"

  /** json.dumps of the metadata dict. */
  function Serialise(md: Metadata): (v: Value)
    ensures Parse(v) == Ok(md)
  {
    JsonText(md)
  }

  /** json.loads of a stored cell: only text that json.dumps produced decodes. */
  function Parse(v: Value): (r: Result<Metadata>)
    ensures r.Ok? <==> v.JsonText?
    ensures r.Ok? ==> v == JsonText(r.value)
    ensures r.Err? ==> r.error == NotJson
  {
    match v
    case JsonText(doc) => Ok(doc)
    case _ => Err(NotJson)
  }
}
