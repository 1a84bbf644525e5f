/** Row-level operations the backend relies on: reading a column, pandas-style
    column assignment, stamping a chunk's rows with `chunk_i`, and the
    `WHERE column == value` selection of SQL. */
module Rows {
  import opened CacheTypes

  /** Column names of a row, in order. */
  function Columns(r: Row): seq<string>
    decreases |r|
  {
    if r == [] then [] else [r[0].column] + Columns(r[1..])
  }

  /** The value of the first column named `c`, if the row has one. */
  function Lookup(r: Row, c: string): (v: Option<Value>)
    ensures v.None? <==> c !in Columns(r)
    ensures v.Some? ==> Field(c, v.value) in r
    decreases |r|
  {
    if r == [] then None
    else if r[0].column == c then Some(r[0].value)
    else Lookup(r[1..], c)
  }

  /** `table[c] = v` on one row: overwrite column `c` where it stands, or
      append it as the last column when the row has none. */
  function SetColumn(r: Row, c: string, v: Value): (r': Row)
    ensures Lookup(r', c) == Some(v)
    ensures forall d :: d != c ==> Lookup(r', d) == Lookup(r, d)
    ensures Columns(r') == if c in Columns(r) then Columns(r) else Columns(r) + [c]
    decreases |r|
  {
    if r == [] then [Field(c, v)]
    else if r[0].column == c then
      var r' := [Field(c, v)] + r[1..];
      assert r'[1..] == r[1..];
      r'
    else
      var tail := SetColumn(r[1..], c, v);
      var r' := [r[0]] + tail;
      assert r'[1..] == tail;
      r'
  }

  /** Every row of a chunk with its `chunk_i` column set to the chunk's index:
      `table['chunk_i'] = [chunk_i] * len(data)`. */
  function Stamp(data: seq<Row>, i: int): (s: seq<Row>)
    ensures |s| == |data|
    ensures forall k :: 0 <= k < |s| ==> Lookup(s[k], ChunkColumn) == Some(IntVal(i))
    ensures forall k, d :: 0 <= k < |s| && d != ChunkColumn ==> Lookup(s[k], d) == Lookup(data[k], d)
  {
    seq(|data|, k requires 0 <= k < |data| => SetColumn(data[k], ChunkColumn, IntVal(i)))
  }

  /** Whether `row` holds `v` in column `c`. A row without that column does not match. */
  predicate Matches(row: Row, c: string, v: Value)
  {
    Lookup(row, c) == Some(v)
  }

  /** `SELECT * ... WHERE c == v`: the matching rows, in stored order. */
  function Where(rows: seq<Row>, c: string, v: Value): (sel: seq<Row>)
    ensures |sel| <= |rows|
    ensures forall row :: row in sel <==> row in rows && Matches(row, c, v)
    decreases |rows|
  {
    if rows == [] then []
    else
      var rest := Where(rows[1..], c, v);
      assert forall row :: row in rows <==> row == rows[0] || row in rows[1..];
      if Matches(rows[0], c, v) then [rows[0]] + rest else rest
  }

  /** Selection distributes over appending rows: rows added later come after. */
  lemma {:induction false} WhereAppend(a: seq<Row>, b: seq<Row>, c: string, v: Value)
    ensures Where(a + b, c, v) == Where(a, c, v) + Where(b, c, v)
    decreases |a|
  {
    if a == [] {
      assert a + b == b;
    } else {
      assert (a + b)[1..] == a[1..] + b;
      WhereAppend(a[1..], b, c, v);
    }
  }

  /** When every row matches, the selection is the whole sequence. */
  lemma {:induction false} WhereAll(rows: seq<Row>, c: string, v: Value)
    requires forall k :: 0 <= k < |rows| ==> Matches(rows[k], c, v)
    ensures Where(rows, c, v) == rows
    decreases |rows|
  {
    if rows != [] {
      WhereAll(rows[1..], c, v);
    }
  }

  /** When no row matches, the selection is empty. */
  lemma WhereNone(rows: seq<Row>, c: string, v: Value)
    requires forall k :: 0 <= k < |rows| ==> !Matches(rows[k], c, v)
    ensures Where(rows, c, v) == []
  {
  }

  /** Two distinct positions match exactly when the selection holds more than one row. */
  lemma {:induction false} WhereRepeated(rows: seq<Row>, c: string, v: Value)
    ensures |Where(rows, c, v)| > 1 <==>
      exists j, k :: 0 <= j < k < |rows| && Matches(rows[j], c, v) && Matches(rows[k], c, v)
    decreases |rows|
  {
    if rows != [] {
      WhereRepeated(rows[1..], c, v);
      var rest := rows[1..];
      if Matches(rows[0], c, v) {
        if |Where(rest, c, v)| > 0 {
          var row := Where(rest, c, v)[0];
          assert row in Where(rest, c, v);
          var k :| 0 <= k < |rest| && rest[k] == row;
          assert Matches(rows[k + 1], c, v);
        } else {
          forall j, k | 0 <= j < k < |rows| && Matches(rows[j], c, v)
            ensures !Matches(rows[k], c, v)
          {
          }
        }
      } else {
        forall j, k | 0 <= j < k < |rows| && Matches(rows[j], c, v) && Matches(rows[k], c, v)
          ensures 0 <= j - 1 < k - 1 < |rest| && Matches(rest[j - 1], c, v) && Matches(rest[k - 1], c, v)
        {
        }
      }
    }
  }
}
