/**
 * saveToBigTable (main.go): the wide-column row written for each post.
 * A row is the sequence of cells written to it, oldest first; reading a
 * column returns its cell with the newest timestamp, a tie going to the
 * later write.
 */
module ColumnStore {
  import opened Wrappers
  import opened Posts

  /** One versioned cell: column family, column qualifier, timestamp, bytes. */
  datatype Cell = Cell(family: string, column: string, timestamp: int, value: string)

  type Row = seq<Cell>

  /** The "post" table, by row key. */
  type Table = map<string, Row>

  /**
   * The mutation saveToBigTable applies: the author and message in family
   * "post", the decimal text of the coordinates in family "location", all
   * under one timestamp taken once. `formatFloat` stands for the shortest
   * decimal formatting of a double.
   */
  function PostMutation(p: Post, t: int, formatFloat: Float64 -> string): (m: seq<Cell>)
    ensures |m| == 4
    ensures forall i :: 0 <= i < |m| ==> m[i].timestamp == t
    ensures forall i, j :: 0 <= i < j < |m| ==> (m[i].family, m[i].column) != (m[j].family, m[j].column)
    ensures forall i :: 0 <= i < |m| ==>
              (m[i].family, m[i].column) in {("post", "user"), ("post", "message"), ("location", "lat"), ("location", "lon")}
  {
    [ Cell("post", "user", t, p.user),
      Cell("post", "message", t, p.message),
      Cell("location", "lat", t, formatFloat(p.location.lat)),
      Cell("location", "lon", t, formatFloat(p.location.lon)) ]
  }

  /** The cell names the column `family:column`. */
  predicate Names(c: Cell, family: string, column: string)
  {
    c.family == family && c.column == column
  }

  /**
   * The cell a read of `family:column` returns: the one with the newest
   * timestamp, a tie going to the later write.
   */
  function LatestCell(row: Row, family: string, column: string): (c: Option<Cell>)
    ensures c.None? <==> forall i :: 0 <= i < |row| ==> !Names(row[i], family, column)
    ensures c.Some? ==> Names(c.value, family, column) && c.value in row
    ensures c.Some? ==> forall i :: 0 <= i < |row| && Names(row[i], family, column) ==>
                                      row[i].timestamp <= c.value.timestamp
  {
    if |row| == 0 then None
    else
      var last := row[|row| - 1];
      var earlier := LatestCell(row[..|row| - 1], family, column);
      if !Names(last, family, column) then earlier
      else if earlier.Some? && earlier.value.timestamp > last.timestamp then earlier
      else Some(last)
  }

  /** The value a read of `family:column` returns, if the row has that column. */
  function ReadCell(row: Row, family: string, column: string): (v: Option<string>)
    ensures v.None? <==> forall i :: 0 <= i < |row| ==> !Names(row[i], family, column)
    ensures v.Some? ==> exists i :: 0 <= i < |row| && Names(row[i], family, column) && row[i].value == v.value
                                    && forall j :: 0 <= j < |row| && Names(row[j], family, column) ==>
                                                     row[j].timestamp <= row[i].timestamp
  {
    match LatestCell(row, family, column)
    case None => None
    case Some(c) => Some(c.value)
  }

  /** Cells appended that name other columns do not change what `family:column` reads. */
  lemma {:induction false} LatestCellSkipsOtherColumns(row: Row, tail: seq<Cell>, family: string, column: string)
    requires forall i :: 0 <= i < |tail| ==> !Names(tail[i], family, column)
    ensures LatestCell(row + tail, family, column) == LatestCell(row, family, column)
    decreases |tail|
  {
    if |tail| > 0 {
      var front := tail[..|tail| - 1];
      assert (row + tail)[..|row + tail| - 1] == row + front;
      LatestCellSkipsOtherColumns(row, front, family, column);
    } else {
      assert row + tail == row;
    }
  }

  /**
   * A written cell is what its column reads when no earlier cell of that
   * column is newer and no later cell names the column.
   */
  lemma LatestCellFindsWrite(row: Row, c: Cell, tail: seq<Cell>)
    requires forall i :: 0 <= i < |row| && Names(row[i], c.family, c.column) ==> row[i].timestamp <= c.timestamp
    requires forall i :: 0 <= i < |tail| ==> !Names(tail[i], c.family, c.column)
    ensures LatestCell(row + [c] + tail, c.family, c.column) == Some(c)
  {
    LatestCellSkipsOtherColumns(row + [c], tail, c.family, c.column);
    assert (row + [c])[..|row + [c]| - 1] == row;
  }

  /**
   * Reading the four columns back from a row the post mutation was applied
   * to returns the post's author and message and the formatted
   * coordinates, provided no cell already in the row is newer than the
   * mutation's timestamp.
   */
  lemma PostRowReadsBack(prior: Row, p: Post, t: int, formatFloat: Float64 -> string)
    requires forall i :: 0 <= i < |prior| ==> prior[i].timestamp <= t
    ensures var row := prior + PostMutation(p, t, formatFloat);
            && ReadCell(row, "post", "user") == Some(p.user)
            && ReadCell(row, "post", "message") == Some(p.message)
            && ReadCell(row, "location", "lat") == Some(formatFloat(p.location.lat))
            && ReadCell(row, "location", "lon") == Some(formatFloat(p.location.lon))
  {
    var m := PostMutation(p, t, formatFloat);
    MutationCellReadsBack(prior, m, t, 0);
    MutationCellReadsBack(prior, m, t, 1);
    MutationCellReadsBack(prior, m, t, 2);
    MutationCellReadsBack(prior, m, t, 3);
  }

  /**
   * Each cell of a mutation whose cells share one timestamp and name
   * distinct columns is read back from the row it was appended to.
   */
  lemma MutationCellReadsBack(prior: Row, m: seq<Cell>, t: int, k: nat)
    requires forall i :: 0 <= i < |prior| ==> prior[i].timestamp <= t
    requires forall i :: 0 <= i < |m| ==> m[i].timestamp == t
    requires forall i, j :: 0 <= i < j < |m| ==> (m[i].family, m[i].column) != (m[j].family, m[j].column)
    requires k < |m|
    ensures ReadCell(prior + m, m[k].family, m[k].column) == Some(m[k].value)
  {
    var c := m[k];
    var front := prior + m[..k];
    var tail := m[k + 1..];
    assert prior + m == front + [c] + tail;
    forall i | 0 <= i < |tail|
      ensures !Names(tail[i], c.family, c.column)
    {
      assert tail[i] == m[k + 1 + i];
    }
    forall i | 0 <= i < |front|
      ensures front[i].timestamp <= c.timestamp
    {
      if i >= |prior| {
        assert front[i] == m[i - |prior|];
      }
    }
    LatestCellFindsWrite(front, c, tail);
  }

  /** Applying a mutation to a row key appends its cells to that row and touches no other row. */
  function Apply(table: Table, key: string, m: seq<Cell>): (t: Table)
    ensures key in t && t[key] == (if key in table then table[key] else []) + m
    ensures forall k :: k != key ==> (k in t <==> k in table)
    ensures forall k :: k in table && k != key ==> t[k] == table[k]
  {
    table[key := (if key in table then table[key] else []) + m]
  }

  /**
   * saveToBigTable: None stands for the panic on a client or apply error,
   * in which case nothing is written.
   */
  function SaveToBigTable(table: Table, p: Post, id: string, t: int, formatFloat: Float64 -> string,
                          clientOk: bool, applyOk: bool): (r: Option<Table>)
    ensures r.Some? <==> clientOk && applyOk
    ensures r.Some? ==> r.value == Apply(table, id, PostMutation(p, t, formatFloat))
  {
    if !clientOk then None
    else if !applyOk then None
    else Some(Apply(table, id, PostMutation(p, t, formatFloat)))
  }
}
