/**
 * The generic citation table editor. It holds the rows it was given; each handler copies
 * the row list, changes the copy and hands it back through `onUpdateData`, after which the
 * editor shows the new list.
 */
module DataTable {
  import opened Idf
  import SeqEdit

  /** The row `handleAddRow` builds: one key per column, each holding "". */
  ghost function BlankRow(columns: seq<string>): Row
  {
    map c | c in columns :: ""
  }

  /** `columns.reduce((acc, col) => { acc[col] = ''; return acc; }, {})`. */
  method EmptyRow(columns: seq<string>) returns (row: Row)
    ensures row == BlankRow(columns)
    ensures row.Keys == set c | c in columns
    ensures forall c :: Cell(row, c) == ""
  {
    row := map[];
    for i := 0 to |columns|
      invariant row.Keys == set c | c in columns[..i]
      invariant forall c :: c in row ==> row[c] == ""
    {
      assert columns[..i + 1] == columns[..i] + [columns[i]];
      row := row[columns[i] := ""];
    }
    assert columns[..|columns|] == columns;
  }

  class TableEditor {
    var data: seq<Row>
    const columns: seq<string>

    constructor (columns: seq<string>, data: seq<Row>)
      ensures this.columns == columns && this.data == data
    {
      this.columns := columns;
      this.data := data;
    }

    /** `handleRowChange(idx, field, value)`: one cell of one row takes the value; the
        length, the other rows and the other cells of that row stay. The caller only offers
        indices of rows on screen. */
    method HandleRowChange(idx: nat, field: string, value: string)
      requires idx < |data|
      modifies this
      ensures |data| == |old(data)|
      ensures Cell(data[idx], field) == value
      ensures forall c :: c != field ==> Cell(data[idx], c) == Cell(old(data[idx]), c)
      ensures forall k :: 0 <= k < |data| && k != idx ==> data[k] == old(data[k])
    {
      var updated := data;
      updated := updated[idx := updated[idx][field := value]];
      data := updated;
    }

    /** `handleDeleteRow(idx)`: `splice(idx, 1)` on a copy. */
    method HandleDeleteRow(idx: nat)
      modifies this
      ensures data == SeqEdit.RemoveAt(old(data), idx)
    {
      var updated := data;
      updated := SeqEdit.RemoveAt(updated, idx);
      data := updated;
    }

    /** `handleAddRow()`: a blank row with one "" per column goes after the existing rows. */
    method HandleAddRow()
      modifies this
      ensures data == old(data) + [BlankRow(columns)]
      ensures |data| == |old(data)| + 1 && data[..|old(data)|] == old(data)
      ensures forall c :: c in columns ==> data[|data| - 1][c] == ""
    {
      var emptyRow := EmptyRow(columns);
      data := data + [emptyRow];
    }
  }

  /** Adding a row and then deleting the last index restores the rows. */
  lemma AddThenDeleteLast(data: seq<Row>, columns: seq<string>)
    ensures SeqEdit.RemoveAt(data + [BlankRow(columns)], |data|) == data
  {
    SeqEdit.AppendThenRemoveLast(data, BlankRow(columns));
  }
}
