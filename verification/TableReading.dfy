/** The importer's "table" (internal/docx/import_blocks.go): cells are objects, and a
    continued merge raises the rowspan of a cell already put into the table. */
module TableReading {
  import opened Text
  import opened DocxTable
  import TableRoundTrip
  import TablePlacement

  class ImportedCell<T> {
    const node: Option<T>
    const colspan: nat
    var rowspan: nat

    constructor (node: Option<T>, colspan: nat)
      ensures this.node == node && this.colspan == colspan && rowspan == 1
    {
      this.node, this.colspan, rowspan := node, colspan, 1;
    }
  }

  /** The cells of a row, each with the number of its row. */
  ghost function Listed<T>(row: seq<ImportedCell<T>>, index: nat): (r: seq<(ImportedCell<T>, nat)>)
    ensures |r| == |row|
  {
    seq(|row|, i requires 0 <= i < |row| => (row[i], index))
  }

  ghost function ListedAll<T>(rows: seq<seq<ImportedCell<T>>>): seq<(ImportedCell<T>, nat)> {
    if rows == [] then [] else ListedAll(rows[..|rows| - 1]) + Listed(rows[|rows| - 1], |rows| - 1)
  }

  ghost function Objects<T>(listed: seq<(ImportedCell<T>, nat)>): set<ImportedCell<T>> {
    set p | p in listed :: p.0
  }

  lemma ObjectsOf<T>(listed: seq<(ImportedCell<T>, nat)>, row: seq<ImportedCell<T>>, index: nat)
    ensures forall p | p in listed + Listed(row, index) :: p in listed || p.0 in row
    ensures forall c | c in Objects(listed + Listed(row, index)) :: c in Objects(listed) || c in row
  {
    var all := listed + Listed(row, index);
    forall p | p in all
      ensures p in listed || p.0 in row
    {
      var i :| 0 <= i < |all| && all[i] == p;
      assert i >= |listed| ==> all[i].0 == row[i - |listed|];
    }
  }

  /** The objects, in order, hold the cells. */
  ghost predicate Hold<T>(listed: seq<(ImportedCell<T>, nat)>, cells: seq<TableCell<T>>)
    reads Objects(listed)
  {
    && |listed| == |cells|
    && forall i | 0 <= i < |listed| ::
         cells[i] == TableCell(listed[i].0.node, listed[i].0.colspan, listed[i].0.rowspan, listed[i].1)
  }

  /** The objects and the open merges stand for the state of the reading. */
  ghost predicate Stands<T>(listed: seq<(ImportedCell<T>, nat)>, open: map<nat, ImportedCell<T>>, st: Reading<T>)
    reads Objects(listed)
  {
    && Hold(listed, st.cells)
    && (forall i, j | 0 <= i < j < |listed| :: listed[i].0 != listed[j].0)
    && open.Keys == st.open.Keys
    && forall k | k in open :: st.open[k] < |listed| && open[k] == listed[st.open[k]].0
  }

  /** One w:tc. A fresh cell comes out unless it continues a merge. */
  method ReadFileCell<T>(
      cell: FileCell<T>, column: nat, open0: map<nat, ImportedCell<T>>,
      ghost listed: seq<(ImportedCell<T>, nat)>, ghost st: Reading<T>, ghost index: nat)
    returns (added: seq<ImportedCell<T>>, open: map<nat, ImportedCell<T>>)
    requires Stands(listed, open0, st) && st.column == column
    modifies Objects(listed)
    ensures forall c | c in added :: fresh(c)
    ensures added == [] <==> cell.merge == Continue
    ensures Stands(listed + Listed(added, index), open, ReadCell(st, cell, index))
  {
    if cell.merge == Continue {
      added, open := [], open0;
      assert listed + Listed(added, index) == listed;
      if column in open {
        open[column].rowspan := open[column].rowspan + 1;
      }
    } else {
      var made := new ImportedCell(cell.node, cell.gridSpan);
      added := [made];
      open := if cell.merge == Restart then open0[column := made] else open0 - {column};
    }
  }

  method ReadFileRow<T>(
      file: seq<FileCell<T>>, open0: map<nat, ImportedCell<T>>,
      ghost listed: seq<(ImportedCell<T>, nat)>, ghost st: Reading<T>, ghost index: nat)
    returns (row: seq<ImportedCell<T>>, open: map<nat, ImportedCell<T>>)
    requires Stands(listed, open0, st) && st.column == 0
    modifies Objects(listed)
    ensures forall c | c in row :: fresh(c)
    ensures Stands(listed + Listed(row, index), open, ReadRow(st, file, index))
  {
    hide Stands, ReadCell;
    row, open := [], open0;
    var column, k := 0, 0;
    ghost var now := st;
    assert listed + Listed(row, index) == listed;
    while k < |file|
      invariant k <= |file| && now.column == column
      invariant forall c | c in row :: fresh(c)
      invariant Stands(listed + Listed(row, index), open, now)
      invariant ReadRow(now, file[k..], index) == ReadRow(st, file, index)
    {
      var added;
      ghost var all := listed + Listed(row, index);
      ObjectsOf(listed, row, index);
      added, open := ReadFileCell(file[k], column, open, all, now, index);
      assert all + Listed(added, index) == listed + Listed(row + added, index);
      assert file[k..][1..] == file[k + 1..];
      row := row + added;
      column := column + file[k].gridSpan;
      ColumnMoves(now, file[k], index);
      now := ReadCell(now, file[k], index);
      k := k + 1;
    }
  }

  lemma ColumnMoves<T>(st: Reading<T>, cell: FileCell<T>, index: nat)
    ensures ReadCell(st, cell, index).column == st.column + cell.gridSpan
  {
  }

  /** The rows of the imported table: the cells, spans and rows that ReadTable gives. */
  method ImportTable<T>(file: seq<seq<FileCell<T>>>) returns (rows: seq<seq<ImportedCell<T>>>)
    ensures Hold(ListedAll(rows), ReadTable(file))
    ensures forall r | 0 <= r < |rows| :: rows[r] != []
  {
    rows := [];
    var open: map<nat, ImportedCell<T>> := map[];
    ghost var now: Reading<T> := Reading([], map[], 0);
    var k := 0;
    while k < |file|
      invariant k <= |file|
      invariant forall p | p in ListedAll(rows) :: fresh(p.0)
      invariant Stands(ListedAll(rows), open, now)
      invariant ReadRows(now, file[k..], |rows|) == ReadRows(Reading([], map[], 0), file, 0)
      invariant forall r | 0 <= r < |rows| :: rows[r] != []
    {
      ghost var listed := ListedAll(rows);
      var row;
      row, open := ReadFileRow(file[k], open, listed, now.(column := 0), |rows|);
      ghost var next := ReadRow(now.(column := 0), file[k], |rows|);
      assert |next.cells| == |now.cells| + |row|;
      assert file[k..][1..] == file[k + 1..];
      if |row| > 0 {
        assert (rows + [row])[..|rows|] == rows;
        ObjectsOf(listed, row, |rows|);
        assert ListedAll(rows + [row]) == listed + Listed(row, |rows|);
        rows := rows + [row];
      } else {
        assert listed + Listed(row, |rows|) == listed;
      }
      now := next;
      k := k + 1;
    }
  }
}
