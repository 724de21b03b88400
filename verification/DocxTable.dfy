/** Tables in Word documents: "layout" and "table" of internal/docx/table.go on
    the way out, "table" of internal/docx/import_blocks.go on the way in
    (ISO/IEC 29500-1, section 17.4: gridSpan and vMerge). */
module DocxTable {
  import opened Text
  import opened TablePlacement

  datatype VMerge = NoMerge | Restart | Continue

  datatype PlacedCell<T> = PlacedCell(
    node: Option<T>, column: nat, colSpan: nat, rowSpan: nat, merge: VMerge, header: bool)

  // ---- The grid ----

  /** What a placed cell contributes to a row: itself, or a continuation. */
  function Part<T>(p: Placement<T>, row: nat): PlacedCell<T> {
    if row == p.row then
      PlacedCell(Some(p.node), p.column, p.colSpan, p.rowSpan, if p.rowSpan > 1 then Restart else NoMerge, p.header)
    else PlacedCell(None, p.column, p.colSpan, 1, Continue, p.header)
  }

  /** A row's parts in the order they were appended. */
  function Parts<T>(ps: seq<Placement<T>>, row: nat): seq<PlacedCell<T>> {
    if ps == [] then []
    else
      var last := ps[|ps| - 1];
      Parts(ps[..|ps| - 1], row) + (if last.InRow(row) then [Part(last, row)] else [])
  }

  /** One insertion of sortByColumn: x moves left past greater columns. */
  function Insert<T>(sorted: seq<PlacedCell<T>>, x: PlacedCell<T>): seq<PlacedCell<T>> {
    if sorted == [] || sorted[|sorted| - 1].column <= x.column then sorted + [x]
    else Insert(sorted[..|sorted| - 1], x) + [sorted[|sorted| - 1]]
  }

  function SortedByColumn<T>(cells: seq<PlacedCell<T>>): seq<PlacedCell<T>> {
    if cells == [] then [] else Insert(SortedByColumn(cells[..|cells| - 1]), cells[|cells| - 1])
  }

  function GridRow<T>(ps: seq<Placement<T>>, row: nat): seq<PlacedCell<T>> {
    SortedByColumn(Parts(ps, row))
  }

  // ---- Import ----

  /** One w:tc as it stands in the file. */
  datatype FileCell<T> = FileCell(node: Option<T>, gridSpan: nat, merge: VMerge)

  function ToFile<T>(cell: PlacedCell<T>): FileCell<T> {
    FileCell(cell.node, cell.colSpan, cell.merge)
  }

  function FileRow<T>(row: seq<PlacedCell<T>>): seq<FileCell<T>> {
    if row == [] then [] else [ToFile(row[0])] + FileRow(row[1..])
  }

  /** A cell of the rebuilt table and the row it went into. */
  datatype TableCell<T> = TableCell(node: Option<T>, colspan: nat, rowspan: nat, row: nat)

  /** The cells so far, the open vertical merge of each column as an index into
      them, the column reached in this row. */
  datatype Reading<T> = Reading(cells: seq<TableCell<T>>, open: map<nat, nat>, column: nat)

  function ReadCell<T>(st: Reading<T>, cell: FileCell<T>, row: nat): Reading<T> {
    if cell.merge == Continue then
      var cells :=
        if st.column in st.open && st.open[st.column] < |st.cells| then
          var i := st.open[st.column];
          st.cells[i := st.cells[i].(rowspan := st.cells[i].rowspan + 1)]
        else st.cells;
      Reading(cells, st.open, st.column + cell.gridSpan)
    else
      Reading(st.cells + [TableCell(cell.node, cell.gridSpan, 1, row)],
              if cell.merge == Restart then st.open[st.column := |st.cells|] else st.open - {st.column},
              st.column + cell.gridSpan)
  }

  function ReadRow<T>(st: Reading<T>, row: seq<FileCell<T>>, index: nat): Reading<T>
    decreases |row|
  {
    if row == [] then st else ReadRow(ReadCell(st, row[0], index), row[1..], index)
  }

  /** Rows are numbered as they are kept: one that starts no cell is dropped. */
  function ReadRows<T>(st: Reading<T>, rows: seq<seq<FileCell<T>>>, kept: nat): Reading<T>
    decreases |rows|
  {
    if rows == [] then st
    else
      var next := ReadRow(st.(column := 0), rows[0], kept);
      ReadRows(next, rows[1..], if |next.cells| > |st.cells| then kept + 1 else kept)
  }

  function ReadTable<T>(rows: seq<seq<FileCell<T>>>): seq<TableCell<T>> {
    ReadRows(Reading([], map[], 0), rows, 0).cells
  }

  /** The table as the exporter writes it, from some row on. */
  function FileRows<T>(ps: seq<Placement<T>>, row: nat, rows: nat): seq<seq<FileCell<T>>>
    requires row <= rows
    decreases rows - row
  {
    if row == rows then [] else [FileRow(GridRow(ps, row))] + FileRows(ps, row + 1, rows)
  }

  function ExportTable<T>(table: seq<seq<Child<T>>>): seq<seq<FileCell<T>>> {
    FileRows(Placements(table), 0, |table|)
  }

  /** The cells of a table as import should give them back. */
  function Expected<T>(ps: seq<Placement<T>>): seq<TableCell<T>> {
    if ps == [] then []
    else
      var last := ps[|ps| - 1];
      Expected(ps[..|ps| - 1]) + [TableCell(Some(last.node), last.colSpan, last.rowSpan, last.row)]
  }
}
