/** The loops behind the tables: "layout" and "sortByColumn" (internal/docx/table.go),
    "tableGrid" (internal/httpapi/render.go) and the importer's "table"
    (internal/docx/import_blocks.go). */
module TableBuilding {
  import opened Text
  import opened TablePlacement
  import opened DocxTable

  // ---- sortByColumn ----

  /** The inner loop: one cell moves left past the greater columns. */
  method MoveLeft<T>(cells: array<PlacedCell<T>>, i: nat)
    requires i < cells.Length
    modifies cells
    ensures cells[..i + 1] == Insert(old(cells[..i]), old(cells[i]))
    ensures cells[i + 1..] == old(cells[i + 1..])
  {
    ghost var sorted, x, rest := cells[..i], cells[i], cells[i + 1..];
    var j := i;
    assert cells[j + 1..i + 1] == [];
    while j > 0 && cells[j].column < cells[j - 1].column
      invariant j <= i
      invariant cells[j] == x
      invariant Insert(cells[..j], x) + cells[j + 1..i + 1] == Insert(sorted, x)
      invariant cells[i + 1..] == rest
    {
      ghost var left, right := cells[..j], cells[j + 1..i + 1];
      cells[j], cells[j - 1] := cells[j - 1], cells[j];
      j := j - 1;
      assert cells[..j] == left[..j];
      assert cells[j + 1..i + 1] == [left[j]] + right;
      assert Insert(left[..j], x) + [left[j]] + right == Insert(left[..j], x) + ([left[j]] + right);
    }
    assert cells[..i + 1] == cells[..j] + [x] + cells[j + 1..i + 1];
  }

  /** Insertion sort in place. */
  method SortByColumn<T>(cells: array<PlacedCell<T>>)
    modifies cells
    ensures cells[..] == SortedByColumn(old(cells[..]))
  {
    ghost var was := cells[..];
    var i := 0;
    while i < cells.Length
      invariant i <= cells.Length
      invariant cells[..i] == SortedByColumn(was[..i])
      invariant cells[i..] == was[i..]
    {
      assert was[..i + 1][..i] == was[..i] && cells[i] == was[i];
      assert cells[i + 1..] == was[i..][1..];
      MoveLeft(cells, i);
      i := i + 1;
    }
    assert cells[..] == cells[..i] && was == was[..i];
  }

  // ---- layout ----

  /** The two marking loops. */
  method MarkCell<T>(occupied: set<(nat, nat)>, p: Placement<T>) returns (marked: set<(nat, nat)>)
    ensures marked == occupied + p.Rectangle()
  {
    marked := occupied;
    var r := 0;
    while r < p.rowSpan
      invariant r <= p.rowSpan
      invariant marked == occupied + Placement(p.node, p.row, p.column, p.colSpan, r, p.header).Rectangle()
    {
      ghost var before := marked;
      var c := 0;
      while c < p.colSpan
        invariant c <= p.colSpan
        invariant marked == before + Placement(p.node, p.row + r, p.column, c, 1, p.header).Rectangle()
      {
        marked := marked + {(p.row + r, p.column + c)};
        c := c + 1;
      }
      r := r + 1;
    }
  }

  /** The search both placements make, from their own start. */
  method SearchColumn(occupied: set<(nat, nat)>, row: nat, from: nat) returns (column: nat)
    ensures column == FreeColumn(occupied, row, from)
  {
    column := from;
    while (row, column) in occupied
      invariant column >= from
      invariant FreeColumn(occupied, row, column) == FreeColumn(occupied, row, from)
      decreases |RowMarks(occupied, row, column)|
    {
      FewerMarks(occupied, row, column);
      column := column + 1;
    }
  }

  /** The continuation cells appended below a cell. */
  method AppendParts<T>(grid: seq<seq<PlacedCell<T>>>, p: Placement<T>) returns (next: seq<seq<PlacedCell<T>>>)
    requires p.rowSpan >= 1 && p.row + p.rowSpan <= |grid|
    ensures |next| == |grid|
    ensures forall r | 0 <= r < |grid| :: next[r] == grid[r] + if p.InRow(r) then [Part(p, r)] else []
  {
    next := grid[p.row := grid[p.row] + [Part(p, p.row)]];
    var offset := 1;
    while offset < p.rowSpan
      invariant 1 <= offset <= p.rowSpan && |next| == |grid|
      invariant forall r | 0 <= r < |grid| ::
          next[r] == grid[r] + if p.row <= r < p.row + offset then [Part(p, r)] else []
    {
      var row := p.row + offset;
      next := next[row := next[row] + [PlacedCell(None, p.column, p.colSpan, 1, Continue, p.header)]];
      offset := offset + 1;
    }
  }

  ghost predicate Holds<T>(ps: seq<Placement<T>>, grid: seq<seq<PlacedCell<T>>>, columns: nat, occupied: set<(nat, nat)>) {
    && (forall r: nat | r < |grid| :: grid[r] == Parts(ps, r))
    && columns == ColumnCount(ps)
    && occupied == Taken(ps)
  }

  lemma HoldsOneMore<T>(
      ps: seq<Placement<T>>, grid: seq<seq<PlacedCell<T>>>, columns: nat, occupied: set<(nat, nat)>,
      p: Placement<T>, next: seq<seq<PlacedCell<T>>>)
    requires Holds(ps, grid, columns, occupied) && |next| == |grid|
    requires forall r | 0 <= r < |grid| :: next[r] == grid[r] + if p.InRow(r) then [Part(p, r)] else []
    ensures Holds(ps + [p], next, if p.column + p.colSpan > columns then p.column + p.colSpan else columns,
                  occupied + p.Rectangle())
  {
    assert (ps + [p])[..|ps|] == ps;
  }

  lemma HoldsTaken<T>(ps: seq<Placement<T>>, grid: seq<seq<PlacedCell<T>>>, columns: nat, occupied: set<(nat, nat)>)
    requires Holds(ps, grid, columns, occupied)
    ensures occupied == Taken(ps)
  {
  }

  /** The cells of one row. */
  method LayoutRow<T>(
      children: seq<Child<T>>, row: nat, rows: nat, grid0: seq<seq<PlacedCell<T>>>, columns0: nat,
      occupied0: set<(nat, nat)>, ghost ps: seq<Placement<T>>)
    returns (grid: seq<seq<PlacedCell<T>>>, columns: nat, occupied: set<(nat, nat)>)
    requires row < rows == |grid0| && Holds(ps, grid0, columns0, occupied0)
    ensures |grid| == rows && Holds(PlaceResuming(ps, children, row, 0, rows), grid, columns, occupied)
  {
    hide Holds;
    grid, columns, occupied := grid0, columns0, occupied0;
    ghost var placed := ps;
    var column: nat := 0;
    var k := 0;
    while k < |children|
      invariant k <= |children| && |grid| == rows
      invariant Holds(placed, grid, columns, occupied)
      invariant PlaceResuming(placed, children[k..], row, column, rows) == PlaceResuming(ps, children, row, 0, rows)
    {
      assert children[k..][1..] == children[k + 1..];
      if children[k].Cell? {
        HoldsTaken(placed, grid, columns, occupied);
        column := SearchColumn(occupied, row, column);
        var p := PlaceAt(children[k], row, column, rows);
        var next := AppendParts(grid, p);
        HoldsOneMore(placed, grid, columns, occupied, p, next);
        grid := next;
        occupied := MarkCell(occupied, p);
        column := column + p.colSpan;
        if column > columns { columns := column; }
        placed := placed + [p];
      }
      k := k + 1;
    }
  }

  /** The sort of every row at the end. */
  method SortRows<T>(parts: seq<seq<PlacedCell<T>>>) returns (grid: seq<seq<PlacedCell<T>>>)
    ensures |grid| == |parts|
    ensures forall r: nat | r < |grid| :: grid[r] == SortedByColumn(parts[r])
  {
    grid := parts;
    var index := 0;
    while index < |grid|
      invariant index <= |grid| == |parts|
      invariant forall r: nat | r < |grid| :: grid[r] == if r < index then SortedByColumn(parts[r]) else parts[r]
    {
      var row := grid[index];
      var cells := new PlacedCell<T>[|row|](i requires 0 <= i < |row| => row[i]);
      assert cells[..] == row;
      SortByColumn(cells);
      grid := grid[index := cells[..]];
      index := index + 1;
    }
  }

  /** The grid of a table and its width: every row holds the parts of the cells that
      reach it, in column order. */
  method Layout<T>(table: seq<seq<Child<T>>>) returns (grid: seq<seq<PlacedCell<T>>>, columns: nat)
    ensures |grid| == |table|
    ensures forall r: nat | r < |table| :: grid[r] == GridRow(Placements(table), r)
    ensures columns == ColumnCount(Placements(table)) && JustWide(Placements(table), columns)
  {
    WidthIsReached(Placements(table));
    var occupied: set<(nat, nat)> := {};
    grid := seq(|table|, _ => []);
    columns := 0;
    ghost var ps: seq<Placement<T>> := [];
    var row := 0;
    while row < |table|
      invariant row <= |table| == |grid|
      invariant Holds(ps, grid, columns, occupied)
      invariant PlaceRows(ps, table, row) == Placements(table)
    {
      grid, columns, occupied := LayoutRow(table[row], row, |table|, grid, columns, occupied, ps);
      ps := PlaceResuming(ps, table[row], row, 0, |table|);
      row := row + 1;
    }
    grid := SortRows(grid);
  }
}
