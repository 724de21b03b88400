/** "tableGrid" of internal/httpapi/render.go: a table as rows of text, with blanks
    where a cell is continued. */
module TableText {
  import opened Text
  import opened TablePlacement
  import TableBuilding

  ghost predicate StartsAt<T>(ps: seq<Placement<T>>, r: nat, c: nat) {
    exists i :: 0 <= i < |ps| && ps[i].row == r && ps[i].column == c
  }

  /** The grid shows each cell's text where the cell starts, and nothing elsewhere. */
  ghost predicate Shows<T>(ps: seq<Placement<T>>, text: T -> string, grid: seq<seq<string>>) {
    && (forall i | 0 <= i < |ps| ::
          ps[i].row < |grid| && ps[i].column < |grid[ps[i].row]| && grid[ps[i].row][ps[i].column] == text(ps[i].node))
    && (forall r, c | 0 <= r < |grid| && 0 <= c < |grid[r]| && !StartsAt(ps, r, c) :: grid[r][c] == "")
  }

  ghost predicate Proper<T>(ps: seq<Placement<T>>, rows: nat) {
    forall i | 0 <= i < |ps| :: ps[i].row < rows && ps[i].colSpan >= 1 && ps[i].rowSpan >= 1
  }

  lemma ShowsOneMore<T>(ps: seq<Placement<T>>, text: T -> string, grid: seq<seq<string>>, p: Placement<T>, row: seq<string>)
    requires Shows(ps, text, grid) && Proper(ps, |grid|) && p.row < |grid|
    requires (p.row, p.column) !in Taken(ps)
    requires p.column < |row| && |grid[p.row]| <= |row|
    requires forall c | 0 <= c < |row| ::
        row[c] == if c == p.column then text(p.node) else if c < |grid[p.row]| then grid[p.row][c] else ""
    ensures Shows(ps + [p], text, grid[p.row := row])
  {
    var more, wider := ps + [p], grid[p.row := row];
    forall i | 0 <= i < |more|
      ensures more[i].column < |wider[more[i].row]| && wider[more[i].row][more[i].column] == text(more[i].node)
    {
      if i < |ps| && ps[i].row == p.row {
        TakenCovers(ps, p.row, p.column);
        assert !ps[i].Covers(p.row, p.column);
      }
    }
    forall r, c | 0 <= r < |wider| && 0 <= c < |wider[r]| && !StartsAt(more, r, c)
      ensures wider[r][c] == ""
    {
      assert more[|ps|] == p;
      assert forall i | 0 <= i < |ps| :: more[i] == ps[i];
    }
  }

  lemma CountsOneMore<T>(ps: seq<Placement<T>>, p: Placement<T>)
    ensures Taken(ps + [p]) == Taken(ps) + p.Rectangle()
    ensures ColumnCount(ps + [p]) == if p.column + p.colSpan > ColumnCount(ps) then p.column + p.colSpan else ColumnCount(ps)
  {
    assert (ps + [p])[..|ps|] == ps;
  }

  /** One cell of "tableGrid": the row is filled up to the cell's column. */
  method PutText(row: seq<string>, column: nat, cell: string) returns (next: seq<string>)
    ensures |next| == if |row| <= column then column + 1 else |row|
    ensures forall c | 0 <= c < |next| :: next[c] == if c == column then cell else if c < |row| then row[c] else ""
  {
    next := row;
    while |next| <= column
      invariant |row| <= |next| && (|row| <= column ==> |next| <= column + 1) && (|row| > column ==> next == row)
      invariant forall c | 0 <= c < |next| :: next[c] == if c < |row| then row[c] else ""
      decreases column + 1 - |next|
    {
      next := next + [""];
    }
    next := next[column := cell];
  }

  /** The cells of one row; every search starts at column 0. */
  method GridRowTexts<T>(
      children: seq<Child<T>>, text: T -> string, row: nat, rows: nat, grid0: seq<seq<string>>, columns0: nat,
      occupied0: set<(nat, nat)>, ghost ps: seq<Placement<T>>)
    returns (grid: seq<seq<string>>, columns: nat, occupied: set<(nat, nat)>)
    requires row < rows == |grid0| && Proper(ps, rows) && Shows(ps, text, grid0) && Within(grid0, columns0)
    requires columns0 == ColumnCount(ps) && occupied0 == Taken(ps)
    ensures |grid| == rows && Within(grid, columns)
    ensures var all := PlaceRestarting(ps, children, row, rows);
            Proper(all, rows) && Shows(all, text, grid) && columns == ColumnCount(all) && occupied == Taken(all)
  {
    hide Shows, ColumnCount, Taken;
    grid, columns, occupied := grid0, columns0, occupied0;
    ghost var placed := ps;
    var k := 0;
    while k < |children|
      invariant k <= |children| && |grid| == rows && Proper(placed, rows) && Shows(placed, text, grid) && Within(grid, columns)
      invariant columns == ColumnCount(placed) && occupied == Taken(placed)
      invariant PlaceRestarting(placed, children[k..], row, rows) == PlaceRestarting(ps, children, row, rows)
    {
      assert children[k..][1..] == children[k + 1..];
      if children[k].Cell? {
        var column := TableBuilding.SearchColumn(occupied, row, 0);
        var p := PlaceAt(children[k], row, column, rows);
        occupied := TableBuilding.MarkCell(occupied, p);
        var texts := PutText(grid[row], column, text(p.node));
        ShowsOneMore(placed, text, grid, p, texts);
        grid := grid[row := texts];
        if column + p.colSpan > columns { columns := column + p.colSpan; }
        CountsOneMore(placed, p);
        placed := placed + [p];
      }
      k := k + 1;
    }
  }

  ghost predicate Within(grid: seq<seq<string>>, columns: nat) {
    forall r | 0 <= r < |grid| :: |grid[r]| <= columns
  }

  /** Blanks to the right make every row equally wide. */
  method PadRows<T>(grid0: seq<seq<string>>, columns: nat, ghost ps: seq<Placement<T>>, ghost text: T -> string)
    returns (grid: seq<seq<string>>)
    requires Within(grid0, columns) && Shows(ps, text, grid0)
    ensures |grid| == |grid0| && Shows(ps, text, grid)
    ensures forall r | 0 <= r < |grid| :: |grid[r]| == columns
  {
    grid := grid0;
    var index := 0;
    while index < |grid|
      invariant index <= |grid| == |grid0| && Within(grid, columns) && Shows(ps, text, grid)
      invariant forall r | 0 <= r < index :: |grid[r]| == columns
    {
      while |grid[index]| < columns
        invariant |grid| == |grid0| && Within(grid, columns) && Shows(ps, text, grid)
        invariant forall r | 0 <= r < index :: |grid[r]| == columns
        decreases columns - |grid[index]|
      {
        grid := grid[index := grid[index] + [""]];
      }
      index := index + 1;
    }
  }

  /** A rectangle as wide as the one laid out for Word, each cell's text at the
      same place, and blanks elsewhere. */
  method TableGrid<T>(table: seq<seq<Child<T>>>, text: T -> string) returns (grid: seq<seq<string>>, columns: nat)
    ensures |grid| == |table| && columns == ColumnCount(Placements(table)) && JustWide(Placements(table), columns)
    ensures forall r | 0 <= r < |grid| :: |grid[r]| == columns
    ensures Shows(Placements(table), text, grid)
  {
    SearchesAgree(table);
    WidthIsReached(Placements(table));
    var occupied: set<(nat, nat)> := {};
    grid := seq(|table|, _ => []);
    columns := 0;
    ghost var ps: seq<Placement<T>> := [];
    var row := 0;
    while row < |table|
      invariant row <= |table| == |grid|
      invariant Proper(ps, |table|) && Shows(ps, text, grid) && Within(grid, columns)
      invariant columns == ColumnCount(ps) && occupied == Taken(ps)
      invariant PlaceRowsRestarting(ps, table, row) == Placements(table)
    {
      grid, columns, occupied := GridRowTexts(table[row], text, row, |table|, grid, columns, occupied, ps);
      ps := PlaceRestarting(ps, table[row], row, |table|);
      row := row + 1;
    }
    grid := PadRows(grid, columns, ps, text);
  }
}
