/** Where the cells of a table stand: the placement shared by "layout"
    (internal/docx/table.go) and "tableGrid" (internal/httpapi/render.go). */
module TablePlacement {
  import opened Text

  /** A child of a table row; anything but a cell is passed over. */
  datatype Child<T> = Cell(node: T, colspan: int, rowspan: int, header: bool) | Other

  /** A cell with its place and its spans, cut to the table. */
  datatype Placement<T> = Placement(node: T, row: nat, column: nat, colSpan: nat, rowSpan: nat, header: bool) {
    predicate Covers(r: nat, c: nat) {
      row <= r < row + rowSpan && column <= c < column + colSpan
    }

    predicate InRow(r: nat) {
      row <= r < row + rowSpan
    }

    /** What "mark" records for the cell. */
    function Rectangle(): (s: set<(nat, nat)>)
      ensures forall r: nat, c: nat :: (r, c) in s <==> Covers(r, c)
    {
      set r: nat, c: nat | row <= r < row + rowSpan && column <= c < column + colSpan :: (r, c)
    }
  }

  function AtLeastOne(span: int): (n: nat)
    ensures n >= 1
  {
    if span < 1 then 1 else span
  }

  /** Everything marked by the cells placed so far. */
  function Taken<T>(ps: seq<Placement<T>>): set<(nat, nat)> {
    if ps == [] then {} else Taken(ps[..|ps| - 1]) + ps[|ps| - 1].Rectangle()
  }

  lemma {:induction false} TakenCovers<T>(ps: seq<Placement<T>>, r: nat, c: nat)
    ensures (r, c) in Taken(ps) <==> exists i :: 0 <= i < |ps| && ps[i].Covers(r, c)
  {
    if ps != [] {
      var init, last := ps[..|ps| - 1], ps[|ps| - 1];
      TakenCovers(init, r, c);
      assert (r, c) in last.Rectangle() <==> last.Covers(r, c);
      if (r, c) in Taken(init) {
        var i :| 0 <= i < |init| && init[i].Covers(r, c);
        assert ps[i].Covers(r, c);
      }
      if i :| 0 <= i < |ps| && ps[i].Covers(r, c) {
        if i < |init| { assert init[i].Covers(r, c); }
      }
    }
  }

  /** The marks of one row from a column on. */
  function RowMarks(taken: set<(nat, nat)>, row: nat, from: nat): set<(nat, nat)> {
    set p | p in taken && p.0 == row && p.1 >= from
  }

  lemma FewerMarks(taken: set<(nat, nat)>, row: nat, from: nat)
    requires (row, from) in taken
    ensures |RowMarks(taken, row, from + 1)| < |RowMarks(taken, row, from)|
  {
    var wide, narrow := RowMarks(taken, row, from), RowMarks(taken, row, from + 1);
    assert (row, from) in wide && (row, from) !in narrow;
    Smaller(narrow, wide, (row, from));
  }

  /** The first column at or after "from" that nothing has taken. */
  function FreeColumn(taken: set<(nat, nat)>, row: nat, from: nat): (c: nat)
    ensures c >= from && (row, c) !in taken
    ensures forall k: nat | from <= k < c :: (row, k) in taken
    decreases |RowMarks(taken, row, from)|
  {
    if (row, from) in taken then
      FewerMarks(taken, row, from);
      FreeColumn(taken, row, from + 1)
    else from
  }

  lemma FreeColumnUnique(taken: set<(nat, nat)>, row: nat, from: nat, c: nat)
    requires c >= from && (row, c) !in taken && forall k: nat | from <= k < c :: (row, k) in taken
    ensures FreeColumn(taken, row, from) == c
  {
    assert (row, FreeColumn(taken, row, from)) !in taken;
  }

  function PlaceAt<T>(cell: Child<T>, row: nat, column: nat, rows: nat): (p: Placement<T>)
    requires cell.Cell? && row < rows
    ensures p.row == row && p.column == column && p.colSpan >= 1 && 1 <= p.rowSpan <= rows - row
  {
    var span := AtLeastOne(cell.rowspan);
    Placement(cell.node, row, column, AtLeastOne(cell.colspan), if row + span > rows then rows - row else span, cell.header)
  }

  /** The rest of a row as layout places it: the search goes on after the
      previous cell of the row. */
  function PlaceResuming<T>(ps: seq<Placement<T>>, children: seq<Child<T>>, row: nat, column: nat, rows: nat): seq<Placement<T>>
    requires row < rows
    decreases |children|
  {
    if children == [] then ps
    else if children[0].Other? then PlaceResuming(ps, children[1..], row, column, rows)
    else
      var c := FreeColumn(Taken(ps), row, column);
      var p := PlaceAt(children[0], row, c, rows);
      PlaceResuming(ps + [p], children[1..], row, c + p.colSpan, rows)
  }

  /** The rest of a row as tableGrid places it: every search starts at column 0. */
  function PlaceRestarting<T>(ps: seq<Placement<T>>, children: seq<Child<T>>, row: nat, rows: nat): seq<Placement<T>>
    requires row < rows
    decreases |children|
  {
    if children == [] then ps
    else if children[0].Other? then PlaceRestarting(ps, children[1..], row, rows)
    else
      var p := PlaceAt(children[0], row, FreeColumn(Taken(ps), row, 0), rows);
      PlaceRestarting(ps + [p], children[1..], row, rows)
  }

  /** The cells of the rows from "row" on, in reading order. */
  function PlaceRows<T>(ps: seq<Placement<T>>, table: seq<seq<Child<T>>>, row: nat): seq<Placement<T>>
    requires row <= |table|
    decreases |table| - row
  {
    if row == |table| then ps
    else PlaceRows(PlaceResuming(ps, table[row], row, 0, |table|), table, row + 1)
  }

  function PlaceRowsRestarting<T>(ps: seq<Placement<T>>, table: seq<seq<Child<T>>>, row: nat): seq<Placement<T>>
    requires row <= |table|
    decreases |table| - row
  {
    if row == |table| then ps
    else PlaceRowsRestarting(PlaceRestarting(ps, table[row], row, |table|), table, row + 1)
  }

  function Placements<T>(table: seq<seq<Child<T>>>): seq<Placement<T>> {
    PlaceRows([], table, 0)
  }

  /** The width of the table in columns. */
  function ColumnCount<T>(ps: seq<Placement<T>>): nat {
    if ps == [] then 0
    else
      var last := ps[|ps| - 1];
      var before := ColumnCount(ps[..|ps| - 1]);
      if last.column + last.colSpan > before then last.column + last.colSpan else before
  }

  /** No cell reaches past the width, and one reaches it; without a cell there is none. */
  ghost predicate JustWide<T>(ps: seq<Placement<T>>, columns: nat) {
    && (forall i | 0 <= i < |ps| :: ps[i].column + ps[i].colSpan <= columns)
    && if ps == [] then columns == 0 else exists i :: 0 <= i < |ps| && ps[i].column + ps[i].colSpan == columns
  }

  lemma {:induction false} WidthIsReached<T>(ps: seq<Placement<T>>)
    ensures JustWide(ps, ColumnCount(ps))
  {
    if ps != [] {
      var n := |ps| - 1;
      WidthIsReached(ps[..n]);
      if ColumnCount(ps) != ps[n].column + ps[n].colSpan {
        var i :| 0 <= i < n && ps[..n][i].column + ps[..n][i].colSpan == ColumnCount(ps[..n]);
        assert ps[i].column + ps[i].colSpan == ColumnCount(ps);
      }
    }
  }

  // ---- The two searches agree ----

  /** All columns of the row before this one are taken. */
  ghost predicate Full(taken: set<(nat, nat)>, row: nat, column: nat) {
    forall k: nat | k < column :: (row, k) in taken
  }

  lemma FullAfter<T>(ps: seq<Placement<T>>, p: Placement<T>)
    requires Full(Taken(ps), p.row, p.column) && p.rowSpan >= 1
    ensures Full(Taken(ps + [p]), p.row, p.column + p.colSpan)
  {
    assert (ps + [p])[..|ps|] == ps;
    forall k: nat | k < p.column + p.colSpan
      ensures (p.row, k) in Taken(ps + [p])
    {
      assert p.column <= k ==> p.Covers(p.row, k);
    }
  }

  lemma {:induction false} SearchesAgreeInRow<T>(ps: seq<Placement<T>>, children: seq<Child<T>>, row: nat, column: nat, rows: nat)
    requires row < rows && Full(Taken(ps), row, column)
    ensures PlaceResuming(ps, children, row, column, rows) == PlaceRestarting(ps, children, row, rows)
    decreases |children|
  {
    if children != [] {
      if children[0].Other? {
        SearchesAgreeInRow(ps, children[1..], row, column, rows);
      } else {
        var c := FreeColumn(Taken(ps), row, column);
        FreeColumnUnique(Taken(ps), row, 0, c);
        var p := PlaceAt(children[0], row, c, rows);
        FullAfter(ps, p);
        SearchesAgreeInRow(ps + [p], children[1..], row, c + p.colSpan, rows);
      }
    }
  }

  lemma {:induction false} SearchesAgreeFrom<T>(ps: seq<Placement<T>>, table: seq<seq<Child<T>>>, row: nat)
    requires row <= |table|
    ensures PlaceRows(ps, table, row) == PlaceRowsRestarting(ps, table, row)
    decreases |table| - row
  {
    if row < |table| {
      SearchesAgreeInRow(ps, table[row], row, 0, |table|);
      SearchesAgreeFrom(PlaceResuming(ps, table[row], row, 0, |table|), table, row + 1);
    }
  }

  /** The exporter to Word and the one to Markdown and plain text put every cell
      of every table, overlapping ones included, in the same place. */
  lemma SearchesAgree<T>(table: seq<seq<Child<T>>>)
    ensures Placements(table) == PlaceRowsRestarting([], table, 0)
  {
    SearchesAgreeFrom([], table, 0);
  }

  // ---- Every cell is placed, as it is ----

  /** The cells of a table in reading order, each with its row. */
  function CellsOf<T>(children: seq<Child<T>>, row: nat): seq<(nat, Child<T>)> {
    if children == [] then []
    else (if children[0].Cell? then [(row, children[0])] else []) + CellsOf(children[1..], row)
  }

  function CellsFrom<T>(table: seq<seq<Child<T>>>, row: nat): seq<(nat, Child<T>)>
    requires row <= |table|
    decreases |table| - row
  {
    if row == |table| then [] else CellsOf(table[row], row) + CellsFrom(table, row + 1)
  }

  /** A cell's content and spans, the spans at least one and no longer than the table. */
  ghost predicate Places<T>(p: Placement<T>, cell: (nat, Child<T>), rows: nat) {
    && cell.1.Cell? && p.row == cell.0 && p.node == cell.1.node && p.header == cell.1.header
    && (if cell.1.colspan >= 1 then p.colSpan == cell.1.colspan else p.colSpan == 1)
    && 1 <= p.rowSpan && p.row + p.rowSpan <= rows
    && (p.rowSpan == cell.1.rowspan || (cell.1.rowspan < 1 && p.rowSpan == 1)
        || (cell.1.rowspan > p.rowSpan && p.row + p.rowSpan == rows))
  }

  ghost predicate PlacesAll<T>(ps: seq<Placement<T>>, cells: seq<(nat, Child<T>)>, rows: nat) {
    |ps| == |cells| && forall i | 0 <= i < |ps| :: Places(ps[i], cells[i], rows)
  }

  lemma OneMorePlaced<T>(ps: seq<Placement<T>>, cells: seq<(nat, Child<T>)>, child: Child<T>, row: nat, column: nat, rows: nat)
    requires row < rows && child.Cell? && PlacesAll(ps, cells, rows)
    ensures PlacesAll(ps + [PlaceAt(child, row, column, rows)], cells + [(row, child)], rows)
  {
  }

  lemma {:induction false} RowIsPlaced<T>(
      ps: seq<Placement<T>>, cells: seq<(nat, Child<T>)>, children: seq<Child<T>>, row: nat, column: nat, rows: nat)
    requires row < rows && PlacesAll(ps, cells, rows)
    ensures PlacesAll(PlaceResuming(ps, children, row, column, rows), cells + CellsOf(children, row), rows)
    decreases |children|
  {
    hide PlacesAll, Taken, PlaceAt;
    if children == [] {
      assert cells + [] == cells;
    } else if children[0].Other? {
      RowIsPlaced(ps, cells, children[1..], row, column, rows);
      assert [] + CellsOf(children[1..], row) == CellsOf(children[1..], row);
    } else {
      var c := FreeColumn(Taken(ps), row, column);
      var p := PlaceAt(children[0], row, c, rows);
      var own := [(row, children[0])];
      OneMorePlaced(ps, cells, children[0], row, c, rows);
      RowIsPlaced(ps + [p], cells + own, children[1..], row, c + p.colSpan, rows);
      assert cells + (own + CellsOf(children[1..], row)) == cells + own + CellsOf(children[1..], row);
    }
  }

  lemma {:induction false} RowsArePlaced<T>(ps: seq<Placement<T>>, cells: seq<(nat, Child<T>)>, table: seq<seq<Child<T>>>, row: nat)
    requires row <= |table| && PlacesAll(ps, cells, |table|)
    ensures PlacesAll(PlaceRows(ps, table, row), cells + CellsFrom(table, row), |table|)
    decreases |table| - row
  {
    hide PlacesAll, PlaceResuming, CellsOf;
    if row == |table| {
      assert cells + [] == cells;
    } else {
      var own := CellsOf(table[row], row);
      RowIsPlaced(ps, cells, table[row], row, 0, |table|);
      RowsArePlaced(PlaceResuming(ps, table[row], row, 0, |table|), cells + own, table, row + 1);
      assert cells + (own + CellsFrom(table, row + 1)) == cells + own + CellsFrom(table, row + 1);
    }
  }

  /** Every cell of every table is placed once, in order, in its own row. */
  lemma EveryCellIsPlaced<T>(table: seq<seq<Child<T>>>)
    ensures PlacesAll(Placements(table), CellsFrom(table, 0), |table|)
  {
    RowsArePlaced([], [], table, 0);
    assert [] + CellsFrom(table, 0) == CellsFrom(table, 0);
  }

  // ---- What holds of every placement ----

  predicate Before<T>(p: Placement<T>, q: Placement<T>) {
    p.row < q.row || (p.row == q.row && p.column + p.colSpan <= q.column)
  }

  /** Cells stand in reading order, inside the table, and no cell starts on a
      square that an earlier one covers. */
  ghost predicate Laid<T>(ps: seq<Placement<T>>, rows: nat) {
    && (forall i | 0 <= i < |ps| :: ps[i].colSpan >= 1 && ps[i].rowSpan >= 1 && ps[i].row + ps[i].rowSpan <= rows)
    && (forall i, j | 0 <= i < j < |ps| :: Before(ps[i], ps[j]) && !ps[i].Covers(ps[j].row, ps[j].column))
  }

  lemma LaidOneMore<T>(ps: seq<Placement<T>>, p: Placement<T>, rows: nat)
    requires Laid(ps, rows) && p.colSpan >= 1 && p.rowSpan >= 1 && p.row + p.rowSpan <= rows
    requires (p.row, p.column) !in Taken(ps)
    requires forall i | 0 <= i < |ps| :: Before(ps[i], p)
    ensures Laid(ps + [p], rows)
  {
    TakenCovers(ps, p.row, p.column);
    forall i, j | 0 <= i < j < |ps + [p]|
      ensures Before((ps + [p])[i], (ps + [p])[j])
      ensures !(ps + [p])[i].Covers((ps + [p])[j].row, (ps + [p])[j].column)
    {
      if j < |ps| { assert Before(ps[i], ps[j]); } else { assert Before(ps[i], p); }
    }
  }

  lemma {:induction false} RowIsLaid<T>(ps: seq<Placement<T>>, children: seq<Child<T>>, row: nat, column: nat, rows: nat)
    requires row < rows && Laid(ps, rows)
    requires forall i | 0 <= i < |ps| :: ps[i].row < row || (ps[i].row == row && ps[i].column + ps[i].colSpan <= column)
    ensures var all := PlaceResuming(ps, children, row, column, rows);
            && Laid(all, rows) && ps <= all
            && (forall i | 0 <= i < |all| :: all[i].row <= row)
            && (forall i | |ps| <= i < |all| :: all[i].row == row)
    decreases |children|
  {
    if children != [] {
      if children[0].Other? {
        RowIsLaid(ps, children[1..], row, column, rows);
      } else {
        var c := FreeColumn(Taken(ps), row, column);
        var p := PlaceAt(children[0], row, c, rows);
        LaidOneMore(ps, p, rows);
        RowIsLaid(ps + [p], children[1..], row, c + p.colSpan, rows);
      }
    }
  }

  lemma {:induction false} RowsAreLaid<T>(ps: seq<Placement<T>>, table: seq<seq<Child<T>>>, row: nat)
    requires row <= |table| && Laid(ps, |table|) && forall i | 0 <= i < |ps| :: ps[i].row < row
    ensures Laid(PlaceRows(ps, table, row), |table|)
    decreases |table| - row
  {
    if row < |table| {
      RowIsLaid(ps, table[row], row, 0, |table|);
      RowsAreLaid(PlaceResuming(ps, table[row], row, 0, |table|), table, row + 1);
    }
  }

  lemma PlacementsAreLaid<T>(table: seq<seq<Child<T>>>)
    ensures Laid(Placements(table), |table|)
  {
    RowsAreLaid([], table, 0);
  }

  /** Two cells never start on the same square, and no two parts of a row's cells
      start in the same column. */
  lemma DistinctColumns<T>(ps: seq<Placement<T>>, rows: nat, r: nat, i: nat, j: nat)
    requires Laid(ps, rows) && i < |ps| && j < |ps| && i != j
    requires ps[i].InRow(r) && ps[j].InRow(r)
    ensures ps[i].column != ps[j].column
  {
    var a, b := if i < j then i else j, if i < j then j else i;
    assert Before(ps[a], ps[b]) && !ps[a].Covers(ps[b].row, ps[b].column);
  }
}
