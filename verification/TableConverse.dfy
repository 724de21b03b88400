/** Exactly which tables come back from Word as they were. */
module TableConverse {
  import opened Text
  import opened TablePlacement
  import opened DocxTable
  import opened TableRoundTrip
  import opened TableConservation

  // ---- Where a cell can have been placed ----

  /** Left of every cell, all squares of its row belong to cells placed before it. */
  ghost predicate Packed<T>(ps: seq<Placement<T>>) {
    forall i, k: nat | 0 <= i < |ps| && k < ps[i].column :: CoveredBefore(ps, i, ps[i].row, k)
  }

  ghost predicate CoveredBefore<T>(ps: seq<Placement<T>>, i: nat, row: nat, column: nat)
    requires i <= |ps|
  {
    exists j :: 0 <= j < i && ps[j].Covers(row, column)
  }

  lemma PackedOneMore<T>(ps: seq<Placement<T>>, p: Placement<T>)
    requires Packed(ps) && Full(Taken(ps), p.row, p.column)
    ensures Packed(ps + [p])
  {
    var all := ps + [p];
    forall i, k: nat | 0 <= i < |all| && k < all[i].column
      ensures CoveredBefore(all, i, all[i].row, k)
    {
      if i < |ps| {
        assert CoveredBefore(ps, i, ps[i].row, k);
        var j :| 0 <= j < i && ps[j].Covers(ps[i].row, k);
        assert all[j].Covers(all[i].row, k);
      } else {
        TakenCovers(ps, p.row, k);
        var j :| 0 <= j < |ps| && ps[j].Covers(p.row, k);
        assert all[j].Covers(p.row, k);
      }
    }
  }

  lemma {:induction false} RowIsPacked<T>(ps: seq<Placement<T>>, children: seq<Child<T>>, row: nat, column: nat, rows: nat)
    requires row < rows && Packed(ps) && Full(Taken(ps), row, column)
    ensures Packed(PlaceResuming(ps, children, row, column, rows))
    decreases |children|
  {
    hide Packed;
    if children != [] {
      if children[0].Other? {
        RowIsPacked(ps, children[1..], row, column, rows);
      } else {
        var c := FreeColumn(Taken(ps), row, column);
        var p := PlaceAt(children[0], row, c, rows);
        FullAfter(ps, p);
        PackedOneMore(ps, p);
        RowIsPacked(ps + [p], children[1..], row, c + p.colSpan, rows);
      }
    }
  }

  lemma {:induction false} RowsArePacked<T>(ps: seq<Placement<T>>, table: seq<seq<Child<T>>>, row: nat)
    requires row <= |table| && Packed(ps)
    ensures Packed(PlaceRows(ps, table, row))
    decreases |table| - row
  {
    hide Packed;
    if row < |table| {
      RowIsPacked(ps, table[row], row, 0, |table|);
      RowsArePacked(PlaceResuming(ps, table[row], row, 0, |table|), table, row + 1);
    }
  }

  /** The parts of a row before the k-th all end by "end", where the last of them ends. */
  predicate EndsAt<T>(g: seq<PlacedCell<T>>, k: nat, end: nat) {
    && k <= |g|
    && (forall a | 0 <= a < k :: g[a].column + g[a].colSpan <= end)
    && (if k == 0 then end == 0 else end == g[k - 1].column + g[k - 1].colSpan)
  }

  lemma StartsNotAfter<T>(ps: seq<Placement<T>>, rows: nat, r: nat, k: nat, end: nat)
    requires Laid(ps, rows) && Packed(ps) && EndsAt(GridRow(ps, r), k, end)
    requires k < |GridRow(ps, r)| && GridRow(ps, r)[k].merge != Continue
    ensures GridRow(ps, r)[k].column <= end
  {
    hide GridRow, Laid;
    var g := GridRow(ps, r);
    var i := OriginOf(ps, r, rows, k);
    assert ps[i].row == r;
    if end < ps[i].column {
      assert CoveredBefore(ps, i, ps[i].row, end);
      var j :| 0 <= j < i && ps[j].Covers(r, end);
      var a := PlaceOf(ps, r, rows, j);
      SortedRow(ps, rows, r, k, a);
      assert false;
    }
  }

  lemma SortedRow<T>(ps: seq<Placement<T>>, rows: nat, r: nat, k: nat, a: nat)
    requires Laid(ps, rows) && k < |GridRow(ps, r)| && a < |GridRow(ps, r)|
    ensures GridRow(ps, r)[a].column < GridRow(ps, r)[k].column ==> a < k
    ensures a < k ==> GridRow(ps, r)[a].column < GridRow(ps, r)[k].column
  {
    GridRowIs(ps, r, rows);
  }

  lemma StartsNotBefore<T>(ps: seq<Placement<T>>, rows: nat, r: nat, k: nat, end: nat)
    requires Laid(ps, rows) && EndsAt(GridRow(ps, r), k, end)
    requires k < |GridRow(ps, r)| && GridRow(ps, r)[k].merge != Continue
    ensures GridRow(ps, r)[k].column >= end
  {
    hide GridRow;
    var i := OriginOf(ps, r, rows, k);
    assert ps[i].row == r;
    if k > 0 {
      var j := OriginOf(ps, r, rows, k - 1);
      SortedRow(ps, rows, r, k, k - 1);
      OwnStartIsFree(ps, rows, r, i, j);
    }
  }

  /** No cell left of one that starts in the row reaches over its first square. */
  lemma OwnStartIsFree<T>(ps: seq<Placement<T>>, rows: nat, r: nat, i: nat, j: nat)
    requires Laid(ps, rows) && i < |ps| && j < |ps| && ps[i].row == r && ps[j].InRow(r) && ps[j].column < ps[i].column
    ensures ps[j].column + ps[j].colSpan <= ps[i].column
  {
    assert j < i ==> !ps[j].Covers(ps[i].row, ps[i].column);
  }

  // ---- Counting continuations ----

  function Continues<T>(row: seq<PlacedCell<T>>): nat {
    if row == [] then 0
    else Continues(row[..|row| - 1]) + if row[|row| - 1].merge == Continue then 1 else 0
  }

  lemma {:induction false} ContinuesConcat<T>(a: seq<PlacedCell<T>>, b: seq<PlacedCell<T>>)
    ensures Continues(a + b) == Continues(a) + Continues(b)
  {
    if b == [] {
      assert a + b == a;
    } else {
      var n := |b| - 1;
      assert (a + b)[..|a + b| - 1] == a + b[..n];
      ContinuesConcat(a, b[..n]);
    }
  }

  lemma {:induction false} InsertContinues<T>(sorted: seq<PlacedCell<T>>, x: PlacedCell<T>)
    ensures Continues(Insert(sorted, x)) == Continues(sorted) + Continues([x])
  {
    if sorted == [] || sorted[|sorted| - 1].column <= x.column {
      ContinuesConcat(sorted, [x]);
    } else {
      var n := |sorted| - 1;
      InsertContinues(sorted[..n], x);
      ContinuesConcat(Insert(sorted[..n], x), [sorted[n]]);
      ContinuesConcat(sorted[..n], [sorted[n]]);
      assert sorted[..n] + [sorted[n]] == sorted;
    }
  }

  lemma {:induction false} SortedContinues<T>(cells: seq<PlacedCell<T>>)
    ensures Continues(SortedByColumn(cells)) == Continues(cells)
  {
    if cells != [] {
      var n := |cells| - 1;
      SortedContinues(cells[..n]);
      InsertContinues(SortedByColumn(cells[..n]), cells[n]);
      ContinuesConcat(cells[..n], [cells[n]]);
      assert cells[..n] + [cells[n]] == cells;
    }
  }

  /** All continuations from a row on. */
  function ContinuesFrom<T>(ps: seq<Placement<T>>, row: nat, rows: nat): nat
    requires row <= rows
    decreases rows - row
  {
    if row == rows then 0 else Continues(GridRow(ps, row)) + ContinuesFrom(ps, row + 1, rows)
  }

  /** How much taller than one row the cells are. */
  function Extra<T>(cells: seq<TableCell<T>>): int {
    if cells == [] then 0 else Extra(cells[..|cells| - 1]) + cells[|cells| - 1].rowspan - 1
  }

  /** The rows of a cell below row "from" and below its first. */
  function RowsLeft<T>(p: Placement<T>, from: nat): nat {
    var first := if from <= p.row then p.row + 1 else from;
    if first < p.row + p.rowSpan then p.row + p.rowSpan - first else 0
  }

  lemma {:induction false} OneMoreContinues<T>(ps: seq<Placement<T>>, row: nat, rows: nat)
    requires ps != [] && row <= rows && ps[|ps| - 1].row + ps[|ps| - 1].rowSpan <= rows
    ensures ContinuesFrom(ps, row, rows) == ContinuesFrom(ps[..|ps| - 1], row, rows) + RowsLeft(ps[|ps| - 1], row)
    decreases rows - row
  {
    hide SortedByColumn, Part;
    if row < rows {
      var last, before := ps[|ps| - 1], ps[..|ps| - 1];
      OneMoreContinues(ps, row + 1, rows);
      SortedContinues(Parts(ps, row));
      SortedContinues(Parts(before, row));
      var own := if last.InRow(row) then [Part(last, row)] else [];
      ContinuesConcat(Parts(before, row), own);
      assert Continues(own) == if last.InRow(row) && last.row != row then 1 else 0 by {
        if last.InRow(row) { assert own[..0] == []; PartMerge(last, row); }
      }
    }
  }

  lemma PartMerge<T>(p: Placement<T>, row: nat)
    ensures Part(p, row).merge == Continue <==> p.row != row
  {
  }

  /** A cell leaves one continuation in each row below its first. */
  lemma {:induction false} AllContinues<T>(ps: seq<Placement<T>>, rows: nat)
    requires forall i | 0 <= i < |ps| :: ps[i].rowSpan >= 1 && ps[i].row + ps[i].rowSpan <= rows
    ensures ContinuesFrom(ps, 0, rows) == Extra(Expected(ps))
  {
    if ps == [] {
      NoContinues<T>(0, rows);
    } else {
      var n := |ps| - 1;
      AllContinues(ps[..n], rows);
      OneMoreContinues(ps, 0, rows);
      var cells := Expected(ps);
      assert cells[..|cells| - 1] == Expected(ps[..n]);
    }
  }

  lemma {:induction false} NoContinues<T>(row: nat, rows: nat)
    requires row <= rows
    ensures ContinuesFrom<T>([], row, rows) == 0
    decreases rows - row
  {
    if row < rows { NoContinues<T>(row + 1, rows); }
  }

  // ---- What reading a cell can do ----

  lemma {:induction false} ExtraUpdated<T>(cells: seq<TableCell<T>>, i: nat)
    requires i < |cells|
    ensures Extra(cells[i := cells[i].(rowspan := cells[i].rowspan + 1)]) == Extra(cells) + 1
  {
    var n := |cells| - 1;
    var raised := cells[i := cells[i].(rowspan := cells[i].rowspan + 1)];
    if i < n {
      ExtraUpdated(cells[..n], i);
      assert raised[..n] == cells[..n][i := cells[i].(rowspan := cells[i].rowspan + 1)];
    } else {
      assert raised[..n] == cells[..n];
    }
  }

  ghost predicate Hits<T>(st: Reading<T>) {
    st.column in st.open && st.open[st.column] < |st.cells|
  }

  lemma ExtraByCell<T>(st: Reading<T>, cell: PlacedCell<T>, index: nat)
    ensures Extra(ReadCell(st, ToFile(cell), index).cells)
         == Extra(st.cells) + if cell.merge == Continue && Hits(st) then 1 else 0
  {
    if cell.merge == Continue {
      if Hits(st) { ExtraUpdated(st.cells, st.open[st.column]); }
    } else {
      var next := ReadCell(st, ToFile(cell), index).cells;
      assert next[..|next| - 1] == st.cells;
    }
  }

  /** Cells stay where they are, in their row, and only grow. */
  ghost predicate Grown<T>(before: seq<TableCell<T>>, after: seq<TableCell<T>>) {
    |before| <= |after| && forall i | 0 <= i < |before| ::
      after[i].row == before[i].row && after[i].rowspan >= before[i].rowspan
  }

  lemma {:induction false} RowGrows<T>(st: Reading<T>, g: seq<PlacedCell<T>>, index: nat)
    ensures var end := ReadRow(st, FileRow(g), index);
            && Grown(st.cells, end.cells) && Extra(end.cells) <= Extra(st.cells) + Continues(g)
            && |end.cells| == |st.cells| + |Starting(g)|
            && forall i | |st.cells| <= i < |end.cells| :: end.cells[i].row == index
    decreases |g|
  {
    hide ReadCell, Extra;
    if g != [] {
      var next := ReadCell(st, ToFile(g[0]), index);
      ExtraByCell(st, g[0], index);
      CellGrows(st, g[0], index);
      assert FileRow(g)[1..] == FileRow(g[1..]);
      RowGrows(next, g[1..], index);
      FirstContinues(g);
    }
  }

  lemma CellGrows<T>(st: Reading<T>, cell: PlacedCell<T>, index: nat)
    ensures var next := ReadCell(st, ToFile(cell), index);
            && Grown(st.cells, next.cells) && |next.cells| == |st.cells| + (if cell.merge == Continue then 0 else 1)
            && forall i | |st.cells| <= i < |next.cells| :: next.cells[i].row == index
  {
  }

  lemma FirstContinues<T>(g: seq<PlacedCell<T>>)
    requires g != []
    ensures Continues(g) == (if g[0].merge == Continue then 1 else 0) + Continues(g[1..])
  {
    ContinuesConcat([g[0]], g[1..]);
    assert [g[0]] + g[1..] == g && [g[0]][..0] == [];
  }

  lemma {:induction false} RowsGrow<T>(st: Reading<T>, ps: seq<Placement<T>>, r: nat, rows: nat, kept: nat)
    requires r <= rows
    ensures var end := ReadRows(st, FileRows(ps, r, rows), kept);
            Grown(st.cells, end.cells) && Extra(end.cells) <= Extra(st.cells) + ContinuesFrom(ps, r, rows)
    decreases rows - r
  {
    hide ReadRow, FileRow, GridRow, Extra, Continues;
    if r < rows {
      RowGrows(st.(column := 0), GridRow(ps, r), kept);
      var next := ReadRow(st.(column := 0), FileRow(GridRow(ps, r)), kept);
      assert FileRows(ps, r, rows)[1..] == FileRows(ps, r + 1, rows);
      RowsGrow(next, ps, r + 1, rows, if |next.cells| > |st.cells| then kept + 1 else kept);
    }
  }

  // ---- Columns and offsets of the continuations of a row ----

  predicate Increasing(a: seq<nat>) {
    forall i, j | 0 <= i < j < |a| :: a[i] < a[j]
  }

  lemma {:induction false} IncreasingWithin(a: seq<nat>, b: seq<nat>)
    requires Increasing(a) && Increasing(b) && forall x | x in a :: x in b
    ensures |a| <= |b|
    ensures |a| == |b| ==> a == b
  {
    if a != [] {
      var m, n := |a| - 1, |b| - 1;
      assert a[m] in b;
      forall x | x in a[..m]
        ensures x in b[..n]
      {
        assert x in a && x < a[m];
        var k :| 0 <= k < |b| && b[k] == x;
        var l :| 0 <= l < |b| && b[l] == a[m];
        assert k < l;
      }
      IncreasingWithin(a[..m], b[..n]);
      assert a == a[..m] + [a[m]];
      assert b == b[..n] + [b[n]];
      var last :| 0 <= last < |b| && b[last] == a[m];
      if |a| == |b| {
        forall k | 0 <= k < n
          ensures b[k] != a[m]
        {
          assert b[k] == b[..n][k] == a[..m][k];
        }
      }
    }
  }

  lemma IncreasingCons(x: nat, a: seq<nat>)
    requires Increasing(a) && forall y | y in a :: x < y
    ensures Increasing([x] + a)
  {
    forall i, j | 0 <= i < j < 1 + |a|
      ensures ([x] + a)[i] < ([x] + a)[j]
    {
      assert ([x] + a)[j] == a[j - 1] && a[j - 1] in a;
    }
  }

  /** Where the continuations of a row stand. */
  function Columns<T>(g: seq<PlacedCell<T>>): (c: seq<nat>) {
    if g == [] then [] else (if g[0].merge == Continue then [g[0].column] else []) + Columns(g[1..])
  }

  /** Where they are read. */
  function Offsets<T>(g: seq<PlacedCell<T>>, from: nat): seq<nat>
    decreases |g|
  {
    if g == [] then []
    else (if g[0].merge == Continue then [from] else []) + Offsets(g[1..], from + g[0].colSpan)
  }

  lemma {:induction false} ColumnsIncrease<T>(g: seq<PlacedCell<T>>)
    requires StrictlySorted(g)
    ensures Increasing(Columns(g)) && forall x | x in Columns(g) :: g != [] && x >= g[0].column
  {
    if g != [] {
      var rest := Columns(g[1..]);
      ColumnsIncrease(g[1..]);
      assert [] + rest == rest;
      IncreasingCons(g[0].column, rest);
    }
  }

  lemma {:induction false} OffsetsIncrease<T>(g: seq<PlacedCell<T>>, from: nat)
    requires forall c | c in g :: c.colSpan >= 1
    ensures Increasing(Offsets(g, from)) && (forall x | x in Offsets(g, from) :: x >= from)
    ensures |Offsets(g, from)| == |Columns(g)|
    decreases |g|
  {
    if g != [] {
      hide Increasing;
      assert g[0] in g && forall c | c in g[1..] :: c in g;
      var rest := Offsets(g[1..], from + g[0].colSpan);
      OffsetsIncrease(g[1..], from + g[0].colSpan);
      assert [] + rest == rest;
      IncreasingCons(from, rest);
    }
  }

  lemma {:induction false} ColumnsHave<T>(g: seq<PlacedCell<T>>, c: PlacedCell<T>)
    requires c in g && c.merge == Continue
    ensures c.column in Columns(g)
  {
    if c != g[0] {
      assert g == [g[0]] + g[1..];
      ColumnsHave(g[1..], c);
    }
  }

  // ---- A row in which every continuation counts ----

  /** The columns from here on are open as they were when the row began. */
  ghost predicate OpenAsBefore<T>(start: Reading<T>, st: Reading<T>) {
    && Grown(start.cells, st.cells)
    && (forall c | c >= st.column :: c in st.open <==> c in start.open)
    && (forall c | c >= st.column && c in st.open :: st.open[c] == start.open[c])
  }

  /** The continuation read at some column belongs to a cell that stands there and
      reaches the row. */
  lemma HitIsActive<T>(
      start: Reading<T>, st: Reading<T>, ps: seq<Placement<T>>, rows: nat, r: nat, g: seq<PlacedCell<T>>, index: nat)
    requires Laid(ps, rows) && ReadSoFar(start, ps, r, 0) && OpenAsBefore(start, st)
    requires g != [] && g[0].merge == Continue && Hits(st)
    requires var end := ReadRow(st, FileRow(g), index);
             forall i | 0 <= i < |start.cells| && i < |end.cells| :: end.cells[i].rowspan <= ps[i].rowSpan
    ensures st.column in Columns(GridRow(ps, r))
  {
    hide GridRow, FileRow, ReadRow, Laid, Columns;
    var i := start.open[st.column];
    var next := ReadCell(st, ToFile(g[0]), index);
    assert FileRow(g) == [ToFile(g[0])] + FileRow(g[1..]) by { FileRowFirst(g); }
    assert ReadRow(st, FileRow(g), index) == ReadRow(next, FileRow(g[1..]), index) by { ReadRowFirst(st, g, index); }
    RowGrows(next, g[1..], index);
    assert next.cells[i].rowspan == st.cells[i].rowspan + 1;
    assert ps[i].column == st.column && Seen(ps[i], r, 0) >= 1;
    assert ps[i].InRow(r) && ps[i].row != r;
    GridRowIs(ps, r, rows);
    ColumnsHave(GridRow(ps, r), Part(ps[i], r));
  }

  lemma FileRowFirst<T>(g: seq<PlacedCell<T>>)
    requires g != []
    ensures FileRow(g) == [ToFile(g[0])] + FileRow(g[1..])
  {
  }

  lemma ReadRowFirst<T>(st: Reading<T>, g: seq<PlacedCell<T>>, index: nat)
    requires g != []
    ensures ReadRow(st, FileRow(g), index) == ReadRow(ReadCell(st, ToFile(g[0]), index), FileRow(g[1..]), index)
  {
    assert FileRow(g)[1..] == FileRow(g[1..]);
  }

  lemma {:induction false} OffsetsAreColumns<T>(
      start: Reading<T>, st: Reading<T>, ps: seq<Placement<T>>, rows: nat, r: nat, g: seq<PlacedCell<T>>, index: nat)
    requires Laid(ps, rows) && ReadSoFar(start, ps, r, 0) && OpenAsBefore(start, st)
    requires forall c | c in g :: c.colSpan >= 1
    requires var end := ReadRow(st, FileRow(g), index);
             && Extra(end.cells) == Extra(st.cells) + Continues(g)
             && forall i | 0 <= i < |start.cells| && i < |end.cells| :: end.cells[i].rowspan <= ps[i].rowSpan
    ensures forall x | x in Offsets(g, st.column) :: x in Columns(GridRow(ps, r))
    decreases |g|
  {
    hide GridRow, Laid, Columns, Extra, Continues, ReadSoFar, ReadRow, FileRow;
    if g != [] {
      var next := ReadCell(st, ToFile(g[0]), index);
      assert g[0] in g && forall c | c in g[1..] :: c in g;
      ReadRowFirst(st, g, index);
      ExtraByCell(st, g[0], index);
      RowGrows(next, g[1..], index);
      FirstContinues(g);
      CellGrows(st, g[0], index);
      if g[0].merge == Continue { HitIsActive(start, st, ps, rows, r, g, index); }
      OffsetsAreColumns(start, next, ps, rows, r, g[1..], index);
    }
  }

  lemma OffsetsStep<T>(g: seq<PlacedCell<T>>, from: nat)
    requires g != [] && Offsets(g, from) == Columns(g)
    ensures Offsets(g[1..], from + g[0].colSpan) == Columns(g[1..])
    ensures g[0].merge == Continue ==> g[0].column == from
  {
    var a, b := Offsets(g[1..], from + g[0].colSpan), Columns(g[1..]);
    if g[0].merge == Continue {
      assert ([from] + a)[0] == from && ([g[0].column] + b)[0] == g[0].column;
      assert ([from] + a)[1..] == a && ([g[0].column] + b)[1..] == b;
    } else {
      assert [] + a == a && [] + b == b;
    }
  }

  /** When the continuations are read where they stand, the row has no gap. */
  lemma {:induction false} AlignedFrom<T>(ps: seq<Placement<T>>, rows: nat, r: nat, k: nat, end: nat)
    requires Laid(ps, rows) && Packed(ps) && EndsAt(GridRow(ps, r), k, end)
    requires Offsets(GridRow(ps, r)[k..], end) == Columns(GridRow(ps, r)[k..])
    ensures Contiguous(GridRow(ps, r)[k..], end)
    decreases |GridRow(ps, r)| - k
  {
    hide GridRow, Laid, Packed;
    var g := GridRow(ps, r);
    if k < |g| {
      assert g[k..][1..] == g[k + 1..];
      OffsetsStep(g[k..], end);
      if g[k].merge != Continue {
        StartsNotAfter(ps, rows, r, k, end);
        StartsNotBefore(ps, rows, r, k, end);
      }
      AlignedFrom(ps, rows, r, k + 1, end + g[k].colSpan);
    }
  }

  lemma SpansOfRow<T>(ps: seq<Placement<T>>, rows: nat, r: nat)
    requires Laid(ps, rows)
    ensures StrictlySorted(GridRow(ps, r)) && forall c | c in GridRow(ps, r) :: c.colSpan >= 1
  {
    GridRowIs(ps, r, rows);
  }

  lemma RowHasNoGap<T>(st: Reading<T>, ps: seq<Placement<T>>, rows: nat, r: nat, index: nat)
    requires Laid(ps, rows) && Packed(ps) && st.column == 0 && ReadSoFar(st, ps, r, 0)
    requires var end := ReadRow(st, FileRow(GridRow(ps, r)), index);
             && Extra(end.cells) == Extra(st.cells) + Continues(GridRow(ps, r))
             && forall i | 0 <= i < |st.cells| && i < |end.cells| :: end.cells[i].rowspan <= ps[i].rowSpan
    ensures Contiguous(GridRow(ps, r), 0)
  {
    hide GridRow, Laid, Packed, Extra, Continues, ReadSoFar, ReadRow, FileRow, Columns, Offsets;
    var g := GridRow(ps, r);
    SpansOfRow(ps, rows, r);
    OffsetsAreColumns(st, st, ps, rows, r, g, index);
    ColumnsIncrease(g);
    OffsetsIncrease(g, 0);
    IncreasingWithin(Offsets(g, 0), Columns(g));
    assert g[0..] == g;
    AlignedFrom(ps, rows, r, 0, 0);
  }

  // ---- The converse ----

  /** The cells read are at least as tall as expected only up to what is expected. */
  ghost predicate AsExpected<T>(cells: seq<TableCell<T>>, ps: seq<Placement<T>>) {
    |cells| == |ps| && Extra(cells) == Extra(Expected(ps))
    && forall i | 0 <= i < |ps| :: cells[i].row == ps[i].row && cells[i].rowspan == ps[i].rowSpan
  }

  ghost predicate AllStartBefore<T>(ps: seq<Placement<T>>, r: nat) {
    forall q: nat | q < r :: StartsACell(ps, q)
  }

  /** The number of a row that starts a cell is told by the cell. */
  lemma StartingRowKept<T>(st: Reading<T>, ps: seq<Placement<T>>, rows: nat, r: nat, kept: nat)
    requires Laid(ps, rows) && r < rows && StartsACell(ps, r) && ReadSoFar(st.(column := 0), ps, r, 0)
    requires AsExpected(ReadRows(st, FileRows(ps, r, rows), kept).cells, ps)
    ensures kept == r
  {
    hide GridRow, FileRow, ReadRow, Laid, Extra, Continues;
    var g := GridRow(ps, r);
    var start := st.(column := 0);
    var i := FirstOfRow(ps, rows, r);
    var next := ReadRow(start, FileRow(g), kept);
    RowGrows(start, g, kept);
    assert FileRows(ps, r, rows)[1..] == FileRows(ps, r + 1, rows);
    RowsGrow(next, ps, r + 1, rows, if |next.cells| > |st.cells| then kept + 1 else kept);
    assert i == |st.cells| by { FirstUnread(start, ps, rows, r, i); }
    OwnPartStarts(ps, rows, r, i);
  }

  lemma OwnPartStarts<T>(ps: seq<Placement<T>>, rows: nat, r: nat, i: nat)
    requires Laid(ps, rows) && i < |ps| && ps[i].row == r
    ensures Starting(GridRow(ps, r)) != []
  {
    GridRowIs(ps, r, rows);
    StartingMembers(GridRow(ps, r), Part(ps[i], r));
  }

  lemma FirstOfRow<T>(ps: seq<Placement<T>>, rows: nat, r: nat) returns (i: nat)
    requires StartsACell(ps, r)
    ensures i < |ps| && ps[i].row == r && forall j | 0 <= j < i :: ps[j].row != r
  {
    i := 0;
    while ps[i].row != r
      invariant i < |ps| && forall j | 0 <= j < i :: ps[j].row != r
      decreases |ps| - i
    {
      assert exists j :: i < j < |ps| && ps[j].row == r;
      i := i + 1;
    }
  }

  lemma FirstUnread<T>(st: Reading<T>, ps: seq<Placement<T>>, rows: nat, r: nat, i: nat)
    requires Laid(ps, rows) && ReadSoFar(st, ps, r, 0)
    requires i < |ps| && ps[i].row == r && forall j | 0 <= j < i :: ps[j].row != r
    ensures i == |st.cells|
  {
    if i > 0 { assert Before(ps[i - 1], ps[i]) && Seen(ps[i - 1], r, 0) >= 1; }
  }

  lemma {:induction false} RegularFrom<T>(st: Reading<T>, ps: seq<Placement<T>>, rows: nat, r: nat, kept: nat)
    requires Laid(ps, rows) && Packed(ps) && r <= rows && ReadSoFar(st.(column := 0), ps, r, 0)
    requires AsExpected(ReadRows(st, FileRows(ps, r, rows), kept).cells, ps)
    requires Extra(st.cells) + ContinuesFrom(ps, r, rows) == Extra(Expected(ps))
    requires kept <= r && (kept == r <==> AllStartBefore(ps, r))
    ensures forall s: nat | r <= s < rows :: Contiguous(GridRow(ps, s), 0) && (StartsACell(ps, s) ==> AllStartBefore(ps, s))
    decreases rows - r
  {
    hide GridRow, FileRow, ReadRow, Laid, Packed, Contiguous, ReadSoFar, StartsACell, Extra, Continues, Expected;
    if r < rows {
      var g, start := GridRow(ps, r), st.(column := 0);
      var next := ReadRow(start, FileRow(g), kept);
      var count := if |next.cells| > |st.cells| then kept + 1 else kept;
      assert FileRows(ps, r, rows)[1..] == FileRows(ps, r + 1, rows);
      if StartsACell(ps, r) { StartingRowKept(st, ps, rows, r, kept); }
      RowGrows(start, g, kept);
      RowsGrow(next, ps, r + 1, rows, count);
      RowHasNoGap(start, ps, rows, r, kept);
      OneRowBack(start, ps, rows, r, kept);
      if !StartsACell(ps, r) { NothingStarts(ps, rows, r); }
      RegularFrom(next, ps, rows, r + 1, count);
    }
  }

  lemma NothingStarts<T>(ps: seq<Placement<T>>, rows: nat, r: nat)
    requires Laid(ps, rows) && !StartsACell(ps, r)
    ensures |Starting(GridRow(ps, r))| == 0
  {
    var g := GridRow(ps, r);
    GridRowIs(ps, r, rows);
    if Starting(g) != [] { StartingMembers(g, Starting(g)[0]); }
  }

  lemma ExpectedIs<T>(ps: seq<Placement<T>>)
    ensures AsExpected(Expected(ps), ps)
  {
    forall i | 0 <= i < |ps|
      ensures |Expected(ps)| == |ps| && Expected(ps)[i].row == ps[i].row && Expected(ps)[i].rowspan == ps[i].rowSpan
    {
      ExpectedAt(ps, i);
    }
    if ps == [] { assert Expected(ps) == []; } else { ExpectedAt(ps, 0); }
  }

  /** A table comes back from Word with all cells, places and spans if and only if no
      row of its grid has a gap or an overlap and the rows that start no cell are its
      last. */
  lemma ReadsBackExactly<T>(table: seq<seq<Child<T>>>)
    ensures ReadTable(ExportTable(table)) == Expected(Placements(table)) <==> Regular(Placements(table), |table|)
  {
    if Regular(Placements(table), |table|) { RegularTableReadsBack(table); }
    if ReadTable(ExportTable(table)) == Expected(Placements(table)) { OnlyRegularReadsBack(table); }
  }

  lemma OnlyRegularReadsBack<T>(table: seq<seq<Child<T>>>)
    requires ReadTable(ExportTable(table)) == Expected(Placements(table))
    ensures Regular(Placements(table), |table|)
  {
    hide Extra, Packed, Expected, Laid, Contiguous, GridRow, ReadRows, FileRows;
    var ps, rows := Placements(table), |table|;
    PlacementsAreLaid(table);
    var start: Reading<T> := Reading([], map[], 0);
    Beginning(table);
    ExpectedIs(ps);
    RegularFrom(start, ps, rows, 0, 0);
  }

  lemma Beginning<T>(table: seq<seq<Child<T>>>)
    ensures var ps := Placements(table);
            && Packed(ps) && ReadSoFar(Reading([], map[], 0), ps, 0, 0)
            && Extra<T>([]) + ContinuesFrom(ps, 0, |table|) == Extra(Expected(ps))
  {
    hide Expected, Extra, Packed, Laid, ReadSoFar, ContinuesFrom, Placements;
    var ps, rows := Placements(table), |table|;
    PlacementsAreLaid(table);
    assert Packed(ps) by { AllPacked(table); }
    assert ReadSoFar(Reading([], map[], 0), ps, 0, 0) by { NothingRead(ps, rows); }
    assert ContinuesFrom(ps, 0, rows) == Extra(Expected(ps)) by { SpansOfLaid(ps, rows); AllContinues(ps, rows); }
    assert Extra<T>([]) == 0 by { NothingExtra<T>(); }
  }

  lemma AllPacked<T>(table: seq<seq<Child<T>>>)
    ensures Packed(Placements(table))
  {
    assert Packed<T>([]) by { NothingPacked<T>(); }
    RowsArePacked([], table, 0);
  }

  lemma SpansOfLaid<T>(ps: seq<Placement<T>>, rows: nat)
    requires Laid(ps, rows)
    ensures forall i | 0 <= i < |ps| :: ps[i].rowSpan >= 1 && ps[i].row + ps[i].rowSpan <= rows
  {
  }

  lemma NothingRead<T>(ps: seq<Placement<T>>, rows: nat)
    requires Laid(ps, rows)
    ensures ReadSoFar(Reading([], map[], 0), ps, 0, 0)
  {
  }

  lemma NothingPacked<T>()
    ensures Packed<T>([])
  {
  }

  lemma NothingExtra<T>()
    ensures Extra<T>([]) == 0
  {
  }
}
