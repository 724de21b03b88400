/** A table written to Word and read back. */
module TableRoundTrip {
  import opened Text
  import opened TablePlacement
  import opened DocxTable

  // ---- Sorting ----

  predicate StrictlySorted<T>(cells: seq<PlacedCell<T>>) {
    forall a, b | 0 <= a < b < |cells| :: cells[a].column < cells[b].column
  }

  predicate DistinctParts<T>(cells: seq<PlacedCell<T>>) {
    forall a, b | 0 <= a < b < |cells| :: cells[a].column != cells[b].column
  }

  lemma {:induction false} InsertKeeps<T>(sorted: seq<PlacedCell<T>>, x: PlacedCell<T>, c: PlacedCell<T>)
    ensures c in Insert(sorted, x) <==> c in sorted || c == x
  {
    if sorted != [] && sorted[|sorted| - 1].column > x.column {
      var n := |sorted| - 1;
      InsertKeeps(sorted[..n], x, c);
      assert sorted == sorted[..n] + [sorted[n]];
    }
  }

  lemma {:induction false} InsertSorts<T>(sorted: seq<PlacedCell<T>>, x: PlacedCell<T>)
    requires StrictlySorted(sorted) && forall c | c in sorted :: c.column != x.column
    ensures StrictlySorted(Insert(sorted, x))
  {
    var n := |sorted| - 1;
    if sorted != [] && sorted[n].column > x.column {
      InsertSorts(sorted[..n], x);
      forall c | c in Insert(sorted[..n], x)
        ensures c.column < sorted[n].column
      {
        InsertKeeps(sorted[..n], x, c);
      }
    } else if sorted != [] {
      assert sorted[n] in sorted;
    }
  }

  lemma {:induction false} SortKeeps<T>(cells: seq<PlacedCell<T>>, c: PlacedCell<T>)
    ensures c in SortedByColumn(cells) <==> c in cells
  {
    if cells != [] {
      var n := |cells| - 1;
      SortKeeps(cells[..n], c);
      InsertKeeps(SortedByColumn(cells[..n]), cells[n], c);
      assert cells == cells[..n] + [cells[n]];
    }
  }

  lemma {:induction false} SortSorts<T>(cells: seq<PlacedCell<T>>)
    requires DistinctParts(cells)
    ensures StrictlySorted(SortedByColumn(cells))
  {
    if cells != [] {
      var n := |cells| - 1;
      SortSorts(cells[..n]);
      forall c | c in SortedByColumn(cells[..n])
        ensures c.column != cells[n].column
      {
        SortKeeps(cells[..n], c);
      }
      InsertSorts(SortedByColumn(cells[..n]), cells[n]);
    }
  }

  // ---- The rows of the grid ----

  ghost predicate IsPart<T>(ps: seq<Placement<T>>, row: nat, c: PlacedCell<T>) {
    exists i :: 0 <= i < |ps| && ps[i].InRow(row) && c == Part(ps[i], row)
  }

  ghost predicate StartsACell<T>(ps: seq<Placement<T>>, row: nat) {
    exists i :: 0 <= i < |ps| && ps[i].row == row
  }

  ghost predicate Covered<T>(ps: seq<Placement<T>>, r: nat, c: nat) {
    exists i :: 0 <= i < |ps| && ps[i].Covers(r, c)
  }

  lemma {:induction false} PartsAre<T>(ps: seq<Placement<T>>, row: nat, c: PlacedCell<T>)
    ensures c in Parts(ps, row) <==> IsPart(ps, row, c)
  {
    if ps != [] {
      var n := |ps| - 1;
      PartsAre(ps[..n], row, c);
      if c in Parts(ps[..n], row) {
        var i :| 0 <= i < n && ps[..n][i].InRow(row) && c == Part(ps[..n][i], row);
        assert ps[i].InRow(row) && c == Part(ps[i], row);
      }
      if i :| 0 <= i < |ps| && ps[i].InRow(row) && c == Part(ps[i], row) {
        if i < n { assert ps[..n][i].InRow(row) && c == Part(ps[..n][i], row); }
      }
    }
  }

  lemma {:induction false} PartsAreDistinct<T>(ps: seq<Placement<T>>, row: nat, rows: nat)
    requires Laid(ps, rows)
    ensures DistinctParts(Parts(ps, row))
  {
    if ps != [] {
      var n := |ps| - 1;
      PartsAreDistinct(ps[..n], row, rows);
      var before := Parts(ps[..n], row);
      if ps[n].InRow(row) {
        forall a | 0 <= a < |before|
          ensures before[a].column != ps[n].column
        {
          PartsAre(ps[..n], row, before[a]);
          var i :| 0 <= i < n && ps[..n][i].InRow(row) && before[a] == Part(ps[..n][i], row);
          assert ps[..n][i] == ps[i];
          DistinctColumns(ps, rows, row, i, n);
        }
      }
    }
  }

  /** A row of the grid: strictly increasing columns, and exactly the parts of the
      cells that reach the row. */
  lemma GridRowIs<T>(ps: seq<Placement<T>>, row: nat, rows: nat)
    requires Laid(ps, rows)
    ensures StrictlySorted(GridRow(ps, row))
    ensures forall i | 0 <= i < |ps| && ps[i].InRow(row) :: Part(ps[i], row) in GridRow(ps, row)
    ensures forall c | c in GridRow(ps, row) :: IsPart(ps, row, c)
  {
    PartsAreDistinct(ps, row, rows);
    SortSorts(Parts(ps, row));
    forall c | c in GridRow(ps, row)
      ensures IsPart(ps, row, c)
    {
      SortKeeps(Parts(ps, row), c);
      PartsAre(ps, row, c);
    }
    forall i | 0 <= i < |ps| && ps[i].InRow(row)
      ensures Part(ps[i], row) in GridRow(ps, row)
    {
      assert IsPart(ps, row, Part(ps[i], row));
      SortKeeps(Parts(ps, row), Part(ps[i], row));
      PartsAre(ps, row, Part(ps[i], row));
    }
  }

  // ---- Tables without gaps or overlaps ----

  /** Each part starts where the one before it ends. */
  predicate Contiguous<T>(row: seq<PlacedCell<T>>, from: nat)
    decreases |row|
  {
    row == [] || (row[0].column == from && Contiguous(row[1..], from + row[0].colSpan))
  }

  /** No row of the grid has a gap or an overlap, and no row that starts a cell comes
      after one that starts none. */
  ghost predicate Regular<T>(ps: seq<Placement<T>>, rows: nat) {
    && (forall r: nat | r < rows :: Contiguous(GridRow(ps, r), 0))
    && (forall r: nat, s: nat | r < s < rows && StartsACell(ps, s) :: StartsACell(ps, r))
  }

  /** Every square of the table belongs to exactly one cell. */
  ghost predicate Tiles<T>(ps: seq<Placement<T>>, rows: nat) {
    && (forall r: nat, c: nat | r < rows && c < ColumnCount(ps) :: Covered(ps, r, c))
    && (forall i, j, r: nat, c: nat | 0 <= i < j < |ps| && ps[i].Covers(r, c) :: !ps[j].Covers(r, c))
  }

  lemma {:induction false} WithinColumns<T>(ps: seq<Placement<T>>, i: nat)
    requires i < |ps|
    ensures ps[i].column + ps[i].colSpan <= ColumnCount(ps)
  {
    if i < |ps| - 1 {
      WithinColumns(ps[..|ps| - 1], i);
    }
  }

  /** The cell a part of the grid comes from. */
  lemma OriginOf<T>(ps: seq<Placement<T>>, row: nat, rows: nat, k: nat) returns (i: nat)
    requires Laid(ps, rows) && k < |GridRow(ps, row)|
    ensures i < |ps| && ps[i].InRow(row) && GridRow(ps, row)[k] == Part(ps[i], row)
  {
    GridRowIs(ps, row, rows);
    assert GridRow(ps, row)[k] in GridRow(ps, row);
    var j :| 0 <= j < |ps| && ps[j].InRow(row) && GridRow(ps, row)[k] == Part(ps[j], row);
    i := j;
  }

  /** The place in the grid row of a cell that reaches the row. */
  lemma PlaceOf<T>(ps: seq<Placement<T>>, row: nat, rows: nat, i: nat) returns (k: nat)
    requires Laid(ps, rows) && i < |ps| && ps[i].InRow(row)
    ensures k < |GridRow(ps, row)| && GridRow(ps, row)[k] == Part(ps[i], row)
  {
    GridRowIs(ps, row, rows);
    var j :| 0 <= j < |GridRow(ps, row)| && GridRow(ps, row)[j] == Part(ps[i], row);
    k := j;
  }

  /** Two parts of a row of a tiled table do not overlap. */
  lemma TiledApart<T>(ps: seq<Placement<T>>, row: nat, rows: nat, a: nat, b: nat)
    requires Laid(ps, rows) && Tiles(ps, rows) && a < b < |GridRow(ps, row)|
    ensures GridRow(ps, row)[a].column + GridRow(ps, row)[a].colSpan <= GridRow(ps, row)[b].column
  {
    GridRowIs(ps, row, rows);
    var i := OriginOf(ps, row, rows, a);
    var j := OriginOf(ps, row, rows, b);
    assert ps[i].column < ps[j].column;
    assert ps[j].Covers(row, ps[j].column);
    assert i < j ==> !ps[i].Covers(row, ps[j].column);
    assert j < i ==> !ps[i].Covers(row, ps[j].column);
  }

  /** In a tiled table, a part of a row starts where the part before it ends. */
  lemma TiledNeighbours<T>(ps: seq<Placement<T>>, row: nat, rows: nat, k: nat)
    requires Laid(ps, rows) && Tiles(ps, rows) && row < rows && k < |GridRow(ps, row)|
    ensures var g := GridRow(ps, row);
            g[k].column == if k == 0 then 0 else g[k - 1].column + g[k - 1].colSpan
  {
    var g := GridRow(ps, row);
    GridRowIs(ps, row, rows);
    var c := if k == 0 then 0 else g[k - 1].column + g[k - 1].colSpan;
    if k > 0 { TiledApart(ps, row, rows, k - 1, k); }
    if c < g[k].column {
      var i := OriginOf(ps, row, rows, k);
      WithinColumns(ps, i);
      assert Covered(ps, row, c);
      var j :| 0 <= j < |ps| && ps[j].Covers(row, c);
      var at := PlaceOf(ps, row, rows, j);
      NothingBetween(ps, row, rows, k, at);
    }
  }

  /** No part covers a square between two neighbours. */
  lemma NothingBetween<T>(ps: seq<Placement<T>>, row: nat, rows: nat, k: nat, at: nat)
    requires Laid(ps, rows) && Tiles(ps, rows) && k < |GridRow(ps, row)| && at < |GridRow(ps, row)|
    ensures var g := GridRow(ps, row);
            var c := if k == 0 then 0 else g[k - 1].column + g[k - 1].colSpan;
            c < g[k].column ==> !(g[at].column <= c < g[at].column + g[at].colSpan)
  {
    GridRowIs(ps, row, rows);
    if k > 0 && at < k - 1 { TiledApart(ps, row, rows, at, k - 1); }
  }

  lemma {:induction false} NeighboursContiguous<T>(g: seq<PlacedCell<T>>, k: nat)
    requires k <= |g|
    requires forall j | 0 <= j < |g| :: g[j].column == if j == 0 then 0 else g[j - 1].column + g[j - 1].colSpan
    ensures Contiguous(g[k..], if k == 0 then 0 else g[k - 1].column + g[k - 1].colSpan)
    decreases |g| - k
  {
    if k < |g| {
      assert g[k..][1..] == g[k + 1..];
      NeighboursContiguous(g, k + 1);
    }
  }

  lemma TiledIsRegular<T>(ps: seq<Placement<T>>, rows: nat)
    requires Laid(ps, rows) && Tiles(ps, rows)
    requires forall r: nat | r < rows :: StartsACell(ps, r)
    ensures Regular(ps, rows)
  {
    forall r: nat | r < rows
      ensures Contiguous(GridRow(ps, r), 0)
    {
      var g := GridRow(ps, r);
      forall k | 0 <= k < |g|
        ensures g[k].column == if k == 0 then 0 else g[k - 1].column + g[k - 1].colSpan
      {
        TiledNeighbours(ps, r, rows, k);
      }
      NeighboursContiguous(g, 0);
      assert g[0..] == g;
    }
  }

  // ---- Reading ----

  /** How many rows of a cell have been read before row r. */
  function SeenBefore<T>(p: Placement<T>, r: nat): nat {
    if r <= p.row then 0 else if r - p.row < p.rowSpan then r - p.row else p.rowSpan
  }

  /** … and once row r has been read up to column x. */
  function Seen<T>(p: Placement<T>, r: nat, x: nat): nat {
    SeenBefore(p, r) + if p.InRow(r) && p.column < x then 1 else 0
  }

  ghost predicate ReadSoFar<T>(st: Reading<T>, ps: seq<Placement<T>>, r: nat, x: nat) {
    && |st.cells| <= |ps|
    && (forall i | 0 <= i < |ps| :: i < |st.cells| <==> Seen(ps[i], r, x) >= 1)
    && (forall i | 0 <= i < |st.cells| ::
          st.cells[i] == TableCell(Some(ps[i].node), ps[i].colSpan, Seen(ps[i], r, x), ps[i].row))
    && (forall i | 0 <= i < |st.cells| && Seen(ps[i], r, x) < ps[i].rowSpan ::
          ps[i].column in st.open && st.open[ps[i].column] == i)
    && (forall c | c in st.open :: st.open[c] < |st.cells| && ps[st.open[c]].column == c)
  }

  lemma ContinueStep<T>(st: Reading<T>, ps: seq<Placement<T>>, rows: nat, r: nat, i: nat)
    requires Laid(ps, rows) && ReadSoFar(st, ps, r, st.column)
    requires i < |ps| && ps[i].InRow(r) && ps[i].row < r && ps[i].column == st.column
    requires forall j | 0 <= j < |ps| && ps[j].InRow(r) && ps[j].column > st.column :: ps[j].column >= st.column + ps[i].colSpan
    ensures var next := ReadCell(st, ToFile(Part(ps[i], r)), r);
            next.column == st.column + ps[i].colSpan && ReadSoFar(next, ps, r, next.column)
            && |next.cells| == |st.cells|
  {
    var next := ReadCell(st, ToFile(Part(ps[i], r)), r);
    assert Seen(ps[i], r, st.column) == r - ps[i].row;
    assert st.open[st.column] == i;
    forall j | 0 <= j < |ps|
      ensures Seen(ps[j], r, next.column) == Seen(ps[j], r, st.column) + if j == i then 1 else 0
    {
      if j != i && ps[j].InRow(r) { DistinctColumns(ps, rows, r, i, j); }
    }
  }

  lemma PlacedStep<T>(st: Reading<T>, ps: seq<Placement<T>>, rows: nat, r: nat, i: nat)
    requires Laid(ps, rows) && ReadSoFar(st, ps, r, st.column)
    requires i < |ps| && ps[i].row == r && ps[i].column == st.column
    requires forall j | 0 <= j < |ps| && ps[j].InRow(r) && ps[j].column > st.column :: ps[j].column >= st.column + ps[i].colSpan
    ensures var next := ReadCell(st, ToFile(Part(ps[i], r)), r);
            next.column == st.column + ps[i].colSpan && ReadSoFar(next, ps, r, next.column)
            && |next.cells| == |st.cells| + 1
  {
    var m := |st.cells|;
    var next := ReadCell(st, ToFile(Part(ps[i], r)), r);
    assert Seen(ps[i], r, st.column) == 0;
    assert i == m by {
      if i > 0 { assert Before(ps[i - 1], ps[i]) && Seen(ps[i - 1], r, st.column) >= 1; }
    }
    forall j | 0 <= j < |ps|
      ensures Seen(ps[j], r, next.column) == Seen(ps[j], r, st.column) + if j == i then 1 else 0
    {
      if j != i && ps[j].InRow(r) { DistinctColumns(ps, rows, r, i, j); }
    }
    forall j | 0 <= j < m && Seen(ps[j], r, next.column) < ps[j].rowSpan
      ensures ps[j].column in next.open && next.open[ps[j].column] == j
    {
      assert ps[j].InRow(r);
      DistinctColumns(ps, rows, r, i, j);
    }
  }

  lemma {:induction false} ContiguousStartsAt<T>(row: seq<PlacedCell<T>>, from: nat, k: nat)
    requires Contiguous(row, from) && k < |row|
    ensures row[k].column >= from
  {
    if k > 0 { ContiguousStartsAt(row[1..], from + row[0].colSpan, k - 1); }
  }

  /** Everything that reaches row r from column x on is still ahead. */
  ghost predicate Ahead<T>(ps: seq<Placement<T>>, r: nat, x: nat, g: seq<PlacedCell<T>>) {
    && (forall i | 0 <= i < |ps| && ps[i].InRow(r) && ps[i].column >= x :: Part(ps[i], r) in g)
    && (forall c | c in g :: IsPart(ps, r, c))
  }

  lemma AheadMoves<T>(ps: seq<Placement<T>>, r: nat, x: nat, g: seq<PlacedCell<T>>, rows: nat)
    requires Laid(ps, rows) && g != [] && Ahead(ps, r, x, g) && Contiguous(g, x)
    ensures forall j | 0 <= j < |ps| && ps[j].InRow(r) && ps[j].column > x :: ps[j].column >= x + g[0].colSpan
    ensures Ahead(ps, r, x + g[0].colSpan, g[1..])
  {
    assert g[0] in g;
    var i :| 0 <= i < |ps| && ps[i].InRow(r) && g[0] == Part(ps[i], r);
    forall j | 0 <= j < |ps| && ps[j].InRow(r) && ps[j].column > x
      ensures ps[j].column >= x + g[0].colSpan && Part(ps[j], r) in g[1..]
    {
      var k :| 0 <= k < |g| && g[k] == Part(ps[j], r);
      assert k > 0 && g[1..][k - 1] == g[k];
      ContiguousStartsAt(g[1..], x + g[0].colSpan, k - 1);
    }
  }

  /** The placement the next part belongs to. */
  lemma PartOf<T>(ps: seq<Placement<T>>, r: nat, x: nat, g: seq<PlacedCell<T>>) returns (i: nat)
    requires g != [] && Ahead(ps, r, x, g)
    ensures i < |ps| && ps[i].InRow(r) && g[0] == Part(ps[i], r)
  {
    assert g[0] in g;
    i :| i < |ps| && ps[i].InRow(r) && g[0] == Part(ps[i], r);
  }

  lemma OneCellBack<T>(st: Reading<T>, ps: seq<Placement<T>>, rows: nat, r: nat, g: seq<PlacedCell<T>>)
    requires Laid(ps, rows) && ReadSoFar(st, ps, r, st.column)
    requires g != [] && Contiguous(g, st.column) && Ahead(ps, r, st.column, g)
    ensures var next := ReadCell(st, ToFile(g[0]), r);
            && next.column == st.column + g[0].colSpan
            && ReadSoFar(next, ps, r, next.column)
            && Ahead(ps, r, next.column, g[1..]) && Contiguous(g[1..], next.column)
            && |next.cells| == |st.cells| + if g[0].merge == Continue then 0 else 1
  {
    hide ReadSoFar, ReadCell, Laid, Ahead;
    var i := PartOf(ps, r, st.column, g);
    AheadMoves(ps, r, st.column, g, rows);
    if ps[i].row < r { ContinueStep(st, ps, rows, r, i); } else { PlacedStep(st, ps, rows, r, i); }
  }

  lemma {:induction false} ReadRowBack<T>(st: Reading<T>, ps: seq<Placement<T>>, rows: nat, r: nat, g: seq<PlacedCell<T>>)
    requires Laid(ps, rows) && ReadSoFar(st, ps, r, st.column)
    requires Contiguous(g, st.column) && Ahead(ps, r, st.column, g)
    ensures var end := ReadRow(st, FileRow(g), r);
            && ReadSoFar(end, ps, r, end.column)
            && (forall i | 0 <= i < |ps| && ps[i].InRow(r) :: ps[i].column < end.column)
            && |end.cells| >= |st.cells|
            && ((exists c :: c in g && c.merge != Continue) ==> |end.cells| > |st.cells|)
    decreases |g|
  {
    hide ReadSoFar, ReadCell, Laid, Contiguous;
    if g == [] {
      NothingAhead(ps, r, st.column);
    } else {
      OneCellBack(st, ps, rows, r, g);
      var next := ReadCell(st, ToFile(g[0]), r);
      assert FileRow(g)[1..] == FileRow(g[1..]);
      hide Ahead;
      ReadRowBack(next, ps, rows, r, g[1..]);
      assert forall c | c in g :: c == g[0] || c in g[1..];
    }
  }

  lemma NothingAhead<T>(ps: seq<Placement<T>>, r: nat, x: nat)
    requires Ahead(ps, r, x, [])
    ensures forall i | 0 <= i < |ps| && ps[i].InRow(r) :: ps[i].column < x
  {
    assert forall i | 0 <= i < |ps| && ps[i].InRow(r) && ps[i].column >= x :: Part(ps[i], r) in [];
  }

  lemma RowEnds<T>(st: Reading<T>, ps: seq<Placement<T>>, rows: nat, r: nat)
    requires Laid(ps, rows) && ReadSoFar(st, ps, r, st.column)
    requires forall i | 0 <= i < |ps| && ps[i].InRow(r) :: ps[i].column < st.column
    ensures ReadSoFar(st.(column := 0), ps, r + 1, 0)
  {
    assert forall i | 0 <= i < |ps| :: Seen(ps[i], r + 1, 0) == Seen(ps[i], r, st.column);
  }

  /** Continuations are read the same under any number of the row. */
  lemma {:induction false} ContinuationsRead<T>(st: Reading<T>, g: seq<PlacedCell<T>>, a: nat, b: nat)
    requires forall c | c in g :: c.merge == Continue
    ensures ReadRow(st, FileRow(g), a) == ReadRow(st, FileRow(g), b)
    decreases |g|
  {
    if g != [] {
      assert g[0] in g && forall c | c in g[1..] :: c in g;
      assert FileRow(g)[1..] == FileRow(g[1..]);
      ContinuationsRead(ReadCell(st, ToFile(g[0]), a), g[1..], a, b);
    }
  }

  lemma OneRowBack<T>(st: Reading<T>, ps: seq<Placement<T>>, rows: nat, r: nat, kept: nat)
    requires Laid(ps, rows) && r < rows && Contiguous(GridRow(ps, r), 0) && (StartsACell(ps, r) ==> kept == r)
    requires st.column == 0 && ReadSoFar(st, ps, r, 0)
    ensures var next := ReadRow(st, FileRow(GridRow(ps, r)), kept);
            ReadSoFar(next.(column := 0), ps, r + 1, 0) && (StartsACell(ps, r) ==> |next.cells| > |st.cells|)
  {
    hide GridRow, FileRow, ReadRow, Contiguous, ReadSoFar;
    var g := GridRow(ps, r);
    GridRowIs(ps, r, rows);
    if StartsACell(ps, r) {
      var i :| 0 <= i < |ps| && ps[i].row == r;
      assert ps[i].InRow(r) && Part(ps[i], r) in g;
    } else {
      ContinuationsRead(st, g, r, kept);
    }
    ReadRowBack(st, ps, rows, r, g);
    RowEnds(ReadRow(st, FileRow(g), r), ps, rows, r);
  }

  lemma {:induction false} ReadRowsBack<T>(st: Reading<T>, ps: seq<Placement<T>>, rows: nat, r: nat, kept: nat)
    requires Laid(ps, rows) && Regular(ps, rows) && r <= rows && ReadSoFar(st.(column := 0), ps, r, 0)
    requires r < rows && StartsACell(ps, r) ==> kept == r
    ensures ReadSoFar(ReadRows(st, FileRows(ps, r, rows), kept).(column := 0), ps, rows, 0)
    decreases rows - r
  {
    hide GridRow, FileRow, ReadRow, Laid, Contiguous, ReadSoFar, StartsACell;
    if r < rows {
      OneRowBack(st.(column := 0), ps, rows, r, kept);
      var next := ReadRow(st.(column := 0), FileRow(GridRow(ps, r)), kept);
      assert FileRows(ps, r, rows)[1..] == FileRows(ps, r + 1, rows);
      ReadRowsBack(next, ps, rows, r + 1, if |next.cells| > |st.cells| then kept + 1 else kept);
    }
  }

  lemma {:induction false} ExpectedAt<T>(ps: seq<Placement<T>>, i: nat)
    requires i < |ps|
    ensures |Expected(ps)| == |ps|
    ensures Expected(ps)[i] == TableCell(Some(ps[i].node), ps[i].colSpan, ps[i].rowSpan, ps[i].row)
  {
    var n := |ps| - 1;
    if n > 0 {
      ExpectedAt(ps[..n], if i < n then i else 0);
    }
  }

  /** A table whose grid has no gap or overlap, and whose rows that start no cell are
      its last, comes back from Word with the same cells, in the same order and
      rows, with the same colspan and rowspan. */
  lemma RegularTableReadsBack<T>(table: seq<seq<Child<T>>>)
    requires Regular(Placements(table), |table|)
    ensures ReadTable(ExportTable(table)) == Expected(Placements(table))
  {
    var ps, rows := Placements(table), |table|;
    PlacementsAreLaid(table);
    var start: Reading<T> := Reading([], map[], 0);
    ReadRowsBack(start, ps, rows, 0, 0);
    var end := ReadRows(start, FileRows(ps, 0, rows), 0);
    assert forall i | 0 <= i < |ps| :: Seen(ps[i], rows, 0) == ps[i].rowSpan;
    assert ps != [] ==> |ps| - 1 < |end.cells|;
    if ps == [] {
      assert Expected(ps) == [];
    } else {
      ExpectedAt(ps, 0);
      forall i | 0 <= i < |ps|
        ensures end.cells[i] == Expected(ps)[i]
      {
        ExpectedAt(ps, i);
      }
    }
  }

  /** In particular a table whose cells tile a rectangle does. */
  lemma TiledTableReadsBack<T>(table: seq<seq<Child<T>>>)
    requires Tiles(Placements(table), |table|)
    requires forall r: nat | r < |table| :: StartsACell(Placements(table), r)
    ensures ReadTable(ExportTable(table)) == Expected(Placements(table))
  {
    PlacementsAreLaid(table);
    TiledIsRegular(Placements(table), |table|);
    RegularTableReadsBack(table);
  }
}
