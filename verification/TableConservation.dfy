/** What a trip through Word keeps of every table, malformed ones included, and
    what it loses when the grid has a gap. */
module TableConservation {
  import opened Text
  import opened TablePlacement
  import opened DocxTable
  import opened TableRoundTrip

  /** A cell's content and colspan. */
  datatype Kept<T> = Kept(node: Option<T>, colspan: nat)

  function KeptOfCells<T>(cells: seq<TableCell<T>>): seq<Kept<T>> {
    if cells == [] then []
    else KeptOfCells(cells[..|cells| - 1]) + [Kept(cells[|cells| - 1].node, cells[|cells| - 1].colspan)]
  }

  function KeptOfPlacements<T>(ps: seq<Placement<T>>): seq<Kept<T>> {
    if ps == [] then []
    else KeptOfPlacements(ps[..|ps| - 1]) + [Kept(Some(ps[|ps| - 1].node), ps[|ps| - 1].colSpan)]
  }

  /** The cells a row of the grid starts. */
  function Starting<T>(row: seq<PlacedCell<T>>): seq<PlacedCell<T>> {
    if row == [] then []
    else (if row[0].merge == Continue then [] else [row[0]]) + Starting(row[1..])
  }

  function KeptOfRow<T>(row: seq<PlacedCell<T>>): seq<Kept<T>> {
    if row == [] then [] else [Kept(row[0].node, row[0].colSpan)] + KeptOfRow(row[1..])
  }

  // ---- Reading never loses a cell ----

  lemma {:induction false} KeptOfUpdated<T>(cells: seq<TableCell<T>>, i: nat, span: nat)
    requires i < |cells|
    ensures KeptOfCells(cells[i := cells[i].(rowspan := span)]) == KeptOfCells(cells)
  {
    var n := |cells| - 1;
    var updated := cells[i := cells[i].(rowspan := span)];
    if i < n {
      KeptOfUpdated(cells[..n], i, span);
      assert updated[..n] == cells[..n][i := cells[i].(rowspan := span)];
    } else {
      assert updated[..n] == cells[..n];
    }
  }

  lemma KeptByCell<T>(st: Reading<T>, cell: PlacedCell<T>, row: nat)
    ensures KeptOfCells(ReadCell(st, ToFile(cell), row).cells)
         == KeptOfCells(st.cells) + if cell.merge == Continue then [] else [Kept(cell.node, cell.colSpan)]
  {
    if cell.merge == Continue {
      if st.column in st.open && st.open[st.column] < |st.cells| {
        var i := st.open[st.column];
        KeptOfUpdated(st.cells, i, st.cells[i].rowspan + 1);
      }
    } else {
      var next := ReadCell(st, ToFile(cell), row).cells;
      assert next[..|next| - 1] == st.cells;
    }
  }

  lemma {:induction false} KeptByRow<T>(st: Reading<T>, row: seq<PlacedCell<T>>, index: nat)
    ensures KeptOfCells(ReadRow(st, FileRow(row), index).cells) == KeptOfCells(st.cells) + KeptOfRow(Starting(row))
    decreases |row|
  {
    hide ReadCell, KeptOfCells;
    if row != [] {
      KeptByCell(st, row[0], index);
      assert FileRow(row)[1..] == FileRow(row[1..]);
      KeptByRow(ReadCell(st, ToFile(row[0]), index), row[1..], index);
      var kept := if row[0].merge == Continue then [] else [Kept(row[0].node, row[0].colSpan)];
      assert KeptOfRow(Starting(row)) == kept + KeptOfRow(Starting(row[1..])) by {
        if row[0].merge == Continue {
          assert Starting(row) == Starting(row[1..]);
        } else {
          assert Starting(row)[1..] == Starting(row[1..]);
        }
      }
      assert KeptOfCells(st.cells) + kept + KeptOfRow(Starting(row[1..]))
          == KeptOfCells(st.cells) + (kept + KeptOfRow(Starting(row[1..])));
    }
  }

  // ---- The rows start the cells in reading order ----

  lemma {:induction false} SameSorted<T>(a: seq<PlacedCell<T>>, b: seq<PlacedCell<T>>)
    requires StrictlySorted(a) && StrictlySorted(b) && forall c :: c in a <==> c in b
    ensures a == b
  {
    if b != [] { assert b[0] in a; }
    if a != [] {
      assert a[0] in b && b[0] in a;
      assert a[0] == b[0];
      forall c
        ensures c in a[1..] <==> c in b[1..]
      {
        assert c in a[1..] <==> c in a && c.column > a[0].column by { TailMembers(a, c); }
        assert c in b[1..] <==> c in b && c.column > b[0].column by { TailMembers(b, c); }
      }
      SameSorted(a[1..], b[1..]);
      assert a == [a[0]] + a[1..] && b == [b[0]] + b[1..];
    }
  }

  lemma TailMembers<T>(a: seq<PlacedCell<T>>, c: PlacedCell<T>)
    requires a != [] && StrictlySorted(a)
    ensures c in a[1..] <==> c in a && c.column > a[0].column
  {
    assert a == [a[0]] + a[1..];
  }

  lemma {:induction false} StartingMembers<T>(row: seq<PlacedCell<T>>, c: PlacedCell<T>)
    ensures c in Starting(row) <==> c in row && c.merge != Continue
  {
    if row != [] {
      StartingMembers(row[1..], c);
      assert row == [row[0]] + row[1..];
    }
  }

  lemma {:induction false} StartingSorted<T>(row: seq<PlacedCell<T>>)
    requires StrictlySorted(row)
    ensures StrictlySorted(Starting(row))
  {
    if row != [] {
      StartingSorted(row[1..]);
      forall c | c in Starting(row[1..])
        ensures c.column > row[0].column
      {
        StartingMembers(row[1..], c);
      }
    }
  }

  /** The cells of the placements from..end, as parts of the row they start in. */
  function PartsFrom<T>(ps: seq<Placement<T>>, from: nat, end: nat): (r: seq<PlacedCell<T>>)
    requires from <= end <= |ps|
    ensures |r| == end - from
    decreases end - from
  {
    if from == end then [] else [Part(ps[from], ps[from].row)] + PartsFrom(ps, from + 1, end)
  }

  lemma {:induction false} PartsFromAt<T>(ps: seq<Placement<T>>, from: nat, end: nat, k: nat)
    requires from <= end <= |ps| && k < end - from
    ensures PartsFrom(ps, from, end)[k] == Part(ps[from + k], ps[from + k].row)
    decreases k
  {
    if k > 0 { PartsFromAt(ps, from + 1, end, k - 1); }
  }

  /** Row r starts exactly the placements numbered from..end, in order. */
  ghost predicate RowSpansIndices<T>(ps: seq<Placement<T>>, r: nat, from: nat, end: nat) {
    from <= end <= |ps| && forall i | 0 <= i < |ps| :: ps[i].row == r <==> from <= i < end
  }

  lemma OwnPartsSorted<T>(ps: seq<Placement<T>>, rows: nat, r: nat, from: nat, end: nat)
    requires Laid(ps, rows) && RowSpansIndices(ps, r, from, end)
    ensures StrictlySorted(PartsFrom(ps, from, end))
  {
    var own := PartsFrom(ps, from, end);
    forall a, b | 0 <= a < b < |own|
      ensures own[a].column < own[b].column
    {
      PartsFromAt(ps, from, end, a);
      PartsFromAt(ps, from, end, b);
      assert Before(ps[from + a], ps[from + b]);
    }
  }

  lemma OwnPart<T>(ps: seq<Placement<T>>, rows: nat, r: nat, from: nat, end: nat, c: PlacedCell<T>)
    requires Laid(ps, rows) && RowSpansIndices(ps, r, from, end)
    ensures c in PartsFrom(ps, from, end) <==> IsPart(ps, r, c) && c.merge != Continue
  {
    var own := PartsFrom(ps, from, end);
    if c in own {
      var k :| 0 <= k < |own| && own[k] == c;
      PartsFromAt(ps, from, end, k);
      assert ps[from + k].row == r;
      assert ps[from + k].InRow(r);
    }
    if IsPart(ps, r, c) && c.merge != Continue {
      var i :| 0 <= i < |ps| && ps[i].InRow(r) && c == Part(ps[i], r);
      PartsFromAt(ps, from, end, i - from);
      assert own[i - from] == c;
    }
  }

  lemma GridRowMembers<T>(ps: seq<Placement<T>>, rows: nat, r: nat, c: PlacedCell<T>)
    requires Laid(ps, rows)
    ensures c in GridRow(ps, r) <==> IsPart(ps, r, c)
  {
    GridRowIs(ps, r, rows);
  }

  lemma StartingIsInOrder<T>(ps: seq<Placement<T>>, rows: nat, r: nat, from: nat, end: nat)
    requires Laid(ps, rows) && RowSpansIndices(ps, r, from, end)
    ensures Starting(GridRow(ps, r)) == PartsFrom(ps, from, end)
  {
    assert from <= end <= |ps|;
    hide GridRow, Laid, IsPart, RowSpansIndices, PartsFrom, Starting, StrictlySorted;
    var g := GridRow(ps, r);
    GridRowIs(ps, r, rows);
    StartingSorted(g);
    OwnPartsSorted(ps, rows, r, from, end);
    forall c
      ensures c in Starting(g) <==> c in PartsFrom(ps, from, end)
    {
      StartingMembers(g, c);
      GridRowMembers(ps, rows, r, c);
      OwnPart(ps, rows, r, from, end, c);
    }
    SameSorted(Starting(g), PartsFrom(ps, from, end));
  }

  lemma {:induction false} KeptOfPartsFrom<T>(ps: seq<Placement<T>>, from: nat, end: nat)
    requires from <= end <= |ps|
    ensures KeptOfPlacements(ps[..from]) + KeptOfRow(PartsFrom(ps, from, end)) == KeptOfPlacements(ps[..end])
    decreases end - from
  {
    if from < end {
      KeptOfPartsFrom(ps, from + 1, end);
      assert ps[..from + 1][..from] == ps[..from];
      var one := Kept(Some(ps[from].node), ps[from].colSpan);
      assert PartsFrom(ps, from, end)[1..] == PartsFrom(ps, from + 1, end);
      assert KeptOfRow(PartsFrom(ps, from, end)) == [one] + KeptOfRow(PartsFrom(ps, from + 1, end));
      assert KeptOfPlacements(ps[..from]) + ([one] + KeptOfRow(PartsFrom(ps, from + 1, end)))
          == KeptOfPlacements(ps[..from]) + [one] + KeptOfRow(PartsFrom(ps, from + 1, end));
    }
  }

  /** Where the placements of row r end, given where they begin. */
  function RowEnd<T>(ps: seq<Placement<T>>, r: nat, from: nat): (end: nat)
    requires from <= |ps|
    ensures from <= end <= |ps|
    ensures forall i | from <= i < end :: ps[i].row == r
    ensures end < |ps| ==> ps[end].row != r
    decreases |ps| - from
  {
    if from < |ps| && ps[from].row == r then RowEnd(ps, r, from + 1) else from
  }

  lemma {:induction false} KeptByRows<T>(st: Reading<T>, ps: seq<Placement<T>>, rows: nat, r: nat, from: nat, kept: nat)
    requires Laid(ps, rows) && r <= rows && from <= |ps|
    requires forall i | 0 <= i < |ps| :: ps[i].row < r <==> i < from
    requires KeptOfCells(st.cells) == KeptOfPlacements(ps[..from])
    ensures KeptOfCells(ReadRows(st, FileRows(ps, r, rows), kept).cells) == KeptOfPlacements(ps)
    decreases rows - r
  {
    hide ReadRow, FileRow, GridRow, KeptOfCells, KeptOfPlacements, KeptOfRow;
    if r == rows {
      assert from == |ps| by {
        assert ps != [] ==> ps[|ps| - 1].row < rows;
      }
      assert ps[..from] == ps;
    } else {
      var end := RowEnd(ps, r, from);
      forall i | 0 <= i < |ps|
        ensures ps[i].row == r <==> from <= i < end
        ensures ps[i].row < r + 1 <==> i < end
      {
        if i > end { assert Before(ps[end], ps[i]); }
      }
      StartingIsInOrder(ps, rows, r, from, end);
      KeptByRow(st.(column := 0), GridRow(ps, r), kept);
      KeptOfPartsFrom(ps, from, end);
      var next := ReadRow(st.(column := 0), FileRow(GridRow(ps, r)), kept);
      assert FileRows(ps, r, rows)[1..] == FileRows(ps, r + 1, rows);
      KeptByRows(next, ps, rows, r + 1, end, if |next.cells| > |st.cells| then kept + 1 else kept);
    }
  }

  /** Whatever the spans, no cell is lost, doubled or moved past another, and each
      keeps its colspan. */
  lemma EveryCellComesBack<T>(table: seq<seq<Child<T>>>)
    ensures KeptOfCells(ReadTable(ExportTable(table))) == KeptOfPlacements(Placements(table))
  {
    PlacementsAreLaid(table);
    assert Placements(table)[..0] == [];
    KeptByRows(Reading([], map[], 0), Placements(table), |table|, 0, 0, 0);
  }

  // ---- What a gap costs ----

  /** A cell next to a taller one, and a row below that starts no cell. */
  const GAPPED: seq<seq<Child<int>>> := [[Cell(0, 1, 1, false), Cell(1, 1, 2, false)], []]
  const SHORT := Placement(0, 0, 0, 1, 1, false)
  const TALL := Placement(1, 0, 1, 1, 2, false)

  lemma GappedPlaced()
    ensures Placements(GAPPED) == [SHORT, TALL]
  {
    FreeColumnUnique(Taken<int>([]), 0, 0, 0);
    assert [SHORT][..0] == [];
    FreeColumnUnique(Taken([SHORT]), 0, 1, 1);
    assert PlaceResuming([SHORT], GAPPED[0][1..], 0, 1, 2) == [SHORT, TALL];
    assert PlaceRows([SHORT, TALL], GAPPED, 1) == [SHORT, TALL];
  }

  lemma GappedWritten()
    ensures FileRows([SHORT, TALL], 0, 2)
         == [[ToFile(Part(SHORT, 0)), ToFile(Part(TALL, 0))], [ToFile(Part(TALL, 1))]]
  {
    hide ToFile;
    var ps := [SHORT, TALL];
    var c, d, e := Part(SHORT, 0), Part(TALL, 0), Part(TALL, 1);
    assert ps[..1] == [SHORT] && [SHORT][..0] == [];
    assert Parts([SHORT], 0) == [c] && Parts([SHORT], 1) == [];
    assert Parts(ps, 0) == [c, d] && Parts(ps, 1) == [e];
    assert [c, d][..1] == [c] && [c][..0] == [] && [e][..0] == [];
    assert SortedByColumn([c]) == [c];
    assert GridRow(ps, 0) == [c, d] && GridRow(ps, 1) == [e];
    hide GridRow, Parts, SortedByColumn;
    assert FileRow([d]) == [ToFile(d)] && FileRow([e]) == [ToFile(e)];
    assert [c, d][1..] == [d] && FileRow([c, d]) == [ToFile(c), ToFile(d)];
    assert FileRows(ps, 1, 2) == [FileRow([e])];
  }

  /** The continuation is read at column 0, where nothing is open, and the tall
      cell comes back one row tall. */
  lemma GapLosesRowspan()
    ensures Expected(Placements(GAPPED)) == [TableCell(Some(0), 1, 1, 0), TableCell(Some(1), 1, 2, 0)]
    ensures ReadTable(ExportTable(GAPPED)) == [TableCell(Some(0), 1, 1, 0), TableCell(Some(1), 1, 1, 0)]
  {
    GappedPlaced();
    GappedWritten();
    hide FileRows, Placements;
    var c, d, e := ToFile(Part(SHORT, 0)), ToFile(Part(TALL, 0)), ToFile(Part(TALL, 1));
    assert [SHORT, TALL][..1] == [SHORT] && [SHORT][..0] == [];
    assert Expected([SHORT]) == [TableCell(Some(0), 1, 1, 0)];
    var start: Reading<int> := Reading([], map[], 0);
    var afterC := ReadCell(start, c, 0);
    var afterD := ReadCell(afterC, d, 0);
    assert [c, d][1..] == [d];
    assert ReadRow(afterC, [d], 0) == afterD;
    var afterE := ReadCell(afterD.(column := 0), e, 1);
    assert ReadRow(afterD.(column := 0), [e], 1) == afterE;
    assert [[c, d], [e]][1..] == [[e]];
    assert ReadRows(afterD, [[e]], 1) == afterE;
  }
}
