/** "columnWidths" of internal/docx/table.go: the editor's pixel widths as twips that
    fill the page. Widths are exact reals here; conversions to int truncate. */
module ColumnWidths {

  /** A placed cell: where it stands and the pixel widths it carries, none for a
      continuation. */
  datatype Measured = Measured(column: nat, colSpan: nat, widths: seq<real>)

  const NARROWEST := 240

  function Truncate(x: real): int {
    if x >= 0.0 then x.Floor else -((-x).Floor)
  }

  function TruncatedDivision(a: int, b: int): (q: int)
    requires b > 0
    ensures a >= 0 ==> q == a / b
  {
    if a >= 0 then a / b else -(-a / b)
  }

  // ---- Measuring ----

  /** The first positive width wins. */
  function Earlier(first: real, next: real): real {
    if next > 0.0 && first == 0.0 then next else first
  }

  function CellWidth(cell: Measured, index: nat): real {
    if cell.column <= index < cell.column + cell.colSpan && index - cell.column < |cell.widths|
    then cell.widths[index - cell.column] else 0.0
  }

  function RowWidth(found: real, row: seq<Measured>, index: nat): real
    decreases |row|
  {
    if row == [] then found else RowWidth(Earlier(found, CellWidth(row[0], index)), row[1..], index)
  }

  function GridWidth(found: real, grid: seq<seq<Measured>>, index: nat): real
    decreases |grid|
  {
    if grid == [] then found else GridWidth(RowWidth(found, grid[0], index), grid[1..], index)
  }

  method MeasureCell(pixels: array<real>, cell: Measured)
    modifies pixels
    ensures forall i | 0 <= i < pixels.Length :: pixels[i] == Earlier(old(pixels[i]), CellWidth(cell, i))
  {
    var offset := 0;
    while offset < cell.colSpan && offset < |cell.widths|
      invariant offset <= cell.colSpan && offset <= |cell.widths|
      invariant forall i | 0 <= i < pixels.Length ::
          pixels[i] == if i < cell.column + offset then Earlier(old(pixels[i]), CellWidth(cell, i)) else old(pixels[i])
    {
      var index := cell.column + offset;
      if index >= pixels.Length { break; }
      if cell.widths[offset] > 0.0 && pixels[index] == 0.0 {
        pixels[index] := cell.widths[offset];
      }
      offset := offset + 1;
    }
  }

  method MeasureRow(pixels: array<real>, row: seq<Measured>)
    modifies pixels
    ensures forall i | 0 <= i < pixels.Length :: pixels[i] == RowWidth(old(pixels[i]), row, i)
  {
    var k := 0;
    while k < |row|
      invariant k <= |row|
      invariant forall i | 0 <= i < pixels.Length :: RowWidth(pixels[i], row[k..], i) == RowWidth(old(pixels[i]), row, i)
    {
      assert row[k..][1..] == row[k + 1..];
      MeasureCell(pixels, row[k]);
      k := k + 1;
    }
  }

  method Measure(grid: seq<seq<Measured>>, columns: nat) returns (pixels: array<real>)
    ensures fresh(pixels) && pixels.Length == columns
    ensures forall i | 0 <= i < columns :: pixels[i] == GridWidth(0.0, grid, i)
  {
    pixels := new real[columns](_ => 0.0);
    var k := 0;
    while k < |grid|
      invariant k <= |grid|
      invariant forall i | 0 <= i < columns :: GridWidth(pixels[i], grid[k..], i) == GridWidth(0.0, grid, i)
    {
      assert grid[k..][1..] == grid[k + 1..];
      MeasureRow(pixels, grid[k]);
      k := k + 1;
    }
  }

  lemma {:induction false} RowWidthNotNegative(found: real, row: seq<Measured>, index: nat)
    requires found >= 0.0
    ensures RowWidth(found, row, index) >= 0.0
    decreases |row|
  {
    if row != [] { RowWidthNotNegative(Earlier(found, CellWidth(row[0], index)), row[1..], index); }
  }

  lemma {:induction false} GridWidthNotNegative(found: real, grid: seq<seq<Measured>>, index: nat)
    requires found >= 0.0
    ensures GridWidth(found, grid, index) >= 0.0
    decreases |grid|
  {
    if grid != [] {
      RowWidthNotNegative(found, grid[0], index);
      GridWidthNotNegative(RowWidth(found, grid[0], index), grid[1..], index);
    }
  }

  /** The cell carries a positive width for the column. */
  ghost predicate Measures(cell: Measured, index: nat) {
    cell.column <= index < cell.column + cell.colSpan && index - cell.column < |cell.widths| && cell.widths[index - cell.column] > 0.0
  }

  ghost predicate NoneMeasures(row: seq<Measured>, index: nat) {
    forall k | 0 <= k < |row| :: !Measures(row[k], index)
  }

  lemma {:induction false} RowFindsFirst(row: seq<Measured>, index: nat, k: nat)
    requires k < |row| && Measures(row[k], index) && NoneMeasures(row[..k], index)
    ensures RowWidth(0.0, row, index) == row[k].widths[index - row[k].column]
    decreases k
  {
    if k == 0 {
      RowKeepsFound(row[0].widths[index - row[0].column], row[1..], index);
    } else {
      assert row[..k][0] == row[0] && row[1..][..k - 1] == row[..k][1..];
      RowFindsFirst(row[1..], index, k - 1);
    }
  }

  lemma {:induction false} RowFindsNone(row: seq<Measured>, index: nat)
    requires NoneMeasures(row, index)
    ensures RowWidth(0.0, row, index) == 0.0
  {
    if row != [] { RowFindsNone(row[1..], index); }
  }

  lemma {:induction false} RowKeepsFound(found: real, row: seq<Measured>, index: nat)
    requires found > 0.0
    ensures RowWidth(found, row, index) == found
    decreases |row|
  {
    if row != [] { RowKeepsFound(found, row[1..], index); }
  }

  lemma {:induction false} GridKeepsFound(found: real, grid: seq<seq<Measured>>, index: nat)
    requires found > 0.0
    ensures GridWidth(found, grid, index) == found
    decreases |grid|
  {
    if grid != [] {
      RowKeepsFound(found, grid[0], index);
      GridKeepsFound(found, grid[1..], index);
    }
  }

  /** A column has the width that the first cell with a positive one for it carries, row
      by row from the left … */
  lemma {:induction false} FirstCellMeasures(grid: seq<seq<Measured>>, index: nat, r: nat, k: nat)
    requires r < |grid| && k < |grid[r]| && Measures(grid[r][k], index)
    requires NoneMeasures(grid[r][..k], index) && forall q | 0 <= q < r :: NoneMeasures(grid[q], index)
    ensures GridWidth(0.0, grid, index) == grid[r][k].widths[index - grid[r][k].column]
    decreases r
  {
    if r == 0 {
      RowFindsFirst(grid[0], index, k);
      GridKeepsFound(grid[0][k].widths[index - grid[0][k].column], grid[1..], index);
    } else {
      RowFindsNone(grid[0], index);
      FirstCellMeasures(grid[1..], index, r - 1, k);
    }
  }

  /** … and none where no cell does. */
  lemma {:induction false} NoCellMeasures(grid: seq<seq<Measured>>, index: nat)
    requires forall q | 0 <= q < |grid| :: NoneMeasures(grid[q], index)
    ensures GridWidth(0.0, grid, index) == 0.0
    decreases |grid|
  {
    if grid != [] {
      RowFindsNone(grid[0], index);
      NoCellMeasures(grid[1..], index);
    }
  }

  // ---- Sums ----

  function Total(values: seq<real>): real {
    if values == [] then 0.0 else Total(values[..|values| - 1]) + values[|values| - 1]
  }

  function Sum(values: seq<int>): int {
    if values == [] then 0 else Sum(values[..|values| - 1]) + values[|values| - 1]
  }

  /** How many columns no cell measures. */
  function Missing(values: seq<real>): (n: nat)
    ensures n <= |values|
  {
    if values == [] then 0
    else Missing(values[..|values| - 1]) + if values[|values| - 1] > 0.0 then 0 else 1
  }

  function Filled(values: seq<real>, average: real): (r: seq<real>)
    ensures |r| == |values|
    ensures forall i | 0 <= i < |r| :: r[i] == if values[i] == 0.0 then average else values[i]
  {
    seq(|values|, i requires 0 <= i < |values| => if values[i] == 0.0 then average else values[i])
  }

  lemma {:induction false} TotalMeasured(values: seq<real>)
    requires forall i | 0 <= i < |values| :: values[i] >= 0.0
    ensures Total(values) >= 0.0
    ensures Total(values) == 0.0 <==> Missing(values) == |values|
  {
    if values != [] { TotalMeasured(values[..|values| - 1]); }
  }

  function Times(n: nat, value: real): real { n as real * value }

  lemma TimesOneMore(n: nat, value: real)
    ensures Times(n + 1, value) == Times(n, value) + value
    ensures Times(0, value) == 0.0
    ensures value >= 0.0 ==> Times(n, value) >= 0.0
  {
  }

  lemma AveragePositive(total: real, n: nat)
    requires total > 0.0 && n > 0
    ensures total / n as real > 0.0
  {
  }

  lemma {:induction false} TotalFilled(values: seq<real>, average: real)
    requires forall i | 0 <= i < |values| :: values[i] >= 0.0
    ensures Total(Filled(values, average)) == Total(values) + Times(Missing(values), average)
  {
    hide Times;
    TimesOneMore(0, average);
    if values != [] {
      var n := |values| - 1;
      TotalFilled(values[..n], average);
      TimesOneMore(Missing(values[..n]), average);
      assert Filled(values, average)[..n] == Filled(values[..n], average);
    }
  }

  // ---- Rounding ----

  /** A column's share of the page before rounding. */
  function Share(value: real, total: real, available: int): real
    requires total != 0.0
  {
    value / total * available as real
  }

  function Rounded(value: real, total: real, available: int): int
    requires total != 0.0
  {
    var width := Truncate(Share(value, total, available));
    if width < NARROWEST then NARROWEST else width
  }

  /** A column gets its share of the page, cut to whole twips, or 240 where that is less. */
  lemma RoundedIs(value: real, total: real, available: int)
    requires total > 0.0 && value >= 0.0 && available >= 0
    ensures var width, share := Rounded(value, total, available), value * available as real / total;
            (width > 240 && width as real <= share < width as real + 1.0) || (width == 240 && share < 241.0)
  {
    assert Share(value, total, available) == value * available as real / total;
  }

  function AllRounded(values: seq<real>, total: real, available: int): (r: seq<int>)
    requires total != 0.0
    ensures |r| == |values|
    ensures forall i | 0 <= i < |r| :: r[i] == Rounded(values[i], total, available)
  {
    seq(|values|, i requires 0 <= i < |values| => Rounded(values[i], total, available))
  }

  /** The columns that would be narrower than allowed. */
  function Clamped(values: seq<real>, total: real, available: int): nat
    requires total != 0.0
  {
    if values == [] then 0
    else
      var last := values[|values| - 1];
      Clamped(values[..|values| - 1], total, available) + if Truncate(Share(last, total, available)) < NARROWEST then 1 else 0
  }

  lemma {:induction false} RoundingExcess(values: seq<real>, total: real, available: int)
    requires total > 0.0 && available >= 0 && forall i | 0 <= i < |values| :: values[i] > 0.0
    ensures Sum(AllRounded(values, total, available)) as real
         <= Total(values) / total * available as real + (NARROWEST * Clamped(values, total, available)) as real
  {
    hide Share, Rounded;
    if values != [] {
      var n := |values| - 1;
      RoundingExcess(values[..n], total, available);
      assert AllRounded(values, total, available)[..n] == AllRounded(values[..n], total, available);
      var before, last := Total(values[..n]), values[n];
      NotNegative(last, total, available);
      RoundedAtMost(last, total, available);
      Distributes(before, last, total, available);
    }
  }

  lemma RoundedAtMost(value: real, total: real, available: int)
    requires total != 0.0 && Share(value, total, available) >= 0.0
    ensures Rounded(value, total, available) as real
         <= Share(value, total, available) + if Truncate(Share(value, total, available)) < NARROWEST then NARROWEST as real else 0.0
  {
    hide Share;
  }

  lemma NotNegative(value: real, total: real, available: int)
    requires value > 0.0 && total > 0.0 && available >= 0
    ensures Share(value, total, available) >= 0.0
  {
    assert value / total > 0.0;
  }

  lemma Distributes(a: real, b: real, total: real, available: int)
    requires total > 0.0
    ensures (a + b) / total * available as real == a / total * available as real + Share(b, total, available)
  {
    assert (a + b) / total == a / total + b / total;
  }

  lemma SumChanged(widths: seq<int>, i: nat, width: int)
    requires i < |widths|
    ensures Sum(widths[i := width]) == Sum(widths) - widths[i] + width
  {
    var n := |widths| - 1;
    if i < n {
      SumChanged(widths[..n], i, width);
      assert widths[i := width][..n] == widths[..n][i := width];
    } else {
      assert widths[i := width][..n] == widths[..n];
    }
  }

  lemma {:induction false} SumOfEqual(widths: seq<int>, width: int)
    requires forall i | 0 <= i < |widths| :: widths[i] == width
    ensures Sum(widths) == |widths| * width
  {
    if widths != [] { SumOfEqual(widths[..|widths| - 1], width); }
  }

  // ---- columnWidths ----

  method EvenSplit(columns: nat, available: int) returns (widths: seq<int>)
    requires columns > 0
    ensures |widths| == columns && Sum(widths) == available
    ensures forall i | 0 <= i < columns - 1 :: widths[i] == TruncatedDivision(available, columns)
  {
    var width := TruncatedDivision(available, columns);
    widths := seq(columns, _ => width);
    SumOfEqual(widths, width);
    SumChanged(widths, columns - 1, available - width * (columns - 1));
    widths := widths[columns - 1 := available - width * (columns - 1)];
  }

  /** The columns as twips, in proportion to their pixels. */
  method RoundShares(pixels: seq<real>, total: real, available: int) returns (widths: array<int>, used: int)
    requires total > 0.0
    ensures fresh(widths) && widths[..] == AllRounded(pixels, total, available)
    ensures used == Sum(widths[..])
  {
    widths := new int[|pixels|];
    used := 0;
    var index := 0;
    while index < |pixels|
      invariant index <= |pixels|
      invariant forall i | 0 <= i < index :: widths[i] == Rounded(pixels[i], total, available)
      invariant used == Sum(widths[..index])
    {
      widths[index] := Truncate(pixels[index] / total * available as real);
      if widths[index] < NARROWEST { widths[index] := NARROWEST; }
      used := used + widths[index];
      assert widths[..index + 1][..index] == widths[..index];
      index := index + 1;
    }
    assert widths[..] == widths[..|pixels|];
  }

  function Pixels(grid: seq<seq<Measured>>, columns: nat): seq<real> {
    seq(columns, i requires 0 <= i < columns => GridWidth(0.0, grid, i))
  }

  /** The widths before rounding: unmeasured columns get the average. */
  function Shared(pixels: seq<real>): (r: seq<real>)
    requires Missing(pixels) < |pixels|
    ensures |r| == |pixels|
  {
    Filled(pixels, Total(pixels) / (|pixels| - Missing(pixels)) as real)
  }

  lemma SharedPositive(pixels: seq<real>)
    requires forall i | 0 <= i < |pixels| :: pixels[i] >= 0.0
    requires Missing(pixels) < |pixels|
    ensures Total(pixels) > 0.0 && forall i | 0 <= i < |pixels| :: Shared(pixels)[i] > 0.0
    ensures Total(Shared(pixels)) >= Total(pixels)
  {
    hide Times;
    TotalMeasured(pixels);
    AveragePositive(Total(pixels), |pixels| - Missing(pixels));
    var average := Total(pixels) / (|pixels| - Missing(pixels)) as real;
    TimesOneMore(Missing(pixels), average);
    TotalFilled(pixels, average);
  }

  /** A column that no cell measures gets the mean of the others, which is so the mean of
      all; the measured ones keep their widths. */
  lemma MeanIsKept(pixels: seq<real>)
    requires forall i | 0 <= i < |pixels| :: pixels[i] >= 0.0
    requires Missing(pixels) < |pixels|
    ensures Total(Shared(pixels)) * (|pixels| - Missing(pixels)) as real == Total(pixels) * |pixels| as real
    ensures forall i | 0 <= i < |pixels| && pixels[i] > 0.0 :: Shared(pixels)[i] == pixels[i]
    ensures forall i | 0 <= i < |pixels| && pixels[i] == 0.0 ::
        Shared(pixels)[i] * (|pixels| - Missing(pixels)) as real == Total(pixels)
  {
    hide Total, Missing, Times;
    var measured, missing := (|pixels| - Missing(pixels)) as real, Missing(pixels);
    var average := Total(pixels) / measured;
    TotalFilled(pixels, average);
    assert average * measured == Total(pixels) by { Quotient(Total(pixels), measured); }
    MeanOfAll(Total(pixels), missing, measured, average);
  }

  lemma Quotient(total: real, n: real)
    requires n != 0.0
    ensures total / n * n == total
  {
  }

  lemma MeanOfAll(total: real, missing: nat, measured: real, average: real)
    requires average * measured == total
    ensures (total + Times(missing, average)) * measured == total * (missing as real + measured)
  {
    var m := missing as real;
    assert m * average * measured == m * (average * measured);
  }

  lemma Apportioned(shares: seq<real>, available: int)
    requires shares != [] && available >= 0 && Total(shares) > 0.0
    requires forall i | 0 <= i < |shares| :: shares[i] > 0.0
    ensures Sum(AllRounded(shares, Total(shares), available)) - available
         <= NARROWEST * Clamped(shares, Total(shares), available)
  {
    RoundingExcess(shares, Total(shares), available);
    assert Total(shares) / Total(shares) == 1.0;
  }

  /** Without a measured column the page is split evenly and exactly. With one, no
      column is narrower than allowed; the sum is exact unless the last column cannot
      give what is too much, and then the excess is what clamping added. */
  method ColumnWidths(grid: seq<seq<Measured>>, columns: int, available: int) returns (widths: seq<int>)
    ensures columns <= 0 ==> widths == []
    ensures columns > 0 ==>
        var pixels := Pixels(grid, columns);
        && |widths| == columns
        && (Missing(pixels) == columns ==>
              && Sum(widths) == available
              && forall i | 0 <= i < columns - 1 :: widths[i] == TruncatedDivision(available, columns))
        && (Missing(pixels) < columns && Total(Shared(pixels)) > 0.0 ==>
              var shares := Shared(pixels);
              var rounded := AllRounded(shares, Total(shares), available);
              && widths[..columns - 1] == rounded[..columns - 1]
              && (forall i | 0 <= i < columns :: widths[i] >= NARROWEST)
              && (Sum(widths) == available <==> rounded[columns - 1] + available - Sum(rounded) >= NARROWEST)
              && (Sum(widths) != available ==> widths == rounded && Sum(widths) > available)
              && (available >= 0 ==> Sum(widths) - available <= NARROWEST * Clamped(shares, Total(shares), available)))
        && (Missing(pixels) < columns ==> Total(Shared(pixels)) > 0.0)
  {
    hide Times, GridWidth, Truncate, Share, Clamped, TruncatedDivision, Total, Missing;
    if columns <= 0 { return []; }
    var measured := Measure(grid, columns);
    var pixels := measured[..];
    assert pixels == Pixels(grid, columns);
    forall i | 0 <= i < columns
      ensures pixels[i] >= 0.0
    {
      GridWidthNotNegative(0.0, grid, i);
    }
    TotalMeasured(pixels);
    var total, missing := Tally(pixels);
    if total == 0.0 {
      widths := EvenSplit(columns, available);
      return;
    }
    SharedPositive(pixels);
    pixels, total := FillMissing(pixels, total, missing);
    var rounded, used := RoundShares(pixels, total, available);
    ghost var before := rounded[..];
    var difference := available - used;
    if difference != 0 && rounded[columns - 1] + difference >= NARROWEST {
      SumChanged(before, columns - 1, rounded[columns - 1] + difference);
      rounded[columns - 1] := rounded[columns - 1] + difference;
      assert rounded[..] == before[columns - 1 := before[columns - 1] + difference];
    }
    if available >= 0 { Apportioned(pixels, available); }
    widths := rounded[..];
  }

  method Tally(pixels: seq<real>) returns (total: real, missing: nat)
    requires forall i | 0 <= i < |pixels| :: pixels[i] >= 0.0
    ensures total == Total(pixels) && missing == Missing(pixels)
  {
    total, missing := 0.0, 0;
    var k := 0;
    while k < |pixels|
      invariant k <= |pixels| && total == Total(pixels[..k]) && missing == Missing(pixels[..k])
    {
      assert pixels[..k + 1][..k] == pixels[..k];
      if pixels[k] > 0.0 { total := total + pixels[k]; } else { missing := missing + 1; }
      k := k + 1;
    }
    assert pixels[..k] == pixels;
  }

  method FillMissing(pixels: seq<real>, total0: real, missing: nat) returns (shares: seq<real>, total: real)
    requires forall i | 0 <= i < |pixels| :: pixels[i] >= 0.0
    requires missing == Missing(pixels) < |pixels| && total0 == Total(pixels)
    ensures shares == Shared(pixels) && total == Total(shares)
  {
    hide Times, Missing, Total;
    shares, total := pixels, total0;
    var average := total0 / (|pixels| - missing) as real;
    TotalFilled(pixels, average);
    if missing > 0 {
      var k := 0;
      MissingOfNext(pixels, 0);
      TimesOneMore(0, average);
      while k < |pixels|
        invariant k <= |pixels| == |shares|
        invariant forall i | 0 <= i < |pixels| :: shares[i] == if i < k && pixels[i] == 0.0 then average else pixels[i]
        invariant total == total0 + Times(Missing(pixels[..k]), average)
      {
        MissingOfNext(pixels, k);
        TimesOneMore(Missing(pixels[..k]), average);
        if shares[k] == 0.0 {
          shares := shares[k := average];
          total := total + average;
        }
        k := k + 1;
      }
      assert pixels[..k] == pixels;
    } else {
      NoneMissing(pixels);
    }
    assert shares == Filled(pixels, average);
  }

  lemma MissingOfNext(pixels: seq<real>, k: nat)
    ensures Missing(pixels[..0]) == 0
    ensures k < |pixels| ==>
        Missing(pixels[..k + 1]) == Missing(pixels[..k]) + if pixels[k] > 0.0 then 0 else 1
  {
    if k < |pixels| { assert pixels[..k + 1][..k] == pixels[..k]; }
  }

  lemma {:induction false} NoneMissing(pixels: seq<real>)
    requires Missing(pixels) == 0
    ensures forall i | 0 <= i < |pixels| :: pixels[i] > 0.0
  {
    if pixels != [] { NoneMissing(pixels[..|pixels| - 1]); }
  }
}
