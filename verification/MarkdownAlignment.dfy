/** What the delimiter row of a table says (GFM, section 4.10): "parseMarkdownTable" of
    internal/httpapi/import_markdown.go. */
module MarkdownAlignment {
  import opened Text
  import opened MarkdownSyntax
  import opened MarkdownBlocks

  /** A delimiter cell: dashes, with a colon at the left or the right or both. */
  function Delimiter(left: bool, dashes: nat, right: bool): string {
    (if left then ":" else "") + Repeat('-', dashes) + if right then ":" else ""
  }

  lemma DashesAre(s: string)
    requires Only(s, '-')
    ensures s == Repeat('-', |s|)
  {
  }

  /** A cell belongs to a delimiter row if and only if it is one of these, whatever white
      space is around it. */
  lemma DelimiterForms(cell: string)
    ensures IsDelimiterCell(cell) <==> exists left, dashes: nat, right :: dashes > 0 && TrimSpace(cell) == Delimiter(left, dashes, right)
  {
    var trimmed := TrimSpace(cell);
    var body := TrimSuffixChar(TrimPrefixChar(trimmed, ':'), ':');
    if IsDelimiterCell(cell) {
      DashesAre(body);
      var left := trimmed[0] == ':';
      var rest := TrimPrefixChar(trimmed, ':');
      var right := rest[|rest| - 1] == ':';
      assert rest == body + if right then ":" else "";
      assert trimmed == Delimiter(left, |body|, right);
    }
    if left, dashes: nat, right :| dashes > 0 && trimmed == Delimiter(left, dashes, right) {
      DelimiterBody(left, dashes, right);
    }
  }

  lemma DelimiterBody(left: bool, dashes: nat, right: bool)
    requires dashes > 0
    ensures TrimSuffixChar(TrimPrefixChar(Delimiter(left, dashes, right), ':'), ':') == Repeat('-', dashes)
  {
    var d := Delimiter(left, dashes, right);
    assert d[if left then 1 else 0] == '-';
    assert TrimPrefixChar(d, ':') == Repeat('-', dashes) + if right then ":" else "";
  }

  /** A colon at the right end alone puts a column to the right, one at either end to
      the centre; one at the left end says nothing. */
  lemma DelimiterAligns(cell: string, left: bool, dashes: nat, right: bool)
    requires dashes > 0 && TrimSpace(cell) == Delimiter(left, dashes, right)
    ensures CellAlign(cell) == if !right then Plain else if left then Center else Right
  {
    var d := Delimiter(left, dashes, right);
    assert d[if left then 1 else 0] == '-';
    assert !right ==> d[|d| - 1] == '-';
  }

  lemma {:induction false} AlignsAt(cells: seq<string>)
    ensures |Aligns(cells)| == |cells| && forall i | 0 <= i < |cells| :: Aligns(cells)[i] == CellAlign(cells[i])
  {
    if cells != [] { AlignsAt(cells[1..]); }
  }

  lemma {:induction false} ReadCellsAt<T>(cells: seq<string>, columns: nat, read: string -> seq<T>)
    ensures |ReadCells(cells, columns, read)| == columns
    ensures forall i | 0 <= i < columns ::
        ReadCells(cells, columns, read)[i] == read(if i < |cells| then TrimSpace(cells[i]) else "")
    decreases columns
  {
    if columns > 0 { ReadCellsAt(if cells == [] then [] else cells[1..], columns - 1, read); }
  }

  lemma {:induction false} ReadRowsAt<T>(rows: seq<seq<string>>, columns: nat, read: string -> seq<T>)
    ensures |ReadRows(rows, columns, read)| == |rows|
    ensures forall i | 0 <= i < |rows| :: ReadRows(rows, columns, read)[i] == ReadCells(rows[i], columns, read)
  {
    if rows != [] { ReadRowsAt(rows[1..], columns, read); }
  }

  /** Every table read is a rectangle as wide as its delimiter row, each column aligned
      as that row says; a row that is too short is filled with empty cells and one that
      is too long is cut. */
  lemma TableIsRead<T>(lines: seq<string>, read: string -> seq<T>)
    requires StartsTable(lines)
    ensures var delimiters := SplitTableRow(lines[1]);
            var body := ScanRows(lines[2..]);
            var table := ParseTable(lines, read).block.value;
            && table.Table? && |table.align| == |delimiters| && |table.rows| == 1 + |body|
            && (forall j, left, dashes: nat, right | 0 <= j < |delimiters| && dashes > 0
                   && TrimSpace(delimiters[j]) == Delimiter(left, dashes, right) ::
                  table.align[j] == if !right then Plain else if left then Center else Right)
            && forall i, j | 0 <= i <= |body| && 0 <= j < |delimiters| ::
                 var cells := if i == 0 then SplitTableRow(lines[0]) else body[i - 1];
                 |table.rows[i]| == |delimiters| && table.rows[i][j] == read(if j < |cells| then TrimSpace(cells[j]) else "")
  {
    var delimiters, body := SplitTableRow(lines[1]), ScanRows(lines[2..]);
    AlignsAt(delimiters);
    ReadRowsAt([SplitTableRow(lines[0])] + body, |delimiters|, read);
    forall j, left, dashes: nat, right | 0 <= j < |delimiters| && dashes > 0 && TrimSpace(delimiters[j]) == Delimiter(left, dashes, right)
      ensures CellAlign(delimiters[j]) == if !right then Plain else if left then Center else Right
    {
      DelimiterAligns(delimiters[j], left, dashes, right);
    }
    forall i | 0 <= i <= |body| {
      ReadCellsAt(([SplitTableRow(lines[0])] + body)[i], |delimiters|, read);
    }
  }
}
