/** What indenting a line changes in how the parser sees it, and what it does not. */
module MarkdownColumns {
  import opened Text
  import opened MarkdownSyntax
  import opened MarkdownBlocks

  /** A line that starts at some column. */
  function At(column: nat, line: string): string {
    Repeat(' ', column) + line
  }

  /** A line that is not blank and not indented. */
  predicate HeadOk(t: string) {
    t != "" && !Blank(t) && t[0] != ' ' && t[0] != '\t'
  }

  predicate IndentedBy(line: string, column: nat) {
    |line| > column && line == At(column, line[column..]) && HeadOk(line[column..])
  }

  /** The parser's whole test for a table at the head of some lines. */
  predicate TableHead(lines: seq<string>) {
    StartsTable(lines) && |SplitTableRow(lines[1])| == |SplitTableRow(lines[0])| > 0
  }

  lemma AtMargin(line: string)
    ensures At(0, line) == line
  {
  }

  lemma AtFurther(a: nat, b: nat, line: string)
    ensures At(a, At(b, line)) == At(a + b, line)
    decreases a
  {
    if a == 0 {
      AtMargin(At(b, line));
    } else {
      AtFurther(a - 1, b, line);
      assert At(a, At(b, line)) == [' '] + At(a - 1, At(b, line));
      assert At(a + b, line) == [' '] + At(a + b - 1, line);
    }
  }

  lemma AtIs(column: nat, line: string)
    ensures |At(column, line)| == column + |line| && At(column, line)[column..] == line
    ensures forall i | 0 <= i < column :: At(column, line)[i] == ' '
  {
  }

  lemma {:induction false} TrimSpaceAt(column: nat, line: string)
    ensures TrimSpace(At(column, line)) == TrimSpace(line) && Blank(At(column, line)) == Blank(line)
  {
    if column == 0 {
      AtMargin(line);
    } else {
      assert At(column, line)[1..] == At(column - 1, line);
      TrimSpaceAt(column - 1, line);
    }
  }

  lemma {:induction false} TrimLeftAt(column: nat, line: string, cut: set<char>)
    requires ' ' in cut && line != "" && line[0] !in cut
    ensures TrimLeft(At(column, line), cut) == line
  {
    if column == 0 {
      AtMargin(line);
    } else {
      assert At(column, line)[1..] == At(column - 1, line);
      TrimLeftAt(column - 1, line, cut);
    }
  }

  lemma {:induction false} IndentOfAt(column: nat, line: string)
    ensures IndentOf(At(column, line)) == column + IndentOf(line)
  {
    if column == 0 {
      AtMargin(line);
    } else {
      assert At(column, line)[1..] == At(column - 1, line);
      IndentOfAt(column - 1, line);
    }
  }

  lemma {:induction false} TrimIndentAt(column: nat, width: nat, line: string)
    requires width <= column
    ensures TrimIndent(At(column, line), width) == At(column - width, line)
  {
    if width > 0 {
      assert At(column, line)[1..] == At(column - 1, line);
      TrimIndentAt(column - 1, width - 1, line);
    }
  }

  lemma PipeAt(column: nat, line: string)
    ensures '|' in At(column, line) <==> '|' in line
  {
    AtIs(column, line);
    var s := At(column, line);
    if '|' in s {
      var i :| 0 <= i < |s| && s[i] == '|';
      assert s[column..][i - column] == '|';
    }
    if '|' in line {
      var i :| 0 <= i < |line| && line[i] == '|';
      assert s[column..][i] == s[column + i];
    }
  }

  /** Tests that look at the trimmed line only. */
  lemma SameTrimmed(column: nat, line: string)
    ensures SplitTableRow(At(column, line)) == SplitTableRow(line)
    ensures IsTableDelimiterRow(At(column, line)) == IsTableDelimiterRow(line)
    ensures IsThematicBreak(At(column, line)) == IsThematicBreak(line)
    ensures SetextHeading(At(column, line)) == SetextHeading(line)
    ensures forall c :: ClosesFence(At(column, line), c) == ClosesFence(line, c)
  {
    hide TrimSpace, SplitCells, IsDelimiterCell, WithoutSpaces;
    TrimSpaceAt(column, line);
  }

  lemma QuoteAt(column: nat, line: string)
    requires line != "" && line[0] != ' '
    ensures IsBlockquoteLine(At(column, line)) <==> line[0] == '>'
    ensures line[0] == '>' ==> Unquoted(At(column, line)) == Unquoted(line)
  {
    TrimLeftAt(column, line, {' '});
    TrimLeftNothing(line, {' '});
  }

  /** A fence and a hash are looked for up to three columns in. */
  lemma FenceAt(column: nat, line: string)
    requires line != "" && line[0] != ' '
    ensures column > 3 || (line[0] != '`' && line[0] != '~') || CodeFence(line).None? ==> CodeFence(At(column, line)).None?
    ensures column > 3 || line[0] != '#' || AtxHeading(line).None? ==> AtxHeading(At(column, line)).None?
  {
    hide FenceLanguage, WithoutClosingHashes, TrimSpace, CountPrefix;
    AtIs(column, line);
    TrimLeftAt(column, line, {' '});
    TrimLeftNothing(line, {' '});
  }

  lemma FourColumns(column: nat, line: string)
    requires column >= 4
    ensures IsIndentedCodeLine(At(column, line))
  {
    AtIs(column, line);
    assert At(column, line)[..4] == "    ";
  }

  lemma NotIndentedCode(line: string)
    requires line != "" && line[0] != ' ' && line[0] != '\t'
    ensures !IsIndentedCodeLine(line)
  {
  }

  /** A marker moves with its line, up to column eight. */
  lemma MarkerAt(column: nat, line: string)
    requires line != "" && line[0] != ' ' && line[0] != '\t'
    ensures ParseListMarker(At(column, line))
         == (var m := ParseListMarker(line);
             if column > 8 || m.None? then None
             else Some(m.value.(indent := column, contentIndent := m.value.contentIndent + column)))
    ensures ParseListMarker(line).Some? ==> ParseListMarker(line).value.indent == 0
  {
    hide IsThematicBreak, OrderedMarker;
    AtIs(column, line);
    TrimLeftAt(column, line, {' ', '\t'});
    TrimLeftNothing(line, {' ', '\t'});
    SameTrimmed(column, line);
    OrderedAt(line, column);
  }

  lemma OrderedAt(line: string, column: nat)
    ensures OrderedMarker(line, column)
         == (var m := OrderedMarker(line, 0);
             if m.None? then None else Some(m.value.(indent := column, contentIndent := m.value.contentIndent + column)))
    ensures OrderedMarker(line, 0).Some? ==> OrderedMarker(line, 0).value.indent == 0
  {
    hide TrimLeft, CountDigits, Atoi;
  }

  /** What starts no block at the margin starts none further right. */
  lemma StartsAt(column: nat, line: string)
    requires line != "" && line[0] != ' ' && line[0] != '\t' && !StartsNewBlock(line)
    ensures !StartsNewBlock(At(column, line))
  {
    hide CodeFence, AtxHeading, IsThematicBreak, ParseListMarker, IsBlockquoteLine;
    FenceAt(column, line);
    SameTrimmed(column, line);
    QuoteAt(column, line);
    QuoteAt(0, line);
    AtMargin(line);
    MarkerAt(column, line);
  }

  lemma IndentedByAt(column: nat, line: string)
    requires HeadOk(line)
    ensures IndentedBy(At(column, line), column) && !Blank(At(column, line)) && IndentOf(At(column, line)) == column
  {
    AtIs(column, line);
    TrimSpaceAt(column, line);
    IndentOfAt(column, line);
  }

  /** The first two lines of a table, indented or not. */
  lemma StartsTableAt(a: nat, b: nat, lines: seq<string>, moved: seq<string>)
    requires |lines| > 1 && |moved| > 1 && moved[0] == At(a, lines[0]) && moved[1] == At(b, lines[1])
    ensures StartsTable(moved) == StartsTable(lines) && TableHead(moved) == TableHead(lines)
  {
    hide IsTableDelimiterRow, SplitTableRow;
    PipeAt(a, lines[0]);
    SameTrimmed(a, lines[0]);
    SameTrimmed(b, lines[1]);
  }
}
