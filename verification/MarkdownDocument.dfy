/** Whole files: the text renderMarkdown produces and markdownDocument reads. */
module MarkdownDocument {
  import opened Text
  import opened MarkdownSyntax
  import opened MarkdownBlocks
  import opened MarkdownColumns
  import opened MarkdownRoundTrip
  import opened MarkdownReadBack
  import opened MarkdownTheorem

  /** Each line followed by a newline: what reaches the string builder. */
  function Unlines(lines: seq<string>): string {
    if lines == [] then "" else lines[0] + "\n" + Unlines(lines[1..])
  }

  /** renderMarkdown for a document without a title and without notes. */
  function RenderMarkdown<T>(blocks: seq<Block<T>>, show: seq<T> -> string): string {
    TrimRight(Unlines(BlocksLines(blocks, show)), {'\n'}) + "\n"
  }

  /** "\r\n" and "\r" become "\n". */
  function NormalizeNewlines(s: string): string {
    if s == [] then ""
    else if s[0] == '\r' then
      "\n" + NormalizeNewlines(if |s| > 1 && s[1] == '\n' then s[2..] else s[1..])
    else [s[0]] + NormalizeNewlines(s[1..])
  }

  function SplitLines(value: string): seq<string> {
    Split(TrimPrefixChar(NormalizeNewlines(value), '\U{FEFF}'), '\n')
  }

  /** markdownDocument up to the blocks. */
  function ReadMarkdown<T>(value: string, read: string -> seq<T>): seq<Block<T>> {
    ParseBlocks(SplitLines(value), 0, read)
  }

  // ---- Lines and strings ----

  predicate OneLines(lines: seq<string>) {
    forall line | line in lines :: '\n' !in line
  }

  lemma {:induction false} UnlinesConcat(a: seq<string>, b: seq<string>)
    ensures Unlines(a + b) == Unlines(a) + Unlines(b)
  {
    if a == [] {
      assert a + b == b;
    } else {
      assert (a + b)[1..] == a[1..] + b;
      UnlinesConcat(a[1..], b);
    }
  }

  lemma {:induction false} SplitAt(line: string, rest: string)
    requires '\n' !in line
    ensures Split(line + "\n" + rest, '\n') == [line] + Split(rest, '\n')
  {
    var s := line + "\n" + rest;
    if line == "" {
      assert s[1..] == rest;
    } else {
      assert line[0] in line && forall c | c in line[1..] :: c in line;
      assert s[1..] == line[1..] + "\n" + rest;
      SplitAt(line[1..], rest);
      assert [line[0]] + line[1..] == line;
    }
  }

  lemma {:induction false} SplitUnlines(lines: seq<string>)
    requires OneLines(lines)
    ensures Split(Unlines(lines), '\n') == lines + [""]
  {
    if lines != [] {
      assert lines[0] in lines && forall line | line in lines[1..] :: line in lines;
      SplitUnlines(lines[1..]);
      SplitAt(lines[0], Unlines(lines[1..]));
      assert lines + [""] == [lines[0]] + (lines[1..] + [""]);
    }
  }

  lemma {:induction false} TrimNewlinesKeepsLines(lines: seq<string>)
    requires OneLines(lines)
    ensures OneLines(TrimNewlines(lines))
  {
    if lines != [] && lines[|lines| - 1] == "" {
      assert forall line | line in lines[..|lines| - 1] :: line in lines;
      TrimNewlinesKeepsLines(lines[..|lines| - 1]);
    }
  }

  lemma UnlinesLast(lines: seq<string>)
    requires lines != []
    ensures var n := |lines| - 1;
            Unlines(lines) == Unlines(lines[..n]) + lines[n] + "\n"
  {
    var n := |lines| - 1;
    assert lines == lines[..n] + [lines[n]];
    UnlinesConcat(lines[..n], [lines[n]]);
    assert Unlines([lines[n]]) == lines[n] + "\n";
  }

  lemma TrimRightNewline(s: string)
    ensures TrimRight(s + "\n", {'\n'}) == TrimRight(s, {'\n'})
    ensures s != "" && s[|s| - 1] != '\n' ==> TrimRight(s, {'\n'}) == s
  {
    assert (s + "\n")[..|s|] == s;
  }

  /** Dropping empty last lines is what trimming newlines off the end does. */
  lemma {:induction false} TrimRightUnlines(lines: seq<string>)
    requires OneLines(lines)
    ensures TrimRight(Unlines(lines), {'\n'}) + "\n" == Unlines(TrimNewlines(lines))
  {
    if lines == [] {
      assert Unlines([""]) == "\n";
    } else {
      var n := |lines| - 1;
      var s := Unlines(lines[..n]) + lines[n];
      UnlinesLast(lines);
      TrimRightNewline(s);
      if lines[n] == "" {
        assert s == Unlines(lines[..n]);
        assert forall line | line in lines[..n] :: line in lines;
        TrimRightUnlines(lines[..n]);
      } else {
        assert lines[n] in lines && s[|s| - 1] in lines[n];
      }
    }
  }

  /** The line form of a nested writer is its string form. */
  lemma TrimNewlinesIsTheStringForm(lines: seq<string>)
    requires OneLines(lines)
    ensures Split(TrimRight(Unlines(lines), {'\n'}), '\n') == TrimNewlines(lines)
  {
    var trimmed := TrimRight(Unlines(lines), {'\n'});
    TrimRightUnlines(lines);
    TrimNewlinesKeepsLines(lines);
    SplitUnlines(TrimNewlines(lines));
    SplitBeforeNewline(trimmed);
    var pieces := TrimNewlines(lines);
    assert (pieces + [""])[..|pieces|] == pieces;
  }

  lemma {:induction false} SplitBeforeNewline(s: string)
    ensures Split(s + "\n", '\n') == Split(s, '\n') + [""]
  {
    if s != "" {
      assert (s + "\n")[1..] == s[1..] + "\n";
      SplitBeforeNewline(s[1..]);
    }
  }

  // ---- Every printed line is one line ----

  lemma {:induction false} SplitIsOneLines(s: string)
    ensures OneLines(Split(s, '\n'))
  {
    if s != "" {
      SplitIsOneLines(s[1..]);
      var rest := Split(s[1..], '\n');
      assert rest[0] in rest && forall line | line in rest[1..] :: line in rest;
    }
  }

  lemma {:induction false} IndentedOneLines(width: nat, lines: seq<string>)
    requires OneLines(lines)
    ensures OneLines(Indented(width, lines))
  {
    if lines != [] {
      assert lines[0] in lines && forall line | line in lines[1..] :: line in lines;
      IndentedOneLines(width, lines[1..]);
    }
  }

  lemma {:induction false} PrefixedOneLines(prefix: string, lines: seq<string>)
    requires OneLines(lines) && '\n' !in prefix
    ensures OneLines(Prefixed(prefix, lines))
  {
    if lines != [] {
      assert lines[0] in lines && forall line | line in lines[1..] :: line in lines;
      PrefixedOneLines(prefix, lines[1..]);
    }
  }

  lemma {:induction false} TrimKeepsOut(s: string, c: char)
    requires c !in s
    ensures c !in TrimSpace(s)
  {
    TrimSpaceIsWithin(s);
  }

  lemma {:induction false} TrimLeftIsWithin(s: string)
    ensures forall c | c in TrimSpaceLeft(s) :: c in s
  {
    if s != [] && IsSpace(s[0]) { TrimLeftIsWithin(s[1..]); }
  }

  lemma {:induction false} TrimRightIsWithin(s: string)
    ensures forall c | c in TrimSpaceRight(s) :: c in s
  {
    if s != [] && IsSpace(s[|s| - 1]) { TrimRightIsWithin(s[..|s| - 1]); }
  }

  lemma TrimSpaceIsWithin(s: string)
    ensures forall c | c in TrimSpace(s) :: c in s
  {
    TrimLeftIsWithin(s);
    TrimRightIsWithin(TrimSpaceLeft(s));
  }

  lemma {:induction false} EscapePipesOneLine(s: string)
    requires '\n' !in s
    ensures '\n' !in EscapePipes(s)
  {
    if s != [] {
      assert s[0] in s && forall c | c in s[1..] :: c in s;
      EscapePipesOneLine(s[1..]);
    }
  }

  lemma {:induction false} PaddedOneLine<T>(cells: seq<seq<T>>, columns: nat, show: seq<T> -> string)
    ensures '\n' !in PaddedCells(cells, columns, show)
    decreases columns
  {
    if columns > 0 {
      if cells == [] {
        PaddedOneLine(cells, columns - 1, show);
      } else {
        TrimKeepsOut(OneLine(show(cells[0])), '\n');
        EscapePipesOneLine(TrimSpace(OneLine(show(cells[0]))));
        PaddedOneLine(cells[1..], columns - 1, show);
      }
    }
  }

  lemma {:induction false} DelimitersOneLine(n: nat)
    ensures '\n' !in DelimiterCells(n)
  {
    if n > 0 { DelimitersOneLine(n - 1); }
  }

  lemma {:induction false} RowsOneLines<T>(rows: seq<seq<seq<T>>>, columns: nat, show: seq<T> -> string)
    ensures OneLines(RowLines(rows, columns, show))
  {
    if rows != [] {
      PaddedOneLine(rows[0], columns, show);
      RowsOneLines(rows[1..], columns, show);
    }
  }

  lemma {:induction false} BlockOneLines<T>(b: Block<T>, show: seq<T> -> string)
    ensures OneLines(BlockLines(b, show))
    decreases b
  {
    match b {
      case Para(text) => SplitIsOneLines(show(text));
      case Heading(level, text) =>
        SplitIsOneLines(Repeat('#', if level < 1 || level > 6 then 1 else level) + " " + show(text));
      case Code(language, source) =>
        SplitIsOneLines("```" + language);
        SplitIsOneLines(source);
      case Rule =>
      case Quote(blocks) =>
        InnerOneLines(blocks, show);
        PrefixedOneLines("> ", Inner(blocks, show));
      case List(kind, start, items) => ItemsOneLines(kind, if start < 1 then 1 else start, items, show);
      case Table(_, rows) =>
        if rows != [] && Columns(rows) != 0 {
          PaddedOneLine(rows[0], Columns(rows), show);
          DelimitersOneLine(Columns(rows));
          RowsOneLines(rows[1..], Columns(rows), show);
        }
    }
  }

  lemma {:induction false} InnerOneLines<T>(blocks: seq<Block<T>>, show: seq<T> -> string)
    ensures OneLines(Inner(blocks, show))
    decreases blocks, 1
  {
    BlocksOneLines(blocks, show);
    TrimNewlinesKeepsLines(BlocksLines(blocks, show));
  }

  lemma {:induction false} BlocksOneLines<T>(blocks: seq<Block<T>>, show: seq<T> -> string)
    ensures OneLines(BlocksLines(blocks, show))
    decreases blocks, 0
  {
    if blocks != [] {
      BlockOneLines(blocks[0], show);
      BlocksOneLines(blocks[1..], show);
    }
  }

  lemma {:induction false} ItemsOneLines<T>(kind: ListKind, number: nat, items: seq<Item<T>>, show: seq<T> -> string)
    ensures OneLines(ItemsLines(kind, number, items, show))
    decreases items
  {
    if items != [] {
      var inner := Inner(items[0].blocks, show);
      InnerOneLines(items[0].blocks, show);
      assert inner[0] in inner && forall line | line in inner[1..] :: line in inner;
      var marker := MarkerText(kind, number, items[0].checked);
      assert '\n' !in marker;
      IndentedOneLines(|marker|, inner[1..]);
      ItemsOneLines(kind, number + 1, items[1..], show);
    }
  }

  // ---- The file ----

  lemma {:induction false} NoReturns(s: string)
    requires '\r' !in s
    ensures NormalizeNewlines(s) == s
  {
    if s != [] {
      assert s[0] in s && forall c | c in s[1..] :: c in s;
      NoReturns(s[1..]);
    }
  }

  /** An exported file imports back unchanged. */
  lemma ExportImportsBack<T(!new)>(
      blocks: seq<Block<T>>, show: seq<T> -> string, read: string -> seq<T>, good: seq<T> -> bool)
    requires Faithful(show, read, good) && WfBlocks(blocks, show, good) && NestBlocks(blocks) <= MAX_DEPTH
    requires var text := RenderMarkdown(blocks, show); '\r' !in text && text[0] != '\U{FEFF}'
    ensures ReadMarkdown(RenderMarkdown(blocks, show), read) == blocks
  {
    hide Faithful;
    var text := RenderMarkdown(blocks, show);
    var lines := Inner(blocks, show);
    BlocksOneLines(blocks, show);
    TrimRightUnlines(BlocksLines(blocks, show));
    InnerOneLines(blocks, show);
    NoReturns(text);
    SplitUnlines(lines);
    assert SplitLines(text) == lines + [""];
    if blocks == [] {
      assert lines == [""];
      BlankIsNothing();
      assert (lines + [""])[1..] == [""];
      NothingBack([""], 0, read);
    } else {
      InnerOfBlocks(blocks, show, good);
      MovedNothing(lines);
      BlocksBack(blocks, 0, 0, [""], 0, show, read, good);
    }
  }
}
