/** markdownWriter of internal/httpapi/render.go: it appends to one string, and
    quotes and list items go through a nested writer whose text is cut into
    lines again. */
module MarkdownWriting {
  import opened Text
  import opened MarkdownSyntax
  import opened MarkdownBlocks
  import opened MarkdownDocument

  lemma {:induction false} UnlinesSplit(s: string)
    ensures Unlines(Split(s, '\n')) == s + "\n"
  {
    if s != "" {
      var rest := Split(s[1..], '\n');
      UnlinesSplit(s[1..]);
      if s[0] == '\n' {
        assert ([""] + rest)[1..] == rest;
        assert Unlines([""] + rest) == "" + "\n" + Unlines(rest);
      } else {
        var pieces := [[s[0]] + rest[0]] + rest[1..];
        assert pieces[1..] == rest[1..];
        assert Unlines(rest) == rest[0] + "\n" + Unlines(rest[1..]);
        assert Unlines(pieces) == [s[0]] + (rest[0] + "\n" + Unlines(rest[1..]));
      }
      assert [s[0]] + s[1..] == s;
    }
  }

  lemma UnlinesBlock(s: string)
    ensures Unlines(Split(s, '\n') + [""]) == s + "\n\n"
  {
    UnlinesSplit(s);
    UnlinesConcat(Split(s, '\n'), [""]);
    assert Unlines([""]) == "\n";
    assert s + "\n" + "\n" == s + "\n\n";
  }

  lemma UnlinesPush(lines: seq<string>, line: string)
    ensures Unlines(lines + [line]) == Unlines(lines) + line + "\n"
  {
    UnlinesConcat(lines, [line]);
    assert Unlines([line]) == line + "\n";
  }

  /** Writing one more line, whatever stood before. */
  lemma Appended(base: string, lines: seq<string>, line: string)
    ensures base + Unlines(lines) + line + "\n" == base + Unlines(lines + [line])
  {
    UnlinesPush(lines, line);
    assert base + Unlines(lines) + line + "\n" == base + (Unlines(lines) + line + "\n");
  }

  class MarkdownWriter<T(==)> {
    var out: string
    const show: seq<T> -> string

    constructor (show: seq<T> -> string)
      ensures out == "" && this.show == show
    {
      this.out := "";
      this.show := show;
    }

    method Blocks(nodes: seq<Block<T>>)
      modifies this
      ensures out == old(out) + Unlines(BlocksLines(nodes, show))
      decreases nodes, 1
    {
      if nodes != [] {
        WriteBlock(nodes[0]);
        Blocks(nodes[1..]);
        UnlinesConcat(BlockLines(nodes[0], show), BlocksLines(nodes[1..], show));
      }
    }

    /** The lines of a nested writer. */
    method NestedLines(nodes: seq<Block<T>>) returns (lines: seq<string>)
      ensures lines == Inner(nodes, show)
      decreases nodes, 2
    {
      var nested := new MarkdownWriter<T>(show);
      nested.Blocks(nodes);
      BlocksOneLines(nodes, show);
      assert nested.out == Unlines(BlocksLines(nodes, show));
      TrimNewlinesIsTheStringForm(BlocksLines(nodes, show));
      lines := Split(TrimRight(nested.out, {'\n'}), '\n');
    }

    method WriteBlock(node: Block<T>)
      modifies this
      ensures out == old(out) + Unlines(BlockLines(node, show))
      decreases node
    {
      hide Blank;
      match node {
        case Para(text) =>
          if !Blank(show(text)) {
            UnlinesBlock(show(text));
            out := out + show(text) + "\n\n";
          }
        case Heading(level, text) =>
          var line := Repeat('#', if level < 1 || level > 6 then 1 else level) + " " + show(text);
          UnlinesBlock(line);
          out := out + line + "\n\n";
        case Code(language, source) => WriteCode(language, source);
        case Rule =>
          assert Unlines(["---", ""]) == "---\n\n" by {
            assert ["---", ""][1..] == [""] && Unlines([""]) == "\n";
          }
          out := out + "---\n\n";
        case Quote(blocks) =>
          var lines := NestedLines(blocks);
          WriteQuoted(lines);
        case List(kind, start, items) =>
          var number := if start < 1 then 1 else start;
          WriteItems(kind, number, items);
          UnlinesPush(ItemsLines(kind, number, items, show), "");
          out := out + "\n";
        case Table(_, rows) =>
          if rows != [] && Columns(rows) != 0 {
            WriteTable(rows);
          }
      }
    }

    method WriteCode(language: string, source: string)
      modifies this
      ensures out == old(out) + Unlines(BlockLines(Code(language, source), show))
    {
      var open := "```" + language;
      out := out + open + "\n";
      var lines := Split(source, '\n');
      for i := 0 to |lines|
        invariant out == old(out) + (open + "\n" + Unlines(lines[..i]))
      {
        UnlinesPush(lines[..i], lines[i]);
        assert lines[..i + 1] == lines[..i] + [lines[i]];
        out := out + lines[i] + "\n";
      }
      out := out + "```\n\n";
      assert lines[..|lines|] == lines;
      UnlinesSplit(open);
      UnlinesConcat(Split(open, '\n'), lines);
      UnlinesConcat(Split(open, '\n') + lines, ["```", ""]);
      assert ["```", ""][1..] == [""] && Unlines([""]) == "\n" && Unlines(["```", ""]) == "```\n\n";
    }

    method WriteQuoted(lines: seq<string>)
      modifies this
      ensures out == old(out) + Unlines(Prefixed("> ", lines) + [""])
    {
      for i := 0 to |lines|
        invariant out == old(out) + Unlines(Prefixed("> ", lines[..i]))
      {
        PrefixedPush("> ", lines[..i], lines[i]);
        UnlinesPush(Prefixed("> ", lines[..i]), "> " + lines[i]);
        assert lines[..i + 1] == lines[..i] + [lines[i]];
        out := out + "> " + lines[i] + "\n";
      }
      assert lines[..|lines|] == lines;
      UnlinesPush(Prefixed("> ", lines), "");
      out := out + "\n";
    }

    method WriteItems(kind: ListKind, number: nat, items: seq<Item<T>>)
      modifies this
      ensures out == old(out) + Unlines(ItemsLines(kind, number, items, show))
      decreases items, 0
    {
      hide ItemLines, Unlines;
      NothingPrinted(out);
      if items != [] {
        var marker := MarkerText(kind, number, items[0].checked);
        var lines := NestedLines(items[0].blocks);
        WriteItem(marker, lines);
        WriteItems(kind, number + 1, items[1..]);
        UnlinesConcat(ItemLines(marker, lines), ItemsLines(kind, number + 1, items[1..], show));
      }
    }

    method WriteItem(marker: string, lines: seq<string>)
      requires |lines| > 0
      modifies this
      ensures out == old(out) + Unlines(ItemLines(marker, lines))
    {
      hide Unlines;
      var continuation := Repeat(' ', |marker|);
      ghost var printed := [marker + lines[0]];
      Appended(old(out), [], marker + lines[0]);
      NothingPrinted(old(out));
      assert [] + printed == printed && out + (marker + lines[0]) + "\n" == out + marker + lines[0] + "\n";
      out := out + marker + lines[0] + "\n";
      for i := 1 to |lines|
        invariant printed == ItemLines(marker, lines[..i])
        invariant out == old(out) + Unlines(printed)
      {
        var line := if Blank(lines[i]) then "" else continuation + lines[i];
        IndentedPush(|marker|, lines[1..i], lines[i]);
        Appended(old(out), printed, line);
        assert lines[..i + 1][1..] == lines[1..i] + [lines[i]] && lines[..i][1..] == lines[1..i];
        out := out + line + "\n";
        printed := printed + [line];
      }
      assert lines[..|lines|] == lines;
    }

    method WriteTable(rows: seq<seq<seq<T>>>)
      requires rows != []
      modifies this
      ensures out == old(out) + Unlines(TableLines(rows, show) + [""])
    {
      hide Unlines, RowLine, DelimiterCells, Columns, RowLines;
      var columns := Columns(rows);
      NothingPrinted(out);
      WriteLine(RowLine(rows[0], columns, show), []);
      assert [] + [RowLine(rows[0], columns, show)] == [RowLine(rows[0], columns, show)];
      WriteLine("|" + DelimiterCells(columns), [RowLine(rows[0], columns, show)]);
      ghost var above := [RowLine(rows[0], columns, show)] + ["|" + DelimiterCells(columns)];
      WriteRows(rows[1..], columns, above);
      WriteLine("", above + RowLines(rows[1..], columns, show));
      assert TableLines(rows, show) == above + RowLines(rows[1..], columns, show);
    }

    /** Writes one line, "above" being the lines written since base. */
    method WriteLine(line: string, ghost above: seq<string>)
      modifies this
      ensures out == old(out) + line + "\n"
      ensures forall base :: old(out) == base + Unlines(above) ==> out == base + Unlines(above + [line])
    {
      forall base: string
        ensures base + Unlines(above) + line + "\n" == base + Unlines(above + [line])
      {
        Appended(base, above, line);
      }
      out := out + line + "\n";
    }

    method WriteRows(rows: seq<seq<seq<T>>>, columns: nat, ghost above: seq<string>)
      modifies this
      ensures forall base :: old(out) == base + Unlines(above)
                         ==> out == base + Unlines(above + RowLines(rows, columns, show))
    {
      hide Unlines, RowLine;
      ghost var printed := above;
      for i := 0 to |rows|
        invariant printed == above + RowLines(rows[..i], columns, show)
        invariant forall base :: old(out) == base + Unlines(above) ==> out == base + Unlines(printed)
      {
        RowsPush(rows[..i], rows[i], columns, show);
        assert rows[..i + 1] == rows[..i] + [rows[i]];
        WriteLine(RowLine(rows[i], columns, show), printed);
        printed := printed + [RowLine(rows[i], columns, show)];
      }
      assert rows[..|rows|] == rows;
    }
  }

  lemma NothingPrinted(base: string)
    ensures base + Unlines([]) == base
  {
  }

  lemma {:induction false} PrefixedPush(prefix: string, lines: seq<string>, line: string)
    ensures Prefixed(prefix, lines + [line]) == Prefixed(prefix, lines) + [prefix + line]
  {
    if lines != [] {
      assert (lines + [line])[1..] == lines[1..] + [line];
      PrefixedPush(prefix, lines[1..], line);
    }
  }

  lemma {:induction false} IndentedPush(width: nat, lines: seq<string>, line: string)
    ensures Indented(width, lines + [line])
         == Indented(width, lines) + [if Blank(line) then "" else Repeat(' ', width) + line]
  {
    if lines != [] {
      assert (lines + [line])[1..] == lines[1..] + [line];
      IndentedPush(width, lines[1..], line);
    }
  }

  lemma {:induction false} RowsPush<T>(rows: seq<seq<seq<T>>>, row: seq<seq<T>>, columns: nat, show: seq<T> -> string)
    ensures RowLines(rows + [row], columns, show) == RowLines(rows, columns, show) + [RowLine(row, columns, show)]
  {
    if rows != [] {
      assert (rows + [row])[1..] == rows[1..] + [row];
      RowsPush(rows[1..], row, columns, show);
    }
  }
}
