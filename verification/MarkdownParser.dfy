/** The block parser as the loops of internal/httpapi/import_markdown.go, each
    proved to compute the function of the same name in MarkdownBlocks. */
module MarkdownParser {
  import opened Text
  import opened MarkdownSyntax
  import opened MarkdownBlocks

  method ParseFencedCode<T>(lines: seq<string>) returns (node: Option<Block<T>>, consumed: nat)
    requires lines != []
    ensures CodeFence(lines[0]).None? ==> node == None && consumed == 0
    ensures CodeFence(lines[0]).Some? ==>
              var fence := CodeFence(lines[0]).value;
              var scan := ScanFence(lines[1..], fence.marker);
              node == Some(Code(fence.language, Join(scan.0, "\n"))) && consumed == 1 + scan.1
  {
    hide CodeFence, ClosesFence;
    var opening := CodeFence(lines[0]);
    if opening.None? {
      return None, 0;
    }
    var fence := opening.value;
    var body: seq<string> := [];
    var index := 1;
    while index < |lines| && !ClosesFence(lines[index], fence.marker)
      invariant 1 <= index <= |lines|
      invariant ScanFence(lines[1..], fence.marker).0 == body + ScanFence(lines[index..], fence.marker).0
      invariant ScanFence(lines[1..], fence.marker).1 == index - 1 + ScanFence(lines[index..], fence.marker).1
    {
      assert lines[index..][1..] == lines[index + 1..];
      body := body + [lines[index]];
      index := index + 1;
    }
    assert body == ScanFence(lines[1..], fence.marker).0;
    if index < |lines| {
      index := index + 1;
    }
    node, consumed := Some(Code(fence.language, Join(body, "\n"))), index;
  }

  method QuotedLines(lines: seq<string>) returns (inner: seq<string>, index: nat)
    ensures inner == ScanQuote(lines).0 && index == ScanQuote(lines).1
  {
    hide IsBlockquoteLine, Blank, StartsNewBlock, Unquoted;
    inner, index := [], 0;
    while index < |lines|
      invariant index <= |lines|
      invariant ScanQuote(lines).0 == inner + ScanQuote(lines[index..]).0
      invariant ScanQuote(lines).1 == index + ScanQuote(lines[index..]).1
    {
      assert lines[index..][1..] == lines[index + 1..];
      if IsBlockquoteLine(lines[index]) {
        inner := inner + [Unquoted(lines[index])];
        index := index + 1;
      } else {
        if Blank(lines[index]) || StartsNewBlock(lines[index]) {
          break;
        }
        inner := inner + [lines[index]];
        index := index + 1;
      }
    }
  }

  method ParseIndentedCode<T>(lines: seq<string>) returns (node: Option<Block<T>>, consumed: nat)
    requires lines != [] && !Blank(lines[0])
    ensures !IsIndentedCodeLine(lines[0]) ==> node == None && consumed == 0
    ensures IsIndentedCodeLine(lines[0]) ==>
              node == Some(Code("", Join(ScanIndented(lines, 0).0, "\n"))) && consumed == ScanIndented(lines, 0).1
  {
    hide Blank, IsIndentedCodeLine, WithoutCodeIndent;
    if !IsIndentedCodeLine(lines[0]) {
      return None, 0;
    }
    var body: seq<string> := [];
    var index, pendingBlanks := 0, 0;
    while index < |lines|
      invariant pendingBlanks <= index <= |lines|
      invariant ScanIndented(lines, 0).0 == body + ScanIndented(lines[index..], pendingBlanks).0
      invariant var rest := ScanIndented(lines[index..], pendingBlanks);
                ScanIndented(lines, 0).1 == if rest.0 == [] then index - pendingBlanks else index + rest.1
    {
      assert lines[index..][1..] == lines[index + 1..];
      if Blank(lines[index]) {
        pendingBlanks := pendingBlanks + 1;
        index := index + 1;
      } else {
        if !IsIndentedCodeLine(lines[index]) {
          break;
        }
        body := body + seq(pendingBlanks, _ => "");
        pendingBlanks := 0;
        body := body + [WithoutCodeIndent(lines[index])];
        index := index + 1;
      }
    }
    assert body == ScanIndented(lines, 0).0;
    node, consumed := Some(Code("", Join(body, "\n"))), index - pendingBlanks;
  }

  /** What one line does to the scan of a paragraph. */
  lemma ParagraphTurn(lines: seq<string>, index: nat, body: seq<string>)
    requires index < |lines|
    ensures var line, scan := lines[index], ScanParagraph(lines[index..], index == 0);
            if Blank(line) then scan == ParagraphScan([], 0, None) && body + scan.body == body
            else if index > 0 && SetextHeading(line).Some? then scan == ParagraphScan([], 1, SetextHeading(line)) && body + scan.body == body
            else if index > 0 && (StartsNewBlock(line) || StartsTable(lines[index..])) then
              scan == ParagraphScan([], 0, None) && body + scan.body == body
            else
              var rest := ScanParagraph(lines[index + 1..], false);
              && scan == ParagraphScan([TrimLeft(line, {' '})] + rest.body, 1 + rest.consumed, rest.level)
              && body + scan.body == body + [TrimLeft(line, {' '})] + rest.body
  {
    hide Blank, StartsNewBlock, SetextHeading, StartsTable;
    assert lines[index..][1..] == lines[index + 1..];
  }

  lemma ParagraphEnd(lines: seq<string>, index: nat, body: seq<string>)
    requires index <= |lines|
    ensures index == |lines| ==> ScanParagraph(lines[index..], index == 0) == ParagraphScan([], 0, None) && body + [] == body
  {
  }


  method ParseMarkdownParagraph<T(==)>(lines: seq<string>, read: string -> seq<T>) returns (taken: Taken<T>)
    requires lines != [] && !Blank(lines[0])
    ensures taken == ParseParagraph(lines, read)
  {
    hide Blank, StartsNewBlock, SetextHeading, StartsTable, ScanParagraph;
    var body: seq<string> := [];
    var index := 0;
    assert lines[0..] == lines && [] + ScanParagraph(lines, true).body == ScanParagraph(lines, true).body;
    while index < |lines|
      invariant index <= |lines|
      invariant index == 0 <==> body == []
      invariant ScanParagraph(lines, true).body == body + ScanParagraph(lines[index..], index == 0).body
      invariant ScanParagraph(lines, true).consumed == index + ScanParagraph(lines[index..], index == 0).consumed
      invariant ScanParagraph(lines, true).level == ScanParagraph(lines[index..], index == 0).level
    {
      var line := lines[index];
      ParagraphTurn(lines, index, body);
      if Blank(line) {
        break;
      }
      if |body| > 0 {
        if SetextHeading(line).Some? {
          assert body == ScanParagraph(lines, true).body;
          return Taken(Some(Heading(SetextHeading(line).value, read(Join(body, "\n")))), index + 1);
        }
        if StartsNewBlock(line) {
          break;
        }
        if StartsTable(lines[index..]) {
          break;
        }
      }
      body := body + [TrimLeft(line, {' '})];
      index := index + 1;
    }
    ParagraphEnd(lines, index, body);
    var inline := read(Join(body, "\n"));
    taken := if inline == [] then Taken(None, index) else Taken(Some(Para(inline)), index);
  }

  method ParseMarkdownTable<T>(lines: seq<string>, read: string -> seq<T>) returns (taken: Taken<T>)
    requires |lines| > 1
    ensures taken == ParseTable(lines, read)
  {
    hide Blank, SplitTableRow, CellAlign, ReadCells;
    var header := SplitTableRow(lines[0]);
    var alignments := SplitTableRow(lines[1]);
    var rows := [ReadCells(header, |alignments|, read)];
    var index := 2;
    while index < |lines|
      invariant 2 <= index <= |lines|
      invariant |ScanRows(lines[2..])| == index - 2 + |ScanRows(lines[index..])|
      invariant rows + ReadRows(ScanRows(lines[index..]), |alignments|, read)
             == [ReadCells(header, |alignments|, read)] + ReadRows(ScanRows(lines[2..]), |alignments|, read)
    {
      assert lines[index..][1..] == lines[index + 1..];
      if Blank(lines[index]) || '|' !in lines[index] {
        break;
      }
      ghost var rest := ScanRows(lines[index + 1..]);
      assert ([SplitTableRow(lines[index])] + rest)[1..] == rest;
      rows := rows + [ReadCells(SplitTableRow(lines[index]), |alignments|, read)];
      index := index + 1;
    }
    ghost var body := ScanRows(lines[2..]);
    assert ([header] + body)[1..] == body;
    assert rows == ReadRows([header] + body, |alignments|, read);
    taken := Taken(Some(Table(Aligns(alignments), rows)), index);
  }

  /** The inner loop of parseMarkdownList: the rest of one item. */
  method ItemBody(lines: seq<string>, contentIndent: nat) returns (body: seq<string>, index: nat)
    ensures body == ScanBody(lines, contentIndent).0 && index == ScanBody(lines, contentIndent).1
  {
    hide Blank, StartsNewBlock, ParseListMarker, TrimIndent, IndentOf, TrimLeft;
    body, index := [], 0;
    while index < |lines|
      invariant index <= |lines|
      invariant ScanBody(lines, contentIndent).0 == body + ScanBody(lines[index..], contentIndent).0
      invariant ScanBody(lines, contentIndent).1 == index + ScanBody(lines[index..], contentIndent).1
    {
      var line := lines[index];
      assert lines[index..][1..] == lines[index + 1..];
      if Blank(line) {
        if index + 1 < |lines| && IndentOf(lines[index + 1]) < contentIndent && !Blank(lines[index + 1]) {
          break;
        }
        body := body + [""];
        index := index + 1;
      } else if IndentOf(line) >= contentIndent {
        var trimmed := TrimIndentLoop(line, contentIndent);
        body := body + [trimmed];
        index := index + 1;
      } else {
        if ParseListMarker(line).Some? {
          break;
        }
        if StartsNewBlock(line) {
          break;
        }
        body := body + [TrimLeft(line, {' ', '\t'})];
        index := index + 1;
      }
    }
  }

  method RawListItems(lines: seq<string>, first: ListMarker) returns (items: seq<RawItem>, index: nat)
    ensures items == ScanItems(lines, first).0 && index == ScanItems(lines, first).1
  {
    hide ParseListMarker, ScanBody, ContinuesList, FirstOfItem, ScanItems;
    items, index := [], 0;
    assert lines[0..] == lines;
    while index < |lines|
      invariant index <= |lines|
      invariant ScanItems(lines, first).0 == items + ScanItems(lines[index..], first).0
      invariant ScanItems(lines, first).1 == index + ScanItems(lines[index..], first).1
    {
      var marker := ParseListMarker(lines[index]);
      RawItemStep(lines, index, first);
      if !ContinuesList(marker, first) {
        break;
      }
      assert marker.Some? by { ContinuesMeansMarker(marker, first); }
      var body, used := ItemBody(lines[index + 1..], marker.value.contentIndent);
      items := items + [FirstOfItem(marker.value.content, body)];
      index := index + 1 + used;
    }
    assert index == |lines| ==> lines[index..] == [];
    NoMoreItems(first);
  }

  lemma NoMoreItems(first: ListMarker)
    ensures ScanItems([], first) == ([], 0)
  {
  }

  lemma RawItemStep(lines: seq<string>, index: nat, first: ListMarker)
    requires index < |lines|
    ensures var marker := ParseListMarker(lines[index]);
            if !ContinuesList(marker, first) then ScanItems(lines[index..], first) == ([], 0)
            else
              marker.Some? &&
              var body := ScanBody(lines[index + 1..], marker.value.contentIndent);
              var rest := ScanItems(lines[index + 1 + body.1..], first);
              && ScanItems(lines[index..], first).0 == [FirstOfItem(marker.value.content, body.0)] + rest.0
              && ScanItems(lines[index..], first).1 == 1 + body.1 + rest.1
  {
    hide ParseListMarker, ScanBody, FirstOfItem;
    if ContinuesList(ParseListMarker(lines[index]), first) {
      var body := ScanBody(lines[index + 1..], ParseListMarker(lines[index]).value.contentIndent);
      assert lines[index..][1..] == lines[index + 1..];
      assert lines[index..][1 + body.1..] == lines[index + 1 + body.1..];
    }
  }

  lemma ContinuesMeansMarker(marker: Option<ListMarker>, first: ListMarker)
    requires ContinuesList(marker, first)
    ensures marker.Some?
  {
  }

  lemma OneMoreItem<T>(raw: seq<RawItem>, index: nat, kind: ListKind, depth: nat, read: string -> seq<T>)
    requires depth < MAX_DEPTH && index < |raw|
    ensures ParseItems(raw[index..], kind, depth, read)
         == [Item(kind == Task && raw[index].checked.Some? && raw[index].checked.value,
                  OrEmptyParagraph(ParseBlocks(raw[index].body, depth + 1, read)))]
          + ParseItems(raw[index + 1..], kind, depth, read)
  {
    hide ParseBlocks;
    assert raw[index..][1..] == raw[index + 1..];
  }

  method ParseListItems<T(==)>(raw: seq<RawItem>, kind: ListKind, depth: nat, read: string -> seq<T>)
    returns (items: seq<Item<T>>)
    requires depth < MAX_DEPTH
    ensures items == ParseItems(raw, kind, depth, read)
    decreases Budget(depth), 0, 0
  {
    hide ParseBlocks, ParseItems;
    items := [];
    var index := 0;
    assert raw[0..] == raw;
    while index < |raw|
      invariant index <= |raw|
      invariant ParseItems(raw, kind, depth, read) == items + ParseItems(raw[index..], kind, depth, read)
    {
      OneMoreItem(raw, index, kind, depth, read);
      var blocks := ParseMarkdownBlocks(raw[index].body, depth + 1, read);
      if |blocks| == 0 {
        blocks := [Para([])];
      }
      var checked := kind == Task && raw[index].checked.Some? && raw[index].checked.value;
      items := items + [Item(checked, blocks)];
      index := index + 1;
    }
  }

  method ParseMarkdownList<T(==)>(lines: seq<string>, depth: nat, read: string -> seq<T>) returns (taken: Taken<T>)
    requires depth < MAX_DEPTH && lines != [] && ParseListMarker(lines[0]).Some?
    ensures var first := ParseListMarker(lines[0]).value;
            var scan := ScanItems(lines, first);
            && scan.0 != []
            && var kind := if scan.0[0].checked.Some? then Task else if first.ordered then Ordered else Bullet;
               taken == Taken(Some(List(kind, if kind == Ordered then first.start else 1,
                                        ParseItems(scan.0, kind, depth, read))), scan.1)
    decreases Budget(depth), 0, 1
  {
    hide ParseListMarker, ParseItems, FirstOfItem, ScanBody;
    var first := ParseListMarker(lines[0]).value;
    var raw, consumed := RawListItems(lines, first);
    assert ContinuesList(Some(first), first) by { MarkerContinuesItself(lines[0]); }
    var kind := if raw[0].checked.Some? then Task else if first.ordered then Ordered else Bullet;
    var items := ParseListItems(raw, kind, depth, read);
    taken := Taken(Some(List(kind, if kind == Ordered then first.start else 1, items)), consumed);
  }

  /** A list always takes its own first item. */
  lemma MarkerContinuesItself(line: string)
    requires ParseListMarker(line).Some?
    ensures ParseListMarker(line).value.indent <= ParseListMarker(line).value.contentIndent
  {
  }

  method ParseBlockquote<T(==)>(lines: seq<string>, depth: nat, read: string -> seq<T>)
    returns (node: Block<T>, consumed: nat)
    requires depth < MAX_DEPTH
    ensures node == Quote(OrEmptyParagraph(ParseBlocks(ScanQuote(lines).0, depth + 1, read)))
    ensures consumed == ScanQuote(lines).1
    decreases Budget(depth), 0, 1
  {
    var inner, index := QuotedLines(lines);
    var blocks := ParseMarkdownBlocks(inner, depth + 1, read);
    if |blocks| == 0 {
      blocks := [Para([])];
    }
    node, consumed := Quote(blocks), index;
  }

  /** One turn of the loop in parseMarkdownBlocks. */
  method ParseMarkdownBlock<T(==)>(lines: seq<string>, depth: nat, read: string -> seq<T>) returns (taken: Taken<T>)
    requires lines != [] && !Blank(lines[0])
    ensures taken == ParseBlock(lines, depth, read)
    decreases Budget(depth), 1, 0
  {
    hide CodeFence, AtxHeading, IsThematicBreak, IsBlockquoteLine, ParseListMarker, IsIndentedCodeLine, Blank,
         SplitTableRow, IsTableDelimiterRow, ParseItems, ParseBlocks, ScanQuote, ScanItems, ParseTable, ParseParagraph;
    var line := lines[0];
    var fenced, consumed := ParseFencedCode<T>(lines);
    if consumed > 0 {
      return Taken(fenced, consumed);
    }
    if AtxHeading(line).Some? {
      return Taken(Some(Heading(AtxHeading(line).value.level, read(AtxHeading(line).value.text))), 1);
    }
    if IsThematicBreak(line) {
      return Taken(Some(Rule), 1);
    }
    if depth < MAX_DEPTH && IsBlockquoteLine(line) {
      var node, used := ParseBlockquote(lines, depth, read);
      return Taken(Some(node), used);
    }
    if StartsTable(lines) && |SplitTableRow(lines[1])| == |SplitTableRow(line)| > 0 {
      taken := ParseMarkdownTable(lines, read);
      return;
    }
    if depth < MAX_DEPTH && ParseListMarker(line).Some? {
      taken := ParseMarkdownList(lines, depth, read);
      return;
    }
    var code, width := ParseIndentedCode<T>(lines);
    if width > 0 {
      return Taken(code, width);
    }
    taken := ParseMarkdownParagraph(lines, read);
  }

  method ParseMarkdownBlocks<T(==)>(lines: seq<string>, depth: nat, read: string -> seq<T>) returns (blocks: seq<Block<T>>)
    ensures blocks == ParseBlocks(lines, depth, read)
    decreases Budget(depth), 2, 0
  {
    hide ParseBlock, Blank;
    blocks := [];
    var index := 0;
    while index < |lines|
      invariant index <= |lines|
      invariant blocks + ParseBlocks(lines[index..], depth, read) == ParseBlocks(lines, depth, read)
    {
      if Blank(lines[index]) {
        assert lines[index..][1..] == lines[index + 1..];
        index := index + 1;
      } else {
        var taken := ParseMarkdownBlock(lines[index..], depth, read);
        assert lines[index..][taken.consumed..] == lines[index + taken.consumed..];
        if taken.block.Some? {
          blocks := blocks + [taken.block.value];
        }
        index := index + taken.consumed;
      }
    }
  }
}
