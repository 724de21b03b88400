/** Exactly which printed lists the parser reads back. */
module MarkdownListExactly {
  import opened Text
  import opened MarkdownSyntax
  import opened MarkdownBlocks
  import opened MarkdownColumns
  import opened MarkdownRoundTrip
  import opened MarkdownReadBack
  import opened MarkdownTheorem
  import opened MarkdownConverse

  // ---- Numbers ----

  lemma {:induction false} AtoiBound(s: string, k: nat)
    requires |s| <= k && forall i | 0 <= i < |s| :: IsDigit(s[i])
    ensures Atoi(s) < Pow10(k)
  {
    if s == "" {
      PowPositive(k);
    } else {
      AtoiBound(s[..|s| - 1], k - 1);
    }
  }

  lemma {:induction false} PowPositive(k: nat)
    ensures Pow10(k) >= 1
  {
    if k > 0 { PowPositive(k - 1); }
  }

  lemma {:induction false} ItoaLong(n: nat, k: nat)
    requires n >= Pow10(k)
    ensures |Itoa(n)| > k
  {
    if k > 0 {
      PowPositive(k - 1);
      ItoaLong(n / 10, k - 1);
    }
  }

  predicate Numbered<T>(b: Block<T>) {
    b.List? && b.kind == Ordered ==> b.start < 1_000_000_000
  }

  lemma MarkerNumber(line: string)
    requires ParseListMarker(line).Some?
    ensures ParseListMarker(line).value.start < 1_000_000_000
  {
    hide IsThematicBreak, TrimLeft;
    NineDigits();
    var trimmed := TrimLeft(line, {' ', '\t'});
    var digits := CountDigits(trimmed);
    if digits <= 9 { AtoiBound(trimmed[..digits], 9); }
  }

  /** The parser takes no number of ten digits. */
  lemma NumberRead<T>(lines: seq<string>, depth: nat, read: string -> seq<T>)
    requires lines != [] && !Blank(lines[0])
    ensures ParseBlock(lines, depth, read).block.Some? ==> Numbered(ParseBlock(lines, depth, read).block.value)
  {
    hide CodeFence, AtxHeading, IsThematicBreak, IsBlockquoteLine, ParseListMarker, StartsTable, SplitTableRow, ScanItems,
         ParseItems, ScanQuote, ParseBlocks, ScanIndented, IsIndentedCodeLine, Join;
    if ParseListMarker(lines[0]).Some? { MarkerNumber(lines[0]); }
  }

  lemma {:induction false} NumbersRead<T>(lines: seq<string>, depth: nat, read: string -> seq<T>)
    ensures forall b | b in ParseBlocks(lines, depth, read) :: Numbered(b)
    decreases |lines|
  {
    hide ParseBlock, Numbered, Blank;
    if lines != [] {
      if Blank(lines[0]) {
        NumbersRead(lines[1..], depth, read);
      } else {
        NumberRead(lines, depth, read);
        NumbersRead(lines[ParseBlock(lines, depth, read).consumed..], depth, read);
      }
    }
  }

  // ---- Items that the parser does not see as such ----

  /** Lines that an item takes in to the last: deep ones, and ones that start nothing. */
  predicate Sinks(lines: seq<string>, width: nat) {
    lines == [] || (
      && (if lines[0] == "" then |lines| == 1 || Blank(lines[1]) || IndentOf(lines[1]) >= width
          else !Blank(lines[0]) && (IndentOf(lines[0]) >= width || !StartsNewBlock(lines[0])))
      && Sinks(lines[1..], width))
  }

  lemma {:induction false} ScanBodySinks(lines: seq<string>, width: nat)
    requires Sinks(lines, width)
    ensures ScanBody(lines, width).1 == |lines|
  {
    BlankIsNothing();
    hide StartsNewBlock, Blank;
    if lines != [] {
      ScanBodySinks(lines[1..], width);
      assert ParseListMarker(lines[0]).Some? ==> StartsNewBlock(lines[0]) by { MarkerStarts(lines[0]); }
    }
  }

  lemma MarkerStarts(line: string)
    ensures ParseListMarker(line).Some? || IsThematicBreak(line) ==> StartsNewBlock(line)
  {
  }

  lemma {:induction false} IndentedSinks(column: nat, lines: seq<string>, rest: seq<string>, width: nat)
    requires width <= column && TidyTail(lines) && Sinks(rest, width)
    ensures Sinks(Indented(column, lines) + rest, width)
  {
    hide StartsNewBlock, Blank, At, Indented;
    if lines == [] {
      NothingIndented(column, rest);
    } else {
      var more := Indented(column, lines[1..]) + rest;
      IndentedFirst(column, lines, rest);
      IndentedSinks(column, lines[1..], rest, width);
      TrimSpaceAt(column, lines[0]);
      IndentOfAt(column, lines[0]);
      BlankIsNothing();
      if |lines| > 1 { IndentedHead(column, lines[1..], rest); }
      SinksCons(if Blank(lines[0]) then "" else At(column, lines[0]), more, width);
    }
  }

  lemma SinksCons(line: string, more: seq<string>, width: nat)
    requires Sinks(more, width)
    requires if line == "" then more == [] || Blank(more[0]) || IndentOf(more[0]) >= width
             else !Blank(line) && (IndentOf(line) >= width || !StartsNewBlock(line))
    ensures Sinks([line] + more, width)
  {
    hide StartsNewBlock, Blank;
    assert ([line] + more)[1..] == more;
  }

  /** A line that begins with a number of ten digits starts nothing. */
  lemma LongNumber(number: nat, head: string)
    requires number >= 1_000_000_000
    ensures var line := MarkerText(Ordered, number, false) + head;
            !Blank(line) && !StartsNewBlock(line) && line != ""
  {
    hide IsThematicBreak, CodeFence, AtxHeading;
    var digits := Itoa(number);
    var line := digits + ". " + head;
    NineDigits();
    ItoaLong(number, 9);
    assert line[0] == digits[0];
    OtherThan(line);
    TrimLeftNothing(line, {' ', '\t'});
    assert line == digits + (". " + head);
    CountDigitsOf(digits, ". " + head);
  }

  lemma {:induction false} LongItemsSink<T>(
    number: nat, items: seq<Item<T>>, width: nat, show: seq<T> -> string, good: seq<T> -> bool)
    requires WfItems(items, show, good) && number >= 1_000_000_000 && width <= 11
    ensures Sinks(ItemsAt(Ordered, number, items, 0, 0, show) + [""], width)
    decreases |items|
  {
    hide StartsNewBlock, Blank, ItemsAt, Indented, WfContent, Inner, MarkerText, At;
    if items == [] {
      SinksCons("", [], width);
      NoItemsAt(number, items, show);
      assert [] + [""] == [""] == [""] + [];
    } else {
      var inner := Inner(items[0].blocks, show);
      var line := MarkerText(Ordered, number, items[0].checked) + inner[0];
      TidyContent(items[0].blocks, show, good);
      InnerTail(inner);
      LongItemsSink(number + 1, items[1..], width, show, good);
      var more := ItemsAt(Ordered, number + 1, items[1..], 0, 0, show) + [""];
      MarkerLength(number, items[0].checked);
      IndentedSinks(|MarkerText(Ordered, number, items[0].checked)|, inner[1..], more, width);
      SameNumber(number, items[0].checked);
      LongNumber(number, inner[0]);
      SinksCons(line, Indented(|MarkerText(Ordered, number, items[0].checked)|, inner[1..]) + more, width);
      FirstItemAt(Ordered, number, items, [""], show);
    }
  }

  lemma NoItemsAt<T>(number: nat, items: seq<Item<T>>, show: seq<T> -> string)
    requires items == []
    ensures ItemsAt(Ordered, number, items, 0, 0, show) == []
  {
  }

  lemma SameNumber(number: nat, checked: bool)
    ensures MarkerText(Ordered, number, checked) == MarkerText(Ordered, number, false)
  {
  }

  lemma MarkerLength(number: nat, checked: bool)
    requires number >= 1_000_000_000
    ensures |MarkerText(Ordered, number, checked)| >= 11
  {
    NineDigits();
    ItoaLong(number, 9);
  }

  /** The first item of a list at the margin, and what follows it. */
  lemma FirstItemAt<T>(kind: ListKind, number: nat, items: seq<Item<T>>, rest: seq<string>, show: seq<T> -> string)
    requires items != []
    ensures var inner, marker := Inner(items[0].blocks, show), MarkerText(kind, number, items[0].checked);
            var more := ItemsAt(kind, number + 1, items[1..], 0, 0, show) + rest;
            ItemsAt(kind, number, items, 0, 0, show) + rest == [marker + inner[0]] + (Indented(|marker|, inner[1..]) + more)
  {
    hide Inner, MarkerText, Indented;
    var inner, marker := Inner(items[0].blocks, show), MarkerText(kind, number, items[0].checked);
    AtMargin(marker + inner[0]);
    assert ItemAt(0, 0, marker, inner) == [marker + inner[0]] + Indented(|marker|, inner[1..]);
  }

  // ---- Counting the items found ----

  /** When the next line is no marker, the list ends before it. */
  lemma StopsHere(lines: seq<string>, first: ListMarker)
    requires lines != [] && ParseListMarker(lines[0]).None?
    ensures ScanItems(lines, first) == ([], 0)
  {
  }

  lemma RuleStops<T>(
    kind: ListKind, number: nat, items: seq<Item<T>>, width: nat, first: ListMarker, show: seq<T> -> string, good: seq<T> -> bool)
    requires items != [] && WfItems(items, show, good) && width > 0
    requires IsThematicBreak(MarkerText(kind, number, items[0].checked) + Inner(items[0].blocks, show)[0])
    ensures var lines := ItemsAt(kind, number, items, 0, 0, show) + [""];
            Stops(lines, width) && Swallowed(lines) == [] && ScanItems(lines, first) == ([], 0)
  {
    hide ParseListMarker, IsThematicBreak, MarkerText, Inner, HeadOk, ScanItems;
    var line := MarkerText(kind, number, items[0].checked) + Inner(items[0].blocks, show)[0];
    MarkerHead(kind, number, items[0].checked, Inner(items[0].blocks, show)[0]);
    FirstItemAt(kind, number, items, [""], show);
    var lines := ItemsAt(kind, number, items, 0, 0, show) + [""];
    assert lines[0] == line;
    AtMargin(line);
    IndentedByAt(0, line);
    RuleIsNoMarker(line);
    MarkerStarts(line);
    StopsHere(lines, first);
    BlankIsNothing();
  }

  lemma RuleIsNoMarker(line: string)
    requires IsThematicBreak(line)
    ensures ParseListMarker(line).None?
  {
  }

  /** A number of ten digits and all after it sink into the item before. */
  lemma LongNumberSinks<T>(
    number: nat, items: seq<Item<T>>, first: ListMarker, show: seq<T> -> string, good: seq<T> -> bool)
    requires |items| > 1 && WfItems(items, show, good) && SameList(Ordered, 0, first)
    requires Marks(Ordered, number, items[0].checked, Inner(items[0].blocks, show)[0]) && number + 1 >= 1_000_000_000
    ensures |ScanItems(ItemsAt(Ordered, number, items, 0, 0, show) + [""], first).0| == 1
  {
    hide ParseListMarker, StartsNewBlock, Blank, ItemsAt, Indented, Inner, MarkerText, At, ScanBody, FirstOfItem, IsThematicBreak, WfContent;
    var inner, marker := Inner(items[0].blocks, show), MarkerText(Ordered, number, items[0].checked);
    TidyContent(items[0].blocks, show, good);
    InnerTail(inner);
    MarkerBack(Ordered, number, items[0].checked, inner[0]);
    MarkerWidths(Ordered, number, items[0].checked, inner[0]);
    MarkerSort(Ordered, number, items[0].checked, inner[0]);
    NineDigits();
    ItoaLength(number, 9);
    var width := ContentColumn(Ordered, number);
    LongItemsSink(number + 1, items[1..], width, show, good);
    var more := ItemsAt(Ordered, number + 1, items[1..], 0, 0, show) + [""];
    IndentedSinks(|marker|, inner[1..], more, width);
    FirstItemAt(Ordered, number, items, [""], show);
    var lines := ItemsAt(Ordered, number, items, 0, 0, show) + [""];
    assert lines[1..] == Indented(|marker|, inner[1..]) + more;
    ScanBodySinks(lines[1..], width);
    MarkerAtMargin(Ordered, number, items[0].checked, inner[0]);
    OnlyOneItem(lines, first);
  }

  lemma MarkerAtMargin(kind: ListKind, number: nat, checked: bool, head: string)
    ensures Marker(kind, number, checked, head).indent == 0
  {
  }

  lemma OnlyOneItem(lines: seq<string>, first: ListMarker)
    requires lines != [] && ContinuesList(ParseListMarker(lines[0]), first)
    requires ScanBody(lines[1..], ParseListMarker(lines[0]).value.contentIndent).1 == |lines| - 1
    ensures |ScanItems(lines, first).0| == 1
  {
    hide ParseListMarker, ScanBody, FirstOfItem;
    assert lines[|lines|..] == [];
    assert ScanItems([], first) == ([], 0);
  }

  /** If the parser finds as many items as were printed, all of them are marked. */
  lemma {:induction false} ScanCount<T>(
    kind: ListKind, number: nat, items: seq<Item<T>>, first: ListMarker, show: seq<T> -> string, good: seq<T> -> bool)
    requires items != [] && WfItems(items, show, good) && SameList(kind, 0, first)
    requires Marks(kind, number, items[0].checked, Inner(items[0].blocks, show)[0])
    requires |ScanItems(ItemsAt(kind, number, items, 0, 0, show) + [""], first).0| == |items|
    ensures AllMark(kind, number, items, show)
    decreases |items|
  {
    hide ScanItems, WfContent, Inner, MarkerText, Stops, Swallowed, FirstOfItem, ItemsAt, SameList, Indented, IsThematicBreak, TidyTail, Unindented;
    if |items| > 1 {
      var inner, marker := Inner(items[0].blocks, show), MarkerText(kind, number, items[0].checked);
      var width := ContentColumn(kind, number);
      var more := ItemsAt(kind, number + 1, items[1..], 0, 0, show) + [""];
      TidyContent(items[0].blocks, show, good);
      InnerTail(inner);
      ItemsAtStep(kind, number, items, 0, 0, show);
      ItemsAtConcat(kind, number, items, show);
      var next := Inner(items[1].blocks, show)[0];
      assert more[0..] == more;
      if Marks(kind, number + 1, items[1].checked, next) {
        NextItemStops(kind, number + 1, items[1..], 0, width, [""], show, good);
        ScanPrintedItem(kind, number, items[0].checked, inner, 0, 0, more, first);
        ScanCount(kind, number + 1, items[1..], first, show, good);
      } else if IsThematicBreak(MarkerText(kind, number + 1, items[1].checked) + next) {
        RuleStops(kind, number + 1, items[1..], width, first, show, good);
        ScanPrintedItem(kind, number, items[0].checked, inner, 0, 0, more, first);
        assert false;
      } else {
        LongNumberSinks(number, items, first, show, good);
        assert false;
      }
    } else {
      assert items[1..] == [];
    }
  }

  lemma ItemsAtConcat<T>(kind: ListKind, number: nat, items: seq<Item<T>>, show: seq<T> -> string)
    requires |items| > 1
    ensures var head := ItemAt(0, 0, MarkerText(kind, number, items[0].checked), Inner(items[0].blocks, show));
            ItemsAt(kind, number, items, 0, 0, show) + [""] == head + (ItemsAt(kind, number + 1, items[1..], 0, 0, show) + [""])
  {
    hide ItemAt, MarkerText, Inner;
  }

  lemma {:induction false} LastNumber<T>(number: nat, items: seq<Item<T>>, show: seq<T> -> string)
    requires items != [] && AllMark(Ordered, number, items, show)
    ensures number + |items| <= 1_000_000_000
    decreases |items|
  {
    hide Inner, IsThematicBreak;
    if |items| > 1 { LastNumber(number + 1, items[1..], show); }
  }

  // ---- A task marker that was none ----

  /** "read" sees that the marker of a task is missing from a paragraph's first line. */
  ghost predicate NoticesTasks<T(!new)>(show: seq<T> -> string, read: string -> seq<T>, good: seq<T> -> bool) {
    forall text | good(text) :: NoticesTask(text, show, read)
  }

  ghost predicate NoticesTask<T(!new)>(text: seq<T>, show: seq<T> -> string, read: string -> seq<T>) {
    var lines := Split(show(text), '\n');
    TaskMarker(lines[0]).Some? ==>
      var content := TaskMarker(lines[0]).value.content;
      read(Join((if Blank(content) then [] else [content]) + lines[1..], "\n")) != text
  }

  /** Only a paragraph begins with a bracket. */
  lemma OnlyParagraph<T>(b: Block<T>, show: seq<T> -> string, good: seq<T> -> bool)
    requires WfBlock(b, show, good)
    ensures Core(b, show) != [] && Core(b, show)[0] != ""
    ensures Core(b, show)[0][0] == '[' ==> b.Para?
  {
    hide SanitizeLanguage, WithoutClosingHashes, TableHead, ItemsOk, WfContent, WfItems, MarkerText;
    TidyCore(b, show, good);
    match b
    case Para(text) =>
    case Heading(level, text) => SplitOne(Repeat('#', level) + " " + show(text), '\n');
    case Code(language, source) => CodeFirstLine(language, source, show);
    case Rule =>
    case Quote(blocks) => PrefixedLine("> ", Inner(blocks, show), 0);
    case List(kind, start, items) => NoBracket(kind, start, items[0].checked, Inner(items[0].blocks, show)[0]);
    case Table(align, rows) => ColumnsOfGrid(rows, |align|, show, good);
  }

  lemma NoBracket(kind: ListKind, number: nat, checked: bool, head: string)
    ensures (MarkerText(kind, number, checked) + head)[0] != '['
  {
  }

  lemma TaskHead(line: string)
    requires TaskMarker(line).Some?
    ensures line != "" && line[0] == '['
  {
  }

  /** A task marker's content does not begin with a blank. */
  lemma ContentHead(line: string)
    requires TaskMarker(line).Some?
    ensures var c := TaskMarker(line).value.content; c != "" ==> c[0] != ' ' && c[0] != '\t'
  {
  }

  /** Lines of a paragraph without the marker in front: no such paragraph comes back. */
  lemma CutParagraph<T(!new)>(
    text: seq<T>, head: string, more: seq<string>, rest: seq<string>, depth: nat, read: string -> seq<T>)
    requires text != [] && Continues(more) && (rest == [] || rest[0] == "")
    requires head != "" ==> head[0] != ' ' && head[0] != '\t'
    requires read(Join((if Blank(head) then [] else [head]) + more, "\n")) != text
    requires Blank(head) ==> more == [] || !StartsTable(more)
    ensures var blocks := ParseBlocks([head] + more + rest, depth, read);
            blocks == ParseBlocks(rest, depth, read) || (blocks != [] && blocks[0] != Para(text))
  {
    hide StartsTable, StartsNewBlock, SetextHeading, ParseBlock, Join, ParseBlocks, Blank;
    var lines := [head] + more + rest;
    assert lines[1..] == more + rest;
    if Blank(head) {
      SkipBlank(lines, depth, read);
      if more == [] {
        assert more + rest == rest;
      } else {
        assert [] + more == more == [more[0]] + more[1..];
        HeadNotBlank(more);
        WholeParagraph(text, more[0], more[1..], rest, depth, read);
        assert [more[0]] + more[1..] == more;
      }
    } else {
      BlankIsNothing();
      WholeParagraph(text, head, more, rest, depth, read);
    }
  }

  lemma HeadNotBlank(more: seq<string>)
    requires Continues(more) && more != []
    ensures !Blank(more[0]) && more[0] != "" && more[0][0] != ' ' && more[0][0] != '\t' && Continues(more[1..])
  {
  }

  lemma SkipBlank<T>(lines: seq<string>, depth: nat, read: string -> seq<T>)
    requires lines != [] && Blank(lines[0])
    ensures ParseBlocks(lines, depth, read) == ParseBlocks(lines[1..], depth, read)
  {
  }

  lemma WholeParagraph<T(!new)>(
    text: seq<T>, head: string, more: seq<string>, rest: seq<string>, depth: nat, read: string -> seq<T>)
    requires !Blank(head) && head != "" && head[0] != ' ' && head[0] != '\t' && Continues(more) && (rest == [] || rest[0] == "")
    requires text != [] && read(Join([head] + more, "\n")) != text
    ensures var blocks := ParseBlocks([head] + more + rest, depth, read);
            blocks == ParseBlocks(rest, depth, read) || (blocks != [] && blocks[0] != Para(text))
  {
    hide StartsTable, StartsNewBlock, SetextHeading, ParseBlock, Join, Blank;
    var lines := [head] + more + rest;
    var taken := ParseBlock(lines, depth, read);
    assert lines[0] == head;
    ParagraphOrOther(lines, depth, read);
    if taken == ParseParagraph(lines, read) {
      HeadScan(head, more, rest);
      assert lines[1 + |more|..] == rest;
      assert [] + ParseBlocks(rest, depth, read) == ParseBlocks(rest, depth, read);
    }
  }

  /** Either the lines are tried as a paragraph or a block of another kind is found. */
  lemma ParagraphOrOther<T>(lines: seq<string>, depth: nat, read: string -> seq<T>)
    requires lines != [] && !Blank(lines[0]) && lines[0] != "" && lines[0][0] != ' ' && lines[0][0] != '\t'
    ensures var taken := ParseBlock(lines, depth, read);
            taken == ParseParagraph(lines, read) || (taken.block.Some? && !taken.block.value.Para?)
  {
    hide CodeFence, AtxHeading, IsThematicBreak, IsBlockquoteLine, ParseListMarker, StartsTable, SplitTableRow, ScanItems,
         ParseItems, ScanQuote, ParseBlocks, Join, ParseParagraph, Blank;
    NotIndentedCode(lines[0]);
  }

  lemma HeadScan(head: string, more: seq<string>, rest: seq<string>)
    requires !Blank(head) && head != "" && head[0] != ' ' && Continues(more) && (rest == [] || rest[0] == "")
    ensures ScanParagraph([head] + more + rest, true) == ParagraphScan([head] + more, 1 + |more|, None)
  {
    hide StartsTable, StartsNewBlock, SetextHeading, Blank, Continues, HeadOk;
    var lines := [head] + more + rest;
    assert lines[1..] == more + rest;
    assert ScanParagraph(more + rest, false) == ParagraphScan(more, |more|, None) by {
      ContinuesBack(more, 0, rest);
      StaysAtMargin(more);
    }
    OneLineScan(lines, ParagraphScan(more, |more|, None));
  }

  lemma StaysAtMargin(lines: seq<string>)
    requires Continues(lines)
    ensures Indented(0, lines) == lines
  {
    hide Continues, HeadOk, Blank;
    ContinuesHeads(lines);
    HeadsVisible(lines);
    IndentedNothing(lines);
  }

  lemma OneLineScan(lines: seq<string>, scan: ParagraphScan)
    requires lines != [] && !Blank(lines[0]) && lines[0] != "" && lines[0][0] != ' ' && ScanParagraph(lines[1..], false) == scan
    ensures ScanParagraph(lines, true) == ParagraphScan([lines[0]] + scan.body, 1 + scan.consumed, scan.level)
  {
    hide StartsTable, StartsNewBlock, SetextHeading, Blank;
    TrimLeftNothing(lines[0], {' '});
  }

  lemma HeadsVisible(lines: seq<string>)
    requires forall line | line in lines :: HeadOk(line)
    ensures forall line | line in lines :: !Blank(line)
  {
  }

  /** An item that begins like a task, in a list that is none, does not come back. */
  lemma TaskIsNoticed<T(!new)>(
    blocks: seq<Block<T>>, tail: seq<string>, depth: nat,
    show: seq<T> -> string, read: string -> seq<T>, good: seq<T> -> bool)
    requires Faithful(show, read, good) && NoticesTasks(show, read, good) && WfContent(blocks, show, good)
    requires (tail == [] || tail == [""]) && depth + NestBlocks(blocks) <= MAX_DEPTH
    requires TaskMarker(Inner(blocks, show)[0]).Some?
    ensures var inner := Inner(blocks, show);
            OrEmptyParagraph(ParseBlocks([TaskMarker(inner[0]).value.content] + inner[1..] + tail, depth, read)) != blocks
  {
    hide Faithful, NoticesTasks, TaskMarker, ParseBlocks, Core, Inner, WfBlock, Moved, RestOf, NoticesTask, Continues,
         StartsTable, RestAt, Tidy, BlocksLines, BlockLines;
    var inner := Inner(blocks, show);
    TidyContent(blocks, show, good);
    if blocks == [Para([])] { EmptyIsNoTask(); assert false; }
    var core, rest := Core(blocks[0], show), RestOf(blocks, 0, tail, show);
    CoreAndRest(blocks, tail, show, good);
    TaskHead(inner[0]);
    OnlyParagraph(blocks[0], show, good);
    var text, c := blocks[0].text, TaskMarker(inner[0]).value.content;
    ParagraphCore(text, show, good);
    Noticed(text, show, read, good);
    TaskNoticed(text, show, read);
    assert [c] + inner[1..] + tail == [c] + core[1..] + rest by { SameTails(c, inner, tail, core, rest); }
    ContentHead(inner[0]);
    RestBlank(blocks, tail, show);
    CutParagraph(text, c, core[1..], rest, depth, read);
    AfterFirst(blocks, tail, depth, show, read, good);
  }

  lemma TaskNoticed<T(!new)>(text: seq<T>, show: seq<T> -> string, read: string -> seq<T>)
    requires NoticesTask(text, show, read) && TaskMarker(Split(show(text), '\n')[0]).Some?
    ensures var lines := Split(show(text), '\n');
            var content := TaskMarker(lines[0]).value.content;
            read(Join((if Blank(content) then [] else [content]) + lines[1..], "\n")) != text
  {
  }

  lemma SameTails(c: string, inner: seq<string>, tail: seq<string>, core: seq<string>, rest: seq<string>)
    requires inner != [] && core != [] && inner + tail == core + rest
    ensures [c] + inner[1..] + tail == [c] + core[1..] + rest
  {
    assert inner[1..] + tail == (inner + tail)[1..] == (core + rest)[1..] == core[1..] + rest;
    assert [c] + inner[1..] + tail == [c] + (inner[1..] + tail) && [c] + core[1..] + rest == [c] + (core[1..] + rest);
  }

  /** At the margin, blocks print as the first of them and the rest. */
  lemma CoreAndRest<T>(blocks: seq<Block<T>>, tail: seq<string>, show: seq<T> -> string, good: seq<T> -> bool)
    requires blocks != [] && WfBlocks(blocks, show, good) && (tail == [] || tail == [""])
    ensures var inner, core, rest := Inner(blocks, show), Core(blocks[0], show), RestOf(blocks, 0, tail, show);
            core != [] && inner + tail == core + rest && core[0] == inner[0]
  {
    hide Core, Inner, WfBlock, Moved, RestOf, RestAt;
    var inner, core := Inner(blocks, show), Core(blocks[0], show);
    InnerOfBlocks(blocks, show, good);
    TidyCore(blocks[0], show, good);
    BlocksMoved(blocks, 0, 0, tail, show, good);
    MovedNothing(inner);
    MovedNothing(core);
    assert (inner + tail)[0] == inner[0] && (core + RestOf(blocks, 0, tail, show))[0] == core[0];
  }

  lemma EmptyIsNoTask()
    ensures TaskMarker("").None?
  {
  }

  lemma ParagraphCore<T>(text: seq<T>, show: seq<T> -> string, good: seq<T> -> bool)
    requires WfBlock(Para(text), show, good)
    ensures var core := Core(Para(text), show);
            && core == Split(show(text), '\n') && text != [] && good(text)
            && Continues(core[1..]) && (core[1..] == [] || !StartsTable(core[1..]))
  {
    hide StartsTable, StartsNewBlock, TableHead, SetextHeading, Split, Blank, HeadOk;
    TidyParagraph(show(text));
  }

  lemma Noticed<T(!new)>(text: seq<T>, show: seq<T> -> string, read: string -> seq<T>, good: seq<T> -> bool)
    requires NoticesTasks(show, read, good) && good(text)
    ensures NoticesTask(text, show, read)
  {
  }

  lemma RestBlank<T>(blocks: seq<Block<T>>, tail: seq<string>, show: seq<T> -> string)
    requires blocks != [] && (tail == [] || tail == [""])
    ensures var rest := RestOf(blocks, 0, tail, show); rest == [] || rest[0] == ""
  {
  }

  /** The blocks after the first read back on their own. */
  lemma AfterFirst<T(!new)>(
    blocks: seq<Block<T>>, tail: seq<string>, depth: nat,
    show: seq<T> -> string, read: string -> seq<T>, good: seq<T> -> bool)
    requires Faithful(show, read, good) && blocks != [] && WfBlocks(blocks, show, good) && (tail == [] || tail == [""])
    requires depth + NestBlocks(blocks) <= MAX_DEPTH
    ensures ParseBlocks(RestOf(blocks, 0, tail, show), depth, read) == blocks[1..]
  {
    hide Faithful, ParseBlocks, Inner, WfBlock, Moved, Shifts, StartHangs;
    if |blocks| == 1 {
      NothingBack(tail, depth, read);
    } else {
      BlocksBack(blocks[1..], 0, 0, tail, depth, show, read, good);
      BlankLine(Moved(0, 0, Inner(blocks[1..], show)) + tail, depth, read);
    }
  }

  // ---- The theorem ----

  lemma {:induction false} ItemsConverse<T(!new)>(
    kind: ListKind, number: nat, items: seq<Item<T>>, tail: seq<string>, depth: nat,
    show: seq<T> -> string, read: string -> seq<T>, good: seq<T> -> bool)
    requires Faithful(show, read, good) && NoticesTasks(show, read, good) && WfItems(items, show, good)
    requires AllMark(kind, number, items, show) && (tail == [] || tail == [""]) && depth + 1 + NestItems(items) <= MAX_DEPTH
    requires ParseItems(RawItems(kind, number, items, 0, tail, show), kind, depth, read) == items
    ensures ItemsOk(kind, number, items, show)
    decreases |items|
  {
    hide Faithful, NoticesTasks, ParseBlocks, WfContent, Inner, MarkerText, OrEmptyParagraph, RawItems, IsThematicBreak, Hangs,
         TaskMarker, Indented, FirstOfItem, Marker;
    if items != [] {
      var raw := RawItems(kind, number, items, 0, tail, show);
      var own := if |items| == 1 then tail else [];
      RawItemsStep(kind, number, items, 0, tail, show);
      if |items| == 1 { assert items[1..] == []; NoRawItems(kind, number + 1, items[1..], tail, show); }
      assert raw[1..] == RawItems(kind, number + 1, items[1..], 0, tail, show);
      ItemsConverse(kind, number + 1, items[1..], tail, depth, show, read, good);
      assert items[0].checked == (kind == Task && raw[0].checked.Some? && raw[0].checked.value);
      assert OrEmptyParagraph(ParseBlocks(raw[0].body, depth + 1, read)) == items[0].blocks;
      ItemConverse(kind, number, items[0], raw[0], own, depth, show, read, good);
    }
  }

  lemma NoRawItems<T>(kind: ListKind, number: nat, items: seq<Item<T>>, tail: seq<string>, show: seq<T> -> string)
    requires items == []
    ensures RawItems(kind, number, items, 0, tail, show) == []
  {
  }

  lemma ItemConverse<T(!new)>(
    kind: ListKind, number: nat, item: Item<T>, raw: RawItem, own: seq<string>, depth: nat,
    show: seq<T> -> string, read: string -> seq<T>, good: seq<T> -> bool)
    requires Faithful(show, read, good) && NoticesTasks(show, read, good) && WfContent(item.blocks, show, good)
    requires (own == [] || own == [""]) && depth + 1 + NestBlocks(item.blocks) <= MAX_DEPTH
    requires var inner := Inner(item.blocks, show);
             raw == FirstOfItem(Marker(kind, number, item.checked, inner[0]).content, Indented(ExtraOf(kind), inner[1..]) + own)
    requires OrEmptyParagraph(ParseBlocks(raw.body, depth + 1, read)) == item.blocks
    requires item.checked == (kind == Task && raw.checked.Some? && raw.checked.value)
    ensures if kind == Task then Hangs(item.blocks, TASK_EXTRA)
            else TaskMarker(Inner(item.blocks, show)[0]).None? && !item.checked
  {
    hide Faithful, NoticesTasks, ParseBlocks, WfContent, Inner, OrEmptyParagraph, Hangs, TaskMarker, Indented, Hung, Tidy;
    var inner := Inner(item.blocks, show);
    TidyContent(item.blocks, show, good);
    InnerTail(inner);
    if kind == Task {
      TaskBack(item.checked, inner[0]);
      assert raw.body == Hung(TASK_EXTRA, inner) + own by { HungBody(TASK_EXTRA, inner, own); }
      ContentConverse(item.blocks, TASK_EXTRA, own, depth + 1, show, read, good);
    } else if TaskMarker(inner[0]).Some? {
      assert Indented(0, inner[1..]) == inner[1..] by { TailAtMargin(inner); }
      var c := TaskMarker(inner[0]).value.content;
      assert raw.body == [c] + (inner[1..] + own) == [c] + inner[1..] + own;
      TaskIsNoticed(item.blocks, own, depth + 1, show, read, good);
      assert false;
    }
  }

  lemma HungBody(extra: nat, inner: seq<string>, own: seq<string>)
    requires inner != []
    ensures [inner[0]] + (Indented(extra, inner[1..]) + own) == Hung(extra, inner) + own
  {
    hide Indented;
  }

  lemma TailAtMargin(inner: seq<string>)
    requires inner == [""] || Tidy(inner)
    ensures Indented(0, inner[1..]) == inner[1..]
  {
    HungAtMargin(inner);
    assert Hung(0, inner)[1..] == Indented(0, inner[1..]);
  }

  /** The lines of a list whose number, if it has one, was raised to one. */
  lemma PrintedList<T>(kind: ListKind, start: int, items: seq<Item<T>>, show: seq<T> -> string, good: seq<T> -> bool)
    requires items != [] && WfItems(items, show, good)
    ensures var n := if start < 1 then 1 else start;
            BlockLines(List(kind, start, items), show) == ItemsAt(kind, n, items, 0, 0, show) + [""]
  {
    hide Moved, ItemsAt, ItemsLines, Tidy, WfItems;
    var n := if start < 1 then 1 else start;
    ItemsMoved(kind, n, items, 0, 0, show, good);
    TidyItems(kind, n, items, show, good);
    MovedNothing(ItemsLines(kind, n, items, show));
  }

  /** What the first line of a list that comes back cannot be. */
  lemma FirstMarks<T(!new)>(
    kind: ListKind, start: int, items: seq<Item<T>>, depth: nat, show: seq<T> -> string, read: string -> seq<T>, good: seq<T> -> bool)
    requires items != [] && WfItems(items, show, good) && depth < MAX_DEPTH
    requires ParseBlocks(BlockLines(List(kind, start, items), show), depth, read) == [List(kind, start, items)]
    ensures var n := if start < 1 then 1 else start;
            && Marks(kind, n, items[0].checked, Inner(items[0].blocks, show)[0])
            && !TableHead(ItemsLines(kind, n, items, show))
  {
    hide ParseBlocks, ParseBlock, TableHead, IsThematicBreak, MarkerText, Inner, ItemsAt, ItemsLines, HeadOk, Moved;
    var n := if start < 1 then 1 else start;
    var inner := Inner(items[0].blocks, show);
    var line := MarkerText(kind, n, items[0].checked) + inner[0];
    PrintedList(kind, start, items, show, good);
    var lines := ItemsAt(kind, n, items, 0, 0, show) + [""];
    FirstItemAt(kind, n, items, [""], show);
    assert lines[0] == line;
    MarkerHead(kind, n, items[0].checked, inner[0]);
    ItemsMoved(kind, n, items, 0, 0, show, good);
    TableHeadMoved(0, 0, ItemsLines(kind, n, items, show), [""]);
    if IsThematicBreak(line) || TableHead(lines) {
      AnotherBlock(lines, line, depth, read);
      FirstParsed(lines, depth, read);
    }
    NumbersRead(lines, depth, read);
    assert List(kind, start, items) in ParseBlocks(lines, depth, read);
  }

  lemma AnotherBlock<T>(lines: seq<string>, line: string, depth: nat, read: string -> seq<T>)
    requires lines != [] && lines[0] == line && (IsThematicBreak(line) || TableHead(lines))
    requires line != "" && !IsSpace(line[0]) && line[0] != '`' && line[0] != '~' && line[0] != '#' && line[0] != '>'
    ensures !Blank(lines[0]) && ParseBlock(lines, depth, read).block.Some? && !ParseBlock(lines, depth, read).block.value.List?
  {
    hide CodeFence, AtxHeading, IsThematicBreak, IsBlockquoteLine, StartsTable, SplitTableRow;
    OtherThan(line);
  }

  lemma FirstParsed<T>(lines: seq<string>, depth: nat, read: string -> seq<T>)
    requires lines != [] && !Blank(lines[0]) && ParseBlock(lines, depth, read).block.Some?
    ensures var blocks := ParseBlocks(lines, depth, read);
            blocks != [] && blocks[0] == ParseBlock(lines, depth, read).block.value
  {
    hide ParseBlock, Blank;
  }

  /** How the parser begins on a printed list. */
  lemma ListFound<T(!new)>(
    kind: ListKind, n: nat, items: seq<Item<T>>, depth: nat, show: seq<T> -> string, read: string -> seq<T>, good: seq<T> -> bool)
    requires items != [] && WfItems(items, show, good) && depth < MAX_DEPTH
    requires Marks(kind, n, items[0].checked, Inner(items[0].blocks, show)[0]) && !TableHead(ItemsLines(kind, n, items, show))
    ensures var lines := ItemsAt(kind, n, items, 0, 0, show) + [""];
            var first := Marker(kind, n, items[0].checked, Inner(items[0].blocks, show)[0]);
            var scan := ScanItems(lines, first);
            && lines != [] && !Blank(lines[0]) && SameList(kind, 0, first) && scan.0 != []
            && var found := if scan.0[0].checked.Some? then Task else if kind == Ordered then Ordered else Bullet;
            ParseBlock(lines, depth, read)
            == Taken(Some(List(found, if found == Ordered then n else 1, ParseItems(scan.0, found, depth, read))), scan.1)
  {
    hide ParseBlock, TableHead, MarkerText, Inner, ItemsAt, ItemsLines, ScanItems, ParseItems, ParseListMarker, WfContent,
         IsThematicBreak, HeadOk, Marker, Blank;
    var inner := Inner(items[0].blocks, show);
    var lines := ItemsAt(kind, n, items, 0, 0, show) + [""];
    var line := MarkerText(kind, n, items[0].checked) + inner[0];
    TidyContent(items[0].blocks, show, good);
    InnerTail(inner);
    MarkerHead(kind, n, items[0].checked, inner[0]);
    MarkerBack(kind, n, items[0].checked, inner[0]);
    MarkerWidths(kind, n, items[0].checked, inner[0]);
    MarkerSort(kind, n, items[0].checked, inner[0]);
    MarkerAtMargin(kind, n, items[0].checked, inner[0]);
    StartOf(kind, n, items[0].checked, inner[0]);
    FirstItemAt(kind, n, items, [""], show);
    AtMargin(line);
    ListNoTable(kind, n, items, 0, 0, [""], show, good);
    ListDispatch(lines, 0, line, depth, read);
  }

  lemma OnlyOkReadsBack<T(!new)>(
    kind: ListKind, start: int, items: seq<Item<T>>, depth: nat,
    show: seq<T> -> string, read: string -> seq<T>, good: seq<T> -> bool)
    requires Faithful(show, read, good) && NoticesTasks(show, read, good) && WfItems(items, show, good) && items != []
    requires depth + 1 + NestItems(items) <= MAX_DEPTH
    requires ParseBlocks(BlockLines(List(kind, start, items), show), depth, read) == [List(kind, start, items)]
    ensures ListOk(kind, start, items, show)
  {
    hide Faithful, NoticesTasks, ParseBlocks, ParseBlock, TableHead, Inner, ItemsAt, ItemsLines, ScanItems, ParseItems,
         WfItems, RawItems, ItemsOk, Marks, AllMark, BlockLines, Marker, SameList, Blank, Reaches, Swallowed;
    var n := if start < 1 then 1 else start;
    FirstMarks(kind, start, items, depth, show, read, good);
    PrintedList(kind, start, items, show, good);
    var lines := ItemsAt(kind, n, items, 0, 0, show) + [""];
    var first := Marker(kind, n, items[0].checked, Inner(items[0].blocks, show)[0]);
    ListFound(kind, n, items, depth, show, read, good);
    FirstParsed(lines, depth, read);
    ScanCount(kind, n, items, first, show, good);
    if kind == Ordered { LastNumber(n, items, show); }
    ReachesAtMargin(kind, n, |items| > 1 || |[""]| > 1);
    assert RestAt([""], 0) && Swallowed([""]) == [""] by { LastBlank(); }
    ScanItemsBack(kind, n, items, 0, 0, first, [""], show, good);
    ItemsConverse(kind, n, items, [""], depth, show, read, good);
  }

  lemma ReachesAtMargin(kind: ListKind, n: nat, more: bool)
    ensures Reaches(kind, n, 0, 0, more)
  {
  }

  lemma LastBlank()
    ensures RestAt([""], 0) && Swallowed([""]) == [""]
  {
  }

  lemma OkReadsBack<T(!new)>(
    kind: ListKind, start: int, items: seq<Item<T>>, depth: nat,
    show: seq<T> -> string, read: string -> seq<T>, good: seq<T> -> bool)
    requires Faithful(show, read, good) && WfItems(items, show, good) && ListOk(kind, start, items, show)
    requires depth + 1 + NestItems(items) <= MAX_DEPTH
    ensures ParseBlocks(BlockLines(List(kind, start, items), show), depth, read) == [List(kind, start, items)]
  {
    hide Faithful, ParseBlocks, WfItems, ReadsBack, Moved, ListOk;
    var b := List(kind, start, items);
    TidyCore(b, show, good);
    MovedNothing(Core(b, show));
    BlockBack(b, 0, 0, [""], depth, show, read, good);
    ParseStep(b, 0, 0, [""], depth, show, read);
    NothingBack([""], depth, read);
  }

  /** A printed list of well-formed items comes back as it was if and only if it is not
      empty, its numbers stay below ten digits and its other start is one, its first two
      lines are no table, no item's first line turns into a rule or a task, none but a
      task is checked, and what a task holds may stand four columns too far right. */
  lemma ListExactly<T(!new)>(
    kind: ListKind, start: int, items: seq<Item<T>>, depth: nat,
    show: seq<T> -> string, read: string -> seq<T>, good: seq<T> -> bool)
    requires Faithful(show, read, good) && NoticesTasks(show, read, good) && WfItems(items, show, good)
    requires depth + 1 + NestItems(items) <= MAX_DEPTH
    ensures ParseBlocks(BlockLines(List(kind, start, items), show), depth, read) == [List(kind, start, items)]
        <==> ListOk(kind, start, items, show)
  {
    hide Faithful, NoticesTasks, ItemsOk, TableHead;
    if ListOk(kind, start, items, show) {
      OkReadsBack(kind, start, items, depth, show, read, good);
    } else if items == [] {
      assert BlockLines(List(kind, start, items), show) == [""];
      NothingBack([""], depth, read);
    } else if ParseBlocks(BlockLines(List(kind, start, items), show), depth, read) == [List(kind, start, items)] {
      OnlyOkReadsBack(kind, start, items, depth, show, read, good);
    }
  }
}
