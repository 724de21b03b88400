/** What does not meet the conditions of the round trip does not come back: content
    that stands too far right. */
module MarkdownConverse {
  import opened Text
  import opened MarkdownSyntax
  import opened MarkdownBlocks
  import opened MarkdownColumns
  import opened MarkdownRoundTrip
  import opened MarkdownReadBack
  import opened MarkdownTheorem

  // ---- Code that moved ----

  lemma {:induction false} SplitJoined(a: string, b: string)
    ensures |Split(a + "\n" + b, '\n')| == |Split(a, '\n')| + |Split(b, '\n')|
  {
    var s := a + "\n" + b;
    if a == "" {
      assert s[1..] == b;
    } else {
      assert s[1..] == a[1..] + "\n" + b;
      SplitJoined(a[1..], b);
    }
  }

  /** Joined lines fall into at least as many again. */
  lemma {:induction false} JoinedLines(lines: seq<string>)
    requires lines != []
    ensures |Split(Join(lines, "\n"), '\n')| >= |lines|
  {
    if |lines| > 1 {
      SplitJoined(lines[0], Join(lines[1..], "\n"));
      JoinedLines(lines[1..]);
    }
  }

  lemma JoinStep(lines: seq<string>)
    requires |lines| > 1
    ensures |Join(lines, "\n")| == |lines[0]| + 1 + |Join(lines[1..], "\n")|
  {
  }

  lemma {:induction false} JoinLonger(column: nat, lines: seq<string>)
    requires column > 0 && lines != [] && forall line | line in lines :: Blank(line) ==> line == ""
    ensures |Join(Indented(column, lines), "\n")| >= |Join(lines, "\n")|
    ensures (exists line :: line in lines && line != "") ==> |Join(Indented(column, lines), "\n")| > |Join(lines, "\n")|
  {
    hide Blank, Join;
    var moved := Indented(column, lines);
    BlankIsNothing();
    assert lines[0] in lines && |moved[0]| == if lines[0] == "" then 0 else column + |lines[0]|;
    if |lines| == 1 {
      OneLineJoined(lines);
      OneLineJoined(moved);
    } else {
      assert moved[1..] == Indented(column, lines[1..]);
      assert forall line | line in lines[1..] :: line in lines;
      JoinLonger(column, lines[1..]);
      JoinStep(lines);
      JoinStep(moved);
      if line :| line in lines && line != "" {
        assert lines == [lines[0]] + lines[1..];
      }
    }
  }

  lemma OneLineJoined(lines: seq<string>)
    requires |lines| == 1
    ensures Join(lines, "\n") == lines[0]
  {
  }

  /** Code whose lines moved is read with its lines longer. */
  lemma CodeMisfits<T(!new)>(
      language: string, source: string, column: nat, rest: seq<string>, depth: nat,
      show: seq<T> -> string, read: string -> seq<T>, good: seq<T> -> bool)
    requires WfBlock(Code(language, source), show, good) && column > 0
    requires exists line :: line in Split(source, '\n') && line != ""
    ensures var lines := Moved(0, column, Core(Code(language, source), show)) + rest;
            && !Blank(lines[0])
            && var taken := ParseBlock(lines, depth, read);
            taken.block.Some? && taken.block.value != Code(language, source)
  {
    hide ParseBlock, Moved, SanitizeLanguage, Join, Core;
    CodeRead(language, source, column, rest, depth, show, read, good);
    JoinLonger(column, Split(source, '\n'));
    JoinSplit(source, '\n');
  }

  // ---- Blocks that became indented code ----

  /** Lines far enough right are code unless they are a rule, a quote, a table or a list. */
  lemma IndentedDispatch<T>(lines: seq<string>, column: nat, line: string, depth: nat, read: string -> seq<T>)
    requires lines != [] && lines[0] == At(column, line) && column >= 4
    requires HeadOk(line) && line[0] != '>' && !IsThematicBreak(line) && !TableHead(lines)
    requires ParseListMarker(lines[0]).None?
    ensures !Blank(lines[0])
    ensures ParseBlock(lines, depth, read)
         == Taken(Some(Code("", Join(ScanIndented(lines, 0).0, "\n"))), ScanIndented(lines, 0).1)
  {
    hide CodeFence, AtxHeading, IsBlockquoteLine, IsThematicBreak, ParseListMarker, StartsTable, SplitTableRow, ScanIndented, Join, Blank;
    FenceAt(column, line);
    SameTrimmed(column, line);
    QuoteAt(column, line);
    TrimSpaceAt(column, line);
    FourColumns(column, line);
  }

  lemma ScanIndentedStep(line: string, more: seq<string>, pending: nat)
    ensures Blank(line) ==>
              var rest := ScanIndented(more, pending + 1);
              ScanIndented([line] + more, pending).0 == rest.0
    ensures !Blank(line) && IsIndentedCodeLine(line) ==>
              |ScanIndented([line] + more, pending).0| == pending + 1 + |ScanIndented(more, 0).0|
  {
    hide Blank, IsIndentedCodeLine, WithoutCodeIndent;
    assert ([line] + more)[1..] == more;
  }

  /** The code takes all the lines of the block. */
  lemma {:induction false} ScanIndentedAll(lines: seq<string>, column: nat, rest: seq<string>, pending: nat)
    requires column >= 4 && lines != [] && !Blank(lines[|lines| - 1])
    ensures |ScanIndented(Indented(column, lines) + rest, pending).0| >= pending + |lines|
  {
    hide Blank, ScanIndented, IsIndentedCodeLine, At, Indented;
    var more := Indented(column, lines[1..]) + rest;
    IndentedFirst(column, lines, rest);
    TrimSpaceAt(column, lines[0]);
    FourColumns(column, lines[0]);
    BlankIsNothing();
    ScanIndentedStep(if Blank(lines[0]) then "" else At(column, lines[0]), more, pending);
    if |lines| > 1 {
      ScanIndentedAll(lines[1..], column, rest, if Blank(lines[0]) then pending + 1 else 0);
    }
  }

  /** What a printed line of these blocks cannot start. */
  lemma NoOtherStart<T>(b: Block<T>, show: seq<T> -> string, good: seq<T> -> bool)
    requires WfBlock(b, show, good) && (b.Para? || b.Heading? || b.Code?)
    ensures var core := Core(b, show);
            && core != [] && HeadOk(core[0]) && core[0][0] != '>' && !IsThematicBreak(core[0])
            && !TableHead(core) && ParseListMarker(core[0]).None?
  {
    hide StartsTable, SplitTableRow, IsThematicBreak, SanitizeLanguage, WithoutClosingHashes, SetextHeading;
    TidyCore(b, show, good);
    match b
    case Para(text) =>
      TidyParagraph(show(text));
      PlainStart(Split(show(text), '\n')[0]);
    case Heading(level, text) =>
      var line := Repeat('#', level) + " " + show(text);
      SplitOne(line, '\n');
      assert Core(b, show) == [line];
      OtherThan(line);
      NoMarker(line);
      OneLineNoTable([line]);
    case Code(language, source) =>
      var line := "```" + language;
      CodeFirstLine(language, source, show);
      OtherThan(line);
      NoMarker(line);
      NoPipe(language);
      assert '|' !in line;
      NoPipeNoTable(Core(b, show));
  }

  lemma PlainStart(line: string)
    requires HeadOk(line) && !StartsNewBlock(line)
    ensures line[0] != '>' && !IsThematicBreak(line) && ParseListMarker(line).None?
  {
    hide CodeFence, AtxHeading, IsThematicBreak, ParseListMarker;
    TrimLeftNothing(line, {' '});
  }

  lemma NoMarker(line: string)
    requires line != "" && (line[0] == '#' || line[0] == '`')
    ensures ParseListMarker(line).None?
  {
    TrimLeftNothing(line, {' ', '\t'});
  }

  lemma NoPipe(language: string)
    requires SanitizeLanguage(language) == language
    ensures '|' !in language
  {
    assert forall c | c in language :: IsLanguageChar(c);
  }

  lemma NoPipeNoTable(lines: seq<string>)
    requires lines != [] && '|' !in lines[0]
    ensures !TableHead(lines)
  {
  }

  lemma CodeFirstLine<T>(language: string, source: string, show: seq<T> -> string)
    requires SanitizeLanguage(language) == language
    ensures var core := Core(Code(language, source), show);
            core == ["```" + language] + Split(source, '\n') + ["```"]
  {
    hide SanitizeLanguage, Split;
    LanguageOneLine(language);
    assert BlockLines(Code(language, source), show) == ["```" + language] + Split(source, '\n') + ["```"] + [""];
  }

  /** A paragraph, a heading or code four columns in is read as code, and not as it was. */
  lemma TextMisfits<T(!new)>(
      b: Block<T>, column: nat, rest: seq<string>, depth: nat,
      show: seq<T> -> string, read: string -> seq<T>, good: seq<T> -> bool)
    requires WfBlock(b, show, good) && (b.Para? || b.Heading? || b.Code?) && column >= 4 && (rest == [] || rest[0] == "")
    ensures var core := Core(b, show);
            && core != []
            && var lines := Moved(column, column, core) + rest;
            && !Blank(lines[0])
            && var taken := ParseBlock(lines, depth, read);
            taken.block.Some? && taken.block.value != b
  {
    hide ParseBlock, Moved, Core, Join, ScanIndented, ParseListMarker, IsThematicBreak, TableHead, WfBlock, Blank, HeadOk, At;
    var core := Core(b, show);
    NoOtherStart(b, show, good);
    TidyCore(b, show, good);
    var lines := Moved(column, column, core) + rest;
    MovedLine(column, column, core, 0);
    TableHeadMoved(column, column, core, rest);
    AtStart(column, core[0]);
    IndentedDispatch(lines, column, core[0], depth, read);
    if b.Code? { CodeGrows(b.language, b.source, column, rest, show, good); }
  }

  lemma AtStart(column: nat, line: string)
    requires HeadOk(line) && ParseListMarker(line).None?
    ensures ParseListMarker(At(column, line)).None?
  {
    hide ParseListMarker;
    MarkerAt(column, line);
  }

  lemma CodeGrows<T>(language: string, source: string, column: nat, rest: seq<string>, show: seq<T> -> string, good: seq<T> -> bool)
    requires WfBlock(Code(language, source), show, good) && column >= 4
    ensures var core := Core(Code(language, source), show);
            core != [] && Join(ScanIndented(Moved(column, column, core) + rest, 0).0, "\n") != source
  {
    hide Join, ScanIndented, SanitizeLanguage, Split, ClosesFence, Indented;
    var core := Core(Code(language, source), show);
    TidyCore(Code(language, source), show, good);
    CodeFirstLine(language, source, show);
    MovedAlike(column, core);
    ScanIndentedAll(core, column, rest, 0);
    JoinedLines(ScanIndented(Indented(column, core) + rest, 0).0);
  }

  // ---- Lists that stand too far right, or take in what follows ----

  /** No marker is seen beyond column eight. */
  lemma FarListMisfits<T(!new)>(
      kind: ListKind, start: int, items: seq<Item<T>>, column: nat, rest: seq<string>, depth: nat,
      show: seq<T> -> string, read: string -> seq<T>, good: seq<T> -> bool)
    requires WfBlock(List(kind, start, items), show, good) && column > 8 && (rest == [] || rest[0] == "")
    ensures var core := ItemsLines(kind, start, items, show);
            && core != []
            && var lines := Moved(column, column, core) + rest;
            && !Blank(lines[0])
            && var taken := ParseBlock(lines, depth, read);
            taken.block.Some? && !taken.block.value.List?
  {
    hide ParseBlock, Moved, Join, ScanIndented, ParseListMarker, IsThematicBreak, TableHead, Blank, HeadOk, At, MarkerText, Inner,
         WfItems, Hangs, TaskMarker;
    assert ItemsOk(kind, start, items, show);
    var core := ItemsLines(kind, start, items, show);
    var line := MarkerText(kind, start, items[0].checked) + Inner(items[0].blocks, show)[0];
    assert core[0] == line;
    MarkerHead(kind, start, items[0].checked, Inner(items[0].blocks, show)[0]);
    var lines := Moved(column, column, core) + rest;
    MovedLine(column, column, core, 0);
    TableHeadMoved(column, column, core, rest);
    HeadStart(line);
    MarkerAt(column, line);
    IndentedDispatch(lines, column, line, depth, read);
  }

  lemma HeadStart(line: string)
    requires HeadOk(line)
    ensures line != "" && line[0] != ' ' && line[0] != '\t'
  {
  }

  /** Lines that a list item takes all in: blank ones, and ones at its content or beyond. */
  predicate Deep(lines: seq<string>, width: nat) {
    lines == [] || ((lines[0] == "" || (!Blank(lines[0]) && IndentOf(lines[0]) >= width)) && Deep(lines[1..], width))
  }

  lemma {:induction false} DeepConcat(a: seq<string>, b: seq<string>, width: nat)
    requires Deep(a, width) && Deep(b, width)
    ensures Deep(a + b, width)
  {
    if a == [] {
      assert a + b == b;
    } else {
      assert (a + b)[1..] == a[1..] + b;
      DeepConcat(a[1..], b, width);
    }
  }

  lemma {:induction false} DeepIndented(column: nat, lines: seq<string>, width: nat)
    requires width <= column
    ensures Deep(Indented(column, lines), width)
  {
    hide Blank;
    if lines != [] {
      DeepIndented(column, lines[1..], width);
      TrimSpaceAt(column, lines[0]);
      IndentOfAt(column, lines[0]);
      assert Indented(column, lines)[1..] == Indented(column, lines[1..]);
    }
  }

  lemma {:induction false} ScanBodyDeep(lines: seq<string>, width: nat)
    requires Deep(lines, width)
    ensures ScanBody(lines, width).1 == |lines|
  {
    hide ParseListMarker, StartsNewBlock;
    BlankIsNothing();
    if lines != [] {
      ScanBodyDeep(lines[1..], width);
    }
  }

  /** When all that follows is deep, the first item takes it, and the list has one item. */
  lemma ListSwallows<T(!new)>(
    kind: ListKind, start: nat, items: seq<Item<T>>, column: nat, rest: seq<string>, depth: nat,
    show: seq<T> -> string, read: string -> seq<T>, good: seq<T> -> bool)
    requires items != [] && WfItems(items, show, good) && Marks(kind, start, items[0].checked, Inner(items[0].blocks, show)[0])
    requires column >= ContentColumn(kind, start) && Deep(rest, column) && (rest == [] || rest[0] == "")
    requires !TableHead(ItemsLines(kind, start, items, show)) && depth < MAX_DEPTH
    ensures var core := ItemsLines(kind, start, items, show);
            && core != []
            && var lines := Moved(0, column, core) + rest;
            && !Blank(lines[0])
            && var taken := ParseBlock(lines, depth, read);
            && taken.block.Some? && taken.block.value.List? && |taken.block.value.items| == 1 && taken.consumed == |lines|
  {
    hide ParseBlock, Moved, ParseListMarker, TableHead, Blank, At, MarkerText, Inner, WfContent, ParseItems, ScanBody, HeadOk,
         Indented, FirstOfItem, IsThematicBreak;
    var core := ItemsLines(kind, start, items, show);
    var inner := Inner(items[0].blocks, show);
    var line := MarkerText(kind, start, items[0].checked) + inner[0];
    assert core[0] == line;
    var lines := Moved(0, column, core) + rest;
    MovedLine(0, column, core, 0);
    TidyContent(items[0].blocks, show, good);
    InnerTail(inner);
    MarkerHead(kind, start, items[0].checked, inner[0]);
    MarkerBackAt(kind, start, items[0].checked, inner[0], 0);
    MarkerWidths(kind, start, items[0].checked, inner[0]);
    TableHeadMoved(0, column, core, rest);
    ListDispatch(lines, 0, line, depth, read);
    TailIsDeep(core, column, rest, ContentColumn(kind, start));
    OneItemScanned(lines, ParseListMarker(lines[0]).value);
  }

  lemma TailIsDeep(core: seq<string>, column: nat, rest: seq<string>, width: nat)
    requires core != [] && Deep(rest, column) && width <= column
    ensures var lines := Moved(0, column, core) + rest;
            ScanBody(lines[1..], width).1 == |lines| - 1
  {
    hide ScanBody, Deep, Moved, Indented;
    MovedTail(0, column, core, rest);
    DeepIndented(column, core[1..], width);
    DeepLess(rest, column, width);
    DeepConcat(Indented(column, core[1..]), rest, width);
    ScanBodyDeep((Moved(0, column, core) + rest)[1..], width);
  }

  lemma MovedTail(first: nat, column: nat, lines: seq<string>, rest: seq<string>)
    requires lines != []
    ensures (Moved(first, column, lines) + rest)[1..] == Indented(column, lines[1..]) + rest
  {
  }

  lemma {:induction false} DeepLess(lines: seq<string>, column: nat, width: nat)
    requires Deep(lines, column) && width <= column
    ensures Deep(lines, width)
  {
    if lines != [] { DeepLess(lines[1..], column, width); }
  }

  lemma OneItemScanned(lines: seq<string>, first: ListMarker)
    requires lines != [] && ParseListMarker(lines[0]) == Some(first) && first.indent <= first.contentIndent
    requires ScanBody(lines[1..], first.contentIndent).1 == |lines| - 1
    ensures |ScanItems(lines, first).0| == 1 && ScanItems(lines, first).1 == |lines|
  {
    hide ParseListMarker, ScanBody, FirstOfItem;
    assert lines[|lines|..] == [];
    assert ScanItems([], first) == ([], 0);
  }

  // ---- The converse, block by block ----

  /** The parser finds another block at the head of the lines, or one that takes all
      that follows. */
  ghost predicate Loses<T(!new)>(
    b: Block<T>, first: nat, column: nat, rest: seq<string>, depth: nat, show: seq<T> -> string, read: string -> seq<T>)
  {
    var core := Core(b, show);
    && core != []
    && var lines := Moved(first, column, core) + rest;
    && !Blank(lines[0])
    && var taken := ParseBlock(lines, depth, read);
    && taken.block.Some?
    && (taken.block.value != b || (taken.consumed == |lines| && |rest| > 1))
  }

  lemma {:induction false} Misfit<T(!new)>(
    b: Block<T>, first: nat, column: nat, rest: seq<string>, depth: nat,
    show: seq<T> -> string, read: string -> seq<T>, good: seq<T> -> bool)
    requires Faithful(show, read, good) && WfBlock(b, show, good) && depth + Nest(b) <= MAX_DEPTH
    requires Places(first, column) && RestAt(rest, column) && Deep(rest, column) && !Fits(b, first, column, |rest| > 1)
    ensures Loses(b, first, column, rest, depth, show, read)
    decreases b
  {
    hide Faithful, RestAt, Deep, WfBlock, Loses;
    assert rest == [] || rest[0] == "" by { RestHead(rest, column); }
    if first == column {
      assert column >= 4 && !Shifts(b, column);
      if b.List? {
        StartIs(b, show, good);
        FarListMisfits(b.kind, b.start, b.items, column, rest, depth, show, read, good);
        assert Loses(b, first, column, rest, depth, show, read) by { ListLoses(b, first, column, rest, depth, show, read, good); }
      } else {
        TextMisfits(b, column, rest, depth, show, read, good);
        assert Loses(b, first, column, rest, depth, show, read) by { OtherLoses(b, first, column, rest, depth, show, read); }
      }
    } else if b.Code? {
      CodeMisfits(b.language, b.source, column, rest, depth, show, read, good);
      assert Loses(b, first, column, rest, depth, show, read) by {
        CodeCore(b, show, good);
        OtherLoses(b, first, column, rest, depth, show, read);
      }
    } else {
      ListMisfits(b.kind, b.start, b.items, column, rest, depth, show, read, good);
    }
  }

  lemma RestHead(rest: seq<string>, column: nat)
    requires RestAt(rest, column)
    ensures rest == [] || rest[0] == ""
  {
  }

  lemma CodeCore<T>(b: Block<T>, show: seq<T> -> string, good: seq<T> -> bool)
    requires WfBlock(b, show, good)
    ensures Core(b, show) != []
  {
    TidyCore(b, show, good);
  }

  lemma OtherLoses<T(!new)>(
    b: Block<T>, first: nat, column: nat, rest: seq<string>, depth: nat, show: seq<T> -> string, read: string -> seq<T>)
    requires Core(b, show) != []
    requires var lines := Moved(first, column, Core(b, show)) + rest;
             && !Blank(lines[0])
             && var taken := ParseBlock(lines, depth, read);
             taken.block.Some? && taken.block.value != b
    ensures Loses(b, first, column, rest, depth, show, read)
  {
    hide ParseBlock, Moved, Core, Blank;
  }

  lemma StartIs<T>(b: Block<T>, show: seq<T> -> string, good: seq<T> -> bool)
    requires WfBlock(b, show, good) && b.List?
    ensures b.start >= 1 && b.items != [] && Core(b, show) == ItemsLines(b.kind, b.start, b.items, show)
  {
    hide ItemsOk, TableHead;
    ListCore(b.kind, b.start, b.items, show);
  }

  lemma ListLoses<T(!new)>(
    b: Block<T>, first: nat, column: nat, rest: seq<string>, depth: nat,
    show: seq<T> -> string, read: string -> seq<T>, good: seq<T> -> bool)
    requires WfBlock(b, show, good) && b.List? && b.start >= 0 && ItemsLines(b.kind, b.start, b.items, show) != []
    requires var lines := Moved(first, column, ItemsLines(b.kind, b.start, b.items, show)) + rest;
             && !Blank(lines[0])
             && var taken := ParseBlock(lines, depth, read);
             && taken.block.Some?
             && (taken.block.value != b || (taken.consumed == |lines| && |rest| > 1))
    ensures Loses(b, first, column, rest, depth, show, read)
  {
    hide ParseBlock, Moved, Core, Blank, WfBlock;
    StartIs(b, show, good);
  }

  /** A list behind a marker that takes in what follows, or whose first item's content
      does not hang. */
  lemma {:induction false} ListMisfits<T(!new)>(
    kind: ListKind, start: int, items: seq<Item<T>>, column: nat, rest: seq<string>, depth: nat,
    show: seq<T> -> string, read: string -> seq<T>, good: seq<T> -> bool)
    requires Faithful(show, read, good) && WfBlock(List(kind, start, items), show, good) && depth + 1 + NestItems(items) <= MAX_DEPTH
    requires column > 0 && column % 4 == 0 && RestAt(rest, column) && Deep(rest, column)
    requires !StartHangs(List(kind, start, items), column, |rest| > 1)
    ensures Loses(List(kind, start, items), 0, column, rest, depth, show, read)
    decreases items, 2
  {
    hide Faithful, RestAt, Deep, WfBlock, Loses, Hangs, ParseBlock, Moved, AllMark, ItemsOk, Marks, Blank, TableHead, WfItems,
         WfContent, ListOk, TaskMarker, Inner, ItemsLines;
    var b := List(kind, start, items);
    StartIs(b, show, good);
    ListParts(kind, start, items, show, good);
    RestHead(rest, column);
    if (|items| > 1 || |rest| > 1) && column >= ContentColumn(kind, start) {
      ListSwallows(kind, start, items, column, rest, depth, show, read, good);
    } else {
      HangMisfits(kind, start, items, column, rest, depth, show, read, good);
    }
    ListLoses(b, 0, column, rest, depth, show, read, good);
  }

  lemma {:induction false} HangMisfits<T(!new)>(
    kind: ListKind, start: nat, items: seq<Item<T>>, column: nat, rest: seq<string>, depth: nat,
    show: seq<T> -> string, read: string -> seq<T>, good: seq<T> -> bool)
    requires Faithful(show, read, good) && WfBlock(List(kind, start, items), show, good) && depth + 1 + NestItems(items) <= MAX_DEPTH
    requires column > 0 && column % 4 == 0 && RestAt(rest, column) && items != []
    requires |items| > 1 || |rest| > 1 ==> column < ContentColumn(kind, start)
    requires !Hangs(items[0].blocks, column + ExtraOf(kind))
    ensures var core := ItemsLines(kind, start, items, show);
            && core != []
            && var lines := Moved(0, column, core) + rest;
            && !Blank(lines[0])
            && var taken := ParseBlock(lines, depth, read);
            taken.block.Some? && taken.block.value != List(kind, start, items)
    decreases items, 1
  {
    hide Faithful, RestAt, WfBlock, Hangs, ParseBlock, Moved, AllMark, ItemsOk, Marks, Blank, TableHead, WfItems,
         WfContent, ListOk, TaskMarker, Inner, ItemsLines, RawItems, ParseItems, Swallowed, ItemsAt, ParseBlocks, Hung;
    ListParts(kind, start, items, show, good);
    ListReaches(kind, start, items, 0, column, |rest| > 1, show);
    ListScanned(kind, start, items, 0, column, rest, depth, show, read, good);
    ItemsMoved(kind, start, items, 0, column, show, good);
    KindBack(kind, start, items, column, Swallowed(rest), show, good);
    SwallowedIs(rest);
    if ParseItems(RawItems(kind, start, items, column, Swallowed(rest), show), kind, depth, read) == items {
      FirstItemRead(kind, start, items, column, Swallowed(rest), depth, show, read, good);
      ContentConverse(items[0].blocks, column + ExtraOf(kind), if |items| == 1 then Swallowed(rest) else [], depth + 1, show, read, good);
      assert false;
    }
  }

  lemma ListParts<T>(kind: ListKind, start: int, items: seq<Item<T>>, show: seq<T> -> string, good: seq<T> -> bool)
    requires WfBlock(List(kind, start, items), show, good)
    ensures items != [] && start >= 1 && WfItems(items, show, good) && ListOk(kind, start, items, show)
    ensures !TableHead(ItemsLines(kind, start, items, show)) && ItemsOk(kind, start, items, show)
    ensures AllMark(kind, start, items, show) && Marks(kind, start, items[0].checked, Inner(items[0].blocks, show)[0])
    ensures kind == Ordered || start == 1
    ensures WfContent(items[0].blocks, show, good) && (kind != Task ==> TaskMarker(Inner(items[0].blocks, show)[0]).None?)
  {
    hide TableHead, IsThematicBreak, TaskMarker, Hangs, Inner;
    OkMarks(kind, start, items, show);
  }

  /** What comes back as the items' first content. */
  lemma FirstItemRead<T(!new)>(
    kind: ListKind, number: nat, items: seq<Item<T>>, extra: nat, tail: seq<string>, depth: nat,
    show: seq<T> -> string, read: string -> seq<T>, good: seq<T> -> bool)
    requires items != [] && WfItems(items, show, good) && depth < MAX_DEPTH
    requires kind != Task ==> TaskMarker(Inner(items[0].blocks, show)[0]).None?
    requires ParseItems(RawItems(kind, number, items, extra, tail, show), kind, depth, read) == items
    ensures var own := if |items| == 1 then tail else [];
            OrEmptyParagraph(ParseBlocks(Hung(extra + ExtraOf(kind), Inner(items[0].blocks, show)) + own, depth + 1, read)) == items[0].blocks
  {
    hide ParseBlocks, Hung, Inner, TaskMarker, OrEmptyParagraph, RawItems;
    RawItemIs(kind, number, items, extra, tail, show, good);
  }

  /** Content that comes back hangs. */
  lemma {:induction false} ContentConverse<T(!new)>(
    blocks: seq<Block<T>>, extra: nat, tail: seq<string>, depth: nat,
    show: seq<T> -> string, read: string -> seq<T>, good: seq<T> -> bool)
    requires Faithful(show, read, good) && WfContent(blocks, show, good) && (tail == [] || tail == [""])
    requires depth + NestBlocks(blocks) <= MAX_DEPTH && extra % 4 == 0
    requires OrEmptyParagraph(ParseBlocks(Hung(extra, Inner(blocks, show)) + tail, depth, read)) == blocks
    ensures Hangs(blocks, extra)
    decreases blocks, 1
  {
    hide Faithful, ParseBlocks, Inner, Hung;
    if blocks != [Para([])] && extra > 0 {
      HungIsMoved(extra, Inner(blocks, show));
      BlocksConverse(blocks, 0, extra, tail, depth, show, read, good);
    }
  }

  lemma {:induction false} BlocksConverse<T(!new)>(
    blocks: seq<Block<T>>, first: nat, column: nat, tail: seq<string>, depth: nat,
    show: seq<T> -> string, read: string -> seq<T>, good: seq<T> -> bool)
    requires Faithful(show, read, good) && blocks != [] && WfBlocks(blocks, show, good) && (tail == [] || tail == [""])
    requires depth + NestBlocks(blocks) <= MAX_DEPTH && Places(first, column)
    requires ParseBlocks(Moved(first, column, Inner(blocks, show)) + tail, depth, read) == blocks
    ensures AllFit(blocks, first, column)
    decreases blocks, 0
  {
    hide ParseBlocks, ReadsBack, Core, Inner, Blank, WfBlock, Moved, Fits, Faithful, RestAt, Loses, Deep, Shifts, AllFit;
    var rest := RestOf(blocks, column, tail, show);
    BlocksMoved(blocks, first, column, tail, show, good);
    RestIsDeep(blocks, column, tail, show, good);
    if !Fits(blocks[0], first, column, |rest| > 1) {
      Misfit(blocks[0], first, column, rest, depth, show, read, good);
      LosesAll(blocks, first, column, rest, depth, show, read);
      assert false;
    }
    BlockBack(blocks[0], first, column, rest, depth, show, read, good);
    ParseStep(blocks[0], first, column, rest, depth, show, read);
    assert ParseBlocks(rest, depth, read) == blocks[1..] by { assert ([blocks[0]] + ParseBlocks(rest, depth, read))[1..] == blocks[1..]; }
    if |blocks| > 1 {
      BlankLine(Moved(column, column, Inner(blocks[1..], show)) + tail, depth, read);
      BlocksConverse(blocks[1..], column, column, tail, depth, show, read, good);
    }
    FitTogether(blocks, first, column);
  }

  lemma FitTogether<T>(blocks: seq<Block<T>>, first: nat, column: nat)
    requires blocks != [] && Fits(blocks[0], first, column, |blocks| > 1) && (|blocks| > 1 ==> AllFit(blocks[1..], column, column))
    ensures AllFit(blocks, first, column)
  {
    if |blocks| > 1 && column > 0 {
      var more := blocks[1..];
      assert more == [more[0]] + more[1..];
    }
  }

  lemma RestIsDeep<T>(blocks: seq<Block<T>>, column: nat, tail: seq<string>, show: seq<T> -> string, good: seq<T> -> bool)
    requires blocks != [] && WfBlocks(blocks, show, good) && (tail == [] || tail == [""])
    ensures Deep(RestOf(blocks, column, tail, show), column)
    ensures |RestOf(blocks, column, tail, show)| > 1 <==> |blocks| > 1
  {
    hide Indented, Blank, Moved;
    DeepTail(tail, column);
    if |blocks| > 1 {
      var more := Inner(blocks[1..], show);
      InnerOfBlocks(blocks[1..], show, good);
      MovedAlike(column, more);
      DeepIndented(column, more, column);
      DeepConcat(Indented(column, more), tail, column);
      DeepTail([""], column);
      DeepConcat([""], Indented(column, more) + tail, column);
    }
  }

  lemma DeepTail(tail: seq<string>, width: nat)
    requires tail == [] || tail == [""]
    ensures Deep(tail, width)
  {
    if tail == [""] { assert tail[1..] == []; }
  }

  /** Lines that begin so do not read as those blocks. */
  lemma LosesAll<T(!new)>(
    blocks: seq<Block<T>>, first: nat, column: nat, rest: seq<string>, depth: nat, show: seq<T> -> string, read: string -> seq<T>)
    requires blocks != [] && Loses(blocks[0], first, column, rest, depth, show, read) && (|rest| > 1 ==> |blocks| > 1)
    ensures ParseBlocks(Moved(first, column, Core(blocks[0], show)) + rest, depth, read) != blocks
  {
    hide ParseBlock, Moved, Core, Blank;
    var lines := Moved(first, column, Core(blocks[0], show)) + rest;
    var taken := ParseBlock(lines, depth, read);
    if taken.consumed == |lines| { assert lines[taken.consumed..] == []; assert ParseBlocks<T>([], depth, read) == []; }
  }
}
