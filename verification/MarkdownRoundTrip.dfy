/** Markdown that the exporter writes is read back as the same blocks. */
module MarkdownRoundTrip {
  import opened Text
  import opened MarkdownSyntax
  import opened MarkdownBlocks
  import opened MarkdownColumns

  // ---- The documents that survive the trip ----

  /** "show" prints on lines of its own what "read" reads back, for good content. */
  ghost predicate Faithful<T(!new)>(show: seq<T> -> string, read: string -> seq<T>, good: seq<T> -> bool) {
    forall text | good(text) :: read(show(text)) == text
  }

  /** Lines that the block parser can only take as one paragraph. */
  predicate ParagraphLines(lines: seq<string>) {
    lines != [] && HeadOk(lines[0]) && !StartsNewBlock(lines[0]) && !TableHead(lines) && Continues(lines[1..])
  }

  predicate Continues(lines: seq<string>) {
    lines == [] || (
      && HeadOk(lines[0]) && !StartsNewBlock(lines[0]) && SetextHeading(lines[0]).None? && !StartsTable(lines)
      && Continues(lines[1..]))
  }

  predicate WfCodeLine(line: string) {
    !ClosesFence(line, '`') && (Blank(line) ==> line == "")
  }

  predicate WfCell<T>(cell: seq<T>, show: seq<T> -> string, good: seq<T> -> bool) {
    '\n' !in show(cell) && Trimmed(show(cell)) && good(cell)
  }

  predicate WfCells<T>(cells: seq<seq<T>>, show: seq<T> -> string, good: seq<T> -> bool) {
    cells == [] || (WfCell(cells[0], show, good) && WfCells(cells[1..], show, good))
  }

  predicate WfRows<T>(rows: seq<seq<seq<T>>>, columns: nat, show: seq<T> -> string, good: seq<T> -> bool) {
    rows == [] || (|rows[0]| == columns && WfCells(rows[0], show, good) && WfRows(rows[1..], columns, show, good))
  }

  ghost predicate WfBlock<T>(b: Block<T>, show: seq<T> -> string, good: seq<T> -> bool)
    decreases b
  {
    match b
    case Para(text) => text != [] && ParagraphLines(Split(show(text), '\n')) && good(text)
    case Heading(level, text) =>
      1 <= level <= 6 && '\n' !in show(text) && Trimmed(show(text)) && WithoutClosingHashes(show(text)) == show(text)
      && good(text)
    case Code(language, source) =>
      SanitizeLanguage(language) == language && forall line | line in Split(source, '\n') :: WfCodeLine(line)
    case Rule => true
    case Quote(blocks) => WfContent(blocks, show, good)
    case List(kind, start, items) => WfItems(items, show, good) && ListOk(kind, start, items, show)
    case Table(align, rows) =>
      && rows != [] && |align| > 0
      && (forall a | a in align :: a == Plain)
      && WfRows(rows, |align|, show, good)
  }

  ghost predicate WfBlocks<T>(blocks: seq<Block<T>>, show: seq<T> -> string, good: seq<T> -> bool)
    decreases blocks, 0
  {
    blocks == [] || (WfBlock(blocks[0], show, good) && WfBlocks(blocks[1..], show, good))
  }

  /** What a quote or an item holds: some blocks, or one empty paragraph. */
  ghost predicate WfContent<T>(blocks: seq<Block<T>>, show: seq<T> -> string, good: seq<T> -> bool)
    decreases blocks, 1
  {
    if blocks == [Para([])] then Blank(show([]))
    else blocks != [] && WfBlocks(blocks, show, good)
  }

  ghost predicate WfItems<T>(items: seq<Item<T>>, show: seq<T> -> string, good: seq<T> -> bool)
    decreases items
  {
    items == [] || (WfContent(items[0].blocks, show, good) && WfItems(items[1..], show, good))
  }

  // ---- Lists ----

  /** What the list itself has to meet, its items being well formed: numbers that the
      parser takes, no table in its first two lines, and what each item has to meet. */
  ghost predicate ListOk<T>(kind: ListKind, start: int, items: seq<Item<T>>, show: seq<T> -> string) {
    && items != []
    && (if kind == Ordered then 1 <= start && start + |items| <= 1_000_000_000 else start == 1)
    && !TableHead(ItemsLines(kind, start, items, show))
    && ItemsOk(kind, start, items, show)
  }

  /** The marker in front of an item's first line does not make it a rule ("- ---"),
      nor, before an item that is none, a task ("- [ ] x"). */
  ghost predicate ItemsOk<T>(kind: ListKind, number: nat, items: seq<Item<T>>, show: seq<T> -> string)
    decreases |items|
  {
    items == [] || (
      var inner := Inner(items[0].blocks, show);
      && !IsThematicBreak(MarkerText(kind, number, items[0].checked) + inner[0])
      && (if kind == Task then Hangs(items[0].blocks, TASK_EXTRA)
          else TaskMarker(inner[0]).None? && !items[0].checked)
      && ItemsOk(kind, number + 1, items[1..], show))
  }

  /** The writer indents a task's lines by six columns, the parser trims two. */
  const TASK_EXTRA := 4

  function ExtraOf(kind: ListKind): nat {
    if kind == Task then TASK_EXTRA else 0
  }

  /** The column, counted from its marker, at which the parser sees an item go on. */
  function ContentColumn(kind: ListKind, number: nat): (n: nat)
    ensures n >= 2
  {
    if kind == Ordered then |Itoa(number)| + 2 else 2
  }

  /** Content that reads back although all its lines but the first stand "extra"
      columns too far right. A paragraph, a heading or code may come first only; code
      must be empty; a list that comes first must be the only block and have one item,
      unless its marker is wider than the shift, and its first item must hang too. */
  ghost predicate Hangs<T>(blocks: seq<Block<T>>, extra: nat)
    decreases blocks
  {
    || extra == 0 || blocks == [Para([])] || blocks == []
    || (StartHangs(blocks[0], extra, |blocks| > 1) && forall b | b in blocks[1..] :: Shifts(b, extra))
  }

  ghost predicate StartHangs<T>(b: Block<T>, extra: nat, followed: bool)
    decreases b
  {
    match b
    case Code(_, source) => forall line | line in Split(source, '\n') :: line == ""
    case List(kind, start, items) =>
      items == [] || (
        && (|items| > 1 || followed ==> start >= 0 && extra < ContentColumn(kind, start))
        && Hangs(items[0].blocks, extra + ExtraOf(kind)))
    case _ => true
  }

  /** A block that reads back when all its lines stand too far right: the parser sees
      indented code in any other, and no marker beyond column eight. */
  predicate Shifts<T>(b: Block<T>, column: nat) {
    match b
    case Rule => true
    case Quote(_) => true
    case Table(_, _) => true
    case List(_, _, _) => column <= 8
    case _ => false
  }

  /** How deep quotes and lists nest. */
  function Nest<T>(b: Block<T>): nat
    decreases b
  {
    match b
    case Quote(blocks) => 1 + NestBlocks(blocks)
    case List(_, _, items) => 1 + NestItems(items)
    case _ => 0
  }

  function NestBlocks<T>(blocks: seq<Block<T>>): nat
    decreases blocks
  {
    if blocks == [] then 0 else Max(Nest(blocks[0]), NestBlocks(blocks[1..]))
  }

  function NestItems<T>(items: seq<Item<T>>): nat
    decreases items
  {
    if items == [] then 0 else Max(NestBlocks(items[0].blocks), NestItems(items[1..]))
  }

  function Max(a: nat, b: nat): nat {
    if a < b then b else a
  }

  // ---- Lines of a block without the blank line after it ----

  function Core<T>(b: Block<T>, show: seq<T> -> string): seq<string> {
    var lines := BlockLines(b, show);
    if lines == [] then [] else lines[..|lines| - 1]
  }

  /** Starts at the margin, ends with a visible line, and its blank lines are empty. */
  predicate Tidy(lines: seq<string>) {
    && lines != [] && HeadOk(lines[0]) && !Blank(lines[|lines| - 1])
    && forall line | line in lines :: Blank(line) ==> line == ""
  }

  lemma VisibleHeadOk(line: string)
    requires line != "" && !IsSpace(line[0])
    ensures HeadOk(line)
  {
    VisibleHead(line);
  }

  lemma {:induction false} IndentedLine(width: nat, lines: seq<string>, i: nat)
    requires i < |lines|
    ensures Indented(width, lines)[i] == if Blank(lines[i]) then "" else At(width, lines[i])
  {
    if i > 0 {
      IndentedLine(width, lines[1..], i - 1);
    }
  }

  lemma TidyItem(marker: string, inner: seq<string>)
    requires |marker| >= 2 && !IsSpace(marker[0])
    requires inner == [""] || Tidy(inner)
    ensures Tidy(ItemLines(marker, inner))
  {
    var lines := ItemLines(marker, inner);
    VisibleHeadOk(lines[0]);
    forall i | 0 < i < |lines|
      ensures Blank(lines[i]) ==> lines[i] == ""
      ensures i == |lines| - 1 ==> !Blank(lines[i])
    {
      IndentedLine(|marker|, inner[1..], i - 1);
      TrimSpaceAt(|marker|, inner[i]);
    }
  }

  lemma TidyConcat(a: seq<string>, b: seq<string>)
    requires Tidy(a) && Tidy(b)
    ensures Tidy(a + b)
  {
    assert (a + b)[0] == a[0] && (a + b)[|a + b| - 1] == b[|b| - 1];
    forall line | line in a + b && Blank(line)
      ensures line == ""
    {
      assert line in a || line in b;
    }
  }

  lemma {:induction false} TidyItems<T>(
    kind: ListKind, number: nat, items: seq<Item<T>>, show: seq<T> -> string, good: seq<T> -> bool)
    requires items != [] && WfItems(items, show, good)
    ensures Tidy(ItemsLines(kind, number, items, show))
    decreases items
  {
    hide Tidy, Inner, ItemLines, WfContent;
    var inner := Inner(items[0].blocks, show);
    TidyContent(items[0].blocks, show, good);
    TidyItem(MarkerText(kind, number, items[0].checked), inner);
    if |items| > 1 {
      TidyItems(kind, number + 1, items[1..], show, good);
      TidyConcat(ItemLines(MarkerText(kind, number, items[0].checked), inner),
                 ItemsLines(kind, number + 1, items[1..], show));
    } else {
      OneItemLines(kind, number, items, show);
    }
  }

  lemma OneItemLines<T>(kind: ListKind, number: nat, items: seq<Item<T>>, show: seq<T> -> string)
    requires |items| == 1
    ensures ItemsLines(kind, number, items, show)
         == ItemLines(MarkerText(kind, number, items[0].checked), Inner(items[0].blocks, show))
  {
    assert items[1..] == [];
  }

  lemma {:induction false} TidyContent<T>(blocks: seq<Block<T>>, show: seq<T> -> string, good: seq<T> -> bool)
    requires WfContent(blocks, show, good)
    ensures Inner(blocks, show) == [""] || Tidy(Inner(blocks, show))
    ensures blocks == [Para([])] ==> Inner(blocks, show) == [""]
    decreases blocks, 1
  {
    if blocks == [Para([])] {
      assert BlocksLines(blocks, show) == [];
    } else {
      InnerOfBlocks(blocks, show, good);
    }
  }

  lemma {:induction false} PrefixedLine(prefix: string, lines: seq<string>, i: nat)
    requires i < |lines|
    ensures |Prefixed(prefix, lines)| == |lines| && Prefixed(prefix, lines)[i] == prefix + lines[i]
  {
    if i > 0 {
      PrefixedLine(prefix, lines[1..], i - 1);
    } else if |lines| > 1 {
      PrefixedLine(prefix, lines[1..], 0);
    }
  }

  lemma TidyQuote(inner: seq<string>)
    requires |inner| > 0
    ensures Tidy(Prefixed("> ", inner))
  {
    var lines := Prefixed("> ", inner);
    PrefixedLine("> ", inner, 0);
    forall i | 0 <= i < |lines|
      ensures HeadOk(lines[i])
    {
      PrefixedLine("> ", inner, i);
      VisibleHeadOk(lines[i]);
    }
  }

  lemma {:induction false} TidyRows<T>(rows: seq<seq<seq<T>>>, columns: nat, show: seq<T> -> string, i: nat)
    requires i < |RowLines(rows, columns, show)|
    ensures HeadOk(RowLines(rows, columns, show)[i])
  {
    if i == 0 {
      VisibleHeadOk(RowLines(rows, columns, show)[0]);
    } else {
      TidyRows(rows[1..], columns, show, i - 1);
    }
  }

  lemma TidyTable<T>(rows: seq<seq<seq<T>>>, show: seq<T> -> string)
    requires rows != []
    ensures Tidy(TableLines(rows, show))
  {
    var lines := TableLines(rows, show);
    VisibleHeadOk(lines[0]);
    VisibleHeadOk(lines[1]);
    forall i | 2 <= i < |lines|
      ensures HeadOk(lines[i])
    {
      TidyRows(rows[1..], Columns(rows), show, i - 2);
    }
  }

  lemma HeadingLineOk(level: nat, text: string)
    requires 1 <= level
    ensures HeadOk(Repeat('#', level) + " " + text)
  {
    VisibleHeadOk(Repeat('#', level) + " " + text);
  }

  lemma ColumnsOfGrid<T>(rows: seq<seq<seq<T>>>, columns: nat, show: seq<T> -> string, good: seq<T> -> bool)
    requires rows != [] && WfRows(rows, columns, show, good)
    ensures Columns(rows) == columns
  {
    if |rows| > 1 {
      ColumnsOfGrid(rows[1..], columns, show, good);
    }
  }

  lemma LanguageOneLine(language: string)
    requires SanitizeLanguage(language) == language
    ensures Split("```" + language, '\n') == ["```" + language]
  {
    assert forall c | c in language :: IsLanguageChar(c);
    SplitOne("```" + language, '\n');
  }

  lemma TidyCode(language: string, body: seq<string>)
    requires forall line | line in body :: WfCodeLine(line)
    ensures Tidy(["```" + language] + body + ["```"])
  {
    hide ClosesFence;
    var lines := ["```" + language] + body + ["```"];
    VisibleHeadOk(lines[0]);
    VisibleHeadOk(lines[|lines| - 1]);
    forall line | line in lines && Blank(line)
      ensures line == ""
    {
      assert line in body;
    }
  }

  lemma {:induction false} BlankIsSpaces(s: string)
    requires Blank(s)
    ensures forall c | c in s :: IsSpace(c)
  {
    if s != "" {
      if IsSpace(s[0]) { BlankIsSpaces(s[1..]); } else { VisibleHead(s); }
      assert s == [s[0]] + s[1..];
    }
  }

  lemma {:induction false} SpacesAreBlank(s: string)
    requires forall c | c in s :: IsSpace(c)
    ensures Blank(s)
  {
    if s != "" {
      assert s[0] in s && forall c | c in s[1..] :: c in s;
      SpacesAreBlank(s[1..]);
    }
  }

  lemma {:induction false} PieceWithin(s: string, c: char)
    ensures forall d | d in Split(s, c)[0] :: d in s
  {
    if s != "" {
      PieceWithin(s[1..], c);
      assert s == [s[0]] + s[1..];
    }
  }

  lemma {:induction false} ContinuesHeads(lines: seq<string>)
    requires Continues(lines)
    ensures forall line | line in lines :: HeadOk(line)
  {
    hide StartsNewBlock, SetextHeading, StartsTable, HeadOk;
    if lines != [] {
      ContinuesHeads(lines[1..]);
      assert lines == [lines[0]] + lines[1..];
    }
  }

  lemma TidyHeads(lines: seq<string>)
    requires lines != [] && forall line | line in lines :: HeadOk(line)
    ensures Tidy(lines)
  {
    assert lines[0] in lines && lines[|lines| - 1] in lines;
  }

  lemma NotBlankWhole(text: string)
    requires !Blank(Split(text, '\n')[0])
    ensures !Blank(text)
  {
    hide Blank, IsSpace;
    if Blank(text) {
      PieceWithin(text, '\n');
      BlankIsSpaces(text);
      SpacesAreBlank(Split(text, '\n')[0]);
    }
  }

  lemma ParagraphHeads(lines: seq<string>)
    requires ParagraphLines(lines)
    ensures forall line | line in lines :: HeadOk(line)
  {
    hide StartsNewBlock, SetextHeading, StartsTable, HeadOk, TableHead;
    ContinuesHeads(lines[1..]);
    assert lines == [lines[0]] + lines[1..];
  }

  /** No line of a paragraph is blank, so nor is the whole. */
  lemma TidyParagraph(text: string)
    requires ParagraphLines(Split(text, '\n'))
    ensures Tidy(Split(text, '\n')) && !Blank(text)
  {
    hide ParagraphLines, Tidy, Blank, Split;
    var lines := Split(text, '\n');
    ParagraphHeads(lines);
    assert lines[0] in lines;
    TidyHeads(lines);
    NotBlankWhole(text);
  }

  /** Every block that survives prints as tidy lines and one blank line. */
  lemma {:induction false} TidyCore<T>(b: Block<T>, show: seq<T> -> string, good: seq<T> -> bool)
    requires WfBlock(b, show, good)
    ensures Tidy(Core(b, show)) && BlockLines(b, show) == Core(b, show) + [""]
    decreases b, 1
  {
    hide StartsNewBlock, ClosesFence, SanitizeLanguage, WithoutClosingHashes, TrimSpace, ParagraphLines, ItemsOk, TableHead;
    match b {
      case Para(text) => TidyParagraph(show(text));
      case Heading(level, text) =>
        HeadingLineOk(level, show(text));
        SplitOne(Repeat('#', level) + " " + show(text), '\n');
      case Code(language, source) =>
        LanguageOneLine(language);
        TidyCode(language, Split(source, '\n'));
        assert BlockLines(b, show) == ["```" + language] + Split(source, '\n') + ["```"] + [""];
      case Rule => VisibleHeadOk("---");
      case Quote(blocks) => TidyQuote(Inner(blocks, show));
      case List(kind, start, items) => TidyItems(kind, start, items, show, good);
      case Table(align, rows) =>
        ColumnsOfGrid(rows, |align|, show, good);
        TidyTable(rows, show);
    }
  }

  lemma TrimNewlinesOfTidy(lines: seq<string>)
    requires Tidy(lines)
    ensures TrimNewlines(lines + [""]) == lines
  {
    assert (lines + [""])[..|lines|] == lines;
    assert lines[|lines| - 1] != "";
  }

  lemma TidyJoin(a: seq<string>, b: seq<string>)
    requires Tidy(a) && Tidy(b)
    ensures Tidy(a + [""] + b)
  {
    var lines := a + [""] + b;
    assert lines[0] == a[0] && lines[|lines| - 1] == b[|b| - 1];
    forall line | line in lines && Blank(line)
      ensures line == ""
    {
      assert line in a || line == "" || line in b;
    }
  }

  lemma InnerStep(core: seq<string>, rest: seq<string>)
    requires Tidy(core) && Tidy(rest)
    ensures core + [""] + (rest + [""]) == core + ([""] + rest) + [""]
    ensures TrimNewlines(core + [""] + (rest + [""])) == core + ([""] + rest)
    ensures Tidy(core + ([""] + rest))
  {
    TidyJoin(core, rest);
    var lines := core + [""] + rest;
    TrimNewlinesOfTidy(lines);
    assert lines == core + ([""] + rest);
    assert core + [""] + (rest + [""]) == lines + [""];
  }

  /** The lines of a run of blocks: one blank line between two of them. */
  lemma {:induction false} InnerOfBlocks<T>(blocks: seq<Block<T>>, show: seq<T> -> string, good: seq<T> -> bool)
    requires blocks != [] && WfBlocks(blocks, show, good)
    ensures BlocksLines(blocks, show) == Inner(blocks, show) + [""]
    ensures Tidy(Inner(blocks, show))
    ensures Inner(blocks, show)
         == Core(blocks[0], show) + (if |blocks| == 1 then [] else [""] + Inner(blocks[1..], show))
    decreases blocks, 0
  {
    TidyCore(blocks[0], show, good);
    var core := Core(blocks[0], show);
    if |blocks| == 1 {
      assert BlocksLines(blocks, show) == core + [""];
      TrimNewlinesOfTidy(core);
    } else {
      InnerOfBlocks(blocks[1..], show, good);
      assert BlocksLines(blocks, show) == core + [""] + BlocksLines(blocks[1..], show);
      InnerStep(core, Inner(blocks[1..], show));
    }
  }
}
