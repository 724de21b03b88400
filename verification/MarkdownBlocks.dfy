/** The block half of Markdown export (internal/httpapi/render.go) and import
    (internal/httpapi/import_markdown.go). A document is a sequence of blocks
    whose inline content has type seq<T>; "show" prints inline content on one
    line and "read" parses it back. */
module MarkdownBlocks {
  import opened Text
  import opened MarkdownSyntax

  datatype ListKind = Bullet | Ordered | Task

  datatype Item<T> = Item(checked: bool, blocks: seq<Block<T>>)

  datatype Block<T> =
    | Para(text: seq<T>)
    | Heading(level: int, text: seq<T>)
    | Code(language: string, source: string)
    | Rule
    | Quote(blocks: seq<Block<T>>)
    | List(kind: ListKind, start: int, items: seq<Item<T>>)
    | Table(align: seq<Align>, rows: seq<seq<seq<T>>>)

  // ---- Writing ----

  /** The lines a block adds to the output, without their newlines. The cells of
      a table are single paragraphs, without spans. */
  function BlockLines<T>(b: Block<T>, show: seq<T> -> string): seq<string>
    decreases b
  {
    match b
    case Para(text) => if Blank(show(text)) then [] else Split(show(text), '\n') + [""]
    case Heading(level, text) =>
      Split(Repeat('#', if level < 1 || level > 6 then 1 else level) + " " + show(text), '\n') + [""]
    case Code(language, source) => Split("```" + language, '\n') + Split(source, '\n') + ["```", ""]
    case Rule => ["---", ""]
    case Quote(blocks) => Prefixed("> ", Inner(blocks, show)) + [""]
    case List(kind, start, items) =>
      ItemsLines(kind, if start < 1 then 1 else start, items, show) + [""]
    case Table(_, rows) =>
      if rows == [] || Columns(rows) == 0 then [] else TableLines(rows, show) + [""]
  }

  /** The lines of a nested writer, as a quote or a list item takes them. */
  function Inner<T>(blocks: seq<Block<T>>, show: seq<T> -> string): (r: seq<string>)
    ensures |r| > 0
    decreases blocks, 1
  {
    TrimNewlines(BlocksLines(blocks, show))
  }

  function BlocksLines<T>(blocks: seq<Block<T>>, show: seq<T> -> string): seq<string>
    decreases blocks, 0
  {
    if blocks == [] then [] else BlockLines(blocks[0], show) + BlocksLines(blocks[1..], show)
  }

  /** One list item after another; only an ordered list counts. */
  function ItemsLines<T>(kind: ListKind, number: nat, items: seq<Item<T>>, show: seq<T> -> string): seq<string>
    decreases items
  {
    if items == [] then []
    else
      ItemLines(MarkerText(kind, number, items[0].checked), Inner(items[0].blocks, show))
      + ItemsLines(kind, number + 1, items[1..], show)
  }

  function MarkerText(kind: ListKind, number: nat, checked: bool): (s: string)
    ensures |s| >= 2 && !IsSpace(s[0])
  {
    match kind
    case Bullet => "- "
    case Ordered => Itoa(number) + ". "
    case Task => if checked then "- [x] " else "- [ ] "
  }

  /** The marker goes before the first line and as many spaces before the others;
      a blank line stays bare. */
  function ItemLines(marker: string, inner: seq<string>): (r: seq<string>)
    requires |inner| > 0
    ensures |r| == |inner|
  {
    [marker + inner[0]] + Indented(|marker|, inner[1..])
  }

  function Indented(width: nat, lines: seq<string>): (r: seq<string>)
    ensures |r| == |lines|
  {
    if lines == [] then []
    else [if Blank(lines[0]) then "" else Repeat(' ', width) + lines[0]] + Indented(width, lines[1..])
  }

  function Prefixed(prefix: string, lines: seq<string>): seq<string> {
    if lines == [] then [] else [prefix + lines[0]] + Prefixed(prefix, lines[1..])
  }

  /** strings.Split(strings.TrimRight(text, "\n"), "\n") where text is the given
      lines, each followed by a newline: see TrimNewlinesIsTheStringForm. */
  function TrimNewlines(lines: seq<string>): (r: seq<string>)
    ensures |r| > 0
  {
    if lines == [] then [""]
    else if lines[|lines| - 1] == "" then TrimNewlines(lines[..|lines| - 1])
    else lines
  }

  function Columns<T>(rows: seq<seq<T>>): nat {
    if rows == [] then 0
    else if |rows[0]| > Columns(rows[1..]) then |rows[0]| else Columns(rows[1..])
  }

  function TableLines<T>(rows: seq<seq<seq<T>>>, show: seq<T> -> string): seq<string>
    requires rows != []
  {
    var columns := Columns(rows);
    [RowLine(rows[0], columns, show)] + ["|" + DelimiterCells(columns)] + RowLines(rows[1..], columns, show)
  }

  function RowLines<T>(rows: seq<seq<seq<T>>>, columns: nat, show: seq<T> -> string): seq<string> {
    if rows == [] then [] else [RowLine(rows[0], columns, show)] + RowLines(rows[1..], columns, show)
  }

  function DelimiterCells(n: nat): string {
    if n == 0 then "" else " --- |" + DelimiterCells(n - 1)
  }

  function RowLine<T>(cells: seq<seq<T>>, columns: nat, show: seq<T> -> string): (r: string)
    ensures r != "" && r[0] == '|'
  {
    "|" + PaddedCells(cells, columns, show)
  }

  function PaddedCells<T>(cells: seq<seq<T>>, columns: nat, show: seq<T> -> string): string
    decreases columns
  {
    if columns == 0 then ""
    else if cells == [] then "  |" + PaddedCells(cells, columns - 1, show)
    else " " + CellText(show(cells[0])) + " |" + PaddedCells(cells[1..], columns - 1, show)
  }

  function CellText(s: string): string {
    EscapePipes(TrimSpace(OneLine(s)))
  }

  /** strings.ReplaceAll(s, "\n", " "). */
  function OneLine(s: string): (r: string)
    ensures '\n' !in r
    ensures '\n' !in s ==> r == s
  {
    if s == [] then "" else [if s[0] == '\n' then ' ' else s[0]] + OneLine(s[1..])
  }

  /** strings.ReplaceAll(s, "|", "\\|"). */
  function EscapePipes(s: string): string {
    if s == [] then "" else (if s[0] == '|' then "\\|" else [s[0]]) + EscapePipes(s[1..])
  }

  // ---- Reading: the extent of each kind of block ----

  const MAX_DEPTH := 8

  /** The lines of a fenced block up to its closing fence, and how many lines
      that is together with the closing fence when there is one. */
  function ScanFence(lines: seq<string>, marker: char): (r: (seq<string>, nat))
    ensures r.1 <= |lines|
  {
    if lines == [] then ([], 0)
    else if ClosesFence(lines[0], marker) then ([], 1)
    else
      var rest := ScanFence(lines[1..], marker);
      ([lines[0]] + rest.0, 1 + rest.1)
  }

  /** The lines inside a block quote: quoted ones, and lazy continuations. */
  function ScanQuote(lines: seq<string>): (r: (seq<string>, nat))
    ensures r.1 <= |lines|
    ensures lines != [] && IsBlockquoteLine(lines[0]) ==> r.1 > 0
  {
    if lines == [] then ([], 0)
    else if IsBlockquoteLine(lines[0]) then
      var rest := ScanQuote(lines[1..]);
      ([Unquoted(lines[0])] + rest.0, 1 + rest.1)
    else if Blank(lines[0]) || StartsNewBlock(lines[0]) then ([], 0)
    else
      var rest := ScanQuote(lines[1..]);
      ([lines[0]] + rest.0, 1 + rest.1)
  }

  function Unquoted(line: string): string {
    TrimPrefixChar(TrimPrefixChar(TrimLeft(line, {' '}), '>'), ' ')
  }

  /** Indented code, "pending" counting the blank lines not yet known to be
      inside it. */
  function ScanIndented(lines: seq<string>, pending: nat): (r: (seq<string>, nat))
    ensures r.1 <= |lines|
    ensures lines != [] && !Blank(lines[0]) && IsIndentedCodeLine(lines[0]) ==> r.1 > 0
  {
    if lines == [] then ([], 0)
    else if Blank(lines[0]) then
      var rest := ScanIndented(lines[1..], pending + 1);
      if rest.0 == [] then ([], 0) else (rest.0, 1 + rest.1)
    else if !IsIndentedCodeLine(lines[0]) then ([], 0)
    else
      var rest := ScanIndented(lines[1..], 0);
      (seq(pending, _ => "") + [WithoutCodeIndent(lines[0])] + rest.0, 1 + rest.1)
  }

  function WithoutCodeIndent(line: string): string
    requires IsIndentedCodeLine(line)
  {
    if HasPrefix(line, "\t") then line[1..] else line[4..]
  }

  datatype ParagraphScan = ParagraphScan(body: seq<string>, consumed: nat, level: Option<nat>)

  function ScanParagraph(lines: seq<string>, first: bool): (r: ParagraphScan)
    ensures r.consumed <= |lines|
    ensures first && lines != [] && !Blank(lines[0]) ==> r.consumed > 0
  {
    if lines == [] || Blank(lines[0]) then ParagraphScan([], 0, None)
    else if !first && SetextHeading(lines[0]).Some? then ParagraphScan([], 1, SetextHeading(lines[0]))
    else if !first && (StartsNewBlock(lines[0]) || StartsTable(lines)) then ParagraphScan([], 0, None)
    else
      var rest := ScanParagraph(lines[1..], false);
      ParagraphScan([TrimLeft(lines[0], {' '})] + rest.body, 1 + rest.consumed, rest.level)
  }

  predicate StartsTable(lines: seq<string>) {
    |lines| > 1 && '|' in lines[0] && IsTableDelimiterRow(lines[1])
  }

  /** The table rows from here on. */
  function ScanRows(lines: seq<string>): (r: seq<seq<string>>)
    ensures |r| <= |lines|
  {
    if lines == [] || Blank(lines[0]) || '|' !in lines[0] then []
    else [SplitTableRow(lines[0])] + ScanRows(lines[1..])
  }

  /** The lines of a list item after its first, re-indented to its content. */
  function ScanBody(lines: seq<string>, contentIndent: nat): (r: (seq<string>, nat))
    ensures r.1 <= |lines|
  {
    if lines == [] then ([], 0)
    else if Blank(lines[0]) then
      if |lines| > 1 && IndentOf(lines[1]) < contentIndent && !Blank(lines[1]) then ([], 0)
      else
        var rest := ScanBody(lines[1..], contentIndent);
        ([""] + rest.0, 1 + rest.1)
    else if IndentOf(lines[0]) >= contentIndent then
      var rest := ScanBody(lines[1..], contentIndent);
      ([TrimIndent(lines[0], contentIndent)] + rest.0, 1 + rest.1)
    else if ParseListMarker(lines[0]).Some? || StartsNewBlock(lines[0]) then ([], 0)
    else
      var rest := ScanBody(lines[1..], contentIndent);
      ([TrimLeft(lines[0], {' ', '\t'})] + rest.0, 1 + rest.1)
  }

  datatype RawItem = RawItem(body: seq<string>, checked: Option<bool>)

  predicate ContinuesList(marker: Option<ListMarker>, first: ListMarker) {
    && marker.Some?
    && marker.value.indent <= first.contentIndent
    && marker.value.ordered == first.ordered
    && marker.value.delimiter == first.delimiter
  }

  function ScanItems(lines: seq<string>, first: ListMarker): (r: (seq<RawItem>, nat))
    ensures r.1 <= |lines|
    ensures lines != [] && ContinuesList(ParseListMarker(lines[0]), first) ==> r.1 > 0 && r.0 != []
  {
    if lines == [] || !ContinuesList(ParseListMarker(lines[0]), first) then ([], 0)
    else
      var marker := ParseListMarker(lines[0]).value;
      var body := ScanBody(lines[1..], marker.contentIndent);
      var rest := ScanItems(lines[1 + body.1..], first);
      ([FirstOfItem(marker.content, body.0)] + rest.0, 1 + body.1 + rest.1)
  }

  function FirstOfItem(content: string, body: seq<string>): RawItem {
    match TaskMarker(content)
    case Some(task) => RawItem([task.content] + body, Some(task.checked))
    case None => RawItem([content] + body, None)
  }

  // ---- Reading: blocks ----

  /** The block at the head of the lines, if it is kept, and the lines it takes. */
  datatype Taken<T> = Taken(block: Option<Block<T>>, consumed: nat)

  function Budget(depth: nat): nat {
    if depth < MAX_DEPTH then MAX_DEPTH - depth else 0
  }

  function ParseBlocks<T>(lines: seq<string>, depth: nat, read: string -> seq<T>): seq<Block<T>>
    decreases Budget(depth), |lines|, 1
  {
    if lines == [] then []
    else if Blank(lines[0]) then ParseBlocks(lines[1..], depth, read)
    else
      var taken := ParseBlock(lines, depth, read);
      (if taken.block.Some? then [taken.block.value] else [])
      + ParseBlocks(lines[taken.consumed..], depth, read)
  }

  /** The parser's order of trial. */
  function ParseBlock<T>(lines: seq<string>, depth: nat, read: string -> seq<T>): (r: Taken<T>)
    requires lines != [] && !Blank(lines[0])
    ensures 1 <= r.consumed <= |lines|
    decreases Budget(depth), |lines|, 0
  {
    var line := lines[0];
    if CodeFence(line).Some? then
      var fence := CodeFence(line).value;
      var scan := ScanFence(lines[1..], fence.marker);
      Taken(Some(Code(fence.language, Join(scan.0, "\n"))), 1 + scan.1)
    else if AtxHeading(line).Some? then
      var heading := AtxHeading(line).value;
      Taken(Some(Heading(heading.level, read(heading.text))), 1)
    else if IsThematicBreak(line) then
      Taken(Some(Rule), 1)
    else if depth < MAX_DEPTH && IsBlockquoteLine(line) then
      var scan := ScanQuote(lines);
      Taken(Some(Quote(OrEmptyParagraph(ParseBlocks(scan.0, depth + 1, read)))), scan.1)
    else if StartsTable(lines) && |SplitTableRow(lines[1])| == |SplitTableRow(line)| > 0 then
      ParseTable(lines, read)
    else if depth < MAX_DEPTH && ParseListMarker(line).Some? then
      var first := ParseListMarker(line).value;
      var scan := ScanItems(lines, first);
      var kind := if scan.0[0].checked.Some? then Task else if first.ordered then Ordered else Bullet;
      Taken(Some(List(kind, if kind == Ordered then first.start else 1,
                      ParseItems(scan.0, kind, depth, read))), scan.1)
    else if IsIndentedCodeLine(line) then
      var scan := ScanIndented(lines, 0);
      Taken(Some(Code("", Join(scan.0, "\n"))), scan.1)
    else
      ParseParagraph(lines, read)
  }

  function OrEmptyParagraph<T>(blocks: seq<Block<T>>): seq<Block<T>> {
    if blocks == [] then [Para([])] else blocks
  }

  function ParseItems<T>(raw: seq<RawItem>, kind: ListKind, depth: nat, read: string -> seq<T>): (r: seq<Item<T>>)
    requires depth < MAX_DEPTH
    ensures |r| == |raw|
    decreases Budget(depth), 0, |raw|
  {
    if raw == [] then []
    else
      var checked := kind == Task && raw[0].checked.Some? && raw[0].checked.value;
      [Item(checked, OrEmptyParagraph(ParseBlocks(raw[0].body, depth + 1, read)))]
      + ParseItems(raw[1..], kind, depth, read)
  }

  function ParseParagraph<T>(lines: seq<string>, read: string -> seq<T>): (r: Taken<T>)
    requires lines != [] && !Blank(lines[0])
    ensures 1 <= r.consumed <= |lines|
  {
    var scan := ScanParagraph(lines, true);
    var inline := read(Join(scan.body, "\n"));
    if scan.level.Some? then Taken(Some(Heading(scan.level.value, inline)), scan.consumed)
    else if inline == [] then Taken(None, scan.consumed)
    else Taken(Some(Para(inline)), scan.consumed)
  }

  function ParseTable<T>(lines: seq<string>, read: string -> seq<T>): (r: Taken<T>)
    requires |lines| > 1
    ensures 1 <= r.consumed <= |lines|
  {
    var alignments := SplitTableRow(lines[1]);
    var body := ScanRows(lines[2..]);
    Taken(
      Some(Table(Aligns(alignments), ReadRows([SplitTableRow(lines[0])] + body, |alignments|, read))),
      2 + |body|)
  }

  function Aligns(cells: seq<string>): seq<Align> {
    if cells == [] then [] else [CellAlign(cells[0])] + Aligns(cells[1..])
  }

  function ReadRows<T>(rows: seq<seq<string>>, columns: nat, read: string -> seq<T>): seq<seq<seq<T>>> {
    if rows == [] then [] else [ReadCells(rows[0], columns, read)] + ReadRows(rows[1..], columns, read)
  }

  /** A row is cut or filled up to the number of columns. */
  function ReadCells<T>(cells: seq<string>, columns: nat, read: string -> seq<T>): seq<seq<T>>
    decreases columns
  {
    if columns == 0 then []
    else if cells == [] then [read("")] + ReadCells(cells, columns - 1, read)
    else [read(TrimSpace(cells[0]))] + ReadCells(cells[1..], columns - 1, read)
  }
}
