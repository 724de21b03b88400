/** How internal/httpapi/import_markdown.go classifies a single line. */
module MarkdownSyntax {
  import opened Text

  // ---- Headings, rules, quotes, fences ----

  datatype HeadingLine = HeadingLine(level: nat, text: string)

  function AtxHeading(line: string): Option<HeadingLine> {
    var trimmed := TrimLeft(line, {' '});
    if |line| - |trimmed| > 3 || !HasPrefix(trimmed, "#") then None
    else
      var level := CountPrefix(trimmed, '#');
      if level > 6 then None
      else
        var rest := trimmed[level..];
        if rest != "" && rest[0] != ' ' && rest[0] != '\t' then None
        else Some(HeadingLine(level, WithoutClosingHashes(TrimSpace(rest))))
  }

  /** A closing run of hashes is dropped when a space separates it from the text. */
  function WithoutClosingHashes(text: string): string {
    var stripped := TrimRight(text, {'#'});
    if stripped != text && (stripped == "" || stripped[|stripped| - 1] == ' ') then TrimSpace(stripped)
    else text
  }

  /** The level a setext underline gives to the paragraph above it. */
  function SetextHeading(line: string): Option<nat> {
    var trimmed := TrimSpace(line);
    if trimmed == "" then None
    else if Only(trimmed, '=') then Some(1)
    else if Only(trimmed, '-') && |trimmed| >= 2 then Some(2)
    else None
  }

  predicate IsThematicBreak(line: string) {
    var trimmed := TrimSpace(line);
    var compact := WithoutSpaces(trimmed);
    |trimmed| >= 3 && |compact| >= 3 && (Only(compact, '-') || Only(compact, '*') || Only(compact, '_'))
  }

  predicate IsBlockquoteLine(line: string) {
    HasPrefix(TrimLeft(line, {' '}), ">")
  }

  datatype Fence = Fence(marker: char, language: string)

  function CodeFence(line: string): Option<Fence> {
    var trimmed := TrimLeft(line, {' '});
    if |line| - |trimmed| > 3 then None
    else if HasPrefix(trimmed, "```") then Some(Fence('`', FenceLanguage(TrimLeft(trimmed, {'`'}))))
    else if HasPrefix(trimmed, "~~~") then Some(Fence('~', FenceLanguage(TrimLeft(trimmed, {'~'}))))
    else None
  }

  /** The first word after the fence, or nothing when it cannot be a language. */
  function FenceLanguage(rest: string): string {
    SanitizeLanguage(FirstField(TrimSpace(rest)))
  }

  function FirstField(s: string): string {
    if s == [] || IsSpace(s[0]) then "" else [s[0]] + FirstField(s[1..])
  }

  predicate IsLanguageChar(c: char) {
    c == '-' || c == '+' || c == '#' || c == '.' || 'a' <= c <= 'z' || IsDigit(c)
  }

  function LowerChar(c: char): char {
    if 'A' <= c <= 'Z' then c + 32 as char else c
  }

  function Lower(s: string): (r: string)
    ensures |r| == |s|
    ensures forall i | 0 <= i < |s| :: r[i] == LowerChar(s[i])
  {
    if s == [] then "" else [LowerChar(s[0])] + Lower(s[1..])
  }

  function SanitizeLanguage(value: string): string {
    var lower := Lower(value);
    if |lower| > 32 || exists i | 0 <= i < |lower| :: !IsLanguageChar(lower[i]) then "" else lower
  }

  predicate ClosesFence(line: string, marker: char) {
    var trimmed := TrimSpace(line);
    |trimmed| >= 3 && Only(trimmed, marker)
  }

  predicate IsIndentedCodeLine(line: string) {
    HasPrefix(line, "    ") || HasPrefix(line, "\t")
  }

  // ---- List markers ----

  datatype ListMarker = ListMarker(
    indent: nat, contentIndent: nat, ordered: bool, start: nat, delimiter: char, content: string)

  function ParseListMarker(line: string): Option<ListMarker> {
    var trimmed := TrimLeft(line, {' ', '\t'});
    var indent := |line| - |trimmed|;
    if indent > 8 || trimmed == "" || IsThematicBreak(line) then None
    else if trimmed[0] == '-' || trimmed[0] == '*' || trimmed[0] == '+' then
      if |trimmed| < 2 || (trimmed[1] != ' ' && trimmed[1] != '\t') then None
      else
        var rest := TrimLeft(trimmed[1..], {' ', '\t'});
        Some(ListMarker(indent, indent + |trimmed| - |rest|, false, 0, trimmed[0], rest))
    else
      OrderedMarker(trimmed, indent)
  }

  /** A number of one to nine digits, a dot or a parenthesis, and white space. */
  function OrderedMarker(trimmed: string, indent: nat): Option<ListMarker> {
    var digits := CountDigits(trimmed);
    if digits == 0 || digits > 9 || digits >= |trimmed| then None
    else if trimmed[digits] != '.' && trimmed[digits] != ')' then None
    else if digits + 1 >= |trimmed| || (trimmed[digits + 1] != ' ' && trimmed[digits + 1] != '\t') then None
    else
      var rest := TrimLeft(trimmed[digits + 1..], {' ', '\t'});
      Some(ListMarker(indent, indent + |trimmed| - |rest|, true, Atoi(trimmed[..digits]), trimmed[digits], rest))
  }

  datatype TaskLine = TaskLine(checked: bool, content: string)

  function TaskMarker(content: string): Option<TaskLine> {
    if |content| < 3 || content[0] != '[' || content[2] != ']' then None
    else if content[1] == ' ' then Some(TaskLine(false, TrimLeft(content[3..], {' ', '\t'})))
    else if content[1] == 'x' || content[1] == 'X' then Some(TaskLine(true, TrimLeft(content[3..], {' ', '\t'})))
    else None
  }

  predicate StartsNewBlock(line: string) {
    || AtxHeading(line).Some?
    || CodeFence(line).Some?
    || IsThematicBreak(line)
    || IsBlockquoteLine(line)
    || ParseListMarker(line).Some?
  }

  // ---- Indentation ----

  /** The width of a line's indentation, a tab counting four columns. */
  function IndentOf(line: string): nat {
    if line == [] then 0
    else if line[0] == ' ' then 1 + IndentOf(line[1..])
    else if line[0] == '\t' then 4 + IndentOf(line[1..])
    else 0
  }

  /** Removes up to width columns of indentation. */
  function TrimIndent(line: string, width: int): string {
    if line == [] || width <= 0 then line
    else if line[0] == ' ' then TrimIndent(line[1..], width - 1)
    else if line[0] == '\t' then TrimIndent(line[1..], width - 4)
    else line
  }

  method TrimIndentLoop(line: string, width: int) returns (result: string)
    ensures result == TrimIndent(line, width)
  {
    var removed, index := 0, 0;
    while index < |line| && removed < width
      invariant index <= |line|
      invariant TrimIndent(line[index..], width - removed) == TrimIndent(line, width)
      decreases |line| - index
    {
      assert line[index..][1..] == line[index + 1..];
      if line[index] == ' ' {
        removed := removed + 1;
        index := index + 1;
      } else if line[index] == '\t' {
        removed := removed + 4;
        index := index + 1;
      } else {
        return line[index..];
      }
    }
    result := line[index..];
  }

  /** Indenting by w spaces and trimming w columns gives the line back. */
  lemma {:induction false} TrimIndentUndoes(line: string, width: nat)
    ensures TrimIndent(Repeat(' ', width) + line, width) == line
    ensures IndentOf(Repeat(' ', width) + line) >= width
  {
    if width == 0 {
      assert Repeat(' ', 0) + line == line;
    } else {
      assert (Repeat(' ', width) + line)[1..] == Repeat(' ', width - 1) + line;
      TrimIndentUndoes(line, width - 1);
    }
  }

  // ---- Table rows ----

  /** The scan of one table row: text collected for the current cell, and
      whether the last thing seen was a delimiter. */
  function SplitCells(s: string, current: string, ended: bool): seq<string> {
    if s == [] then (if ended then [] else [current])
    else if s[0] == '\\' && |s| > 1 && s[1] == '|' then SplitCells(s[2..], current + "|", false)
    else if s[0] == '|' then [current] + SplitCells(s[1..], "", true)
    else SplitCells(s[1..], current + [s[0]], false)
  }

  /** The cells between unescaped pipes; the outer pipes are optional. */
  function SplitTableRow(line: string): seq<string> {
    SplitCells(TrimPrefixChar(TrimSpace(line), '|'), "", false)
  }

  method SplitTableRowLoop(line: string) returns (cells: seq<string>)
    ensures cells == SplitTableRow(line)
  {
    var runes := TrimPrefixChar(TrimSpace(line), '|');
    var current := "";
    var endedWithDelimiter := false;
    cells := [];
    var index := 0;
    while index < |runes|
      invariant index <= |runes|
      invariant cells + SplitCells(runes[index..], current, endedWithDelimiter) == SplitTableRow(line)
    {
      assert runes[index..][1..] == runes[index + 1..];
      if runes[index] == '\\' && index + 1 < |runes| && runes[index + 1] == '|' {
        assert runes[index..][2..] == runes[index + 2..];
        current := current + "|";
        index := index + 2;
        endedWithDelimiter := false;
      } else if runes[index] == '|' {
        cells := cells + [current];
        current := "";
        endedWithDelimiter := true;
        index := index + 1;
      } else {
        current := current + [runes[index]];
        endedWithDelimiter := false;
        index := index + 1;
      }
    }
    if !endedWithDelimiter {
      cells := cells + [current];
    }
  }

  /** One cell of a delimiter row: dashes, optionally with a colon at either end. */
  predicate IsDelimiterCell(cell: string) {
    var trimmed := TrimSpace(cell);
    var body := TrimSuffixChar(TrimPrefixChar(trimmed, ':'), ':');
    trimmed != "" && body != "" && Only(body, '-')
  }

  predicate IsTableDelimiterRow(line: string) {
    var trimmed := TrimSpace(line);
    && '-' in trimmed
    && forall cell | cell in SplitTableRow(trimmed) :: IsDelimiterCell(cell)
  }

  datatype Align = Plain | Center | Right

  function CellAlign(cell: string): Align {
    var trimmed := TrimSpace(cell);
    var left := HasPrefix(trimmed, ":");
    var right := trimmed != "" && trimmed[|trimmed| - 1] == ':';
    if left && right then Center else if right then Right else Plain
  }
}
