/** The parser undoes the printer, block by block. */
module MarkdownReadBack {
  import opened Text
  import opened MarkdownSyntax
  import opened MarkdownBlocks
  import opened MarkdownColumns
  import opened MarkdownRoundTrip

  // ---- Where the lines of a block stand ----

  /** Lines of which the first stands at one column and the others at another, as
      behind a marker; blank lines stay empty. */
  function Moved(first: nat, column: nat, lines: seq<string>): (r: seq<string>)
    requires lines != []
    ensures |r| == |lines|
  {
    [At(first, lines[0])] + Indented(column, lines[1..])
  }

  /** All lines at one column, or only the first at the margin. A task shifts by four. */
  predicate Places(first: nat, column: nat) {
    (first == column || first == 0) && column % 4 == 0
  }

  ghost predicate Fits<T>(b: Block<T>, first: nat, column: nat, followed: bool) {
    if first == column then column == 0 || Shifts(b, column) else StartHangs(b, column, followed)
  }

  /** What may follow a block in printed text: nothing, a final blank line, or a
      blank line and a line at the column of the text. */
  predicate RestAt(rest: seq<string>, column: nat) {
    rest == [] || rest == [""] || (|rest| > 1 && rest[0] == "" && IndentedBy(rest[1], column))
  }

  /** The blank line at the very end, which a list takes with it. */
  function Swallowed(rest: seq<string>): seq<string> {
    if rest == [""] then [""] else []
  }

  /** Whatever follows, the parser takes block b off the front of its own
      printed lines; a list takes the final blank line along. */
  ghost predicate ReadsBack<T(!new)>(
    b: Block<T>, first: nat, column: nat, rest: seq<string>, depth: nat, show: seq<T> -> string, read: string -> seq<T>)
  {
    var core := Core(b, show);
    && core != []
    && var lines := Moved(first, column, core) + rest;
    && !Blank(lines[0])
    && ParseBlock(lines, depth, read)
       == Taken(Some(b), |core| + if b.List? then |Swallowed(rest)| else 0)
  }

  lemma MovedLine(first: nat, column: nat, lines: seq<string>, i: nat)
    requires i < |lines|
    ensures Moved(first, column, lines)[i]
         == if i == 0 then At(first, lines[0]) else if Blank(lines[i]) then "" else At(column, lines[i])
  {
    if i > 0 { IndentedLine(column, lines[1..], i - 1); }
  }

  lemma {:induction false} IndentedConcat(column: nat, a: seq<string>, b: seq<string>)
    ensures Indented(column, a + b) == Indented(column, a) + Indented(column, b)
  {
    if a == [] {
      assert a + b == b;
    } else {
      assert (a + b)[1..] == a[1..] + b;
      IndentedConcat(column, a[1..], b);
    }
  }

  lemma MovedConcat(first: nat, column: nat, a: seq<string>, b: seq<string>)
    requires a != []
    ensures Moved(first, column, a + b) == Moved(first, column, a) + Indented(column, b)
  {
    assert (a + b)[1..] == a[1..] + b;
    IndentedConcat(column, a[1..], b);
  }

  /** Lines whose blank ones are empty stay as they are at the margin. */
  lemma {:induction false} IndentedNothing(lines: seq<string>)
    requires forall line | line in lines :: Blank(line) ==> line == ""
    ensures Indented(0, lines) == lines
  {
    if lines != [] {
      assert lines[0] in lines && forall line | line in lines[1..] :: line in lines;
      AtMargin(lines[0]);
      IndentedNothing(lines[1..]);
      assert [lines[0]] + lines[1..] == lines;
    }
  }

  lemma MovedNothing(lines: seq<string>)
    requires Tidy(lines)
    ensures Moved(0, 0, lines) == lines
  {
    AtMargin(lines[0]);
    assert forall line | line in lines[1..] :: line in lines;
    IndentedNothing(lines[1..]);
  }

  lemma MovedAlike(column: nat, lines: seq<string>)
    requires lines != [] && HeadOk(lines[0])
    ensures Moved(column, column, lines) == Indented(column, lines)
  {
  }

  // ---- One line at a time ----

  lemma OtherThan(line: string)
    requires line != "" && !IsSpace(line[0])
    ensures line[0] != '`' && line[0] != '~' ==> CodeFence(line).None?
    ensures line[0] != '#' ==> AtxHeading(line).None?
    ensures line[0] != '-' && line[0] != '*' && line[0] != '_' ==> !IsThematicBreak(line)
    ensures IsBlockquoteLine(line) <==> line[0] == '>'
    ensures !Blank(line) && !IsIndentedCodeLine(line)
  {
    VisibleHead(line);
    assert WithoutSpaces(TrimSpace(line))[0] == line[0];
  }

  lemma BlankIsNothing()
    ensures Blank("") && !IsTableDelimiterRow("") && ParseListMarker("").None?
  {
  }

  /** A visible first character settles what a line at some column can start. */
  lemma OtherThanAt(column: nat, line: string)
    requires line != "" && !IsSpace(line[0])
    ensures line[0] != '`' && line[0] != '~' ==> CodeFence(At(column, line)).None?
    ensures line[0] != '#' ==> AtxHeading(At(column, line)).None?
    ensures line[0] != '-' && line[0] != '*' && line[0] != '_' ==> !IsThematicBreak(At(column, line))
    ensures IsBlockquoteLine(At(column, line)) <==> line[0] == '>'
    ensures !Blank(At(column, line)) && !Blank(line)
  {
    hide CodeFence, AtxHeading, IsThematicBreak, IsBlockquoteLine, Blank;
    OtherThan(line);
    FenceAt(column, line);
    SameTrimmed(column, line);
    QuoteAt(column, line);
    TrimSpaceAt(column, line);
  }

  lemma NoTableBefore(line: string, rest: seq<string>)
    requires rest == [] || rest[0] == ""
    ensures !StartsTable([line] + rest)
  {
    BlankIsNothing();
    if rest != [] { assert ([line] + rest)[1] == ""; }
  }

  // ---- Paragraphs, headings, rules ----

  /** The next lines of a paragraph go on with it at any column. */
  lemma ContinuesStep(line: string, column: nat, more: seq<string>)
    requires HeadOk(line) && !StartsNewBlock(line) && SetextHeading(line).None?
    requires !StartsTable([At(column, line)] + more)
    ensures var scan := ScanParagraph(more, false);
            ScanParagraph([At(column, line)] + more, false) == ParagraphScan([line] + scan.body, 1 + scan.consumed, scan.level)
  {
    hide StartsNewBlock, StartsTable, SetextHeading, Blank;
    var lines := [At(column, line)] + more;
    assert lines[1..] == more;
    SameTrimmed(column, line);
    TrimSpaceAt(column, line);
    StartsAt(column, line);
    TrimLeftAt(column, line, {' '});
  }

  lemma NoTableAt(column: nat, lines: seq<string>, rest: seq<string>)
    requires lines != [] && !StartsTable(lines) && (rest == [] || rest[0] == "")
    requires |lines| > 1 ==> HeadOk(lines[1])
    ensures !StartsTable([At(column, lines[0])] + Indented(column, lines[1..]) + rest)
  {
    hide StartsTable;
    var all := [At(column, lines[0])] + Indented(column, lines[1..]) + rest;
    if |lines| == 1 {
      assert all == [At(column, lines[0])] + rest;
      NoTableBefore(At(column, lines[0]), rest);
    } else {
      StartsTableAt(column, column, lines, all);
    }
  }

  lemma {:induction false} ContinuesBack(lines: seq<string>, column: nat, rest: seq<string>)
    requires Continues(lines) && (rest == [] || rest[0] == "")
    ensures ScanParagraph(Indented(column, lines) + rest, false) == ParagraphScan(lines, |lines|, None)
  {
    hide StartsNewBlock, StartsTable, SetextHeading, ScanParagraph, Indented, At, HeadOk;
    if lines == [] {
      NothingIndented(column, rest);
      ParagraphEnds(rest);
    } else {
      var more := Indented(column, lines[1..]) + rest;
      ContinuesHead(lines);
      NoTableAt(column, lines, rest);
      IndentedHeadLine(column, lines, rest);
      ContinuesStep(lines[0], column, more);
      ContinuesBack(lines[1..], column, rest);
      assert [lines[0]] + lines[1..] == lines;
    }
  }

  lemma ContinuesHead(lines: seq<string>)
    requires Continues(lines) && lines != []
    ensures HeadOk(lines[0]) && !Blank(lines[0]) && (|lines| > 1 ==> HeadOk(lines[1]))
  {
  }

  lemma NothingIndented(column: nat, rest: seq<string>)
    ensures Indented(column, []) + rest == rest
  {
  }

  lemma IndentedHeadLine(column: nat, lines: seq<string>, rest: seq<string>)
    requires lines != [] && !Blank(lines[0])
    ensures Indented(column, lines) + rest == [At(column, lines[0])] + (Indented(column, lines[1..]) + rest)
    ensures Indented(column, lines) + rest == [At(column, lines[0])] + Indented(column, lines[1..]) + rest
  {
  }

  lemma ParagraphEnds(rest: seq<string>)
    requires rest == [] || rest[0] == ""
    ensures ScanParagraph(rest, false) == ParagraphScan([], 0, None)
  {
    BlankIsNothing();
  }

  lemma ScanParagraphBack(lines: seq<string>, column: nat, rest: seq<string>)
    requires ParagraphLines(lines) && (rest == [] || rest[0] == "")
    ensures ScanParagraph(Moved(0, column, lines) + rest, true) == ParagraphScan(lines, |lines|, None)
  {
    hide StartsNewBlock, StartsTable, SetextHeading, TableHead;
    var all := Moved(0, column, lines) + rest;
    AtMargin(lines[0]);
    assert all[1..] == Indented(column, lines[1..]) + rest;
    ContinuesBack(lines[1..], column, rest);
    TrimLeftNothing(lines[0], {' '});
    assert [lines[0]] + lines[1..] == lines;
  }

  /** A line that starts nothing is tried as a paragraph when it heads no table. */
  lemma PlainDispatch<T>(lines: seq<string>, depth: nat, read: string -> seq<T>)
    requires lines != [] && HeadOk(lines[0]) && !StartsNewBlock(lines[0]) && !TableHead(lines)
    ensures ParseBlock(lines, depth, read) == ParseParagraph(lines, read)
  {
    hide CodeFence, AtxHeading, IsThematicBreak, IsBlockquoteLine, ParseListMarker, StartsTable, SplitTableRow, ParseParagraph;
    NotIndentedCode(lines[0]);
  }

  lemma NoTableHead(column: nat, lines: seq<string>, rest: seq<string>)
    requires lines != [] && !TableHead(lines) && (rest == [] || rest[0] == "")
    ensures !TableHead(Moved(0, column, lines) + rest)
  {
    hide StartsTable, SplitTableRow;
    TableHeadMoved(0, column, lines, rest);
  }

  /** Indenting lines makes no table of them and takes none away. */
  lemma TableHeadMoved(first: nat, column: nat, lines: seq<string>, rest: seq<string>)
    requires lines != [] && (rest == [] || rest[0] == "")
    ensures TableHead(Moved(first, column, lines) + rest) <==> TableHead(lines)
  {
    hide StartsTable, SplitTableRow;
    var all := Moved(first, column, lines) + rest;
    MovedLine(first, column, lines, 0);
    if |lines| == 1 {
      assert all == [At(first, lines[0])] + rest && !StartsTable(lines) by { assert Indented(column, []) == []; OneLineNoTable(lines); }
      NoTableBefore(At(first, lines[0]), rest);
    } else {
      MovedLine(first, column, lines, 1);
      if Blank(lines[1]) {
        BlankNoTable(lines, all);
      } else {
        StartsTableAt(first, column, lines, all);
      }
    }
  }

  lemma OneLineNoTable(lines: seq<string>)
    requires |lines| == 1
    ensures !StartsTable(lines)
  {
  }

  lemma BlankNoTable(lines: seq<string>, all: seq<string>)
    requires |lines| > 1 && |all| > 1 && Blank(lines[1]) && all[1] == ""
    ensures !StartsTable(lines) && !StartsTable(all)
  {
    BlankIsNothing();
    assert '-' !in TrimSpace(lines[1]);
  }

  lemma ParaBack<T(!new)>(
      text: seq<T>, column: nat, rest: seq<string>, depth: nat,
      show: seq<T> -> string, read: string -> seq<T>, good: seq<T> -> bool)
    requires Faithful(show, read, good) && WfBlock(Para(text), show, good) && (rest == [] || rest[0] == "")
    ensures ReadsBack(Para(text), 0, column, rest, depth, show, read)
  {
    hide StartsNewBlock, TableHead, ScanParagraph, ParseBlock, Blank, Split, Join, Moved;
    var core := Split(show(text), '\n');
    TidyParagraph(show(text));
    assert Core(Para(text), show) == core;
    var lines := Moved(0, column, core) + rest;
    assert lines[0] == core[0] by { MovedLine(0, column, core, 0); AtMargin(core[0]); }
    NoTableHead(column, core, rest);
    PlainDispatch(lines, depth, read);
    ScanParagraphBack(core, column, rest);
    JoinSplit(show(text), '\n');
  }

  lemma {:induction false} CountHashes(level: nat, tail: string)
    requires tail == [] || tail[0] != '#'
    ensures CountPrefix(Repeat('#', level) + tail, '#') == level
  {
    var s := Repeat('#', level) + tail;
    if level == 0 {
      assert s == tail;
    } else {
      assert s[1..] == Repeat('#', level - 1) + tail;
      CountHashes(level - 1, tail);
    }
  }

  lemma HeadingLineBack(level: nat, t: string)
    requires 1 <= level <= 6 && Trimmed(t) && WithoutClosingHashes(t) == t
    ensures var line := Repeat('#', level) + " " + t;
            AtxHeading(line) == Some(HeadingLine(level, t)) && CodeFence(line).None? && !Blank(line)
  {
    hide WithoutClosingHashes, IsThematicBreak, CountPrefix, TrimSpace, IsBlockquoteLine, IsIndentedCodeLine, FenceLanguage, CodeFence, Blank;
    var line := Repeat('#', level) + " " + t;
    OtherThan(line);
    TrimLeftNothing(line, {' '});
    assert line == Repeat('#', level) + (" " + t);
    CountHashes(level, " " + t);
    assert line[level..] == " " + t;
    TrimSpacePadded(" ", t, "");
    assert " " + t + "" == " " + t;
  }

  lemma HeadingBack<T(!new)>(
      level: nat, text: seq<T>, column: nat, rest: seq<string>, depth: nat,
      show: seq<T> -> string, read: string -> seq<T>, good: seq<T> -> bool)
    requires Faithful(show, read, good) && WfBlock(Heading(level, text), show, good)
    ensures ReadsBack(Heading(level, text), 0, column, rest, depth, show, read)
  {
    hide AtxHeading, CodeFence, Blank, WithoutClosingHashes;
    var line := Repeat('#', level) + " " + show(text);
    HeadingLineBack(level, show(text));
    SplitOne(line, '\n');
    assert Core(Heading(level, text), show) == [line];
    AtMargin(line);
    assert Moved(0, column, [line]) == [line];
  }

  lemma RuleLine(column: nat)
    ensures IsThematicBreak(At(column, "---"))
  {
    SameTrimmed(column, "---");
    TrimSpaceOfTrimmed("---");
    assert WithoutSpaces("---") == "---" by {
      assert "---"[1..] == "--" && "--"[1..] == "-" && "-"[1..] == "";
    }
  }

  lemma RuleBack<T(!new)>(first: nat, column: nat, rest: seq<string>, depth: nat, show: seq<T> -> string, read: string -> seq<T>)
    ensures ReadsBack(Rule, first, column, rest, depth, show, read)
  {
    hide IsThematicBreak, CodeFence, AtxHeading, Blank;
    assert Core<T>(Rule, show) == ["---"];
    OtherThanAt(first, "---");
    RuleLine(first);
    assert Moved(first, column, ["---"]) == [At(first, "---")];
  }

  // ---- Fenced code ----

  lemma {:induction false} JoinSplit(s: string, c: char)
    ensures Join(Split(s, c), [c]) == s
  {
    if s != [] {
      var rest := Split(s[1..], c);
      JoinSplit(s[1..], c);
      if s[0] == c {
        assert ([""] + rest)[1..] == rest;
        assert "" + [c] + s[1..] == s;
      } else {
        var pieces := [[s[0]] + rest[0]] + rest[1..];
        assert pieces[1..] == rest[1..];
        assert |rest| == 1 ==> Join(pieces, [c]) == [s[0]] + rest[0];
        assert |rest| > 1 ==> Join(pieces, [c]) == [s[0]] + (rest[0] + [c] + Join(rest[1..], [c]));
        assert [s[0]] + s[1..] == s;
      }
    }
  }

  lemma {:induction false} FirstFieldOfWord(s: string)
    requires forall i | 0 <= i < |s| :: !IsSpace(s[i])
    ensures FirstField(s) == s
  {
    if s != [] { FirstFieldOfWord(s[1..]); }
  }

  lemma FenceLanguageBack(language: string)
    requires SanitizeLanguage(language) == language
    ensures language == "" || language[0] != '`'
    ensures FenceLanguage(language) == language
  {
    assert forall i | 0 <= i < |language| :: IsLanguageChar(language[i]);
    assert forall i | 0 <= i < |language| :: !IsSpace(language[i]);
    TrimSpaceOfTrimmed(language);
    FirstFieldOfWord(language);
  }

  lemma {:induction false} TrimBackticks(n: nat, tail: string)
    requires tail == "" || tail[0] != '`'
    ensures TrimLeft(Repeat('`', n) + tail, {'`'}) == tail
  {
    var s := Repeat('`', n) + tail;
    if n == 0 {
      assert s == tail;
    } else {
      assert s[1..] == Repeat('`', n - 1) + tail;
      TrimBackticks(n - 1, tail);
    }
  }

  lemma LanguageBack(language: string)
    requires SanitizeLanguage(language) == language
    ensures CodeFence("```" + language) == Some(Fence('`', language))
  {
    var line := "```" + language;
    TrimLeftNothing(line, {' '});
    FenceLanguageBack(language);
    TrimBackticks(3, language);
    assert Repeat('`', 3) == "```";
  }

  lemma ClosingFence(column: nat)
    ensures ClosesFence(At(column, "```"), '`') && !Blank("```")
  {
    SameTrimmed(column, "```");
    TrimSpaceOfTrimmed("```");
  }

  lemma {:induction false} ScanFenceBack(body: seq<string>, last: string, rest: seq<string>)
    requires ClosesFence(last, '`') && forall line | line in body :: !ClosesFence(line, '`')
    ensures ScanFence(body + [last] + rest, '`') == (body, |body| + 1)
  {
    hide ClosesFence;
    var lines := body + [last] + rest;
    if body != [] {
      assert body[0] in body;
      assert lines[0] == body[0] && lines[1..] == body[1..] + [last] + rest;
      assert [body[0]] + body[1..] == body;
      assert forall line | line in body[1..] :: line in body;
      ScanFenceBack(body[1..], last, rest);
    }
  }

  /** The body of code as printed at some column. */
  lemma CodeMoved(language: string, body: seq<string>, column: nat)
    ensures Moved(0, column, ["```" + language] + body + ["```"])
         == ["```" + language] + Indented(column, body) + [At(column, "```")]
  {
    var core := ["```" + language] + body + ["```"];
    assert core[1..] == body + ["```"];
    IndentedConcat(column, body, ["```"]);
    ClosingFence(column);
    AtMargin(core[0]);
    assert Indented(column, ["```"]) == [At(column, "```")] by { assert ["```"][1..] == []; }
  }

  lemma {:induction false} IndentedBody(column: nat, body: seq<string>)
    requires forall line | line in body :: !ClosesFence(line, '`')
    ensures forall line | line in Indented(column, body) :: !ClosesFence(line, '`')
  {
    if body != [] {
      assert body[0] in body && forall line | line in body[1..] :: line in body;
      IndentedBody(column, body[1..]);
      SameTrimmed(column, body[0]);
      EmptyClosesNothing();
    }
  }

  lemma EmptyClosesNothing()
    ensures !ClosesFence("", '`')
  {
  }

  /** Code at some column: the body is read as it stands there. */
  lemma CodeRead<T(!new)>(
      language: string, source: string, column: nat, rest: seq<string>, depth: nat,
      show: seq<T> -> string, read: string -> seq<T>, good: seq<T> -> bool)
    requires WfBlock(Code(language, source), show, good)
    ensures var core, body := Core(Code(language, source), show), Split(source, '\n');
            && core == ["```" + language] + body + ["```"]
            && var lines := Moved(0, column, core) + rest;
            && !Blank(lines[0])
            && ParseBlock(lines, depth, read) == Taken(Some(Code(language, Join(Indented(column, body), "\n"))), |core|)
  {
    hide CodeFence, Blank, SanitizeLanguage, ClosesFence, ScanFence, Join, Split, Indented, Moved;
    LanguageOneLine(language);
    var body := Split(source, '\n');
    assert Core(Code(language, source), show) == ["```" + language] + body + ["```"];
    CodeMoved(language, body, column);
    var inner := Indented(column, body);
    var lines := ["```" + language] + inner + [At(column, "```")] + rest;
    OtherThan(lines[0]);
    assert lines[1..] == inner + [At(column, "```")] + rest;
    LanguageBack(language);
    ClosingFence(column);
    IndentedBody(column, body);
    ScanFenceBack(inner, At(column, "```"), rest);
  }

  lemma CodeBack<T(!new)>(
      language: string, source: string, column: nat, rest: seq<string>, depth: nat,
      show: seq<T> -> string, read: string -> seq<T>, good: seq<T> -> bool)
    requires WfBlock(Code(language, source), show, good)
    requires column == 0 || forall line | line in Split(source, '\n') :: line == ""
    ensures ReadsBack(Code(language, source), 0, column, rest, depth, show, read)
  {
    hide ParseBlock, Moved, SanitizeLanguage, ClosesFence, Split, Join;
    var body := Split(source, '\n');
    CodeRead(language, source, column, rest, depth, show, read, good);
    if column == 0 { IndentedNothing(body); } else { IndentedEmpty(column, body); }
    JoinSplit(source, '\n');
  }

  lemma {:induction false} IndentedEmpty(column: nat, lines: seq<string>)
    requires forall line | line in lines :: line == ""
    ensures Indented(column, lines) == lines
  {
    if lines != [] {
      assert lines[0] in lines && forall line | line in lines[1..] :: line in lines;
      BlankIsNothing();
      IndentedEmpty(column, lines[1..]);
    }
  }

  // ---- Quotes ----

  lemma ScanQuoteStep(column: nat, line: string, more: seq<string>)
    ensures var scan := ScanQuote(more);
            ScanQuote([At(column, "> " + line)] + more) == ([line] + scan.0, 1 + scan.1)
  {
    var quoted := "> " + line;
    QuoteAt(column, quoted);
    assert ([At(column, quoted)] + more)[1..] == more;
    TrimLeftNothing(quoted, {' '});
    assert quoted[1..] == " " + line && (" " + line)[1..] == line;
  }

  lemma {:induction false} ScanQuoteBack(inner: seq<string>, column: nat, rest: seq<string>)
    requires rest == [] || rest[0] == ""
    ensures ScanQuote(Indented(column, Prefixed("> ", inner)) + rest) == (inner, |inner|)
  {
    hide ScanQuote, Blank, Indented, At;
    if inner == [] {
      NothingIndented(column, rest);
      QuoteEnds(rest);
    } else {
      var more := Indented(column, Prefixed("> ", inner[1..])) + rest;
      OtherThan("> " + inner[0]);
      assert Prefixed("> ", inner)[1..] == Prefixed("> ", inner[1..]);
      IndentedHeadLine(column, Prefixed("> ", inner), rest);
      ScanQuoteStep(column, inner[0], more);
      ScanQuoteBack(inner[1..], column, rest);
      assert [inner[0]] + inner[1..] == inner;
    }
  }

  lemma QuoteEnds(rest: seq<string>)
    requires rest == [] || rest[0] == ""
    ensures ScanQuote(rest) == ([], 0)
  {
    BlankIsNothing();
  }

  lemma QuoteMoved(inner: seq<string>, first: nat, column: nat, rest: seq<string>)
    requires inner != [] && (rest == [] || rest[0] == "")
    ensures |Prefixed("> ", inner)| == |inner|
    ensures var lines := Moved(first, column, Prefixed("> ", inner)) + rest;
            lines[0] == At(first, "> " + inner[0]) && ScanQuote(lines) == (inner, |inner|)
  {
    hide ScanQuote, Blank;
    PrefixedLine("> ", inner, 0);
    var more := Indented(column, Prefixed("> ", inner[1..])) + rest;
    assert Prefixed("> ", inner)[1..] == Prefixed("> ", inner[1..]);
    assert Moved(first, column, Prefixed("> ", inner)) + rest == [At(first, "> " + inner[0])] + more;
    ScanQuoteStep(first, inner[0], more);
    ScanQuoteBack(inner[1..], column, rest);
    assert [inner[0]] + inner[1..] == inner;
  }

  // ---- Tables ----

  /** A pipe inside a cell survives because it is escaped; a backslash never
      swallows the delimiter because a space stands between them. */
  lemma {:induction false} SplitEscaped(cell: string, current: string, ended: bool, rest: string)
    ensures SplitCells(EscapePipes(cell) + " |" + rest, current, ended)
         == [current + cell + " "] + SplitCells(rest, "", true)
  {
    var s := EscapePipes(cell) + " |" + rest;
    if cell == [] {
      assert s == " |" + rest;
      assert s[1..] == "|" + rest && s[1..][1..] == rest;
      assert current + cell + " " == current + " ";
    } else {
      var tail := EscapePipes(cell[1..]) + " |" + rest;
      if cell[0] == '|' {
        assert s == "\\|" + tail;
        assert s[2..] == tail;
        SplitEscaped(cell[1..], current + "|", false, rest);
        assert current + "|" + cell[1..] + " " == current + cell + " ";
      } else {
        assert s == [cell[0]] + tail;
        assert s[1..] == tail;
        assert tail[0] != '|';
        SplitEscaped(cell[1..], current + [cell[0]], false, rest);
        assert current + [cell[0]] + cell[1..] + " " == current + cell + " ";
      }
    }
  }

  /** The cells of a row as the splitter hands them over, still padded. */
  function PaddedTexts<T>(cells: seq<seq<T>>, show: seq<T> -> string): seq<string> {
    if cells == [] then [] else [" " + TrimSpace(OneLine(show(cells[0]))) + " "] + PaddedTexts(cells[1..], show)
  }

  lemma {:induction false} SplitPadded<T>(cells: seq<seq<T>>, show: seq<T> -> string, ended: bool)
    requires cells != [] || ended
    ensures SplitCells(PaddedCells(cells, |cells|, show), "", ended) == PaddedTexts(cells, show)
  {
    hide TrimSpace, OneLine, EscapePipes;
    if cells != [] {
      var cell := TrimSpace(OneLine(show(cells[0])));
      var rest := PaddedCells(cells[1..], |cells| - 1, show);
      var s := PaddedCells(cells, |cells|, show);
      assert s == " " + (EscapePipes(cell) + " |" + rest);
      assert s[1..] == EscapePipes(cell) + " |" + rest;
      assert s[0] == ' ' && "" + [s[0]] == " ";
      assert SplitCells(s, "", ended) == SplitCells(s[1..], " ", false);
      SplitEscaped(cell, " ", false, rest);
      SplitPadded(cells[1..], show, true);
    }
  }

  lemma {:induction false} PaddedEndsInPipe<T>(cells: seq<seq<T>>, show: seq<T> -> string)
    requires cells != []
    ensures PaddedCells(cells, |cells|, show) != []
    ensures var s := PaddedCells(cells, |cells|, show); s[|s| - 1] == '|'
  {
    if |cells| > 1 { PaddedEndsInPipe(cells[1..], show); }
  }

  lemma SplitRowLine<T>(cells: seq<seq<T>>, show: seq<T> -> string)
    requires cells != []
    ensures SplitTableRow(RowLine(cells, |cells|, show)) == PaddedTexts(cells, show)
  {
    var line := RowLine(cells, |cells|, show);
    PaddedEndsInPipe(cells, show);
    TrimSpaceOfTrimmed(line);
    assert TrimPrefixChar(line, '|') == PaddedCells(cells, |cells|, show);
    SplitPadded(cells, show, false);
  }

  lemma {:induction false} ReadCellsBack<T(!new)>(
      cells: seq<seq<T>>, show: seq<T> -> string, read: string -> seq<T>, good: seq<T> -> bool)
    requires Faithful(show, read, good) && WfCells(cells, show, good)
    ensures |PaddedTexts(cells, show)| == |cells|
    ensures ReadCells(PaddedTexts(cells, show), |cells|, read) == cells
  {
    if cells != [] {
      TrimSpaceOfTrimmed(show(cells[0]));
      TrimSpacePadded(" ", show(cells[0]), " ");
      ReadCellsBack(cells[1..], show, read, good);
    }
  }

  lemma {:induction false} SplitDelimiters(n: nat, ended: bool)
    requires n > 0 || ended
    ensures SplitCells(DelimiterCells(n), "", ended) == seq(n, _ => " --- ")
  {
    if n > 0 {
      var rest := DelimiterCells(n - 1);
      var s := " --- |" + rest;
      assert s == EscapePipes(" ---") + " |" + rest by {
        assert " ---"[1..] == "---" && "---"[1..] == "--" && "--"[1..] == "-" && "-"[1..] == "";
      }
      SplitEscaped(" ---", "", ended, rest);
      assert "" + " ---" + " " == " --- ";
      SplitDelimiters(n - 1, true);
      assert [" --- "] + seq(n - 1, _ => " --- ") == seq(n, _ => " --- ");
    }
  }

  lemma {:induction false} DelimitersEndInPipe(n: nat)
    requires n > 0
    ensures DelimiterCells(n) != [] && DelimiterCells(n)[|DelimiterCells(n)| - 1] == '|'
    ensures '-' in DelimiterCells(n)
  {
    assert DelimiterCells(n)[1] == '-';
    if n > 1 { DelimitersEndInPipe(n - 1); }
  }

  lemma DelimiterRowBack(n: nat)
    requires n > 0
    ensures SplitTableRow("|" + DelimiterCells(n)) == seq(n, _ => " --- ")
    ensures IsTableDelimiterRow("|" + DelimiterCells(n)) && CellAlign(" --- ") == Plain
  {
    hide SplitCells, IsDelimiterCell, CellAlign, TrimSpace;
    var line := "|" + DelimiterCells(n);
    DelimitersEndInPipe(n);
    assert '-' in line;
    assert TrimSpace(line) == line by { TrimSpaceOfTrimmed(line); }
    assert TrimPrefixChar(line, '|') == DelimiterCells(n);
    SplitDelimiters(n, false);
    DelimiterCellBack();
  }

  lemma DelimiterCellBack()
    ensures IsDelimiterCell(" --- ") && CellAlign(" --- ") == Plain
  {
    TrimSpacePadded(" ", "---", " ");
    assert " " + "---" + " " == " --- ";
  }

  lemma RowLineBack<T(!new)>(
      row: seq<seq<T>>, columns: nat, column: nat, show: seq<T> -> string, read: string -> seq<T>, good: seq<T> -> bool)
    requires Faithful(show, read, good) && columns > 0 && |row| == columns && WfCells(row, show, good)
    ensures var line := At(column, RowLine(row, columns, show));
            && !Blank(line) && '|' in line && |SplitTableRow(line)| == columns
            && ReadCells(SplitTableRow(line), columns, read) == row
  {
    hide SplitTableRow, ReadCells;
    var line := RowLine(row, columns, show);
    OtherThanAt(column, line);
    PipeAt(column, line);
    SameTrimmed(column, line);
    SplitRowLine(row, show);
    ReadCellsBack(row, show, read, good);
  }

  lemma {:induction false} ScanRowsBack<T(!new)>(
    rows: seq<seq<seq<T>>>, columns: nat, column: nat, rest: seq<string>,
    show: seq<T> -> string, read: string -> seq<T>, good: seq<T> -> bool)
    requires Faithful(show, read, good) && columns > 0 && WfRows(rows, columns, show, good)
    requires rest == [] || rest[0] == ""
    ensures |RowLines(rows, columns, show)| == |rows|
    ensures |ScanRows(Indented(column, RowLines(rows, columns, show)) + rest)| == |rows|
    ensures ReadRows(ScanRows(Indented(column, RowLines(rows, columns, show)) + rest), columns, read) == rows
  {
    hide SplitTableRow, ReadCells, RowLine, Blank, WfCells, ScanRows, ReadRows, Faithful;
    if rows == [] {
      assert Indented(column, RowLines(rows, columns, show)) + rest == rest;
      RowsEnd(rest, columns, read);
    } else {
      var line := RowLine(rows[0], columns, show);
      var more := Indented(column, RowLines(rows[1..], columns, show)) + rest;
      VisibleRow(line);
      assert RowLines(rows, columns, show)[1..] == RowLines(rows[1..], columns, show);
      assert Indented(column, RowLines(rows, columns, show)) + rest == [At(column, line)] + more;
      RowLineBack(rows[0], columns, column, show, read, good);
      ScanRowsBack(rows[1..], columns, column, rest, show, read, good);
      ScanRowsStep(At(column, line), more);
      ReadRowsStep(SplitTableRow(At(column, line)), ScanRows(more), columns, read);
      assert [rows[0]] + rows[1..] == rows;
    }
  }

  lemma VisibleRow(line: string)
    requires line != "" && line[0] == '|'
    ensures !Blank(line)
  {
    OtherThan(line);
  }

  lemma RowsEnd<T>(rest: seq<string>, columns: nat, read: string -> seq<T>)
    requires rest == [] || rest[0] == ""
    ensures ScanRows(rest) == [] && ReadRows([], columns, read) == []
  {
    BlankIsNothing();
  }

  lemma ScanRowsStep(line: string, rest: seq<string>)
    requires !Blank(line) && '|' in line
    ensures ScanRows([line] + rest) == [SplitTableRow(line)] + ScanRows(rest)
  {
    assert ([line] + rest)[1..] == rest;
  }

  lemma ReadRowsStep<T>(first: seq<string>, rest: seq<seq<string>>, columns: nat, read: string -> seq<T>)
    ensures ReadRows([first] + rest, columns, read) == [ReadCells(first, columns, read)] + ReadRows(rest, columns, read)
  {
    assert ([first] + rest)[1..] == rest;
  }

  lemma {:induction false} PlainColumns(align: seq<Align>)
    requires CellAlign(" --- ") == Plain && forall a | a in align :: a == Plain
    ensures Aligns(seq(|align|, _ => " --- ")) == align
  {
    if align != [] {
      assert align[0] in align && forall a | a in align[1..] :: a in align;
      PlainColumns(align[1..]);
      assert seq(|align|, _ => " --- ")[1..] == seq(|align[1..]|, _ => " --- ");
      assert [align[0]] + align[1..] == align;
    }
  }

  lemma TableDispatch<T>(lines: seq<string>, column: nat, line: string, depth: nat, read: string -> seq<T>)
    requires lines != [] && lines[0] == At(column, line) && line != "" && line[0] == '|'
    requires TableHead(lines)
    ensures !Blank(lines[0]) && ParseBlock(lines, depth, read) == ParseTable(lines, read)
  {
    hide SplitTableRow, StartsTable, CodeFence, AtxHeading, IsThematicBreak, IsBlockquoteLine, ParseTable;
    OtherThanAt(column, line);
  }

  /** The lines of a printed table, at their columns. */
  lemma TableMoved<T>(rows: seq<seq<seq<T>>>, first: nat, column: nat, rest: seq<string>, show: seq<T> -> string)
    requires rows != []
    ensures var n := Columns(rows);
            var lines := Moved(first, column, TableLines(rows, show)) + rest;
            && |lines| > 1 && lines[0] == At(first, RowLine(rows[0], n, show))
            && lines[1] == At(column, "|" + DelimiterCells(n))
            && lines[2..] == Indented(column, RowLines(rows[1..], n, show)) + rest
  {
    hide RowLines, RowLine, Moved;
    var n := Columns(rows);
    VisibleRow("|" + DelimiterCells(n));
    MovedThree(first, column, RowLine(rows[0], n, show), "|" + DelimiterCells(n), RowLines(rows[1..], n, show), rest);
  }

  lemma MovedThree(first: nat, column: nat, a: string, b: string, more: seq<string>, rest: seq<string>)
    requires !Blank(b)
    ensures var lines := Moved(first, column, [a] + [b] + more) + rest;
            && |lines| > 1 && lines[0] == At(first, a) && lines[1] == At(column, b)
            && lines[2..] == Indented(column, more) + rest
  {
    hide Blank, At, Indented;
    var core := [a] + [b] + more;
    assert core[1..] == [b] + more;
    IndentedCons(column, b, more);
    assert Moved(first, column, core) + rest == [At(first, a), At(column, b)] + (Indented(column, more) + rest);
  }

  lemma IndentedCons(column: nat, line: string, more: seq<string>)
    requires !Blank(line)
    ensures Indented(column, [line] + more) == [At(column, line)] + Indented(column, more)
  {
    assert ([line] + more)[1..] == more;
  }

  lemma DelimiterRowAt(n: nat, column: nat)
    requires n > 0
    ensures var line := At(column, "|" + DelimiterCells(n));
            SplitTableRow(line) == seq(n, _ => " --- ") && IsTableDelimiterRow(line)
    ensures CellAlign(" --- ") == Plain
  {
    hide SplitTableRow, IsTableDelimiterRow, CellAlign;
    DelimiterRowBack(n);
    SameTrimmed(column, "|" + DelimiterCells(n));
  }

  lemma TableBack<T(!new)>(
      align: seq<Align>, rows: seq<seq<seq<T>>>, first: nat, column: nat, rest: seq<string>, depth: nat,
      show: seq<T> -> string, read: string -> seq<T>, good: seq<T> -> bool)
    requires Faithful(show, read, good) && WfBlock(Table(align, rows), show, good)
    requires rest == [] || rest[0] == ""
    ensures ReadsBack(Table(align, rows), first, column, rest, depth, show, read)
  {
    hide SplitTableRow, IsTableDelimiterRow, ScanRows, ReadRows, ReadCells, Blank, RowLine, RowLines, CellAlign,
         ParseBlock, ParseTable, WfCells, Moved, Faithful;
    var n := |align|;
    ColumnsOfGrid(rows, n, show, good);
    var lines := Moved(first, column, TableLines(rows, show)) + rest;
    TableMoved(rows, first, column, rest, show);
    RowLineBack(rows[0], n, first, show, read, good);
    DelimiterRowAt(n, column);
    assert SplitTableRow(lines[1]) == seq(n, _ => " --- ");
    TableDispatch(lines, first, RowLine(rows[0], n, show), depth, read);
    ScanRowsBack(rows[1..], n, column, rest, show, read, good);
    ReadTable(align, rows, lines, read);
    assert Core(Table(align, rows), show) == TableLines(rows, show);
  }

  lemma ReadTable<T(!new)>(align: seq<Align>, rows: seq<seq<seq<T>>>, lines: seq<string>, read: string -> seq<T>)
    requires |lines| > 1 && rows != [] && forall a | a in align :: a == Plain
    requires SplitTableRow(lines[1]) == seq(|align|, _ => " --- ") && CellAlign(" --- ") == Plain
    requires ReadCells(SplitTableRow(lines[0]), |align|, read) == rows[0]
    requires ReadRows(ScanRows(lines[2..]), |align|, read) == rows[1..]
    ensures ParseTable(lines, read) == Taken(Some(Table(align, rows)), 2 + |ScanRows(lines[2..])|)
  {
    hide SplitTableRow, ScanRows, ReadRows, ReadCells, CellAlign, Aligns;
    PlainColumns(align);
    ReadRowsStep(SplitTableRow(lines[0]), ScanRows(lines[2..]), |align|, read);
    assert [rows[0]] + rows[1..] == rows;
  }
}
