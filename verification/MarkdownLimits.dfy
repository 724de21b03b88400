/** The round trip for muni's own inline content, and where it ends. */
module MarkdownLimits {
  import opened Text
  import opened MarkdownSyntax
  import opened MarkdownBlocks
  import opened MarkdownColumns
  import opened MarkdownRoundTrip
  import opened MarkdownReadBack
  import opened MarkdownTheorem
  import opened MarkdownConverse
  import opened MarkdownListExactly
  import opened MarkdownDocument
  import opened MarkdownInline
  import opened MarkdownInlineBack
  import opened MarkdownInlineTags
  import opened MarkdownRuns

  // ---- muni's own content ----

  /** Runs in normal form, of plain or marked text and hard breaks. */
  predicate MuniText(nodes: seq<Inline>) {
    GoodRuns(nodes) && Normal(nodes)
  }

  lemma MuniIsFaithful(t: Tables)
    ensures Faithful(Print, s => Parse(t, s), MuniText)
  {
    hide GoodRuns, Normal, Parse, Print;
    forall text | MuniText(text)
      ensures (s => Parse(t, s))(Print(text)) == text
    {
      NormalRunsReadBack(t, text);
    }
  }

  /** The whole trip for muni's own inline content. */
  lemma MuniMarkdownRoundTrip(t: Tables, blocks: seq<Block<Inline>>)
    requires WfBlocks(blocks, Print, MuniText) && NestBlocks(blocks) <= MAX_DEPTH
    requires var text := RenderMarkdown(blocks, Print); '\r' !in text && text[0] != '\U{FEFF}'
    ensures ReadMarkdown(RenderMarkdown(blocks, Print), s => Parse(t, s)) == blocks
  {
    hide Faithful, WfBlocks, ReadMarkdown, RenderMarkdown, MuniText;
    MuniIsFaithful(t);
    ExportImportsBack(blocks, Print, s => Parse(t, s), MuniText);
  }

  // ---- A printed link can look like a task, and is missed when it was taken for one ----

  lemma {:induction false} FirstPiece(s: string, prefix: string)
    requires prefix <= s && '\n' !in prefix
    ensures prefix <= Split(s, '\n')[0]
    decreases |prefix|
  {
    if prefix != "" {
      assert prefix[0] in prefix && s[0] == prefix[0] && forall c | c in prefix[1..] :: c in prefix;
      FirstPiece(s[1..], prefix[1..]);
      assert prefix == [prefix[0]] + prefix[1..];
    }
  }

  lemma {:induction false} PieceHead(s: string)
    ensures Split(s, '\n')[0] <= s
  {
    if s != "" { PieceHead(s[1..]); }
  }

  /** Only a link is printed with a bracket first. */
  lemma LinkFirst(nodes: seq<Inline>)
    requires MuniText(nodes) && Print(nodes) != "" && Print(nodes)[0] == '['
    ensures nodes != [] && Linked(nodes[0]) && PrintNode(nodes[0]) <= Print(nodes)
  {
    hide PrintNode, Emphasised, Underlined, Linked, GoodText;
    var node := nodes[0];
    NodeHead(node, nodes[1..]);
    assert Print(nodes) == PrintNode(node) + Print(nodes[1..]);
  }

  lemma NodeHead(node: Inline, rest: seq<Inline>)
    requires GoodHead(node, rest) && (node.TextRun? ==> node.text != "")
    ensures PrintNode(node) != "" && (PrintNode(node)[0] == '[' ==> Linked(node))
  {
    hide PrintNode, Emphasised, Underlined, Linked, GoodText, Escape;
    if node.HardBreak? {
      BreakPrints();
    } else if node.marks == [] {
      PlainPrints(node);
      EscapeHead(node.text);
    } else if Emphasised(node) {
      EmphasisHead(node);
    } else if Underlined(node) {
      UnderlineHead(node);
    } else {
      LinkPrints(node);
    }
  }

  lemma BreakPrints()
    ensures PrintNode(HardBreak) == "  \n"
  {
  }

  lemma EmphasisHead(node: Inline)
    requires Emphasised(node)
    ensures PrintNode(node) != "" && PrintNode(node)[0] != '['
  {
    hide Escape, PrintNode, GoodText;
    PrintGood(node);
  }

  lemma UnderlineHead(node: Inline)
    requires Underlined(node)
    ensures PrintNode(node) != "" && PrintNode(node)[0] != '['
  {
    hide Escape, PrintNode, GoodText;
    UnderlinePrints(node);
  }

  /** A link that looks like a task has a caption of one character. */
  lemma ShortLink(node: Inline, line: string)
    requires Linked(node) && '\n' !in PrintNode(node)[..if |PrintNode(node)| < 4 then |PrintNode(node)| else 4]
    requires TaskMarker(line).Some? && PrintNode(node)[..if |PrintNode(node)| < 4 then |PrintNode(node)| else 4] <= line
    ensures |line| > 3 && line[3] == '('
  {
    hide SafeLink, Escape, GoodText, PrintNode;
    LinkPrints(node);
    var value := Escape(node.text);
    EscapeHead(node.text);
    var printed := PrintNode(node);
    assert |printed| >= 5;
    assert line[..4] == printed[..4];
    assert printed[1] == value[0];
    SecondOfEscaped(node.text);
    assert printed[2] == (value + "](")[1];
    assert printed[2] == ']' && printed[3] == '(';
  }

  lemma SecondOfEscaped(x: string)
    requires x != ""
    ensures |Escape(x)| > 1 && Escape(x)[0] != '\\' ==> Escape(x)[1] != ']'
  {
    EscapedParts(x);
    if |x| > 1 { EscapeHead(x[1..]); }
  }

  // ---- What a parenthesis at the head of a text is read as ----

  lemma KeptHead(t: Tables, s: string, buffer: string)
    requires s != "" && buffer != "" && buffer[0] == '('
    ensures var nodes := TakeNewline(t, s, buffer, []).nodes;
            nodes != [] && nodes[0].TextRun? && nodes[0].marks == []
  {
    hide JoinsTightly;
    KeepsHead(buffer);
  }

  lemma {:induction false} KeepsHead(s: string)
    requires s != "" && s[0] == '('
    ensures TrimRight(s, {' '}) != "" && TrimRight(s, {' '})[0] == '('
  {
    if s[|s| - 1] == ' ' { KeepsHead(s[..|s| - 1]); }
  }

  /** Text in the buffer is put out before anything else. */
  lemma TurnKeepsHead(t: Tables, s: string, previous: char, buffer: string)
    requires s != "" && buffer != "" && buffer[0] == '('
    ensures var turn := TakeTurn(t, s, previous, buffer, [], 0);
            if turn.nodes == [] then turn.buffer != "" && turn.buffer[0] == '('
            else turn.nodes[0].TextRun? && turn.nodes[0].marks == []
  {
    hide CodeSpan, ImageOrLink, Autolink, BreakTag, FindTag, FirstDelimiter, IsPunctuation, TakeNewline, ParseRest, LinkedText,
         ImageNode;
    KeptHead(t, s, buffer);
    if s[0] == '\n' && TakeNewline(t, s, buffer, []).nodes == [] { assert false; }
  }

  lemma {:induction false} PlainFirst(t: Tables, s: string, previous: char, buffer: string)
    requires buffer != "" && buffer[0] == '('
    ensures var nodes := ParseRest(t, s, previous, buffer, [], 0);
            nodes != [] && nodes[0].TextRun? && nodes[0].marks == [] && nodes[0].text != ""
    decreases |s|
  {
    hide TakeTurn;
    if s != "" {
      var turn := TakeTurn(t, s, previous, buffer, [], 0);
      TurnKeepsHead(t, s, previous, buffer);
      TurnText(t, s, previous, buffer);
      if turn.nodes == [] {
        PlainFirst(t, s[turn.width..], s[turn.width - 1], turn.buffer);
        var rest := ParseRest(t, s[turn.width..], s[turn.width - 1], turn.buffer, [], 0);
        assert [] + rest == rest;
      }
    }
  }

  lemma TurnText(t: Tables, s: string, previous: char, buffer: string)
    requires s != "" && buffer != "" && buffer[0] == '('
    ensures var nodes := TakeTurn(t, s, previous, buffer, [], 0).nodes;
            nodes != [] && nodes[0].TextRun? ==> nodes[0].text != ""
  {
    hide CodeSpan, ImageOrLink, Autolink, BreakTag, FindTag, FirstDelimiter, IsPunctuation, TakeNewline, ParseRest, LinkedText,
         ImageNode;
    NewlineText(t, s, buffer);
  }

  lemma NewlineText(t: Tables, s: string, buffer: string)
    requires s != "" && buffer != "" && buffer[0] == '('
    ensures var nodes := TakeNewline(t, s, buffer, []).nodes;
            nodes != [] && nodes[0].TextRun? ==> nodes[0].text != ""
  {
    hide JoinsTightly;
  }

  lemma {:induction false} HeadStaysPlain(out: seq<Inline>, nodes: seq<Inline>)
    requires out != [] && out[0].TextRun? && out[0].marks == []
    ensures var r := MergeOnto(out, nodes); r != [] && r[0].TextRun? && r[0].marks == []
    decreases |nodes|
  {
    if nodes != [] { HeadStaysPlain(MergeOne(out, nodes[0]), nodes[1..]); }
  }

  lemma ParenthesisIsPlain(t: Tables, s: string)
    requires s != "" && s[0] == '('
    ensures var r := Parse(t, s); r != [] && r[0].TextRun? && r[0].marks == []
  {
    hide TakeTurn, MergeOnto;
    OrdinaryTurn(t, s, 0 as char, "", [], 0);
    PlainFirst(t, s[1..], '(', "(");
    var nodes := ParseRest(t, s[1..], '(', "(", [], 0);
    assert "" + [s[0]] == "(" && [] + nodes == nodes;
    assert ParseRest(t, s, 0 as char, "", [], 0) == [] + nodes;
    MergeFirst(nodes);
    HeadStaysPlain([nodes[0]], nodes[1..]);
  }

  lemma MergeFirst(nodes: seq<Inline>)
    requires nodes != [] && nodes[0].TextRun? && nodes[0].text != ""
    ensures Merge(nodes) == MergeOnto([nodes[0]], nodes[1..])
  {
    assert [] + [nodes[0]] == [nodes[0]];
  }

  lemma MuniNoticesTask(t: Tables, text: seq<Inline>)
    requires MuniText(text)
    ensures NoticesTask(text, Print, s => Parse(t, s))
  {
    hide TaskMarker, MuniText, Print, Parse, Linked, PrintNode, Split, Join, Blank;
    var lines := Split(Print(text), '\n');
    if TaskMarker(lines[0]).Some? {
      TaskHead(lines[0]);
      PieceHead(Print(text));
      LinkFirst(text);
      var content := TaskMarker(lines[0]).value.content;
      CutLink(text, lines[0]);
      ParenthesisHead(content);
      var s := Join([content] + lines[1..], "\n");
      JoinHead([content] + lines[1..]);
      ParenthesisIsPlain(t, s);
      LinkedMarks(text[0]);
      assert (s => Parse(t, s))(s) != text;
    }
  }

  lemma LinkedMarks(node: Inline)
    requires Linked(node)
    ensures node.TextRun? && node.marks != []
  {
  }

  lemma JoinHead(lines: seq<string>)
    requires lines != [] && lines[0] != ""
    ensures Join(lines, "\n") != "" && Join(lines, "\n")[0] == lines[0][0]
  {
  }

  lemma ParenthesisHead(content: string)
    requires content != "" && content[0] == '('
    ensures !Blank(content)
  {
    VisibleHead(content);
  }

  lemma CutLink(text: seq<Inline>, line: string)
    requires text != [] && Linked(text[0]) && PrintNode(text[0]) <= Print(text)
    requires line == Split(Print(text), '\n')[0] && TaskMarker(line).Some?
    ensures TaskMarker(line).value.content != "" && TaskMarker(line).value.content[0] == '('
  {
    hide Linked, PrintNode, Print, Split, TaskMarker;
    var printed := PrintNode(text[0]);
    LinkLong(text[0], line);
    FirstPiece(Print(text), printed[..4]);
    ShortLink(text[0], line);
    ContentFrom(line);
  }

  /** The first four characters of a link that could be a task hold no newline. */
  lemma LinkLong(node: Inline, line: string)
    requires Linked(node)
    ensures |PrintNode(node)| >= 5 && '\n' !in PrintNode(node)[..4]
  {
    hide SafeLink, PrintNode;
    LinkPrints(node);
    EscapeOnlyAdds(node.text, '\n') by { GoodOneLine(node.text, ""); }
    EscapeHead(node.text);
    var value, href := Escape(node.text), node.marks[0].href;
    assert '\n' !in href by { assert forall c | c in href :: !IsSpace(c); }
    assert '\n' !in "[" + value + "](" + href + ")";
    var printed := PrintNode(node);
    assert forall c | c in printed[..4] :: c in printed;
  }

  lemma {:induction false} GoodOneLine(x: string, after: string)
    requires GoodText(x, after)
    ensures '\n' !in x
  {
    if x != "" {
      GoodOneLine(x[1..], after);
      assert x == [x[0]] + x[1..];
    }
  }

  lemma ContentFrom(line: string)
    requires TaskMarker(line).Some? && |line| > 3 && line[3] == '('
    ensures TaskMarker(line).value.content != "" && TaskMarker(line).value.content[0] == '('
  {
    TrimLeftNothing(line[3..], {' ', '\t'});
  }

  /** Which of muni's own lists come back, exactly. */
  lemma MuniListsExactly(t: Tables, kind: ListKind, start: int, items: seq<Item<Inline>>, depth: nat)
    requires WfItems(items, Print, MuniText) && depth + 1 + NestItems(items) <= MAX_DEPTH
    ensures ParseBlocks(BlockLines(List(kind, start, items), Print), depth, s => Parse(t, s)) == [List(kind, start, items)]
        <==> ListOk(kind, start, items, Print)
  {
    hide Faithful, WfItems, ListOk, MuniText;
    MuniIsFaithful(t);
    assert NoticesTasks(Print, s => Parse(t, s), MuniText) by {
      forall text | MuniText(text)
        ensures NoticesTask(text, Print, s => Parse(t, s))
      {
        MuniNoticesTask(t, text);
      }
    }
    ListExactly(kind, start, items, depth, Print, s => Parse(t, s), MuniText);
  }

  // ---- Task lists ----

  predicate NotAfterText<T>(b: Block<T>) {
    b.Para? || b.Heading? || b.Code?
  }

  /** Nothing after the first block is a paragraph, a heading or code. */
  ghost predicate TextFirstOnly<T>(blocks: seq<Block<T>>) {
    forall i | 0 < i < |blocks| :: !NotAfterText(blocks[i])
  }

  lemma TaskIsNoRule(number: nat, checked: bool, head: string)
    ensures !IsThematicBreak(MarkerText(Task, number, checked) + head)
  {
    hide IsThematicBreak;
    var line := MarkerText(Task, number, checked) + head;
    assert line[2] == '[';
    BracketStays(line);
  }

  /** A bracket in a line keeps it from being a rule. */
  lemma BracketStays(line: string)
    requires line != "" && !IsSpace(line[0])
    ensures '[' in line ==> !IsThematicBreak(line)
  {
    if '[' in line {
      TrimRightKeeps(line, '[');
      CompactKeeps(TrimSpace(line), '[');
    }
  }

  lemma {:induction false} TrimRightKeeps(s: string, c: char)
    requires c in s && !IsSpace(c)
    ensures c in TrimSpaceRight(s)
  {
    if IsSpace(s[|s| - 1]) {
      var init := s[..|s| - 1];
      assert s == init + [s[|s| - 1]];
      TrimRightKeeps(init, c);
    }
  }

  lemma {:induction false} CompactKeeps(s: string, c: char)
    requires c in s && c != ' '
    ensures c in WithoutSpaces(s)
  {
    if s[0] != c {
      assert s == [s[0]] + s[1..];
      CompactKeeps(s[1..], c);
    }
  }

  lemma {:induction false} TasksOk<T>(number: nat, items: seq<Item<T>>, show: seq<T> -> string)
    requires forall item | item in items :: item.blocks != [] && item.blocks[0].Para?
    ensures ItemsOk(Task, number, items, show) <==> forall item | item in items :: TextFirstOnly(item.blocks)
    decreases |items|
  {
    hide IsThematicBreak, Inner, MarkerText;
    if items != [] {
      assert items[0] in items && forall item | item in items[1..] :: item in items;
      TaskIsNoRule(number, items[0].checked, Inner(items[0].blocks, show)[0]);
      TasksOk(number + 1, items[1..], show);
      TaskHangs(items[0].blocks);
      assert forall item | item in items :: item == items[0] || item in items[1..];
    }
  }

  lemma TaskHangs<T>(blocks: seq<Block<T>>)
    requires blocks != [] && blocks[0].Para?
    ensures Hangs(blocks, TASK_EXTRA) <==> TextFirstOnly(blocks)
  {
    if TextFirstOnly(blocks) {
      forall b | b in blocks[1..]
        ensures Shifts(b, TASK_EXTRA)
      {
        var i :| 0 <= i < |blocks[1..]| && blocks[1..][i] == b;
        assert !NotAfterText(blocks[i + 1]);
      }
    } else {
      var i :| 0 < i < |blocks| && NotAfterText(blocks[i]);
      assert blocks[i] in blocks[1..] by { assert blocks[1..][i - 1] == blocks[i]; }
    }
  }

  /** A task list whose items begin with a paragraph comes back if and only if its first
      two lines are no table and, in each item, no block after the first is a paragraph,
      a heading or code: six columns are written and two are trimmed. */
  lemma TasksExactly<T(!new)>(
    items: seq<Item<T>>, depth: nat, show: seq<T> -> string, read: string -> seq<T>, good: seq<T> -> bool)
    requires Faithful(show, read, good) && NoticesTasks(show, read, good) && WfItems(items, show, good)
    requires items != [] && depth + 1 + NestItems(items) <= MAX_DEPTH
    requires forall item | item in items :: item.blocks != [] && item.blocks[0].Para?
    ensures ParseBlocks(BlockLines(List(Task, 1, items), show), depth, read) == [List(Task, 1, items)]
        <==> !TableHead(ItemsLines(Task, 1, items, show)) && forall item | item in items :: TextFirstOnly(item.blocks)
  {
    hide Faithful, NoticesTasks, WfItems, TableHead, ItemsOk, TextFirstOnly;
    TasksOk(1, items, show);
    ListExactly(Task, 1, items, depth, show, read, good);
  }

  // ---- Paragraphs ----

  /** A one-line paragraph at the margin survives exactly when its printed line
      does not start a block of another kind. */
  lemma ParagraphExactly<T(!new)>(
    text: seq<T>, depth: nat, show: seq<T> -> string, read: string -> seq<T>, good: seq<T> -> bool)
    requires Faithful(show, read, good) && good(text)
    requires HeadOk(show(text)) && '\n' !in show(text) && text != [] && depth < MAX_DEPTH
    ensures ParseBlocks(BlockLines(Para(text), show), depth, read) == [Para(text)] <==> !StartsNewBlock(show(text))
  {
    hide HeadOk, StartsNewBlock, Faithful, ParseBlock, ReadsBack, ParseBlocks;
    var line := show(text);
    SplitOne(line, '\n');
    VisibleLine(line);
    assert BlockLines(Para(text), show) == [line] + [""] == [line, ""];
    if StartsNewBlock(line) {
      OtherKind([line, ""], depth, read);
      FirstParsed([line, ""], depth, read);
    } else {
      OneLineNoTable([line]);
      assert ParagraphLines([line]) by { assert [line][1..] == []; }
      ParaBack(text, 0, [""], depth, show, read, good);
      ParseStep(Para(text), 0, 0, [""], depth, show, read);
      NothingBack([""], depth, read);
      assert Core(Para(text), show) == [line];
      TidyCore(Para(text), show, good);
      MovedNothing([line]);
    }
  }

  lemma VisibleLine(line: string)
    requires HeadOk(line)
    ensures !Blank(line)
  {
  }

  lemma OtherKind<T>(lines: seq<string>, depth: nat, read: string -> seq<T>)
    requires lines != [] && !Blank(lines[0]) && StartsNewBlock(lines[0]) && depth < MAX_DEPTH
    ensures var block := ParseBlock(lines, depth, read).block;
            block.Some? && !block.value.Para?
  {
    hide CodeFence, AtxHeading, IsThematicBreak, IsBlockquoteLine, ParseListMarker, Blank, StartsTable, SplitTableRow;
  }
}
