/** Inline Markdown: markdownWriter.inline of internal/httpapi/render.go and
    parseWithMarks of internal/httpapi/import_inline.go. */
module MarkdownInline {
  import opened Text
  import opened MarkdownSyntax

  datatype Mark =
    | Bold
    | Italic
    | Strike
    | Underline
    | CodeMark
    | Superscript
    | Subscript
    | Highlight(color: string)
    | Link(href: string)

  /** An inline node. The source of an embedded picture is its data URI, where
      the program registers the bytes and writes a placeholder. */
  datatype Inline =
    | TextRun(text: string, marks: seq<Mark>)
    | HardBreak
    | Image(src: string, alt: string)

  const HIGHLIGHT := Highlight("#FFF3A3")

  /** What the parser asks of the Unicode tables and of the image decoder. */
  datatype Tables = Tables(isCJK: char -> bool, isWord: char -> bool, decodes: string -> bool)

  // ---- Writing ----

  function Print(nodes: seq<Inline>): string {
    if nodes == [] then "" else PrintNode(nodes[0]) + Print(nodes[1..])
  }

  function PrintNode(node: Inline): string {
    match node
    case TextRun(text, marks) => PrintMarks(Escape(text), marks)
    case HardBreak => "  \n"
    case Image(src, alt) =>
      if HasPrefix(src, "data:image/") || HasPrefix(src, "/api/v1/attachments/")
      then "![" + Escape(alt) + "](" + src + ")" else ""
  }

  predicate IsEscaped(c: char) {
    c == '\\' || c == '`' || c == '*' || c == '_' || c == '[' || c == ']'
  }

  function Escape(s: string): string {
    if s == [] then "" else (if IsEscaped(s[0]) then ['\\', s[0]] else [s[0]]) + Escape(s[1..])
  }

  /** The first mark is the innermost. */
  function PrintMarks(value: string, marks: seq<Mark>): string
    decreases |marks|
  {
    if marks == [] then value
    else PrintMarks(PrintMark(value, marks[0]), marks[1..])
  }

  function PrintMark(value: string, mark: Mark): string {
    match mark
    case CodeMark => "`" + Apostrophes(value) + "`"
    case Bold => "**" + value + "**"
    case Italic => "*" + value + "*"
    case Strike => "~~" + value + "~~"
    case Underline => "<u>" + value + "</u>"
    case Highlight(_) => "==" + value + "=="
    case Link(href) => if SafeLink(href) then "[" + value + "](" + TrimSpace(href) + ")" else value
    case Superscript => value
    case Subscript => value
  }

  function Apostrophes(s: string): string {
    if s == [] then "" else [if s[0] == '`' then '\'' else s[0]] + Apostrophes(s[1..])
  }

  predicate SafeLink(value: string) {
    var lower := Lower(TrimSpace(value));
    HasPrefix(lower, "http://") || HasPrefix(lower, "https://") || HasPrefix(lower, "mailto:")
  }

  // ---- Reading: the pieces ----

  const MAX_INLINE_DEPTH := 12

  predicate IsPunctuation(c: char) {
    c in "\\`*_{}[]()#+-.!|~<>=\"'"
  }

  /** The first place at or after "from" where the token stands unescaped. */
  function FindToken(s: string, token: string, from: nat): (r: Option<nat>)
    ensures r.Some? ==> from <= r.value && r.value + |token| <= |s| && token <= s[r.value..]
    decreases |s| - from
  {
    if from + |token| > |s| then None
    else if from < |s| && s[from] == '\\' then FindToken(s, token, from + 2)
    else if token <= s[from..] then Some(from)
    else FindToken(s, token, from + 1)
  }

  method FindRunes(s: string, token: string, from: nat) returns (r: Option<nat>)
    ensures r == FindToken(s, token, from)
  {
    var index := from;
    while index + |token| <= |s|
      invariant FindToken(s, token, index) == FindToken(s, token, from)
      decreases |s| - index
    {
      if index < |s| && s[index] == '\\' {
        index := index + 2;
      } else if token <= s[index..] {
        return Some(index);
      } else {
        index := index + 1;
      }
    }
    return None;
  }

  datatype Delimiter = Delimiter(token: string, marks: seq<Mark>)

  const DELIMITERS: seq<Delimiter> := [
    Delimiter("***", [Bold, Italic]), Delimiter("___", [Bold, Italic]),
    Delimiter("**", [Bold]), Delimiter("__", [Bold]),
    Delimiter("~~", [Strike]), Delimiter("==", [HIGHLIGHT]),
    Delimiter("*", [Italic]), Delimiter("_", [Italic])]

  /** A delimiter that opens here, and where it closes. */
  datatype Emphasis = Emphasis(marks: seq<Mark>, body: string, width: nat)

  function TryDelimiter(t: Tables, s: string, previous: char, d: Delimiter): (r: Option<Emphasis>)
    requires |d.token| > 0
    ensures r.Some? ==> |r.value.body| < |s| && 0 < r.value.width <= |s|
  {
    var n := |d.token|;
    if !(d.token <= s) then None
    else if d.token[0] == '_' && t.isWord(previous) then None
    else
      var closing := FindToken(s, d.token, n);
      if closing.None? then None
      else if d.token[0] == '_' && closing.value + n < |s| && t.isWord(s[closing.value + n]) then None
      else
        var body := s[n..closing.value];
        if body == "" || Blank(body) || IsSpace(body[0]) then None
        else Some(Emphasis(d.marks, body, closing.value + n))
  }

  function FirstDelimiter(t: Tables, s: string, previous: char, ds: seq<Delimiter>): (r: Option<Emphasis>)
    requires forall d | d in ds :: |d.token| > 0
    ensures r.Some? ==> |r.value.body| < |s| && 0 < r.value.width <= |s|
  {
    if ds == [] then None
    else if TryDelimiter(t, s, previous, ds[0]).Some? then TryDelimiter(t, s, previous, ds[0])
    else FirstDelimiter(t, s, previous, ds[1..])
  }

  datatype Span = Span(body: string, width: nat)

  /** A code span: as many backticks again close it. */
  function CodeSpan(s: string): (r: Option<Span>)
    requires s != "" && s[0] == '`'
    ensures r.Some? ==> 0 < r.value.width <= |s|
  {
    var opening := CountPrefix(s, '`');
    var close := FindBackticks(s, opening, opening);
    if close.None? then None
    else Some(Span(CodeBody(s[opening..close.value]), close.value + opening))
  }

  function FindBackticks(s: string, count: nat, from: nat): (r: Option<nat>)
    requires from <= |s| && count > 0
    ensures r.Some? ==> from <= r.value && r.value + count <= |s|
    decreases |s| - from
  {
    if from == |s| then None
    else if s[from] != '`' then FindBackticks(s, count, from + 1)
    else
      var closing := CountPrefix(s[from..], '`');
      if closing == count then Some(from) else FindBackticks(s, count, from + closing)
  }

  function CodeBody(body: string): string {
    var inner :=
      if |body| >= 2 && body[0] == ' ' && body[|body| - 1] == ' ' && !Blank(body) then body[1..|body| - 1] else body;
    NewlinesToSpaces(inner)
  }

  function NewlinesToSpaces(s: string): string {
    if s == [] then "" else [if s[0] == '\n' then ' ' else s[0]] + NewlinesToSpaces(s[1..])
  }

  /** Where the bracket opened at the start of the scan closes. */
  function FindClose(s: string, open: char, close: char, depth: int, from: nat): (r: Option<nat>)
    ensures r.Some? ==> from <= r.value < |s|
    decreases |s| - from
  {
    if from >= |s| then None
    else if s[from] == '\\' then FindClose(s, open, close, depth, from + 2)
    else if s[from] == open then FindClose(s, open, close, depth + 1, from + 1)
    else if s[from] == close then
      if depth == 1 then Some(from) else FindClose(s, open, close, depth - 1, from + 1)
    else FindClose(s, open, close, depth, from + 1)
  }

  datatype LinkParts = LinkParts(caption: string, destination: string, width: nat)

  /** "[label](destination)", the bracket standing at "start". */
  function ImageOrLink(s: string, start: nat): (r: Option<LinkParts>)
    requires start < |s| && s[start] == '['
    ensures r.Some? ==> 0 < r.value.width <= |s| && |r.value.caption| < |s| && |r.value.destination| < |s|
  {
    var labelEnd := FindClose(s, '[', ']', 0, start);
    if labelEnd.None? || labelEnd.value <= start || labelEnd.value + 1 >= |s| || s[labelEnd.value + 1] != '(' then None
    else
      var destEnd := FindClose(s, '(', ')', 0, labelEnd.value + 1);
      if destEnd.None? || destEnd.value < labelEnd.value + 2 then None
      else Some(LinkParts(s[start + 1..labelEnd.value], Destination(s[labelEnd.value + 2..destEnd.value]), destEnd.value + 1))
  }

  function Destination(raw: string): (r: string)
    ensures |r| <= |raw|
  {
    TrimSpaceShortens(raw);
    TrimRight(TrimLeft(FirstField(TrimSpace(raw)), {'<', '>'}), {'<', '>'})
  }

  lemma {:induction false} FirstFieldShortens(s: string)
    ensures |FirstField(s)| <= |s|
  {
    if s != [] && !IsSpace(s[0]) { FirstFieldShortens(s[1..]); }
  }

  lemma {:induction false} TrimSpaceLeftShortens(s: string)
    ensures |TrimSpaceLeft(s)| <= |s|
  {
    if s != [] && IsSpace(s[0]) { TrimSpaceLeftShortens(s[1..]); }
  }

  lemma {:induction false} TrimSpaceRightShortens(s: string)
    ensures |TrimSpaceRight(s)| <= |s|
  {
    if s != [] && IsSpace(s[|s| - 1]) { TrimSpaceRightShortens(s[..|s| - 1]); }
  }

  lemma TrimSpaceShortens(s: string)
    ensures |FirstField(TrimSpace(s))| <= |s|
  {
    TrimSpaceLeftShortens(s);
    TrimSpaceRightShortens(TrimSpaceLeft(s));
    FirstFieldShortens(TrimSpace(s));
  }

  function ImageNode(t: Tables, source: string, alt: string): Option<Inline> {
    if HasPrefix(source, "data:image/") then (if t.decodes(source) then Some(Image(source, alt)) else None)
    else if HasPrefix(source, "/api/v1/attachments/") then Some(Image(source, alt))
    else None
  }

  /** "<http://…>": everything up to '>' with no white space in it. */
  function Autolink(s: string): (r: Option<Span>)
    ensures r.Some? ==> 0 < r.value.width <= |s|
  {
    var end := AutolinkEnd(s, 1);
    if end.None? || !SafeLink(s[1..end.value]) then None else Some(Span(s[1..end.value], end.value + 1))
  }

  function AutolinkEnd(s: string, from: nat): (r: Option<nat>)
    ensures r.Some? ==> from <= r.value < |s|
    decreases |s| - from
  {
    if from >= |s| || from >= 2048 then None
    else if s[from] == '>' then Some(from)
    else if IsSpace(s[from]) then None
    else AutolinkEnd(s, from + 1)
  }

  datatype TagMark = TagMark(tag: string, mark: Mark)

  const TAGS: seq<TagMark> := [
    TagMark("u", Underline), TagMark("ins", Underline), TagMark("strong", Bold), TagMark("b", Bold),
    TagMark("em", Italic), TagMark("i", Italic), TagMark("s", Strike), TagMark("del", Strike),
    TagMark("strike", Strike), TagMark("mark", HIGHLIGHT), TagMark("code", CodeMark),
    TagMark("sup", Superscript), TagMark("sub", Subscript)]

  /** The first place where needle stands. */
  function IndexOf(s: string, needle: string, from: nat): (r: Option<nat>)
    ensures r.Some? ==> from <= r.value && r.value + |needle| <= |s| && needle <= s[r.value..]
    decreases |s| - from
  {
    if from + |needle| > |s| then None
    else if needle <= s[from..] then Some(from)
    else IndexOf(s, needle, from + 1)
  }

  /** The tag that opens here and its closing tag; at most one tag fits. */
  function FindTag(s: string, tags: seq<TagMark>): (r: Option<Emphasis>)
    ensures r.Some? ==> |r.value.body| < |s| && 0 < r.value.width <= |s|
  {
    if tags == [] then None
    else
      var open := "<" + tags[0].tag + ">";
      var closing := "</" + tags[0].tag + ">";
      var lower := Lower(s);
      var end := IndexOf(lower, closing, 0);
      if !HasPrefix(lower, open) || end.None? || end.value < |open| then FindTag(s, tags[1..])
      else Some(Emphasis([tags[0].mark], s[|open|..end.value], end.value + |closing|))
  }

  function BreakTag(s: string): (n: nat)
    ensures n <= |s|
  {
    var lower := Lower(s);
    if HasPrefix(lower, "<br>") then 4
    else if HasPrefix(lower, "<br/>") then 5
    else if HasPrefix(lower, "<br />") then 6
    else 0
  }

  /** A wrapped line is rejoined without a space between two CJK characters, or
      when one side is empty. */
  predicate JoinsTightly(t: Tables, left: string, right: string) {
    var l := TrimRight(left, {' '});
    var r := TrimLeft(right, {' '});
    l == "" || r == "" || (t.isCJK(l[|l| - 1]) && t.isCJK(r[0]))
  }

  // ---- Reading: the whole ----

  function Flush(buffer: string, marks: seq<Mark>): seq<Inline> {
    if buffer == "" then [] else [TextRun(buffer, marks)]
  }

  /** One turn of the parser: the nodes it adds, the characters it takes, the
      text it leaves in the buffer. */
  datatype Turn = Turn(nodes: seq<Inline>, width: nat, buffer: string)

  /** The rest of the text after "previous", with "buffer" collected so far. Every
      recursion into a body is on strictly shorter text. */
  function ParseRest(t: Tables, s: string, previous: char, buffer: string, marks: seq<Mark>, depth: nat): seq<Inline>
    decreases |s|, 2
  {
    if s == "" then Flush(buffer, marks)
    else
      var turn := TakeTurn(t, s, previous, buffer, marks, depth);
      turn.nodes + ParseRest(t, s[turn.width..], s[turn.width - 1], turn.buffer, marks, depth)
  }

  function TakeTurn(t: Tables, s: string, previous: char, buffer: string, marks: seq<Mark>, depth: nat): (r: Turn)
    requires s != ""
    ensures 0 < r.width <= |s|
    decreases |s|, 1
  {
    if s[0] == '\\' && |s| > 1 && IsPunctuation(s[1]) then Turn([], 2, buffer + [s[1]])
    else if s[0] == '\n' then TakeNewline(t, s, buffer, marks)
    else if s[0] == '`' && CodeSpan(s).Some? then
      var span := CodeSpan(s).value;
      Turn(Flush(buffer, marks) + [TextRun(span.body, marks + [CodeMark])], span.width, "")
    else if s[0] == '!' && |s| > 1 && s[1] == '[' && depth < MAX_INLINE_DEPTH && ImageOrLink(s, 1).Some? then
      var link := ImageOrLink(s, 1).value;
      var image := ImageNode(t, link.destination, link.caption);
      var nodes := if image.Some? then [image.value] else LinkedText(t, link, |s|, marks, depth);
      Turn(Flush(buffer, marks) + nodes, link.width, "")
    else if s[0] == '[' && depth < MAX_INLINE_DEPTH && ImageOrLink(s, 0).Some? then
      var link := ImageOrLink(s, 0).value;
      Turn(Flush(buffer, marks) + LinkedText(t, link, |s|, marks, depth), link.width, "")
    else if s[0] == '<' && Autolink(s).Some? then
      var span := Autolink(s).value;
      Turn(Flush(buffer, marks) + [TextRun(span.body, marks + [Link(TrimSpace(span.body))])], span.width, "")
    else if s[0] == '<' && BreakTag(s) > 0 then
      Turn(Flush(buffer, marks) + [HardBreak], BreakTag(s), "")
    else if s[0] == '<' && FindTag(s, TAGS).Some? then
      var tag := FindTag(s, TAGS).value;
      Turn(Flush(buffer, marks) + ParseRest(t, tag.body, 0 as char, "", marks + tag.marks, depth + 1), tag.width, "")
    else if !IsHandled(s) && depth < MAX_INLINE_DEPTH && FirstDelimiter(t, s, previous, DELIMITERS).Some? then
      var emphasis := FirstDelimiter(t, s, previous, DELIMITERS).value;
      Turn(Flush(buffer, marks) + ParseRest(t, emphasis.body, 0 as char, "", marks + emphasis.marks, depth + 1),
           emphasis.width, "")
    else Turn([], 1, buffer + [s[0]])
  }

  /** Two trailing spaces or a backslash ask for a hard break. */
  function TakeNewline(t: Tables, s: string, buffer: string, marks: seq<Mark>): (r: Turn)
    requires s != ""
    ensures r.width == 1
  {
    var trimmed := TrimRight(buffer, {' '});
    var slash := trimmed != "" && trimmed[|trimmed| - 1] == '\\';
    var kept := if slash then trimmed[..|trimmed| - 1] else trimmed;
    if |buffer| - |trimmed| >= 2 || slash then Turn(Flush(kept, marks) + [HardBreak], 1, "")
    else Turn(Flush(kept, marks), 1, if JoinsTightly(t, kept, s[1..]) then "" else " ")
  }

  /** The characters with a branch of their own, which never start an emphasis. */
  predicate IsHandled(s: string)
    requires s != ""
  {
    s[0] == '`' || s[0] == '<' || s[0] == '[' || (s[0] == '!' && |s| > 1 && s[1] == '[')
  }

  function LinkedText(t: Tables, link: LinkParts, bound: nat, marks: seq<Mark>, depth: nat): seq<Inline>
    requires |link.caption| < bound && |link.destination| < bound
    decreases bound, 0
  {
    var text := if Blank(link.caption) then link.destination else link.caption;
    var next := if SafeLink(link.destination) then marks + [Link(TrimSpace(link.destination))] else marks;
    ParseRest(t, text, 0 as char, "", next, depth + 1)
  }

  /** The program's loop: an index into the text, a buffer, the nodes so far. */
  method ParseWithMarks(t: Tables, text: string, marks: seq<Mark>, depth: nat) returns (out: seq<Inline>)
    ensures out == ParseRest(t, text, 0 as char, "", marks, depth)
    decreases |text|, 2
  {
    hide TakeTurn, Flush;
    out := [];
    var buffer, previous := "", 0 as char;
    assert text[0..] == text;
    var index := 0;
    while index < |text|
      invariant index <= |text|
      invariant out + ParseRest(t, text[index..], previous, buffer, marks, depth)
             == ParseRest(t, text, 0 as char, "", marks, depth)
    {
      var turn := ParseTurn(t, text[index..], previous, buffer, marks, depth);
      Advance(text, index, turn.width);
      ghost var after := ParseRest(t, text[index + turn.width..], text[index + turn.width - 1], turn.buffer, marks, depth);
      assert ParseRest(t, text[index..], previous, buffer, marks, depth) == turn.nodes + after;
      assert out + (turn.nodes + after) == out + turn.nodes + after;
      out := out + turn.nodes;
      index := index + turn.width;
      previous := text[index - 1];
      buffer := turn.buffer;
    }
    assert text[index..] == "";
    out := out + Flush(buffer, marks);
  }

  method ParseTurn(t: Tables, s: string, previous: char, buffer: string, marks: seq<Mark>, depth: nat) returns (r: Turn)
    requires s != ""
    ensures r == TakeTurn(t, s, previous, buffer, marks, depth)
    decreases |s|, 1
  {
    hide CodeSpan, ImageOrLink, Autolink, BreakTag, FindTag, FirstDelimiter, IsPunctuation, TakeNewline, ParseRest, LinkedText;
    if s[0] == '\\' && |s| > 1 && IsPunctuation(s[1]) {
      return Turn([], 2, buffer + [s[1]]);
    }
    if s[0] == '\n' {
      return TakeNewline(t, s, buffer, marks);
    }
    var flushed := Flush(buffer, marks);
    if s[0] == '`' && CodeSpan(s).Some? {
      var span := CodeSpan(s).value;
      return Turn(flushed + [TextRun(span.body, marks + [CodeMark])], span.width, "");
    }
    if s[0] == '!' && |s| > 1 && s[1] == '[' && depth < MAX_INLINE_DEPTH && ImageOrLink(s, 1).Some? {
      var link := ImageOrLink(s, 1).value;
      var image := ImageNode(t, link.destination, link.caption);
      if image.Some? {
        return Turn(flushed + [image.value], link.width, "");
      }
      var nodes := ParseLinkedText(t, link, |s|, marks, depth);
      return Turn(flushed + nodes, link.width, "");
    }
    if s[0] == '[' && depth < MAX_INLINE_DEPTH && ImageOrLink(s, 0).Some? {
      var link := ImageOrLink(s, 0).value;
      var nodes := ParseLinkedText(t, link, |s|, marks, depth);
      return Turn(flushed + nodes, link.width, "");
    }
    if s[0] == '<' {
      if Autolink(s).Some? {
        var span := Autolink(s).value;
        return Turn(flushed + [TextRun(span.body, marks + [Link(TrimSpace(span.body))])], span.width, "");
      }
      if BreakTag(s) > 0 {
        return Turn(flushed + [HardBreak], BreakTag(s), "");
      }
      if FindTag(s, TAGS).Some? {
        var tag := FindTag(s, TAGS).value;
        var nodes := ParseWithMarks(t, tag.body, marks + tag.marks, depth + 1);
        return Turn(flushed + nodes, tag.width, "");
      }
    } else if !IsHandled(s) && depth < MAX_INLINE_DEPTH {
      var emphasis := FirstDelimiter(t, s, previous, DELIMITERS);
      if emphasis.Some? {
        var nodes := ParseWithMarks(t, emphasis.value.body, marks + emphasis.value.marks, depth + 1);
        return Turn(flushed + nodes, emphasis.value.width, "");
      }
    }
    return Turn([], 1, buffer + [s[0]]);
  }

  method ParseLinkedText(t: Tables, link: LinkParts, bound: nat, marks: seq<Mark>, depth: nat) returns (out: seq<Inline>)
    requires |link.caption| < bound && |link.destination| < bound
    ensures out == LinkedText(t, link, bound, marks, depth)
    decreases bound, 0
  {
    var text := if Blank(link.caption) then link.destination else link.caption;
    var next := if SafeLink(link.destination) then marks + [Link(TrimSpace(link.destination))] else marks;
    out := ParseWithMarks(t, text, next, depth + 1);
  }

  lemma Advance(text: string, index: nat, width: nat)
    requires 0 < width && index + width <= |text|
    ensures text[index..][width..] == text[index + width..]
    ensures text[index..][width - 1] == text[index + width - 1]
  {
  }

  // ---- Merging neighbouring runs ----

  function MergeOne(out: seq<Inline>, node: Inline): seq<Inline> {
    if node.TextRun? && node.text == "" then out
    else if out != [] && node.TextRun? && out[|out| - 1].TextRun? && out[|out| - 1].marks == node.marks then
      out[..|out| - 1] + [TextRun(out[|out| - 1].text + node.text, node.marks)]
    else out + [node]
  }

  function MergeOnto(out: seq<Inline>, nodes: seq<Inline>): seq<Inline>
    decreases |nodes|
  {
    if nodes == [] then out else MergeOnto(MergeOne(out, nodes[0]), nodes[1..])
  }

  /** mergeInlineText. */
  function Merge(nodes: seq<Inline>): seq<Inline> {
    MergeOnto([], nodes)
  }

  method MergeInlineText(nodes: seq<Inline>) returns (out: seq<Inline>)
    ensures out == Merge(nodes)
  {
    out := [];
    for i := 0 to |nodes|
      invariant MergeOnto(out, nodes[i..]) == Merge(nodes)
    {
      assert nodes[i..][1..] == nodes[i + 1..];
      var node := nodes[i];
      if node.TextRun? && node.text == "" {
        continue;
      }
      if |out| > 0 && node.TextRun? && out[|out| - 1].TextRun? && out[|out| - 1].marks == node.marks {
        var last := out[|out| - 1];
        assert out[|out| - 1 := TextRun(last.text + node.text, node.marks)]
            == out[..|out| - 1] + [TextRun(last.text + node.text, node.marks)];
        out := out[|out| - 1 := TextRun(last.text + node.text, node.marks)];
        continue;
      }
      out := out + [node];
    }
  }

  /** inlineContext.parse. */
  function Parse(t: Tables, s: string): seq<Inline> {
    Merge(ParseRest(t, s, 0 as char, "", [], 0))
  }
}
