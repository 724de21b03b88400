/** Underlined and linked runs read back. */
module MarkdownInlineTags {
  import opened Text
  import opened MarkdownSyntax
  import opened MarkdownInline
  import opened MarkdownInlineBack

  // ---- Underlining ----

  predicate Underlined(node: Inline) {
    node.TextRun? && node.marks == [Underline] && node.text != "" && '<' !in node.text && GoodText(node.text, "")
  }

  lemma {:induction false} EscapeOnlyAdds(x: string, c: char)
    requires c !in x && c != '\\'
    ensures c !in Escape(x)
  {
    if x != "" {
      assert x[0] in x && forall d | d in x[1..] :: d in x;
      EscapeOnlyAdds(x[1..], c);
    }
  }

  lemma {:induction false} IndexOfBack(s: string, needle: string, from: nat, at: nat)
    requires needle != "" && from <= at && at + |needle| <= |s| && needle <= s[at..]
    requires forall k | from <= k < at :: s[k] != needle[0]
    ensures IndexOf(s, needle, from) == Some(at)
    decreases at - from
  {
    if from < at {
      assert s[from..][0] != needle[0];
      IndexOfBack(s, needle, from + 1, at);
    }
  }

  const OPEN_TAG := "<u>"
  const CLOSE_TAG := "</u>"

  /** The printed form in lower case: its first closing tag is its own. */
  lemma ClosingTag(value: string, rest: string)
    requires '<' !in value
    ensures var lower := Lower(OPEN_TAG + value + CLOSE_TAG + rest);
            HasPrefix(lower, OPEN_TAG) && IndexOf(lower, CLOSE_TAG, 0) == Some(3 + |value|)
  {
    var s := OPEN_TAG + value + CLOSE_TAG + rest;
    var lower, at := Lower(s), 3 + |value|;
    assert lower[0] == '<' && lower[1] == 'u' && lower[2] == '>';
    assert s[at] == '<' && s[at + 1] == '/' && s[at + 2] == 'u' && s[at + 3] == '>';
    assert CLOSE_TAG <= lower[at..];
    forall k | 1 <= k < at
      ensures lower[k] != '<'
    {
      assert s[k] == if k < 3 then OPEN_TAG[k] else value[k - 3];
    }
    IndexOfBack(lower, CLOSE_TAG, 1, at);
    assert !(CLOSE_TAG <= lower[0..]) by { assert lower[0..][1] == 'u'; }
  }

  lemma UnderlineTag(value: string, rest: string)
    requires '<' !in value
    ensures FindTag(OPEN_TAG + value + CLOSE_TAG + rest, TAGS) == Some(Emphasis([Underline], value, |value| + 7))
  {
    hide IndexOf, Lower;
    var s := OPEN_TAG + value + CLOSE_TAG + rest;
    ClosingTag(value, rest);
    assert TAGS[0] == TagMark("u", Underline) && "<" + "u" + ">" == OPEN_TAG && "</" + "u" + ">" == CLOSE_TAG;
    assert s[3..3 + |value|] == value;
  }

  lemma NoAddressNorBreak(rest: string)
    ensures Autolink(OPEN_TAG + rest).None? && BreakTag(OPEN_TAG + rest) == 0
  {
    var s := OPEN_TAG + rest;
    assert s[2] == '>' && AutolinkEnd(s, 2) == Some(2);
    assert s[1] == 'u' && AutolinkEnd(s, 1) == Some(2);
    assert s[1..2] == "u";
    TrimSpaceOfTrimmed("u");
    assert Lower(s)[1] == 'u';
  }

  lemma UnderlinePrints(node: Inline)
    requires node.TextRun? && node.marks == [Underline]
    ensures PrintNode(node) == OPEN_TAG + Escape(node.text) + CLOSE_TAG
  {
    hide Escape;
    assert node.marks[1..] == [];
    assert PrintNode(node) == PrintMarks(Escape(node.text), node.marks) == PrintMark(Escape(node.text), Underline);
  }

  lemma TagTurn(t: Tables, s: string, previous: char, buffer: string, tag: Emphasis)
    requires s != "" && s[0] == '<' && |tag.body| < |s|
    requires Autolink(s).None? && BreakTag(s) == 0 && FindTag(s, TAGS) == Some(tag)
    ensures TakeTurn(t, s, previous, buffer, [], 0)
         == Turn(Flush(buffer, []) + ParseRest(t, tag.body, 0 as char, "", tag.marks, 1), tag.width, "")
  {
    hide FindTag, Autolink, BreakTag, ParseRest, Flush;
    assert [] + tag.marks == tag.marks;
  }

  lemma UnderlineTurn(t: Tables, node: Inline, rest: string, previous: char, buffer: string)
    requires Underlined(node)
    ensures var s := PrintNode(node) + rest;
            s != "" && TakeTurn(t, s, previous, buffer, [], 0)
            == Turn(Flush(buffer, []) + ParseRest(t, Escape(node.text), 0 as char, "", node.marks, 1), |PrintNode(node)|, "")
  {
    hide FindTag, Autolink, BreakTag, ParseRest, Escape, TakeTurn, PrintNode;
    var value := Escape(node.text);
    EscapeOnlyAdds(node.text, '<');
    UnderlinePrints(node);
    UnderlineTag(value, rest);
    var s := OPEN_TAG + value + CLOSE_TAG + rest;
    assert s == OPEN_TAG + (value + CLOSE_TAG + rest);
    NoAddressNorBreak(value + CLOSE_TAG + rest);
    TagTurn(t, s, previous, buffer, Emphasis([Underline], value, |value| + 7));
  }

  // ---- Links ----

  /** An address the parser takes as it stands. */
  predicate PlainAddress(href: string) {
    && SafeLink(href) && href != ""
    && forall c | c in href :: !IsSpace(c) && c != '(' && c != ')' && c != '\\' && c != '<' && c != '>'
  }

  predicate Linked(node: Inline) {
    && node.TextRun? && |node.marks| == 1 && node.marks[0].Link? && PlainAddress(node.marks[0].href)
    && node.text != "" && !IsSpace(node.text[0]) && GoodText(node.text, "")
  }

  lemma CloseStep(s: string, depth: int, from: nat)
    requires from < |s| && s[from] != '['
    ensures s[from] == '\\' ==> FindClose(s, '[', ']', depth, from) == FindClose(s, '[', ']', depth, from + 2)
    ensures s[from] != '\\' && s[from] != ']' ==> FindClose(s, '[', ']', depth, from) == FindClose(s, '[', ']', depth, from + 1)
    ensures s[from] == ']' && depth == 1 ==> FindClose(s, '[', ']', depth, from) == Some(from)
  {
  }

  /** The bracket that closes a label is the printed one: those in it are escaped. */
  lemma {:induction false} LabelCloses(before: string, x: string, rest: string)
    ensures FindClose(before + Escape(x) + "]" + rest, '[', ']', 1, |before|) == Some(|before| + |Escape(x)|)
    decreases |x|
  {
    hide FindClose, Escape;
    var s := before + Escape(x) + "]" + rest;
    if x == "" {
      EscapeNothing("");
      assert s[|before|] == ']';
      CloseStep(s, 1, |before|);
    } else {
      var head := EscapeChar(x[0]);
      EscapedParts(x);
      Regrouped(before, head, Escape(x[1..]), "]", rest);
      assert s[|before|] == head[0];
      CloseStep(s, 1, |before|);
      LabelCloses(before + head, x[1..], rest);
    }
  }

  lemma {:induction false} AddressCloses(s: string, from: nat, at: nat)
    requires from <= at < |s| && s[at] == ')' && forall k | from <= k < at :: s[k] != '(' && s[k] != ')' && s[k] != '\\'
    ensures FindClose(s, '(', ')', 1, from) == Some(at)
    decreases at - from
  {
    if from < at { AddressCloses(s, from + 1, at); }
  }

  lemma {:induction false} OneField(s: string)
    requires forall c | c in s :: !IsSpace(c)
    ensures FirstField(s) == s
  {
    if s != "" {
      assert s[0] in s && forall c | c in s[1..] :: c in s;
      OneField(s[1..]);
    }
  }

  lemma AddressBack(href: string)
    requires PlainAddress(href)
    ensures TrimSpace(href) == href && Destination(href) == href
  {
    hide SafeLink, TrimSpace, FirstField;
    assert href[0] in href && href[|href| - 1] in href;
    TrimSpaceOfTrimmed(href);
    OneField(href);
    assert TrimLeft(href, {'<', '>'}) == href by { TrimLeftNothing(href, {'<', '>'}); }
    assert TrimRight(href, {'<', '>'}) == href;
  }

  /** The address in brackets at "at" ends at its closing one. */
  lemma AddressEnds(s: string, at: nat, href: string)
    requires PlainAddress(href) && at + |href| + 1 < |s|
    requires s[at] == '(' && s[at + 1..at + 1 + |href|] == href && s[at + 1 + |href|] == ')'
    ensures FindClose(s, '(', ')', 0, at) == Some(at + 1 + |href|)
  {
    FirstBracket(s, '(', ')', at);
    forall k | at + 1 <= k < at + 1 + |href|
      ensures s[k] in href
    {
      assert s[k] == s[at + 1..at + 1 + |href|][k - at - 1];
    }
    AddressCloses(s, at + 1, at + 1 + |href|);
  }

  lemma PartsOfLink(s: string, caption: string, href: string)
    requires PlainAddress(href) && |s| >= |caption| + |href| + 4 && s[0] == '['
    requires var end := 1 + |caption|;
             && FindClose(s, '[', ']', 0, 0) == Some(end) && FindClose(s, '(', ')', 0, end + 1) == Some(end + 2 + |href|)
             && s[1..end] == caption && s[end + 1] == '(' && s[end + 2..end + 2 + |href|] == href
    ensures ImageOrLink(s, 0) == Some(LinkParts(caption, href, |caption| + |href| + 4))
  {
    hide FindClose, Destination, PlainAddress;
    AddressBack(href);
  }

  lemma LinkBack(x: string, href: string, rest: string)
    requires PlainAddress(href)
    ensures var s := "[" + Escape(x) + "](" + href + ")" + rest;
            ImageOrLink(s, 0) == Some(LinkParts(Escape(x), href, |Escape(x)| + |href| + 4))
  {
    hide Escape, ImageOrLink, PlainAddress, FindClose;
    var value := Escape(x);
    var s := "[" + value + "](" + href + ")" + rest;
    assert s == "[" + value + "]" + ("(" + href + ")" + rest);
    LabelCloses("[", x, "(" + href + ")" + rest);
    FirstBracket(s, '[', ']', 0);
    var end := 1 + |value|;
    assert s[1..end] == value && s[end + 1] == '(' && s[end + 2..end + 2 + |href|] == href && s[end + 2 + |href|] == ')';
    AddressEnds(s, end + 1, href);
    PartsOfLink(s, value, href);
  }

  lemma FirstBracket(s: string, open: char, close: char, at: nat)
    requires at < |s| && s[at] == open && open != '\\'
    ensures FindClose(s, open, close, 0, at) == FindClose(s, open, close, 1, at + 1)
  {
  }

  lemma LinkPrints(node: Inline)
    requires Linked(node)
    ensures PrintNode(node) == "[" + Escape(node.text) + "](" + node.marks[0].href + ")"
  {
    hide Escape, SafeLink;
    var value, href := Escape(node.text), node.marks[0].href;
    AddressBack(href);
    assert node.marks[1..] == [];
    assert PrintNode(node) == PrintMarks(value, node.marks) == PrintMark(value, Link(href));
  }

  lemma BracketTurn(t: Tables, s: string, previous: char, buffer: string, link: LinkParts)
    requires s != "" && s[0] == '[' && ImageOrLink(s, 0) == Some(link)
    requires !Blank(link.caption) && SafeLink(link.destination) && TrimSpace(link.destination) == link.destination
    ensures TakeTurn(t, s, previous, buffer, [], 0)
         == Turn(Flush(buffer, []) + ParseRest(t, link.caption, 0 as char, "", [Link(link.destination)], 1), link.width, "")
  {
    hide ImageOrLink, ParseRest, Flush, Blank, SafeLink, TrimSpace;
    assert [] + [Link(link.destination)] == [Link(link.destination)];
  }

  lemma LinkTurn(t: Tables, node: Inline, rest: string, previous: char, buffer: string)
    requires Linked(node)
    ensures var s := PrintNode(node) + rest;
            s != "" && TakeTurn(t, s, previous, buffer, [], 0)
            == Turn(Flush(buffer, []) + ParseRest(t, Escape(node.text), 0 as char, "", node.marks, 1), |PrintNode(node)|, "")
  {
    hide ParseRest, Escape, ImageOrLink, Blank, SafeLink, Destination, TakeTurn, PrintNode;
    var x, href := node.text, node.marks[0].href;
    var value := Escape(x);
    LinkPrints(node);
    LinkBack(x, href, rest);
    AddressBack(href);
    EscapeHead(x);
    VisibleHead(value);
    assert node.marks == [Link(href)];
    BracketTurn(t, "[" + value + "](" + href + ")" + rest, previous, buffer, LinkParts(value, href, |value| + |href| + 4));
  }
}
