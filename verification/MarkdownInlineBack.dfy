/** Runs of text read back with their marks. */
module MarkdownInlineBack {
  import opened Text
  import opened MarkdownSyntax
  import opened MarkdownInline

  // ---- The runs that survive ----

  /** What the printer writes on both sides of a run with these marks. */
  function Token(marks: seq<Mark>): string {
    if marks == [Bold] then "**"
    else if marks == [Italic] then "*"
    else if marks == [Bold, Italic] then "***"
    else if marks == [Strike] then "~~"
    else if marks == [HIGHLIGHT] then "=="
    else ""
  }

  predicate IsLetter(c: char) {
    'a' <= c <= 'z' || 'A' <= c <= 'Z'
  }

  /** A character that means itself before the text that is printed after it: a tilde
      or an equals sign is not doubled, no '<' opens a tag or an address, and no '!'
      an image. */
  predicate Calm(c: char, next: string) {
    && c != '\n'
    && (c == '~' || c == '=' ==> next == "" || next[0] != c)
    && (c == '<' ==> next == "" || !IsLetter(next[0]))
    && (c == '!' ==> next == "" || next[0] != '[')
  }

  /** Text of calm characters, "after" being printed behind it. */
  predicate GoodText(s: string, after: string) {
    s == "" || (Calm(s[0], Escape(s[1..]) + after) && GoodText(s[1..], after))
  }

  /** Text in bold, italics or both, struck out or highlighted, that does not start
      with a space. */
  predicate Emphasised(node: Inline) {
    && node.TextRun? && Token(node.marks) != ""
    && GoodText(node.text, Token(node.marks)) && node.text != "" && !IsSpace(node.text[0])
  }

  // ---- Printing a run ----

  lemma PrintGood(node: Inline)
    requires node.TextRun? && (node.marks == [] || Token(node.marks) != "")
    ensures PrintNode(node) == Token(node.marks) + Escape(node.text) + Token(node.marks)
  {
    var value := Escape(node.text);
    var marks := node.marks;
    if marks == [Bold, Italic] {
      assert marks[1..] == [Italic] && [Italic][1..] == [];
      assert PrintMarks(value, marks) == PrintMarks("**" + value + "**", [Italic]);
      assert PrintMarks("**" + value + "**", [Italic]) == "*" + ("**" + value + "**") + "*";
      assert "*" + ("**" + value + "**") + "*" == "***" + value + "***";
    } else if marks != [] {
      assert marks[1..] == [];
      assert PrintMarks(value, marks) == PrintMark(value, marks[0]);
    } else {
      assert "" + value + "" == value;
    }
  }

  lemma EscapeHead(s: string)
    requires s != ""
    ensures Escape(s) != "" && Escape(s)[0] == if IsEscaped(s[0]) then '\\' else s[0]
  {
  }

  // ---- Plain text ----

  lemma {:induction false} NoDelimiterAmong(t: Tables, s: string, previous: char, ds: seq<Delimiter>)
    requires forall d | d in ds :: |d.token| > 0 && (s == "" || d.token[0] != s[0])
    ensures FirstDelimiter(t, s, previous, ds).None?
  {
    if ds != [] {
      assert ds[0] in ds && forall d | d in ds[1..] :: d in ds;
      NoDelimiterAmong(t, s, previous, ds[1..]);
    }
  }

  lemma {:induction false} NoTagAmong(s: string, tags: seq<TagMark>)
    requires s != "" && (|s| == 1 || !IsLetter(s[1]))
    requires forall tag | tag in tags :: LetterTag(tag)
    ensures FindTag(s, tags).None?
  {
    if tags != [] {
      assert tags[0] in tags && forall tag | tag in tags[1..] :: tag in tags;
      NoTagAmong(s, tags[1..]);
      var open := "<" + tags[0].tag + ">";
      assert open[1] == tags[0].tag[0];
      assert |s| > 1 ==> Lower(s)[1] == LowerChar(s[1]);
    }
  }

  lemma NoAddress(s: string)
    requires s != "" && (|s| == 1 || !IsLetter(s[1]))
    ensures Autolink(s).None?
  {
    var end := AutolinkEnd(s, 1);
    if end.Some? && end.value > 1 {
      var inner := s[1..end.value];
      VisibleHead(inner);
      var lower := Lower(TrimSpace(inner));
      assert lower[0] == LowerChar(s[1]);
      assert !HasPrefix(lower, "http://") && !HasPrefix(lower, "https://") && !HasPrefix(lower, "mailto:");
    }
  }

  lemma NoBreak(s: string)
    requires s != "" && (|s| == 1 || !IsLetter(s[1]))
    ensures BreakTag(s) == 0
  {
    assert |s| > 1 ==> Lower(s)[1] == LowerChar(s[1]) != 'b';
  }

  /** '<' before anything but a letter is a character like any other. */
  lemma NothingOpens(s: string)
    requires s != "" && s[0] == '<' && (|s| == 1 || !IsLetter(s[1]))
    ensures Autolink(s).None? && BreakTag(s) == 0 && FindTag(s, TAGS).None?
  {
    hide Autolink, FindTag, BreakTag;
    NoAddress(s);
    NoBreak(s);
    assert FindTag(s, TAGS).None? by {
      TagsAreLetters();
      NoTagAmong(s, TAGS);
    }
  }

  predicate LetterTag(tag: TagMark) {
    tag.tag != "" && 'a' <= tag.tag[0] <= 'z'
  }

  lemma TagsAreLetters()
    ensures forall tag | tag in TAGS :: LetterTag(tag)
  {
    var a, b := TAGS[..6], TAGS[6..];
    assert TAGS == a + b;
    assert forall tag | tag in a :: LetterTag(tag) by { FirstTags(); }
    assert forall tag | tag in b :: LetterTag(tag) by { OtherTags(); }
  }

  lemma FirstTags()
    ensures forall tag | tag in TAGS[..6] :: LetterTag(tag)
  {
    assert TAGS[..6] == [TagMark("u", Underline), TagMark("ins", Underline), TagMark("strong", Bold), TagMark("b", Bold),
                         TagMark("em", Italic), TagMark("i", Italic)];
  }

  lemma OtherTags()
    ensures forall tag | tag in TAGS[6..] :: LetterTag(tag)
  {
    assert TAGS[6..] == [TagMark("s", Strike), TagMark("del", Strike), TagMark("strike", Strike), TagMark("mark", HIGHLIGHT),
                         TagMark("code", CodeMark), TagMark("sup", Superscript), TagMark("sub", Subscript)];
  }

  lemma OrdinaryTurn(t: Tables, s: string, previous: char, buffer: string, marks: seq<Mark>, depth: nat)
    requires s != "" && !IsEscaped(s[0]) && Calm(s[0], s[1..])
    ensures TakeTurn(t, s, previous, buffer, marks, depth) == Turn([], 1, buffer + [s[0]])
  {
    hide Autolink, BreakTag, FindTag, ParseRest, TryDelimiter;
    if s[0] == '<' {
      NothingOpens(s);
    } else if s[0] == '~' || s[0] == '=' {
      hide FirstDelimiter;
      NotDoubled(t, s, previous);
    } else {
      hide FirstDelimiter;
      NoDelimiterAmong(t, s, previous, DELIMITERS);
    }
  }

  lemma NotDoubled(t: Tables, s: string, previous: char)
    requires s != "" && (s[0] == '~' || s[0] == '=') && (|s| == 1 || s[1] != s[0])
    ensures FirstDelimiter(t, s, previous, DELIMITERS).None?
  {
    NoPrefixAmong(t, s, previous, DELIMITERS);
  }

  lemma {:induction false} NoPrefixAmong(t: Tables, s: string, previous: char, ds: seq<Delimiter>)
    requires forall d | d in ds :: |d.token| > 0 && !(d.token <= s)
    ensures FirstDelimiter(t, s, previous, ds).None?
  {
    if ds != [] {
      assert ds[0] in ds && forall d | d in ds[1..] :: d in ds;
      NoPrefixAmong(t, s, previous, ds[1..]);
    }
  }

  lemma EscapedTurn(t: Tables, c: char, rest: string, previous: char, buffer: string, marks: seq<Mark>, depth: nat)
    requires IsEscaped(c)
    ensures TakeTurn(t, ['\\', c] + rest, previous, buffer, marks, depth) == Turn([], 2, buffer + [c])
  {
    assert IsPunctuation(c);
  }

  function EscapeChar(c: char): string {
    if IsEscaped(c) then ['\\', c] else [c]
  }

  lemma CharBack(t: Tables, c: char, more: string, previous: char, buffer: string, marks: seq<Mark>, depth: nat)
    requires Calm(c, more)
    ensures ParseRest(t, EscapeChar(c) + more, previous, buffer, marks, depth)
         == ParseRest(t, more, c, buffer + [c], marks, depth)
  {
    hide TakeTurn, IsPunctuation, Calm;
    var s := EscapeChar(c) + more;
    if IsEscaped(c) {
      EscapedTurn(t, c, more, previous, buffer, marks, depth);
      assert s[2..] == more && s[1] == c;
    } else {
      OrdinaryTurn(t, s, previous, buffer, marks, depth);
      assert s[1..] == more && s[0] == c;
    }
    var after := ParseRest(t, more, c, buffer + [c], marks, depth);
    assert [] + after == after;
  }

  lemma EscapeFirst(x: string, rest: string)
    requires x != ""
    ensures Escape(x) + rest == EscapeChar(x[0]) + (Escape(x[1..]) + rest)
  {
  }

  lemma GoodParts(x: string, after: string)
    requires GoodText(x, after) && x != ""
    ensures Calm(x[0], Escape(x[1..]) + after) && GoodText(x[1..], after)
  {
  }

  /** Escaped text goes into the buffer as it was before escaping. */
  lemma {:induction false} PlainBack(
    t: Tables, x: string, rest: string, previous: char, buffer: string, marks: seq<Mark>, depth: nat)
    requires GoodText(x, rest)
    ensures ParseRest(t, Escape(x) + rest, previous, buffer, marks, depth)
         == ParseRest(t, rest, if x == "" then previous else x[|x| - 1], buffer + x, marks, depth)
    decreases |x|
  {
    hide ParseRest, Calm, IsEscaped, EscapeChar, Escape, GoodText;
    if x == "" {
      EscapeNothing(rest);
      assert buffer + x == buffer;
    } else {
      var tail := x[1..];
      EscapeFirst(x, rest);
      GoodParts(x, rest);
      CharBack(t, x[0], Escape(tail) + rest, previous, buffer, marks, depth);
      PlainBack(t, tail, rest, x[0], buffer + [x[0]], marks, depth);
      assert buffer + [x[0]] + tail == buffer + x;
    }
  }

  /** What is calm before something is calm before nothing. */
  lemma {:induction false} GoodAlone(x: string, after: string)
    requires GoodText(x, after)
    ensures GoodText(x, "")
  {
    if x != "" {
      GoodAlone(x[1..], after);
      assert Escape(x[1..]) + "" == Escape(x[1..]);
    }
  }

  lemma EscapeNothing(rest: string)
    ensures Escape("") + rest == rest
  {
  }

  // ---- Marked runs ----

  lemma {:induction false} ChosenDelimiter(t: Tables, s: string, previous: char, ds: seq<Delimiter>, k: nat)
    requires k < |ds| && forall d | d in ds :: |d.token| > 0
    requires forall i | 0 <= i < k :: !(ds[i].token <= s)
    requires TryDelimiter(t, s, previous, ds[k]).Some?
    ensures FirstDelimiter(t, s, previous, ds) == TryDelimiter(t, s, previous, ds[k])
  {
    assert ds[0] in ds;
    if k > 0 {
      assert !(ds[0].token <= s);
      assert forall d | d in ds[1..] :: d in ds;
      ChosenDelimiter(t, s, previous, ds[1..], k - 1);
    }
  }

  lemma SkipStep(s: string, token: string, from: nat)
    requires from + |token| <= |s| && from < |s|
    ensures s[from] == '\\' ==> FindToken(s, token, from) == FindToken(s, token, from + 2)
    ensures s[from] != '\\' && !(token <= s[from..]) ==> FindToken(s, token, from) == FindToken(s, token, from + 1)
    ensures s[from] != '\\' && token <= s[from..] ==> FindToken(s, token, from) == Some(from)
  {
  }

  predicate IsToken(token: string) {
    token == "*" || token == "**" || token == "***" || token == "~~" || token == "=="
  }

  lemma NotToken(s: string, from: nat, token: string)
    requires IsToken(token) && from + 1 < |s| && s[from] != '*'
    requires s[from] == '~' || s[from] == '=' ==> s[from + 1] != s[from]
    ensures !(token <= s[from..])
  {
    var here := s[from..];
    assert here[0] == s[from] && here[1] == s[from + 1];
  }

  lemma FindTokenStep(before: string, c: char, next: string, token: string)
    requires IsToken(token) && |next| >= |token| && Calm(c, next)
    ensures FindToken(before + EscapeChar(c) + next, token, |before|)
         == FindToken(before + EscapeChar(c) + next, token, |before + EscapeChar(c)|)
  {
    hide FindToken, IsToken;
    TokenHead(token);
    var s, from := before + EscapeChar(c) + next, |before|;
    assert s[from] == EscapeChar(c)[0];
    assert !IsEscaped(c) ==> s[from + 1] == next[0];
    hide EscapeChar;
    if IsEscaped(c) {
      SkipStep(s, token, from);
    } else {
      NotToken(s, from, token);
      SkipStep(s, token, from);
    }
  }

  /** The first unescaped token after escaped text is the one printed there. */
  lemma {:induction false} FindTokenBack(before: string, x: string, token: string, rest: string)
    requires GoodText(x, token) && IsToken(token)
    ensures FindToken(before + Escape(x) + token + rest, token, |before|) == Some(|before| + |Escape(x)|)
    decreases |x|
  {
    hide FindToken, IsToken, EscapeChar, Calm, Escape, GoodText;
    var s := before + Escape(x) + token + rest;
    if x == "" {
      EscapeNothing(token);
      assert Escape(x) == "" && s == before + token + rest;
      assert s[|before|..] == token + rest;
      FoundHere(s, token, |before|);
    } else {
      var head, tail := EscapeChar(x[0]), Escape(x[1..]);
      GoodParts(x, token);
      TokenHead(token);
      CalmLonger(x[0], tail + token, rest);
      FindTokenStep(before, x[0], tail + token + rest, token);
      FindTokenBack(before + head, x[1..], token, rest);
      assert Escape(x) == head + tail by { EscapedParts(x); }
      Regrouped(before, head, tail, token, rest);
    }
  }

  lemma EscapedParts(x: string)
    requires x != ""
    ensures Escape(x) == EscapeChar(x[0]) + Escape(x[1..])
  {
  }

  lemma Regrouped(a: string, b: string, c: string, d: string, e: string)
    ensures a + (b + c) + d + e == a + b + (c + d + e) == a + b + c + d + e
  {
  }

  lemma FoundHere(s: string, token: string, from: nat)
    requires IsToken(token) && from + |token| <= |s| && token <= s[from..]
    ensures FindToken(s, token, from) == Some(from)
  {
    hide FindToken;
    SkipStep(s, token, from);
    assert s[from] == s[from..][0] == token[0];
  }

  lemma CalmLonger(c: char, next: string, rest: string)
    requires Calm(c, next) && next != ""
    ensures Calm(c, next + rest)
  {
    assert (next + rest)[0] == next[0];
  }

  lemma Middle(a: string, b: string, c: string)
    ensures a <= a + b + c && (a + b + c)[|a|..|a| + |b|] == b
  {
  }

  lemma TokenHead(token: string)
    requires IsToken(token)
    ensures token != "" && token[0] != '_'
  {
  }

  lemma Tried(t: Tables, s: string, previous: char, d: Delimiter, closing: nat)
    requires d.token != "" && d.token[0] != '_' && d.token <= s && closing > |d.token|
    requires FindToken(s, d.token, |d.token|) == Some(closing)
    requires !IsSpace(s[|d.token|])
    ensures TryDelimiter(t, s, previous, d) == Some(Emphasis(d.marks, s[|d.token|..closing], closing + |d.token|))
  {
    hide FindToken, Blank;
    VisibleHead(s[|d.token|..closing]);
  }

  lemma DelimiterBack(t: Tables, x: string, rest: string, previous: char, d: Delimiter)
    requires IsToken(d.token) && GoodText(x, d.token) && x != "" && !IsSpace(x[0])
    ensures TryDelimiter(t, d.token + Escape(x) + d.token + rest, previous, d)
         == Some(Emphasis(d.marks, Escape(x), |Escape(x)| + 2 * |d.token|))
  {
    hide FindToken, TryDelimiter, Escape, GoodText, IsToken;
    TokenHead(d.token);
    var s := d.token + Escape(x) + d.token + rest;
    FindTokenBack(d.token, x, d.token, rest);
    EscapeHead(x);
    Middle(d.token, Escape(x), d.token + rest);
    assert d.token + Escape(x) + (d.token + rest) == s;
    assert s[|d.token|] == Escape(x)[0];
    Tried(t, s, previous, d, |d.token| + |Escape(x)|);
  }

  /** The place of a run's delimiter in the parser's order of trial. */
  function Place(marks: seq<Mark>): nat {
    if marks == [Bold, Italic] then 0
    else if marks == [Bold] then 2
    else if marks == [Strike] then 4
    else if marks == [HIGHLIGHT] then 5
    else 6
  }

  lemma OpensWith(x: string, rest: string, k: nat, i: nat)
    requires k in {0, 2, 4, 5, 6} && i < k && x != ""
    ensures !(DELIMITERS[i].token <= DELIMITERS[k].token + Escape(x) + DELIMITERS[k].token + rest)
  {
    hide Escape;
    var d := DELIMITERS[k];
    EscapeHead(x);
    OtherToken(d.token + Escape(x) + d.token + rest, |d.token|, DELIMITERS[i].token);
  }

  lemma MarkedDelimiter(t: Tables, node: Inline, rest: string, previous: char)
    requires Emphasised(node)
    ensures FirstDelimiter(t, PrintNode(node) + rest, previous, DELIMITERS)
         == Some(Emphasis(node.marks, Escape(node.text), |PrintNode(node)|))
  {
    hide Escape, PrintNode, TryDelimiter, FirstDelimiter;
    var k := Place(node.marks);
    var d := DELIMITERS[k];
    PrintGood(node);
    assert d.token == Token(node.marks) && d.marks == node.marks;
    var s := d.token + Escape(node.text) + d.token + rest;
    DelimiterBack(t, node.text, rest, previous, d);
    forall i | 0 <= i < k
      ensures !(DELIMITERS[i].token <= s)
    {
      OpensWith(node.text, rest, k, i);
    }
    ChosenDelimiter(t, s, previous, DELIMITERS, k);
  }

  lemma EmphasisTurn(t: Tables, node: Inline, rest: string, previous: char, buffer: string)
    requires Emphasised(node)
    ensures var s := PrintNode(node) + rest;
            s != "" && TakeTurn(t, s, previous, buffer, [], 0)
            == Turn(Flush(buffer, []) + ParseRest(t, Escape(node.text), 0 as char, "", node.marks, 1), |PrintNode(node)|, "")
  {
    hide FirstDelimiter, ParseRest, IsPunctuation, Escape, PrintNode;
    PrintGood(node);
    MarkedDelimiter(t, node, rest, previous);
    assert [] + node.marks == node.marks;
  }

  lemma OtherToken(s: string, n: nat, token: string)
    requires 0 < n < |s| && token != ""
    requires s[0] != token[0] || (n < |token| && s[n] != token[n])
    ensures !(token <= s)
  {
  }
}
