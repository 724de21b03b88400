/** The forms of line that internal/httpapi/import_markdown.go tells apart, as a grammar:
    headings, rules, fences, list and task markers (CommonMark, sections 4.1 to 4.5 and
    5.2; GFM, section 5.3). */
module MarkdownGrammar {
  import opened Text
  import opened MarkdownSyntax

  predicate AllIn(s: string, cut: set<char>) {
    forall i | 0 <= i < |s| :: s[i] in cut
  }

  /** Nothing, or something that does not start with one of the characters. */
  predicate Other(s: string, cut: set<char>) {
    s == "" || s[0] !in cut
  }

  lemma {:induction false} TrimLeftSplits(s: string, cut: set<char>)
    ensures var rest := TrimLeft(s, cut);
            && |rest| <= |s| && s[|s| - |rest|..] == rest && AllIn(s[..|s| - |rest|], cut) && Other(rest, cut)
  {
    if s != [] && s[0] in cut {
      TrimLeftSplits(s[1..], cut);
      var n := |s| - |TrimLeft(s[1..], cut)|;
      assert s[1..][n - 1..] == s[n..];
      forall i | 0 < i < n
        ensures s[i] in cut
      {
        assert s[1..][..n - 1][i - 1] == s[i];
      }
    } else {
      assert s[0..] == s && s[..0] == "";
    }
  }

  /** What is trimmed off. */
  lemma PadOf(s: string, cut: set<char>) returns (pad: string)
    ensures s == pad + TrimLeft(s, cut) && |pad| == |s| - |TrimLeft(s, cut)| && AllIn(pad, cut)
  {
    TrimLeftSplits(s, cut);
    pad := s[..|s| - |TrimLeft(s, cut)|];
  }

  lemma {:induction false} TrimLeftOf(pad: string, rest: string, cut: set<char>)
    requires AllIn(pad, cut) && Other(rest, cut)
    ensures TrimLeft(pad + rest, cut) == rest
  {
    if pad == "" {
      assert pad + rest == rest;
      TrimLeftNothing(rest, cut);
    } else {
      assert (pad + rest)[1..] == pad[1..] + rest;
      TrimLeftOf(pad[1..], rest, cut);
    }
  }

  lemma {:induction false} CountPrefixOf(pad: string, rest: string, c: char)
    requires Only(pad, c) && Other(rest, {c})
    ensures CountPrefix(pad + rest, c) == |pad|
  {
    if pad == "" {
      assert pad + rest == rest;
    } else {
      assert (pad + rest)[1..] == pad[1..] + rest;
      CountPrefixOf(pad[1..], rest, c);
    }
  }

  // ---- Headings ----

  /** Up to three spaces, one to six hashes, and nothing or white space and the text. */
  ghost predicate HeadingForm(line: string, pad: string, hashes: string, rest: string) {
    && line == pad + hashes + rest && Only(pad, ' ') && |pad| <= 3 && Only(hashes, '#') && 1 <= |hashes| <= 6
    && (rest == "" || rest[0] == ' ' || rest[0] == '\t')
  }

  lemma HeadingParts(line: string) returns (pad: string, hashes: string, rest: string)
    requires AtxHeading(line).Some?
    ensures HeadingForm(line, pad, hashes, rest)
  {
    hide WithoutClosingHashes, TrimSpace, TrimLeft;
    var trimmed := TrimLeft(line, {' '});
    var level := CountPrefix(trimmed, '#');
    pad := PadOf(line, {' '});
    hashes, rest := trimmed[..level], trimmed[level..];
    assert trimmed == hashes + rest;
  }

  lemma HeadingIs(line: string, pad: string, hashes: string, rest: string)
    requires HeadingForm(line, pad, hashes, rest)
    ensures AtxHeading(line) == Some(HeadingLine(|hashes|, WithoutClosingHashes(TrimSpace(rest))))
  {
    hide WithoutClosingHashes, TrimSpace;
    var trimmed := hashes + rest;
    assert line == pad + trimmed && trimmed[0] == '#';
    TrimLeftOf(pad, trimmed, {' '});
    CountPrefixOf(hashes, rest, '#');
    assert trimmed[|hashes|..] == rest;
  }

  lemma HeadingForms(line: string)
    ensures AtxHeading(line).Some? <==> exists pad, hashes, rest :: HeadingForm(line, pad, hashes, rest)
    ensures forall pad, hashes, rest | HeadingForm(line, pad, hashes, rest) ::
        AtxHeading(line) == Some(HeadingLine(|hashes|, WithoutClosingHashes(TrimSpace(rest))))
  {
    hide AtxHeading, HeadingForm;
    if AtxHeading(line).Some? {
      var pad, hashes, rest := HeadingParts(line);
    }
    forall pad, hashes, rest | HeadingForm(line, pad, hashes, rest) {
      HeadingIs(line, pad, hashes, rest);
    }
  }

  /** A heading's text ends before a last run of hashes, if white space or nothing
      stands before that run; other hashes are its own. */
  lemma ClosingHashes(text: string, hashes: string)
    requires Trimmed(text) && hashes != "" && Only(hashes, '#') && (text == "" || text[|text| - 1] != '#')
    ensures WithoutClosingHashes(text) == text
    ensures WithoutClosingHashes(text + hashes) == if text == "" then "" else text + hashes
    ensures text != "" ==> WithoutClosingHashes(text + " " + hashes) == text
  {
    TrimRightOf(text, hashes);
    TrimRightOf(text, "");
    TrimRightOf(text + " ", hashes);
    assert text + "" == text;
    if text != "" { TrimSpacePadded("", text, " "); }
    assert "" + text + " " == text + " ";
  }

  lemma {:induction false} TrimRightOf(text: string, hashes: string)
    requires Only(hashes, '#') && (text == "" || text[|text| - 1] != '#')
    ensures TrimRight(text + hashes, {'#'}) == text
  {
    if hashes == "" {
      assert text + hashes == text;
    } else {
      var n := |hashes| - 1;
      assert (text + hashes)[..|text| + n] == text + hashes[..n];
      TrimRightOf(text, hashes[..n]);
    }
  }

  /** The line under a heading: equals signs, or two dashes and more. */
  lemma UnderlineForms(line: string, level: nat)
    ensures SetextHeading(line) == Some(level) <==>
        var t := TrimSpace(line);
        (level == 1 && t != "" && t == Repeat('=', |t|)) || (level == 2 && |t| >= 2 && t == Repeat('-', |t|))
  {
    var t := TrimSpace(line);
    assert Only(t, '=') ==> t == Repeat('=', |t|);
    assert Only(t, '-') ==> t == Repeat('-', |t|);
    assert t != "" && Only(t, '=') ==> t[0] == '=' && !Only(t, '-');
  }

  // ---- Rules ----

  lemma {:induction false} RuleOf(t: string, c: char)
    requires c != ' '
    ensures Only(WithoutSpaces(t), c) <==> AllIn(t, {c, ' '})
    ensures AllIn(t, {c, ' '}) ==> |WithoutSpaces(t)| == multiset(t)[c]
    ensures |WithoutSpaces(t)| <= |t|
  {
    if t != "" {
      RuleOf(t[1..], c);
      assert t == [t[0]] + t[1..];
      assert AllIn(t, {c, ' '}) <==> t[0] in {c, ' '} && AllIn(t[1..], {c, ' '}) by { AllInCons(t, {c, ' '}); }
      var more := WithoutSpaces(t[1..]);
      assert WithoutSpaces(t) == if t[0] == ' ' then more else [t[0]] + more;
      OnlyCons(t[0], more, c);
    }
  }

  lemma OnlyCons(x: char, more: string, c: char)
    ensures Only([x] + more, c) <==> x == c && Only(more, c)
  {
    assert ([x] + more)[0] == x && forall i | 0 <= i < |more| :: ([x] + more)[i + 1] == more[i];
  }

  lemma AllInCons(t: string, cut: set<char>)
    requires t != ""
    ensures AllIn(t, cut) <==> t[0] in cut && AllIn(t[1..], cut)
  {
    assert t == [t[0]] + t[1..];
  }

  /** Three or more of one of the characters "-", "*" and "_", and spaces between. */
  lemma RuleForms(line: string)
    ensures IsThematicBreak(line) <==>
        var t := TrimSpace(line);
        exists c :: c in {'-', '*', '_'} && AllIn(t, {c, ' '}) && multiset(t)[c] >= 3
  {
    var t := TrimSpace(line);
    RuleOf(t, '-');
    RuleOf(t, '*');
    RuleOf(t, '_');
  }

  // ---- Fences ----

  /** Up to three spaces and three backticks or tildes. */
  ghost predicate FenceForm(line: string, pad: string, marker: char, rest: string) {
    line == pad + [marker, marker, marker] + rest && Only(pad, ' ') && |pad| <= 3 && (marker == '`' || marker == '~')
  }

  lemma FenceParts(line: string) returns (pad: string, marker: char, rest: string)
    requires CodeFence(line).Some?
    ensures FenceForm(line, pad, marker, rest)
  {
    hide FenceLanguage, TrimLeft;
    var trimmed := TrimLeft(line, {' '});
    pad := PadOf(line, {' '});
    marker, rest := trimmed[0], trimmed[3..];
    assert trimmed == [marker, marker, marker] + rest;
  }

  lemma FenceIs(line: string, pad: string, marker: char, rest: string)
    requires FenceForm(line, pad, marker, rest)
    ensures CodeFence(line) == Some(Fence(marker, FenceLanguage(TrimLeft(rest, {marker}))))
  {
    hide FenceLanguage;
    var fence := [marker, marker, marker];
    assert line == pad + (fence + rest);
    TrimLeftOf(pad, fence + rest, {' '});
    var more := PadOf(rest, {marker});
    var inner := TrimLeft(rest, {marker});
    TrimLeftSplits(rest, {marker});
    assert fence + rest == (fence + more) + inner;
    TrimLeftOf(fence + more, inner, {marker});
    assert (fence + rest)[..3] == fence;
  }

  lemma FenceForms(line: string)
    ensures CodeFence(line).Some? <==> exists pad, marker, rest :: FenceForm(line, pad, marker, rest)
    ensures forall pad, marker, rest | FenceForm(line, pad, marker, rest) ::
        CodeFence(line) == Some(Fence(marker, FenceLanguage(TrimLeft(rest, {marker}))))
  {
    hide CodeFence, FenceForm;
    if CodeFence(line).Some? {
      var pad, marker, rest := FenceParts(line);
    }
    forall pad, marker, rest | FenceForm(line, pad, marker, rest) {
      FenceIs(line, pad, marker, rest);
    }
  }

  /** A block of code ends with a line of three or more of its own marker alone. */
  lemma ClosingFence(line: string, marker: char)
    ensures ClosesFence(line, marker) <==> exists n: nat :: n >= 3 && TrimSpace(line) == Repeat(marker, n)
  {
    if ClosesFence(line, marker) { assert TrimSpace(line) == Repeat(marker, |TrimSpace(line)|); }
  }

  // ---- Lists ----

  /** Up to eight blanks, a marker, one blank or more, and the content. */
  ghost predicate ItemForm(line: string, pad: string, mark: string, gap: string, content: string) {
    && line == pad + mark + gap + content && AllIn(pad, {' ', '\t'}) && |pad| <= 8
    && gap != "" && AllIn(gap, {' ', '\t'}) && Other(content, {' ', '\t'}) && !IsThematicBreak(line)
  }

  ghost predicate BulletMark(mark: string) {
    mark == "-" || mark == "*" || mark == "+"
  }

  /** One to nine digits, a dot or a parenthesis. */
  ghost predicate NumberMark(mark: string) {
    var n := |mark| - 1;
    1 <= n <= 9 && (forall i | 0 <= i < n :: IsDigit(mark[i])) && (mark[n] == '.' || mark[n] == ')')
  }

  lemma BulletForms(line: string, pad: string, mark: string, gap: string, content: string)
    requires ItemForm(line, pad, mark, gap, content) && BulletMark(mark)
    ensures ParseListMarker(line) == Some(ListMarker(|pad|, |pad| + 1 + |gap|, false, 0, mark[0], content))
  {
    var trimmed := mark + gap + content;
    assert line == pad + trimmed && trimmed[1..] == gap + content && trimmed[1] == gap[0];
    TrimLeftOf(pad, trimmed, {' ', '\t'});
    TrimLeftOf(gap, content, {' ', '\t'});
  }

  lemma NumberForms(line: string, pad: string, mark: string, gap: string, content: string)
    requires ItemForm(line, pad, mark, gap, content) && NumberMark(mark)
    ensures var n := |mark| - 1;
            ParseListMarker(line) == Some(ListMarker(|pad|, |pad| + |mark| + |gap|, true, Atoi(mark[..n]), mark[n], content))
  {
    var n, trimmed := |mark| - 1, mark + gap + content;
    assert line == pad + trimmed && trimmed[n + 1..] == gap + content && trimmed[n + 1] == gap[0];
    assert trimmed[..n] == mark[..n] && trimmed[n] == mark[n] && IsDigit(trimmed[0]);
    TrimLeftOf(pad, trimmed, {' ', '\t'});
    TrimLeftOf(gap, content, {' ', '\t'});
    assert CountDigits(trimmed) == n;
  }

  /** And no other line starts an item. */
  lemma ItemForms(line: string)
    ensures ParseListMarker(line).Some? <==>
        exists pad, mark, gap, content :: ItemForm(line, pad, mark, gap, content) && (BulletMark(mark) || NumberMark(mark))
  {
    if ParseListMarker(line).Some? {
      var pad, mark, gap, content := ItemParts(line);
    }
    if pad, mark, gap, content :| ItemForm(line, pad, mark, gap, content) && (BulletMark(mark) || NumberMark(mark)) {
      if BulletMark(mark) { BulletForms(line, pad, mark, gap, content); } else { NumberForms(line, pad, mark, gap, content); }
    }
  }

  /** Where the marker ends. */
  function MarkWidth(trimmed: string): nat
    requires trimmed != ""
  {
    if trimmed[0] in {'-', '*', '+'} then 1 else CountDigits(trimmed) + 1
  }

  lemma MarkerParts(line: string)
    requires ParseListMarker(line).Some?
    ensures var trimmed := TrimLeft(line, {' ', '\t'});
            && trimmed != "" && |line| - |trimmed| <= 8 && !IsThematicBreak(line)
            && var width := MarkWidth(trimmed);
            && width < |trimmed| && trimmed[width] in {' ', '\t'}
            && (BulletMark(trimmed[..width]) || NumberMark(trimmed[..width]))
  {
    hide IsThematicBreak;
    var trimmed := TrimLeft(line, {' ', '\t'});
    assert trimmed[..1] == [trimmed[0]];
  }

  lemma ItemParts(line: string) returns (pad: string, mark: string, gap: string, content: string)
    requires ParseListMarker(line).Some?
    ensures ItemForm(line, pad, mark, gap, content) && (BulletMark(mark) || NumberMark(mark))
  {
    MarkerParts(line);
    var trimmed := TrimLeft(line, {' ', '\t'});
    var width := MarkWidth(trimmed);
    hide ParseListMarker, IsThematicBreak, MarkWidth, BulletMark, NumberMark, TrimLeft, ItemForm;
    pad := PadOf(line, {' ', '\t'});
    mark := trimmed[..width];
    gap, content := GapParts(trimmed[width..]);
    PartsAreItem(line, pad, mark, gap, content, trimmed);
  }

  lemma PartsAreItem(line: string, pad: string, mark: string, gap: string, content: string, trimmed: string)
    requires line == pad + trimmed && |mark| <= |trimmed| && mark == trimmed[..|mark|] && trimmed[|mark|..] == gap + content
    requires AllIn(pad, {' ', '\t'}) && |pad| <= 8 && gap != "" && AllIn(gap, {' ', '\t'}) && Other(content, {' ', '\t'})
    requires !IsThematicBreak(line)
    ensures ItemForm(line, pad, mark, gap, content)
  {
    hide AllIn, Other, IsThematicBreak;
    assert trimmed == mark + (gap + content);
  }

  lemma GapParts(tail: string) returns (gap: string, content: string)
    requires tail != "" && tail[0] in {' ', '\t'}
    ensures tail == gap + content && gap != "" && AllIn(gap, {' ', '\t'}) && Other(content, {' ', '\t'})
  {
    gap := PadOf(tail, {' ', '\t'});
    content := TrimLeft(tail, {' ', '\t'});
    TrimLeftSplits(tail, {' ', '\t'});
  }

  /** A task: brackets around a space, or around an x of either case where it is done. */
  lemma TaskForms(content: string)
    ensures TaskMarker(content).Some? <==> |content| >= 3 && content[..3] in {"[ ]", "[x]", "[X]"}
    ensures TaskMarker(content).Some? ==>
        TaskMarker(content).value == TaskLine(content[..3] != "[ ]", TrimLeft(content[3..], {' ', '\t'}))
  {
    if |content| >= 3 { assert content[..3] == [content[0], content[1], content[2]]; }
  }
}
