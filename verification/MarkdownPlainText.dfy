/** Exactly which unmarked text comes back: the printer escapes neither "~~" nor "==". */
module MarkdownPlainText {
  import opened Text
  import opened MarkdownSyntax
  import opened MarkdownInline
  import opened MarkdownInlineBack
  import opened MarkdownRuns

  // ---- The condition ----

  /** Where a character first stands doubled. */
  function NextCopy(x: string, c: char): (r: Option<nat>)
    ensures r.Some? ==> r.value + 1 < |x| && x[r.value] == x[r.value + 1] == c
    ensures r.Some? ==> forall k | 0 <= k < r.value :: !(x[k] == x[k + 1] == c)
    ensures r.None? ==> forall k | 0 <= k < |x| - 1 :: !(x[k] == x[k + 1] == c)
  {
    if |x| < 2 then None
    else if x[0] == x[1] == c then Some(0)
    else
      var rest := NextCopy(x[1..], c);
      assert forall k | 0 < k < |x| - 1 :: x[k] == x[1..][k - 1] && x[k + 1] == x[1..][k];
      if rest.None? then None else Some(rest.value + 1)
  }

  /** The text begins with "~~" or "==", and before the next copy of it stands
      something that does not start with a space. */
  predicate Opens(x: string) {
    && |x| > 2 && x[0] == x[1] && (x[0] == '~' || x[0] == '=') && !IsSpace(x[2])
    && NextCopy(x[2..], x[0]).Some? && NextCopy(x[2..], x[0]).value > 0
  }

  predicate Ambiguous(x: string) {
    exists i | 0 <= i < |x| :: Opens(x[i..])
  }

  /** No newline, and no '<' right before a letter. */
  predicate Lines(x: string) {
    x == "" || (x[0] != '\n' && (x[0] == '<' ==> |x| == 1 || !IsLetter(x[1])) && Lines(x[1..]))
  }

  lemma {:induction false} LinesWithin(x: string, i: nat, j: nat)
    requires Lines(x) && i <= j <= |x|
    ensures Lines(x[i..j])
    decreases j - i, i
  {
    if i > 0 {
      LinesWithin(x[1..], i - 1, j - 1);
      assert x[i..j] == x[1..][i - 1..j - 1];
    } else if j > 0 {
      var y := x[..j];
      LinesWithin(x[1..], 0, j - 1);
      assert y[1..] == x[1..][..j - 1];
    }
  }

  // ---- Looking for the next copy in printed text ----

  lemma {:induction false} FindInEscaped(before: string, x: string, c: char)
    requires c == '~' || c == '='
    ensures FindToken(before + Escape(x), [c, c], |before|)
         == if NextCopy(x, c).None? then None else Some(|before| + |Escape(x[..NextCopy(x, c).value])|)
    decreases |x|
  {
    hide FindToken, Escape;
    var s := before + Escape(x);
    if x == "" {
      EscapeNothing("");
      NothingToFind(s, c, |before|);
    } else {
      var head, tail := EscapeChar(x[0]), Escape(x[1..]);
      EscapedParts(x);
      assert s == before + head + tail;
      FindInEscaped(before + head, x[1..], c);
      CopyStep(before, x, c);
      PrefixParts(x, c);
    }
  }

  lemma NothingToFind(s: string, c: char, from: nat)
    requires from >= |s|
    ensures FindToken(s, [c, c], from).None?
  {
  }

  lemma EscapeOfTwo(x: string)
    requires |x| > 1
    ensures Escape(x[1..]) != "" && Escape(x[1..])[0] == if IsEscaped(x[1]) then '\\' else x[1]
  {
    EscapeHead(x[1..]);
  }

  lemma CopyStep(before: string, x: string, c: char)
    requires x != "" && (c == '~' || c == '=')
    ensures var s, head := before + EscapeChar(x[0]) + Escape(x[1..]), EscapeChar(x[0]);
            FindToken(s, [c, c], |before|)
            == if |x| > 1 && x[0] == x[1] == c then Some(|before|) else FindToken(s, [c, c], |before + head|)
  {
    hide FindToken, Escape;
    var tail := Escape(x[1..]);
    var s, from, token := before + EscapeChar(x[0]) + tail, |before|, [c, c];
    if |x| > 1 { EscapeOfTwo(x); } else { EscapeNothing(""); assert x[1..] == "" && tail == ""; }
    assert s[from] == EscapeChar(x[0])[0] && |before + EscapeChar(x[0])| == from + |EscapeChar(x[0])|;
    if from + 2 > |s| {
      NothingTwice(s, c, from);
    } else {
      SkipStep(s, token, from);
      if !IsEscaped(x[0]) {
        var here := s[from..];
        assert here[0] == s[from] == x[0] && here[1] == s[from + 1] == tail[0];
        assert token <= here <==> here[0] == c && here[1] == c;
        assert here[1] == c <==> x[1] == c;
      }
    }
  }

  lemma NothingTwice(s: string, c: char, from: nat)
    requires from + 2 > |s|
    ensures FindToken(s, [c, c], from).None? && FindToken(s, [c, c], from + 1).None?
  {
  }

  lemma PrefixParts(x: string, c: char)
    requires x != ""
    ensures NextCopy(x[1..], c).Some? ==>
              var j := NextCopy(x[1..], c).value;
              |Escape(x[..j + 1])| == |EscapeChar(x[0])| + |Escape(x[1..][..j])|
    ensures Escape(x[..0]) == ""
  {
    if NextCopy(x[1..], c).Some? {
      var j := NextCopy(x[1..], c).value;
      EscapedParts(x[..j + 1]);
      assert x[..j + 1][1..] == x[1..][..j];
    }
  }

  // ---- One turn ----

  /** The mark that "~~" or "==" stands for. */
  function MarkOf(c: char): Mark {
    if c == '~' then Strike else HIGHLIGHT
  }

  function DelimiterOf(c: char): Delimiter {
    Delimiter([c, c], [MarkOf(c)])
  }

  lemma {:induction false} EscapeSlices(x: string, i: nat)
    requires i <= |x|
    ensures Escape(x) == Escape(x[..i]) + Escape(x[i..])
  {
    if i == 0 {
      assert x[..0] == "" && x[0..] == x;
    } else {
      EscapeSlices(x[1..], i - 1);
      EscapedParts(x);
      EscapedParts(x[..i]);
      assert x[..i][1..] == x[1..][..i - 1] && x[1..][i - 1..] == x[i..];
    }
  }

  /** Text that begins with a doubled character, as printed. */
  lemma DoubledParts(x: string)
    requires |x| > 1 && x[0] == x[1] && (x[0] == '~' || x[0] == '=')
    ensures Escape(x) == [x[0], x[0]] + Escape(x[2..])
  {
    EscapedParts(x);
    EscapedParts(x[1..]);
    assert x[1..][1..] == x[2..];
  }

  /** Where the doubled character is next found, and what stands before it. */
  lemma Closing(x: string)
    requires |x| > 1 && x[0] == x[1] && (x[0] == '~' || x[0] == '=')
    ensures var closing, copy := FindToken(Escape(x), [x[0], x[0]], 2), NextCopy(x[2..], x[0]);
            && (closing.Some? <==> copy.Some?)
            && (copy.Some? ==> closing.value == 2 + |Escape(x[2..][..copy.value])|
                               && Escape(x)[2..closing.value] == Escape(x[2..][..copy.value]))
  {
    hide FindToken, Escape, NextCopy;
    var pair, y, copy := [x[0], x[0]], x[2..], NextCopy(x[2..], x[0]);
    DoubledParts(x);
    FindInEscaped(pair, y, x[0]);
    if copy.Some? {
      EscapeSlices(y, copy.value);
      Between(pair, Escape(y[..copy.value]), Escape(y[copy.value..]));
    }
  }

  lemma Between(a: string, b: string, c: string)
    ensures (a + (b + c))[|a|..|a| + |b|] == b
  {
  }

  lemma TryDoubled(t: Tables, x: string, previous: char)
    requires |x| > 1 && x[0] == x[1] && (x[0] == '~' || x[0] == '=')
    ensures var tried := TryDelimiter(t, Escape(x), previous, DelimiterOf(x[0]));
            && (tried.Some? <==> Opens(x))
            && (Opens(x) ==>
                  var body := x[2..][..NextCopy(x[2..], x[0]).value];
                  tried.value == Emphasis([MarkOf(x[0])], Escape(body), |Escape(body)| + 4))
  {
    hide FindToken, Escape, Blank;
    var s, copy := Escape(x), NextCopy(x[2..], x[0]);
    DoubledParts(x);
    Closing(x);
    if copy.Some? {
      var body := x[2..][..copy.value];
      if body == "" { EscapeNothing(""); } else { EscapeHead(body); SpaceIsPlain(body[0]); }
      if body != "" && !IsSpace(body[0]) { VisibleHead(Escape(body)); }
    }
  }

  lemma SpaceIsPlain(c: char)
    ensures IsSpace(c) ==> !IsEscaped(c)
    ensures !IsSpace('\\')
  {
  }

  lemma {:induction false} NoneTried(t: Tables, s: string, previous: char, ds: seq<Delimiter>)
    requires forall d | d in ds :: |d.token| > 0 && TryDelimiter(t, s, previous, d).None?
    ensures FirstDelimiter(t, s, previous, ds).None?
  {
    hide TryDelimiter;
    if ds != [] {
      assert ds[0] in ds && forall d | d in ds[1..] :: d in ds;
      NoneTried(t, s, previous, ds[1..]);
    }
  }

  lemma OtherTokens(t: Tables, s: string, previous: char, c: char, d: Delimiter)
    requires (c == '~' || c == '=') && |s| > 1 && s[0] == s[1] == c && d in DELIMITERS && d != DelimiterOf(c)
    ensures |d.token| > 0 && !(d.token <= s) && TryDelimiter(t, s, previous, d).None?
  {
    assert d.token[0] != c;
  }

  lemma FirstDoubled(t: Tables, x: string, previous: char)
    requires |x| > 1 && x[0] == x[1] && (x[0] == '~' || x[0] == '=')
    ensures FirstDelimiter(t, Escape(x), previous, DELIMITERS)
         == TryDelimiter(t, Escape(x), previous, DelimiterOf(x[0]))
  {
    hide TryDelimiter, FirstDelimiter, Escape;
    var s, c := Escape(x), x[0];
    DoubledParts(x);
    var k := if c == '~' then 4 else 5;
    assert DELIMITERS[k] == DelimiterOf(c);
    forall d | d in DELIMITERS && d != DelimiterOf(c)
      ensures |d.token| > 0 && !(d.token <= s) && TryDelimiter(t, s, previous, d).None?
    {
      OtherTokens(t, s, previous, c, d);
    }
    if TryDelimiter(t, s, previous, DelimiterOf(c)).Some? {
      assert forall i | 0 <= i < k :: DELIMITERS[i] != DelimiterOf(c) && DELIMITERS[i] in DELIMITERS;
      ChosenDelimiter(t, s, previous, DELIMITERS, k);
    } else {
      NoneTried(t, s, previous, DELIMITERS);
    }
  }

  /** A character that opens nothing goes into the buffer. */
  lemma QuietTurn(t: Tables, x: string, previous: char, buffer: string, marks: seq<Mark>, depth: nat)
    requires x != "" && Lines(x) && (!Opens(x) || depth >= MAX_INLINE_DEPTH)
    ensures ParseRest(t, Escape(x), previous, buffer, marks, depth)
         == ParseRest(t, Escape(x[1..]), x[0], buffer + [x[0]], marks, depth)
  {
    hide TakeTurn, Escape, ParseRest;
    var c, more := x[0], Escape(x[1..]);
    EscapedParts(x);
    if |x| > 1 { EscapeOfTwo(x); } else { EscapeNothing(""); }
    if |x| > 1 && x[0] == x[1] && (x[0] == '~' || x[0] == '=') {
      DoubledTurn(t, x, previous, buffer, marks, depth);
      OneStep(t, Escape(x), previous, buffer, marks, depth, Turn([], 1, buffer + [c]));
      assert Escape(x)[1..] == more && Escape(x)[0] == c;
    } else {
      assert Calm(c, more);
      CharBack(t, c, more, previous, buffer, marks, depth);
    }
  }

  lemma OneStep(t: Tables, s: string, previous: char, buffer: string, marks: seq<Mark>, depth: nat, turn: Turn)
    requires s != "" && TakeTurn(t, s, previous, buffer, marks, depth) == turn && 0 < turn.width <= |s|
    ensures ParseRest(t, s, previous, buffer, marks, depth)
         == turn.nodes + ParseRest(t, s[turn.width..], s[turn.width - 1], turn.buffer, marks, depth)
    ensures turn.nodes == [] ==>
              ParseRest(t, s, previous, buffer, marks, depth)
              == ParseRest(t, s[turn.width..], s[turn.width - 1], turn.buffer, marks, depth)
  {
    hide TakeTurn;
    var rest := ParseRest(t, s[turn.width..], s[turn.width - 1], turn.buffer, marks, depth);
    assert [] + rest == rest;
  }

  lemma DoubledTurn(t: Tables, x: string, previous: char, buffer: string, marks: seq<Mark>, depth: nat)
    requires |x| > 1 && x[0] == x[1] && (x[0] == '~' || x[0] == '=') && (!Opens(x) || depth >= MAX_INLINE_DEPTH)
    ensures Escape(x) != "" && TakeTurn(t, Escape(x), previous, buffer, marks, depth) == Turn([], 1, buffer + [x[0]])
  {
    hide Escape, FirstDelimiter, TryDelimiter, ParseRest, Opens;
    DoubledParts(x);
    FirstDoubled(t, x, previous);
    TryDoubled(t, x, previous);
  }

  /** What the parser makes of an opening that is closed. */
  lemma OpeningTurn(t: Tables, x: string, previous: char, buffer: string, marks: seq<Mark>, depth: nat)
    requires Opens(x) && depth < MAX_INLINE_DEPTH
    ensures var copy := NextCopy(x[2..], x[0]).value;
            var body := x[2..][..copy];
            ParseRest(t, Escape(x), previous, buffer, marks, depth)
            == Flush(buffer, marks)
               + ParseRest(t, Escape(body), 0 as char, "", marks + [MarkOf(x[0])], depth + 1)
               + ParseRest(t, Escape(x[copy + 4..]), x[0], "", marks, depth)
  {
    hide Escape, FirstDelimiter, TryDelimiter, ParseRest, Flush;
    var s, copy := Escape(x), NextCopy(x[2..], x[0]).value;
    var body := x[2..][..copy];
    DoubledParts(x);
    FirstDoubled(t, x, previous);
    TryDoubled(t, x, previous);
    var width := |Escape(body)| + 4;
    var turn := Turn(Flush(buffer, marks) + ParseRest(t, Escape(body), 0 as char, "", marks + [MarkOf(x[0])], depth + 1), width, "");
    Tail(x);
    assert TakeTurn(t, s, previous, buffer, marks, depth) == turn by { EmphasisTaken(t, s, previous, buffer, marks, depth); }
    OneStep(t, s, previous, buffer, marks, depth, turn);
  }

  lemma EmphasisTaken(t: Tables, s: string, previous: char, buffer: string, marks: seq<Mark>, depth: nat)
    requires |s| > 1 && (s[0] == '~' || s[0] == '=') && depth < MAX_INLINE_DEPTH
    requires FirstDelimiter(t, s, previous, DELIMITERS).Some?
    ensures var e := FirstDelimiter(t, s, previous, DELIMITERS).value;
            TakeTurn(t, s, previous, buffer, marks, depth)
            == Turn(Flush(buffer, marks) + ParseRest(t, e.body, 0 as char, "", marks + e.marks, depth + 1), e.width, "")
  {
    hide FirstDelimiter, ParseRest, Flush;
  }

  /** What is left after the closing copy. */
  lemma Tail(x: string)
    requires Opens(x)
    ensures var copy := NextCopy(x[2..], x[0]).value;
            var width := |Escape(x[2..][..copy])| + 4;
            width <= |Escape(x)| && Escape(x)[width..] == Escape(x[copy + 4..]) && Escape(x)[width - 1] == x[0]
  {
    hide Escape, NextCopy;
    var copy := NextCopy(x[2..], x[0]).value;
    var y := x[2..];
    DoubledParts(x);
    EscapeSlices(y, copy);
    var z := y[copy..];
    assert z[0] == z[1] == x[0];
    DoubledParts(z);
    assert z[2..] == x[copy + 4..];
    assert Escape(x) == [x[0], x[0]] + Escape(y[..copy]) + [x[0], x[0]] + Escape(z[2..]);
  }

  // ---- Unambiguous text ----

  lemma {:induction false} QuietText(t: Tables, x: string, previous: char, buffer: string)
    requires Lines(x) && !Ambiguous(x)
    ensures ParseRest(t, Escape(x), previous, buffer, [], 0) == Flush(buffer + x, [])
    decreases |x|
  {
    hide ParseRest, Escape, Opens;
    if x == "" {
      EscapeNothing("");
      NothingLeft(t, previous, buffer);
      assert buffer + x == buffer;
    } else {
      assert x[0..] == x && !Opens(x[0..]);
      QuietTurn(t, x, previous, buffer, [], 0);
      forall i | 0 <= i < |x[1..]|
        ensures !Opens(x[1..][i..])
      {
        assert x[1..][i..] == x[i + 1..];
      }
      QuietText(t, x[1..], x[0], buffer + [x[0]]);
      assert buffer + [x[0]] + x[1..] == buffer + x;
    }
  }

  // ---- Ambiguous text ----

  ghost predicate SomeMarked(nodes: seq<Inline>) {
    exists i :: 0 <= i < |nodes| && nodes[i].TextRun? && nodes[i].text != "" && nodes[i].marks != []
  }

  lemma MarkedWithin(a: seq<Inline>, b: seq<Inline>)
    ensures SomeMarked(a) || SomeMarked(b) ==> SomeMarked(a + b)
  {
    if SomeMarked(a) {
      var i :| 0 <= i < |a| && a[i].TextRun? && a[i].text != "" && a[i].marks != [];
      assert (a + b)[i] == a[i];
    } else if SomeMarked(b) {
      var i :| 0 <= i < |b| && b[i].TextRun? && b[i].text != "" && b[i].marks != [];
      assert (a + b)[|a| + i] == b[i];
    }
  }

  /** Text under a mark leaves at least one marked run. */
  lemma {:induction false} MarkShows(t: Tables, x: string, previous: char, buffer: string, marks: seq<Mark>, depth: nat)
    requires Lines(x) && marks != [] && buffer + x != ""
    ensures SomeMarked(ParseRest(t, Escape(x), previous, buffer, marks, depth))
    decreases |x|
  {
    hide ParseRest, Escape, SomeMarked, Opens, NextCopy;
    if x == "" {
      EscapeNothing("");
      Flushed(t, previous, buffer, marks, depth);
    } else if Opens(x) && depth < MAX_INLINE_DEPTH {
      OpeningTurn(t, x, previous, buffer, marks, depth);
      OpeningMarked(t, x, previous, buffer, marks, depth);
    } else {
      LinesWithin(x, 1, |x|);
      QuietTurn(t, x, previous, buffer, marks, depth);
      MarkShows(t, x[1..], x[0], buffer + [x[0]], marks, depth);
    }
  }

  lemma Flushed(t: Tables, previous: char, buffer: string, marks: seq<Mark>, depth: nat)
    requires buffer != "" && marks != []
    ensures SomeMarked(ParseRest(t, "", previous, buffer, marks, depth))
  {
    assert ParseRest(t, "", previous, buffer, marks, depth) == [TextRun(buffer, marks)];
    assert [TextRun(buffer, marks)][0].marks != [];
  }

  lemma {:induction false} OpeningMarked(t: Tables, x: string, previous: char, buffer: string, marks: seq<Mark>, depth: nat)
    requires Lines(x) && Opens(x) && depth < MAX_INLINE_DEPTH
    ensures SomeMarked(ParseRest(t, Escape(x), previous, buffer, marks, depth))
    decreases |x|, 0
  {
    hide ParseRest, Escape, SomeMarked;
    var copy := NextCopy(x[2..], x[0]).value;
    var body := x[2..][..copy];
    OpeningTurn(t, x, previous, buffer, marks, depth);
    assert body == x[2..copy + 2];
    LinesWithin(x, 2, copy + 2);
    var inner := ParseRest(t, Escape(body), 0 as char, "", marks + [MarkOf(x[0])], depth + 1);
    assert "" + body == body;
    MarkShows(t, body, 0 as char, "", marks + [MarkOf(x[0])], depth + 1);
    MarkedWithin(Flush(buffer, marks), inner);
    MarkedWithin(Flush(buffer, marks) + inner, ParseRest(t, Escape(x[copy + 4..]), x[0], "", marks, depth));
  }

  lemma {:induction false} AmbiguousShows(t: Tables, x: string, previous: char, buffer: string)
    requires Lines(x) && Ambiguous(x)
    ensures SomeMarked(ParseRest(t, Escape(x), previous, buffer, [], 0))
    decreases |x|
  {
    hide ParseRest, Escape, SomeMarked, Opens;
    if Opens(x) {
      OpeningMarked(t, x, previous, buffer, [], 0);
    } else {
      var i :| 0 <= i < |x| && Opens(x[i..]);
      assert x[0..] == x && x[1..][i - 1..] == x[i..];
      QuietTurn(t, x, previous, buffer, [], 0);
      LinesWithin(x, 1, |x|);
      AmbiguousShows(t, x[1..], x[0], buffer + [x[0]]);
    }
  }

  lemma {:induction false} MarkSurvives(out: seq<Inline>, nodes: seq<Inline>)
    requires SomeMarked(out) || SomeMarked(nodes)
    ensures SomeMarked(MergeOnto(out, nodes))
    decreases |nodes|
  {
    if nodes != [] {
      var next := MergeOne(out, nodes[0]);
      OneSurvives(out, nodes[0]);
      if !SomeMarked(next) {
        var i :| 0 <= i < |nodes| && nodes[i].TextRun? && nodes[i].text != "" && nodes[i].marks != [];
        assert nodes[1..][i - 1] == nodes[i];
      }
      MarkSurvives(next, nodes[1..]);
    }
  }

  lemma OneSurvives(out: seq<Inline>, node: Inline)
    ensures SomeMarked(out) ==> SomeMarked(MergeOne(out, node))
    ensures node.TextRun? && node.text != "" && node.marks != [] ==> SomeMarked(MergeOne(out, node))
  {
    var next := MergeOne(out, node);
    if SomeMarked(out) {
      var i :| 0 <= i < |out| && out[i].TextRun? && out[i].text != "" && out[i].marks != [];
      assert next[i].TextRun? && next[i].text != "" && next[i].marks == out[i].marks;
    }
    if node.TextRun? && node.text != "" && node.marks != [] {
      var last := next[|next| - 1];
      assert last.TextRun? && last.text != "" && last.marks == node.marks;
    }
  }

  /** Unmarked text on one line, without a '<' before a letter, comes back if and only
      if no "~~" and no "==" in it is followed by a next copy of itself with something
      between them that does not start with a space. */
  lemma PlainTextExactly(t: Tables, x: string)
    requires x != "" && Lines(x)
    ensures Parse(t, Print([TextRun(x, [])])) == [TextRun(x, [])] <==> !Ambiguous(x)
  {
    hide ParseRest, Escape, Ambiguous;
    var plain := [TextRun(x, [])];
    assert plain[1..] == [] && PrintMarks(Escape(x), []) == Escape(x) && Print(plain) == Escape(x) + "" == Escape(x);
    if Ambiguous(x) {
      AmbiguousShows(t, x, 0 as char, "");
      MarkSurvives([], ParseRest(t, Escape(x), 0 as char, "", [], 0));
    } else {
      QuietText(t, x, 0 as char, "");
      assert "" + x == x && Flush(x, []) == plain;
      assert MergeOnto([], plain) == MergeOne([], plain[0]) == plain;
    }
  }
}
