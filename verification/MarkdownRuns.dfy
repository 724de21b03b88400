/** Whole lines of inline content read back. */
module MarkdownRuns {
  import opened Text
  import opened MarkdownSyntax
  import opened MarkdownInline
  import opened MarkdownInlineBack
  import opened MarkdownInlineTags

  // ---- The runs that survive ----

  predicate Marked(node: Inline) {
    Emphasised(node) || Underlined(node) || Linked(node)
  }

  /** A hard break is told by the spaces before it, and takes a backslash there for
      one: text before it ends in neither. */
  predicate EndsBeforeBreak(s: string) {
    s == "" || (s[|s| - 1] != ' ' && s[|s| - 1] != '\\')
  }

  predicate GoodHead(node: Inline, rest: seq<Inline>) {
    match node
    case HardBreak => true
    case TextRun(text, marks) =>
      if marks == [] then
        GoodText(text, Print(rest)) && (rest != [] && rest[0].HardBreak? ==> text != "" && EndsBeforeBreak(text))
      else Marked(node)
    case Image(_, _) => false
  }

  /** Plain runs of calm text, marked runs and hard breaks. */
  predicate GoodRuns(nodes: seq<Inline>) {
    nodes == [] || (GoodHead(nodes[0], nodes[1..]) && GoodRuns(nodes[1..]))
  }

  // ---- Turn by turn ----

  lemma MarkedTurn(t: Tables, node: Inline, rest: string, previous: char, buffer: string)
    requires Marked(node)
    ensures var s := PrintNode(node) + rest;
            s != "" && TakeTurn(t, s, previous, buffer, [], 0)
            == Turn(Flush(buffer, []) + ParseRest(t, Escape(node.text), 0 as char, "", node.marks, 1), |PrintNode(node)|, "")
  {
    hide PrintNode, TakeTurn, ParseRest, Emphasised, Underlined, Linked;
    if Emphasised(node) {
      EmphasisTurn(t, node, rest, previous, buffer);
    } else if Underlined(node) {
      UnderlineTurn(t, node, rest, previous, buffer);
    } else {
      LinkTurn(t, node, rest, previous, buffer);
    }
  }

  lemma MarkedIsGood(node: Inline)
    requires Marked(node)
    ensures node.TextRun? && node.marks != [] && node.text != "" && GoodText(node.text, "")
  {
    if Emphasised(node) { GoodAlone(node.text, Token(node.marks)); }
  }

  lemma BodyBack(t: Tables, node: Inline)
    requires Marked(node)
    ensures ParseRest(t, Escape(node.text), 0 as char, "", node.marks, 1) == [node]
  {
    hide TakeTurn, Marked;
    MarkedIsGood(node);
    var x := node.text;
    PlainBack(t, x, "", 0 as char, "", node.marks, 1);
    assert Escape(x) + "" == Escape(x) && "" + x == x;
    assert ParseRest(t, "", x[|x| - 1], x, node.marks, 1) == Flush(x, node.marks);
  }

  lemma SpaceTurn(t: Tables, rest: string, previous: char, buffer: string)
    ensures ParseRest(t, " " + rest, previous, buffer, [], 0) == ParseRest(t, rest, ' ', buffer + " ", [], 0)
  {
    hide TakeTurn;
    var s := " " + rest;
    OrdinaryTurn(t, s, previous, buffer, [], 0);
    assert s[1..] == rest;
    assert [] + ParseRest(t, rest, ' ', buffer + " ", [], 0) == ParseRest(t, rest, ' ', buffer + " ", [], 0);
  }

  lemma TwoSpacesBreak(t: Tables, s: string, buffer: string)
    requires s != "" && EndsBeforeBreak(buffer)
    ensures TakeNewline(t, s, buffer + "  ", []) == Turn(Flush(buffer, []) + [HardBreak], 1, "")
  {
    hide JoinsTightly;
    var full := buffer + "  ";
    assert full[..|full| - 1] == buffer + " " && (buffer + " ")[..|buffer|] == buffer;
    assert TrimRight(full, {' '}) == TrimRight(buffer + " ", {' '}) == TrimRight(buffer, {' '}) == buffer;
  }

  lemma NewlineTurn(t: Tables, rest: string, previous: char, buffer: string)
    requires EndsBeforeBreak(buffer)
    ensures ParseRest(t, "\n" + rest, previous, buffer + "  ", [], 0)
         == Flush(buffer, []) + [HardBreak] + ParseRest(t, rest, '\n', "", [], 0)
  {
    hide TakeNewline, IsPunctuation, Flush;
    var s, full := "\n" + rest, buffer + "  ";
    TwoSpacesBreak(t, s, buffer);
    assert TakeTurn(t, s, previous, full, [], 0) == TakeNewline(t, s, full, []);
    hide TakeTurn;
    assert s[1..] == rest;
  }

  lemma BreakBack(t: Tables, rest: string, previous: char, buffer: string)
    requires EndsBeforeBreak(buffer)
    ensures ParseRest(t, PrintNode(HardBreak) + rest, previous, buffer, [], 0)
         == Flush(buffer, []) + [HardBreak] + ParseRest(t, rest, '\n', "", [], 0)
  {
    hide ParseRest;
    assert PrintNode(HardBreak) + rest == " " + (" " + ("\n" + rest));
    SpaceTurn(t, " " + ("\n" + rest), previous, buffer);
    SpaceTurn(t, "\n" + rest, ' ', buffer + " ");
    assert buffer + " " + " " == buffer + "  ";
    NewlineTurn(t, rest, ' ', buffer);
  }

  // ---- A whole line ----

  /** The nodes the parser adds before merging. */
  function Raw(buffer: string, nodes: seq<Inline>): seq<Inline>
    decreases |nodes|
  {
    if nodes == [] then Flush(buffer, [])
    else if nodes[0].TextRun? && nodes[0].marks == [] then Raw(buffer + nodes[0].text, nodes[1..])
    else Flush(buffer, []) + [nodes[0]] + Raw("", nodes[1..])
  }

  lemma MarkedRaw(t: Tables, node: Inline, rest: string, previous: char, buffer: string)
    requires Marked(node)
    ensures var s := PrintNode(node) + rest;
            && |PrintNode(node)| > 0
            && ParseRest(t, s, previous, buffer, [], 0)
               == Flush(buffer, []) + [node] + ParseRest(t, rest, PrintNode(node)[|PrintNode(node)| - 1], "", [], 0)
  {
    hide TakeTurn, Marked, PrintNode;
    var s, width := PrintNode(node) + rest, |PrintNode(node)|;
    MarkedTurn(t, node, rest, previous, buffer);
    BodyBack(t, node);
    assert s[width..] == rest;
  }

  lemma {:induction false} RunsToRaw(t: Tables, nodes: seq<Inline>, previous: char, buffer: string)
    requires GoodRuns(nodes) && (nodes != [] && nodes[0].HardBreak? ==> EndsBeforeBreak(buffer))
    ensures ParseRest(t, Print(nodes), previous, buffer, [], 0) == Raw(buffer, nodes)
    decreases |nodes|
  {
    hide TakeTurn, Marked, PrintNode, Escape, GoodText, EndsBeforeBreak, ParseRest;
    if nodes == [] {
      NothingLeft(t, previous, buffer);
    } else {
      var node, rest := nodes[0], Print(nodes[1..]);
      if node.HardBreak? {
        BreakBack(t, rest, previous, buffer);
        assert EndsBeforeBreak("") by { NothingEnds(); }
        RunsToRaw(t, nodes[1..], '\n', "");
      } else if node.marks == [] {
        PlainPrints(node);
        PlainBack(t, node.text, rest, previous, buffer, [], 0);
        EndStays(buffer, node.text);
        RunsToRaw(t, nodes[1..], if node.text == "" then previous else node.text[|node.text| - 1], buffer + node.text);
      } else {
        MarkedRaw(t, node, rest, previous, buffer);
        assert EndsBeforeBreak("") by { NothingEnds(); }
        RunsToRaw(t, nodes[1..], PrintNode(node)[|PrintNode(node)| - 1], "");
      }
    }
  }

  lemma NothingLeft(t: Tables, previous: char, buffer: string)
    ensures ParseRest(t, "", previous, buffer, [], 0) == Flush(buffer, [])
  {
  }

  lemma NothingEnds()
    ensures EndsBeforeBreak("")
  {
  }

  lemma EndStays(buffer: string, text: string)
    ensures text != "" && EndsBeforeBreak(text) ==> EndsBeforeBreak(buffer + text)
  {
  }

  lemma PlainPrints(node: Inline)
    requires node.TextRun? && node.marks == []
    ensures PrintNode(node) == Escape(node.text)
  {
  }

  // ---- Merging ----

  lemma {:induction false} MergeOntoConcat(out: seq<Inline>, a: seq<Inline>, b: seq<Inline>)
    ensures MergeOnto(out, a + b) == MergeOnto(MergeOnto(out, a), b)
    decreases |a|
  {
    if a == [] {
      assert a + b == b;
    } else {
      assert (a + b)[1..] == a[1..] + b;
      MergeOntoConcat(MergeOne(out, a[0]), a[1..], b);
    }
  }

  /** Text split over two runs with the same marks merges into one. */
  lemma MergeSplit(out: seq<Inline>, x: string, y: string, marks: seq<Mark>)
    ensures MergeOne(MergeOne(out, TextRun(x, marks)), TextRun(y, marks)) == MergeOne(out, TextRun(x + y, marks))
  {
    assert x == "" ==> x + y == y;
    assert y == "" ==> x + y == x;
    if out != [] && out[|out| - 1].TextRun? && out[|out| - 1].marks == marks {
      var last := out[|out| - 1].text;
      assert last + x + y == last + (x + y);
    }
  }

  lemma MergeFlush(out: seq<Inline>, buffer: string)
    ensures MergeOnto(out, Flush(buffer, [])) == MergeOne(out, TextRun(buffer, []))
  {
    if buffer != "" {
      assert [TextRun(buffer, [])][1..] == [];
    }
  }

  lemma {:induction false} RawMerges(out: seq<Inline>, buffer: string, nodes: seq<Inline>)
    ensures MergeOnto(out, Raw(buffer, nodes)) == MergeOnto(MergeOne(out, TextRun(buffer, [])), nodes)
    decreases |nodes|
  {
    MergeFlush(out, buffer);
    if nodes != [] {
      var node, rest := nodes[0], nodes[1..];
      if node.TextRun? && node.marks == [] {
        RawMerges(out, buffer + node.text, rest);
        MergeSplit(out, buffer, node.text, []);
        assert TextRun(node.text, []) == node;
      } else {
        MergeOntoConcat(out, Flush(buffer, []) + [node], Raw("", rest));
        MergeOntoConcat(out, Flush(buffer, []), [node]);
        var merged := MergeOne(MergeOne(out, TextRun(buffer, [])), node);
        assert [node][1..] == [];
        RawMerges(merged, "", rest);
      }
    }
  }

  /** Parsing printed runs gives the runs with neighbours of equal marks merged. */
  lemma RunsReadBack(t: Tables, nodes: seq<Inline>)
    requires GoodRuns(nodes)
    ensures Parse(t, Print(nodes)) == Merge(nodes)
  {
    RunsToRaw(t, nodes, 0 as char, "");
    RawMerges([], "", nodes);
    assert MergeOne([], TextRun("", [])) == [];
  }

  /** No empty run, and no two neighbours with the same marks. */
  predicate Normal(nodes: seq<Inline>) {
    && (forall i | 0 <= i < |nodes| :: nodes[i].TextRun? ==> nodes[i].text != "")
    && (forall i | 0 <= i < |nodes| - 1 ::
          nodes[i].TextRun? && nodes[i + 1].TextRun? ==> nodes[i].marks != nodes[i + 1].marks)
  }

  lemma {:induction false} MergeNormal(nodes: seq<Inline>, done: nat)
    requires done <= |nodes| && Normal(nodes)
    ensures MergeOnto(nodes[..done], nodes[done..]) == nodes
    decreases |nodes| - done
  {
    if done == |nodes| {
      assert nodes[..done] == nodes && nodes[done..] == [];
    } else {
      assert nodes[done..][0] == nodes[done] && nodes[done..][1..] == nodes[done + 1..];
      assert nodes[..done] + [nodes[done]] == nodes[..done + 1];
      MergeNormal(nodes, done + 1);
    }
  }

  /** Runs in normal form come back exactly. */
  lemma NormalRunsReadBack(t: Tables, nodes: seq<Inline>)
    requires GoodRuns(nodes) && Normal(nodes)
    ensures Parse(t, Print(nodes)) == nodes
  {
    RunsReadBack(t, nodes);
    MergeNormal(nodes, 0);
    assert nodes[..0] == [] && nodes[0..] == nodes;
  }
}
