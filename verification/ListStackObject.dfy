/** "ListStack" of internal/hangul/lists.go: the open lists are references into the
    tree that has already been handed out. */
module ListStackObject {
  import opened Text
  import opened ListRebuilding
  import opened ListStacks
  import opened ListNodes
  import opened ListNodeChanges

  datatype OpenList = OpenList(kind: ListKind, level: int, node: Node)

  function Levels(open: seq<OpenList>): (r: seq<Open>)
    ensures |r| == |open| && forall i | 0 <= i < |r| :: r[i] == Open(open[i].kind, open[i].level)
  {
    seq(|open|, i requires 0 <= i < |open| => Open(open[i].kind, open[i].level))
  }

  /** The open lists are the nodes of the spine. */
  ghost predicate Points(lists: seq<Located>, open: seq<OpenList>)
    decreases |open|
  {
    open == [] ||
    (lists != [] &&
     var list := lists[|lists| - 1];
     open[0].node == list.id && list.items != [] && Points(list.items[|list.items| - 1].nested, open[1..]))
  }

  /** How many open lists the closing loop leaves. */
  predicate Left(open: seq<Open>, kind: ListKind, level: int, k: nat) {
    && k <= |open|
    && (k > 0 ==> Keeps(open[k - 1], kind, level))
    && forall j | k <= j < |open| :: !Keeps(open[j], kind, level)
  }

  lemma LeftInside(open: seq<Open>, kind: ListKind, level: int, k: nat)
    requires Left(open, kind, level, k) && Increasing(open) && k > 0
    ensures k <= |open| && Keeps(open[0], kind, level)
    ensures open[0].level < level ==> Left(open[1..], kind, level, k - 1)
    ensures Increasing(open[1..])
    ensures open[0].level == level ==> k == 1
  {
    assert k > 1 ==> open[0].level < open[k - 1].level;
  }

  lemma {:induction false} ClosingOpens(open: seq<Open>, kind: ListKind, level: int, k: nat)
    requires Increasing(open) && Left(open, kind, level, k)
    ensures OpensList(open, kind, level) == (k == 0 || open[k - 1].level < level)
    ensures OpenAfter(open, kind, level) == open[..k] + (if OpensList(open, kind, level) then [Open(kind, level)] else [])
    decreases |open|
  {
    hide Left, Increasing;
    if k > 0 {
      LeftInside(open, kind, level, k);
      if open[0].level < level {
        ClosingOpens(open[1..], kind, level, k - 1);
        assert open[..k] == [open[0]] + open[1..][..k - 1];
      }
    } else {
      assert open != [] ==> !Keeps(open[0], kind, level) by { assert Left(open, kind, level, 0); NothingLeftOpen(open, kind, level); }
    }
  }

  lemma NothingLeftOpen(open: seq<Open>, kind: ListKind, level: int)
    requires Left(open, kind, level, 0)
    ensures open != [] ==> !Keeps(open[0], kind, level)
  {
  }

  ghost predicate LastChild(facts: map<Node, Shape>, parent: Node, child: Node) {
    parent in facts && facts[parent].content != [] && facts[parent].content[|facts[parent].content| - 1] == child
  }

  /** The top of what is left is the list to continue, or the one whose last item
      gets the new list. */
  lemma {:induction false} ClosingTouches(lists: seq<Located>, open: seq<OpenList>, kind: ListKind, level: int, k: nat)
    requires OnSpine(lists, Levels(open)) && Points(lists, open) && Increasing(Levels(open)) && Distinct(lists)
    requires Left(Levels(open), kind, level, k)
    ensures var at := Touched(lists, Levels(open), kind, level);
            && (at.None? <==> k == 0) && (at.Some? ==> at.value in Facts(lists))
            && (k > 0 ==>
                  && open[k - 1].node in Facts(lists)
                  && if open[k - 1].level < level then LastChild(Facts(lists), open[k - 1].node, at.value)
                     else at.value == open[k - 1].node)
    decreases |open|
  {
    hide Left, Increasing, Facts, FactsOfList, Distinct, DistinctList;
    var levels := Levels(open);
    if k > 0 {
      LeftInside(levels, kind, level, k);
      assert levels[1..] == Levels(open[1..]);
      LastList(lists);
      var list := lists[|lists| - 1];
      LastNested(list);
      if levels[0].level < level {
        ClosingTouches(list.items[|list.items| - 1].nested, open[1..], kind, level, k - 1);
      }
    } else {
      NothingLeftOpen(levels, kind, level);
    }
  }

  lemma PointsInside(lists: seq<Located>, list: Located, nested: seq<Located>, open: seq<OpenList>)
    requires open != [] && open[0].node == list.id && list.items != [] && Points(nested, open[1..])
    ensures var m := |list.items| - 1;
            Points(lists + [list.(items := list.items[..m] + [list.items[m].(nested := nested)])], open)
  {
  }

  lemma {:induction false} PointsAfter(
      lists: seq<Located>, open: seq<OpenList>, kind: ListKind, level: int, block: Node, listId: Node, itemId: Node, k: nat)
    requires OnSpine(lists, Levels(open)) && Points(lists, open) && Increasing(Levels(open))
    requires Left(Levels(open), kind, level, k)
    ensures var after := open[..k] + (if OpensList(Levels(open), kind, level) then [OpenList(kind, level, listId)] else []);
            Points(AddTo(lists, Levels(open), kind, level, block, listId, itemId), after)
    decreases |open|
  {
    hide Left, Increasing, AddTo, OnSpine, Points, OpensList;
    var levels := Levels(open);
    if k == 0 {
      NothingLeftOpen(levels, kind, level);
      PointsAtNew(lists, open, kind, level, block, listId, itemId);
    } else {
      LeftInside(levels, kind, level, k);
      assert levels[1..] == Levels(open[1..]);
      if levels[0].level == level {
        PointsAtSame(lists, open, kind, level, block, listId, itemId);
      } else {
        var nested := InnerSpine(lists, open);
        PointsAfter(nested, open[1..], kind, level, block, listId, itemId, k - 1);
        var more := if OpensList(levels, kind, level) then [OpenList(kind, level, listId)] else [];
        OpensInside(levels, kind, level);
        assert (open[..k] + more)[1..] == open[1..][..k - 1] + more;
        PointsDeeper(lists, open, kind, level, block, listId, itemId, open[..k] + more);
      }
    }
  }

  lemma OpensInside(open: seq<Open>, kind: ListKind, level: int)
    requires open != [] && Keeps(open[0], kind, level) && open[0].level != level
    ensures OpensList(open, kind, level) == OpensList(open[1..], kind, level)
  {
  }

  /** The lists inside the item that is open. */
  lemma InnerSpine(lists: seq<Located>, open: seq<OpenList>) returns (nested: seq<Located>)
    requires OnSpine(lists, Levels(open)) && Points(lists, open) && open != []
    ensures lists != [] && lists[|lists| - 1].items != []
    ensures nested == lists[|lists| - 1].items[|lists[|lists| - 1].items| - 1].nested
    ensures OnSpine(nested, Levels(open[1..])) && Points(nested, open[1..])
  {
    var list := lists[|lists| - 1];
    nested := list.items[|list.items| - 1].nested;
    assert Levels(open)[1..] == Levels(open[1..]);
    SpineInside(lists, Levels(open));
  }

  lemma PointsAtNew(lists: seq<Located>, open: seq<OpenList>, kind: ListKind, level: int, block: Node, listId: Node, itemId: Node)
    requires OnSpine(lists, Levels(open)) && (open != [] ==> !Keeps(Levels(open)[0], kind, level))
    ensures OpensList(Levels(open), kind, level)
    ensures Points(AddTo(lists, Levels(open), kind, level, block, listId, itemId), open[..0] + [OpenList(kind, level, listId)])
  {
    hide OnSpine, AddTo;
    AddToIs(lists, Levels(open), kind, level, block, listId, itemId);
    var after := open[..0] + [OpenList(kind, level, listId)];
    assert after[1..] == [];
  }

  lemma PointsAtSame(lists: seq<Located>, open: seq<OpenList>, kind: ListKind, level: int, block: Node, listId: Node, itemId: Node)
    requires OnSpine(lists, Levels(open)) && Points(lists, open)
    requires open != [] && Keeps(Levels(open)[0], kind, level) && Levels(open)[0].level == level
    ensures !OpensList(Levels(open), kind, level)
    ensures Points(AddTo(lists, Levels(open), kind, level, block, listId, itemId), open[..1] + [])
  {
    hide OnSpine, AddTo;
    AddToIs(lists, Levels(open), kind, level, block, listId, itemId);
    var after := open[..1] + [];
    assert after[1..] == [];
  }

  lemma PointsDeeper(
      lists: seq<Located>, open: seq<OpenList>, kind: ListKind, level: int, block: Node, listId: Node, itemId: Node,
      after: seq<OpenList>)
    requires OnSpine(lists, Levels(open)) && Points(lists, open) && open != []
    requires Keeps(Levels(open)[0], kind, level) && Levels(open)[0].level != level
    requires after != [] && after[0] == open[0] && lists != [] && lists[|lists| - 1].items != []
    requires var nested := lists[|lists| - 1].items[|lists[|lists| - 1].items| - 1].nested;
             && OnSpine(nested, Levels(open[1..]))
             && Points(AddTo(nested, Levels(open[1..]), kind, level, block, listId, itemId), after[1..])
    ensures Points(AddTo(lists, Levels(open), kind, level, block, listId, itemId), after)
  {
    hide OnSpine, AddTo;
    var list := lists[|lists| - 1];
    assert Levels(open)[1..] == Levels(open[1..]);
    AddToIs(lists, Levels(open), kind, level, block, listId, itemId);
    PointsInside(lists[..|lists| - 1], list,
                 AddTo(list.items[|list.items| - 1].nested, Levels(open[1..]), kind, level, block, listId, itemId), after);
  }

  lemma SpineInside(lists: seq<Located>, open: seq<Open>)
    requires OnSpine(lists, open) && open != []
    ensures lists != [] && lists[|lists| - 1].items != []
    ensures OnSpine(lists[|lists| - 1].items[|lists[|lists| - 1].items| - 1].nested, open[1..])
  {
  }

  /** One level of adding a paragraph. */
  lemma AddToIs(lists: seq<Located>, open: seq<Open>, kind: ListKind, level: int, block: Node, listId: Node, itemId: Node)
    requires OnSpine(lists, open)
    ensures open == [] || !Keeps(open[0], kind, level) ==>
              AddTo(lists, open, kind, level, block, listId, itemId) == lists + [NewList(listId, itemId, kind, block)]
    ensures open != [] && Keeps(open[0], kind, level) ==>
              var n := |lists| - 1;
              && n >= 0 && lists[n].items != []
              && var items := lists[n].items;
              var m := |items| - 1;
              && OnSpine(items[m].nested, open[1..])
              && AddTo(lists, open, kind, level, block, listId, itemId)
                 == if open[0].level == level then lists[..n] + [lists[n].(items := items + [ListItem(itemId, block, false, [])])]
                    else lists[..n] + [lists[n].(items := items[..m]
                           + [items[m].(nested := AddTo(items[m].nested, open[1..], kind, level, block, listId, itemId))])]
  {
  }

  /** The stack's state without the heap. */
  ghost predicate Stands(lists: seq<Located>, open: seq<OpenList>, facts: map<Node, Shape>) {
    && facts == Facts(lists) && Distinct(lists) && Increasing(Levels(open)) && Points(lists, open)
    && OnSpine(lists, Levels(open)) && OnSpine(Plain(lists), Levels(open))
  }

  /** What the changing of the nodes may rely on. */
  ghost predicate Aims(open: seq<OpenList>, facts: map<Node, Shape>, level: int, at: Option<Node>) {
    && (at.None? <==> open == [])
    && (at.Some? ==>
          var top := open[|open| - 1];
          && at.value in facts && top.node in facts
          && if top.level < level then LastChild(facts, top.node, at.value) else at.value == top.node)
  }

  lemma StepAims(lists: seq<Located>, open: seq<OpenList>, facts: map<Node, Shape>, kind: ListKind, level: int, k: nat)
    requires Stands(lists, open, facts) && Left(Levels(open), kind, level, k)
    ensures k <= |open| && OnSpine(lists, Levels(open)) && OnSpine(Plain(lists), Levels(open))
    ensures Aims(open[..k], facts, level, Touched(lists, Levels(open), kind, level))
  {
    ClosingTouches(lists, open, kind, level, k);
  }

  lemma StepStands(
      lists: seq<Located>, open: seq<OpenList>, facts: map<Node, Shape>, kind: ListKind, level: int, block: Node,
      list: Node, item: Node, k: nat)
    requires Stands(lists, open, facts) && Left(Levels(open), kind, level, k) && item !in facts
    requires k == 0 || open[k - 1].level < level ==> list !in facts && list != item
    ensures var opens := k == 0 || open[k - 1].level < level;
            var after := AddTo(lists, Levels(open), kind, level, block, list, item);
            var left := open[..k] + (if opens then [OpenList(kind, level, list)] else []);
            var at := Touched(lists, Levels(open), kind, level);
            && Stands(after, left, Changed(facts, at, if opens then list else item, Made(opens, kind, block, list, item)))
            && Levels(left) == OpenAfter(Levels(open), kind, level)
            && Plain(after) == AddTo(Plain(lists), Levels(open), kind, level, block, (), ())
            && ListIds(after) == ListIds(lists) + (if k == 0 then [list] else [])
  {
    hide Increasing, OnSpine, Points, Distinct, Facts, OpenAfter, AddTo, OpensList, Touched, Changed;
    var levels := Levels(open);
    ClosingOpens(levels, kind, level, k);
    ClosingTouches(lists, open, kind, level, k);
    AddChanges(lists, levels, kind, level, block, list, item);
    AddKeepsSpine(lists, levels, kind, level, block, list, item);
    OpenIncreases(levels, kind, level);
    PointsAfter(lists, open, kind, level, block, list, item, k);
    AddPlain(lists, levels, kind, level, block, list, item);
    AddKeepsSpine(Plain(lists), levels, kind, level, block, (), ());
    var left := open[..k] + (if OpensList(levels, kind, level) then [OpenList(kind, level, list)] else []);
    assert Levels(left) == levels[..k] + (if OpensList(levels, kind, level) then [Open(kind, level)] else []);
  }

  lemma MadeFresh(opens: bool, kind: ListKind, block: Node, list: Node, item: Node)
    ensures forall n | n in Made(opens, kind, block, list, item) :: n == item || (opens && n == list)
  {
  }

  lemma HeldAfter(facts: map<Node, Shape>, at: Option<Node>, added: Node, made: map<Node, Shape>)
    requires facts.Keys !! made.Keys && Held(made)
    requires forall n | n in facts ::
        n.kind == facts[n].kind && n.content == facts[n].content + if at == Some(n) then [added] else []
    ensures Held(Changed(facts, at, added, made))
    ensures Changed(facts, at, added, made).Keys == facts.Keys + made.Keys
  {
    var after := Changed(facts, at, added, made);
    forall n | n in after
      ensures n.kind == after[n].kind && n.content == after[n].content
    {
      assert n in made ==> after[n] == made[n];
    }
  }

  class ListStack {
    var open: seq<OpenList>
    /** The lists put out since the last Close. */
    ghost var lists: seq<Located>
    /** What their nodes hold. */
    ghost var facts: map<Node, Shape>

    ghost predicate Valid()
      reads this, facts.Keys
    {
      Stands(lists, open, facts) && Held(facts)
    }

    constructor ()
      ensures Valid() && open == [] && lists == [] && facts == map[]
    {
      open, lists, facts := [], [], map[];
    }

    method Close()
      modifies this
      ensures Valid() && open == [] && lists == [] && facts == map[]
    {
      open, lists, facts := [], [], map[];
    }

    method CloseDeeper(kind: ListKind, level: int)
      requires Valid()
      modifies this`open
      ensures Left(Levels(old(open)), kind, level, |open|) && open == old(open)[..|open|]
    {
      while |open| > 0
        invariant |open| <= |old(open)| && open == old(open)[..|open|]
        invariant forall j | |open| <= j < |old(open)| :: !Keeps(Levels(old(open))[j], kind, level)
      {
        var top := open[|open| - 1];
        if top.level < level || (top.level == level && top.kind == kind) {
          break;
        }
        open := open[..|open| - 1];
      }
    }

    /** The nodes are changed: the item goes into the top list, after a new list has
        been opened where one is needed. */
    method Hang(out: seq<Node>, kind: ListKind, level: int, block: Node, ghost at: Option<Node>)
      returns (next: seq<Node>, list: Node, item: Node)
      requires Held(facts)
      requires Aims(open, facts, level, at)
      modifies this`open, facts.Keys
      ensures var opens := old(open) == [] || old(open)[|old(open)| - 1].level < level;
              && open == old(open) + (if opens then [OpenList(kind, level, list)] else [])
              && next == out + (if old(open) == [] then [list] else [])
              && (opens ==> fresh(list) && list !in facts) && fresh(item) && item !in facts && list != item
              && Held(Made(opens, kind, block, list, item))
              && (forall n | n in facts ::
                    n.kind == facts[n].kind && n.content == facts[n].content + if at == Some(n) then [if opens then list else item] else [])
    {
      next := out;
      if |open| == 0 || open[|open| - 1].level < level {
        list := new Node(List(kind), []);
        if |open| == 0 {
          next := out + [list];
        } else {
          var parent := open[|open| - 1].node;
          var last := parent.content[|parent.content| - 1];
          last.content := last.content + [list];
        }
        open := open + [OpenList(kind, level, list)];
      }
      list := open[|open| - 1].node;
      item := new Node(Item, [block]);
      list.content := list.content + [item];
    }

    /** The step of the stack, on the nodes themselves: one node that is already out
        gets a child, or a new list goes out. */
    method Add(out: seq<Node>, kind: ListKind, level: int, block: Node) returns (next: seq<Node>)
      requires Valid()
      modifies this, facts.Keys
      ensures Valid()
      ensures fresh(facts.Keys - old(facts.Keys))
      ensures Levels(open) == OpenAfter(old(Levels(open)), kind, level)
      ensures Plain(lists) == AddTo(Plain(old(lists)), old(Levels(open)), kind, level, block, (), ())
      ensures out <= next && ListIds(lists) == ListIds(old(lists)) + next[|out|..]
    {
      hide Stands, Touched, Changed, AddTo, OpenAfter, Plain, Left, Aims, OnSpine, Held, Made, ListIds, Facts;
      ghost var before, levels, was := lists, Levels(open), open;
      CloseDeeper(kind, level);
      ghost var k := |open|;
      StepAims(before, was, facts, kind, level, k);
      ghost var opens := k == 0 || open[k - 1].level < level;
      ghost var at := Touched(before, levels, kind, level);
      var list, item;
      next, list, item := Hang(out, kind, level, block, at);
      StepStands(before, was, facts, kind, level, block, list, item, k);
      ghost var made, added := Made(opens, kind, block, list, item), if opens then list else item;
      MadeFresh(opens, kind, block, list, item);
      assert forall n | n in made :: fresh(n) && n !in facts;
      HeldAfter(facts, at, added, made);
      assert Changed(facts, at, added, made).Keys - old(facts.Keys) <= made.Keys;
      lists := AddTo(before, levels, kind, level, block, list, item);
      facts := Changed(facts, at, added, made);
    }
  }

  /** The readers' loop over a run of list paragraphs. The nodes put out are the
      recursive grouping's lists, for one list id and levels a document may have. */
  method ReadLists(items: seq<Paragraph<Node>>) returns (out: seq<Node>, ghost nodes: set<Node>)
    ensures fresh(nodes)
    ensures Denote(out, Stacked(items).0, nodes)
    ensures forall numID | Fits(items, numID, 0) :: Denote(out, BuildLists(items, 0), nodes)
  {
    hide Denote, BuildLists, AddTo, OpenAfter, OnSpine, Increasing, Stands, Fits;
    var stack := new ListStack();
    out := [];
    var k := 0;
    while k < |items|
      invariant k <= |items|
      invariant stack.Valid() && fresh(stack) && fresh(stack.facts.Keys)
      invariant ListIds(stack.lists) == out
      invariant Plain(stack.lists) == Stacked(items[..k]).0
      invariant Levels(stack.open) == Stacked(items[..k]).1
    {
      assert items[..k + 1][..k] == items[..k];
      out := stack.Add(out, items[k].kind, items[k].level, items[k].block);
      k := k + 1;
    }
    assert items[..k] == items;
    nodes := stack.facts.Keys;
    StackDenotes(stack);
    forall numID | Fits(items, numID, 0)
      ensures Denote(out, BuildLists(items, 0), nodes)
    {
      StackBuildsTheSame(items, numID);
    }
  }

  lemma StackDenotes(stack: ListStack)
    requires stack.Valid()
    ensures Denote(ListIds(stack.lists), Plain(stack.lists), stack.facts.Keys)
  {
    HeldDenotes(stack.lists, stack.facts.Keys);
  }
}
