/** Lists as objects: which node is which in a tree of lists, and what the heap must
    hold for the tree to stand there. */
module ListNodes {
  import opened ListRebuilding
  import opened ListStacks

  datatype NodeKind = List(kind: ListKind) | Item | Block

  class Node {
    const kind: NodeKind
    var content: seq<Node>

    constructor (kind: NodeKind, content: seq<Node>)
      ensures this.kind == kind && this.content == content
    {
      this.kind, this.content := kind, content;
    }
  }

  /** A tree of lists that says which node each list, item and block is. */
  type Located = ListNode<Node, Node>

  datatype Shape = Shape(kind: NodeKind, content: seq<Node>)

  function ListIds(lists: seq<Located>): (r: seq<Node>)
    ensures |r| == |lists| && forall i | 0 <= i < |r| :: r[i] == lists[i].id
  {
    seq(|lists|, i requires 0 <= i < |lists| => lists[i].id)
  }

  function ItemIds(items: seq<ListItem<Node, Node>>): (r: seq<Node>)
    ensures |r| == |items| && forall i | 0 <= i < |r| :: r[i] == items[i].id
  {
    seq(|items|, i requires 0 <= i < |items| => items[i].id)
  }

  // ---- What each node must hold ----

  ghost function Facts(lists: seq<Located>): map<Node, Shape>
    decreases lists
  {
    if lists == [] then map[] else Facts(lists[..|lists| - 1]) + FactsOfList(lists[|lists| - 1])
  }

  ghost function FactsOfList(list: Located): map<Node, Shape>
    decreases list
  {
    map[list.id := Shape(List(list.kind), ItemIds(list.items))] + FactsOfItems(list.items)
  }

  ghost function FactsOfItems(items: seq<ListItem<Node, Node>>): map<Node, Shape>
    decreases items
  {
    if items == [] then map[] else FactsOfItems(items[..|items| - 1]) + FactsOfItem(items[|items| - 1])
  }

  ghost function FactsOfItem(item: ListItem<Node, Node>): map<Node, Shape>
    decreases item
  {
    map[item.id := Shape(Item, [item.block] + ListIds(item.nested))] + Facts(item.nested)
  }

  ghost predicate Held(facts: map<Node, Shape>)
    reads facts.Keys
  {
    forall n | n in facts :: n.kind == facts[n].kind && n.content == facts[n].content
  }

  /** No node stands twice. */
  ghost predicate Distinct(lists: seq<Located>)
    decreases lists
  {
    lists == [] ||
    (var n := |lists| - 1;
     Distinct(lists[..n]) && DistinctList(lists[n]) && Facts(lists[..n]).Keys !! FactsOfList(lists[n]).Keys)
  }

  ghost predicate DistinctList(list: Located)
    decreases list
  {
    list.id !in FactsOfItems(list.items) && DistinctItems(list.items)
  }

  ghost predicate DistinctItems(items: seq<ListItem<Node, Node>>)
    decreases items
  {
    items == [] ||
    (var n := |items| - 1;
     DistinctItems(items[..n]) && DistinctItem(items[n]) && FactsOfItems(items[..n]).Keys !! FactsOfItem(items[n]).Keys)
  }

  ghost predicate DistinctItem(item: ListItem<Node, Node>)
    decreases item
  {
    item.id !in Facts(item.nested) && Distinct(item.nested)
  }

  // ---- What stands in the heap ----

  /** The tree without its places. */
  function Plain<R, T>(lists: seq<ListNode<R, T>>): (r: seq<Tree<T>>)
    ensures |r| == |lists|
    decreases lists
  {
    if lists == [] then []
    else
      var n := |lists| - 1;
      Plain(lists[..n]) + [ListNode((), lists[n].kind, PlainItems(lists[n].items))]
  }

  function PlainItems<R, T>(items: seq<ListItem<R, T>>): (r: seq<ListItem<(), T>>)
    ensures |r| == |items|
    decreases items
  {
    if items == [] then []
    else
      var n := |items| - 1;
      PlainItems(items[..n]) + [ListItem((), items[n].block, items[n].checked, Plain(items[n].nested))]
  }

  /** Walking from these nodes finds exactly these lists. */
  ghost predicate Denote(nodes: seq<Node>, lists: seq<Tree<Node>>, heap: set<Node>)
    reads heap
    decreases lists
  {
    if lists == [] then nodes == []
    else
      var n := |lists| - 1;
      && |nodes| == |lists|
      && nodes[n] in heap && nodes[n].kind == List(lists[n].kind)
      && DenoteItems(nodes[n].content, lists[n].items, heap)
      && Denote(nodes[..n], lists[..n], heap)
  }

  ghost predicate DenoteItems(nodes: seq<Node>, items: seq<ListItem<(), Node>>, heap: set<Node>)
    reads heap
    decreases items
  {
    if items == [] then nodes == []
    else
      var n := |items| - 1;
      && |nodes| == |items|
      && nodes[n] in heap && nodes[n].kind == Item
      && nodes[n].content != [] && nodes[n].content[0] == items[n].block
      && Denote(nodes[n].content[1..], items[n].nested, heap)
      && DenoteItems(nodes[..n], items[..n], heap)
  }

  lemma HeldParts(a: map<Node, Shape>, b: map<Node, Shape>)
    requires Held(a + b) && a.Keys !! b.Keys
    ensures Held(a) && Held(b)
  {
    assert forall n | n in a :: (a + b)[n] == a[n];
    assert forall n | n in b :: (a + b)[n] == b[n];
  }

  lemma HeldList(list: Located)
    requires DistinctList(list) && Held(FactsOfList(list))
    ensures list.id.kind == List(list.kind) && list.id.content == ItemIds(list.items)
    ensures Held(FactsOfItems(list.items)) && DistinctItems(list.items)
    ensures list.id in FactsOfList(list) && FactsOfItems(list.items).Keys <= FactsOfList(list).Keys
  {
    HeldParts(map[list.id := Shape(List(list.kind), ItemIds(list.items))], FactsOfItems(list.items));
    assert FactsOfList(list)[list.id] == Shape(List(list.kind), ItemIds(list.items));
  }

  lemma HeldItem(item: ListItem<Node, Node>)
    requires DistinctItem(item) && Held(FactsOfItem(item))
    ensures item.id.kind == Item && item.id.content != [] && item.id.content[0] == item.block
    ensures item.id.content[1..] == ListIds(item.nested)
    ensures Held(Facts(item.nested)) && Distinct(item.nested)
    ensures item.id in FactsOfItem(item) && Facts(item.nested).Keys <= FactsOfItem(item).Keys
  {
    HeldParts(map[item.id := Shape(Item, [item.block] + ListIds(item.nested))], Facts(item.nested));
    assert FactsOfItem(item)[item.id] == Shape(Item, [item.block] + ListIds(item.nested));
  }

  lemma {:induction false} HeldDenotes(lists: seq<Located>, heap: set<Node>)
    requires Distinct(lists) && Held(Facts(lists)) && Facts(lists).Keys <= heap
    ensures Denote(ListIds(lists), Plain(lists), heap)
    decreases lists, 1
  {
    hide FactsOfList, FactsOfItems, DistinctList, DistinctItems, DenoteItems, PlainItems, Held;
    if lists != [] {
      var n := |lists| - 1;
      var list := lists[n];
      HeldParts(Facts(lists[..n]), FactsOfList(list));
      HeldDenotes(lists[..n], heap);
      HeldList(list);
      HeldDenotesItems(list.items, heap);
      assert ListIds(lists)[..n] == ListIds(lists[..n]);
      assert Plain(lists)[..n] == Plain(lists[..n]);
    }
  }

  lemma {:induction false} HeldDenotesItems(items: seq<ListItem<Node, Node>>, heap: set<Node>)
    requires DistinctItems(items) && Held(FactsOfItems(items)) && FactsOfItems(items).Keys <= heap
    ensures DenoteItems(ItemIds(items), PlainItems(items), heap)
    decreases items, 0
  {
    hide Facts, FactsOfItem, Distinct, DistinctItem, Denote, Plain, Held;
    if items != [] {
      var n := |items| - 1;
      var item := items[n];
      HeldParts(FactsOfItems(items[..n]), FactsOfItem(item));
      HeldDenotesItems(items[..n], heap);
      HeldItem(item);
      HeldDenotes(item.nested, heap);
      assert ItemIds(items)[..n] == ItemIds(items[..n]);
      assert PlainItems(items)[..n] == PlainItems(items[..n]);
    }
  }

  // ---- Adding a paragraph, on located trees ----

  lemma PlainLast<R, T>(lists: seq<ListNode<R, T>>, list: ListNode<R, T>)
    ensures Plain(lists + [list]) == Plain(lists) + [ListNode((), list.kind, PlainItems(list.items))]
  {
    assert (lists + [list])[..|lists|] == lists;
  }

  lemma PlainItemsLast<R, T>(items: seq<ListItem<R, T>>, item: ListItem<R, T>)
    ensures PlainItems(items + [item]) == PlainItems(items) + [ListItem((), item.block, item.checked, Plain(item.nested))]
  {
    assert (items + [item])[..|items|] == items;
  }

  /** Where the nodes stand makes no difference to the lists. */
  lemma {:induction false} AddPlain<R, T>(
      lists: seq<ListNode<R, T>>, open: seq<Open>, kind: ListKind, level: int, block: T, listId: R, itemId: R)
    requires OnSpine(lists, open)
    ensures OnSpine(Plain(lists), open)
    ensures Plain(AddTo(lists, open, kind, level, block, listId, itemId)) == AddTo(Plain(lists), open, kind, level, block, (), ())
    decreases |open|
  {
    hide Plain, PlainItems;
    var item := ListItem(itemId, block, false, []);
    NewListPlain(lists, kind, block, listId, itemId);
    if open != [] {
      var n := |lists| - 1;
      var list := lists[n];
      var m := |list.items| - 1;
      AddPlain(list.items[m].nested, open[1..], kind, level, block, listId, itemId);
      PlainEnds(lists);
      PlainItemsEnds(list.items);
      if Keeps(open[0], kind, level) {
        if open[0].level == level {
          PlainLast(lists[..n], list.(items := list.items + [item]));
          PlainItemsLast(list.items, item);
        } else {
          var nested := AddTo(list.items[m].nested, open[1..], kind, level, block, listId, itemId);
          PlainItemsLast(list.items[..m], list.items[m].(nested := nested));
          PlainLast(lists[..n], list.(items := list.items[..m] + [list.items[m].(nested := nested)]));
        }
      }
    }
  }

  lemma NewListPlain<R, T>(lists: seq<ListNode<R, T>>, kind: ListKind, block: T, listId: R, itemId: R)
    ensures Plain(lists + [NewList(listId, itemId, kind, block)]) == Plain(lists) + [NewList((), (), kind, block)]
    ensures Plain<R, T>([]) == []
  {
    var item: ListItem<R, T> := ListItem(itemId, block, false, []);
    PlainItemsLast([], item);
    assert [] + [item] == [item];
    assert PlainItems([item]) == [ListItem((), block, false, [])];
    PlainLast(lists, NewList(listId, itemId, kind, block));
  }

  lemma PlainEnds<R, T>(lists: seq<ListNode<R, T>>)
    requires lists != []
    ensures var n := |lists| - 1;
            Plain(lists)[..n] == Plain(lists[..n])
            && Plain(lists)[n] == ListNode((), lists[n].kind, PlainItems(lists[n].items))
  {
  }

  lemma PlainItemsEnds<R, T>(items: seq<ListItem<R, T>>)
    requires items != []
    ensures var m := |items| - 1;
            PlainItems(items)[..m] == PlainItems(items[..m])
            && PlainItems(items)[m] == ListItem((), items[m].block, items[m].checked, Plain(items[m].nested))
  {
  }
}
