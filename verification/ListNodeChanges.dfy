/** What adding a paragraph changes in the nodes: one node gets one more child, and
    the fresh nodes hold what they were made with. */
module ListNodeChanges {
  import opened Text
  import opened ListRebuilding
  import opened ListStacks
  import opened ListNodes

  /** A list is opened, rather than an open one continued. */
  predicate OpensList(open: seq<Open>, kind: ListKind, level: int)
    decreases |open|
  {
    open == [] || !Keeps(open[0], kind, level) || (open[0].level != level && OpensList(open[1..], kind, level))
  }

  /** The node that gets the child; none when a list is opened at the top. */
  ghost function Touched(lists: seq<Located>, open: seq<Open>, kind: ListKind, level: int): Option<Node>
    requires OnSpine(lists, open)
    decreases |open|
  {
    if open == [] || !Keeps(open[0], kind, level) then None
    else
      var list := lists[|lists| - 1];
      if open[0].level == level then Some(list.id)
      else
        var item := list.items[|list.items| - 1];
        var inner := Touched(item.nested, open[1..], kind, level);
        if inner.None? then Some(item.id) else inner
  }

  ghost function Made(opens: bool, kind: ListKind, block: Node, listId: Node, itemId: Node): map<Node, Shape> {
    if opens then map[listId := Shape(List(kind), [itemId]), itemId := Shape(Item, [block])]
    else map[itemId := Shape(Item, [block])]
  }

  ghost function Changed(facts: map<Node, Shape>, at: Option<Node>, added: Node, made: map<Node, Shape>): map<Node, Shape> {
    match at
    case None => facts + made
    case Some(n) => if n in facts then facts[n := Shape(facts[n].kind, facts[n].content + [added])] + made else facts + made
  }

  lemma ChangedRight(a: map<Node, Shape>, b: map<Node, Shape>, at: Option<Node>, added: Node, made: map<Node, Shape>)
    requires at.Some? ==> at.value in b
    ensures a + Changed(b, at, added, made) == Changed(a + b, at, added, made)
    ensures Changed(b, at, added, made).Keys == b.Keys + made.Keys
  {
  }

  lemma ChangedOwn(n: Node, kind: NodeKind, content: seq<Node>, inside: map<Node, Shape>, added: Node, made: map<Node, Shape>)
    requires n !in inside && n !in made
    ensures map[n := Shape(kind, content + [added])] + (inside + made)
         == Changed(map[n := Shape(kind, content)] + inside, Some(n), added, made)
  {
    assert (map[n := Shape(kind, content)] + inside)[n] == Shape(kind, content);
  }

  lemma FreshItem(item: ListItem<Node, Node>)
    requires item.nested == []
    ensures FactsOfItem(item) == map[item.id := Shape(Item, [item.block])] && DistinctItem(item)
  {
    assert Facts(item.nested) == map[] && [item.block] + ListIds(item.nested) == [item.block];
  }

  lemma MoreItems(items: seq<ListItem<Node, Node>>, item: ListItem<Node, Node>)
    requires DistinctItems(items) && DistinctItem(item) && FactsOfItems(items).Keys !! FactsOfItem(item).Keys
    ensures FactsOfItems(items + [item]) == FactsOfItems(items) + FactsOfItem(item)
    ensures DistinctItems(items + [item])
  {
    assert (items + [item])[..|items|] == items;
  }

  lemma MoreLists(lists: seq<Located>, list: Located)
    requires Distinct(lists) && DistinctList(list) && Facts(lists).Keys !! FactsOfList(list).Keys
    ensures Facts(lists + [list]) == Facts(lists) + FactsOfList(list)
    ensures Distinct(lists + [list])
  {
    assert (lists + [list])[..|lists|] == lists;
  }

  lemma AddedTop(lists: seq<Located>, kind: ListKind, block: Node, listId: Node, itemId: Node)
    requires Distinct(lists) && listId !in Facts(lists) && itemId !in Facts(lists) && listId != itemId
    ensures var after := lists + [NewList(listId, itemId, kind, block)];
            Facts(after) == Facts(lists) + Made(true, kind, block, listId, itemId) && Distinct(after)
  {
    var list := NewList(listId, itemId, kind, block);
    var item := list.items[0];
    FreshItem(item);
    MoreItems([], item);
    assert [] + [item] == list.items && ItemIds(list.items) == [itemId];
    assert FactsOfList(list) == Made(true, kind, block, listId, itemId);
    MoreLists(lists, list);
  }

  lemma AddedItem(list: Located, block: Node, itemId: Node)
    requires DistinctList(list) && itemId !in FactsOfList(list)
    ensures var after := list.(items := list.items + [ListItem(itemId, block, false, [])]);
            && FactsOfList(after) == Changed(FactsOfList(list), Some(list.id), itemId, map[itemId := Shape(Item, [block])])
            && DistinctList(after)
  {
    hide FactsOfItems, FactsOfItem, DistinctItem, DistinctItems, Changed;
    var item := ListItem(itemId, block, false, []);
    FreshItem(item);
    MoreItems(list.items, item);
    assert ItemIds(list.items + [item]) == ItemIds(list.items) + [itemId];
    ChangedOwn(list.id, List(list.kind), ItemIds(list.items), FactsOfItems(list.items), itemId, map[itemId := Shape(Item, [block])]);
  }

  lemma AddedInside(
      list: Located, nested: seq<Located>, at: Option<Node>, added: Node, made: map<Node, Shape>)
    requires DistinctList(list) && list.items != [] && Distinct(nested)
    requires made.Keys !! FactsOfList(list).Keys
    requires var item := list.items[|list.items| - 1];
             && Facts(nested) == Changed(Facts(item.nested), at, added, made)
             && ListIds(nested) == ListIds(item.nested) + (if at.None? then [added] else [])
             && (at.Some? ==> at.value in Facts(item.nested))
    ensures var m := |list.items| - 1;
            var after := list.(items := list.items[..m] + [list.items[m].(nested := nested)]);
            && FactsOfList(after) == Changed(FactsOfList(list), if at.None? then Some(list.items[m].id) else at, added, made)
            && DistinctList(after)
  {
    hide FactsOfItems, FactsOfItem, DistinctItem, DistinctItems, Changed, Facts, Distinct;
    var m := |list.items| - 1;
    var target := if at.None? then Some(list.items[m].id) else at;
    SplitItems(list.items);
    AddedInItem(list.items[m], nested, at, added, made);
    ReplacedLast(list.items, list.items[m].(nested := nested), target, added, made);
    ChangedRight(map[list.id := Shape(List(list.kind), ItemIds(list.items))], FactsOfItems(list.items), target, added, made);
  }

  lemma ReplacedLast(items: seq<ListItem<Node, Node>>, item: ListItem<Node, Node>, at: Option<Node>, added: Node, made: map<Node, Shape>)
    requires items != [] && DistinctItems(items) && made.Keys !! FactsOfItems(items).Keys
    requires var last := items[|items| - 1];
             && DistinctItem(item) && at.Some? && at.value in FactsOfItem(last) && item.id == last.id
             && FactsOfItem(item) == Changed(FactsOfItem(last), at, added, made)
    ensures var after := items[..|items| - 1] + [item];
            && FactsOfItems(after) == Changed(FactsOfItems(items), at, added, made) && DistinctItems(after)
            && ItemIds(after) == ItemIds(items) && at.value in FactsOfItems(items)
  {
    var n := |items| - 1;
    assert (items[..n] + [item])[..n] == items[..n];
    ChangedRight(FactsOfItems(items[..n]), FactsOfItem(items[n]), at, added, made);
  }

  lemma SplitItems(items: seq<ListItem<Node, Node>>)
    requires items != [] && DistinctItems(items)
    ensures var m := |items| - 1;
            && DistinctItems(items[..m]) && DistinctItem(items[m])
            && FactsOfItems(items) == FactsOfItems(items[..m]) + FactsOfItem(items[m])
            && FactsOfItems(items[..m]).Keys !! FactsOfItem(items[m]).Keys
  {
  }

  lemma AddedInItem(item: ListItem<Node, Node>, nested: seq<Located>, at: Option<Node>, added: Node, made: map<Node, Shape>)
    requires DistinctItem(item) && Distinct(nested) && made.Keys !! FactsOfItem(item).Keys
    requires Facts(nested) == Changed(Facts(item.nested), at, added, made)
    requires ListIds(nested) == ListIds(item.nested) + (if at.None? then [added] else [])
    requires at.Some? ==> at.value in Facts(item.nested)
    ensures var target := if at.None? then Some(item.id) else at;
            && FactsOfItem(item.(nested := nested)) == Changed(FactsOfItem(item), target, added, made)
            && DistinctItem(item.(nested := nested)) && target.value in FactsOfItem(item)
  {
    hide Facts, Changed, Distinct;
    if at.None? {
      assert [item.block] + ListIds(nested) == [item.block] + ListIds(item.nested) + [added];
      ChangedNone(Facts(item.nested), added, made);
      ChangedOwn(item.id, Item, [item.block] + ListIds(item.nested), Facts(item.nested), added, made);
    } else {
      assert ListIds(nested) == ListIds(item.nested);
      ChangedRight(map[item.id := Shape(Item, [item.block] + ListIds(item.nested))], Facts(item.nested), at, added, made);
    }
  }

  lemma AddedLast(lists: seq<Located>, list: Located, at: Option<Node>, added: Node, made: map<Node, Shape>)
    requires lists != [] && Distinct(lists) && made.Keys !! Facts(lists).Keys
    requires var last := lists[|lists| - 1];
             && DistinctList(list) && at.Some? && at.value in FactsOfList(last) && list.id == last.id
             && FactsOfList(list) == Changed(FactsOfList(last), at, added, made)
    ensures var after := lists[..|lists| - 1] + [list];
            && Facts(after) == Changed(Facts(lists), at, added, made) && Distinct(after)
            && ListIds(after) == ListIds(lists) && at.value in Facts(lists)
  {
    var n := |lists| - 1;
    assert (lists[..n] + [list])[..n] == lists[..n];
    ChangedRight(Facts(lists[..n]), FactsOfList(lists[n]), at, added, made);
  }

  /** Adding a paragraph to located lists. */
  lemma {:induction false} AddChanges(
      lists: seq<Located>, open: seq<Open>, kind: ListKind, level: int, block: Node, listId: Node, itemId: Node)
    requires OnSpine(lists, open) && Distinct(lists) && itemId !in Facts(lists)
    requires OpensList(open, kind, level) ==> listId !in Facts(lists) && listId != itemId
    ensures var after := AddTo(lists, open, kind, level, block, listId, itemId);
            var opens := OpensList(open, kind, level);
            var at := Touched(lists, open, kind, level);
            var added := if opens then listId else itemId;
            && Facts(after) == Changed(Facts(lists), at, added, Made(opens, kind, block, listId, itemId))
            && Distinct(after) && (at.Some? ==> at.value in Facts(lists)) && (at.None? ==> opens)
            && ListIds(after) == ListIds(lists) + (if at.None? then [listId] else [])
    decreases |open|
  {
    hide Facts, FactsOfList, FactsOfItems, Distinct, DistinctList, Changed;
    if open == [] || !Keeps(open[0], kind, level) {
      AddedTop(lists, kind, block, listId, itemId);
      ChangedNone(Facts(lists), listId, Made(true, kind, block, listId, itemId));
    } else {
      var list := lists[|lists| - 1];
      LastList(lists);
      if open[0].level == level {
        AddedItem(list, block, itemId);
        AddedLast(lists, list.(items := list.items + [ListItem(itemId, block, false, [])]), Some(list.id), itemId,
                  map[itemId := Shape(Item, [block])]);
      } else {
        var m := |list.items| - 1;
        var inner := list.items[m].nested;
        var opens := OpensList(open[1..], kind, level);
        var made := Made(opens, kind, block, listId, itemId);
        var added := if opens then listId else itemId;
        LastNested(list);
        AddChanges(inner, open[1..], kind, level, block, listId, itemId);
        var nested := AddTo(inner, open[1..], kind, level, block, listId, itemId);
        var at := Touched(inner, open[1..], kind, level);
        AddedInside(list, nested, at, added, made);
        AddedLast(lists, list.(items := list.items[..m] + [list.items[m].(nested := nested)]),
                  if at.None? then Some(list.items[m].id) else at, added, made);
      }
    }
  }

  lemma ChangedNone(facts: map<Node, Shape>, added: Node, made: map<Node, Shape>)
    ensures Changed(facts, None, added, made) == facts + made
  {
  }

  lemma LastList(lists: seq<Located>)
    requires lists != [] && Distinct(lists)
    ensures var list := lists[|lists| - 1];
            && DistinctList(list) && FactsOfList(list).Keys <= Facts(lists).Keys && list.id in FactsOfList(list)
            && (forall n | n in FactsOfList(list) :: Facts(lists)[n] == FactsOfList(list)[n])
            && FactsOfList(list)[list.id] == Shape(List(list.kind), ItemIds(list.items))
  {
  }

  lemma LastNested(list: Located)
    requires list.items != [] && DistinctList(list)
    ensures var item := list.items[|list.items| - 1];
            && Distinct(item.nested) && Facts(item.nested).Keys <= FactsOfList(list).Keys
            && item.id in FactsOfList(list)
            && FactsOfList(list)[item.id] == Shape(Item, [item.block] + ListIds(item.nested))
            && (forall n | n in Facts(item.nested) :: FactsOfList(list)[n] == Facts(item.nested)[n])
  {
    var item := list.items[|list.items| - 1];
    SplitItems(list.items);
    assert FactsOfItem(item)[item.id] == Shape(Item, [item.block] + ListIds(item.nested));
  }
}
