/** Which lists a stream of paragraphs is rebuilt into, told without the algorithm of
    internal/docx/import_blocks.go: the one way to hang up the paragraphs in their
    order so that lists hold what belongs together. */
module ListGrouping {
  import opened ListRebuilding

  /** A paragraph that carries itself, so that what an item came from can be seen in it. */
  function Own<T>(p: Paragraph<T>): Paragraph<Paragraph<T>> {
    Paragraph(p, p.kind, p.numID, p.level, p.checked)
  }

  function Stream<T>(paragraphs: seq<Paragraph<T>>): (r: seq<Paragraph<Paragraph<T>>>)
    ensures |r| == |paragraphs| && forall i | 0 <= i < |r| :: r[i] == Own(paragraphs[i])
  {
    seq(|paragraphs|, i requires 0 <= i < |paragraphs| => Own(paragraphs[i]))
  }

  /** The paragraph a list starts with. */
  function Head<T>(list: Tree<Paragraph<T>>): Paragraph<T>
    requires list.items != []
  {
    list.items[0].block
  }

  /** A paragraph that may stand in a list, or inside its items. */
  ghost predicate Belongs<T>(p: Paragraph<T>, head: Paragraph<T>) {
    p.level > head.level || (p.level == head.level && p.kind == head.kind && p.numID == head.numID)
  }

  /** Where one list ends and its neighbour begins, the level falls, or else the kind or
      the list id changes. */
  ghost predicate Parts<T>(next: Paragraph<T>, head: Paragraph<T>) {
    next.level < head.level || (next.level == head.level && (next.kind != head.kind || next.numID != head.numID))
  }

  /** An item has the level, kind and list id of its list's first, and what hangs inside
      it is deeper. Only the ninth level takes in as items what is deeper than itself,
      whatever its kind and id. */
  ghost predicate GroupedItem<T>(item: ListItem<(), Paragraph<T>>, head: Paragraph<T>, depth: nat)
    decreases item, 0
  {
    && item.checked == (head.kind == Task && item.block.checked)
    && if depth < 8 then
         && item.block.level == head.level && item.block.kind == head.kind && item.block.numID == head.numID
         && Deeper(BlocksOf(item.nested), head.level)
         && Grouped(item.nested, depth + 1)
       else
         Belongs(item.block, head) && item.nested == []
  }

  ghost predicate AllBelong<T>(paragraphs: seq<Paragraph<T>>, head: Paragraph<T>) {
    forall p | p in paragraphs :: Belongs(p, head)
  }

  ghost predicate Deeper<T>(paragraphs: seq<Paragraph<T>>, level: int) {
    forall p | p in paragraphs :: p.level > level
  }

  ghost predicate GroupedItems<T>(items: seq<ListItem<(), Paragraph<T>>>, head: Paragraph<T>, depth: nat)
    decreases items, 1
  {
    items == [] || (GroupedItem(items[0], head, depth) && GroupedItems(items[1..], head, depth))
  }

  ghost predicate Grouped<T>(lists: seq<Tree<Paragraph<T>>>, depth: nat)
    decreases lists, 1
  {
    lists == [] ||
    (&& lists[0].items != [] && lists[0].kind == Head(lists[0]).kind && GroupedItems(lists[0].items, Head(lists[0]), depth)
     && Grouped(lists[1..], depth) && (|lists| > 1 ==> lists[1].items != [] && Parts(Head(lists[1]), Head(lists[0]))))
  }

  // ---- One list, one item ----

  /** How many paragraphs the first list takes. */
  function Taken<T>(paragraphs: seq<Paragraph<T>>): (n: nat)
    requires paragraphs != []
    ensures n <= |paragraphs|
  {
    GroupEnd(Stream(paragraphs), Own(paragraphs[0]))
  }

  /** How many paragraphs after the first its item takes. */
  function TakenInside<T>(paragraphs: seq<Paragraph<T>>, head: Paragraph<T>, depth: nat): (n: nat)
    requires paragraphs != []
    ensures n < |paragraphs|
  {
    Inside(Stream(paragraphs[1..]), head.level, depth)
  }

  function Lists<T>(paragraphs: seq<Paragraph<T>>, depth: nat): seq<Tree<Paragraph<T>>> {
    BuildLists(Stream(paragraphs), depth)
  }

  function Items<T>(paragraphs: seq<Paragraph<T>>, head: Paragraph<T>, depth: nat): seq<ListItem<(), Paragraph<T>>> {
    BuildItems(Stream(paragraphs), head.kind, head.level, depth)
  }

  function Item<T>(p: Paragraph<T>, kind: ListKind, nested: seq<Tree<Paragraph<T>>>): ListItem<(), Paragraph<T>> {
    ListItem((), p, kind == Task && p.checked, nested)
  }

  lemma StreamParts<T>(paragraphs: seq<Paragraph<T>>, from: nat, to: nat)
    requires from <= to <= |paragraphs|
    ensures Stream(paragraphs)[from..to] == Stream(paragraphs[from..to])
    ensures Stream(paragraphs)[from..] == Stream(paragraphs[from..])
  {
  }

  lemma FirstList<T>(paragraphs: seq<Paragraph<T>>, depth: nat)
    requires paragraphs != []
    ensures var n := Taken(paragraphs);
            && 0 < n
            && Lists(paragraphs, depth)
            == [ListNode((), paragraphs[0].kind, Items(paragraphs[..n], paragraphs[0], depth))] + Lists(paragraphs[n..], depth)
  {
    var items, n := Stream(paragraphs), Taken(paragraphs);
    hide BuildLists, BuildItems;
    OneMoreList(items, 0, depth);
    assert items[0..] == items && items[0] == Own(paragraphs[0]);
    StreamParts(paragraphs, 0, n);
    StreamParts(paragraphs, n, |paragraphs|);
    assert items[0..n] == Stream(paragraphs[..n]) && items[n..] == Stream(paragraphs[n..]);
  }

  lemma FirstItem<T>(paragraphs: seq<Paragraph<T>>, head: Paragraph<T>, depth: nat)
    requires paragraphs != []
    ensures var n := TakenInside(paragraphs, head, depth);
            Items(paragraphs, head, depth)
            == [Item(paragraphs[0], head.kind, Lists(paragraphs[1..n + 1], depth + 1))] + Items(paragraphs[n + 1..], head, depth)
  {
    var items, n := Stream(paragraphs), TakenInside(paragraphs, head, depth);
    StreamParts(paragraphs, 1, n + 1);
    StreamParts(paragraphs, n + 1, n + 1);
    assert items[0] == Own(paragraphs[0]);
    hide BuildLists, Inside, Stream;
  }

  lemma NoLists<T>(paragraphs: seq<Paragraph<T>>, depth: nat)
    requires paragraphs == []
    ensures Lists(paragraphs, depth) == []
  {
  }

  lemma NoItems<T>(paragraphs: seq<Paragraph<T>>, head: Paragraph<T>, depth: nat)
    requires paragraphs == []
    ensures Items(paragraphs, head, depth) == []
  {
  }

  lemma TakenBelongs<T>(paragraphs: seq<Paragraph<T>>)
    requires paragraphs != []
    ensures var n := Taken(paragraphs);
            && AllBelong(paragraphs[..n], paragraphs[0])
            && (n < |paragraphs| ==> Parts(paragraphs[n], paragraphs[0]))
  {
    var items, n := Stream(paragraphs), Taken(paragraphs);
    assert forall i | 0 <= i < n :: !Ends(items[i], Own(paragraphs[0])) && items[i] == Own(paragraphs[i]);
  }

  lemma InnerIsDeeper<T>(paragraphs: seq<Paragraph<T>>, head: Paragraph<T>, depth: nat)
    requires paragraphs != [] && AllBelong(paragraphs, head)
    ensures var n := TakenInside(paragraphs, head, depth);
            && (if depth < 8 then Deeper(paragraphs[1..n + 1], head.level) else n == 0)
            && AllBelong(paragraphs[n + 1..], head)
            && (depth < 8 && n + 1 < |paragraphs| ==> paragraphs[n + 1].level == head.level)
  {
    var rest, n := paragraphs[1..], TakenInside(paragraphs, head, depth);
    assert paragraphs[1..n + 1] == rest[..n];
    assert depth < 8 ==> forall i | 0 <= i < n :: Stream(rest)[i].level > head.level;
    assert n < |rest| ==> rest[n] in paragraphs;
  }

  lemma EndOfGroup<T>(own: seq<Paragraph<T>>, rest: seq<Paragraph<T>>)
    requires own != [] && AllBelong(own, own[0]) && (rest != [] ==> Parts(rest[0], own[0]))
    ensures Taken(own + rest) == |own|
  {
    var all := own + rest;
    var items := Stream(all);
    assert forall i | 0 <= i < |own| :: all[i] == own[i] && own[i] in own;
    assert forall i | 0 <= i < |own| :: items[i] == Own(own[i]) && !Ends(items[i], Own(own[0]));
    if rest != [] { assert items[|own|] == Own(rest[0]); }
  }

  lemma EndOfNested<T>(p: Paragraph<T>, inner: seq<Paragraph<T>>, rest: seq<Paragraph<T>>, head: Paragraph<T>, depth: nat)
    requires if depth < 8 then Deeper(inner, head.level) else inner == []
    requires depth < 8 && rest != [] ==> rest[0].level <= head.level
    ensures TakenInside([p] + inner + rest, head, depth) == |inner|
  {
    var all := [p] + inner + rest;
    var items := Stream(all[1..]);
    assert all[1..] == inner + rest;
    assert forall i | 0 <= i < |inner| :: items[i] == Own(inner[i]) && inner[i] in inner;
    assert rest != [] ==> items[|inner|] == Own(rest[0]);
  }

  // ---- Rebuilding groups ----

  lemma ListsHead<T>(paragraphs: seq<Paragraph<T>>, depth: nat)
    ensures var lists := Lists(paragraphs, depth);
            if paragraphs == [] then lists == []
            else lists != [] && lists[0].items != [] && Head(lists[0]) == paragraphs[0]
  {
    if paragraphs == [] {
      assert Lists<T>([], depth) == [];
    } else {
      hide Lists, Items;
      FirstList(paragraphs, depth);
      FirstItem(paragraphs[..Taken(paragraphs)], paragraphs[0], depth);
    }
  }

  lemma {:induction false} BuiltGrouped<T>(paragraphs: seq<Paragraph<T>>, depth: nat)
    ensures Grouped(Lists(paragraphs, depth), depth)
    decreases |paragraphs|, 1
  {
    ListsHead(paragraphs, depth);
    hide Lists, Items, GroupedItems, Taken, AllBelong, Parts;
    if paragraphs != [] {
      var head, n := paragraphs[0], Taken(paragraphs);
      FirstList(paragraphs, depth);
      TakenBelongs(paragraphs);
      BuiltItems(paragraphs[..n], head, depth);
      BuiltGrouped(paragraphs[n..], depth);
      ListsHead(paragraphs[n..], depth);
      assert Lists(paragraphs, depth)[1..] == Lists(paragraphs[n..], depth);
    }
  }

  lemma {:induction false} BuiltItems<T>(paragraphs: seq<Paragraph<T>>, head: Paragraph<T>, depth: nat)
    requires AllBelong(paragraphs, head)
    requires depth < 8 && paragraphs != [] ==> paragraphs[0].level == head.level
    ensures GroupedItems(Items(paragraphs, head, depth), head, depth)
    decreases |paragraphs|, 0
  {
    if paragraphs != [] {
      assert Belongs(paragraphs[0], head);
      hide Lists, Items, TakenInside, Belongs, AllBelong, Deeper, GroupedItem, Grouped;
      FirstItem(paragraphs, head, depth);
      var n := TakenInside(paragraphs, head, depth);
      var inner, rest := paragraphs[1..n + 1], paragraphs[n + 1..];
      InnerIsDeeper(paragraphs, head, depth);
      BuiltGrouped(inner, depth + 1);
      BuiltItem(paragraphs[0], inner, head, depth);
      BuiltItems(rest, head, depth);
      assert Items(paragraphs, head, depth)[1..] == Items(rest, head, depth);
    } else {
      NoItems(paragraphs, head, depth);
    }
  }

  lemma BuiltItem<T>(p: Paragraph<T>, inner: seq<Paragraph<T>>, head: Paragraph<T>, depth: nat)
    requires Belongs(p, head) && (depth < 8 ==> p.level == head.level)
    requires if depth < 8 then Deeper(inner, head.level) else inner == []
    requires Grouped(Lists(inner, depth + 1), depth + 1)
    ensures GroupedItem(Item(p, head.kind, Lists(inner, depth + 1)), head, depth)
  {
    hide Grouped;
    HoldInOrder(inner, depth + 1);
    if inner == [] { NoLists(inner, depth + 1); }
  }

  lemma HoldInOrder<T>(paragraphs: seq<Paragraph<T>>, depth: nat)
    ensures BlocksOf(Lists(paragraphs, depth)) == paragraphs
  {
    EveryParagraphOnce(Stream(paragraphs), depth);
    assert Streamed(Stream(paragraphs)) == paragraphs;
  }

  // ---- There is no other way ----

  lemma {:induction false} GroupedIsBuilt<T>(lists: seq<Tree<Paragraph<T>>>, depth: nat)
    requires Grouped(lists, depth)
    ensures lists == Lists(BlocksOf(lists), depth)
    decreases lists
  {
    hide Lists, Items, GroupedItems, Taken, AllBelong, Parts;
    if lists != [] {
      var own, rest := BlocksOfItems(lists[0].items), BlocksOf(lists[1..]);
      var head := Head(lists[0]);
      GroupedItemsAreBuilt(lists[0].items, head, depth);
      GroupedIsBuilt(lists[1..], depth);
      if |lists| > 1 { assert rest[0] == Head(lists[1]); }
      EndOfGroup(own, rest);
      FirstList(own + rest, depth);
      assert (own + rest)[..|own|] == own && (own + rest)[|own|..] == rest;
      assert lists[0].id == () && lists == [lists[0]] + lists[1..];
    } else {
      NoLists(BlocksOf(lists), depth);
    }
  }

  lemma {:induction false} GroupedItemsAreBuilt<T>(content: seq<ListItem<(), Paragraph<T>>>, head: Paragraph<T>, depth: nat)
    requires GroupedItems(content, head, depth)
    ensures content == Items(BlocksOfItems(content), head, depth)
    ensures AllBelong(BlocksOfItems(content), head)
    decreases content
  {
    hide Lists, Items, TakenInside;
    if content != [] {
      var item := content[0];
      var inner, rest := BlocksOf(item.nested), BlocksOfItems(content[1..]);
      var n := |inner|;
      var all := [item.block] + inner + rest;
      assert depth < 8 ==> Grouped(item.nested, depth + 1);
      hide Grouped;
      if depth < 8 { GroupedIsBuilt(item.nested, depth + 1); } else { NoLists(inner, depth + 1); }
      GroupedItemsAreBuilt(content[1..], head, depth);
      if |content| > 1 { assert rest[0] == content[1].block; }
      EndOfNested(item.block, inner, rest, head, depth);
      FirstItem(all, head, depth);
      assert all[1..n + 1] == inner && all[n + 1..] == rest;
      assert item.id == () && content == [item] + content[1..];
    } else {
      NoItems(BlocksOfItems(content), head, depth);
    }
  }

  /** For every stream and depth, and for any lists: they are what the stream is rebuilt
      into if and only if they hold its paragraphs in order and group them so. */
  lemma GroupedExactly<T>(paragraphs: seq<Paragraph<T>>, lists: seq<Tree<Paragraph<T>>>, depth: nat)
    ensures lists == BuildLists(Stream(paragraphs), depth) <==> BlocksOf(lists) == paragraphs && Grouped(lists, depth)
  {
    hide Grouped;
    BuiltGrouped(paragraphs, depth);
    HoldInOrder(paragraphs, depth);
    if Grouped(lists, depth) { GroupedIsBuilt(lists, depth); }
  }
}
