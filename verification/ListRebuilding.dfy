/** Lists rebuilt from a flat stream of paragraphs: "buildLists", "buildOneList" and
    "groupBlocks" of internal/docx/import_blocks.go. */
module ListRebuilding {
  import opened Text

  datatype ListKind = Bullet | Ordered | Task

  /** A list paragraph as it stands in the file. */
  datatype Paragraph<T> = Paragraph(block: T, kind: ListKind, numID: int, level: int, checked: bool)

  /** A list, and which node it is where that matters. */
  datatype ListNode<R, T> = ListNode(id: R, kind: ListKind, items: seq<ListItem<R, T>>)
  datatype ListItem<R, T> = ListItem(id: R, block: T, checked: bool, nested: seq<ListNode<R, T>>)

  type Tree<T> = ListNode<(), T>

  const DEEPEST := 8

  /** A paragraph that cannot stay in the group another one starts. */
  predicate Ends<T>(candidate: Paragraph<T>, first: Paragraph<T>) {
    || candidate.level < first.level
    || (candidate.level == first.level && (candidate.kind != first.kind || candidate.numID != first.numID))
  }

  function GroupEnd<T>(items: seq<Paragraph<T>>, first: Paragraph<T>): (n: nat)
    ensures n <= |items|
    ensures forall i | 0 <= i < n :: !Ends(items[i], first)
    ensures n < |items| ==> Ends(items[n], first)
  {
    if items == [] || Ends(items[0], first) then 0 else 1 + GroupEnd(items[1..], first)
  }

  function NestedEnd<T>(items: seq<Paragraph<T>>, base: int): (n: nat)
    ensures n <= |items|
    ensures forall i | 0 <= i < n :: items[i].level > base
    ensures n < |items| ==> items[n].level <= base
  {
    if items == [] || items[0].level <= base then 0 else 1 + NestedEnd(items[1..], base)
  }

  /** How many paragraphs after an item's own go inside it. */
  function Inside<T>(rest: seq<Paragraph<T>>, base: int, depth: nat): (n: nat)
    ensures n <= |rest|
  {
    if depth < DEEPEST then NestedEnd(rest, base) else 0
  }

  /** The item a paragraph becomes in a list of some kind. */
  function ItemOf<T>(paragraph: Paragraph<T>, kind: ListKind, nested: seq<Tree<T>>): ListItem<(), T> {
    ListItem((), paragraph.block, kind.Task? && paragraph.checked, nested)
  }

  function BuildLists<T>(items: seq<Paragraph<T>>, depth: nat): seq<Tree<T>>
    decreases |items|, 1
  {
    if items == [] then []
    else
      var n := GroupEnd(items, items[0]);
      [ListNode((), items[0].kind, BuildItems(items[..n], items[0].kind, items[0].level, depth))] + BuildLists(items[n..], depth)
  }

  function BuildItems<T>(items: seq<Paragraph<T>>, kind: ListKind, base: int, depth: nat): seq<ListItem<(), T>>
    decreases |items|, 0
  {
    if items == [] then []
    else
      var n := Inside(items[1..], base, depth);
      [ItemOf(items[0], kind, BuildLists(items[1..n + 1], depth + 1))]
      + BuildItems(items[n + 1..], kind, base, depth)
  }

  // ---- The loops ----

  method FindGroupEnd<T>(items: seq<Paragraph<T>>, index: nat) returns (end: nat)
    requires index < |items|
    ensures end == index + GroupEnd(items[index..], items[index])
  {
    var first := items[index];
    end := index;
    while end < |items| && !Ends(items[end], first)
      invariant index <= end <= |items|
      invariant end - index + GroupEnd(items[end..], first) == GroupEnd(items[index..], first)
    {
      assert items[end..][1..] == items[end + 1..];
      end := end + 1;
    }
  }

  method FindNestedEnd<T>(items: seq<Paragraph<T>>, index: nat, base: int) returns (nested: nat)
    requires index <= |items|
    ensures nested == index + NestedEnd(items[index..], base)
  {
    nested := index;
    while nested < |items| && items[nested].level > base
      invariant index <= nested <= |items|
      invariant nested - index + NestedEnd(items[nested..], base) == NestedEnd(items[index..], base)
    {
      assert items[nested..][1..] == items[nested + 1..];
      nested := nested + 1;
    }
  }

  lemma OneMoreList<T>(items: seq<Paragraph<T>>, index: nat, depth: nat)
    requires index < |items|
    ensures var first := items[index];
            var end := index + GroupEnd(items[index..], first);
            BuildLists(items[index..], depth) ==
            [ListNode((), first.kind, BuildItems(items[index..end], first.kind, first.level, depth))]
            + BuildLists(items[end..], depth)
    ensures GroupEnd(items[index..], items[index]) > 0
  {
    var n := GroupEnd(items[index..], items[index]);
    assert items[index..][..n] == items[index..index + n] && items[index..][n..] == items[index + n..];
  }

  lemma OneMoreItem<T>(items: seq<Paragraph<T>>, index: nat, kind: ListKind, base: int, depth: nat)
    requires index < |items|
    ensures var end := index + 1 + Inside(items[index + 1..], base, depth);
            BuildItems(items[index..], kind, base, depth) ==
            [ItemOf(items[index], kind, BuildLists(items[index + 1..end], depth + 1))]
            + BuildItems(items[end..], kind, base, depth)
  {
    hide BuildLists, Inside;
    var rest := items[index..];
    assert rest[1..] == items[index + 1..];
    var n := Inside(rest[1..], base, depth);
    assert rest[1..n + 1] == items[index + 1..index + 1 + n] && rest[n + 1..] == items[index + 1 + n..];
  }

  method BuildListsLoop<T>(items: seq<Paragraph<T>>, depth: nat) returns (out: seq<Tree<T>>)
    ensures out == BuildLists(items, depth)
    decreases |items|, 1
  {
    hide BuildLists, BuildItems;
    out := [];
    var index := 0;
    assert items[0..] == items;
    while index < |items|
      invariant index <= |items|
      invariant out + BuildLists(items[index..], depth) == BuildLists(items, depth)
    {
      var end := FindGroupEnd(items, index);
      OneMoreList(items, index, depth);
      var list := BuildOneList(items[index..end], items[index].kind, items[index].level, depth);
      assert out + ([list] + BuildLists(items[end..], depth)) == out + [list] + BuildLists(items[end..], depth);
      out := out + [list];
      index := end;
    }
    NothingLeft(items[index..], Bullet, 0, depth);
  }

  lemma NothingLeft<T>(items: seq<Paragraph<T>>, kind: ListKind, base: int, depth: nat)
    requires items == []
    ensures BuildLists(items, depth) == [] && BuildItems(items, kind, base, depth) == []
  {
  }

  method BuildOneList<T>(items: seq<Paragraph<T>>, kind: ListKind, base: int, depth: nat) returns (list: Tree<T>)
    ensures list == ListNode((), kind, BuildItems(items, kind, base, depth))
    decreases |items|, 0
  {
    hide BuildLists, BuildItems, ItemOf, NestedEnd;
    var content: seq<ListItem<(), T>> := [];
    var index := 0;
    assert items[0..] == items;
    while index < |items|
      invariant index <= |items|
      invariant content + BuildItems(items[index..], kind, base, depth) == BuildItems(items, kind, base, depth)
    {
      OneMoreItem(items, index, kind, base, depth);
      var current := items[index];
      index := index + 1;
      var nested := FindNestedEnd(items, index, base);
      var lists: seq<Tree<T>> := [];
      if nested > index && depth < DEEPEST {
        lists := BuildListsLoop(items[index..nested], depth + 1);
        index := nested;
      } else {
        NothingLeft(items[index..index], kind, base, depth + 1);
      }
      var item := ItemOf(current, kind, lists);
      assert content + ([item] + BuildItems(items[index..], kind, base, depth)) == content + [item] + BuildItems(items[index..], kind, base, depth);
      content := content + [item];
    }
    NothingLeft(items[index..], kind, base, depth);
    list := ListNode((), kind, content);
  }

  // ---- Every paragraph once, in order ----

  function BlocksOf<R, T>(lists: seq<ListNode<R, T>>): seq<T>
    decreases lists
  {
    if lists == [] then [] else BlocksOfItems(lists[0].items) + BlocksOf(lists[1..])
  }

  function BlocksOfItems<R, T>(items: seq<ListItem<R, T>>): seq<T>
    decreases items
  {
    if items == [] then [] else [items[0].block] + BlocksOf(items[0].nested) + BlocksOfItems(items[1..])
  }

  function Streamed<T>(items: seq<Paragraph<T>>): (r: seq<T>)
    ensures |r| == |items|
    ensures forall i | 0 <= i < |r| :: r[i] == items[i].block
  {
    seq(|items|, i requires 0 <= i < |items| => items[i].block)
  }

  lemma StreamedSplit<T>(items: seq<Paragraph<T>>, k: nat)
    requires k <= |items|
    ensures Streamed(items) == Streamed(items[..k]) + Streamed(items[k..])
  {
  }

  /** For any stream at all, levels and kinds as they come. */
  lemma {:induction false} EveryParagraphOnce<T>(items: seq<Paragraph<T>>, depth: nat)
    ensures BlocksOf(BuildLists(items, depth)) == Streamed(items)
    decreases |items|, 1
  {
    if items != [] {
      var n := GroupEnd(items, items[0]);
      EveryItemOnce(items[..n], items[0].kind, items[0].level, depth);
      EveryParagraphOnce(items[n..], depth);
      StreamedSplit(items, n);
      assert BuildLists(items, depth)[1..] == BuildLists(items[n..], depth);
    }
  }

  lemma {:induction false} EveryItemOnce<T>(items: seq<Paragraph<T>>, kind: ListKind, base: int, depth: nat)
    ensures BlocksOfItems(BuildItems(items, kind, base, depth)) == Streamed(items)
    decreases |items|, 0
  {
    if items != [] {
      var n := Inside(items[1..], base, depth);
      EveryParagraphOnce(items[1..n + 1], depth + 1);
      EveryItemOnce(items[n + 1..], kind, base, depth);
      StreamedSplit(items, n + 1);
      StreamedSplit(items[..n + 1], 1);
      assert items[..n + 1][1..] == items[1..n + 1];
      assert Streamed(items[..n + 1][..1]) == [items[0].block];
      assert BuildItems(items, kind, base, depth)[1..] == BuildItems(items[n + 1..], kind, base, depth);
    }
  }
}
