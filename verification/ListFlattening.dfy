/** Lists written to Word as a flat run of numbered paragraphs: "newList", "list" and
    "listItem" of internal/docx/export.go (ISO/IEC 29500-1, section 17.9). */
module ListFlattening {
  import opened Text
  import opened ListRebuilding

  /** The numbering an open list writes with. */
  datatype Context = Context(numID: int, level: int, kind: ListKind)

  /** The paragraphs written and the next free list id. */
  datatype Written<T> = Written(paragraphs: seq<Paragraph<T>>, next: int)

  /** A list of the same kind goes one level deeper, down to the ninth; any other
      starts a numbering of its own at the first level. */
  function ContextOf(outer: Option<Context>, kind: ListKind, next: int): (Context, int) {
    if outer.None? || outer.value.kind != kind then (Context(next, 0, kind), next + 1)
    else
      var level := outer.value.level + 1;
      (Context(outer.value.numID, if level > DEEPEST then DEEPEST else level, kind), next)
  }

  function FlatLists<T>(lists: seq<Tree<T>>, outer: Option<Context>, next: int): Written<T>
    decreases lists, 1
  {
    if lists == [] then Written([], next)
    else
      var n := |lists| - 1;
      var before := FlatLists(lists[..n], outer, next);
      var last := FlatList(lists[n], outer, before.next);
      Written(before.paragraphs + last.paragraphs, last.next)
  }

  function FlatList<T>(list: Tree<T>, outer: Option<Context>, next: int): Written<T>
    decreases list
  {
    var (context, after) := ContextOf(outer, list.kind, next);
    FlatItems(list.items, context, after)
  }

  function FlatItems<T>(items: seq<ListItem<(), T>>, context: Context, next: int): Written<T>
    decreases items, 1
  {
    if items == [] then Written([], next)
    else
      var n := |items| - 1;
      var before := FlatItems(items[..n], context, next);
      var last := FlatItem(items[n], context, before.next);
      Written(before.paragraphs + last.paragraphs, last.next)
  }

  function FlatItem<T>(item: ListItem<(), T>, context: Context, next: int): Written<T>
    decreases item
  {
    var nested := FlatLists(item.nested, Some(context), next);
    Written([Paragraph(item.block, context.kind, context.numID, context.level, false)] + nested.paragraphs, nested.next)
  }

  lemma ItemsStep<T>(items: seq<ListItem<(), T>>, k: nat, context: Context, next: int)
    requires k < |items|
    ensures var before := FlatItems(items[..k], context, next);
            var last := FlatItem(items[k], context, before.next);
            FlatItems(items[..k + 1], context, next) == Written(before.paragraphs + last.paragraphs, last.next)
    ensures FlatItems(items[..0], context, next) == Written([], next)
  {
    assert items[..k + 1][..k] == items[..k];
  }

  lemma ListsStep<T>(lists: seq<Tree<T>>, k: nat, outer: Option<Context>, next: int)
    requires k < |lists|
    ensures var before := FlatLists(lists[..k], outer, next);
            var last := FlatList(lists[k], outer, before.next);
            FlatLists(lists[..k + 1], outer, next) == Written(before.paragraphs + last.paragraphs, last.next)
  {
    assert lists[..k + 1][..k] == lists[..k];
  }

  lemma ListIs<T>(list: Tree<T>, outer: Option<Context>, next: int, context: Context, after: int)
    requires (context, after) == ContextOf(outer, list.kind, next)
    ensures FlatList(list, outer, next) == FlatItems(list.items, context, after)
    ensures FlatItems(list.items[..0], context, after) == Written([], after)
  {
  }

  lemma NoLists<T>(outer: Option<Context>, next: int)
    ensures FlatLists<T>([], outer, next) == Written([], next)
  {
  }

  /** A list of another kind is numbered as if it stood alone. */
  lemma OtherKind<T>(list: Tree<T>, outer: Context, next: int)
    requires list.kind != outer.kind
    ensures FlatList(list, Some(outer), next) == FlatList(list, None, next)
  {
  }

  /** The exporter's state, as far as lists change it. */
  class Builder<T> {
    var body: seq<Paragraph<T>>
    var nextNumID: int

    /** The next id is one that no paragraph written so far carries. */
    ghost predicate Valid()
      reads this
    {
      forall p | p in body :: p.numID < nextNumID
    }

    constructor ()
      ensures Valid() && body == [] && nextNumID == 1
    {
      body, nextNumID := [], 1;
    }

    method NewList(kind: ListKind) returns (context: Context)
      requires Valid()
      modifies this`nextNumID
      ensures Valid() && context == Context(old(nextNumID), 0, kind) && nextNumID == old(nextNumID) + 1
      ensures forall p | p in body :: p.numID != context.numID
    {
      context := Context(nextNumID, 0, kind);
      nextNumID := nextNumID + 1;
    }

    method List(node: Tree<T>, outer: Option<Context>)
      requires Valid() && (outer.Some? ==> outer.value.numID < nextNumID)
      modifies this
      ensures Valid() && nextNumID >= old(nextNumID)
      ensures body == old(body) + FlatList(node, outer, old(nextNumID)).paragraphs
      ensures nextNumID == FlatList(node, outer, old(nextNumID)).next
      decreases node
    {
      hide FlatList, FlatItems;
      var list;
      if outer.None? || outer.value.kind != node.kind {
        list := NewList(node.kind);
      } else {
        list := Context(outer.value.numID, outer.value.level + 1, node.kind);
      }
      if list.level > DEEPEST {
        list := list.(level := DEEPEST);
      }
      ghost var first := nextNumID;
      ListIs(node, outer, old(nextNumID), list, first);
      var k := 0;
      while k < |node.items|
        invariant k <= |node.items| && Valid() && list.numID < nextNumID && nextNumID >= first >= old(nextNumID)
        invariant body == old(body) + FlatItems(node.items[..k], list, first).paragraphs
        invariant nextNumID == FlatItems(node.items[..k], list, first).next
      {
        ItemsStep(node.items, k, list, first);
        ListItem(node.items[k], list);
        k := k + 1;
      }
      assert node.items[..k] == node.items;
    }

    method ListItem(item: ListItem<(), T>, list: Context)
      requires Valid() && list.numID < nextNumID
      modifies this
      ensures Valid() && nextNumID >= old(nextNumID)
      ensures body == old(body) + FlatItem(item, list, old(nextNumID)).paragraphs
      ensures nextNumID == FlatItem(item, list, old(nextNumID)).next
      decreases item
    {
      hide FlatList, FlatLists;
      ghost var first := nextNumID;
      NoLists<T>(Some(list), first);
      body := body + [Paragraph(item.block, list.kind, list.numID, list.level, false)];
      ghost var start := body;
      var k := 0;
      while k < |item.nested|
        invariant k <= |item.nested| && Valid() && nextNumID >= first
        invariant body == start + FlatLists(item.nested[..k], Some(list), first).paragraphs
        invariant nextNumID == FlatLists(item.nested[..k], Some(list), first).next
      {
        ListsStep(item.nested, k, Some(list), first);
        var child := item.nested[k];
        if child.kind != list.kind { OtherKind(child, list, nextNumID); }
        List(child, if child.kind != list.kind then None else Some(list));
        k := k + 1;
      }
      assert item.nested[..k] == item.nested;
      assert FlatItem(item, list, first).paragraphs
          == [Paragraph(item.block, list.kind, list.numID, list.level, false)]
             + FlatLists(item.nested, Some(list), first).paragraphs;
    }
  }
}
