/** "ListStack" of internal/hangul/lists.go on values: lists built as the paragraphs
    come, with a stack of the lists still open. The stack builds what "buildLists"
    builds from the whole stream. */
module ListStacks {
  import opened ListRebuilding

  datatype Open = Open(kind: ListKind, level: int)

  /** An open list that a paragraph does not close. */
  predicate Keeps(open: Open, kind: ListKind, level: int) {
    open.level < level || (open.level == level && open.kind == kind)
  }

  predicate Increasing(open: seq<Open>) {
    forall i, j | 0 <= i < j < |open| :: open[i].level < open[j].level
  }

  /** Each open list is the last child of the last item of the one below it, and
      has an item. */
  ghost predicate OnSpine<R, T>(lists: seq<ListNode<R, T>>, open: seq<Open>)
    decreases |open|
  {
    open == [] ||
    (lists != [] &&
     var list := lists[|lists| - 1];
     list.kind == open[0].kind && list.items != [] && OnSpine(list.items[|list.items| - 1].nested, open[1..]))
  }

  function NewList<R, T>(listId: R, itemId: R, kind: ListKind, block: T): ListNode<R, T> {
    ListNode(listId, kind, [ListItem(itemId, block, false, [])])
  }

  /** The lists after a paragraph, seen from the outermost open list inwards. */
  function AddTo<R, T>(
      lists: seq<ListNode<R, T>>, open: seq<Open>, kind: ListKind, level: int, block: T, listId: R, itemId: R): seq<ListNode<R, T>>
    requires OnSpine(lists, open)
    decreases |open|
  {
    if open == [] || !Keeps(open[0], kind, level) then lists + [NewList(listId, itemId, kind, block)]
    else
      var n := |lists| - 1;
      var items := lists[n].items;
      var m := |items| - 1;
      if open[0].level == level then
        lists[..n] + [lists[n].(items := items + [ListItem(itemId, block, false, [])])]
      else
        var nested := AddTo(items[m].nested, open[1..], kind, level, block, listId, itemId);
        lists[..n] + [lists[n].(items := items[..m] + [items[m].(nested := nested)])]
  }

  function OpenAfter(open: seq<Open>, kind: ListKind, level: int): (r: seq<Open>)
    decreases |open|
  {
    if open == [] || !Keeps(open[0], kind, level) then [Open(kind, level)]
    else if open[0].level == level then [open[0]]
    else [open[0]] + OpenAfter(open[1..], kind, level)
  }

  // ---- What every paragraph keeps, whatever its level and kind ----

  lemma {:induction false} AddKeepsSpine<R, T>(
      lists: seq<ListNode<R, T>>, open: seq<Open>, kind: ListKind, level: int, block: T, listId: R, itemId: R)
    requires OnSpine(lists, open)
    ensures OnSpine(AddTo(lists, open, kind, level, block, listId, itemId), OpenAfter(open, kind, level))
    decreases |open|
  {
    if open == [] || !Keeps(open[0], kind, level) {
    } else if open[0].level == level {
      var added := AddTo(lists, open, kind, level, block, listId, itemId);
      assert added[|lists| - 1].kind == open[0].kind;
    } else {
      var items := lists[|lists| - 1].items;
      var m := |items| - 1;
      AddKeepsSpine(items[m].nested, open[1..], kind, level, block, listId, itemId);
      var nested := AddTo(items[m].nested, open[1..], kind, level, block, listId, itemId);
      var added := AddTo(lists, open, kind, level, block, listId, itemId);
      assert added[|lists| - 1].items == items[..m] + [items[m].(nested := nested)];
      assert OpenAfter(open, kind, level)[1..] == OpenAfter(open[1..], kind, level);
    }
  }

  lemma OneLeftOpen(open: seq<Open>, kind: ListKind, level: int)
    requires open == [] || open[0].level >= level
    ensures var after := OpenAfter(open, kind, level);
            |after| == 1 && after[0].level == level && Increasing(after)
  {
  }

  lemma TailIncreases(open: seq<Open>)
    requires open != [] && Increasing(open)
    ensures Increasing(open[1..]) && forall o | o in open[1..] :: open[0].level < o.level
  {
  }

  lemma OpenDeeper(open: seq<Open>, kind: ListKind, level: int)
    requires open != [] && open[0].level < level
    ensures OpenAfter(open, kind, level) == [open[0]] + OpenAfter(open[1..], kind, level)
  {
  }

  lemma IncreasingMore(first: Open, inner: seq<Open>)
    requires Increasing(inner) && forall o | o in inner :: first.level < o.level
    ensures Increasing([first] + inner)
  {
  }

  /** The open levels increase, and the paragraph's own is the last. */
  lemma {:induction false} OpenIncreases(open: seq<Open>, kind: ListKind, level: int)
    requires Increasing(open)
    ensures var after := OpenAfter(open, kind, level);
            && Increasing(after) && after != [] && after[|after| - 1].level == level
            && forall o | o in after :: o in open || o.level == level
    decreases |open|
  {
    if open == [] || open[0].level >= level {
      OneLeftOpen(open, kind, level);
    } else {
      hide Increasing;
      TailIncreases(open);
      OpenIncreases(open[1..], kind, level);
      var inner := OpenAfter(open[1..], kind, level);
      hide OpenAfter;
      forall o | o in inner
        ensures open[0].level < o.level
      {
        assert o in open[1..] ==> o in open;
      }
      assert OpenAfter(open, kind, level) == [open[0]] + inner by { OpenDeeper(open, kind, level); }
      IncreasingMore(open[0], inner);
    }
  }

  // ---- The stack in a whole stream ----

  /** What the stack holds after a stream, told from buildLists' grouping. */
  function Spine<T>(items: seq<Paragraph<T>>): seq<Open>
    decreases |items|, 1
  {
    if items == [] then []
    else
      var n := GroupEnd(items, items[0]);
      if n < |items| then Spine(items[n..])
      else [Open(items[0].kind, items[0].level)] + SpineInside(items, items[0].level)
  }

  function SpineInside<T>(items: seq<Paragraph<T>>, base: int): seq<Open>
    requires items != []
    decreases |items|, 0
  {
    var n := NestedEnd(items[1..], base);
    if n + 1 < |items| then SpineInside(items[n + 1..], base) else Spine(items[1..])
  }

  /** One list id, bullets and numbers only, levels a stream may have this deep. */
  predicate Fits<T>(items: seq<Paragraph<T>>, numID: int, lowest: int) {
    forall i | 0 <= i < |items| :: FitsOne(items[i], numID, lowest)
  }

  predicate FitsOne<T>(x: Paragraph<T>, numID: int, lowest: int) {
    x.numID == numID && !x.kind.Task? && lowest <= x.level <= DEEPEST
  }

  lemma NothingDeeper<T>(items: seq<Paragraph<T>>, numID: int, lowest: int, base: int, depth: nat)
    requires Fits(items, numID, lowest) && base >= depth
    ensures Inside(items, base, depth) == NestedEnd(items, base)
  {
    assert depth >= DEEPEST && items != [] ==> FitsOne(items[0], numID, lowest);
  }

  function Add<T>(lists: seq<Tree<T>>, open: seq<Open>, x: Paragraph<T>): seq<Tree<T>>
    requires OnSpine(lists, open)
  {
    AddTo(lists, open, x.kind, x.level, x.block, (), ())
  }

  lemma FitsTail<T>(items: seq<Paragraph<T>>, numID: int, lowest: int, k: nat)
    requires Fits(items, numID, lowest) && k <= |items|
    ensures Fits(items[k..], numID, lowest)
  {
  }

  /** What goes inside an item is deeper than the item. */
  lemma FitsInside<T>(items: seq<Paragraph<T>>, numID: int, base: int, depth: nat)
    requires items != [] && Fits(items, numID, base) && base >= depth
    requires NestedEnd(items[1..], base) == |items| - 1
    ensures Fits(items[1..], numID, depth + 1)
  {
    forall i | 0 <= i < |items[1..]|
      ensures FitsOne(items[1..][i], numID, depth + 1)
    {
      assert FitsOne(items[i + 1], numID, base);
    }
  }

  lemma {:induction false} SpineOnLists<T>(items: seq<Paragraph<T>>, numID: int, depth: nat)
    requires Fits(items, numID, depth)
    ensures OnSpine(BuildLists(items, depth), Spine(items))
    decreases |items|, 1
  {
    if items == [] {
      NothingLeft(items, Bullet, 0, depth);
    } else {
      hide BuildLists, BuildItems, SpineInside, GroupEnd, Fits, OnSpine;
      var n := GroupEnd(items, items[0]);
      assert items[0..] == items;
      OneMoreList(items, 0, depth);
      var first := ListNode((), items[0].kind, BuildItems(items[0..n], items[0].kind, items[0].level, depth));
      if n < |items| {
        FitsTail(items, numID, depth, n);
        SpineOnLists(items[n..], numID, depth);
        OneMoreList(items, n, depth);
        SpineAfter(first, BuildLists(items[n..], depth), Spine(items[n..]));
      } else {
        assert items[0..n] == items && items[n..] == [];
        NothingLeft(items[n..], Bullet, 0, depth);
        FitsBase(items, numID, depth);
        SpineOnItems(items, numID, items[0].kind, items[0].level, depth);
        SpineOnOne(first, Open(items[0].kind, items[0].level), SpineInside(items, items[0].level));
        assert BuildLists(items, depth) == [first];
      }
    }
  }

  lemma SpineAfter<T>(first: Tree<T>, rest: seq<Tree<T>>, open: seq<Open>)
    requires rest != [] && OnSpine(rest, open)
    ensures OnSpine([first] + rest, open)
  {
  }

  lemma SpineOnOne<T>(list: Tree<T>, own: Open, inside: seq<Open>)
    requires list.items != [] && list.kind == own.kind && OnSpine(list.items[|list.items| - 1].nested, inside)
    ensures OnSpine([list], [own] + inside)
  {
    assert ([own] + inside)[1..] == inside;
  }

  /** A group starts at its lowest level. */
  lemma FitsBase<T>(items: seq<Paragraph<T>>, numID: int, depth: nat)
    requires items != [] && Fits(items, numID, depth) && GroupEnd(items, items[0]) == |items|
    ensures Fits(items, numID, items[0].level) && items[0].level >= depth
  {
    assert FitsOne(items[0], numID, depth);
    forall i | 0 <= i < |items|
      ensures FitsOne(items[i], numID, items[0].level)
    {
      assert FitsOne(items[i], numID, depth) && !Ends(items[i], items[0]);
    }
  }

  /** An item and the rest of its list. */
  lemma FirstItem<T>(items: seq<Paragraph<T>>, n: nat, kind: ListKind, base: int, depth: nat)
    requires items != [] && n == NestedEnd(items[1..], base) == Inside(items[1..], base, depth)
    ensures BuildItems(items, kind, base, depth)
         == [ItemOf(items[0], kind, BuildLists(items[1..n + 1], depth + 1))] + BuildItems(items[n + 1..], kind, base, depth)
    ensures SpineInside(items, base) == if n + 1 < |items| then SpineInside(items[n + 1..], base) else Spine(items[1..])
  {
    hide BuildLists, BuildItems, Spine, ItemOf, Inside, NestedEnd;
    assert items[0..] == items;
    OneMoreItem(items, 0, kind, base, depth);
  }

  lemma {:induction false} SpineOnItems<T>(items: seq<Paragraph<T>>, numID: int, kind: ListKind, base: int, depth: nat)
    requires items != [] && Fits(items, numID, base) && base >= depth
    ensures var made := BuildItems(items, kind, base, depth);
            made != [] && OnSpine(made[|made| - 1].nested, SpineInside(items, base))
    decreases |items|, 0
  {
    hide BuildLists, Spine, Fits, OnSpine, BuildItems, SpineInside, Inside, NestedEnd;
    FitsTail(items, numID, base, 1);
    NothingDeeper(items[1..], numID, base, base, depth);
    var n := NestedEnd(items[1..], base);
    var made := BuildItems(items, kind, base, depth);
    FirstItem(items, n, kind, base, depth);
    if n + 1 < |items| {
      FitsTail(items, numID, base, n + 1);
      SpineOnItems(items[n + 1..], numID, kind, base, depth);
      assert made[1..] == BuildItems(items[n + 1..], kind, base, depth);
    } else {
      FitsInside(items, numID, base, depth);
      SpineOnLists(items[1..], numID, depth + 1);
      assert items[1..n + 1] == items[1..] && items[n + 1..] == [];
      NothingLeft(items[n + 1..], kind, base, depth);
    }
  }

  // ---- One paragraph more ----

  lemma {:induction false} GroupEndOneMore<T>(items: seq<Paragraph<T>>, x: Paragraph<T>, first: Paragraph<T>)
    ensures GroupEnd(items + [x], first)
         == if GroupEnd(items, first) < |items| || Ends(x, first) then GroupEnd(items, first) else |items| + 1
  {
    if items == [] {
      assert [x][1..] == [];
    } else {
      assert (items + [x])[1..] == items[1..] + [x];
      GroupEndOneMore(items[1..], x, first);
    }
  }

  lemma {:induction false} NestedEndOneMore<T>(items: seq<Paragraph<T>>, x: Paragraph<T>, base: int)
    ensures NestedEnd(items + [x], base)
         == if NestedEnd(items, base) < |items| || x.level <= base then NestedEnd(items, base) else |items| + 1
  {
    if items == [] {
      assert [x][1..] == [];
    } else {
      assert (items + [x])[1..] == items[1..] + [x];
      NestedEndOneMore(items[1..], x, base);
    }
  }

  lemma AddAfter<T>(list: Tree<T>, rest: seq<Tree<T>>, open: seq<Open>, x: Paragraph<T>)
    requires rest != [] && OnSpine(rest, open)
    ensures OnSpine([list] + rest, open) && Add([list] + rest, open, x) == [list] + Add(rest, open, x)
  {
    assert ([list] + rest)[..|rest|] == [list] + rest[..|rest| - 1];
  }

  /** buildLists of a stream and one paragraph more is the stack's step. */
  lemma {:induction false} OneMore<T>(items: seq<Paragraph<T>>, x: Paragraph<T>, numID: int, depth: nat)
    requires Fits(items, numID, depth) && FitsOne(x, numID, depth)
    ensures OnSpine(BuildLists(items, depth), Spine(items))
    ensures BuildLists(items + [x], depth) == Add(BuildLists(items, depth), Spine(items), x)
    ensures Spine(items + [x]) == OpenAfter(Spine(items), x.kind, x.level)
    decreases |items|, 1
  {
    SpineOnLists(items, numID, depth);
    if items == [] {
      assert items + [x] == [x];
      SingleList(x, depth);
    } else {
      var n := GroupEnd(items, items[0]);
      GroupEndOneMore(items, x, items[0]);
      if n < |items| {
        OneMore(items[n..], x, numID, depth);
        OneMoreLater(items, x, n, numID, depth);
      } else {
        assert items[..n] == items && items[n..] == [];
        if Ends(x, items[0]) {
          OneMoreApart(items, x, numID, depth);
        } else {
          OneMoreInside(items, x, numID, items[0].kind, items[0].level, depth);
          OneMoreTogether(items, x, numID, depth);
        }
      }
    }
  }

  lemma SingleList<T>(x: Paragraph<T>, depth: nat)
    requires !x.kind.Task?
    ensures BuildLists([x], depth) == [NewList((), (), x.kind, x.block)]
    ensures Spine([x]) == [Open(x.kind, x.level)]
  {
    assert GroupEnd([x], x) == 1 && [x][..1] == [x] && [x][1..] == [] && [x][1..1] == [];
    NothingLeft<T>([], x.kind, x.level, depth);
    NothingLeft<T>([], x.kind, x.level, depth + 1);
    assert BuildItems([x], x.kind, x.level, depth) == [ItemOf(x, x.kind, [])];
    assert SpineInside([x], x.level) == [];
  }

  lemma OneMoreLater<T>(items: seq<Paragraph<T>>, x: Paragraph<T>, n: nat, numID: int, depth: nat)
    requires items != [] && n == GroupEnd(items, items[0]) < |items|
    requires GroupEnd(items + [x], items[0]) == n
    requires OnSpine(BuildLists(items[n..], depth), Spine(items[n..]))
    requires OnSpine(BuildLists(items, depth), Spine(items))
    requires BuildLists(items[n..] + [x], depth) == Add(BuildLists(items[n..], depth), Spine(items[n..]), x)
    requires Spine(items[n..] + [x]) == OpenAfter(Spine(items[n..]), x.kind, x.level)
    ensures BuildLists(items + [x], depth) == Add(BuildLists(items, depth), Spine(items), x)
    ensures Spine(items + [x]) == OpenAfter(Spine(items), x.kind, x.level)
  {
    hide BuildItems, Add, OnSpine, OpenAfter;
    var all := items + [x];
    assert all[..n] == items[..n] && all[n..] == items[n..] + [x];
    var rest := BuildLists(items[n..], depth);
    assert rest != [];
    AddAfter(BuildLists(items, depth)[0], rest, Spine(items[n..]), x);
    assert BuildLists(items, depth) == [BuildLists(items, depth)[0]] + rest;
  }

  lemma OneMoreApart<T>(items: seq<Paragraph<T>>, x: Paragraph<T>, numID: int, depth: nat)
    requires items != [] && Fits(items, numID, depth) && FitsOne(x, numID, depth)
    requires GroupEnd(items, items[0]) == |items| && Ends(x, items[0])
    requires OnSpine(BuildLists(items, depth), Spine(items))
    ensures BuildLists(items + [x], depth) == Add(BuildLists(items, depth), Spine(items), x)
    ensures Spine(items + [x]) == OpenAfter(Spine(items), x.kind, x.level)
  {
    hide BuildItems;
    GroupEndOneMore(items, x, items[0]);
    var all, n := items + [x], |items|;
    assert all[..n] == items[..n] && all[n..] == [x] && items[n..] == [];
    SingleList(x, depth);
  }

  lemma OneMoreTogether<T>(items: seq<Paragraph<T>>, x: Paragraph<T>, numID: int, depth: nat)
    requires items != [] && GroupEnd(items, items[0]) == |items| && !Ends(x, items[0]) && items[0].numID == x.numID
    requires OnSpine(BuildLists(items, depth), Spine(items))
    requires ItemsAfter(items, x, items[0].kind, items[0].level, depth)
    ensures BuildLists(items + [x], depth) == Add(BuildLists(items, depth), Spine(items), x)
    ensures Spine(items + [x]) == OpenAfter(Spine(items), x.kind, x.level)
  {
    hide BuildItems, SpineInside;
    GroupEndOneMore(items, x, items[0]);
    var all, n := items + [x], |items|;
    assert all[..n + 1] == all && all[n + 1..] == [] && items[..n] == items && items[n..] == [];
    assert BuildLists<T>([], depth) == [];
  }

  /** What one paragraph more does inside a list. */
  ghost predicate ItemsAfter<T>(items: seq<Paragraph<T>>, x: Paragraph<T>, kind: ListKind, base: int, depth: nat)
    requires items != []
  {
    ItemsStep(BuildItems(items, kind, base, depth), BuildItems(items + [x], kind, base, depth),
              SpineInside(items, base), SpineInside(items + [x], base), x, base)
  }

  ghost predicate ItemsStep<T>(
      before: seq<ListItem<(), T>>, after: seq<ListItem<(), T>>, open: seq<Open>, openAfter: seq<Open>, x: Paragraph<T>, base: int)
  {
    if x.level == base then
      after == before + [ListItem((), x.block, false, [])] && openAfter == []
    else
      var m := |before| - 1;
      before != [] && OnSpine(before[m].nested, open)
      && after == before[..m] + [before[m].(nested := Add(before[m].nested, open, x))]
      && openAfter == OpenAfter(open, x.kind, x.level)
  }

  lemma ItemsStepLater<T>(
      first: ListItem<(), T>, before: seq<ListItem<(), T>>, after: seq<ListItem<(), T>>,
      open: seq<Open>, openAfter: seq<Open>, x: Paragraph<T>, base: int)
    requires ItemsStep(before, after, open, openAfter, x, base)
    ensures ItemsStep([first] + before, [first] + after, open, openAfter, x, base)
  {
    hide OnSpine, Add, OpenAfter;
    if x.level == base {
      assert [first] + (before + [ListItem((), x.block, false, [])]) == [first] + before + [ListItem((), x.block, false, [])];
    } else {
      assert ([first] + before)[..|before|] == [first] + before[..|before| - 1];
    }
  }

  lemma {:induction false} OneMoreInside<T>(items: seq<Paragraph<T>>, x: Paragraph<T>, numID: int, kind: ListKind, base: int, depth: nat)
    requires items != [] && base >= depth && !kind.Task?
    requires Fits(items, numID, base) && FitsOne(x, numID, base)
    ensures ItemsAfter(items, x, kind, base, depth)
    decreases |items|, 0
  {
    hide ItemsAfter, BuildLists, BuildItems, Spine, SpineInside, OnSpine, Add, OpenAfter, Fits;
    FitsTail(items, numID, base, 1);
    NothingDeeper(items[1..], numID, base, base, depth);
    var n := NestedEnd(items[1..], base);
    assert (items + [x])[1..] == items[1..] + [x];
    NestedEndOneMore(items[1..], x, base);
    if n + 1 < |items| {
      FitsTail(items, numID, base, n + 1);
      OneMoreInside(items[n + 1..], x, numID, kind, base, depth);
      InsideLater(items, x, n, kind, base, depth);
    } else if x.level == base {
      InsideNext(items, x, kind, base, depth);
    } else {
      FitsInside(items, numID, base, depth);
      OneMore(items[1..], x, numID, depth + 1);
      InsideDeeper(items, x, kind, base, depth);
    }
  }

  lemma InsideLater<T>(items: seq<Paragraph<T>>, x: Paragraph<T>, n: nat, kind: ListKind, base: int, depth: nat)
    requires items != [] && n == NestedEnd(items[1..], base) < |items| - 1 && NestedEnd((items + [x])[1..], base) == n
    requires depth >= DEEPEST ==> n == 0
    requires ItemsAfter(items[n + 1..], x, kind, base, depth)
    ensures ItemsAfter(items, x, kind, base, depth)
  {
    hide BuildLists, BuildItems, ItemsStep, Spine, SpineInside, NestedEnd, ItemOf;
    var all := items + [x];
    assert all[1..n + 1] == items[1..n + 1] && all[n + 1..] == items[n + 1..] + [x];
    FirstItem(items, n, kind, base, depth);
    FirstItem(all, n, kind, base, depth);
    ItemsStepLater(
      ItemOf(items[0], kind, BuildLists(items[1..n + 1], depth + 1)),
      BuildItems(items[n + 1..], kind, base, depth), BuildItems(items[n + 1..] + [x], kind, base, depth),
      SpineInside(items[n + 1..], base), SpineInside(items[n + 1..] + [x], base), x, base);
  }

  lemma InsideNext<T>(items: seq<Paragraph<T>>, x: Paragraph<T>, kind: ListKind, base: int, depth: nat)
    requires items != [] && NestedEnd(items[1..], base) == |items| - 1 && x.level == base && !kind.Task?
    requires NestedEnd((items + [x])[1..], base) == |items| - 1 && (depth >= DEEPEST ==> |items| == 1)
    ensures ItemsAfter(items, x, kind, base, depth)
  {
    hide BuildLists, BuildItems, SpineInside, Spine, NestedEnd;
    var all, n := items + [x], |items|;
    assert all[1..n] == items[1..n] && all[n..] == [x] && items[n..] == [];
    FirstItem(items, n - 1, kind, base, depth);
    FirstItem(all, n - 1, kind, base, depth);
    NothingLeft(items[n..], kind, base, depth);
    OneItem(x, kind, base, depth);
  }

  lemma OneItem<T>(x: Paragraph<T>, kind: ListKind, base: int, depth: nat)
    requires !kind.Task?
    ensures BuildItems([x], kind, base, depth) == [ListItem((), x.block, false, [])]
    ensures SpineInside([x], base) == []
  {
    assert [x][1..] == [] && [x][1..1] == [];
    NothingLeft<T>([], kind, base, depth);
    NothingLeft<T>([], kind, base, depth + 1);
  }

  lemma InsideDeeper<T>(items: seq<Paragraph<T>>, x: Paragraph<T>, kind: ListKind, base: int, depth: nat)
    requires items != [] && NestedEnd(items[1..], base) == |items| - 1 && x.level != base && depth < DEEPEST
    requires NestedEnd((items + [x])[1..], base) == |items|
    requires OnSpine(BuildLists(items[1..], depth + 1), Spine(items[1..]))
    requires BuildLists(items[1..] + [x], depth + 1) == Add(BuildLists(items[1..], depth + 1), Spine(items[1..]), x)
    requires Spine(items[1..] + [x]) == OpenAfter(Spine(items[1..]), x.kind, x.level)
    ensures ItemsAfter(items, x, kind, base, depth)
  {
    hide BuildLists, Add, Spine;
    var all, n := items + [x], |items|;
    assert all[1..n + 1] == items[1..] + [x] == all[1..] && all[n + 1..] == [] && items[1..n] == items[1..] && items[n..] == [];
    assert BuildItems(items, kind, base, depth) == [ItemOf(items[0], kind, BuildLists(items[1..], depth + 1))];
    assert BuildItems(all, kind, base, depth) == [ItemOf(items[0], kind, BuildLists(items[1..] + [x], depth + 1))];
  }

  // ---- The theorem ----

  /** The stack run over a whole stream. */
  function Stacked<T>(items: seq<Paragraph<T>>): (r: (seq<Tree<T>>, seq<Open>))
    ensures OnSpine(r.0, r.1) && Increasing(r.1)
  {
    if items == [] then ([], [])
    else
      var n := |items| - 1;
      var (lists, open) := Stacked(items[..n]);
      AddKeepsSpine(lists, open, items[n].kind, items[n].level, items[n].block, (), ());
      OpenIncreases(open, items[n].kind, items[n].level);
      (Add(lists, open, items[n]), OpenAfter(open, items[n].kind, items[n].level))
  }

  lemma StackedLast<T>(items: seq<Paragraph<T>>)
    requires items != []
    ensures var n := |items| - 1;
            var before := Stacked(items[..n]);
            && Stacked(items).0 == Add(before.0, before.1, items[n])
            && Stacked(items).1 == OpenAfter(before.1, items[n].kind, items[n].level)
  {
    hide Add, OpenAfter, OnSpine, Increasing;
  }

  /** Online with a stack or recursively from the whole stream: the same lists. */
  lemma {:induction false} StackBuildsTheSame<T>(items: seq<Paragraph<T>>, numID: int)
    requires Fits(items, numID, 0)
    ensures Stacked(items).0 == BuildLists(items, 0)
    ensures Stacked(items).1 == Spine(items)
  {
    hide BuildLists, Spine, Stacked, Fits, FitsOne;
    if items == [] {
      NothingStacked<T>();
    } else {
      var n := |items| - 1;
      FitsInit(items, numID);
      StackBuildsTheSame(items[..n], numID);
      StackStep(items[..n], items[n], numID);
      assert items[..n] + [items[n]] == items;
    }
  }

  lemma NothingStacked<T>()
    ensures Stacked<T>([]).0 == BuildLists<T>([], 0) && Stacked<T>([]).1 == Spine<T>([])
  {
  }

  lemma StackStep<T>(items: seq<Paragraph<T>>, x: Paragraph<T>, numID: int)
    requires Fits(items, numID, 0) && FitsOne(x, numID, 0)
    requires Stacked(items).0 == BuildLists(items, 0) && Stacked(items).1 == Spine(items)
    ensures Stacked(items + [x]).0 == BuildLists(items + [x], 0)
    ensures Stacked(items + [x]).1 == Spine(items + [x])
  {
    hide BuildLists, Spine, OnSpine, Increasing, Add, OpenAfter, Stacked, Fits, FitsOne;
    OneMore(items, x, numID, 0);
    StackedLast(items + [x]);
    assert (items + [x])[..|items|] == items;
  }

  lemma FitsInit<T>(items: seq<Paragraph<T>>, numID: int)
    requires Fits(items, numID, 0) && items != []
    ensures Fits(items[..|items| - 1], numID, 0) && FitsOne(items[|items| - 1], numID, 0)
  {
  }
}
