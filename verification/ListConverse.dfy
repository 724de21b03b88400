/** The other half: lists that are not faithful do not come back from Word. */
module ListConverse {
  import opened Text
  import opened ListRebuilding
  import opened ListFlattening
  import opened ListRoundTrip

  /** Bullets and numbers only, as the list exporter handles them. */
  ghost predicate Exportable<T>(lists: seq<Tree<T>>)
    decreases lists
  {
    forall l | l in lists :: !l.kind.Task? && forall i | i in l.items :: Exportable(i.nested)
  }

  // ---- Rebuilt lists are never empty ----

  ghost predicate FullLists<T>(lists: seq<Tree<T>>)
    decreases lists
  {
    lists == [] || (FullLists(lists[..|lists| - 1]) && FullList(lists[|lists| - 1]))
  }

  ghost predicate FullList<T>(list: Tree<T>)
    decreases list
  {
    list.items != [] && FullItems(list.items)
  }

  ghost predicate FullItems<T>(items: seq<ListItem<(), T>>)
    decreases items
  {
    items == [] || (FullItems(items[..|items| - 1]) && FullLists(items[|items| - 1].nested))
  }

  lemma {:induction false} FullMore<T>(list: Tree<T>, lists: seq<Tree<T>>)
    requires FullList(list) && FullLists(lists)
    ensures FullLists([list] + lists)
    decreases |lists|
  {
    hide FullList;
    var all, n := [list] + lists, |lists|;
    if lists != [] {
      FullMore(list, lists[..n - 1]);
      assert all[..n] == [list] + lists[..n - 1];
    } else {
      assert all[..n] == [];
    }
  }

  lemma {:induction false} FullItemsMore<T>(item: ListItem<(), T>, items: seq<ListItem<(), T>>)
    requires FullLists(item.nested) && FullItems(items)
    ensures FullItems([item] + items)
    decreases |items|
  {
    hide FullLists;
    var all, n := [item] + items, |items|;
    if items != [] {
      FullItemsMore(item, items[..n - 1]);
      assert all[..n] == [item] + items[..n - 1];
    } else {
      assert all[..n] == [];
    }
  }

  lemma {:induction false} BuiltFull<T>(s: seq<Paragraph<T>>, depth: nat)
    ensures FullLists(BuildLists(s, depth))
    decreases |s|, 1
  {
    if s != [] {
      var n := GroupEnd(s, s[0]);
      BuiltFullItems(s[..n], s[0].kind, s[0].level, depth);
      BuiltFull(s[n..], depth);
      FullMore(BuildLists(s, depth)[0], BuildLists(s[n..], depth));
    }
  }

  lemma {:induction false} BuiltFullItems<T>(s: seq<Paragraph<T>>, kind: ListKind, base: int, depth: nat)
    ensures FullItems(BuildItems(s, kind, base, depth))
    decreases |s|, 0
  {
    if s != [] {
      var n := Inside(s[1..], base, depth);
      BuiltFull(s[1..n + 1], depth + 1);
      BuiltFullItems(s[n + 1..], kind, base, depth);
      FullItemsMore(ItemOf(s[0], kind, BuildLists(s[1..n + 1], depth + 1)), BuildItems(s[n + 1..], kind, base, depth));
    }
  }

  // ---- Every list id stands at the first level ----

  ghost predicate AtTop<T>(s: seq<Paragraph<T>>, id: int) {
    exists i :: 0 <= i < |s| && s[i].level == 0 && s[i].numID == id
  }

  ghost predicate AllAtTop<T>(w: Written<T>, next: int) {
    && w.next >= next && (forall i | 0 <= i < |w.paragraphs| :: w.paragraphs[i].level >= 0)
    && forall id | next <= id < w.next :: AtTop(w.paragraphs, id)
  }

  lemma AtTopJoins<T>(a: Written<T>, b: Written<T>, next: int)
    requires AllAtTop(a, next) && AllAtTop(b, a.next)
    ensures AllAtTop(Written(a.paragraphs + b.paragraphs, b.next), next)
  {
    var s := a.paragraphs + b.paragraphs;
    forall id | next <= id < b.next
      ensures AtTop(s, id)
    {
      if id < a.next {
        assert AtTop(a.paragraphs, id);
        var i :| 0 <= i < |a.paragraphs| && a.paragraphs[i].level == 0 && a.paragraphs[i].numID == id;
        assert s[i] == a.paragraphs[i];
      } else {
        assert AtTop(b.paragraphs, id);
        var i :| 0 <= i < |b.paragraphs| && b.paragraphs[i].level == 0 && b.paragraphs[i].numID == id;
        assert s[|a.paragraphs| + i] == b.paragraphs[i];
      }
    }
  }

  lemma {:induction false} ListsAtTop<T>(lists: seq<Tree<T>>, outer: Option<Context>, next: int)
    requires FullLists(lists) && (outer.Some? ==> 0 <= outer.value.level)
    ensures AllAtTop(FlatLists(lists, outer, next), next)
    decreases lists, 1
  {
    if lists != [] {
      var n := |lists| - 1;
      ListsAtTop(lists[..n], outer, next);
      var before := FlatLists(lists[..n], outer, next);
      ListAtTop(lists[n], outer, before.next);
      AtTopJoins(before, FlatList(lists[n], outer, before.next), next);
    }
  }

  lemma {:induction false} ListAtTop<T>(list: Tree<T>, outer: Option<Context>, next: int)
    requires FullList(list) && (outer.Some? ==> 0 <= outer.value.level)
    ensures AllAtTop(FlatList(list, outer, next), next)
    decreases list
  {
    var (context, after) := ContextOf(outer, list.kind, next);
    ItemsAtTop(list.items, context, after);
    var s := FlatList(list, outer, next).paragraphs;
    assert s[0].numID == context.numID && s[0].level == context.level;
    if after > next { assert AtTop(s, next); }
  }

  lemma {:induction false} ItemsAtTop<T>(items: seq<ListItem<(), T>>, context: Context, next: int)
    requires FullItems(items) && 0 <= context.level
    ensures var w := FlatItems(items, context, next);
            && AllAtTop(w, next)
            && (items != [] ==> w.paragraphs != [] && w.paragraphs[0].numID == context.numID && w.paragraphs[0].level == context.level)
    decreases items
  {
    if items != [] {
      var n := |items| - 1;
      ItemsAtTop(items[..n], context, next);
      var before := FlatItems(items[..n], context, next);
      ListsAtTop(items[n].nested, Some(context), before.next);
      var own := Written([Paragraph(items[n].block, context.kind, context.numID, context.level, false)], before.next);
      AtTopJoins(own, FlatLists(items[n].nested, Some(context), before.next), before.next);
      AtTopJoins(before, FlatItem(items[n], context, before.next), next);
    }
  }

  /** A rebuilt stream has at least a list for every id at the first level. */
  lemma {:induction false} AListForEachId<T>(s: seq<Paragraph<T>>, ids: set<int>)
    requires (s != [] ==> s[0].level == 0) && forall i | 0 <= i < |s| :: s[i].level >= 0
    requires forall id | id in ids :: AtTop(s, id)
    ensures |ids| <= |BuildLists(s, 0)|
    decreases |s|
  {
    hide BuildItems;
    if s == [] {
      assert forall id :: id !in ids;
      assert ids == {};
    } else {
      var n := GroupEnd(s, s[0]);
      var others := ids - {s[0].numID};
      forall id | id in others
        ensures AtTop(s[n..], id)
      {
        assert AtTop(s, id);
        var i :| 0 <= i < |s| && s[i].level == 0 && s[i].numID == id;
        assert s[n..][i - n] == s[i];
      }
      AListForEachId(s[n..], others);
      assert ids <= others + {s[0].numID};
      SubsetSize(ids, others + {s[0].numID});
    }
  }

  function Ids(from: int, below: int): (r: set<int>)
    requires from <= below
    ensures |r| == below - from && forall id :: id in r <==> from <= id < below
    decreases below - from
  {
    if from == below then {} else Ids(from, below - 1) + {below - 1}
  }

  // ---- One id a list means one smooth stream a list ----

  function NestedContext(context: Context): Context {
    context.(level := if context.level + 1 > DEEPEST then DEEPEST else context.level + 1)
  }

  lemma SmoothBelow<T>(p: Paragraph<T>, nested: seq<Paragraph<T>>, context: Context)
    requires p == Paragraph(p.block, context.kind, context.numID, context.level, false) && context.level <= DEEPEST
    requires Smooth(nested, NestedContext(context))
    ensures Smooth([p] + nested, context)
  {
  }

  lemma {:induction false} QuietItems<T>(items: seq<ListItem<(), T>>, context: Context, next: int)
    requires FullItems(items) && 0 <= context.level <= DEEPEST && FlatItems(items, context, next).next == next
    ensures var w := FlatItems(items, context, next);
            Smooth(w.paragraphs, context) && (items != [] ==> w.paragraphs != [])
    decreases items
  {
    hide Smooth, AllAtTop;
    if items == [] {
      SmoothNothing<T>(context);
    } else {
      var n := |items| - 1;
      var before := FlatItems(items[..n], context, next);
      var last := FlatItem(items[n], context, before.next);
      ItemsAtTop(items[..n], context, next);
      ListsAtTop(items[n].nested, Some(context), before.next);
      NextGrows(before, next);
      NextGrows(FlatLists(items[n].nested, Some(context), before.next), before.next);
      QuietItems(items[..n], context, next);
      QuietLists(items[n].nested, context, next);
      SmoothBelow(last.paragraphs[0], FlatLists(items[n].nested, Some(context), next).paragraphs, context);
      SmoothJoins(before.paragraphs, last.paragraphs, context);
    }
  }

  lemma SmoothNothing<T>(context: Context)
    ensures Smooth<T>([], context)
  {
  }

  lemma NextGrows<T>(w: Written<T>, next: int)
    requires AllAtTop(w, next)
    ensures w.next >= next
  {
  }

  lemma {:induction false} QuietLists<T>(lists: seq<Tree<T>>, context: Context, next: int)
    requires FullLists(lists) && 0 <= context.level <= DEEPEST && FlatLists(lists, Some(context), next).next == next
    ensures Smooth(FlatLists(lists, Some(context), next).paragraphs, NestedContext(context))
    decreases lists
  {
    hide Smooth, AllAtTop;
    if lists == [] {
      SmoothNothing<T>(NestedContext(context));
    } else {
      var n := |lists| - 1;
      var before := FlatLists(lists[..n], Some(context), next);
      ListsAtTop(lists[..n], Some(context), next);
      NextGrows(before, next);
      ListAtTop(lists[n], Some(context), before.next);
      var (inner, after) := ContextOf(Some(context), lists[n].kind, before.next);
      ItemsAtTop(lists[n].items, inner, after);
      NextGrows(FlatItems(lists[n].items, inner, after), after);
      QuietLists(lists[..n], context, next);
      QuietItems(lists[n].items, inner, after);
      SmoothJoins(before.paragraphs, FlatList(lists[n], Some(context), before.next).paragraphs, NestedContext(context));
    }
  }

  /** Every top list takes an id, and takes only one exactly when it is a single stream. */
  lemma {:induction false} OneIdEach<T>(lists: seq<Tree<T>>, next: int)
    requires FullLists(lists) && forall l | l in lists :: !l.kind.Task?
    ensures var w := FlatLists(lists, None, next);
            && w.next >= next + |lists|
            && (w.next == next + |lists| ==> forall i | 0 <= i < |lists| :: Single(lists[i], next + i))
    decreases |lists|
  {
    hide Smooth, AllAtTop;
    if lists != [] {
      var n := |lists| - 1;
      var l := lists[n];
      OneIdEach(lists[..n], next);
      var id := FlatLists(lists[..n], None, next).next;
      var context := Context(id, 0, l.kind);
      ItemsAtTop(l.items, context, id + 1);
      NextGrows(Alone(l, id), id + 1);
      if Alone(l, id).next == id + 1 {
        QuietItems(l.items, context, id + 1);
      }
    }
  }

  lemma {:induction false} TopStarts<T>(lists: seq<Tree<T>>, next: int)
    requires FullLists(lists)
    ensures var s := FlatLists(lists, None, next).paragraphs; s != [] ==> s[0].level == 0
    decreases |lists|
  {
    if lists != [] {
      var n := |lists| - 1;
      TopStarts(lists[..n], next);
      var id := FlatLists(lists[..n], None, next).next;
      ItemsAtTop(lists[n].items, Context(id, 0, lists[n].kind), id + 1);
    }
  }

  lemma OnlyFaithful<T>(lists: seq<Tree<T>>, next: int)
    requires forall l | l in lists :: !l.kind.Task?
    requires BuildLists(FlatLists(lists, None, next).paragraphs, 0) == lists
    ensures forall l | l in lists :: Faithful(l, NINE)
  {
    hide BuildLists, FlatLists, Single, Faithful;
    var w := FlatLists(lists, None, next);
    BuiltFull(w.paragraphs, 0);
    ListsAtTop(lists, None, next);
    TopStarts(lists, next);
    AListForEachId(w.paragraphs, Ids(next, w.next));
    OneIdEach(lists, next);
    SinglesRebuilt(lists, next);
  }

  /** Lists come back from Word exactly when each is of one kind throughout, at most
      nine levels deep, with one list at most inside an item, and none is empty. */
  lemma ComeBackExactly<T>(lists: seq<Tree<T>>, next: int)
    requires Exportable(lists)
    ensures BuildLists(FlatLists(lists, None, next).paragraphs, 0) == lists <==> forall l | l in lists :: Faithful(l, NINE)
  {
    hide BuildLists, FlatLists, Faithful;
    if forall l | l in lists :: Faithful(l, NINE) {
      FaithfulComesBack(lists, next);
    }
    if BuildLists(FlatLists(lists, None, next).paragraphs, 0) == lists {
      OnlyFaithful(lists, next);
    }
  }
}
