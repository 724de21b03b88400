/** Lists written to Word and rebuilt: exactly when they come back. */
module ListRoundTrip {
  import opened Text
  import opened ListRebuilding
  import opened ListFlattening

  const NINE := 9

  /** Every list has items, every item at most one list inside, of the same kind,
      and no more than so many levels. */
  ghost predicate Faithful<T>(list: Tree<T>, room: nat)
    decreases list
  {
    room > 0 && list.items != [] && !list.kind.Task? && FaithfulItems(list.items, list.kind, room)
  }

  ghost predicate FaithfulItems<T>(items: seq<ListItem<(), T>>, kind: ListKind, room: nat)
    requires room > 0
    decreases items
  {
    items == [] || (FaithfulItem(items[0], kind, room) && FaithfulItems(items[1..], kind, room))
  }

  ghost predicate FaithfulItem<T>(item: ListItem<(), T>, kind: ListKind, room: nat)
    requires room > 0
    decreases item
  {
    !item.checked && |item.nested| <= 1
    && (item.nested != [] ==> item.nested[0].kind == kind && Faithful(item.nested[0], room - 1))
  }

  // ---- Streams of one list ----

  /** The paragraphs of one list: one numbering, starting at its level, never two
      levels deeper at once. */
  ghost predicate Smooth<T>(s: seq<Paragraph<T>>, context: Context) {
    && (s != [] ==> s[0].level == context.level)
    && (forall i | 0 <= i < |s| ::
          s[i].numID == context.numID && s[i].kind == context.kind && !s[i].checked && context.level <= s[i].level <= DEEPEST)
    && (forall i | 0 < i < |s| :: s[i].level <= s[i - 1].level + 1)
  }

  function Deeper(context: Context): Context {
    context.(level := context.level + 1)
  }

  lemma SmoothNested<T>(s: seq<Paragraph<T>>, context: Context, n: nat)
    requires s != [] && Smooth(s, context) && n == NestedEnd(s[1..], context.level)
    ensures Smooth(s[1..n + 1], Deeper(context)) && Smooth(s[n + 1..], context)
    ensures n > 0 ==> context.level < DEEPEST
  {
    assert n > 0 ==> s[1].level <= s[0].level + 1;
  }

  lemma SmoothOneGroup<T>(s: seq<Paragraph<T>>, context: Context, rest: seq<Paragraph<T>>)
    requires s != [] && Smooth(s, context) && (rest != [] ==> Ends(rest[0], s[0]))
    ensures GroupEnd(s + rest, s[0]) == |s|
  {
    assert forall i | 0 <= i < |s| :: !Ends((s + rest)[i], s[0]);
    assert rest != [] ==> Ends((s + rest)[|s|], s[0]);
  }

  /** What such a stream is rebuilt into. */
  lemma {:induction false} SmoothIsOneList<T>(s: seq<Paragraph<T>>, context: Context, depth: nat)
    requires s != [] && Smooth(s, context) && depth <= context.level <= DEEPEST && !context.kind.Task?
    ensures var items := BuildItems(s, context.kind, context.level, depth);
            && BuildLists(s, depth) == [ListNode((), context.kind, items)]
            && Faithful(ListNode((), context.kind, items), NINE - context.level)
    decreases |s|, 1
  {
    SmoothOneGroup(s, context, []);
    assert s + [] == s && s[..|s|] == s && s[|s|..] == [];
    SmoothIsFaithful(s, context, depth);
    NothingLeft(s[|s|..], context.kind, context.level, depth);
  }

  lemma {:induction false} SmoothIsFaithful<T>(s: seq<Paragraph<T>>, context: Context, depth: nat)
    requires Smooth(s, context) && depth <= context.level <= DEEPEST && !context.kind.Task?
    ensures var items := BuildItems(s, context.kind, context.level, depth);
            FaithfulItems(items, context.kind, NINE - context.level) && (s != [] ==> items != [])
    decreases |s|, 0
  {
    if s != [] {
      hide BuildLists, Smooth;
      var n := NestedEnd(s[1..], context.level);
      SmoothNested(s, context, n);
      assert n == Inside(s[1..], context.level, depth);
      if n > 0 {
        SmoothIsOneList(s[1..n + 1], Deeper(context), depth + 1);
      } else {
        NothingLeft(s[1..1], context.kind, context.level, depth + 1);
      }
      SmoothIsFaithful(s[n + 1..], context, depth);
      var items := BuildItems(s, context.kind, context.level, depth);
      var first := ItemOf(s[0], context.kind, BuildLists(s[1..n + 1], depth + 1));
      assert items[0] == first && items[1..] == BuildItems(s[n + 1..], context.kind, context.level, depth);
      assert FaithfulItem(first, context.kind, NINE - context.level);
    }
  }

  // ---- Faithful lists come back ----

  lemma SmoothJoins<T>(a: seq<Paragraph<T>>, b: seq<Paragraph<T>>, context: Context)
    requires Smooth(a, context) && Smooth(b, context)
    ensures Smooth(a + b, context)
  {
  }

  lemma {:induction false} FaithfulIsSmooth<T>(items: seq<ListItem<(), T>>, context: Context, next: int)
    requires 0 <= context.level <= DEEPEST && !context.kind.Task? && FaithfulItems(items, context.kind, NINE - context.level)
    ensures var w := FlatItems(items, context, next);
            && w.next == next && Smooth(w.paragraphs, context) && (items != [] ==> w.paragraphs != [])
    decreases items, 1
  {
    if items != [] {
      var n := |items| - 1;
      FaithfulParts(items, context.kind, NINE - context.level);
      FaithfulIsSmooth(items[..n], context, next);
      FaithfulItemIsSmooth(items[n], context, next);
      SmoothJoins(FlatItems(items[..n], context, next).paragraphs, FlatItem(items[n], context, next).paragraphs, context);
    }
  }

  lemma {:induction false} FaithfulParts<T>(items: seq<ListItem<(), T>>, kind: ListKind, room: nat)
    requires items != [] && room > 0 && FaithfulItems(items, kind, room)
    ensures FaithfulItems(items[..|items| - 1], kind, room) && FaithfulItem(items[|items| - 1], kind, room)
  {
    if |items| > 1 {
      FaithfulParts(items[1..], kind, room);
      assert items[1..][..|items| - 2] == items[..|items| - 1][1..];
    }
  }

  lemma FlatSingle<T>(list: Tree<T>, outer: Option<Context>, next: int)
    ensures FlatLists([list], outer, next) == FlatList(list, outer, next)
  {
    assert [list][..0] == [];
    assert FlatLists([list][..0], outer, next) == Written([], next);
    var w := FlatList(list, outer, next);
    assert [] + w.paragraphs == w.paragraphs;
  }

  lemma SmoothUnder<T>(p: Paragraph<T>, nested: seq<Paragraph<T>>, context: Context)
    requires p == Paragraph(p.block, context.kind, context.numID, context.level, false) && context.level <= DEEPEST
    requires Smooth(nested, Deeper(context))
    ensures Smooth([p] + nested, context) && NestedEnd(nested, context.level) == |nested|
  {
    assert forall i | 0 <= i < |nested| :: nested[i].level > context.level;
  }

  lemma {:induction false} FaithfulItemIsSmooth<T>(item: ListItem<(), T>, context: Context, next: int)
    requires 0 <= context.level <= DEEPEST && !context.kind.Task? && FaithfulItem(item, context.kind, NINE - context.level)
    ensures var w := FlatItem(item, context, next);
            && w.next == next && Smooth(w.paragraphs, context) && w.paragraphs != []
            && w.paragraphs[0] == Paragraph(item.block, context.kind, context.numID, context.level, false)
            && NestedEnd(w.paragraphs[1..], context.level) == |w.paragraphs| - 1
            && w.paragraphs[1..] == FlatLists(item.nested, Some(context), next).paragraphs
            && (item.nested == [] ==> |w.paragraphs| == 1)
            && (item.nested != [] ==> FlatLists(item.nested, Some(context), next) == FlatItems(item.nested[0].items, Deeper(context), next))
    decreases item, 0
  {
    var w := FlatItem(item, context, next);
    var nested := FlatLists(item.nested, Some(context), next).paragraphs;
    if item.nested != [] {
      assert item.nested == [item.nested[0]];
      FlatSingle(item.nested[0], Some(context), next);
      FaithfulIsSmooth(item.nested[0].items, Deeper(context), next);
    }
    assert w.paragraphs[1..] == nested;
    SmoothUnder(w.paragraphs[0], nested, context);
  }

  /** The items of a faithful list are rebuilt. */
  lemma {:induction false} ItemsComeBack<T>(items: seq<ListItem<(), T>>, context: Context, next: int, depth: nat)
    requires depth <= context.level <= DEEPEST && !context.kind.Task? && FaithfulItems(items, context.kind, NINE - context.level)
    ensures BuildItems(FlatItems(items, context, next).paragraphs, context.kind, context.level, depth) == items
    decreases items, 1
  {
    hide Smooth, FaithfulItems, FaithfulItem, BuildLists, FlatItem;
    if items == [] {
      NothingLeft<T>([], context.kind, context.level, depth);
    } else {
      hide BuildItems;
      var n := |items| - 1;
      FaithfulParts(items, context.kind, NINE - context.level);
      ItemsComeBack(items[..n], context, next, depth);
      FaithfulIsSmooth(items[..n], context, next);
      FaithfulItemIsSmooth(items[n], context, next);
      var last := FlatItem(items[n], context, next).paragraphs;
      ItemComesBack(items[n], context, next, depth);
      LastItemApart(FlatItems(items[..n], context, next).paragraphs, last, context.kind, context.level, depth);
      assert items == items[..n] + [items[n]];
    }
  }

  lemma {:induction false} ItemComesBack<T>(item: ListItem<(), T>, context: Context, next: int, depth: nat)
    requires depth <= context.level <= DEEPEST && !context.kind.Task? && FaithfulItem(item, context.kind, NINE - context.level)
    ensures BuildItems(FlatItem(item, context, next).paragraphs, context.kind, context.level, depth) == [item]
    decreases item, 0
  {
    hide Smooth, BuildLists, BuildItems, FlatItem, FlatItems, FlatLists;
    OneUnit(item.id);
    FaithfulItemIsSmooth(item, context, next);
    var s := FlatItem(item, context, next).paragraphs;
    var n := |s| - 1;
    assert s[1..n + 1] == s[1..] && s[n + 1..] == [];
    NothingLeft(s[n + 1..], context.kind, context.level, depth);
    if item.nested != [] { NotDeepest(item, context); }
    OneMoreItem(s, 0, context.kind, context.level, depth);
    assert s[0..] == s;
    if item.nested != [] {
      var list := item.nested[0];
      ItemsComeBack(list.items, Deeper(context), next, depth + 1);
      FaithfulIsSmooth(list.items, Deeper(context), next);
      SmoothIsOneList(s[1..], Deeper(context), depth + 1);
      OneUnit(list.id);
    } else {
      NothingLeft(s[1..], context.kind, context.level, depth + 1);
    }
  }

  lemma OneUnit(u: ())
    ensures u == ()
  {
    match u case () => {}
  }

  lemma NotDeepest<T>(item: ListItem<(), T>, context: Context)
    requires context.level <= DEEPEST && FaithfulItem(item, context.kind, NINE - context.level) && item.nested != []
    ensures context.level < DEEPEST && FaithfulItems(item.nested[0].items, context.kind, NINE - context.level - 1)
    ensures item.nested[0].kind == context.kind && item.nested == [item.nested[0]] && item.nested[0].items != []
  {
  }

  /** An item that starts at the list's own level does not touch the ones before it. */
  lemma {:induction false} LastItemApart<T>(s: seq<Paragraph<T>>, last: seq<Paragraph<T>>, kind: ListKind, base: int, depth: nat)
    requires last != [] && last[0].level == base
    ensures BuildItems(s + last, kind, base, depth) == BuildItems(s, kind, base, depth) + BuildItems(last, kind, base, depth)
    decreases |s|
  {
    hide BuildLists, BuildItems, ItemOf, NestedEnd, Inside;
    if s == [] {
      assert s + last == last;
      NothingLeft(s, kind, base, depth);
    } else {
      var all := s + last;
      assert all[1..] == s[1..] + last;
      InsideStops(s[1..], last, base, depth);
      var k := Inside(s[1..], base, depth);
      LastItemApart(s[k + 1..], last, kind, base, depth);
      assert all[1..k + 1] == s[1..k + 1] && all[k + 1..] == s[k + 1..] + last;
      assert s[0..] == s && all[0..] == all;
      OneMoreItem(s, 0, kind, base, depth);
      OneMoreItem(all, 0, kind, base, depth);
      var first := [ItemOf(s[0], kind, BuildLists(s[1..k + 1], depth + 1))];
      var rest, own := BuildItems(s[k + 1..], kind, base, depth), BuildItems(last, kind, base, depth);
      assert first + (rest + own) == first + rest + own;
    }
  }

  lemma InsideStops<T>(s: seq<Paragraph<T>>, last: seq<Paragraph<T>>, base: int, depth: nat)
    requires last != [] && last[0].level == base
    ensures Inside(s + last, base, depth) == Inside(s, base, depth)
  {
    NestedEndStops(s, last, base);
  }

  lemma {:induction false} NestedEndStops<T>(s: seq<Paragraph<T>>, last: seq<Paragraph<T>>, base: int)
    requires last != [] && last[0].level == base
    ensures NestedEnd(s + last, base) == NestedEnd(s, base)
  {
    if s == [] {
      assert s + last == last;
    } else {
      assert (s + last)[1..] == s[1..] + last;
      NestedEndStops(s[1..], last, base);
    }
  }

  // ---- Several lists ----

  /** Levels from the first on, list ids below some bound, the start at the first level. */
  ghost predicate TopStream<T>(s: seq<Paragraph<T>>, below: int) {
    (s != [] ==> s[0].level == 0) && forall i | 0 <= i < |s| :: s[i].level >= 0 && s[i].numID < below
  }

  lemma {:induction false} GroupEndStops<T>(s: seq<Paragraph<T>>, last: seq<Paragraph<T>>, first: Paragraph<T>)
    requires last != [] && Ends(last[0], first)
    ensures GroupEnd(s + last, first) == GroupEnd(s, first)
  {
    if s == [] {
      assert s + last == last;
    } else {
      assert (s + last)[1..] == s[1..] + last;
      GroupEndStops(s[1..], last, first);
    }
  }

  /** A stream with a list id of its own is rebuilt on its own. */
  lemma {:induction false} StreamsApart<T>(s: seq<Paragraph<T>>, last: seq<Paragraph<T>>, id: int)
    requires TopStream(s, id) && last != [] && last[0].level == 0 && last[0].numID == id
    ensures BuildLists(s + last, 0) == BuildLists(s, 0) + BuildLists(last, 0)
    decreases |s|
  {
    hide BuildItems, BuildLists, GroupEnd;
    if s == [] {
      assert s + last == last;
      NothingLeft(s, Bullet, 0, 0);
    } else {
      var all, n := s + last, GroupEnd(s, s[0]);
      GroupEndStops(s, last, s[0]);
      assert s[0..] == s && all[0..] == all;
      OneMoreList(s, 0, 0);
      OneMoreList(all, 0, 0);
      assert all[..n] == s[..n] && all[n..] == s[n..] + last && all[0..n] == s[0..n];
      StreamsApart(s[n..], last, id);
      var first := [ListNode((), s[0].kind, BuildItems(s[0..n], s[0].kind, s[0].level, 0))];
      var rest, own := BuildLists(s[n..], 0), BuildLists(last, 0);
      assert first + (rest + own) == first + rest + own;
    }
  }

  /** The stream of a list at the top under its own id. */
  function Alone<T>(l: Tree<T>, id: int): Written<T> {
    FlatItems(l.items, Context(id, 0, l.kind), id + 1)
  }

  ghost predicate Single<T>(l: Tree<T>, id: int) {
    && !l.kind.Task? && Alone(l, id).next == id + 1 && Alone(l, id).paragraphs != []
    && Smooth(Alone(l, id).paragraphs, Context(id, 0, l.kind))
  }

  function Rebuilt<T>(l: Tree<T>, id: int): Tree<T> {
    ListNode((), l.kind, BuildItems(Alone(l, id).paragraphs, l.kind, 0, 0))
  }

  lemma TopStreamOneMore<T>(s: seq<Paragraph<T>>, own: seq<Paragraph<T>>, context: Context)
    requires TopStream(s, context.numID) && Smooth(own, context) && context.level == 0
    ensures TopStream(s + own, context.numID + 1)
  {
    assert forall i | 0 <= i < |s + own| :: (s + own)[i] == if i < |s| then s[i] else own[i - |s|];
  }

  lemma {:induction false} SinglesRebuilt<T>(lists: seq<Tree<T>>, next: int)
    requires forall i | 0 <= i < |lists| :: Single(lists[i], next + i)
    ensures var w := FlatLists(lists, None, next);
            && w.next == next + |lists| && TopStream(w.paragraphs, w.next)
            && |BuildLists(w.paragraphs, 0)| == |lists|
            && forall i | 0 <= i < |lists| ::
                 BuildLists(w.paragraphs, 0)[i] == Rebuilt(lists[i], next + i) && Faithful(Rebuilt(lists[i], next + i), NINE)
    decreases |lists|
  {
    hide BuildLists, BuildItems, FlatItems, Faithful, Smooth, TopStream;
    if lists == [] {
      NothingLeft<T>([], Bullet, 0, 0);
      assert TopStream<T>([], next) by { EmptyTop<T>(next); }
    } else {
      var n := |lists| - 1;
      var l, id := lists[n], next + n;
      assert Single(l, id);
      SinglesRebuilt(lists[..n], next);
      var context := Context(id, 0, l.kind);
      var own := Alone(l, id).paragraphs;
      SmoothStarts(own, context);
      SmoothIsOneList(own, context, 0);
      var before := FlatLists(lists[..n], None, next).paragraphs;
      StreamsApart(before, own, id);
      TopStreamOneMore(before, own, context);
    }
  }

  lemma EmptyTop<T>(below: int)
    ensures TopStream<T>([], below)
  {
  }

  lemma SmoothStarts<T>(s: seq<Paragraph<T>>, context: Context)
    requires s != [] && Smooth(s, context)
    ensures s[0].level == context.level && s[0].numID == context.numID
  {
  }

  lemma FaithfulComesBack<T>(lists: seq<Tree<T>>, next: int)
    requires forall l | l in lists :: Faithful(l, NINE)
    ensures BuildLists(FlatLists(lists, None, next).paragraphs, 0) == lists
  {
    hide BuildLists, BuildItems, FlatItems, FlatLists, Smooth, TopStream, FaithfulItems;
    forall i | 0 <= i < |lists|
      ensures Single(lists[i], next + i) && Rebuilt(lists[i], next + i) == lists[i]
    {
      var l, id := lists[i], next + i;
      assert Faithful(l, NINE);
      OneUnit(l.id);
      FaithfulIsSmooth(l.items, Context(id, 0, l.kind), id + 1);
      ItemsComeBack(l.items, Context(id, 0, l.kind), id + 1, 0);
    }
    SinglesRebuilt(lists, next);
  }
}
