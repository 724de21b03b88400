/** Lists, and the round trip of whole documents. */
module MarkdownTheorem {
  import opened Text
  import opened MarkdownSyntax
  import opened MarkdownBlocks
  import opened MarkdownColumns
  import opened MarkdownRoundTrip
  import opened MarkdownReadBack

  // ---- Markers ----

  /** What a printed marker reads as. */
  function Marker(kind: ListKind, number: nat, checked: bool, head: string): ListMarker {
    match kind
    case Bullet => ListMarker(0, 2, false, 0, '-', head)
    case Ordered => ListMarker(0, |Itoa(number)| + 2, true, number, '.', head)
    case Task => ListMarker(0, 2, false, 0, '-', (if checked then "[x] " else "[ ] ") + head)
  }

  predicate Unindented(head: string) {
    head == "" || (head[0] != ' ' && head[0] != '\t')
  }

  lemma DashBack(content: string)
    requires Unindented(content) && !IsThematicBreak("- " + content)
    ensures ParseListMarker("- " + content) == Some(ListMarker(0, 2, false, 0, '-', content))
  {
    var line := "- " + content;
    TrimLeftNothing(line, {' ', '\t'});
    assert line[1..] == " " + content;
    assert (" " + content)[1..] == content;
    TrimLeftNothing(content, {' ', '\t'});
  }

  lemma {:induction false} CountDigitsOf(digits: string, tail: string)
    requires forall i | 0 <= i < |digits| :: IsDigit(digits[i])
    requires tail != "" && !IsDigit(tail[0])
    ensures CountDigits(digits + tail) == |digits|
  {
    var s := digits + tail;
    if digits == "" {
      assert s == tail;
    } else {
      assert s[1..] == digits[1..] + tail;
      CountDigitsOf(digits[1..], tail);
    }
  }

  lemma OneSpaceTrimmed(head: string)
    requires Unindented(head)
    ensures TrimLeft(" " + head, {' ', '\t'}) == head
  {
    assert (" " + head)[1..] == head;
    TrimLeftNothing(head, {' ', '\t'});
  }

  lemma OrderedMarkerOf(line: string, n: nat, rest: string)
    requires CountDigits(line) == n && 0 < n <= 9 && n + 1 < |line| && line[n] == '.' && line[n + 1] == ' '
    requires TrimLeft(line[n + 1..], {' ', '\t'}) == rest && forall i | 0 <= i < n :: IsDigit(line[i])
    ensures OrderedMarker(line, 0) == Some(ListMarker(0, |line| - |rest|, true, Atoi(line[..n]), '.', rest))
  {
    hide CountDigits, TrimLeft, Atoi;
  }

  lemma OrderedMarkerBack(digits: string, head: string)
    requires 0 < |digits| <= 9 && (forall i | 0 <= i < |digits| :: IsDigit(digits[i])) && Unindented(head)
    ensures OrderedMarker(digits + ". " + head, 0)
         == Some(ListMarker(0, |digits| + 2, true, Atoi(digits), '.', head))
  {
    hide Atoi, IsSpace, CountDigits, TrimLeft, OrderedMarker;
    var line, n := digits + ". " + head, |digits|;
    assert line == digits + (". " + head);
    CountDigitsOf(digits, ". " + head);
    assert line[..n] == digits && line[n + 1..] == " " + head;
    OneSpaceTrimmed(head);
    OrderedMarkerOf(line, n, head);
  }

  lemma NumberBack(number: nat, head: string)
    requires number < 1_000_000_000 && Unindented(head)
    ensures ParseListMarker(Itoa(number) + ". " + head)
         == Some(ListMarker(0, |Itoa(number)| + 2, true, number, '.', head))
  {
    var line := Itoa(number) + ". " + head;
    assert line[0] == Itoa(number)[0];
    OtherThan(line);
    TrimLeftNothing(line, {' ', '\t'});
    NineDigits();
    ItoaLength(number, 9);
    OrderedMarkerBack(Itoa(number), head);
    AtoiItoa(number);
  }

  lemma NineDigits()
    ensures Pow10(9) == 1_000_000_000
  {
    assert Pow10(3) == 1000;
    assert Pow10(6) == 1_000_000;
  }

  lemma MarkerBack(kind: ListKind, number: nat, checked: bool, head: string)
    requires Unindented(head) && !IsThematicBreak(MarkerText(kind, number, checked) + head)
    requires kind == Ordered ==> number < 1_000_000_000
    ensures ParseListMarker(MarkerText(kind, number, checked) + head) == Some(Marker(kind, number, checked, head))
  {
    match kind {
      case Bullet => DashBack(head);
      case Ordered => NumberBack(number, head);
      case Task =>
        var box := if checked then "[x] " else "[ ] ";
        assert MarkerText(kind, number, checked) + head == "- " + (box + head);
        DashBack(box + head);
    }
  }

  lemma MarkerHead(kind: ListKind, number: nat, checked: bool, head: string)
    ensures var line := MarkerText(kind, number, checked) + head;
            && line != "" && !IsSpace(line[0]) && HeadOk(line)
            && line[0] != '`' && line[0] != '~' && line[0] != '#' && line[0] != '>' && line[0] != '*' && line[0] != '_'
  {
    VisibleHeadOk(MarkerText(kind, number, checked) + head);
  }

  /** A printed marker at some column. */
  lemma MarkerBackAt(kind: ListKind, number: nat, checked: bool, head: string, column: nat)
    requires Unindented(head) && !IsThematicBreak(MarkerText(kind, number, checked) + head) && column <= 8
    requires kind == Ordered ==> number < 1_000_000_000
    ensures var m := Marker(kind, number, checked, head);
            ParseListMarker(At(column, MarkerText(kind, number, checked) + head))
            == Some(m.(indent := column, contentIndent := m.contentIndent + column))
  {
    hide ParseListMarker, IsThematicBreak, MarkerText, HeadOk;
    MarkerHead(kind, number, checked, head);
    MarkerBack(kind, number, checked, head);
    MarkerAt(column, MarkerText(kind, number, checked) + head);
  }

  lemma TaskBack(checked: bool, head: string)
    requires Unindented(head)
    ensures TaskMarker((if checked then "[x] " else "[ ] ") + head) == Some(TaskLine(checked, head))
  {
    var content := (if checked then "[x] " else "[ ] ") + head;
    assert content[3..] == " " + head && (" " + head)[1..] == head;
    TrimLeftNothing(head, {' ', '\t'});
  }

  // ---- The body of an item ----

  /** Text after which the body of an item ends, whose content stands at "width". */
  predicate Stops(rest: seq<string>, width: nat) {
    || rest == [] || rest == [""]
    || (rest[0] == "" && |rest| > 1 && !Blank(rest[1]) && IndentOf(rest[1]) < width)
    || (!Blank(rest[0]) && IndentOf(rest[0]) < width && StartsNewBlock(rest[0]))
  }

  /** Lines after an item's first: nothing, or blank lines that are empty and a
      visible last line. */
  predicate TidyTail(lines: seq<string>) {
    lines == [] || ((Blank(lines[0]) ==> lines[0] == "" && |lines| > 1) && TidyTail(lines[1..]))
  }

  lemma ScanBodyStops(rest: seq<string>, width: nat)
    requires width > 0 && Stops(rest, width)
    ensures ScanBody(rest, width) == (Swallowed(rest), |Swallowed(rest)|)
  {
    hide StartsNewBlock;
    BlankIsNothing();
    if rest == [""] {
      assert rest[1..] == [];
      assert ScanBody([], width) == ([], 0);
      assert [""] + [] == [""];
    }
  }

  /** One printed line of an item's body, read back. */
  lemma ScanBodyStep(line: string, more: seq<string>, column: nat, width: nat)
    requires 0 < width <= column && (Blank(line) ==> line == "")
    requires Blank(line) ==> more == [] || Blank(more[0]) || IndentOf(more[0]) >= width
    ensures var printed := if Blank(line) then "" else At(column, line);
            var kept := if Blank(line) then "" else At(column - width, line);
            && ScanBody([printed] + more, width).0 == [kept] + ScanBody(more, width).0
            && ScanBody([printed] + more, width).1 == 1 + ScanBody(more, width).1
  {
    hide ParseListMarker, StartsNewBlock, Blank, At;
    BlankIsNothing();
    TrimSpaceAt(column, line);
    TrimIndentAt(column, width, line);
    IndentOfAt(column, line);
    var printed := if Blank(line) then "" else At(column, line);
    assert ([printed] + more)[1..] == more;
  }

  lemma IndentedHead(column: nat, lines: seq<string>, rest: seq<string>)
    requires lines != []
    ensures var all := Indented(column, lines) + rest;
            Blank(all[0]) || IndentOf(all[0]) >= column
  {
    hide Blank;
    BlankIsNothing();
    IndentOfAt(column, lines[0]);
  }

  /** The indentation of an item's later lines is undone as far as the item's own
      content indent; what was printed beyond it stays. */
  lemma ScanBodyBack(lines: seq<string>, column: nat, width: nat, rest: seq<string>)
    requires 0 < width <= column && TidyTail(lines) && Stops(rest, width)
    ensures ScanBody(Indented(column, lines) + rest, width)
         == (Indented(column - width, lines) + Swallowed(rest), |lines| + |Swallowed(rest)|)
  {
    hide ScanBody, Indented, Stops, TidyTail;
    ScanBodyParts(lines, column, width, rest);
  }

  lemma {:induction false} ScanBodyParts(lines: seq<string>, column: nat, width: nat, rest: seq<string>)
    requires 0 < width <= column && TidyTail(lines) && Stops(rest, width)
    ensures ScanBody(Indented(column, lines) + rest, width).0 == Indented(column - width, lines) + Swallowed(rest)
    ensures ScanBody(Indented(column, lines) + rest, width).1 == |lines| + |Swallowed(rest)|
  {
    hide ParseListMarker, StartsNewBlock, Blank, ScanBody, Stops, Swallowed, Indented, At;
    if lines == [] {
      NothingIndented(column, rest);
      NothingIndented(column - width, Swallowed(rest));
      ScanBodyStops(rest, width);
    } else {
      var more := Indented(column, lines[1..]) + rest;
      if |lines| > 1 { IndentedHead(column, lines[1..], rest); } else { NothingIndented(column, rest); }
      IndentedFirst(column, lines, rest);
      IndentedFirst(column - width, lines, Swallowed(rest));
      ScanBodyStep(lines[0], more, column, width);
      ScanBodyParts(lines[1..], column, width, rest);
    }
  }

  lemma IndentedFirst(column: nat, lines: seq<string>, rest: seq<string>)
    requires lines != []
    ensures Indented(column, lines) + rest
         == [if Blank(lines[0]) then "" else At(column, lines[0])] + (Indented(column, lines[1..]) + rest)
  {
  }

  // ---- Whole lists ----

  /** The content of an item as the scanner hands it on: the first line behind the
      marker, the others "extra" columns in. */
  function Hung(extra: nat, inner: seq<string>): (r: seq<string>)
    requires inner != []
    ensures |r| == |inner|
  {
    [inner[0]] + Indented(extra, inner[1..])
  }

  lemma HungIsMoved(extra: nat, inner: seq<string>)
    requires inner != []
    ensures Hung(extra, inner) == Moved(0, extra, inner)
  {
    AtMargin(inner[0]);
  }

  /** The raw items the scanner finds. The first may hang further than the others. */
  function RawItems<T>(
      kind: ListKind, number: nat, items: seq<Item<T>>, extra: nat, tail: seq<string>, show: seq<T> -> string): (r: seq<RawItem>)
    ensures |r| == |items|
    decreases |items|
  {
    if items == [] then []
    else
      var inner := Inner(items[0].blocks, show);
      [FirstOfItem(Marker(kind, number, items[0].checked, inner[0]).content,
                   Indented(extra + ExtraOf(kind), inner[1..]) + (if |items| == 1 then tail else []))]
      + RawItems(kind, number + 1, items[1..], 0, tail, show)
  }

  lemma InnerTail(inner: seq<string>)
    requires inner == [""] || Tidy(inner)
    ensures Unindented(inner[0]) && TidyTail(inner[1..])
  {
    if Tidy(inner) { TidyTailFrom(inner, 1); }
  }

  lemma {:induction false} TidyTailFrom(inner: seq<string>, i: nat)
    requires Tidy(inner) && i <= |inner|
    ensures TidyTail(inner[i..])
    decreases |inner| - i
  {
    if i < |inner| {
      TidyTailFrom(inner, i + 1);
      assert inner[i] in inner && inner[i..][1..] == inner[i + 1..];
    }
  }

  /** An item that the marker leaves an item: numbered as the parser counts, and no rule. */
  predicate Marks(kind: ListKind, number: nat, checked: bool, head: string) {
    !IsThematicBreak(MarkerText(kind, number, checked) + head) && (kind == Ordered ==> number < 1_000_000_000)
  }

  /** The width of a printed marker and the width the parser sees. */
  lemma MarkerWidths(kind: ListKind, number: nat, checked: bool, head: string)
    ensures |MarkerText(kind, number, checked)| == ContentColumn(kind, number) + ExtraOf(kind)
    ensures Marker(kind, number, checked, head).contentIndent == ContentColumn(kind, number)
  {
  }

  /** One printed item, its marker at column "at" and its other lines behind "column". */
  function ItemAt(at: nat, column: nat, marker: string, inner: seq<string>): seq<string>
    requires inner != []
  {
    [At(at, marker + inner[0])] + Indented(column + |marker|, inner[1..])
  }

  lemma {:induction false} IndentedTwice(a: nat, b: nat, lines: seq<string>)
    ensures Indented(a, Indented(b, lines)) == Indented(a + b, lines)
  {
    hide Blank;
    if lines != [] {
      var more := Indented(b, lines[1..]);
      IndentedTwice(a, b, lines[1..]);
      if Blank(lines[0]) {
        IndentedBlank(a, more);
      } else {
        TrimSpaceAt(b, lines[0]);
        AtFurther(a, b, lines[0]);
        IndentedCons(a, At(b, lines[0]), more);
      }
    }
  }

  lemma ItemMoved(at: nat, column: nat, marker: string, inner: seq<string>)
    requires inner != []
    ensures Moved(at, column, ItemLines(marker, inner)) == ItemAt(at, column, marker, inner)
  {
    var lines := ItemLines(marker, inner);
    assert lines[1..] == Indented(|marker|, inner[1..]);
    IndentedTwice(column, |marker|, inner[1..]);
  }

  /** What one item's scan needs: the marker within reach, and the lines after it stop it. */
  lemma ScanItemBack(
    kind: ListKind, number: nat, checked: bool, inner: seq<string>, at: nat, column: nat, after: seq<string>)
    requires |inner| > 0 && Unindented(inner[0]) && TidyTail(inner[1..]) && Marks(kind, number, checked, inner[0])
    requires at <= column && at <= 8 && Stops(after, at + ContentColumn(kind, number))
    ensures var m := Marker(kind, number, checked, inner[0]);
            var marker := m.(indent := at, contentIndent := m.contentIndent + at);
            var lines := ItemAt(at, column, MarkerText(kind, number, checked), inner) + after;
            && ParseListMarker(lines[0]) == Some(marker)
            && ScanBody(lines[1..], marker.contentIndent)
            == (Indented(column - at + ExtraOf(kind), inner[1..]) + Swallowed(after), |inner| - 1 + |Swallowed(after)|)
  {
    hide ParseListMarker, IsThematicBreak, Blank, ScanBody, Stops, TidyTail, At, Indented, Swallowed, MarkerText;
    var text := MarkerText(kind, number, checked);
    MarkerBackAt(kind, number, checked, inner[0], at);
    MarkerWidths(kind, number, checked, inner[0]);
    var lines := ItemAt(at, column, text, inner) + after;
    assert lines[1..] == Indented(column + |text|, inner[1..]) + after;
    ScanBodyBack(inner[1..], column + |text|, at + ContentColumn(kind, number), after);
  }

  /** One step of the scan over items, from what the item's own scan found. */
  lemma ScanItemsStep(lines: seq<string>, first: ListMarker, body: seq<string>)
    requires lines != [] && ContinuesList(ParseListMarker(lines[0]), first)
    requires ScanBody(lines[1..], ParseListMarker(lines[0]).value.contentIndent) == (body, |body|)
    ensures |body| < |lines|
    ensures ScanItems(lines, first)
         == ([FirstOfItem(ParseListMarker(lines[0]).value.content, body)] + ScanItems(lines[1 + |body|..], first).0,
             1 + |body| + ScanItems(lines[1 + |body|..], first).1)
  {
  }

  lemma {:induction false} IndentedLength(column: nat, lines: seq<string>)
    ensures |Indented(column, lines)| == |lines|
  {
  }

  predicate SameList(kind: ListKind, column: nat, first: ListMarker) {
    first.ordered == (kind == Ordered) && first.delimiter == (if kind == Ordered then '.' else '-') && column <= first.contentIndent
  }

  lemma ScanPrintedItem(
    kind: ListKind, number: nat, checked: bool, inner: seq<string>, at: nat, column: nat, after: seq<string>, first: ListMarker)
    requires |inner| > 0 && Unindented(inner[0]) && TidyTail(inner[1..]) && Marks(kind, number, checked, inner[0])
    requires at <= column && at <= 8 && Stops(after, at + ContentColumn(kind, number)) && SameList(kind, at, first)
    ensures var left := ScanItems(after[|Swallowed(after)|..], first);
            var raw := FirstOfItem(Marker(kind, number, checked, inner[0]).content,
                                   Indented(column - at + ExtraOf(kind), inner[1..]) + Swallowed(after));
            ScanItems(ItemAt(at, column, MarkerText(kind, number, checked), inner) + after, first)
            == ([raw] + left.0, |inner| + |Swallowed(after)| + left.1)
  {
    hide ParseListMarker, Marks, TaskMarker, ScanBody, ScanItems, FirstOfItem, TidyTail, Stops, MarkerText, Unindented, Indented, At;
    var text := MarkerText(kind, number, checked);
    var body := Indented(column - at + ExtraOf(kind), inner[1..]) + Swallowed(after);
    var lines := ItemAt(at, column, text, inner) + after;
    ScanItemBack(kind, number, checked, inner, at, column, after);
    IndentedLength(column - at + ExtraOf(kind), inner[1..]);
    IndentedLength(column + |text|, inner[1..]);
    assert lines[1 + |body|..] == after[|Swallowed(after)|..];
    MarkerSort(kind, number, checked, inner[0]);
    ScanItemsStep(lines, first, body);
  }

  lemma MarkerSort(kind: ListKind, number: nat, checked: bool, head: string)
    ensures var m := Marker(kind, number, checked, head);
            m.ordered == (kind == Ordered) && m.delimiter == (if kind == Ordered then '.' else '-')
  {
  }

  /** Every item of a list keeps being one behind its marker. */
  ghost predicate AllMark<T>(kind: ListKind, number: nat, items: seq<Item<T>>, show: seq<T> -> string)
    decreases |items|
  {
    items == [] || (
      && Marks(kind, number, items[0].checked, Inner(items[0].blocks, show)[0])
      && AllMark(kind, number + 1, items[1..], show))
  }

  /** Where a list may stand: markers within reach of the parser, and, when more follows
      its first item, that item's content further right than what follows. */
  predicate Reaches(kind: ListKind, number: nat, at: nat, column: nat, more: bool) {
    at <= column && at <= 8 && (more ==> column < at + ContentColumn(kind, number))
  }

  /** The lines of some items, the first marker at "at", the others at "column". */
  function ItemsAt<T>(kind: ListKind, number: nat, items: seq<Item<T>>, at: nat, column: nat, show: seq<T> -> string): seq<string>
    decreases |items|
  {
    if items == [] then []
    else
      ItemAt(at, column, MarkerText(kind, number, items[0].checked), Inner(items[0].blocks, show))
      + ItemsAt(kind, number + 1, items[1..], column, column, show)
  }

  lemma {:induction false} ItemsMoved<T>(
    kind: ListKind, number: nat, items: seq<Item<T>>, at: nat, column: nat, show: seq<T> -> string, good: seq<T> -> bool)
    requires items != [] && WfItems(items, show, good)
    ensures ItemsLines(kind, number, items, show) != []
    ensures ItemsAt(kind, number, items, at, column, show) == Moved(at, column, ItemsLines(kind, number, items, show))
    decreases |items|
  {
    hide ItemAt, ItemLines, MarkerText, WfContent, Moved, Indented;
    var inner := Inner(items[0].blocks, show);
    var head := ItemLines(MarkerText(kind, number, items[0].checked), inner);
    ItemMoved(at, column, MarkerText(kind, number, items[0].checked), inner);
    if |items| == 1 {
      OneItemLines(kind, number, items, show);
      assert items[1..] == [];
    } else {
      var more := ItemsLines(kind, number + 1, items[1..], show);
      ItemsMoved(kind, number + 1, items[1..], column, column, show, good);
      TidyItems(kind, number + 1, items[1..], show, good);
      MovedAlike(column, more);
      MovedConcat(at, column, head, more);
    }
  }

  lemma NoMoreItems(rest: seq<string>, column: nat, width: nat, first: ListMarker)
    requires RestAt(rest, column) && (|rest| > 1 ==> column < width)
    ensures Stops(rest, width)
    ensures ScanItems(rest[|Swallowed(rest)|..], first) == ([], 0)
  {
    hide ParseListMarker;
    BlankIsNothing();
    if |rest| > 1 {
      IndentedByAt(column, rest[1][column..]);
    }
  }

  /** The next item's marker ends the one before it. */
  lemma NextItemStops<T>(
    kind: ListKind, number: nat, items: seq<Item<T>>, column: nat, width: nat, rest: seq<string>,
    show: seq<T> -> string, good: seq<T> -> bool)
    requires items != [] && WfItems(items, show, good) && column <= 8 && column < width
    requires Marks(kind, number, items[0].checked, Inner(items[0].blocks, show)[0])
    ensures var lines := ItemsAt(kind, number, items, column, column, show) + rest;
            Stops(lines, width) && Swallowed(lines) == []
  {
    hide ParseListMarker, IsThematicBreak, At, MarkerText, HeadOk, WfContent;
    var inner := Inner(items[0].blocks, show);
    TidyContent(items[0].blocks, show, good);
    InnerTail(inner);
    var line := MarkerText(kind, number, items[0].checked) + inner[0];
    MarkerHead(kind, number, items[0].checked, inner[0]);
    MarkerBackAt(kind, number, items[0].checked, inner[0], column);
    IndentedByAt(column, line);
    assert (ItemsAt(kind, number, items, column, column, show) + rest)[0] == At(column, line);
    BlankIsNothing();
  }

  /** The scan over the items of a printed list. */
  lemma {:induction false} ScanItemsBack<T>(
    kind: ListKind, number: nat, items: seq<Item<T>>, at: nat, column: nat, first: ListMarker, rest: seq<string>,
    show: seq<T> -> string, good: seq<T> -> bool)
    requires items != [] && WfItems(items, show, good) && AllMark(kind, number, items, show) && RestAt(rest, column)
    requires Reaches(kind, number, at, column, |items| > 1 || |rest| > 1) && (|items| > 1 ==> column <= 8)
    requires SameList(kind, column, first) || (|items| == 1 && SameList(kind, at, first))
    ensures ScanItems(ItemsAt(kind, number, items, at, column, show) + rest, first)
         == (RawItems(kind, number, items, column - at, Swallowed(rest), show),
             |ItemsAt(kind, number, items, at, column, show)| + |Swallowed(rest)|)
    decreases |items|
  {
    hide ScanItems, WfContent, Inner, Marks, Swallowed, ItemsAt, RawItems, RestAt, SameList;
    if SameList(kind, column, first) { SameFurther(kind, at, column, first); }
    if |items| == 1 {
      ScanLastItem(kind, number, items, at, column, first, rest, show, good);
    } else {
      ScanFirstItem(kind, number, items, at, column, first, rest, show, good);
      ScanItemsBack(kind, number + 1, items[1..], column, column, first, rest, show, good);
    }
  }

  lemma ScanLastItem<T>(
    kind: ListKind, number: nat, items: seq<Item<T>>, at: nat, column: nat, first: ListMarker, rest: seq<string>,
    show: seq<T> -> string, good: seq<T> -> bool)
    requires |items| == 1 && WfItems(items, show, good) && AllMark(kind, number, items, show) && RestAt(rest, column)
    requires Reaches(kind, number, at, column, |rest| > 1) && SameList(kind, at, first)
    ensures ScanItems(ItemsAt(kind, number, items, at, column, show) + rest, first)
         == (RawItems(kind, number, items, column - at, Swallowed(rest), show),
             |ItemsAt(kind, number, items, at, column, show)| + |Swallowed(rest)|)
  {
    hide ScanItems, Tidy, TidyTail, Stops, RestAt, WfContent, Inner, MarkerText, Marks, ItemAt, Swallowed, FirstOfItem,
         ItemsAt, RawItems, Indented, SameList;
    var inner := Inner(items[0].blocks, show);
    TidyContent(items[0].blocks, show, good);
    InnerTail(inner);
    ItemAtLength(at, column, MarkerText(kind, number, items[0].checked), inner);
    ItemsAtStep(kind, number, items, at, column, show);
    RawItemsStep(kind, number, items, column - at, Swallowed(rest), show);
    NoMoreItems(rest, column, at + ContentColumn(kind, number), first);
    ScanPrintedItem(kind, number, items[0].checked, inner, at, column, rest, first);
    var raw := RawItems(kind, number, items, column - at, Swallowed(rest), show);
    assert raw + [] == raw;
  }

  /** What the scan finds first in a longer list, and what it goes on with. */
  lemma ScanFirstItem<T>(
    kind: ListKind, number: nat, items: seq<Item<T>>, at: nat, column: nat, first: ListMarker, rest: seq<string>,
    show: seq<T> -> string, good: seq<T> -> bool)
    requires |items| > 1 && WfItems(items, show, good) && AllMark(kind, number, items, show)
    requires Reaches(kind, number, at, column, true) && column <= 8 && SameList(kind, at, first)
    ensures var more := ItemsAt(kind, number + 1, items[1..], column, column, show);
            var left := ScanItems(more + rest, first);
            var raw := RawItems(kind, number, items, column - at, Swallowed(rest), show);
            var all := ItemsAt(kind, number, items, at, column, show);
            && |all| >= |more| && ScanItems(all + rest, first) == ([raw[0]] + left.0, |all| - |more| + left.1)
            && raw == [raw[0]] + RawItems(kind, number + 1, items[1..], 0, Swallowed(rest), show)
  {
    hide ScanItems, Tidy, TidyTail, Stops, WfContent, Inner, MarkerText, Marks, ItemAt, Swallowed, FirstOfItem,
         ItemsAt, RawItems, Indented, SameList;
    var item := items[0];
    var inner := Inner(item.blocks, show);
    TidyContent(item.blocks, show, good);
    InnerTail(inner);
    ItemAtLength(at, column, MarkerText(kind, number, item.checked), inner);
    ItemsAtStep(kind, number, items, at, column, show);
    RawItemsStep(kind, number, items, column - at, Swallowed(rest), show);
    var more := ItemsAt(kind, number + 1, items[1..], column, column, show);
    NextItemStops(kind, number + 1, items[1..], column, at + ContentColumn(kind, number), rest, show, good);
    ScanPrintedItem(kind, number, item.checked, inner, at, column, more + rest, first);
    assert (more + rest)[0..] == more + rest;
    var head := ItemAt(at, column, MarkerText(kind, number, item.checked), inner);
    assert head + more + rest == head + (more + rest);
  }

  lemma SameFurther(kind: ListKind, at: nat, column: nat, first: ListMarker)
    requires at <= column && SameList(kind, column, first)
    ensures SameList(kind, at, first)
  {
  }

  lemma ItemsAtStep<T>(kind: ListKind, number: nat, items: seq<Item<T>>, at: nat, column: nat, show: seq<T> -> string)
    requires items != []
    ensures var head := ItemAt(at, column, MarkerText(kind, number, items[0].checked), Inner(items[0].blocks, show));
            ItemsAt(kind, number, items, at, column, show)
            == if |items| == 1 then head else head + ItemsAt(kind, number + 1, items[1..], column, column, show)
  {
    if |items| == 1 { assert items[1..] == []; }
  }

  lemma RawItemsStep<T>(kind: ListKind, number: nat, items: seq<Item<T>>, extra: nat, tail: seq<string>, show: seq<T> -> string)
    requires items != []
    ensures var inner := Inner(items[0].blocks, show);
            var content := Marker(kind, number, items[0].checked, inner[0]).content;
            var body := Indented(extra + ExtraOf(kind), inner[1..]);
            RawItems(kind, number, items, extra, tail, show)
            == if |items| == 1 then [FirstOfItem(content, body + tail)]
               else [FirstOfItem(content, body + [])] + RawItems(kind, number + 1, items[1..], 0, tail, show)
  {
    if |items| == 1 { assert items[1..] == []; }
  }

  lemma ItemAtLength(at: nat, column: nat, marker: string, inner: seq<string>)
    requires inner != []
    ensures |ItemAt(at, column, marker, inner)| == |inner|
  {
    IndentedLength(column + |marker|, inner[1..]);
  }

  /** A line that begins with a list marker is tried as nothing else first. */
  lemma ListDispatch<T>(lines: seq<string>, column: nat, line: string, depth: nat, read: string -> seq<T>)
    requires depth < MAX_DEPTH && lines != [] && lines[0] == At(column, line)
    requires line != "" && !IsSpace(line[0]) && line[0] != '`' && line[0] != '~' && line[0] != '#' && line[0] != '>'
    requires !IsThematicBreak(line) && !TableHead(lines) && ParseListMarker(lines[0]).Some?
    ensures !Blank(lines[0])
    ensures var first := ParseListMarker(lines[0]).value;
            var scan := ScanItems(lines, first);
            var kind := if scan.0[0].checked.Some? then Task else if first.ordered then Ordered else Bullet;
            var start := if kind == Ordered then first.start else 1;
            ParseBlock(lines, depth, read) == Taken(Some(List(kind, start, ParseItems(scan.0, kind, depth, read))), scan.1)
  {
    hide CodeFence, AtxHeading, IsBlockquoteLine, IsThematicBreak, StartsTable, SplitTableRow, ScanItems, ParseItems, ParseListMarker;
    OtherThanAt(column, line);
    SameTrimmed(column, line);
  }

  /** A printed list, as far as the parser finds its items: see ItemsBack for what it
      reads in them. */
  lemma ListScanned<T(!new)>(
    kind: ListKind, start: nat, items: seq<Item<T>>, at: nat, column: nat, rest: seq<string>, depth: nat,
    show: seq<T> -> string, read: string -> seq<T>, good: seq<T> -> bool)
    requires items != [] && WfItems(items, show, good) && AllMark(kind, start, items, show) && RestAt(rest, column)
    requires Reaches(kind, start, at, column, |items| > 1 || |rest| > 1) && (|items| > 1 ==> column <= 8)
    requires !TableHead(ItemsLines(kind, start, items, show)) && depth < MAX_DEPTH
    ensures var raw := RawItems(kind, start, items, column - at, Swallowed(rest), show);
            var lines := ItemsAt(kind, start, items, at, column, show) + rest;
            var read_kind := if raw[0].checked.Some? then Task else if kind == Ordered then Ordered else Bullet;
            && lines != [] && !Blank(lines[0])
            && ParseBlock(lines, depth, read)
               == Taken(Some(List(read_kind, if read_kind == Ordered then start else 1, ParseItems(raw, read_kind, depth, read))),
                        |ItemsAt(kind, start, items, at, column, show)| + |Swallowed(rest)|)
  {
    hide ParseListMarker, IsThematicBreak, ScanItems, ParseItems, ParseBlock, WfContent, Blank, TableHead, RestAt, At,
         RawItems, MarkerText, Swallowed;
    var lines := ItemsAt(kind, start, items, at, column, show) + rest;
    var inner := Inner(items[0].blocks, show);
    var line := MarkerText(kind, start, items[0].checked) + inner[0];
    TidyContent(items[0].blocks, show, good);
    InnerTail(inner);
    MarkerHead(kind, start, items[0].checked, inner[0]);
    MarkerBackAt(kind, start, items[0].checked, inner[0], at);
    MarkerWidths(kind, start, items[0].checked, inner[0]);
    MarkerSort(kind, start, items[0].checked, inner[0]);
    assert lines[0] == At(at, line);
    ListNoTable(kind, start, items, at, column, rest, show, good);
    ListDispatch(lines, at, line, depth, read);
    ScanItemsBack(kind, start, items, at, column, ParseListMarker(lines[0]).value, rest, show, good);
    StartOf(kind, start, items[0].checked, inner[0]);
  }

  lemma StartOf(kind: ListKind, start: nat, checked: bool, head: string)
    ensures kind == Ordered ==> Marker(kind, start, checked, head).start == start
  {
  }

  lemma ListNoTable<T>(
    kind: ListKind, start: nat, items: seq<Item<T>>, at: nat, column: nat, rest: seq<string>,
    show: seq<T> -> string, good: seq<T> -> bool)
    requires items != [] && WfItems(items, show, good) && !TableHead(ItemsLines(kind, start, items, show)) && RestAt(rest, column)
    ensures !TableHead(ItemsAt(kind, start, items, at, column, show) + rest)
  {
    hide TableHead;
    ItemsMoved(kind, start, items, at, column, show, good);
    TableHeadMoved(at, column, ItemsLines(kind, start, items, show), rest);
  }

  // ---- The round trip ----

  lemma {:induction false} BlockBack<T(!new)>(
    b: Block<T>, first: nat, column: nat, rest: seq<string>, depth: nat,
    show: seq<T> -> string, read: string -> seq<T>, good: seq<T> -> bool)
    requires Faithful(show, read, good) && WfBlock(b, show, good) && depth + Nest(b) <= MAX_DEPTH
    requires Places(first, column) && RestAt(rest, column) && Fits(b, first, column, |rest| > 1)
    ensures ReadsBack(b, first, column, rest, depth, show, read)
    decreases b
  {
    hide ReadsBack, IndentedBy, Faithful;
    match b {
      case Para(text) => ParaBack(text, column, rest, depth, show, read, good);
      case Heading(level, text) => HeadingBack(level, text, column, rest, depth, show, read, good);
      case Code(language, source) => CodeBack(language, source, column, rest, depth, show, read, good);
      case Rule => RuleBack(first, column, rest, depth, show, read);
      case Quote(blocks) => QuoteBack(blocks, first, column, rest, depth, show, read, good);
      case List(kind, start, items) => ListBack(kind, start, items, first, column, rest, depth, show, read, good);
      case Table(align, rows) => TableBack(align, rows, first, column, rest, depth, show, read, good);
    }
  }

  lemma QuoteDispatch<T>(lines: seq<string>, column: nat, line: string, depth: nat, read: string -> seq<T>)
    requires lines != [] && lines[0] == At(column, line) && line != "" && line[0] == '>' && depth < MAX_DEPTH
    ensures var scan := ScanQuote(lines);
            !Blank(lines[0]) && ParseBlock(lines, depth, read)
            == Taken(Some(Quote(OrEmptyParagraph(ParseBlocks(scan.0, depth + 1, read)))), scan.1)
  {
    hide CodeFence, AtxHeading, IsThematicBreak, IsBlockquoteLine, ScanQuote, ParseBlocks, OrEmptyParagraph;
    OtherThanAt(column, line);
  }

  lemma {:induction false} QuoteBack<T(!new)>(
    blocks: seq<Block<T>>, first: nat, column: nat, rest: seq<string>, depth: nat,
    show: seq<T> -> string, read: string -> seq<T>, good: seq<T> -> bool)
    requires Faithful(show, read, good) && WfContent(blocks, show, good) && RestAt(rest, column)
    requires depth + 1 + NestBlocks(blocks) <= MAX_DEPTH
    ensures ReadsBack(Quote(blocks), first, column, rest, depth, show, read)
    decreases blocks, 2
  {
    hide ParseBlocks, ParseBlock, ScanQuote, WfContent, Inner, Moved, Prefixed, Faithful;
    var inner := Inner(blocks, show);
    assert Core(Quote(blocks), show) == Prefixed("> ", inner);
    QuoteMoved(inner, first, column, rest);
    var lines := Moved(first, column, Prefixed("> ", inner)) + rest;
    QuoteDispatch(lines, first, "> " + inner[0], depth, read);
    TidyContent(blocks, show, good);
    HungAtMargin(inner);
    ContentBack(blocks, 0, [], depth + 1, show, read, good);
    assert inner + [] == inner;
  }

  lemma HungAtMargin(inner: seq<string>)
    requires inner == [""] || Tidy(inner)
    ensures Hung(0, inner) == inner
  {
    assert forall line | line in inner[1..] :: line in inner;
    IndentedNothing(inner[1..]);
  }

  /** A list reads back at the columns it stands at. */
  lemma {:induction false} ListBack<T(!new)>(
    kind: ListKind, start: int, items: seq<Item<T>>, first: nat, column: nat, rest: seq<string>, depth: nat,
    show: seq<T> -> string, read: string -> seq<T>, good: seq<T> -> bool)
    requires Faithful(show, read, good) && WfBlock(List(kind, start, items), show, good)
    requires Places(first, column) && RestAt(rest, column) && Fits(List(kind, start, items), first, column, |rest| > 1)
    requires depth + 1 + NestItems(items) <= MAX_DEPTH
    ensures ReadsBack(List(kind, start, items), first, column, rest, depth, show, read)
    decreases items, 1
  {
    hide ParseItems, ParseBlock, WfItems, Blank, TableHead, RestAt, RawItems, Moved, Faithful, Inner, IsThematicBreak,
         ItemsOk, AllMark, Reaches, Places, Fits, Hangs, Swallowed, ItemsAt, ItemsLines, IndentedBy;
    var core := ItemsLines(kind, start, items, show);
    assert Core(List(kind, start, items), show) == core by { ListCore(kind, start, items, show); }
    FirstHangs(kind, start, items, first, column, |rest| > 1, show);
    ListFits(kind, start, items, first, column, |rest| > 1);
    ItemsMoved(kind, start, items, first, column, show, good);
    OkMarks(kind, start, items, show);
    ListReaches(kind, start, items, first, column, |rest| > 1, show);
    ListScanned(kind, start, items, first, column, rest, depth, show, read, good);
    SwallowedIs(rest);
    KindBack(kind, start, items, column - first, Swallowed(rest), show, good);
    ItemsBack(kind, start, items, column - first, Swallowed(rest), depth, show, read, good);
  }

  lemma SwallowedIs(rest: seq<string>)
    ensures Swallowed(rest) == [] || Swallowed(rest) == [""]
  {
  }

  lemma ListCore<T>(kind: ListKind, start: int, items: seq<Item<T>>, show: seq<T> -> string)
    requires start >= 1
    ensures Core(List(kind, start, items), show) == ItemsLines(kind, start, items, show)
  {
  }

  lemma ListFits<T>(kind: ListKind, start: int, items: seq<Item<T>>, first: nat, column: nat, followed: bool)
    requires items != [] && start >= 0 && Places(first, column) && Fits(List(kind, start, items), first, column, followed)
    ensures first <= 8 && (|items| > 1 || followed ==> column < first + ContentColumn(kind, start))
  {
    hide Hangs;
  }

  lemma FirstHangs<T>(kind: ListKind, start: int, items: seq<Item<T>>, first: nat, column: nat, followed: bool, show: seq<T> -> string)
    requires ListOk(kind, start, items, show) && Places(first, column) && Fits(List(kind, start, items), first, column, followed)
    ensures column >= first && (column - first) % 4 == 0 && Hangs(items[0].blocks, column - first + ExtraOf(kind))
  {
    hide Hangs, TableHead, IsThematicBreak, TaskMarker, Inner;
    assert ItemsOk(kind, start, items, show);
    if first == column && kind != Task { NoExtra(items[0].blocks); }
  }

  lemma NoExtra<T>(blocks: seq<Block<T>>)
    ensures Hangs(blocks, 0)
  {
  }

  lemma {:induction false} OkMarks<T>(kind: ListKind, number: nat, items: seq<Item<T>>, show: seq<T> -> string)
    requires ItemsOk(kind, number, items, show) && (kind == Ordered ==> number + |items| <= 1_000_000_000)
    ensures AllMark(kind, number, items, show)
    decreases |items|
  {
    hide IsThematicBreak, Hangs, TaskMarker, Inner;
    if items != [] { OkMarks(kind, number + 1, items[1..], show); }
  }

  lemma ListReaches<T>(kind: ListKind, start: int, items: seq<Item<T>>, first: nat, column: nat, followed: bool, show: seq<T> -> string)
    requires ListOk(kind, start, items, show) && Places(first, column) && first <= 8
    requires |items| > 1 || followed ==> column < first + ContentColumn(kind, start)
    ensures start >= 0 && Reaches(kind, start, first, column, |items| > 1 || followed) && (|items| > 1 ==> column <= 8)
  {
    hide ItemsOk, TableHead;
    if kind == Ordered {
      NineDigits();
      ItoaLength(start, 9);
    }
  }

  lemma KindBack<T>(
      kind: ListKind, number: nat, items: seq<Item<T>>, extra: nat, tail: seq<string>, show: seq<T> -> string, good: seq<T> -> bool)
    requires items != [] && ItemsOk(kind, number, items, show) && WfItems(items, show, good)
    ensures RawItems(kind, number, items, extra, tail, show)[0].checked.Some? <==> kind == Task
  {
    hide TaskMarker, IsThematicBreak;
    var inner := Inner(items[0].blocks, show);
    TidyContent(items[0].blocks, show, good);
    InnerTail(inner);
    if kind == Task { TaskBack(items[0].checked, inner[0]); }
  }

  /** The first of the raw items, for an item that is what its list says. */
  lemma RawItemIs<T>(
      kind: ListKind, number: nat, items: seq<Item<T>>, extra: nat, tail: seq<string>, show: seq<T> -> string, good: seq<T> -> bool)
    requires items != [] && WfItems(items, show, good)
    requires kind != Task ==> TaskMarker(Inner(items[0].blocks, show)[0]).None?
    ensures var raw := RawItems(kind, number, items, extra, tail, show);
            && raw[0] == RawItem(Hung(extra + ExtraOf(kind), Inner(items[0].blocks, show)) + (if |items| == 1 then tail else []),
                                 if kind == Task then Some(items[0].checked) else None)
            && raw[1..] == RawItems(kind, number + 1, items[1..], 0, tail, show)
  {
    hide TaskMarker, Inner, WfContent, Indented, RawItems, Tidy, TidyTail;
    var inner := Inner(items[0].blocks, show);
    TidyContent(items[0].blocks, show, good);
    InnerTail(inner);
    RawItemsStep(kind, number, items, extra, tail, show);
    if |items| == 1 { assert items[1..] == []; assert RawItems(kind, number + 1, items[1..], 0, tail, show) == []; }
    var own := if |items| == 1 then tail else [];
    assert [inner[0]] + (Indented(extra + ExtraOf(kind), inner[1..]) + own) == Hung(extra + ExtraOf(kind), inner) + own;
    if kind == Task { TaskBack(items[0].checked, inner[0]); }
  }

  lemma {:induction false} ItemsBack<T(!new)>(
    kind: ListKind, number: nat, items: seq<Item<T>>, extra: nat, tail: seq<string>, depth: nat,
    show: seq<T> -> string, read: string -> seq<T>, good: seq<T> -> bool)
    requires Faithful(show, read, good) && WfItems(items, show, good) && ItemsOk(kind, number, items, show)
    requires (tail == [] || tail == [""]) && extra % 4 == 0 && (items != [] ==> Hangs(items[0].blocks, extra + ExtraOf(kind)))
    requires depth + 1 + NestItems(items) <= MAX_DEPTH
    ensures ParseItems(RawItems(kind, number, items, extra, tail, show), kind, depth, read) == items
    decreases items, 0
  {
    hide ParseBlocks, WfContent, Inner, MarkerText, OrEmptyParagraph, RawItems, Faithful, IsThematicBreak, Hangs, Hung;
    var raw := RawItems(kind, number, items, extra, tail, show);
    if items != [] {
      RawItemIs(kind, number, items, extra, tail, show, good);
      ContentBack(items[0].blocks, extra + ExtraOf(kind), if |items| == 1 then tail else [], depth + 1, show, read, good);
      if |items| > 1 { NextHangs(kind, number, items, show); }
      ItemsBack(kind, number + 1, items[1..], 0, tail, depth, show, read, good);
      assert [items[0]] + items[1..] == items;
    }
  }

  lemma NextHangs<T>(kind: ListKind, number: nat, items: seq<Item<T>>, show: seq<T> -> string)
    requires |items| > 1 && ItemsOk(kind, number, items, show)
    ensures Hangs(items[1..][0].blocks, ExtraOf(kind))
  {
    hide IsThematicBreak, TaskMarker, Inner;
  }

  lemma NothingBack<T>(tail: seq<string>, depth: nat, read: string -> seq<T>)
    requires tail == [] || tail == [""]
    ensures ParseBlocks(tail, depth, read) == []
  {
    BlankIsNothing();
    if tail == [""] { assert tail[1..] == []; }
  }

  /** The content of a quote, an item or a document reads back. */
  lemma {:induction false} ContentBack<T(!new)>(
    blocks: seq<Block<T>>, extra: nat, tail: seq<string>, depth: nat,
    show: seq<T> -> string, read: string -> seq<T>, good: seq<T> -> bool)
    requires Faithful(show, read, good) && WfContent(blocks, show, good) && (tail == [] || tail == [""])
    requires depth + NestBlocks(blocks) <= MAX_DEPTH && extra % 4 == 0 && Hangs(blocks, extra)
    ensures OrEmptyParagraph(ParseBlocks(Hung(extra, Inner(blocks, show)) + tail, depth, read)) == blocks
    decreases blocks, 1
  {
    hide Faithful, ParseBlocks, Inner;
    TidyContent(blocks, show, good);
    var inner := Inner(blocks, show);
    if blocks == [Para([])] {
      assert Hung(extra, inner) + tail == [""] + tail;
      BlankLine(tail, depth, read);
      NothingBack(tail, depth, read);
    } else {
      HungIsMoved(extra, inner);
      BlocksBack(blocks, 0, extra, tail, depth, show, read, good);
    }
  }

  /** All blocks fit where they stand. */
  ghost predicate AllFit<T>(blocks: seq<Block<T>>, first: nat, column: nat) {
    blocks != [] && Fits(blocks[0], first, column, |blocks| > 1)
    && (column == 0 || forall b | b in blocks[1..] :: Shifts(b, column))
  }

  lemma MoreFit<T>(blocks: seq<Block<T>>, first: nat, column: nat)
    requires AllFit(blocks, first, column) && |blocks| > 1
    ensures AllFit(blocks[1..], column, column)
  {
    var more := blocks[1..];
    assert more[0] in more;
    assert forall b | b in more[1..] :: b in more;
  }

  lemma {:induction false} BlocksBack<T(!new)>(
    blocks: seq<Block<T>>, first: nat, column: nat, tail: seq<string>, depth: nat,
    show: seq<T> -> string, read: string -> seq<T>, good: seq<T> -> bool)
    requires Faithful(show, read, good) && blocks != [] && WfBlocks(blocks, show, good) && (tail == [] || tail == [""])
    requires depth + NestBlocks(blocks) <= MAX_DEPTH && Places(first, column) && AllFit(blocks, first, column)
    ensures ParseBlocks(Moved(first, column, Inner(blocks, show)) + tail, depth, read) == blocks
    decreases blocks, 0
  {
    hide ParseBlocks, ReadsBack, Core, Inner, Blank, WfBlock, Moved, Fits, Faithful, RestAt;
    var core := Core(blocks[0], show);
    var rest := RestOf(blocks, column, tail, show);
    BlocksMoved(blocks, first, column, tail, show, good);
    assert Fits(blocks[0], first, column, |rest| > 1) by { RestLong(blocks, first, column, tail, show, good); }
    BlockBack(blocks[0], first, column, rest, depth, show, read, good);
    ParseStep(blocks[0], first, column, rest, depth, show, read);
    if |blocks| == 1 {
      NothingBack(tail, depth, read);
      assert blocks == [blocks[0]];
    } else {
      MoreFit(blocks, first, column);
      BlocksBack(blocks[1..], column, column, tail, depth, show, read, good);
      BlankLine(Moved(column, column, Inner(blocks[1..], show)) + tail, depth, read);
      assert blocks == [blocks[0]] + blocks[1..];
    }
  }

  /** What stands after the first of some printed blocks. */
  function RestOf<T>(blocks: seq<Block<T>>, column: nat, tail: seq<string>, show: seq<T> -> string): seq<string>
    requires blocks != []
  {
    if |blocks| == 1 then tail else [""] + (Moved(column, column, Inner(blocks[1..], show)) + tail)
  }

  lemma BlocksMoved<T>(
      blocks: seq<Block<T>>, first: nat, column: nat, tail: seq<string>, show: seq<T> -> string, good: seq<T> -> bool)
    requires blocks != [] && WfBlocks(blocks, show, good) && (tail == [] || tail == [""])
    ensures Core(blocks[0], show) != [] && RestAt(RestOf(blocks, column, tail, show), column)
    ensures Moved(first, column, Inner(blocks, show)) + tail
         == Moved(first, column, Core(blocks[0], show)) + RestOf(blocks, column, tail, show)
  {
    hide Core, Inner, WfBlock, Moved, IndentedBy, Indented;
    InnerOfBlocks(blocks, show, good);
    TidyCore(blocks[0], show, good);
    var core := Core(blocks[0], show);
    if |blocks| == 1 {
      assert Inner(blocks, show) == core;
    } else {
      var more := Inner(blocks[1..], show);
      InnerOfBlocks(blocks[1..], show, good);
      MovedConcat(first, column, core, [""] + more);
      IndentedBlank(column, more);
      MovedAlike(column, more);
      MovedHead(column, more);
      assert core + ([""] + more) == Inner(blocks, show);
      assert Moved(first, column, core) + ([""] + Moved(column, column, more)) + tail
          == Moved(first, column, core) + ([""] + (Moved(column, column, more) + tail));
    }
  }

  lemma IndentedBlank(column: nat, more: seq<string>)
    ensures Indented(column, [""] + more) == [""] + Indented(column, more)
  {
    BlankIsNothing();
    assert ([""] + more)[1..] == more;
  }

  lemma MovedHead(column: nat, lines: seq<string>)
    requires lines != [] && HeadOk(lines[0])
    ensures IndentedBy(Moved(column, column, lines)[0], column)
  {
    IndentedByAt(column, lines[0]);
  }

  lemma RestLong<T>(
      blocks: seq<Block<T>>, first: nat, column: nat, tail: seq<string>, show: seq<T> -> string, good: seq<T> -> bool)
    requires blocks != [] && (tail == [] || tail == [""]) && AllFit(blocks, first, column)
    ensures |RestOf(blocks, column, tail, show)| > 1 <==> |blocks| > 1
    ensures Fits(blocks[0], first, column, |RestOf(blocks, column, tail, show)| > 1)
  {
  }

  lemma BlankLine<T>(lines: seq<string>, depth: nat, read: string -> seq<T>)
    ensures ParseBlocks([""] + lines, depth, read) == ParseBlocks(lines, depth, read)
  {
    BlankIsNothing();
    assert ([""] + lines)[1..] == lines;
  }

  /** Taking a block off the front leaves the parse of the rest. */
  lemma ParseStep<T(!new)>(
      b: Block<T>, first: nat, column: nat, rest: seq<string>, depth: nat, show: seq<T> -> string, read: string -> seq<T>)
    requires ReadsBack(b, first, column, rest, depth, show, read)
    ensures ParseBlocks(Moved(first, column, Core(b, show)) + rest, depth, read) == [b] + ParseBlocks(rest, depth, read)
  {
    hide ParseBlock, Core, Blank, Moved;
    var core := Core(b, show);
    var lines := Moved(first, column, core) + rest;
    var n := ParseBlock(lines, depth, read).consumed;
    assert lines[n..] == rest[n - |core|..];
    if n > |core| {
      NothingBack(rest, depth, read);
      NothingBack(rest[1..], depth, read);
    }
  }
}
