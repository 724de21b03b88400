/** Inheritance from styles, attribute by attribute (ISO/IEC 29500-1, section 17.7):
    "mergeProperties" and "styledParagraphProperties" of
    internal/docx/import_blocks.go. */
module StyleMerge {
  import opened Text

  const DEEPEST_STYLE := 16

  class XNode {
    const prefix: string
    const local: string
    const text: string
    var attrs: map<string, string>
    var children: seq<XNode>

    constructor (prefix: string, local: string, text: string, attrs: map<string, string>, children: seq<XNode>)
      ensures Value() == Element(prefix, local, text, attrs, children)
    {
      this.prefix, this.local, this.text, this.attrs, this.children := prefix, local, text, attrs, children;
    }

    /** The node as it stands; its children are shared, not copied. */
    function Value(): Element
      reads this
    {
      Element(prefix, local, text, attrs, children)
    }
  }

  datatype Element = Element(prefix: string, local: string, text: string, attrs: map<string, string>, children: seq<XNode>) {
    /** The name as the file writes it. */
    function Key(): string { prefix + ":" + local }
  }

  function Values(nodes: seq<XNode>): (r: seq<Element>)
    reads nodes
    ensures |r| == |nodes| && forall i | 0 <= i < |r| :: r[i] == nodes[i].Value()
  {
    seq(|nodes|, i requires 0 <= i < |nodes| reads nodes => nodes[i].Value())
  }

  // ---- The layers ----

  datatype Layers = Layers(order: seq<string>, byKey: map<string, Element>)

  const EMPTY := Layers([], map[])

  /** An element with another one, of a style further away, filled in underneath. */
  function Under(existing: Element, child: Element): Element {
    existing.(attrs := child.attrs + existing.attrs,
              children := if existing.children == [] then child.children else existing.children)
  }

  function Take(l: Layers, child: Element, fromStyle: bool, skip: set<string>): Layers {
    var key := child.Key();
    if fromStyle && key in skip then l
    else if key !in l.byKey then Layers(l.order + [key], l.byKey[key := child])
    else if !fromStyle || l.byKey[key].attrs == map[] then l
    else l.(byKey := l.byKey[key := Under(l.byKey[key], child)])
  }

  function TakeAll(l: Layers, children: seq<Element>, fromStyle: bool, skip: set<string>): Layers {
    if children == [] then l
    else Take(TakeAll(l, children[..|children| - 1], fromStyle, skip), children[|children| - 1], fromStyle, skip)
  }

  function Flat(chain: seq<seq<Element>>): seq<Element> {
    if chain == [] then [] else Flat(chain[..|chain| - 1]) + chain[|chain| - 1]
  }

  function Layered(own: seq<Element>, chain: seq<seq<Element>>, skip: set<string>): Layers {
    TakeAll(TakeAll(EMPTY, own, false, skip), Flat(chain), true, skip)
  }

  ghost predicate Keyed(l: Layers) {
    && (forall i | 0 <= i < |l.order| :: l.order[i] in l.byKey)
    && (forall k | k in l.byKey :: k in l.order && l.byKey[k].Key() == k)
    && (forall i, j | 0 <= i < j < |l.order| :: l.order[i] != l.order[j])
  }

  lemma {:induction false} TakeAllKeyed(l: Layers, children: seq<Element>, fromStyle: bool, skip: set<string>)
    requires Keyed(l)
    ensures Keyed(TakeAll(l, children, fromStyle, skip))
  {
    if children != [] {
      var n := |children| - 1;
      TakeAllKeyed(l, children[..n], fromStyle, skip);
      TakeKeyed(TakeAll(l, children[..n], fromStyle, skip), children[n], fromStyle, skip);
    }
  }

  lemma TakeKeyed(l: Layers, child: Element, fromStyle: bool, skip: set<string>)
    requires Keyed(l)
    ensures Keyed(Take(l, child, fromStyle, skip))
  {
    var key, after := child.Key(), Take(l, child, fromStyle, skip);
    if key !in l.byKey {
      assert after.order == l.order ==> after == l;
      assert forall k | k in l.byKey :: k in l.order;
      assert after != l ==> after.order[|l.order|] == key;
    }
  }

  /** The merged list: the elements in the order their names first came up. */
  function InOrder(order: seq<string>, byKey: map<string, Element>): (r: seq<Element>)
    requires forall k | k in order :: k in byKey
    ensures |r| == |order| && forall i | 0 <= i < |r| :: r[i] == byKey[order[i]]
  {
    seq(|order|, i requires 0 <= i < |order| => byKey[order[i]])
  }

  function Merge(own: seq<Element>, chain: seq<seq<Element>>, skip: set<string>): seq<Element> {
    TakeAllKeyed(EMPTY, own, false, skip);
    TakeAllKeyed(TakeAll(EMPTY, own, false, skip), Flat(chain), true, skip);
    var l := Layered(own, chain, skip);
    InOrder(l.order, l.byKey)
  }

  // ---- The code's own form: copies are made, no node is changed ----

  ghost predicate Copies(order: seq<string>, byKey: map<string, XNode>, l: Layers)
    reads byKey.Values
  {
    && order == l.order && byKey.Keys == l.byKey.Keys
    && (forall k | k in byKey :: byKey[k].Value() == l.byKey[k])
    && forall j, k | j in byKey && k in byKey && j != k :: byKey[j] != byKey[k]
  }

  method TakeChild(
      child: XNode, fromStyle: bool, skip: set<string>, order0: seq<string>, byKey0: map<string, XNode>, ghost l: Layers)
    returns (order: seq<string>, byKey: map<string, XNode>)
    requires Copies(order0, byKey0, l) && child !in byKey0.Values
    modifies byKey0.Values
    ensures Copies(order, byKey, Take(l, old(child.Value()), fromStyle, skip))
    ensures forall n | n in byKey.Values :: n in byKey0.Values || fresh(n)
  {
    order, byKey := order0, byKey0;
    var key := child.prefix + ":" + child.local;
    if fromStyle && key in skip { return; }
    if key in byKey && fromStyle && byKey[key].attrs == map[] { return; }
    if key !in byKey {
      var copied := new XNode(child.prefix, child.local, child.text, child.attrs, child.children);
      byKey := byKey[key := copied];
      order := order + [key];
      return;
    }
    if !fromStyle { return; }
    var existing := byKey[key];
    assert forall k | k in byKey && k != key :: byKey[k] != existing;
    existing.attrs := child.attrs + existing.attrs;
    if |existing.children| == 0 {
      existing.children := child.children;
    }
  }

  method TakeChildren(
      children: seq<XNode>, fromStyle: bool, skip: set<string>, order0: seq<string>, byKey0: map<string, XNode>, ghost l: Layers)
    returns (order: seq<string>, byKey: map<string, XNode>)
    requires Copies(order0, byKey0, l) && forall c | c in children :: c !in byKey0.Values
    modifies byKey0.Values
    ensures Copies(order, byKey, TakeAll(l, old(Values(children)), fromStyle, skip))
    ensures forall n | n in byKey.Values :: n in byKey0.Values || fresh(n)
  {
    hide Take, Copies;
    order, byKey := order0, byKey0;
    ghost var values := Values(children);
    var k := 0;
    while k < |children|
      invariant k <= |children|
      invariant Copies(order, byKey, TakeAll(l, values[..k], fromStyle, skip))
      invariant forall n | n in byKey.Values :: n in byKey0.Values || fresh(n)
      invariant Values(children) == values
    {
      assert values[..k + 1][..k] == values[..k];
      assert children[k] in children && children[k].Value() == values[k];
      order, byKey := TakeChild(children[k], fromStyle, skip, order, byKey, TakeAll(l, values[..k], fromStyle, skip));
      k := k + 1;
    }
    assert values[..k] == values;
  }

  /** The merged properties are new nodes; own nodes and style nodes are as they were. */
  method MergeProperties(own: seq<XNode>, chain: seq<seq<XNode>>, skip: set<string>) returns (out: seq<XNode>)
    ensures forall n | n in out :: fresh(n)
    ensures Values(out) == Merge(Values(own), AllValues(chain), skip)
  {
    hide Copies, Take, TakeAll, AllValues, Merge;
    var order, byKey := [], map[];
    assert Copies(order, byKey, EMPTY) by { CopiesNothing(); }
    ghost var ownValues := Values(own);
    order, byKey := TakeChildren(own, false, skip, order, byKey, EMPTY);
    ghost var ownLayers := TakeAll(EMPTY, ownValues, false, skip);
    ghost var values := AllValues(chain);
    assert TakeAll(ownLayers, Flat(values[..0]), true, skip) == ownLayers by { NothingTaken(ownLayers, values[..0], skip); }
    var k := 0;
    while k < |chain|
      invariant k <= |chain|
      invariant forall n | n in byKey.Values :: fresh(n)
      invariant Copies(order, byKey, TakeAll(ownLayers, Flat(values[..k]), true, skip))
      invariant forall i | 0 <= i < |chain| :: Values(chain[i]) == values[i]
    {
      ghost var l := TakeAll(ownLayers, Flat(values[..k]), true, skip);
      TakeAllJoins(ownLayers, Flat(values[..k]), values[k], true, skip);
      assert values[..k + 1][..k] == values[..k];
      order, byKey := TakeChildren(chain[k], true, skip, order, byKey, l);
      k := k + 1;
    }
    assert values[..k] == values;
    MergeGives(ownValues, values, skip);
    assert forall i | 0 <= i < |chain| :: Values(chain[i]) == values[i];
    out := CopiesInOrder(order, byKey, Layered(ownValues, values, skip));
    assert forall i | 0 <= i < |chain| :: Values(chain[i]) == values[i];
    assert AllValues(chain) == values;
  }

  lemma MergeGives(own: seq<Element>, chain: seq<seq<Element>>, skip: set<string>)
    ensures var l := Layered(own, chain, skip); Keyed(l) && Merge(own, chain, skip) == InOrder(l.order, l.byKey)
  {
    TakeAllKeyed(EMPTY, own, false, skip);
    TakeAllKeyed(TakeAll(EMPTY, own, false, skip), Flat(chain), true, skip);
  }

  lemma NothingTaken(l: Layers, chain: seq<seq<Element>>, skip: set<string>)
    requires chain == []
    ensures TakeAll(l, Flat(chain), true, skip) == l
  {
  }

  lemma CopiesNothing()
    ensures Copies([], map[], EMPTY)
  {
  }

  ghost function Nodes(chain: seq<seq<XNode>>): set<XNode> {
    if chain == [] then {}
    else
      var last := chain[|chain| - 1];
      Nodes(chain[..|chain| - 1]) + set n | n in last
  }

  function AllValues(chain: seq<seq<XNode>>): (r: seq<seq<Element>>)
    reads Nodes(chain)
    ensures |r| == |chain| && forall i | 0 <= i < |r| :: r[i] == Values(chain[i])
  {
    if chain == [] then []
    else
      var n := |chain| - 1;
      AllValues(chain[..n]) + [Values(chain[n])]
  }

  method CopiesInOrder(order: seq<string>, byKey: map<string, XNode>, ghost l: Layers) returns (out: seq<XNode>)
    requires Copies(order, byKey, l) && Keyed(l)
    ensures |out| == |order| && Values(out) == InOrder(l.order, l.byKey)
    ensures forall n | n in out :: n in byKey.Values
  {
    out := [];
    var k := 0;
    while k < |order|
      invariant k <= |order| && |out| == k
      invariant forall i | 0 <= i < k :: order[i] in byKey && out[i] == byKey[order[i]]
    {
      assert order[k] in byKey;
      out := out + [byKey[order[k]]];
      k := k + 1;
    }
  }

  lemma {:induction false} TakeAllJoins(l: Layers, a: seq<Element>, b: seq<Element>, fromStyle: bool, skip: set<string>)
    ensures TakeAll(l, a + b, fromStyle, skip) == TakeAll(TakeAll(l, a, fromStyle, skip), b, fromStyle, skip)
  {
    if b == [] {
      assert a + b == a;
    } else {
      var n := |b| - 1;
      TakeAllJoins(l, a, b[..n], fromStyle, skip);
      assert (a + b)[..|a| + n] == a + b[..n];
    }
  }

  // ---- The declarative rule ----

  /** What is said about one name: the node's own element, then the styles' in turn,
      unless the name is not to be inherited. */
  function Said(own: seq<Element>, styles: seq<Element>, skip: set<string>, key: string): seq<Element> {
    First(WithKey(own, key)) + if key in skip then [] else WithKey(styles, key)
  }

  function WithKey(elements: seq<Element>, key: string): seq<Element> {
    if elements == [] then []
    else
      var n := |elements| - 1;
      WithKey(elements[..n], key) + if elements[n].Key() == key then [elements[n]] else []
  }

  function First(elements: seq<Element>): seq<Element> {
    if elements == [] then [] else [elements[0]]
  }

  /** The nearest element that sets the attribute. */
  function Nearest(said: seq<Element>, name: string): Option<string> {
    if said == [] then None
    else if name in said[0].attrs then Some(said[0].attrs[name])
    else Nearest(said[1..], name)
  }

  /** The nearest element that has anything inside. */
  function NearestChildren(said: seq<Element>): seq<XNode> {
    if said == [] then [] else if said[0].children != [] then said[0].children else NearestChildren(said[1..])
  }

  /** What a merged element must be. A bare element has said all there is to say. */
  ghost predicate Rule(merged: Element, said: seq<Element>) {
    said != [] && merged.prefix == said[0].prefix && merged.local == said[0].local && merged.text == said[0].text
    && if said[0].attrs == map[] then merged == said[0]
       else
         && (forall name :: name in merged.attrs <==> Nearest(said, name).Some?)
         && (forall name | name in merged.attrs :: Nearest(said, name) == Some(merged.attrs[name]))
         && merged.children == NearestChildren(said)
  }

  ghost predicate Ruled(l: Layers, key: string, said: seq<Element>) {
    (key in l.byKey <==> said != []) && (key in l.byKey ==> Rule(l.byKey[key], said))
  }

  lemma {:induction false} NearestMore(said: seq<Element>, child: Element, name: string)
    ensures Nearest(said + [child], name)
         == if Nearest(said, name).Some? then Nearest(said, name)
            else if name in child.attrs then Some(child.attrs[name]) else None
  {
    if said == [] {
      assert [] + [child] == [child] && [child][1..] == [];
    } else {
      assert (said + [child])[1..] == said[1..] + [child];
      NearestMore(said[1..], child, name);
    }
  }

  lemma {:induction false} NearestChildrenMore(said: seq<Element>, child: Element)
    ensures NearestChildren(said + [child]) == if NearestChildren(said) != [] then NearestChildren(said) else child.children
  {
    if said == [] {
      assert [] + [child] == [child] && [child][1..] == [];
    } else {
      assert (said + [child])[1..] == said[1..] + [child];
      NearestChildrenMore(said[1..], child);
    }
  }

  lemma RuleAlone(child: Element)
    ensures Rule(child, [child])
  {
    assert [child][1..] == [];
    assert forall name :: Nearest([child], name) == if name in child.attrs then Some(child.attrs[name]) else None;
  }

  lemma RuleMore(merged: Element, said: seq<Element>, child: Element)
    requires Rule(merged, said)
    ensures Rule(if merged.attrs == map[] then merged else Under(merged, child), said + [child])
  {
    if said[0].attrs != map[] {
      var after := Under(merged, child);
      var name0 :| name0 in said[0].attrs;
      assert name0 in merged.attrs;
      forall name
        ensures name in after.attrs <==> Nearest(said + [child], name).Some?
        ensures name in after.attrs ==> Nearest(said + [child], name) == Some(after.attrs[name])
      {
        NearestMore(said, child, name);
      }
      NearestChildrenMore(said, child);
    }
  }

  lemma {:induction false} OwnRule(own: seq<Element>, skip: set<string>, key: string)
    ensures Ruled(TakeAll(EMPTY, own, false, skip), key, First(WithKey(own, key)))
  {
    if own != [] {
      var n := |own| - 1;
      OwnRule(own[..n], skip, key);
      RuleAlone(own[n]);
    }
  }

  lemma {:induction false} StyleRule(l: Layers, said: seq<Element>, styles: seq<Element>, skip: set<string>, key: string)
    requires Ruled(l, key, said)
    ensures Ruled(TakeAll(l, styles, true, skip), key, said + if key in skip then [] else WithKey(styles, key))
  {
    if styles == [] {
      assert said + [] == said;
    } else {
      var n := |styles| - 1;
      StyleRule(l, said, styles[..n], skip, key);
      var before := said + if key in skip then [] else WithKey(styles[..n], key);
      if styles[n].Key() == key && key !in skip {
        assert said + WithKey(styles, key) == before + [styles[n]];
        if before == [] {
          assert before + [styles[n]] == [styles[n]];
          RuleAlone(styles[n]);
        } else {
          RuleMore(TakeAll(l, styles[..n], true, skip).byKey[key], before, styles[n]);
        }
      } else {
        assert said + (if key in skip then [] else WithKey(styles, key)) == before;
      }
    }
  }

  /** For every node, chain of styles and name: the merged element is there when
      anything speaks of it, and each attribute comes from the node itself or else
      from the nearest style that sets it. */
  lemma InheritanceRule(own: seq<Element>, chain: seq<seq<Element>>, skip: set<string>, key: string)
    ensures Ruled(Layered(own, chain, skip), key, Said(own, Flat(chain), skip, key))
  {
    OwnRule(own, skip, key);
    StyleRule(TakeAll(EMPTY, own, false, skip), First(WithKey(own, key)), Flat(chain), skip, key);
  }

  /** Merging with one chain and then with another is merging with both. */
  lemma MergeInSteps(own: seq<Element>, near: seq<seq<Element>>, far: seq<seq<Element>>, skip: set<string>)
    ensures Merge(own, near + far, skip) == Merge(Merge(own, near, skip), far, skip)
  {
    TakeAllKeyed(EMPTY, own, false, skip);
    TakeAllKeyed(TakeAll(EMPTY, own, false, skip), Flat(near), true, skip);
    var l := Layered(own, near, skip);
    var merged := Merge(own, near, skip);
    FlatJoins(near, far);
    TakeAllJoins(TakeAll(EMPTY, own, false, skip), Flat(near), Flat(far), true, skip);
    Retaken(l, |l.order|, skip);
    PrefixNone(l);
    assert merged[..|l.order|] == merged;
  }

  lemma {:induction false} FlatJoins(near: seq<seq<Element>>, far: seq<seq<Element>>)
    ensures Flat(near + far) == Flat(near) + Flat(far)
  {
    if far == [] {
      assert near + far == near;
    } else {
      var n := |far| - 1;
      FlatJoins(near, far[..n]);
      assert (near + far)[..|near| + n] == near + far[..n];
      assert (near + far)[|near| + n] == far[n];
      assert Flat(near) + (Flat(far[..n]) + far[n]) == Flat(near) + Flat(far[..n]) + far[n];
    }
  }

  function Prefix(l: Layers, k: nat): Layers
    requires k <= |l.order|
  {
    Layers(l.order[..k], map key | key in l.byKey && key in l.order[..k] :: l.byKey[key])
  }

  lemma PrefixMore(l: Layers, k: nat, skip: set<string>)
    requires Keyed(l) && k < |l.order|
    ensures Take(Prefix(l, k), l.byKey[l.order[k]], false, skip) == Prefix(l, k + 1)
  {
    var key := l.order[k];
    assert key !in l.order[..k];
    assert l.order[..k + 1] == l.order[..k] + [key];
  }

  lemma TakeLast(l: Layers, children: seq<Element>, k: nat, skip: set<string>)
    requires k < |children|
    ensures TakeAll(l, children[..k + 1], false, skip) == Take(TakeAll(l, children[..k], false, skip), children[k], false, skip)
  {
    hide Take;
    assert children[..k + 1][..k] == children[..k];
  }

  /** Taking the merged elements as a node's own gives the layers back. */
  lemma {:induction false} Retaken(l: Layers, k: nat, skip: set<string>)
    requires Keyed(l) && k <= |l.order|
    ensures TakeAll(EMPTY, InOrder(l.order, l.byKey)[..k], false, skip) == Prefix(l, k)
  {
    PrefixNone(l);
    hide Take, TakeAll, Keyed, Prefix, InOrder;
    var elements := InOrder(l.order, l.byKey);
    if k > 0 {
      assert elements[k - 1] == l.byKey[l.order[k - 1]];
      Retaken(l, k - 1, skip);
      TakeLast(EMPTY, elements, k - 1, skip);
      PrefixMore(l, k - 1, skip);
    } else {
      assert elements[..0] == [];
      NothingToTake(skip);
    }
  }

  lemma NothingToTake(skip: set<string>)
    ensures TakeAll(EMPTY, [], false, skip) == EMPTY
  {
  }

  lemma PrefixNone(l: Layers)
    requires Keyed(l)
    ensures Prefix(l, 0) == EMPTY && Prefix(l, |l.order|) == l
    ensures forall k | k in l.order :: k in l.byKey
  {
    assert l.order[..|l.order|] == l.order;
  }

  // ---- The chain of styles ----

  datatype Style = Style(paragraphProperties: seq<XNode>, basedOn: string)

  /** The styles a style is based on, cut off after sixteen: a file whose styles refer
      to each other in a circle still has an end. */
  function ChainOf(styles: map<string, Style>, id: string, depth: nat): (chain: seq<seq<XNode>>)
    requires depth <= DEEPEST_STYLE
    ensures |chain| <= DEEPEST_STYLE - depth
    decreases DEEPEST_STYLE - depth
  {
    if id == "" || depth == DEEPEST_STYLE || id !in styles then []
    else [styles[id].paragraphProperties] + ChainOf(styles, styles[id].basedOn, depth + 1)
  }

  predicate IsStyle(styles: map<string, Style>, id: string) {
    id != "" && id in styles
  }

  /** The style so many steps up from one. */
  function Ancestor(styles: map<string, Style>, id: string, steps: nat): string {
    if steps == 0 then id
    else
      var below := Ancestor(styles, id, steps - 1);
      if below in styles then styles[below].basedOn else ""
  }

  lemma {:induction false} AncestorFromNext(styles: map<string, Style>, id: string, steps: nat)
    requires id in styles
    ensures Ancestor(styles, styles[id].basedOn, steps) == Ancestor(styles, id, steps + 1)
  {
    if steps > 0 { AncestorFromNext(styles, id, steps - 1); }
  }

  /** The chain goes from a style to the one it is based on and so on, nearest first. It
      ends where no style follows, or with the sixteenth. */
  lemma {:induction false} ChainFollows(styles: map<string, Style>, id: string, depth: nat)
    requires depth <= DEEPEST_STYLE
    ensures var chain := ChainOf(styles, id, depth);
            && (forall i | 0 <= i < |chain| ::
                  IsStyle(styles, Ancestor(styles, id, i)) && chain[i] == styles[Ancestor(styles, id, i)].paragraphProperties)
            && (depth + |chain| == 16 || (depth + |chain| < 16 && !IsStyle(styles, Ancestor(styles, id, |chain|))))
    decreases DEEPEST_STYLE - depth
  {
    if IsStyle(styles, id) && depth < DEEPEST_STYLE {
      var next, chain := styles[id].basedOn, ChainOf(styles, id, depth);
      ChainFollows(styles, next, depth + 1);
      forall i | 0 <= i < |chain|
        ensures IsStyle(styles, Ancestor(styles, id, i)) && chain[i] == styles[Ancestor(styles, id, i)].paragraphProperties
      {
        if i > 0 { AncestorFromNext(styles, id, i - 1); }
      }
      AncestorFromNext(styles, id, |chain| - 1);
    }
  }

  // ---- Whose attribute it is ----

  /** What some elements say of an attribute under a name: the first of them that sets it. */
  function Says(elements: seq<Element>, key: string, name: string): Option<string> {
    Nearest(WithKey(elements, key), name)
  }

  lemma {:induction false} NearestJoins(a: seq<Element>, b: seq<Element>, name: string)
    ensures Nearest(a + b, name) == if Nearest(a, name).Some? then Nearest(a, name) else Nearest(b, name)
  {
    if a == [] {
      assert a + b == b;
    } else {
      assert (a + b)[1..] == a[1..] + b;
      NearestJoins(a[1..], b, name);
    }
  }

  lemma {:induction false} WithKeyJoins(a: seq<Element>, b: seq<Element>, key: string)
    ensures WithKey(a + b, key) == WithKey(a, key) + WithKey(b, key)
  {
    if b == [] {
      assert a + b == a;
    } else {
      var n := |b| - 1;
      WithKeyJoins(a, b[..n], key);
      assert (a + b)[..|a| + n] == a + b[..n];
    }
  }

  /** A chain says what the first style in it says that says anything. */
  lemma {:induction false} ChainSays(chain: seq<seq<Element>>, key: string, name: string)
    ensures forall i | 0 <= i < |chain| && Says(chain[i], key, name).Some? && (forall j | 0 <= j < i :: Says(chain[j], key, name).None?) ::
              Says(Flat(chain), key, name) == Says(chain[i], key, name)
    ensures (forall j | 0 <= j < |chain| :: Says(chain[j], key, name).None?) ==> Says(Flat(chain), key, name).None?
  {
    if chain != [] {
      var n := |chain| - 1;
      var before := chain[..n];
      ChainSays(before, key, name);
      OneMoreSays(chain, key, name);
      hide Says, Flat;
      assert forall j | 0 <= j < n :: before[j] == chain[j];
    }
  }

  lemma OneMoreSays(chain: seq<seq<Element>>, key: string, name: string)
    requires chain != []
    ensures var n := |chain| - 1;
            Says(Flat(chain), key, name)
            == if Says(Flat(chain[..n]), key, name).Some? then Says(Flat(chain[..n]), key, name) else Says(chain[n], key, name)
  {
    var n := |chain| - 1;
    WithKeyJoins(Flat(chain[..n]), chain[n], key);
    NearestJoins(WithKey(Flat(chain[..n]), key), WithKey(chain[n], key), name);
  }

  lemma MergedElement(own: seq<Element>, chain: seq<seq<Element>>, skip: set<string>, e: Element)
    requires e in Merge(own, chain, skip)
    ensures Rule(e, Said(own, Flat(chain), skip, e.Key()))
  {
    MergeGives(own, chain, skip);
    InheritanceRule(own, chain, skip, e.Key());
  }

  /** Of a merged element that is not bare: an attribute that the node's own element
      sets is the node's; any other comes from the first style of the chain that sets
      it, and is not there if none does. What is not to be inherited is the node's own. */
  lemma AttributeIsOf(own: seq<Element>, chain: seq<seq<Element>>, skip: set<string>, e: Element, name: string)
    requires e in Merge(own, chain, skip) && e.attrs != map[]
    ensures var mine := WithKey(own, e.Key());
            var said := if name in e.attrs then Some(e.attrs[name]) else None;
            if mine != [] && name in mine[0].attrs then said == Some(mine[0].attrs[name])
            else if e.Key() in skip then said == None
            else
              && (forall i | 0 <= i < |chain| && Says(chain[i], e.Key(), name).Some?
                             && (forall j | 0 <= j < i :: Says(chain[j], e.Key(), name).None?) ::
                    said == Says(chain[i], e.Key(), name))
              && ((forall i | 0 <= i < |chain| :: Says(chain[i], e.Key(), name).None?) ==> said == None)
  {
    MergedElement(own, chain, skip, e);
    ChainSays(chain, e.Key(), name);
    hide Merge, Flat, WithKey;
    SaidOfAttribute(WithKey(own, e.Key()), WithKey(Flat(chain), e.Key()), e.Key() in skip, name);
  }

  lemma SaidOfAttribute(mine: seq<Element>, theirs: seq<Element>, skipped: bool, name: string)
    ensures Nearest(First(mine) + if skipped then [] else theirs, name)
         == if mine != [] && name in mine[0].attrs then Some(mine[0].attrs[name])
            else if skipped then None else Nearest(theirs, name)
  {
    assert mine != [] ==> First(mine)[1..] == [];
    NearestJoins(First(mine), if skipped then [] else theirs, name);
  }

  /** What a style itself says. */
  function StyleSays(styles: map<string, Style>, id: string, key: string, name: string): Option<string>
    reads if IsStyle(styles, id) then styles[id].paragraphProperties else []
  {
    if IsStyle(styles, id) then Says(Values(styles[id].paragraphProperties), key, name) else None
  }

  lemma ChainValues(styles: map<string, Style>, styleID: string, key: string, name: string)
    ensures var chain := ChainOf(styles, styleID, 0);
            var values := AllValues(chain);
            && (forall k | 0 <= k < |chain| ::
                  IsStyle(styles, Ancestor(styles, styleID, k))
                  && StyleSays(styles, Ancestor(styles, styleID, k), key, name) == Says(values[k], key, name))
            && (|chain| < 16 ==> !IsStyle(styles, Ancestor(styles, styleID, |chain|)))
  {
    ChainFollows(styles, styleID, 0);
    hide ChainOf, Ancestor, Says;
    var chain := ChainOf(styles, styleID, 0);
    assert forall k | 0 <= k < |chain| :: AllValues(chain)[k] == Values(chain[k]);
  }

  /** So it is for a paragraph and its styles: an attribute it does not set itself comes
      from the fewest steps up at which a style sets it, below sixteen. */
  lemma ParagraphInherits(own: seq<XNode>, styles: map<string, Style>, styleID: string, e: Element, name: string, steps: nat)
    requires e in Merge(Values(own), AllValues(ChainOf(styles, styleID, 0)), {"w:pStyle", "w:numPr"}) && e.attrs != map[]
    requires e.Key() != "w:pStyle" && e.Key() != "w:numPr"
    requires var mine := WithKey(Values(own), e.Key()); mine == [] || name !in mine[0].attrs
    requires steps <= 16 && forall k | 0 <= k < steps ::
        IsStyle(styles, Ancestor(styles, styleID, k)) && StyleSays(styles, Ancestor(styles, styleID, k), e.Key(), name).None?
    ensures var id := Ancestor(styles, styleID, steps);
            if steps == 16 || !IsStyle(styles, id) then name !in e.attrs
            else
              var said := StyleSays(styles, id, e.Key(), name);
              said.Some? ==> name in e.attrs && said == Some(e.attrs[name])
  {
    hide ChainOf, Ancestor, Says, Merge, WithKey, StyleSays;
    var chain := ChainOf(styles, styleID, 0);
    ChainValues(styles, styleID, e.Key(), name);
    AttributeIsOf(Values(own), AllValues(chain), {"w:pStyle", "w:numPr"}, e, name);
    if steps == 16 || !IsStyle(styles, Ancestor(styles, styleID, steps)) { assert |chain| == steps; } else { assert steps < |chain|; }
  }

  /** The paragraph's own properties over those of its style; the reference to the
      style and the numbering are never inherited. */
  method StyledParagraphProperties(own: seq<XNode>, styles: map<string, Style>, styleID: string) returns (merged: seq<XNode>)
    ensures styleID == "" ==> merged == own
    ensures styleID != "" ==>
        Values(merged) == Merge(Values(own), AllValues(ChainOf(styles, styleID, 0)), {"w:pStyle", "w:numPr"})
  {
    if styleID == "" { return own; }
    var chain := [];
    var id, depth := styleID, 0;
    while id != "" && depth < DEEPEST_STYLE
      invariant depth <= DEEPEST_STYLE
      invariant chain + ChainOf(styles, id, depth) == ChainOf(styles, styleID, 0)
      decreases DEEPEST_STYLE - depth
    {
      if id !in styles { break; }
      assert chain + ([styles[id].paragraphProperties] + ChainOf(styles, styles[id].basedOn, depth + 1))
          == chain + [styles[id].paragraphProperties] + ChainOf(styles, styles[id].basedOn, depth + 1);
      chain := chain + [styles[id].paragraphProperties];
      id := styles[id].basedOn;
      depth := depth + 1;
    }
    assert chain == ChainOf(styles, styleID, 0);
    merged := MergeProperties(own, chain, {"w:pStyle", "w:numPr"});
  }
}
