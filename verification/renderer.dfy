/**
 * Rendering of processed entries (`_renderNode`, `_applyNamespaces`, `render`)
 * into an abstract element tree. A string key becomes a child element; an
 * array under an integer key becomes a further element carrying the current
 * element's name, appended to the current element's parent.
 */
module Renderer {
  import opened Basics
  import opened Php
  import opened OrderedMap

  /** An element with its attributes and children, or a text node. */
  datatype Node = Element(name: string, attrs: seq<(string, string)>, children: seq<Node>) | Text(text: string)

  /** Why the DOM calls fail. */
  datatype RenderError =
    | InvalidName(index: int)   // createElement with an integer name (a DOMException)
    | NoParent                  // an item under an element that has no parent yet

  /**
   * What rendering the fields of one element produces: the element's own
   * children, and the elements appended to its parent after it.
   */
  datatype Rendered = Rendered(kids: seq<Node>, siblings: seq<Node>) {
    /** This output followed by a later one. */
    function Then(later: Rendered): Rendered {
      Rendered(kids + later.kids, siblings + later.siblings)
    }
  }

  lemma ThenAssociative(x: Rendered, y: Rendered, z: Rendered)
    ensures x.Then(y.Then(z)) == x.Then(y).Then(z)
  {
    assert x.kids + (y.kids + z.kids) == x.kids + y.kids + z.kids;
    assert x.siblings + (y.siblings + z.siblings) == x.siblings + y.siblings + z.siblings;
  }

  /** Every node is an element: text appears only inside an element. */
  predicate AllElements(nodes: seq<Node>) {
    forall i :: 0 <= i < |nodes| ==> nodes[i].Element?
  }

  /** An element without attributes. */
  function Elem(name: string, children: seq<Node>): Node {
    Element(name, [], children)
  }

  /**
   * `_renderNode($element, $fields)` for an element called `name`; `hasParent`
   * says whether the element already hangs in the tree.
   */
  function RenderFields(name: string, hasParent: bool, fs: Fields, rt: Runtime): (r: Result<Rendered, RenderError>)
    ensures r.Ok? ==> AllElements(r.value.kids) && AllElements(r.value.siblings)
    decreases Total(fs)
  {
    if |fs| == 0 then Ok(Rendered([], []))
    else
      match RenderField(name, hasParent, fs[0].0, fs[0].1, rt)
      case Err(e) => Err(e)
      case Ok(head) =>
        match RenderFields(name, hasParent, fs[1..], rt)
        case Err(e) => Err(e)
        case Ok(tail) => Ok(head.Then(tail))
  }

  /** One iteration of the loop in `_renderNode`. */
  function RenderField(name: string, hasParent: bool, k: Key, v: Value, rt: Runtime): (r: Result<Rendered, RenderError>)
    ensures r.Ok? ==> AllElements(r.value.kids) && AllElements(r.value.siblings)
    ensures r.Ok? && k.Name? ==>
      r.value.siblings == [] && |r.value.kids| > 0 && r.value.kids[0].name == k.name
    ensures r.Ok? && k.Idx? ==>
      r.value.kids == [] && |r.value.siblings| > 0 && r.value.siblings[0].name == name && v.Arr? && hasParent
    ensures k.Name? && !v.Arr? ==> r == Ok(Rendered([Elem(k.name, [Text(ToStr(v, rt))])], []))
    ensures k.Idx? && !v.Arr? ==> r == Err(InvalidName(k.index))
    ensures k.Idx? && !hasParent ==> r.Err?
    decreases Size(v), 1
  {
    if v.Arr? then
      if k.Idx? && !hasParent then Err(NoParent)
      else
        var tag := if k.Idx? then name else k.name;
        SizeOfArr(v.fields);
        match RenderFields(tag, true, v.fields, rt)
        case Err(e) => Err(e)
        case Ok(sub) =>
          if k.Idx? then Ok(Rendered([], [Elem(tag, sub.kids)] + sub.siblings))
          else Ok(Rendered([Elem(tag, sub.kids)] + sub.siblings, []))
    else if k.Idx? then Err(InvalidName(k.index))
    else Ok(Rendered([Elem(k.name, [Text(ToStr(v, rt))])], []))
  }

  /**
   * The inputs `_renderNode` handles without a DOM failure: an integer key
   * only on an array, under an element that has a parent, and the same for
   * every nested array.
   */
  predicate Renderable(hasParent: bool, fs: Fields)
    decreases Total(fs)
  {
    |fs| == 0 ||
    ((fs[0].0.Idx? ==> fs[0].1.Arr? && hasParent)
     && (fs[0].1.Arr? ==> (SizeOfArr(fs[0].1.fields); Renderable(true, fs[0].1.fields)))
     && Renderable(hasParent, fs[1..]))
  }

  /** Rendering fails exactly on the inputs the DOM rejects. */
  lemma {:induction false} RenderableIff(name: string, hasParent: bool, fs: Fields, rt: Runtime)
    ensures RenderFields(name, hasParent, fs, rt).Ok? <==> Renderable(hasParent, fs)
    decreases Total(fs)
  {
    if |fs| > 0 {
      var k := fs[0].0;
      var v := fs[0].1;
      if v.Arr? {
        SizeOfArr(v.fields);
        RenderableIff(if k.Idx? then name else k.name, true, v.fields, rt);
      }
      RenderableIff(name, hasParent, fs[1..], rt);
    }
  }

  /** Only an array under an integer key reaches the parent: a level of names renders inside its element. */
  lemma {:induction false} NamesStayInside(name: string, hasParent: bool, fs: Fields, rt: Runtime)
    requires NamesOnly(fs)
    ensures RenderFields(name, hasParent, fs, rt).Ok? ==> RenderFields(name, hasParent, fs, rt).value.siblings == []
    decreases |fs|
  {
    if |fs| > 0 {
      assert fs[0].0 in Keys(fs);
      assert forall k | k in Keys(fs[1..]) :: k in Keys(fs) by {
        forall k | k in Keys(fs[1..]) ensures k in Keys(fs) {
          var i := KeyAt(fs[1..], k);
          assert fs[1..][i] == fs[i + 1];
        }
      }
      NamesStayInside(name, hasParent, fs[1..], rt);
    }
  }

  /** The element that has no parent yet never passes anything up. */
  lemma {:induction false} TopLevelStaysInside(name: string, fs: Fields, rt: Runtime)
    ensures RenderFields(name, false, fs, rt).Ok? ==> RenderFields(name, false, fs, rt).value.siblings == []
    decreases |fs|
  {
    if |fs| > 0 {
      TopLevelStaysInside(name, fs[1..], rt);
    }
  }

  /** Each element of a node sequence carries the given name. */
  predicate AllNamed(nodes: seq<Node>, name: string) {
    forall i :: 0 <= i < |nodes| ==> nodes[i].Element? && nodes[i].name == name
  }

  /** A level whose keys are all names. */
  predicate NamesOnly(fs: Fields) {
    forall k | k in Keys(fs) :: k.Name?
  }

  /** A processed collection item: an array of names under an integer key. */
  predicate ItemLike(p: (Key, Value)) {
    p.0.Idx? && p.1.Arr? && NamesOnly(p.1.fields)
  }

  /** `node` is the element an item becomes: the current name, and what the item's level renders to. */
  predicate SiblingOf(name: string, p: (Key, Value), node: Node, rt: Runtime) {
    RenderFields(name, true, FieldsOf(p.1), rt).Ok?
    && node == Elem(name, RenderFields(name, true, FieldsOf(p.1), rt).value.kids)
  }

  /** The nodes are the items' elements, one for one and in order. */
  predicate SiblingsOf(name: string, items: Fields, nodes: seq<Node>, rt: Runtime) {
    |nodes| == |items| && forall j :: 0 <= j < |items| ==> SiblingOf(name, items[j], nodes[j], rt)
  }

  /**
   * Items under integer keys whose own levels hold names only: each becomes
   * one element with the current element's name, in order, holding exactly
   * what its level renders to.
   */
  lemma {:induction false} ItemsBecomeSiblings(name: string, items: Fields, rt: Runtime)
    requires forall p | p in items :: ItemLike(p)
    requires RenderFields(name, true, items, rt).Ok?
    ensures RenderFields(name, true, items, rt).value.kids == []
    ensures SiblingsOf(name, items, RenderFields(name, true, items, rt).value.siblings, rt)
    decreases |items|
  {
    if |items| > 0 {
      var p := items[0];
      assert p in items;
      var head := ItemSibling(name, p.0, p.1, rt);
      assert forall q | q in items[1..] :: q in items;
      ItemsBecomeSiblings(name, items[1..], rt);
      var tail := RenderFields(name, true, items[1..], rt).value;
      assert RenderFields(name, true, items, rt).value == Rendered(tail.kids, [head] + tail.siblings);
      SiblingsCons(name, p, items[1..], head, tail.siblings, rt);
      assert [p] + items[1..] == items;
    }
  }

  lemma SiblingsCons(name: string, p: (Key, Value), items: Fields, node: Node, nodes: seq<Node>, rt: Runtime)
    requires SiblingOf(name, p, node, rt) && SiblingsOf(name, items, nodes, rt)
    ensures SiblingsOf(name, [p] + items, [node] + nodes, rt)
  {
    forall j | 0 <= j < |items| + 1
      ensures SiblingOf(name, ([p] + items)[j], ([node] + nodes)[j], rt)
    {
      if j > 0 {
        assert ([p] + items)[j] == items[j - 1];
        assert ([node] + nodes)[j] == nodes[j - 1];
      }
    }
  }

  /** One item: a single element with the current name, holding what the item's level renders to. */
  lemma ItemSibling(name: string, k: Key, v: Value, rt: Runtime) returns (node: Node)
    requires ItemLike((k, v))
    requires RenderField(name, true, k, v, rt).Ok?
    ensures SiblingOf(name, (k, v), node, rt)
    ensures RenderField(name, true, k, v, rt).value == Rendered([], [node])
  {
    NamesStayInside(name, true, v.fields, rt);
    node := Elem(name, RenderFields(name, true, v.fields, rt).value.kids);
  }

  /**
   * A processed collection under the name `k`, N items followed by named
   * fields, renders as N + 1 elements called `k`: first the element holding
   * the named fields, then one per item in order.
   */
  lemma CollectionRendersOneMore(name: string, k: string, items: Fields, rest: Fields, rt: Runtime)
    requires forall p | p in items :: ItemLike(p)
    requires NamesOnly(rest)
    requires RenderFields(name, true, [(Name(k), Arr(items + rest))], rt).Ok?
    ensures var out := RenderFields(name, true, [(Name(k), Arr(items + rest))], rt).value;
      out.siblings == [] && |out.kids| == |items| + 1 && AllNamed(out.kids, k)
      && RenderFields(k, true, rest, rt).Ok? && out.kids[0] == Elem(k, RenderFields(k, true, rest, rt).value.kids)
      && SiblingsOf(k, items, out.kids[1..], rt)
  {
    var fs := items + rest;
    NamedArrayRenders(name, k, fs, rt);
    RenderedParts(k, items, rest, rt);
    var a := RenderFields(k, true, items, rt).value;
    var b := RenderFields(k, true, rest, rt).value;
    ItemsBecomeSiblings(k, items, rt);
    NamesStayInside(k, true, rest, rt);
    var sub := RenderFields(k, true, fs, rt).value;
    assert sub.kids == b.kids by {
      assert a.kids == [];
    }
    assert sub.siblings == a.siblings by {
      assert b.siblings == [];
    }
    var out := RenderFields(name, true, [(Name(k), Arr(fs))], rt).value;
    assert out.kids == [Elem(k, b.kids)] + a.siblings && out.siblings == [];
    assert out.kids[1..] == a.siblings;
  }

  /** When a concatenation renders, both parts do, and its output is theirs in order. */
  lemma RenderedParts(k: string, a: Fields, b: Fields, rt: Runtime)
    requires RenderFields(k, true, a + b, rt).Ok?
    ensures RenderFields(k, true, a, rt).Ok? && RenderFields(k, true, b, rt).Ok?
    ensures RenderFields(k, true, a + b, rt).value == RenderFields(k, true, a, rt).value.Then(RenderFields(k, true, b, rt).value)
  {
    RenderAppend(k, true, a, b, rt);
  }

  /** A named array field becomes one element holding what its level renders inside, followed by that level's siblings. */
  lemma NamedArrayRenders(name: string, k: string, fs: Fields, rt: Runtime)
    requires RenderFields(name, true, [(Name(k), Arr(fs))], rt).Ok?
    ensures RenderFields(k, true, fs, rt).Ok?
    ensures var sub := RenderFields(k, true, fs, rt).value;
      RenderFields(name, true, [(Name(k), Arr(fs))], rt).value == Rendered([Elem(k, sub.kids)] + sub.siblings, [])
  {
    SizeOfArr(fs);
    var one: Fields := [(Name(k), Arr(fs))];
    assert one[1..] == [];
  }

  /** Rendering a concatenation renders the parts one after the other. */
  lemma {:induction false} RenderAppend(name: string, hasParent: bool, a: Fields, b: Fields, rt: Runtime)
    ensures RenderFields(name, hasParent, a + b, rt).Ok? <==>
      RenderFields(name, hasParent, a, rt).Ok? && RenderFields(name, hasParent, b, rt).Ok?
    ensures (RenderFields(name, hasParent, a + b, rt).Ok? && RenderFields(name, hasParent, a, rt).Ok?
      && RenderFields(name, hasParent, b, rt).Ok?) ==>
      RenderFields(name, hasParent, a + b, rt).value ==
      RenderFields(name, hasParent, a, rt).value.Then(RenderFields(name, hasParent, b, rt).value)
    decreases |a|
  {
    if |a| == 0 {
      assert a + b == b;
      var rb := RenderFields(name, hasParent, b, rt);
      assert rb.Ok? ==> Rendered([], []).Then(rb.value) == rb.value;
    } else {
      assert (a + b)[0] == a[0];
      assert (a + b)[1..] == a[1..] + b;
      RenderAppend(name, hasParent, a[1..], b, rt);
      var h := RenderField(name, hasParent, a[0].0, a[0].1, rt);
      var ra := RenderFields(name, hasParent, a[1..], rt);
      var rb := RenderFields(name, hasParent, b, rt);
      if h.Ok? && ra.Ok? && rb.Ok? {
        ThenAssociative(h.value, ra.value, rb.value);
      }
    }
  }

  // ---------------------------------------------------------------- the document

  /** The attribute `_applyNamespaces` writes for a prefix: `xmlns`, or `xmlns:prefix`. */
  function QualifiedName(prefix: string): (r: string)
    ensures StartsWith(r, "xmlns")
    ensures !EmptyString(prefix) ==> r == "xmlns:" + prefix
  {
    if EmptyString(prefix) then "xmlns" else "xmlns:" + prefix
  }

  /** `_applyNamespaces`: one attribute per namespace; a repeated attribute name keeps the later value. */
  function NamespaceAttributes(namespaces: seq<(string, string)>): (r: seq<(string, string)>)
    ensures UniqueKeys(r)
    ensures Keys(r) == set p | p in Keys(namespaces) :: QualifiedName(p)
  {
    if |namespaces| == 0 then []
    else
      var init := namespaces[..|namespaces| - 1];
      var last := namespaces[|namespaces| - 1];
      assert namespaces == init + [last];
      KeysAppend(init, [last]);
      assert Keys([last]) == {last.0};
      Put(NamespaceAttributes(init), QualifiedName(last.0), last.1)
  }

  /**
   * A prefix whose attribute name no other prefix shares declares exactly the
   * schema registered for it.
   */
  lemma {:induction false} NamespaceDeclared(namespaces: seq<(string, string)>, prefix: string)
    requires UniqueKeys(namespaces)
    requires forall q | q in Keys(namespaces) && QualifiedName(q) == QualifiedName(prefix) :: q == prefix
    ensures Get(NamespaceAttributes(namespaces), QualifiedName(prefix)) == Get(namespaces, prefix)
    decreases |namespaces|
  {
    if |namespaces| > 0 {
      var n := |namespaces| - 1;
      var init := namespaces[..n];
      assert namespaces == init + [namespaces[n]];
      UniqueAppend(init, [namespaces[n]]);
      KeysAppend(init, [namespaces[n]]);
      GetSnoc(init, namespaces[n], prefix);
      NamespaceDeclared(init, prefix);
    }
  }

  /** Looking a key up in a sequence with one more pair at the end. */
  lemma {:induction false} GetSnoc(m: seq<(string, string)>, p: (string, string), k: string)
    requires p.0 !in Keys(m)
    ensures Get(m + [p], k) == if k == p.0 then Some(p.1) else Get(m, k)
    decreases |m|
  {
    if |m| > 0 {
      assert (m + [p])[1..] == m[1..] + [p];
      assert m[0].0 in Keys(m);
      assert Keys(m[1..]) <= Keys(m) by {
        forall x | x in Keys(m[1..]) ensures x in Keys(m) {
          var i := KeyAt(m[1..], x);
          assert m[1..][i] == m[i + 1];
        }
      }
      GetSnoc(m[1..], p, k);
    } else {
      assert m + [p] == [p];
    }
  }

  /**
   * `render()`: the root element with the namespace attributes, holding one
   * entry element per stored entry in order. The entry element is not yet
   * attached while its fields are rendered.
   */
  function RenderDocument(rootName: string, entryName: string, namespaces: seq<(string, string)>,
                          entries: seq<Fields>, rt: Runtime): (r: Result<Node, RenderError>)
  {
    match RenderEntries(entryName, entries, rt)
    case Err(e) => Err(e)
    case Ok(nodes) => Ok(Element(rootName, NamespaceAttributes(namespaces), nodes))
  }

  function RenderEntries(entryName: string, entries: seq<Fields>, rt: Runtime): (r: Result<seq<Node>, RenderError>)
  {
    if |entries| == 0 then Ok([])
    else
      match RenderFields(entryName, false, entries[0], rt)
      case Err(e) => Err(e)
      case Ok(one) =>
        match RenderEntries(entryName, entries[1..], rt)
        case Err(e) => Err(e)
        case Ok(more) => Ok([Elem(entryName, one.kids)] + more)
  }

  /**
   * Every stored entry becomes exactly one entry element, in order, holding
   * what its fields render to.
   */
  lemma {:induction false} OneElementPerEntry(entryName: string, entries: seq<Fields>, rt: Runtime)
    ensures RenderEntries(entryName, entries, rt).Ok? <==>
      forall i :: 0 <= i < |entries| ==> RenderFields(entryName, false, entries[i], rt).Ok?
    ensures RenderEntries(entryName, entries, rt).Ok? ==>
      var nodes := RenderEntries(entryName, entries, rt).value;
      |nodes| == |entries| && AllNamed(nodes, entryName)
      && forall i :: 0 <= i < |entries| ==> nodes[i].children == RenderFields(entryName, false, entries[i], rt).value.kids
    decreases |entries|
  {
    if |entries| > 0 {
      OneElementPerEntry(entryName, entries[1..], rt);
      assert forall i :: 1 <= i < |entries| ==> entries[i] == entries[1..][i - 1];
    }
  }
}
