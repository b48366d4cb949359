/**
 * The state of a sitemap object and the operations on it: adding entries up
 * to the entry cap, resetting, registering namespaces, and rendering.
 */
module Document {
  import opened Basics
  import opened Php
  import opened OrderedMap
  import opened Exceptions
  import opened Schema
  import opened Builtins
  import opened Processor
  import opened Renderer

  /** `MAXIMUM_ENTRIES` of Sitemap_SitemapsOrg: the cap `addEntry` checks for every class. */
  const MAXIMUM_ENTRIES: nat := 50000

  /** A sitemap object: which class it is, its rules, its entries and its output settings. */
  datatype Sitemap = Sitemap(
    variant: Variant,
    rules: Rules,
    stack: seq<string>,
    entries: seq<Fields>,
    namespaces: seq<(string, string)>,
    rootName: string,
    entryName: string,
    useValidation: bool,
    useContentCallbacks: bool)

  /** The object after a call, and the exception the call ended with, if any. */
  datatype Step = Step(doc: Sitemap, error: Option<Error>)

  function SettingsOf(doc: Sitemap, rt: Runtime): (r: Settings) {
    Settings(doc.variant, doc.useValidation, doc.useContentCallbacks, rt)
  }

  function CtxOf(doc: Sitemap): (r: Ctx) {
    Ctx(doc.rules, doc.stack)
  }

  /** The object with the rules and the name stack a processing call left behind. */
  function WithCtx(doc: Sitemap, c: Ctx): (r: Sitemap) {
    doc.(rules := c.rules, stack := c.stack)
  }

  /**
   * `addEntry($entry)` against an entry cap: a non-array is rejected, a full
   * list is rejected, otherwise the processed entry is appended. The cap test
   * is an equality, as in the source.
   */
  function AddEntryCapped(doc: Sitemap, entry: Value, cap: nat, rt: Runtime): (r: Step)
    ensures !entry.Arr? ==> r == Step(doc, Some(MalformedEntry))
    ensures entry.Arr? && |doc.entries| == cap ==> r == Step(doc, Some(TooManyEntries(cap)))
    ensures r.error.Some? ==> r.doc.entries == doc.entries
    ensures r.error.None? <==>
      entry.Arr? && |doc.entries| != cap && ProcessLevel(entry.fields, CtxOf(doc), SettingsOf(doc, rt)).Done?
    ensures r.error.None? ==>
      r.doc.entries == doc.entries + [ProcessLevel(entry.fields, CtxOf(doc), SettingsOf(doc, rt)).value]
    ensures r.error.None? && UniqueKeys(doc.rules) ==> r.doc == doc.(entries := r.doc.entries)
    ensures r.doc == WithCtx(doc, CtxOf(r.doc)).(entries := r.doc.entries)
    ensures r.error.Some? ==>
      (r.error.value == MalformedEntry || r.error.value == TooManyEntries(cap) || ProcessingError(r.error.value))
    ensures |doc.entries| <= cap ==> |r.doc.entries| <= cap
  {
    if !entry.Arr? then Step(doc, Some(MalformedEntry))
    else if |doc.entries| == cap then Step(doc, Some(TooManyEntries(cap)))
    else
      match ProcessLevel(entry.fields, CtxOf(doc), SettingsOf(doc, rt))
      case Thrown(e, c) => Step(WithCtx(doc, c), Some(e))
      case Done(fs, c) => Step(WithCtx(doc, c).(entries := doc.entries + [fs]), None)
  }

  /**
   * `addEntry($entry)`: the maximum-entries exception comes exactly when the
   * list already holds MAXIMUM_ENTRIES entries, whatever the class.
   */
  function AddEntry(doc: Sitemap, entry: Value, rt: Runtime): (r: Step)
    ensures r == AddEntryCapped(doc, entry, MAXIMUM_ENTRIES, rt)
    ensures (r.error.Some? && r.error.value.Class() == MaximumEntries) <==>
      entry.Arr? && |doc.entries| == MAXIMUM_ENTRIES
  {
    AddEntryCapped(doc, entry, MAXIMUM_ENTRIES, rt)
  }

  /**
   * `addEntries($entries)`: addEntry on each value in order; the first
   * exception ends the loop. foreach over a non-array runs no iteration.
   */
  function AddEntries(doc: Sitemap, entries: Value, rt: Runtime): (r: Step)
    ensures !entries.Arr? ==> r == Step(doc, None)
    ensures |doc.entries| <= MAXIMUM_ENTRIES ==>
      |doc.entries| <= |r.doc.entries| <= MAXIMUM_ENTRIES
      && r.doc.entries[..|doc.entries|] == doc.entries
      && (r.error.None? ==> |r.doc.entries| == |doc.entries| + |FieldsOf(entries)|)
  {
    var values := ValuesOf(entries);
    if |doc.entries| <= MAXIMUM_ENTRIES then
      AddEachGrows(doc, values, rt);
      AddEach(doc, values, rt)
    else
      AddEach(doc, values, rt)
  }

  /** The values of an array in order; a scalar has none. */
  function ValuesOf(v: Value): (r: seq<Value>)
    ensures |r| == |FieldsOf(v)|
    ensures forall i :: 0 <= i < |r| ==> r[i] == FieldsOf(v)[i].1
  {
    var fs := FieldsOf(v);
    seq(|fs|, i requires 0 <= i < |fs| => fs[i].1)
  }

  function AddEach(doc: Sitemap, values: seq<Value>, rt: Runtime): (r: Step)
    ensures |values| == 0 ==> r == Step(doc, None)
    decreases |values|
  {
    if |values| == 0 then Step(doc, None)
    else
      var one := AddEntry(doc, values[0], rt);
      if one.error.Some? then one else AddEach(one.doc, values[1..], rt)
  }

  /**
   * addEntries keeps what it added before an exception: the entries grow by
   * at most one per value, never past the cap, and a run without exception
   * adds one entry per value.
   */
  lemma {:induction false} AddEachGrows(doc: Sitemap, values: seq<Value>, rt: Runtime)
    requires |doc.entries| <= MAXIMUM_ENTRIES
    ensures var r := AddEach(doc, values, rt);
      |doc.entries| <= |r.doc.entries| <= |doc.entries| + |values|
      && r.doc.entries[..|doc.entries|] == doc.entries
      && |r.doc.entries| <= MAXIMUM_ENTRIES
      && (r.error.None? ==> |r.doc.entries| == |doc.entries| + |values|)
    decreases |values|
  {
    if |values| > 0 {
      var one := AddEntry(doc, values[0], rt);
      if one.error.None? {
        AddEachGrows(one.doc, values[1..], rt);
        var r := AddEach(one.doc, values[1..], rt);
        assert r.doc.entries[..|one.doc.entries|] == one.doc.entries;
        assert one.doc.entries[..|doc.entries|] == doc.entries;
        assert r.doc.entries[..|doc.entries|] == r.doc.entries[..|one.doc.entries|][..|doc.entries|];
      }
    }
  }

  /** `reset()`: the entries are dropped; rules, namespaces and settings stay. */
  function Reset(doc: Sitemap): (r: Sitemap)
    ensures r.entries == [] && r == doc.(entries := [])
  {
    doc.(entries := [])
  }

  /**
   * After reset the cap is out of reach: an array entry is refused only by
   * processing, and when accepted it is the one entry the object holds.
   */
  lemma ResetThenAdd(doc: Sitemap, fields: Fields, rt: Runtime)
    ensures var r := AddEntry(Reset(doc), Arr(fields), rt);
      var p := ProcessLevel(fields, CtxOf(doc), SettingsOf(doc, rt));
      (r.error.None? <==> p.Done?)
      && (r.error.Some? ==> ProcessingError(r.error.value) && r.doc.entries == [])
      && (r.error.None? ==> r.doc.entries == [p.value])
  {
    assert CtxOf(Reset(doc)) == CtxOf(doc);
    assert SettingsOf(Reset(doc), rt) == SettingsOf(doc, rt);
  }

  /** `addNamespace($url, $prefix)`: the prefix now names the URL, replacing an earlier one. */
  function AddNamespace(doc: Sitemap, url: string, prefix: string): (r: Sitemap)
    ensures Get(r.namespaces, prefix) == Some(url)
    ensures forall q :: q != prefix ==> Get(r.namespaces, q) == Get(doc.namespaces, q)
    ensures r == doc.(namespaces := r.namespaces)
    ensures UniqueKeys(doc.namespaces) ==> UniqueKeys(r.namespaces)
  {
    doc.(namespaces := Put(doc.namespaces, prefix, url))
  }

  /** `render()` on the stored entries. */
  function Render(doc: Sitemap, rt: Runtime): (r: Result<Node, RenderError>)
    ensures r.Ok? ==>
      (r.value.Element? && r.value.name == doc.rootName && r.value.attrs == NamespaceAttributes(doc.namespaces))
  {
    RenderDocument(doc.rootName, doc.entryName, doc.namespaces, doc.entries, rt)
  }

  /**
   * A processed collection under the element name `k` renders as one more
   * `k` element than it has items: the first holds the named part, then one
   * per item in order.
   */
  lemma ProcessedCollectionRenders(name: string, k: string, fs: Fields, rt: Runtime)
    requires CollectionShaped(fs)
    requires RenderFields(name, true, [(Name(k), Arr(fs))], rt).Ok?
    ensures var out := RenderFields(name, true, [(Name(k), Arr(fs))], rt).value;
      out.siblings == [] && |out.kids| == LeadingItems(fs) + 1 && AllNamed(out.kids, k)
  {
    var n := LeadingItems(fs);
    var items := fs[..n];
    var rest := fs[n..];
    assert items + rest == fs;
    forall p | p in items
      ensures ItemLike(p)
    {
      var j :| 0 <= j < n && items[j] == p;
      assert fs[j] == p;
    }
    CollectionRendersOneMore(name, k, items, rest, rt);
  }
}
