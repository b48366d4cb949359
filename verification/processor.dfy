/**
 * The entry pipeline of Sitemap_SitemapsOrg (`_progressEntryData`): the
 * required-node check, the walk over an entry's fields, validation with
 * fallback, content callbacks, sub-node collections, the schema swap for
 * children, and node naming from the parent-name stack.
 */
module Processor {
  import opened Basics
  import opened Php
  import opened OrderedMap
  import opened Exceptions
  import opened Schema
  import opened Builtins
  import opened Callbacks

  /** The mutable part of a sitemap object the pipeline reads and writes. */
  datatype Ctx = Ctx(rules: Rules, stack: seq<string>)

  /** The object's switches and the behaviour it delegates to PHP. */
  datatype Settings = Settings(variant: Variant, useValidation: bool, useContentCallbacks: bool, rt: Runtime)

  /**
   * A finished call, or the exception that ended it. Either way the context
   * is the one the object is left in: an exception skips every restore.
   */
  datatype Outcome<+T> = Done(value: T, ctx: Ctx) | Thrown(error: Error, ctx: Ctx)

  /** `array_pop` on the parent-name stack. */
  function Pop(s: seq<string>): seq<string> {
    if |s| == 0 then s else s[..|s| - 1]
  }

  /** `_generateNodeName`: the element name of a processed node. */
  function TagName(name: string, rule: Rule, stack: seq<string>): (r: string)
    ensures rule.prefix != Some(Chain) ==> EndsWith(r, name)
    ensures rule.prefix == Some(Chain) && |stack| > 0 ==> EndsWith(r, stack[|stack| - 1])
    ensures rule.prefix == Some(Chain) && |stack| > 1 ==> StartsWith(r, stack[0] + ":")
    ensures rule.prefix.None? || rule.prefix == Some(Unprefixed) ==> r == name
    ensures rule.prefix.Some? && rule.prefix.value.Named? ==> StartsWith(r, rule.prefix.value.text + ":")
  {
    match rule.prefix
    case Some(Chain) => Join(":", stack)
    case Some(Named(p)) => p + ":" + name
    case _ => name
  }

  /** `!isset($entry[$node]) || empty($entry[$node])`. */
  predicate Missing(fields: Fields, name: string) {
    var v := Get(fields, Name(name));
    v.None? || Empty(v.value)
  }

  /** The first rule, in declaration order, that is required and missing from the fields. */
  function FirstMissingRequired(rules: Rules, fields: Fields): (r: Option<string>)
    ensures r.None? <==> forall i :: 0 <= i < |rules| && IsRequired(rules[i].1) ==> !Missing(fields, rules[i].0)
    ensures r.Some? ==> exists i :: (0 <= i < |rules| && rules[i].0 == r.value && IsRequired(rules[i].1)
      && Missing(fields, r.value)
      && forall j :: 0 <= j < i && IsRequired(rules[j].1) ==> !Missing(fields, rules[j].0))
  {
    if |rules| == 0 then None
    else if IsRequired(rules[0].1) && Missing(fields, rules[0].0) then Some(rules[0].0)
    else
      var r := FirstMissingRequired(rules[1..], fields);
      assert r.Some? ==> exists i :: (1 <= i < |rules| && rules[i].0 == r.value && IsRequired(rules[i].1)
        && Missing(fields, r.value)
        && forall j :: 0 <= j < i && IsRequired(rules[j].1) ==> !Missing(fields, rules[j].0)) by {
        if r.Some? {
          var k :| 0 <= k < |rules[1..]| && rules[1..][k].0 == r.value && IsRequired(rules[1..][k].1)
            && Missing(fields, r.value)
            && forall j :: 0 <= j < k && IsRequired(rules[1..][j].1) ==> !Missing(fields, rules[1..][j].0);
          assert rules[k + 1] == rules[1..][k];
          forall j | 0 <= j < k + 1 && IsRequired(rules[j].1)
            ensures !Missing(fields, rules[j].0)
          {
            if j > 0 {
              assert rules[j] == rules[1..][j - 1];
            }
          }
        }
      }
      r
  }

  // ---------------------------------------------------------------- scalars

  /**
   * The validation step for a scalar: a falsy verdict substitutes the
   * fallback, or raises when the fallback is the sentinel.
   */
  function Validate(name: string, rule: Rule, data: Value, s: Settings): (r: Result<Value, Error>)
    ensures !s.useValidation || rule.validation.None? ==> r == Ok(data)
    ensures r.Err? ==> r.error == ValidationFailed(name) && r.error.Class() == Exceptions.Validation
    ensures r.Err? ==> rule.fallback.Some? && rule.fallback.value.Raises()
    ensures r.Ok? && r.value != data ==>
      (rule.fallback.None? && r.value == Null) || (rule.fallback.Some? && rule.fallback.value.Lit? && r.value == rule.fallback.value.value)
    ensures s.useValidation && rule.validation.Some? ==>
      var verdict := Execute(rule.validation.value, data, "validation_", Internal, s.variant, s.rt);
      verdict.Ok?
      && (Truthy(verdict.value) ==> r == Ok(data))
      && (!Truthy(verdict.value) && rule.fallback.None? ==> r == Ok(Null))
      && (!Truthy(verdict.value) && rule.fallback.Some? && rule.fallback.value.Raises() ==> r == Err(ValidationFailed(name)))
      && (!Truthy(verdict.value) && rule.fallback.Some? && !rule.fallback.value.Raises() ==> r == Ok(rule.fallback.value.value))
  {
    if !s.useValidation || rule.validation.None? then Ok(data)
    else
      InternalRequirementNeverThrows(rule.validation.value, data, "validation_", s.variant, s.rt);
      var verdict := Execute(rule.validation.value, data, "validation_", Internal, s.variant, s.rt).value;
      if Truthy(verdict) then Ok(data)
      else if rule.fallback.None? then Ok(Null)
      else if rule.fallback.value.Raises() then Err(ValidationFailed(name))
      else Ok(rule.fallback.value.value)
  }

  /** The content step for a scalar: the content callback's result replaces the value. */
  function Transform(rule: Rule, data: Value, s: Settings): (r: Value)
    ensures !s.useContentCallbacks || rule.content.None? ==> r == data
    ensures s.useContentCallbacks && rule.content.Some? ==>
      Execute(rule.content.value, data, "content_", Internal, s.variant, s.rt) == Ok(r)
  {
    if !s.useContentCallbacks || rule.content.None? then data
    else
      InternalRequirementNeverThrows(rule.content.value, data, "content_", s.variant, s.rt);
      Execute(rule.content.value, data, "content_", Internal, s.variant, s.rt).value
  }

  /** A scalar node: validation first, then the content callback on what validation left. */
  function ProcessScalar(name: string, rule: Rule, data: Value, s: Settings): (r: Result<Value, Error>)
    ensures r.Err? <==> Validate(name, rule, data, s).Err?
    ensures r.Ok? ==> r.value == Transform(rule, Validate(name, rule, data, s).value, s)
  {
    match Validate(name, rule, data, s)
    case Err(e) => Err(e)
    case Ok(v) => Ok(Transform(rule, v, s))
  }

  // ---------------------------------------------------------------- shapes

  /** A processed level: every key is an element name, and no name appears twice. */
  predicate NamedLevel(fs: Fields) {
    UniqueKeys(fs) && forall k | k in Keys(fs) :: k.Name?
  }

  /** The fields whose keys are names (`unset` of every integer key). */
  function NamedPart(fs: Fields): (r: Fields)
    ensures Total(r) <= Total(fs)
    ensures forall k | k in Keys(r) :: k.Name?
    ensures Keys(r) == (set k | k in Keys(fs) && k.Name?)
  {
    if |fs| == 0 then []
    else if fs[0].0.Idx? then NamedPart(fs[1..])
    else [fs[0]] + NamedPart(fs[1..])
  }

  /** The values of the integer-keyed fields, in order: the sub-node collection items. */
  function Items(fs: Fields): (r: seq<Value>)
    ensures |r| <= |fs|
  {
    if |fs| == 0 then []
    else if fs[0].0.Idx? then [fs[0].1] + Items(fs[1..])
    else Items(fs[1..])
  }

  /** The number of leading integer keys. */
  function LeadingItems(fs: Fields): (n: nat)
    ensures n <= |fs|
    ensures forall j :: 0 <= j < n ==> fs[j].0.Idx?
    ensures n < |fs| ==> fs[n].0.Name?
  {
    if |fs| == 0 || fs[0].0.Name? then 0 else 1 + LeadingItems(fs[1..])
  }

  /**
   * A processed node with array data: items numbered 0, 1, ... each holding a
   * processed level, followed by the processed named part.
   */
  predicate CollectionShaped(fs: Fields) {
    var n := LeadingItems(fs);
    (forall j :: 0 <= j < n ==> fs[j].0 == Idx(j) && fs[j].1.Arr? && NamedLevel(fs[j].1.fields))
    && NamedLevel(fs[n..])
  }

  /** The number of integer keys. */
  function CountIdx(fs: Fields): nat {
    if |fs| == 0 then 0 else (if fs[0].0.Idx? then 1 else 0) + CountIdx(fs[1..])
  }

  /**
   * `array_merge`'s walk over one array: integer keys are renumbered after
   * the integer keys already present, other keys are set in place.
   */
  function MergeAppend(acc: Fields, fs: Fields): Fields
    decreases |fs|
  {
    if |fs| == 0 then acc
    else if fs[0].0.Idx? then MergeAppend(acc + [(Idx(CountIdx(acc)), fs[0].1)], fs[1..])
    else MergeAppend(Put(acc, fs[0].0, fs[0].1), fs[1..])
  }

  /** `array_merge($a, $b)`. */
  function ArrayMerge(a: Fields, b: Fields): Fields {
    MergeAppend(MergeAppend([], a), b)
  }

  /** The items renumbered from 0 in their order. */
  function Numbered(items: seq<Value>): (r: Fields)
    ensures |r| == |items|
    ensures forall j :: 0 <= j < |r| ==> r[j] == (Idx(j), items[j])
  {
    seq(|items|, j requires 0 <= j < |items| => (Idx(j), items[j]))
  }

  /** The values of a field sequence, in order. */
  function ItemValues(fs: Fields): (r: seq<Value>)
    ensures |r| == |fs|
    ensures forall j :: 0 <= j < |fs| ==> r[j] == fs[j].1
  {
    seq(|fs|, j requires 0 <= j < |fs| => fs[j].1)
  }

  /**
   * The element names a level yields: one per field whose key names a rule
   * of the level, as `_generateNodeName` forms it with that name pushed.
   */
  function ExpectedNames(fields: Fields, rules: Rules, stack: seq<string>): set<Key> {
    if |fields| == 0 then {}
    else
      var k := fields[0].0;
      var here := if k.Name? && Get(rules, k.name).Some?
        then {Name(TagName(k.name, Get(rules, k.name).value, stack + [k.name]))} else {};
      here + ExpectedNames(fields[1..], rules, stack)
  }

  // ---------------------------------------------------------------- the walk

  /**
   * The exceptions processing can raise: a missing required node, a failed
   * validation, or a child level the registration guard rejects.
   */
  predicate ProcessingError(e: Error) {
    e.RequiredMissing? || e.ValidationFailed? || e == FallbackMissing
  }

  /** `_progressEntryData($entry)` on the current rules: the required check, then the fields. */
  function ProcessLevel(fields: Fields, ctx: Ctx, s: Settings): (r: Outcome<Fields>)
    decreases Total(fields), 3
    ensures r.Thrown? ==> ProcessingError(r.error)
    ensures r.Done? ==> NamedLevel(r.value) && r.ctx.stack == ctx.stack
    ensures r.Done? && UniqueKeys(ctx.rules) ==> r.ctx.rules == ctx.rules
    ensures r.Done? && UniqueKeys(ctx.rules) ==> Keys(r.value) == ExpectedNames(fields, ctx.rules, ctx.stack)
    ensures FirstMissingRequired(ctx.rules, fields).Some? ==>
      r == Thrown(RequiredMissing(FirstMissingRequired(ctx.rules, fields).value), ctx)
  {
    match FirstMissingRequired(ctx.rules, fields)
    case Some(n) => Thrown(RequiredMissing(n), ctx)
    case None => ProcessFrom(fields, [], ctx, s)
  }

  /**
   * The loop over an entry's fields: unconfigured and integer keys are
   * dropped; a configured one is processed with its name pushed, stored under
   * its element name, and popped.
   */
  function ProcessFrom(fields: Fields, acc: Fields, ctx: Ctx, s: Settings): (r: Outcome<Fields>)
    requires NamedLevel(acc)
    decreases Total(fields), 2
    ensures r.Thrown? ==> ProcessingError(r.error)
    ensures r.Done? ==> NamedLevel(r.value) && r.ctx.stack == ctx.stack
    ensures r.Done? && UniqueKeys(ctx.rules) ==> r.ctx.rules == ctx.rules
    ensures r.Done? && UniqueKeys(ctx.rules) ==>
      Keys(r.value) == Keys(acc) + ExpectedNames(fields, ctx.rules, ctx.stack)
  {
    if |fields| == 0 then Done(acc, ctx)
    else
      var (key, data) := fields[0];
      if key.Idx? || Get(ctx.rules, key.name).None? then ProcessFrom(fields[1..], acc, ctx, s)
      else
        var rule := Get(ctx.rules, key.name).value;
        match ProcessField(key.name, rule, data, ctx.(stack := ctx.stack + [key.name]), s)
        case Thrown(e, c) => Thrown(e, c)
        case Done(v, c) =>
          assert Pop(c.stack) == ctx.stack;
          ProcessFrom(fields[1..], Put(acc, Name(TagName(key.name, rule, c.stack)), v), c.(stack := Pop(c.stack)), s)
  }

  /** One configured node: array data is a collection, anything else a scalar. */
  function ProcessField(name: string, rule: Rule, data: Value, ctx: Ctx, s: Settings): (r: Outcome<Value>)
    decreases Size(data), 1
    ensures r.Thrown? ==> ProcessingError(r.error)
    ensures r.Done? ==> r.ctx.stack == ctx.stack
    ensures r.Done? && UniqueKeys(ctx.rules) ==> r.ctx.rules == ctx.rules
    ensures r.Done? && data.Arr? ==> r.value.Arr? && CollectionShaped(r.value.fields)
    ensures !data.Arr? ==> match ProcessScalar(name, rule, data, s)
      case Ok(v) => r == Done(v, ctx)
      case Err(e) => r == Thrown(e, ctx)
  {
    if data.Arr? then
      SizeOfArr(data.fields);
      ProcessCollection(rule.children, data.fields, ctx, s)
    else
      match ProcessScalar(name, rule, data, s)
      case Ok(v) => Done(v, ctx)
      case Err(e) => Thrown(e, ctx)
  }

  /**
   * Array data: every integer-keyed item is processed as a level of the
   * children, then the named rest if there is any, and the two are merged
   * with the items renumbered.
   */
  function ProcessCollection(children: Children, fs: Fields, ctx: Ctx, s: Settings): (r: Outcome<Value>)
    decreases Total(fs), 7
    ensures r.Thrown? ==> ProcessingError(r.error)
    ensures r.Done? ==> r.ctx.stack == ctx.stack
    ensures r.Done? && UniqueKeys(ctx.rules) ==> r.ctx.rules == ctx.rules
    ensures r.Done? ==> r.value.Arr? && CollectionShaped(r.value.fields)
  {
    match ProcessItems(children, fs, [], ctx, s)
    case Thrown(e, c) => Thrown(e, c)
    case Done(items, c) =>
      var rest := NamedPart(fs);
      if |rest| == 0 then
        MergeItems(items, []);
        Done(Arr(ArrayMerge(items, [])), c)
      else
        match Descend(children, rest, c, s)
        case Thrown(e, c2) => Thrown(e, c2)
        case Done(t, c2) =>
          MergeItems(items, t);
          Done(Arr(ArrayMerge(items, t)), c2)
  }

  /** The loop over a collection's integer keys. */
  function ProcessItems(children: Children, fs: Fields, acc: Fields, ctx: Ctx, s: Settings): (r: Outcome<Fields>)
    requires ItemsShaped(acc)
    decreases Total(fs), 6
    ensures r.Thrown? ==> ProcessingError(r.error)
    ensures r.Done? ==> ItemsShaped(r.value) && r.ctx.stack == ctx.stack
    ensures r.Done? && UniqueKeys(ctx.rules) ==> r.ctx.rules == ctx.rules
  {
    if |fs| == 0 then Done(acc, ctx)
    else if fs[0].0.Name? then ProcessItems(children, fs[1..], acc, ctx, s)
    else
      SizeOfArr(FieldsOf(fs[0].1));
      match Descend(children, FieldsOf(fs[0].1), ctx, s)
      case Thrown(e, c) => Thrown(e, c)
      case Done(t, c) => ProcessItems(children, fs[1..], Put(acc, fs[0].0, Arr(t)), c, s)
  }

  /** A processed collection item: an integer key holding a processed level. */
  predicate ItemShaped(p: (Key, Value)) {
    p.0.Idx? && p.1.Arr? && NamedLevel(p.1.fields)
  }

  /** Processed collection items under distinct keys. */
  predicate ItemsShaped(fs: Fields) {
    UniqueKeys(fs) && forall p | p in fs :: ItemShaped(p)
  }

  /**
   * `_progressEntryData($data, $children)`: with children configured the
   * rules are swapped for them and put back afterwards; a failure while
   * swapping or processing leaves the object as it is at that point.
   */
  function Descend(children: Children, fields: Fields, ctx: Ctx, s: Settings): (r: Outcome<Fields>)
    decreases Total(fields), 5
    ensures r.Thrown? ==> ProcessingError(r.error)
    ensures r.Done? ==> NamedLevel(r.value) && r.ctx.stack == ctx.stack
    ensures r.Done? && UniqueKeys(ctx.rules) ==> r.ctx.rules == ctx.rules
  {
    match children
    case NoChildren => ProcessLevel(fields, ctx, s)
    case Nested(nodes) =>
      var swap := SetNodes(nodes);
      if swap.error.Some? then Thrown(swap.error.value, ctx.(rules := swap.rules))
      else
        match ProcessLevel(fields, ctx.(rules := swap.rules), s)
        case Thrown(e, c) => Thrown(e, c)
        case Done(t, c) =>
          var back := SetNodes(ctx.rules);
          RestoreUnique(ctx.rules);
          if back.error.Some? then Thrown(back.error.value, c.(rules := back.rules))
          else Done(t, c.(rules := back.rules))
  }

  /** Re-registering the rules the object held before gives them back. */
  lemma RestoreUnique(rules: Rules)
    ensures SetNodes(rules).error.None? && UniqueKeys(rules) ==> SetNodes(rules).rules == rules
  {
    if SetNodes(rules).error.None? && UniqueKeys(rules) {
      SetNodesRestores(rules);
    }
  }

  lemma {:induction false} CountIdxAll(fs: Fields)
    requires forall j :: 0 <= j < |fs| ==> fs[j].0.Idx?
    ensures CountIdx(fs) == |fs|
  {
    if |fs| > 0 {
      CountIdxAll(fs[1..]);
    }
  }

  /** array_merge renumbers integer keys after those already merged. */
  lemma {:induction false} MergeIdx(vs: seq<Value>, fs: Fields)
    requires forall p | p in fs :: p.0.Idx?
    ensures MergeAppend(Numbered(vs), fs) == Numbered(vs + ItemValues(fs))
    decreases |fs|
  {
    if |fs| == 0 {
      assert vs + ItemValues(fs) == vs;
    } else {
      assert fs[0] in fs;
      NumberedSnoc(vs, fs[0].1);
      assert MergeAppend(Numbered(vs), fs) == MergeAppend(Numbered(vs + [fs[0].1]), fs[1..]);
      assert forall p | p in fs[1..] :: p in fs;
      MergeIdx(vs + [fs[0].1], fs[1..]);
      assert ItemValues(fs) == [fs[0].1] + ItemValues(fs[1..]);
      AppendAssociative(vs, [fs[0].1], ItemValues(fs[1..]));
    }
  }

  lemma AppendAssociative<T>(a: seq<T>, b: seq<T>, c: seq<T>)
    ensures a + b + c == a + (b + c)
  {
  }

  /** One more integer key, numbered after the ones present. */
  lemma NumberedSnoc(vs: seq<Value>, v: Value)
    ensures CountIdx(Numbered(vs)) == |vs|
    ensures Numbered(vs) + [(Idx(|vs|), v)] == Numbered(vs + [v])
  {
    CountIdxAll(Numbered(vs));
  }

  /** array_merge appends string keys the result does not hold yet. */
  lemma {:induction false} MergeNamed(acc: Fields, fs: Fields)
    requires UniqueKeys(fs) && Keys(acc) !! Keys(fs)
    requires forall k | k in Keys(fs) :: k.Name?
    ensures MergeAppend(acc, fs) == acc + fs
    decreases |fs|
  {
    if |fs| > 0 {
      var next := acc + [fs[0]];
      assert fs == [fs[0]] + fs[1..];
      UniqueAppend([fs[0]], fs[1..]);
      KeysAppend([fs[0]], fs[1..]);
      KeysAppend(acc, [fs[0]]);
      assert fs[0].0 in Keys(fs) && fs[0].0 !in Keys(acc);
      assert MergeAppend(acc, fs) == MergeAppend(next, fs[1..]);
      MergeNamed(next, fs[1..]);
      AppendAssociative(acc, [fs[0]], fs[1..]);
    }
  }

  /**
   * `array_merge($sub_node_collections, $data)` on processed parts: the items
   * renumbered from 0 in their order, then the named rest unchanged.
   */
  lemma MergeItemsThenRest(items: Fields, rest: Fields)
    requires ItemsShaped(items)
    requires NamedLevel(rest)
    ensures ArrayMerge(items, rest) == Numbered(ItemValues(items)) + rest
  {
    assert Numbered([]) == [];
    MergeIdx([], items);
    assert [] + ItemValues(items) == ItemValues(items);
    var n := Numbered(ItemValues(items));
    forall k: Key | k in Keys(n)
      ensures k.Idx?
    {
      var i := KeyAt(n, k);
    }
    MergeNamed(n, rest);
  }

  /** Merging processed items with a processed named rest gives a collection. */
  lemma MergeItems(items: Fields, rest: Fields)
    requires ItemsShaped(items)
    requires NamedLevel(rest)
    ensures CollectionShaped(ArrayMerge(items, rest))
  {
    MergeItemsThenRest(items, rest);
    var n := Numbered(ItemValues(items));
    var fs := n + rest;
    var m := LeadingItems(fs);
    if |rest| > 0 {
      assert fs[|n|] == rest[0];
      assert rest[0].0 in Keys(rest);
    }
    assert m == |n|;
    assert fs[m..] == rest;
    forall j | 0 <= j < m
      ensures fs[j].0 == Idx(j) && fs[j].1.Arr? && NamedLevel(fs[j].1.fields)
    {
      assert fs[j] == (Idx(j), items[j].1);
      assert items[j] in items;
    }
  }
}
