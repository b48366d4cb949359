/**
 * Properties of the entry pipeline that relate several calls: fields without
 * a rule change nothing, and a collection's items come out renumbered in
 * their original order, each processed as a level of the node's children.
 */
module ProcessorProps {
  import opened Basics
  import opened Php
  import opened OrderedMap
  import opened Exceptions
  import opened Schema
  import opened Processor

  /** The fields whose key names a rule of the level, in order. */
  function Configured(fields: Fields, rules: Rules): (r: Fields)
    ensures |r| <= |fields|
  {
    if |fields| == 0 then []
    else if fields[0].0.Name? && Get(rules, fields[0].0.name).Some? then [fields[0]] + Configured(fields[1..], rules)
    else Configured(fields[1..], rules)
  }

  lemma {:induction false} GetConfigured(fields: Fields, rules: Rules, n: string)
    requires Get(rules, n).Some?
    ensures Get(Configured(fields, rules), Name(n)) == Get(fields, Name(n))
  {
    if |fields| > 0 {
      GetConfigured(fields[1..], rules, n);
    }
  }

  /** Every element name a level produces is the element name of one of its rules. */
  lemma {:induction false} ExpectedNamesFrom(fields: Fields, rules: Rules, stack: seq<string>, k: Key)
    requires k in ExpectedNames(fields, rules, stack)
    ensures exists n :: Get(rules, n).Some? && k == Name(TagName(n, Get(rules, n).value, stack + [n]))
  {
    var f := fields[0].0;
    if !(f.Name? && Get(rules, f.name).Some? && k == Name(TagName(f.name, Get(rules, f.name).value, stack + [f.name]))) {
      ExpectedNamesFrom(fields[1..], rules, stack, k);
    }
  }

  /** A level whose every rule is named within a set produces element names from that set only. */
  lemma ExpectedNamesWithin(fields: Fields, rules: Rules, stack: seq<string>, names: set<Key>)
    requires forall n :: Get(rules, n).Some? ==> Name(TagName(n, Get(rules, n).value, stack + [n])) in names
    ensures ExpectedNames(fields, rules, stack) <= names
  {
    forall k | k in ExpectedNames(fields, rules, stack)
      ensures k in names
    {
      ExpectedNamesFrom(fields, rules, stack, k);
    }
  }

  /**
   * A level whose rules carry no prefix names every element it produces
   * after one of those rules.
   */
  lemma UnprefixedNames(fields: Fields, ctx: Ctx, s: Settings, names: set<string>)
    requires UniqueKeys(ctx.rules)
    requires forall n :: Get(ctx.rules, n).Some? ==> n in names && Get(ctx.rules, n).value.prefix.None?
    ensures var r := ProcessLevel(fields, ctx, s);
      r.Done? ==> forall k :: k in Keys(r.value) ==> k.Name? && k.name in names
  {
    var named := set n | n in names :: Name(n);
    forall n | Get(ctx.rules, n).Some?
      ensures Name(TagName(n, Get(ctx.rules, n).value, ctx.stack + [n])) in named
    {
    }
    ExpectedNamesWithin(fields, ctx.rules, ctx.stack, named);
  }

  /** A name without a rule is gone from the configured fields. */
  lemma {:induction false} ConfiguredDrops(fields: Fields, rules: Rules, n: string)
    requires Get(rules, n).None?
    ensures Get(Configured(fields, rules), Name(n)).None?
  {
    if |fields| > 0 {
      ConfiguredDrops(fields[1..], rules, n);
    }
  }

  lemma {:induction false} FirstMissingConfigured(sub: Rules, rules: Rules, fields: Fields)
    requires forall i :: 0 <= i < |sub| ==> Get(rules, sub[i].0).Some?
    ensures FirstMissingRequired(sub, fields) == FirstMissingRequired(sub, Configured(fields, rules))
  {
    if |sub| > 0 {
      GetConfigured(fields, rules, sub[0].0);
      FirstMissingConfigured(sub[1..], rules, fields);
    }
  }

  lemma {:induction false} FromIgnoresUnconfigured(fields: Fields, acc: Fields, ctx: Ctx, s: Settings)
    requires NamedLevel(acc) && UniqueKeys(ctx.rules)
    ensures ProcessFrom(fields, acc, ctx, s) == ProcessFrom(Configured(fields, ctx.rules), acc, ctx, s)
    decreases |fields|
  {
    if |fields| > 0 {
      var (key, data) := fields[0];
      if key.Idx? || Get(ctx.rules, key.name).None? {
        FromIgnoresUnconfigured(fields[1..], acc, ctx, s);
      } else {
        var rule := Get(ctx.rules, key.name).value;
        var kept := Configured(fields, ctx.rules);
        assert kept[0] == fields[0] && kept[1..] == Configured(fields[1..], ctx.rules);
        match ProcessField(key.name, rule, data, ctx.(stack := ctx.stack + [key.name]), s)
        case Thrown(_, _) =>
        case Done(v, c) =>
          FromIgnoresUnconfigured(fields[1..], Put(acc, Name(TagName(key.name, rule, c.stack)), v), c.(stack := Pop(c.stack)), s);
      }
    }
  }

  /**
   * Fields without a rule at the level are dropped silently: processing the
   * entry equals processing only its configured fields, error or not.
   */
  lemma IgnoresUnconfigured(fields: Fields, ctx: Ctx, s: Settings)
    requires UniqueKeys(ctx.rules)
    ensures ProcessLevel(fields, ctx, s) == ProcessLevel(Configured(fields, ctx.rules), ctx, s)
  {
    forall i | 0 <= i < |ctx.rules|
      ensures Get(ctx.rules, ctx.rules[i].0).Some?
    {
      PairKey(ctx.rules, i);
      GetKeys(ctx.rules, ctx.rules[i].0);
    }
    FirstMissingConfigured(ctx.rules, ctx.rules, fields);
    FromIgnoresUnconfigured(fields, [], ctx, s);
  }

  /**
   * The reference reading of a collection's items: each integer-keyed value,
   * in order, processed as a level of the children from the same object
   * state; None when one of them fails.
   */
  function ItemLevels(children: Children, fs: Fields, ctx: Ctx, s: Settings): Option<seq<Value>> {
    if |fs| == 0 then Some([])
    else if fs[0].0.Name? then ItemLevels(children, fs[1..], ctx, s)
    else match Descend(children, FieldsOf(fs[0].1), ctx, s)
      case Thrown(_, _) => None
      case Done(t, _) =>
        match ItemLevels(children, fs[1..], ctx, s)
        case None => None
        case Some(vs) => Some([Arr(t)] + vs)
  }

  /** One integer-keyed item that processes without error: both loops take the same step. */
  lemma ItemStep(children: Children, fs: Fields, acc: Fields, ctx: Ctx, s: Settings, t: Fields)
    requires ItemsShaped(acc)
    requires |fs| > 0 && fs[0].0.Idx? && Descend(children, FieldsOf(fs[0].1), ctx, s) == Done(t, ctx)
    ensures ProcessItems(children, fs, acc, ctx, s) == ProcessItems(children, fs[1..], Put(acc, fs[0].0, Arr(t)), ctx, s)
    ensures ItemLevels(children, fs, ctx, s) ==
      if ItemLevels(children, fs[1..], ctx, s).None? then None
      else Some([Arr(t)] + ItemLevels(children, fs[1..], ctx, s).value)
  {
  }

  /**
   * The item loop agrees with the reference reading: it succeeds exactly when
   * every item does, leaves the object state as it was, and appends the
   * processed items in order.
   */
  predicate ItemsAgree(children: Children, fs: Fields, acc: Fields, ctx: Ctx, s: Settings)
    requires ItemsShaped(acc)
  {
    AgreeOn(ProcessItems(children, fs, acc, ctx, s), ItemLevels(children, fs, ctx, s), ItemValues(acc), ctx)
  }

  /** A loop outcome `r` agrees with a reference list `ref` appended to the values `base` already collected. */
  predicate AgreeOn(r: Outcome<Fields>, ref: Option<seq<Value>>, base: seq<Value>, ctx: Ctx) {
    (r.Done? <==> ref.Some?)
    && (r.Done? ==> r.ctx == ctx && ItemValues(r.value) == base + ref.value)
  }

  /** Agreement after one more collected item is agreement before it, with the item put in front of the reference. */
  lemma AgreeStep(r: Outcome<Fields>, ref: Option<seq<Value>>, base: seq<Value>, v: Value, ctx: Ctx)
    requires AgreeOn(r, ref, base + [v], ctx)
    ensures AgreeOn(r, if ref.None? then None else Some([v] + ref.value), base, ctx)
  {
    if ref.Some? {
      assert base + [v] + ref.value == base + ([v] + ref.value);
    }
  }

  lemma {:induction false} ItemsInOrder(children: Children, fs: Fields, acc: Fields, ctx: Ctx, s: Settings)
    requires UniqueKeys(ctx.rules) && ItemsShaped(acc)
    requires UniqueKeys(fs) && Keys(acc) !! Keys(fs)
    ensures ItemsAgree(children, fs, acc, ctx, s)
    decreases |fs|, 1
  {
    if |fs| == 0 {
      assert ItemValues(acc) + [] == ItemValues(acc);
    } else if fs[0].0.Name? {
      ItemsInOrder(children, fs[1..], acc, ctx, s);
    } else {
      var d := Descend(children, FieldsOf(fs[0].1), ctx, s);
      if d.Done? {
        ItemsInOrderCons(children, fs, acc, ctx, s, d.value);
      }
    }
  }

  lemma {:induction false} ItemsInOrderCons(children: Children, fs: Fields, acc: Fields, ctx: Ctx, s: Settings, t: Fields)
    requires UniqueKeys(ctx.rules) && ItemsShaped(acc)
    requires UniqueKeys(fs) && Keys(acc) !! Keys(fs)
    requires |fs| > 0 && fs[0].0.Idx? && Descend(children, FieldsOf(fs[0].1), ctx, s).Done?
    requires t == Descend(children, FieldsOf(fs[0].1), ctx, s).value
    ensures ItemsAgree(children, fs, acc, ctx, s)
    decreases |fs|, 0
  {
    ItemStep(children, fs, acc, ctx, s, t);
    var next := NextItems(acc, fs, t);
    ItemsInOrder(children, fs[1..], next, ctx, s);
    AgreeStep(ProcessItems(children, fs[1..], next, ctx, s), ItemLevels(children, fs[1..], ctx, s), ItemValues(acc), Arr(t), ctx);
  }

  /** The accumulator after one more item. */
  lemma NextItems(acc: Fields, fs: Fields, t: Fields) returns (next: Fields)
    requires ItemsShaped(acc) && NamedLevel(t)
    requires UniqueKeys(fs) && Keys(acc) !! Keys(fs)
    requires |fs| > 0 && fs[0].0.Idx?
    ensures next == Put(acc, fs[0].0, Arr(t))
    ensures ItemsShaped(next) && Keys(next) !! Keys(fs[1..])
    ensures ItemValues(next) == ItemValues(acc) + [Arr(t)]
  {
    assert fs[0].0 in Keys(fs);
    next := Put(acc, fs[0].0, Arr(t));
    assert next == acc + [(fs[0].0, Arr(t))];
    assert ItemShaped((fs[0].0, Arr(t)));
  }

  /**
   * What a node with array data becomes, in the reference reading: the
   * processed items renumbered 0..n-1 in their original order, followed by
   * the processed named rest, which is processed only when it is not empty.
   */
  predicate CollectionAgrees(children: Children, fs: Fields, ctx: Ctx, s: Settings) {
    var r := ProcessCollection(children, fs, ctx, s);
    var ref := ItemLevels(children, fs, ctx, s);
    var rest := NamedPart(fs);
    (r.Done? <==> ref.Some? && (|rest| > 0 ==> Descend(children, rest, ctx, s).Done?))
    && (r.Done? ==> r.value.fields == Numbered(ref.value) + (if |rest| == 0 then [] else Descend(children, rest, ctx, s).value))
  }

  /**
   * A node with array data: each integer-keyed item is processed against the
   * children and the items come out renumbered in their original order,
   * followed by the named rest; a pure collection never runs the rest's
   * required check.
   */
  lemma CollectionInOrder(children: Children, fs: Fields, ctx: Ctx, s: Settings)
    requires UniqueKeys(ctx.rules) && UniqueKeys(fs)
    ensures CollectionAgrees(children, fs, ctx, s)
  {
    ItemsInOrder(children, fs, [], ctx, s);
    var pi := ProcessItems(children, fs, [], ctx, s);
    if pi.Done? {
      assert [] + ItemLevels(children, fs, ctx, s).value == ItemValues(pi.value);
      CollectionAfterItems(children, fs, ctx, s, pi.value);
    }
  }

  lemma CollectionAfterItems(children: Children, fs: Fields, ctx: Ctx, s: Settings, items: Fields)
    requires UniqueKeys(ctx.rules)
    requires ProcessItems(children, fs, [], ctx, s) == Done(items, ctx)
    requires ItemLevels(children, fs, ctx, s).Some? && ItemValues(items) == ItemLevels(children, fs, ctx, s).value
    ensures CollectionAgrees(children, fs, ctx, s)
  {
    var r := ProcessCollection(children, fs, ctx, s);
    var rest := NamedPart(fs);
    if |rest| == 0 {
      assert r == Done(Arr(ArrayMerge(items, [])), ctx);
      MergeItemsThenRest(items, []);
    } else {
      var d := Descend(children, rest, ctx, s);
      if d.Done? {
        assert r == Done(Arr(ArrayMerge(items, d.value)), d.ctx);
        MergeItemsThenRest(items, d.value);
      }
    }
  }

  /** Each item's place in the reference reading holds that item's processed level. */
  lemma {:induction false} ItemLevelsAt(children: Children, fs: Fields, ctx: Ctx, s: Settings, j: nat)
    requires ItemLevels(children, fs, ctx, s).Some?
    requires j < |Items(fs)|
    ensures j < |ItemLevels(children, fs, ctx, s).value|
    ensures Descend(children, FieldsOf(Items(fs)[j]), ctx, s).Done?
    ensures ItemLevels(children, fs, ctx, s).value[j] == Arr(Descend(children, FieldsOf(Items(fs)[j]), ctx, s).value)
    decreases |fs|
  {
    if fs[0].0.Name? {
      assert ItemLevels(children, fs, ctx, s) == ItemLevels(children, fs[1..], ctx, s);
      assert Items(fs) == Items(fs[1..]);
      ItemLevelsAt(children, fs[1..], ctx, s, j);
    } else {
      var d := Descend(children, FieldsOf(fs[0].1), ctx, s);
      var tail := ItemLevels(children, fs[1..], ctx, s);
      assert d.Done? && tail.Some?;
      var all := ItemLevels(children, fs, ctx, s).value;
      assert all == [Arr(d.value)] + tail.value;
      assert Items(fs) == [fs[0].1] + Items(fs[1..]);
      if j > 0 {
        ItemLevelsAt(children, fs[1..], ctx, s, j - 1);
        assert Items(fs)[j] == Items(fs[1..])[j - 1];
        assert all[j] == tail.value[j - 1];
      } else {
        assert Items(fs)[0] == fs[0].1;
        assert all[0] == Arr(d.value);
      }
    }
  }

  lemma {:induction false} ItemLevelsLength(children: Children, fs: Fields, ctx: Ctx, s: Settings)
    requires ItemLevels(children, fs, ctx, s).Some?
    ensures |ItemLevels(children, fs, ctx, s).value| == |Items(fs)|
  {
    if |fs| > 0 {
      ItemLevelsLength(children, fs[1..], ctx, s);
    }
  }
}
