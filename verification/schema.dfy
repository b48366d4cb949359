/**
 * The allowed-entry-node configuration of Sitemap_SitemapsOrg: a tree of node
 * rules keyed by node name, with path lookup, the registration guard, bulk
 * registration and key-wise merge-update of a rule at an existing path.
 */
module Schema {
  import opened Basics
  import opened Php
  import opened OrderedMap
  import opened Exceptions

  /** The sentinel fallback value that asks for an exception instead of a substitute. */
  const VALIDATION_EXCEPTION: string := "VALIDATION_EXCEPTION"

  /** The `prefix` option: TRUE, a string, or any other value (no prefixing). */
  datatype Prefix = Chain | Named(text: string) | Unprefixed

  /** The `fallbackValue` option: a literal substitute, or the sentinel. */
  datatype Fallback = Lit(value: Value) | Raise {
    /** The source compares with the sentinel string, so a literal equal to it raises too. */
    predicate Raises() {
      Raise? || value == Str(VALIDATION_EXCEPTION)
    }
  }

  /** The object a callback array names: the sitemap itself, or another class or object. */
  datatype Owner = This | Other(handle: string)

  /** A callback target: a bare name, or an (object, method) pair. */
  datatype Target = Fn(name: string) | Method(owner: Owner, name: string)

  /** `array(target, extra1, extra2, ...)`: the target plus the bound extra arguments. */
  datatype Callback = Callback(target: Target, extras: seq<Value>)

  /** The `_children` option: absent, or the rules of the child nodes. */
  datatype Children = NoChildren | Nested(rules: seq<(string, Rule)>)

  /** One node rule. Every option may be absent, which matters when rules are merged. */
  datatype Rule = Rule(
    children: Children,
    validation: Option<Callback>,
    fallback: Option<Fallback>,
    content: Option<Callback>,
    required: Option<bool>,
    prefix: Option<Prefix>)

  /** The rules of one level, in declaration order. */
  type Rules = seq<(string, Rule)>

  /** A rule with no option set. */
  const Bare: Rule := Rule(NoChildren, None, None, None, None, None)

  /** `isset($config['fallbackValue'])`: a NULL fallback counts as unset. */
  predicate HasFallback(r: Rule) {
    r.fallback.Some? && r.fallback.value != Lit(Null)
  }

  /** The registration guard: a validation callback needs a fallback. */
  predicate Admissible(r: Rule) {
    r.validation.Some? ==> HasFallback(r)
  }

  /** `$configuration['required'] === TRUE`. */
  predicate IsRequired(r: Rule) {
    r.required == Some(true)
  }

  /**
   * `getAllowedEntryConfig($path)`: the first segment is looked up among the
   * top-level rules, every further one among the previous rule's children;
   * a missing segment fails the whole lookup.
   */
  function Lookup(rules: Rules, path: seq<string>): (r: Option<Rule>)
    ensures |path| == 0 ==> r.None?
    ensures |path| == 1 ==> r == Get(rules, path[0])
    ensures r.Some? ==> Get(rules, path[0]).Some?
  {
    if |path| == 0 then None else Walk(Get(rules, path[0]), path[1..])
  }

  function Walk(r: Option<Rule>, rest: seq<string>): (w: Option<Rule>)
    ensures r.None? ==> w.None?
    ensures |rest| == 0 ==> w == r
    ensures |rest| > 0 && w.Some? ==> r.value.children.Nested?
    decreases |rest|
  {
    if |rest| == 0 || r.None? then r
    else if r.value.children.NoChildren? then None
    else Walk(Get(r.value.children.rules, rest[0]), rest[1..])
  }

  /** One lookup step: the named child of a rule, if the rule has children. */
  function Child(r: Option<Rule>, name: string): Option<Rule> {
    if r.Some? && r.value.children.Nested? then Get(r.value.children.rules, name) else None
  }

  /** `hasAllowedEntryConfig($path)`. */
  predicate HasConfig(rules: Rules, path: seq<string>) {
    Lookup(rules, path).Some?
  }

  lemma {:induction false} WalkExtend(r: Option<Rule>, rest: seq<string>, name: string)
    ensures Walk(r, rest + [name]) == Child(Walk(r, rest), name)
    decreases |rest|
  {
    if r.None? {
    } else if |rest| == 0 {
      assert ([] + [name])[1..] == [];
    } else if r.value.children.NoChildren? {
    } else {
      assert (rest + [name])[1..] == rest[1..] + [name];
      WalkExtend(Get(r.value.children.rules, rest[0]), rest[1..], name);
    }
  }

  /**
   * Lookup of a longer path is lookup of the shorter one followed by one
   * child step: the front-to-back walk agrees with a back-to-front reading.
   */
  lemma LookupExtend(rules: Rules, path: seq<string>, name: string)
    requires |path| > 0
    ensures Lookup(rules, path + [name]) == Child(Lookup(rules, path), name)
  {
    assert (path + [name])[0] == path[0];
    assert (path + [name])[1..] == path[1..] + [name];
    WalkExtend(Get(rules, path[0]), path[1..], name);
  }

  /** `array_merge($existing, $config)`: every option the config sets wins. */
  function Merge(existing: Rule, config: Rule): Rule {
    Rule(
      if config.children.Nested? then config.children else existing.children,
      if config.validation.Some? then config.validation else existing.validation,
      if config.fallback.Some? then config.fallback else existing.fallback,
      if config.content.Some? then config.content else existing.content,
      if config.required.Some? then config.required else existing.required,
      if config.prefix.Some? then config.prefix else existing.prefix)
  }

  /** `addAllowedEntryNode($name, $config)` with a string name: the rule replaces any earlier one. */
  function AddNode(rules: Rules, name: string, config: Rule): (r: Result<Rules, Error>)
    ensures r.Err? <==> !Admissible(config)
    ensures r.Err? ==> r.error == FallbackMissing
    ensures r.Ok? ==> Get(r.value, name) == Some(config)
    ensures r.Ok? ==> forall other :: other != name ==> Get(r.value, other) == Get(rules, other)
    ensures r.Ok? ==> Keys(r.value) == Keys(rules) + {name}
  {
    if !Admissible(config) then Err(FallbackMissing) else Ok(Put(rules, name, config))
  }

  /** The outcome of a bulk registration: the rules registered so far, and the exception if one ended it. */
  datatype Registered = Registered(rules: Rules, error: Option<Error>)

  /** `addAllowedEntryNodes($nodes)`: one AddNode per rule, stopping at the first rejected one. */
  function AddNodes(rules: Rules, nodes: Rules): (r: Registered)
    ensures r.error.None? <==> forall i :: 0 <= i < |nodes| ==> Admissible(nodes[i].1)
    ensures r.error.Some? ==> r.error.value == FallbackMissing
    ensures r.error.None? ==> Keys(r.rules) == Keys(rules) + Keys(nodes)
    ensures r.error.None? && UniqueKeys(nodes) ==>
      forall n :: Get(r.rules, n) == if n in Keys(nodes) then Get(nodes, n) else Get(rules, n)
    decreases |nodes|
  {
    if |nodes| == 0 then Registered(rules, None)
    else match AddNode(rules, nodes[0].0, nodes[0].1)
      case Err(e) => Registered(rules, Some(e))
      case Ok(next) =>
        var r := AddNodes(next, nodes[1..]);
        assert forall i :: 1 <= i < |nodes| ==> nodes[1..][i - 1] == nodes[i];
        r
  }

  /** `setAllowedEntryNodes($nodes)`: forget the current rules, then register the given ones. */
  function SetNodes(nodes: Rules): Registered {
    AddNodes([], nodes)
  }

  lemma {:induction false} AddNodesAppend(rules: Rules, nodes: Rules)
    requires UniqueKeys(rules + nodes)
    requires forall i :: 0 <= i < |nodes| ==> Admissible(nodes[i].1)
    ensures AddNodes(rules, nodes) == Registered(rules + nodes, None)
    decreases |nodes|
  {
    if |nodes| == 0 {
      assert rules + nodes == rules;
    } else {
      UniqueAppend(rules, nodes);
      assert nodes[0].0 !in Keys(rules);
      assert Put(rules, nodes[0].0, nodes[0].1) == rules + [nodes[0]];
      assert (rules + [nodes[0]]) + nodes[1..] == rules + nodes;
      assert forall i :: 0 <= i < |nodes[1..]| ==> nodes[1..][i] == nodes[i + 1];
      AddNodesAppend(rules + [nodes[0]], nodes[1..]);
    }
  }

  /**
   * Re-registering a level that passed the guard gives back exactly that level:
   * the swap-and-restore of the entry processor leaves the rules as they were.
   */
  lemma SetNodesRestores(nodes: Rules)
    requires UniqueKeys(nodes)
    requires forall i :: 0 <= i < |nodes| ==> Admissible(nodes[i].1)
    ensures SetNodes(nodes) == Registered(nodes, None)
  {
    assert [] + nodes == nodes;
    AddNodesAppend([], nodes);
  }

  /** Put a rule in place of the one at an existing path. */
  function ReplaceAt(rules: Rules, path: seq<string>, n: Rule): Rules
    requires HasConfig(rules, path)
    decreases |path|
  {
    var top := Get(rules, path[0]).value;
    if |path| == 1 then Put(rules, path[0], n)
    else
      assert Lookup(top.children.rules, path[1..]) == Walk(Some(top), path[1..]);
      Put(rules, path[0], top.(children := Nested(ReplaceAt(top.children.rules, path[1..], n))))
  }

  lemma {:induction false} ReplaceAtTarget(rules: Rules, path: seq<string>, n: Rule)
    requires HasConfig(rules, path)
    ensures Lookup(ReplaceAt(rules, path, n), path) == Some(n)
    decreases |path|
  {
    var top := Get(rules, path[0]).value;
    if |path| > 1 {
      assert Lookup(top.children.rules, path[1..]) == Walk(Some(top), path[1..]);
      ReplaceAtTarget(top.children.rules, path[1..], n);
    }
  }

  /** Every shorter path on the way to an existing rule exists too. */
  lemma {:induction false} LookupPrefix(rules: Rules, path: seq<string>, i: nat)
    requires HasConfig(rules, path) && 1 <= i <= |path|
    ensures HasConfig(rules, path[..i])
    decreases |path| - i
  {
    if i < |path| {
      LookupPrefix(rules, path, i + 1);
      var longer := path[..i + 1];
      assert longer == path[..i] + [path[i]];
      LookupExtend(rules, path[..i], path[i]);
    } else {
      assert path[..i] == path;
    }
  }

  /** The keys of a rule config that are options rather than child names. */
  const OptionKeys: set<string> :=
    {"_children", "validationCallback", "fallbackValue", "contentCallback", "required", "prefix"}

  /** `isset($config[$key])` on a rule config: the option is present and not NULL. */
  predicate OptionSet(r: Rule, key: string) {
    (key == "_children" && r.children.Nested?)
    || (key == "validationCallback" && r.validation.Some?)
    || (key == "fallbackValue" && HasFallback(r))
    || (key == "contentCallback" && r.content.Some?)
    || (key == "required" && r.required.Some?)
    || (key == "prefix" && r.prefix.Some?)
  }

  /**
   * The merge walk of `addAllowedEntryNode` never clears `$firstRun`, so at
   * position i below the top a segment that names an option the rule above
   * sets leads into that option instead of into a child.
   */
  predicate EntersOption(rules: Rules, path: seq<string>, i: nat) {
    1 <= i < |path| && HasConfig(rules, path[..i]) && OptionSet(Lookup(rules, path[..i]).value, path[i])
  }

  /** The first position at or after `from` where the merge walk enters an option. */
  function FirstDetour(rules: Rules, path: seq<string>, from: nat): (r: Option<nat>)
    requires HasConfig(rules, path) && 1 <= from <= |path|
    ensures r.Some? ==>
      from <= r.value < |path| && EntersOption(rules, path, r.value)
      && forall j :: from <= j < r.value ==> !EntersOption(rules, path, j)
    ensures r.None? ==> forall j :: from <= j < |path| ==> !EntersOption(rules, path, j)
    decreases |path| - from
  {
    if from == |path| then None
    else
      LookupPrefix(rules, path, from);
      if OptionSet(Lookup(rules, path[..from]).value, path[from]) then Some(from)
      else FirstDetour(rules, path, from + 1)
  }

  /** An option whose value is a scalar, on which PHP 5's `array_merge` warns and yields NULL. */
  predicate ScalarOption(r: Rule, key: string) {
    (key == "prefix" && r.prefix.Some?)
    || (key == "required" && r.required.Some?)
    || (key == "fallbackValue" && HasFallback(r) && (r.fallback.value.Raise? || !r.fallback.value.value.Arr?))
  }

  /** The rule with the option under `key` set to NULL. */
  function ClearOption(r: Rule, key: string): (c: Rule)
    requires ScalarOption(r, key)
    ensures !OptionSet(c, key)
    ensures forall k :: k != key ==> (OptionSet(c, k) <==> OptionSet(r, k))
  {
    if key == "prefix" then r.(prefix := None)
    else if key == "required" then r.(required := None)
    else r.(fallback := Some(Lit(Null)))
  }

  /** What `addAllowedEntryNode` with an existing array path does to the rules. */
  datatype MergeOutcome =
    | Merged(rules: Rules)          // the merge landed; the rules that result
    | Refused(error: Error)         // the registration guard threw
    | OptionEntered(depth: nat)     // the walk went into an option at this position; the result is not modelled

  /**
   * `addAllowedEntryNode($path, $config)` with an array path that exists.
   * The guard comes first. If no segment below the top names an option set
   * on the rule above it, the rule at the path becomes its key-wise merge
   * with the config. If the walk enters a scalar option at the last segment,
   * `array_merge` on that scalar yields NULL, so the option is cleared.
   */
  function MergeAtPath(rules: Rules, path: seq<string>, config: Rule): (r: MergeOutcome)
    requires HasConfig(rules, path)
    ensures r.Refused? <==> !Admissible(config)
    ensures r.Refused? ==> r.error == FallbackMissing
    ensures Admissible(config) && (forall i :: 1 <= i < |path| ==> !EntersOption(rules, path, i)) ==>
      r.Merged? && Lookup(r.rules, path) == Some(Merge(Lookup(rules, path).value, config))
    ensures var k := |path| - 1;
      Admissible(config) && EntersOption(rules, path, k) && ScalarOption(Lookup(rules, path[..k]).value, path[k])
      && (forall j :: 1 <= j < k ==> !EntersOption(rules, path, j)) ==>
        r.Merged? && Lookup(r.rules, path[..k]) == Some(ClearOption(Lookup(rules, path[..k]).value, path[k]))
    ensures r.OptionEntered? ==>
      EntersOption(rules, path, r.depth) && (forall j :: 1 <= j < r.depth ==> !EntersOption(rules, path, j))
      && !(r.depth == |path| - 1 && ScalarOption(Lookup(rules, path[..r.depth]).value, path[r.depth]))
  {
    if !Admissible(config) then Refused(FallbackMissing)
    else match FirstDetour(rules, path, 1)
      case None =>
        var n := Merge(Lookup(rules, path).value, config);
        ReplaceAtTarget(rules, path, n);
        Merged(ReplaceAt(rules, path, n))
      case Some(i) =>
        var above := Lookup(rules, path[..i]).value;
        if i == |path| - 1 && ScalarOption(above, path[i]) then
          ReplaceAtTarget(rules, path[..i], ClearOption(above, path[i]));
          Merged(ReplaceAt(rules, path[..i], ClearOption(above, path[i])))
        else OptionEntered(i)
  }

  /** A path none of whose segments below the top is an option key never enters an option. */
  lemma PlainPathStaysOnRules(rules: Rules, path: seq<string>)
    requires forall i :: 1 <= i < |path| ==> path[i] !in OptionKeys
    ensures forall i :: !EntersOption(rules, path, i)
  {
  }

  /** Two paths that differ at some common position name unrelated rules. */
  predicate Diverge(p: seq<string>, q: seq<string>) {
    exists i :: 0 <= i < |p| && i < |q| && p[i] != q[i]
  }

  /** Replacing the rule at one path leaves the rule at every diverging path as it was. */
  lemma {:induction false} ReplaceAtElsewhere(rules: Rules, path: seq<string>, n: Rule, q: seq<string>)
    requires HasConfig(rules, path)
    requires Diverge(path, q)
    ensures Lookup(ReplaceAt(rules, path, n), q) == Lookup(rules, q)
    decreases |path|
  {
    var top := Get(rules, path[0]).value;
    var i :| 0 <= i < |path| && i < |q| && path[i] != q[i];
    if q[0] != path[0] {
    } else {
      assert i > 0;
      assert Lookup(top.children.rules, path[1..]) == Walk(Some(top), path[1..]);
      assert path[1..][i - 1] != q[1..][i - 1];
      ReplaceAtElsewhere(top.children.rules, path[1..], n, q[1..]);
      if |q| > 1 {
        assert Lookup(ReplaceAt(top.children.rules, path[1..], n), q[1..])
            == Walk(Get(ReplaceAt(top.children.rules, path[1..], n), q[1]), q[2..]);
      }
    }
  }

  /** A merge that stays on the rules leaves the rule at every diverging path as it was. */
  lemma MergeAtPathElsewhere(rules: Rules, path: seq<string>, config: Rule, q: seq<string>)
    requires HasConfig(rules, path) && Diverge(path, q) && Admissible(config)
    requires forall i :: 1 <= i < |path| ==> !EntersOption(rules, path, i)
    ensures MergeAtPath(rules, path, config).Merged?
    ensures Lookup(MergeAtPath(rules, path, config).rules, q) == Lookup(rules, q)
  {
    assert FirstDetour(rules, path, 1).None?;
    ReplaceAtElsewhere(rules, path, Merge(Lookup(rules, path).value, config), q);
  }

  /**
   * A child named like an option of its parent: registering at
   * `["video", "prefix"]` reaches the video rule's `prefix` option instead
   * of the child, and clears it.
   */
  lemma PrefixSegmentClearsPrefix(child: Rule, config: Rule)
    requires Admissible(config)
    ensures HasConfig([("video", PrefixedParent(child))], ["video", "prefix"])
    ensures var r := MergeAtPath([("video", PrefixedParent(child))], ["video", "prefix"], config);
      r.Merged? && Get(r.rules, "video") == Some(PrefixedParent(child).(prefix := None))
      && Get(r.rules, "video") != Some(PrefixedParent(child).(children := Nested([("prefix", Merge(child, config))])))
  {
    var video := PrefixedParent(child);
    var rules := [("video", video)];
    var path := ["video", "prefix"];
    assert Lookup(rules, path[..1]) == Some(video) by {
      assert path[..1] == ["video"];
    }
    LookupPair(rules, "video", "prefix");
    assert EntersOption(rules, path, 1);
  }

  /**
   * A child named `_children`: the walk reaches the parent's children array
   * itself, which the model does not follow further.
   */
  lemma ChildrenSegmentEntersOption(child: Rule, config: Rule)
    requires Admissible(config)
    ensures HasConfig([("video", Rule(Nested([("_children", child)]), None, None, None, None, None))], ["video", "_children"])
    ensures MergeAtPath([("video", Rule(Nested([("_children", child)]), None, None, None, None, None))], ["video", "_children"], config)
      == OptionEntered(1)
  {
    var video := Rule(Nested([("_children", child)]), None, None, None, None, None);
    var rules := [("video", video)];
    var path := ["video", "_children"];
    assert Lookup(rules, path[..1]) == Some(video) by {
      assert path[..1] == ["video"];
    }
    LookupPair(rules, "video", "_children");
    assert EntersOption(rules, path, 1);
    assert !ScalarOption(video, "_children");
  }

  /** A rule prefixed 'video' whose one child is named "prefix". */
  function PrefixedParent(child: Rule): Rule {
    Rule(Nested([("prefix", child)]), None, None, None, None, Some(Named("video")))
  }

  /** Lookup of a two-segment path: a top-level rule, then one of its children. */
  lemma LookupPair(rules: Rules, a: string, b: string)
    ensures Lookup(rules, [a, b]) == Child(Get(rules, a), b)
  {
    assert [a, b][1..] == [] + [b];
    WalkExtend(Get(rules, a), [], b);
  }
}
