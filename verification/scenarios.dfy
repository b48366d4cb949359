/**
 * What the registered rules of each sitemap class do to particular values:
 * the priority fallback, the video title length, the duration range, the news
 * publication name, the element names of the image and news extensions, and
 * the fields a sitemap index ignores.
 */
module Scenarios {
  import opened Basics
  import opened Php
  import opened OrderedMap
  import opened Exceptions
  import opened Schema
  import opened Builtins
  import opened Callbacks
  import opened Processor
  import opened ProcessorProps
  import opened Document
  import opened Variants

  /**
   * A scalar rule without a content callback whose fallback is any literal
   * but the sentinel string: a value the check finds truthy is kept, any
   * other is replaced by the fallback.
   */
  lemma FallsBackTo(name: string, rule: Rule, value: Value, s: Settings, verdict: Value, fallback: Value)
    requires s.useValidation && rule.validation.Some? && rule.content.None?
    requires rule.fallback == Some(Lit(fallback)) && fallback != Str(VALIDATION_EXCEPTION)
    requires Execute(rule.validation.value, value, "validation_", Internal, s.variant, s.rt) == Ok(verdict)
    ensures ProcessScalar(name, rule, value, s) == Ok(if Truthy(verdict) then value else fallback)
  {
  }

  /**
   * A scalar rule whose check returned a boolean verdict and whose fallback
   * is the sentinel: a failing value raises the validation exception.
   */
  lemma RaisesUnless(name: string, rule: Rule, value: Value, s: Settings, verdict: bool)
    requires s.useValidation && rule.validation.Some? && rule.fallback == Some(Raise)
    requires Execute(rule.validation.value, value, "validation_", Internal, s.variant, s.rt) == Ok(Bool(verdict))
    ensures ProcessScalar(name, rule, value, s).Err? <==> !verdict
    ensures rule.content.None? ==>
      ProcessScalar(name, rule, value, s) == if verdict then Ok(value) else Err(ValidationFailed(name))
  {
  }

  /** The validation step alone under the sentinel: the value, or the exception for the node. */
  lemma ValidateRaises(name: string, rule: Rule, value: Value, s: Settings, verdict: bool)
    requires s.useValidation && rule.validation.Some? && rule.fallback == Some(Raise)
    requires Execute(rule.validation.value, value, "validation_", Internal, s.variant, s.rt) == Ok(Bool(verdict))
    ensures Validate(name, rule, value, s) == if verdict then Ok(value) else Err(ValidationFailed(name))
  {
  }

  // ---------------------------------------------------------------- priority

  lemma LowerPriority()
    ensures Lower("validation_priority") == "validation_priority"
  {
    LowerFixed("validation_priority");
  }

  lemma PriorityPrefixed()
    ensures StartsWith("validation_priority", "validation_")
  {
  }

  lemma PriorityIsOwn(v: Variant)
    ensures HasMethod(v, "validation_priority") && StartsWith("validation_priority", "validation_")
  {
    LowerPriority();
    PriorityPrefixed();
    DeclaredCallback(v, "validation_priority", "validation_");
  }

  lemma CallPriority(args: seq<Value>, rt: Runtime)
    ensures CallBuiltin("validation_priority", args, rt) == Bool(ValidPriority(Arg(args, 0, Null), rt))
  {
    LowerPriority();
    var n := "validation_priority";
    assert n != "validation_changefrequency";
  }

  lemma ExecutePriority(value: Value, v: Variant, rt: Runtime)
    ensures Execute(Call("validation_priority"), value, "validation_", Internal, v, rt) == Ok(Bool(ValidPriority(value, rt)))
  {
    PriorityIsOwn(v);
    OwnCallback("validation_priority", [], value, "validation_", v, rt);
    CallPriority([value] + [], rt);
  }

  /** The priority rule keeps a value its check accepts and puts 0.5 in place of any other. */
  lemma PriorityValidates(value: Value, s: Settings)
    requires s.useValidation
    ensures ProcessScalar("priority", PriorityRule, value, s) == Ok(if ValidPriority(value, s.rt) then value else Float(0.5))
  {
    var ok := ValidPriority(value, s.rt);
    ExecutePriority(value, s.variant, s.rt);
    FallsBackTo("priority", PriorityRule, value, s, Bool(ok), Float(0.5));
    TruthyBool(ok);
  }

  lemma TruthyBool(b: bool)
    ensures Truthy(Bool(b)) == b
  {
  }

  /**
   * With validation on, a priority outside [0.0, 1.0] is replaced by the
   * rule's fallback 0.5, and one inside is kept.
   */
  lemma PriorityFallsBack(x: real, s: Settings)
    requires s.useValidation
    ensures ProcessScalar("priority", PriorityRule, Float(x), s) == Ok(if 0.0 <= x <= 1.0 then Float(x) else Float(0.5))
  {
    PriorityValidates(Float(x), s);
  }

  // ---------------------------------------------------------------- video title

  lemma LowerMaxLength()
    ensures Lower("validation_maxLength") == "validation_maxlength"
  {
    assert "validation_max" + ['L'] + "ength" == "validation_maxLength";
    assert "validation_max" + [LowerChar('L')] + "ength" == "validation_maxlength" by {
      assert LowerChar('L') == 'l';
    }
    LowerOneCapital("validation_max", 'L', "ength");
  }

  lemma MaxLengthPrefixed()
    ensures StartsWith("validation_maxLength", "validation_")
  {
  }

  lemma MaxLengthIsOwn(v: Variant)
    ensures HasMethod(v, "validation_maxLength") && StartsWith("validation_maxLength", "validation_")
  {
    LowerMaxLength();
    MaxLengthPrefixed();
    DeclaredCallback(v, "validation_maxLength", "validation_");
  }

  lemma CallMaxLength(args: seq<Value>, rt: Runtime)
    ensures CallBuiltin("validation_maxLength", args, rt) ==
      Bool(ValidMaxLength(Arg(args, 0, Null), Arg(args, 1, Null), rt))
  {
    LowerMaxLength();
    var n := "validation_maxlength";
    assert n != "validation_changefrequency" && n != "validation_priority";
  }

  lemma ExecuteMaxLength(value: Value, extras: seq<Value>, v: Variant, rt: Runtime)
    ensures Execute(Callback(Fn("validation_maxLength"), extras), value, "validation_", Internal, v, rt) ==
      Ok(Bool(ValidMaxLength(value, Arg(extras, 0, Null), rt)))
  {
    var args := [value] + extras;
    assert Arg(args, 0, Null) == value;
    assert Arg(args, 1, Null) == Arg(extras, 0, Null) by {
      ArgShift(value, extras, 0, Null);
    }
    MaxLengthIsOwn(v);
    OwnCallback("validation_maxLength", extras, value, "validation_", v, rt);
    CallMaxLength(args, rt);
  }

  /**
   * With validation on, a video title longer than 50 characters raises the
   * validation exception, and any shorter one passes, for every class (the
   * length check is declared on the base class).
   */
  lemma VideoTitleLength(v: Value, s: Settings)
    requires s.useValidation
    ensures ProcessScalar("title", VideoTitle, v, s).Err? <==> |ToStr(v, s.rt)| > 50
  {
    var verdict := ValidMaxLength(v, Int(50), s.rt);
    assert Execute(VideoTitle.validation.value, v, "validation_", Internal, s.variant, s.rt) == Ok(Bool(verdict)) by {
      assert VideoTitle.validation.value == Callback(Fn("validation_maxLength"), [Int(50)]);
      ExecuteMaxLength(v, [Int(50)], s.variant, s.rt);
    }
    RaisesUnless("title", VideoTitle, v, s, verdict);
  }

  // ---------------------------------------------------------------- video duration

  lemma LowerBetween()
    ensures Lower("validation_between") == "validation_between"
  {
    LowerFixed("validation_between");
  }

  lemma BetweenPrefixed()
    ensures StartsWith("validation_between", "validation_")
  {
  }

  lemma BetweenIsOwn(v: Variant)
    requires v == Google || v == News
    ensures HasMethod(v, "validation_between") && StartsWith("validation_between", "validation_")
  {
    LowerBetween();
    BetweenPrefixed();
    DeclaredCallback(v, "validation_between", "validation_");
  }

  lemma CallBetween(args: seq<Value>, rt: Runtime)
    ensures CallBuiltin("validation_between", args, rt) ==
      Bool(ValidBetween(Arg(args, 0, Null), Arg(args, 1, Null), Arg(args, 2, Null), Arg(args, 3, Bool(false)), rt))
  {
    LowerBetween();
    var n := "validation_between";
    assert n != "validation_changefrequency" && n != "validation_priority";
    assert n != "validation_maxlength" && n != "content_url";
  }

  lemma ExecuteBetween(value: Value, extras: seq<Value>, v: Variant, rt: Runtime)
    requires v == Google || v == News
    ensures Execute(Callback(Fn("validation_between"), extras), value, "validation_", Internal, v, rt) ==
      Ok(Bool(ValidBetween(value, Arg(extras, 0, Null), Arg(extras, 1, Null), Arg(extras, 2, Bool(false)), rt)))
  {
    var args := [value] + extras;
    assert Arg(args, 0, Null) == value;
    assert Arg(args, 1, Null) == Arg(extras, 0, Null) by {
      ArgShift(value, extras, 0, Null);
    }
    assert Arg(args, 2, Null) == Arg(extras, 1, Null) by {
      ArgShift(value, extras, 1, Null);
    }
    assert Arg(args, 3, Bool(false)) == Arg(extras, 2, Bool(false)) by {
      ArgShift(value, extras, 2, Bool(false));
    }
    BetweenIsOwn(v);
    OwnCallback("validation_between", extras, value, "validation_", v, rt);
    CallBetween(args, rt);
  }

  /**
   * A video duration is accepted exactly when its integer value lies in
   * [0, 28800], both ends included, and is then kept as given.
   */
  lemma DurationRange(v: Value, s: Settings)
    requires s.useValidation && (s.variant == Google || s.variant == News)
    ensures ProcessScalar("duration", VideoDuration, v, s) ==
      if 0 <= IntVal(v, s.rt) <= 28800 then Ok(v) else Err(ValidationFailed("duration"))
  {
    var extras := [Int(0), Int(28800), Bool(true)];
    var verdict := ValidBetween(v, Int(0), Int(28800), Bool(true), s.rt);
    assert verdict <==> 0 <= IntVal(v, s.rt) <= 28800;
    assert Execute(VideoDuration.validation.value, v, "validation_", Internal, s.variant, s.rt) == Ok(Bool(verdict)) by {
      assert VideoDuration.validation.value == Callback(Fn("validation_between"), extras);
      assert Arg(extras, 0, Null) == Int(0) && Arg(extras, 1, Null) == Int(28800) && Arg(extras, 2, Bool(false)) == Bool(true);
      ExecuteBetween(v, extras, s.variant, s.rt);
    }
    RaisesUnless("duration", VideoDuration, v, s, verdict);
  }

  // ---------------------------------------------------------------- video flags

  lemma LowerBoolean()
    ensures Lower("validation_boolean") == "validation_boolean"
  {
    LowerFixed("validation_boolean");
  }

  lemma BooleanPrefixed()
    ensures StartsWith("validation_boolean", "validation_")
  {
  }

  lemma BooleanIsOwn(v: Variant)
    requires v == Google || v == News
    ensures HasMethod(v, "validation_boolean") && StartsWith("validation_boolean", "validation_")
  {
    LowerBoolean();
    BooleanPrefixed();
    DeclaredCallback(v, "validation_boolean", "validation_");
  }

  lemma CallBoolean(args: seq<Value>, rt: Runtime)
    ensures CallBuiltin("validation_boolean", args, rt) == Bool(ValidBooleanAsWritten(Arg(args, 0, Null), Arg(args, 1, Bool(true))))
  {
    LowerBoolean();
    var n := "validation_boolean";
    assert n != "validation_changefrequency" && n != "validation_priority";
    assert n != "validation_maxlength" && n != "content_url" && n != "validation_between";
  }

  lemma ExecuteBoolean(value: Value, v: Variant, rt: Runtime)
    requires v == Google || v == News
    ensures Execute(Call("validation_boolean"), value, "validation_", Internal, v, rt) == Ok(Bool(ValidBooleanAsWritten(value, Bool(true))))
  {
    assert [value] + [] == [value];
    BooleanIsOwn(v);
    OwnCallback("validation_boolean", [], value, "validation_", v, rt);
    CallBoolean([value], rt);
  }

  lemma LowerContentBoolean()
    ensures Lower("content_boolean") == "content_boolean"
  {
    LowerFixed("content_boolean");
  }

  lemma ContentBooleanPrefixed()
    ensures StartsWith("content_boolean", "content_")
  {
  }

  lemma ContentBooleanIsOwn(v: Variant)
    requires v == Google || v == News
    ensures HasMethod(v, "content_boolean") && StartsWith("content_boolean", "content_")
  {
    LowerContentBoolean();
    ContentBooleanPrefixed();
    DeclaredCallback(v, "content_boolean", "content_");
  }

  lemma CallContentBoolean(args: seq<Value>, rt: Runtime)
    ensures CallBuiltin("content_boolean", args, rt) == BooleanContent(Arg(args, 0, Null))
  {
    LowerContentBoolean();
    var n := "content_boolean";
    assert n != "validation_changefrequency" && n != "validation_priority";
    assert n != "validation_maxlength" && n != "content_url" && n != "validation_between";
    assert n != "validation_boolean";
  }

  lemma ExecuteContentBoolean(value: Value, v: Variant, rt: Runtime)
    requires v == Google || v == News
    ensures Execute(Call("content_boolean"), value, "content_", Internal, v, rt) == Ok(BooleanContent(value))
  {
    assert [value] + [] == [value];
    ContentBooleanIsOwn(v);
    OwnCallback("content_boolean", [], value, "content_", v, rt);
    CallContentBoolean([value], rt);
  }

  /**
   * A video flag passes validation only as a boolean: the strings 'yes' and
   * 'no' raise like any other value, and an accepted flag comes out as 'yes'
   * or 'no'.
   */
  lemma VideoFlagValues(v: Value, s: Settings)
    requires s.useValidation && s.useContentCallbacks && (s.variant == Google || s.variant == News)
    ensures var r := ProcessScalar("family_friendly", VideoFlag, v, s);
      (r.Err? <==> !v.Bool?)
      && (r.Ok? ==> r.value == BooleanContent(v) && (r.value == Str("yes") || r.value == Str("no")))
  {
    FlagScalar(v, s);
    if v.Bool? {
      assert BooleanContent(v) == Str("yes") || BooleanContent(v) == Str("no") by {
        if v.b {} else {}
      }
    }
  }

  lemma FlagScalar(v: Value, s: Settings)
    requires s.useValidation && s.useContentCallbacks && (s.variant == Google || s.variant == News)
    ensures ProcessScalar("family_friendly", VideoFlag, v, s)
      == if v.Bool? then Ok(BooleanContent(v)) else Err(ValidationFailed("family_friendly"))
  {
    FlagVerdict(v, s);
    if v.Bool? {
      FlagContent(v, s);
    }
  }

  lemma FlagVerdict(v: Value, s: Settings)
    requires s.useValidation && (s.variant == Google || s.variant == News)
    ensures Validate("family_friendly", VideoFlag, v, s).Err? <==> !v.Bool?
    ensures v.Bool? ==> Validate("family_friendly", VideoFlag, v, s) == Ok(v)
  {
    var verdict := ValidBooleanAsWritten(v, Bool(true));
    assert Execute(VideoFlag.validation.value, v, "validation_", Internal, s.variant, s.rt) == Ok(Bool(verdict)) by {
      ExecuteBoolean(v, s.variant, s.rt);
    }
    ValidateRaises("family_friendly", VideoFlag, v, s, verdict);
  }

  lemma FlagContent(v: Value, s: Settings)
    requires s.useContentCallbacks && (s.variant == Google || s.variant == News)
    ensures Transform(VideoFlag, v, s) == BooleanContent(v)
  {
    ExecuteContentBoolean(v, s.variant, s.rt);
  }

  // ---------------------------------------------------------------- news publication name

  lemma LowerPublicationName()
    ensures Lower("validation_publicationName") == "validation_publicationname"
  {
    assert "validation_publication" + ['N'] + "ame" == "validation_publicationName";
    assert "validation_publication" + [LowerChar('N')] + "ame" == "validation_publicationname" by {
      assert LowerChar('N') == 'n';
    }
    LowerOneCapital("validation_publication", 'N', "ame");
  }

  lemma PublicationNamePrefixed()
    ensures StartsWith("validation_publicationName", "validation_")
  {
  }

  lemma PublicationNameIsOwn()
    ensures HasMethod(News, "validation_publicationName")
    ensures StartsWith("validation_publicationName", "validation_")
  {
    LowerPublicationName();
    PublicationNamePrefixed();
    DeclaredCallback(News, "validation_publicationName", "validation_");
  }

  lemma CallPublicationName(args: seq<Value>, rt: Runtime)
    ensures CallBuiltin("validation_publicationName", args, rt) == Bool(ValidPublicationName(Arg(args, 0, Null), rt))
  {
    LowerPublicationName();
    var n := "validation_publicationname";
    assert |n| == 26;
    assert n != "validation_changefrequency" && n != "validation_priority" && n != "validation_maxlength";
    assert n != "content_url" && n != "validation_between" && n != "validation_boolean";
    assert n != "content_boolean";
  }

  lemma ExecutePublicationName(value: Value, rt: Runtime)
    ensures Execute(Call("validation_publicationName"), value, "validation_", Internal, News, rt) ==
      Ok(Bool(ValidPublicationName(value, rt)))
  {
    PublicationNameIsOwn();
    OwnCallback("validation_publicationName", [], value, "validation_", News, rt);
    CallPublicationName([value] + [], rt);
  }

  /**
   * On a News sitemap, a publication name whose string form ends with ')'
   * raises the validation exception; any other is kept as given.
   */
  lemma PublicationNameParenthetical(v: Value, s: Settings)
    requires s.useValidation && s.variant == News
    ensures var t := ToStr(v, s.rt);
      ProcessScalar("name", PublicationName, v, s) ==
        if |t| > 0 && t[|t| - 1] == ')' then Err(ValidationFailed("name")) else Ok(v)
  {
    var verdict := ValidPublicationName(v, s.rt);
    assert Execute(PublicationName.validation.value, v, "validation_", Internal, s.variant, s.rt) == Ok(Bool(verdict)) by {
      ExecutePublicationName(v, s.rt);
    }
    RaisesUnless("name", PublicationName, v, s, verdict);
  }

  // ---------------------------------------------------------------- element names

  /** A rule whose element lands in the namespace: named through the chain, or by that prefix. */
  predicate InNamespace(rule: Rule, ns: string) {
    rule.prefix == Some(Chain) || rule.prefix == Some(Named(ns))
  }

  /** Every child of the rule lands in the namespace. */
  predicate ChildrenInNamespace(rule: Rule, ns: string) {
    rule.children.Nested?
    && forall i :: 0 <= i < |rule.children.rules| ==> InNamespace(rule.children.rules[i].1, ns)
  }

  /**
   * Under a chain that starts at the namespace's own node, every child of a
   * rule whose children land in the namespace is written as `ns:...`.
   */
  lemma ChildNames(rule: Rule, ns: string, parents: seq<string>)
    requires ChildrenInNamespace(rule, ns) && |parents| > 0 && parents[0] == ns
    ensures forall i :: 0 <= i < |rule.children.rules| ==>
      StartsWith(TagName(rule.children.rules[i].0, rule.children.rules[i].1, parents + [rule.children.rules[i].0]), ns + ":")
  {
    forall i | 0 <= i < |rule.children.rules|
      ensures StartsWith(TagName(rule.children.rules[i].0, rule.children.rules[i].1, parents + [rule.children.rules[i].0]), ns + ":")
    {
      var stack := parents + [rule.children.rules[i].0];
      assert stack[0] == ns;
    }
  }

  /** Every element of the image node, registered by useImages, is written in the image namespace. */
  lemma ImageElementNames(doc: Sitemap)
    ensures Get(UseImages(doc).rules, "image").Some?
    ensures var image := Get(UseImages(doc).rules, "image").value;
      StartsWith(TagName("image", image, ["image"]), "image:")
      && image.children.Nested?
      && forall i :: 0 <= i < |image.children.rules| ==>
        StartsWith(TagName(image.children.rules[i].0, image.children.rules[i].1, ["image", image.children.rules[i].0]), "image:")
  {
    assert ChildrenInNamespace(ImageRule, "image");
    ChildNames(ImageRule, "image", ["image"]);
  }

  /**
   * Every element of the news node the News constructor registers, down to
   * the publication's name and language, is written in the news namespace.
   */
  lemma NewsElementNames()
    ensures var news := NewsRule;
      StartsWith(TagName("news", news, ["news"]), "news:")
      && news.children.Nested? && |news.children.rules| > 0
      && forall i :: 0 <= i < |news.children.rules| ==>
        StartsWith(TagName(news.children.rules[i].0, news.children.rules[i].1, ["news", news.children.rules[i].0]), "news:")
    ensures var publication := NewsRule.children.rules[0];
      publication.0 == "publication"
      && publication.1.children.Nested?
      && forall i :: 0 <= i < |publication.1.children.rules| ==>
        var c := publication.1.children.rules[i];
        StartsWith(TagName(c.0, c.1, ["news", "publication", c.0]), "news:")
  {
    NewsChildrenInNamespace();
    NewsChildNames();
    PublicationChildNames();
  }

  lemma NewsChildNames()
    requires ChildrenInNamespace(NewsRule, "news")
    ensures forall i :: 0 <= i < |NewsRule.children.rules| ==>
      StartsWith(TagName(NewsRule.children.rules[i].0, NewsRule.children.rules[i].1, ["news", NewsRule.children.rules[i].0]), "news:")
  {
    ChildNames(NewsRule, "news", ["news"]);
  }

  lemma PublicationChildNames()
    requires ChildrenInNamespace(NewsRule.children.rules[0].1, "news")
    ensures var publication := NewsRule.children.rules[0].1;
      forall i :: 0 <= i < |publication.children.rules| ==>
        var c := publication.children.rules[i];
        StartsWith(TagName(c.0, c.1, ["news", "publication", c.0]), "news:")
  {
    ChildNames(NewsRule.children.rules[0].1, "news", ["news", "publication"]);
  }

  lemma NewsChildrenInNamespace()
    ensures ChildrenInNamespace(NewsRule, "news")
    ensures NewsRule.children.rules[0].0 == "publication"
    ensures ChildrenInNamespace(NewsRule.children.rules[0].1, "news")
  {
  }

  /** Every element of the video node, whichever URL check it names, is written in the video namespace. */
  lemma VideoElementNames(urlCheck: string)
    ensures StartsWith(TagName("video", VideoRule(urlCheck), ["video"]), "video:")
    ensures var children := VideoRule(urlCheck).children.rules;
      forall i :: 0 <= i < |children| ==> StartsWith(TagName(children[i].0, children[i].1, ["video", children[i].0]), "video:")
  {
    VideoChildrenInNamespace(urlCheck);
    ChildNames(VideoRule(urlCheck), "video", ["video"]);
  }

  lemma VideoChildrenInNamespace(urlCheck: string)
    ensures ChildrenInNamespace(VideoRule(urlCheck), "video")
  {
    var c := VideoChildren(urlCheck);
    forall i | 0 <= i < |c|
      ensures c[i].1.prefix == Some(Chain)
    {
    }
  }

  // ---------------------------------------------------------------- image items

  lemma ImageChildrenRegistrable()
    ensures Registrable(ImageRule.children.rules)
  {
    var c := ImageRule.children.rules;
    assert c[4..][1..] == [];
    assert Keys(c[4..]) == {"license"};
    assert Keys(c[3..]) == {"title", "license"} by {
      assert c[3..][1..] == c[4..];
    }
    assert Keys(c[2..]) == {"geo_location", "title", "license"} by {
      assert c[2..][1..] == c[3..];
    }
    assert Keys(c[1..]) == {"caption", "geo_location", "title", "license"} by {
      assert c[1..][1..] == c[2..];
    }
    assert UniqueKeys(c[4..]);
    assert UniqueKeys(c[3..]) by {
      assert c[3..][1..] == c[4..];
    }
    assert UniqueKeys(c[2..]) by {
      assert c[2..][1..] == c[3..];
    }
    assert UniqueKeys(c[1..]) by {
      assert c[1..][1..] == c[2..];
    }
  }

  /**
   * An image item without a loc raises the required-node exception for loc,
   * and the exception leaves the image's children in place of the rules the
   * object held before.
   */
  lemma ImageItemNeedsLoc(item: Fields, ctx: Ctx, s: Settings)
    requires Missing(item, "loc")
    ensures Descend(ImageRule.children, item, ctx, s) ==
      Thrown(RequiredMissing("loc"), ctx.(rules := ImageRule.children.rules))
  {
    var c := ImageRule.children.rules;
    assert SetNodes(c) == Registered(c, None) by {
      ImageChildrenRegistrable();
      SetNodesRestores(c);
    }
    assert FirstMissingRequired(c, item) == Some("loc") by {
      assert c[0].0 == "loc" && IsRequired(c[0].1);
    }
  }

  // ---------------------------------------------------------------- sitemap index

  /** The index rules: loc and lastmod, unprefixed, under distinct keys. */
  lemma IndexRules()
    ensures var rules := [BaseRules[0], BaseRules[1]];
      UniqueKeys(rules) && Get(rules, "changefreq").None? && Get(rules, "priority").None?
      && forall n :: Get(rules, n).Some? ==> n in {"loc", "lastmod"} && Get(rules, n).value.prefix.None?
  {
    var b := BaseRules;
    assert b[0].0 == "loc" && b[1].0 == "lastmod";
    assert b[0].1.prefix.None? && b[1].1.prefix.None?;
    TwoKeys(b[0], b[1]);
  }

  /** A level holding just the loc and lastmod rules ignores every other field. */
  lemma LocLastmodIgnores(fields: Fields, ctx: Ctx, s: Settings)
    requires ctx.rules == [BaseRules[0], BaseRules[1]]
    ensures ProcessLevel(fields, ctx, s) == ProcessLevel(Configured(fields, ctx.rules), ctx, s)
    ensures Get(Configured(fields, ctx.rules), Name("changefreq")).None?
    ensures Get(Configured(fields, ctx.rules), Name("priority")).None?
  {
    IndexRules();
    IgnoresUnconfigured(fields, ctx, s);
    ConfiguredDrops(fields, ctx.rules, "changefreq");
    ConfiguredDrops(fields, ctx.rules, "priority");
  }

  /** A level holding just the loc and lastmod rules names no other element. */
  lemma LocLastmodNames(fields: Fields, ctx: Ctx, s: Settings)
    requires ctx.rules == [BaseRules[0], BaseRules[1]]
    ensures var r := ProcessLevel(fields, ctx, s);
      r.Done? ==> forall k :: k in Keys(r.value) ==> k.Name? && k.name in {"loc", "lastmod"}
  {
    IndexRules();
    UnprefixedNames(fields, ctx, s, {"loc", "lastmod"});
  }

  /**
   * A sitemap index ignores changefreq and priority fields: processing an
   * entry is processing it without them.
   */
  lemma IndexIgnoresFrequencyAndPriority(fields: Fields, rt: Runtime)
    ensures var d := NewIndex();
      ProcessLevel(fields, CtxOf(d), SettingsOf(d, rt)) == ProcessLevel(Configured(fields, d.rules), CtxOf(d), SettingsOf(d, rt))
    ensures var d := NewIndex();
      Get(Configured(fields, d.rules), Name("changefreq")).None? && Get(Configured(fields, d.rules), Name("priority")).None?
  {
    LocLastmodIgnores(fields, CtxOf(NewIndex()), SettingsOf(NewIndex(), rt));
  }

  /** A processed index entry holds at most a loc and a lastmod element. */
  lemma IndexEntryNames(fields: Fields, rt: Runtime)
    ensures var d := NewIndex(); var r := ProcessLevel(fields, CtxOf(d), SettingsOf(d, rt));
      r.Done? ==> forall k :: k in Keys(r.value) ==> k.Name? && k.name in {"loc", "lastmod"}
  {
    LocLastmodNames(fields, CtxOf(NewIndex()), SettingsOf(NewIndex(), rt));
  }
}
