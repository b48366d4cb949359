/**
 * The sitemap classes as configurations of the common pipeline: the default
 * rules of Sitemap_SitemapsOrg, the image and video extensions of the Google
 * class, the news extension of the News class, and the reduced rules of the
 * sitemap index.
 */
module Variants {
  import opened Basics
  import opened Php
  import opened OrderedMap
  import opened Exceptions
  import opened Schema
  import opened Builtins
  import opened Callbacks
  import opened Processor
  import opened Document

  const SITEMAPS_ORG_SCHEMA: string := "http://www.sitemaps.org/schemas/sitemap/0.9"
  const IMAGE_SCHEMA: string := "http://www.google.com/schemas/sitemap-image/1.1"
  const VIDEO_SCHEMA: string := "http://www.google.com/schemas/sitemap-video/1.1"
  const NEWS_SCHEMA: string := "http://www.google.com/schemas/sitemap-news/0.9"

  /** The News class declares a smaller cap, but addEntry never reads it. */
  const NEWS_MAXIMUM_ENTRIES: nat := 1000

  /** A callback to one of the sitemap's own methods, with no bound arguments. */
  function Call(name: string): Callback {
    Callback(Fn(name), [])
  }

  /** A leaf node whose failed validation raises. */
  function Checked(validation: Callback, content: Option<Callback>, required: Option<bool>, prefix: Option<Prefix>): Rule {
    Rule(NoChildren, Some(validation), Some(Raise), content, required, prefix)
  }

  /** A leaf node with no callbacks, named after the whole parent chain. */
  const Chained: Rule := Bare.(prefix := Some(Chain))

  /** Rules that `setAllowedEntryNodes` accepts and gives back unchanged. */
  predicate Registrable(rules: Rules) {
    UniqueKeys(rules) && forall i :: 0 <= i < |rules| ==> Admissible(rules[i].1)
  }

  // ---------------------------------------------------------------- Sitemap_SitemapsOrg

  /** A URL node: validated by the named check, escaped by content_url, raising on failure. */
  function UrlNode(check: string, required: Option<bool>, prefix: Option<Prefix>): Rule {
    Checked(Call(check), Some(Call("content_url")), required, prefix)
  }

  const LocRule: Rule := UrlNode("validation_url", Some(true), None)
  const PriorityRule: Rule := Rule(NoChildren, Some(Call("validation_priority")), Some(Lit(Float(0.5))), None, None, None)

  /** The default `_allowedEntryNodes`: loc, lastmod, changefreq and priority. */
  const BaseRules: Rules := [
    ("loc", LocRule),
    ("lastmod", Checked(Call("validation_date"), Some(Call("content_date")), None, None)),
    ("changefreq", Checked(Call("validation_changeFrequency"), None, None, None)),
    ("priority", PriorityRule)]

  /** A freshly constructed object of a class that keeps the default properties. */
  function Fresh(v: Variant): Sitemap {
    Sitemap(v, BaseRules, [], [], [("", SITEMAPS_ORG_SCHEMA)], "urlset", "url", true, true)
  }

  function NewSitemapsOrg(): Sitemap {
    Fresh(SitemapsOrg)
  }

  /** The Google constructor adds a ping URL, which is not part of this model. */
  function NewGoogle(): Sitemap {
    Fresh(Google)
  }

  /** The default rules are four distinct nodes, each accepted by the registration guard. */
  lemma BaseRulesRegistrable()
    ensures Keys(BaseRules) == {"loc", "lastmod", "changefreq", "priority"}
    ensures Registrable(BaseRules)
  {
    var b := BaseRules;
    assert Keys(b[3..]) == {"priority"};
    assert b[2..][1..] == b[3..];
    assert Keys(b[2..]) == {"changefreq", "priority"};
    assert b[1..][1..] == b[2..];
    assert Keys(b[1..]) == {"lastmod", "changefreq", "priority"};
    assert UniqueKeys(b[3..]);
    assert UniqueKeys(b[2..]);
    assert UniqueKeys(b[1..]);
    assert forall i :: 0 <= i < |b| ==> Admissible(b[i].1);
  }

  /**
   * Every class starts with loc as its first rule: an entry without a usable
   * loc is refused, with the object unchanged, before anything else is looked
   * at, and an entry with one never fails the entry level's check on loc.
   */
  lemma EntryNeedsLoc(doc: Sitemap, fields: Fields, rt: Runtime)
    requires |doc.rules| > 0 && doc.rules[0] == ("loc", LocRule)
    requires |doc.entries| < MAXIMUM_ENTRIES
    ensures Missing(fields, "loc") <==> FirstMissingRequired(doc.rules, fields) == Some("loc")
    ensures Missing(fields, "loc") ==> AddEntry(doc, Arr(fields), rt) == Step(doc, Some(RequiredMissing("loc")))
  {
    assert IsRequired(doc.rules[0].1);
    assert WithCtx(doc, CtxOf(doc)) == doc;
  }

  // ---------------------------------------------------------------- Sitemap_SitemapsOrg_Google: images

  /** The `image` node `useImages` registers. */
  const ImageRule: Rule := Rule(
    Nested([
      ("loc", UrlNode("validation_url", Some(true), Some(Named("image")))),
      ("caption", Chained),
      ("geo_location", Chained),
      ("title", Chained),
      ("license", Chained)]),
    None, None, None, None, Some(Named("image")))

  /** `useImages()`: the image namespace and the image node. */
  function UseImages(doc: Sitemap): (r: Sitemap)
    ensures Get(r.namespaces, "image") == Some(IMAGE_SCHEMA)
    ensures forall q :: q != "image" ==> Get(r.namespaces, q) == Get(doc.namespaces, q)
    ensures Get(r.rules, "image") == Some(ImageRule)
    ensures forall n :: n != "image" ==> Get(r.rules, n) == Get(doc.rules, n)
    ensures UniqueKeys(doc.rules) ==> UniqueKeys(r.rules)
    ensures r == doc.(namespaces := r.namespaces, rules := r.rules)
  {
    var d := AddNamespace(doc, IMAGE_SCHEMA, "image");
    d.(rules := Register(d.rules, "image", ImageRule))
  }

  /**
   * `addAllowedEntryNodes(array($name => $rule))` for a rule the guard
   * accepts: the rule is stored under the name, nothing else changes.
   */
  function Register(rules: Rules, name: string, rule: Rule): (r: Rules)
    requires Admissible(rule)
    ensures AddNodes(rules, [(name, rule)]) == Registered(r, None)
    ensures r == Put(rules, name, rule)
  {
    assert AddNode(rules, name, rule) == Ok(Put(rules, name, rule));
    assert [(name, rule)][1..] == [];
    Put(rules, name, rule)
  }

  // ---------------------------------------------------------------- Sitemap_SitemapsOrg_Google: videos

  /** A video leaf whose failed validation raises; every one is named after its parent chain. */
  function VideoLeaf(validation: Callback, content: Option<Callback>, required: Option<bool>): Rule {
    Checked(validation, content, required, Some(Chain))
  }

  /** A video title: at most 50 characters, HTML-encoded, required. */
  const VideoTitle: Rule :=
    VideoLeaf(Callback(Fn("validation_maxLength"), [Int(50)]), Some(Call("content_htmlEncodedText")), Some(true))

  /** A video duration: between 0 and 28800 seconds, both included. */
  const VideoDuration: Rule :=
    VideoLeaf(Callback(Fn("validation_between"), [Int(0), Int(28800), Bool(true)]), None, None)

  /** A video flag: a boolean, written out as 'yes' or 'no'. */
  const VideoFlag: Rule := VideoLeaf(Call("validation_boolean"), Some(Call("content_boolean")), None)

  /**
   * The children of the `video` node. The three location nodes are checked
   * with the named callback: the source names `validate_url`.
   */
  function VideoChildren(urlCheck: string): Rules {
    [
      ("thumbnail_loc", VideoLeaf(Call("validation_video_thumbnail"), Some(Call("content_url")), Some(true))),
      ("title", VideoTitle),
      ("description", VideoLeaf(Callback(Fn("validation_maxLength"), [Int(2048)]), Some(Call("content_htmlEncodedText")), Some(true))),
      ("content_loc", UrlNode(urlCheck, Some(true), Some(Chain))),
      ("player_loc", UrlNode(urlCheck, Some(true), Some(Chain))),
      ("duration", VideoDuration),
      ("expiration_date", VideoLeaf(Call("validation_date"), Some(Call("content_date")), None)),
      ("rating", VideoLeaf(Callback(Fn("validation_between"), [Int(0), Int(5), Bool(true)]), None, None)),
      ("view_count", Chained),
      ("publication_date", VideoLeaf(Call("validation_date"), Some(Call("content_date")), None)),
      ("family_friendly", VideoFlag),
      ("tag", Chained),
      ("category", VideoLeaf(Callback(Fn("validation_maxLength"), [Int(256)]), None, None)),
      ("restriction", VideoLeaf(Call("validation_ISO3166"), None, None)),
      ("gallery_loc", UrlNode(urlCheck, None, Some(Chain))),
      ("requires_subscription", VideoFlag),
      ("uploader", Chained),
      ("platform", VideoLeaf(Call("validation_platform"), None, None)),
      ("live", VideoFlag)
    ]
  }

  function VideoRule(urlCheck: string): Rule {
    Rule(Nested(VideoChildren(urlCheck)), None, None, None, None, Some(Named("video")))
  }

  /** The two alternative location nodes are required in the video rule. */
  lemma VideoLocations(urlCheck: string)
    ensures Get(VideoChildren(urlCheck), "content_loc") == Some(UrlNode(urlCheck, Some(true), Some(Chain)))
    ensures Get(VideoChildren(urlCheck), "player_loc") == Some(UrlNode(urlCheck, Some(true), Some(Chain)))
  {
    ContentLocation(urlCheck);
    PlayerLocation(urlCheck);
  }

  lemma ContentLocation(urlCheck: string)
    ensures Get(VideoChildren(urlCheck), "content_loc") == Some(VideoChildren(urlCheck)[3].1)
  {
    var c := VideoChildren(urlCheck);
    assert c[0].0 != "content_loc" && c[1].0 != "content_loc" && c[2].0 != "content_loc";
    GetSkip(c, "content_loc", 3);
    assert c[3..][0] == c[3];
  }

  lemma PlayerLocation(urlCheck: string)
    ensures Get(VideoChildren(urlCheck), "player_loc") == Some(VideoChildren(urlCheck)[4].1)
  {
    var c := VideoChildren(urlCheck);
    assert c[0].0 != "player_loc" && c[1].0 != "player_loc" && c[2].0 != "player_loc" && c[3].0 != "player_loc";
    GetSkip(c, "player_loc", 4);
    assert c[4..][0] == c[4];
  }

  /** `useVideos()` with the namespace prefix and the URL check it is given. */
  function UseVideosWith(doc: Sitemap, prefix: string, urlCheck: string): (r: Sitemap)
    ensures Get(r.namespaces, prefix) == Some(VIDEO_SCHEMA)
    ensures forall q :: q != prefix ==> Get(r.namespaces, q) == Get(doc.namespaces, q)
    ensures Get(r.rules, "video") == Some(VideoRule(urlCheck))
    ensures forall n :: n != "video" ==> Get(r.rules, n) == Get(doc.rules, n)
    ensures UniqueKeys(doc.rules) ==> UniqueKeys(r.rules)
    ensures r == doc.(namespaces := r.namespaces, rules := r.rules)
  {
    var d := AddNamespace(doc, VIDEO_SCHEMA, prefix);
    d.(rules := Register(d.rules, "video", VideoRule(urlCheck)))
  }

  /**
   * `useVideos()` as written: the video schema goes under the prefix
   * 'image', and the location nodes are checked by `validate_url`.
   */
  function UseVideos(doc: Sitemap): (r: Sitemap)
    ensures Get(r.namespaces, "image") == Some(VIDEO_SCHEMA)
    ensures forall q :: q != "image" ==> Get(r.namespaces, q) == Get(doc.namespaces, q)
    ensures Get(r.rules, "video") == Some(VideoRule("validate_url"))
    ensures forall n :: n != "video" ==> Get(r.rules, n) == Get(doc.rules, n)
    ensures r == doc.(namespaces := r.namespaces, rules := r.rules)
  {
    UseVideosWith(doc, "image", "validate_url")
  }

  /**
   * `useVideos()` as intended: the video schema under 'video', and the
   * location nodes checked by validation_url.
   */
  function UseVideosCorrected(doc: Sitemap): (r: Sitemap)
    ensures Get(r.namespaces, "video") == Some(VIDEO_SCHEMA)
    ensures forall q :: q != "video" ==> Get(r.namespaces, q) == Get(doc.namespaces, q)
    ensures Get(r.rules, "video") == Some(VideoRule("validation_url"))
    ensures forall n :: n != "video" ==> Get(r.rules, n) == Get(doc.rules, n)
    ensures r == doc.(namespaces := r.namespaces, rules := r.rules)
  {
    UseVideosWith(doc, "video", "validation_url")
  }

  /** Every video element carries the `video:` prefix; the image element carries `image:`. */
  lemma VideoTag(urlCheck: string)
    ensures TagName("video", VideoRule(urlCheck), ["video"]) == "video:video"
  {
  }

  lemma ImageTag()
    ensures TagName("image", ImageRule, ["image"]) == "image:image"
  {
  }

  /**
   * As written, useVideos after useImages takes the image prefix away from
   * the image schema, and no namespace is declared for the `video:` prefix
   * that every video element carries.
   */
  lemma VideosOverwriteImageNamespace(doc: Sitemap)
    requires Get(doc.namespaces, "video").None?
    ensures var r := UseVideos(UseImages(doc));
      Get(r.namespaces, "image") == Some(VIDEO_SCHEMA) && Get(r.namespaces, "video").None?
      && TagName("video", Get(r.rules, "video").value, ["video"]) == "video:video"
  {
    var r := UseVideos(UseImages(doc));
    assert Get(r.rules, "video").value == VideoRule("validate_url");
    VideoTag("validate_url");
    assert Get(r.namespaces, "video") == Get(UseImages(doc).namespaces, "video") by {
      VideoIsNotImage();
    }
  }

  lemma VideoIsNotImage()
    ensures "video" != "image"
  {
  }

  /** As intended, both schemas stay declared, each under the prefix its elements carry. */
  lemma VideosDeclareTheirNamespace(doc: Sitemap)
    ensures var r := UseVideosCorrected(UseImages(doc));
      Get(r.namespaces, "image") == Some(IMAGE_SCHEMA) && Get(r.namespaces, "video") == Some(VIDEO_SCHEMA)
      && TagName("video", Get(r.rules, "video").value, ["video"]) == "video:video"
      && TagName("image", Get(r.rules, "image").value, ["image"]) == "image:image"
  {
    var d := UseImages(doc);
    var r := UseVideosCorrected(d);
    VideoIsNotImage();
    assert Get(r.namespaces, "image") == Get(d.namespaces, "image");
    assert Get(r.rules, "image") == Get(d.rules, "image");
    assert Get(r.rules, "video").value == VideoRule("validation_url");
    VideoTag("validation_url");
    ImageTag();
  }

  /**
   * A URL node checked by validation_url passes exactly when the runtime's
   * URL check accepts the value, and comes out escaped by content_url;
   * otherwise it raises.
   */
  lemma UrlNodeChecks(name: string, required: Option<bool>, prefix: Option<Prefix>, v: Value, s: Settings)
    requires s.useValidation && s.useContentCallbacks
    ensures var r := ProcessScalar(name, UrlNode("validation_url", required, prefix), v, s);
      (r.Ok? <==> Truthy(s.rt.builtin("validation_url", [v])))
      && (r.Ok? ==> r.value == Str(ContentUrl(ToStr(v, s.rt))))
      && (r.Err? ==> r.error == ValidationFailed(name))
  {
    UrlNodeValidates(name, required, prefix, v, s);
    UrlNodeEscapes(required, prefix, v, s);
  }

  lemma UrlNodeValidates(name: string, required: Option<bool>, prefix: Option<Prefix>, v: Value, s: Settings)
    requires s.useValidation
    ensures Validate(name, UrlNode("validation_url", required, prefix), v, s) ==
      if Truthy(s.rt.builtin("validation_url", [v])) then Ok(v) else Err(ValidationFailed(name))
  {
    ExecuteValidationUrl(v, s.variant, s.rt);
  }

  lemma UrlNodeEscapes(required: Option<bool>, prefix: Option<Prefix>, v: Value, s: Settings)
    requires s.useContentCallbacks
    ensures Transform(UrlNode("validation_url", required, prefix), v, s) == Str(ContentUrl(ToStr(v, s.rt)))
  {
    ExecuteContentUrl(v, s.variant, s.rt);
  }

  /**
   * As written, a URL node checked by `validate_url` never passes
   * validation: the check resolves to nothing, NULL is falsy, and the
   * fallback is the sentinel.
   */
  lemma LocationCheckAlwaysFails(name: string, required: Option<bool>, prefix: Option<Prefix>, v: Value, s: Settings)
    requires s.useValidation && !s.rt.functionExists("validate_url")
    ensures ProcessScalar(name, UrlNode("validate_url", required, prefix), v, s) == Err(ValidationFailed(name))
  {
    ValidateUrlUnresolved(s.variant, s.rt);
    UnresolvedCheckFails(name, "validate_url", required, prefix, v, s);
  }

  /** A URL node whose check resolves to nothing fails validation, whatever the value. */
  lemma UnresolvedCheckFails(name: string, check: string, required: Option<bool>, prefix: Option<Prefix>, v: Value, s: Settings)
    requires s.useValidation
    requires ResolveTarget(Fn(check), "validation_", Internal, s.variant, s.rt) == Ok(Unresolved)
    ensures ProcessScalar(name, UrlNode(check, required, prefix), v, s) == Err(ValidationFailed(name))
  {
    var rule := UrlNode(check, required, prefix);
    UnresolvedIsNull(Call(check), v, s);
    assert Validate(name, rule, v, s) == Err(ValidationFailed(name));
  }

  lemma UnresolvedIsNull(cb: Callback, v: Value, s: Settings)
    requires Resolve(cb, "validation_", Internal, s.variant, s.rt) == Ok(Unresolved)
    ensures Execute(cb, v, "validation_", Internal, s.variant, s.rt) == Ok(Null)
  {
  }

  /**
   * As intended, a video's content_loc passes exactly when the URL check
   * accepts it; with validation_url in place the node behaves like loc.
   */
  lemma LocationCheckAcceptsUrls(v: Value, s: Settings)
    requires s.useValidation && s.useContentCallbacks
    ensures var r := ProcessScalar("content_loc", Get(VideoChildren("validation_url"), "content_loc").value, v, s);
      (r.Ok? <==> Truthy(s.rt.builtin("validation_url", [v])))
      && (r.Ok? ==> r.value == Str(ContentUrl(ToStr(v, s.rt))))
  {
    VideoLocations("validation_url");
    UrlNodeChecks("content_loc", Some(true), Some(Chain), v, s);
  }

  // ---------------------------------------------------------------- useContentLoc / usePlayerLoc

  /**
   * Reads the rule at an existing path, sets `required` to FALSE and merges
   * it back: the shared body of useContentLoc and usePlayerLoc.
   */
  function Unrequire(doc: Sitemap, path: seq<string>): (r: Result<Sitemap, Error>)
    requires HasConfig(doc.rules, path)
    requires forall i :: 1 <= i < |path| ==> path[i] !in OptionKeys
    ensures r.Ok? <==> Admissible(Lookup(doc.rules, path).value)
    ensures r.Err? ==> r.error == FallbackMissing
    ensures r.Ok? ==> Lookup(r.value.rules, path) == Some(Lookup(doc.rules, path).value.(required := Some(false)))
    ensures r.Ok? ==> r.value == doc.(rules := r.value.rules)
  {
    var existing := Lookup(doc.rules, path).value;
    PlainPathStaysOnRules(doc.rules, path);
    match MergeAtPath(doc.rules, path, existing.(required := Some(false)))
    case Refused(e) => Err(e)
    case Merged(rules) => Ok(doc.(rules := rules))
    case OptionEntered(_) => assert false; Err(FallbackMissing)
  }

  /** Unrequiring one path leaves every path that leaves it alone as it was. */
  lemma UnrequireElsewhere(doc: Sitemap, path: seq<string>, q: seq<string>)
    requires HasConfig(doc.rules, path) && Diverge(path, q)
    requires forall i :: 1 <= i < |path| ==> path[i] !in OptionKeys
    requires Unrequire(doc, path).Ok?
    ensures Lookup(Unrequire(doc, path).value.rules, q) == Lookup(doc.rules, q)
  {
    var existing := Lookup(doc.rules, path).value;
    PlainPathStaysOnRules(doc.rules, path);
    MergeAtPathElsewhere(doc.rules, path, existing.(required := Some(false)), q);
  }

  /** The two location nodes are named like no rule option. */
  lemma LocationsAreNotOptions()
    ensures "player_loc" !in OptionKeys && "content_loc" !in OptionKeys
  {
  }

  /** Below the top, `["video", child]` names a location node, never an option. */
  lemma LocationPathIsPlain(child: string)
    requires child == "player_loc" || child == "content_loc"
    ensures forall i :: 1 <= i < |["video", child]| ==> ["video", child][i] !in OptionKeys
  {
    LocationsAreNotOptions();
    assert ["video", child][1] == child;
  }

  /**
   * `useContentLoc()`: player_loc is no longer required and keeps its other
   * options; content_loc is left as it was. The guard refuses a player_loc
   * rule that has a validation callback but no fallback.
   */
  function UseContentLoc(doc: Sitemap): (r: Result<Sitemap, Error>)
    requires HasConfig(doc.rules, ["video", "player_loc"])
    ensures r.Ok? <==> Admissible(Lookup(doc.rules, ["video", "player_loc"]).value)
    ensures r.Err? ==> r.error == FallbackMissing
    ensures r.Ok? ==>
      Lookup(r.value.rules, ["video", "player_loc"]) == Some(Lookup(doc.rules, ["video", "player_loc"]).value.(required := Some(false)))
    ensures r.Ok? ==> Lookup(r.value.rules, ["video", "content_loc"]) == Lookup(doc.rules, ["video", "content_loc"])
    ensures r.Ok? ==> r.value == doc.(rules := r.value.rules)
  {
    LocationPathIsPlain("player_loc");
    var r := Unrequire(doc, ["video", "player_loc"]);
    if r.Ok? then
      LocationsDiverge();
      UnrequireElsewhere(doc, ["video", "player_loc"], ["video", "content_loc"]);
      r
    else r
  }

  /**
   * `usePlayerLoc()`: content_loc is no longer required and keeps its other
   * options; player_loc is left as it was.
   */
  function UsePlayerLoc(doc: Sitemap): (r: Result<Sitemap, Error>)
    requires HasConfig(doc.rules, ["video", "content_loc"])
    ensures r.Ok? <==> Admissible(Lookup(doc.rules, ["video", "content_loc"]).value)
    ensures r.Err? ==> r.error == FallbackMissing
    ensures r.Ok? ==>
      Lookup(r.value.rules, ["video", "content_loc"]) == Some(Lookup(doc.rules, ["video", "content_loc"]).value.(required := Some(false)))
    ensures r.Ok? ==> Lookup(r.value.rules, ["video", "player_loc"]) == Lookup(doc.rules, ["video", "player_loc"])
    ensures r.Ok? ==> r.value == doc.(rules := r.value.rules)
  {
    LocationPathIsPlain("content_loc");
    var r := Unrequire(doc, ["video", "content_loc"]);
    if r.Ok? then
      LocationsDiverge();
      UnrequireElsewhere(doc, ["video", "content_loc"], ["video", "player_loc"]);
      r
    else r
  }

  lemma LocationsDiverge()
    ensures Diverge(["video", "player_loc"], ["video", "content_loc"])
    ensures Diverge(["video", "content_loc"], ["video", "player_loc"])
  {
    assert ["video", "player_loc"][1] != ["video", "content_loc"][1];
  }

  /**
   * After useVideos, useContentLoc succeeds: player_loc keeps all its other
   * options but is optional, and content_loc is still required.
   */
  lemma ContentLocAfterVideos(doc: Sitemap, urlCheck: string)
    ensures var d := UseVideosWith(doc, "video", urlCheck);
      HasConfig(d.rules, ["video", "player_loc"])
      && UseContentLoc(d).Ok?
      && Lookup(UseContentLoc(d).value.rules, ["video", "player_loc"])
        == Some(VideoLeaf(Call(urlCheck), Some(Call("content_url")), Some(false)))
      && Lookup(UseContentLoc(d).value.rules, ["video", "content_loc"])
        == Some(VideoLeaf(Call(urlCheck), Some(Call("content_url")), Some(true)))
  {
    var d := UseVideosWith(doc, "video", urlCheck);
    var node := UrlNode(urlCheck, Some(true), Some(Chain));
    assert Lookup(d.rules, ["video", "player_loc"]) == Some(node) && Lookup(d.rules, ["video", "content_loc"]) == Some(node) by {
      VideoLocations(urlCheck);
      LookupPair(d.rules, "video", "player_loc");
      LookupPair(d.rules, "video", "content_loc");
    }
    LocationsDiverge();
    LocationPathIsPlain("player_loc");
    UnrequireSibling(d, ["video", "player_loc"], ["video", "content_loc"], node);
  }

  /** Unrequiring an admissible node succeeds and leaves a diverging path's rule as it was. */
  lemma UnrequireSibling(d: Sitemap, path: seq<string>, q: seq<string>, node: Rule)
    requires Lookup(d.rules, path) == Some(node) && Admissible(node) && Diverge(path, q)
    requires forall i :: 1 <= i < |path| ==> path[i] !in OptionKeys
    ensures Unrequire(d, path).Ok?
    ensures Lookup(Unrequire(d, path).value.rules, path) == Some(node.(required := Some(false)))
    ensures Lookup(Unrequire(d, path).value.rules, q) == Lookup(d.rules, q)
  {
    UnrequireElsewhere(d, path, q);
  }

  // ---------------------------------------------------------------- Sitemap_SitemapsOrg_Google_News

  /** The publication name of a news entry: no trailing parenthetical, required. */
  const PublicationName: Rule := Checked(Call("validation_publicationName"), None, Some(true), Some(Named("news")))

  /** The `news` node the News constructor registers. */
  const NewsRule: Rule := Rule(
    Nested([
      ("publication", Rule(
        Nested([
          ("name", PublicationName),
          ("language", Checked(Call("validation_ISO639"), None, Some(true), Some(Named("news"))))]),
        None, None, None, None, Some(Chain))),
      ("access", VideoLeaf(Call("validation_accessCondition"), None, None)),
      ("genres", VideoLeaf(Call("validation_genres"), None, None)),
      ("publication_date", VideoLeaf(Call("validation_date"), Some(Call("content_date")), Some(true))),
      ("title", Chained),
      ("geo_location", Chained),
      ("keywords", Chained),
      ("stock_tickers", Chained)]),
    None, None, None, None, Some(Named("news")))

  /** The News constructor: the Google defaults, then images, the news namespace and the news node. */
  function NewNews(): (r: Sitemap)
    ensures r.variant == News && r.entries == [] && r.stack == []
    ensures Get(r.rules, "news") == Some(NewsRule)
    ensures Get(r.rules, "image") == Some(ImageRule)
    ensures Get(r.namespaces, "news") == Some(NEWS_SCHEMA)
  {
    var d := AddNamespace(UseImages(Fresh(News)), NEWS_SCHEMA, "news");
    d.(rules := Register(d.rules, "news", NewsRule))
  }

  /** A News object declares the default, image and news schemas. */
  lemma NewsNamespaces()
    ensures var d := NewNews();
      Get(d.namespaces, "") == Some(SITEMAPS_ORG_SCHEMA)
      && Get(d.namespaces, "image") == Some(IMAGE_SCHEMA)
      && Get(d.namespaces, "news") == Some(NEWS_SCHEMA)
      && d.variant == News && d.entries == []
  {
    var d1 := UseImages(Fresh(News));
    assert Get(d1.namespaces, "") == Some(SITEMAPS_ORG_SCHEMA);
    var d2 := AddNamespace(d1, NEWS_SCHEMA, "news");
    assert NewNews().namespaces == d2.namespaces;
  }

  /**
   * A News object holds the default rules followed by image and news, in
   * that order, and every one of them is accepted by the registration guard.
   */
  lemma NewsRules()
    ensures NewNews().rules == BaseRules + [("image", ImageRule)] + [("news", NewsRule)]
    ensures Registrable(NewNews().rules)
  {
    var withImages := BaseRules + [("image", ImageRule)];
    NewsRulesInOrder();
    NewsRulesRegistrable(withImages + [("news", NewsRule)]);
  }

  lemma NewsRulesInOrder()
    ensures NewNews().rules == BaseRules + [("image", ImageRule)] + [("news", NewsRule)]
  {
    var withImages := BaseRules + [("image", ImageRule)];
    ExtensionNamesAreNew();
    var d1 := UseImages(Fresh(News));
    assert d1.rules == Put(BaseRules, "image", ImageRule);
    assert d1.rules == withImages;
    var d2 := AddNamespace(d1, NEWS_SCHEMA, "news");
    assert "news" !in Keys(withImages) by {
      KeysAppend(BaseRules, [("image", ImageRule)]);
    }
    assert NewNews().rules == Put(d2.rules, "news", NewsRule);
  }

  /** The image and news nodes are new to the default rules. */
  lemma ExtensionNamesAreNew()
    ensures "image" !in Keys(BaseRules) && "news" !in Keys(BaseRules) && "news" != "image"
  {
    BaseRulesRegistrable();
  }

  lemma NewsRulesRegistrable(all: Rules)
    requires all == BaseRules + [("image", ImageRule)] + [("news", NewsRule)]
    ensures Registrable(all)
  {
    BaseRulesRegistrable();
    var withImages := BaseRules + [("image", ImageRule)];
    KeysAppend(BaseRules, [("image", ImageRule)]);
    UniqueAppend(BaseRules, [("image", ImageRule)]);
    UniqueAppend(withImages, [("news", NewsRule)]);
    forall i | 0 <= i < |all|
      ensures Admissible(all[i].1)
    {
      if i < 4 {
        assert all[i] == BaseRules[i];
      }
    }
  }

  /**
   * The News class's own cap of 1000 is never consulted: a News object with
   * 1000 entries still takes an entry, unless processing it throws.
   */
  lemma NewsCapIsNotEnforced(doc: Sitemap, fields: Fields, rt: Runtime)
    requires doc.variant == News && |doc.entries| == NEWS_MAXIMUM_ENTRIES
    ensures AddEntry(doc, Arr(fields), rt).error.None? <==>
      ProcessLevel(fields, CtxOf(doc), SettingsOf(doc, rt)).Done?
  {
  }

  // ---------------------------------------------------------------- Sitemap_SitemapsOrg_SitemapIndex

  /**
   * The SitemapIndex constructor: the default rules without changefreq and
   * priority, so an index holds exactly the loc and lastmod rules, in that
   * order, under the root 'sitemapindex' with 'sitemap' entries.
   */
  function NewIndex(): (r: Sitemap)
    ensures r.variant == SitemapIndex && r.entries == [] && r.stack == []
    ensures r.rootName == "sitemapindex" && r.entryName == "sitemap"
    ensures r.rules == [BaseRules[0], BaseRules[1]]
  {
    var b := BaseRules;
    var kept := [b[0], b[1]];
    assert Remove(Remove(b, "changefreq"), "priority") == kept by {
      assert b == [b[0], b[1], b[2], b[3]];
      assert b[2].0 == "changefreq" && b[3].0 == "priority";
      RemoveLastTwo(b[0], b[1], b[2], b[3]);
    }
    assert SetNodes(kept).rules == kept by {
      assert UniqueKeys(kept) by {
        TwoKeys(b[0], b[1]);
      }
      assert Admissible(kept[0].1) && Admissible(kept[1].1);
      SetNodesRestores(kept);
    }
    var d := Fresh(SitemapIndex).(rootName := "sitemapindex", entryName := "sitemap");
    d.(rules := SetNodes(Remove(Remove(d.rules, "changefreq"), "priority")).rules)
  }

  /** Dropping the last two of four pairs by their keys leaves the first two, in order. */
  lemma RemoveLastTwo<V>(a: (string, V), b: (string, V), c: (string, V), d: (string, V))
    requires a.0 != c.0 && a.0 != d.0 && b.0 != c.0 && b.0 != d.0 && c.0 != d.0
    ensures Remove(Remove([a, b, c, d], c.0), d.0) == [a, b]
  {
    var m := [a, b, c, d];
    assert m[1..] == [b, c, d] && [b, c, d][1..] == [c, d] && [c, d][1..] == [d] && [d][1..] == [];
    assert Remove([d], c.0) == [d];
    assert Remove([c, d], c.0) == [d];
    assert Remove([b, c, d], c.0) == [b, d];
    assert Remove(m, c.0) == [a, b, d];
    assert [a, b, d][1..] == [b, d] && [b, d][1..] == [d];
    assert Remove([d], d.0) == [];
    assert Remove([b, d], d.0) == [b];
  }

  /** Two pairs with different keys: lookup finds each, and nothing else. */
  lemma TwoKeys<V>(a: (string, V), b: (string, V))
    requires a.0 != b.0
    ensures UniqueKeys([a, b])
    ensures forall n :: Get([a, b], n) == if n == a.0 then Some(a.1) else if n == b.0 then Some(b.1) else None
  {
    assert [a, b][1..] == [b] && [b][1..] == [];
    assert Keys([b]) == {b.0};
    forall n
      ensures Get([a, b], n) == if n == a.0 then Some(a.1) else if n == b.0 then Some(b.1) else None
    {
      assert Get([b], n) == if n == b.0 then Some(b.1) else Get([b][1..], n);
    }
  }
}
