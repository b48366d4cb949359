/**
 * The built-in validation_* and content_* methods of the sitemap classes,
 * the table of which class declares which of them, and the dispatch that
 * invokes one by name.
 */
module Builtins {
  import opened Php

  /** The sitemap classes whose methods differ. */
  datatype Variant = SitemapsOrg | Google | News | SitemapIndex

  /*
   * The methods each class declares, callback-prefixed or not. PHP looks
   * method names up case-insensitively, so the tables hold them lower-cased.
   */

  /** The validation_ and content_ methods of Sitemap_SitemapsOrg (inherited unchanged by SitemapIndex). */
  const SitemapsOrgMethods: set<string> := {
    "validation_url", "validation_date", "validation_changefrequency",
    "validation_priority", "validation_maxlength", "content_url", "content_date"}

  /** Sitemap_SitemapsOrg_Google adds these. */
  const GoogleMethods: set<string> := SitemapsOrgMethods + {
    "validation_video_thumbnail", "validation_between", "validation_boolean",
    "validation_iso3166", "validation_platform", "content_htmlencodedtext", "content_boolean"}

  /** Sitemap_SitemapsOrg_Google_News adds these. */
  const NewsMethods: set<string> := GoogleMethods + {
    "validation_publicationname", "validation_iso639", "validation_accesscondition", "validation_genres"}

  /** The validation_ and content_ methods a class declares. */
  function CallbackMethods(v: Variant): set<string> {
    match v
    case SitemapsOrg => SitemapsOrgMethods
    case SitemapIndex => SitemapsOrgMethods
    case Google => GoogleMethods
    case News => NewsMethods
  }

  /**
   * The methods a class declares besides its callbacks, in lower case: those
   * of Sitemap_SitemapsOrg, public, protected or private, and the four that
   * Sitemap_SitemapsOrg_Google adds (News and SitemapIndex add only
   * constructors). A function of the class rather than a constant, so that
   * the table enters a proof only where the class's methods are looked up.
   */
  function OtherMethods(v: Variant): (r: set<string>) {
    {
      "__construct", "reset", "addentry", "addentries", "_progressentrydata", "_executecallback",
      "_generatenodename", "render", "_initiaterender", "_rendernode", "_applynamespaces", "_getrootnode",
      "sendpings", "sendping", "_submitsitemaptopingurl", "_callwithcurl", "_callwithfsockopen", "_encodeurl",
      "setxmlversion", "getxmlversion", "setencoding", "getencoding", "setstylesheet", "getstylesheet",
      "getdomdocument", "setnamespaces", "getnamespaces", "addnamespace", "getnamespaceschema",
      "hasnamespaceschema", "setallowedentrynodes", "getallowedentrynodes", "addallowedentrynode",
      "addallowedentrynodes", "getallowedentryconfig", "hasallowedentryconfig", "getentries",
      "_getparentnodenames", "_addparentnodename", "_removelastparentnodename", "_resetparentnodenames",
      "setpingurls", "getpingurls", "addpingurl", "getpingurl", "haspingurl", "setusevalidation",
      "getusevalidation", "enablevalidation", "disablevalidation", "setusecontentcallbacks",
      "getusecontentcallbacks", "enablecontentcallbacks", "disablecontentcallbacks", "setdebug", "getdebug"}
    + (if v == Google || v == News then {"useimages", "usevideos", "usecontentloc", "useplayerloc"} else {})
  }

  /** Every class declares reset. */
  lemma DeclaresReset(v: Variant)
    ensures HasMethod(v, "reset")
  {
    ResetIsPlain();
    ResetIsOther(v);
  }

  lemma ResetIsPlain()
    ensures Lower("reset") == "reset" && !CallbackName("reset")
  {
    LowerFixed("reset");
    assert |"reset"| < |"content_"| < |"validation_"|;
  }

  lemma ResetIsOther(v: Variant)
    ensures DeclaresOther(v, "reset", 3)
  {
    assert "reset" in OtherMethods(v);
    assert DeclaresOther(v, "reset", 1);
    assert DeclaresOther(v, "reset", 2);
  }

  /** A name with a callback prefix is a declared method when its lower-cased form is a declared callback. */
  lemma DeclaredCallback(v: Variant, name: string, prefix: string)
    requires prefix == "validation_" || prefix == "content_"
    requires StartsWith(name, prefix) && Lower(name) in CallbackMethods(v)
    ensures HasMethod(v, name)
  {
    CallbackPrefixUncapitalised(prefix);
    LowerKeepsPrefix(name, prefix);
    assert CallbackName(Lower(name));
  }

  lemma CallbackPrefixUncapitalised(prefix: string)
    requires prefix == "validation_" || prefix == "content_"
    ensures forall i :: 0 <= i < |prefix| ==> !('A' <= prefix[i] <= 'Z')
  {
  }

  /** Lower-casing keeps a prefix that has no capitals. */
  lemma LowerKeepsPrefix(name: string, prefix: string)
    requires StartsWith(name, prefix)
    requires forall i :: 0 <= i < |prefix| ==> !('A' <= prefix[i] <= 'Z')
    ensures StartsWith(Lower(name), prefix)
  {
    forall i | 0 <= i < |prefix|
      ensures Lower(name)[i] == prefix[i]
    {
      assert name[i] == prefix[i];
    }
  }

  /** Whether a name carries one of the two callback prefixes. */
  predicate CallbackName(n: string) {
    StartsWith(n, "validation_") || StartsWith(n, "content_")
  }

  /**
   * `method_exists($this, $name)`, case-insensitive. A prefixed name is
   * looked up among the callbacks, any other among the other methods. No
   * other method starts with 'validation_' or 'content_', so this is
   * membership in all the methods the class declares.
   */
  predicate HasMethod(v: Variant, name: string) {
    var n := Lower(name);
    if CallbackName(n) then n in CallbackMethods(v) else DeclaresOther(v, n, 3)
  }

  /**
   * Whether n is among the class's other methods. The large table is reached
   * through a short countdown, so that a proof about callbacks never unfolds
   * it.
   */
  predicate DeclaresOther(v: Variant, n: string, k: nat)
    decreases k
  {
    if k == 0 then n in OtherMethods(v) else DeclaresOther(v, n, k - 1)
  }

  // ---------------------------------------------------------------- change frequency

  /** The names listed in `$_allowedChangeFrequencies`, in order. */
  const FrequencyConstantNames: seq<string> := [
    "CHANGE_FREQUENCY_ALWAYS", "CHANGE_FREQUENCY_HOURLY", "CHANGE_FREQUENCY_DAILY",
    "CHANGE_FREQUENCY_WEEKLY", "CHANGE_FREQUENCY_MONTHLY", "CHANGE_FREQUENCY_YEARLY",
    "CHANGE_FREQUENCY_NEVER"]

  /** `constant("self::$name")` for the change-frequency class constants. */
  function FrequencyConstant(name: string): string {
    if name == "CHANGE_FREQUENCY_ALWAYS" then "always"
    else if name == "CHANGE_FREQUENCY_HOURLY" then "hourly"
    else if name == "CHANGE_FREQUENCY_DAILY" then "daily"
    else if name == "CHANGE_FREQUENCY_WEEKLY" then "weekly"
    else if name == "CHANGE_FREQUENCY_MONTHLY" then "monthly"
    else if name == "CHANGE_FREQUENCY_YEARLY" then "yearly"
    else "never"
  }

  /** The changefreq values of the Sitemaps.org protocol. */
  const ChangeFrequencies: set<string> := {"always", "hourly", "daily", "weekly", "monthly", "yearly", "never"}

  /** The loop of validation_changeFrequency: a strict comparison with each listed constant. */
  function MatchesFrequency(v: Value, names: seq<string>): bool {
    if |names| == 0 then false
    else if v == Str(FrequencyConstant(names[0])) then true
    else MatchesFrequency(v, names[1..])
  }

  /** `validation_changeFrequency($changeFrequency)`. */
  function ValidChangeFrequency(v: Value): bool {
    MatchesFrequency(v, FrequencyConstantNames)
  }

  lemma {:induction false} MatchesFrequencyIn(v: Value, names: seq<string>)
    ensures MatchesFrequency(v, names) <==> exists i :: 0 <= i < |names| && v == Str(FrequencyConstant(names[i]))
  {
    if |names| > 0 {
      MatchesFrequencyIn(v, names[1..]);
      assert forall i :: 1 <= i < |names| ==> names[1..][i - 1] == names[i];
    }
  }

  /** The validator accepts exactly the strings of the protocol's changefreq enumeration. */
  lemma ChangeFrequencyEnum(v: Value)
    ensures ValidChangeFrequency(v) <==> v.Str? && v.s in ChangeFrequencies
  {
    MatchesFrequencyIn(v, FrequencyConstantNames);
    var ns := FrequencyConstantNames;
    assert FrequencyConstant(ns[0]) == "always" && FrequencyConstant(ns[1]) == "hourly";
    assert FrequencyConstant(ns[2]) == "daily" && FrequencyConstant(ns[3]) == "weekly";
    assert FrequencyConstant(ns[4]) == "monthly" && FrequencyConstant(ns[5]) == "yearly";
    assert FrequencyConstant(ns[6]) == "never";
    if v.Str? && v.s in ChangeFrequencies {
      var i := if v.s == "always" then 0 else if v.s == "hourly" then 1 else if v.s == "daily" then 2
        else if v.s == "weekly" then 3 else if v.s == "monthly" then 4 else if v.s == "yearly" then 5 else 6;
      assert v == Str(FrequencyConstant(ns[i]));
    }
  }

  // ---------------------------------------------------------------- priority, length, range

  /** `validation_priority($priority)`: `$priority >= 0.0 && $priority <= 1.0`. */
  function ValidPriority(v: Value, rt: Runtime): (r: bool)
    ensures v.Int? ==> (r <==> 0 <= v.i <= 1)
    ensures v.Float? ==> (r <==> 0.0 <= v.r <= 1.0)
    ensures v.Str? ==> (r <==> 0.0 <= rt.stringToNumber(v.s) <= 1.0)
    ensures v.Bool? || v.Null? ==> r
    ensures v.Arr? ==> !r
  {
    CompareWithNumber(v, 0.0, rt) >= 0 && CompareWithNumber(v, 1.0, rt) <= 0
  }

  /** `validation_maxLength($string, $maxLength)`: the length in characters is at most the bound. */
  function ValidMaxLength(v: Value, maxLength: Value, rt: Runtime): (r: bool)
    ensures maxLength.Int? ==> (r <==> |ToStr(v, rt)| <= maxLength.i)
  {
    CompareWithNumber(maxLength, |ToStr(v, rt)| as real, rt) >= 0
  }

  /**
   * `validation_between($number, $min, $max, $include = FALSE)`: intval of the
   * number within [min, max] when include is exactly TRUE, strictly between otherwise.
   */
  function ValidBetween(number: Value, min: Value, max: Value, inclusive: Value, rt: Runtime): (r: bool)
    ensures min.Int? && max.Int? && inclusive == Bool(true) ==>
      (r <==> min.i <= IntVal(number, rt) <= max.i)
    ensures min.Int? && max.Int? && inclusive != Bool(true) ==>
      (r <==> min.i < IntVal(number, rt) < max.i)
  {
    var n := IntVal(number, rt) as real;
    if inclusive == Bool(true) then
      CompareWithNumber(min, n, rt) <= 0 && CompareWithNumber(max, n, rt) >= 0
    else
      CompareWithNumber(min, n, rt) < 0 && CompareWithNumber(max, n, rt) > 0
  }

  // ---------------------------------------------------------------- booleans

  /**
   * `validation_boolean($value, $alternative = TRUE)` as written. The
   * alternative branch asks for a value identical to both 'yes' and 'no',
   * which none is, so only the booleans pass.
   */
  function ValidBooleanAsWritten(v: Value, alternative: Value): (r: bool)
    ensures r <==> v.Bool?
  {
    var strict := v == Bool(true) || v == Bool(false);
    if !strict && alternative == Bool(true) then v == Str("yes") && v == Str("no") else strict
  }

  /**
   * `validation_boolean` as its documentation describes it: the booleans,
   * and with the alternative on (the default) the strings 'yes' and 'no'.
   */
  function ValidBoolean(v: Value, alternative: Value): (r: bool)
    ensures r <==> v.Bool? || (alternative == Bool(true) && (v == Str("yes") || v == Str("no")))
  {
    var strict := v == Bool(true) || v == Bool(false);
    if !strict && alternative == Bool(true) then v == Str("yes") || v == Str("no") else strict
  }

  /** As written, the default check refuses 'yes'; the documented check accepts it. */
  lemma BooleanAlternativeIgnored()
    ensures !ValidBooleanAsWritten(Str("yes"), Bool(true)) && ValidBoolean(Str("yes"), Bool(true))
  {
  }

  /** The two readings agree whenever the alternative is switched off. */
  lemma BooleanStrictAgrees(v: Value, alternative: Value)
    requires alternative != Bool(true)
    ensures ValidBoolean(v, alternative) == ValidBooleanAsWritten(v, alternative)
  {
  }

  /** `content_boolean($value)`: TRUE becomes 'yes', FALSE becomes 'no', anything else stays. */
  function BooleanContent(v: Value): (r: Value)
    ensures v == Bool(true) ==> r == Str("yes")
    ensures v == Bool(false) ==> r == Str("no")
    ensures !v.Bool? ==> r == v
  {
    if v == Bool(true) then Str("yes") else if v == Bool(false) then Str("no") else v
  }

  /** Applying content_boolean twice is applying it once. */
  lemma BooleanContentIdempotent(v: Value)
    ensures BooleanContent(BooleanContent(v)) == BooleanContent(v)
  {
  }

  /**
   * A value the documented check accepts stays acceptable after
   * content_boolean, which maps the booleans onto 'yes' and 'no'.
   */
  lemma BooleanContentValid(v: Value)
    requires ValidBoolean(v, Bool(true))
    ensures ValidBoolean(BooleanContent(v), Bool(true))
    ensures BooleanContent(v) == Str("yes") || BooleanContent(v) == Str("no")
  {
  }

  // ---------------------------------------------------------------- news

  /** `validation_publicationName($name)`: `substr($name, -1) === ')'` rejects. */
  function ValidPublicationName(v: Value, rt: Runtime): (r: bool)
    ensures var s := ToStr(v, rt); r <==> !(|s| > 0 && s[|s| - 1] == ')')
  {
    var s := ToStr(v, rt);
    var last := if |s| == 0 then Bool(false) else Str(s[|s| - 1..]);
    last != Str(")")
  }

  predicate IsAsciiLetter(c: char) {
    'a' <= c <= 'z' || 'A' <= c <= 'Z'
  }

  /** `[a-z]{n}` under the /i modifier: exactly n ASCII letters. */
  predicate Letters(t: string, n: nat) {
    |t| == n && forall i :: 0 <= i < |t| ==> IsAsciiLetter(t[i])
  }

  /** One of the pattern's alternatives matches the whole string. */
  predicate Iso639Alternative(t: string) {
    Letters(t, 2) || Letters(t, 3) || Lower(t) == "zh-cw" || Lower(t) == "zh-tw"
  }

  /**
   * `validation_ISO639($code)`: `preg_match('/^([a-z]{2}|[a-z]{3}|zh-(cw|tw))$/i')`.
   * PCRE's `$` also matches just before a final newline.
   */
  function ValidIso639(v: Value, rt: Runtime): (r: bool)
    ensures var s := ToStr(v, rt);
      r <==> Iso639Alternative(s) || (|s| > 0 && s[|s| - 1] == '\n' && Iso639Alternative(s[..|s| - 1]))
  {
    var s := ToStr(v, rt);
    if |s| > 0 && s[|s| - 1] == '\n' then
      assert !Iso639Alternative(s) by {
        assert !IsAsciiLetter(s[|s| - 1]);
        assert Lower(s)[|s| - 1] == '\n';
      }
      Iso639Alternative(s[..|s| - 1])
    else Iso639Alternative(s)
  }

  // ---------------------------------------------------------------- content_url

  /** `str_replace($search, $replace, $s)` for a one-character search string. */
  function ReplaceChar(s: string, c: char, with: string): string {
    if |s| == 0 then ""
    else (if s[0] == c then with else [s[0]]) + ReplaceChar(s[1..], c, with)
  }

  /** The search and replace lists of content_url, in the order str_replace applies them. */
  const UrlEntities: seq<(char, string)> :=
    [('&', "&amp;"), ('\'', "&apos;"), ('"', "&quot;"), ('>', "&gt;"), ('<', "&lt;")]

  /** `str_replace($search, $replace, $s)` with search and replace lists: one pass per pair, in order. */
  function ReplaceAll(s: string, pairs: seq<(char, string)>): string
    decreases |pairs|
  {
    if |pairs| == 0 then s else ReplaceAll(ReplaceChar(s, pairs[0].0, pairs[0].1), pairs[1..])
  }

  /** `content_url($url)`: the five predefined entities substituted, '&' first. */
  function ContentUrl(s: string): (r: string)
    ensures r == Escape(s)
    ensures SafeText(r)
    ensures Unescape(r) == s
  {
    EntityPassesEscape(s);
    EscapeIsSafe(s);
    EscapeRoundTrip(s);
    ReplaceAll(s, UrlEntities)
  }

  /** The escape of one character by its predefined XML entity (section 4.6 of XML 1.0). */
  function EscapeChar(c: char): string {
    if c == '&' then "&amp;"
    else if c == '\'' then "&apos;"
    else if c == '"' then "&quot;"
    else if c == '>' then "&gt;"
    else if c == '<' then "&lt;"
    else [c]
  }

  /** Character-by-character entity escaping: the reference for content_url. */
  function Escape(s: string): string {
    if |s| == 0 then "" else EscapeChar(s[0]) + Escape(s[1..])
  }

  lemma {:induction false} ReplaceCharAppend(a: string, b: string, c: char, with: string)
    ensures ReplaceChar(a + b, c, with) == ReplaceChar(a, c, with) + ReplaceChar(b, c, with)
  {
    if |a| > 0 {
      assert (a + b)[1..] == a[1..] + b;
      ReplaceCharAppend(a[1..], b, c, with);
    } else {
      assert a + b == b;
    }
  }

  lemma {:induction false} ReplaceCharAbsent(s: string, c: char, with: string)
    requires forall i :: 0 <= i < |s| ==> s[i] != c
    ensures ReplaceChar(s, c, with) == s
  {
    if |s| > 0 {
      ReplaceCharAbsent(s[1..], c, with);
    }
  }

  lemma {:induction false} ReplaceAllAppend(a: string, b: string, pairs: seq<(char, string)>)
    ensures ReplaceAll(a + b, pairs) == ReplaceAll(a, pairs) + ReplaceAll(b, pairs)
    decreases |pairs|
  {
    if |pairs| > 0 {
      ReplaceCharAppend(a, b, pairs[0].0, pairs[0].1);
      ReplaceAllAppend(ReplaceChar(a, pairs[0].0, pairs[0].1), ReplaceChar(b, pairs[0].0, pairs[0].1), pairs[1..]);
    }
  }

  lemma {:induction false} ReplaceAllAbsent(s: string, pairs: seq<(char, string)>)
    requires forall i, k :: 0 <= i < |s| && 0 <= k < |pairs| ==> s[i] != pairs[k].0
    ensures ReplaceAll(s, pairs) == s
    decreases |pairs|
  {
    if |pairs| > 0 {
      ReplaceCharAbsent(s, pairs[0].0, pairs[0].1);
      ReplaceAllAbsent(s, pairs[1..]);
    }
  }

  lemma ReplaceCharSingle(x: char, c: char, with: string)
    ensures ReplaceChar([x], c, with) == if x == c then with else [x]
  {
    assert [x][1..] == [];
  }

  /** No pass's replacement holds a character a later pass searches for. */
  predicate PassesIndependent(pairs: seq<(char, string)>) {
    forall k, j, i :: 0 <= k < j < |pairs| && 0 <= i < |pairs[k].1| ==> pairs[k].1[i] != pairs[j].0
  }

  /** The replacement the first pass searching for c makes, or c itself. */
  function Substitute(c: char, pairs: seq<(char, string)>): string {
    if |pairs| == 0 then [c] else if pairs[0].0 == c then pairs[0].1 else Substitute(c, pairs[1..])
  }

  lemma {:induction false} ReplaceAllChar(c: char, pairs: seq<(char, string)>)
    requires PassesIndependent(pairs)
    ensures ReplaceAll([c], pairs) == Substitute(c, pairs)
    decreases |pairs|
  {
    if |pairs| > 0 {
      ReplaceCharSingle(c, pairs[0].0, pairs[0].1);
      if pairs[0].0 == c {
        ReplaceAllAbsent(pairs[0].1, pairs[1..]);
      } else {
        ReplaceAllChar(c, pairs[1..]);
      }
    }
  }

  lemma UrlEntitiesIndependent()
    ensures PassesIndependent(UrlEntities)
  {
    forall k, j, i | 0 <= k < j < |UrlEntities| && 0 <= i < |UrlEntities[k].1|
      ensures UrlEntities[k].1[i] != UrlEntities[j].0
    {
      var e := UrlEntities[k].1;
      assert e[i] == '&' || e[i] == ';' || 'a' <= e[i] <= 'z';
    }
  }

  lemma EntityPassesChar(c: char)
    ensures ReplaceAll([c], UrlEntities) == EscapeChar(c)
  {
    UrlEntitiesIndependent();
    ReplaceAllChar(c, UrlEntities);
    var p := UrlEntities;
    assert p[1..] == [p[1], p[2], p[3], p[4]];
    assert p[2..] == [p[2], p[3], p[4]];
    assert p[3..] == [p[3], p[4]];
    assert p[4..] == [p[4]];
    assert Substitute(c, p[4..]) == if c == '<' then "&lt;" else [c];
    assert Substitute(c, p[3..]) == if c == '>' then "&gt;" else Substitute(c, p[4..]);
    assert Substitute(c, p[2..]) == if c == '"' then "&quot;" else Substitute(c, p[3..]);
    assert Substitute(c, p[1..]) == if c == '\'' then "&apos;" else Substitute(c, p[2..]);
  }

  /** The five sequential str_replace passes equal one-pass entity escaping. */
  lemma {:induction false} EntityPassesEscape(s: string)
    ensures ReplaceAll(s, UrlEntities) == Escape(s)
  {
    if |s| > 0 {
      assert s == [s[0]] + s[1..];
      ReplaceAllAppend([s[0]], s[1..], UrlEntities);
      EntityPassesChar(s[0]);
      EntityPassesEscape(s[1..]);
    } else {
      ReplaceAllAbsent(s, UrlEntities);
    }
  }

  /** The string has the text t starting at position i. */
  predicate At(s: string, i: nat, t: string) {
    i + |t| <= |s| && s[i..i + |t|] == t
  }

  /** One of the five predefined entities starts at position i. */
  predicate EntityAt(s: string, i: nat) {
    At(s, i, "&amp;") || At(s, i, "&apos;") || At(s, i, "&quot;") || At(s, i, "&gt;") || At(s, i, "&lt;")
  }

  /** XML markup characters that escaped text never holds raw. */
  predicate Markup(c: char) {
    c == '<' || c == '>' || c == '"' || c == '\''
  }

  lemma AtShift(a: string, b: string, i: nat, t: string)
    ensures At(b, i, t) <==> At(a + b, |a| + i, t)
  {
    if i + |t| <= |b| {
      assert (a + b)[|a| + i..|a| + i + |t|] == b[i..i + |t|];
    }
  }

  lemma AtPrefix(a: string, b: string, t: string)
    requires At(a, 0, t)
    ensures At(a + b, 0, t)
  {
    assert (a + b)[..|t|] == a[..|t|];
  }

  /**
   * Text that is safe as XML character data: no raw <, >, " or ', and every
   * & begins one of the five predefined entities.
   */
  predicate SafeText(t: string) {
    (forall i :: 0 <= i < |t| ==> !Markup(t[i]))
    && forall i :: 0 <= i < |t| && t[i] == '&' ==> EntityAt(t, i)
  }

  lemma AtAppend(a: string, b: string, i: nat, t: string)
    requires At(a, i, t)
    ensures At(a + b, i, t)
  {
    assert (a + b)[i..i + |t|] == a[i..i + |t|];
  }

  lemma SafeAppend(a: string, b: string)
    requires SafeText(a) && SafeText(b)
    ensures SafeText(a + b)
  {
    forall i | 0 <= i < |a + b| && (a + b)[i] == '&'
      ensures EntityAt(a + b, i)
    {
      if i < |a| {
        assert a[i] == '&';
        if At(a, i, "&amp;") { AtAppend(a, b, i, "&amp;"); }
        if At(a, i, "&apos;") { AtAppend(a, b, i, "&apos;"); }
        if At(a, i, "&quot;") { AtAppend(a, b, i, "&quot;"); }
        if At(a, i, "&gt;") { AtAppend(a, b, i, "&gt;"); }
        if At(a, i, "&lt;") { AtAppend(a, b, i, "&lt;"); }
      } else {
        var j := i - |a|;
        assert b[j] == '&';
        AtShift(a, b, j, "&amp;");
        AtShift(a, b, j, "&apos;");
        AtShift(a, b, j, "&quot;");
        AtShift(a, b, j, "&gt;");
        AtShift(a, b, j, "&lt;");
      }
    }
  }

  lemma EscapeCharSafe(c: char)
    ensures SafeText(EscapeChar(c))
  {
    var e := EscapeChar(c);
    assert forall i :: 0 < i < |e| ==> e[i] != '&';
    if e[0] == '&' {
      assert e[0..|e|] == e;
    }
  }

  /** Escaped text is safe character data. */
  lemma {:induction false} EscapeIsSafe(s: string)
    ensures SafeText(Escape(s))
  {
    if |s| > 0 {
      EscapeIsSafe(s[1..]);
      EscapeCharSafe(s[0]);
      SafeAppend(EscapeChar(s[0]), Escape(s[1..]));
    }
  }

  /** content_url's output holds no raw markup character, and every & in it begins an entity. */
  /** Entity decoding for the five predefined entities: the inverse of Escape. */
  function Unescape(s: string): string
    decreases |s|
  {
    if |s| == 0 then ""
    else if At(s, 0, "&amp;") then "&" + Unescape(s[5..])
    else if At(s, 0, "&apos;") then "'" + Unescape(s[6..])
    else if At(s, 0, "&quot;") then "\"" + Unescape(s[6..])
    else if At(s, 0, "&gt;") then ">" + Unescape(s[4..])
    else if At(s, 0, "&lt;") then "<" + Unescape(s[4..])
    else [s[0]] + Unescape(s[1..])
  }

  lemma {:induction false} EscapeRoundTrip(s: string)
    ensures Unescape(Escape(s)) == s
  {
    if |s| > 0 {
      EscapeRoundTrip(s[1..]);
      UnescapeCons(s[0], Escape(s[1..]));
      assert s == [s[0]] + s[1..];
    }
  }

  /** Decoding consumes exactly the escape of the first character. */
  lemma UnescapeCons(c: char, rest: string)
    ensures Unescape(EscapeChar(c) + rest) == [c] + Unescape(rest)
  {
    if c == '&' {
      UnescapeAmp(rest);
    } else if c == '\'' {
      UnescapeApos(rest);
    } else if c == '"' {
      UnescapeQuot(rest);
    } else if c == '>' {
      UnescapeGt(rest);
    } else if c == '<' {
      UnescapeLt(rest);
    } else {
      UnescapeOther(c, rest);
    }
  }

  lemma UnescapeOther(c: char, rest: string)
    requires c != '&'
    ensures Unescape([c] + rest) == [c] + Unescape(rest)
  {
    var t := [c] + rest;
    assert t[1..] == rest;
    assert forall n :: 4 <= n <= |t| ==> t[..n][0] == c;
  }

  lemma UnescapeAmp(rest: string)
    ensures Unescape("&amp;" + rest) == "&" + Unescape(rest)
  {
    var t := "&amp;" + rest;
    assert t[..5] == "&amp;" && t[5..] == rest;
  }

  lemma UnescapeApos(rest: string)
    ensures Unescape("&apos;" + rest) == "'" + Unescape(rest)
  {
    var t := "&apos;" + rest;
    assert t[..6] == "&apos;" && t[6..] == rest;
    assert t[..5][2] == 'p';
  }

  lemma UnescapeQuot(rest: string)
    ensures Unescape("&quot;" + rest) == "\"" + Unescape(rest)
  {
    var t := "&quot;" + rest;
    assert t[..6] == "&quot;" && t[6..] == rest;
    assert t[..5][1] == 'q' && t[..6][1] == 'q';
  }

  lemma UnescapeGt(rest: string)
    ensures Unescape("&gt;" + rest) == ">" + Unescape(rest)
  {
    var t := "&gt;" + rest;
    assert t[..4] == "&gt;" && t[4..] == rest;
    assert t[1] == 'g';
    assert |t| >= 5 ==> t[..5][1] == 'g';
    assert |t| >= 6 ==> t[..6][1] == 'g';
  }

  lemma UnescapeLt(rest: string)
    ensures Unescape("&lt;" + rest) == "<" + Unescape(rest)
  {
    var t := "&lt;" + rest;
    assert t[..4] == "&lt;" && t[4..] == rest;
    assert t[1] == 'l';
    assert |t| >= 5 ==> t[..5][1] == 'l';
    assert |t| >= 6 ==> t[..6][1] == 'l';
    assert t[..4][1] == 'l';
  }

  // ---------------------------------------------------------------- dispatch

  /** The i-th argument, or the parameter's default when the caller passed fewer. */
  function Arg(args: seq<Value>, i: nat, default: Value): Value {
    if i < |args| then args[i] else default
  }

  /** The value a callback is run on comes first; its bound arguments follow. */
  lemma ArgShift(v: Value, extras: seq<Value>, i: nat, default: Value)
    ensures Arg([v] + extras, i + 1, default) == Arg(extras, i, default)
  {
  }

  /** The declared validation methods whose answer the model computes. */
  const ModelledChecks: set<string> := {
    "validation_changefrequency", "validation_priority", "validation_maxlength", "validation_between",
    "validation_boolean", "validation_publicationname", "validation_iso639"}

  /** The declared content methods whose answer the model computes. */
  const ModelledContent: set<string> := {"content_url", "content_boolean"}

  /**
   * `call_user_func_array(array($this, $name), $args)` for a declared method.
   * Methods whose behaviour is left out are answered by the runtime.
   */
  function CallBuiltin(name: string, args: seq<Value>, rt: Runtime): (r: Value)
    ensures Lower(name) in ModelledChecks ==> r.Bool?
    ensures Lower(name) == "content_url" ==>
      r.Str? && SafeText(r.s) && Unescape(r.s) == ToStr(Arg(args, 0, Null), rt)
    ensures Lower(name) == "validation_boolean" ==> (r == Bool(true) <==> Arg(args, 0, Null).Bool?)
    ensures Lower(name) == "content_boolean" && Arg(args, 0, Null).Bool? ==> r == Str("yes") || r == Str("no")
    ensures Lower(name) !in ModelledChecks + ModelledContent ==> r == rt.builtin(name, args)
  {
    var n := Lower(name);
    var a0 := Arg(args, 0, Null);
    if n == "validation_changefrequency" then Bool(ValidChangeFrequency(a0))
    else if n == "validation_priority" then Bool(ValidPriority(a0, rt))
    else if n == "validation_maxlength" then Bool(ValidMaxLength(a0, Arg(args, 1, Null), rt))
    else if n == "content_url" then Str(ContentUrl(ToStr(a0, rt)))
    else if n == "validation_between" then
      Bool(ValidBetween(a0, Arg(args, 1, Null), Arg(args, 2, Null), Arg(args, 3, Bool(false)), rt))
    else if n == "validation_boolean" then Bool(ValidBooleanAsWritten(a0, Arg(args, 1, Bool(true))))
    else if n == "content_boolean" then BooleanContent(a0)
    else if n == "validation_publicationname" then Bool(ValidPublicationName(a0, rt))
    else if n == "validation_iso639" then Bool(ValidIso639(a0, rt))
    else rt.builtin(name, args)
  }

  lemma LowerValidationUrl()
    ensures Lower("validation_url") == "validation_url"
  {
    LowerFixed("validation_url");
  }

  lemma LowerContentUrl()
    ensures Lower("content_url") == "content_url"
  {
    LowerFixed("content_url");
  }

  /** validation_url is declared by every sitemap class. */
  lemma ValidationUrlDeclared(v: Variant)
    ensures HasMethod(v, "validation_url")
  {
    LowerValidationUrl();
    ValidationPrefixed();
    DeclaredCallback(v, "validation_url", "validation_");
  }

  /** content_url is declared by every sitemap class. */
  lemma ContentUrlDeclared(v: Variant)
    ensures HasMethod(v, "content_url")
  {
    LowerContentUrl();
    ContentPrefixed();
    DeclaredCallback(v, "content_url", "content_");
  }

  lemma ValidationPrefixed()
    ensures StartsWith("validation_url", "validation_")
  {
  }

  lemma ContentPrefixed()
    ensures StartsWith("content_url", "content_")
  {
  }

  /** validation_url is answered by the runtime's URL check. */
  lemma CallValidationUrl(args: seq<Value>, rt: Runtime)
    ensures CallBuiltin("validation_url", args, rt) == rt.builtin("validation_url", args)
  {
    LowerValidationUrl();
    var n := "validation_url";
    assert |n| == 14;
    assert n != "validation_changefrequency" && n != "validation_priority" && n != "validation_maxlength";
    assert n != "content_url" && n != "validation_between" && n != "validation_boolean";
    assert n != "content_boolean" && n != "validation_publicationname" && n != "validation_iso639";
  }

  /** content_url escapes the string form of its argument. */
  lemma CallContentUrl(v: Value, rt: Runtime)
    ensures CallBuiltin("content_url", [v], rt) == Str(ContentUrl(ToStr(v, rt)))
  {
    LowerContentUrl();
    var n := "content_url";
    assert n != "validation_changefrequency" && n != "validation_priority" && n != "validation_maxlength";
  }
}
