# Sitemap entry pipeline, modelled in Dafny

This project models the core of the PHP library `Sitemap` (func0der/Sitemap).
That core is the class `Sitemap_SitemapsOrg`, which turns entry arrays into a
Sitemaps.org document. Each entry goes through a schema of allowed entry nodes,
and the configured callbacks validate it and transform its content. The model
also covers the variants that only reconfigure that schema:
`Sitemap_SitemapsOrg_Google` (image and video extensions),
`Sitemap_SitemapsOrg_Google_News` (news extension) and
`Sitemap_SitemapsOrg_SitemapIndex` (index files).

The modules follow the structure of the class:

- `Php` (php.dfy): the PHP values the library handles. It covers ordered
  arrays with integer or string keys, `empty()`, truthiness, string and
  integer conversion, and loose comparison with numbers. String-to-number
  conversion and float formatting are parameters of a `Runtime` record.
- `OrderedMap` (ordered_map.dfy): PHP arrays as insertion-ordered key/value
  sequences.
- `Exceptions` (exceptions.dfy): the exceptions the library throws, each
  with the PHP exception class that carries it.
- `Schema` (schema.dfy): the allowed-entry-node configuration. It covers
  the registration guard, `addAllowedEntryNode(s)`, `setAllowedEntryNodes`,
  path lookup, and merge-update at an existing path.
- `Builtins` (builtins.dfy): the `validation_*` and `content_*` methods,
  which class declares which of them, and dispatch by name. PHP looks
  method names up case-insensitively, and so does the model.
- `Callbacks` (callbacks.dfy): `_executeCallback`. It covers resolution
  under the prefix requirements, and the call with the value first and the
  bound arguments after it.
- `Processor` and `ProcessorProps` (processor.dfy, processor_props.dfy):
  `_progressEntryData` and its properties. That is the required-node check,
  the walk over fields, validation with fallback, content callbacks, sub-node
  collections and their renumbering, the schema swap for children, and node
  naming from the parent-name stack.
- `Renderer` (renderer.dfy): `render`, `_renderNode` and `_applyNamespaces`,
  producing an abstract element tree.
- `Document` (document.dfy): the object state and `addEntry`, `addEntries`,
  `reset`, `addNamespace` and `render` over it.
- `Variants` (variants.dfy): the default rules, `useImages`, `useVideos`,
  `useContentLoc`, `usePlayerLoc`, the News constructor and the
  SitemapIndex constructor.
- `Scenarios` (scenarios.dfy): what the registered rules of each class do
  to particular values.

An exception in the middle of processing leaves the object as it is at that
point. The swapped-in child rules and the pushed parent name stay; the model
threads this state through every call as an `Outcome`.

## Model

| member | source | states |
|---|---|---|
| Schema.AddNode | lib/Sitemap/SitemapsOrg.php:1631-1641 | A rule with a validation callback but no fallback is refused with the invalid-parameter exception, and only such a rule. Otherwise the name now holds exactly that rule, every other name keeps its rule, and the key set grows by the name. |
| Schema.AddNodes | lib/Sitemap/SitemapsOrg.php:1711-1725 | Bulk registration succeeds exactly when every rule passes the guard; otherwise it stops with the fallback exception. After success, the registered names are the old ones plus the new ones, each new name holds its rule and the other names keep theirs. |
| Schema.SetNodesRestores | lib/Sitemap/SitemapsOrg.php:1589-1605 | Re-registering a level of distinct rules that all pass the guard gives back exactly that level, with no exception. This is why the schema swap around a child level restores the parent rules. |
| Schema.LookupExtend | lib/Sitemap/SitemapsOrg.php:1734-1770 | Looking up a path one segment longer is looking up the shorter path and then taking that child. A missing segment anywhere makes the whole lookup fail. |
| Schema.Lookup | lib/Sitemap/SitemapsOrg.php:1734-1770 | An empty path finds nothing, a one-segment path finds the top-level rule of that name, and a longer path is found only below a top-level rule named by its first segment. |
| Schema.MergeAtPath | lib/Sitemap/SitemapsOrg.php:1631-1694 | Registering a config at an existing array path has the same guard as a plain registration. The first-run test is never switched off, so from the second segment on, a segment naming a set option of the rule reached so far descends into that option. Without such a segment, the rule at the path becomes the key-wise `array_merge` of the old rule and the config. When only the last segment names a set scalar option, `array_merge` on that scalar gives NULL and the option is cleared. Otherwise the first segment that enters an option is reported. |
| Schema.MergeAtPathElsewhere | lib/Sitemap/SitemapsOrg.php:1642-1694 | A merge at one path that enters no option leaves the rule at every path that diverges from it unchanged. |
| Schema.PrefixSegmentClearsPrefix | lib/Sitemap/SitemapsOrg.php:1652-1690 | Merging at ['video', 'prefix'] into a video rule with a prefix and a child called 'prefix' clears the video rule's prefix and leaves the child alone. |
| Schema.ChildrenSegmentEntersOption | lib/Sitemap/SitemapsOrg.php:1652-1690 | A path whose second segment is '_children' enters the children option at depth 1 instead of looking for a child of that name. |
| Builtins.ChangeFrequencyEnum | lib/Sitemap/SitemapsOrg.php:1175-1187 | validation_changeFrequency accepts exactly the seven Sitemaps.org changefreq strings. The comparison is strict, so no non-string passes. |
| Builtins.ValidPriority | lib/Sitemap/SitemapsOrg.php:1198-1207 | An integer or float priority passes exactly when it lies in [0, 1]. A string passes by its numeric value. Booleans and NULL pass under PHP's loose comparison, and arrays never pass. |
| Builtins.ValidMaxLength | lib/Sitemap/SitemapsOrg.php:1220-1227 | With an integer bound, a value passes exactly when its string form has at most that many characters. |
| Builtins.EntityPassesEscape | lib/Sitemap/SitemapsOrg.php:1247-1265 | The five sequential `str_replace` passes of content_url equal escaping each character by its predefined XML entity. Because '&' goes first, no entity is escaped twice. |
| Builtins.ContentUrl | lib/Sitemap/SitemapsOrg.php:1247-1265 | content_url escapes each character by its XML entity. Its output holds no raw '<', '>', '"' or ''', every '&' in it begins one of the five entities, and decoding the entities gives back the input. |
| Builtins.CallBuiltin | lib/Sitemap/SitemapsOrg.php:728-737 | Calling a declared method by name ignores case. A modelled check returns a boolean. validation_boolean returns TRUE exactly for a boolean value, as written. content_url returns safe text that decodes to the string form of the value. content_boolean turns a boolean into 'yes' or 'no'. Any other declared method is answered by the runtime. |
| Builtins.DeclaresReset | lib/Sitemap/SitemapsOrg.php:663 | `method_exists` finds every declared method, not only callbacks: every sitemap class declares `reset`. |
| Builtins.DeclaredCallback | lib/Sitemap/SitemapsOrg.php:663 | A validation_ or content_ name that the class declares, written in any case, is found by `method_exists`. |
| Builtins.ValidBetween | lib/Sitemap/SitemapsOrg/Google.php:322-338 | With integer bounds, the integer value of the number must lie within them. Both ends count only when the include flag is exactly TRUE; otherwise both are excluded. |
| Builtins.ValidBooleanAsWritten | lib/Sitemap/SitemapsOrg/Google.php:354-364 | As written, validation_boolean accepts exactly the two booleans, whatever the alternative flag says. |
| Builtins.ValidBoolean | lib/Sitemap/SitemapsOrg/Google.php:340-364 | As documented, validation_boolean accepts the booleans, and also the strings 'yes' and 'no' when the alternative flag is TRUE. |
| Builtins.BooleanAlternativeIgnored | lib/Sitemap/SitemapsOrg/Google.php:359-361 | With the default flag, 'yes' is refused as written and accepted as documented. |
| Builtins.BooleanStrictAgrees | lib/Sitemap/SitemapsOrg/Google.php:354-364 | With the alternative flag off, the written and the documented check agree on every value. |
| Builtins.BooleanContent | lib/Sitemap/SitemapsOrg/Google.php:464-475 | content_boolean maps TRUE to 'yes' and FALSE to 'no', and leaves every other value as it is. |
| Builtins.BooleanContentIdempotent | lib/Sitemap/SitemapsOrg/Google.php:464-475 | Applying content_boolean twice gives the same value as applying it once. |
| Builtins.BooleanContentValid | lib/Sitemap/SitemapsOrg/Google.php:340-364 | A value the documented check accepts becomes 'yes' or 'no' under content_boolean, and that result passes the check again. |
| Builtins.ValidPublicationName | lib/Sitemap/SitemapsOrg/Google/News.php:111-121 | A publication name is refused exactly when its string form ends with ')'. |
| Builtins.ValidIso639 | lib/Sitemap/SitemapsOrg/Google/News.php:139-148 | A language code passes exactly when it is 2 or 3 ASCII letters, or 'zh-cw' or 'zh-tw', in any case. PCRE's `$` also lets one trailing newline through. |
| Callbacks.ResolveTarget | lib/Sitemap/SitemapsOrg.php:605-725 | For a callback split into a bare name or a class and method: it throws only when the requirement is 'both', the prefix is non-empty and the name lacks it. The object's own method is chosen only if the class declares it and the internal prefix rule allows it. A global function is chosen only if it exists and the external rule allows it. A foreign method is chosen only if it exists and the external rule allows it. A declared own method that passes the rule is always chosen. |
| Callbacks.ResolvePair | lib/Sitemap/SitemapsOrg.php:605-681 | For an (object, method) pair left as the callable's name: it throws exactly when the requirement is 'both' and the prefix is non-empty. It is never a global function. Its method runs exactly when no external prefix is required and the method exists, on the object itself or on the other object. |
| Callbacks.Resolve | lib/Sitemap/SitemapsOrg.php:481-490 | A pair with no bound arguments is not split off by the caller and follows the pair rule. Every other callback follows the split rule. Own methods are chosen under the internal prefix rule for split callbacks, but only under "no external prefix required" for unsplit pairs. 'both' with a prefix throws for every unsplit pair. |
| Callbacks.Execute | lib/Sitemap/SitemapsOrg.php:591-739 | A callback fails exactly when resolution throws, unsplit pairs included. Nothing resolved yields NULL. An own method, a global function and a foreign method are each called with the value first and the bound arguments after it, in order. |
| Callbacks.ResetResolution | lib/Sitemap/SitemapsOrg.php:650-681 | A bare 'reset' under 'external' runs the object's own `reset`. Under 'internal' it lacks the prefix, so it goes to a global function of that name if there is one, and otherwise to nothing. |
| Callbacks.InternalRequirementNeverThrows | lib/Sitemap/SitemapsOrg.php:605-681 | Under the 'internal' requirement the pipeline uses, no callback throws. A bare name or a split pair without the prefix is never run as one of the object's own methods. An unsplit pair naming `$this` runs exactly when the object declares the method, whatever its name. |
| Callbacks.PairBypassesPrefix | lib/Sitemap/SitemapsOrg.php:605-681 | As written, `array(array($this, 'm'))` with no bound arguments runs the declared method `m` on the value under 'internal', whatever the prefix. |
| Callbacks.ResetRunsAsValidation | lib/Sitemap/SitemapsOrg.php:605-681 | As written, `array(array($this, 'reset'))` given as a validation callback runs `reset` on the value, although `reset` lacks the `validation_` prefix. |
| Callbacks.PairThrowsUnderBoth | lib/Sitemap/SitemapsOrg.php:616-621 | Under 'both' with a non-empty prefix, an unsplit pair always throws, whatever its method is called. |
| Callbacks.ResolveCorrected | lib/Sitemap/SitemapsOrg.php:605-613 | As intended, a pair is split into class and method whether or not bound arguments follow it. It throws exactly when the split name lacks the prefix under 'both', and an own method is chosen only under the internal prefix rule. Callbacks that are not unsplit pairs resolve as written. |
| Callbacks.CorrectedKeepsPrefixRule | lib/Sitemap/SitemapsOrg.php:605-663 | With the correction, under 'internal' with a prefix, no callback whose name lacks it throws or runs as an own method. |
| Callbacks.ResetRefusedWhenCorrected | lib/Sitemap/SitemapsOrg.php:605-663 | With the correction, `array(array($this, 'reset'))` resolves to nothing under the validation prefix. |
| Callbacks.OwnCallback | lib/Sitemap/SitemapsOrg.php:650-668 | A bare name of a declared method that carries the prefix runs that method on the value and its bound arguments. |
| Callbacks.ValidateUrlUnresolved | lib/Sitemap/SitemapsOrg/Google.php:120-126 | `validate_url` lacks the `validation_` prefix. Unless PHP has a global function of that name, it resolves to nothing. |
| Processor.FirstMissingRequired | lib/Sitemap/SitemapsOrg.php:424-435 | This is the first rule in declaration order that is required and whose field is absent or empty. There is none exactly when every required field is present and non-empty. |
| Processor.Validate | lib/Sitemap/SitemapsOrg.php:471-515 | With validation off or no callback, the value is kept. Otherwise the callback never throws and its verdict, of any type, decides: a truthy verdict keeps the value; a falsy one gives NULL when no fallback is set, raises the validation exception for that node when the fallback is the sentinel, and otherwise puts the fallback in place of the value. Only the sentinel raises. |
| Processor.Transform | lib/Sitemap/SitemapsOrg.php:517-548 | With content callbacks off or no callback, the value is kept. Otherwise it becomes what the content callback returns under the `content_` prefix. |
| Processor.ProcessScalar | lib/Sitemap/SitemapsOrg.php:469-548 | A scalar fails exactly when its validation does. Otherwise the content callback runs on what validation left. |
| Processor.ProcessLevel | lib/Sitemap/SitemapsOrg.php:421-568 | A missing required node raises for the first such rule, with the object unchanged. Any exception is a processing exception. On success the stack is back as it was, and with distinct rules the rules are as well. The result's keys are exactly the element names of the configured fields. |
| Processor.ProcessFrom | lib/Sitemap/SitemapsOrg.php:438-560 | The field loop pushes and pops one name per configured field, so the stack is unchanged on success. It yields a level of distinct element names. |
| Processor.ProcessField | lib/Sitemap/SitemapsOrg.php:440-558 | Array data becomes a collection-shaped array. Other data is the scalar result, and a scalar exception leaves the object as it was. |
| Processor.ProcessCollection | lib/Sitemap/SitemapsOrg.php:446-467 | Processing array data yields items numbered 0, 1, ..., each a processed level, followed by a named rest. The stack is unchanged. |
| Processor.Descend | lib/Sitemap/SitemapsOrg.php:412-568 | A child level runs with the rules swapped for the children, and with distinct rules they are put back on success. A failure while swapping or processing leaves the object as it is at that point. |
| Processor.MergeItemsThenRest | lib/Sitemap/SitemapsOrg.php:466 | `array_merge` of processed items and the processed rest renumbers the items from 0 in their order and appends the rest unchanged. |
| ProcessorProps.IgnoresUnconfigured | lib/Sitemap/SitemapsOrg.php:438-440 | Fields without a rule at the level are dropped silently. Processing an entry equals processing only its configured fields, exception or not. |
| ProcessorProps.ConfiguredDrops | lib/Sitemap/SitemapsOrg.php:440 | A name without a rule does not survive into the configured fields. |
| Processor.TagName | lib/Sitemap/SitemapsOrg.php:755-771 | Without a prefix option, or with one that is neither TRUE nor a string, the element is named after the rule. A string prefix puts 'prefix:' in front of the name. A TRUE prefix joins the parent-name stack with ':', so the name ends with the last name pushed and, with more than one, starts with the first followed by ':'. |
| ProcessorProps.ExpectedNamesFrom | lib/Sitemap/SitemapsOrg.php:551-555 | Every element name a level produces is the generated name of one of its rules, with that rule's name on the stack. |
| ProcessorProps.UnprefixedNames | lib/Sitemap/SitemapsOrg.php:755-771 | When no rule of a level carries a prefix, every element the level produces is named after one of those rules. |
| ProcessorProps.ItemsInOrder | lib/Sitemap/SitemapsOrg.php:450-458 | The item loop succeeds exactly when every integer-keyed item processes as a child level. It then leaves the object state as it was and collects the processed items in their original order. |
| ProcessorProps.CollectionInOrder | lib/Sitemap/SitemapsOrg.php:446-467 | Array data succeeds exactly when every item and the non-empty named rest succeed. The result is the processed items renumbered from 0 in order, then the processed rest. An empty rest is never checked for required nodes. |
| ProcessorProps.ItemLevelsAt | lib/Sitemap/SitemapsOrg.php:453-454 | Position j of the processed items holds the j-th integer-keyed item processed against the node's children. |
| ProcessorProps.ItemLevelsLength | lib/Sitemap/SitemapsOrg.php:450-458 | Every integer-keyed item yields exactly one processed item. |
| Renderer.RenderField | lib/Sitemap/SitemapsOrg.php:845-879 | A named field renders as elements inside its parent, the first carrying the field's name. A named scalar renders as exactly one element of that name holding the value's string form. An integer-keyed field renders only for an array under a parent, as siblings carrying the current name. An integer-keyed scalar fails as an invalid name, and an integer key without a parent fails. Every node produced is an element. |
| Renderer.RenderFields | lib/Sitemap/SitemapsOrg.php:845-879 | Rendering the fields of a level produces only elements, inside the element and as siblings. |
| Renderer.RenderableIff | lib/Sitemap/SitemapsOrg.php:845-879 | `_renderNode` succeeds exactly on input the DOM accepts. An integer key is allowed only on an array under an element that already hangs in the tree, and the same holds at every nesting level. |
| Renderer.NamesStayInside | lib/Sitemap/SitemapsOrg.php:861-868 | A level whose keys are all names renders entirely inside its own element. |
| Renderer.TopLevelStaysInside | lib/Sitemap/SitemapsOrg.php:845-879 | An element without a parent never passes elements up. |
| Renderer.ItemsBecomeSiblings | lib/Sitemap/SitemapsOrg.php:854-860 | Integer-keyed arrays become elements of the current element's name, one per item and in order, appended to the parent. Each holds what its level renders to. |
| Renderer.CollectionRendersOneMore | lib/Sitemap/SitemapsOrg.php:845-879 | A collection of N items followed by named fields under the name k renders as N + 1 elements called k. The first holds the named fields, and the rest are the items in order. |
| Renderer.RenderAppend | lib/Sitemap/SitemapsOrg.php:847-878 | Rendering concatenated fields succeeds exactly when both parts do. The output is the first part's output followed by the second's. |
| Renderer.NamespaceAttributes | lib/Sitemap/SitemapsOrg.php:887-901 | The root's namespace attributes have distinct names, one per qualified name of a registered prefix (`xmlns` for a prefix that PHP's `empty()` treats as empty, `xmlns:p` otherwise). |
| Renderer.NamespaceDeclared | lib/Sitemap/SitemapsOrg.php:887-901 | When no other prefix maps to the same attribute name, the root carries exactly the schema registered for that prefix. |
| Renderer.OneElementPerEntry | lib/Sitemap/SitemapsOrg.php:792-801 | Rendering succeeds exactly when every entry renders without a parent. Each stored entry then becomes one entry element, in order, holding what its fields render to. |
| Document.AddEntryCapped | lib/Sitemap/SitemapsOrg.php:361-383 | A non-array is refused and a full list is refused, both with the object unchanged. Otherwise the processed entry is appended. An exception adds nothing, and a list within the cap stays within it. |
| Document.AddEntry | lib/Sitemap/SitemapsOrg.php:366-369 | The maximum-entries exception comes exactly when an array entry meets a list already holding 50000 entries. |
| Document.AddEntries | lib/Sitemap/SitemapsOrg.php:392-398 | Entries that are not an array add nothing. Otherwise addEntries keeps the entries it had, stays within the cap, and without an exception adds one entry per value. |
| Document.AddEachGrows | lib/Sitemap/SitemapsOrg.php:392-398 | addEntries keeps what it added before an exception. Entries grow by at most one per value, earlier entries are untouched, the cap holds, and a run without an exception adds one entry per value. |
| Document.Reset | lib/Sitemap/SitemapsOrg.php:331-338 | reset empties the entry list and keeps the rules, the namespaces and the settings. |
| Document.ResetThenAdd | lib/Sitemap/SitemapsOrg.php:331-383 | After reset, an array entry can be refused only by processing. When accepted, it is the one entry the object holds. |
| Document.AddNamespace | lib/Sitemap/SitemapsOrg.php:1539-1543 | The prefix now names the URL, every other prefix keeps its URL, and nothing else in the object changes. |
| Document.Render | lib/Sitemap/SitemapsOrg.php:782-803 | A successful render is the root element, named by the class's root name and carrying the namespace attributes. |
| Document.ProcessedCollectionRenders | lib/Sitemap/SitemapsOrg.php:845-879 | A processed collection renders as one more element than it has items, all carrying the node's name. |
| Variants.BaseRulesRegistrable | lib/Sitemap/SitemapsOrg.php:153-173 | The default rules are loc, lastmod, changefreq and priority. They are distinct, and each passes the registration guard. |
| Variants.EntryNeedsLoc | lib/Sitemap/SitemapsOrg.php:424-435 | With loc first among the rules, an entry without a usable loc is refused before anything else, with the object unchanged. An entry with one never fails the check on loc. |
| Variants.UseImages | lib/Sitemap/SitemapsOrg/Google.php:40-78 | useImages declares the image schema under 'image' and registers the image node, changing nothing else. |
| Variants.Register | lib/Sitemap/SitemapsOrg.php:1711-1725 | Registering one rule that passes the guard stores it under its name and changes nothing else. |
| Variants.UseVideos | lib/Sitemap/SitemapsOrg/Google.php:85-231 | As written, useVideos declares the video schema under 'image' and registers the video node with the location check `validate_url`. No other namespace or rule changes. |
| Variants.UseVideosCorrected | lib/Sitemap/SitemapsOrg/Google.php:85-231 | With both errors corrected, the video schema is declared under 'video' and the location check is `validation_url`. No other namespace or rule changes. |
| Variants.UseVideosWith | lib/Sitemap/SitemapsOrg/Google.php:85-231 | useVideos declares the video schema under the prefix it uses and registers the video node, changing nothing else. |
| Variants.VideoLocations | lib/Sitemap/SitemapsOrg/Google.php:120-136 | content_loc and player_loc are both required URL nodes, named through the parent chain. |
| Variants.VideosOverwriteImageNamespace | lib/Sitemap/SitemapsOrg/Google.php:85-90 | As written, useVideos after useImages puts the video schema under 'image'. No namespace then covers the `video:` prefix that every video element carries. |
| Variants.VideosDeclareTheirNamespace | lib/Sitemap/SitemapsOrg/Google.php:85-90 | With the prefix corrected, both schemas stay declared, each under the prefix its elements carry. |
| Variants.UrlNodeChecks | lib/Sitemap/SitemapsOrg.php:154-159 | A URL node like loc passes exactly when the runtime's URL check accepts the value. It then comes out escaped by content_url; otherwise it raises. |
| Variants.LocationCheckAlwaysFails | lib/Sitemap/SitemapsOrg/Google.php:120-126 | As written, a video location node raises on every value: its check resolves to nothing and NULL is falsy. |
| Variants.UnresolvedCheckFails | lib/Sitemap/SitemapsOrg.php:471-515 | A URL node whose validation callback resolves to nothing raises the validation exception for that node, whatever the value. |
| Variants.LocationCheckAcceptsUrls | lib/Sitemap/SitemapsOrg/Google.php:120-126 | With the check named validation_url, content_loc passes exactly when the URL check accepts the value, and comes out escaped. |
| Variants.UseContentLoc | lib/Sitemap/SitemapsOrg/Google.php:238-246 | useContentLoc succeeds exactly when video/player_loc passes the guard. Then player_loc is the same rule with required set to FALSE, content_loc is unchanged, and only the rules change. |
| Variants.UsePlayerLoc | lib/Sitemap/SitemapsOrg/Google.php:253-261 | usePlayerLoc succeeds exactly when video/content_loc passes the guard. Then content_loc is the same rule with required set to FALSE, player_loc is unchanged, and only the rules change. |
| Variants.Unrequire | lib/Sitemap/SitemapsOrg/Google.php:238-246 | Read-modify-merge at an existing path succeeds exactly when the rule passes the guard. The rule there is then the same with required set to FALSE, and nothing else changes. |
| Variants.UnrequireElsewhere | lib/Sitemap/SitemapsOrg/Google.php:238-246 | Unrequiring one path leaves every diverging path as it was. |
| Variants.UnrequireSibling | lib/Sitemap/SitemapsOrg/Google.php:238-246 | Unrequiring an admissible node succeeds. It leaves that node optional and every diverging path as it was. |
| Variants.ContentLocAfterVideos | lib/Sitemap/SitemapsOrg/Google.php:238-246 | After useVideos, useContentLoc succeeds. player_loc keeps all its other options but is optional, and content_loc is still required. |
| Variants.NewNews | lib/Sitemap/SitemapsOrg/Google/News.php:25-94 | A new News object has no entries and an empty name stack. It holds the news and image rules and declares the news schema under 'news'. |
| Variants.NewsNamespaces | lib/Sitemap/SitemapsOrg/Google/News.php:25-37 | A News object declares the Sitemaps.org, image and news schemas and holds no entries. |
| Variants.NewsRules | lib/Sitemap/SitemapsOrg/Google/News.php:25-94 | A News object holds the default rules, then image, then news, and each passes the registration guard. |
| Variants.NewsCapIsNotEnforced | lib/Sitemap/SitemapsOrg/Google/News.php:20 | The News class's cap of 1000 is never read. A News object holding 1000 entries still accepts an entry unless processing it throws. |
| Variants.NewIndex | lib/Sitemap/SitemapsOrg/SitemapIndex.php:21-47 | A sitemap index holds exactly the loc and lastmod rules, in that order. Its root is 'sitemapindex' and its entry element is 'sitemap'. |
| Scenarios.FallsBackTo | lib/Sitemap/SitemapsOrg.php:503-513 | For a node without a content callback whose fallback is any literal other than the sentinel string, string fallbacks included: a value whose verdict is truthy is kept, and any other is replaced by the fallback, whatever type the verdict has. |
| Scenarios.RaisesUnless | lib/Sitemap/SitemapsOrg.php:503-509 | With the sentinel fallback, a node raises exactly when its check's verdict is false. |
| Scenarios.PriorityValidates | lib/Sitemap/SitemapsOrg.php:169-172 | The priority rule keeps a value its check accepts and puts 0.5 in place of any other. |
| Scenarios.PriorityFallsBack | lib/Sitemap/SitemapsOrg.php:169-172 | With validation on, a float priority inside [0.0, 1.0] is kept, and any other becomes 0.5. |
| Scenarios.VideoTitleLength | lib/Sitemap/SitemapsOrg/Google.php:103-109 | A video title raises exactly when its string form is longer than 50 characters. |
| Scenarios.DurationRange | lib/Sitemap/SitemapsOrg/Google.php:137-141 | A video duration is kept exactly when its integer value lies in [0, 28800], both ends included. Otherwise it raises. |
| Scenarios.VideoFlagValues | lib/Sitemap/SitemapsOrg/Google.php:162-167 | As written, a video flag raises exactly when it is not a boolean, so 'yes' and 'no' raise too. An accepted flag always comes out as 'yes' or 'no'. |
| Scenarios.PublicationNameParenthetical | lib/Sitemap/SitemapsOrg/Google/News.php:44-49 | On a News object, a publication name ending with ')' raises, and any other is kept as given. |
| Scenarios.ImageElementNames | lib/Sitemap/SitemapsOrg/Google.php:48-72 | After useImages, the image node and every one of its children are named with the 'image:' prefix. |
| Scenarios.NewsElementNames | lib/Sitemap/SitemapsOrg/Google/News.php:39-93 | The news node, every child of it and every child of its publication node, news:language included, are named with the 'news:' prefix. |
| Scenarios.VideoElementNames | lib/Sitemap/SitemapsOrg/Google.php:94-229 | Whatever the location check, the video node and every one of its children are named with the 'video:' prefix. |
| Scenarios.ImageItemNeedsLoc | lib/Sitemap/SitemapsOrg/Google.php:51-57 | An image item without a loc raises the required-node exception for loc. The image children are left in place of the rules the object held before. |
| Scenarios.IndexIgnoresFrequencyAndPriority | lib/Sitemap/SitemapsOrg/SitemapIndex.php:39-46 | A sitemap index processes an entry exactly as it would without its changefreq and priority fields. |
| Scenarios.IndexEntryNames | lib/Sitemap/SitemapsOrg/SitemapIndex.php:39-46 | A processed index entry holds no elements other than loc and lastmod. |
| Scenarios.LocLastmodIgnores | lib/Sitemap/SitemapsOrg.php:421-568 | A level configured with only the loc and lastmod rules processes an entry exactly as it would without its changefreq and priority fields. |
| Scenarios.LocLastmodNames | lib/Sitemap/SitemapsOrg.php:421-568 | A level configured with only the loc and lastmod rules produces no element other than loc and lastmod. |

## Left out

- Writing the DOM as an XML string (`saveXML`), the XML version, the encoding, the stylesheet processing instruction and debug formatting. Rendering produces an abstract element tree, and a DOM failure is an error value.
- Whether a string element name is valid XML. `createElement` on an invalid string name is not modelled as a failure; an integer name is.
- The runtime checks and conversions whose behaviour lies outside the library: `validation_url` (`filter_var`), `validation_date`, `content_date`, `validation_video_thumbnail` (a remote request), `validation_ISO3166`, `validation_platform`, `validation_accessCondition`, `validation_genres`, `content_htmlEncodedText`, string-to-number conversion and float formatting. These are parameters of the `Runtime` record.
- Pings (`sendPings`, `sendPing`, `addPingUrl`, cURL and socket requests) and `MAXIMUM_FILESIZE`. These are network I/O and a size estimate the library never computes.
- The getters and setters for the switches and output settings, `setNamespaces`, and the parent-name accessors. The switches are plain fields of the model's state.
- Callback configs given as `array($object, 'method')` without the extra wrapping array. The library splits those into a method plus a bound argument; the model takes callbacks already split.
- Numeric-string keys, which PHP turns into integer keys. Keys are integer or string as given.
- Rule lookups with an integer node name. The library indexes the integer as if it were an array, which gives NULL, so every integer name looks up the rule "" (lib/Sitemap/SitemapsOrg.php:1788-1797). Rule lookups take string names.
- `addAllowedEntryNode` with an array path that does not exist yet. Only the merge at an existing path is modelled.
- `Schema.MergeAtPath`: when a segment before the last enters an option, or the last segment enters an option that is an array, the outcome only reports the depth; the rules that result are not modelled. The last segment entering a validationCallback or contentCallback option is reported the same way, even when the option is a plain string such as the one `useImages` sets, because the model cannot tell a string callback from its one-element array form. PHP 8's TypeError for `array_merge` on a scalar is not modelled either; the model follows PHP 5 and 7, where the result is NULL.
- `Callbacks.Resolve`: the pair rule follows PHP 5 and 7, where `strpos` and `method_exists` on an array warn and give NULL; PHP 8's TypeError there is not modelled. A foreign object always counts as external. The library treats it as internal when it is a subclass of a class named `Sitemap` (lib/Sitemap/SitemapsOrg.php:690). The library defines no such class, so this matters only when an application defines one. An own method that is not a validation_ or content_ method is answered by the runtime, and its effect on the object is not modelled.
- `Variants.UseContentLoc` and `Variants.UsePlayerLoc`: require the path to exist. On a path that was never registered, the library's lookup returns NULL, and that case is not modelled.
- `Renderer.NamespaceDeclared`: requires that no other prefix shares the attribute name. PHP's `empty()` makes the prefixes "" and "0" both write `xmlns`, and the later one wins.
- PHP 7.1's `ArgumentCountError` for callbacks given too few arguments. Missing arguments take their defaults or NULL, as in PHP 5.
- The classes `Sitemap_SitemapsOrg_Google_Image` and `Sitemap_SitemapsOrg_Google_Video` (lib/Sitemap/SitemapsOrg/Google/Image.php and Video.php) are not part of this model.
- Floats are exact reals, so rounding is not modelled.

## Findings

| source | as written | input that shows it | evidently intended | confidence | as-written member | corrected member |
|---|---|---|---|---|---|---|
| lib/Sitemap/SitemapsOrg/Google.php:86-90 | useVideos registers the video schema under the prefix 'image' | `useImages()` then `useVideos()`: the image schema is replaced, and the `video:` elements have no declared namespace | register the video schema under 'video' | high; not executed | Variants.VideosOverwriteImageNamespace | Variants.VideosDeclareTheirNamespace |
| lib/Sitemap/SitemapsOrg/Google.php:125 | the video location nodes name the check `validate_url`, which no class declares and which lacks the `validation_` prefix | any `content_loc`, e.g. 'http://example.com/v.flv', raises the validation exception | `validation_url`, as for loc | high; not executed | Variants.LocationCheckAlwaysFails | Variants.LocationCheckAcceptsUrls |
| lib/Sitemap/SitemapsOrg/Google.php:359-361 | validation_boolean requires the value to be identical to 'yes' and to 'no' at once | `family_friendly => 'yes'` raises the validation exception | 'yes' or 'no', as the method's documentation states | high; not executed | Builtins.BooleanAlternativeIgnored | Builtins.ValidBoolean |
| lib/Sitemap/SitemapsOrg.php:605-613 | a one-element callback `array(array($this, 'm'))` is unwrapped to the pair without splitting it, so no prefix test matches and the branch that needs no external prefix calls the pair | `'validationCallback' => array(array($this, 'reset'))` with the prefix `validation_` runs `$this->reset($data)` | split the unwrapped pair into class and method, as the bound-argument form is, so the internal prefix rule applies to 'm' | medium; not executed | Callbacks.ResetRunsAsValidation | Callbacks.ResetRefusedWhenCorrected |

The rest of the model follows the code as written. `Variants.UseVideos` registers the video schema under 'image' with `validate_url`, and the callback dispatch runs `Builtins.ValidBooleanAsWritten`. The corrected members (`Variants.UseVideosCorrected`, `Variants.VideosDeclareTheirNamespace`, `Variants.LocationCheckAcceptsUrls`, `Builtins.ValidBoolean` and `Callbacks.ResolveCorrected`) exist only as the corrected halves of these findings. Callbacks resolve through `Callbacks.Resolve`, the pair rule included.
