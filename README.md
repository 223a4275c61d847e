# Cache warmup URL discovery, modelled in Dafny

This project models the URL discovery and filtering core of the Neos Flow package
JvMTECH.WarmupCache, which is the class `CacheWarmupCommandController`. The controller
collects URLs to warm in two ways:

- `extractUrlsCommand` crawls seed pages and keeps their anchors.
- `extractUrlsFromSitemapCommand` reads sitemaps.

Both commands then expand the list with the preset's `addUrls` suffixes, deduplicate it and queue one
`UrlRequestJob` per URL.

The project has these modules:

- `PhpStrings` (php_strings.dfy): the PHP string built-ins the controller uses, written over
  `seq<char>`. It covers `strpos` with a one-character needle, `explode`/`implode`,
  `rtrim`/`ltrim`, `trim`, `empty()` on strings and the `(int)` cast.
- `UrlParse` (url_parse.dfy): a simplified `parse_url` into a record of optional components
  (scheme, user, pass, host, port, path, query, fragment). It also holds the rebuild that
  `stripAnchorFromUrl` performs, and the round trip `Parse(FullUrl(p)) == Some(p)` for
  well-formed records.
- `UrlHelpers` (url_helpers.dfy): `stripAnchorFromUrl`, `getBaseUrl` and
  `relativeToAbsoluteUrl`, with their properties.
- `LinkFilter` (link_filter.dfy): the allow/deny accept policy. `preg_match` is a given `Matcher`.
- `LinkLists` (link_lists.dfy): `array_values(array_unique(...))` as `Dedup`, and the limit test
  `!$limit || $limit > $id` as `Limited`.
- `Limits` (limits.dfy): `_prepareLimits`.
- `Subpages` (subpages.dfy): `addSubpageToMatchingLinks` and `addSubpages` as functions.
- `Extraction` (extraction.dfy): what `extractLinks` and `extractLinksFromSitemap` collect, as
  functions of their inputs.
- `CacheWarmup` (command.dfy): the controller as a class.
  - Its fields are `selectedPreset`, `subpagesOnly`, `siblingsOnly`, `addToQueue`,
    `extractedUrls`, `urlList`, `limits`, `settings`, `url`, `baseUrl`, `limit`, and `queued`
    for the job queue.
  - The loops of the source are methods with loop invariants. Each is proved against the
    functions of `Extraction`, `Subpages` and `Limits`.

Inputs from outside become parameters:

- A page fetch is a map `pages` from a URL to the `href` attributes of its anchors, in document
  order.
- A sitemap fetch is a map `docs` from a URL to a `SitemapDoc`: `Malformed`, or the `<loc>`
  texts of its `<sitemap>` and `<url>` children.
- A URL missing from a map is a failed request.

Source behaviour kept as written:

- `_prepareLimits` returns `max(count($urls), number of tokens)` entries. `array_replace` keeps
  the tokens past the last seed.
- The relative branch of `relativeToAbsoluteUrl` puts the directory of the base path after the
  *whole* base. For example, `c` against `https://x.com/p/q` gives `https://x.com/p/q/p/c`
  (`ResolveRelativeRepeatsPath`), where the relative resolution of section 5.2 of RFC 3986
  would give `https://x.com/p/c`. Against the origin-only base the crawl passes, it gives
  `origin/ + c` (`ResolveRelativeOnOrigin`).
- A sitemap index runs the whole command again with only the child's URL (line 289). That
  run starts from the default arguments. The preset, the filter and `addToQueue` stay reset for
  the rest of the parent run (see "## Findings"). The limit string and the limit are reset too,
  but the parent does not read the limit string again, and it sets the next seed's limit before
  that seed's run.
- The `<url>` loop does not stop at the limit. It keeps counting, which does not change what
  it keeps.

## Model

| member | source | states |
|---|---|---|
| Limits.PrepareLimits | Classes/Command/CacheWarmupCommandController.php:322-329 | entry `i` is token `i` read as an integer (empty token 0), entries past the last token are 0, and the length is the larger of the seed count and the token count |
| Limits.NoLimits | Classes/Command/CacheWarmupCommandController.php:322-329 | an empty limit string gives `max(count, 1)` zeros, so no seed is limited |
| Limits.PrepareDecimalLimits | Classes/Command/CacheWarmupCommandController.php:322-329 | limits written as `n1,n2,...` are read back one per seed in order, and the length is the larger of the seed count and the number of limits |
| Limits.ExplodeImplode | Classes/Command/CacheWarmupCommandController.php:326 | `explode` undoes `implode` when no piece holds the separator |
| PhpStrings.IntValueDecimal | Classes/Command/CacheWarmupCommandController.php:325 | the `(int)` cast reads a decimal rendering back as the number |
| PhpStrings.ImplodeExplode | Classes/Command/CacheWarmupCommandController.php:374-376 | joining the pieces of `explode` restores the string |
| PhpStrings.ExplodeLength | Classes/Command/CacheWarmupCommandController.php:374 | `explode` yields one more piece than there are separators |
| PhpStrings.ImplodeDropLast | Classes/Command/CacheWarmupCommandController.php:374-376 | popping the last piece and joining again leaves the text before the last separator |
| PhpStrings.RTrim | Classes/Command/CacheWarmupCommandController.php:467-473 | `rtrim` leaves a prefix that does not end in the character and removes only that character |
| PhpStrings.LTrim | Classes/Command/CacheWarmupCommandController.php:473 | `ltrim` leaves a suffix that does not start with the character and removes only that character |
| PhpStrings.Trim | Classes/Command/CacheWarmupCommandController.php:285-295 | `trim` returns a contiguous middle part of the string: only default whitespace is removed before and after it, and it neither starts nor ends with default whitespace |
| PhpStrings.TrimPadded | Classes/Command/CacheWarmupCommandController.php:285-295 | a middle part whose ends are not whitespace, padded with whitespace on both sides, trims back to exactly that middle part |
| UrlParse.ParseFullUrl | Classes/Command/CacheWarmupCommandController.php:423-433 | a well-formed component record parses back from its own text |
| UrlParse.Parse | Classes/Command/CacheWarmupCommandController.php:423 | a parsed URL has a fragment exactly when the text holds `#`, and the fragment is the text after the first `#` |
| UrlParse.ParseOmitsHash | Classes/Command/CacheWarmupCommandController.php:423 | every component except the fragment lies before the first `#` |
| UrlParse.ParseComponents | Classes/Command/CacheWarmupCommandController.php:444-446 | a scheme the parser finds is a scheme name, and a host holds no delimiter |
| UrlParse.ParseSlashHasNoScheme | Classes/Command/CacheWarmupCommandController.php:461-466 | a text that starts with `/` never parses with a scheme |
| UrlParse.RebuildOmitsHash | Classes/Command/CacheWarmupCommandController.php:426-433 | a record whose components hold no `#` rebuilds to a text without `#` |
| UrlHelpers.StripAnchorFromUrl | Classes/Command/CacheWarmupCommandController.php:420-436 | the rebuilt URL never contains `#` |
| UrlHelpers.StripAnchorRemovesFragment | Classes/Command/CacheWarmupCommandController.php:420-436 | for a well-formed URL, stripping the anchor removes exactly the fragment and keeps every other component |
| UrlHelpers.StripAnchorIdempotent | Classes/Command/CacheWarmupCommandController.php:420-436 | stripping the anchor twice is stripping it once, for well-formed URLs |
| UrlHelpers.GetBaseUrl | Classes/Command/CacheWarmupCommandController.php:442-449 | the base URL never holds `?`, `#` or `@`: query, fragment and user info are dropped |
| UrlHelpers.BaseUrlOfWellFormed | Classes/Command/CacheWarmupCommandController.php:442-449 | the base URL of a well-formed absolute URL is `scheme://host` |
| UrlHelpers.BaseUrlHasOnlySchemeAndHost | Classes/Command/CacheWarmupCommandController.php:442-449 | the base URL of a URL with scheme and host parses to that scheme and host and nothing else |
| UrlHelpers.BaseUrlIsPrefix | Classes/Command/CacheWarmupCommandController.php:442-449 | without user info, a well-formed absolute URL starts with its base URL |
| UrlHelpers.OriginText | Classes/Command/CacheWarmupCommandController.php:445-446 | `scheme://host` is the text of a well-formed record with only scheme and host, and parses back to it |
| UrlHelpers.RelativeToAbsoluteUrl | Classes/Command/CacheWarmupCommandController.php:458-474 | a URL with a scheme is returned unchanged, and in every branch the result ends with the href less its leading `/` |
| UrlHelpers.NoSchemeAfterSlash | Classes/Command/CacheWarmupCommandController.php:461-466 | an href starting with `/` has no scheme, so the root-relative branch is the one taken |
| UrlHelpers.ResolveAbsolute | Classes/Command/CacheWarmupCommandController.php:461-463 | a URL with a scheme is returned unchanged |
| UrlHelpers.ResolveRootRelative | Classes/Command/CacheWarmupCommandController.php:466-468 | an href starting with `/` is put after `scheme://host` of a well-formed absolute base |
| UrlHelpers.ResolveRelativeOnOrigin | Classes/Command/CacheWarmupCommandController.php:471-473 | against a bare origin, a relative href without a leading `/` becomes `origin + "/" + href` |
| UrlHelpers.ResolveStaysOnOrigin | Classes/Command/CacheWarmupCommandController.php:458-474 | against a bare origin, every href without a scheme resolves to a URL on that origin |
| UrlHelpers.ResolveRelativeRepeatsPath | Classes/Command/CacheWarmupCommandController.php:471-473 | against a base `.../dir/file`, a relative href lands after the whole base, then `/dir/` |
| UrlHelpers.ResolveRelativeInDirectory | Classes/Command/CacheWarmupCommandController.php:471-473 | when the base path is `/dir/file` and the base does not end in `/`, the result is base + `/dir/` + the href without leading `/` |
| LinkFilter.AcceptPolicy | Classes/Command/CacheWarmupCommandController.php:297-300 | a denied link is never accepted; with an empty allow list exactly the links no deny pattern matches are accepted; with a non-empty allow list only the links it matches; the empty pattern list matches nothing |
| CacheWarmup.CacheWarmupCommandController.IsLinkAllowed | Classes/Command/CacheWarmupCommandController.php:483-491 | true exactly when some pattern of the list matches the link |
| Subpages.Suffixed | Classes/Command/CacheWarmupCommandController.php:505-510 | every appended link is a matching original link plus the subpage, and every matching original link gets one |
| Subpages.ExpandAll | Classes/Command/CacheWarmupCommandController.php:520-529 | the input list is a prefix of the expanded list |
| Subpages.ExpandAllExtends | Classes/Command/CacheWarmupCommandController.php:520-529 | every link of the expanded list starts with some link of the input |
| CacheWarmup.CacheWarmupCommandController.AddSubpageToMatchingLinks | Classes/Command/CacheWarmupCommandController.php:502-513 | the result is the original links followed by each matching original link with the subpage appended, in order |
| CacheWarmup.CacheWarmupCommandController.AddSubpages | Classes/Command/CacheWarmupCommandController.php:520-529 | the result is the expansions applied one after another in map order |
| LinkLists.Dedup | Classes/Command/CacheWarmupCommandController.php:396 | the result has the same elements as the input and no duplicates |
| LinkLists.DedupOrdered | Classes/Command/CacheWarmupCommandController.php:177 | the deduplicated list is ordered by first occurrence in the input |
| LinkLists.DedupOfNoDuplicates | Classes/Command/CacheWarmupCommandController.php:250 | a list without duplicates is left as it is |
| LinkLists.DedupIdempotent | Classes/Command/CacheWarmupCommandController.php:250 | deduplicating twice is deduplicating once |
| LinkLists.DedupPrefix | Classes/Command/CacheWarmupCommandController.php:177 | appending links never moves or removes the links already deduplicated |
| LinkLists.DedupAppend | Classes/Command/CacheWarmupCommandController.php:250 | deduplicating before appending and again afterwards is deduplicating once |
| LinkLists.Limited | Classes/Command/CacheWarmupCommandController.php:405-413 | the entries whose position passes the limit test are a prefix: all for 0, none for a negative limit, the first `limit` otherwise |
| LinkLists.LimitedNoDuplicates | Classes/Command/CacheWarmupCommandController.php:405-413 | limiting a list without duplicates leaves none |
| Extraction.SiblingsParentIsDirectory | Classes/Command/CacheWarmupCommandController.php:373-376 | the siblings' parent is the seed URL up to its last `/` |
| Extraction.AcceptedLinks | Classes/Command/CacheWarmupCommandController.php:355-394 | the anchors contribute at most one link each; the contribution of one anchor is the helper `Candidate`, the checks of lines 358-393 in order, whose meaning is carried by `AcceptedLinksMembers` and `AcceptedLinksInScope` |
| Extraction.AcceptedLinksInScope | Classes/Command/CacheWarmupCommandController.php:365-393 | every accepted link starts with the base, meets the sibling and subpage scopes that are on, and passes the filter |
| Extraction.AcceptedLinksMembers | Classes/Command/CacheWarmupCommandController.php:355-394 | a link is accepted exactly when some anchor of the page contributes it |
| Extraction.PageBlockProperties | Classes/Command/CacheWarmupCommandController.php:396-413 | a page's block has no duplicates, is a prefix of the deduplicated accepted links, and holds only in-scope, filter-passing links |
| Extraction.SitemapAcceptedMembers | Classes/Command/CacheWarmupCommandController.php:294-305 | a location's trimmed text is collected exactly when it passes the filter |
| Extraction.SitemapAccepted | Classes/Command/CacheWarmupCommandController.php:294-305 | the `<url>` entries contribute at most one location each |
| Extraction.SitemapLimitedStep | Classes/Command/CacheWarmupCommandController.php:297-304 | only filter-passing locations advance `$no`, and one is kept exactly when the count so far passes the limit test |
| Extraction.SitemapBlock | Classes/Command/CacheWarmupCommandController.php:272-306 | a malformed document or an index yields nothing; a URL set yields a prefix of its filter-passing locations, all of which pass the filter |
| CacheWarmup.CacheWarmupCommandController.CollectAcceptedLinks | Classes/Command/CacheWarmupCommandController.php:355-394 | the anchor loop returns the anchors' contributions in document order |
| CacheWarmup.CacheWarmupCommandController.CheckHref | Classes/Command/CacheWarmupCommandController.php:358-393 | the imperative checks of one anchor, with their early exits, compute exactly the per-anchor contribution `Candidate` that the scope lemmas are about |
| CacheWarmup.CacheWarmupCommandController.AppendLimited | Classes/Command/CacheWarmupCommandController.php:405-413 | the limit loop appends exactly the limited block and leaves the old list as a prefix |
| CacheWarmup.CacheWarmupCommandController.ExtractLinks | Classes/Command/CacheWarmupCommandController.php:344-414 | `extractedUrls` becomes the old list followed by the page's deduplicated, limited accepted links |
| CacheWarmup.CacheWarmupCommandController.CollectSitemapLinks | Classes/Command/CacheWarmupCommandController.php:292-305 | the `<url>` loop with its `$no` counter returns the first `limit` filter-passing trimmed locations (all for 0) |
| CacheWarmup.CacheWarmupCommandController.NestedSitemapCommand | Classes/Command/CacheWarmupCommandController.php:202-207 | the nested run leaves the default context (no preset, empty filter, empty limit string, limit 0, no queueing); the list becomes the deduplication of the old one plus what it collected, with the old links first; the scope flags, seed, base and queue are untouched |
| CacheWarmup.CacheWarmupCommandController.MergeCollected | Classes/Command/CacheWarmupCommandController.php:250 | the list becomes the deduplication of the old list plus the collected links, without duplicates and with the deduplicated old list as a prefix |
| CacheWarmup.CacheWarmupCommandController.ResetToDefaults | Classes/Command/CacheWarmupCommandController.php:202-231 | a run from the default arguments sets no preset, the empty filter, the empty limit string, no queueing and limit 0 |
| CacheWarmup.CacheWarmupCommandController.VisitChildSitemaps | Classes/Command/CacheWarmupCommandController.php:283-290 | the links already deduplicated keep their places; after at least one child the context is the nested run's defaults; the scope flags, seed, base and queue are left alone |
| CacheWarmup.CacheWarmupCommandController.VisitChildSitemapsKeepingContext | Classes/Command/CacheWarmupCommandController.php:283-290 | the corrected `<sitemap>` loop: the links already deduplicated keep their places, and the preset, filter, limit string, limit, `addToQueue` and seed list stay the parent's |
| CacheWarmup.CacheWarmupCommandController.ExtractLinksFromSitemapKeepingContext | Classes/Command/CacheWarmupCommandController.php:272-315 | the extractor over the corrected `<sitemap>` loop: returns the document's block; for a document that is not an index the list takes that document's `SitemapStep`; the deduplicated old list stays a prefix; it changes nothing but the list |
| CacheWarmup.CacheWarmupCommandController.VisitSitemapSeedKeepingContext | Classes/Command/CacheWarmupCommandController.php:235-248 | one seed over the corrected extractor: sets the seed's limit, keeps the fetched or stale document, and when that is not an index the list takes its `SitemapStep` |
| CacheWarmup.CacheWarmupCommandController.VisitSitemapsKeepingContext | Classes/Command/CacheWarmupCommandController.php:234-249 | the seed loop over the corrected extractor keeps the deduplicated old list as a prefix and, when no seed fetches an index, gives exactly the loop's `SitemapRun`; it changes only the list and the limit |
| CacheWarmup.CacheWarmupCommandController.ExtractUrlsFromSitemapCommandKeepingContext | Classes/Command/CacheWarmupCommandController.php:200-261 | the corrected command: the configuration from the preset or the arguments holds to the end, so with `addToQueue` one job is queued per URL of the final, duplicate-free list even when a seed fetches an index; when none does, the list is the deduplicated `SitemapRun` |
| CacheWarmup.CacheWarmupCommandController.MergeAndExpand | Classes/Command/CacheWarmupCommandController.php:307-312 | the block is appended, then the whole list is expanded with the selected preset's `addUrls` |
| CacheWarmup.CacheWarmupCommandController.ExtractLinksFromSitemap | Classes/Command/CacheWarmupCommandController.php:272-315 | returns the document's block; for a document that is not an index, the list is the old list plus the block, expanded, and the configuration is unchanged; after an index the context is the nested run's defaults; scope flags, seed, base and queue never change |
| CacheWarmup.CacheWarmupCommandController.QueueExtractedUrls | Classes/Command/CacheWarmupCommandController.php:180-187 | with `addToQueue`, exactly one job is queued per URL, in order; otherwise none |
| CacheWarmup.Seeds | Classes/Command/CacheWarmupCommandController.php:140-142 | the preset's seed list wins when it is non-empty; otherwise the comma-separated argument is used, and with no argument the list is empty |
| CacheWarmup.ResolvedLimits | Classes/Command/CacheWarmupCommandController.php:137-146 | the preset's limit string wins unless it is missing or `empty()`, in which case the argument is used; without a preset the argument is used |
| CacheWarmup.CacheWarmupCommandController.LoadPageSettings | Classes/Command/CacheWarmupCommandController.php:125-146 | sets the filter, seeds and limit string from the preset, falling back to the arguments |
| CacheWarmup.CacheWarmupCommandController.ConfigurePageRun | Classes/Command/CacheWarmupCommandController.php:113-146 | the entry assignments of `extractUrlsCommand`, then its configuration |
| CacheWarmup.CacheWarmupCommandController.SetSeed | Classes/Command/CacheWarmupCommandController.php:152-154 | the seed loop sets `url`, `baseUrl = getBaseUrl(url)` and the seed's limit |
| CacheWarmup.CacheWarmupCommandController.CrawlSeed | Classes/Command/CacheWarmupCommandController.php:151-170 | one seed appends its page's block under its own base and limit, or nothing when the fetch fails |
| CacheWarmup.CacheWarmupCommandController.CrawlSeeds | Classes/Command/CacheWarmupCommandController.php:150-171 | the seed loop appends the seeds' blocks in order to the existing list, and leaves the last seed's URL and limit set (nothing changes without seeds) |
| CacheWarmup.Crawl | Classes/Command/CacheWarmupCommandController.php:150-171 | when no seed's page can be fetched, the crawl collects nothing |
| CacheWarmup.CrawlInScope | Classes/Command/CacheWarmupCommandController.php:150-171 | every crawled link passes the filter and lies in the scope of some fetched seed |
| CacheWarmup.CacheWarmupCommandController.ExpandAndDedup | Classes/Command/CacheWarmupCommandController.php:173-177 | the list is expanded with the preset's `addUrls` when there are any, then deduplicated |
| CacheWarmup.CacheWarmupCommandController.ExtractUrlsCommand | Classes/Command/CacheWarmupCommandController.php:110-188 | the configuration comes from the preset or the arguments; the list is the deduplicated expansion of the old list plus the crawl; one job per final URL when queueing |
| CacheWarmup.CacheWarmupCommandController.LoadSitemapSettings | Classes/Command/CacheWarmupCommandController.php:212-232 | sets the filter, the sitemap list and the limit string from the preset, falling back to the arguments (`sitemaps` may be absent) |
| CacheWarmup.SitemapRun | Classes/Command/CacheWarmupCommandController.php:235-249 | the sitemap loop only extends the list |
| CacheWarmup.SitemapStep | Classes/Command/CacheWarmupCommandController.php:297-312 | one call on a document only extends the list, and a malformed document leaves it alone |
| CacheWarmup.SitemapRunUnfetched | Classes/Command/CacheWarmupCommandController.php:239-248 | seeds before the first successful fetch are skipped: the run equals the run from the first fetched seed on, and a run that fetches nothing leaves the list alone |
| CacheWarmup.CacheWarmupCommandController.VisitSitemaps | Classes/Command/CacheWarmupCommandController.php:234-249 | the deduplicated old list stays a prefix; scope flags, seed, base and queue are unchanged; once a seed fetches an index the context is the nested run's defaults; when no seed fetches an index, the configuration is unchanged and the list is the loop's `SitemapRun` |
| CacheWarmup.CacheWarmupCommandController.VisitSitemapSeed | Classes/Command/CacheWarmupCommandController.php:235-248 | one seed keeps the fetched document or the last one; after an index the context is the defaults, otherwise the configuration is unchanged and the list takes that document's `SitemapStep` |
| CacheWarmup.CacheWarmupCommandController.ExtractUrlsFromSitemapCommand | Classes/Command/CacheWarmupCommandController.php:200-261 | the final list has no duplicates, keeps the old links first, and is queued one job per URL when `addToQueue` is still set; a run that reaches a sitemap index ends in the default context and queues nothing; when no seed fetches an index the list is the deduplicated sitemap run under the configuration taken from the preset or the arguments |
| CacheWarmup.CacheWarmupCommandController.ConfigureSitemapRun | Classes/Command/CacheWarmupCommandController.php:202-232 | the entry assignments of `extractUrlsFromSitemapCommand`, then its configuration from the preset or the arguments |
| CacheWarmup.CacheWarmupCommandController.DedupAndQueue | Classes/Command/CacheWarmupCommandController.php:250-260 | the list is deduplicated, then queued one job per URL when `addToQueue` is set |
| CacheWarmup.CacheWarmupCommandController.constructor | Classes/Command/CacheWarmupCommandController.php:23-30 | starts with no preset, both scopes off, no queueing and an empty list |

## Left out

- HTTP and the job queue. Guzzle requests and the async `->wait()` are given maps; the
  `JobManager` is the `queued` sequence; `UrlRequestJob` and `_getClientConfig` with its basic
  auth are not modelled.
- HTML and XML parsing. `DOMDocument` becomes the list of anchor `href`s. `simplexml_load_string`
  becomes `SitemapDoc`.
- PCRE. `preg_match` is a given `Matcher`, so pattern syntax and match errors are not modelled.
- `parse_url` is simplified. It covers the component order and the delimiters listed in
  `UrlParse`. It does not cover:
  - percent-encoding;
  - IPv6 hosts;
  - PHP's special cases for ports and for `scheme:` without `//`;
  - the split of host and port: `ParseAuthority` splits at the first `:` after the user info,
    PHP at the last one, so a malformed authority such as `h:1:2` fails here and parses in PHP
    as host `h:1` and port `2`;
  - the `false` results beyond an empty host and a non-numeric port;
  - the replacement of control characters by `_` in every component, so a tab or newline in
    an `href` is kept as it is;
  - schemes that start with a digit, which PHP accepts and `IsSchemeName` does not.
- PHP `null` for a missing component is read as `""`, which is what the string concatenations
  of the source produce.
- The `(int)` cast covers leading whitespace, a sign and digits. Exponents, hexadecimal and
  integer overflow are not modelled.
- Verbose output, `outputLine` and `var_dump`. These have no effect on the collected list.
- `runAllPresetsCommand`. It spawns sub-processes through `Scripts::executeCommand`, so it is
  plumbing.
- Recursive sitemap commands. The nested `extractUrlsFromSitemapCommand` of a sitemap index is
  one step (`NestedSitemapCommand`), not a recursive run. The links it collects are left open;
  its resets of the configuration are modelled exactly.
- A failed fetch before any sitemap was fetched is modelled as a skip, not as the PHP
  error on the undefined `$body`. A failed fetch after a successful one reuses the stale
  `$body`, as the source does.
- Preset truthiness (`$this->presets[$preset]`) is modelled as "sets at least one of the keys
  the controller reads".
- A preset's `urls` and `sitemaps` are sequences, so keys other than list positions are not
  modelled.
- UrlHelpers.StripAnchorIdempotent: is stated for well-formed URLs only. The rebuild writes
  `//` only after a scheme. So a protocol-relative URL with a password such as `//u:pw@host/p`
  strips to `u:pw@host/p`, which the second pass reads as scheme `u` and strips to
  `u://pw@host/p`.
- CacheWarmup.CacheWarmupCommandController.VisitSitemaps: states the exact list only when no
  seed fetches a sitemap index. With an index, only the prefix property and the reset context
  are stated, because the links the nested command collects are left open.
- CacheWarmup.CacheWarmupCommandController.ExtractUrlsFromSitemapCommand: the same limit as
  `VisitSitemaps`.
- CacheWarmup.CacheWarmupCommandController.ExtractUrlsCommand: does not state the final `url`,
  `baseUrl` and `limit`; `CrawlSeeds` states the last seed's `url` and `limit` but not its
  `baseUrl`. Unfolding `getBaseUrl` in these contracts is beyond the verifier's budget, and
  `SetSeed` states it per seed.

## Findings

| source | as written | input that shows it | evidently intended | confidence | as-written member | corrected member |
|---|---|---|---|---|---|---|
| Classes/Command/CacheWarmupCommandController.php:289 | the nested `extractUrlsFromSitemapCommand($childSitemapUrl)` runs with default arguments, which reset the preset, the filter and `addToQueue` on the shared controller for the rest of the parent run | `extractUrlsFromSitemapCommand` with `--addToQueue` on a sitemap index: the link list is built, but nothing is queued | the child sitemap contributes its links and the parent keeps its preset, filter, limits and `addToQueue` | not executed; medium, the comment at lines 286-288 doubts the recursive call itself | CacheWarmup.CacheWarmupCommandController.ExtractUrlsFromSitemapCommand | CacheWarmup.CacheWarmupCommandController.ExtractUrlsFromSitemapCommandKeepingContext |
