/**
 * The `CacheWarmupCommandController` of JvMTECH.WarmupCache as a class: its state
 * fields, its filter and expansion helpers, the two extractors and the two commands
 * `extractUrlsCommand` and `extractUrlsFromSitemapCommand`.
 *
 * The HTTP client is replaced by given maps: `pages` from a URL to the `href`
 * attributes of its anchors, `docs` from a sitemap URL to its parsed document; a URL
 * absent from the map is a request that failed. The job queue is the sequence
 * `queued` of the URLs handed to `UrlRequestJob`.
 */
module CacheWarmup {
  import opened Wrappers
  import opened PhpStrings
  import opened UrlHelpers
  import opened LinkFilter
  import opened LinkLists
  import opened Limits
  import opened Subpages
  import opened Extraction

  /** One entry of the `presets` configuration; `None` is a key the preset does not set. */
  datatype Preset = Preset(
    allowlist: Option<seq<string>>,
    denylist: Option<seq<string>>,
    urls: Option<seq<string>>,
    sitemaps: Option<seq<string>>,
    limits: Option<string>,
    addUrls: Option<seq<Expansion>>)

  function ListOrEmpty(o: Option<seq<string>>): seq<string> {
    if o.Some? then o.value else []
  }

  /** A preset array is truthy when it sets at least one key. */
  predicate Configured(p: Preset) {
    p.allowlist.Some? || p.denylist.Some? || p.urls.Some? || p.sitemaps.Some? || p.limits.Some? || p.addUrls.Some?
  }

  /** `!empty($preset) && $this->presets[$preset]`. */
  predicate PresetApplies(presets: map<string, Preset>, name: string) {
    !PhpEmpty(name) && name in presets && Configured(presets[name])
  }

  /** The allow and deny lists the command takes from the preset, empty without one. */
  function PresetFilter(presets: map<string, Preset>, name: string): Filter {
    if PresetApplies(presets, name) then
      Filter(ListOrEmpty(presets[name].allowlist), ListOrEmpty(presets[name].denylist))
    else Filter([], [])
  }

  /** The seed list: the preset's when it is non-empty, otherwise the comma-separated argument. */
  function Seeds(fromPreset: seq<string>, listed: Option<string>): (r: seq<string>)
    ensures |fromPreset| > 0 ==> r == fromPreset
    ensures |fromPreset| == 0 && listed.Some? ==> r == Explode(listed.value, ',')
    ensures |fromPreset| == 0 && listed.None? ==> r == []
  {
    if |fromPreset| == 0 && listed.Some? then Explode(listed.value, ',') else fromPreset
  }

  function PageSeeds(presets: map<string, Preset>, name: string, urls: string): seq<string> {
    Seeds(if PresetApplies(presets, name) then ListOrEmpty(presets[name].urls) else [], Some(urls))
  }

  function SitemapSeeds(presets: map<string, Preset>, name: string, sitemaps: Option<string>): seq<string> {
    Seeds(if PresetApplies(presets, name) then ListOrEmpty(presets[name].sitemaps) else [], sitemaps)
  }

  /** The limit string: the preset's unless it is missing or `empty()`, otherwise the argument. */
  function ResolvedLimits(presets: map<string, Preset>, name: string, limitsArg: string): (r: string)
    ensures PresetApplies(presets, name) && presets[name].limits.Some? && !PhpEmpty(presets[name].limits.value) ==>
            r == presets[name].limits.value
    ensures PresetApplies(presets, name) && (presets[name].limits.None? || PhpEmpty(presets[name].limits.value)) ==>
            r == limitsArg
    ensures !PresetApplies(presets, name) ==> r == limitsArg
  {
    var fromPreset := if PresetApplies(presets, name) && presets[name].limits.Some? then presets[name].limits.value else "";
    if PhpEmpty(fromPreset) then limitsArg else fromPreset
  }

  /** The `addUrls` of the selected preset (`isset`, `is_array`), or none. */
  function ExpansionsOf(presets: map<string, Preset>, name: string): seq<Expansion> {
    if name in presets && presets[name].addUrls.Some? then presets[name].addUrls.value else []
  }

  /** What one seed contributes: the block of its page under its own base, or nothing when the fetch failed. */
  function SeedBlock(seed: string, limit: int, pages: map<string, seq<string>>, f: Filter,
                     subpagesOnly: bool, siblingsOnly: bool, matches: Matcher): seq<string> {
    if seed in pages then PageBlock(pages[seed], Scope(GetBaseUrl(seed), seed, subpagesOnly, siblingsOnly), f, limit, matches) else []
  }

  /** No seed's page can be fetched. */
  predicate NoneFetched(seeds: seq<string>, pages: map<string, seq<string>>) {
    forall seed :: seed in seeds ==> seed !in pages
  }

  /**
   * What the seed loop of `extractUrlsCommand` appends: for each seed whose page could
   * be fetched, the block `extractLinks` collects with the seed's base and limit.
   */
  function Crawl(seeds: seq<string>, limitsList: seq<int>, pages: map<string, seq<string>>, f: Filter,
                 subpagesOnly: bool, siblingsOnly: bool, matches: Matcher): (r: seq<string>)
    requires |limitsList| >= |seeds|
    ensures NoneFetched(seeds, pages) ==> r == []
  {
    if seeds == [] then []
    else
      var n := |seeds| - 1;
      assert forall seed :: seed in seeds[..n] ==> seed in seeds;
      var prev := Crawl(seeds[..n], limitsList, pages, f, subpagesOnly, siblingsOnly, matches);
      prev + SeedBlock(seeds[n], limitsList[n], pages, f, subpagesOnly, siblingsOnly, matches)
  }

  /** Every crawled link passes the filter and lies in the scope of a seed whose page held it. */
  lemma {:induction false} CrawlInScope(seeds: seq<string>, limitsList: seq<int>, pages: map<string, seq<string>>, f: Filter,
                                        subpagesOnly: bool, siblingsOnly: bool, matches: Matcher)
    requires |limitsList| >= |seeds|
    ensures forall x :: x in Crawl(seeds, limitsList, pages, f, subpagesOnly, siblingsOnly, matches) ==>
              Accepts(x, f.allow, f.deny, matches) &&
              exists seed :: seed in seeds && seed in pages && InScope(x, Scope(GetBaseUrl(seed), seed, subpagesOnly, siblingsOnly))
  {
    if seeds != [] {
      var n := |seeds| - 1;
      CrawlInScope(seeds[..n], limitsList, pages, f, subpagesOnly, siblingsOnly, matches);
      var seed := seeds[n];
      var sc := Scope(GetBaseUrl(seed), seed, subpagesOnly, siblingsOnly);
      if seed in pages {
        PageBlockProperties(pages[seed], sc, f, limitsList[n], matches);
      }
      forall x | x in Crawl(seeds, limitsList, pages, f, subpagesOnly, siblingsOnly, matches)
        ensures Accepts(x, f.allow, f.deny, matches) &&
                exists seed :: seed in seeds && seed in pages && InScope(x, Scope(GetBaseUrl(seed), seed, subpagesOnly, siblingsOnly))
      {
        if x in Crawl(seeds[..n], limitsList, pages, f, subpagesOnly, siblingsOnly, matches) {
          var s :| s in seeds[..n] && s in pages && InScope(x, Scope(GetBaseUrl(s), s, subpagesOnly, siblingsOnly));
          assert s in seeds;
        } else {
          assert seed in pages && InScope(x, sc);
        }
      }
    }
  }

  /** Some seed of the list fetches a sitemap index. */
  predicate ReachesIndex(seeds: seq<string>, docs: map<string, SitemapDoc>) {
    exists s :: s in seeds && s in docs && IsIndex(docs[s])
  }

  lemma ReachesIndexStep(seeds: seq<string>, i: nat, docs: map<string, SitemapDoc>)
    requires i < |seeds|
    ensures ReachesIndex(seeds[..i + 1], docs) ==>
              ReachesIndex(seeds[..i], docs) || (seeds[i] in docs && IsIndex(docs[seeds[i]]))
  {
    assert seeds[..i + 1] == seeds[..i] + [seeds[i]];
  }

  /** One call of `extractLinksFromSitemap` on a document that is not an index. */
  function SitemapStep(e: seq<string>, doc: SitemapDoc, f: Filter, limit: int, expansions: seq<Expansion>,
                       matches: Matcher): (r: seq<string>)
    ensures e <= r
    ensures doc.Malformed? ==> r == e
  {
    if doc.Document? then ExpandAll(expansions, e + SitemapBlock(doc, f, limit, matches), matches) else e
  }

  /**
   * The seed loop of `extractUrlsFromSitemapCommand` when no index is reached: a
   * failed fetch reuses the last document fetched (`$body` keeps its value) and is
   * skipped when there was none.
   */
  function SitemapRun(e: seq<string>, seeds: seq<string>, limitsList: seq<int>, docs: map<string, SitemapDoc>,
                      f: Filter, body: Option<SitemapDoc>, expansions: seq<Expansion>, matches: Matcher): (r: seq<string>)
    requires |limitsList| >= |seeds|
    ensures e <= r
    decreases |seeds|
  {
    if seeds == [] then e
    else
      var b := if seeds[0] in docs then Some(docs[seeds[0]]) else body;
      var e' := if b.None? then e else SitemapStep(e, b.value, f, limitsList[0], expansions, matches);
      SitemapRun(e', seeds[1..], limitsList[1..], docs, f, b, expansions, matches)
  }

  /**
   * Until some fetch succeeds, the sitemap loop collects nothing: a run whose first `k`
   * seeds are all unfetched is the run from seed `k` on, and one in which no seed is
   * fetched leaves the list alone.
   */
  lemma {:induction false} SitemapRunUnfetched(e: seq<string>, seeds: seq<string>, k: nat, limitsList: seq<int>,
                                               docs: map<string, SitemapDoc>, f: Filter, expansions: seq<Expansion>,
                                               matches: Matcher)
    requires k <= |seeds| <= |limitsList| && forall i :: 0 <= i < k ==> seeds[i] !in docs
    ensures SitemapRun(e, seeds, limitsList, docs, f, None, expansions, matches) ==
            SitemapRun(e, seeds[k..], limitsList[k..], docs, f, None, expansions, matches)
    ensures k == |seeds| ==> SitemapRun(e, seeds, limitsList, docs, f, None, expansions, matches) == e
    decreases k
  {
    if k > 0 {
      SitemapRunUnfetched(e, seeds[1..], k - 1, limitsList[1..], docs, f, expansions, matches);
      assert seeds[1..][k - 1..] == seeds[k..];
      assert limitsList[1..][k - 1..] == limitsList[k..];
    }
  }

  /** One more seed appends its block. */
  lemma CrawlStep(seeds: seq<string>, i: nat, limitsList: seq<int>, pages: map<string, seq<string>>, f: Filter,
                  subpagesOnly: bool, siblingsOnly: bool, matches: Matcher)
    requires i < |seeds| <= |limitsList|
    ensures Crawl(seeds[..i + 1], limitsList, pages, f, subpagesOnly, siblingsOnly, matches) ==
            Crawl(seeds[..i], limitsList, pages, f, subpagesOnly, siblingsOnly, matches) +
            SeedBlock(seeds[i], limitsList[i], pages, f, subpagesOnly, siblingsOnly, matches)
  {
    assert seeds[..i + 1][..i] == seeds[..i];
  }

  /** The sitemap loop from seed `i` on is one step on seed `i`, then the loop from `i + 1` on. */
  lemma SitemapRunStep(e: seq<string>, seeds: seq<string>, i: nat, limitsList: seq<int>, docs: map<string, SitemapDoc>,
                       f: Filter, body: Option<SitemapDoc>, expansions: seq<Expansion>, matches: Matcher)
    requires i < |seeds| <= |limitsList|
    ensures var b := if seeds[i] in docs then Some(docs[seeds[i]]) else body;
            var e' := if b.None? then e else SitemapStep(e, b.value, f, limitsList[i], expansions, matches);
            SitemapRun(e, seeds[i..], limitsList[i..], docs, f, body, expansions, matches) ==
            SitemapRun(e', seeds[i + 1..], limitsList[i + 1..], docs, f, b, expansions, matches)
  {
    assert seeds[i..][1..] == seeds[i + 1..];
    assert limitsList[i..][1..] == limitsList[i + 1..];
  }

  lemma AppendAssociative(a: seq<string>, b: seq<string>, c: seq<string>)
    ensures (a + b) + c == a + (b + c)
  {
  }

  lemma PrefixTransitive(a: seq<string>, b: seq<string>, c: seq<string>)
    requires a <= b && b <= c
    ensures a <= c
  {
    assert c[..|b|][..|a|] == c[..|a|];
  }

  class CacheWarmupCommandController {
    /** The injected `presets` configuration. */
    const presets: map<string, Preset>
    /** `preg_match`, as the regular-expression engine answers it. */
    const matches: Matcher

    var selectedPreset: string
    var subpagesOnly: bool
    var siblingsOnly: bool
    var addToQueue: bool
    var extractedUrls: seq<string>
    var urlList: seq<string>
    var limits: string
    var settings: Filter
    var url: string
    var baseUrl: string
    var limit: int
    /** The URLs queued as `UrlRequestJob`s, in order. */
    var queued: seq<string>

    /**
     * The configuration a nested `extractUrlsFromSitemapCommand($childSitemapUrl)` leaves:
     * preset `null` (read as `""`), empty allow and deny lists, the limit string `''` and
     * `addToQueue` false.
     */
    predicate DefaultContext()
      reads this
    {
      selectedPreset == "" && settings == Filter([], []) && limits == "" && !addToQueue
    }

    constructor(presets: map<string, Preset>, matches: Matcher)
      ensures this.presets == presets && this.matches == matches
      ensures selectedPreset == "" && !subpagesOnly && !siblingsOnly && !addToQueue
      ensures extractedUrls == [] && queued == []
    {
      this.presets := presets;
      this.matches := matches;
      selectedPreset := "";
      subpagesOnly := false;
      siblingsOnly := false;
      addToQueue := false;
      extractedUrls := [];
      urlList := [];
      limits := "";
      settings := Filter([], []);
      url := "";
      baseUrl := "";
      limit := 0;
      queued := [];
    }

    /** `isLinkAllowed`: true exactly when some pattern matches the link. */
    method IsLinkAllowed(link: string, patterns: seq<string>) returns (allowed: bool)
      ensures allowed <==> MatchesAny(link, patterns, matches)
    {
      for i := 0 to |patterns|
        invariant forall k :: 0 <= k < i ==> !matches(patterns[k], link)
      {
        if matches(patterns[i], link) {
          return true;
        }
      }
      return false;
    }

    /** `addSubpageToMatchingLinks`: the original links, then each matching one with the subpage appended. */
    method AddSubpageToMatchingLinks(links: seq<string>, pattern: string, subpage: string) returns (updatedLinks: seq<string>)
      ensures updatedLinks == links + Suffixed(links, pattern, subpage, matches)
    {
      updatedLinks := links;
      for i := 0 to |links|
        invariant updatedLinks == links + Suffixed(links[..i], pattern, subpage, matches)
      {
        SuffixedStep(links, i, pattern, subpage, matches);
        if matches(pattern, links[i]) {
          updatedLinks := updatedLinks + [links[i] + subpage];
        }
      }
      assert links[..|links|] == links;
    }

    /** `addSubpages`: `addSubpageToMatchingLinks` once per `addUrls` entry, in order. */
    method AddSubpages(expansions: seq<Expansion>, initialUrls: seq<string>) returns (urls: seq<string>)
      ensures urls == ExpandAll(expansions, initialUrls, matches)
    {
      urls := initialUrls;
      if |expansions| > 0 {
        for i := 0 to |expansions|
          invariant ExpandAll(expansions[i..], urls, matches) == ExpandAll(expansions, initialUrls, matches)
        {
          assert expansions[i..][1..] == expansions[i + 1..];
          urls := AddSubpageToMatchingLinks(urls, expansions[i].pattern, expansions[i].subpage);
        }
      }
    }

    /**
     * The anchor loop of `extractLinks`: each `href` that survives the checks, resolved,
     * in document order (duplicates kept). Reads the seed URL `url` and changes nothing.
     */
    method CollectAcceptedLinks(hrefs: seq<string>, base: string, allow: seq<string>, deny: seq<string>,
                                subpagesOnly: bool, siblingsOnly: bool) returns (acceptedLinks: seq<string>)
      ensures acceptedLinks == AcceptedLinks(hrefs, Scope(base, url, subpagesOnly, siblingsOnly), Filter(allow, deny), matches)
    {
      ghost var sc := Scope(base, url, subpagesOnly, siblingsOnly);
      ghost var f := Filter(allow, deny);
      acceptedLinks := [];
      for i := 0 to |hrefs|
        invariant acceptedLinks == AcceptedLinks(hrefs[..i], sc, f, matches)
      {
        AcceptedLinksStep(hrefs, i, sc, f, matches);
        var accepted := CheckHref(hrefs[i], base, allow, deny, subpagesOnly, siblingsOnly);
        if accepted.Some? {
          acceptedLinks := acceptedLinks + [accepted.value];
        }
      }
      assert hrefs[..|hrefs|] == hrefs;
    }

    /**
     * The checks of one anchor in `extractLinks`, in their order: the resolved `href` when
     * every check passes, `None` where the loop moves on to the next anchor.
     */
    method CheckHref(raw: string, base: string, allow: seq<string>, deny: seq<string>,
                     subpagesOnly: bool, siblingsOnly: bool) returns (accepted: Option<string>)
      ensures accepted == Candidate(raw, Scope(base, url, subpagesOnly, siblingsOnly), Filter(allow, deny), matches)
    {
      var seedUrl := url;
      accepted := None;
      var href := StripAnchorFromUrl(raw);
      if PhpEmpty(href) {
        return;
      }
      href := RelativeToAbsoluteUrl(href, base);
      if !StartsWith(href, base) {
        return;
      }
      if siblingsOnly {
        var pathSegments := Explode(seedUrl, '/');
        pathSegments := pathSegments[..|pathSegments| - 1];
        var siblingsParent := Implode(pathSegments, '/');
        if !StartsWith(href, siblingsParent) {
          return;
        }
      }
      if subpagesOnly {
        if !StartsWith(href, seedUrl) || href == seedUrl {
          return;
        }
      }
      var isWhitelisted := |allow| == 0;
      if !isWhitelisted {
        isWhitelisted := IsLinkAllowed(href, allow);
      }
      var isBlacklisted := |deny| > 0;
      if isBlacklisted {
        isBlacklisted := IsLinkAllowed(href, deny);
      }
      if isWhitelisted && !isBlacklisted {
        accepted := Some(href);
      }
    }

    /** The limit loop of `extractLinks`: appends the entries whose position passes the limit test. */
    method AppendLimited(uniqueLinks: seq<string>, limit: int)
      modifies this`extractedUrls
      ensures extractedUrls == old(extractedUrls) + Limited(uniqueLinks, limit)
    {
      for id := 0 to |uniqueLinks|
        invariant extractedUrls == old(extractedUrls) + uniqueLinks[..LimitCount(limit, id)]
      {
        LimitCountStep(uniqueLinks, limit, id);
        if limit == 0 || limit > id {
          extractedUrls := extractedUrls + [uniqueLinks[id]];
        }
      }
    }

    /**
     * `extractLinks`: collects the accepted links of one page, then appends them to
     * `extractedUrls`, deduplicated and limited; nothing else changes.
     */
    method ExtractLinks(hrefs: seq<string>, base: string, allow: seq<string>, deny: seq<string>, limit: int,
                        subpagesOnly: bool, siblingsOnly: bool)
      modifies this`extractedUrls
      ensures extractedUrls ==
              old(extractedUrls) + PageBlock(hrefs, Scope(base, url, subpagesOnly, siblingsOnly), Filter(allow, deny), limit, matches)
    {
      var acceptedLinks := CollectAcceptedLinks(hrefs, base, allow, deny, subpagesOnly, siblingsOnly);
      var uniqueLinks := Dedup(acceptedLinks);
      AppendLimited(uniqueLinks, limit);
    }

    /**
     * The recursive `extractUrlsFromSitemapCommand($childSitemapUrl)` of a sitemap index,
     * which is not modelled step by step: it leaves `extractedUrls` as the deduplication
     * of the old list followed by whatever it collected, and it resets the preset
     * (to `null`, which reads as `""`), the filter, the limit string, the limit and
     * `addToQueue`. It queues nothing, since it runs with `addToQueue` false.
     */
    method NestedSitemapCommand(sitemapUrl: string)
      modifies this`extractedUrls, this`selectedPreset, this`settings, this`limits, this`addToQueue, this`urlList, this`limit
      ensures DefaultContext() && limit == 0
      ensures exists collected :: extractedUrls == Dedup(old(extractedUrls) + collected)
      ensures NoDuplicates(extractedUrls) && Dedup(old(extractedUrls)) <= extractedUrls
      ensures subpagesOnly == old(subpagesOnly) && siblingsOnly == old(siblingsOnly)
      ensures url == old(url) && baseUrl == old(baseUrl) && queued == old(queued)
    {
      var collected: seq<string> :| true;
      MergeCollected(collected);
      ResetToDefaults();
    }

    /**
     * The configuration a nested run leaves: every argument but the sitemap URL at its
     * default. Its seed list is that of the innermost nested run, so it is left open.
     */
    method ResetToDefaults()
      modifies this`selectedPreset, this`settings, this`limits, this`addToQueue, this`urlList, this`limit
      ensures DefaultContext() && limit == 0
    {
      selectedPreset := "";
      settings := Filter([], []);
      limits := "";
      addToQueue := false;
      var seeds: seq<string> :| true;
      urlList := seeds;
      limit := 0;
    }

    /** The nested command's final `array_values(array_unique(...))` over the old list and what it collected. */
    method MergeCollected(collected: seq<string>)
      modifies this`extractedUrls
      ensures extractedUrls == Dedup(old(extractedUrls) + collected)
      ensures NoDuplicates(extractedUrls) && Dedup(old(extractedUrls)) <= extractedUrls
    {
      DedupPrefix(extractedUrls, collected);
      extractedUrls := Dedup(extractedUrls + collected);
    }

    /** The `<url>` loop of `extractLinksFromSitemap`: the first `limit` trimmed locations that pass the filter. */
    method CollectSitemapLinks(urlLocs: seq<string>, allow: seq<string>, deny: seq<string>, limit: int)
      returns (acceptedLinks: seq<string>)
      ensures acceptedLinks == Limited(SitemapAccepted(urlLocs, Filter(allow, deny), matches), limit)
    {
      ghost var f := Filter(allow, deny);
      acceptedLinks := [];
      var no := 0;
      for k := 0 to |urlLocs|
        invariant acceptedLinks == Limited(SitemapAccepted(urlLocs[..k], f, matches), limit)
        invariant limit != 0 ==> no == |SitemapAccepted(urlLocs[..k], f, matches)|
      {
        SitemapLimitedStep(urlLocs, k, f, limit, matches);
        var href := Trim(urlLocs[k]);
        var isWhitelisted := |allow| == 0;
        if !isWhitelisted {
          isWhitelisted := IsLinkAllowed(href, allow);
        }
        var isBlacklisted := |deny| > 0;
        if isBlacklisted {
          isBlacklisted := IsLinkAllowed(href, deny);
        }
        if isWhitelisted && !isBlacklisted {
          var kept := limit == 0;
          if !kept {
            kept := limit > no;
            no := no + 1;
          }
          if kept {
            acceptedLinks := acceptedLinks + [href];
          }
        }
      }
      assert urlLocs[..|urlLocs|] == urlLocs;
    }

    /**
     * The `<sitemap>` loop of `extractLinksFromSitemap`: the command runs once per child
     * sitemap. Whatever the children collect, the links already deduplicated keep their
     * places, and the crawl flags, the seed, the base and the queue are left alone. Once
     * one child has run, the context is the nested command's defaults, limit 0 included.
     */
    method VisitChildSitemaps(sitemapLocs: seq<string>)
      modifies this
      ensures Dedup(old(extractedUrls)) <= Dedup(extractedUrls)
      ensures |sitemapLocs| > 0 ==> DefaultContext() && limit == 0
      ensures subpagesOnly == old(subpagesOnly) && siblingsOnly == old(siblingsOnly)
      ensures url == old(url) && baseUrl == old(baseUrl) && queued == old(queued)
    {
      for k := 0 to |sitemapLocs|
        invariant Dedup(old(extractedUrls)) <= Dedup(extractedUrls)
        invariant k > 0 ==> DefaultContext() && limit == 0
        invariant subpagesOnly == old(subpagesOnly) && siblingsOnly == old(siblingsOnly)
        invariant url == old(url) && baseUrl == old(baseUrl) && queued == old(queued)
      {
        var childSitemapUrl := Trim(sitemapLocs[k]);
        ghost var before := extractedUrls;
        NestedSitemapCommand(childSitemapUrl);
        DedupOfNoDuplicates(extractedUrls);
        PrefixTransitive(Dedup(old(extractedUrls)), Dedup(before), Dedup(extractedUrls));
      }
    }

    /**
     * The `<sitemap>` loop as it is evidently meant to work: each child sitemap adds the
     * links it collects, and the parent's preset, filter, limits, `addToQueue` and seed
     * list are kept for the rest of the parent run.
     */
    method VisitChildSitemapsKeepingContext(sitemapLocs: seq<string>)
      modifies this`extractedUrls
      ensures Dedup(old(extractedUrls)) <= Dedup(extractedUrls)
      ensures selectedPreset == old(selectedPreset) && settings == old(settings) && limits == old(limits)
      ensures limit == old(limit) && addToQueue == old(addToQueue) && urlList == old(urlList)
    {
      for k := 0 to |sitemapLocs|
        invariant Dedup(old(extractedUrls)) <= Dedup(extractedUrls)
      {
        ghost var before := extractedUrls;
        var collected: seq<string> :| true;
        MergeCollected(collected);
        DedupOfNoDuplicates(extractedUrls);
        PrefixTransitive(Dedup(old(extractedUrls)), Dedup(before), Dedup(extractedUrls));
      }
    }

    /**
     * The end of `extractLinksFromSitemap`: appends the block, then expands the whole
     * list with the selected preset's `addUrls`.
     */
    method MergeAndExpand(acceptedLinks: seq<string>)
      modifies this`extractedUrls
      ensures extractedUrls == ExpandAll(ExpansionsOf(presets, selectedPreset), old(extractedUrls) + acceptedLinks, matches)
      ensures Dedup(old(extractedUrls)) <= Dedup(extractedUrls)
    {
      ghost var beforeMerge := extractedUrls;
      extractedUrls := extractedUrls + acceptedLinks;
      ghost var merged := extractedUrls;
      var expansions := ExpansionsOf(presets, selectedPreset);
      if |expansions| > 0 {
        extractedUrls := AddSubpages(expansions, extractedUrls);
      }
      assert merged <= extractedUrls;
      var tail := extractedUrls[|merged|..];
      assert extractedUrls == merged + tail;
      assert extractedUrls == beforeMerge + (acceptedLinks + tail);
      DedupPrefix(beforeMerge, acceptedLinks + tail);
    }

    /**
     * `extractLinksFromSitemap`: returns the block of a URL set; for a URL set it appends
     * that block to `extractedUrls` and expands the list with the selected preset's
     * `addUrls`; a malformed document changes nothing; an index runs the command once
     * per child sitemap, which leaves the nested command's default context, and then
     * expands.
     */
    method ExtractLinksFromSitemap(doc: SitemapDoc, allow: seq<string>, deny: seq<string>, limit: int)
      returns (acceptedLinks: seq<string>)
      modifies this
      ensures acceptedLinks == SitemapBlock(doc, Filter(allow, deny), limit, matches)
      ensures !IsIndex(doc) ==>
                extractedUrls == SitemapStep(old(extractedUrls), doc, Filter(allow, deny), limit,
                                             ExpansionsOf(presets, old(selectedPreset)), matches) &&
                selectedPreset == old(selectedPreset) && settings == old(settings) && limits == old(limits) &&
                this.limit == old(this.limit) && addToQueue == old(addToQueue) && urlList == old(urlList)
      ensures IsIndex(doc) ==> DefaultContext() && this.limit == 0
      ensures Dedup(old(extractedUrls)) <= Dedup(extractedUrls)
      ensures subpagesOnly == old(subpagesOnly) && siblingsOnly == old(siblingsOnly)
      ensures url == old(url) && baseUrl == old(baseUrl) && queued == old(queued)
    {
      acceptedLinks := [];
      if doc.Malformed? {
        return;
      }
      if |doc.sitemapLocs| > 0 {
        VisitChildSitemaps(doc.sitemapLocs);
      } else {
        acceptedLinks := CollectSitemapLinks(doc.urlLocs, allow, deny, limit);
      }
      ghost var beforeMerge := extractedUrls;
      MergeAndExpand(acceptedLinks);
      PrefixTransitive(Dedup(old(extractedUrls)), Dedup(beforeMerge), Dedup(extractedUrls));
    }

    /** The job loop at the end of both commands: every collected URL is queued, in order, when `addToQueue` is set. */
    method QueueExtractedUrls()
      modifies this`queued
      ensures queued == old(queued) + (if addToQueue then extractedUrls else [])
    {
      for id := 0 to |extractedUrls|
        invariant queued == old(queued) + (if addToQueue then extractedUrls[..id] else [])
      {
        if addToQueue {
          queued := queued + [extractedUrls[id]];
        }
      }
      assert extractedUrls[..|extractedUrls|] == extractedUrls;
    }

    /**
     * The configuration step of `extractUrlsCommand`: the preset's filter, seed URLs and
     * limit string, each falling back to the empty list, the comma-separated `urls`
     * argument and the `limits` argument.
     */
    method LoadPageSettings(preset: string, urls: string, limitsArg: string)
      modifies this`settings, this`urlList, this`limits
      ensures settings == PresetFilter(presets, preset)
      ensures urlList == PageSeeds(presets, preset, urls)
      ensures limits == ResolvedLimits(presets, preset, limitsArg)
    {
      urlList := [];
      limits := "";
      settings := Filter([], []);
      if !PhpEmpty(preset) && preset in presets && Configured(presets[preset]) {
        var p := presets[preset];
        settings := Filter(ListOrEmpty(p.allowlist), ListOrEmpty(p.denylist));
        urlList := ListOrEmpty(p.urls);
        limits := if p.limits.Some? then p.limits.value else "";
      }
      if |urlList| == 0 {
        urlList := Explode(urls, ',');
      }
      if PhpEmpty(limits) {
        limits := limitsArg;
      }
    }

    /**
     * One pass of the seed loop of `extractUrlsCommand`: sets the seed, its base and its
     * limit, and runs `extractLinks` on the seed's page when the fetch succeeds.
     */
    method CrawlSeed(seed: string, seedLimit: int, pages: map<string, seq<string>>)
      modifies this`url, this`baseUrl, this`limit, this`extractedUrls
      ensures url == seed && baseUrl == GetBaseUrl(seed) && limit == seedLimit
      ensures extractedUrls == old(extractedUrls) + SeedBlock(seed, seedLimit, pages, settings, subpagesOnly, siblingsOnly, matches)
    {
      SetSeed(seed, seedLimit);
      if seed in pages {
        assert Filter(settings.allow, settings.deny) == settings;
        ExtractLinks(pages[seed], baseUrl, settings.allow, settings.deny, limit, subpagesOnly, siblingsOnly);
      }
    }

    /**
     * `CrawlSeed` for the seed at position `id`, as the seed loop sees it: the seed's URL,
     * its limit and its block (the base URL it sets is stated by `CrawlSeed`).
     */
    method CrawlSeedAt(seeds: seq<string>, id: nat, limitsList: seq<int>, pages: map<string, seq<string>>)
      requires id < |seeds| <= |limitsList|
      modifies this`url, this`baseUrl, this`limit, this`extractedUrls
      ensures url == seeds[id] && limit == limitsList[id]
      ensures extractedUrls == old(extractedUrls) + SeedBlock(seeds[id], limitsList[id], pages, settings, subpagesOnly, siblingsOnly, matches)
    {
      CrawlSeed(seeds[id], limitsList[id], pages);
    }

    /** The assignments at the head of the seed loop: the seed, its base URL and its limit. */
    method SetSeed(seed: string, seedLimit: int)
      modifies this`url, this`baseUrl, this`limit
      ensures url == seed && baseUrl == GetBaseUrl(seed) && limit == seedLimit
    {
      url := seed;
      baseUrl := GetBaseUrl(seed);
      limit := seedLimit;
    }

    /** The seed loop of `extractUrlsCommand`: the seeds' blocks, in order; the last seed's URL and limit stay set. */
    method CrawlSeeds(seeds: seq<string>, limitsList: seq<int>, pages: map<string, seq<string>>)
      requires |limitsList| >= |seeds|
      modifies this`url, this`baseUrl, this`limit, this`extractedUrls
      ensures extractedUrls == old(extractedUrls) + Crawl(seeds, limitsList, pages, settings, subpagesOnly, siblingsOnly, matches)
      ensures |seeds| > 0 ==> url == seeds[|seeds| - 1] && limit == limitsList[|seeds| - 1]
      ensures |seeds| == 0 ==> url == old(url) && baseUrl == old(baseUrl) && limit == old(limit)
    {
      for id := 0 to |seeds|
        invariant extractedUrls == old(extractedUrls) + Crawl(seeds[..id], limitsList, pages, settings, subpagesOnly, siblingsOnly, matches)
        invariant id > 0 ==> url == seeds[id - 1] && limit == limitsList[id - 1]
        invariant id == 0 ==> url == old(url) && baseUrl == old(baseUrl) && limit == old(limit)
      {
        CrawlStep(seeds, id, limitsList, pages, settings, subpagesOnly, siblingsOnly, matches);
        ghost var crawled := Crawl(seeds[..id], limitsList, pages, settings, subpagesOnly, siblingsOnly, matches);
        CrawlSeedAt(seeds, id, limitsList, pages);
        AppendAssociative(old(extractedUrls), crawled, SeedBlock(seeds[id], limitsList[id], pages, settings, subpagesOnly, siblingsOnly, matches));
      }
      assert seeds[..|seeds|] == seeds;
    }

    /**
     * `extractUrlsCommand`: takes the filter, seeds and limits from the preset (falling
     * back to the arguments), crawls each seed's page with its limit, expands the list
     * with the preset's `addUrls`, deduplicates it and queues it when asked to.
     */
    method ExtractUrlsCommand(preset: string, urls: string, limitsArg: string, subpages: bool, siblings: bool,
                              addToQueueArg: bool, pages: map<string, seq<string>>)
      modifies this
      ensures selectedPreset == preset && subpagesOnly == subpages && siblingsOnly == siblings && addToQueue == addToQueueArg
      ensures settings == PresetFilter(presets, preset)
      ensures urlList == PageSeeds(presets, preset, urls)
      ensures limits == ResolvedLimits(presets, preset, limitsArg)
      ensures extractedUrls ==
              Dedup(ExpandAll(ExpansionsOf(presets, selectedPreset),
                              old(extractedUrls) + Crawl(urlList, PrepareLimits(limits, |urlList|), pages, settings, subpagesOnly, siblingsOnly, matches),
                              matches))
      ensures queued == old(queued) + (if addToQueue then extractedUrls else [])
    {
      ConfigurePageRun(preset, urls, limitsArg, subpages, siblings, addToQueueArg);
      var limitsList := PrepareLimits(limits, |urlList|);
      CrawlSeeds(urlList, limitsList, pages);
      ExpandAndDedup(ExpansionsOf(presets, selectedPreset));
      QueueExtractedUrls();
    }

    /** The assignments at the start of `extractUrlsCommand`, then its configuration step. */
    method ConfigurePageRun(preset: string, urls: string, limitsArg: string, subpages: bool, siblings: bool, addToQueueArg: bool)
      modifies this`selectedPreset, this`subpagesOnly, this`siblingsOnly, this`addToQueue, this`settings, this`urlList, this`limits
      ensures selectedPreset == preset && subpagesOnly == subpages && siblingsOnly == siblings && addToQueue == addToQueueArg
      ensures settings == PresetFilter(presets, preset)
      ensures urlList == PageSeeds(presets, preset, urls)
      ensures limits == ResolvedLimits(presets, preset, limitsArg)
    {
      selectedPreset := preset;
      subpagesOnly := subpages;
      siblingsOnly := siblings;
      addToQueue := addToQueueArg;
      LoadPageSettings(preset, urls, limitsArg);
    }

    /** Lines 174-177: the preset's `addUrls` expansions, when there are any, then deduplication. */
    method ExpandAndDedup(expansions: seq<Expansion>)
      modifies this`extractedUrls
      ensures extractedUrls == Dedup(ExpandAll(expansions, old(extractedUrls), matches))
    {
      if |expansions| > 0 {
        extractedUrls := AddSubpages(expansions, extractedUrls);
      } else {
        ExpandNothing(extractedUrls, matches);
      }
      extractedUrls := Dedup(extractedUrls);
    }

    /**
     * The configuration step of `extractUrlsFromSitemapCommand`: as for pages, with the
     * preset's `sitemaps` and the `sitemaps` argument, which may be absent.
     */
    method LoadSitemapSettings(preset: string, sitemaps: Option<string>, limitsArg: string)
      modifies this`settings, this`urlList, this`limits
      ensures settings == PresetFilter(presets, preset)
      ensures urlList == SitemapSeeds(presets, preset, sitemaps)
      ensures limits == ResolvedLimits(presets, preset, limitsArg)
    {
      urlList := [];
      limits := "";
      settings := Filter([], []);
      if !PhpEmpty(preset) && preset in presets && Configured(presets[preset]) {
        var p := presets[preset];
        settings := Filter(ListOrEmpty(p.allowlist), ListOrEmpty(p.denylist));
        urlList := ListOrEmpty(p.sitemaps);
        limits := if p.limits.Some? then p.limits.value else "";
      }
      if |urlList| == 0 && sitemaps.Some? {
        urlList := Explode(sitemaps.value, ',');
      }
      if PhpEmpty(limits) {
        limits := limitsArg;
      }
    }

    /**
     * The seed loop of `extractUrlsFromSitemapCommand`: sets each seed's limit and runs
     * `extractLinksFromSitemap` on the fetched document, or on the last one fetched when
     * the fetch fails, skipping the seed while nothing has been fetched. The links already
     * deduplicated keep their places; once a seed fetches an index, the context is the
     * nested command's defaults; when no seed fetches an index, the configuration
     * is left alone and the list is exactly `SitemapRun`'s.
     */
    method VisitSitemaps(seeds: seq<string>, limitsList: seq<int>, docs: map<string, SitemapDoc>)
      requires |limitsList| >= |seeds|
      modifies this
      ensures Dedup(old(extractedUrls)) <= Dedup(extractedUrls)
      ensures queued == old(queued)
      ensures subpagesOnly == old(subpagesOnly) && siblingsOnly == old(siblingsOnly) && url == old(url) && baseUrl == old(baseUrl)
      ensures ReachesIndex(seeds, docs) ==> DefaultContext()
      ensures !ReachesIndex(seeds, docs) ==>
                selectedPreset == old(selectedPreset) && addToQueue == old(addToQueue) && settings == old(settings) &&
                urlList == old(urlList) && limits == old(limits) &&
                extractedUrls == SitemapRun(old(extractedUrls), seeds, limitsList, docs, old(settings), None,
                                            ExpansionsOf(presets, old(selectedPreset)), matches)
    {
      ghost var f := settings;
      ghost var expansions := ExpansionsOf(presets, selectedPreset);
      ghost var run := SitemapRun(extractedUrls, seeds, limitsList, docs, f, None, expansions, matches);
      var body: Option<SitemapDoc> := None;
      for id := 0 to |seeds|
        invariant Dedup(old(extractedUrls)) <= Dedup(extractedUrls)
        invariant queued == old(queued)
        invariant subpagesOnly == old(subpagesOnly) && siblingsOnly == old(siblingsOnly) && url == old(url) && baseUrl == old(baseUrl)
        invariant ReachesIndex(seeds[..id], docs) ==> DefaultContext()
        invariant !ReachesIndex(seeds, docs) ==>
                    selectedPreset == old(selectedPreset) && addToQueue == old(addToQueue) && settings == f &&
                    urlList == old(urlList) && limits == old(limits) &&
                    (body.Some? ==> !IsIndex(body.value)) &&
                    SitemapRun(extractedUrls, seeds[id..], limitsList[id..], docs, f, body, expansions, matches) == run
      {
        SitemapRunStep(extractedUrls, seeds, id, limitsList, docs, f, body, expansions, matches);
        ReachesIndexStep(seeds, id, docs);
        assert seeds[id] in seeds;
        ghost var before := extractedUrls;
        body := VisitSitemapSeed(seeds[id], limitsList[id], docs, body);
        PrefixTransitive(Dedup(old(extractedUrls)), Dedup(before), Dedup(extractedUrls));
      }
      assert seeds[..|seeds|] == seeds;
    }

    /**
     * One pass of the seed loop: sets the seed's limit, keeps the fetched document (or the
     * last one fetched when the fetch fails) and runs `extractLinksFromSitemap` on it.
     */
    method VisitSitemapSeed(seed: string, seedLimit: int, docs: map<string, SitemapDoc>, body: Option<SitemapDoc>)
      returns (next: Option<SitemapDoc>)
      modifies this
      ensures next == if seed in docs then Some(docs[seed]) else body
      ensures Dedup(old(extractedUrls)) <= Dedup(extractedUrls)
      ensures queued == old(queued)
      ensures subpagesOnly == old(subpagesOnly) && siblingsOnly == old(siblingsOnly) && url == old(url) && baseUrl == old(baseUrl)
      ensures next.Some? && IsIndex(next.value) ==> DefaultContext()
      ensures !(next.Some? && IsIndex(next.value)) ==>
                selectedPreset == old(selectedPreset) && addToQueue == old(addToQueue) && settings == old(settings) &&
                urlList == old(urlList) && limits == old(limits) &&
                extractedUrls == (if next.None? then old(extractedUrls)
                                  else SitemapStep(old(extractedUrls), next.value, old(settings), seedLimit,
                                                   ExpansionsOf(presets, old(selectedPreset)), matches))
    {
      limit := seedLimit;
      next := if seed in docs then Some(docs[seed]) else body;
      if next.Some? {
        var _ := ExtractLinksFromSitemap(next.value, settings.allow, settings.deny, limit);
      }
    }

    /**
     * `extractUrlsFromSitemapCommand`: configures the filter, sitemap URLs and limits,
     * visits the sitemaps, deduplicates the list and queues it when asked to. The list
     * keeps the links it already held in their order. When a seed fetches a sitemap
     * index, the nested runs leave the default context, so nothing is queued even when
     * `addToQueue` was asked for. When no fetched sitemap is an index, the configuration
     * stays as set and the list is exactly the loop's.
     */
    method ExtractUrlsFromSitemapCommand(sitemaps: Option<string>, preset: string, limitsArg: string,
                                         addToQueueArg: bool, docs: map<string, SitemapDoc>)
      modifies this
      ensures NoDuplicates(extractedUrls)
      ensures Dedup(old(extractedUrls)) <= extractedUrls
      ensures queued == old(queued) + (if addToQueue then extractedUrls else [])
      ensures subpagesOnly == old(subpagesOnly) && siblingsOnly == old(siblingsOnly) && url == old(url) && baseUrl == old(baseUrl)
      ensures ReachesIndex(SitemapSeeds(presets, preset, sitemaps), docs) ==> DefaultContext() && queued == old(queued)
      ensures !ReachesIndex(SitemapSeeds(presets, preset, sitemaps), docs) ==>
                selectedPreset == preset && addToQueue == addToQueueArg &&
                settings == PresetFilter(presets, preset) &&
                urlList == SitemapSeeds(presets, preset, sitemaps) &&
                limits == ResolvedLimits(presets, preset, limitsArg) &&
                extractedUrls == Dedup(SitemapRun(old(extractedUrls), urlList, PrepareLimits(limits, |urlList|), docs,
                                                  settings, None, ExpansionsOf(presets, preset), matches))
    {
      ConfigureSitemapRun(preset, sitemaps, limitsArg, addToQueueArg);
      var limitsList := PrepareLimits(limits, |urlList|);
      VisitSitemaps(urlList, limitsList, docs);
      DedupAndQueue();
    }

    /** The assignments at the start of `extractUrlsFromSitemapCommand`, then its configuration step. */
    method ConfigureSitemapRun(preset: string, sitemaps: Option<string>, limitsArg: string, addToQueueArg: bool)
      modifies this`selectedPreset, this`addToQueue, this`settings, this`urlList, this`limits
      ensures selectedPreset == preset && addToQueue == addToQueueArg
      ensures settings == PresetFilter(presets, preset)
      ensures urlList == SitemapSeeds(presets, preset, sitemaps)
      ensures limits == ResolvedLimits(presets, preset, limitsArg)
    {
      selectedPreset := preset;
      addToQueue := addToQueueArg;
      LoadSitemapSettings(preset, sitemaps, limitsArg);
    }

    /** The end of `extractUrlsFromSitemapCommand`: `array_values(array_unique(...))`, then the job loop. */
    method DedupAndQueue()
      modifies this`extractedUrls, this`queued
      ensures extractedUrls == Dedup(old(extractedUrls))
      ensures queued == old(queued) + (if addToQueue then extractedUrls else [])
    {
      extractedUrls := Dedup(extractedUrls);
      QueueExtractedUrls();
    }

    /**
     * `extractLinksFromSitemap` with the corrected `<sitemap>` loop: an index adds its
     * children's links, and the preset, filter, limits and `addToQueue` stay the parent's.
     */
    method ExtractLinksFromSitemapKeepingContext(doc: SitemapDoc, allow: seq<string>, deny: seq<string>, limit: int)
      returns (acceptedLinks: seq<string>)
      modifies this`extractedUrls
      ensures acceptedLinks == SitemapBlock(doc, Filter(allow, deny), limit, matches)
      ensures !IsIndex(doc) ==>
                extractedUrls == SitemapStep(old(extractedUrls), doc, Filter(allow, deny), limit,
                                             ExpansionsOf(presets, selectedPreset), matches)
      ensures Dedup(old(extractedUrls)) <= Dedup(extractedUrls)
    {
      acceptedLinks := [];
      if doc.Malformed? {
        return;
      }
      if |doc.sitemapLocs| > 0 {
        VisitChildSitemapsKeepingContext(doc.sitemapLocs);
      } else {
        acceptedLinks := CollectSitemapLinks(doc.urlLocs, allow, deny, limit);
      }
      ghost var beforeMerge := extractedUrls;
      MergeAndExpand(acceptedLinks);
      PrefixTransitive(Dedup(old(extractedUrls)), Dedup(beforeMerge), Dedup(extractedUrls));
    }

    /**
     * The seed loop of `extractUrlsFromSitemapCommand` over the corrected extractor: the
     * links already deduplicated keep their places, and when no seed fetches an index the
     * list is exactly `SitemapRun`'s, as in the loop as written.
     */
    method VisitSitemapsKeepingContext(seeds: seq<string>, limitsList: seq<int>, docs: map<string, SitemapDoc>)
      requires |limitsList| >= |seeds|
      modifies this`extractedUrls, this`limit
      ensures Dedup(old(extractedUrls)) <= Dedup(extractedUrls)
      ensures !ReachesIndex(seeds, docs) ==>
                extractedUrls == SitemapRun(old(extractedUrls), seeds, limitsList, docs, settings, None,
                                            ExpansionsOf(presets, selectedPreset), matches)
    {
      ghost var expansions := ExpansionsOf(presets, selectedPreset);
      ghost var run := SitemapRun(extractedUrls, seeds, limitsList, docs, settings, None, expansions, matches);
      var body: Option<SitemapDoc> := None;
      for id := 0 to |seeds|
        invariant Dedup(old(extractedUrls)) <= Dedup(extractedUrls)
        invariant !ReachesIndex(seeds, docs) ==>
                    (body.Some? ==> !IsIndex(body.value)) &&
                    SitemapRun(extractedUrls, seeds[id..], limitsList[id..], docs, settings, body, expansions, matches) == run
      {
        SitemapRunStep(extractedUrls, seeds, id, limitsList, docs, settings, body, expansions, matches);
        assert seeds[id] in seeds;
        ghost var before := extractedUrls;
        body := VisitSitemapSeedKeepingContext(seeds[id], limitsList[id], docs, body);
        PrefixTransitive(Dedup(old(extractedUrls)), Dedup(before), Dedup(extractedUrls));
      }
      assert seeds[..|seeds|] == seeds;
    }

    /** One pass of the seed loop over the corrected extractor. */
    method VisitSitemapSeedKeepingContext(seed: string, seedLimit: int, docs: map<string, SitemapDoc>,
                                          body: Option<SitemapDoc>) returns (next: Option<SitemapDoc>)
      modifies this`extractedUrls, this`limit
      ensures next == if seed in docs then Some(docs[seed]) else body
      ensures limit == seedLimit
      ensures Dedup(old(extractedUrls)) <= Dedup(extractedUrls)
      ensures !(next.Some? && IsIndex(next.value)) ==>
                extractedUrls == (if next.None? then old(extractedUrls)
                                  else SitemapStep(old(extractedUrls), next.value, settings, seedLimit,
                                                   ExpansionsOf(presets, selectedPreset), matches))
    {
      limit := seedLimit;
      next := if seed in docs then Some(docs[seed]) else body;
      if next.Some? {
        var _ := ExtractLinksFromSitemapKeepingContext(next.value, settings.allow, settings.deny, limit);
      }
    }

    /**
     * `extractUrlsFromSitemapCommand` as it is evidently meant to work: the configuration
     * taken from the preset or the arguments holds to the end, so with `addToQueue` every
     * URL of the final list is queued, whether or not a seed fetches an index.
     */
    method ExtractUrlsFromSitemapCommandKeepingContext(sitemaps: Option<string>, preset: string, limitsArg: string,
                                                       addToQueueArg: bool, docs: map<string, SitemapDoc>)
      modifies this
      ensures NoDuplicates(extractedUrls)
      ensures Dedup(old(extractedUrls)) <= extractedUrls
      ensures selectedPreset == preset && addToQueue == addToQueueArg
      ensures settings == PresetFilter(presets, preset)
      ensures urlList == SitemapSeeds(presets, preset, sitemaps)
      ensures limits == ResolvedLimits(presets, preset, limitsArg)
      ensures queued == old(queued) + (if addToQueueArg then extractedUrls else [])
      ensures !ReachesIndex(urlList, docs) ==>
                extractedUrls == Dedup(SitemapRun(old(extractedUrls), urlList, PrepareLimits(limits, |urlList|), docs,
                                                  settings, None, ExpansionsOf(presets, preset), matches))
    {
      ConfigureSitemapRun(preset, sitemaps, limitsArg, addToQueueArg);
      var limitsList := PrepareLimits(limits, |urlList|);
      VisitSitemapsKeepingContext(urlList, limitsList, docs);
      DedupAndQueue();
    }
  }
}
