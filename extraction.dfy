/**
 * What the two extractors collect, as functions of their inputs. The HTML page is
 * given as the list of its anchors' `href` attributes in document order; the
 * sitemap as a `SitemapDoc`. `extractLinks` (lines 344-414) keeps a link when it
 * survives fragment stripping, is not `empty()`, resolves to a URL under the base,
 * meets the sibling and subpage scopes and passes the allow/deny filter; it then
 * deduplicates and limits. `extractLinksFromSitemap` (lines 272-315) filters the
 * trimmed `<loc>` values of a URL set and limits them.
 */
module Extraction {
  import opened Wrappers
  import opened PhpStrings
  import opened UrlHelpers
  import opened LinkFilter
  import opened LinkLists

  /** `implode('/', $segments)` after `array_pop(explode('/', $url))`. */
  function SiblingsParent(url: string): string {
    var segments := Explode(url, '/');
    Implode(segments[..|segments| - 1], '/')
  }

  /** The siblings' parent is the seed URL up to its last `/` (`""` when it has none). */
  lemma SiblingsParentIsDirectory(url: string)
    ensures SiblingsParent(url) == BeforeLast(url, '/')
  {
    ImplodeDropLast(url, '/');
  }

  /** The crawl state `extractLinks` reads: the base, the seed URL and the two scope switches. */
  datatype Scope = Scope(base: string, url: string, subpagesOnly: bool, siblingsOnly: bool)

  /** The allow and deny pattern lists (`whitelist` and `blacklist` in the settings). */
  datatype Filter = Filter(allow: seq<string>, deny: seq<string>)

  /** Same origin, and the sibling and subpage scopes when they are switched on. */
  predicate InScope(href: string, sc: Scope) {
    StartsWith(href, sc.base) &&
    (sc.siblingsOnly ==> StartsWith(href, SiblingsParent(sc.url))) &&
    (sc.subpagesOnly ==> StartsWith(href, sc.url) && href != sc.url)
  }

  /** The resolved form of a raw `href`, as `extractLinks` computes it before its checks. */
  function Resolved(raw: string, sc: Scope): string {
    RelativeToAbsoluteUrl(StripAnchorFromUrl(raw), sc.base)
  }

  /** The link one anchor contributes, if any: the checks of lines 358-393 in their order. */
  function Candidate(raw: string, sc: Scope, f: Filter, matches: Matcher): (r: Option<string>)
    ensures r.Some? <==> !PhpEmpty(StripAnchorFromUrl(raw)) && InScope(Resolved(raw, sc), sc) &&
                         Accepts(Resolved(raw, sc), f.allow, f.deny, matches)
    ensures r.Some? ==> r.value == Resolved(raw, sc)
  {
    var href := StripAnchorFromUrl(raw);
    if PhpEmpty(href) then None
    else
      var h := RelativeToAbsoluteUrl(href, sc.base);
      if !StartsWith(h, sc.base) then None
      else if sc.siblingsOnly && !StartsWith(h, SiblingsParent(sc.url)) then None
      else if sc.subpagesOnly && (!StartsWith(h, sc.url) || h == sc.url) then None
      else if (|f.allow| == 0 || MatchesAny(h, f.allow, matches)) && !(|f.deny| > 0 && MatchesAny(h, f.deny, matches)) then Some(h)
      else None
  }

  /** `$acceptedLinks` of `extractLinks`: the contributions of the anchors, in document order. */
  function AcceptedLinks(hrefs: seq<string>, sc: Scope, f: Filter, matches: Matcher): (r: seq<string>)
    ensures |r| <= |hrefs|
  {
    if hrefs == [] then []
    else
      var prev := AcceptedLinks(hrefs[..|hrefs| - 1], sc, f, matches);
      match Candidate(hrefs[|hrefs| - 1], sc, f, matches)
      case None => prev
      case Some(h) => prev + [h]
  }

  /** Every accepted link is in scope and passes the filter. */
  lemma {:induction false} AcceptedLinksInScope(hrefs: seq<string>, sc: Scope, f: Filter, matches: Matcher)
    ensures forall x :: x in AcceptedLinks(hrefs, sc, f, matches) ==> InScope(x, sc) && Accepts(x, f.allow, f.deny, matches)
  {
    if hrefs != [] {
      AcceptedLinksInScope(hrefs[..|hrefs| - 1], sc, f, matches);
    }
  }

  /** The contributions `g` makes to a list, in order. */
  function Contributions(xs: seq<string>, g: string -> Option<string>): (r: seq<string>)
    ensures |r| <= |xs|
  {
    if xs == [] then []
    else
      var prev := Contributions(xs[..|xs| - 1], g);
      match g(xs[|xs| - 1])
      case None => prev
      case Some(h) => prev + [h]
  }

  /** A value is contributed exactly when some element of the list yields it. */
  lemma {:induction false} ContributionsMembers(xs: seq<string>, g: string -> Option<string>)
    ensures forall x :: x in Contributions(xs, g) <==> exists i :: 0 <= i < |xs| && g(xs[i]) == Some(x)
  {
    if xs != [] {
      var n := |xs| - 1;
      var init := xs[..n];
      ContributionsMembers(init, g);
      forall x
        ensures x in Contributions(xs, g) <==> exists i :: 0 <= i < |xs| && g(xs[i]) == Some(x)
      {
        if x in Contributions(init, g) {
          var i :| 0 <= i < n && g(init[i]) == Some(x);
          assert init[i] == xs[i];
        } else if g(xs[n]) == Some(x) {
        } else {
          forall i | 0 <= i < |xs| ensures g(xs[i]) != Some(x) {
            if i < n { assert init[i] == xs[i]; }
          }
        }
      }
    }
  }

  /** The accepted links are the contributions of `Candidate` to the anchor list. */
  lemma {:induction false} AcceptedLinksContributions(hrefs: seq<string>, sc: Scope, f: Filter, matches: Matcher)
    ensures AcceptedLinks(hrefs, sc, f, matches) == Contributions(hrefs, raw => Candidate(raw, sc, f, matches))
  {
    if hrefs != [] {
      AcceptedLinksContributions(hrefs[..|hrefs| - 1], sc, f, matches);
    }
  }

  /** A link is accepted exactly when some anchor of the page contributes it. */
  lemma AcceptedLinksMembers(hrefs: seq<string>, sc: Scope, f: Filter, matches: Matcher)
    ensures forall x :: x in AcceptedLinks(hrefs, sc, f, matches) <==>
              exists i :: 0 <= i < |hrefs| && Candidate(hrefs[i], sc, f, matches) == Some(x)
  {
    var g := raw => Candidate(raw, sc, f, matches);
    AcceptedLinksContributions(hrefs, sc, f, matches);
    ContributionsMembers(hrefs, g);
  }

  /** One more anchor adds its contribution, if any, at the end. */
  lemma AcceptedLinksStep(hrefs: seq<string>, i: nat, sc: Scope, f: Filter, matches: Matcher)
    requires i < |hrefs|
    ensures AcceptedLinks(hrefs[..i + 1], sc, f, matches) ==
            AcceptedLinks(hrefs[..i], sc, f, matches) +
            (match Candidate(hrefs[i], sc, f, matches) case None => [] case Some(h) => [h])
  {
    assert hrefs[..i + 1][..i] == hrefs[..i];
  }

  /** The block `extractLinks` appends to `extractedUrls`: the accepted links, deduplicated, then limited. */
  function PageBlock(hrefs: seq<string>, sc: Scope, f: Filter, limit: int, matches: Matcher): seq<string> {
    Limited(Dedup(AcceptedLinks(hrefs, sc, f, matches)), limit)
  }

  /**
   * A page's block holds each link once, is a prefix of the page's deduplicated accepted
   * links, and every link in it is in scope and passes the filter.
   */
  lemma PageBlockProperties(hrefs: seq<string>, sc: Scope, f: Filter, limit: int, matches: Matcher)
    ensures var r := PageBlock(hrefs, sc, f, limit, matches);
            NoDuplicates(r) && r <= Dedup(AcceptedLinks(hrefs, sc, f, matches)) &&
            forall x :: x in r ==> InScope(x, sc) && Accepts(x, f.allow, f.deny, matches)
  {
    var unique := Dedup(AcceptedLinks(hrefs, sc, f, matches));
    AcceptedLinksInScope(hrefs, sc, f, matches);
    LimitedNoDuplicates(unique, limit);
  }

  /**
   * A parsed sitemap: `Malformed` when `simplexml_load_string` fails, otherwise the
   * `<loc>` texts of its `<sitemap>` children and of its `<url>` children.
   */
  datatype SitemapDoc = Malformed | Document(sitemapLocs: seq<string>, urlLocs: seq<string>)

  /** `isset($sitemapXml->sitemap)`: the document has at least one `<sitemap>` child. */
  predicate IsIndex(d: SitemapDoc) {
    d.Document? && |d.sitemapLocs| > 0
  }

  /** The trimmed `<loc>` values that pass the filter, in document order. */
  function SitemapAccepted(locs: seq<string>, f: Filter, matches: Matcher): (r: seq<string>)
    ensures |r| <= |locs|
  {
    if locs == [] then []
    else
      var prev := SitemapAccepted(locs[..|locs| - 1], f, matches);
      var href := Trim(locs[|locs| - 1]);
      if Accepts(href, f.allow, f.deny, matches) then prev + [href] else prev
  }

  /** A link is collected exactly when it passes the filter and is the trimmed text of some location. */
  lemma {:induction false} SitemapAcceptedMembers(locs: seq<string>, f: Filter, matches: Matcher)
    ensures forall x :: x in SitemapAccepted(locs, f, matches) <==>
              Accepts(x, f.allow, f.deny, matches) && exists loc :: loc in locs && Trim(loc) == x
  {
    if locs != [] {
      var init := locs[..|locs| - 1];
      var last := locs[|locs| - 1];
      SitemapAcceptedMembers(init, f, matches);
      assert locs == init + [last];
      forall x
        ensures x in SitemapAccepted(locs, f, matches) <==>
                Accepts(x, f.allow, f.deny, matches) && exists loc :: loc in locs && Trim(loc) == x
      {
        if x in SitemapAccepted(init, f, matches) {
          var loc :| loc in init && Trim(loc) == x;
          assert loc in locs;
        } else if x == Trim(last) {
          assert last in locs;
        } else {
          assert x !in SitemapAccepted(locs, f, matches);
          forall loc | loc in locs && Trim(loc) == x
            ensures !Accepts(x, f.allow, f.deny, matches)
          {
            assert loc in init;
          }
        }
      }
    }
  }

  /** One more location adds its trimmed text at the end when it passes the filter. */
  lemma SitemapAcceptedStep(locs: seq<string>, k: nat, f: Filter, matches: Matcher)
    requires k < |locs|
    ensures SitemapAccepted(locs[..k + 1], f, matches) ==
            SitemapAccepted(locs[..k], f, matches) +
            (if Accepts(Trim(locs[k]), f.allow, f.deny, matches) then [Trim(locs[k])] else [])
  {
    assert locs[..k + 1][..k] == locs[..k];
  }

  /**
   * One more location in the `$no` loop: when it passes the filter it is counted and kept
   * if the count so far passes the limit test; otherwise nothing changes.
   */
  lemma SitemapLimitedStep(locs: seq<string>, k: nat, f: Filter, limit: int, matches: Matcher)
    requires k < |locs|
    ensures var before := SitemapAccepted(locs[..k], f, matches);
            var after := SitemapAccepted(locs[..k + 1], f, matches);
            var href := Trim(locs[k]);
            if Accepts(href, f.allow, f.deny, matches) then
              |after| == |before| + 1 &&
              Limited(after, limit) == Limited(before, limit) + (if Kept(limit, |before|) then [href] else [])
            else after == before
  {
    SitemapAcceptedStep(locs, k, f, matches);
    var before := SitemapAccepted(locs[..k], f, matches);
    var href := Trim(locs[k]);
    if Accepts(href, f.allow, f.deny, matches) {
      LimitCountStep(before + [href], limit, |before|);
      assert (before + [href])[..|before|] == before;
    }
  }

  /**
   * What `extractLinksFromSitemap` returns: the first `limit` filter-passing locations of
   * a URL set (all for 0), and nothing for a malformed document or a sitemap index.
   */
  function SitemapBlock(doc: SitemapDoc, f: Filter, limit: int, matches: Matcher): (r: seq<string>)
    ensures !doc.Document? || IsIndex(doc) ==> r == []
    ensures doc.Document? && !IsIndex(doc) ==> r <= SitemapAccepted(doc.urlLocs, f, matches)
    ensures forall x :: x in r ==> Accepts(x, f.allow, f.deny, matches)
  {
    if doc.Document? && !IsIndex(doc) then SitemapAcceptedMembers(doc.urlLocs, f, matches); Limited(SitemapAccepted(doc.urlLocs, f, matches), limit) else []
  }
}
