/**
 * The URL helpers of the command controller (CacheWarmupCommandController.php lines
 * 420-474): `stripAnchorFromUrl`, `getBaseUrl` and `relativeToAbsoluteUrl`, each built
 * on the simplified `parse_url` of module UrlParse.
 */
module UrlHelpers {
  import opened Wrappers
  import opened PhpStrings
  import opened UrlParse

  /** `stripAnchorFromUrl`: the URL rebuilt from its parts without the fragment; `""` when it does not parse. */
  function StripAnchorFromUrl(url: string): (r: string)
    ensures '#' !in r
  {
    match Parse(url)
    case None => ""
    case Some(p) =>
      ParseOmitsHash(url);
      RebuildOmitsHash(p);
      Rebuild(p)
  }

  /** `getBaseUrl`: the optional `scheme://` followed by the host. */
  function GetBaseUrl(url: string): (r: string)
    ensures '?' !in r && '#' !in r && '@' !in r
  {
    match Parse(url)
    case None => ""
    case Some(p) =>
      ParseComponents(url);
      BaseOmitsDelimiters(p);
      (if p.scheme.Some? then p.scheme.value + "://" else "") + (if p.host.Some? then p.host.value else "")
  }

  lemma BaseOmitsDelimiters(p: UrlParts)
    requires p.scheme.Some? ==> IsSchemeName(p.scheme.value)
    requires p.host.Some? ==> HostName(p.host.value)
    ensures var r := (if p.scheme.Some? then p.scheme.value + "://" else "") + (if p.host.Some? then p.host.value else "");
            '?' !in r && '#' !in r && '@' !in r
  {
    if p.scheme.Some? {
      SchemeNameHasNoDelimiter(p.scheme.value);
    }
  }

  /** `parse_url($u, PHP_URL_SCHEME)`, `PHP_URL_HOST`, `PHP_URL_PATH`, with a missing part read as `""`. */
  function SchemeOf(u: string): string {
    match Parse(u)
    case None => ""
    case Some(p) => if p.scheme.Some? then p.scheme.value else ""
  }

  function HostOf(u: string): string {
    match Parse(u)
    case None => ""
    case Some(p) => if p.host.Some? then p.host.value else ""
  }

  function PathOf(u: string): string {
    match Parse(u)
    case None => ""
    case Some(p) => if p.path.Some? then p.path.value else ""
  }

  /**
   * `relativeToAbsoluteUrl`: a URL with a scheme is returned as is; one starting with `/`
   * is put after `scheme://host` of the base; any other is put after the whole base
   * (right-trimmed of `/`), then the base path up to its last `/`, then `/`.
   */
  function RelativeToAbsoluteUrl(url: string, base: string): (r: string)
    ensures SchemeOf(url) != "" ==> r == url
    ensures EndsWith(r, LTrim(url, '/'))
  {
    var tail := LTrim(url, '/');
    assert EndsWith(url, tail);
    if SchemeOf(url) != "" then url
    else if |url| > 0 && url[0] == '/' then
      var prefix := RTrim(SchemeOf(base) + "://" + HostOf(base), '/');
      EndsWithPrepend(prefix, url, tail);
      prefix + url
    else
      var prefix := RTrim(base, '/') + BeforeLast(PathOf(base), '/') + "/";
      assert EndsWith(tail, tail);
      EndsWithPrepend(prefix, tail, tail);
      prefix + tail
  }

  /** For a well-formed URL, `stripAnchorFromUrl` removes exactly the fragment. */
  lemma StripAnchorRemovesFragment(p: UrlParts)
    requires WellFormed(p)
    ensures StripAnchorFromUrl(FullUrl(p)) == FullUrl(p.(fragment := None))
  {
    ParseFullUrl(p);
  }

  /** For a well-formed URL, stripping the anchor twice is the same as stripping it once. */
  lemma StripAnchorIdempotent(p: UrlParts)
    requires WellFormed(p)
    ensures StripAnchorFromUrl(StripAnchorFromUrl(FullUrl(p))) == StripAnchorFromUrl(FullUrl(p))
  {
    StripAnchorRemovesFragment(p);
    var q := p.(fragment := None);
    StripAnchorRemovesFragment(q);
  }

  /** The component record of a bare origin `scheme://host`. */
  function Origin(scheme: string, host: string): UrlParts {
    UrlParts(Some(scheme), None, None, Some(host), None, None, None, None)
  }

  lemma OriginText(scheme: string, host: string)
    requires IsSchemeName(scheme) && HostName(host)
    ensures WellFormed(Origin(scheme, host))
    ensures FullUrl(Origin(scheme, host)) == scheme + "://" + host
    ensures Parse(scheme + "://" + host) == Some(Origin(scheme, host))
  {
    OriginFullUrl(scheme, host);
    ParseFullUrl(Origin(scheme, host));
  }

  lemma OriginFullUrl(scheme: string, host: string)
    ensures FullUrl(Origin(scheme, host)) == scheme + "://" + host
  {
    var p := Origin(scheme, host);
    assert UserInfoText(p) == "" && PathText(p) == "" && QueryText(p) == "";
    assert HostPortText(p) == host;
    EmptyJoin(scheme + "://", host);
  }

  lemma EmptyJoin(a: string, b: string)
    ensures a + "" + b + "" + "" + "" == a + b
  {
  }

  /** For a well-formed absolute URL, `getBaseUrl` is `scheme://host`. */
  lemma BaseUrlOfWellFormed(p: UrlParts)
    requires WellFormed(p) && p.scheme.Some?
    ensures GetBaseUrl(FullUrl(p)) == p.scheme.value + "://" + p.host.value
  {
    ParseFullUrl(p);
  }

  /** Without user info, the base of a well-formed absolute URL is a prefix of it. */
  lemma BaseUrlIsPrefix(p: UrlParts)
    requires WellFormed(p) && p.scheme.Some? && p.user.None?
    ensures StartsWith(FullUrl(p), GetBaseUrl(FullUrl(p)))
  {
    BaseUrlOfWellFormed(p);
    OriginIsPrefix(p);
  }

  lemma OriginIsPrefix(p: UrlParts)
    requires WellFormed(p) && p.scheme.Some? && p.user.None?
    ensures StartsWith(FullUrl(p), p.scheme.value + "://" + p.host.value)
  {
    var h := p.host.value;
    var sc := SchemeText(p);
    assert StartsWith(HostPortText(p), h);
    StartsWithPrepend(sc, HostPortText(p), h);
    assert sc + UserInfoText(p) == sc;
    StartsWithAppend(sc + HostPortText(p), PathText(p), sc + h);
    StartsWithAppend(sc + HostPortText(p) + PathText(p), QueryText(p), sc + h);
    StartsWithAppend(Rebuild(p), if p.fragment.Some? then "#" + p.fragment.value else "", sc + h);
  }

  lemma StartsWithAppend(s: string, t: string, prefix: string)
    requires StartsWith(s, prefix)
    ensures StartsWith(s + t, prefix)
  {
    assert (s + t)[..|prefix|] == s[..|prefix|];
  }

  lemma StartsWithPrepend(a: string, s: string, prefix: string)
    requires StartsWith(s, prefix)
    ensures StartsWith(a + s, a + prefix)
  {
    assert (a + s)[..|a + prefix|] == a + s[..|prefix|];
  }

  /** The base of a URL with scheme and host parses back to that scheme and host and nothing else. */
  lemma BaseUrlHasOnlySchemeAndHost(url: string)
    requires Parse(url).Some? && Parse(url).value.scheme.Some? && Parse(url).value.host.Some?
    ensures var p := Parse(url).value;
            Parse(GetBaseUrl(url)) == Some(Origin(p.scheme.value, p.host.value))
  {
    ParseComponents(url);
    var p := Parse(url).value;
    OriginText(p.scheme.value, p.host.value);
  }

  /** A text that starts with `/` never parses with a scheme. */
  lemma NoSchemeAfterSlash(url: string)
    requires |url| > 0 && url[0] == '/'
    ensures SchemeOf(url) == ""
  {
    ParseSlashHasNoScheme(url);
  }

  /** A URL with a scheme is returned unchanged. */
  lemma ResolveAbsolute(p: UrlParts, base: string)
    requires WellFormed(p) && p.scheme.Some?
    ensures RelativeToAbsoluteUrl(FullUrl(p), base) == FullUrl(p)
  {
    ParseFullUrl(p);
  }

  /** A URL starting with `/` is put after `scheme://host` of a well-formed absolute base. */
  lemma ResolveRootRelative(url: string, b: UrlParts)
    requires |url| > 0 && url[0] == '/'
    requires WellFormed(b) && b.scheme.Some?
    ensures RelativeToAbsoluteUrl(url, FullUrl(b)) == b.scheme.value + "://" + b.host.value + url
  {
    NoSchemeAfterSlash(url);
    ParseFullUrl(b);
    var o := b.scheme.value + "://" + b.host.value;
    assert o[|o| - 1] == b.host.value[|b.host.value| - 1];
  }

  /**
   * Against a bare origin, as the controller passes it, a relative URL lands directly
   * under the origin: `scheme://host/` followed by the URL.
   */
  lemma ResolveRelativeOnOrigin(url: string, scheme: string, host: string)
    requires IsSchemeName(scheme) && HostName(host)
    requires SchemeOf(url) == "" && !(|url| > 0 && url[0] == '/')
    ensures RelativeToAbsoluteUrl(url, scheme + "://" + host) == scheme + "://" + host + "/" + url
  {
    var o := scheme + "://" + host;
    OriginText(scheme, host);
    assert PathOf(o) == "";
    assert o[|o| - 1] == host[|host| - 1];
    ResolveRelative(url, o);
    JoinOrigin(o, BeforeLast(PathOf(o), '/'), url);
  }

  lemma JoinOrigin(o: string, d: string, rest: string)
    requires d == ""
    ensures o + d + "/" + rest == o + "/" + rest
  {
  }

  /** Against a bare origin, every URL without a scheme resolves to a URL on that origin. */
  lemma ResolveStaysOnOrigin(url: string, scheme: string, host: string)
    requires IsSchemeName(scheme) && HostName(host) && SchemeOf(url) == ""
    ensures StartsWith(RelativeToAbsoluteUrl(url, scheme + "://" + host), scheme + "://" + host)
  {
    var o := scheme + "://" + host;
    if |url| > 0 && url[0] == '/' {
      ResolveRootRelative(url, Origin(scheme, host));
      OriginText(scheme, host);
    } else {
      ResolveRelativeOnOrigin(url, scheme, host);
    }
  }

  /** A path segment: non-empty, without `/`, `?` or `#`. */
  predicate Segment(s: string) {
    s != "" && '/' !in s && '?' !in s && '#' !in s
  }

  lemma DirectoryOfFile(dir: string, file: string)
    requires Segment(dir) && Segment(file)
    ensures BeforeLast("/" + dir + "/" + file, '/') == "/" + dir
  {
    var path := "/" + dir + "/" + file;
    assert path[|dir| + 1] == '/';
    assert path[|dir| + 2..] == file;
    LastIndexOfUnique(path, '/', |dir| + 1);
    assert path[..|dir| + 1] == "/" + dir;
  }

  /** A well-formed base whose text ends in its path does not end in `/` when that path does not. */
  lemma BaseEndsInFile(b: UrlParts, file: string)
    requires WellFormed(b) && b.query.None? && b.fragment.None? && b.path.Some?
    requires Segment(file) && |b.path.value| > |file| && b.path.value[|b.path.value| - |file|..] == file
    ensures RTrim(FullUrl(b), '/') == FullUrl(b)
  {
    var base := FullUrl(b);
    var path := b.path.value;
    assert base == SchemeText(b) + UserInfoText(b) + HostPortText(b) + path;
    assert base[|base| - 1] == path[|path| - 1] == file[|file| - 1];
  }

  /**
   * A relative URL is put after the whole base and then the base directory once more:
   * `c` against `https://x.com/p/q` gives `https://x.com/p/q/p/c`, where a browser
   * would give `https://x.com/p/c`.
   */
  lemma ResolveRelativeRepeatsPath(url: string, b: UrlParts, dir: string, file: string)
    requires WellFormed(b) && b.scheme.Some? && b.query.None? && b.fragment.None?
    requires Segment(dir) && Segment(file) && b.path == Some("/" + dir + "/" + file)
    requires SchemeOf(url) == "" && !(|url| > 0 && url[0] == '/')
    ensures RelativeToAbsoluteUrl(url, FullUrl(b)) == FullUrl(b) + "/" + dir + "/" + LTrim(url, '/')
  {
    PathOfWellFormed(b);
    assert b.path.value[|b.path.value| - |file|..] == file;
    BaseEndsInFile(b, file);
    ResolveRelativeInDirectory(url, FullUrl(b), dir, file);
  }

  lemma PathOfWellFormed(b: UrlParts)
    requires WellFormed(b) && b.path.Some?
    ensures PathOf(FullUrl(b)) == b.path.value
  {
    ParseFullUrl(b);
  }

  lemma ResolveRelativeInDirectory(url: string, base: string, dir: string, file: string)
    requires Segment(dir) && Segment(file)
    requires PathOf(base) == "/" + dir + "/" + file && RTrim(base, '/') == base
    requires SchemeOf(url) == "" && !(|url| > 0 && url[0] == '/')
    ensures RelativeToAbsoluteUrl(url, base) == base + "/" + dir + "/" + LTrim(url, '/')
  {
    DirectoryOfFile(dir, file);
    ResolveRelative(url, base);
    JoinDirectory(base, BeforeLast(PathOf(base), '/'), dir, LTrim(url, '/'));
  }

  lemma JoinDirectory(base: string, d: string, dir: string, rest: string)
    requires d == "/" + dir
    ensures base + d + "/" + rest == base + "/" + dir + "/" + rest
  {
  }

  lemma ResolveRelative(url: string, base: string)
    requires SchemeOf(url) == "" && !(|url| > 0 && url[0] == '/')
    ensures RelativeToAbsoluteUrl(url, base) == RTrim(base, '/') + BeforeLast(PathOf(base), '/') + "/" + LTrim(url, '/')
  {
  }
}
