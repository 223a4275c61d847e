/**
 * A simplified `parse_url`: a URL string is split into the optional components
 * scheme, user, pass, host, port, path, query and fragment, following the order in
 * which PHP finds them (the fragment at the first `#`, the query at the first `?`
 * before it, the scheme before the first `:` when that prefix is a scheme name, an
 * authority after `//` up to the next `/`, user info before the last `@`, a port after
 * the first `:` of the host part). `Parse` returns `None` where `parse_url` returns
 * `false`: an authority without a host, or a port that is not all digits.
 *
 * `Rebuild` is the string `stripAnchorFromUrl` assembles from the components
 * (CacheWarmupCommandController.php lines 426-433); `FullUrl` adds the fragment back.
 * The main fact here is `ParseFullUrl`: a well-formed component record survives
 * `FullUrl` followed by `Parse`.
 */
module UrlParse {
  import opened Wrappers
  import opened PhpStrings

  datatype UrlParts = UrlParts(
    scheme: Option<string>,
    user: Option<string>,
    pass: Option<string>,
    host: Option<string>,
    port: Option<string>,
    path: Option<string>,
    query: Option<string>,
    fragment: Option<string>)

  /** The components found between `//` and the path. */
  datatype Authority = Authority(user: Option<string>, pass: Option<string>, host: string, port: Option<string>)

  predicate IsAlpha(c: char) {
    'a' <= c <= 'z' || 'A' <= c <= 'Z'
  }

  predicate IsSchemeChar(c: char) {
    IsAlpha(c) || IsDigit(c) || c == '+' || c == '-' || c == '.'
  }

  /** A scheme name: a letter followed by letters, digits, `+`, `-` or `.`. */
  predicate IsSchemeName(s: string) {
    |s| > 0 && IsAlpha(s[0]) && forall k :: 0 <= k < |s| ==> IsSchemeChar(s[k])
  }

  lemma SchemeNameHasNoDelimiter(s: string)
    requires IsSchemeName(s)
    ensures ':' !in s && '/' !in s && '?' !in s && '#' !in s && '@' !in s
  {
  }

  /** An optional component that, when present, does not contain `c`. */
  predicate Omits(o: Option<string>, c: char) {
    o.Some? ==> c !in o.value
  }

  /** The scheme is the text before the first `:` when that text is a scheme name. */
  function SplitScheme(t: string): (r: (Option<string>, string))
    ensures r.0.Some? ==> IsSchemeName(r.0.value) && t == r.0.value + [':'] + r.1
    ensures r.0.None? ==> r.1 == t
  {
    match IndexOf(t, ':')
    case None => (None, t)
    case Some(i) =>
      if IsSchemeName(t[..i]) then
        assert t == t[..i] + [':'] + t[i + 1..];
        (Some(t[..i]), t[i + 1..])
      else (None, t)
  }

  /** After `//`, the authority runs up to the first `/`, which starts the path. */
  function SplitPath(t: string): (r: (string, Option<string>))
    ensures '/' !in r.0
    ensures r.1.None? ==> r.0 == t
    ensures r.1.Some? ==> t == r.0 + r.1.value && |r.1.value| > 0 && r.1.value[0] == '/'
  {
    match IndexOf(t, '/')
    case None => (t, None)
    case Some(i) =>
      assert t == t[..i] + t[i..];
      (t[..i], Some(t[i..]))
  }

  /** `user[:pass]@host[:port]`; `None` when there is no host or the port is not numeric. */
  function ParseAuthority(a: string): (r: Option<Authority>)
    ensures r.Some? ==> r.value.host != "" && ':' !in r.value.host && '@' !in r.value.host
    ensures r.Some? && r.value.port.Some? ==> |r.value.port.value| > 0 && AllDigits(r.value.port.value)
  {
    var (userinfo, hostport) := SplitLast(a, '@');
    var (host, port) := SplitFirst(hostport, ':');
    if host == "" then None
    else if port.Some? && !AllDigits(port.value) then None
    else
      var user := if userinfo.Some? then Some(SplitFirst(userinfo.value, ':').0) else None;
      var pass := if userinfo.Some? then SplitFirst(userinfo.value, ':').1 else None;
      Some(Authority(user, pass, host, if port == Some("") then None else port))
  }

  /** Every component `ParseAuthority` returns is cut from `a`, so a character `a` lacks, it lacks too. */
  lemma AuthorityOmits(a: string, c: char)
    requires c !in a && ParseAuthority(a).Some?
    ensures var au := ParseAuthority(a).value;
            Omits(au.user, c) && Omits(au.pass, c) && c !in au.host && Omits(au.port, c)
  {
    var (userinfo, hostport) := SplitLast(a, '@');
    if userinfo.Some? {
      var (u, p) := SplitFirst(userinfo.value, ':');
      assert c !in userinfo.value;
    }
  }

  /** PHP `parse_url`, simplified as described at the top of this module. */
  function Parse(s: string): (r: Option<UrlParts>)
    ensures r.Some? ==> (r.value.fragment.Some? <==> '#' in s)
    ensures r.Some? && r.value.fragment.Some? ==>
              var i := |s| - |r.value.fragment.value| - 1;
              0 <= i && s[i] == '#' && '#' !in s[..i] && s[i + 1..] == r.value.fragment.value
  {
    var (beforeFragment, fragment) := SplitFirst(s, '#');
    var (beforeQuery, query) := SplitFirst(beforeFragment, '?');
    BeforeQueryFragment(beforeQuery, query, fragment);
    assert fragment.Some? ==>
             s[..|beforeFragment|] == beforeFragment && s[|beforeFragment| + 1..] == fragment.value;
    ParseBeforeQuery(beforeQuery, query, fragment)
  }

  lemma BeforeQueryFragment(t: string, query: Option<string>, fragment: Option<string>)
    ensures ParseBeforeQuery(t, query, fragment).Some? ==> ParseBeforeQuery(t, query, fragment).value.fragment == fragment
  {
  }

  /** The text before the query: an optional scheme, then either `//` and an authority, or a bare path. */
  function ParseBeforeQuery(t: string, query: Option<string>, fragment: Option<string>): Option<UrlParts> {
    var (scheme, rest) := SplitScheme(t);
    if |rest| >= 2 && rest[0] == '/' && rest[1] == '/' then ParseNetworkPath(scheme, rest[2..], query, fragment)
    else Some(UrlParts(scheme, None, None, None, None, if rest == "" then None else Some(rest), query, fragment))
  }

  /** The text after `//`: the authority up to the first `/`, then the path. */
  function ParseNetworkPath(scheme: Option<string>, t: string, query: Option<string>, fragment: Option<string>): Option<UrlParts> {
    var (authority, path) := SplitPath(t);
    match ParseAuthority(authority)
    case None => None
    case Some(au) => Some(UrlParts(scheme, au.user, au.pass, Some(au.host), au.port, path, query, fragment))
  }

  /** No component but the fragment holds `c`. */
  predicate ComponentsOmit(p: UrlParts, c: char) {
    Omits(p.scheme, c) && Omits(p.user, c) && Omits(p.pass, c) && Omits(p.host, c) &&
    Omits(p.port, c) && Omits(p.path, c) && Omits(p.query, c)
  }

  lemma NotInSuffix(s: string, k: nat, c: char)
    requires k <= |s| && c !in s
    ensures c !in s[k..]
  {
    assert forall x :: x in s[k..] ==> x in s;
  }

  lemma NetworkPathOmits(scheme: Option<string>, t: string, query: Option<string>, fragment: Option<string>, c: char)
    requires Omits(scheme, c) && c !in t && Omits(query, c) && ParseNetworkPath(scheme, t, query, fragment).Some?
    ensures ComponentsOmit(ParseNetworkPath(scheme, t, query, fragment).value, c)
  {
    var (authority, path) := SplitPath(t);
    assert c !in authority;
    AuthorityOmits(authority, c);
  }

  lemma BeforeQueryOmits(t: string, query: Option<string>, fragment: Option<string>, c: char)
    requires c !in t && Omits(query, c) && ParseBeforeQuery(t, query, fragment).Some?
    ensures ComponentsOmit(ParseBeforeQuery(t, query, fragment).value, c)
  {
    var (scheme, rest) := SplitScheme(t);
    assert Omits(scheme, c) && c !in rest;
    if |rest| >= 2 && rest[0] == '/' && rest[1] == '/' {
      NotInSuffix(rest, 2, c);
      NetworkPathOmits(scheme, rest[2..], query, fragment, c);
    }
  }

  /** Every component except the fragment lies before the first `#`. */
  lemma ParseOmitsHash(s: string)
    requires Parse(s).Some?
    ensures ComponentsOmit(Parse(s).value, '#')
  {
    var (beforeFragment, fragment) := SplitFirst(s, '#');
    var (beforeQuery, query) := SplitFirst(beforeFragment, '?');
    assert '#' !in beforeQuery && Omits(query, '#');
    BeforeQueryOmits(beforeQuery, query, fragment, '#');
  }

  lemma NetworkPathComponents(scheme: Option<string>, t: string, query: Option<string>, fragment: Option<string>)
    requires '?' !in t && '#' !in t && ParseNetworkPath(scheme, t, query, fragment).Some?
    ensures var p := ParseNetworkPath(scheme, t, query, fragment).value;
            p.scheme == scheme && p.host.Some? && HostName(p.host.value)
  {
    var (authority, path) := SplitPath(t);
    assert '?' !in authority && '#' !in authority;
    AuthorityOmits(authority, '/');
    AuthorityOmits(authority, '?');
    AuthorityOmits(authority, '#');
  }

  lemma BeforeQueryComponents(t: string, query: Option<string>, fragment: Option<string>)
    requires '?' !in t && '#' !in t && ParseBeforeQuery(t, query, fragment).Some?
    ensures var p := ParseBeforeQuery(t, query, fragment).value;
            (p.scheme.Some? ==> IsSchemeName(p.scheme.value)) && (p.host.Some? ==> HostName(p.host.value))
  {
    var (scheme, rest) := SplitScheme(t);
    if |rest| >= 2 && rest[0] == '/' && rest[1] == '/' {
      assert '?' !in rest && '#' !in rest;
      NotInSuffix(rest, 2, '?');
      NotInSuffix(rest, 2, '#');
      NetworkPathComponents(scheme, rest[2..], query, fragment);
    }
  }

  /** What `Parse` guarantees of a scheme and a host it finds. */
  lemma ParseComponents(s: string)
    requires Parse(s).Some?
    ensures var p := Parse(s).value;
            (p.scheme.Some? ==> IsSchemeName(p.scheme.value)) && (p.host.Some? ==> HostName(p.host.value))
  {
    var (beforeFragment, fragment) := SplitFirst(s, '#');
    var (beforeQuery, query) := SplitFirst(beforeFragment, '?');
    assert '#' !in beforeQuery && '?' !in beforeQuery;
    BeforeQueryComponents(beforeQuery, query, fragment);
  }

  lemma SplitFirstKeepsSlash(s: string, c: char)
    requires |s| > 0 && s[0] == '/' && c != '/'
    ensures var b := SplitFirst(s, c).0; |b| > 0 && b[0] == '/'
  {
    var (b, after) := SplitFirst(s, c);
    if after.Some? {
      assert s == b + [c] + after.value;
      assert b != [];
      assert s[0] == b[0];
    }
  }

  lemma SlashHasNoScheme(t: string)
    requires |t| > 0 && t[0] == '/'
    ensures SplitScheme(t).0.None?
  {
    match IndexOf(t, ':')
    case None =>
    case Some(i) =>
      assert t[..i][0] == '/';
  }

  lemma BeforeQueryScheme(t: string, query: Option<string>, fragment: Option<string>)
    ensures ParseBeforeQuery(t, query, fragment).Some? ==> ParseBeforeQuery(t, query, fragment).value.scheme == SplitScheme(t).0
  {
  }

  /** A text that starts with `/` never parses with a scheme. */
  lemma ParseSlashHasNoScheme(s: string)
    requires |s| > 0 && s[0] == '/'
    ensures Parse(s).Some? ==> Parse(s).value.scheme.None?
  {
    var (beforeFragment, fragment) := SplitFirst(s, '#');
    SplitFirstKeepsSlash(s, '#');
    var (beforeQuery, query) := SplitFirst(beforeFragment, '?');
    SplitFirstKeepsSlash(beforeFragment, '?');
    SlashHasNoScheme(beforeQuery);
    BeforeQueryScheme(beforeQuery, query, fragment);
  }

  /** A record whose components hold no `#` rebuilds to a text without `#`. */
  lemma RebuildOmitsHash(p: UrlParts)
    requires ComponentsOmit(p, '#')
    ensures '#' !in Rebuild(p)
  {
    assert '#' !in SchemeText(p);
    assert '#' !in UserInfoText(p) by {
      assert '#' !in (if p.user.Some? then p.user.value else "");
      assert '#' !in (if p.pass.Some? then ":" + p.pass.value else "");
    }
    assert '#' !in HostPortText(p);
    assert '#' !in PathText(p);
    assert '#' !in QueryText(p);
  }

  /**
   * The text `stripAnchorFromUrl` builds from the components: everything but the
   * fragment, in the order scheme, user, pass, `@`, host, port, path, query.
   */
  function Rebuild(p: UrlParts): string {
    SchemeText(p) + UserInfoText(p) + HostPortText(p) + PathText(p) + QueryText(p)
  }

  function SchemeText(p: UrlParts): string {
    if p.scheme.Some? then p.scheme.value + "://" else ""
  }

  function UserInfoText(p: UrlParts): string {
    (if p.user.Some? then p.user.value else "") +
    (if p.pass.Some? then ":" + p.pass.value else "") +
    (if p.user.Some? then "@" else "")
  }

  function HostPortText(p: UrlParts): string {
    (if p.host.Some? then p.host.value else "") + (if p.port.Some? then ":" + p.port.value else "")
  }

  function PathText(p: UrlParts): string {
    if p.path.Some? then p.path.value else ""
  }

  function QueryText(p: UrlParts): string {
    if p.query.Some? then "?" + p.query.value else ""
  }

  /** The URL a component record stands for, fragment included. */
  function FullUrl(p: UrlParts): string {
    Rebuild(p) + (if p.fragment.Some? then "#" + p.fragment.value else "")
  }

  /** No component may hold a delimiter that would end it early. */
  predicate HostName(h: string) {
    h != "" && '/' !in h && ':' !in h && '@' !in h && '?' !in h && '#' !in h
  }

  /** A path without authority that `parse_url` would not mistake for a scheme or an authority. */
  predicate RelativePath(path: string) {
    |path| > 0 && SplitScheme(path).0.None? && !(|path| >= 2 && path[0] == '/' && path[1] == '/')
  }

  /**
   * A component record that `Parse` gives back from its own `FullUrl`: either an absolute
   * URL with scheme and host, or a path with optional query and fragment.
   */
  predicate WellFormed(p: UrlParts) {
    (p.scheme.Some? <==> p.host.Some?) &&
    (p.scheme.Some? ==> IsSchemeName(p.scheme.value)) &&
    (p.host.Some? ==> HostName(p.host.value)) &&
    (p.user.Some? ==> p.host.Some? && ':' !in p.user.value && '@' !in p.user.value &&
                      '/' !in p.user.value && '?' !in p.user.value && '#' !in p.user.value) &&
    (p.pass.Some? ==> p.user.Some? && '@' !in p.pass.value &&
                      '/' !in p.pass.value && '?' !in p.pass.value && '#' !in p.pass.value) &&
    (p.port.Some? ==> p.host.Some? && |p.port.value| > 0 && AllDigits(p.port.value)) &&
    (p.path.Some? ==> |p.path.value| > 0 && '?' !in p.path.value && '#' !in p.path.value &&
                      (p.host.Some? ==> p.path.value[0] == '/') &&
                      (p.host.None? ==> RelativePath(p.path.value))) &&
    Omits(p.query, '#')
  }

  lemma SplitPathAt(a: string, path: string)
    requires '/' !in a && (path == "" || path[0] == '/')
    ensures SplitPath(a + path) == (a, if path == "" then None else Some(path))
  {
    if path == "" {
      assert a + path == a;
    } else {
      IndexOfAt(a, '/', path[1..]);
      assert a + path == a + ['/'] + path[1..];
    }
  }

  /** User and password as they stand before the `@`. */
  function UserPassText(p: UrlParts): string {
    (if p.user.Some? then p.user.value else "") + (if p.pass.Some? then ":" + p.pass.value else "")
  }

  lemma UserInfoShape(p: UrlParts)
    requires WellFormed(p)
    ensures p.user.Some? ==> UserInfoText(p) == UserPassText(p) + ['@']
    ensures p.user.None? ==> UserInfoText(p) == ""
    ensures p.user.Some? && p.pass.Some? ==> UserPassText(p) == p.user.value + [':'] + p.pass.value
    ensures p.user.Some? && p.pass.None? ==> UserPassText(p) == p.user.value
  {
  }

  lemma HostPortShape(p: UrlParts)
    requires WellFormed(p) && p.host.Some?
    ensures p.port.Some? ==> HostPortText(p) == p.host.value + [':'] + p.port.value
    ensures p.port.None? ==> HostPortText(p) == p.host.value
  {
  }

  lemma OmitsConcat(a: string, b: string, c: char)
    requires c !in a && c !in b
    ensures c !in a + b
  {
  }

  lemma SchemeTextOmits(p: UrlParts, c: char)
    requires WellFormed(p) && (c == '?' || c == '#')
    ensures c !in SchemeText(p)
  {
    if p.scheme.Some? {
      SchemeNameHasNoDelimiter(p.scheme.value);
      OmitsConcat(p.scheme.value, "://", c);
    }
  }

  lemma UserInfoOmits(p: UrlParts, c: char)
    requires WellFormed(p) && (c == '/' || c == '?' || c == '#')
    ensures c !in UserInfoText(p)
  {
    var u := if p.user.Some? then p.user.value else "";
    var w := if p.pass.Some? then ":" + p.pass.value else "";
    var at := if p.user.Some? then "@" else "";
    if p.pass.Some? {
      OmitsConcat(":", p.pass.value, c);
    }
    OmitsConcat(u, w, c);
    OmitsConcat(u + w, at, c);
  }

  lemma HostPortOmits(p: UrlParts, c: char)
    requires WellFormed(p) && (c == '/' || c == '?' || c == '#' || c == '@')
    ensures c !in HostPortText(p)
  {
    var h := if p.host.Some? then p.host.value else "";
    var pt := if p.port.Some? then ":" + p.port.value else "";
    if p.port.Some? {
      assert forall k :: 0 <= k < |p.port.value| ==> IsDigit(p.port.value[k]);
      OmitsConcat(":", p.port.value, c);
    }
    OmitsConcat(h, pt, c);
  }

  /** Which delimiters the pieces of a well-formed record's text can hold. */
  lemma TextDelimiters(p: UrlParts)
    requires WellFormed(p)
    ensures '@' !in HostPortText(p) && ':' !in (if p.host.Some? then p.host.value else "")
    ensures '/' !in UserInfoText(p) + HostPortText(p)
    ensures '?' !in SchemeText(p) + UserInfoText(p) + HostPortText(p) + PathText(p)
    ensures '#' !in Rebuild(p)
  {
    HostPortOmits(p, '@');
    UserInfoOmits(p, '/');
    HostPortOmits(p, '/');
    OmitsConcat(UserInfoText(p), HostPortText(p), '/');
    forall c | c == '?' || c == '#'
      ensures c !in SchemeText(p) + UserInfoText(p) + HostPortText(p) + PathText(p)
    {
      SchemeTextOmits(p, c);
      UserInfoOmits(p, c);
      HostPortOmits(p, c);
      OmitsConcat(SchemeText(p), UserInfoText(p), c);
      OmitsConcat(SchemeText(p) + UserInfoText(p), HostPortText(p), c);
      OmitsConcat(SchemeText(p) + UserInfoText(p) + HostPortText(p), PathText(p), c);
    }
    OmitsConcat(SchemeText(p) + UserInfoText(p) + HostPortText(p) + PathText(p), QueryText(p), '#');
  }

  /** The authority text of a well-formed record parses back to its user, pass, host and port. */
  lemma ParseAuthorityText(p: UrlParts)
    requires WellFormed(p) && p.host.Some?
    ensures ParseAuthority(UserInfoText(p) + HostPortText(p)) ==
            Some(Authority(p.user, p.pass, p.host.value, p.port))
  {
    var hp := HostPortText(p);
    var h := p.host.value;
    TextDelimiters(p);
    UserInfoShape(p);
    HostPortShape(p);
    var a := UserInfoText(p) + hp;
    if p.user.Some? {
      var ui := UserPassText(p);
      assert a == ui + ['@'] + hp;
      SplitLastAt(ui, '@', hp);
      if p.pass.Some? {
        SplitFirstAt(p.user.value, ':', p.pass.value);
      } else {
        SplitFirstAbsent(p.user.value, ':');
      }
    } else {
      assert a == hp;
      SplitLastAbsent(hp, '@');
    }
    if p.port.Some? {
      SplitFirstAt(h, ':', p.port.value);
    } else {
      SplitFirstAbsent(h, ':');
    }
  }

  /** The text before the query. */
  function BeforeQueryText(p: UrlParts): string {
    SchemeText(p) + UserInfoText(p) + HostPortText(p) + PathText(p)
  }

  lemma AppendDelimited(b: string, c: char, q: string)
    ensures b + ([c] + q) == b + [c] + q
  {
  }

  /** Cutting a well-formed record's URL at `#` and then at `?` gives its fragment, its query and the rest. */
  lemma SplitFullUrl(p: UrlParts)
    requires WellFormed(p)
    ensures SplitFirst(FullUrl(p), '#') == (Rebuild(p), p.fragment)
    ensures SplitFirst(Rebuild(p), '?') == (BeforeQueryText(p), p.query)
  {
    SplitFullUrlFragment(p);
    SplitRebuildQuery(p);
  }

  lemma SplitFullUrlFragment(p: UrlParts)
    requires WellFormed(p)
    ensures SplitFirst(FullUrl(p), '#') == (Rebuild(p), p.fragment)
  {
    var r := Rebuild(p);
    TextDelimiters(p);
    if p.fragment.Some? {
      assert FullUrl(p) == r + ['#'] + p.fragment.value;
      SplitFirstAt(r, '#', p.fragment.value);
    } else {
      assert FullUrl(p) == r;
      SplitFirstAbsent(r, '#');
    }
  }

  lemma SplitRebuildQuery(p: UrlParts)
    requires WellFormed(p)
    ensures SplitFirst(Rebuild(p), '?') == (BeforeQueryText(p), p.query)
  {
    var r := Rebuild(p);
    TextDelimiters(p);
    var b := BeforeQueryText(p);
    assert r == b + QueryText(p);
    if p.query.Some? {
      AppendDelimited(b, '?', p.query.value);
      SplitFirstAt(b, '?', p.query.value);
    } else {
      assert r == b;
      SplitFirstAbsent(b, '?');
    }
  }

  /** The scheme of a well-formed absolute record is found again, followed by `//` and the authority. */
  lemma SplitSchemeText(p: UrlParts)
    requires p.scheme.Some? && IsSchemeName(p.scheme.value)
    ensures SplitScheme(BeforeQueryText(p)) == (p.scheme, "//" + (UserInfoText(p) + HostPortText(p) + PathText(p)))
  {
    var sc := p.scheme.value;
    SchemeJoin(sc, UserInfoText(p), HostPortText(p), PathText(p));
    SplitSchemeAt(sc, "//" + (UserInfoText(p) + HostPortText(p) + PathText(p)));
  }

  lemma SchemeJoin(sc: string, u: string, h: string, q: string)
    ensures sc + "://" + u + h + q == sc + [':'] + ("//" + (u + h + q))
  {
  }

  lemma SplitSchemeAt(sc: string, rest: string)
    requires IsSchemeName(sc)
    ensures SplitScheme(sc + [':'] + rest) == (Some(sc), rest)
  {
    var t := sc + [':'] + rest;
    SchemeNameHasNoDelimiter(sc);
    IndexOfAt(sc, ':', rest);
    assert t[..|sc|] == sc;
    assert t[|sc| + 1..] == rest;
  }

  /** The authority and path of a well-formed absolute record parse back to its components. */
  lemma ParseNetworkPathText(p: UrlParts)
    requires WellFormed(p) && p.scheme.Some?
    ensures ParseNetworkPath(p.scheme, UserInfoText(p) + HostPortText(p) + PathText(p), p.query, p.fragment) == Some(p)
  {
    TextDelimiters(p);
    SplitPathAt(UserInfoText(p) + HostPortText(p), PathText(p));
    ParseAuthorityText(p);
  }

  /** The text before the query of a well-formed record parses back to the record. */
  lemma ParseBeforeQueryText(p: UrlParts)
    requires WellFormed(p)
    ensures ParseBeforeQuery(BeforeQueryText(p), p.query, p.fragment) == Some(p)
  {
    if p.scheme.Some? {
      SplitSchemeText(p);
      var rest := "//" + (UserInfoText(p) + HostPortText(p) + PathText(p));
      assert rest[2..] == UserInfoText(p) + HostPortText(p) + PathText(p);
      ParseNetworkPathText(p);
    } else {
      assert BeforeQueryText(p) == PathText(p);
    }
  }

  /** Parsing the URL of a well-formed record gives the record back. */
  lemma ParseFullUrl(p: UrlParts)
    requires WellFormed(p)
    ensures Parse(FullUrl(p)) == Some(p)
  {
    SplitFullUrl(p);
    ParseBeforeQueryText(p);
  }
}
