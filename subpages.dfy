/**
 * The link expansion of the controller: `addSubpageToMatchingLinks` (lines 502-513)
 * appends `link . subpage` for every original link a pattern matches, and
 * `addSubpages` (lines 520-529) does so once per entry of the preset's `addUrls`
 * map, in the map's order, each time over the list the previous entry produced.
 */
module Subpages {
  import opened PhpStrings
  import opened LinkFilter

  /** One `addUrls` entry: the subpage (the map key) and the pattern (its value). */
  datatype Expansion = Expansion(subpage: string, pattern: string)

  /** The links `addSubpageToMatchingLinks` appends: each matching link with the subpage after it, in order. */
  function Suffixed(links: seq<string>, pattern: string, subpage: string, matches: Matcher): (r: seq<string>)
    ensures |r| <= |links|
    ensures forall x :: x in r ==> exists l :: l in links && matches(pattern, l) && x == l + subpage
    ensures forall l :: l in links && matches(pattern, l) ==> l + subpage in r
  {
    if links == [] then []
    else
      var init := links[..|links| - 1];
      var last := links[|links| - 1];
      var prev := Suffixed(init, pattern, subpage, matches);
      assert forall l :: l in links ==> l in init || l == last;
      prev + (if matches(pattern, last) then [last + subpage] else [])
  }

  /** One more link appends its suffixed form when it matches. */
  lemma SuffixedStep(links: seq<string>, i: nat, pattern: string, subpage: string, matches: Matcher)
    requires i < |links|
    ensures Suffixed(links[..i + 1], pattern, subpage, matches) ==
            Suffixed(links[..i], pattern, subpage, matches) + (if matches(pattern, links[i]) then [links[i] + subpage] else [])
  {
    assert links[..i + 1][..i] == links[..i];
  }

  /** `addSubpages`: the expansions applied one after another, in order. */
  function ExpandAll(settings: seq<Expansion>, urls: seq<string>, matches: Matcher): (r: seq<string>)
    ensures urls <= r
    decreases |settings|
  {
    if settings == [] then urls
    else ExpandAll(settings[1..], urls + Suffixed(urls, settings[0].pattern, settings[0].subpage, matches), matches)
  }

  /** Every link expansion produces extends a link it was given. */
  lemma {:induction false} ExpandAllExtends(settings: seq<Expansion>, urls: seq<string>, matches: Matcher)
    ensures forall x :: x in ExpandAll(settings, urls, matches) ==> exists u :: u in urls && StartsWith(x, u)
    decreases |settings|
  {
    if settings != [] {
      var e := settings[0];
      var next := urls + Suffixed(urls, e.pattern, e.subpage, matches);
      ExpandAllExtends(settings[1..], next, matches);
      forall y | y in next
        ensures exists u :: u in urls && StartsWith(y, u)
      {
        if y in urls {
          assert StartsWith(y, y);
        } else {
          var l :| l in urls && matches(e.pattern, l) && y == l + e.subpage;
          assert StartsWith(y, l);
        }
      }
      forall x | x in ExpandAll(settings, urls, matches)
        ensures exists u :: u in urls && StartsWith(x, u)
      {
        var v :| v in next && StartsWith(x, v);
        var u :| u in urls && StartsWith(v, u);
        assert x[..|u|] == v[..|v|][..|u|];
      }
    } else {
      forall x | x in urls
        ensures StartsWith(x, x)
      {
      }
    }
  }

  /** Without expansions, nothing is added. */
  lemma ExpandNothing(urls: seq<string>, matches: Matcher)
    ensures ExpandAll([], urls, matches) == urls
  {
  }
}
