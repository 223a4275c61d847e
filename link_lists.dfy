/**
 * The two list operations the controller applies to collected links:
 * `array_values(array_unique(...))`, which keeps the first occurrence of each link
 * in order (`Dedup`), and the limit test `!$limit || $limit > $id`, which keeps the
 * entries whose position passes it (`Limited`).
 */
module LinkLists {

  predicate NoDuplicates(s: seq<string>) {
    forall i, j :: 0 <= i < j < |s| ==> s[i] != s[j]
  }

  /** `array_values(array_unique($s))`: each element once, at the place it first occurs. */
  function Dedup(s: seq<string>): (r: seq<string>)
    ensures forall x :: x in r <==> x in s
    ensures NoDuplicates(r)
    ensures |r| <= |s|
  {
    if s == [] then []
    else
      var d := Dedup(s[..|s| - 1]);
      if s[|s| - 1] in d then d else d + [s[|s| - 1]]
  }

  /** The position of the first occurrence of `x` in `s`. */
  function FirstIndex(s: seq<string>, x: string): (k: nat)
    requires x in s
    ensures k < |s| && s[k] == x && x !in s[..k]
  {
    if s[0] == x then 0
    else
      var k := FirstIndex(s[1..], x);
      assert s[1..][..k] == s[1..k + 1];
      k + 1
  }

  lemma FirstIndexOfPrefix(s: seq<string>, x: string)
    requires |s| > 0 && x in s[..|s| - 1]
    ensures FirstIndex(s, x) == FirstIndex(s[..|s| - 1], x)
  {
    var k := FirstIndex(s[..|s| - 1], x);
    var m := FirstIndex(s, x);
  }

  lemma FirstIndexOfLast(s: seq<string>)
    requires |s| > 0 && s[|s| - 1] !in s[..|s| - 1]
    ensures FirstIndex(s, s[|s| - 1]) == |s| - 1
  {
    var m := FirstIndex(s, s[|s| - 1]);
  }

  /** The elements of `Dedup(s)` stand in the order of their first occurrences in `s`. */
  lemma {:induction false} DedupOrdered(s: seq<string>)
    ensures forall i, j :: 0 <= i < j < |Dedup(s)| ==> FirstIndex(s, Dedup(s)[i]) < FirstIndex(s, Dedup(s)[j])
  {
    if s != [] {
      var init := s[..|s| - 1];
      var last := s[|s| - 1];
      var d := Dedup(init);
      DedupOrdered(init);
      forall x | x in d
        ensures FirstIndex(s, x) == FirstIndex(init, x) < |s| - 1
      {
        FirstIndexOfPrefix(s, x);
      }
      if last !in d {
        FirstIndexOfLast(s);
        assert Dedup(s) == d + [last];
        forall i, j | 0 <= i < j < |Dedup(s)|
          ensures FirstIndex(s, Dedup(s)[i]) < FirstIndex(s, Dedup(s)[j])
        {
          assert Dedup(s)[i] == d[i];
          if j < |d| {
            assert Dedup(s)[j] == d[j];
          }
        }
      }
    }
  }

  /** A list without duplicates is left as it is. */
  lemma {:induction false} DedupOfNoDuplicates(s: seq<string>)
    requires NoDuplicates(s)
    ensures Dedup(s) == s
  {
    if s != [] {
      var init := s[..|s| - 1];
      assert NoDuplicates(init);
      DedupOfNoDuplicates(init);
      assert s[|s| - 1] !in init;
      assert s == init + [s[|s| - 1]];
    }
  }

  lemma DedupIdempotent(s: seq<string>)
    ensures Dedup(Dedup(s)) == Dedup(s)
  {
    DedupOfNoDuplicates(Dedup(s));
  }

  /** Appending links never reorders or removes the links already deduplicated. */
  lemma {:induction false} DedupPrefix(a: seq<string>, b: seq<string>)
    ensures Dedup(a) <= Dedup(a + b)
  {
    if b != [] {
      var b' := b[..|b| - 1];
      DedupPrefix(a, b');
      assert (a + b)[..|a + b| - 1] == a + b';
    } else {
      assert a + b == a;
    }
  }

  /** One more element is added at the end unless it is already there. */
  lemma DedupSnoc(s: seq<string>, x: string)
    ensures Dedup(s + [x]) == if x in Dedup(s) then Dedup(s) else Dedup(s) + [x]
  {
    assert (s + [x])[..|s|] == s;
  }

  lemma AppendSplitLast(a: seq<string>, b: seq<string>)
    requires b != []
    ensures a + b == (a + b[..|b| - 1]) + [b[|b| - 1]]
  {
    assert b == b[..|b| - 1] + [b[|b| - 1]];
  }

  /** Deduplicating before appending and again afterwards is deduplicating once. */
  lemma {:induction false} DedupAppend(a: seq<string>, b: seq<string>)
    ensures Dedup(Dedup(a) + b) == Dedup(a + b)
  {
    if b == [] {
      assert Dedup(a) + b == Dedup(a);
      assert a + b == a;
      DedupIdempotent(a);
    } else {
      var b' := b[..|b| - 1];
      var x := b[|b| - 1];
      DedupAppend(a, b');
      AppendSplitLast(Dedup(a), b);
      AppendSplitLast(a, b);
      DedupSnoc(Dedup(a) + b', x);
      DedupSnoc(a + b', x);
    }
  }

  /** The limit test of `extractLinks` (`$id` the position) and of `extractLinksFromSitemap` (`$no`). */
  predicate Kept(limit: int, id: nat) {
    limit == 0 || limit > id
  }

  /** How many entries pass the limit test: all for 0, none for a negative limit, at most `limit` otherwise. */
  function LimitCount(limit: int, n: nat): (k: nat)
    ensures k <= n
  {
    if limit == 0 then n else if limit < 0 then 0 else if limit < n then limit else n
  }

  /**
   * The entries of `u` whose position passes the limit test. Since the test fails from
   * some position on, they form a prefix: all of `u` for limit 0, nothing for a
   * negative limit, and the first `limit` entries otherwise.
   */
  function Limited(u: seq<string>, limit: int): (r: seq<string>)
    ensures r == u[..LimitCount(limit, |u|)]
  {
    if u == [] then []
    else
      var prev := Limited(u[..|u| - 1], limit);
      if Kept(limit, |u| - 1) then prev + [u[|u| - 1]] else prev
  }

  /** Position `id` extends the limited prefix exactly when it passes the limit test. */
  lemma LimitCountStep(u: seq<string>, limit: int, id: nat)
    requires id < |u|
    ensures u[..LimitCount(limit, id + 1)] == u[..LimitCount(limit, id)] + (if Kept(limit, id) then [u[id]] else [])
  {
  }

  /** A limited block of a list without duplicates has none either. */
  lemma LimitedNoDuplicates(u: seq<string>, limit: int)
    requires NoDuplicates(u)
    ensures NoDuplicates(Limited(u, limit))
  {
    var r := Limited(u, limit);
    assert forall i :: 0 <= i < |r| ==> r[i] == u[i];
  }
}
