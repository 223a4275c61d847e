/**
 * `_prepareLimits` (CacheWarmupCommandController.php lines 322-329): the limit string
 * `,,2,5` is cut at commas, each token read as a PHP integer (an empty token as 0),
 * and the list padded with zeros up to the number of seed URLs.
 */
module Limits {
  import opened PhpStrings

  function Max(a: int, b: int): int {
    if a < b then b else a
  }

  /** One token of the limit string: `""` is 0, anything else goes through `(int)`. */
  function TokenLimit(t: string): int {
    if t == "" then 0 else IntValue(t)
  }

  /**
   * `array_replace(array_fill(0, count, 0), $limits)`: entry `i` is the value of token `i`
   * where there is one and 0 after the last token; there are at least as many entries
   * as seeds, and more when the string has more tokens than there are seeds.
   */
  function PrepareLimits(limitsStr: string, count: nat): (r: seq<int>)
    ensures var tokens := Explode(limitsStr, ',');
            |r| == Max(count, |tokens|) &&
            (forall i :: 0 <= i < |tokens| ==> r[i] == TokenLimit(tokens[i])) &&
            (forall i :: |tokens| <= i < |r| ==> r[i] == 0)
  {
    var tokens := Explode(limitsStr, ',');
    var values := seq(|tokens|, i requires 0 <= i < |tokens| => TokenLimit(tokens[i]));
    if count > |values| then values + seq(count - |values|, _ => 0) else values
  }

  /** An empty limit string leaves every seed unlimited. */
  lemma NoLimits(count: nat)
    ensures |PrepareLimits("", count)| == Max(count, 1)
    ensures forall i :: 0 <= i < |PrepareLimits("", count)| ==> PrepareLimits("", count)[i] == 0
  {
    ExplodeNoSeparator("", ',');
  }

  /** `explode` undoes `implode` when no piece holds the separator. */
  lemma {:induction false} ExplodeImplode(parts: seq<string>, sep: char)
    requires |parts| >= 1 && forall k :: 0 <= k < |parts| ==> sep !in parts[k]
    ensures Explode(Implode(parts, sep), sep) == parts
  {
    if |parts| == 1 {
      ExplodeNoSeparator(parts[0], sep);
    } else {
      ExplodeImplode(parts[1..], sep);
      ExplodeAt(parts[0], sep, Implode(parts[1..], sep));
      assert parts == [parts[0]] + parts[1..];
    }
  }

  /** The decimal renderings of a list of limits. */
  function Decimals(ns: seq<nat>): (ds: seq<string>)
    ensures |ds| == |ns| && forall k :: 0 <= k < |ds| ==> ds[k] == Decimal(ns[k])
  {
    seq(|ns|, k requires 0 <= k < |ns| => Decimal(ns[k]))
  }

  /** Limits written out as `n1,n2,...` are read back one per seed, in order. */
  lemma PrepareDecimalLimits(ns: seq<nat>, count: nat)
    requires |ns| >= 1
    ensures var r := PrepareLimits(Implode(Decimals(ns), ','), count);
            |r| == Max(count, |ns|) && forall i :: 0 <= i < |ns| ==> r[i] == ns[i]
  {
    var ds := Decimals(ns);
    forall k | 0 <= k < |ds|
      ensures ',' !in ds[k]
    {
      assert AllDigits(ds[k]);
    }
    ExplodeImplode(ds, ',');
    forall i | 0 <= i < |ns|
      ensures TokenLimit(ds[i]) == ns[i]
    {
      IntValueDecimal(ns[i]);
    }
  }
}
