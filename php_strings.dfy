/**
 * The PHP string built-ins the controller relies on, written out over `seq<char>`:
 * `strpos` (first and last occurrence of a character), `strpos(...) === 0` as a prefix
 * test, `explode`/`implode` on a one-character separator, `rtrim`/`ltrim` of one
 * character, `trim` of the default whitespace set, `empty()` on a string and the
 * `(int)` cast of a string.
 */
module PhpStrings {
  import opened Wrappers

  /** Index of the first `c` in `s` (PHP `strpos` with a one-character needle). */
  function IndexOf(s: string, c: char): (r: Option<nat>)
    ensures r.None? <==> c !in s
    ensures r.Some? ==> r.value < |s| && s[r.value] == c && c !in s[..r.value]
  {
    if |s| == 0 then None
    else if s[0] == c then Some(0)
    else
      match IndexOf(s[1..], c)
      case None => None
      case Some(k) =>
        assert s[..k + 1] == [s[0]] + s[1..][..k];
        Some(k + 1)
  }

  /** Index of the last `c` in `s` (PHP `strrpos` with a one-character needle). */
  function LastIndexOf(s: string, c: char): (r: Option<nat>)
    ensures r.None? <==> c !in s
    ensures r.Some? ==> r.value < |s| && s[r.value] == c && c !in s[r.value + 1..]
  {
    if |s| == 0 then None
    else if s[|s| - 1] == c then Some(|s| - 1)
    else
      var init := s[..|s| - 1];
      match LastIndexOf(init, c)
      case None => None
      case Some(k) =>
        assert s[k + 1..] == init[k + 1..] + [s[|s| - 1]];
        Some(k)
  }

  /** `s` cut at its first `c`: the part before it, and the part after it if there is a `c`. */
  function SplitFirst(s: string, c: char): (r: (string, Option<string>))
    ensures c !in r.0
    ensures r.1.None? ==> r.0 == s
    ensures r.1.Some? ==> s == r.0 + [c] + r.1.value
  {
    match IndexOf(s, c)
    case None => (s, None)
    case Some(i) =>
      assert s == s[..i] + [c] + s[i + 1..];
      (s[..i], Some(s[i + 1..]))
  }

  /** `s` cut at its last `c`: the part before it if there is a `c`, and the part after it. */
  function SplitLast(s: string, c: char): (r: (Option<string>, string))
    ensures c !in r.1
    ensures r.0.None? ==> r.1 == s
    ensures r.0.Some? ==> s == r.0.value + [c] + r.1
  {
    match LastIndexOf(s, c)
    case None => (None, s)
    case Some(i) =>
      assert s == s[..i] + [c] + s[i + 1..];
      (Some(s[..i]), s[i + 1..])
  }

  lemma SplitFirstAt(a: string, c: char, b: string)
    requires c !in a
    ensures SplitFirst(a + [c] + b, c) == (a, Some(b))
  {
    var s := a + [c] + b;
    IndexOfAt(a, c, b);
    var i := IndexOf(s, c).value;
    assert s[..i] == a;
    assert s[i + 1..] == b;
  }

  lemma IndexOfAt(a: string, c: char, b: string)
    requires c !in a
    ensures IndexOf(a + [c] + b, c) == Some(|a|)
  {
    var s := a + [c] + b;
    var i := IndexOf(s, c).value;
    assert s[|a|] == c;
    if i < |a| {
      assert false;
    }
    if i > |a| {
      assert false;
    }
    assert s[..i] == a;
    assert s[i + 1..] == b;
  }

  lemma SplitFirstAbsent(a: string, c: char)
    requires c !in a
    ensures SplitFirst(a, c) == (a, None)
  {
  }

  lemma SplitLastAt(a: string, c: char, b: string)
    requires c !in b
    ensures SplitLast(a + [c] + b, c) == (Some(a), b)
  {
    var s := a + [c] + b;
    var i := LastIndexOf(s, c).value;
    assert s[|a|] == c;
    if i < |a| {
      assert false;
    }
    if i > |a| {
      assert false;
    }
    assert s[..i] == a;
    assert s[i + 1..] == b;
  }

  lemma SplitLastAbsent(a: string, c: char)
    requires c !in a
    ensures SplitLast(a, c) == (None, a)
  {
  }

  /** PHP `strpos($s, $prefix) === 0`: `$prefix` occurs at the start of `$s`. */
  predicate StartsWith(s: string, prefix: string) {
    |prefix| <= |s| && s[..|prefix|] == prefix
  }

  predicate EndsWith(s: string, suffix: string) {
    |suffix| <= |s| && s[|s| - |suffix|..] == suffix
  }

  lemma EndsWithPrepend(x: string, s: string, suffix: string)
    requires EndsWith(s, suffix)
    ensures EndsWith(x + s, suffix)
  {
    assert (x + s)[|x + s| - |suffix|..] == s[|s| - |suffix|..];
  }

  /** PHP `empty()` on a string: true for `""` and for `"0"`. */
  predicate PhpEmpty(s: string) {
    s == "" || s == "0"
  }

  /** PHP `explode($sep, $s)` for a one-character separator; never returns an empty list. */
  function Explode(s: string, sep: char): (parts: seq<string>)
    ensures |parts| >= 1
    ensures forall k :: 0 <= k < |parts| ==> sep !in parts[k]
    decreases |s|
  {
    match IndexOf(s, sep)
    case None => [s]
    case Some(i) => [s[..i]] + Explode(s[i + 1..], sep)
  }

  /** PHP `implode($sep, $parts)` for a one-character separator. */
  function Implode(parts: seq<string>, sep: char): string {
    if |parts| == 0 then ""
    else if |parts| == 1 then parts[0]
    else parts[0] + [sep] + Implode(parts[1..], sep)
  }

  /** Number of occurrences of `c` in `s`. */
  function CountChar(s: string, c: char): nat {
    if |s| == 0 then 0 else (if s[0] == c then 1 else 0) + CountChar(s[1..], c)
  }

  lemma CountCharSplit(a: string, b: string, c: char)
    ensures CountChar(a + b, c) == CountChar(a, c) + CountChar(b, c)
  {
    if |a| > 0 {
      assert (a + b)[1..] == a[1..] + b;
      CountCharSplit(a[1..], b, c);
    } else {
      assert a + b == b;
    }
  }

  lemma CountCharAbsent(s: string, c: char)
    requires c !in s
    ensures CountChar(s, c) == 0
  {
    if |s| > 0 {
      assert c !in s[1..];
      CountCharAbsent(s[1..], c);
    }
  }

  /** Joining the pieces of `explode` with the same separator gives back the string. */
  lemma {:induction false} ImplodeExplode(s: string, sep: char)
    ensures Implode(Explode(s, sep), sep) == s
    decreases |s|
  {
    var (head, tail) := SplitFirst(s, sep);
    if tail.Some? {
      var rest := tail.value;
      ExplodeAt(head, sep, rest);
      ImplodeExplode(rest, sep);
      var parts := Explode(s, sep);
      assert parts[1..] == Explode(rest, sep);
    }
  }

  /** `explode` yields one piece more than there are separators. */
  lemma {:induction false} ExplodeLength(s: string, sep: char)
    ensures |Explode(s, sep)| == CountChar(s, sep) + 1
    decreases |s|
  {
    match IndexOf(s, sep)
    case None =>
      CountCharAbsent(s, sep);
    case Some(i) =>
      var rest := s[i + 1..];
      ExplodeLength(rest, sep);
      assert s == s[..i] + ([sep] + rest);
      CountCharSplit(s[..i], [sep] + rest, sep);
      CountCharAbsent(s[..i], sep);
      assert ([sep] + rest)[1..] == rest;
  }

  /** `explode` of a string that holds no separator is that string alone. */
  lemma ExplodeNoSeparator(s: string, sep: char)
    requires sep !in s
    ensures Explode(s, sep) == [s]
  {
  }

  /** `explode` of `a` + separator + `b`, when `a` holds no separator. */
  lemma ExplodeAt(a: string, sep: char, b: string)
    requires sep !in a
    ensures Explode(a + [sep] + b, sep) == [a] + Explode(b, sep)
  {
    SplitFirstAt(a, sep, b);
  }

  /** The only position of a `c` with no `c` after it is the one `LastIndexOf` finds. */
  lemma LastIndexOfUnique(s: string, c: char, k: nat)
    requires k < |s| && s[k] == c && c !in s[k + 1..]
    ensures LastIndexOf(s, c) == Some(k)
  {
  }

  /** What `explode`, dropping the last piece and `implode` leave of `s`: the text before its last separator. */
  function BeforeLast(s: string, sep: char): string {
    match LastIndexOf(s, sep)
    case None => ""
    case Some(i) => s[..i]
  }

  /** Dropping the last piece of `explode` and joining again leaves what precedes the last separator. */
  lemma {:induction false} ImplodeDropLast(s: string, sep: char)
    ensures var parts := Explode(s, sep); Implode(parts[..|parts| - 1], sep) == BeforeLast(s, sep)
    decreases |s|
  {
    var (head, tail) := SplitFirst(s, sep);
    if tail.Some? {
      var rest := tail.value;
      ImplodeDropLast(rest, sep);
      if sep in rest {
        ImplodeDropLastStep(head, sep, rest);
      } else {
        ImplodeDropLastFinal(head, sep, rest);
      }
    } else {
      ExplodeNoSeparator(s, sep);
      assert LastIndexOf(s, sep).None?;
    }
  }

  lemma ImplodeDropLastFinal(head: string, sep: char, rest: string)
    requires sep !in head && sep !in rest
    ensures var parts := Explode(head + [sep] + rest, sep);
            Implode(parts[..|parts| - 1], sep) == BeforeLast(head + [sep] + rest, sep)
  {
    var s := head + [sep] + rest;
    ExplodeAt(head, sep, rest);
    ExplodeNoSeparator(rest, sep);
    assert s[|head| + 1..] == rest;
    LastIndexOfUnique(s, sep, |head|);
    assert s[..|head|] == head;
  }

  lemma ImplodeDropLastStep(head: string, sep: char, rest: string)
    requires sep !in head && sep in rest
    requires var q := Explode(rest, sep); Implode(q[..|q| - 1], sep) == BeforeLast(rest, sep)
    ensures var parts := Explode(head + [sep] + rest, sep);
            Implode(parts[..|parts| - 1], sep) == BeforeLast(head + [sep] + rest, sep)
  {
    ExplodeAt(head, sep, rest);
    var q := Explode(rest, sep);
    ExplodeSeveral(rest, sep);
    var front := q[..|q| - 1];
    DropLastCons(head, q);
    ImplodeCons(head, front, sep);
    BeforeLastShift(head, sep, rest);
  }

  /** A string holding a separator explodes into at least two pieces. */
  lemma ExplodeSeveral(s: string, sep: char)
    requires sep in s
    ensures |Explode(s, sep)| > 1
  {
    ExplodeLength(s, sep);
    CountCharPresent(s, sep);
  }

  lemma DropLastCons(a: string, q: seq<string>)
    requires |q| >= 1
    ensures ([a] + q)[..|q|] == [a] + q[..|q| - 1]
  {
  }

  lemma ImplodeCons(a: string, t: seq<string>, sep: char)
    requires |t| >= 1
    ensures Implode([a] + t, sep) == a + [sep] + Implode(t, sep)
  {
    assert ([a] + t)[1..] == t;
  }

  lemma BeforeLastShift(head: string, sep: char, rest: string)
    requires sep in rest
    ensures BeforeLast(head + [sep] + rest, sep) == head + [sep] + BeforeLast(rest, sep)
  {
    var s := head + [sep] + rest;
    var j := LastIndexOf(rest, sep).value;
    assert s[|head| + 1 + j + 1..] == rest[j + 1..];
    LastIndexOfUnique(s, sep, |head| + 1 + j);
    assert s[..|head| + 1 + j] == head + [sep] + rest[..j];
  }

  lemma CountCharPresent(s: string, c: char)
    requires c in s
    ensures CountChar(s, c) > 0
  {
    if s[0] != c {
      assert c in s[1..];
      CountCharPresent(s[1..], c);
    }
  }

  /** PHP `rtrim($s, $c)` for one character: every trailing `c` is removed. */
  function RTrim(s: string, c: char): (r: string)
    ensures StartsWith(s, r)
    ensures |r| > 0 ==> r[|r| - 1] != c
    ensures forall k :: |r| <= k < |s| ==> s[k] == c
  {
    if |s| > 0 && s[|s| - 1] == c then RTrim(s[..|s| - 1], c) else s
  }

  /** PHP `ltrim($s, $c)` for one character: every leading `c` is removed. */
  function LTrim(s: string, c: char): (r: string)
    ensures |r| <= |s| && r == s[|s| - |r|..]
    ensures |r| > 0 ==> r[0] != c
    ensures forall k :: 0 <= k < |s| - |r| ==> s[k] == c
  {
    if |s| > 0 && s[0] == c then LTrim(s[1..], c) else s
  }

  /** The characters PHP `trim()` strips by default: space, tab, newline, carriage return, NUL, vertical tab. */
  predicate IsTrimmed(c: char) {
    c == ' ' || c == '\t' || c == '\n' || c == '\r' || c == '\0' || c == '\U{B}'
  }

  function TrimStart(s: string): (r: string)
    ensures |r| <= |s| && r == s[|s| - |r|..]
    ensures |r| > 0 ==> !IsTrimmed(r[0])
    ensures forall k :: 0 <= k < |s| - |r| ==> IsTrimmed(s[k])
  {
    if |s| > 0 && IsTrimmed(s[0]) then TrimStart(s[1..]) else s
  }

  function TrimEnd(s: string): (r: string)
    ensures StartsWith(s, r)
    ensures |r| > 0 ==> !IsTrimmed(r[|r| - 1])
    ensures forall k :: |r| <= k < |s| ==> IsTrimmed(s[k])
  {
    if |s| > 0 && IsTrimmed(s[|s| - 1]) then TrimEnd(s[..|s| - 1]) else s
  }

  /**
   * PHP `trim($s)`: the middle part of `s` left once the default whitespace is removed
   * at both ends; only default whitespace is removed.
   */
  function Trim(s: string): (r: string)
    ensures |r| <= |s|
    ensures |r| > 0 ==> !IsTrimmed(r[0]) && !IsTrimmed(r[|r| - 1])
    ensures TrimmedMiddle(s, r)
  {
    TrimIsMiddle(s);
    TrimEnd(TrimStart(s))
  }

  /** `r` is `s[a..b]` for some `a <= b` with only default whitespace before `a` and from `b` on. */
  predicate TrimmedMiddle(s: string, r: string) {
    exists a, b :: 0 <= a <= b <= |s| && r == s[a..b] &&
                   (forall k :: 0 <= k < a ==> IsTrimmed(s[k])) &&
                   (forall k :: b <= k < |s| ==> IsTrimmed(s[k]))
  }

  lemma TrimIsMiddle(s: string)
    ensures TrimmedMiddle(s, TrimEnd(TrimStart(s)))
  {
    var t := TrimStart(s);
    var a := |s| - |t|;
    var r := TrimEnd(t);
    SliceOfSuffix(s, a, r);
    ShiftTrimmed(s, a, |r|);
    assert 0 <= a <= a + |r| <= |s| && r == s[a..a + |r|];
  }

  lemma SliceOfSuffix(s: string, a: nat, r: string)
    requires a <= |s| && StartsWith(s[a..], r)
    ensures a + |r| <= |s| && r == s[a..a + |r|]
  {
    assert s[a..][..|r|] == s[a..a + |r|];
  }

  lemma ShiftTrimmed(s: string, a: nat, m: nat)
    requires a <= |s|
    requires forall k :: m <= k < |s| - a ==> IsTrimmed(s[a..][k])
    ensures forall k :: a + m <= k < |s| ==> IsTrimmed(s[k])
  {
    forall k | a + m <= k < |s|
      ensures IsTrimmed(s[k])
    {
      assert s[a..][k - a] == s[k];
    }
  }

  /**
   * `trim` returns exactly the text between whitespace padding: a middle part whose
   * ends are not whitespace, surrounded by whitespace, trims to that middle part.
   */
  lemma {:induction false} TrimPadded(lead: string, m: string, trail: string)
    requires forall k :: 0 <= k < |lead| ==> IsTrimmed(lead[k])
    requires forall k :: 0 <= k < |trail| ==> IsTrimmed(trail[k])
    requires |m| > 0 ==> !IsTrimmed(m[0]) && !IsTrimmed(m[|m| - 1])
    ensures Trim(lead + m + trail) == m
  {
    if |m| == 0 {
      assert lead + m + trail == (lead + trail) + "";
      TrimStartPadded(lead + trail, "");
      assert TrimEnd("") == "";
    } else {
      TrimStartPadded(lead, m + trail);
      assert lead + m + trail == lead + (m + trail);
      TrimEndPadded(m, trail);
    }
  }

  lemma {:induction false} TrimStartPadded(lead: string, rest: string)
    requires forall k :: 0 <= k < |lead| ==> IsTrimmed(lead[k])
    requires |rest| > 0 ==> !IsTrimmed(rest[0])
    ensures TrimStart(lead + rest) == rest
    decreases |lead|
  {
    if |lead| > 0 {
      assert (lead + rest)[1..] == lead[1..] + rest;
      TrimStartPadded(lead[1..], rest);
    }
  }

  lemma {:induction false} TrimEndPadded(m: string, trail: string)
    requires forall k :: 0 <= k < |trail| ==> IsTrimmed(trail[k])
    requires |m| > 0 ==> !IsTrimmed(m[|m| - 1])
    ensures TrimEnd(m + trail) == m
    decreases |trail|
  {
    if |trail| > 0 {
      var n := |trail| - 1;
      assert (m + trail)[..|m + trail| - 1] == m + trail[..n];
      TrimEndPadded(m, trail[..n]);
    } else {
      assert m + trail == m;
    }
  }

  predicate IsDigit(c: char) {
    '0' <= c <= '9'
  }

  predicate AllDigits(s: string) {
    forall k :: 0 <= k < |s| ==> IsDigit(s[k])
  }

  /** The longest prefix of `s` made of decimal digits. */
  function DigitPrefix(s: string): (r: string)
    ensures StartsWith(s, r) && AllDigits(r)
    ensures |r| < |s| ==> !IsDigit(s[|r|])
  {
    if |s| > 0 && IsDigit(s[0]) then [s[0]] + DigitPrefix(s[1..]) else ""
  }

  /** The value of a string of decimal digits. */
  function DigitsValue(d: string): nat
    requires AllDigits(d)
  {
    if |d| == 0 then 0 else DigitsValue(d[..|d| - 1]) * 10 + (d[|d| - 1] as int - '0' as int)
  }

  /** The whitespace PHP's integer conversion skips before the number. */
  predicate IsLeadingSpace(c: char) {
    c == ' ' || c == '\t' || c == '\n' || c == '\r' || c == '\U{B}' || c == '\U{C}'
  }

  function SkipLeadingSpace(s: string): (r: string)
    ensures |r| <= |s| && r == s[|s| - |r|..]
    ensures |r| > 0 ==> !IsLeadingSpace(r[0])
  {
    if |s| > 0 && IsLeadingSpace(s[0]) then SkipLeadingSpace(s[1..]) else s
  }

  /**
   * PHP `(int) $s` for a string: leading whitespace, an optional sign, then the
   * longest run of digits; a string without leading digits converts to 0.
   */
  function IntValue(s: string): int {
    SignedValue(SkipLeadingSpace(s))
  }

  /** An optional sign followed by the value of the leading digits. */
  function SignedValue(t: string): int {
    if |t| > 0 && t[0] == '-' then -(DigitsValue(DigitPrefix(t[1..])) as int)
    else if |t| > 0 && t[0] == '+' then DigitsValue(DigitPrefix(t[1..]))
    else DigitsValue(DigitPrefix(t))
  }

  /** The decimal rendering of a natural number, as PHP writes an integer. */
  function Decimal(n: nat): (r: string)
    ensures |r| > 0 && AllDigits(r)
    ensures |r| > 1 ==> r[0] != '0'
  {
    if n < 10 then [('0' as int + n) as char]
    else Decimal(n / 10) + [('0' as int + n % 10) as char]
  }

  /** Reading back the decimal rendering of `n` with `(int)` gives `n`. */
  lemma IntValueDecimal(n: nat)
    ensures IntValue(Decimal(n)) == n
  {
    DecimalHasNoLeadingSpace(n);
    DecimalIsUnsigned(n);
    DigitPrefixAll(Decimal(n));
    DigitsValueDecimal(n);
  }

  lemma DecimalHasNoLeadingSpace(n: nat)
    ensures SkipLeadingSpace(Decimal(n)) == Decimal(n)
  {
    assert IsDigit(Decimal(n)[0]);
  }

  lemma DecimalIsUnsigned(n: nat)
    ensures SignedValue(Decimal(n)) == DigitsValue(DigitPrefix(Decimal(n)))
  {
    assert IsDigit(Decimal(n)[0]);
  }

  lemma {:induction false} DigitPrefixAll(d: string)
    requires AllDigits(d)
    ensures DigitPrefix(d) == d
    decreases |d|
  {
    if |d| > 0 {
      DigitPrefixAll(d[1..]);
      assert d == [d[0]] + d[1..];
    }
  }

  lemma {:induction false} DigitsValueDecimal(n: nat)
    ensures DigitsValue(Decimal(n)) == n
  {
    if n >= 10 {
      DigitsValueDecimal(n / 10);
      var d := Decimal(n);
      assert d[..|d| - 1] == Decimal(n / 10);
    }
  }
}
