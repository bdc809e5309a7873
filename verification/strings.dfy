/** Python string primitives the query generator relies on: `str.isspace`,
    `str.strip()`, `sep.join(xs)`, concatenation of a list of strings, and the
    code-point ordering used by `sorted()` and `<` on `str`. */
module Strings {

  /** Python's `str.isspace()` for one character: the characters of Unicode
      category Zs or bidirectional class WS, B or S. */
  predicate IsSpace(c: char) {
    || ('\t' <= c <= '\r')
    || ('\U{1C}' <= c <= '\U{1F}')
    || c == ' '
    || c == '\U{85}'
    || c == '\U{A0}'
    || c == '\U{1680}'
    || ('\U{2000}' <= c <= '\U{200A}')
    || c == '\U{2028}'
    || c == '\U{2029}'
    || c == '\U{202F}'
    || c == '\U{205F}'
    || c == '\U{3000}'
  }

  predicate AllSpace(s: string) {
    forall k :: 0 <= k < |s| ==> IsSpace(s[k])
  }

  /** A string with no whitespace at either end: what `strip()` returns. */
  predicate IsStripped(s: string) {
    s == [] || (!IsSpace(s[0]) && !IsSpace(s[|s| - 1]))
  }

  /** Index of the first non-whitespace character at or after `i`, or `|s|`. */
  function ContentStart(s: string, i: nat): (r: nat)
    requires i <= |s|
    ensures i <= r <= |s|
    ensures forall k :: i <= k < r ==> IsSpace(s[k])
    ensures r == |s| || !IsSpace(s[r])
    decreases |s| - i
  {
    if i < |s| && IsSpace(s[i]) then ContentStart(s, i + 1) else i
  }

  /** One past the last non-whitespace character before `j`, or 0. */
  function ContentEnd(s: string, j: nat): (r: nat)
    requires j <= |s|
    ensures r <= j
    ensures forall k :: r <= k < j ==> IsSpace(s[k])
    ensures r == 0 || !IsSpace(s[r - 1])
  {
    if j > 0 && IsSpace(s[j - 1]) then ContentEnd(s, j - 1) else j
  }

  /** `s.lstrip()`: drops the longest all-whitespace prefix. */
  function TrimStart(s: string): string {
    s[ContentStart(s, 0)..]
  }

  /** `s.rstrip()`: drops the longest all-whitespace suffix. */
  function TrimEnd(s: string): string {
    s[..ContentEnd(s, |s|)]
  }

  /** `s.strip()`: whitespace removed from both ends, nothing else touched. */
  function Strip(s: string): (r: string)
    ensures IsStripped(r)
    ensures r == [] <==> AllSpace(s)
  {
    var i := ContentStart(s, 0);
    var t := s[i..];
    assert i < |s| ==> t[0] == s[i];
    TrimEnd(t)
  }

  lemma SpaceBefore(s: string, i: nat)
    requires i <= |s| && AllSpace(s[..i])
    ensures forall k :: 0 <= k < i ==> IsSpace(s[k])
  {
    forall k | 0 <= k < i ensures IsSpace(s[k]) {
      assert s[..i][k] == s[k];
    }
  }

  lemma SpaceAfter(s: string, j: nat)
    requires j <= |s| && AllSpace(s[j..])
    ensures forall k :: j <= k < |s| ==> IsSpace(s[k])
  {
    forall k | j <= k < |s| ensures IsSpace(s[k]) {
      assert s[j..][k - j] == s[k];
    }
  }

  /** The part `strip()` keeps is a slice of `s` with only whitespace around it. */
  lemma StripBounds(s: string) returns (i: nat, j: nat)
    ensures i <= j <= |s|
    ensures Strip(s) == s[i..j]
    ensures AllSpace(s[..i]) && AllSpace(s[j..])
  {
    i := ContentStart(s, 0);
    var t := s[i..];
    var e := ContentEnd(t, |t|);
    j := i + e;
    assert t[..e] == s[i..j];
    forall k | 0 <= k < |s[j..]| ensures IsSpace(s[j..][k]) {
      assert s[j..][k] == t[e + k];
    }
  }

  /** `strip()` is determined by any decomposition "whitespace, stripped core,
      whitespace": the core is exactly what it returns. */
  lemma StripCharacterization(s: string, i: nat, j: nat)
    requires i <= j <= |s|
    requires AllSpace(s[..i]) && AllSpace(s[j..])
    requires IsStripped(s[i..j])
    ensures Strip(s) == s[i..j]
  {
    if i == j {
      AllSpaceAround(s, i);
    } else {
      assert s[i] == s[i..j][0] && s[j - 1] == s[i..j][j - i - 1];
      StripSlice(s, i, j);
    }
  }

  lemma StripSlice(s: string, i: nat, j: nat)
    requires i < j <= |s|
    requires AllSpace(s[..i]) && !IsSpace(s[i])
    requires AllSpace(s[j..]) && !IsSpace(s[j - 1])
    ensures Strip(s) == s[i..j]
  {
    SpaceBefore(s, i);
    SpaceAfter(s, j);
    assert ContentStart(s, 0) == i;
    var t := s[i..];
    var e := ContentEnd(t, |t|);
    assert e == j - i by {
      forall k | j - i <= k < |t| ensures IsSpace(t[k]) {
        assert t[k] == s[i + k];
      }
      assert t[j - i - 1] == s[j - 1];
    }
    assert t[..e] == s[i..j];
  }

  /** Whitespace up to `i` and from `i` on: all of `s` is whitespace. */
  lemma AllSpaceAround(s: string, i: nat)
    requires i <= |s| && AllSpace(s[..i]) && AllSpace(s[i..])
    ensures AllSpace(s)
  {
    SpaceBefore(s, i);
    SpaceAfter(s, i);
  }

  lemma AllSpaceAppend(a: string, b: string)
    requires AllSpace(a) && AllSpace(b)
    ensures AllSpace(a + b)
  {
    forall k | 0 <= k < |a + b| ensures IsSpace((a + b)[k]) {
      if k >= |a| { assert (a + b)[k] == b[k - |a|]; }
    }
  }

  /** Surrounding whitespace never changes what `strip()` returns. */
  lemma StripPadding(a: string, t: string, b: string)
    requires AllSpace(a) && AllSpace(b)
    ensures Strip(a + t + b) == Strip(t)
  {
    var i, j := StripBounds(t);
    var pre, core, post := t[..i], t[i..j], t[j..];
    SplitThree(t, i, j);
    Regroup(a, pre, core, post, b);
    AllSpaceAppend(a, pre);
    AllSpaceAppend(post, b);
    StripAround(a + pre, core, post + b);
  }

  lemma Regroup(a: string, p: string, c: string, q: string, b: string)
    ensures a + (p + c + q) + b == (a + p) + c + (q + b)
  {
  }

  /** A stripped core with whitespace on both sides strips to the core. */
  lemma StripAround(x: string, core: string, z: string)
    requires AllSpace(x) && AllSpace(z) && IsStripped(core)
    ensures Strip(x + core + z) == core
  {
    var s := x + core + z;
    assert s[..|x|] == x;
    assert s[|x|..|x| + |core|] == core;
    assert s[|x| + |core|..] == z;
    StripCharacterization(s, |x|, |x| + |core|);
  }

  lemma SplitThree(t: string, i: nat, j: nat)
    requires i <= j <= |t|
    ensures t == t[..i] + t[i..j] + t[j..]
  {
    assert t[..j] == t[..i] + t[i..j];
  }

  /** `strip()` leaves a string without surrounding whitespace unchanged. */
  lemma StripOfStripped(t: string)
    requires IsStripped(t)
    ensures Strip(t) == t
  {
    assert t[..0] == [] && t[|t|..] == [] && t[0..|t|] == t;
    StripCharacterization(t, 0, |t|);
  }

  lemma StripIdempotent(s: string)
    ensures Strip(Strip(s)) == Strip(s)
  {
    StripOfStripped(Strip(s));
  }

  /** Python's `sep.join(xs)`. */
  function Join(sep: string, xs: seq<string>): string
  {
    if |xs| == 0 then ""
    else if |xs| == 1 then xs[0]
    else xs[0] + sep + Join(sep, xs[1..])
  }

  /** `"".join(xs)`. */
  function Concat(xs: seq<string>): string
  {
    if |xs| == 0 then "" else xs[0] + Concat(xs[1..])
  }

  lemma {:induction false} ConcatAppend(xs: seq<string>, ys: seq<string>)
    ensures Concat(xs + ys) == Concat(xs) + Concat(ys)
  {
    if |xs| > 0 {
      assert (xs + ys)[1..] == xs[1..] + ys;
      ConcatAppend(xs[1..], ys);
    } else {
      assert xs + ys == ys;
    }
  }

  /** Number of occurrences of `c` in `s`. */
  function Count(c: char, s: string): nat
  {
    if |s| == 0 then 0 else (if s[0] == c then 1 else 0) + Count(c, s[1..])
  }

  lemma {:induction false} CountAppend(c: char, a: string, b: string)
    ensures Count(c, a + b) == Count(c, a) + Count(c, b)
  {
    if |a| > 0 {
      assert (a + b)[1..] == a[1..] + b;
      CountAppend(c, a[1..], b);
    } else {
      assert a + b == b;
    }
  }

  lemma {:induction false} CountAbsent(c: char, s: string)
    requires c !in s
    ensures Count(c, s) == 0
  {
    if |s| > 0 {
      CountAbsent(c, s[1..]);
    }
  }

  /** Python's `a < b` on `str`: lexicographic by code point, a proper prefix
      sorting first. */
  predicate Less(a: string, b: string)
    decreases |a|
  {
    |b| > 0 && (|a| == 0 || a[0] < b[0] || (a[0] == b[0] && Less(a[1..], b[1..])))
  }

  lemma {:induction false} LessIrreflexive(a: string)
    ensures !Less(a, a)
  {
    if |a| > 0 {
      LessIrreflexive(a[1..]);
    }
  }

  lemma {:induction false} LessTransitive(a: string, b: string, c: string)
    requires Less(a, b) && Less(b, c)
    ensures Less(a, c)
  {
    if |a| > 0 && a[0] == b[0] && b[0] == c[0] {
      LessTransitive(a[1..], b[1..], c[1..]);
    }
  }

  lemma LessAsymmetric(a: string, b: string)
    requires Less(a, b)
    ensures !Less(b, a)
  {
    if Less(b, a) {
      LessTransitive(a, b, a);
      LessIrreflexive(a);
    }
  }

  lemma {:induction false} LessTotal(a: string, b: string)
    ensures a == b || Less(a, b) || Less(b, a)
  {
    if |a| > 0 && |b| > 0 && a[0] == b[0] {
      LessTotal(a[1..], b[1..]);
      if a[1..] == b[1..] {
        assert a == [a[0]] + a[1..] && b == [b[0]] + b[1..];
      }
    }
  }

  /** Strictly ascending, as `sorted()` lists the members of a set. */
  predicate Increasing(xs: seq<string>) {
    forall i, j :: 0 <= i < j < |xs| ==> Less(xs[i], xs[j])
  }
}
