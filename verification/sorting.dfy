/** `sorted(s)` for a set of strings: the members of `s` listed once each in
    ascending code-point order. The list is built by repeatedly taking the
    least remaining member, and it is the only strictly ascending listing of
    `s` (`SortedUnique`), so it depends on the set's contents alone. */
module Sorting {
  import opened Strings

  /** `m` is the least member of `s`. */
  predicate IsLeast(m: string, s: set<string>) {
    m in s && forall x :: x in s && x != m ==> Less(m, x)
  }

  lemma {:induction false} LeastExists(s: set<string>)
    requires s != {}
    ensures exists m :: IsLeast(m, s)
  {
    var y :| y in s;
    if s == {y} {
      assert IsLeast(y, s);
    } else {
      LeastExists(s - {y});
      var m :| IsLeast(m, s - {y});
      LessTotal(m, y);
      if Less(m, y) {
        assert IsLeast(m, s);
      } else {
        forall x | x in s && x != y
          ensures Less(y, x)
        {
          if x != m {
            LessTransitive(y, m, x);
          }
        }
        assert IsLeast(y, s);
      }
    }
  }

  lemma LessAsymmetricAll()
    ensures forall a, b :: Less(a, b) ==> !Less(b, a)
  {
    forall a, b | Less(a, b)
      ensures !Less(b, a)
    {
      LessAsymmetric(a, b);
    }
  }

  /** The least member of a non-empty set. */
  function Least(s: set<string>): (m: string)
    requires s != {}
    ensures m in s
    ensures forall x :: x in s && x != m ==> Less(m, x)
  {
    LeastExists(s);
    LessAsymmetricAll();
    var m :| IsLeast(m, s);
    m
  }

  /** Python's `sorted(s)` on a set of strings. */
  function Sorted(s: set<string>): (r: seq<string>)
    ensures |r| == |s|
    ensures forall x :: x in r <==> x in s
    ensures Increasing(r)
  {
    if s == {} then []
    else
      var m := Least(s);
      [m] + Sorted(s - {m})
  }

  /** Any strictly ascending listing of `s` is `Sorted(s)`. */
  lemma {:induction false} SortedUnique(xs: seq<string>, s: set<string>)
    requires Increasing(xs)
    requires forall x :: x in xs <==> x in s
    ensures xs == Sorted(s)
  {
    assert |xs| > 0 ==> xs[0] in s;
    if s != {} {
      var m := Least(s);
      ListingStartsWithLeast(xs, s, m);
      ListingTail(xs, s);
      SortedUnique(xs[1..], s - {m});
      assert Sorted(s) == [m] + Sorted(s - {m});
      assert xs == [xs[0]] + xs[1..];
    }
  }

  /** An ascending listing starts with the least member. */
  lemma ListingStartsWithLeast(xs: seq<string>, s: set<string>, m: string)
    requires Increasing(xs)
    requires forall x :: x in xs <==> x in s
    requires IsLeast(m, s)
    ensures |xs| > 0 && xs[0] == m
  {
    assert m in xs;
    var k :| 0 <= k < |xs| && xs[k] == m;
    if k > 0 {
      LessAsymmetric(xs[0], m);
    }
  }

  /** Dropping the first entry of an ascending listing lists the rest. */
  lemma ListingTail(xs: seq<string>, s: set<string>)
    requires Increasing(xs) && |xs| > 0
    requires forall x :: x in xs <==> x in s
    ensures Increasing(xs[1..])
    ensures forall x :: x in xs[1..] <==> x in s - {xs[0]}
  {
    forall x
      ensures x in xs[1..] <==> x in s - {xs[0]}
    {
      if x in xs[1..] {
        var i :| 1 <= i < |xs| && xs[i] == x;
        assert Less(xs[0], xs[i]);
        LessIrreflexive(x);
      }
      if x in s - {xs[0]} {
        var i :| 0 <= i < |xs| && xs[i] == x;
        assert xs[1..][i - 1] == x;
      }
    }
  }

  /** The listing of `{v}` is `[v]`. */
  lemma SortedSingleton(v: string)
    ensures Sorted({v}) == [v]
  {
    SortedUnique([v], {v});
  }
}
