/**
 * The list of hash algorithms the hash mode offers: every name hashlib
 * guarantees except the variable-length `shake_*` family, in ascending order.
 */
module Registry {
  import opened Common
  import opened Sorting

  /** Python's `<=` on `str`: code point by code point, a proper prefix first. */
  predicate StrLe(a: string, b: string)
    decreases |a|
  {
    if a == [] then true
    else if b == [] then false
    else if a[0] != b[0] then a[0] < b[0]
    else StrLe(a[1..], b[1..])
  }

  lemma {:induction false} StrLeAntisymmetric(a: string, b: string)
    requires StrLe(a, b) && StrLe(b, a)
    ensures a == b
    decreases |a|
  {
    if a != [] && b != [] {
      StrLeAntisymmetric(a[1..], b[1..]);
      assert a == [a[0]] + a[1..] && b == [b[0]] + b[1..];
    }
  }

  lemma {:induction false} StrLeTransitive(a: string, b: string, c: string)
    requires StrLe(a, b) && StrLe(b, c)
    ensures StrLe(a, c)
    decreases |a|
  {
    if a != [] && b != [] && c != [] && a[0] == b[0] && b[0] == c[0] {
      StrLeTransitive(a[1..], b[1..], c[1..]);
    }
  }

  lemma {:induction false} StrLeTotal(a: string, b: string)
    ensures StrLe(a, b) || StrLe(b, a)
    decreases |a|
  {
    if a != [] && b != [] && a[0] == b[0] {
      StrLeTotal(a[1..], b[1..]);
    }
  }

  /** The order `sorted()` applies to the algorithm names is a total order. */
  lemma {:induction false} StrLeIsTotalOrder()
    ensures TotalOrder(StrLe)
  {
    forall a, b, c | StrLe(a, b) && StrLe(b, c)
      ensures StrLe(a, c)
    {
      StrLeTransitive(a, b, c);
    }
    forall a, b
      ensures StrLe(a, b) || StrLe(b, a)
    {
      StrLeTotal(a, b);
    }
    forall a, b | StrLe(a, b) && StrLe(b, a)
      ensures a == b
    {
      StrLeAntisymmetric(a, b);
    }
  }

  /** `name.startswith(prefix)`. */
  predicate StartsWith(name: string, prefix: string)
  {
    |prefix| <= |name| && name[..|prefix|] == prefix
  }

  /** The names the comprehension keeps, in iteration order. */
  function KeepFixedLength(names: seq<string>): (r: seq<string>)
    ensures forall x :: x in r <==> x in names && !StartsWith(x, "shake")
    ensures multiset(r) <= multiset(names)
  {
    if names == [] then []
    else
      assert names == [names[0]] + names[1..];
      if StartsWith(names[0], "shake") then KeepFixedLength(names[1..])
      else [names[0]] + KeepFixedLength(names[1..])
  }

  /**
   * `sorted([algo for algo in algorithms_guaranteed if not algo.startswith('shake')])`,
   * where `guaranteed` lists `hashlib.algorithms_guaranteed` in its iteration order.
   */
  function SupportedAlgorithms(guaranteed: seq<string>): seq<string>
  {
    Sort(KeepFixedLength(guaranteed), StrLe)
  }

  /**
   * The list is ascending, holds no `shake` name, and holds every other
   * guaranteed name, as often as the input does.
   */
  lemma {:induction false} SupportedAlgorithmsSpec(guaranteed: seq<string>)
    ensures SortedBy(SupportedAlgorithms(guaranteed), StrLe)
    ensures forall x :: x in SupportedAlgorithms(guaranteed) <==> x in guaranteed && !StartsWith(x, "shake")
    ensures forall x :: x in guaranteed && !StartsWith(x, "shake") ==>
      multiset(SupportedAlgorithms(guaranteed))[x] == multiset(guaranteed)[x]
  {
    var kept := KeepFixedLength(guaranteed);
    StrLeIsTotalOrder();
    SortCorrect(kept, StrLe);
    KeepCounts(guaranteed);
  }

  /** A kept name is kept every time it occurs. */
  lemma {:induction false} KeepCounts(names: seq<string>)
    ensures forall x :: !StartsWith(x, "shake") ==> multiset(KeepFixedLength(names))[x] == multiset(names)[x]
  {
    if names != [] {
      KeepCounts(names[1..]);
      assert names == [names[0]] + names[1..];
    }
  }

  /** A set has no repeated members, so neither has the list: it is strictly ascending. */
  lemma {:induction false} SupportedAlgorithmsStrict(guaranteed: seq<string>)
    requires Distinct(guaranteed)
    ensures forall i, j :: 0 <= i < j < |SupportedAlgorithms(guaranteed)| ==>
      SupportedAlgorithms(guaranteed)[i] != SupportedAlgorithms(guaranteed)[j]
  {
    var r := SupportedAlgorithms(guaranteed);
    StrLeIsTotalOrder();
    SortCorrect(KeepFixedLength(guaranteed), StrLe);
    DistinctCounts(guaranteed);
    forall i, j | 0 <= i < j < |r|
      ensures r[i] != r[j]
    {
      if r[i] == r[j] {
        TwoOccurrences(r, i, j);
        assert false;
      }
    }
  }

  lemma {:induction false} DistinctCounts<T>(s: seq<T>)
    requires Distinct(s)
    ensures forall x :: multiset(s)[x] <= 1
  {
    if s != [] {
      assert Distinct(s[1..]) by {
        forall i, j | 0 <= i < j < |s[1..]|
          ensures s[1..][i] != s[1..][j]
        {
          assert s[1..][i] == s[i + 1] && s[1..][j] == s[j + 1];
        }
      }
      DistinctCounts(s[1..]);
      assert s == [s[0]] + s[1..];
      assert s[0] !in s[1..];
    }
  }

  lemma {:induction false} TwoOccurrences<T>(s: seq<T>, i: nat, j: nat)
    requires i < j < |s| && s[i] == s[j]
    ensures multiset(s)[s[i]] >= 2
  {
    assert s == s[..j] + [s[j]] + s[j + 1..];
    assert s[i] in s[..j];
  }

  /**
   * The list does not depend on the order in which the set is iterated: two
   * listings of the same names give the same list.
   */
  lemma {:induction false} SupportedAlgorithmsOrderFree(g1: seq<string>, g2: seq<string>)
    requires multiset(g1) == multiset(g2)
    ensures SupportedAlgorithms(g1) == SupportedAlgorithms(g2)
  {
    KeepPreservesPermutation(g1, g2);
    var k1, k2 := KeepFixedLength(g1), KeepFixedLength(g2);
    StrLeIsTotalOrder();
    SortCorrect(k2, StrLe);
    SortOfPermutation(k1, Sort(k2, StrLe), StrLe);
  }

  lemma {:induction false} KeepPreservesPermutation(g1: seq<string>, g2: seq<string>)
    requires multiset(g1) == multiset(g2)
    ensures multiset(KeepFixedLength(g1)) == multiset(KeepFixedLength(g2))
  {
    KeepCounts(g1);
    KeepCounts(g2);
    var m1, m2 := multiset(KeepFixedLength(g1)), multiset(KeepFixedLength(g2));
    forall x
      ensures m1[x] == m2[x]
    {
      if !StartsWith(x, "shake") {
        assert m1[x] == multiset(g1)[x];
      }
    }
  }
}
