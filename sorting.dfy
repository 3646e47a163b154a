/**
 * Sorting of a sequence by a total order, the stand-in for Python's `list.sort()`
 * and `sorted()`. Only the contract matters to the rest of the model: the result
 * is ordered and is a permutation of the input; under an antisymmetric order it
 * is the only such sequence.
 */
module Sorting {

  ghost predicate Transitive<T(!new)>(le: (T, T) -> bool)
  {
    forall x, y, z :: le(x, y) && le(y, z) ==> le(x, z)
  }

  ghost predicate Total<T(!new)>(le: (T, T) -> bool)
  {
    forall x, y :: le(x, y) || le(y, x)
  }

  ghost predicate Antisymmetric<T(!new)>(le: (T, T) -> bool)
  {
    forall x, y :: le(x, y) && le(y, x) ==> x == y
  }

  ghost predicate TotalOrder<T(!new)>(le: (T, T) -> bool)
  {
    Transitive(le) && Total(le) && Antisymmetric(le)
  }

  /** Every element is `le` every later element. */
  predicate SortedBy<T>(s: seq<T>, le: (T, T) -> bool)
  {
    forall i, j :: 0 <= i < j < |s| ==> le(s[i], s[j])
  }

  function Insert<T>(x: T, s: seq<T>, le: (T, T) -> bool): (r: seq<T>)
    ensures |r| == |s| + 1
  {
    if s == [] then [x]
    else if le(x, s[0]) then [x] + s
    else [s[0]] + Insert(x, s[1..], le)
  }

  /** Insertion sort; stable, although equal elements never occur where it is used. */
  function Sort<T>(s: seq<T>, le: (T, T) -> bool): (r: seq<T>)
    ensures |r| == |s|
  {
    if s == [] then [] else Insert(s[0], Sort(s[1..], le), le)
  }

  lemma {:induction false} InsertPermutes<T>(x: T, s: seq<T>, le: (T, T) -> bool)
    ensures multiset(Insert(x, s, le)) == multiset(s) + multiset{x}
  {
    if s != [] && !le(x, s[0]) {
      InsertPermutes(x, s[1..], le);
      assert s == [s[0]] + s[1..];
    }
  }

  lemma {:induction false} InsertSorted<T(!new)>(x: T, s: seq<T>, le: (T, T) -> bool)
    requires Transitive(le) && Total(le)
    requires SortedBy(s, le)
    ensures SortedBy(Insert(x, s, le), le)
  {
    if s != [] && !le(x, s[0]) {
      InsertSorted(x, s[1..], le);
      InsertPermutes(x, s[1..], le);
      var r := Insert(x, s[1..], le);
      forall k | 0 <= k < |r|
        ensures le(s[0], r[k])
      {
        assert r[k] in multiset(r);
        if r[k] != x {
          assert r[k] in multiset(s[1..]);
          var j :| 0 <= j < |s[1..]| && s[1..][j] == r[k];
          assert s[1..][j] == s[j + 1];
        }
      }
    }
  }

  /** The sort's result is ordered and holds exactly the input's elements. */
  lemma {:induction false} SortCorrect<T(!new)>(s: seq<T>, le: (T, T) -> bool)
    requires Transitive(le) && Total(le)
    ensures SortedBy(Sort(s, le), le)
    ensures multiset(Sort(s, le)) == multiset(s)
  {
    if s != [] {
      SortCorrect(s[1..], le);
      InsertSorted(s[0], Sort(s[1..], le), le);
      InsertPermutes(s[0], Sort(s[1..], le), le);
      assert s == [s[0]] + s[1..];
    }
  }

  /** Under an antisymmetric order, two ordered permutations of each other are equal. */
  lemma {:induction false} SortedUnique<T(!new)>(s: seq<T>, t: seq<T>, le: (T, T) -> bool)
    requires Antisymmetric(le)
    requires SortedBy(s, le) && SortedBy(t, le)
    requires multiset(s) == multiset(t)
    ensures s == t
  {
    if s != [] {
      SortedHeads(s, t, le);
      var s', t' := s[1..], t[1..];
      assert multiset(s') == multiset(t') by {
        TailMultiset(s);
        TailMultiset(t);
      }
      assert SortedBy(s', le) && SortedBy(t', le) by {
        SortedTail(s, le);
        SortedTail(t, le);
      }
      SortedUnique(s', t', le);
      assert s == [s[0]] + s' && t == [t[0]] + t';
    }
  }

  lemma {:induction false} TailMultiset<T>(s: seq<T>)
    requires s != []
    ensures multiset(s[1..]) == multiset(s) - multiset{s[0]}
  {
    assert s == [s[0]] + s[1..];
  }

  lemma {:induction false} SortedTail<T>(s: seq<T>, le: (T, T) -> bool)
    requires s != [] && SortedBy(s, le)
    ensures SortedBy(s[1..], le)
  {
    forall i, j | 0 <= i < j < |s[1..]|
      ensures le(s[1..][i], s[1..][j])
    {
      assert s[1..][i] == s[i + 1] && s[1..][j] == s[j + 1];
    }
  }

  /** Two ordered arrangements of one multiset start with the same least element. */
  lemma {:induction false} SortedHeads<T(!new)>(s: seq<T>, t: seq<T>, le: (T, T) -> bool)
    requires Antisymmetric(le)
    requires SortedBy(s, le) && SortedBy(t, le)
    requires multiset(s) == multiset(t) && s != []
    ensures t != [] && s[0] == t[0]
  {
    assert |t| == |multiset(t)| == |s|;
    assert t[0] in multiset(s);
    var i :| 0 <= i < |s| && s[i] == t[0];
    assert s[0] in multiset(t);
    var j :| 0 <= j < |t| && t[j] == s[0];
    assert le(s[0], s[i]) || i == 0;
    assert le(t[0], t[j]) || j == 0;
  }

  /** Sorting a permutation of an ordered sequence gives back that sequence. */
  lemma {:induction false} SortOfPermutation<T(!new)>(s: seq<T>, sorted: seq<T>, le: (T, T) -> bool)
    requires TotalOrder(le)
    requires SortedBy(sorted, le) && multiset(s) == multiset(sorted)
    ensures Sort(s, le) == sorted
  {
    SortCorrect(s, le);
    SortedUnique(Sort(s, le), sorted, le);
  }
}
