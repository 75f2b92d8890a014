/** A stable insertion sort under a caller-given order, standing for the
    pipeline's ORDER BY clauses and for Python's `sorted`. */
module Sorting {

  /** `le` is total and transitive (a total preorder). */
  ghost predicate TotalPreorder<T(!new)>(le: (T, T) -> bool)
  {
    && (forall a, b :: le(a, b) || le(b, a))
    && (forall a, b, c :: le(a, b) && le(b, c) ==> le(a, c))
  }

  /** Every element is `le` every later element. */
  ghost predicate Sorted<T>(s: seq<T>, le: (T, T) -> bool)
  {
    forall i, j :: 0 <= i < j < |s| ==> le(s[i], s[j])
  }

  /** `x` placed before the first element it is `le`. */
  function Insert<T>(x: T, s: seq<T>, le: (T, T) -> bool): (r: seq<T>)
    ensures multiset(r) == multiset(s) + multiset{x}
    ensures |r| == |s| + 1
  {
    if |s| == 0 then [x]
    else if le(x, s[0]) then [x] + s
    else
      assert s == [s[0]] + s[1..];
      [s[0]] + Insert(x, s[1..], le)
  }

  function Sort<T>(s: seq<T>, le: (T, T) -> bool): (r: seq<T>)
    ensures multiset(r) == multiset(s)
    ensures |r| == |s|
  {
    if |s| == 0 then []
    else
      assert s == [s[0]] + s[1..];
      Insert(s[0], Sort(s[1..], le), le)
  }

  lemma {:induction false} InsertSorted<T(!new)>(x: T, s: seq<T>, le: (T, T) -> bool)
    requires TotalPreorder(le)
    requires Sorted(s, le)
    ensures Sorted(Insert(x, s, le), le)
  {
    if |s| > 0 && !le(x, s[0]) {
      var rest := Insert(x, s[1..], le);
      InsertSorted(x, s[1..], le);
      assert le(s[0], x);
      forall j | 0 < j < |rest| + 1
        ensures le(s[0], ([s[0]] + rest)[j])
      {
        var y := rest[j - 1];
        assert y in multiset(rest);
        assert y in multiset(s[1..]) || y == x;
        if y != x {
          assert y in s[1..];
          var k :| 0 <= k < |s[1..]| && s[1..][k] == y;
          assert s[k + 1] == y;
        }
      }
    } else if |s| > 0 {
      forall i, j | 0 <= i < j < |s| + 1
        ensures le(([x] + s)[i], ([x] + s)[j])
      {
        if i == 0 && j > 1 {
          assert le(s[0], s[j - 1]);
        }
      }
    }
  }

  /** Sort returns a sorted permutation of its input. */
  lemma {:induction false} SortSorts<T(!new)>(s: seq<T>, le: (T, T) -> bool)
    requires TotalPreorder(le)
    ensures Sorted(Sort(s, le), le)
    ensures multiset(Sort(s, le)) == multiset(s)
  {
    if |s| > 0 {
      SortSorts(s[1..], le);
      InsertSorted(s[0], Sort(s[1..], le), le);
    }
  }

  /** Each element of a sorted sequence is preceded by its first element. */
  lemma SortedHead<T(!new)>(s: seq<T>, x: T, le: (T, T) -> bool)
    requires TotalPreorder(le)
    requires Sorted(s, le) && x in s
    ensures le(s[0], x)
  {
    var i :| 0 <= i < |s| && s[i] == x;
    if i == 0 {
      assert le(x, x) || le(x, x);
    }
  }

  lemma MultisetTail<T>(a: seq<T>, b: seq<T>)
    requires |a| > 0 && |b| > 0 && a[0] == b[0]
    requires multiset(a) == multiset(b)
    ensures multiset(a[1..]) == multiset(b[1..])
  {
    assert a == [a[0]] + a[1..] && b == [b[0]] + b[1..];
    assert multiset(a) == multiset{a[0]} + multiset(a[1..]);
    assert multiset(b) == multiset{a[0]} + multiset(b[1..]);
    forall z
      ensures multiset(a[1..])[z] == multiset(b[1..])[z]
    {
      assert multiset(a)[z] == multiset{a[0]}[z] + multiset(a[1..])[z];
      assert multiset(b)[z] == multiset{a[0]}[z] + multiset(b[1..])[z];
    }
  }

  /** Two sorted permutations of one another are equal when `le` relates
      no two distinct elements of theirs both ways. */
  lemma {:induction false} SortedUnique<T(!new)>(a: seq<T>, b: seq<T>, le: (T, T) -> bool)
    requires TotalPreorder(le)
    requires Sorted(a, le) && Sorted(b, le)
    requires multiset(a) == multiset(b)
    requires forall i, j :: 0 <= i < |a| && 0 <= j < |a| && le(a[i], a[j]) && le(a[j], a[i]) ==> a[i] == a[j]
    ensures a == b
  {
    assert |a| == |multiset(a)| == |b|;
    if |a| > 0 {
      assert a[0] in multiset(b) && b[0] in multiset(a);
      SortedHead(b, a[0], le);
      SortedHead(a, b[0], le);
      var j :| 0 <= j < |a| && a[j] == b[0];
      assert a[0] == b[0];
      MultisetTail(a, b);
      var a', b' := a[1..], b[1..];
      forall i, k | 0 <= i < |a'| && 0 <= k < |a'| && le(a'[i], a'[k]) && le(a'[k], a'[i])
        ensures a'[i] == a'[k]
      {
        assert a'[i] == a[i + 1] && a'[k] == a[k + 1];
      }
      SortedUnique(a', b', le);
      assert a == [a[0]] + a' && b == [b[0]] + b';
    }
  }

  /** The first element of a sorted permutation precedes every element, and
      every element precedes the last; both come from the input. */
  lemma SortExtremes<T(!new)>(s: seq<T>, le: (T, T) -> bool)
    requires TotalPreorder(le) && |s| > 0
    ensures var r := Sort(s, le);
      && r[0] in s && r[|r| - 1] in s
      && (forall x :: x in s ==> le(r[0], x))
      && (forall x :: x in s ==> le(x, r[|r| - 1]))
  {
    var r := Sort(s, le);
    SortSorts(s, le);
    assert r[0] in multiset(s) && r[|r| - 1] in multiset(s);
    forall x | x in s
      ensures le(r[0], x) && le(x, r[|r| - 1])
    {
      assert x in multiset(r);
      var k :| 0 <= k < |r| && r[k] == x;
      assert le(x, x) || le(x, x);
      if k > 0 { assert le(r[0], r[k]); }
      if k < |r| - 1 { assert le(r[k], r[|r| - 1]); }
    }
  }
}
