/**
 * The LINQ queries the game uses over its lists (Where, FirstOrDefault,
 * Count, Any, RemoveAll), stated once and proved once.
 */
module Seqs {
  import opened Wrappers

  /** Where(p).ToList(): the elements satisfying p, in list order. */
  function Filter<T(!new)>(s: seq<T>, p: T -> bool): (r: seq<T>)
    ensures |r| <= |s|
    ensures forall x :: x in r <==> x in s && p(x)
    ensures forall j :: 0 <= j < |r| ==> p(r[j])
  {
    if |s| == 0 then [] else (if p(s[0]) then [s[0]] else []) + Filter(s[1..], p)
  }

  /** Filtering distributes over concatenation: the order of the list is kept. */
  lemma {:induction false} FilterAppend<T(!new)>(a: seq<T>, b: seq<T>, p: T -> bool)
    ensures Filter(a + b, p) == Filter(a, p) + Filter(b, p)
  {
    if |a| == 0 {
      assert a + b == b;
    } else {
      assert (a + b)[1..] == a[1..] + b;
      FilterAppend(a[1..], b, p);
    }
  }

  /** Filtering a list with one more element at the end: that element is kept exactly when it passes. */
  lemma FilterSnoc<T(!new)>(s: seq<T>, x: T, p: T -> bool)
    ensures Filter(s + [x], p) == Filter(s, p) + (if p(x) then [x] else [])
  {
    FilterAppend(s, [x], p);
    assert [x][1..] == [];
  }

  /** Multiplicities: Filter keeps every copy of an accepted element and none of the others. */
  lemma {:induction false} FilterMultiset<T(!new)>(s: seq<T>, p: T -> bool)
    ensures forall x :: multiset(Filter(s, p))[x] == if p(x) then multiset(s)[x] else 0
  {
    if |s| > 0 {
      FilterMultiset(s[1..], p);
      assert s == [s[0]] + s[1..];
    }
  }

  /** Count(p): how many elements satisfy p. */
  function Count<T(!new)>(s: seq<T>, p: T -> bool): (n: nat)
    ensures n == |Filter(s, p)|
    ensures n <= |s|
    ensures n == 0 <==> forall j :: 0 <= j < |s| ==> !p(s[j])
  {
    if |s| == 0 then 0 else (if p(s[0]) then 1 else 0) + Count(s[1..], p)
  }

  lemma {:induction false} CountAppend<T(!new)>(a: seq<T>, b: seq<T>, p: T -> bool)
    ensures Count(a + b, p) == Count(a, p) + Count(b, p)
  {
    FilterAppend(a, b, p);
  }

  /** When every element satisfies p, Count counts them all. */
  lemma {:induction false} CountAll<T(!new)>(s: seq<T>, p: T -> bool)
    requires forall j :: 0 <= j < |s| ==> p(s[j])
    ensures Count(s, p) == |s|
  {
    if |s| > 0 {
      CountAll(s[1..], p);
    }
  }

  /** An element satisfies either p or its negation, so the two counts add up to the length. */
  lemma {:induction false} CountComplement<T(!new)>(s: seq<T>, p: T -> bool)
    ensures Count(s, p) + Count(s, x => !p(x)) == |s|
  {
    if |s| > 0 {
      CountComplement(s[1..], p);
    }
  }

  /** Two complementary filters split the list: every element lands in exactly one of them. */
  lemma {:induction false} FilterPartition<T(!new)>(s: seq<T>, p: T -> bool, q: T -> bool)
    requires forall x :: q(x) == !p(x)
    ensures multiset(Filter(s, p)) + multiset(Filter(s, q)) == multiset(s)
    ensures |Filter(s, p)| + |Filter(s, q)| == |s|
  {
    if |s| > 0 {
      FilterPartition(s[1..], p, q);
      assert s == [s[0]] + s[1..];
    }
  }

  /** Filter keeps as many elements as Count counts. */
  lemma {:induction false} FilterIsCount<T(!new)>(s: seq<T>, p: T -> bool)
    ensures |Filter(s, p)| == Count(s, p)
  {
    if |s| > 0 {
      FilterIsCount(s[1..], p);
    }
  }

  /** The index of the first element satisfying p, if any. */
  function FirstIndex<T>(s: seq<T>, p: T -> bool): (r: Nullable<nat>)
    ensures r.Null? <==> forall j :: 0 <= j < |s| ==> !p(s[j])
    ensures r.Some? ==> r.value < |s| && p(s[r.value])
    ensures r.Some? ==> forall j :: 0 <= j < r.value ==> !p(s[j])
  {
    if |s| == 0 then Null
    else if p(s[0]) then Some(0)
    else match FirstIndex(s[1..], p)
      case Null => Null
      case Some(k) => Some(k + 1)
  }

  /** An index holding p with none before it is the first index. */
  lemma FirstIndexIs<T>(s: seq<T>, p: T -> bool, k: nat)
    requires k < |s| && p(s[k]) && forall j :: 0 <= j < k ==> !p(s[j])
    ensures FirstIndex(s, p) == Some(k)
  {
  }

  /** The foreach that returns at the first element satisfying p. */
  method FindFirst<T>(s: seq<T>, p: T -> bool) returns (r: Nullable<nat>)
    ensures r == FirstIndex(s, p)
  {
    var k := 0;
    while k < |s|
      invariant 0 <= k <= |s|
      invariant forall j :: 0 <= j < k ==> !p(s[j])
    {
      if p(s[k]) {
        FirstIndexIs(s, p, k);
        return Some(k);
      }
      k := k + 1;
    }
    return Null;
  }

  /** FirstOrDefault(p): the first element satisfying p, or null. */
  function FirstWhere<T>(s: seq<T>, p: T -> bool): (r: Nullable<T>)
    ensures r.Null? <==> forall j :: 0 <= j < |s| ==> !p(s[j])
    ensures r.Some? ==> exists i :: 0 <= i < |s| && s[i] == r.value && p(s[i])
                                    && forall j :: 0 <= j < i ==> !p(s[j])
  {
    match FirstIndex(s, p)
    case Null => Null
    case Some(i) => Some(s[i])
  }

  /** The conjunction of two predicates, as one named predicate. */
  function Both<T>(p: T -> bool, q: T -> bool): T -> bool
  {
    (x: T) => p(x) && q(x)
  }

  /** Where(p).Where(q) is Where(p && q). */
  lemma {:induction false} FilterFilter<T(!new)>(s: seq<T>, p: T -> bool, q: T -> bool)
    ensures Filter(Filter(s, p), q) == Filter(s, Both(p, q))
  {
    if |s| > 0 {
      FilterFilter(s[1..], p, q);
      assert Both(p, q)(s[0]) == (p(s[0]) && q(s[0]));
      if p(s[0]) {
        var x := Filter(s, p);
        assert x == [s[0]] + Filter(s[1..], p);
        assert x[0] == s[0] && x[1..] == Filter(s[1..], p);
        assert Filter(x, q) == (if q(s[0]) then [s[0]] else []) + Filter(x[1..], q);
      } else {
        assert Filter(s, p) == Filter(s[1..], p);
        assert Filter(s, Both(p, q)) == Filter(s[1..], Both(p, q));
      }
    }
  }

  /** A filter that accepts every element keeps the whole list. */
  lemma {:induction false} FilterKeepsAll<T(!new)>(s: seq<T>, p: T -> bool)
    requires forall x :: x in s ==> p(x)
    ensures Filter(s, p) == s
  {
    if |s| > 0 {
      assert p(s[0]) by { assert s[0] in s; }
      forall x | x in s[1..] ensures p(x) {
        assert x in s;
      }
      calc {
        Filter(s, p);
        [s[0]] + Filter(s[1..], p);
        { FilterKeepsAll(s[1..], p); }
        [s[0]] + s[1..];
        s;
      }
    }
  }

  /** Two predicates that agree on every element filter alike. */
  lemma {:induction false} FilterCongruent<T(!new)>(s: seq<T>, p: T -> bool, q: T -> bool)
    requires forall x :: x in s ==> p(x) == q(x)
    ensures Filter(s, p) == Filter(s, q)
  {
    if |s| > 0 {
      assert s[0] in s;
      assert forall x :: x in s[1..] ==> x in s;
      FilterCongruent(s[1..], p, q);
    }
  }

  /** The positions below n whose elements satisfy p, in increasing order. */
  function Indices<T>(s: seq<T>, p: T -> bool, n: nat): (r: seq<nat>)
    requires n <= |s|
    ensures forall m :: 0 <= m < |r| ==> r[m] < n && p(s[r[m]])
    ensures forall m, m' :: 0 <= m < m' < |r| ==> r[m] < r[m']
    ensures forall i :: 0 <= i < n && p(s[i]) ==> i in r
  {
    if n == 0 then [] else Indices(s, p, n - 1) + (if p(s[n - 1]) then [n - 1] else [])
  }

  /** The elements at the given positions. */
  function Select<T>(s: seq<T>, idx: seq<nat>): (r: seq<T>)
    requires forall m :: 0 <= m < |idx| ==> idx[m] < |s|
    ensures |r| == |idx| && forall m :: 0 <= m < |idx| ==> r[m] == s[idx[m]]
  {
    seq(|idx|, m requires 0 <= m < |idx| => s[idx[m]])
  }

  /** The elements at the positions Indices finds are exactly what Filter keeps. */
  lemma {:induction false} SelectIndices<T(!new)>(s: seq<T>, p: T -> bool, n: nat)
    requires n <= |s|
    ensures Select(s, Indices(s, p, n)) == Filter(s[..n], p)
  {
    if n > 0 {
      SelectIndices(s, p, n - 1);
      assert s[..n] == s[..n - 1] + [s[n - 1]];
      FilterAppend(s[..n - 1], [s[n - 1]], p);
      assert Filter([s[n - 1]], p) == if p(s[n - 1]) then [s[n - 1]] else [];
    } else {
      assert s[..0] == [];
    }
  }
}
