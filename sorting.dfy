/**
 * The stable sort behind `Array.prototype.sort` with a comparator, given as
 * an insertion sort over a "comes no later than" relation `le`: an element
 * is placed after every earlier element that does not exceed it, so
 * elements that compare equal keep their input order (`SortByStable`).
 */
module Sorting {
  import opened Collections

  /** `le` orders every pair and is transitive. */
  ghost predicate TotalPreorder<T(!new)>(le: (T, T) -> bool)
  {
    && (forall a, b :: le(a, b) || le(b, a))
    && (forall a, b, c :: le(a, b) && le(b, c) ==> le(a, c))
  }

  predicate SortedBy<T>(s: seq<T>, le: (T, T) -> bool)
  {
    forall i, j :: 0 <= i < j < |s| ==> le(s[i], s[j])
  }

  /** Inserts `x` into `s` after the leading elements that do not exceed it. */
  function Insert<T>(x: T, s: seq<T>, le: (T, T) -> bool): (r: seq<T>)
    ensures |r| == |s| + 1
    ensures multiset(r) == multiset(s) + multiset{x}
  {
    if s == [] then [x]
    else if le(s[0], x) then
      assert s == [s[0]] + s[1..];
      [s[0]] + Insert(x, s[1..], le)
    else [x] + s
  }

  /** The input sorted by `le`, equal elements in input order. */
  function SortBy<T>(s: seq<T>, le: (T, T) -> bool): (r: seq<T>)
    ensures |r| == |s|
    ensures multiset(r) == multiset(s)
  {
    if s == [] then []
    else
      assert s == s[..|s| - 1] + [s[|s| - 1]];
      Insert(s[|s| - 1], SortBy(s[..|s| - 1], le), le)
  }

  lemma {:induction false} InsertSorted<T(!new)>(x: T, s: seq<T>, le: (T, T) -> bool)
    requires TotalPreorder(le)
    requires SortedBy(s, le)
    ensures SortedBy(Insert(x, s, le), le)
  {
    if s != [] {
      if le(s[0], x) {
        var tail := Insert(x, s[1..], le);
        assert SortedBy(s[1..], le) by {
          forall i, j | 0 <= i < j < |s| - 1
            ensures le(s[1..][i], s[1..][j])
          {
            assert s[1..][i] == s[i + 1] && s[1..][j] == s[j + 1];
          }
        }
        InsertSorted(x, s[1..], le);
        forall y | y in multiset(tail)
          ensures le(s[0], y)
        {
          if y != x {
            assert y in multiset(s[1..]);
            var j :| 0 <= j < |s| - 1 && s[1..][j] == y;
            assert s[j + 1] == y;
          }
        }
        SortedCons(s[0], tail, le);
      } else {
        assert le(x, s[0]);
        forall y | y in multiset(s)
          ensures le(x, y)
        {
          var j :| 0 <= j < |s| && s[j] == y;
          assert le(s[0], s[j]) || j == 0;
        }
        SortedCons(x, s, le);
      }
    }
  }

  /** A head that comes no later than every element of a sorted tail gives a sorted list. */
  lemma SortedCons<T>(h: T, tail: seq<T>, le: (T, T) -> bool)
    requires SortedBy(tail, le)
    requires forall y :: y in multiset(tail) ==> le(h, y)
    ensures SortedBy([h] + tail, le)
  {
    var r := [h] + tail;
    forall i, j | 0 <= i < j < |r|
      ensures le(r[i], r[j])
    {
      assert r[j] == tail[j - 1];
      if i > 0 {
        assert r[i] == tail[i - 1];
      } else {
        assert tail[j - 1] in multiset(tail);
      }
    }
  }

  /** The result of `SortBy` is sorted: together with its `ensures`, a sorted rearrangement. */
  lemma {:induction false} SortBySorted<T(!new)>(s: seq<T>, le: (T, T) -> bool)
    requires TotalPreorder(le)
    ensures SortedBy(SortBy(s, le), le)
  {
    if s != [] {
      SortBySorted(s[..|s| - 1], le);
      InsertSorted(s[|s| - 1], SortBy(s[..|s| - 1], le), le);
    }
  }

  /** The elements tied with `x`: each comes no later than `x` and `x` no later than it. */
  function Tied<T>(le: (T, T) -> bool, x: T): T -> bool
  {
    (y: T) => le(x, y) && le(y, x)
  }

  /**
   * The sort is stable: the elements tied with any `x` appear in the result
   * in the order they had in the input.
   */
  lemma {:induction false} SortByStable<T(!new)>(s: seq<T>, le: (T, T) -> bool, x: T)
    requires TotalPreorder(le)
    ensures Filter(SortBy(s, le), Tied(le, x)) == Filter(s, Tied(le, x))
  {
    if s != [] {
      var init, last := s[..|s| - 1], s[|s| - 1];
      assert s == init + [last];
      SortByStable(init, le, x);
      SortBySorted(init, le);
      InsertStable(last, SortBy(init, le), le, x);
      FilterAppend(init, [last], Tied(le, x));
    }
  }

  /** Inserting into a sorted sequence places `y` after every element tied with it. */
  lemma {:induction false} InsertStable<T(!new)>(y: T, t: seq<T>, le: (T, T) -> bool, x: T)
    requires TotalPreorder(le) && SortedBy(t, le)
    ensures Filter(Insert(y, t, le), Tied(le, x)) == Filter(t, Tied(le, x)) + Filter([y], Tied(le, x))
  {
    var p := Tied(le, x);
    if t == [] {
      assert Insert(y, t, le) == [y];
    } else if le(t[0], y) {
      assert SortedBy(t[1..], le);
      InsertStable(y, t[1..], le, x);
      assert Insert(y, t, le) == [t[0]] + Insert(y, t[1..], le);
      assert t == [t[0]] + t[1..];
      FilterConsAppended(t[0], Insert(y, t[1..], le), t[1..], [y], p);
    } else {
      assert Insert(y, t, le) == [y] + t;
      InsertFrontStable(y, t, le, x);
    }
  }

  /** Put in front of the sorted `t`, `y` is tied with none of it, so it may as well come last among its ties. */
  lemma InsertFrontStable<T(!new)>(y: T, t: seq<T>, le: (T, T) -> bool, x: T)
    requires TotalPreorder(le) && SortedBy(t, le)
    requires t != [] && !le(t[0], y)
    ensures Filter([y] + t, Tied(le, x)) == Filter(t, Tied(le, x)) + Filter([y], Tied(le, x))
  {
    FilterAppend([y], t, Tied(le, x));
    if Tied(le, x)(y) {
      NoneTiedAfter(y, t, le, x);
    } else {
      assert Filter([y], Tied(le, x)) == [];
    }
  }

  /** Filtering keeps a common first element in front of both sides of an equation. */
  lemma FilterConsAppended<T>(h: T, rest: seq<T>, tail: seq<T>, last: seq<T>, p: T -> bool)
    requires Filter(rest, p) == Filter(tail, p) + Filter(last, p)
    ensures Filter([h] + rest, p) == Filter([h] + tail, p) + Filter(last, p)
  {
    FilterAppend([h], rest, p);
    FilterAppend([h], tail, p);
    ConcatAssoc(Filter([h], p), Filter(tail, p), Filter(last, p));
  }

  lemma ConcatAssoc<T>(a: seq<T>, b: seq<T>, c: seq<T>)
    ensures a + (b + c) == (a + b) + c
  {
  }

  /** When `y` goes before all of the sorted `t`, no element of `t` is tied with anything `y` is tied with. */
  lemma NoneTiedAfter<T(!new)>(y: T, t: seq<T>, le: (T, T) -> bool, x: T)
    requires TotalPreorder(le) && SortedBy(t, le)
    requires t != [] && !le(t[0], y) && Tied(le, x)(y)
    ensures Filter(t, Tied(le, x)) == []
  {
    forall k | 0 <= k < |t|
      ensures !Tied(le, x)(t[k])
    {
      if k > 0 {
        assert le(t[0], t[k]);
      }
    }
    FilterNone(t, Tied(le, x));
  }
}
