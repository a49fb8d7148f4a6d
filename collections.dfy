/**
 * Counting, ranges and rearrangements of sequences, shared by the board
 * operations (the source's `filter(...).length`, `some` and spread copies).
 */
module Collections {

  /** The number of elements of `s` that satisfy `p` (`s.filter(p).length`). */
  function Count<T>(s: seq<T>, p: T -> bool): (n: nat)
    ensures n <= |s|
  {
    if s == [] then 0 else (if p(s[0]) then 1 else 0) + Count(s[1..], p)
  }

  lemma {:induction false} CountAppend<T>(a: seq<T>, b: seq<T>, p: T -> bool)
    ensures Count(a + b, p) == Count(a, p) + Count(b, p)
  {
    if a == [] {
      assert a + b == b;
    } else {
      assert (a + b)[1..] == a[1..] + b;
      CountAppend(a[1..], b, p);
    }
  }

  /** A count is zero exactly when no element satisfies the predicate. */
  lemma {:induction false} CountZero<T>(s: seq<T>, p: T -> bool)
    ensures Count(s, p) == 0 <==> forall k :: 0 <= k < |s| ==> !p(s[k])
  {
    if s != [] {
      CountZero(s[1..], p);
      assert forall k :: 1 <= k < |s| ==> s[k] == s[1..][k - 1];
    }
  }

  /** Rearranging a sequence does not change how many elements satisfy `p`. */
  lemma {:induction false} CountPermutation<T>(a: seq<T>, b: seq<T>, p: T -> bool)
    requires multiset(a) == multiset(b)
    ensures Count(a, p) == Count(b, p)
  {
    if a == [] {
      assert |b| == |multiset(b)| == 0;
    } else {
      var x := a[0];
      assert x in multiset(b);
      var i :| 0 <= i < |b| && b[i] == x;
      var rest := b[..i] + b[i + 1..];
      RemoveAt(a, b, i);
      CountPermutation(a[1..], rest, p);
      CountAppend(b[..i] + [x], b[i + 1..], p);
      CountAppend(b[..i], [x], p);
      CountAppend(b[..i], b[i + 1..], p);
    }
  }

  /** Taking the same element out of two rearrangements leaves rearrangements. */
  lemma RemoveAt<T>(a: seq<T>, b: seq<T>, i: nat)
    requires a != [] && i < |b| && b[i] == a[0]
    requires multiset(a) == multiset(b)
    ensures b == b[..i] + [b[i]] + b[i + 1..]
    ensures multiset(a[1..]) == multiset(b[..i] + b[i + 1..])
  {
    assert b == b[..i] + [b[i]] + b[i + 1..];
    assert a == [a[0]] + a[1..];
    assert multiset(a) == multiset([a[0]]) + multiset(a[1..]);
    assert multiset(b) == multiset(b[..i]) + multiset([b[i]]) + multiset(b[i + 1..]);
    assert multiset(b[..i] + b[i + 1..]) == multiset(b[..i]) + multiset(b[i + 1..]);
    assert multiset(a[1..]) == multiset(a) - multiset([a[0]]);
    assert multiset(b[..i] + b[i + 1..]) == multiset(b) - multiset([b[i]]);
  }

  /** Swaps the elements at positions `i` and `j`. */
  function Swap<T>(s: seq<T>, i: nat, j: nat): (r: seq<T>)
    requires i < |s| && j < |s|
    ensures |r| == |s|
    ensures r[i] == s[j] && r[j] == s[i]
    ensures forall k :: 0 <= k < |s| && k != i && k != j ==> r[k] == s[k]
  {
    s[i := s[j]][j := s[i]]
  }

  /** A swap rearranges. */
  lemma SwapPermutes<T>(s: seq<T>, i: nat, j: nat)
    requires i < |s| && j < |s|
    ensures multiset(Swap(s, i, j)) == multiset(s)
  {
    if i != j {
      assert Swap(s, i, j) == s[i := s[j]][j := s[i]];
    }
  }

  /** The numbers `0, 1, ..., n - 1`. */
  function Range(n: nat): (r: seq<nat>)
    ensures |r| == n && forall k :: 0 <= k < n ==> r[k] == k
  {
    seq(n, k => k)
  }

  /** Nondecreasing sequence of numbers. */
  predicate Ascending(s: seq<int>)
  {
    forall i, j :: 0 <= i < j < |s| ==> s[i] <= s[j]
  }

  /**
   * A nondecreasing sequence holding each of `0 .. n - 1` once is the range
   * itself: this is how a board sorted by `order` gets every cell back to
   * its row-major position.
   */
  lemma {:induction false} AscendingRange(s: seq<nat>, n: nat)
    requires Ascending(s)
    requires multiset(s) == multiset(Range(n))
    ensures s == Range(n)
  {
    assert |s| == |multiset(s)| == n;
    if n > 0 {
      var last := n - 1;
      LastOfRange(s, n);
      RangeDropLast(s, n);
      AscendingRange(s[..last], last);
      assert s == s[..last] + [last];
      assert Range(n) == Range(last) + [last];
    }
  }

  /** The last element of such a sequence is the largest number, `n - 1`. */
  lemma LastOfRange(s: seq<nat>, n: nat)
    requires Ascending(s) && |s| == n > 0
    requires multiset(s) == multiset(Range(n))
    ensures s[n - 1] == n - 1
  {
    var r := Range(n);
    assert r[n - 1] == n - 1;
    assert n - 1 in multiset(s);
    var i :| 0 <= i < |s| && s[i] == n - 1;
    assert s[i] <= s[n - 1];
    assert s[n - 1] in multiset(r);
  }

  /** Dropping that last element leaves the numbers below it. */
  lemma RangeDropLast(s: seq<nat>, n: nat)
    requires |s| == n > 0 && s[n - 1] == n - 1
    requires multiset(s) == multiset(Range(n))
    ensures multiset(s[..n - 1]) == multiset(Range(n - 1))
  {
    var last := n - 1;
    var init := s[..last];
    assert s == init + [last];
    assert Range(n) == Range(last) + [last];
    assert multiset(s) == multiset(init) + multiset{last as nat};
    assert multiset(Range(n)) == multiset(Range(last)) + multiset{last as nat};
    MultisetCancel(multiset(init), multiset(Range(last)), last);
  }

  lemma MultisetCancel<T>(a: multiset<T>, b: multiset<T>, x: T)
    requires a + multiset{x} == b + multiset{x}
    ensures a == b
  {
    assert a == (a + multiset{x}) - multiset{x};
    assert b == (b + multiset{x}) - multiset{x};
  }

  /** Applies `f` to every element. */
  function Map<T, U>(s: seq<T>, f: T -> U): (r: seq<U>)
    ensures |r| == |s| && forall k :: 0 <= k < |s| ==> r[k] == f(s[k])
  {
    seq(|s|, k requires 0 <= k < |s| => f(s[k]))
  }

  lemma MapAppend<T, U>(a: seq<T>, b: seq<T>, f: T -> U)
    ensures Map(a + b, f) == Map(a, f) + Map(b, f)
  {
  }

  /** Mapping commutes with rearrangement. */
  lemma {:induction false} MapPermutation<T, U>(a: seq<T>, b: seq<T>, f: T -> U)
    requires multiset(a) == multiset(b)
    ensures multiset(Map(a, f)) == multiset(Map(b, f))
  {
    if a == [] {
      assert |b| == |multiset(b)| == 0;
      assert Map(b, f) == [];
    } else {
      var x := a[0];
      assert x in multiset(b);
      var i :| 0 <= i < |b| && b[i] == x;
      var rest := b[..i] + b[i + 1..];
      RemoveAt(a, b, i);
      MapPermutation(a[1..], rest, f);
      MapAppend([x], a[1..], f);
      assert Map(a, f) == [f(x)] + Map(a[1..], f) by {
        assert a == [x] + a[1..];
        assert Map([x], f) == [f(x)];
      }
      assert multiset(Map(a, f)) == multiset{f(x)} + multiset(Map(a[1..], f));
      MapRemoved(b, i, f);
    }
  }

  /** Mapping a sequence maps the element at `i` and the rest around it. */
  lemma MapRemoved<T, U>(b: seq<T>, i: nat, f: T -> U)
    requires i < |b|
    ensures multiset(Map(b, f)) == multiset{f(b[i])} + multiset(Map(b[..i] + b[i + 1..], f))
  {
    assert b == b[..i] + [b[i]] + b[i + 1..];
    MapAppend(b[..i] + [b[i]], b[i + 1..], f);
    MapAppend(b[..i], [b[i]], f);
    MapAppend(b[..i], b[i + 1..], f);
  }

  /** A sequence has no more distinct elements than it has positions. */
  lemma {:induction false} SeqSetCard<T>(s: seq<T>)
    ensures |set x | x in s| <= |s|
  {
    if s != [] {
      SeqSetCard(s[1..]);
      assert (set x | x in s) == (set x | x in s[1..]) + {s[0]};
    }
  }

  /** A subset is no larger than its superset. */
  lemma {:induction false} SubsetCard<T>(a: set<T>, b: set<T>)
    requires a <= b
    ensures |a| <= |b|
    decreases b
  {
    if a != {} {
      var x :| x in a;
      SubsetCard(a - {x}, b - {x});
    }
  }

  /** Some element satisfies `p` (`s.some(p)`). */
  function Any<T>(s: seq<T>, p: T -> bool): (r: bool)
    ensures r <==> exists k :: 0 <= k < |s| && p(s[k])
  {
    if s == [] then false
    else
      assert forall k :: 1 <= k < |s| ==> s[k] == s[1..][k - 1];
      p(s[0]) || Any(s[1..], p)
  }

  /** Every element satisfies `p` (`s.every(p)`). */
  function All<T>(s: seq<T>, p: T -> bool): (r: bool)
    ensures r <==> forall k :: 0 <= k < |s| ==> p(s[k])
  {
    if s == [] then true
    else
      assert forall k :: 1 <= k < |s| ==> s[k] == s[1..][k - 1];
      p(s[0]) && All(s[1..], p)
  }

  /** The elements that satisfy `p`, in order (`s.filter(p)`). */
  function Filter<T>(s: seq<T>, p: T -> bool): (r: seq<T>)
    ensures |r| <= |s|
    ensures forall k :: 0 <= k < |r| ==> r[k] in s && p(r[k])
    ensures forall k :: 0 <= k < |s| && p(s[k]) ==> s[k] in r
  {
    if s == [] then []
    else
      assert forall k :: 1 <= k < |s| ==> s[k] == s[1..][k - 1];
      (if p(s[0]) then [s[0]] else []) + Filter(s[1..], p)
  }

  /** Filtering keeps a sub-multiset: an element is kept at most as often as it occurs. */
  lemma {:induction false} FilterSubMultiset<T>(s: seq<T>, p: T -> bool)
    ensures multiset(Filter(s, p)) <= multiset(s)
  {
    if s != [] {
      FilterSubMultiset(s[1..], p);
      var head: seq<T> := if p(s[0]) then [s[0]] else [];
      assert Filter(s, p) == head + Filter(s[1..], p);
      assert s == [s[0]] + s[1..];
      assert multiset(s) == multiset{s[0]} + multiset(s[1..]);
      assert multiset(head) <= multiset{s[0]};
    }
  }

  /** Two rearrangements of each other hold the same elements. */
  lemma SameMembers<T>(a: seq<T>, b: seq<T>)
    requires multiset(a) == multiset(b)
    ensures forall e :: e in b <==> e in a
  {
    forall e
      ensures e in b <==> e in a
    {
      assert e in b <==> e in multiset(b);
      assert e in a <==> e in multiset(a);
    }
  }

  /** A filtered list with one element appended holds that element and exactly the elements that pass. */
  lemma FilterAppendMembers<T>(items: seq<T>, p: T -> bool, item: T)
    ensures var s := Filter(items, p) + [item];
      && item in s
      && (forall e :: e in s && e != item ==> e in items && p(e))
      && (forall k :: 0 <= k < |items| && p(items[k]) ==> items[k] in s)
  {
    var kept := Filter(items, p);
    var s := kept + [item];
    assert s[|kept|] == item;
    forall e | e in s && e != item
      ensures e in items && p(e)
    {
      var j :| 0 <= j < |s| && s[j] == e;
      assert j < |kept| && kept[j] == e;
    }
    forall k | 0 <= k < |items| && p(items[k])
      ensures items[k] in s
    {
      var j :| 0 <= j < |kept| && kept[j] == items[k];
      assert s[j] == items[k];
    }
  }

  /** Filtering a concatenation filters each part. */
  lemma {:induction false} FilterAppend<T>(a: seq<T>, b: seq<T>, p: T -> bool)
    ensures Filter(a + b, p) == Filter(a, p) + Filter(b, p)
  {
    if a != [] {
      assert (a + b)[1..] == a[1..] + b;
      FilterAppend(a[1..], b, p);
    } else {
      assert a + b == b;
    }
  }

  /** Nothing passes a filter that no element satisfies. */
  lemma FilterNone<T>(s: seq<T>, p: T -> bool)
    requires forall k :: 0 <= k < |s| ==> !p(s[k])
    ensures Filter(s, p) == []
  {
    var r := Filter(s, p);
    if r != [] {
      var k :| 0 <= k < |s| && s[k] == r[0];
    }
  }
}
