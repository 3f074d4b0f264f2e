// Stable sorting by a comparison, as JavaScript's `Array.prototype.sort`
// does with a comparator: `le(a, b)` holds when the comparator does not put
// `a` after `b` (it returns a value <= 0 for (a, b)).

module Sorting {

  /** Every earlier element is `le` every later one. */
  ghost predicate SortedBy<T>(s: seq<T>, le: (T, T) -> bool) {
    forall i, j :: 0 <= i < j < |s| ==> le(s[i], s[j])
  }

  /** `le` is total and transitive on the elements of `s`. */
  ghost predicate TotalPreorderOn<T>(s: seq<T>, le: (T, T) -> bool) {
    (forall a, b :: a in s && b in s ==> le(a, b) || le(b, a)) &&
    (forall a, b, c :: a in s && b in s && c in s && le(a, b) && le(b, c) ==> le(a, c))
  }

  /** Places `x` after the leading elements that are `le` it. */
  function Insert<T>(x: T, s: seq<T>, le: (T, T) -> bool): (r: seq<T>)
    ensures multiset(r) == multiset(s) + multiset{x}
  {
    if s == [] then [x]
    else if le(s[0], x) then
      assert s == [s[0]] + s[1..];
      [s[0]] + Insert(x, s[1..], le)
    else [x] + s
  }

  /** Insertion sort taking the elements from left to right, so that elements
      the comparison calls equal keep their input order (a stable sort). */
  function Sort<T>(s: seq<T>, le: (T, T) -> bool): (r: seq<T>)
    ensures multiset(r) == multiset(s)
  {
    if s == [] then []
    else
      assert s == s[..|s| - 1] + [s[|s| - 1]];
      Insert(s[|s| - 1], Sort(s[..|s| - 1], le), le)
  }

  lemma SortLength<T>(s: seq<T>, le: (T, T) -> bool)
    ensures |Sort(s, le)| == |s|
  {
    assert |multiset(Sort(s, le))| == |multiset(s)|;
  }

  /** Insertion puts `x` somewhere and leaves the other elements in order. */
  lemma {:induction false} InsertSplits<T>(x: T, s: seq<T>, le: (T, T) -> bool)
    ensures exists k :: 0 <= k <= |s| && Insert(x, s, le) == s[..k] + [x] + s[k..]
  {
    if s == [] {
      assert Insert(x, s, le) == s[..0] + [x] + s[0..];
    } else if le(s[0], x) {
      InsertSplits(x, s[1..], le);
      var k :| 0 <= k <= |s[1..]| && Insert(x, s[1..], le) == s[1..][..k] + [x] + s[1..][k..];
      assert s[..k + 1] == [s[0]] + s[1..][..k];
      assert s[k + 1..] == s[1..][k..];
      calc {
        Insert(x, s, le);
        [s[0]] + Insert(x, s[1..], le);
        [s[0]] + (s[1..][..k] + [x] + s[1..][k..]);
        ([s[0]] + s[1..][..k]) + [x] + s[1..][k..];
        s[..k + 1] + [x] + s[k + 1..];
      }
    } else {
      assert Insert(x, s, le) == s[..0] + [x] + s[0..];
    }
  }

  lemma {:induction false} InsertSorted<T>(x: T, s: seq<T>, le: (T, T) -> bool)
    requires SortedBy(s, le)
    requires TotalPreorderOn(s + [x], le)
    ensures SortedBy(Insert(x, s, le), le)
  {
    if s != [] {
      var r := Insert(x, s, le);
      if le(s[0], x) {
        var t := s[1..];
        assert forall a :: a in t + [x] ==> a in s + [x];
        InsertSorted(x, t, le);
        var u := Insert(x, t, le);
        assert r == [s[0]] + u;
        forall j | 0 <= j < |u|
          ensures le(s[0], u[j])
        {
          assert u[j] in multiset(u);
          if u[j] != x {
            assert u[j] in t;
            var m :| 0 <= m < |t| && t[m] == u[j];
            assert s[m + 1] == u[j];
          }
        }
      } else {
        assert x in s + [x] && s[0] in s + [x];
        forall j | 0 <= j < |s|
          ensures le(x, s[j])
        {
          assert s[j] in s + [x];
          if j > 0 {
            assert le(s[0], s[j]);
          }
        }
      }
    }
  }

  /** With a comparison that is a total preorder, the result is sorted. */
  lemma {:induction false} SortSorted<T>(s: seq<T>, le: (T, T) -> bool)
    requires TotalPreorderOn(s, le)
    ensures SortedBy(Sort(s, le), le)
  {
    if s != [] {
      var init, last := s[..|s| - 1], s[|s| - 1];
      assert forall a :: a in init ==> a in s;
      SortSorted(init, le);
      var t := Sort(init, le);
      forall a | a in t + [last]
        ensures a in s
      {
        if a != last {
          assert a in multiset(t);
        }
      }
      InsertSorted(last, t, le);
    }
  }

  lemma {:induction false} InsertAfterAll<T>(x: T, s: seq<T>, le: (T, T) -> bool)
    requires forall i :: 0 <= i < |s| ==> le(s[i], x)
    ensures Insert(x, s, le) == s + [x]
  {
    if s != [] {
      InsertAfterAll(x, s[1..], le);
      assert s == [s[0]] + s[1..];
    }
  }

  /** A stable sort leaves an already sorted sequence as it is. */
  lemma {:induction false} SortOfSorted<T>(s: seq<T>, le: (T, T) -> bool)
    requires SortedBy(s, le)
    ensures Sort(s, le) == s
  {
    if s != [] {
      var init := s[..|s| - 1];
      SortOfSorted(init, le);
      InsertAfterAll(s[|s| - 1], init, le);
    }
  }

  /** Sorting a sorted sequence with one more element at its end inserts that
      element and keeps the rest as they were. */
  lemma SortAppendToSorted<T>(s: seq<T>, x: T, le: (T, T) -> bool)
    requires SortedBy(s, le)
    ensures Sort(s + [x], le) == Insert(x, s, le)
  {
    assert (s + [x])[..|s + [x]| - 1] == s;
    SortOfSorted(s, le);
  }
}
