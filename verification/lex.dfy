/**
 Python's ordering of `str` values (code point by code point, a proper prefix
 first), the `sorted` the mount table goes through, and `bisect.bisect_right`
 over a sorted list.  Also the one fact about prefixes the router's
 correctness rests on: whatever sorts between a string and one of its
 extensions extends it too.
 */
module Lex {
  import opened PyStr

  /** Python's `a <= b` on `str`. */
  predicate Le(a: string, b: string)
    decreases |a|
  {
    |a| == 0 || (|b| > 0 && (a[0] < b[0] || (a[0] == b[0] && Le(a[1..], b[1..]))))
  }

  /** Python's `a < b` on `str`. */
  predicate Lt(a: string, b: string) {
    Le(a, b) && a != b
  }

  lemma {:induction false} LeReflexive(a: string)
    ensures Le(a, a)
    decreases |a|
  {
    if |a| > 0 {
      LeReflexive(a[1..]);
    }
  }

  lemma {:induction false} LeAntisymmetric(a: string, b: string)
    requires Le(a, b) && Le(b, a)
    ensures a == b
    decreases |a|
  {
    if |a| > 0 {
      LeAntisymmetric(a[1..], b[1..]);
      assert a == [a[0]] + a[1..] && b == [b[0]] + b[1..];
    }
  }

  lemma {:induction false} LeTransitive(a: string, b: string, c: string)
    requires Le(a, b) && Le(b, c)
    ensures Le(a, c)
    decreases |a|
  {
    if |a| > 0 && a[0] == b[0] && b[0] == c[0] {
      LeTransitive(a[1..], b[1..], c[1..]);
    }
  }

  lemma {:induction false} LeTotal(a: string, b: string)
    ensures Le(a, b) || Le(b, a)
    decreases |a|
  {
    if |a| > 0 && |b| > 0 && a[0] == b[0] {
      LeTotal(a[1..], b[1..]);
    }
  }

  /** A string sorts no later than any string it is a prefix of. */
  lemma {:induction false} PrefixLe(a: string, b: string)
    requires StartsWith(b, a)
    ensures Le(a, b)
    decreases |a|
  {
    if |a| > 0 {
      assert b[1..][..|a| - 1] == a[1..];
      PrefixLe(a[1..], b[1..]);
    }
  }

  /**
   If `a` is a prefix of `b`, every string sorting between them also starts
   with `a`.
   */
  lemma {:induction false} Sandwich(a: string, c: string, b: string)
    requires Le(a, c) && Le(c, b)
    requires StartsWith(b, a)
    ensures StartsWith(c, a)
    decreases |a|
  {
    if |a| > 0 {
      assert b[0] == a[0];
      assert b[1..][..|a| - 1] == a[1..];
      Sandwich(a[1..], c[1..], b[1..]);
      assert c[..|a|] == [c[0]] + c[1..][..|a| - 1];
      assert a == [a[0]] + a[1..];
    }
  }

  predicate Sorted(s: seq<string>) {
    forall i, j :: 0 <= i < j < |s| ==> Le(s[i], s[j])
  }

  /** No value occurs twice (as with the keys of a `dict`). */
  predicate Distinct<T(==)>(s: seq<T>) {
    forall i, j :: 0 <= i < j < |s| ==> s[i] != s[j]
  }

  /** Every element of a permutation of `s + [x]` is bounded below by a bound of `s` and `x`. */
  lemma BoundedBelow(lo: string, t: seq<string>, s: seq<string>, x: string)
    requires multiset(t) == multiset(s) + multiset{x}
    requires Le(lo, x)
    requires forall j :: 0 <= j < |s| ==> Le(lo, s[j])
    ensures forall k :: 0 <= k < |t| ==> Le(lo, t[k])
  {
    forall k | 0 <= k < |t| ensures Le(lo, t[k]) {
      assert t[k] in multiset(t);
      if t[k] != x {
        assert t[k] in multiset(s);
      }
    }
  }

  /** Insert `x` before the first element it sorts no later than. */
  function Insert(x: string, s: seq<string>): (r: seq<string>)
    requires Sorted(s)
    ensures Sorted(r)
    ensures multiset(r) == multiset(s) + multiset{x}
    ensures Distinct(s) && x !in s ==> Distinct(r)
  {
    if |s| == 0 then [x]
    else if Le(x, s[0]) then
      InsertFirst(x, s);
      [x] + s
    else
      var tail := Insert(x, s[1..]);
      InsertLater(x, s, tail);
      [s[0]] + tail
  }

  /** `x` sorting no later than the head of a sorted list may go in front of it. */
  lemma InsertFirst(x: string, s: seq<string>)
    requires Sorted(s) && |s| > 0 && Le(x, s[0])
    ensures Sorted([x] + s)
  {
    forall j | 0 <= j < |s| ensures Le(x, s[j]) {
      if j > 0 { LeTransitive(x, s[0], s[j]); }
    }
  }

  /** The head of a sorted list stays in front of the tail's insertion of a later `x`. */
  lemma InsertLater(x: string, s: seq<string>, tail: seq<string>)
    requires Sorted(s) && |s| > 0 && !Le(x, s[0])
    requires Sorted(tail) && multiset(tail) == multiset(s[1..]) + multiset{x}
    requires Distinct(s[1..]) && x !in s[1..] ==> Distinct(tail)
    ensures Sorted([s[0]] + tail)
    ensures multiset([s[0]] + tail) == multiset(s) + multiset{x}
    ensures Distinct(s) && x !in s ==> Distinct([s[0]] + tail)
  {
    LeTotal(x, s[0]);
    BoundedBelow(s[0], tail, s[1..], x);
    assert s == [s[0]] + s[1..];
    assert Distinct(s) && x !in s ==> s[0] !in multiset(tail);
  }

  /** `sorted(xs)`: a sorted permutation of `xs`. */
  function Sort(xs: seq<string>): (r: seq<string>)
    ensures Sorted(r)
    ensures multiset(r) == multiset(xs)
    ensures Distinct(xs) ==> Distinct(r)
  {
    if |xs| == 0 then []
    else
      var rest := Sort(xs[1..]);
      SortStep(xs, rest);
      Insert(xs[0], rest)
  }

  /** What sorting the tail of `xs` leaves for inserting its head. */
  lemma SortStep(xs: seq<string>, rest: seq<string>)
    requires |xs| > 0 && multiset(rest) == multiset(xs[1..])
    ensures multiset(rest) + multiset{xs[0]} == multiset(xs)
    ensures Distinct(xs) ==> Distinct(xs[1..]) && xs[0] !in rest
  {
    assert xs == [xs[0]] + xs[1..];
    assert Distinct(xs) ==> xs[0] !in multiset(rest);
  }

  /**
   The body of `bisect_right(a, x)` once the elements before `lo` are known to
   be at most `x` and those from `hi` on to be greater.
   */
  function BisectFrom(a: seq<string>, x: string, lo: nat, hi: nat): (i: nat)
    requires Sorted(a)
    requires lo <= hi <= |a|
    requires forall k :: 0 <= k < lo ==> Le(a[k], x)
    requires forall k :: hi <= k < |a| ==> Lt(x, a[k])
    ensures lo <= i <= hi
    ensures forall k :: 0 <= k < i ==> Le(a[k], x)
    ensures forall k :: i <= k < |a| ==> Lt(x, a[k])
    decreases hi - lo
  {
    if lo == hi then lo
    else
      var mid := (lo + hi) / 2;
      if Lt(x, a[mid]) then
        assert forall k :: mid <= k < hi ==> Lt(x, a[k]) by {
          forall k | mid <= k < hi ensures Lt(x, a[k]) {
            if k > mid {
              LeTransitive(x, a[mid], a[k]);
              if x == a[k] {
                LeAntisymmetric(a[mid], a[k]);
              }
            }
          }
        }
        BisectFrom(a, x, lo, mid)
      else
        LeTotal(x, a[mid]);
        assert Le(a[mid], x);
        assert forall k :: lo <= k <= mid ==> Le(a[k], x) by {
          forall k | lo <= k <= mid ensures Le(a[k], x) {
            if k < mid { LeTransitive(a[k], a[mid], x); }
          }
        }
        BisectFrom(a, x, mid + 1, hi)
  }

  /**
   `bisect.bisect_right(a, x)`: the index that splits the sorted `a` into the
   elements at most `x` and those greater than `x`.
   */
  function BisectRight(a: seq<string>, x: string): (i: nat)
    requires Sorted(a)
    ensures i <= |a|
    ensures forall k :: 0 <= k < i ==> Le(a[k], x)
    ensures forall k :: i <= k < |a| ==> Lt(x, a[k])
  {
    BisectFrom(a, x, 0, |a|)
  }
}
