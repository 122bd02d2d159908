/** Sequence operations that the dashboard's Python lists rely on: slicing with
    negative indices, `list.remove`, and filtering. */
module Seqs {

  /** No element occurs twice. */
  predicate Distinct<T(==)>(s: seq<T>) {
    forall i, j :: 0 <= i < j < |s| ==> s[i] != s[j]
  }

  /** Python's `s[k:]`: a negative `k` counts from the end, and a start that falls
      outside the list is clamped to its ends. */
  function SliceFrom<T>(s: seq<T>, k: int): seq<T> {
    var start := if k < 0 then (if |s| + k < 0 then 0 else |s| + k)
                 else (if k > |s| then |s| else k);
    s[start..]
  }

  /** The last `min(n, |s|)` elements of `s`, oldest first (the reference definition
      of "the most recent n"). */
  function LastN<T>(s: seq<T>, n: nat): seq<T> {
    if n < |s| then s[|s| - n..] else s
  }

  /** `s[-n:]` in Python is the last `n` elements when `n >= 1`, but the whole list
      when `n == 0`, because `-0 == 0`. */
  lemma SliceFromNegated<T>(s: seq<T>, n: int)
    ensures n >= 1 ==> SliceFrom(s, -n) == LastN(s, n)
    ensures n == 0 ==> SliceFrom(s, -n) == s
    ensures n < 0 ==> SliceFrom(s, -n) == s[if -n < |s| then -n else |s|..]
  {
  }

  /** Position of the first occurrence of `x` (what `list.remove` looks for). */
  function IndexOf<T(==)>(s: seq<T>, x: T): (i: nat)
    requires x in s
    ensures i < |s| && s[i] == x && x !in s[..i]
  {
    if s[0] == x then 0 else 1 + IndexOf(s[1..], x)
  }

  /** Python's `list.remove(x)` guarded by `x in list`: the first occurrence of `x`
      is taken out; a list without `x` is returned as it is. */
  function RemoveFirst<T(==)>(s: seq<T>, x: T): (r: seq<T>)
    ensures x in s ==> |r| == |s| - 1
    ensures x !in s ==> r == s
  {
    if x in s then s[..IndexOf(s, x)] + s[IndexOf(s, x) + 1..] else s
  }

  /** The elements of `s` that are not in `X`, in their original order. */
  function Without<T(==)>(s: seq<T>, X: set<T>): (r: seq<T>)
    ensures |r| <= |s|
  {
    if |s| == 0 then [] else (if s[0] in X then [] else [s[0]]) + Without(s[1..], X)
  }

  /** `Without(s, X)` holds exactly the elements of `s` outside `X`. */
  lemma {:induction false} WithoutMembers<T>(s: seq<T>, X: set<T>)
    ensures forall y :: y in Without(s, X) <==> y in s && y !in X
  {
    if |s| > 0 {
      WithoutMembers(s[1..], X);
      assert s == [s[0]] + s[1..];
    }
  }

  lemma {:induction false} WithoutAppend<T>(a: seq<T>, b: seq<T>, X: set<T>)
    ensures Without(a + b, X) == Without(a, X) + Without(b, X)
  {
    if |a| > 0 {
      var head := if a[0] in X then [] else [a[0]];
      assert (a + b)[0] == a[0];
      assert (a + b)[1..] == a[1..] + b;
      WithoutAppend(a[1..], b, X);
      assert Without(a + b, X) == head + (Without(a[1..], X) + Without(b, X));
    } else {
      assert a + b == b;
    }
  }

  /** Filtering out elements that do not occur changes nothing. */
  lemma {:induction false} WithoutAbsent<T>(s: seq<T>, X: set<T>)
    requires forall y :: y in s ==> y !in X
    ensures Without(s, X) == s
  {
    if |s| > 0 {
      WithoutAbsent(s[1..], X);
    }
  }

  /** Only the members of `X` that occur in `s` matter. */
  lemma {:induction false} WithoutSameOnS<T>(s: seq<T>, X: set<T>, Y: set<T>)
    requires forall y :: y in s ==> (y in X <==> y in Y)
    ensures Without(s, X) == Without(s, Y)
  {
    if |s| > 0 {
      WithoutSameOnS(s[1..], X, Y);
    }
  }

  /** Filtering twice is filtering once by the union. */
  lemma {:induction false} WithoutWithout<T>(s: seq<T>, X: set<T>, Y: set<T>)
    ensures Without(Without(s, X), Y) == Without(s, X + Y)
  {
    if |s| > 0 {
      WithoutAppend(if s[0] in X then [] else [s[0]], Without(s[1..], X), Y);
      WithoutWithout(s[1..], X, Y);
    }
  }

  lemma {:induction false} WithoutDistinct<T>(s: seq<T>, X: set<T>)
    requires Distinct(s)
    ensures Distinct(Without(s, X))
  {
    if |s| > 0 {
      WithoutDistinct(s[1..], X);
      var r := Without(s, X);
      var tail := Without(s[1..], X);
      if s[0] !in X {
        assert r == [s[0]] + tail;
        assert s[0] !in tail by {
          WithoutMembers(s[1..], X);
          assert s[0] !in s[1..];
        }
      }
    }
  }

  /** On a list without repeats, `list.remove(x)` is the same as filtering `x` out:
      every other element stays, in order. */
  lemma RemoveFirstDistinct<T>(s: seq<T>, x: T)
    requires Distinct(s)
    ensures RemoveFirst(s, x) == Without(s, {x})
  {
    if x in s {
      var i := IndexOf(s, x);
      assert x !in s[i + 1..] by {
        forall k | i + 1 <= k < |s| ensures s[k] != x {
          assert s[i] == x;
        }
      }
      WithoutSingleOccurrence(s[..i], x, s[i + 1..]);
      assert s == s[..i] + [x] + s[i + 1..];
    } else {
      WithoutAbsent(s, {x});
    }
  }

  lemma WithoutSingleOccurrence<T>(before: seq<T>, x: T, after: seq<T>)
    requires x !in before && x !in after
    ensures Without(before + [x] + after, {x}) == before + after
  {
    var front := before + [x];
    WithoutAppend(front, after, {x});
    WithoutAppend(before, [x], {x});
    assert Without(front, {x}) == before by {
      WithoutAbsent(before, {x});
      assert [x][1..] == [];
    }
    WithoutAbsent(after, {x});
  }

  lemma Associative<T>(a: seq<T>, b: seq<T>, c: seq<T>)
    ensures a + (b + c) == (a + b) + c
  {
  }

  lemma RightUnit<T>(a: seq<T>)
    ensures a + [] == a
  {
  }

  /** What does not occur in `s` does not occur in either part of it. */
  lemma NotInParts<T>(s: seq<T>, x: T, i: nat)
    requires i <= |s| && x !in s
    ensures x !in s[..i] && x !in s[i..]
  {
    assert s == s[..i] + s[i..];
  }
}
