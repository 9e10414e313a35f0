/**
 Small vocabulary about sequences that the other modules share: having no
 duplicates, the set of elements, being obtained by leaving elements out, the
 last elements, and removing an element. The library functions that the source
 calls on arrays (filtering, slicing, membership) are stated with these.
 */
module Sequences {
  ghost predicate Distinct<T>(s: seq<T>) {
    forall i, j :: 0 <= i < j < |s| ==> s[i] != s[j]
  }

  ghost function Elements<T>(s: seq<T>): set<T> {
    set x | x in s
  }

  /** `a` can be had from `b` by leaving elements out. */
  ghost predicate Subsequence<T>(a: seq<T>, b: seq<T>)
    decreases |b|
  {
    a == [] ||
    (b != [] &&
     (Subsequence(a, b[..|b| - 1]) ||
      (a[|a| - 1] == b[|b| - 1] && Subsequence(a[..|a| - 1], b[..|b| - 1]))))
  }

  lemma {:induction false} SubsequenceAppend<T>(a: seq<T>, b: seq<T>, c: seq<T>)
    requires Subsequence(a, b)
    ensures Subsequence(a + c, b + c)
    decreases |c|
  {
    if c == [] {
      assert a + c == a && b + c == b;
    } else {
      var c' := c[..|c| - 1];
      SubsequenceAppend(a, b, c');
      assert (a + c)[..|a + c| - 1] == a + c' && (b + c)[..|b + c| - 1] == b + c';
    }
  }

  lemma {:induction false} SubsequencePrepend<T>(x: T, a: seq<T>, b: seq<T>)
    requires Subsequence(a, b)
    ensures Subsequence(a, [x] + b) && Subsequence([x] + a, [x] + b)
    decreases |b|
  {
    assert Subsequence([], [x]) && Subsequence([x], [x]) by {
      assert [x][..0] == [];
    }
    if b == [] {
      assert [x] + a == [x] && [x] + b == [x];
    } else {
      var n := |b| - 1;
      assert ([x] + b)[..|[x] + b| - 1] == [x] + b[..n];
      if Subsequence(a, b[..n]) {
        SubsequencePrepend(x, a, b[..n]);
      } else if a != [] {
        SubsequencePrepend(x, a[..|a| - 1], b[..n]);
        assert ([x] + a)[..|[x] + a| - 1] == [x] + a[..|a| - 1];
      }
    }
  }

  /** The last `n` elements, or all if there are fewer. */
  function LastN<T>(s: seq<T>, n: nat): seq<T> {
    if |s| <= n then s else s[|s| - n..]
  }

  /** Keeping only the last elements each time an element arrives loses nothing of the last ones overall. */
  lemma LastNAppend<T>(s: seq<T>, x: T, n: nat)
    ensures LastN(LastN(s, n) + [x], n) == LastN(s + [x], n)
  {
  }

  /** All elements but `x`. */
  function Without<T(==, !new)>(s: seq<T>, x: T): (r: seq<T>)
    ensures forall y :: y in r <==> y in s && y != x
  {
    if s == [] then []
    else Without(s[..|s| - 1], x) + if s[|s| - 1] == x then [] else [s[|s| - 1]]
  }

  lemma {:induction false} WithoutKeepsDistinct<T(!new)>(s: seq<T>, x: T)
    requires Distinct(s)
    ensures Distinct(Without(s, x))
  {
    if s != [] {
      var init := s[..|s| - 1];
      WithoutKeepsDistinct(init, x);
      assert forall i :: 0 <= i < |init| ==> init[i] != s[|s| - 1];
      assert s[|s| - 1] !in init;
    }
  }

  // ---- Sums ----

  function Sum(s: seq<int>): int {
    if s == [] then 0 else Sum(s[..|s| - 1]) + s[|s| - 1]
  }

  lemma SumOfOne(x: int)
    ensures Sum([x]) == x
  {
    assert [x][..0] == [];
  }
}
