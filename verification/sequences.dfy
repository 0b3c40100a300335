/** Order and uniqueness facts about lists, used to state how the page's
    report of missing fields is laid out. */
module Sequences {

  /** `xs` is `ys` with some elements left out, the order kept. */
  predicate IsSubsequence<T(==)>(xs: seq<T>, ys: seq<T>)
    decreases |ys|
  {
    if |xs| == 0 then true
    else if |ys| == 0 then false
    else if xs[0] == ys[0] then IsSubsequence(xs[1..], ys[1..])
    else IsSubsequence(xs, ys[1..])
  }

  /** No element occurs twice. */
  predicate Distinct<T(==)>(xs: seq<T>) {
    forall i, j :: 0 <= i < j < |xs| ==> xs[i] != xs[j]
  }

  /** Leaving elements out never adds any: a subsequence is no longer than
      the original and every element of it occurs in the original. */
  lemma {:induction false} SubsequenceContained<T>(xs: seq<T>, ys: seq<T>)
    requires IsSubsequence(xs, ys)
    ensures |xs| <= |ys|
    ensures forall x :: x in xs ==> x in ys
    decreases |ys|
  {
    if |xs| > 0 {
      if xs[0] == ys[0] {
        SubsequenceContained(xs[1..], ys[1..]);
        forall x | x in xs ensures x in ys {
          if x != xs[0] {
            assert x in xs[1..];
          }
        }
      } else {
        SubsequenceContained(xs, ys[1..]);
      }
    }
  }

  /** A subsequence of a list without repetitions has none either. */
  lemma {:induction false} SubsequenceDistinct<T>(xs: seq<T>, ys: seq<T>)
    requires IsSubsequence(xs, ys)
    requires Distinct(ys)
    ensures Distinct(xs)
    decreases |ys|
  {
    if |xs| > 0 {
      assert Distinct(ys[1..]) by {
        forall i, j | 0 <= i < j < |ys[1..]| ensures ys[1..][i] != ys[1..][j] {
          assert ys[1..][i] == ys[i + 1] && ys[1..][j] == ys[j + 1];
        }
      }
      if xs[0] == ys[0] {
        SubsequenceDistinct(xs[1..], ys[1..]);
        SubsequenceContained(xs[1..], ys[1..]);
        forall i, j | 0 <= i < j < |xs| ensures xs[i] != xs[j] {
          if i == 0 {
            assert xs[j] in xs[1..] by { assert xs[j] == xs[1..][j - 1]; }
            assert ys[0] !in ys[1..] by {
              forall k | 0 <= k < |ys[1..]| ensures ys[1..][k] != ys[0] {
                assert ys[1..][k] == ys[k + 1];
              }
            }
          } else {
            assert xs[i] == xs[1..][i - 1] && xs[j] == xs[1..][j - 1];
          }
        }
      } else {
        SubsequenceDistinct(xs, ys[1..]);
      }
    }
  }

  /** Putting one more element in front of the longer list keeps a
      subsequence a subsequence. */
  lemma {:induction false} SubsequenceCons<T>(xs: seq<T>, y: T, ys: seq<T>)
    requires IsSubsequence(xs, ys)
    ensures IsSubsequence(xs, [y] + ys)
    decreases |ys|, 1
  {
    assert ([y] + ys)[0] == y && ([y] + ys)[1..] == ys;
    if |xs| > 0 && xs[0] == y {
      SubsequenceTail(xs, ys);
    }
  }

  /** Dropping the first element of a subsequence keeps it a subsequence. */
  lemma {:induction false} SubsequenceTail<T>(xs: seq<T>, ys: seq<T>)
    requires |xs| > 0
    requires IsSubsequence(xs, ys)
    ensures IsSubsequence(xs[1..], ys)
    decreases |ys|, 0
  {
    if xs[0] != ys[0] {
      SubsequenceTail(xs, ys[1..]);
    }
    SubsequenceCons(xs[1..], ys[0], ys[1..]);
    assert [ys[0]] + ys[1..] == ys;
  }

  /** Concatenation is associative. */
  lemma AppendAssoc<T>(a: seq<T>, b: seq<T>, c: seq<T>)
    ensures (a + b) + c == a + (b + c)
  {
  }

  /** The elements of `xs` that satisfy `keep`, in their order. */
  function Select<T>(xs: seq<T>, keep: T -> bool): (r: seq<T>)
    ensures |r| <= |xs|
    decreases |xs|
  {
    if |xs| == 0 then []
    else (if keep(xs[0]) then [xs[0]] else []) + Select(xs[1..], keep)
  }

  /** Selecting from a list extended by one element selects from the list,
      then that element if it is kept. */
  lemma {:induction false} SelectSnoc<T>(xs: seq<T>, x: T, keep: T -> bool)
    ensures Select(xs + [x], keep) == Select(xs, keep) + (if keep(x) then [x] else [])
    decreases |xs|
  {
    if |xs| == 0 {
      assert xs + [x] == [x];
      assert [x][1..] == [];
    } else {
      assert (xs + [x])[0] == xs[0];
      assert (xs + [x])[1..] == xs[1..] + [x];
      SelectSnoc(xs[1..], x, keep);
    }
  }

  /** What is selected keeps its order in the original list. */
  lemma {:induction false} SelectIsSubsequence<T>(xs: seq<T>, keep: T -> bool)
    ensures IsSubsequence(Select(xs, keep), xs)
    decreases |xs|
  {
    if |xs| > 0 {
      SelectIsSubsequence(xs[1..], keep);
      var rest := Select(xs[1..], keep);
      if keep(xs[0]) {
        assert Select(xs, keep) == [xs[0]] + rest;
        assert ([xs[0]] + rest)[1..] == rest;
      } else {
        assert Select(xs, keep) == rest;
        SubsequenceCons(rest, xs[0], xs[1..]);
        assert [xs[0]] + xs[1..] == xs;
      }
    }
  }

  /** An element is selected exactly when it is in the list and kept. */
  lemma {:induction false} SelectMember<T>(xs: seq<T>, keep: T -> bool, x: T)
    ensures x in Select(xs, keep) <==> x in xs && keep(x)
    decreases |xs|
  {
    if |xs| > 0 {
      SelectMember(xs[1..], keep, x);
      assert x in xs <==> x == xs[0] || x in xs[1..];
    }
  }

  /** A repetition-free list holding `x` and nothing else is `[x]`. */
  lemma DistinctSingleton<T>(xs: seq<T>, x: T)
    requires Distinct(xs)
    requires x in xs
    requires forall y :: y in xs ==> y == x
    ensures xs == [x]
  {
    var last := |xs| - 1;
    assert xs[0] in xs && xs[last] in xs;
    assert xs[0] == xs[last];
    assert |xs| == 1;
  }
}
