/**
 Sequence helpers shared by the favourites/recents store and the tree builder:
 an Option type, the order-preserving filter that deletes one value, and the
 predicates used to state order and uniqueness.
 */
module Seqs {

  datatype Option<T> = None | Some(value: T)

  /** Every element occurs at most once. */
  predicate NoDuplicates<T(==)>(xs: seq<T>) {
    forall i, j :: 0 <= i < j < |xs| ==> xs[i] != xs[j]
  }

  /** `sub` is obtained from `xs` by deleting elements, keeping the relative order of the rest. */
  predicate IsSubsequence<T(==)>(sub: seq<T>, xs: seq<T>)
    decreases |xs|
  {
    if sub == [] then true
    else if xs == [] then false
    else if sub[0] == xs[0] then IsSubsequence(sub[1..], xs[1..])
    else IsSubsequence(sub, xs[1..])
  }

  /** `xs` with every occurrence of the identifier `x` deleted: the `filter(v => v !== x)` idiom. */
  function RemoveAll(xs: seq<string>, x: string): (r: seq<string>)
    ensures x !in r
    ensures forall y :: y in r <==> y in xs && y != x
    ensures forall y :: y != x ==> multiset(r)[y] == multiset(xs)[y]
    ensures IsSubsequence(r, xs)
    ensures x !in xs ==> r == xs
  {
    if xs == [] then []
    else
      assert xs == [xs[0]] + xs[1..];
      if xs[0] == x then RemoveAll(xs[1..], x)
      else [xs[0]] + RemoveAll(xs[1..], x)
  }

  /** Filtering distributes over concatenation: the survivors keep their order. */
  lemma {:induction false} RemoveAllConcat(a: seq<string>, b: seq<string>, x: string)
    ensures RemoveAll(a + b, x) == RemoveAll(a, x) + RemoveAll(b, x)
  {
    if a == [] {
      assert a + b == b;
    } else {
      assert (a + b)[0] == a[0];
      assert (a + b)[1..] == a[1..] + b;
      RemoveAllConcat(a[1..], b, x);
    }
  }

  /** Deleting a value from a duplicate-free sequence leaves it duplicate-free. */
  lemma {:induction false} RemoveAllNoDuplicates(xs: seq<string>, x: string)
    requires NoDuplicates(xs)
    ensures NoDuplicates(RemoveAll(xs, x))
  {
    if xs != [] {
      assert NoDuplicates(xs[1..]) by {
        forall i, j | 0 <= i < j < |xs[1..]|
          ensures xs[1..][i] != xs[1..][j]
        {
          assert xs[1..][i] == xs[i + 1] && xs[1..][j] == xs[j + 1];
        }
      }
      RemoveAllNoDuplicates(xs[1..], x);
      if xs[0] != x {
        var rest := RemoveAll(xs[1..], x);
        assert xs[0] !in xs[1..] by {
          forall k | 0 <= k < |xs[1..]|
            ensures xs[1..][k] != xs[0]
          {
            assert xs[1..][k] == xs[k + 1];
          }
        }
        assert xs[0] !in rest;
        ConsNoDuplicates(xs[0], rest);
      }
    }
  }

  /** Putting a fresh value in front of a duplicate-free sequence keeps it duplicate-free. */
  lemma ConsNoDuplicates<T>(x: T, xs: seq<T>)
    requires NoDuplicates(xs)
    requires x !in xs
    ensures NoDuplicates([x] + xs)
  {
    var ys := [x] + xs;
    forall i, j | 0 <= i < j < |ys|
      ensures ys[i] != ys[j]
    {
      assert ys[j] == xs[j - 1];
      if i > 0 {
        assert ys[i] == xs[i - 1];
      }
    }
  }

  /** Joining two duplicate-free sequences with no common element keeps them duplicate-free. */
  lemma ConcatNoDuplicates<T>(a: seq<T>, b: seq<T>)
    requires NoDuplicates(a) && NoDuplicates(b)
    requires forall x :: x in a ==> x !in b
    ensures NoDuplicates(a + b)
  {
    var ab := a + b;
    forall i, j | 0 <= i < j < |ab|
      ensures ab[i] != ab[j]
    {
      if j < |a| {
        assert ab[i] == a[i] && ab[j] == a[j];
      } else if i >= |a| {
        assert ab[i] == b[i - |a|] && ab[j] == b[j - |a|];
      } else {
        assert ab[i] == a[i] && ab[j] == b[j - |a|];
        assert ab[i] in a && ab[j] in b;
      }
    }
  }

  /** A prefix of a subsequence of `xs` is itself a subsequence of `xs`. */
  lemma {:induction false} PrefixOfSubsequence<T>(sub: seq<T>, xs: seq<T>, k: nat)
    requires IsSubsequence(sub, xs)
    requires k <= |sub|
    ensures IsSubsequence(sub[..k], xs)
    decreases |xs|
  {
    if k == 0 {
    } else if xs == [] {
    } else if sub[0] == xs[0] {
      assert sub[..k][0] == xs[0];
      assert sub[..k][1..] == sub[1..][..k - 1];
      PrefixOfSubsequence(sub[1..], xs[1..], k - 1);
    } else {
      assert sub[..k][0] == sub[0];
      PrefixOfSubsequence(sub, xs[1..], k);
    }
  }

  /** A value put in front of a sequence that lacks it occurs there exactly once. */
  lemma FrontOnce<T>(x: T, xs: seq<T>)
    requires x !in xs
    ensures multiset([x] + xs)[x] == 1
  {
    assert multiset([x] + xs) == multiset{x} + multiset(xs);
  }

  /** Dropping the first element of a subsequence leaves a subsequence. */
  lemma {:induction false} SubsequenceDropFirst<T>(sub: seq<T>, xs: seq<T>)
    requires sub != []
    requires IsSubsequence(sub, xs)
    ensures IsSubsequence(sub[1..], xs)
    decreases |xs|, 2
  {
    if sub[0] == xs[0] {
      if xs[1..] != [] {
        SubsequenceOfTail(sub[1..], xs);
      } else {
        assert sub[1..] == [];
      }
    } else {
      SubsequenceDropFirst(sub, xs[1..]);
      SubsequenceOfTail(sub[1..], xs);
    }
  }

  /** A subsequence of the tail of `xs` is a subsequence of `xs`. */
  lemma {:induction false} SubsequenceOfTail<T>(sub: seq<T>, xs: seq<T>)
    requires xs != []
    requires IsSubsequence(sub, xs[1..])
    ensures IsSubsequence(sub, xs)
    decreases |xs|, 1
  {
    if sub != [] && sub[0] == xs[0] {
      SubsequenceDropFirst(sub, xs[1..]);
    }
  }
}
