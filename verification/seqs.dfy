/** Generic sequence facts: subsequences, counting, and reordering. */
module Seqs {

  /** `a` can be obtained from `b` by deleting elements. */
  predicate IsSubsequence<T(==)>(a: seq<T>, b: seq<T>)
    decreases |b|
  {
    if |a| == 0 then true
    else if |b| == 0 then false
    else (a[0] == b[0] && IsSubsequence(a[1..], b[1..])) || IsSubsequence(a, b[1..])
  }

  /** A subsequence of the tail is a subsequence of the whole. */
  lemma SubsequenceSkip<T>(a: seq<T>, b: seq<T>)
    requires |b| > 0 && IsSubsequence(a, b[1..])
    ensures IsSubsequence(a, b)
  {
  }

  /** Keeping the head of `b` extends a subsequence of its tail. */
  lemma SubsequenceCons<T>(a: seq<T>, b: seq<T>)
    requires |b| > 0 && IsSubsequence(a, b[1..])
    ensures IsSubsequence([b[0]] + a, b)
  {
    assert ([b[0]] + a)[1..] == a;
  }

  /** Number of elements of `s` that satisfy `p`. */
  function Count<T>(s: seq<T>, p: T -> bool): (n: nat)
    ensures n <= |s|
  {
    if |s| == 0 then 0 else Count(s[..|s| - 1], p) + (if p(s[|s| - 1]) then 1 else 0)
  }

  lemma {:induction false} CountAppend<T>(a: seq<T>, b: seq<T>, p: T -> bool)
    ensures Count(a + b, p) == Count(a, p) + Count(b, p)
    decreases |b|
  {
    if |b| == 0 {
      assert a + b == a;
    } else {
      assert (a + b)[..|a + b| - 1] == a + b[..|b| - 1];
      CountAppend(a, b[..|b| - 1], p);
    }
  }

  /** Counting ignores the order of the elements. */
  lemma {:induction false} CountPermutation<T>(a: seq<T>, b: seq<T>, p: T -> bool)
    requires multiset(a) == multiset(b)
    ensures Count(a, p) == Count(b, p)
    decreases |a|
  {
    if |a| == 0 {
      assert |b| == |multiset(b)| == 0;
    } else {
      var x := a[|a| - 1];
      var a' := a[..|a| - 1];
      assert x in multiset(b);
      var j :| 0 <= j < |b| && b[j] == x;
      var b' := b[..j] + b[j + 1..];
      assert multiset(a') == multiset(b') by {
        RemoveAt(a, |a| - 1);
        RemoveAt(b, j);
        assert a[..|a| - 1] + a[|a|..] == a';
      }
      CountPermutation(a', b', p);
      CountRemove(b, p, j);
    }
  }

  /** Dropping position `j` drops its contribution to the count. */
  lemma CountRemove<T>(b: seq<T>, p: T -> bool, j: nat)
    requires j < |b|
    ensures Count(b, p) == Count(b[..j] + b[j + 1..], p) + (if p(b[j]) then 1 else 0)
  {
    var upto, right := b[..j + 1], b[j + 1..];
    assert upto + right == b;
    CountAppend(upto, right, p);
    assert upto[..j] == b[..j] && upto[j] == b[j];
    CountAppend(b[..j], right, p);
  }

  /** An element that satisfies `p` is counted. */
  lemma {:induction false} CountPositive<T>(s: seq<T>, p: T -> bool, i: nat)
    requires i < |s| && p(s[i])
    ensures Count(s, p) >= 1
    decreases |s|
  {
    if i < |s| - 1 {
      CountPositive(s[..|s| - 1], p, i);
    }
  }

  /** `f` applied to every element of `s`, in order. */
  function Map<A, B>(f: A -> B, s: seq<A>): (r: seq<B>)
    ensures |r| == |s| && forall k :: 0 <= k < |s| ==> r[k] == f(s[k])
  {
    seq(|s|, k requires 0 <= k < |s| => f(s[k]))
  }

  lemma MapAppend<A, B>(f: A -> B, u: seq<A>, w: seq<A>)
    ensures Map(f, u + w) == Map(f, u) + Map(f, w)
  {
  }

  /** Dropping position `j` drops one copy of `b[j]`. */
  lemma RemoveAt<T>(b: seq<T>, j: nat)
    requires j < |b|
    ensures multiset(b[..j] + b[j + 1..]) == multiset(b) - multiset{b[j]}
  {
    assert b == b[..j] + [b[j]] + b[j + 1..];
  }

  /** Dropping position `j` from `b` drops one `f(b[j])` from its image. */
  lemma MapRemove<A, B>(f: A -> B, b: seq<A>, j: nat)
    requires j < |b|
    ensures multiset(Map(f, b)) == multiset(Map(f, b[..j] + b[j + 1..])) + multiset{f(b[j])}
  {
    assert b == b[..j] + [b[j]] + b[j + 1..];
    MapAppend(f, b[..j] + [b[j]], b[j + 1..]);
    MapAppend(f, b[..j], [b[j]]);
    MapAppend(f, b[..j], b[j + 1..]);
  }

  /** Rearranging a sequence rearranges its image: the multiset of images
      depends only on the multiset of elements. */
  lemma {:induction false} MapPermutation<A, B>(f: A -> B, a: seq<A>, b: seq<A>)
    requires multiset(a) == multiset(b)
    ensures multiset(Map(f, a)) == multiset(Map(f, b))
    decreases |a|
  {
    if |a| == 0 {
      assert |b| == |multiset(b)| == 0;
    } else {
      var x := a[|a| - 1];
      var a' := a[..|a| - 1];
      assert x in multiset(b);
      var j :| 0 <= j < |b| && b[j] == x;
      var b' := b[..j] + b[j + 1..];
      assert multiset(a') == multiset(b') by {
        RemoveAt(a, |a| - 1);
        RemoveAt(b, j);
        assert a[..|a| - 1] + a[|a|..] == a';
      }
      MapPermutation(f, a', b');
      MapRemove(f, b, j);
      MapRemove(f, a, |a| - 1);
      assert a[..|a| - 1] + a[|a|..] == a';
    }
  }

  /** Some element of `s` satisfies `p`. */
  predicate Exists<T>(s: seq<T>, p: T -> bool) {
    exists i :: 0 <= i < |s| && p(s[i])
  }

  /** Some element satisfies `p` exactly when the head does or some element of the tail does. */
  lemma ExistsCons<T>(s: seq<T>, p: T -> bool)
    requires |s| > 0
    ensures Exists(s, p) <==> p(s[0]) || Exists(s[1..], p)
  {
    if Exists(s, p) {
      var i :| 0 <= i < |s| && p(s[i]);
      if i > 0 {
        assert s[1..][i - 1] == s[i];
      }
    }
    if Exists(s[1..], p) {
      var i :| 0 <= i < |s[1..]| && p(s[1..][i]);
      assert s[i + 1] == s[1..][i];
    }
  }

  /** An element of a rearrangement of `b` sits somewhere in `b`. */
  lemma Located<T>(a: seq<T>, b: seq<T>, i: nat) returns (k: nat)
    requires multiset(a) == multiset(b) && i < |a|
    ensures k < |b| && b[k] == a[i]
  {
    assert a[i] in multiset(b);
    k :| 0 <= k < |b| && b[k] == a[i];
  }
}
