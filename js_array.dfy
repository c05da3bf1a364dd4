/**
 * The three Array.prototype methods every handler of the task list is built
 * from (`filter`, `map`, `some`), over immutable sequences: each call
 * visits the elements in order and builds a new array.
 */
module JsArray {

  /** Array.prototype.filter: the elements for which `keep` holds, in their original order. */
  function Filter<T(!new)>(s: seq<T>, keep: T -> bool): (r: seq<T>)
    ensures |r| <= |s|
    ensures forall x :: x in r <==> x in s && keep(x)
  {
    if s == [] then []
    else if keep(s[0]) then [s[0]] + Filter(s[1..], keep)
    else Filter(s[1..], keep)
  }

  /** Every kept value occurs in the result exactly as often as in `s`; nothing else occurs. */
  lemma {:induction false} FilterCount<T(!new)>(s: seq<T>, keep: T -> bool, x: T)
    ensures multiset(Filter(s, keep))[x] == if keep(x) then multiset(s)[x] else 0
  {
    if s != [] {
      FilterCount(s[1..], keep, x);
      assert s == [s[0]] + s[1..];
    }
  }

  /** Array.prototype.map with a callback that returns a value for every element. */
  function Map<T, U>(s: seq<T>, f: T -> U): (r: seq<U>)
    ensures |r| == |s|
    ensures forall i :: 0 <= i < |s| ==> r[i] == f(s[i])
  {
    if s == [] then [] else [f(s[0])] + Map(s[1..], f)
  }

  /** Array.prototype.some. */
  function Any<T(!new)>(s: seq<T>, p: T -> bool): (b: bool)
    ensures b <==> exists x :: x in s && p(x)
  {
    if s == [] then false else p(s[0]) || Any(s[1..], p)
  }

  /** `idx` lists, in increasing order, the positions of `s` that `sub` is made of. */
  ghost predicate Embeds<T>(sub: seq<T>, s: seq<T>, idx: seq<int>) {
    && |idx| == |sub|
    && (forall k :: 0 <= k < |idx| ==> 0 <= idx[k] < |s| && sub[k] == s[idx[k]])
    && (forall k, l :: 0 <= k < l < |idx| ==> idx[k] < idx[l])
  }

  /** `sub` is `s` with some elements left out and the rest in their original order. */
  ghost predicate IsSubsequence<T>(sub: seq<T>, s: seq<T>) {
    exists idx :: Embeds(sub, s, idx)
  }

  /** `filter` keeps the order of what it keeps. */
  lemma {:induction false} FilterIsSubsequence<T(!new)>(s: seq<T>, keep: T -> bool)
    ensures IsSubsequence(Filter(s, keep), s)
  {
    if s == [] {
      assert Embeds(Filter(s, keep), s, []);
    } else {
      var rest := Filter(s[1..], keep);
      FilterIsSubsequence(s[1..], keep);
      var idx :| Embeds(rest, s[1..], idx);
      var shifted := seq(|idx|, k requires 0 <= k < |idx| => idx[k] + 1);
      assert Embeds(rest, s, shifted) by {
        forall k | 0 <= k < |shifted| ensures 0 <= shifted[k] < |s| && rest[k] == s[shifted[k]] {
          assert rest[k] == s[1..][idx[k]];
        }
      }
      if keep(s[0]) {
        var all := [0] + shifted;
        assert Filter(s, keep) == [s[0]] + rest;
        assert Embeds([s[0]] + rest, s, all) by {
          forall k | 0 < k < |all| ensures all[k] == shifted[k - 1] && all[k] > 0 { }
        }
      }
    }
  }

  /** A second `filter` with the same callback removes nothing more. */
  lemma {:induction false} FilterIdempotent<T(!new)>(s: seq<T>, keep: T -> bool)
    ensures Filter(Filter(s, keep), keep) == Filter(s, keep)
  {
    if s != [] {
      FilterIdempotent(s[1..], keep);
    }
  }

  /** `filter` returns its input unchanged exactly when every element passes. */
  lemma {:induction false} FilterUnchangedIff<T(!new)>(s: seq<T>, keep: T -> bool)
    ensures Filter(s, keep) == s <==> forall x :: x in s ==> keep(x)
  {
    if s != [] && forall x :: x in s ==> keep(x) {
      assert forall x :: x in s[1..] ==> x in s;
      FilterUnchangedIff(s[1..], keep);
      assert s[0] in s;
      assert Filter(s, keep) == [s[0]] + s[1..];
    }
  }

  /** `filter` returns an empty array exactly when no element passes. */
  lemma {:induction false} FilterEmptyIff<T(!new)>(s: seq<T>, keep: T -> bool)
    ensures Filter(s, keep) == [] <==> forall x :: x in s ==> !keep(x)
  {
    if s != [] && forall x :: x in s ==> !keep(x) {
      assert forall x :: x in s[1..] ==> x in s;
      FilterEmptyIff(s[1..], keep);
      assert s[0] in s;
    }
  }

  /** Two callbacks that agree on every element select the same elements. */
  lemma {:induction false} FilterCongruent<T(!new)>(s: seq<T>, p: T -> bool, q: T -> bool)
    requires forall x :: x in s ==> p(x) == q(x)
    ensures Filter(s, p) == Filter(s, q)
  {
    if s != [] {
      FilterCongruent(s[1..], p, q);
    }
  }

  /** Complementary callbacks split `s` into two parts that together hold every element of it. */
  lemma FilterPartition<T(!new)>(s: seq<T>, p: T -> bool, q: T -> bool)
    requires forall x :: x in s ==> q(x) == !p(x)
    ensures multiset(Filter(s, p)) + multiset(Filter(s, q)) == multiset(s)
    ensures |Filter(s, p)| + |Filter(s, q)| == |s|
  {
    var a, b := multiset(Filter(s, p)), multiset(Filter(s, q));
    forall x ensures (a + b)[x] == multiset(s)[x] {
      FilterCount(s, p, x);
      FilterCount(s, q, x);
      if x !in s {
        assert multiset(s)[x] == 0;
      }
    }
    assert a + b == multiset(s);
    assert |a + b| == |a| + |b|;
  }

  /** Mapping twice with a callback that undoes itself restores the input. */
  lemma MapInvolution<T>(s: seq<T>, f: T -> T)
    requires forall x :: x in s ==> f(f(x)) == x
    ensures Map(Map(s, f), f) == s
  {
    forall i | 0 <= i < |s| ensures Map(Map(s, f), f)[i] == s[i] {
      assert s[i] in s;
    }
  }
}
