/** Orderings of a sequence in the order of `itertools::permutations(len)`, which
    picks the elements by position: for each position in turn, its element
    followed by every ordering of the others. */
module Orderings {

  /** `s` without its i-th element */
  function RemoveAt<T>(s: seq<T>, i: nat): (r: seq<T>)
    requires i < |s|
    ensures |r| == |s| - 1
  {
    s[..i] + s[i + 1..]
  }

  /** Taking out one element takes one copy of it out of the multiset */
  lemma RemoveAtMultiset<T>(s: seq<T>, i: nat)
    requires i < |s|
    ensures multiset(RemoveAt(s, i)) == multiset(s) - multiset{s[i]}
  {
    assert s == s[..i] + [s[i]] + s[i + 1..];
  }

  /** Each sequence of `ps` behind the element `c` */
  function Prefixed<T>(c: T, ps: seq<seq<T>>): (r: seq<seq<T>>)
    ensures |r| == |ps| && forall k :: 0 <= k < |ps| ==> r[k] == [c] + ps[k]
  {
    seq(|ps|, k requires 0 <= k < |ps| => [c] + ps[k])
  }

  /** `permutations(len)` of the elements of `s`: for each position in turn,
      its element followed by every permutation of the others, so that the
      order is lexicographic in the positions */
  function Permutations<T>(s: seq<T>): seq<seq<T>>
    decreases |s|, |s| + 1
  {
    if |s| == 0 then [[]] else PermutationsFrom(s, 0)
  }

  /** The permutations that start with the element at position i or later */
  function PermutationsFrom<T>(s: seq<T>, i: nat): seq<seq<T>>
    requires i <= |s|
    decreases |s|, |s| - i
  {
    if i == |s| then []
    else Prefixed(s[i], Permutations(RemoveAt(s, i))) + PermutationsFrom(s, i + 1)
  }

  /** Every sequence listed is a rearrangement of `s` */
  lemma {:induction false} PermutationsPermute<T>(s: seq<T>)
    ensures forall p :: p in Permutations(s) ==> multiset(p) == multiset(s)
    decreases |s|, |s| + 1
  {
    if |s| > 0 {
      PermutationsFromPermute(s, 0);
    }
  }

  lemma {:induction false} PermutationsFromPermute<T>(s: seq<T>, i: nat)
    requires i <= |s|
    ensures forall p :: p in PermutationsFrom(s, i) ==> multiset(p) == multiset(s)
    decreases |s|, |s| - i
  {
    if i < |s| {
      var rest := RemoveAt(s, i);
      PermutationsPermute(rest);
      PermutationsFromPermute(s, i + 1);
      RemoveAtMultiset(s, i);
      PrefixedPermute(s[i], Permutations(rest), multiset(rest));
      assert PermutationsFrom(s, i) == Prefixed(s[i], Permutations(rest)) + PermutationsFrom(s, i + 1);
    }
  }

  /** Putting `c` in front of sequences with the same elements adds `c` to each */
  lemma PrefixedPermute<T>(c: T, ps: seq<seq<T>>, m: multiset<T>)
    requires forall q :: q in ps ==> multiset(q) == m
    ensures forall p :: p in Prefixed(c, ps) ==> multiset(p) == multiset{c} + m
  {
    forall p | p in Prefixed(c, ps)
      ensures multiset(p) == multiset{c} + m
    {
      var k :| 0 <= k < |ps| && Prefixed(c, ps)[k] == p;
      assert ps[k] in ps;
    }
  }

  /** Every rearrangement of `s` is listed */
  lemma {:induction false} PermutationsComplete<T>(s: seq<T>, t: seq<T>)
    requires multiset(t) == multiset(s)
    ensures t in Permutations(s)
    decreases |s|, |s| + 1
  {
    if |s| == 0 {
      assert |t| == |multiset(t)| == 0;
    } else {
      assert |t| == |s| by {
        assert |multiset(t)| == |multiset(s)|;
      }
      assert t[0] in multiset(s) by {
        assert t == [t[0]] + t[1..];
      }
      var i :| 0 <= i < |s| && s[i] == t[0];
      PermutationsFromContains(s, 0, i, t);
    }
  }

  lemma {:induction false} PermutationsFromContains<T>(s: seq<T>, j: nat, i: nat, t: seq<T>)
    requires j <= i < |s| && |t| > 0 && s[i] == t[0]
    requires multiset(t) == multiset(s)
    ensures t in PermutationsFrom(s, j)
    decreases |s|, |s| - j
  {
    var front := Prefixed(s[j], Permutations(RemoveAt(s, j)));
    assert PermutationsFrom(s, j) == front + PermutationsFrom(s, j + 1);
    if j < i {
      PermutationsFromContains(s, j + 1, i, t);
    } else {
      var rest := RemoveAt(s, i);
      assert multiset(t[1..]) == multiset(rest) by {
        RemoveAtMultiset(s, i);
        RemoveAtMultiset(t, 0);
        assert RemoveAt(t, 0) == t[1..];
      }
      PermutationsComplete(rest, t[1..]);
      PrefixedContains(s[i], Permutations(rest), t);
    }
  }

  /** A sequence whose tail is listed is listed behind its head */
  lemma PrefixedContains<T>(c: T, ps: seq<seq<T>>, t: seq<T>)
    requires |t| > 0 && t[0] == c && t[1..] in ps
    ensures t in Prefixed(c, ps)
  {
    var k :| 0 <= k < |ps| && ps[k] == t[1..];
    assert Prefixed(c, ps)[k] == [c] + t[1..] == t;
  }
}
