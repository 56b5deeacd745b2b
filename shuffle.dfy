/** The in-place Fisher–Yates shuffle the exam applies to its tiles. The random
    index drawn at position i is supplied by the caller as `js[i]`, any value
    in [0, i]. */
module Shuffle {
  import opened Counting

  /** `js` supplies one admissible random index per position. */
  predicate ChoicesFit(js: seq<nat>, n: nat)
  {
    |js| == n && forall i :: 0 <= i < |js| ==> js[i] <= i
  }

  /** `s` with the elements at `i` and `j` exchanged. */
  function Swap<T>(s: seq<T>, i: nat, j: nat): (r: seq<T>)
    requires i < |s| && j < |s|
    ensures |r| == |s| && r[i] == s[j] && r[j] == s[i]
    ensures forall k :: 0 <= k < |s| && k != i && k != j ==> r[k] == s[k]
  {
    s[i := s[j]][j := s[i]]
  }

  /** The sequence after the loop has handled positions |s|-1 down to k. */
  function ShuffledFrom<T>(s: seq<T>, js: seq<nat>, k: nat): (r: seq<T>)
    requires ChoicesFit(js, |s|)
    ensures |r| == |s|
    decreases |s| - k
  {
    if k >= |s| then s
    else Swap(ShuffledFrom(s, js, k + 1), k, js[k])
  }

  /** The result of the whole shuffle: positions |s|-1 down to 1 are handled. */
  function Shuffled<T>(s: seq<T>, js: seq<nat>): seq<T>
    requires ChoicesFit(js, |s|)
  {
    ShuffledFrom(s, js, 1)
  }

  lemma SwapPermutes<T>(s: seq<T>, i: nat, j: nat)
    requires i < |s| && j < |s|
    ensures multiset(Swap(s, i, j)) == multiset(s)
  {
    var t := s[i := s[j]];
    assert multiset(t) == multiset(s) - multiset{s[i]} + multiset{s[j]};
    assert multiset(t[j := s[i]]) == multiset(t) - multiset{t[j]} + multiset{s[i]};
  }

  lemma SwapKeepsCount<T>(s: seq<T>, i: nat, j: nat, p: T -> bool)
    requires i < |s| && j < |s|
    ensures Count(Swap(s, i, j), p) == Count(s, p)
  {
    CountUpdate(s, i, s[j], p);
    CountUpdate(s[i := s[j]], j, s[i], p);
  }

  lemma {:induction false} ShuffledFromPermutes<T>(s: seq<T>, js: seq<nat>, k: nat)
    requires ChoicesFit(js, |s|)
    ensures multiset(ShuffledFrom(s, js, k)) == multiset(s)
    decreases |s| - k
  {
    if k < |s| {
      var prev := ShuffledFrom(s, js, k + 1);
      assert multiset(prev) == multiset(s) by { ShuffledFromPermutes(s, js, k + 1); }
      assert multiset(Swap(prev, k, js[k])) == multiset(prev) by { SwapPermutes(prev, k, js[k]); }
    }
  }

  /** The shuffle keeps the length and yields a permutation of its input. */
  lemma ShuffledPermutes<T>(s: seq<T>, js: seq<nat>)
    requires ChoicesFit(js, |s|)
    ensures |Shuffled(s, js)| == |s|
    ensures multiset(Shuffled(s, js)) == multiset(s)
  {
    ShuffledFromPermutes(s, js, 1);
  }

  lemma {:induction false} ShuffledFromKeepsCount<T>(s: seq<T>, js: seq<nat>, k: nat, p: T -> bool)
    requires ChoicesFit(js, |s|)
    ensures Count(ShuffledFrom(s, js, k), p) == Count(s, p)
    decreases |s| - k
  {
    if k < |s| {
      ShuffledFromKeepsCount(s, js, k + 1, p);
      SwapKeepsCount(ShuffledFrom(s, js, k + 1), k, js[k], p);
    }
  }

  /** However the random indices fall, the shuffle keeps the number of elements
      of every sort (in the exam: of word tiles and of translation tiles). */
  lemma ShuffledKeepsCount<T>(s: seq<T>, js: seq<nat>, p: T -> bool)
    requires ChoicesFit(js, |s|)
    ensures Count(Shuffled(s, js), p) == Count(s, p)
  {
    ShuffledFromKeepsCount(s, js, 1, p);
  }

  /** Choosing j = i at every step leaves the order unchanged. */
  lemma {:induction false} ShuffledFromIdentity<T>(s: seq<T>, js: seq<nat>, k: nat)
    requires ChoicesFit(js, |s|)
    requires forall i :: 0 <= i < |js| ==> js[i] == i
    ensures ShuffledFrom(s, js, k) == s
    decreases |s| - k
  {
    if k < |s| {
      ShuffledFromIdentity(s, js, k + 1);
      assert Swap(s, k, k) == s;
    }
  }

  /** The loop of the shuffle: from the last position down to 1, exchange the
      element at i with the one at the supplied index js[i] <= i. */
  method ShuffleInPlace<T>(a: array<T>, js: seq<nat>)
    requires ChoicesFit(js, a.Length)
    modifies a
    ensures a[..] == Shuffled(old(a[..]), js)
    ensures multiset(a[..]) == multiset(old(a[..]))
  {
    ghost var orig := a[..];
    var i: int := a.Length - 1;
    while i > 0
      invariant -1 <= i < a.Length
      invariant a[..] == ShuffledFrom(orig, js, i + 1)
    {
      var j := js[i];
      a[i], a[j] := a[j], a[i];
      i := i - 1;
    }
    assert a[..] == Shuffled(orig, js);
    ShuffledPermutes(orig, js);
  }
}
