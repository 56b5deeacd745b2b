/** Counting the elements of a sequence that satisfy a predicate. Used for the
    number of word and translation tiles and for the number of faded tiles. */
module Counting {

  /** The number of elements of `s` for which `p` holds. */
  function Count<T>(s: seq<T>, p: T -> bool): (r: nat)
    ensures r <= |s|
    ensures r == 0 || exists i :: 0 <= i < |s| && p(s[i])
  {
    if s == [] then 0
    else (if p(s[0]) then 1 else 0) + Count(s[1..], p)
  }

  lemma {:induction false} CountAppend<T>(a: seq<T>, b: seq<T>, p: T -> bool)
    ensures Count(a + b, p) == Count(a, p) + Count(b, p)
  {
    if a == [] {
      assert a + b == b;
    } else {
      assert (a + b)[1..] == a[1..] + b;
      CountAppend(a[1..], b, p);
    }
  }

  /** Replacing one element changes the count by what the old and new element contribute. */
  lemma {:induction false} CountUpdate<T>(s: seq<T>, i: nat, x: T, p: T -> bool)
    requires i < |s|
    ensures Count(s[i := x], p) + (if p(s[i]) then 1 else 0)
         == Count(s, p) + (if p(x) then 1 else 0)
  {
    if i > 0 {
      assert s[i := x][1..] == s[1..][i - 1 := x];
      CountUpdate(s[1..], i - 1, x, p);
    } else {
      assert s[i := x][1..] == s[1..];
    }
  }

  /** A count that reaches the length means every element satisfies the predicate. */
  lemma {:induction false} CountFull<T>(s: seq<T>, p: T -> bool)
    requires Count(s, p) == |s|
    ensures forall i :: 0 <= i < |s| ==> p(s[i])
  {
    if s != [] {
      CountFull(s[1..], p);
      forall i | 0 <= i < |s| ensures p(s[i]) {
        if i > 0 { assert s[i] == s[1..][i - 1]; }
      }
    }
  }

  /** Every element satisfies the predicate exactly when the count is the length. */
  lemma {:induction false} CountAll<T>(s: seq<T>, p: T -> bool)
    requires forall i :: 0 <= i < |s| ==> p(s[i])
    ensures Count(s, p) == |s|
  {
    if s != [] {
      assert forall i :: 0 <= i < |s[1..]| ==> p(s[1..][i]) by {
        forall i | 0 <= i < |s[1..]| ensures p(s[1..][i]) { assert s[1..][i] == s[i + 1]; }
      }
      CountAll(s[1..], p);
    }
  }

  /** No element satisfies the predicate: the count is zero. */
  lemma {:induction false} CountNone<T>(s: seq<T>, p: T -> bool)
    requires forall i :: 0 <= i < |s| ==> !p(s[i])
    ensures Count(s, p) == 0
  {
    if s != [] {
      assert forall i :: 0 <= i < |s[1..]| ==> !p(s[1..][i]) by {
        forall i | 0 <= i < |s[1..]| ensures !p(s[1..][i]) { assert s[1..][i] == s[i + 1]; }
      }
      CountNone(s[1..], p);
    }
  }
}
