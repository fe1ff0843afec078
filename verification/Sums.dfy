/** Sums of a weight over a sequence, as used to count threads by their state. */
module Sums {

  function Sum<T>(s: seq<T>, f: T -> nat): nat {
    if s == [] then 0 else f(s[0]) + Sum(s[1..], f)
  }

  lemma {:induction false} SumUpdate<T>(s: seq<T>, i: int, x: T, f: T -> nat)
    requires 0 <= i < |s|
    ensures Sum(s[i := x], f) + f(s[i]) == Sum(s, f) + f(x)
  {
    if i == 0 {
      assert s[i := x][1..] == s[1..];
    } else {
      assert s[i := x][1..] == s[1..][i - 1 := x];
      SumUpdate(s[1..], i - 1, x, f);
    }
  }

  lemma {:induction false} SumSnoc<T>(s: seq<T>, x: T, f: T -> nat)
    ensures Sum(s + [x], f) == Sum(s, f) + f(x)
  {
    if s == [] {
      assert s + [x] == [x];
    } else {
      assert (s + [x])[1..] == s[1..] + [x];
      SumSnoc(s[1..], x, f);
    }
  }

  lemma {:induction false} SumAtMost<T>(s: seq<T>, f: T -> nat, k: nat)
    requires forall x :: f(x) <= k
    ensures Sum(s, f) <= k * |s|
  {
    if s != [] {
      SumAtMost(s[1..], f, k);
      assert k * |s| == k * |s[1..]| + k;
    }
  }

  /** A sum short of all ones has an element that does not contribute. */
  lemma {:induction false} SumShort<T>(s: seq<T>, f: T -> nat) returns (i: nat)
    requires Sum(s, f) < |s|
    ensures i < |s| && f(s[i]) == 0
  {
    if f(s[0]) == 0 {
      i := 0;
    } else {
      i := SumShort(s[1..], f);
      i := i + 1;
    }
  }

  lemma {:induction false} SumPositive<T>(s: seq<T>, f: T -> nat) returns (i: nat)
    requires Sum(s, f) > 0
    ensures i < |s| && f(s[i]) > 0
  {
    if f(s[0]) > 0 {
      i := 0;
    } else {
      i := SumPositive(s[1..], f);
      i := i + 1;
    }
  }

  lemma {:induction false} SumOf<T>(s: seq<T>, f: T -> nat, k: nat)
    requires forall i :: 0 <= i < |s| ==> f(s[i]) == k
    ensures Sum(s, f) == k * |s|
  {
    if s != [] {
      SumOf(s[1..], f, k);
      assert k * |s| == k * |s[1..]| + k;
    }
  }
}
