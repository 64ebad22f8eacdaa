/** Counting the elements of a sequence that satisfy a predicate. */
module Counting {

  function Count<T>(s: seq<T>, f: T -> bool): (k: nat)
    ensures k <= |s|
  {
    if s == [] then 0 else (if f(s[0]) then 1 else 0) + Count(s[1..], f)
  }

  /** Replacing one element changes the count by what that element changes. */
  lemma {:induction false} CountUpdate<T>(s: seq<T>, p: nat, x: T, f: T -> bool)
    requires p < |s|
    ensures Count(s[p := x], f)
         == Count(s, f) - (if f(s[p]) then 1 else 0) + (if f(x) then 1 else 0)
  {
    if p == 0 {
      assert s[p := x][1..] == s[1..];
    } else {
      assert s[p := x][1..] == s[1..][p - 1 := x];
      CountUpdate(s[1..], p - 1, x, f);
    }
  }

  lemma {:induction false} CountNone<T>(s: seq<T>, f: T -> bool)
    requires forall i :: 0 <= i < |s| ==> !f(s[i])
    ensures Count(s, f) == 0
  {
    if s != [] { CountNone(s[1..], f); }
  }

  lemma {:induction false} CountPositive<T>(s: seq<T>, p: nat, f: T -> bool)
    requires p < |s| && f(s[p])
    ensures Count(s, f) > 0
  {
    if p > 0 { CountPositive(s[1..], p - 1, f); }
  }

  lemma {:induction false} CountWitness<T>(s: seq<T>, f: T -> bool) returns (p: nat)
    requires Count(s, f) > 0
    ensures p < |s| && f(s[p])
  {
    if f(s[0]) {
      p := 0;
    } else {
      var q := CountWitness(s[1..], f);
      p := q + 1;
    }
  }
}
