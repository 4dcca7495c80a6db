/** Small facts about sequences, kept apart from the terms they are used on. */
module Sequences {

  lemma Regroup<T>(a: seq<T>, b: seq<T>, c: seq<T>)
    ensures a + (b + c) == a + b + c
  {}

  lemma SubSlice<T>(s: seq<T>, a: nat, b: nat, c: nat, d: nat)
    requires a <= b <= |s| && c <= d <= b - a
    ensures s[a..b][c..d] == s[a + c..a + d]
  {
    var x, y := s[a..b][c..d], s[a + c..a + d];
    assert |x| == |y| && forall j :: 0 <= j < |x| ==> x[j] == y[j];
  }

  /** What does not change from one index to the next does not change over a stretch. */
  lemma {:induction false} Constant<T>(f: nat -> T, a: nat, n: nat)
    requires forall j :: a <= j < a + n ==> f(j) == f(j + 1)
    ensures f(a) == f(a + n)
    decreases n
  {
    if n > 0 { Constant(f, a, n - 1); }
  }
}
