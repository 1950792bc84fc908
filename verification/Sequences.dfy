/** Facts about slices that the solver does not always find by itself. */
module Sequences {
  lemma SubSlice<T>(s: seq<T>, from: nat, to: nat, at: nat, n: nat)
    requires from <= to <= |s| && from + at + n <= to
    ensures at + n <= |s[from..to]| && s[from..to][at..at + n] == s[from + at..from + at + n]
  {
    var a, b := s[from..to][at..at + n], s[from + at..from + at + n];
    assert forall i :: 0 <= i < n ==> a[i] == b[i];
  }

  lemma AfterHead<T>(head: seq<T>, rest: seq<T>, from: int, to: int)
    ensures 0 <= from <= to <= |rest| ==> (head + rest)[|head| + from..|head| + to] == rest[from..to]
  {
    if 0 <= from <= to <= |rest| {
      var a, b := (head + rest)[|head| + from..|head| + to], rest[from..to];
      assert forall i :: 0 <= i < to - from ==> a[i] == b[i];
    }
  }

  lemma Regroup<T>(a: seq<T>, b: seq<T>, c: seq<T>)
    ensures a + (b + c) == a + b + c
  {
  }
}
