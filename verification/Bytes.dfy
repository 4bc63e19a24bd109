/** Bytes, and picking out part of a sequence. */
module Bytes {

  type byte = x: int | 0 <= x < 256

  /** The n elements of s from `from` on. */
  function Part<T>(s: seq<T>, from: nat, n: nat): (r: seq<T>)
    requires from + n <= |s|
    ensures |r| == n && forall i :: 0 <= i < n ==> r[i] == s[from + i]
  {
    seq(n, i requires 0 <= i < n => s[from + i])
  }

  lemma Regroup<T>(a: seq<T>, b: seq<T>, c: seq<T>)
    ensures a + b + c == a + (b + c)
  {
  }
}
