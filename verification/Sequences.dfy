/** Regrouping of sequences. */
module Sequences {
  lemma Assoc<T>(a: seq<T>, b: seq<T>, c: seq<T>)
    ensures a + b + c == a + (b + c)
  {
  }

  lemma Regroup<T>(before: seq<T>, a: seq<T>, b: seq<T>, c: seq<T>)
    ensures before + (a + b + c) == before + a + b + c
  {
  }

  lemma CutBehind<T>(before: seq<T>, s: seq<T>, n: nat)
    requires n <= |s|
    ensures before + s[..n] + s[n..] == before + s
  {
    assert s == s[..n] + s[n..];
  }
}
