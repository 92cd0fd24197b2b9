/** What a text reads from a position on. */
module Positions {
  /** From position i on, s reads x. */
  ghost predicate Rest(s: string, i: nat, x: string) {
    i <= |s| && s[i..] == x
  }

  lemma Behind(s: string, i: nat, x: string, y: string)
    requires Rest(s, i, x + y)
    ensures i + |x| + |y| == |s| && s[i..i + |x|] == x && Rest(s, i + |x|, y)
    ensures forall k | 0 <= k < |x| :: s[i + k] == x[k]
    ensures y != "" ==> s[i + |x|] == y[0]
  {
    assert |s[i..]| == |x| + |y|;
    assert s[i..][..|x|] == x;
    assert s[i + |x|..] == s[i..][|x|..] == y;
    forall k | 0 <= k < |x|
      ensures s[i + k] == x[k]
    {
      assert s[i..][k] == x[k];
    }
    if y != "" {
      assert s[i + |x|..][0] == y[0];
    }
  }
}
