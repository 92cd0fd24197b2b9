/** 32-bit words as the sequence of their bits, most significant bit first, which
    is how the count-leading-zeros instruction numbers them; and the `&` of a hash
    with a mask. */
module Bits {
  import opened Arithmetic

  type Word = w: seq<bool> | |w| == 32 witness seq(32, _ => false)

  const ALL_ONES: Word := seq(32, _ => true)
  const ZERO: Word := seq(32, _ => false)

  /** `w & ~(1 << (31 - n))`. */
  function ClearBit(w: Word, n: nat): Word
    requires n < 32
  {
    w[n := false]
  }

  /** `w != 0`. */
  predicate NonZero(w: Word) {
    true in w
  }

  /** The count-leading-zeros builtin: the first set bit of a non-zero word. */
  function Clz(w: Word): (n: nat)
    requires NonZero(w)
    ensures n < 32 && w[n]
    ensures forall k | 0 <= k < n :: !w[k]
  {
    FirstSet(w, 0)
  }

  function FirstSet(w: Word, from: nat): (n: nat)
    requires from < 32
    requires true in w[from..]
    ensures from <= n < 32 && w[n]
    ensures forall k | from <= k < n :: !w[k]
    decreases 32 - from
  {
    if w[from] then from else FirstSet(w, from + 1)
  }

  function Pow2(n: nat): (p: nat)
    ensures p > 0
  {
    if n == 0 then 1 else 2 * Pow2(n - 1)
  }

  lemma {:induction false} NextPower(a: nat, b: nat)
    requires Pow2(a) < Pow2(b)
    ensures Pow2(a + 1) <= Pow2(b)
  {
    if a > 0 && b > 0 {
      NextPower(a - 1, b - 1);
    }
  }

  /** Bitwise `&` of two naturals. A result never exceeds the mask, which is why
      `hash & mask` is a bucket number. */
  function And(a: nat, b: nat): (r: nat)
    ensures r <= b
  {
    if a == 0 || b == 0 then 0 else 2 * And(a / 2, b / 2) + (a % 2) * (b % 2)
  }

  lemma AndStep(a: nat, b: nat)
    ensures And(a, b) == 2 * And(a / 2, b / 2) + (a % 2) * (b % 2)
  {
  }

  lemma HalfMask(n: nat)
    requires n > 0
    ensures (2 * n - 1) / 2 == n - 1 && (2 * n - 1) % 2 == 1
  {
  }

  /** With a mask of ones at the end, what is left is the remainder. */
  lemma {:induction false} MaskIsRemainder(a: nat, k: nat)
    ensures And(a, Pow2(k) - 1) == a % Pow2(k)
  {
    if k == 0 {
      AndStep(a, 0);
    } else {
      hide And;
      var n := Pow2(k - 1);
      MaskIsRemainder(a / 2, k - 1);
      AndStep(a, 2 * n - 1);
      HalfMask(n);
      HalfRemainder(a, n);
    }
  }

  /** The remainder by an even number, from the halves. */
  lemma HalfRemainder(a: nat, n: nat)
    requires n > 0
    ensures a % (2 * n) == 2 * (a / 2 % n) + a % 2
  {
    var q, r := a / 2 / n, a / 2 % n;
    assert a == 2 * (a / 2) + a % 2 && a / 2 == n * q + r;
    assert a == q * (2 * n) + (2 * r + a % 2);
    Remainder(a, 2 * n, q, 2 * r + a % 2);
  }
}
