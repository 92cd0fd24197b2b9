/** Quotients and remainders. */
module Arithmetic {
  lemma AtLeast(k: int, size: nat)
    requires k >= 1
    ensures k * size >= size
  {
    assert (k - 1) * size >= 0;
    assert k * size == (k - 1) * size + size;
  }

  lemma Distribute(q: int, q': int, size: nat)
    ensures (q - q') * size == q * size - q' * size
  {
  }

  lemma OneRemainder(size: nat, q: int, r: int, q': int, r': int)
    requires 0 <= r < size && 0 <= r' < size && q * size + r == q' * size + r'
    ensures r == r'
  {
    Distribute(q, q', size);
    Distribute(q', q, size);
    if q > q' {
      AtLeast(q - q', size);
    } else if q < q' {
      AtLeast(q' - q, size);
    }
  }

  lemma ModDown(a: nat, size: nat)
    requires 0 < size <= a
    ensures (a - size) % size == a % size
  {
    var q, q' := a / size, (a - size) / size;
    assert a == q * size + a % size;
    assert a - size == q' * size + (a - size) % size;
    Distribute(q, 1, size);
    OneRemainder(size, q - 1, a % size, q', (a - size) % size);
  }

  lemma Remainder(a: nat, m: nat, q: nat, r: nat)
    requires r < m && a == q * m + r
    ensures a % m == r
  {
    assert a == a / m * m + a % m;
    OneRemainder(m, a / m, a % m, q, r);
  }
}
