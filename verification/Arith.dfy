/** Rounding up to a multiple, and the division facts it rests on. */
module Arith {
  lemma {:induction false} PositiveProduct(e: nat, d: nat)
    requires e > 0
    ensures e * d >= d
  {
    assert e * d == (e - 1) * d + d;
  }

  lemma {:induction false} ProductAtLeast(e: int, d: nat)
    ensures e > 0 ==> e * d >= d
    ensures e < 0 ==> e * d + d <= 0
  {
    if e > 0 {
      PositiveProduct(e, d);
    } else if e < 0 {
      PositiveProduct(-e, d);
      assert (-e) * d == -(e * d);
    }
  }

  lemma {:induction false} Quotient(n: nat, d: nat, q: nat, r: nat)
    requires r < d && n == q * d + r
    ensures n / d == q && n % d == r
  {
    var e := n / d - q;
    assert n == n / d * d + n % d;
    assert e * d == n / d * d - q * d;
    ProductAtLeast(e, d);
  }

  lemma {:induction false} MultipleHasNoRemainder(q: nat, d: nat)
    requires d > 0
    ensures (q * d) % d == 0 && q * d / d == q
  {
    Quotient(q * d, d, q, 0);
  }

  /** Sums of multiples are multiples. */
  lemma {:induction false} SumOfMultiples(a: nat, b: nat, d: nat)
    requires d > 0 && a % d == 0 && b % d == 0
    ensures (a + b) % d == 0
    ensures a >= b ==> (a - b) % d == 0
  {
    assert a == a / d * d && b == b / d * d;
    assert a + b == (a / d + b / d) * d;
    MultipleHasNoRemainder(a / d + b / d, d);
    ProductAtLeast(a / d - b / d, d);
    assert a - b == (a / d - b / d) * d;
    if a >= b {
      MultipleHasNoRemainder(a / d - b / d, d);
    }
  }

  /** The least multiple of `size` that is at least `n`. */
  function AlignUp(n: nat, size: nat): (m: nat)
    requires n > 0 && size > 0
    ensures m % size == 0 && n <= m < n + size
  {
    Rounding(n, size);
    ((n - 1) / size + 1) * size
  }

  lemma {:induction false} Rounding(n: nat, size: nat)
    requires n > 0 && size > 0
    ensures (((n - 1) / size + 1) * size) % size == 0
    ensures n <= ((n - 1) / size + 1) * size < n + size
  {
    assert n - 1 == (n - 1) / size * size + (n - 1) % size;
    assert ((n - 1) / size + 1) * size == (n - 1) / size * size + size;
    MultipleHasNoRemainder((n - 1) / size + 1, size);
  }

  /** Rounding up is the least choice, and does not see whole multiples. */
  lemma {:induction false} AlignUpIsLeast(n: nat, size: nat, m: nat)
    requires n > 0 && size > 0 && n <= m && m % size == 0
    ensures AlignUp(n, size) <= m
  {
    var up := AlignUp(n, size);
    assert m == m / size * size && up == up / size * size;
    ProductAtLeast(up / size - m / size, size);
    assert up - m == (up / size - m / size) * size;
  }

  lemma {:induction false} AlignUpSkipsMultiples(q: nat, n: nat, size: nat)
    requires n > 0 && size > 0 && q % size == 0
    ensures AlignUp(q + n, size) == q + AlignUp(n, size)
  {
    SumOfMultiples(q, AlignUp(n, size), size);
    AlignUpIsLeast(q + n, size, q + AlignUp(n, size));
    SumOfMultiples(AlignUp(q + n, size), q, size);
    AlignUpIsLeast(n, size, AlignUp(q + n, size) - q);
  }
}
