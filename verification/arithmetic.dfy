/** Facts about products and remainders of integers that several components count with. */
module Arithmetic {

  lemma MulStep(p: int, q: int, d: int)
    requires d > 0 && p < q
    ensures p * d + d <= q * d
  {
    var k := q - p - 1;
    assert k * d >= 0;
    assert q * d == (p + 1 + k) * d == p * d + d + k * d;
  }

  /** Quotient and remainder are unique. */
  lemma ModIsUnique(m: int, d: int, q: int, r: int)
    requires 0 <= r < d && m == q * d + r
    ensures m / d == q && m % d == r
  {
    var e := m / d;
    assert m == e * d + m % d;
    if e > q {
      MulStep(q, e, d);
    } else if e < q {
      MulStep(e, q, d);
    }
  }

  lemma ModStep(k: nat, d: nat)
    requires d > 0
    ensures (k + 1) % d == if k % d + 1 == d then 0 else k % d + 1
  {
    var q, r := k / d, k % d;
    assert k == q * d + r;
    if r + 1 == d {
      assert (q + 1) * d == q * d + d;
      ModIsUnique(k + 1, d, q + 1, 0);
    } else {
      ModIsUnique(k + 1, d, q, r + 1);
    }
  }

  lemma SameRemainder(a: int, b: int, d: int)
    requires d > 0
    ensures a % d == b % d <==> (a - b) % d == 0
  {
    var q, r, p, s := a / d, a % d, b / d, b % d;
    assert a == q * d + r && b == p * d + s;
    assert (q - p) * d == q * d - p * d && (q - p - 1) * d == q * d - p * d - d;
    if r >= s {
      ModIsUnique(a - b, d, q - p, r - s);
    } else {
      ModIsUnique(a - b, d, q - p - 1, d + r - s);
    }
  }
}
