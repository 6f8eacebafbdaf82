/** Products and quotients of page and block sizes. */
module Arithmetic {

  lemma {:induction false} Scaled(a: nat, b: nat, k: nat)
    requires a <= b
    ensures 0 <= a * k <= b * k
  {
    if k > 0 {
      Scaled(a, b, k - 1);
      assert a * k == a * (k - 1) + a && b * k == b * (k - 1) + b;
    }
  }

  lemma {:induction false} Smaller(q: nat, r: int, q': nat, r': int, d: nat)
    requires q < q' && r < d && 0 <= r'
    ensures q * d + r < q' * d + r'
  {
    Scaled(q + 1, q', d);
    assert (q + 1) * d == q * d + d;
  }

  lemma {:induction false} QuotientIsOne(q: nat, r: int, q': nat, r': int, d: nat)
    requires 0 <= r < d && 0 <= r' < d && q * d + r == q' * d + r'
    ensures q == q' && r == r'
  {
    if q < q' {
      Smaller(q, r, q', r', d);
    } else if q' < q {
      Smaller(q', r', q, r, d);
    }
  }

  /** Dividing q * d + r by d gives back q and r. */
  lemma {:induction false} DivMod(q: nat, r: int, d: nat)
    requires 0 <= r < d
    ensures (q * d + r) / d == q && (q * d + r) % d == r
  {
    var x := q * d + r;
    Scaled(0, q, d);
    assert x == (x / d) * d + x % d;
    QuotientIsOne(q, r, x / d, x % d, d);
  }
}
