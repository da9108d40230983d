/** Products and quotients of naturals. */
module Division {

  lemma {:induction false} MulMonotone(x: nat, y: nat, d: nat)
    requires x <= y
    ensures x * d <= y * d
    decreases y
  {
    if x < y {
      MulMonotone(x, y - 1, d);
      assert y * d == (y - 1) * d + d;
    }
  }

  lemma MulOrder(a: nat, b: nat, d: nat)
    requires d > 0
    ensures a < b <==> a * d < b * d
    ensures a < b <==> a * d + d <= b * d
  {
    if a < b {
      MulMonotone(a + 1, b, d);
      assert (a + 1) * d == a * d + d;
    } else {
      MulMonotone(b, a, d);
    }
  }

  /** Quotient and remainder are unique. */
  lemma DivUnique(x: nat, d: nat, q: nat, r: nat)
    requires 0 <= r < d && x == q * d + r
    ensures x / d == q && x % d == r
  {
    var q' := x / d;
    MulOrder(q, q', d);
    MulOrder(q', q, d);
  }
}
