/** Products and floor division, as the scaling arithmetic needs them. */
module Division {

  lemma MulLe(a: int, b: int, t: int)
    requires a <= b && 0 <= t
    ensures a * t <= b * t
  {
    assert 0 <= (b - a) * t;
  }

  lemma LtCancel(a: int, b: int, t: int)
    requires a * t < b * t && 0 < t
    ensures a < b
  {
    if b <= a {
      MulLe(b, a, t);
    }
  }

  lemma DivBounds(a: int, t: int)
    requires 0 < t
    ensures (a / t) * t <= a < (a / t) * t + t
  {
  }

  lemma DivIs(a: int, t: int, q: int)
    requires 0 < t && q * t <= a < q * t + t
    ensures a / t == q
  {
    DivBounds(a, t);
    assert (q + 1) * t == q * t + t && (a / t + 1) * t == (a / t) * t + t;
    LtCancel(q, a / t + 1, t);
    LtCancel(a / t, q + 1, t);
  }

  lemma DivMonotone(a: int, b: int, t: int)
    requires 0 < t && a <= b
    ensures a / t <= b / t
  {
    DivBounds(a, t);
    DivBounds(b, t);
    assert (b / t + 1) * t == (b / t) * t + t;
    LtCancel(a / t, b / t + 1, t);
  }

  lemma DivOneMore(a: int, t: int)
    requires 0 < t
    ensures (a + t) / t == a / t + 1
  {
    DivBounds(a, t);
    assert (a / t + 1) * t == (a / t) * t + t;
    DivIs(a + t, t, a / t + 1);
  }

  lemma DivOfProduct(q: int, t: int)
    requires 0 < t
    ensures q * t / t == q
  {
    DivIs(q * t, t, q);
  }

  /** A quotient lies between what the dividend lies between multiples of. */
  lemma DivBetween(a: int, t: int, lo: int, hi: int)
    requires 0 < t && lo * t <= a <= hi * t
    ensures lo <= a / t <= hi
  {
    DivOfProduct(lo, t);
    DivOfProduct(hi, t);
    DivMonotone(lo * t, a, t);
    DivMonotone(a, hi * t, t);
  }
}
