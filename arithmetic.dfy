/** Facts about Euclidean division by a positive divisor, shared by the
    index arithmetic of `resample` and the shifts and masks of the colour
    decoder. */
module Arithmetic {

  lemma DivMod(x: int, d: int)
    requires d > 0
    ensures x == d * (x / d) + x % d && 0 <= x % d < d
  {
  }

  lemma MulCancelLt(a: int, b: int, c: int)
    requires c > 0 && c * a < c * b
    ensures a < b
  {
    assert c * (b - a) == c * b - c * a;
  }

  /** The quotient is the one `q` with `d * q <= x < d * q + d`. */
  lemma DivUnique(x: int, d: int, q: int)
    requires d > 0 && d * q <= x < d * q + d
    ensures x / d == q
    ensures x % d == x - d * q
  {
    DivMod(x, d);
    var q' := x / d;
    assert d * (q' - q) == d * q' - d * q;
    assert d * (q - q') == d * q - d * q';
    MulCancelLt(q' - q, 1, d);
    MulCancelLt(q - q', 1, d);
  }
}
