/** `Math.abs`, `Math.max` and `Math.min` on real numbers. */
module RealMath {

  function Abs(r: real): (a: real)
    ensures a >= 0.0 && (a == r || a == -r)
  {
    if r < 0.0 then -r else r
  }

  function Max(a: real, b: real): (m: real)
    ensures m >= a && m >= b && (m == a || m == b)
  {
    if a >= b then a else b
  }

  function Min(a: real, b: real): (m: real)
    ensures m <= a && m <= b && (m == a || m == b)
  {
    if a <= b then a else b
  }

  /** A product of non-zero factors is non-zero. */
  lemma MulNonZero(a: real, b: real)
    requires a != 0.0 && b != 0.0
    ensures a * b != 0.0
  {
    if a * b == 0.0 {
      assert a * b * (1.0 / b) == a;
    }
  }

  /** A non-zero factor cancels. */
  lemma MulCancel(x: real, y: real, k: real)
    requires k != 0.0 && x * k == y * k
    ensures x == y
  {
    assert (x - y) * k == 0.0;
  }

  /** Scaling by `s2` and then by `s1` is scaling by `s1 * s2`. */
  lemma MulChain(a: real, m: real, v: real, s1: real, s2: real)
    requires a * s2 == m && m * s1 == v
    ensures a * (s1 * s2) == v
  {
    assert a * (s1 * s2) == (a * s2) * s1;
  }

  /** Multiplying by `1 / k` is undone by multiplying by `k`. */
  lemma MulByInverse(a: real, b: real, k: real)
    requires k != 0.0 && a * (1.0 / k) == b
    ensures a == b * k
  {
    assert (1.0 / k) * k == 1.0;
    assert b * k == a * ((1.0 / k) * k);
  }
}
