/** Division with remainder by a positive variable. */
module Residues {
  lemma {:induction false} MulAtLeast(w: int, d: int)
    requires w > 0 && d >= 1
    ensures w * d >= w
    decreases d
  {
    if d > 1 {
      MulAtLeast(w, d - 1);
      assert w * d == w * (d - 1) + w;
    }
  }

  lemma MulMonotone(w: int, q: int, p: int)
    requires w >= 0 && q <= p
    ensures w * q <= w * p
  {
    assert w * p == w * q + w * (p - q);
  }

  lemma MulMinus(w: int, q: int, p: int)
    ensures w * q - w * p == w * (q - p)
  {
  }

  /** A multiple of `w` strictly between -w and w is zero. */
  lemma SmallMultiple(w: int, d: int)
    requires w > 0 && -w < w * d < w
    ensures d == 0
  {
    assert w * -d == -(w * d);
    if d >= 1 {
      MulAtLeast(w, d);
    } else if d <= -1 {
      MulAtLeast(w, -d);
    }
  }

  lemma QuotientUnique(w: int, q: int, p: int, r: int, s: int)
    requires w > 0 && 0 <= r < w && 0 <= s < w && w * q + r == w * p + s
    ensures q == p && r == s
  {
    MulMinus(w, q, p);
    SmallMultiple(w, q - p);
  }

  lemma Division(a: int, w: int)
    requires w > 0
    ensures a == w * (a / w) + a % w && 0 <= a % w < w
  {
  }

  /** `a` is `w * q + r`, so `q` and `r` are its quotient and remainder. */
  lemma DivModIs(a: int, w: int, q: int, r: int)
    requires w > 0 && 0 <= r < w && a == w * q + r
    ensures a / w == q && a % w == r
  {
    Division(a, w);
    QuotientUnique(w, a / w, q, a % w, r);
  }

  lemma ModShift(a: int, w: int, k: int)
    requires w > 0
    ensures (a + w * k) % w == a % w
  {
    Division(a, w);
    MulMinus(w, a / w, -k);
    assert w * -k == -(w * k);
    DivModIs(a + w * k, w, a / w + k, a % w);
  }

  lemma SameResidue(m: int, n: int, w: int)
    requires w > 0 && m % w == n % w && m - w < n < m + w
    ensures m == n
  {
    Division(m, w);
    Division(n, w);
    MulMinus(w, m / w, n / w);
    SmallMultiple(w, m / w - n / w);
  }
}
