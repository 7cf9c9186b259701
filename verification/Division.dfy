/** Quotients and remainders recognised from a decomposition. */
module Division {
  lemma Multiple(m: nat, d: int)
    requires m > 0
    ensures d >= 1 ==> m * d >= m
    ensures d <= -1 ==> m * d <= -(m as int)
  {}

  lemma Euclid(s: nat, m: nat, q: nat, r: nat)
    requires m > 0 && s == m * q + r && r < m
    ensures s / m == q && s % m == r
  {
    var d := s / m - q;
    assert m * d == r - s % m by {
      assert s == m * (s / m) + s % m;
      assert m * (s / m) - m * q == m * d;
    }
    Multiple(m, d);
  }

  lemma Wrapped(s: nat, m: nat, q: nat, r: nat)
    requires m > 0 && s == m * q + r && r <= m
    ensures s % m == if r == m then 0 else r
  {
    if r == m {
      assert m * q + m == m * (q + 1);
      Euclid(s, m, q + 1, 0);
    } else {
      Euclid(s, m, q, r);
    }
  }

  lemma Expand(a: nat, b: nat, q: nat, r: nat)
    ensures a * (b * q + r) == (a * b) * q + a * r
  {
    assert a * (b * q) == (a * b) * q;
  }

  lemma Below(a: nat, b: nat, r: nat, low: nat)
    requires r < b && low < a
    ensures a * r + low < a * b
  {
    assert a * (r + 1) <= a * b;
  }

  /** Dividing twice is dividing by the product; the remainders combine. */
  lemma DivDiv(s: nat, a: nat, b: nat)
    requires a > 0 && b > 0
    ensures s / (a * b) == s / a / b && s % (a * b) == s % a + (s / a % b) * a
  {
    var q, r := s / a, s % a;
    Parts(s, a, b, q, r, q / b, q % b);
  }

  lemma Parts(s: nat, a: nat, b: nat, q: nat, r: nat, qq: nat, rr: nat)
    requires a > 0 && b > 0 && s == a * q + r && r < a && q == b * qq + rr && rr < b
    ensures s / (a * b) == qq && s % (a * b) == r + rr * a
  {
    Expand(a, b, qq, rr);
    Below(a, b, rr, r);
    Euclid(s, a * b, qq, a * rr + r);
  }
}
