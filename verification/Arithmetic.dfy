/** Division facts the other modules use by name. */
module Arithmetic {

  const U32: nat := 0x1_0000_0000

  lemma MulGap(m: nat, q: int, q': int)
    requires q < q'
    ensures m * q' >= m * q + m
  {
    var d := q' - q - 1;
    assert q' == q + 1 + d;
    assert m * d >= 0;
    assert m * (q + 1 + d) == m * q + m + m * d;
  }

  /** Quotient and remainder are unique. */
  lemma DivModUnique(a: int, m: nat, q: int, r: nat)
    requires r < m && a == m * q + r
    ensures a % m == r && a / m == q
  {
    var q', r' := a / m, a % m;
    assert a == m * q' + r';
    if q' > q {
      MulGap(m, q, q');
    } else if q' < q {
      MulGap(m, q', q);
    }
  }

  lemma ModSuccessor(a: nat, m: nat)
    requires m > 0
    ensures (a + 1) % m == (a % m + 1) % m
    ensures (a + 1) % m == if a % m + 1 == m then 0 else a % m + 1
  {
    var q, r := a / m, a % m;
    assert a == m * q + r;
    if r + 1 == m {
      assert m * (q + 1) == m * q + m;
      DivModUnique(a + 1, m, q + 1, 0);
      DivModUnique(m, m, 1, 0);
    } else {
      DivModUnique(a + 1, m, q, r + 1);
      DivModUnique(r + 1, m, 0, r + 1);
    }
  }

  /** Below twice the modulus the remainder is a conditional subtraction. */
  lemma ModBelowTwice(a: nat, m: nat)
    requires 0 < m && a < 2 * m
    ensures a % m == if a < m then a else a - m
  {
    if a < m {
      DivModUnique(a, m, 0, a);
    } else {
      DivModUnique(a, m, 1, a - m);
    }
  }
}
