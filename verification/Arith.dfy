/** Facts about integer products and quotients that the solver needs told. */
module Arith {
  type Pos = n: int | n > 0 witness 1

  lemma MulMonotone(m: nat, a: int, b: int)
    requires a <= b
    ensures m * a <= m * b
  {
  }

  lemma MulStep(m: int, d: int)
    ensures (m + 1) * d == m * d + d
  {
  }

  lemma DivMonotone(a: int, b: int, T: Pos)
    requires a <= b
    ensures a / T <= b / T
  {
    var q, r := a / T, b / T;
    assert T * q <= a && b < T * r + T;
    if r < q {
      MulMonotone(T, r + 1, q);
    }
  }

  lemma QuotientUnique(a: int, T: Pos, q: int)
    requires T * q <= a < T * q + T
    ensures a / T == q
  {
    var r := a / T;
    assert T * r <= a < T * r + T;
    var d := r - q;
    assert 0 < T * d + T && T * d < T by {
      assert T * d == T * r - T * q;
    }
    SmallMultiple(T, d);
  }

  lemma SmallMultiple(T: Pos, d: int)
    requires 0 < T * d + T && T * d < T
    ensures d == 0
  {
  }

  function CeilDiv(a: nat, T: Pos): nat {
    (a + T - 1) / T
  }
}
