/** Facts about integer division shared by the instruction fields and the hex cursor grid. */
module Arithmetic {

  /** Division is determined by its defining equation: a quotient and an in-range remainder are the only ones. */
  lemma DivUnique(a: int, m: int, q: int, r: int)
    requires m > 0 && a == q * m + r && 0 <= r < m
    ensures a / m == q && a % m == r
  {
    var q0, r0 := a / m, a % m;
    assert (q - q0) * m == r0 - r;
    if q > q0 {
      MulAtLeast(q - q0, m);
    } else if q < q0 {
      MulAtLeast(q0 - q, m);
    }
  }

  lemma MulAtLeast(k: int, m: nat)
    requires k >= 1
    ensures k * m >= m
  {
  }

  /** Multiplying by a natural keeps the order. */
  lemma MulMonotone(a: int, b: int, m: nat)
    requires a <= b
    ensures a * m <= b * m
  {
  }

  /** Dividing by b then by c is dividing by b * c; the remainder is the two remainders stacked. */
  lemma DivDiv(a: nat, b: nat, c: nat)
    requires b > 0 && c > 0
    ensures a / (b * c) == (a / b) / c
    ensures a % (b * c) == (a / b % c) * b + a % b
  {
    var q, r := a / b, a % b;
    var q2, r2 := q / c, q % c;
    var rest := r2 * b + r;
    assert a == q2 * (b * c) + rest by {
      assert a == q * b + r;
      assert q == q2 * c + r2;
      Regroup(q2, c, r2, b, r);
    }
    assert rest < b * c by {
      MulMonotone(r2, c - 1, b);
      assert (c - 1) * b + b == b * c;
    }
    DivUnique(a, b * c, q2, rest);
  }

  lemma Regroup(x: int, c: int, y: int, b: int, r: int)
    ensures (x * c + y) * b + r == x * (b * c) + (y * b + r)
  {
  }
}
