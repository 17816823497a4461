/** Integer facts shared by the address arithmetic of several modules. */
module Arith {
  const MAX_INT64: nat := 9223372036854775807

  function Min(a: int, b: int): int { if a < b then a else b }

  function Max(a: int, b: int): int { if a > b then a else b }

  lemma MulLe(a: nat, b: nat, w: nat)
    requires a <= b
    ensures a * w <= b * w
  {
  }

  lemma MultipleMod(q: nat, m: nat)
    requires m > 0
    ensures q * m % m == 0 && q * m / m == q
  {
    var x: nat := q * m / m;
    assert q * m == x * m + q * m % m;
    if x < q {
      MulLe(x + 1, q, m);
      assert false;
    } else if x > q {
      MulLe(q + 1, x, m);
      assert false;
    }
  }
}
