/** Facts about products and remainders that the solver is slow to find by itself. */
module Arithmetic {

  lemma ProductsAreOrdered(x: int, y: int, n: nat)
    requires x <= y
    ensures x * n <= y * n && n * x <= n * y
  {
  }

  lemma CancelFactor(d: nat, x: int, y: int)
    requires d * x < d * y
    ensures x < y
  {
  }

  lemma SmallModulo(j: nat, n: nat)
    requires j < n
    ensures j % n == j
  {
  }

  function Power(b: nat, n: nat): nat {
    if n == 0 then 1 else b * Power(b, n - 1)
  }
}
