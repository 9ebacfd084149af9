/** Facts of integer arithmetic that the solver needs one at a time, shared by the models. */
module Arith {

  function Pow2(k: nat): (r: nat)
    ensures r > 0
  {
    if k == 0 then 1 else 2 * Pow2(k - 1)
  }

  lemma MulGrows(x: nat, y: nat)
    requires y >= 1
    ensures x <= x * y
  {
    assert x * y == x + x * (y - 1);
  }

  lemma MulMono(x: int, y: int, z: int)
    requires x <= y && 0 <= z
    ensures x * z <= y * z
  {
    assert (y - x) * z >= 0;
  }

  lemma MulStrict(x: int, y: int, z: int)
    requires x * z < y * z && 0 <= z
    ensures x < y
  {
    if x >= y { MulMono(y, x, z); }
  }

  lemma DivBounds(x: int, y: int)
    requires y > 0
    ensures (x / y) * y <= x < (x / y + 1) * y
  {
    assert x == (x / y) * y + x % y;
  }

  lemma DivNonNegative(x: nat, y: nat)
    requires y > 0
    ensures x / y >= 0
  {
    DivBounds(x, y);
    MulStrict(0, x / y + 1, y);
  }

  // Quotient and remainder are the only pair that recombines.
  lemma DivModUnique(x: int, y: int, q: int, r: int)
    requires y > 0 && 0 <= r < y && x == q * y + r
    ensures x / y == q && x % y == r
  {
    var q', r' := x / y, x % y;
    assert x == q' * y + r';
    assert (q - q') * y == r' - r;
    if q > q' {
      assert (q - q') * y >= y by { MulGrows(y, q - q'); }
    } else if q < q' {
      assert (q' - q) * y >= y by { MulGrows(y, q' - q); }
    }
  }

  lemma ModOfMultiple(f: int, c: int)
    requires f > 0
    ensures (f * c) % f == 0
  {
    DivModUnique(f * c, f, c, 0);
  }

  lemma {:induction false} Pow2Add(j: nat, k: nat)
    ensures Pow2(j + k) == Pow2(j) * Pow2(k)
  {
    if j > 0 { Pow2Add(j - 1, k); }
  }

  lemma {:induction false} Pow2Monotone(j: nat, k: nat)
    ensures j <= k ==> Pow2(j) <= Pow2(k)
  {
    if j < k { Pow2Monotone(j, k - 1); }
  }

  const INT_LIMIT: int := 0x8000_0000

  // The cast of a 32-bit value to int.
  function AsInt(n: nat): int
  {
    if n % (2 * INT_LIMIT) < INT_LIMIT then n % (2 * INT_LIMIT) else n % (2 * INT_LIMIT) - 2 * INT_LIMIT
  }
}
