/** Go number conversions the models rely on. */
module Numbers {

  /** math.Round: to the nearest integer, halves away from zero. */
  function Round(x: real): int {
    if x >= 0.0 then (x + 0.5).Floor else -((0.5 - x).Floor)
  }

  /** int32(x) for an integer x: keeps the low 32 bits. */
  function ToInt32(x: int): int {
    (x + 0x8000_0000) % 0x1_0000_0000 - 0x8000_0000
  }

  predicate IsInt32(x: int) {
    -0x8000_0000 <= x < 0x8000_0000
  }

  lemma Int32Fixed(x: int)
    ensures ToInt32(x) == x <==> IsInt32(x)
    ensures IsInt32(ToInt32(x))
  {
  }

  /** int32(x) for a real x within range: drops the fraction. */
  function Truncate(x: real): int {
    if x >= 0.0 then x.Floor else -((-x).Floor)
  }

  function Distance(x: int, y: int): nat {
    if x < y then y - x else x - y
  }

  function AtLeastOne(n: int): int {
    if n < 1 then 1 else n
  }

  /** Rounding moves by at most a half, and a half goes away from zero. */
  lemma RoundIsNearest(x: real)
    ensures -0.5 <= Round(x) as real - x <= 0.5
    ensures Round(x) as real - x == 0.5 ==> x >= 0.0
    ensures Round(x) as real - x == -0.5 ==> x < 0.0
  {
  }

  lemma RoundAbove(x: real, n: nat)
    ensures Round(x) > n <==> x >= n as real + 0.5
  {
  }

  /** Dropping the fraction never moves away from zero, and by less than one. */
  lemma TruncateTowardsZero(x: real)
    ensures x >= 0.0 ==> 0 <= Truncate(x) && x - 1.0 < Truncate(x) as real <= x
    ensures x <= 0.0 ==> Truncate(x) <= 0 && x <= Truncate(x) as real < x + 1.0
  {
  }

  /** Wrapping around keeps a number up to a multiple of 2^32. */
  lemma Int32Wraps(x: int)
    ensures (x - ToInt32(x)) % 0x1_0000_0000 == 0
  {
  }

  lemma RoundMonotone(x: real, y: real)
    requires x <= y
    ensures Round(x) <= Round(y)
  {
  }

  // ----- products and quotients kept apart from the solver's own arithmetic -----

  function Times(n: nat, x: real): (r: real)
    ensures n > 0 && x != 0.0 ==> r != 0.0
  {
    n as real * x
  }

  lemma TimesStep(n: nat, x: real)
    ensures Times(0, x) == 0.0
    ensures Times(n + 1, x) == Times(n, x) + x
  {
    assert (n as real + 1.0) * x == n as real * x + x;
  }

  function Product(a: real, b: real): real {
    a * b
  }

  lemma ProductAdds(k: real, x: real, y: real)
    ensures Product(k, x + y) == Product(k, x) + Product(k, y) && Product(k, 0.0) == 0.0
  {
  }

  lemma ProductOrder(k: real, x: real, y: real)
    requires k >= 0.0 && x <= y
    ensures Product(k, x) <= Product(k, y)
  {
  }

  lemma QuotientOrder(x: real, y: real, d: real)
    requires x <= y && d > 0.0
    ensures x / d <= y / d
  {
    assert y / d - x / d == (y - x) / d;
  }
}
