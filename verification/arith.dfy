/** Arithmetic the other modules share. */
module Arith {

  function Min(a: int, b: int): int { if a < b then a else b }

  function Max(a: int, b: int): int { if a < b then b else a }

  /** n blocks of size each: their product, in a form that grows one block at a time. */
  function Times(n: nat, size: nat): nat { if n == 0 then 0 else Times(n - 1, size) + size }

  lemma {:induction false} TimesIs(n: nat, size: nat)
    ensures Times(n, size) == n * size
  {
    if n > 0 {
      TimesIs(n - 1, size);
      assert n * size == (n - 1) * size + size;
    }
  }

  lemma {:induction false} TimesMono(a: nat, b: nat, size: nat)
    requires a <= b
    ensures Times(a, size) <= Times(b, size)
    ensures a < b ==> Times(a, size) + size == Times(a + 1, size) <= Times(b, size)
    decreases b
  {
    if a < b { TimesMono(a, b - 1, size); }
  }

  lemma {:induction false} TimesWider(n: nat, size: nat, size2: nat)
    requires size <= size2
    ensures Times(n, size) <= Times(n, size2)
  {
    if n > 0 { TimesWider(n - 1, size, size2); }
  }

  lemma MulMono(a: int, b: int, d: int)
    requires a <= b && d >= 0
    ensures a * d <= b * d
  {
    assert (b - a) * d >= 0;
    assert b * d == a * d + (b - a) * d;
  }

  lemma MulStep(k: int, d: int)
    ensures (k + 1) * d == k * d + d
  {
  }

  lemma QuotientUnique(a: nat, d: nat, n: nat)
    requires d > 0 && 0 <= a - n * d < d
    ensures n == a / d
  {
    var q := a / d;
    assert a == q * d + a % d;
    assert q < n ==> (q + 1) * d <= n * d;
    assert n < q ==> (n + 1) * d <= q * d;
  }

  /** Dividing by ten and then by d is dividing by ten d. */
  lemma TenthOf(n: nat, d: nat)
    requires d > 0
    ensures n / 10 / d == n / (10 * d)
  {
    var q := n / 10;
    var p := q / d;
    assert q == p * d + q % d;
    assert p * (10 * d) == 10 * (p * d);
    QuotientUnique(n, 10 * d, p);
  }
}
