/** Division and alignment facts shared by the models. */
module Arith {

  lemma {:induction false} MulDistributes(p: int, q: int, b: int)
    ensures (p - q) * b == p * b - q * b
    ensures (p + q) * b == p * b + q * b
  {
  }

  lemma {:induction false} MulAtLeast(k: int, b: nat)
    requires k >= 1
    ensures k * b >= b
  {
    MulDistributes(k - 1, -1, b);
    assert (k - 1) * b >= 0;
  }

  lemma {:induction false} MulLess(p: int, q: int, b: nat)
    requires p * b < q * b
    ensures p < q
  {
    if p >= q { MulDistributes(p, q, b); }
  }

  /** Quotient and remainder are the only pair that fits. */
  lemma {:induction false} DivUnique(a: nat, b: nat, q: int, r: int)
    requires b > 0 && a == q * b + r && 0 <= r < b
    ensures a / b == q && a % b == r
  {
    var p := a / b;
    assert a == p * b + a % b;
    if q > p {
      MulAtLeast(q - p, b);
      MulDistributes(q, p, b);
    } else if p > q {
      MulAtLeast(p - q, b);
      MulDistributes(p, q, b);
    }
  }

  lemma {:induction false} DivMulAdd(q: nat, b: nat, r: nat)
    requires r < b
    ensures (q * b + r) / b == q && (q * b + r) % b == r
  {
    DivUnique(q * b + r, b, q, r);
  }

  /** Division by subtraction: quotient and remainder of an offset by the size of its unit. */
  function Quot(n: nat, b: nat): nat
    requires b > 0
  {
    if n < b then 0 else 1 + Quot(n - b, b)
  }

  function Rem(n: nat, b: nat): (r: nat)
    requires b > 0
    ensures r < b
  {
    if n < b then n else Rem(n - b, b)
  }

  lemma {:induction false} QuotDivides(n: nat, b: nat)
    requires b > 0
    ensures Quot(n, b) == n / b && Rem(n, b) == n % b && Quot(n, b) * b + Rem(n, b) == n
    decreases n
  {
    if n >= b {
      QuotDivides(n - b, b);
      MulDistributes(Quot(n - b, b), 1, b);
    }
    DivUnique(n, b, Quot(n, b), Rem(n, b));
  }

  /** The size of `k` units. */
  function Span(k: nat, size: nat): nat { if k == 0 then 0 else size + Span(k - 1, size) }

  lemma {:induction false} SpanMultiplies(k: nat, size: nat)
    ensures Span(k, size) == k * size
  {
    if k > 0 {
      SpanMultiplies(k - 1, size);
      MulDistributes(k - 1, 1, size);
    }
  }

  lemma {:induction false} SpanGrows(j: nat, k: nat, n: nat)
    requires j < k && n > 0
    ensures Span(j, n) + n <= Span(k, n)
    decreases k
  {
    if j < k - 1 { SpanGrows(j, k - 1, n); }
  }

  predicate IsPow2(n: nat) { n == 1 || (n > 1 && n % 2 == 0 && IsPow2(n / 2)) }

  lemma {:induction false} Pow2Divides(a: nat, b: nat)
    requires IsPow2(a) && IsPow2(b) && a <= b
    ensures a > 0 && b % a == 0
  {
    if a > 1 {
      Pow2Divides(a / 2, b / 2);
      var k := b / 2 / (a / 2);
      assert b / 2 == k * (a / 2);
      assert b == k * a;
      DivMulAdd(k, a, 0);
    }
  }

  function AlignUp(x: nat, n: nat): nat
    requires n > 0
  {
    (x + (n - 1)) / n * n
  }

  lemma {:induction false} AlignUpBounds(x: nat, n: nat)
    requires n > 0
    ensures x <= AlignUp(x, n) < x + n && AlignUp(x, n) % n == 0
  {
    var y := x + (n - 1);
    assert y == y / n * n + y % n;
    DivMulAdd(y / n, n, 0);
  }

  /** From a multiple of `n`, aligning up is aligning the distance. */
  lemma {:induction false} AlignUpFrom(s: nat, x: nat, n: nat)
    requires n > 0 && s % n == 0
    ensures AlignUp(s + x, n) == s + AlignUp(x, n)
  {
    var q, y := s / n, x + (n - 1);
    assert s == q * n && y == y / n * n + y % n;
    MulDistributes(q, y / n, n);
    DivUnique(s + y, n, q + y / n, y % n);
    assert s + x + (n - 1) == s + y;
  }
}
