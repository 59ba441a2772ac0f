/** Division and multiplication facts used by the allocators and the clock. */
module Arithmetic {

  lemma DivBounds(x: nat, d: nat)
    requires d > 0
    ensures x / d * d <= x < x / d * d + d
  {
  }

  lemma MulMod(q: nat, a: nat)
    requires a > 0
    ensures (q * a) % a == 0
  {
    var d, m := (q * a) / a, (q * a) % a;
    OnlyMultipleBelow(q - d, a, m);
  }

  lemma OnlyMultipleBelow(x: int, a: nat, m: nat)
    requires x * a == m < a
    ensures m == 0
  {
    if x >= 1 {
      MulAtLeast(x, a);
    }
  }

  lemma MulAtLeast(x: int, a: nat)
    requires x >= 1
    ensures x * a >= a
  {
    assert (x - 1) * a >= 0;
  }

  lemma MulLe(x: int, y: int, a: nat)
    requires x <= y
    ensures x * a <= y * a
  {
    assert (y - x) * a >= 0;
  }

  lemma MulCancel(x: int, y: int, a: nat)
    requires a > 0 && x * a <= y * a
    ensures x <= y
  {
    if x > y {
      MulAtLeast(x - y, a);
    }
  }

  lemma MulCancelStrict(x: int, y: int, a: nat)
    requires x * a < y * a
    ensures x < y
  {
    if x >= y {
      MulLe(y, x, a);
    }
  }

  lemma DivMono(x: nat, y: nat, d: nat)
    requires x <= y && d > 0
    ensures x / d <= y / d
  {
    var p, q := x / d, y / d;
    DivBounds(x, d);
    DivBounds(y, d);
    Distribute(q, 1, d);
    MulCancelStrict(p, q + 1, d);
  }

  lemma Distribute(x: int, y: int, a: int)
    ensures (x + y) * a == x * a + y * a && (x - y) * a == x * a - y * a
  {
  }

  lemma DivUnique(y: nat, d: nat, q: nat)
    requires d > 0 && q * d <= y < q * d + d
    ensures y / d == q
  {
    var p := y / d;
    DivBounds(y, d);
    Distribute(q, 1, d);
    MulCancelStrict(p, q + 1, d);
    Distribute(p, 1, d);
    MulCancelStrict(q, p + 1, d);
  }

  lemma HalfFirst(y: nat, b: nat)
    requires b > 0
    ensures y / (2 * b) == y / 2 / b
  {
    var h := y / 2;
    var q := h / b;
    DivBounds(h, b);
    assert q * (2 * b) == 2 * (q * b);
    DivUnique(y, 2 * b, q);
  }

  // Masks

  predicate PowerOfTwo(a: nat)
    decreases a
  {
    a == 1 || (a % 2 == 0 && a > 0 && PowerOfTwo(a / 2))
  }

  /** `x & !m`, bit by bit. */
  function AndNot(x: nat, m: nat): (r: nat)
    ensures r <= x
    decreases x
  {
    if x == 0 then 0 else 2 * AndNot(x / 2, m / 2) + if m % 2 == 1 then 0 else x % 2
  }

  lemma AndNotStep(x: nat, m: nat)
    ensures AndNot(x, m) == 2 * AndNot(x / 2, m / 2) + if m % 2 == 1 then 0 else x % 2
  {
    assert AndNot(0, m / 2) == 0;
  }

  lemma {:induction false} AndNotNothing(x: nat)
    ensures AndNot(x, 0) == x
  {
    if x > 0 {
      AndNotNothing(x / 2);
    }
  }

  /** Clearing the low bits rounds down to a multiple of the power of two. */
  lemma {:induction false} AndNotPower(x: nat, a: nat)
    requires PowerOfTwo(a)
    ensures a > 0 && AndNot(x, a - 1) == x / a * a
    decreases a
  {
    if a == 1 {
      AndNotNothing(x);
    } else {
      var b := a / 2;
      AndNotStep(x, a - 1);
      AndNotPower(x / 2, b);
      HalfFirst(x, b);
      assert (a - 1) / 2 == b - 1 && a == 2 * b;
      Doubled(x / 2 / b, b);
    }
  }

  lemma Doubled(q: nat, b: nat)
    ensures 2 * (q * b) == q * (2 * b)
  {
  }
}
