/** Quotients and remainders by a positive divisor. */
module Division {

  lemma MulSign(d: nat, k: int)
    requires d > 0
    ensures k >= 1 ==> d * k >= d
    ensures k <= -1 ==> d * k <= -(d as int)
  {
  }

  // Quotient and remainder are determined by their equation.
  lemma DivUnique(x: int, d: nat, q: int, r: nat)
    requires r < d && x == d * q + r
    ensures x / d == q && x % d == r
  {
    var k := q - x / d;
    assert x == d * (x / d) + x % d;
    assert d * k == x % d - r;
    MulSign(d, k);
  }

  lemma DivMonotone(a: nat, b: nat, d: nat)
    requires a <= b && d > 0
    ensures a / d <= b / d
  {
    var k := b / d - a / d;
    assert a == d * (a / d) + a % d && b == d * (b / d) + b % d;
    assert b - a == d * k + b % d - a % d;
    MulSign(d, k);
  }

  // Two numbers less than d apart have different remainders.
  lemma DifferentRemainders(a: nat, b: nat, d: nat)
    requires a < b < a + d
    ensures a % d != b % d
  {
    var q, r := a / d, a % d + (b - a);
    assert a == d * q + a % d;
    if r < d {
      DivUnique(b, d, q, r);
    } else {
      assert d * (q + 1) == d * q + d;
      DivUnique(b, d, q + 1, r - d);
    }
  }

  lemma MulAssoc(a: int, b: int, c: int)
    ensures a * (b * c) == (a * b) * c
  {
  }

  lemma MultipleOfProduct(x: nat, e: nat, k: nat)
    requires e > 0 && k > 0
    ensures e * k > 0
    ensures x % (e * k) == 0 <==> x % e == 0 && (x / e) % k == 0
  {
    var n := e * k;
    MulSign(e, k);
    if x % n == 0 {
      var q := x / n;
      MulAssoc(e, k, q);
      DivUnique(x, e, k * q, 0);
      DivUnique(k * q, k, q, 0);
    }
    if x % e == 0 && (x / e) % k == 0 {
      var q := (x / e) / k;
      MulAssoc(e, k, q);
      DivUnique(x, n, q, 0);
    }
  }

  lemma QuotientAbove(x: nat, d: nat, i: nat)
    requires d > 0
    ensures x / d > i <==> x >= (i + 1) * d
  {
    var q := x / d;
    assert x == d * q + x % d;
    assert (i + 1) * d == d * (i + 1) && d * (q - i) == d * q - d * i && d * (i + 1) == d * i + d;
    MulSign(d, q - i);
    MulSign(d, i - q);
  }

  // Quotients rounded up.
  lemma CeilStep(n: nat, d: nat)
    requires d > 0 && n > d
    ensures (n + d - 1) / d == (n - d + d - 1) / d + 1
  {
    var q, r := (n - 1) / d, (n - 1) % d;
    assert d * (q + 1) == d * q + d;
    DivUnique(n + d - 1, d, q + 1, r);
  }

  lemma CeilSmall(n: nat, d: nat)
    requires d > 0 && n <= d
    ensures (n + d - 1) / d == if n == 0 then 0 else 1
  {
    if n == 0 {
      DivUnique(d - 1, d, 0, d - 1);
    } else {
      DivUnique(n + d - 1, d, 1, n - 1);
    }
  }
}
