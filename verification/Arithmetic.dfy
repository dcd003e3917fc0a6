/** Facts about products, quotients and remainders by a variable. */
module Arithmetic {
  /** A product with a positive factor has the sign of the other factor, and is no closer to zero. */
  lemma MulSign(d: int, c: int)
    requires c > 0
    ensures d >= 1 ==> d * c >= c
    ensures d <= -1 ==> d * c <= -c
  {
    if d >= 1 {
      MulStepUp(d, c);
    } else if d <= -1 {
      MulStepUp(-d, c);
      assert d * c == -(-d * c);
    }
  }

  lemma {:induction false} MulStepUp(d: nat, c: nat)
    requires d >= 1
    ensures d * c >= c
    decreases d
  {
    if d > 1 {
      MulStepUp(d - 1, c);
      assert d * c == (d - 1) * c + c;
    }
  }

  /** A quotient and a remainder in range are the ones `/` and `%` give. */
  lemma DivModUnique(n: int, c: int, q: int, r: int)
    requires 0 <= r < c && n == q * c + r
    ensures n / c == q && n % c == r
  {
    var d := n / c - q;
    assert n == (n / c) * c + n % c;
    assert d * c == (n / c) * c - q * c;
    MulSign(d, c);
  }

  lemma ModSmall(n: nat, c: nat)
    requires n < c
    ensures n % c == n
  {
    DivModUnique(n, c, 0, n);
  }

  /** Stepping a remainder and stepping the number agree. */
  lemma ModStep(n: nat, c: nat)
    requires c > 0
    ensures (n % c + 1) % c == (n + 1) % c
  {
    var q, r := n / c, n % c;
    assert n == q * c + r;
    if r + 1 < c {
      ModSmall(r + 1, c);
      DivModUnique(n + 1, c, q, r + 1);
    } else {
      assert n + 1 == (q + 1) * c + 0;
      DivModUnique(n + 1, c, q + 1, 0);
      DivModUnique(c, c, 1, 0);
    }
  }

  lemma ModAdd(n: nat, k: nat, c: nat)
    requires c > 0
    ensures (n % c + k) % c == (n + k) % c
  {
    var m := n % c + k;
    assert n + k == (n / c + m / c) * c + m % c by {
      assert (n / c + m / c) * c == (n / c) * c + (m / c) * c;
    }
    DivModUnique(n + k, c, n / c + m / c, m % c);
  }

  lemma ModPeriod(n: nat, c: nat)
    requires c > 0
    ensures (n + c) % c == n % c
  {
    assert n + c == (n / c + 1) * c + n % c;
    DivModUnique(n + c, c, n / c + 1, n % c);
  }

  /** Two different numbers less than `c` apart have different remainders. */
  lemma ModWindow(a: nat, b: nat, c: nat)
    requires a < b < a + c
    ensures a % c != b % c
  {
    var d := b / c - a / c;
    assert a == (a / c) * c + a % c && b == (b / c) * c + b % c;
    assert d * c == (b / c) * c - (a / c) * c;
    MulSign(d, c);
  }

  /** A quotient is raised by `i` when the dividend is raised by `i` divisors. */
  lemma DivShift(i: nat, c: nat, n: nat)
    requires c > 0
    ensures (i * c + n) / c == i + n / c
    ensures n / c == 0 <==> n < c
  {
    var q, r := n / c, n % c;
    assert n == q * c + r;
    assert (i + q) * c == i * c + q * c;
    DivModUnique(i * c + n, c, i + q, r);
    if n < c {
      DivModUnique(n, c, 0, n);
    }
  }

  lemma Distribute(a: nat, b: nat, i: nat)
    ensures (a + b) * i + b == i * a + b * (i + 1)
  {
    assert (a + b) * i == i * a + b * i;
  }

  lemma MulStep(a: int, b: int, c: nat)
    requires a < b
    ensures a * c + c <= b * c
  {
    MulStepUp(b - a, c);
    assert (b - a) * c == b * c - a * c;
  }
}
