/** Greatest common divisors, used to say when double hashing repeats an index. */
module Gcd {

  function Gcd(a: nat, b: nat): nat
    decreases b
  {
    if b == 0 then a else Gcd(b, a % b)
  }

  lemma MulBounds(d: nat, x: int)
    requires d > 0
    ensures x >= 1 ==> d * x >= d
    ensures x <= -1 ==> d * x <= 0 - d
    ensures x == 0 ==> d * x == 0
  {}

  lemma Quotient(d: nat, x: int, q: int, r: nat)
    requires r < d && x == d * q + r
    ensures x / d == q && x % d == r
  {
    var p, s := x / d, x % d;
    assert d * (q - p) == s - r by { assert x == d * p + s; assert d * (q - p) == d * q - d * p; }
    MulBounds(d, q - p);
  }

  lemma MultipleMod(d: nat, q: int)
    requires d > 0
    ensures (d * q) % d == 0
  {
    Quotient(d, d * q, q, 0);
  }

  lemma {:induction false} Bezout(a: nat, b: nat) returns (x: int, y: int)
    ensures x * a + y * b == Gcd(a, b)
    decreases b
  {
    if b == 0 {
      x, y := 1, 0;
    } else {
      var x', y' := Bezout(b, a % b);
      x, y := y', x' - y' * (a / b);
      BezoutStep(x', y', a, b, a / b, a % b);
    }
  }

  lemma BezoutStep(x: int, y: int, a: int, b: int, q: int, r: int)
    requires a == b * q + r
    ensures y * a + (x - y * q) * b == x * b + y * r
  {
    calc {
      y * a + (x - y * q) * b;
      y * (b * q + r) + x * b - y * q * b;
      y * (b * q) + y * r + x * b - y * (q * b);
      x * b + y * r;
    }
  }

  /** Gcd(a, b) divides both arguments. */
  lemma {:induction false} GcdDivides(a: nat, b: nat)
    requires a > 0 || b > 0
    ensures Gcd(a, b) > 0
    ensures a % Gcd(a, b) == 0 && b % Gcd(a, b) == 0
    decreases b
  {
    if b == 0 {
      MultipleMod(a, 1);
    } else {
      GcdDivides(b, a % b);
      DividesSum(Gcd(a, b), a, b, a / b, a % b);
    }
  }

  lemma DividesSum(g: nat, a: nat, b: nat, q: int, r: nat)
    requires g > 0 && a == b * q + r && b % g == 0 && r % g == 0
    ensures a % g == 0
  {
    var u, v := b / g, r / g;
    calc {
      a;
      { assert b == g * u && r == g * v; }
      (g * u) * q + g * v;
      g * (u * q) + g * v;
      g * (u * q + v);
    }
    MultipleMod(g, u * q + v);
  }

  lemma SameResidue(a: nat, b: nat, m: nat)
    requires m > 0 && a <= b
    ensures a % m == b % m <==> (b - a) % m == 0
  {
    var p, q, t := a / m, b / m, (b - a) / m;
    assert a == m * p + a % m && b == m * q + b % m;
    assert b - a == m * t + (b - a) % m;
    assert m * (q - p) == m * q - m * p;
    assert m * (t + p - q) == m * t + m * p - m * q;
    MulBounds(m, t + p - q);
    if a % m == b % m { MultipleMod(m, q - p); }
  }

  lemma CancelLeft(g: nat, a: int, b: int)
    requires g > 0 && g * a == g * b
    ensures a == b
  {
    assert g * (a - b) == g * a - g * b;
    MulBounds(g, a - b);
  }

  /** m divides d * h exactly when m / gcd(h, m) divides d. */
  lemma MultipleIff(d: nat, h: nat, m: nat)
    requires m > 0
    ensures Gcd(h, m) > 0 && m / Gcd(h, m) > 0
    ensures (d * h) % m == 0 <==> d % (m / Gcd(h, m)) == 0
  {
    GcdDivides(h, m);
    var g := Gcd(h, m);
    ExactQuotient(g, m);
    ExactQuotient(g, h);
    var x, y := Bezout(h, m);
    CofactorIff(d, h, m, g, m / g, h / g, x, y);
  }

  lemma ExactQuotient(d: nat, x: nat)
    requires d > 0 && x % d == 0
    ensures x == d * (x / d) && (x > 0 ==> x / d > 0)
  {}

  lemma CofactorIff(d: nat, h: nat, m: nat, g: nat, n: nat, e: nat, x: int, y: int)
    requires g > 0 && n > 0 && m > 0 && m == g * n && h == g * e && x * h + y * m == g
    ensures (d * h) % m == 0 <==> d % n == 0
  {
    if (d * h) % m == 0 {
      ExactQuotient(m, d * h);
      CofactorDivides(d, h, m, g, n, (d * h) / m, x, y);
    }
    if d % n == 0 {
      ExactQuotient(n, d);
      CofactorMultiple(d, h, m, g, n, e, d / n);
    }
  }

  lemma CofactorMultiple(d: nat, h: nat, m: nat, g: nat, n: nat, e: nat, q: nat)
    requires m > 0 && m == g * n && h == g * e && d == n * q
    ensures (d * h) % m == 0
  {
    calc {
      d * h;
      (n * q) * (g * e);
      (g * n) * (q * e);
      m * (q * e);
    }
    MultipleMod(m, q * e);
  }

  lemma CofactorDivides(d: nat, h: nat, m: nat, g: nat, n: nat, q: int, x: int, y: int)
    requires g > 0 && n > 0 && m == g * n && d * h == m * q && x * h + y * m == g
    ensures d % n == 0
  {
    var z := x * q + y * d;
    calc {
      g * d;
      (x * h + y * m) * d;
      x * (d * h) + m * (y * d);
      x * (m * q) + m * (y * d);
      m * (x * q) + m * (y * d);
      m * z;
      g * (n * z);
    }
    CancelLeft(g, d, n * z);
    MultipleMod(n, z);
  }

  ghost predicate IsPrime(m: nat) {
    m >= 2 && forall d {:trigger m % d} | 1 <= d <= m && m % d == 0 :: d == 1 || d == m
  }

  lemma PrimeGcd(h: nat, m: nat)
    requires IsPrime(m) && 1 <= h < m
    ensures Gcd(h, m) == 1
  {
    GcdDivides(h, m);
    var g := Gcd(h, m);
    assert m == g * (m / g) && h == g * (h / g);
    MulBounds(g, h / g);
    MulBounds(g, m / g);
  }
}
