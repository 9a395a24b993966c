/** Residues and greatest common divisors. */
module Residues {

  function Gcd(a: nat, b: nat): (g: nat)
    requires a > 0 || b > 0
    ensures g > 0
    decreases b
  {
    if b == 0 then a else Gcd(b, a % b)
  }

  lemma ModIs(x: int, m: int, q: int, r: int)
    requires m > 0 && x == q * m + r && 0 <= r < m
    ensures x % m == r && x / m == q
  {
    var q', r' := x / m, x % m;
    assert x == q' * m + r';
    if q > q' { AtLeastOnce(q - q', m); }
    if q < q' { AtLeastOnce(q' - q, m); }
    Apart(q, q', m, r, r');
  }

  lemma AtLeastOnce(d: int, m: int)
    requires d >= 1 && m > 0
    ensures d * m >= m
  {
  }

  lemma Apart(q: int, p: int, m: int, r: int, t: int)
    requires q * m + r == p * m + t && 0 <= r < m && 0 <= t < m
    requires (q > p ==> (q - p) * m >= m) && (q < p ==> (p - q) * m >= m)
    ensures q == p && r == t
  {
    assert (q - p) * m == q * m - p * m && (p - q) * m == p * m - q * m;
  }

  lemma ModMultiple(q: int, m: int)
    requires m > 0
    ensures (q * m) % m == 0
  {
    ModIs(q * m, m, q, 0);
  }

  lemma ModPlus(x: int, q: int, m: int)
    requires m > 0
    ensures (x + q * m) % m == x % m
  {
    assert x + q * m == (x / m + q) * m + x % m;
    ModIs(x + q * m, m, x / m + q, x % m);
  }

  predicate Divides(g: int, x: int)
    requires g > 0
  {
    x % g == 0
  }

  lemma DividesBy(g: int, x: int, q: int)
    requires g > 0 && x == q * g
    ensures Divides(g, x)
  {
    ModMultiple(q, g);
  }

  lemma DividesMore(g: int, x: int, y: int, q: int)
    requires g > 0 && Divides(g, x) && Divides(g, y)
    ensures Divides(g, x + y) && Divides(g, x - y) && Divides(g, q * y)
  {
    var i, j := x / g, y / g;
    assert x == i * g && y == j * g;
    assert x + y == (i + j) * g && x - y == (i - j) * g;
    DividesBy(g, x + y, i + j);
    DividesBy(g, x - y, i - j);
    assert q * y == (q * j) * g;
    DividesBy(g, q * y, q * j);
  }

  lemma {:induction false} GcdDivides(a: nat, b: nat)
    requires a > 0 || b > 0
    ensures Divides(Gcd(a, b), a) && Divides(Gcd(a, b), b)
    decreases b
  {
    if b == 0 {
      DividesBy(a, a, 1);
    } else {
      GcdDivides(b, a % b);
      DividesMore(Gcd(a, b), a % b, b, a / b);
      DividesMore(Gcd(a, b), a % b, (a / b) * b, 1);
      assert a == a % b + (a / b) * b;
    }
  }

  /** The greatest common divisor is a combination of the two numbers. */
  lemma {:induction false} Bezout(a: nat, b: nat) returns (x: int, y: int)
    requires a > 0 || b > 0
    ensures a * x + b * y == Gcd(a, b)
    decreases b
  {
    if b == 0 {
      x, y := 1, 0;
    } else {
      var u, v := Bezout(b, a % b);
      x, y := v, u - (a / b) * v;
      BezoutStep(a, b, a / b, a % b, u, v);
    }
  }

  lemma BezoutStep(a: int, b: int, q: int, r: int, u: int, v: int)
    requires a == b * q + r
    ensures a * v + b * (u - q * v) == b * u + r * v
  {
    calc {
      a * v + b * (u - q * v);
      (b * q + r) * v + b * u - b * (q * v);
      (b * q) * v + r * v + b * u - (b * q) * v;
    }
  }

  /** Some number of steps of size k, not negative, moves by d modulo m when the common
      divisor of k and m divides d. */
  lemma StepsReach(k: nat, m: nat, d: int) returns (n: nat)
    requires m > 0 && Divides(Gcd(k, m), d)
    ensures (n * k - d) % m == 0
  {
    var g := Gcd(k, m);
    var x, y := Bezout(k, m);
    var t := d / g;
    assert d == t * g;
    n := (t * x) % m;
    var q := (t * x) / m;
    assert t * x == q * m + n;
    StepsIdentity(k, m, x, y, t, q, n, g, d);
    ModMultiple(-(q * k) - t * y, m);
  }

  lemma StepsIdentity(k: int, m: int, x: int, y: int, t: int, q: int, n: int, g: int, d: int)
    requires k * x + m * y == g && t * x == q * m + n && d == t * g
    ensures n * k - d == (-(q * k) - t * y) * m
  {
    calc {
      n * k - d;
      (t * x - q * m) * k - t * (k * x + m * y);
      (t * x) * k - (q * m) * k - t * (k * x) - t * (m * y);
      { assert (t * x) * k == t * (k * x); }
      -((q * m) * k) - t * (m * y);
      { assert (q * m) * k == (q * k) * m && t * (m * y) == (t * y) * m; }
      -((q * k) * m) - (t * y) * m;
      (-(q * k) - t * y) * m;
    }
  }

  /** A non-negative number is at least its residue. */
  lemma ResidueBelow(x: nat, g: int)
    requires g > 0
    ensures 0 <= x % g <= x
  {
    if x < g { ModIs(x, g, 0, x); }
  }

  lemma ResidueSame(x: int, y: int, g: int)
    requires g > 0 && Divides(g, x - y)
    ensures x % g == y % g
  {
    var q := (x - y) / g;
    assert x == y + q * g;
    ModPlus(y, q, g);
  }

  /** Removing the residue leaves a multiple. */
  lemma WholePart(x: int, g: int)
    requires g > 0
    ensures Divides(g, x - x % g)
  {
    DividesBy(g, x - x % g, x / g);
  }

  /** Steps of size k, of any sign, that move by d modulo m. */
  lemma WalkReaches(k: int, m: nat, d: int) returns (n: nat, t: int)
    requires m > 0 && Divides(Gcd(k % m, m), d)
    ensures n * k == d + t * m
  {
    n := StepsReach(k % m, m, d);
    var u := (n * (k % m) - d) / m;
    assert n * (k % m) - d == u * m;
    t := u + n * (k / m);
    WalkIdentity(n, k, k % m, k / m, m, d, u);
  }

  lemma WalkIdentity(n: int, k: int, r: int, q: int, m: int, d: int, u: int)
    requires k == r + q * m && n * r - d == u * m
    ensures n * k == d + (u + n * q) * m
  {
    calc {
      n * k;
      n * (r + q * m);
      n * r + n * (q * m);
      { assert n * (q * m) == (n * q) * m; }
      d + u * m + (n * q) * m;
      d + (u + n * q) * m;
    }
  }
}
