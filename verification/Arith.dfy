/** Integer facts used by every component: products, Euclidean division, powers of two. */
module Arith {

  lemma MulMono(a: int, x: int, y: int)
    requires 0 <= a && x <= y
    ensures a * x <= a * y
  {
  }

  lemma MulStrictMono(a: int, x: int, y: int)
    requires 0 < a && x < y
    ensures a * x < a * y
  {
  }

  lemma MulNonNeg(a: int, b: int)
    requires 0 <= a && 0 <= b
    ensures 0 <= a * b
  {
  }

  /** Quotient and remainder are determined by `x == q * d + r` with `0 <= r < d`. */
  lemma DivModUnique(x: int, d: int, q: int, r: int)
    requires 0 < d && x == q * d + r && 0 <= r < d
    ensures x / d == q && x % d == r
  {
    var q', r' := x / d, x % d;
    assert x == q' * d + r';
    assert (q - q') * d == r' - r;
    if q - q' >= 1 { MulMono(d, 1, q - q'); assert false; }
    if q' - q >= 1 { MulMono(d, 1, q' - q); assert false; }
  }

  lemma ModOfMultiple(k: int, d: int)
    requires 0 < d
    ensures (k * d) % d == 0 && (k * d) / d == k
  {
    DivModUnique(k * d, d, k, 0);
  }

  lemma ModAddMultiple(x: int, k: int, d: int)
    requires 0 < d
    ensures (x + k * d) % d == x % d && (x + k * d) / d == x / d + k
  {
    assert x + k * d == (x / d + k) * d + x % d by { assert (x / d + k) * d == (x / d) * d + k * d; }
    DivModUnique(x + k * d, d, x / d + k, x % d);
  }

  /** Congruence, stated as equal remainders. */
  ghost predicate Cong(a: int, b: int, m: int)
    requires 0 < m
  {
    a % m == b % m
  }

  lemma CongDiff(a: int, b: int, m: int)
    requires 0 < m
    ensures Cong(a, b, m) <==> (a - b) % m == 0
  {
    if (a - b) % m == 0 {
      var k := (a - b) / m;
      assert a == b + k * m;
      ModAddMultiple(b, k, m);
    }
    if Cong(a, b, m) {
      var k := a / m - b / m;
      assert a - b == k * m by { assert k * m == (a / m) * m - (b / m) * m; }
      ModOfMultiple(k, m);
    }
  }

  lemma MulDistribute(a: int, b: int, c: int)
    ensures (a + b) * c == a * c + b * c && (a - b) * c == a * c - b * c
  {
  }

  lemma MulAssoc(a: int, b: int, c: int)
    ensures (a * b) * c == a * (b * c)
  {
  }

  lemma MultipleAdd(x: int, y: int, m: int)
    requires 0 < m && x % m == 0 && y % m == 0
    ensures (x + y) % m == 0 && (x - y) % m == 0
  {
    var k, l := x / m, y / m;
    assert x == k * m && y == l * m;
    MulDistribute(k, l, m);
    ModOfMultiple(k + l, m);
    ModOfMultiple(k - l, m);
  }

  lemma CongAdd(a: int, a': int, b: int, b': int, m: int)
    requires 0 < m && Cong(a, a', m) && Cong(b, b', m)
    ensures Cong(a + b, a' + b', m) && Cong(a - b, a' - b', m)
  {
    CongDiff(a, a', m);
    CongDiff(b, b', m);
    MultipleAdd(a - a', b - b', m);
    CongDiff(a + b, a' + b', m);
    CongDiff(a - b, a' - b', m);
  }

  /** Multiplying a multiple of m gives a multiple of m. */
  lemma MultipleTimes(x: int, y: int, m: int)
    requires 0 < m && x % m == 0
    ensures (x * y) % m == 0
  {
    var k := x / m;
    assert x == k * m;
    MulAssoc(k, m, y);
    MulAssoc(k, y, m);
    assert m * y == y * m;
    ModOfMultiple(k * y, m);
  }

  lemma CongMul(a: int, a': int, b: int, b': int, m: int)
    requires 0 < m && Cong(a, a', m) && Cong(b, b', m)
    ensures Cong(a * b, a' * b', m)
  {
    CongDiff(a, a', m);
    CongDiff(b, b', m);
    MultipleTimes(a - a', b, m);
    MultipleTimes(b - b', a', m);
    MulDistribute(a, a', b);
    MulDistribute(b, b', a');
    CongDiff(a * b, a' * b, m);
    CongDiff(b * a', b' * a', m);
    assert a' * b == b * a' && b' * a' == a' * b';
  }

  lemma CongMod(a: int, m: int)
    requires 0 < m
    ensures Cong(a % m, a, m)
  {
    DivModUnique(a % m, m, 0, a % m);
  }

  lemma SmallMod(a: int, m: int)
    requires 0 <= a < m
    ensures a % m == a && a / m == 0
  {
    DivModUnique(a, m, 0, a);
  }

  // ----- sums modulo p -----

  lemma SameMod(e: int, e': int, k: int, p: int)
    requires 0 < p && e == e' + k * p
    ensures e % p == e' % p
  {
    ModAddMultiple(e', k, p);
  }

  /** A remainder differs from its number by a multiple of p. */
  lemma Wrap(e: int, p: int) returns (k: int)
    requires 0 < p
    ensures e % p == e - k * p
  {
    k := e / p;
  }

  /** `(x + y) % p` may be computed with x already reduced. */
  lemma ReduceTerm(x: int, y: int, p: int)
    requires 0 < p
    ensures ((x % p) + y) % p == (x + y) % p && (y + (x % p)) % p == (x + y) % p
  {
    var k := Wrap(x, p);
    SameMod((x % p) + y, x + y, -k, p);
  }

  lemma ScaledWrap(a: int, x: int, k: int, p: int)
    ensures a * (x - k * p) == a * x - (a * k) * p
  {
    assert a * (k * p) == (a * k) * p;
  }

  /** A linear form may be computed on reduced arguments. */
  lemma ReduceForm(a: int, x: int, b: int, y: int, c: int, z: int, p: int)
    requires 0 < p
    ensures (a * (x % p) + b * (y % p) + c * (z % p)) % p == (a * x + b * y + c * z) % p
  {
    var k := Wrap(x, p);
    var l := Wrap(y, p);
    var m := Wrap(z, p);
    ScaledWrap(a, x, k, p);
    ScaledWrap(b, y, l, p);
    ScaledWrap(c, z, m, p);
    FormMod(a * (x % p) + b * (y % p) + c * (z % p), a * x + b * y + c * z, a * k, b * l, c * m, p);
  }

  lemma FormMod(e: int, e': int, k: int, l: int, m: int, p: int)
    requires 0 < p && e == e' - k * p - l * p - m * p
    ensures e % p == e' % p
  {
    assert e == e' + -(k + l + m) * p;
    SameMod(e, e', -(k + l + m), p);
  }

  // ----- powers -----

  function Pow(b: nat, n: nat): (r: nat)
    ensures b > 0 ==> r > 0
  {
    if n == 0 then 1 else b * Pow(b, n - 1)
  }

  lemma {:induction false} PowAdd(b: nat, m: nat, n: nat)
    ensures Pow(b, m + n) == Pow(b, m) * Pow(b, n)
  {
    if m == 0 {
    } else {
      PowAdd(b, m - 1, n);
      assert Pow(b, m + n) == b * (Pow(b, m - 1) * Pow(b, n));
      assert b * (Pow(b, m - 1) * Pow(b, n)) == (b * Pow(b, m - 1)) * Pow(b, n);
    }
  }

  lemma {:induction false} PowMono(b: nat, m: nat, n: nat)
    requires b > 0 && m <= n
    ensures Pow(b, m) <= Pow(b, n)
  {
    PowAdd(b, m, n - m);
    MulMono(Pow(b, m), 1, Pow(b, n - m));
  }

  /** Raising to a product of exponents. */
  lemma {:induction false} PowPow(b: nat, m: nat, n: nat)
    ensures 0 <= m * n && Pow(b, m * n) == Pow(Pow(b, m), n)
  {
    MulNonNeg(m, n);
    if n == 0 {
      assert m * n == 0;
    } else {
      PowPow(b, m, n - 1);
      MulNonNeg(m, n - 1);
      assert m * n == m + m * (n - 1);
      PowAdd(b, m, m * (n - 1));
    }
  }

  // ----- truncation at two nested widths -----

  lemma DivDiv(x: int, a: int, b: int)
    requires 0 < a && 0 < b
    ensures 0 < a * b && x / (a * b) == (x / a) / b && x % (a * b) == x % a + a * ((x / a) % b)
  {
    MulStrictMono(a, 0, b);
    var q, r := (x / a) / b, x % a + a * ((x / a) % b);
    assert x == (x / a) * a + x % a;
    assert x / a == q * b + (x / a) % b;
    calc {
      x;
      (q * b + (x / a) % b) * a + x % a;
      (q * b) * a + ((x / a) % b) * a + x % a;
      { assert (q * b) * a == q * (a * b); }
      q * (a * b) + r;
    }
    MulMono(a, (x / a) % b, b - 1);
    assert a * (b - 1) == a * b - a;
    MulNonNeg(a, (x / a) % b);
    DivModUnique(x, a * b, q, r);
  }
}
