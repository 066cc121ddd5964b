/**
 * Number theory behind the two prime fields: Euclid's lemma and inverses modulo a prime, orders of a base
 * modulo a divisor, and cubing modulo a prime that leaves 2 modulo 3.
 */
module Primes {
  import opened Arith

  // ----- powers of b modulo d -----

  /** `(x * y) % m` may be computed with either factor already reduced. */
  lemma ReduceFactor(x: int, y: int, m: int)
    requires 0 < m
    ensures ((x % m) * y) % m == (x * y) % m
    ensures (y * (x % m)) % m == (x * y) % m
  {
    CongMod(x, m);
    CongMul(x % m, x, y, y, m);
    assert y * (x % m) == (x % m) * y;
  }

  lemma MulRotate(x: int, y: int, a: int)
    ensures (x * y) * a == (a * x) * y
  {
  }

  ghost function PowM(b: int, e: nat, d: int): (r: int)
    requires 1 < d
    ensures 0 <= r < d
  {
    if e == 0 then 1 else (b * PowM(b, e - 1, d)) % d
  }

  lemma {:induction false} PowMAdd(b: int, i: nat, j: nat, d: int)
    requires 1 < d
    ensures PowM(b, i + j, d) == (PowM(b, i, d) * PowM(b, j, d)) % d
  {
    if i == 0 {
      SmallMod(PowM(b, j, d), d);
    } else {
      var x, y := PowM(b, i - 1, d), PowM(b, j, d);
      PowMAdd(b, i - 1, j, d);
      ReduceFactor(x * y, b, d);
      ReduceFactor(b * x, y, d);
      MulRotate(x, y, b);
    }
  }

  // The rest of the argument sees the powers only through their addition law.

  ghost predicate AddLaw(f: nat -> int, d: int, i: nat, j: nat)
    requires 0 < d
  {
    f(i + j) == (f(i) * f(j)) % d
  }

  ghost predicate PowersOf(f: nat -> int, b: int, d: int) {
    && 1 < d
    && f(0) == 1 && f(1) == b % d
    && (forall i: nat :: 0 <= f(i) < d)
    && (forall i: nat, j: nat :: AddLaw(f, d, i, j))
  }

  lemma PowMIsPowers(b: int, d: int) returns (f: nat -> int)
    requires 1 < d
    ensures PowersOf(f, b, d) && forall e: nat :: f(e) == PowM(b, e, d)
  {
    f := (e: nat) => PowM(b, e, d);
    forall i: nat, j: nat
      ensures AddLaw(f, d, i, j)
    {
      PowMAdd(b, i, j, d);
    }
  }

  lemma {:induction false} PowerOfOne(f: nat -> int, b: int, d: int, i: nat, k: nat)
    requires PowersOf(f, b, d) && f(i) == 1
    ensures 0 <= i * k && f(i * k) == 1
  {
    MulNonNeg(i, k);
    if k == 0 {
      assert i * k == 0;
    } else {
      PowerOfOne(f, b, d, i, k - 1);
      MulNonNeg(i, k - 1);
      assert i * k == i + i * (k - 1);
      assert AddLaw(f, d, i, i * (k - 1));
      SmallMod(1, d);
    }
  }

  /** Powers modulo a divisor of the modulus are the reduced powers. */
  lemma {:induction false} PowMDivisor(b: int, e: nat, m: int, d: int)
    requires 1 < d && 1 < m && m % d == 0
    ensures PowM(b, e, d) == PowM(b, e, m) % d
  {
    if e == 0 {
      SmallMod(1, d);
    } else {
      var x := PowM(b, e - 1, m);
      PowMDivisor(b, e - 1, m, d);
      ReduceFactor(x, b, d);
      ModThenMod(b * x, m, d);
    }
  }

  lemma ModThenMod(x: int, m: int, d: int)
    requires 0 < d && 0 < m && m % d == 0
    ensures (x % m) % d == x % d
  {
    var t := m / d;
    assert x == x % m + (x / m) * m && m == t * d;
    MulAssoc(x / m, t, d);
    ModAddMultiple(x % m, (x / m) * t, d);
  }

  // ----- Euclid's lemma -----

  ghost predicate Prime(q: nat) {
    1 < q && forall d: nat :: 1 < d < q ==> q % d != 0
  }

  ghost predicate NoDivisorUpTo(q: nat, b: nat) {
    forall d: nat :: 1 < d <= b ==> q % d != 0
  }

  /** A number without divisors up to its square root is prime. */
  lemma TrialDivision(q: nat, b: nat)
    requires 1 < q < (b + 1) * (b + 1) && NoDivisorUpTo(q, b) && b < q
    ensures Prime(q)
  {
    forall d: nat | 1 < d < q
      ensures q % d != 0
    {
      if q % d == 0 {
        var k := q / d;
        assert q == k * d;
        if d > b {
          if k > b {
            MulMono(d, b + 1, k);
            MulMono(b + 1, b + 1, d);
            assert false;
          }
          if k <= 1 { MulMono(d, k, 1); assert false; }
          ModOfMultiple(d, k);
        }
      }
    }
  }

  predicate Rough(q: nat, b: nat) {
    b <= 1 || (q % b != 0 && Rough(q, b - 1))
  }

  lemma {:induction false} RoughMeans(q: nat, b: nat)
    requires Rough(q, b)
    ensures NoDivisorUpTo(q, b)
  {
    if b > 1 { RoughMeans(q, b - 1); }
  }

  /** Going from x to q mod x multiplies by -(q / x), modulo q. */
  lemma RemainderStep(q: nat, x: nat, g: int)
    requires 0 < x < q
    ensures ((q % x) * g) % q == ((x * g) * -(q / x)) % q
  {
    var t, r := q / x, q % x;
    assert q == t * x + r;
    MulDistribute(t * x, r, g);
    MulAssoc(t, x, g);
    var y := x * g;
    assert t * y == y * t && y * -t == -(y * t) && q * g == g * q;
    ModAddMultiple(y * -t, g, q);
  }

  /** If q is prime and divides x * g with 0 < x < q, then q divides g: replace x by q mod x until it is 1. */
  lemma {:induction false} EuclidStep(q: nat, x: nat, g: int)
    requires Prime(q) && 0 < x < q && (x * g) % q == 0
    ensures g % q == 0
    decreases x
  {
    if x == 1 {
      assert x * g == g;
    } else {
      assert q % x != 0;
      RemainderStep(q, x, g);
      MultipleTimes(x * g, -(q / x), q);
      EuclidStep(q, q % x, g);
    }
  }

  /** The same descent computes an inverse of x modulo a prime q. */
  lemma {:induction false} InverseStep(q: nat, x: nat) returns (y: int)
    requires Prime(q) && 0 < x < q
    ensures (x * y) % q == 1
    decreases x
  {
    if x == 1 {
      y := 1;
      SmallMod(1, q);
    } else {
      var z := InverseStep(q, q % x);
      RemainderStep(q, x, z);
      y := z * -(q / x);
      MulAssoc(x, z, -(q / x));
    }
  }

  lemma EuclidLemma(q: nat, k: int, g: int)
    requires Prime(q) && (k * g) % q == 0
    ensures k % q == 0 || g % q == 0
  {
    if k % q != 0 {
      ReduceFactor(k, g, q);
      EuclidStep(q, k % q, g);
    }
  }

  lemma MulCancel(q: int, x: int, y: int)
    requires 0 < q && x * q == y * q
    ensures x == y
  {
    if x < y { MulStrictMono(q, x, y); assert false; }
    if y < x { MulStrictMono(q, y, x); assert false; }
  }

  /** Strip one prime factor q of the product k * g off g, when it does not divide k. */
  lemma Strip(q: nat, n: nat, k: nat, g: nat) returns (h: nat)
    requires Prime(q) && k * g == n * q && k % q != 0
    ensures g == h * q && k * h == n
  {
    ModOfMultiple(n, q);
    EuclidLemma(q, k, g);
    h := g / q;
    MulAssoc(k, h, q);
    MulCancel(q, k * h, n);
  }

  // ----- orders of a base modulo a divisor -----

  /** If b^e is 1 modulo d then so is b^g for some divisor g <= e of n. */
  lemma {:induction false} OrderDivisor(f: nat -> int, b: int, d: int, e: nat, n: nat) returns (g: nat)
    requires PowersOf(f, b, d) && 0 < e && f(e) == 1 && f(n) == 1
    ensures 0 < g <= e && n % g == 0 && f(g) == 1
    decreases e
  {
    var r, k := n % e, n / e;
    if r == 0 { return e; }
    PowerOfOne(f, b, d, e, k);
    assert n == e * k + r;
    assert AddLaw(f, d, e * k, r);
    SmallMod(f(r), d);
    g := OrderDivisor(f, b, d, r, n);
  }

  ghost function Powers(f: nat -> int, n: nat): set<int> {
    if n == 0 then {} else Powers(f, n - 1) + {f(n - 1)}
  }

  lemma {:induction false} InPowers(f: nat -> int, n: nat, x: int) returns (i: nat)
    requires x in Powers(f, n)
    ensures i < n && f(i) == x
  {
    if x == f(n - 1) {
      i := n - 1;
    } else {
      i := InPowers(f, n - 1, x);
    }
  }

  ghost function Interval(n: nat): set<int> {
    if n == 0 then {} else Interval(n - 1) + {n}
  }

  lemma {:induction false} InInterval(n: nat, x: int)
    ensures x in Interval(n) <==> 1 <= x <= n
    ensures |Interval(n)| == n
  {
    if n > 0 {
      InInterval(n - 1, x);
      InInterval(n - 1, n);
    }
  }

  lemma SubsetCard(a: set<int>, b: set<int>)
    ensures a <= b ==> |a| <= |b|
  {
    if a <= b { assert b == a + (b - a); }
  }

  /** Two equal powers b^i, b^j show that b^(j - i) is 1: multiply both by b^(top - i). */
  lemma Collision(f: nat -> int, b: int, d: int, i: nat, j: nat, top: nat)
    requires PowersOf(f, b, d) && f(top) == 1 && i < j <= top && f(i) == f(j)
    ensures f(j - i) == 1
  {
    assert AddLaw(f, d, i, top - i);
    assert AddLaw(f, d, j, top - i);
    assert j + (top - i) == (j - i) + top;
    assert AddLaw(f, d, j - i, top);
    SmallMod(f(j - i), d);
  }

  lemma PowerNonzero(f: nat -> int, b: int, d: int, i: nat, top: nat)
    requires PowersOf(f, b, d) && f(top) == 1 && i <= top
    ensures f(i) in Interval(d - 1)
  {
    assert AddLaw(f, d, i, top - i);
    SmallMod(0, d);
    InInterval(d - 1, f(i));
  }

  /** Of the first n powers either two agree, or there are n of them among the nonzero residues. */
  lemma {:induction false} PowersCount(f: nat -> int, b: int, d: int, n: nat, top: nat) returns (e: nat)
    requires PowersOf(f, b, d) && f(top) == 1 && n <= top
    ensures (0 < e < n && f(e) == 1) || (|Powers(f, n)| == n && Powers(f, n) <= Interval(d - 1))
  {
    e := 0;
    if n > 0 {
      e := PowersCount(f, b, d, n - 1, top);
      if 0 < e < n - 1 && f(e) == 1 { return; }
      PowerNonzero(f, b, d, n - 1, top);
      if f(n - 1) in Powers(f, n - 1) {
        var i := InPowers(f, n - 1, f(n - 1));
        Collision(f, b, d, i, n - 1, top);
        e := n - 1 - i;
      }
    }
  }

  /** The order of b modulo d is below d, by the pigeonhole principle. */
  lemma OrderBelow(f: nat -> int, b: int, d: nat, top: nat) returns (g: nat)
    requires PowersOf(f, b, d) && d <= top && f(top) == 1
    ensures 0 < g < d && top % g == 0 && f(g) == 1
  {
    var e := PowersCount(f, b, d, d, top);
    InInterval(d - 1, 1);
    SubsetCard(Powers(f, d), Interval(d - 1));
    g := OrderDivisor(f, b, d, e, top);
  }

  /** If v - 1 is invertible modulo m, v is not 1 modulo any divisor of m above 1. */
  lemma StaysOffOne(v: int, w: int, m: int, d: int)
    requires 1 < d && 1 < m && m % d == 0 && ((v - 1) * w) % m == 1
    ensures v % d != 1
  {
    if v % d == 1 {
      ModThenMod((v - 1) * w, m, d);
      SmallMod(1, d);
      CongDiff(v, 1, d);
      ReduceFactor(v - 1, w, d);
      SmallMod(0, d);
    }
  }

  /** If b^g is 1 but b^c is not, where k * g == c * q, then q does not divide k. */
  lemma NoMultiple(f: nat -> int, b: int, d: int, g: nat, k: nat, q: nat, c: nat)
    requires PowersOf(f, b, d) && 0 < q && k * g == c * q && f(g) == 1 && f(c) != 1
    ensures k % q != 0
  {
    if k % q == 0 {
      var t := k / q;
      assert k == t * q;
      MulRotate(q, t, g);
      MulAssoc(g, t, q);
      assert (g * t) * q == c * q by { assert (q * t) * g == (g * q) * t; assert (g * q) * t == (g * t) * q; }
      MulCancel(q, g * t, c);
      PowerOfOne(f, b, d, g, t);
    }
  }

  // ----- a base whose order is a power of two -----

  /** An odd divisor of a power of two is 1. */
  lemma {:induction false} OddDivisor(k: nat, g: nat, e: nat)
    requires k % 2 != 0 && k * g == Pow(2, e)
    ensures k == 1
  {
    if e == 0 {
      if k > 1 && g >= 1 { MulMono(k, 1, g); assert false; }
    } else {
      TwoIsPrime();
      assert Pow(2, e) == Pow(2, e - 1) * 2;
      var h := Strip(2, Pow(2, e - 1), k, g);
      OddDivisor(k, h, e - 1);
    }
  }

  lemma TwoIsPrime()
    ensures Prime(2)
  {
  }

  /** If b^half is -1 modulo d and half is a power of two, the order of b is twice half, and orders are below d. */
  lemma OrderIsTwice(f: nat -> int, b: int, d: nat, e: nat, half: nat)
    requires PowersOf(f, b, d) && 2 < d && half == Pow(2, e) && f(half) == d - 1
    ensures 2 * half < d
  {
    var top := 2 * half;
    assert AddLaw(f, d, half, half);
    SquareOfMinusOne(d);
    if d <= top {
      var g := OrderBelow(f, b, d, top);
      var k := top / g;
      assert k * g == half * 2;
      NoMultiple(f, b, d, g, k, 2, half);
      assert Pow(2, e + 1) == top;
      OddDivisor(k, g, e + 1);
    }
  }

  /** If b^(2^e) is -1 modulo m, every divisor d > 2 of m is above 2^(e + 1). */
  lemma DivisorAboveOrder(b: int, e: nat, half: nat, m: int, d: nat)
    requires 2 < d && 1 < m && m % d == 0 && half == Pow(2, e) && PowM(b, half, m) == m - 1
    ensures 2 * half < d
  {
    var f := PowMIsPowers(b, d);
    PowMDivisor(b, half, m, d);
    MinusOne(m, d);
    OrderIsTwice(f, b, d, e, half);
  }

  lemma MinusOne(m: int, d: int)
    requires 0 < d && m % d == 0
    ensures (m - 1) % d == d - 1
  {
    var t := m / d;
    assert m - 1 == (t - 1) * d + (d - 1);
    DivModUnique(m - 1, d, t - 1, d - 1);
  }

  lemma SquareOfMinusOne(d: int)
    requires 1 < d
    ensures ((d - 1) * (d - 1)) % d == 1
  {
    assert (d - 1) * (d - 1) == (d - 2) * d + 1;
    DivModUnique((d - 1) * (d - 1), d, d - 2, 1);
  }

  // ----- cubing modulo a prime that leaves 2 modulo 3 -----

  function CubeMod(x: int, p: int): int
    requires 0 < p
  {
    (((x * x) % p) * x) % p
  }

  lemma CubeModIs(x: int, p: int)
    requires 0 < p
    ensures CubeMod(x, p) == ((x * x) * x) % p
  {
    ReduceFactor(x * x, x, p);
  }

  /** The cube of a residue is the residue of the cube. */
  lemma CubeOfResidue(s: int, p: int)
    requires 0 < p
    ensures CubeMod(s % p, p) == ((s * s) * s) % p
  {
    var r := s % p;
    CubeModIs(r, p);
    CongMod(s, p);
    CongMul(r, s, r, s, p);
    CongMul(r * r, s * s, r, s, p);
  }

  /** A map that walks every residue of the set through a circle of three and back, fixing none. */
  ghost predicate Circles<T>(t: T -> T, s: set<T>) {
    forall u :: u in s ==> t(u) in s && t(u) != u && t(t(t(u))) == u
  }

  /** Such a map cuts its set into circles, so the size of the set is a multiple of three. */
  lemma {:induction false} CirclesOfThree<T>(t: T -> T, s: set<T>)
    requires Circles(t, s)
    ensures |s| % 3 == 0
    decreases |s|
  {
    if s != {} {
      var u :| u in s;
      var v, w := t(u), t(t(u));
      var rest := s - {u, v, w};
      assert v in s && w in s;
      assert |{u, v, w}| == 3;
      assert s == rest + {u, v, w};
      CirclesOfThree(t, rest);
    }
  }

  function TimesMod(z: int, p: int): int -> int
    requires 0 < p
  {
    (u: int) => (z * u) % p
  }

  lemma TimesTwice(z: int, p: int, u: int)
    requires 0 < p
    ensures (z * ((z * u) % p)) % p == ((z * z) * u) % p
  {
    ReduceFactor(z * u, z, p);
    assert (z * u) * z == (z * z) * u;
  }

  lemma TimesThrice(z: int, p: int, u: int, v: int)
    requires 0 < p && v == (z * ((z * u) % p)) % p
    ensures (z * v) % p == (((z * z) * z) * u) % p
  {
    TimesTwice(z, p, u);
    ReduceFactor((z * z) * u, z, p);
    assert ((z * z) * u) * z == ((z * z) * z) * u;
  }

  /** A nontrivial cube root of unity walks every unit through a circle. */
  lemma RootCircles(z: int, p: nat, u: int)
    requires Prime(p) && 0 < u < p && 1 < z < p && ((z * z) * z) % p == 1
    ensures var t := TimesMod(z, p); 0 < t(u) < p && t(u) != u && t(t(t(u))) == u
  {
    var v := (z * u) % p;
    SmallMod(u, p);
    SmallMod(z, p);
    if v == 0 { EuclidLemma(p, z, u); }
    if v == u { FixedOnlyByOne(z, p, u); }
    TimesThrice(z, p, u, (z * v) % p);
    ReduceFactor((z * z) * z, u, p);
  }

  lemma FixedOnlyByOne(z: int, p: nat, u: int)
    requires Prime(p) && (z * u) % p == u && 0 < u < p && 0 < z < p
    ensures z == 1
  {
    SmallMod(u, p);
    CongDiff(z * u, u, p);
    assert z * u - u == (z - 1) * u;
    EuclidLemma(p, z - 1, u);
    SmallMod(z - 1, p);
  }

  lemma UnitsCircle(z: int, p: nat, t: int -> int, units: set<int>)
    requires Prime(p) && 1 < z < p && ((z * z) * z) % p == 1 && t == TimesMod(z, p)
    requires forall u :: u in units <==> 1 <= u <= p - 1
    ensures Circles(t, units)
  {
    forall u | u in units ensures t(u) in units && t(u) != u && t(t(t(u))) == u {
      RootCircles(z, p, u);
    }
  }

  lemma Units(p: nat) returns (units: set<int>)
    requires p > 0
    ensures |units| == p - 1 && forall u :: u in units <==> 1 <= u <= p - 1
  {
    units := Interval(p - 1);
    InInterval(p - 1, 1);
    forall u ensures u in units <==> 1 <= u <= p - 1 {
      InInterval(p - 1, u);
    }
  }

  /** Modulo a prime that leaves 2 modulo 3 the only cube root of unity is 1: the p - 1 units are not a multiple of three. */
  lemma CubeRootOfOne(z: int, p: nat)
    requires Prime(p) && p % 3 == 2 && 0 < z < p && ((z * z) * z) % p == 1
    ensures z == 1
  {
    if z != 1 {
      var units := Units(p);
      UnitsCircle(z, p, TimesMod(z, p), units);
      CirclesOfThree(TimesMod(z, p), units);
    }
  }

  /** Cubing is injective modulo such a prime. */
  lemma CubesDiffer(x: int, y: int, p: nat)
    requires Prime(p) && p % 3 == 2 && 0 <= x < p && 0 <= y < p && ((x * x) * x) % p == ((y * y) * y) % p
    ensures x == y
  {
    SmallMod(x, p);
    SmallMod(y, p);
    if y == 0 {
      SmallMod(0, p);
      EuclidLemma(p, x * x, x);
      EuclidLemma(p, x, x);
    } else {
      var i := InverseStep(p, y);
      var z := (x * i) % p;
      CubeQuotient(x, y, i, p);
      SmallMod(1, p);
      if z == 0 { SmallMod(0, p); ReduceFactor(0, 0, p); assert false; }
      CubeRootOfOne(z, p);
      BackFromOne(x, y, i, p);
    }
  }

  lemma CubeQuotient(x: int, y: int, i: int, p: nat)
    requires 1 < p && (y * i) % p == 1 && ((x * x) * x) % p == ((y * y) * y) % p
    ensures var z := (x * i) % p; ((z * z) * z) % p == 1
  {
    var z, w := (x * i) % p, y * i;
    CongMod(x * i, p);
    CongMul(z, x * i, z, x * i, p);
    CongMul(z * z, (x * i) * (x * i), z, x * i, p);
    CubeOfProduct(x, i);
    CongMul((x * x) * x, (y * y) * y, (i * i) * i, (i * i) * i, p);
    CubeOfProduct(y, i);
    SmallMod(1, p);
    CongMul(w, 1, w, 1, p);
    CongMul(w * w, 1, w, 1, p);
  }

  lemma CubeOfProduct(x: int, i: int)
    ensures ((x * i) * (x * i)) * (x * i) == ((x * x) * x) * ((i * i) * i)
  {
  }

  lemma BackFromOne(x: int, y: int, i: int, p: nat)
    requires 1 < p && (y * i) % p == 1 && (x * i) % p == 1 && 0 <= x < p && 0 <= y < p
    ensures x == y
  {
    TimesOne(x * i, y, p);
    TimesOne(y * i, x, p);
    Swap(x, y, i);
  }

  lemma Swap(x: int, y: int, i: int)
    ensures (x * i) * y == (y * i) * x
  {
  }

  lemma TimesOne(u: int, y: int, p: nat)
    requires 1 < p && u % p == 1 && 0 <= y < p
    ensures (u * y) % p == y
  {
    ReduceFactor(u, y, p);
    SmallMod(y, p);
  }

  /** Cubing modulo such a prime is injective. */
  lemma CubeModInjective(x: nat, y: nat, p: nat)
    requires Prime(p) && p % 3 == 2 && x < p && y < p && CubeMod(x, p) == CubeMod(y, p)
    ensures x == y
  {
    CubeModIs(x, p);
    CubeModIs(y, p);
    CubesDiffer(x, y, p);
  }
}
