/**
 * Reduction modulo the Stark prime with recorded carries (p_multiple, reduce48_with_carries and
 * reduce16_with_carries of src/poseidon252_air.rs).
 */
module LimbReduction {
  import opened Arith
  import opened Limbs
  import opened LimbDivision

  const LIMBS: nat := 16

  /** 2^251 + 17 * 2^192 + 1 */
  const PRIME: int := 0x0800000000000011000000000000000000000000000000000000000000000001

  const P_LIMBS: seq<int> := [1, 0, 0, 0, 0, 0, 0, 0, 0, 0, 0, 0, 17, 0, 0, 0x800]

  lemma ShiftConstants()
    ensures Shift(17, 12) == 0x11000000000000000000000000000000000000000000000000
    ensures Shift(0x800, 15) == 0x0800000000000000000000000000000000000000000000000000000000000000
    ensures Shift(1, 16) == 0x1_0000000000000000000000000000000000000000000000000000000000000000
  {
    ShiftShift(17, 6, 6);
    assert Shift(17, 6) == 0x11000000000000000000000000;
    ShiftShift(0x800, 8, 7);
    assert Shift(0x800, 7) == 0x8000000000000000000000000000000;
    ShiftShift(1, 8, 8);
    assert Shift(1, 8) == 0x1_00000000000000000000000000000000;
  }

  /** p stands for the prime in sixteen limbs. */
  ghost predicate IsPrime(p: seq<int>) {
    && IsLimbs(p) && |p| == LIMBS && p[0] != 0 && Val(p) == PRIME
    && 31 * PRIME < Shift(1, |p|) < 32 * PRIME
  }

  lemma SparseValue(a: seq<int>, x: int, i: nat, y: int, j: nat, z: int, n: nat)
    requires 0 < i < j < n && a == seq(n, _ => 0)[0 := x][i := y][j := z]
    ensures Val(a) == x + Shift(y, i) + Shift(z, j)
  {
    var zeros := seq(n, _ => 0);
    PolyZeros(Dig(zeros), 0, n);
    Bump(zeros, 0, x);
    Bump(zeros[0 := x], i, y);
    Bump(zeros[0 := x][i := y], j, z);
  }

  lemma PrimeLimbs()
    ensures IsPrime(P_LIMBS)
  {
    assert P_LIMBS == seq(16, _ => 0)[0 := 1][12 := 17][15 := 0x800];
    SparseValue(P_LIMBS, 1, 12, 17, 15, 0x800, 16);
    ShiftConstants();
  }

  // ----- widths -----

  lemma {:induction false} ShiftInjective(x: int, y: int, n: nat)
    requires Shift(x, n) == Shift(y, n)
    ensures x == y
  {
    if n > 0 { ShiftInjective(x, y, n - 1); }
  }

  /** A value below B^n has no limbs from n on. */
  lemma {:induction false} Narrow(a: seq<int>, n: nat)
    requires IsLimbs(a) && n <= |a| && Val(a) < Shift(1, n)
    ensures Val(a[..n]) == Val(a) && forall i :: n <= i < |a| ==> a[i] == 0
  {
    if n < |a| {
      var b, x := a[..|a| - 1], a[|a| - 1];
      assert a == b + [x];
      PushLimb(b, x);
      ValBound(b);
      ShiftZero(|b|);
      if x > 0 {
        ShiftMono(1, x, |b|);
        ShiftShift(1, |b| - n, n);
        ShiftGrows(Shift(1, n), |b| - n);
        assert false;
      }
      Narrow(b, n);
      assert b[..n] == a[..n];
    } else {
      assert a[..n] == a;
    }
  }

  // ----- multiples of the prime -----

  function Scaled(m: int, d: nat -> int): nat -> int {
    (i: nat) => m * d(i)
  }

  lemma MultipleDigits(m: int, p: seq<int>)
    ensures Poly(Scaled(m, Dig(p)), |p|) == m * Val(p)
  {
    var zero := (i: nat) => 0;
    PolyZeros(zero, 0, |p|);
    PolyScaled(Scaled(m, Dig(p)), zero, Dig(p), m, |p|);
  }

  lemma MultipleCarry(m: nat, d: int, c: int)
    requires 0 <= d < B && 0 <= c <= m
    ensures 0 <= (m * d + c) / B <= m
  {
    MulNonNeg(m, d);
    MulMono(m, d, B - 1);
    CarryBound(m * d, c, m);
  }

  method MultipleOf(m: nat, p: seq<int>) returns (out: seq<int>)
    requires IsLimbs(p)
    ensures |out| == |p| && IsLimbs(out)
    ensures m * Val(p) < Shift(1, |p|) ==> Val(out) == m * Val(p)
  {
    out := [];
    var carry := 0;
    ghost var f := Scaled(m, Dig(p));
    BalancedStart(f);
    for i := 0 to |p|
      invariant |out| == i && IsLimbs(out) && 0 <= carry <= m && Balanced(out, carry, f)
    {
      var v := m * p[i] + carry;
      MultipleCarry(m, p[i], carry);
      BalancedStep(out, carry, f, v % B, v / B);
      out, carry := out + [v % B], v / B;
    }
    MultipleDigits(m, p);
    ValBound(out);
    AddTotal(Val(out), carry, |p|, m * Val(p));
  }

  /** m P in sixteen limbs; the dropped carry is zero when it fits, so for every m up to 31. */
  method PMultiple(m: nat) returns (out: seq<int>)
    ensures |out| == LIMBS && IsLimbs(out)
    ensures m <= 31 ==> Val(out) == m * PRIME
  {
    PrimeLimbs();
    out := MultipleOf(m, P_LIMBS);
    if m <= 31 { MulMono(PRIME, m, 31); }
  }

  // ----- the reduction carry chain, for any divisor -----

  /** Columns of z + q p. */
  function ReductionColumns(q: seq<int>, p: seq<int>, z: seq<int>): nat -> int {
    (k: nat) => Conv(q, p, k, |q|) + At(z, k)
  }

  /** z + q p, column by column. */
  lemma ReductionValue(q: seq<int>, p: seq<int>, z: seq<int>, n: nat)
    requires |q| + |p| <= n + 1 && |z| <= n
    ensures Poly(ReductionColumns(q, p, z), n) == Val(q) * Val(p) + Val(z)
  {
    var f := (k: nat) => Conv(q, p, k, |q|);
    ConvValue(q, p, f, |q|, n);
    PolyScaled(ReductionColumns(q, p, z), f, Dig(z), 1, n);
    ValWide(z, n);
  }

  lemma ReductionBound(q: seq<int>, p: seq<int>, z: seq<int>, k: nat)
    requires IsLimbs(q) && IsLimbs(p) && IsLimbs(z)
    ensures 0 <= ReductionColumns(q, p, z)(k) <= |q| * SQUARE + (B - 1)
  {
    ConvBound(q, p, k, |q|);
  }

  lemma Residue(t: int, hf: int, d: int, hd: int)
    requires t + B * hf == d + B * hd && 0 <= d < B && 0 <= t
    ensures d <= t && (t - d) % B == 0
  {
    assert t - d == B * (hd - hf);
  }

  lemma HighsAgree(f: nat -> int, n: nat, d: nat -> int, n': nat, k: nat, c: int) returns (hf: int, hd: int)
    requires k < n && k < n' && Poly(f, n) == Poly(d, n') && Poly(d, k) + Shift(c, k) == Poly(f, k)
    ensures c + f(k) + B * hf == d(k) + B * hd
  {
    hf, hd := High(f, k + 1, n), High(d, k + 1, n');
    var x, y := High(f, k, n), High(d, k, n');
    HighStep(f, k, n);
    HighStep(d, k, n');
    PolyHigh(f, k, n);
    PolyHigh(d, k, n');
    ShiftAdd(c, x, k);
    ShiftInjective(c + x, y, k);
  }

  /** If columns f sum to the value with digits d, each running column total carries the digit d(k). */
  lemma ColumnCarries(f: nat -> int, n: nat, d: nat -> int, n': nat, k: nat, c: int)
    requires k < n && k < n' && 0 <= c && Poly(f, n) == Poly(d, n') && Poly(d, k) + Shift(c, k) == Poly(f, k)
    requires 0 <= f(k) && 0 <= d(k) < B
    ensures d(k) <= f(k) + c && (f(k) + c - d(k)) % B == 0
  {
    var hf, hd := HighsAgree(f, n, d, n', k, c);
    Residue(f(k) + c, hf, d(k), hd);
  }

  lemma CarriesForced(f: nat -> int, n: nat, y: seq<int>, k: nat, c: int)
    requires IsLimbs(y) && k < n && k < |y| && 0 <= c && 0 <= f(k)
    requires Poly(f, n) == Val(y) && Balanced(y[..k], c, f)
    ensures y[k] <= f(k) + c && (f(k) + c - y[k]) % B == 0
  {
    PolySame(Dig(y[..k]), Dig(y), k);
    ColumnCarries(f, n, Dig(y), |y|, k, c);
  }

  /** The running total of one column, as the inner loop adds it up. */
  method Total(q: seq<int>, p: seq<int>, z: seq<int>, k: nat, c: int, ghost f: nat -> int) returns (t: int)
    requires IsLimbs(q) && IsLimbs(p) && IsLimbs(z) && |q| > 0 && f == ReductionColumns(q, p, z)
    ensures t == f(k) + c && 0 <= f(k) <= |q| * SQUARE + (B - 1)
  {
    t := c;
    if k < |z| { t := t + z[k]; }
    ghost var start := t;
    var last := if k < |q| - 1 then k else |q| - 1;
    for i := 0 to last + 1
      invariant t == start + Conv(q, p, k, i)
    {
      var j := k - i;
      if j < |p| { t := t + q[i] * p[j]; }
    }
    ConvTail(q, p, k, last + 1, |q|);
    ReductionBound(q, p, z, k);
  }

  lemma {:induction false} ConvTail(q: seq<int>, p: seq<int>, k: nat, m: nat, n: nat)
    requires m <= n && (m < n ==> k < m)
    ensures Conv(q, p, k, n) == Conv(q, p, k, m)
  {
    if m < n { ConvTail(q, p, k, m, n - 1); }
  }

  lemma ReduceCarry(f: int, c: int, y: int, n: nat)
    requires 0 <= f <= n * SQUARE + (B - 1) && 0 <= c <= (n + 1) * (B - 1) && 0 < n
    requires 0 <= y <= f + c && (f + c - y) % B == 0
    ensures 0 <= (f + c - y) / B <= (n + 1) * (B - 1) && y + B * ((f + c - y) / B) == f + c
  {
  }

  /** The first k columns have been carried. */
  ghost predicate Carried(f: nat -> int, y: seq<int>, carries: seq<int>, k: nat, top: int) {
    && |carries| == k <= |y| && Balanced(y[..k], Before(carries, k), f)
    && forall i: nat :: i < k ==> CarryAt(f, y, carries, i) && 0 <= carries[i] <= top
  }

  lemma CarriedStep(f: nat -> int, y: seq<int>, carries: seq<int>, k: nat, top: int, next: int)
    requires Carried(f, y, carries, k, top) && k < |y| && 0 <= next <= top
    requires y[k] + B * next == f(k) + Before(carries, k)
    ensures Carried(f, y, carries + [next], k + 1, top)
  {
    BalancedStep(y[..k], Before(carries, k), f, y[k], next);
    assert y[..k] + [y[k]] == y[..k + 1];
    forall i: nat | i < k ensures CarryAt(f, y, carries + [next], i) {
      assert CarryAt(f, y, carries, i);
    }
  }

  lemma CarriedStart(f: nat -> int, y: seq<int>, top: int)
    ensures Carried(f, y, [], 0, top)
  {
    assert y[..0] == [];
    BalancedStart(f);
  }

  /** One column: its total yields its limb of y and a whole carry. */
  method CarryColumn(y: seq<int>, q: seq<int>, p: seq<int>, z: seq<int>, n: nat, k: nat, c: int, ghost f: nat -> int) returns (next: int)
    requires IsLimbs(y) && IsLimbs(q) && IsLimbs(p) && IsLimbs(z) && |q| > 0 && k < n <= |y|
    requires f == ReductionColumns(q, p, z) && Poly(f, n) == Val(y) && Balanced(y[..k], c, f) && 0 <= c <= (|q| + 1) * (B - 1)
    ensures y[k] + B * next == f(k) + c && 0 <= next <= (|q| + 1) * (B - 1)
  {
    var t := Total(q, p, z, k, c, f);
    CarriesForced(f, n, y, k, c);
    ReduceCarry(f(k), c, y[k], |q|);
    next := (t - y[k]) / B;
  }

  method ReduceCarries(y: seq<int>, q: seq<int>, p: seq<int>, z: seq<int>, n: nat, ghost f: nat -> int)
      returns (carries: seq<int>)
    requires IsLimbs(y) && IsLimbs(q) && IsLimbs(p) && IsLimbs(z) && |q| > 0 && n <= |y|
    requires f == ReductionColumns(q, p, z) && Poly(f, n) == Val(y)
    ensures Carried(f, y, carries, n, (|q| + 1) * (B - 1))
  {
    ghost var top := (|q| + 1) * (B - 1);
    carries := [];
    CarriedStart(f, y, top);
    var c := 0;
    for k := 0 to n
      invariant Carried(f, y, carries, k, top) && c == Before(carries, k) && 0 <= c <= top
    {
      c := CarryColumn(y, q, p, z, n, k, c, f);
      CarriedStep(f, y, carries, k, top, c);
      carries := carries + [c];
    }
  }

  lemma LastCarry(y: seq<int>, n: nat, f: nat -> int, c: int)
    requires |y| == n + 1 && Poly(f, n) == Val(y) && Balanced(y[..n], c, f)
    ensures c == y[n]
  {
    assert y == y[..n] + [y[n]];
    PushLimb(y[..n], y[n]);
    ShiftInjective(c, y[n], n);
  }

  lemma Quotient(y: int, q: seq<int>, p: int, z: seq<int>, n: nat, l: nat)
    requires IsLimbs(q) && n <= |q| && IsLimbs(z) && l <= |z| && 0 < p <= Shift(1, l)
    requires y == Val(q) * p + Val(z) && 0 <= Val(z) < p && y < Shift(1, n) * p
    ensures Val(q[..n]) == Val(q) && (forall i :: n <= i < |q| ==> q[i] == 0) && Val(z[..l]) == Val(z)
  {
    SmallQuotient(Val(q), y, p, Shift(1, n));
    Narrow(q, n);
    Narrow(z, l);
  }

  /**
   * y = z + q P with recorded carries. Every running total is at least the limb it must produce and agrees
   * with it modulo 2^16, so the recorded carry is exact, and the last one is the top limb.
   */
  method Reduce48(y: seq<int>) returns (q: seq<int>, z: seq<int>, carries: seq<int>)
    requires IsLimbs(y) && |y| == 3 * LIMBS && Val(y) < Shift(1, |y| - LIMBS) * PRIME
    ensures IsLimbs(q) && |q| == 2 * LIMBS && IsLimbs(z) && |z| == LIMBS
    ensures Val(y) == Val(q) * PRIME + Val(z) && 0 <= Val(z) < PRIME
    ensures |carries| == |y| - 1 && forall k: nat :: k < |y| - 1 ==> CarryAt(ReductionColumns(q, P_LIMBS, z), y, carries, k)
    ensures forall k: nat :: k < |y| - 1 ==> 0 <= carries[k] <= 33 * (B - 1)
    ensures carries[|y| - 2] == y[|y| - 1]
  {
    PrimeLimbs();
    q, z, carries := ReduceBy(y, P_LIMBS, |y| - LIMBS);
  }

  method ReduceBy(y: seq<int>, p: seq<int>, n: nat) returns (q: seq<int>, z: seq<int>, carries: seq<int>)
    requires IsLimbs(y) && IsLimbs(p) && 0 < |p| && p[0] != 0 && 0 < n && |y| == n + |p| && Val(y) < Shift(1, n) * Val(p)
    ensures IsLimbs(q) && |q| == n && IsLimbs(z) && |z| == |p|
    ensures Val(y) == Val(q) * Val(p) + Val(z) && 0 <= Val(z) < Val(p)
    ensures |carries| == |y| - 1 && forall k: nat :: k < |y| - 1 ==> CarryAt(ReductionColumns(q, p, z), y, carries, k)
    ensures forall k: nat :: k < |y| - 1 ==> 0 <= carries[k] <= (n + 1) * (B - 1)
    ensures carries[|y| - 2] == y[|y| - 1]
  {
    q, z := DivRem(y, p);
    ValBound(p);
    Quotient(Val(y), q, Val(p), z, n, |p|);
    q, z := q[..n], z[..|p|];
    ghost var f := ReductionColumns(q, p, z);
    ReductionValue(q, p, z, |y| - 1);
    carries := ReduceCarries(y, q, p, z, |y| - 1, f);
    LastCarry(y, |y| - 1, f, Before(carries, |y| - 1));
  }

  // ----- one-limb quotients -----

  /** The quotient of any sixteen-limb value by the prime is a single limb, below 32. */
  lemma Quotient1(v: seq<int>, q: seq<int>, z: seq<int>, n: nat, p: int)
    requires IsLimbs(v) && |v| == n && IsLimbs(q) && |q| == n > 0 && IsLimbs(z) && |z| == n + 1
    requires 0 < p <= Shift(1, n) <= 32 * p && Val(v) == Val(q) * p + Val(z) && 0 <= Val(z) < p
    ensures 0 <= q[0] < 32 && Val(q) == q[0] && (forall i :: 1 <= i < n ==> q[i] == 0) && Val(z[..n]) == Val(z)
  {
    ValBound(v);
    Narrow(z, n);
    SmallQuotient(Val(q), Val(v), p, 32);
    OneLimb(q);
  }

  lemma OneLimb(q: seq<int>)
    requires IsLimbs(q) && |q| > 0 && Val(q) < 32
    ensures 0 <= q[0] < 32 && Val(q) == q[0] && forall i :: 1 <= i < |q| ==> q[i] == 0
  {
    Narrow(q, 1);
    SingleLimb(q[0]);
    assert q[..1] == [q[0]];
  }

  lemma SmallQuotient(q: int, v: int, p: int, s: int)
    requires 0 < p && q * p <= v < s * p
    ensures q < s
  {
    if q >= s { MulMono(p, s, q); }
  }

  lemma SingleLimb(x: int)
    ensures Val([x]) == x
  {
    PushLimb([], x);
    assert [] + [x] == [x];
  }

  /** The columns of zm + qm P are those of a convolution with a one-limb quotient. */
  lemma OneLimbColumn(qm: int, p: seq<int>, zm: seq<int>, k: nat)
    ensures ReductionColumns([qm], p, zm)(k) == At(zm, k) + qm * At(p, k)
  {
    assert Conv([qm], p, k, 1) == Conv([qm], p, k, 0) + qm * At(p, k);
  }

  /** v = zm + qm P with recorded carries, for any sixteen limbs: the last carry is zero before it is pinned. */
  method Reduce16(v: seq<int>) returns (qm: int, zm: seq<int>, rc: seq<int>)
    requires IsLimbs(v) && |v| == LIMBS
    ensures 0 <= qm < 32 && IsLimbs(zm) && |zm| == LIMBS && Val(v) == qm * PRIME + Val(zm) && 0 <= Val(zm) < PRIME
    ensures |rc| == LIMBS && rc[LIMBS - 1] == 0
    ensures forall k: nat :: k < LIMBS ==> CarryAt(ReductionColumns([qm], P_LIMBS, zm), v, rc, k) && 0 <= rc[k] <= 2 * (B - 1)
  {
    PrimeLimbs();
    qm, zm, rc := ReduceOne(v, P_LIMBS);
    Pinned(rc);
    rc := rc[LIMBS - 1 := 0];
  }

  method ReduceOne(v: seq<int>, p: seq<int>) returns (qm: int, zm: seq<int>, rc: seq<int>)
    requires IsLimbs(v) && |v| == LIMBS && IsPrime(p)
    ensures 0 <= qm < 32 && IsLimbs(zm) && |zm| == LIMBS && Val(v) == qm * PRIME + Val(zm) && 0 <= Val(zm) < PRIME
    ensures |rc| == LIMBS && rc[LIMBS - 1] == 0
    ensures forall k: nat :: k < LIMBS ==> CarryAt(ReductionColumns([qm], p, zm), v, rc, k) && 0 <= rc[k] <= 2 * (B - 1)
  {
    var q, z := DivRem(v, p);
    Quotient1(v, q, z, LIMBS, PRIME);
    qm, zm := q[0], z[..LIMBS];
    SingleLimb(qm);
    ReductionValue([qm], p, zm, LIMBS);
    rc := OneCarries(v, qm, p, zm, LIMBS, ReductionColumns([qm], p, zm));
  }

  method OneCarries(v: seq<int>, qm: int, p: seq<int>, zm: seq<int>, n: nat, ghost f: nat -> int) returns (rc: seq<int>)
    requires IsLimbs(v) && IsLimbs(p) && IsLimbs(zm) && |v| == |p| == |zm| == n && 0 <= qm < B
    requires f == ReductionColumns([qm], p, zm) && Poly(f, n) == Val(v)
    ensures Carried(f, v, rc, n, 2 * (B - 1)) && Before(rc, n) == 0
  {
    rc := [];
    CarriedStart(f, v, 2 * (B - 1));
    var carry := 0;
    for k := 0 to n
      invariant Carried(f, v, rc, k, 2 * (B - 1)) && carry == Before(rc, k) && 0 <= carry <= 2 * (B - 1)
    {
      var t := zm[k] + qm * p[k] + carry;
      OneStep(v, qm, p, zm, n, f, k, carry, t);
      carry := t / B;
      CarriedStep(f, v, rc, k, 2 * (B - 1), carry);
      rc := rc + [carry];
    }
    NoCarryLeft(f, v, rc, n);
  }

  lemma NoCarryLeft(f: nat -> int, v: seq<int>, rc: seq<int>, n: nat)
    requires |v| == n && |rc| == n && Balanced(v[..n], Before(rc, n), f) && Poly(f, n) == Val(v)
    ensures Before(rc, n) == 0
  {
    assert v[..n] == v;
    ShiftZero(n);
    ShiftInjective(Before(rc, n), 0, n);
  }

  lemma OneStep(v: seq<int>, qm: int, p: seq<int>, zm: seq<int>, n: nat, f: nat -> int, k: nat, carry: int, t: int)
    requires IsLimbs(v) && IsLimbs(p) && IsLimbs(zm) && |v| == |p| == |zm| == n && 0 <= qm < B && k < n
    requires f == ReductionColumns([qm], p, zm) && Poly(f, n) == Val(v) && Balanced(v[..k], carry, f)
    requires 0 <= carry <= 2 * (B - 1) && t == zm[k] + qm * p[k] + carry
    ensures v[k] + B * (t / B) == f(k) + carry && 0 <= t / B <= 2 * (B - 1) && t % B == v[k]
  {
    OneLimbColumn(qm, p, zm, k);
    ReductionBound([qm], p, zm, k);
    CarriesForced(f, n, v, k, carry);
    ReduceCarry(f(k), carry, v[k], 1);
    SameQuotient(t, v[k]);
  }

  lemma SameQuotient(t: int, d: int)
    requires 0 <= d < B && (t - d) % B == 0
    ensures t % B == d && t / B == (t - d) / B
  {
  }
}
