/**
 * The 16-bit limb arithmetic of src/poseidon252_air.rs: comparison, subtraction, binary long division, the
 * carry-recording add, subtract and multiply, all proved against the integers their limbs stand for.
 */
module Limbs {
  import opened Arith

  const B: int := 0x1_0000

  predicate IsLimbs(a: seq<int>) {
    forall i :: 0 <= i < |a| ==> 0 <= a[i] < B
  }

  /** The limb at i; limbs beyond the end are zero. */
  function At(a: seq<int>, i: nat): int {
    if i < |a| then a[i] else 0
  }

  function Dig(a: seq<int>): nat -> int {
    (i: nat) => At(a, i)
  }

  /** x B^n, written so that it stays linear in x. */
  function Shift(x: int, n: nat): (r: int)
    ensures x > 0 ==> r > 0
  {
    if n == 0 then x else B * Shift(x, n - 1)
  }

  lemma {:induction false} ShiftAdd(x: int, y: int, n: nat)
    ensures Shift(x + y, n) == Shift(x, n) + Shift(y, n) && Shift(x - y, n) == Shift(x, n) - Shift(y, n)
  {
    if n > 0 { ShiftAdd(x, y, n - 1); }
  }

  lemma {:induction false} ShiftUp(x: int, n: nat)
    ensures Shift(B * x, n) == Shift(x, n + 1)
  {
    if n > 0 { ShiftUp(x, n - 1); }
  }

  lemma {:induction false} ShiftIs(x: int, n: nat)
    ensures Shift(x, n) == x * Pow(B, n)
  {
    if n > 0 {
      ShiftIs(x, n - 1);
      assert B * (x * Pow(B, n - 1)) == x * (B * Pow(B, n - 1));
    }
  }

  lemma ShiftMono(x: int, y: int, n: nat)
    requires x <= y
    ensures Shift(x, n) <= Shift(y, n)
  {
    ShiftIs(x, n);
    ShiftIs(y, n);
    MulMono(Pow(B, n), x, y);
  }

  lemma {:induction false} ShiftZero(n: nat)
    ensures Shift(0, n) == 0
  {
    if n > 0 { ShiftZero(n - 1); }
  }

  lemma {:induction false} ShiftShift(x: int, m: nat, n: nat)
    ensures Shift(x, m + n) == Shift(Shift(x, n), m)
  {
    if m > 0 { ShiftShift(x, m - 1, n); }
  }

  /** f(0) + f(1) B + ... + f(n - 1) B^(n - 1). */
  function Poly(f: nat -> int, n: nat): int {
    if n == 0 then 0 else Poly(f, n - 1) + Shift(f(n - 1), n - 1)
  }

  /** The integer a limb sequence stands for. */
  function Val(a: seq<int>): int {
    Poly(Dig(a), |a|)
  }

  lemma {:induction false} PolySame(f: nat -> int, g: nat -> int, n: nat)
    requires forall i: nat :: i < n ==> f(i) == g(i)
    ensures Poly(f, n) == Poly(g, n)
  {
    if n > 0 { PolySame(f, g, n - 1); }
  }

  lemma {:induction false} PolyBound(f: nat -> int, n: nat)
    requires forall i: nat :: i < n ==> 0 <= f(i) < B
    ensures 0 <= Poly(f, n) < Shift(1, n)
  {
    if n > 0 {
      PolyBound(f, n - 1);
      DigitBound(f(n - 1), n - 1);
    }
  }

  lemma DigitBound(x: int, n: nat)
    requires 0 <= x < B
    ensures 0 <= Shift(x, n) && Shift(x, n) + Shift(1, n) <= Shift(1, n + 1)
  {
    ShiftZero(n);
    ShiftMono(0, x, n);
    ShiftAdd(x, 1, n);
    ShiftMono(x + 1, B * 1, n);
    ShiftUp(1, n);
  }

  /** Leading zeros do not count. */
  lemma {:induction false} PolyZeros(f: nat -> int, m: nat, n: nat)
    requires m <= n && forall i: nat :: m <= i < n ==> f(i) == 0
    ensures Poly(f, n) == Poly(f, m)
  {
    if m < n {
      PolyZeros(f, m, n - 1);
      ShiftZero(n - 1);
    }
  }

  lemma ValBound(a: seq<int>)
    requires IsLimbs(a)
    ensures 0 <= Val(a) < Shift(1, |a|)
  {
    PolyBound(Dig(a), |a|);
  }

  lemma ValWide(a: seq<int>, n: nat)
    requires |a| <= n
    ensures Poly(Dig(a), n) == Val(a)
  {
    PolyZeros(Dig(a), |a|, n);
  }

  lemma PushLimb(a: seq<int>, x: int)
    ensures Val(a + [x]) == Val(a) + Shift(x, |a|)
  {
    PolySame(Dig(a + [x]), Dig(a), |a|);
  }

  /** The limbs written so far and the running carry account for the digits summed so far. */
  ghost predicate Balanced(out: seq<int>, c: int, f: nat -> int) {
    Val(out) + Shift(c, |out|) == Poly(f, |out|)
  }

  lemma BalancedStart(f: nat -> int)
    ensures Balanced([], 0, f)
  {
  }

  /** One step of a carry chain. */
  lemma BalancedStep(out: seq<int>, c: int, f: nat -> int, x: int, c': int)
    requires Balanced(out, c, f) && x + B * c' == f(|out|) + c
    ensures Balanced(out + [x], c', f)
  {
    var n := |out|;
    PushLimb(out, x);
    ShiftAdd(x, B * c', n);
    ShiftUp(c', n);
    ShiftAdd(f(n), c, n);
  }

  // ----- comparison and subtraction -----

  datatype Ordering = Less | Equal | Greater

  /** Where all higher digits agree, the first difference decides. */
  lemma {:induction false} Decides(f: nat -> int, g: nat -> int, k: nat, n: nat)
    requires k < n && f(k) < g(k)
    requires forall i: nat :: i < n ==> 0 <= f(i) < B && 0 <= g(i) < B
    requires forall i: nat :: k < i < n ==> f(i) == g(i)
    ensures Poly(f, n) < Poly(g, n)
  {
    if k == n - 1 {
      PolyBound(f, k);
      PolyBound(g, k);
      ShiftMono(f(k) + 1, g(k), k);
      ShiftAdd(f(k), 1, k);
    } else {
      Decides(f, g, k, n - 1);
    }
  }

  method Cmp(a: seq<int>, b: seq<int>) returns (o: Ordering)
    requires IsLimbs(a) && IsLimbs(b)
    ensures o.Less? <==> Val(a) < Val(b)
    ensures o.Equal? <==> Val(a) == Val(b)
  {
    var n := if |a| < |b| then |b| else |a|;
    ghost var f, g := Dig(a), Dig(b);
    ValWide(a, n);
    ValWide(b, n);
    var i := n;
    while i > 0
      invariant 0 <= i <= n
      invariant forall k: nat :: i <= k < n ==> f(k) == g(k)
    {
      i := i - 1;
      var x, y := At(a, i), At(b, i);
      if x < y {
        Decides(f, g, i, n);
        return Less;
      }
      if y < x {
        Decides(g, f, i, n);
        return Greater;
      }
    }
    PolySame(f, g, n);
    return Equal;
  }

  /** One borrow step: the digit and whether it borrowed. */
  function Borrow(x: int, y: int, borrow: int): (r: (int, int))
    requires 0 <= x < B && 0 <= y < B && 0 <= borrow <= 1
    ensures 0 <= r.0 < B && 0 <= r.1 <= 1 && x - y - borrow == r.0 - B * r.1
  {
    var diff := x - y - borrow;
    if diff < 0 then (diff + B, 1) else (diff, 0)
  }

  /** The borrow recorded before limb i. */
  function Before(c: seq<int>, i: nat): int
    requires i <= |c|
  {
    if i == 0 then 0 else c[i - 1]
  }

  /** One recorded borrow. */
  ghost predicate BorrowAt(u: seq<int>, p: seq<int>, out: seq<int>, bw: seq<int>, i: nat)
    requires i < |u| && i < |out| && i < |bw|
  {
    0 <= bw[i] <= 1 && u[i] - At(p, i) - Before(bw, i) == out[i] - B * bw[i]
  }

  function Minus(u: seq<int>, p: seq<int>): nat -> int {
    (i: nat) => At(u, i) - At(p, i)
  }

  lemma SubEnd(u: seq<int>, p: seq<int>, out: seq<int>, borrow: int)
    requires IsLimbs(u) && IsLimbs(p) && IsLimbs(out) && |p| <= |u| == |out| && 0 <= borrow <= 1
    requires Balanced(out, -borrow, Minus(u, p))
    ensures Val(out) == Val(u) - Val(p) + Shift(borrow, |u|)
    ensures Val(p) <= Val(u) <==> borrow == 0
    ensures borrow == 0 ==> Val(out) == Val(u) - Val(p)
  {
    PolyMinus(Dig(u), Dig(p), Minus(u, p), |u|);
    ValWide(p, |u|);
    ValBound(out);
    ShiftAdd(0, borrow, |u|);
    ShiftZero(|u|);
  }

  /**
   * Subtracting limb by limb (a shorter subtrahend is padded), recording each borrow. The last borrow
   * tells whether the value went below zero, so a subtrahend that is not larger is subtracted exactly.
   */
  method SubWitness(u: seq<int>, p: seq<int>) returns (out: seq<int>, bw: seq<int>)
    requires IsLimbs(u) && IsLimbs(p) && |p| <= |u|
    ensures |out| == |bw| == |u| && IsLimbs(out)
    ensures forall i: nat :: i < |u| ==> BorrowAt(u, p, out, bw, i)
    ensures Before(bw, |u|) == 0 <==> Val(p) <= Val(u)
    ensures Val(out) == Val(u) - Val(p) + Shift(Before(bw, |u|), |u|)
    ensures Val(p) <= Val(u) ==> Val(out) == Val(u) - Val(p)
  {
    out, bw := [], [];
    var borrow := 0;
    BalancedStart(Minus(u, p));
    for i := 0 to |u|
      invariant |out| == |bw| == i && IsLimbs(out) && 0 <= borrow <= 1 && borrow == Before(bw, i)
      invariant forall k: nat :: k < i ==> BorrowAt(u, p, out, bw, k)
      invariant Balanced(out, -borrow, Minus(u, p))
    {
      var r := Borrow(u[i], At(p, i), borrow);
      BalancedStep(out, -borrow, Minus(u, p), r.0, -r.1);
      ghost var out', bw' := out, bw;
      out, bw, borrow := out + [r.0], bw + [r.1], r.1;
      forall k: nat | k < i ensures BorrowAt(u, p, out, bw, k) {
        assert BorrowAt(u, p, out', bw', k);
      }
    }
    SubEnd(u, p, out, borrow);
  }

  lemma {:induction false} PolyMinus(f: nat -> int, g: nat -> int, h: nat -> int, n: nat)
    requires forall i: nat :: i < n ==> h(i) == f(i) - g(i)
    ensures Poly(h, n) == Poly(f, n) - Poly(g, n)
  {
    if n > 0 {
      PolyMinus(f, g, h, n - 1);
      ShiftAdd(f(n - 1), g(n - 1), n - 1);
    }
  }

  // ----- addition with recorded carries -----

  /** A coefficient and the limbs it multiplies. */
  datatype Term = Term(coeff: nat, limbs: seq<int>)

  /** The sum of coefficient times limb i over the first m terms. */
  function Column(terms: seq<Term>, m: nat, i: nat): int
    requires m <= |terms|
  {
    if m == 0 then 0 else Column(terms, m - 1, i) + terms[m - 1].coeff * At(terms[m - 1].limbs, i)
  }

  function Weight(terms: seq<Term>, m: nat): nat
    requires m <= |terms|
  {
    if m == 0 then 0 else Weight(terms, m - 1) + terms[m - 1].coeff
  }

  /** The linear combination of the terms' values, each taken over n limbs. */
  function Combined(terms: seq<Term>, m: nat, n: nat): int
    requires m <= |terms|
  {
    if m == 0 then 0 else Combined(terms, m - 1, n) + terms[m - 1].coeff * Poly(Dig(terms[m - 1].limbs), n)
  }

  lemma {:induction false} ColumnBound(terms: seq<Term>, m: nat, i: nat)
    requires m <= |terms| && forall k :: 0 <= k < |terms| ==> IsLimbs(terms[k].limbs)
    ensures 0 <= Column(terms, m, i) <= Weight(terms, m) * (B - 1)
  {
    if m > 0 {
      ColumnBound(terms, m - 1, i);
      var c, x := terms[m - 1].coeff, At(terms[m - 1].limbs, i);
      assert IsLimbs(terms[m - 1].limbs);
      MulMono(c, 0, x);
      MulMono(c, x, B - 1);
    }
  }

  lemma {:induction false} ColumnsCombine(terms: seq<Term>, m: nat, n: nat, f: nat -> int)
    requires m <= |terms| && forall i: nat :: i < n ==> f(i) == Column(terms, m, i)
    ensures Poly(f, n) == Combined(terms, m, n)
  {
    if m == 0 {
      PolyZeros(f, 0, n);
    } else {
      var g, d, c := (i: nat) => Column(terms, m - 1, i), Dig(terms[m - 1].limbs), terms[m - 1].coeff;
      ColumnsCombine(terms, m - 1, n, g);
      PolyScaled(f, g, d, c, n);
    }
  }

  lemma {:induction false} ShiftTimes(c: int, x: int, n: nat)
    ensures Shift(c * x, n) == c * Shift(x, n)
  {
    if n > 0 {
      ShiftTimes(c, x, n - 1);
      assert B * (c * Shift(x, n - 1)) == c * (B * Shift(x, n - 1));
    }
  }

  lemma {:induction false} PolyScaled(f: nat -> int, g: nat -> int, d: nat -> int, c: int, n: nat)
    requires forall i: nat :: i < n ==> f(i) == g(i) + c * d(i)
    ensures Poly(f, n) == Poly(g, n) + c * Poly(d, n)
  {
    if n > 0 {
      PolyScaled(f, g, d, c, n - 1);
      ShiftAdd(g(n - 1), c * d(n - 1), n - 1);
      ShiftTimes(c, d(n - 1), n - 1);
      assert c * Poly(d, n) == c * Poly(d, n - 1) + c * Shift(d(n - 1), n - 1);
    }
  }

  /** One recorded carry. */
  ghost predicate CarryAt(f: nat -> int, out: seq<int>, carry: seq<int>, i: nat)
    requires i < |out| && i < |carry|
  {
    out[i] + B * carry[i] == f(i) + Before(carry, i)
  }

  /** The limbs and carries of the first n columns: every carry balances its column and stays below the bound. */
  ghost predicate Chained(f: nat -> int, out: seq<int>, carry: seq<int>, n: nat, top: int) {
    && |out| == |carry| == n && IsLimbs(out) && Balanced(out, Before(carry, n), f)
    && forall k: nat :: k < n ==> CarryAt(f, out, carry, k) && 0 <= carry[k] <= top
  }

  lemma ChainedStep(f: nat -> int, out: seq<int>, carry: seq<int>, n: nat, top: int, x: int, c: int)
    requires Chained(f, out, carry, n, top) && 0 <= x < B && 0 <= c <= top && x + B * c == f(n) + Before(carry, n)
    ensures Chained(f, out + [x], carry + [c], n + 1, top)
  {
    var out', carry' := out + [x], carry + [c];
    BalancedStep(out, Before(carry, n), f, x, c);
    forall k: nat | k < n + 1 ensures CarryAt(f, out', carry', k) && 0 <= carry'[k] <= top {
      if k < n {
        assert CarryAt(f, out, carry, k);
        CarryKept(f, out, carry, out', carry', k);
      }
    }
  }

  lemma CarryKept(f: nat -> int, out: seq<int>, carry: seq<int>, out': seq<int>, carry': seq<int>, k: nat)
    requires out <= out' && carry <= carry' && k < |out| && k < |carry|
    ensures carry'[k] == carry[k] && (CarryAt(f, out, carry, k) <==> CarryAt(f, out', carry', k))
  {
  }

  function Columns(terms: seq<Term>): nat -> int {
    (i: nat) => Column(terms, |terms|, i)
  }

  method SumColumn(terms: seq<Term>, i: nat, c: int, ghost f: nat -> int, ghost w: nat) returns (t: int)
    requires forall k :: 0 <= k < |terms| ==> IsLimbs(terms[k].limbs) && i < |terms[k].limbs|
    requires f == Columns(terms) && w == Weight(terms, |terms|)
    ensures t == f(i) + c && 0 <= f(i) <= w * (B - 1)
  {
    t := c;
    for j := 0 to |terms|
      invariant t == c + Column(terms, j, i)
    {
      t := t + terms[j].coeff * terms[j].limbs[i];
    }
    ColumnBound(terms, |terms|, i);
  }

  lemma AddTotal(v: int, c: int, n: nat, s: int)
    requires 0 <= v < Shift(1, n) && 0 <= c && v + Shift(c, n) == s
    ensures v == s % Shift(1, n)
    ensures s < Shift(1, n) ==> c == 0 && v == s
  {
    ShiftTimes(c, 1, n);
    Dropped(v, c, Shift(1, n), s);
    if c == 0 { ShiftZero(n); }
  }

  lemma AddEnd(n: nat, terms: seq<Term>, out: seq<int>, c: int, s: int)
    requires |out| == n && IsLimbs(out) && 0 <= c && Balanced(out, c, Columns(terms)) && s == Combined(terms, |terms|, n)
    ensures Val(out) == s % Shift(1, n)
    ensures s < Shift(1, n) ==> c == 0 && Val(out) == s
  {
    ColumnsCombine(terms, |terms|, n, Columns(terms));
    ValBound(out);
    AddTotal(Val(out), c, n, s);
  }

  /**
   * The carry-recording sum of coefficient times value. The last carry is overwritten by zero; when the
   * combination fits n limbs it was zero already, and every recorded step then balances.
   */
  method AddWitness(n: nat, terms: seq<Term>) returns (out: seq<int>, carry: seq<int>)
    requires n > 0 && forall k :: 0 <= k < |terms| ==> IsLimbs(terms[k].limbs) && n <= |terms[k].limbs|
    ensures |out| == |carry| == n && IsLimbs(out) && carry[n - 1] == 0
    ensures forall i: nat :: i < n ==> 0 <= carry[i] <= Weight(terms, |terms|)
    ensures Val(out) == Combined(terms, |terms|, n) % Shift(1, n)
    ensures Combined(terms, |terms|, n) < Shift(1, n) ==>
      && Val(out) == Combined(terms, |terms|, n)
      && forall i: nat :: i < n ==> CarryAt(Columns(terms), out, carry, i)
  {
    var c;
    out, carry, c := AddLoop(n, terms, Columns(terms), Weight(terms, |terms|));
    AddEnd(n, terms, out, c, Combined(terms, |terms|, n));
    if c == 0 { Pinned(carry); }
    carry := carry[n - 1 := 0];
  }

  lemma Pinned(carry: seq<int>)
    requires |carry| > 0 && carry[|carry| - 1] == 0
    ensures carry[|carry| - 1 := 0] == carry
  {
  }

  method AddLoop(n: nat, terms: seq<Term>, ghost f: nat -> int, ghost w: nat) returns (out: seq<int>, carry: seq<int>, c: int)
    requires forall k :: 0 <= k < |terms| ==> IsLimbs(terms[k].limbs) && n <= |terms[k].limbs|
    requires f == Columns(terms) && w == Weight(terms, |terms|)
    ensures Chained(f, out, carry, n, w) && c == Before(carry, n) && 0 <= c
  {
    out, carry, c := [], [], 0;
    BalancedStart(f);
    for i := 0 to n
      invariant Chained(f, out, carry, i, w) && c == Before(carry, i) && 0 <= c <= w
    {
      var t := SumColumn(terms, i, c, f, w);
      CarryBound(f(i), c, w);
      ChainedStep(f, out, carry, i, w, t % B, t / B);
      out, carry, c := out + [t % B], carry + [t / B], t / B;
    }
  }

  lemma CarryBound(f: int, c: int, w: int)
    requires 0 <= f <= w * (B - 1) && 0 <= c <= w
    ensures 0 <= (f + c) / B <= w
  {
  }

  lemma Dropped(v: int, c: int, p: int, s: int)
    requires 0 <= v < p && 0 <= c && v + c * p == s
    ensures v == s % p && (s < p ==> c == 0)
  {
    DivModUnique(s, p, c, v);
    if s < p && c > 0 { MulMono(p, 1, c); assert false; }
  }

  // ----- multiplication -----

  const SQUARE: int := (B - 1) * (B - 1)

  lemma {:induction false} PolyBump(f: nat -> int, g: nat -> int, k: nat, x: int, n: nat)
    requires k < n && (forall i: nat :: i < n && i != k ==> g(i) == f(i)) && g(k) == f(k) + x
    ensures Poly(g, n) == Poly(f, n) + Shift(x, k)
  {
    if k == n - 1 {
      PolySame(f, g, k);
      ShiftAdd(f(k), x, k);
    } else {
      PolyBump(f, g, k, x, n - 1);
    }
  }

  lemma Bump(acc: seq<int>, k: nat, x: int)
    requires k < |acc|
    ensures Val(acc[k := acc[k] + x]) == Val(acc) + Shift(x, k)
  {
    PolyBump(Dig(acc), Dig(acc[k := acc[k] + x]), k, x, |acc|);
  }

  /** The sum over i below m of a_i b_(k - i): column k of the product of the first m limbs of a with b. */
  function Conv(a: seq<int>, b: seq<int>, k: nat, m: nat): int {
    if m == 0 then 0 else Conv(a, b, k, m - 1) + At(a, m - 1) * Above(b, m - 1, k)
  }

  /** Limb k of b moved up by s positions. */
  function Above(b: seq<int>, s: nat, k: nat): int {
    if s <= k then At(b, k - s) else 0
  }

  lemma {:induction false} ConvBound(a: seq<int>, b: seq<int>, k: nat, m: nat)
    requires IsLimbs(a) && IsLimbs(b)
    ensures 0 <= Conv(a, b, k, m) <= m * SQUARE
  {
    if m > 0 {
      ConvBound(a, b, k, m - 1);
      LimbProduct(At(a, m - 1), Above(b, m - 1, k));
    }
  }

  /** Moving digits up by s positions. */
  lemma {:induction false} PolyShifted(d: nat -> int, g: nat -> int, s: nat, n: nat)
    requires forall k: nat :: k < s + n ==> g(k) == if s <= k then d(k - s) else 0
    ensures Poly(g, s + n) == Shift(Poly(d, n), s)
  {
    if n == 0 {
      PolyZeros(g, 0, s);
      ShiftZero(s);
    } else {
      PolyShifted(d, g, s, n - 1);
      ShiftAdd(Poly(d, n - 1), Shift(d(n - 1), n - 1), s);
      ShiftShift(d(n - 1), s, n - 1);
    }
  }

  /** The columns of the convolution sum to the product. */
  lemma {:induction false} ConvValue(a: seq<int>, b: seq<int>, f: nat -> int, m: nat, n: nat)
    requires forall k: nat :: k < n ==> f(k) == Conv(a, b, k, m)
    requires m + |b| <= n + 1
    ensures Poly(f, n) == Poly(Dig(a), m) * Val(b)
  {
    if m == 0 {
      PolyZeros(f, 0, n);
    } else {
      var g, d := (k: nat) => Conv(a, b, k, m - 1), (k: nat) => Above(b, m - 1, k);
      ConvValue(a, b, g, m - 1, n);
      ConvNext(a, b, f, g, d, m, n);
    }
  }

  lemma ConvNext(a: seq<int>, b: seq<int>, f: nat -> int, g: nat -> int, d: nat -> int, m: nat, n: nat)
    requires 0 < m && m + |b| <= n + 1 && Poly(g, n) == Poly(Dig(a), m - 1) * Val(b)
    requires forall k: nat :: k < n ==> f(k) == g(k) + At(a, m - 1) * d(k)
    requires forall k: nat :: k < n ==> d(k) == Above(b, m - 1, k)
    ensures Poly(f, n) == Poly(Dig(a), m) * Val(b)
  {
    PolyScaled(f, g, d, At(a, m - 1), n);
    PolyShifted(Dig(b), d, m - 1, n - (m - 1));
    ValWide(b, n - (m - 1));
    ConvStep(Poly(Dig(a), m - 1), At(a, m - 1), Val(b), m - 1);
  }

  lemma ConvStep(u: int, x: int, v: int, s: nat)
    ensures u * v + x * Shift(v, s) == (u + Shift(x, s)) * v
  {
    ShiftTimes(x, v, s);
    ShiftTimes(v, x, s);
    assert x * v == v * x;
    MulDistribute(u, Shift(x, s), v);
    assert v * Shift(x, s) == Shift(x, s) * v;
  }

  /** The products of one limb of a added into the accumulator; columns past its end are dropped. */
  method MulRow(x: int, b: seq<int>, i: nat, acc: seq<int>) returns (r: seq<int>)
    ensures |r| == |acc| && forall k: nat :: k < |acc| ==> r[k] == acc[k] + x * Above(b, i, k)
  {
    r := acc;
    for j := 0 to |b|
      invariant |r| == |acc|
      invariant forall k: nat :: k < |acc| ==> r[k] == acc[k] + if i <= k < i + j then x * b[k - i] else 0
    {
      if i + j < |acc| {
        r := r[i + j := r[i + j] + x * b[j]];
      }
    }
  }

  lemma LimbProduct(x: int, y: int)
    requires 0 <= x < B && 0 <= y < B
    ensures 0 <= x * y <= SQUARE
  {
    MulNonNeg(x, y);
    assert x * y <= x * (B - 1) by { MulMono(x, y, B - 1); }
  }

  /** The schoolbook products summed by column, before any carry. */
  method Products(a: seq<int>, b: seq<int>, nOut: nat) returns (acc: seq<int>)
    ensures |acc| == nOut && forall k: nat :: k < nOut ==> acc[k] == Conv(a, b, k, |a|)
  {
    acc := seq(nOut, _ => 0);
    for i := 0 to |a|
      invariant |acc| == nOut && forall k: nat :: k < nOut ==> acc[k] == Conv(a, b, k, i)
    {
      acc := MulRow(a[i], b, i, acc);
    }
  }

  function ProductColumns(a: seq<int>, b: seq<int>): nat -> int {
    (k: nat) => Conv(a, b, k, |a|)
  }

  /** The top column of a product that fits is empty. */
  lemma {:induction false} ConvTop(a: seq<int>, b: seq<int>, k: nat, m: nat)
    requires m + |b| <= k + 1
    ensures Conv(a, b, k, m) == 0
  {
    if m > 0 { ConvTop(a, b, k, m - 1); }
  }

  lemma ProductBound(a: seq<int>, b: seq<int>, n: nat)
    requires IsLimbs(a) && IsLimbs(b) && |a| + |b| <= n
    ensures 0 <= Val(a) * Val(b) < Shift(1, n)
  {
    ValBound(a);
    ValBound(b);
    BelowProduct(Val(a), Val(b), Shift(1, |a|), Shift(1, |b|));
    ShiftTimes(Shift(1, |b|), 1, |a|);
    ShiftShift(1, |a|, |b|);
    ShiftShift(1, n - |a| - |b|, |a| + |b|);
    ShiftGrows(Shift(1, |a| + |b|), n - |a| - |b|);
  }

  lemma BelowProduct(x: int, y: int, p: int, q: int)
    requires 0 <= x < p && 0 <= y < q
    ensures 0 <= x * y < q * p
  {
    MulNonNeg(x, y);
    MulMono(x, y, q);
    MulStrictMono(q, x, p);
  }

  lemma {:induction false} ShiftGrows(x: int, n: nat)
    requires 0 <= x
    ensures x <= Shift(x, n)
  {
    if n > 0 { ShiftGrows(x, n - 1); }
  }

  lemma MulCarry(t: int, c: int, n: nat)
    requires 0 <= t <= n * SQUARE && 0 <= c <= n * (B - 1)
    ensures 0 <= (t + c) / B <= n * (B - 1)
  {
  }

  lemma TopFits(v: int, c: int, n: nat)
    requires 0 <= v && 0 <= c && v + Shift(c, n) < Shift(1, n + 1)
    ensures c < B
  {
    if c >= B {
      ShiftMono(B * 1, c, n);
      ShiftUp(1, n);
    }
  }

  method MulCarries(acc: seq<int>, n: nat, m: nat, ghost f: nat -> int) returns (out: seq<int>, carries: seq<int>, c: int)
    requires n <= |acc| && forall k: nat :: k < n ==> acc[k] == f(k) && 0 <= f(k) <= m * SQUARE
    ensures Chained(f, out, carries, n, m * (B - 1)) && c == Before(carries, n) && 0 <= c
  {
    out, carries, c := [], [], 0;
    BalancedStart(f);
    for k := 0 to n
      invariant Chained(f, out, carries, k, m * (B - 1)) && c == Before(carries, k) && 0 <= c <= m * (B - 1)
    {
      var t := acc[k] + c;
      MulCarry(acc[k], c, m);
      ChainedStep(f, out, carries, k, m * (B - 1), t % B, t / B);
      out, carries, c := out + [t % B], carries + [t / B], t / B;
    }
  }

  /** When the output covers both factors, the carry left over is the top limb of the exact product. */
  lemma MulEnd(a: seq<int>, b: seq<int>, out: seq<int>, c: int, n: nat)
    requires IsLimbs(a) && IsLimbs(b) && |a| + |b| <= n + 1 && |out| == n && IsLimbs(out) && 0 <= c
    requires Balanced(out, c, ProductColumns(a, b))
    ensures c < B && Val(out + [c]) == Val(a) * Val(b)
  {
    ConvValue(a, b, ProductColumns(a, b), |a|, n);
    ProductBound(a, b, n + 1);
    ValBound(out);
    TopFits(Val(out), c, n);
    PushLimb(out, c);
  }

  /**
   * Schoolbook multiplication with recorded carries, for any number of output limbs: every carry balances its
   * column and stays below |a| 2^16, the top limb is the last carry truncated. When the output covers both
   * factors nothing is truncated and the limbs are exactly the product.
   */
  method MulWitness(a: seq<int>, b: seq<int>, nOut: nat) returns (out: seq<int>, carries: seq<int>)
    requires IsLimbs(a) && IsLimbs(b) && 0 < nOut
    ensures |out| == nOut && |carries| == nOut - 1 && IsLimbs(out)
    ensures forall k: nat :: k < nOut - 1 ==> CarryAt(ProductColumns(a, b), out, carries, k) && 0 <= carries[k] <= |a| * (B - 1)
    ensures out[nOut - 1] == Before(carries, nOut - 1) % B
    ensures |a| + |b| <= nOut ==> Val(out) == Val(a) * Val(b) && out[nOut - 1] == Before(carries, nOut - 1)
  {
    var acc := Products(a, b, nOut);
    forall k: nat | k < nOut ensures 0 <= acc[k] <= |a| * SQUARE {
      ConvBound(a, b, k, |a|);
    }
    var c;
    out, carries, c := MulCarries(acc, nOut - 1, |a|, ProductColumns(a, b));
    if |a| + |b| <= nOut {
      MulEnd(a, b, out, c, nOut - 1);
      SmallMod(c, B);
    }
    KeptBelow(ProductColumns(a, b), out, carries, nOut - 1, c % B);
    out := out + [c % B];
  }

  lemma KeptBelow(f: nat -> int, out: seq<int>, carries: seq<int>, n: nat, x: int)
    requires |out| == |carries| == n && forall k: nat :: k < n ==> CarryAt(f, out, carries, k)
    ensures forall k: nat :: k < n ==> CarryAt(f, out + [x], carries, k)
  {
    forall k: nat | k < n ensures CarryAt(f, out + [x], carries, k) {
      CarryKept(f, out, carries, out + [x], carries, k);
    }
  }

  // ----- binary long division -----

  /** The digits from k up, as a number of their own. */
  function High(f: nat -> int, k: nat, n: nat): int
    decreases n
  {
    if n <= k then 0 else High(f, k, n - 1) + Shift(f(n - 1), n - 1 - k)
  }

  lemma {:induction false} PolyHigh(f: nat -> int, k: nat, n: nat)
    requires k <= n
    ensures Poly(f, n) == Poly(f, k) + Shift(High(f, k, n), k)
  {
    if k == n {
      ShiftZero(k);
    } else {
      PolyHigh(f, k, n - 1);
      ShiftAdd(High(f, k, n - 1), Shift(f(n - 1), n - 1 - k), k);
      ShiftShift(f(n - 1), k, n - 1 - k);
    }
  }

  lemma {:induction false} HighStep(f: nat -> int, k: nat, n: nat)
    requires k < n
    ensures High(f, k, n) == f(k) + B * High(f, k + 1, n)
  {
    if k + 1 < n { HighStep(f, k, n - 1); }
  }

  lemma {:induction false} HighNonNeg(f: nat -> int, k: nat, n: nat)
    requires forall i: nat :: k <= i < n ==> 0 <= f(i)
    ensures 0 <= High(f, k, n)
  {
    if k < n {
      HighNonNeg(f, k, n - 1);
      ShiftZero(n - 1 - k);
      ShiftMono(0, f(n - 1), n - 1 - k);
    }
  }
}
