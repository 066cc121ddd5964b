/**
 * One round of the witness builder (one_round_witness of src/poseidon252_air.rs), on 16-bit limbs. Main
 * result: on canonical limbs it returns the canonical limbs of the native round, every multiplication and
 * reduction row it records is exact, no dropped carry is nonzero and no subtraction goes below zero.
 */
module PoseidonRound {
  import opened Arith
  import opened Primes
  import opened Limbs
  import opened LimbReduction
  import opened Hades
  import opened PoseidonRows

  // ----- absorb and S-box -----

  /** Sums below 31 P fit sixteen limbs. */
  lemma Room(n: nat)
    requires n == LIMBS
    ensures 31 * PRIME < Shift(1, n)
  {
    PrimeLimbs();
  }

  lemma Combined1(c: nat, a: seq<int>)
    ensures Combined([Term(c, a)], 1, |a|) == c * Val(a)
  {
    var t := [Term(c, a)];
    assert Combined(t, 0, |a|) == 0;
  }

  lemma Combined2(a: seq<int>, b: seq<int>)
    requires |a| == |b|
    ensures Combined([Term(1, a), Term(1, b)], 2, |a|) == Val(a) + Val(b)
  {
    var t := [Term(1, a), Term(1, b)];
    assert Combined(t, 0, |a|) == 0;
    assert Combined(t, 1, |a|) == Val(a);
  }

  lemma Combined3(a: seq<int>, b: seq<int>, c: seq<int>)
    requires |a| == |b| == |c|
    ensures Combined([Term(1, a), Term(1, b), Term(1, c)], 3, |a|) == Val(a) + Val(b) + Val(c)
  {
    var t := [Term(1, a), Term(1, b), Term(1, c)];
    assert Combined(t, 0, |a|) == 0;
    assert Combined(t, 1, |a|) == Val(a);
    assert Combined(t, 2, |a|) == Val(a) + Val(b);
  }

  /** A sum that fits its limbs drops no carry. */
  method Sum3(a: seq<int>, b: seq<int>, c: seq<int>) returns (s: Sum)
    requires IsLimbs(a) && IsLimbs(b) && IsLimbs(c) && 0 < |a| == |b| == |c|
    requires Val(a) + Val(b) + Val(c) < Shift(1, |a|)
    ensures SumHolds([Term(1, a), Term(1, b), Term(1, c)], s) && |s.out| == |a| && Val(s.out) == Val(a) + Val(b) + Val(c)
  {
    Combined3(a, b, c);
    var out, carry := AddWitness(|a|, [Term(1, a), Term(1, b), Term(1, c)]);
    s := Sum(out, carry);
  }

  method Sum2(a: seq<int>, b: seq<int>) returns (s: Sum)
    requires IsLimbs(a) && IsLimbs(b) && 0 < |a| == |b| && Val(a) + Val(b) < Shift(1, |a|)
    ensures SumHolds([Term(1, a), Term(1, b)], s) && |s.out| == |a| && Val(s.out) == Val(a) + Val(b)
  {
    Combined2(a, b);
    var out, carry := AddWitness(|a|, [Term(1, a), Term(1, b)]);
    s := Sum(out, carry);
  }

  method Times(coeff: nat, a: seq<int>) returns (s: Sum)
    requires IsLimbs(a) && 0 < |a| && coeff * Val(a) < Shift(1, |a|)
    ensures SumHolds([Term(coeff, a)], s) && |s.out| == |a| && Val(s.out) == coeff * Val(a)
  {
    Combined1(coeff, a);
    var out, carry := AddWitness(|a|, [Term(coeff, a)]);
    s := Sum(out, carry);
  }

  /** The cube of a number below 3 P has a quotient by P that fits 32 limbs. */
  lemma CubeFits(s: int, w: int, p: int)
    requires 0 <= s < 3 * p && 31 * p < w
    ensures 0 <= (s * s) * s < (w * w) * p
  {
    SquareBelow(s, 3 * p);
    SquareBelow(31 * p, w);
    NinePrime(p, s * s, w * w);
    CubeStep(s * s, s, p, w * w);
  }

  lemma NinePrime(p: int, sq: int, ww: int)
    requires 0 < p && sq <= (3 * p) * (3 * p) && (31 * p) * (31 * p) <= ww
    ensures 3 * sq < ww && 0 < ww
  {
    var pp := p * p;
    MulStrictMono(p, 0, p);
    assert (3 * p) * (3 * p) == 9 * pp && (31 * p) * (31 * p) == 961 * pp;
  }

  lemma CubeStep(sq: int, s: int, p: int, ww: int)
    requires 0 <= s < 3 * p && 0 <= sq && 3 * sq < ww
    ensures 0 <= sq * s < ww * p
  {
    MulNonNeg(sq, s);
    MulMono(sq, s, 3 * p);
    assert sq * (3 * p) == p * (3 * sq);
    MulStrictMono(p, 3 * sq, ww);
    assert p * ww == ww * p;
  }

  lemma SquareBelow(s: int, t: int)
    requires 0 <= s <= t
    ensures s * s <= t * t
  {
    MulMono(s, s, t);
    MulMono(t, s, t);
  }

  lemma DoubleWidth(n: nat)
    ensures Shift(1, 2 * n) == Shift(1, n) * Shift(1, n)
  {
    ShiftShift(1, n, n);
    ShiftTimes(Shift(1, n), 1, n);
  }

  /** The cube of a lane from its (possibly zeroed) square, and its reduction. */
  method CubeReduce(x2: seq<int>, s: seq<int>) returns (z: seq<int>, mul: Product, reduce: Reduction)
    requires IsLimbs(x2) && |x2| == 2 * LIMBS && IsLimbs(s) && |s| == LIMBS
    requires Val(x2) * Val(s) < Shift(1, |x2|) * PRIME
    ensures Canonical(z) && Val(z) == Mod(Val(x2) * Val(s)) && IsProduct(mul) && IsReduction(reduce)
    ensures mul.a == x2 && mul.b == s && reduce.x == mul.c && reduce.z == z
  {
    var x3, x3c := MulWitness(x2, s, 3 * LIMBS);
    var q, qc;
    q, z, qc := Reduce48(x3);
    DivModUnique(Val(x3), PRIME, Val(q), Val(z));
    mul, reduce := Product(x2, s, x3, x3c), Reduction(x3, z, q, qc);
    CubeRows(mul, reduce);
  }

  lemma CubeRows(mul: Product, reduce: Reduction)
    requires IsLimbs(mul.a) && |mul.a| == 2 * LIMBS && IsLimbs(mul.b) && |mul.b| == LIMBS && IsLimbs(mul.c) && |mul.c| == 3 * LIMBS
    requires |mul.carry| == 3 * LIMBS - 1 && mul.c[3 * LIMBS - 1] == Before(mul.carry, 3 * LIMBS - 1)
    requires forall k: nat :: k < 3 * LIMBS - 1 ==> CarryAt(ProductColumns(mul.a, mul.b), mul.c, mul.carry, k)
    requires Canonical(reduce.z) && IsLimbs(reduce.q) && |reduce.q| == 2 * LIMBS && reduce.x == mul.c
    requires |reduce.carry| == 3 * LIMBS - 1 && reduce.carry[3 * LIMBS - 2] == reduce.x[3 * LIMBS - 1]
    requires forall k: nat :: k < 3 * LIMBS - 1 ==> CarryAt(ReductionColumns(reduce.q, P_LIMBS, reduce.z), reduce.x, reduce.carry, k)
    ensures IsProduct(mul) && IsReduction(reduce)
  {
    BalancedProduct(mul.a, mul.b, mul.c, mul.carry);
    BalancedReduction(reduce.q, reduce.z, reduce.x, reduce.carry);
  }

  method Square(s: seq<int>) returns (square: seq<int>, carry: seq<int>)
    requires IsLimbs(s) && |s| == LIMBS
    ensures IsLimbs(square) && |square| == 2 * LIMBS && |carry| == 2 * LIMBS - 1 && Val(square) == Val(s) * Val(s)
    ensures Balances(ProductColumns(s, s), square, carry) && IsProduct(SquareProduct(s, square, carry))
  {
    square, carry := MulWitness(s, s, 2 * LIMBS);
    SquareRow(s, square, carry);
  }

  /**
   * Square, gate, cube and reduce one lane. A closed gate zeroes the square, and the lane's own sum is
   * handed on; an open one hands on the reduced cube and records two products and one reduction.
   */
  method SboxLane(s: seq<int>, open: bool) returns (c: BoxColumns, muls: seq<Product>, reduces: seq<Reduction>)
    requires IsLimbs(s) && |s| == LIMBS && 0 <= Val(s) < 3 * PRIME
    ensures IsSbox(s, open, c) && muls == SboxProducts(s, open, c) && reduces == SboxReductions(open, c)
    ensures open ==> Canonical(c.p) && Val(c.p) == Mod((Val(s) * Val(s)) * Val(s))
    ensures AllProducts(muls) && AllReductions(reduces)
  {
    var square, carry := Square(s);
    var x2 := Gate(open, square);
    CubeInRange(s, square, x2, open);
    var z, mul, reduce := CubeReduce(x2, s);
    c := BoxColumns(square, carry, x2, Gate(open, carry), mul.c, mul.carry, reduce.q, reduce.carry, z, if open then z else s);
    assert mul == Product(x2, s, c.x3, c.x3c) && reduce == Reduction(c.x3, z, c.q, c.qc);
    if open {
      OpenRows(SquareProduct(s, square, carry), mul, reduce);
      muls, reduces := [SquareProduct(s, square, carry), mul], [reduce];
    } else {
      muls, reduces := [], [];
    }
  }

  lemma SquareRow(s: seq<int>, square: seq<int>, carry: seq<int>)
    requires IsLimbs(s) && IsLimbs(square) && |s| == LIMBS && |square| == 2 * LIMBS && |carry| == 2 * LIMBS - 1
    requires Balances(ProductColumns(s, s), square, carry)
    ensures IsProduct(SquareProduct(s, square, carry))
  {
    PadKeeps(s, 32);
    PadKeeps(square, 48);
    SquareColumns(s, square, carry);
    BalancedProduct(PadTo(s, 32), s, PadTo(square, 48), PadTo(carry, 47));
  }

  lemma SquareColumns(s: seq<int>, square: seq<int>, carry: seq<int>)
    requires |s| == LIMBS && |square| == 2 * LIMBS && |carry| == 2 * LIMBS - 1
    requires Balances(ProductColumns(s, s), square, carry)
    ensures Balances(ProductColumns(PadTo(s, 32), s), PadTo(square, 48), PadTo(carry, 47))
  {
    var f, g, closed := ProductColumns(s, s), ProductColumns(PadTo(s, 32), s), carry + [0];
    forall k: nat | k < 48 ensures g(k) == f(k) && (k >= 31 ==> f(k) == 0) {
      ConvPadded(s, PadTo(s, 32), s, k, 32);
      if k >= 31 { ConvTop(s, s, k, 16); }
    }
    forall k: nat | k < 32 ensures CarryAt(f, square, closed, k) {
      if k < 31 { CarryKept(f, square, carry, square, closed, k); }
    }
    PaddedBalance(f, g, square, closed, 48);
    assert PadTo(closed, 47) == PadTo(carry, 47);
  }

  /** Leading zeros of the left factor do not change the columns. */
  lemma {:induction false} ConvPadded(a: seq<int>, a': seq<int>, b: seq<int>, k: nat, m: nat)
    requires a <= a' && (forall i :: |a| <= i < |a'| ==> a'[i] == 0) && |a| <= m <= |a'|
    ensures Conv(a', b, k, m) == Conv(a, b, k, |a|)
  {
    if m == |a| {
      ConvSame(a, a', b, k, m);
    } else {
      ConvPadded(a, a', b, k, m - 1);
    }
  }

  lemma {:induction false} ConvSame(a: seq<int>, a': seq<int>, b: seq<int>, k: nat, m: nat)
    requires a <= a' && m <= |a|
    ensures Conv(a', b, k, m) == Conv(a, b, k, m)
  {
    if m > 0 { ConvSame(a, a', b, k, m - 1); }
  }

  lemma CubeInRange(s: seq<int>, square: seq<int>, x2: seq<int>, open: bool)
    requires IsLimbs(s) && |s| == LIMBS && 0 <= Val(s) < 3 * PRIME && Val(square) == Val(s) * Val(s)
    requires |x2| == 2 * LIMBS && x2 == if open then square else seq(2 * LIMBS, _ => 0)
    ensures Val(x2) * Val(s) < Shift(1, |x2|) * PRIME
  {
    if open {
      CubeRange(Val(s), |s|);
    } else {
      PolyZeros(Dig(x2), 0, |x2|);
      CubeRange(0, |s|);
    }
  }

  lemma CubeRange(s: int, n: nat)
    requires n == LIMBS && 0 <= s < 3 * PRIME
    ensures (s * s) * s < Shift(1, 2 * n) * PRIME
  {
    Room(n);
    DoubleWidth(n);
    CubeFits(s, Shift(1, n), PRIME);
  }

  // ----- the mix -----

  /** x mod P of a number that differs by multiples of P. */
  lemma MixResidue(a: int, b: int, c: int, p0: int, p1: int, p2: int, v: int, m: int, p: int)
    requires 0 < p && v == a * p0 + b * p1 + c * p2 + m * p
    ensures v % p == (a * (p0 % p) + b * (p1 % p) + c * (p2 % p)) % p
  {
    ReduceForm(a, p0, b, p1, c, p2, p);
    SameMod(v, a * p0 + b * p1 + c * p2, m, p);
  }

  /** The three lanes before the mix, as residues. */
  function Residues(p0: int, p1: int, p2: int): Triple {
    Triple(Mod(p0), Mod(p1), Mod(p2))
  }

  lemma MixValues(p0: int, p1: int, p2: int, v0: int, v1: int, v2: int)
    requires v0 == p0 + p1 + p2 + 2 * p0
    requires v1 == p0 + p1 + p2 + 4 * PRIME - 2 * p1
    requires v2 == p0 + p1 + p2 + 6 * PRIME - 3 * p2
    ensures MixOf(Residues(p0, p1, p2)) == Residues(v0, v1, v2)
  {
    MixMatrix(Residues(p0, p1, p2));
    MixResidue(3, 1, 1, p0, p1, p2, v0, 0, PRIME);
    MixResidue(1, -1, 1, p0, p1, p2, v1, 4, PRIME);
    MixResidue(1, 1, -2, p0, p1, p2, v2, 6, PRIME);
  }

  lemma MixRow(v: seq<int>, qm: int, zm: seq<int>, rc: seq<int>)
    requires IsLimbs(v) && |v| == LIMBS && |rc| == LIMBS && 0 <= qm < B && Full(zm) && rc[LIMBS - 1] == 0
    requires forall k: nat :: k < LIMBS ==> CarryAt(ReductionColumns([qm], P_LIMBS, zm), v, rc, k)
    ensures IsDivision(MixReduction(v, qm, zm, rc))
  {
    PadKeeps(v, 48);
    PadKeeps([qm], 32);
    MixColumns(v, qm, zm, rc);
    BalancedReduction(PadTo([qm], 32), zm, PadTo(v, 48), PadTo(rc, 47));
  }

  lemma MixColumns(v: seq<int>, qm: int, zm: seq<int>, rc: seq<int>)
    requires |v| == |rc| == |zm| == LIMBS && rc[LIMBS - 1] == 0
    requires forall k: nat :: k < LIMBS ==> CarryAt(ReductionColumns([qm], P_LIMBS, zm), v, rc, k)
    ensures Balances(ReductionColumns(PadTo([qm], 32), P_LIMBS, zm), PadTo(v, 48), PadTo(rc, 47))
  {
    var f, g := ReductionColumns([qm], P_LIMBS, zm), ReductionColumns(PadTo([qm], 32), P_LIMBS, zm);
    forall k: nat | k < 48 ensures g(k) == f(k) && (k >= LIMBS ==> f(k) == 0) {
      ConvPadded([qm], PadTo([qm], 32), P_LIMBS, k, 32);
      if k >= LIMBS { ConvTop([qm], P_LIMBS, k, 1); }
    }
    PaddedBalance(f, g, v, rc, 48);
  }

  method MixLane(v: seq<int>) returns (qm: int, zm: seq<int>, rc: seq<int>)
    requires IsLimbs(v) && |v| == LIMBS
    ensures Divides(v, qm, zm, rc) && Canonical(zm) && Val(zm) == Mod(Val(v)) && IsReduction(MixReduction(v, qm, zm, rc))
  {
    qm, zm, rc := Reduce16(v);
    MixRow(v, qm, zm, rc);
    DivModUnique(Val(v), PRIME, qm, Val(zm));
  }

  /** Lane 0: the lane doubled, plus the sum of all three. */
  method MixFirst(post: seq<int>, t: seq<int>) returns (c: LaneColumns)
    requires IsLimbs(post) && IsLimbs(t) && |post| == |t| == LIMBS && 2 * Val(post) + Val(t) < Shift(1, |post|)
    ensures IsMix(0, post, t, c) && Val(c.v.out) == 2 * Val(post) + Val(t)
    ensures Val(c.zm) == Mod(Val(c.v.out)) && IsReduction(LaneReduction(c))
  {
    ValBound(post);
    ValBound(t);
    var d := Times(2, post);
    var v := Sum2(d.out, t);
    var qm, zm, rc := MixLane(v.out);
    c := LaneColumns(d, Sum([], []), v, rc, [], qm, zm);
  }

  /** The offset m P as limbs. */
  method Offset(lane: nat) returns (k: seq<int>)
    requires 1 <= lane <= 2
    ensures k == OffsetOf(lane) && IsLimbs(k) && |k| == LIMBS && Val(k) == (if lane == 1 then 4 else 6) * PRIME
  {
    k := PMultiple(if lane == 1 then 4 else 6);
    Room(|k|);
    ToLimbsValue((if lane == 1 then 4 else 6) * PRIME, |k|);
    LimbsUnique(k, OffsetOf(lane));
  }

  /** Lanes 1 and 2: t + m P - c post, where the offset keeps the subtraction from going below zero. */
  method MixOther(lane: nat, post: seq<int>, t: seq<int>, k: seq<int>) returns (c: LaneColumns)
    requires 1 <= lane <= 2 && IsLimbs(post) && IsLimbs(t) && |post| == |t| == LIMBS && k == OffsetOf(lane) && IsLimbs(k)
    requires (if lane == 2 then 3 else 2) * Val(post) <= Val(t) + Val(k) < Shift(1, |post|)
    ensures IsMix(lane, post, t, c) && Val(c.v.out) == Val(t) + Val(k) - (if lane == 2 then 3 else 2) * Val(post)
    ensures Val(c.zm) == Mod(Val(c.v.out)) && IsReduction(LaneReduction(c))
  {
    var d := Times(if lane == 2 then 3 else 2, post);
    var u := Sum2(t, k);
    var v, bw := SubWitness(u.out, d.out);
    var qm, zm, rc := MixLane(v);
    c := LaneColumns(d, u, Sum(v, seq(LIMBS, _ => 0)), rc, bw, qm, zm);
  }

  /** All sums of the mix fit sixteen limbs, and neither offset subtraction goes below zero. */
  lemma MixFits(p0: int, p1: int, p2: int, p: int, w: int)
    requires 0 <= p0 < 3 * p && 0 <= p1 < 3 * p && 0 <= p2 < p && 31 * p < w
    ensures var t := p0 + p1 + p2;
      && t < w && 2 * p0 + t < w && 2 * p1 <= t + 4 * p < w && 3 * p2 <= t + 6 * p < w
  {
  }

  /** The sum of the lanes and the three mixed lanes, before reduction; the offsets are 4 P and 6 P. */
  method MixSums(p0: seq<int>, p1: seq<int>, p2: seq<int>) returns (t: Sum, m0: LaneColumns, m1: LaneColumns, m2: LaneColumns)
    requires IsLimbs(p0) && IsLimbs(p1) && IsLimbs(p2) && |p0| == |p1| == |p2| == LIMBS
    requires 0 <= Val(p0) < 3 * PRIME && 0 <= Val(p1) < 3 * PRIME && 0 <= Val(p2) < PRIME
    ensures SumHolds([Term(1, p0), Term(1, p1), Term(1, p2)], t) && |t.out| == LIMBS
    ensures IsMix(0, p0, t.out, m0) && Val(m0.v.out) == Val(p0) + Val(p1) + Val(p2) + 2 * Val(p0)
    ensures IsMix(1, p1, t.out, m1) && Val(m1.v.out) == Val(p0) + Val(p1) + Val(p2) + 4 * PRIME - 2 * Val(p1)
    ensures IsMix(2, p2, t.out, m2) && Val(m2.v.out) == Val(p0) + Val(p1) + Val(p2) + 6 * PRIME - 3 * Val(p2)
    ensures Val(m0.zm) == Mod(Val(m0.v.out)) && Val(m1.zm) == Mod(Val(m1.v.out)) && Val(m2.zm) == Mod(Val(m2.v.out))
    ensures IsReduction(LaneReduction(m0)) && IsReduction(LaneReduction(m1)) && IsReduction(LaneReduction(m2))
  {
    Room(|p0|);
    MixFits(Val(p0), Val(p1), Val(p2), PRIME, Shift(1, |p0|));
    var k4 := Offset(1);
    var k6 := Offset(2);
    t := Sum3(p0, p1, p2);
    m0 := MixFirst(p0, t.out);
    m1 := MixOther(1, p1, t.out, k4);
    m2 := MixOther(2, p2, t.out, k6);
  }

  lemma JoinLanes(z0: seq<int>, z1: seq<int>, z2: seq<int>, v0: int, v1: int, v2: int)
    requires Canonical(z0) && Canonical(z1) && Canonical(z2)
    requires Val(z0) == Mod(v0) && Val(z1) == Mod(v1) && Val(z2) == Mod(v2)
    ensures CanonicalLanes(Lanes3(z0, z1, z2)) && Values(Lanes3(z0, z1, z2)) == Residues(v0, v1, v2)
  {
  }

  method MixLanes3(p0: seq<int>, p1: seq<int>, p2: seq<int>) returns (t: Sum, m0: LaneColumns, m1: LaneColumns, m2: LaneColumns)
    requires IsLimbs(p0) && IsLimbs(p1) && IsLimbs(p2) && |p0| == |p1| == |p2| == LIMBS
    requires 0 <= Val(p0) < 3 * PRIME && 0 <= Val(p1) < 3 * PRIME && 0 <= Val(p2) < PRIME
    ensures SumHolds([Term(1, p0), Term(1, p1), Term(1, p2)], t) && |t.out| == LIMBS
    ensures IsMix(0, p0, t.out, m0) && IsMix(1, p1, t.out, m1) && IsMix(2, p2, t.out, m2)
    ensures CanonicalLanes(Lanes3(m0.zm, m1.zm, m2.zm))
    ensures Values(Lanes3(m0.zm, m1.zm, m2.zm)) == MixOf(Residues(Val(p0), Val(p1), Val(p2)))
    ensures AllReductions([LaneReduction(m0), LaneReduction(m1), LaneReduction(m2)])
  {
    t, m0, m1, m2 := MixSums(p0, p1, p2);
    MixValues(Val(p0), Val(p1), Val(p2), Val(m0.v.out), Val(m1.v.out), Val(m2.v.out));
    ThreeReductions(LaneReduction(m0), LaneReduction(m1), LaneReduction(m2));
    JoinLanes(m0.zm, m1.zm, m2.zm, Val(m0.v.out), Val(m1.v.out), Val(m2.v.out));
  }

  // ----- the round -----

  function LanesOf(s: Triple): (l: Lanes3)
    ensures CanonicalLanes(l) && Values(l) == s
  {
    Lanes3(FeltToLimbs(s.x), FeltToLimbs(s.y), FeltToLimbs(s.z))
  }

  lemma LanesAre(l: Lanes3)
    requires CanonicalLanes(l)
    ensures l == LanesOf(Values(l))
  {
    CanonicalIs(l.x);
    CanonicalIs(l.y);
    CanonicalIs(l.z);
  }

  /** The native cube of a residue, whatever number it is the residue of. */
  lemma CubeOf(s: int)
    ensures Cube(Mod(s)) == CubeMod(s, PRIME)
  {
    CubeModIs(s, PRIME);
    CubeOfResidue(s, PRIME);
    CubeIs(Mod(s));
  }

  /** State, absorbed word and round key of one lane, added in the field. */
  function Entered(a: seq<int>, w: seq<int>, k: seq<int>): Felt
    requires Canonical(a) && Canonical(w) && Canonical(k)
  {
    FAdd(FAdd(Val(a), Val(w)), Val(k))
  }

  lemma EnteredIs(x: Felt, y: Felt, z: Felt, s: int)
    requires s == x + y + z
    ensures s % PRIME == FAdd(FAdd(x, y), z)
  {
    ReduceTerm(x + y, z, PRIME);
  }

  lemma EnteredSum(a: seq<int>, w: seq<int>, k: seq<int>, s: int)
    requires Canonical(a) && Canonical(w) && Canonical(k) && s == Val(a) + Val(w) + Val(k)
    ensures Mod(s) == Entered(a, w, k)
  {
    EnteredIs(Val(a), Val(w), Val(k), s);
  }

  lemma EnteredRoom(a: seq<int>, w: seq<int>, k: seq<int>, n: nat)
    requires Canonical(a) && Canonical(w) && Canonical(k) && n == LIMBS
    ensures 0 <= Val(a) + Val(w) + Val(k) < 3 * PRIME && Val(a) + Val(w) + Val(k) < Shift(1, n)
  {
    Room(n);
  }

  method AbsorbLane(a: seq<int>, w: seq<int>, k: seq<int>) returns (s: Sum)
    requires Canonical(a) && Canonical(w) && Canonical(k)
    ensures IsAbsorbed(a, w, k, s) && 0 <= Val(s.out) < 3 * PRIME && Mod(Val(s.out)) == Entered(a, w, k)
  {
    EnteredRoom(a, w, k, |a|);
    s := Sum3(a, w, k);
    EnteredSum(a, w, k, Val(s.out));
  }

  /** One lane from its input to the value the mix takes. */
  method Lane(a: seq<int>, w: seq<int>, k: seq<int>, open: bool)
      returns (s: Sum, c: BoxColumns, muls: seq<Product>, reduces: seq<Reduction>)
    requires Canonical(a) && Canonical(w) && Canonical(k)
    ensures IsAbsorbed(a, w, k, s) && IsSbox(s.out, open, c)
    ensures muls == SboxProducts(s.out, open, c) && reduces == SboxReductions(open, c)
    ensures IsLimbs(c.p) && |c.p| == LIMBS && 0 <= Val(c.p) < 3 * PRIME && (open ==> Val(c.p) < PRIME)
    ensures Mod(Val(c.p)) == if open then Cube(Entered(a, w, k)) else Entered(a, w, k)
    ensures AllProducts(muls) && AllReductions(reduces)
  {
    s := AbsorbLane(a, w, k);
    c, muls, reduces := SboxLane(s.out, open);
    if open {
      CubeOf(Val(s.out));
      CubeModIs(Val(s.out), PRIME);
      SmallMod(Val(c.p), PRIME);
    }
  }

  /** The columns of a round with its state and coprocessor rows: every equation holds and the output is the native round. */
  method OneRoundWitness(state: Lanes3, scope: RoundScope)
      returns (c: RoundColumns, out: Lanes3, muls: seq<Product>, reduces: seq<Reduction>)
    requires CanonicalLanes(state) && IsScope(scope)
    ensures IsRound(scope, c) && c.input == state && out == OutputOf(c) && CanonicalLanes(out)
    ensures Values(out) == RoundOf(scope.full, Values(scope.k), Add(Values(state), Absorbed(scope)))
    ensures muls == ProductsOf(scope, c) && reduces == ReductionsOf(scope, c) && AllProducts(muls) && AllReductions(reduces)
    ensures |muls| == 2 * Nonlinear(scope.full) && |reduces| == Nonlinear(scope.full) + 3
  {
    var zeros := FeltToLimbs(0);
    var s0, b0, p0, r0 := Lane(state.x, scope.w0, scope.k.x, scope.full);
    var s1, b1, p1, r1 := Lane(state.y, scope.w1, scope.k.y, scope.full);
    var s2, b2, p2, r2 := Lane(state.z, zeros, scope.k.z, true);
    var t, m0, m1, m2 := MixLanes3(b0.p, b1.p, b2.p);
    c := RoundColumns(state, Three(s0, s1, s2), Three(b0, b1, b2), t, Three(m0, m1, m2));
    out := OutputOf(c);
    var rows := [LaneReduction(m0), LaneReduction(m1), LaneReduction(m2)];
    RowsJoin(p0, p1, r0, r1);
    RowsJoin(p0 + p1, p2, r0 + r1, r2);
    RowsJoin([], [], r0 + r1 + r2, rows);
    muls := p0 + p1 + p2;
    reduces := r0 + r1 + r2 + rows;
  }
}
