/**
 * What one round of the chain trace records (the column layout and coprocessor rows of src/poseidon252_air.rs), on
 * 16-bit limbs: canonical limbs, the rows of the multiplication and reduction coprocessors, the witness columns of
 * a round, and the equations between them over the integers.
 */
module PoseidonRows {
  import opened Arith
  import opened Limbs
  import opened LimbReduction
  import opened Hades

  function Mod(x: int): Felt { x % PRIME }

  /** The unique sixteen limbs of a field element. */
  predicate Canonical(a: seq<int>) {
    IsLimbs(a) && |a| == LIMBS && 0 <= Val(a) < PRIME
  }

  /** The limbs of a field element. */
  function ToLimbs(x: nat, n: nat): (a: seq<int>)
    ensures |a| == n
  {
    if n == 0 then [] else ToLimbs(x % Shift(1, n - 1), n - 1) + [x / Shift(1, n - 1)]
  }

  lemma {:induction false} ToLimbsValue(x: nat, n: nat)
    requires x < Shift(1, n)
    ensures IsLimbs(ToLimbs(x, n)) && Val(ToLimbs(x, n)) == x
  {
    if n > 0 {
      var s := Shift(1, n - 1);
      var low, top := x % s, x / s;
      ToLimbsValue(low, n - 1);
      TopLimb(x, s);
      PushLimb(ToLimbs(low, n - 1), top);
      ShiftTimes(top, 1, n - 1);
    }
  }

  lemma TopLimb(x: nat, s: int)
    requires 0 < s && x < B * s
    ensures 0 <= x / s < B && x == x % s + (x / s) * s
  {
    var q := x / s;
    if q >= B { MulMono(s, B, q); }
  }

  /** Limb sequences of one length are determined by their value. */
  lemma {:induction false} LimbsUnique(a: seq<int>, b: seq<int>)
    requires IsLimbs(a) && IsLimbs(b) && |a| == |b| && Val(a) == Val(b)
    ensures a == b
  {
    if |a| > 0 {
      var n := |a| - 1;
      var a', b' := a[..n], b[..n];
      assert a == a' + [a[n]] && b == b' + [b[n]];
      PushLimb(a', a[n]);
      PushLimb(b', b[n]);
      ValBound(a');
      ValBound(b');
      ShiftAdd(a[n], b[n], n);
      if a[n] < b[n] {
        ShiftMono(a[n] + 1, b[n], n);
        ShiftAdd(a[n], 1, n);
      } else if b[n] < a[n] {
        ShiftMono(b[n] + 1, a[n], n);
        ShiftAdd(b[n], 1, n);
      }
      LimbsUnique(a', b');
    }
  }

  function FeltToLimbs(f: Felt): (a: seq<int>)
    ensures Canonical(a) && Val(a) == f
  {
    PrimeLimbs();
    ToLimbsValue(f, LIMBS);
    ToLimbs(f, LIMBS)
  }

  lemma CanonicalIs(a: seq<int>)
    requires Canonical(a)
    ensures a == FeltToLimbs(Val(a))
  {
    LimbsUnique(a, FeltToLimbs(Val(a)));
  }

  /** The top limb of a canonical element is at most that of the prime, so it passes the twelve-bit check. */
  lemma TopLimbBound(a: seq<int>)
    requires Canonical(a)
    ensures a[LIMBS - 1] <= 0x800 < 0x1000
  {
    var n := LIMBS - 1;
    var low, x := a[..n], a[n];
    assert a == low + [x];
    PushLimb(low, x);
    ValBound(low);
    if x > 0x800 { TooLarge(x, n); }
  }

  lemma TooLarge(x: int, n: nat)
    requires x > 0x800 && n == LIMBS - 1
    ensures Shift(x, n) > PRIME
  {
    ShiftConstants();
    ShiftMono(0x801, x, n);
    ShiftAdd(0x800, 1, n);
    ShiftUp(1, n);
    ShiftTimes(B, 1, n);
  }

  // ----- coprocessor rows -----

  datatype Product = Product(a: seq<int>, b: seq<int>, c: seq<int>, carry: seq<int>)
  datatype Reduction = Reduction(x: seq<int>, z: seq<int>, q: seq<int>, carry: seq<int>)

  function PadTo(values: seq<int>, width: nat): (r: seq<int>)
    requires |values| <= width
    ensures |r| == width && values <= r
  {
    values + seq(width - |values|, _ => 0)
  }

  lemma PadKeeps(a: seq<int>, width: nat)
    requires |a| <= width && IsLimbs(a)
    ensures IsLimbs(PadTo(a, width)) && Val(PadTo(a, width)) == Val(a)
  {
    var r := PadTo(a, width);
    PolySame(Dig(r), Dig(a), width);
    ValWide(a, width);
  }

  /** Every carry balances its column, and the top limb is the last carry. */
  ghost predicate Balances(f: nat -> int, out: seq<int>, carry: seq<int>) {
    && |out| == |carry| + 1 && out[|carry|] == Before(carry, |carry|)
    && forall k: nat :: k < |carry| ==> CarryAt(f, out, carry, k)
  }

  /** a(32) times b(16) is c(48) over the integers, column by column. */
  ghost predicate IsProduct(r: Product) {
    && IsLimbs(r.a) && |r.a| == 32 && IsLimbs(r.b) && |r.b| == 16 && IsLimbs(r.c) && |r.c| == 48 && |r.carry| == 47
    && Balances(ProductColumns(r.a, r.b), r.c, r.carry)
    && Val(r.c) == Val(r.a) * Val(r.b)
  }

  /** Sixteen limbs of any value. */
  predicate Full(a: seq<int>) {
    IsLimbs(a) && |a| == LIMBS
  }

  /**
   * x(48) = z(16) + q(32) P, column by column. Beyond the limbs of z the constraints bound only its top limb, by 2^12,
   * so z is a residue of x but need not be the least one.
   */
  ghost predicate IsDivision(r: Reduction) {
    && IsLimbs(r.x) && |r.x| == 48 && Full(r.z) && IsLimbs(r.q) && |r.q| == 32 && |r.carry| == 47
    && Balances(ReductionColumns(r.q, P_LIMBS, r.z), r.x, r.carry)
    && Val(r.x) == Val(r.q) * PRIME + Val(r.z)
  }

  /** The same with z below the prime, as the builder records it. */
  ghost predicate IsReduction(r: Reduction) {
    IsDivision(r) && Canonical(r.z)
  }

  /** Balanced columns alone fix the value: the limbs are worth what the columns are worth. */
  lemma {:induction false} BalancedValue(f: nat -> int, out: seq<int>, carry: seq<int>, n: nat)
    requires n <= |carry| && n <= |out| && forall k: nat :: k < n ==> CarryAt(f, out, carry, k)
    ensures Poly(Dig(out), n) + Shift(Before(carry, n), n) == Poly(f, n)
  {
    if n == 0 {
      ShiftZero(0);
    } else {
      BalancedValue(f, out, carry, n - 1);
      assert CarryAt(f, out, carry, n - 1);
      ShiftAdd(out[n - 1], B * carry[n - 1], n - 1);
      ShiftUp(carry[n - 1], n - 1);
      ShiftAdd(f(n - 1), Before(carry, n - 1), n - 1);
    }
  }

  /** Whatever carries a row records, once its columns balance it is an exact product. */
  lemma BalancedProduct(a: seq<int>, b: seq<int>, c: seq<int>, carry: seq<int>)
    requires |a| + |b| <= |c| && Balances(ProductColumns(a, b), c, carry)
    ensures Val(c) == Val(a) * Val(b)
  {
    var n := |carry|;
    BalancedValue(ProductColumns(a, b), c, carry, n);
    ConvValue(a, b, ProductColumns(a, b), |a|, n);
  }

  lemma BalancedDivision(q: seq<int>, p: seq<int>, z: seq<int>, x: seq<int>, carry: seq<int>)
    requires |q| + |p| <= |x| && |z| < |x| && Balances(ReductionColumns(q, p, z), x, carry)
    ensures Val(x) == Val(q) * Val(p) + Val(z)
  {
    var n := |carry|;
    BalancedValue(ReductionColumns(q, p, z), x, carry, n);
    ReductionValue(q, p, z, n);
    assert x == x[..n] + [x[n]];
    PushLimb(x[..n], x[n]);
    PolySame(Dig(x[..n]), Dig(x), n);
  }

  /** Whatever carries a row records, once its columns balance it is an exact reduction. */
  lemma BalancedReduction(q: seq<int>, z: seq<int>, x: seq<int>, carry: seq<int>)
    requires |q| + LIMBS <= |x| && |z| < |x| && Balances(ReductionColumns(q, P_LIMBS, z), x, carry)
    ensures Val(x) == Val(q) * PRIME + Val(z)
  {
    PrimeLimbs();
    BalancedDivision(q, P_LIMBS, z, x, carry);
  }

  /** Zero padding keeps a chain balanced that ends without a carry. */
  lemma PaddedBalance(f: nat -> int, g: nat -> int, out: seq<int>, carry: seq<int>, width: nat)
    requires 0 < |out| == |carry| < width && carry[|carry| - 1] == 0
    requires forall k: nat :: k < |out| ==> CarryAt(f, out, carry, k) && g(k) == f(k)
    requires forall k: nat :: |out| <= k < width ==> g(k) == 0
    ensures Balances(g, PadTo(out, width), PadTo(carry, width - 1))
  {
    var out', carry' := PadTo(out, width), PadTo(carry, width - 1);
    forall k: nat | k < width - 1 ensures CarryAt(g, out', carry', k) {
      if k < |out| { assert CarryAt(f, out, carry, k); }
    }
  }

  ghost predicate AllProducts(rows: seq<Product>) {
    forall i :: 0 <= i < |rows| ==> IsProduct(rows[i])
  }

  ghost predicate AllReductions(rows: seq<Reduction>) {
    forall i :: 0 <= i < |rows| ==> IsReduction(rows[i])
  }

  lemma RowsJoin(a: seq<Product>, b: seq<Product>, c: seq<Reduction>, d: seq<Reduction>)
    requires AllProducts(a) && AllProducts(b) && AllReductions(c) && AllReductions(d)
    ensures AllProducts(a + b) && AllReductions(c + d)
  {
  }

  lemma ThreeReductions(a: Reduction, b: Reduction, c: Reduction)
    requires IsReduction(a) && IsReduction(b) && IsReduction(c)
    ensures AllReductions([a, b, c])
  {
  }

  lemma OpenRows(a: Product, b: Product, c: Reduction)
    requires IsProduct(a) && IsProduct(b) && IsReduction(c)
    ensures AllProducts([a, b]) && AllReductions([c])
  {
  }

  /** Three lanes of limbs. */
  datatype Lanes3 = Lanes3(x: seq<int>, y: seq<int>, z: seq<int>)

  predicate CanonicalLanes(s: Lanes3) {
    Canonical(s.x) && Canonical(s.y) && Canonical(s.z)
  }

  function Values(s: Lanes3): Triple
    requires CanonicalLanes(s)
  {
    Triple(Val(s.x), Val(s.y), Val(s.z))
  }

  /** Lanes with a nonlinear S-box. */
  function Nonlinear(full: bool): nat {
    if full then 3 else 1
  }

  /** The absorbed words of a round; lane 2 never absorbs. */
  datatype RoundScope = RoundScope(full: bool, k: Lanes3, w0: seq<int>, w1: seq<int>)

  predicate IsScope(scope: RoundScope) {
    CanonicalLanes(scope.k) && Canonical(scope.w0) && Canonical(scope.w1)
  }

  function Absorbed(scope: RoundScope): Triple
    requires IsScope(scope)
  {
    Triple(Val(scope.w0), Val(scope.w1), 0)
  }

  // ----- the witness columns of a round -----

  /** A recorded sum: its limbs and the carry of every column. */
  datatype Sum = Sum(out: seq<int>, carry: seq<int>)

  /** Every carry balances its column and none is left over. */
  ghost predicate SumHolds(terms: seq<Term>, s: Sum) {
    && 0 < |s.out| == |s.carry| && IsLimbs(s.out) && s.carry[|s.carry| - 1] == 0
    && forall k: nat :: k < |s.out| ==> CarryAt(Columns(terms), s.out, s.carry, k)
  }

  /** The columns of one lane's S-box; an open gate copies the square into x2. */
  datatype BoxColumns = BoxColumns(sq: seq<int>, sqc: seq<int>, x2: seq<int>, x2c: seq<int>, x3: seq<int>, x3c: seq<int>,
                       q: seq<int>, qc: seq<int>, z: seq<int>, p: seq<int>)

  function Gate(open: bool, v: seq<int>): (r: seq<int>)
    ensures |r| == |v|
  {
    if open then v else seq(|v|, _ => 0)
  }

  /** The zero-padded row of a square. */
  function SquareProduct(s: seq<int>, square: seq<int>, carry: seq<int>): Product
    requires |s| == LIMBS && |square| == 2 * LIMBS && |carry| == 2 * LIMBS - 1
  {
    Product(PadTo(s, 32), s, PadTo(square, 48), PadTo(carry, 47))
  }

  /** Square, gate, cube, divide, and hand on the remainder or the lane's own sum. */
  ghost predicate BoxHolds(s: seq<int>, open: bool, c: BoxColumns) {
    && |s| == LIMBS && IsLimbs(c.sq) && |c.sq| == 2 * LIMBS && |c.sqc| == 2 * LIMBS - 1
    && Balances(ProductColumns(s, s), c.sq, c.sqc) && c.x2 == Gate(open, c.sq) && c.x2c == Gate(open, c.sqc)
    && IsProduct(Product(c.x2, s, c.x3, c.x3c)) && IsDivision(Reduction(c.x3, c.z, c.q, c.qc))
    && c.p == if open then c.z else s
  }

  /** The same with the remainder below the prime. */
  ghost predicate IsSbox(s: seq<int>, open: bool, c: BoxColumns) {
    BoxHolds(s, open, c) && Canonical(c.z)
  }

  /** The coprocessor rows of a lane: two products and a reduction behind an open gate, nothing behind a closed one. */
  function SboxProducts(s: seq<int>, open: bool, c: BoxColumns): seq<Product>
    requires |s| == LIMBS && |c.sq| == 2 * LIMBS && |c.sqc| == 2 * LIMBS - 1
  {
    if open then [SquareProduct(s, c.sq, c.sqc), Product(c.x2, s, c.x3, c.x3c)] else []
  }

  function SboxReductions(open: bool, c: BoxColumns): seq<Reduction> {
    if open then [Reduction(c.x3, c.z, c.q, c.qc)] else []
  }

  /** The columns of one lane of the mix; lane 0 has no offset and no borrows. */
  datatype LaneColumns = LaneColumns(d: Sum, u: Sum, v: Sum, rc: seq<int>, bw: seq<int>, qm: int, zm: seq<int>)

  /** The offset of a lane: four or six times the prime. */
  function OffsetOf(lane: nat): seq<int> {
    ToLimbs((if lane == 1 then 4 else 6) * PRIME, LIMBS)
  }

  /** v = zm + qm P, column by column, with no carry left over. */
  ghost predicate Divides(v: seq<int>, qm: int, zm: seq<int>, rc: seq<int>) {
    && IsLimbs(v) && |v| == |rc| == LIMBS && 0 <= qm < B && Full(zm) && rc[LIMBS - 1] == 0
    && forall k: nat :: k < LIMBS ==> CarryAt(ReductionColumns([qm], P_LIMBS, zm), v, rc, k)
  }

  /** out = u - d, borrow by borrow, with none left over. */
  ghost predicate Subtracts(u: seq<int>, d: seq<int>, out: seq<int>, bw: seq<int>) {
    && IsLimbs(out) && 0 < |out| == |bw| == |u| && bw[|bw| - 1] == 0
    && forall k: nat :: k < |u| ==> BorrowAt(u, d, out, bw, k)
  }

  /** Lane 0 takes d + t, the others t + m P - d, where d is the lane doubled or, in lane 2, tripled. */
  ghost predicate MixHolds(lane: nat, post: seq<int>, t: seq<int>, c: LaneColumns) {
    && SumHolds([Term(if lane == 2 then 3 else 2, post)], c.d) && |c.d.out| == LIMBS
    && (if lane == 0 then SumHolds([Term(1, c.d.out), Term(1, t)], c.v)
        else SumHolds([Term(1, t), Term(1, OffsetOf(lane))], c.u) && |c.u.out| == LIMBS && Subtracts(c.u.out, c.d.out, c.v.out, c.bw))
    && Divides(c.v.out, c.qm, c.zm, c.rc)
  }

  /** The same with the remainder below the prime. */
  ghost predicate IsMix(lane: nat, post: seq<int>, t: seq<int>, c: LaneColumns) {
    MixHolds(lane, post, t, c) && Canonical(c.zm)
  }

  /** The row recorded for a mix reduction. */
  function MixReduction(v: seq<int>, qm: int, zm: seq<int>, rc: seq<int>): Reduction
    requires |v| == LIMBS && |rc| == LIMBS
  {
    Reduction(PadTo(v, 48), zm, PadTo([qm], 32), PadTo(rc, 47))
  }

  datatype Three<T> = Three(x: T, y: T, z: T)

  datatype RoundColumns = RoundColumns(input: Lanes3, absorbed: Three<Sum>, sbox: Three<BoxColumns>, t: Sum, mix: Three<LaneColumns>)

  function OutputOf(c: RoundColumns): Lanes3 {
    Lanes3(c.mix.x.zm, c.mix.y.zm, c.mix.z.zm)
  }

  ghost predicate IsAbsorbed(a: seq<int>, w: seq<int>, k: seq<int>, s: Sum) {
    SumHolds([Term(1, a), Term(1, w), Term(1, k)], s) && |s.out| == LIMBS
  }

  /** Every column of a round meets its equation. Lanes 0 and 1 are gated; lane 2 absorbs nothing and is always open. */
  ghost predicate RoundHolds(scope: RoundScope, c: RoundColumns) {
    && IsAbsorbed(c.input.x, scope.w0, scope.k.x, c.absorbed.x) && BoxHolds(c.absorbed.x.out, scope.full, c.sbox.x)
    && IsAbsorbed(c.input.y, scope.w1, scope.k.y, c.absorbed.y) && BoxHolds(c.absorbed.y.out, scope.full, c.sbox.y)
    && IsAbsorbed(c.input.z, FeltToLimbs(0), scope.k.z, c.absorbed.z) && BoxHolds(c.absorbed.z.out, true, c.sbox.z)
    && SumHolds([Term(1, c.sbox.x.p), Term(1, c.sbox.y.p), Term(1, c.sbox.z.p)], c.t) && |c.t.out| == LIMBS
    && MixHolds(0, c.sbox.x.p, c.t.out, c.mix.x) && MixHolds(1, c.sbox.y.p, c.t.out, c.mix.y) && MixHolds(2, c.sbox.z.p, c.t.out, c.mix.z)
  }

  /** The same with all six remainders below the prime, as the builder records them. */
  ghost predicate IsRound(scope: RoundScope, c: RoundColumns) {
    && RoundHolds(scope, c)
    && Canonical(c.sbox.x.z) && Canonical(c.sbox.y.z) && Canonical(c.sbox.z.z) && CanonicalLanes(OutputOf(c))
  }

  /** The coprocessor rows of a round, in the order they are emitted. */
  ghost function ProductsOf(scope: RoundScope, c: RoundColumns): seq<Product>
    requires IsRound(scope, c)
  {
    SboxProducts(c.absorbed.x.out, scope.full, c.sbox.x) + SboxProducts(c.absorbed.y.out, scope.full, c.sbox.y)
      + SboxProducts(c.absorbed.z.out, true, c.sbox.z)
  }

  function LaneReduction(c: LaneColumns): Reduction
    requires |c.v.out| == LIMBS && |c.rc| == LIMBS
  {
    MixReduction(c.v.out, c.qm, c.zm, c.rc)
  }

  ghost function ReductionsOf(scope: RoundScope, c: RoundColumns): seq<Reduction>
    requires IsRound(scope, c)
  {
    SboxReductions(scope.full, c.sbox.x) + SboxReductions(scope.full, c.sbox.y) + SboxReductions(true, c.sbox.z)
      + [LaneReduction(c.mix.x), LaneReduction(c.mix.y), LaneReduction(c.mix.z)]
  }
}
