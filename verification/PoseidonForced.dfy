/**
 * The converse of the witness builder: whatever columns meet the equations of a round over the integers, their output
 * is the native round modulo the prime. The constraints bound the top limb of a remainder by 2^12 only
 * (src/poseidon252_air.rs:728-736), so inputs and remainders may be any sixteen limbs here; where they are below the
 * prime, as the builder's are, the output is the native round itself.
 */
module PoseidonForced {
  import opened Arith
  import opened Primes
  import opened Limbs
  import opened LimbReduction
  import opened Hades
  import opened PoseidonRows
  import opened PoseidonRound

  lemma SumValue(terms: seq<Term>, s: Sum)
    requires SumHolds(terms, s)
    ensures Val(s.out) == Combined(terms, |terms|, |s.out|)
  {
    var n := |s.out|;
    BalancedValue(Columns(terms), s.out, s.carry, n);
    ShiftZero(n);
    ColumnsCombine(terms, |terms|, n, Columns(terms));
  }

  /** Borrows that balance, none left over, make a subtraction. */
  lemma SubtractValue(u: seq<int>, d: seq<int>, out: seq<int>, bw: seq<int>)
    requires Subtracts(u, d, out, bw) && |d| == |u|
    ensures Val(out) == Val(u) - Val(d)
  {
    var n, f := |u|, Minus(u, d);
    var carry := seq(n, i requires 0 <= i < n => -bw[i]);
    forall k: nat | k < n ensures CarryAt(f, out, carry, k) {
      assert BorrowAt(u, d, out, bw, k);
    }
    BalancedValue(f, out, carry, n);
    ShiftZero(n);
    PolyMinus(Dig(u), Dig(d), f, n);
  }

  /** State, absorbed word and round key of one lane, added in the field. */
  function EnteredOf(a: seq<int>, w: seq<int>, k: seq<int>): Felt {
    FAdd(FAdd(Mod(Val(a)), Mod(Val(w))), Mod(Val(k)))
  }

  lemma AddResidues(x: int, y: int, x': int, y': int, p: int)
    requires 0 < p && x' == x % p && y' == y % p
    ensures (x + y) % p == (x' + y') % p
  {
    ReduceTerm(x, y, p);
    ReduceTerm(y, x', p);
  }

  lemma EnteredMod(x: int, y: int, z: int, a: int, p: int)
    requires 0 < p && a == (x % p + y % p) % p
    ensures (x + y + z) % p == (a + z % p) % p
  {
    AddResidues(x, y, x % p, y % p, p);
    AddResidues(x + y, z, a, z % p, p);
  }

  lemma EnteredSumMod(a: seq<int>, w: seq<int>, k: seq<int>, s: int)
    requires s == Val(a) + Val(w) + Val(k)
    ensures Mod(s) == EnteredOf(a, w, k)
  {
    EnteredMod(Val(a), Val(w), Val(k), FAdd(Mod(Val(a)), Mod(Val(w))), PRIME);
  }

  lemma AbsorbedForced(a: seq<int>, w: seq<int>, k: seq<int>, s: Sum)
    requires Full(a) && Full(w) && Full(k) && IsAbsorbed(a, w, k, s)
    ensures Full(s.out) && Mod(Val(s.out)) == EnteredOf(a, w, k)
  {
    SumValue([Term(1, a), Term(1, w), Term(1, k)], s);
    Combined3(a, w, k);
    EnteredSumMod(a, w, k, Val(s.out));
  }

  /** What is left of a division is a residue. */
  lemma Remainder(x: int, q: int, z: int, p: int)
    requires 0 < p && x == q * p + z
    ensures z % p == x % p
  {
    SameMod(z, x, -q, p);
  }

  lemma CubeForced(s: seq<int>, c: BoxColumns)
    requires BoxHolds(s, true, c)
    ensures Full(c.p) && Mod(Val(c.p)) == Mod((Val(s) * Val(s)) * Val(s))
  {
    BalancedProduct(s, s, c.sq, c.sqc);
    Remainder(Val(c.x3), Val(c.q), Val(c.z), PRIME);
  }

  /** What a lane hands to the mix is its absorbed sum, cubed behind an open gate. */
  lemma LaneForced(a: seq<int>, w: seq<int>, k: seq<int>, open: bool, s: Sum, c: BoxColumns)
    requires Full(a) && Full(w) && Full(k) && IsAbsorbed(a, w, k, s) && BoxHolds(s.out, open, c)
    ensures Full(c.p) && Mod(Val(c.p)) == if open then Cube(EnteredOf(a, w, k)) else EnteredOf(a, w, k)
  {
    AbsorbedForced(a, w, k, s);
    if open {
      CubeForced(s.out, c);
      CubeOf(Val(s.out));
      CubeModIs(Val(s.out), PRIME);
    }
  }

  lemma DividesValue(v: seq<int>, qm: int, zm: seq<int>, rc: seq<int>)
    requires Divides(v, qm, zm, rc)
    ensures Full(zm) && Mod(Val(zm)) == Mod(Val(v))
  {
    var r := MixReduction(v, qm, zm, rc);
    MixRow(v, qm, zm, rc);
    PadKeeps(v, 48);
    Remainder(Val(v), Val(r.q), Val(zm), PRIME);
  }

  lemma FirstForced(post: seq<int>, t: seq<int>, c: LaneColumns)
    requires |post| == |t| == LIMBS && MixHolds(0, post, t, c)
    ensures Val(c.v.out) == 2 * Val(post) + Val(t)
  {
    SumValue([Term(2, post)], c.d);
    Combined1(2, post);
    SumValue([Term(1, c.d.out), Term(1, t)], c.v);
    Combined2(c.d.out, t);
  }

  lemma OffsetValue(lane: nat, k: seq<int>, n: nat)
    requires n == LIMBS && k == OffsetOf(lane)
    ensures |k| == n && Val(k) == (if lane == 1 then 4 else 6) * PRIME
  {
    Room(n);
    ToLimbsValue((if lane == 1 then 4 else 6) * PRIME, n);
  }

  lemma OtherForced(lane: nat, post: seq<int>, t: seq<int>, c: LaneColumns, k: seq<int>)
    requires 1 <= lane <= 2 && |post| == |t| == LIMBS && MixHolds(lane, post, t, c) && k == OffsetOf(lane)
    ensures Val(c.v.out) == Val(t) + (if lane == 1 then 4 else 6) * PRIME - (if lane == 2 then 3 else 2) * Val(post)
  {
    SumValue([Term(if lane == 2 then 3 else 2, post)], c.d);
    Combined1(if lane == 2 then 3 else 2, post);
    OffsetValue(lane, k, LIMBS);
    SumValue([Term(1, t), Term(1, k)], c.u);
    Combined2(t, k);
    SubtractValue(c.u.out, c.d.out, c.v.out, c.bw);
  }

  predicate FullLanes(s: Lanes3) {
    Full(s.x) && Full(s.y) && Full(s.z)
  }

  function ResiduesOf(s: Lanes3): Triple {
    Residues(Val(s.x), Val(s.y), Val(s.z))
  }

  /** The mix columns are the mix of the three lanes. */
  lemma MixForced(p0: seq<int>, p1: seq<int>, p2: seq<int>, t: Sum, m0: LaneColumns, m1: LaneColumns, m2: LaneColumns)
    requires |p0| == |p1| == |p2| == |t.out| == LIMBS && SumHolds([Term(1, p0), Term(1, p1), Term(1, p2)], t)
    requires MixHolds(0, p0, t.out, m0) && MixHolds(1, p1, t.out, m1) && MixHolds(2, p2, t.out, m2)
    ensures FullLanes(Lanes3(m0.zm, m1.zm, m2.zm))
    ensures ResiduesOf(Lanes3(m0.zm, m1.zm, m2.zm)) == MixOf(Residues(Val(p0), Val(p1), Val(p2)))
  {
    SumValue([Term(1, p0), Term(1, p1), Term(1, p2)], t);
    Combined3(p0, p1, p2);
    FirstForced(p0, t.out, m0);
    OtherForced(1, p1, t.out, m1, OffsetOf(1));
    OtherForced(2, p2, t.out, m2, OffsetOf(2));
    DividesValue(m0.v.out, m0.qm, m0.zm, m0.rc);
    DividesValue(m1.v.out, m1.qm, m1.zm, m1.rc);
    DividesValue(m2.v.out, m2.qm, m2.zm, m2.rc);
    MixValues(Val(p0), Val(p1), Val(p2), Val(m0.v.out), Val(m1.v.out), Val(m2.v.out));
  }

  lemma CanonicalResidue(a: seq<int>)
    requires Canonical(a)
    ensures Full(a) && Mod(Val(a)) == Val(a)
  {
    SmallMod(Val(a), PRIME);
  }

  lemma CanonicalResidues(s: Lanes3)
    requires CanonicalLanes(s)
    ensures FullLanes(s) && ResiduesOf(s) == Values(s)
  {
    CanonicalResidue(s.x);
    CanonicalResidue(s.y);
    CanonicalResidue(s.z);
  }

  /** A lane absorbs its word and round key, both below the prime. */
  lemma LaneEntered(a: seq<int>, w: seq<int>, k: seq<int>)
    requires Canonical(w) && Canonical(k)
    ensures Full(w) && Full(k) && EnteredOf(a, w, k) == FAdd(FAdd(Mod(Val(a)), Val(w)), Val(k))
  {
    CanonicalResidue(w);
    CanonicalResidue(k);
  }

  /** Columns that meet every equation of a round take the state to the native round's, modulo the prime. */
  lemma RoundForced(scope: RoundScope, c: RoundColumns)
    requires IsScope(scope) && FullLanes(c.input) && RoundHolds(scope, c)
    ensures FullLanes(OutputOf(c))
    ensures ResiduesOf(OutputOf(c)) == RoundOf(scope.full, Values(scope.k), Add(ResiduesOf(c.input), Absorbed(scope)))
  {
    LaneEntered(c.input.x, scope.w0, scope.k.x);
    LaneEntered(c.input.y, scope.w1, scope.k.y);
    LaneEntered(c.input.z, FeltToLimbs(0), scope.k.z);
    LaneForced(c.input.x, scope.w0, scope.k.x, scope.full, c.absorbed.x, c.sbox.x);
    LaneForced(c.input.y, scope.w1, scope.k.y, scope.full, c.absorbed.y, c.sbox.y);
    LaneForced(c.input.z, FeltToLimbs(0), scope.k.z, true, c.absorbed.z, c.sbox.z);
    MixForced(c.sbox.x.p, c.sbox.y.p, c.sbox.z.p, c.t, c.mix.x, c.mix.y, c.mix.z);
  }

  /** With inputs and remainders below the prime the output is the native round. */
  lemma CanonicalRoundForced(scope: RoundScope, c: RoundColumns)
    requires IsScope(scope) && CanonicalLanes(c.input) && IsRound(scope, c)
    ensures CanonicalLanes(OutputOf(c))
    ensures Values(OutputOf(c)) == RoundOf(scope.full, Values(scope.k), Add(Values(c.input), Absorbed(scope)))
  {
    CanonicalResidues(c.input);
    CanonicalResidues(OutputOf(c));
    RoundForced(scope, c);
  }
}
