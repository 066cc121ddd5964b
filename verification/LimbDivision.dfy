/** Binary long division on limbs (bigu::div_rem of src/poseidon252_air.rs). */
module LimbDivision {
  import opened Arith
  import opened Limbs

  // ----- bits of limb sequences -----

  lemma PowBits(k: nat, b: nat)
    ensures Pow(2, 16 * k + b) == Pow(B, k) * Pow(2, b)
  {
    PowAdd(2, 16 * k, b);
    assert Pow(2, 16) == B by { assert Pow(2, 8) == 256; PowAdd(2, 8, 8); }
    PowPow(2, 16, k);
  }

  /** A limb sequence cut at limb k: what is below, the limb, what is above. */
  lemma Cut(a: seq<int>, k: nat) returns (low: int, hi: int)
    requires IsLimbs(a) && k < |a|
    ensures 0 <= low < Pow(B, k) && 0 <= hi && Val(a) == low + Pow(B, k) * (a[k] + B * hi)
  {
    var f := Dig(a);
    low, hi := Poly(f, k), High(f, k + 1, |a|);
    PolyBound(f, k);
    PolyHigh(f, k, |a|);
    HighStep(f, k, |a|);
    HighNonNeg(f, k + 1, |a|);
    CutValue(low, a[k] + B * hi, k);
  }

  lemma CutValue(low: int, x: int, k: nat)
    ensures Shift(1, k) == Pow(B, k) && low + Shift(x, k) == low + Pow(B, k) * x
  {
    ShiftIs(x, k);
    ShiftIs(1, k);
  }

  lemma LowDiv(low: int, p: int, x: int)
    requires 0 <= low < p
    ensures (low + p * x) / p == x
  {
    DivModUnique(low + p * x, p, x, low);
  }

  /** For d = 2^b below the limb width, the bits above a limb do not disturb its bit b. */
  lemma BitInLimb(x: int, hi: int, d: int, e: int)
    requires 0 < d && 0 < e && d * (2 * e) == B
    ensures ((x + B * hi) / d) % 2 == (x / d) % 2
  {
    assert B * hi == (2 * e * hi) * d;
    ModAddMultiple(x, 2 * e * hi, d);
    assert x / d + 2 * e * hi == x / d + (e * hi) * 2;
    ModAddMultiple(x / d, e * hi, 2);
  }

  lemma HalfWidth(b: nat)
    requires b < 16
    ensures Pow(2, b) * (2 * Pow(2, 15 - b)) == B
  {
    PowAdd(2, b, 15 - b);
    assert Pow(2, 15) == 0x8000 by { assert Pow(2, 8) == 256; PowAdd(2, 8, 7); }
    assert Pow(2, b) * (2 * Pow(2, 15 - b)) == 2 * (Pow(2, b) * Pow(2, 15 - b));
  }

  /** Bit i of the value is bit i % 16 of limb i / 16. */
  lemma BitOf(a: seq<int>, k: nat, b: nat)
    requires IsLimbs(a) && k < |a| && b < 16
    ensures (Val(a) / Pow(2, 16 * k + b)) % 2 == (a[k] / Pow(2, b)) % 2
  {
    var low, hi := Cut(a, k);
    PowBits(k, b);
    DivDiv(Val(a), Pow(B, k), Pow(2, b));
    LowDiv(low, Pow(B, k), a[k] + B * hi);
    HalfWidth(b);
    BitInLimb(a[k], hi, Pow(2, b), Pow(2, 15 - b));
  }

  /** x | 1 << b */
  function SetBit(x: int, b: nat): int {
    if (x / Pow(2, b)) % 2 == 1 then x else x + Pow(2, b)
  }

  lemma SetBitFits(x: int, d: int, e: int)
    requires 0 <= x < B && 0 < d && 0 < e && d * (2 * e) == B && (x / d) % 2 == 0
    ensures x + d < B
  {
    var m := (x / d) / 2;
    assert x == (2 * m) * d + x % d;
    if m >= e {
      MulMono(d, 2 * e, 2 * m);
      assert false;
    }
    MulMono(2 * d, m + 1, e);
    assert (2 * m) * d + 2 * d == (2 * d) * (m + 1);
    assert (2 * d) * e == d * (2 * e);
    if x + d >= B {
      Parity(x, d, m, e);
      assert false;
    }
  }

  lemma Parity(x: int, d: int, m: int, e: int)
    requires 0 < d && x == (2 * m) * d + x % d
    ensures x + d < (2 * m + 2) * d
  {
    assert (2 * m + 2) * d == (2 * m) * d + 2 * d;
  }

  /** Setting a clear bit of the quotient adds its weight. */
  lemma SetBitValue(q: seq<int>, k: nat, b: nat, m: int)
    requires IsLimbs(q) && k < |q| && b < 16 && Val(q) == m * Pow(2, 16 * k + b) && m % 2 == 0
    ensures IsLimbs(q[k := SetBit(q[k], b)])
    ensures Val(q[k := SetBit(q[k], b)]) == (m + 1) * Pow(2, 16 * k + b)
  {
    var d := Pow(2, b);
    ModOfMultiple(m, Pow(2, 16 * k + b));
    BitOf(q, k, b);
    HalfWidth(b);
    SetBitFits(q[k], d, Pow(2, 15 - b));
    Bump(q, k, d);
    ShiftIs(d, k);
    PowBits(k, b);
    MulDistribute(m, 1, Pow(2, 16 * k + b));
  }

  // ----- the remainder's shift -----

  function Doubled(r: seq<int>): nat -> int {
    (i: nat) => 2 * At(r, i)
  }

  /** Every limb moves one bit up and takes the bit that left the limb below. */
  method ShiftLeft(r: seq<int>) returns (out: seq<int>)
    requires IsLimbs(r) && |r| > 0 && 2 * Val(r) < Shift(1, |r|)
    ensures |out| == |r| && IsLimbs(out) && Val(out) == 2 * Val(r) && out[0] % 2 == 0
  {
    out := [];
    var carry := 0;
    ghost var f := Doubled(r);
    BalancedStart(f);
    for i := 0 to |r|
      invariant |out| == i && IsLimbs(out) && 0 <= carry <= 1 && (i == 0 ==> carry == 0) && (i > 0 ==> out[0] % 2 == 0)
      invariant Balanced(out, carry, f)
    {
      var next := r[i] / 0x8000;
      var limb := (2 * r[i]) % B + carry;
      BalancedStep(out, carry, f, limb, next);
      out, carry := out + [limb], next;
    }
    PolyTwice(f, Dig(r), |r|);
    ValBound(out);
    if carry == 1 { assert false; }
    ShiftZero(|r|);
  }

  lemma {:induction false} PolyTwice(f: nat -> int, d: nat -> int, n: nat)
    requires forall i: nat :: i < n ==> f(i) == 2 * d(i)
    ensures Poly(f, n) == 2 * Poly(d, n)
  {
    if n > 0 {
      PolyTwice(f, d, n - 1);
      ShiftTimes(2, d(n - 1), n - 1);
    }
  }

  /** The lowest bit, set where it is clear. */
  lemma LowBit(r: seq<int>)
    requires IsLimbs(r) && |r| > 0 && r[0] % 2 == 0
    ensures SetBit(r[0], 0) == r[0] + 1 && IsLimbs(r[0 := r[0] + 1]) && Val(r[0 := r[0] + 1]) == Val(r) + 1
  {
    Bump(r, 0, 1);
  }

  // ----- division -----

  /** Dropping one bit fewer doubles the number and brings in the next bit. */
  lemma NextBit(v: nat, i: nat)
    ensures v / Pow(2, i) == 2 * (v / Pow(2, i + 1)) + (v / Pow(2, i)) % 2
  {
    DivDiv(v, Pow(2, i), 2);
    assert Pow(2, i) * 2 == Pow(2, i + 1);
  }

  /** Room for the doubled remainder in one limb more than the divisor. */
  lemma RoomToDouble(r: seq<int>, p: seq<int>)
    requires IsLimbs(p) && |r| == |p| + 1 && Val(r) < Val(p)
    ensures 2 * Val(r) + 1 < Shift(1, |r|)
  {
    ValBound(p);
  }

  /** The remainder after taking in one more bit, and whether the divisor was subtracted. */
  method Step(r: seq<int>, p: seq<int>, bit: int) returns (out: seq<int>, took: bool)
    requires IsLimbs(r) && IsLimbs(p) && |r| == |p| + 1 && Val(r) < Val(p) && 0 <= bit <= 1
    ensures IsLimbs(out) && |out| == |r| && Val(out) < Val(p)
    ensures 2 * Val(r) + bit == Val(out) + if took then Val(p) else 0
  {
    RoomToDouble(r, p);
    out := ShiftLeft(r);
    if bit == 1 {
      LowBit(out);
      out := out[0 := SetBit(out[0], 0)];
    }
    var o := Cmp(out, p);
    took := false;
    if o != Less {
      var bw;
      out, bw := SubWitness(out, p);
      took := true;
    }
  }

  /** The state of the division with i bits to come. */
  ghost predicate Dividing(y: seq<int>, p: seq<int>, q: seq<int>, r: seq<int>, i: nat, m: nat) {
    && IsLimbs(q) && |q| == |y| && IsLimbs(r) && |r| == |p| + 1 && Val(r) < Val(p)
    && Val(q) == m * Pow(2, i) && Val(y) / Pow(2, i) == m * Val(p) + Val(r)
  }

  lemma DivideStep(y: seq<int>, p: seq<int>, q: seq<int>, r: seq<int>, i: nat, m: nat, bit: int, r': seq<int>, took: bool)
    requires IsLimbs(y) && i < 16 * |y| && Dividing(y, p, q, r, i + 1, m)
    requires bit == (y[i / 16] / Pow(2, i % 16)) % 2
    requires IsLimbs(r') && |r'| == |r| && Val(r') < Val(p) && 2 * Val(r) + bit == Val(r') + if took then Val(p) else 0
    ensures took ==> Dividing(y, p, q[i / 16 := SetBit(q[i / 16], i % 16)], r', i, 2 * m + 1)
    ensures !took ==> Dividing(y, p, q, r', i, 2 * m)
  {
    BitTaken(y, i, bit);
    DivideArith(m, Pow(2, i), Val(p));
    if took { SetBitValue(q, i / 16, i % 16, 2 * m); }
  }

  lemma BitTaken(y: seq<int>, i: nat, bit: int)
    requires IsLimbs(y) && i < 16 * |y| && bit == (y[i / 16] / Pow(2, i % 16)) % 2
    ensures Val(y) / Pow(2, i) == 2 * (Val(y) / Pow(2, i + 1)) + bit
  {
    ValBound(y);
    BitOf(y, i / 16, i % 16);
    NextBit(Val(y), i);
  }

  lemma DivideArith(m: int, d: int, p: int)
    ensures m * (2 * d) == (2 * m) * d && (2 * m) * p == 2 * (m * p) && (2 * m + 1) * p == 2 * (m * p) + p
  {
  }

  lemma DivideStart(y: seq<int>, p: seq<int>, q: seq<int>, r: seq<int>)
    requires IsLimbs(y) && Val(p) > 0 && q == seq(|y|, _ => 0) && r == seq(|p| + 1, _ => 0)
    ensures Dividing(y, p, q, r, 16 * |y|, 0)
  {
    PolyZeros(Dig(q), 0, |q|);
    PolyZeros(Dig(r), 0, |r|);
    ValBound(y);
    ShiftIs(1, |y|);
    PowBits(|y|, 0);
    SmallMod(Val(y), Pow(2, 16 * |y|));
  }

  /** Quotient and remainder of any value by any nonzero divisor. */
  method DivRem(y: seq<int>, p: seq<int>) returns (q: seq<int>, r: seq<int>)
    requires IsLimbs(y) && IsLimbs(p) && exists i :: 0 <= i < |p| && p[i] != 0
    ensures IsLimbs(q) && |q| == |y| && IsLimbs(r) && |r| == |p| + 1
    ensures Val(y) == Val(q) * Val(p) + Val(r) && 0 <= Val(r) < Val(p)
  {
    PositiveValue(p);
    q, r := seq(|y|, _ => 0), seq(|p| + 1, _ => 0);
    DivideStart(y, p, q, r);
    var i := 16 * |y|;
    ghost var m: nat := 0;
    while i > 0
      invariant 0 <= i <= 16 * |y| && Dividing(y, p, q, r, i, m)
    {
      i := i - 1;
      var bit := (y[i / 16] / Pow(2, i % 16)) % 2;
      var r', took := Step(r, p, bit);
      DivideStep(y, p, q, r, i, m, bit, r', took);
      if took {
        q := q[i / 16 := SetBit(q[i / 16], i % 16)];
      }
      r, m := r', if took then 2 * m + 1 else 2 * m;
    }
    ValBound(r);
  }

  lemma PositiveValue(p: seq<int>)
    requires IsLimbs(p) && exists i :: 0 <= i < |p| && p[i] != 0
    ensures Val(p) > 0
  {
    var i: nat :| i < |p| && p[i] != 0;
    var low, hi := Cut(p, i);
    MulNonNeg(B, hi);
    MulStrictMono(Pow(B, i), 0, p[i] + B * hi);
  }
}
