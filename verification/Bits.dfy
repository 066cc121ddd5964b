/** Bits of natural numbers: masks, their unions and intersections, and recomposition from bit columns. */
module Bits {
  import opened Arith

  function Bit(x: nat, i: nat): (b: nat)
    ensures b <= 1
  {
    if i == 0 then x % 2 else Bit(x / 2, i - 1)
  }

  /** Bitwise or of the k low bits. */
  function Or(k: nat, x: nat, y: nat): nat {
    if k == 0 then 0 else (if x % 2 == 1 || y % 2 == 1 then 1 else 0) + 2 * Or(k - 1, x / 2, y / 2)
  }

  /** Bitwise and of the k low bits. */
  function And(k: nat, x: nat, y: nat): nat {
    if k == 0 then 0 else (if x % 2 == 1 && y % 2 == 1 then 1 else 0) + 2 * And(k - 1, x / 2, y / 2)
  }

  lemma {:induction false} OrBit(k: nat, x: nat, y: nat, i: nat)
    requires i < k
    ensures Bit(Or(k, x, y), i) == if Bit(x, i) == 1 || Bit(y, i) == 1 then 1 else 0
  {
    if i > 0 { OrBit(k - 1, x / 2, y / 2, i - 1); }
  }

  lemma {:induction false} OrBound(k: nat, x: nat, y: nat)
    ensures Or(k, x, y) < Pow(2, k)
  {
    if k > 0 { OrBound(k - 1, x / 2, y / 2); }
  }

  lemma {:induction false} AndBit(k: nat, x: nat, y: nat, i: nat)
    requires i < k
    ensures Bit(And(k, x, y), i) == if Bit(x, i) == 1 && Bit(y, i) == 1 then 1 else 0
  {
    if i > 0 { AndBit(k - 1, x / 2, y / 2, i - 1); }
  }

  lemma {:induction false} ZeroBit(i: nat)
    ensures Bit(0, i) == 0
  {
    if i > 0 { ZeroBit(i - 1); }
  }

  /** A number below 2^k has no bits from k on. */
  lemma {:induction false} HighBit(x: nat, k: nat, i: nat)
    requires x < Pow(2, k) && k <= i
    ensures Bit(x, i) == 0
  {
    if k == 0 {
      ZeroBit(i);
    } else {
      HighBit(x / 2, k - 1, i - 1);
    }
  }

  lemma {:induction false} BitsUnique(x: nat, y: nat, k: nat)
    requires x < Pow(2, k) && y < Pow(2, k) && forall i: nat :: i < k ==> Bit(x, i) == Bit(y, i)
    ensures x == y
  {
    if k > 0 {
      assert Bit(x, 0) == Bit(y, 0);
      forall i: nat | i < k - 1 ensures Bit(x / 2, i) == Bit(y / 2, i) {
        assert Bit(x, i + 1) == Bit(y, i + 1);
      }
      BitsUnique(x / 2, y / 2, k - 1);
    }
  }

  lemma {:induction false} AndBound(k: nat, x: nat, y: nat)
    ensures And(k, x, y) < Pow(2, k)
  {
    if k > 0 { AndBound(k - 1, x / 2, y / 2); }
  }

  /** Two masks share no bit exactly when their intersection is zero. */
  ghost predicate Shares(x: nat, y: nat, i: nat) {
    Bit(x, i) == 1 && Bit(y, i) == 1
  }

  lemma Disjoint(k: nat, x: nat, y: nat)
    ensures And(k, x, y) == 0 <==> forall i: nat :: i < k ==> !Shares(x, y, i)
  {
    if And(k, x, y) == 0 {
      forall i: nat | i < k ensures !Shares(x, y, i) {
        AndBit(k, x, y, i);
        ZeroBit(i);
      }
    }
    if forall i: nat :: i < k ==> !Shares(x, y, i) {
      AndBound(k, x, y);
      forall i: nat | i < k ensures Bit(And(k, x, y), i) == Bit(0, i) {
        assert !Shares(x, y, i);
        AndBit(k, x, y, i);
        ZeroBit(i);
      }
      BitsUnique(And(k, x, y), 0, k);
    }
  }

  // ----- bit columns -----

  /** The sum of bits[i] 2^i over i below n. */
  function Weighted(bits: seq<int>, n: nat): int
    requires n <= |bits|
  {
    if n == 0 then 0 else Weighted(bits, n - 1) + bits[n - 1] * Pow(2, n - 1)
  }

  predicate AreBits(bits: seq<int>) {
    forall i :: 0 <= i < |bits| ==> bits[i] == 0 || bits[i] == 1
  }

  function BitsOf(x: nat, n: nat): (b: seq<int>)
    ensures |b| == n && AreBits(b)
  {
    seq(n, i requires 0 <= i => Bit(x, i))
  }

  lemma {:induction false} WeightedLow(bits: seq<int>, n: nat)
    requires 0 < n <= |bits|
    ensures Weighted(bits, n) == bits[0] + 2 * Weighted(bits[1..], n - 1)
  {
    if n > 1 {
      WeightedLow(bits, n - 1);
      assert bits[n - 1] * Pow(2, n - 1) == 2 * (bits[n - 1] * Pow(2, n - 2));
    }
  }

  lemma {:induction false} WeightedIs(bits: seq<int>)
    requires AreBits(bits)
    ensures 0 <= Weighted(bits, |bits|) < Pow(2, |bits|)
    ensures forall i: nat :: i < |bits| ==> Bit(Weighted(bits, |bits|), i) == bits[i]
  {
    if |bits| > 0 {
      var w := Weighted(bits, |bits|);
      WeightedIs(bits[1..]);
      WeightedLow(bits, |bits|);
      forall i: nat | i < |bits| ensures Bit(w, i) == bits[i] {
        if i > 0 { assert Bit(Weighted(bits[1..], |bits| - 1), i - 1) == bits[1..][i - 1]; }
      }
    }
  }

  lemma Recomposes(x: nat, n: nat)
    requires x < Pow(2, n)
    ensures Weighted(BitsOf(x, n), n) == x
  {
    WeightedIs(BitsOf(x, n));
    BitsUnique(Weighted(BitsOf(x, n), n), x, n);
  }

  lemma Determined(bits: seq<int>, x: nat)
    requires AreBits(bits) && Weighted(bits, |bits|) == x
    ensures x < Pow(2, |bits|) && bits == BitsOf(x, |bits|)
  {
    WeightedIs(bits);
  }
}
