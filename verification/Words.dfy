/** 64-bit words as integers, their little-endian bytes, exclusive or and rotation. */
module Words {
  import opened Arith

  const W64: int := 0x1_0000_0000_0000_0000

  type U64 = x: int | 0 <= x < 0x1_0000_0000_0000_0000
  type Byte = x: int | 0 <= x < 256

  ghost predicate IsBytes(b: seq<int>) {
    forall i :: 0 <= i < |b| ==> 0 <= b[i] < 256
  }

  /** Value of a little-endian digit sequence in base 256 (the digits need not be reduced). */
  function LE(b: seq<int>): int {
    if b == [] then 0 else b[0] + 256 * LE(b[1..])
  }

  /** The n low bytes of x, least significant first. */
  function ToLE(x: nat, n: nat): (b: seq<Byte>)
    ensures |b| == n
  {
    if n == 0 then [] else [x % 256] + ToLE(x / 256, n - 1)
  }

  lemma {:induction false} LEBound(b: seq<int>)
    requires IsBytes(b)
    ensures 0 <= LE(b) < Pow(256, |b|)
  {
    if b != [] {
      LEBound(b[1..]);
      assert LE(b) <= 255 + 256 * (Pow(256, |b| - 1) - 1);
    }
  }

  lemma {:induction false} LEToLE(x: nat, n: nat)
    requires x < Pow(256, n)
    ensures LE(ToLE(x, n)) == x
  {
    if n > 0 {
      LEToLE(x / 256, n - 1);
      assert ToLE(x, n)[1..] == ToLE(x / 256, n - 1);
    }
  }

  lemma DigitSplit(d: int, v: int)
    requires 0 <= d < 256
    ensures (d + 256 * v) % 256 == d && (d + 256 * v) / 256 == v
  {
  }

  lemma {:induction false} ToLELE(b: seq<int>)
    requires IsBytes(b)
    ensures 0 <= LE(b) && ToLE(LE(b), |b|) == b
  {
    if b != [] {
      ToLELE(b[1..]);
      DigitSplit(b[0], LE(b[1..]));
      assert b == [b[0]] + b[1..];
    }
  }

  lemma {:induction false} LEConcat(a: seq<int>, b: seq<int>)
    ensures LE(a + b) == LE(a) + Pow(256, |a|) * LE(b)
  {
    if a == [] {
      assert a + b == b;
    } else {
      LEConcat(a[1..], b);
      assert (a + b)[1..] == a[1..] + b;
      MulAssoc(256, Pow(256, |a| - 1), LE(b));
    }
  }

  lemma Pow256Eight()
    ensures Pow(256, 8) == W64
  {
    assert Pow(256, 4) == 0x1_0000_0000;
    PowAdd(256, 4, 4);
  }

  lemma WordBound(b: seq<int>)
    requires |b| == 8 && IsBytes(b)
    ensures 0 <= LE(b) < W64
  {
    LEBound(b);
    Pow256Eight();
  }

  // ----- exclusive or -----

  /** Exclusive or of the k low bits. */
  function Xor(k: nat, a: nat, b: nat): nat
    decreases k, a, b
  {
    if k == 0 then 0 else (a + b) % 2 + 2 * Xor(k - 1, a / 2, b / 2)
  }

  lemma {:induction false} XorBound(k: nat, a: nat, b: nat)
    ensures Xor(k, a, b) < Pow(2, k)
  {
    if k > 0 { XorBound(k - 1, a / 2, b / 2); }
  }

  lemma {:induction false} XorComm(k: nat, a: nat, b: nat)
    ensures Xor(k, a, b) == Xor(k, b, a)
  {
    if k > 0 { XorComm(k - 1, a / 2, b / 2); }
  }

  lemma {:induction false} XorZero(k: nat, a: nat)
    requires a < Pow(2, k)
    ensures Xor(k, a, 0) == a
  {
    if k > 0 { XorZero(k - 1, a / 2); }
  }

  /** Exclusive or works on the low k bits and the next j bits separately. */
  lemma {:induction false} XorSplit(k: nat, j: nat, a: nat, b: nat, x: nat, y: nat)
    requires a < Pow(2, k) && b < Pow(2, k)
    ensures 0 <= Pow(2, k) * x && 0 <= Pow(2, k) * y
    ensures Xor(k + j, a + Pow(2, k) * x, b + Pow(2, k) * y) == Xor(k, a, b) + Pow(2, k) * Xor(j, x, y)
  {
    MulNonNeg(Pow(2, k), x);
    MulNonNeg(Pow(2, k), y);
    if k > 0 {
      var h := Pow(2, k - 1);
      XorSplit(k - 1, j, a / 2, b / 2, x, y);
      MulAssoc(2, h, x);
      MulAssoc(2, h, y);
      MulAssoc(2, h, Xor(j, x, y));
      Halve(a, h * x);
      Halve(b, h * y);
      Halve(a + b, h * x + h * y);
    }
  }

  lemma Halve(a: nat, p: nat)
    ensures (a + 2 * p) / 2 == a / 2 + p && (a + 2 * p) % 2 == a % 2
  {
  }

  /** One byte below words of k bits. */
  lemma XorByteBelow(k: nat, a: nat, b: nat, x: nat, y: nat)
    requires a < 256 && b < 256
    ensures Xor(8 + k, a + 256 * x, b + 256 * y) == Xor(8, a, b) + 256 * Xor(k, x, y) && Xor(8, a, b) < 256
  {
    assert Pow(2, 8) == 256;
    XorSplit(8, k, a, b, x, y);
    XorBound(8, a, b);
  }

  /** c is the bytewise exclusive or of a and b. */
  ghost predicate XorsTo(a: seq<int>, b: seq<int>, c: seq<int>) {
    && |a| == |b| == |c| && IsBytes(a) && IsBytes(b)
    && forall i :: 0 <= i < |c| ==> c[i] == Xor(8, a[i], b[i])
  }

  lemma {:induction false} XorBytes(a: seq<int>, b: seq<int>, c: seq<int>)
    requires XorsTo(a, b, c)
    ensures IsBytes(c) && 0 <= LE(a) && 0 <= LE(b)
    ensures LE(c) == Xor(8 * |a|, LE(a), LE(b))
  {
    LEBound(a);
    LEBound(b);
    if a != [] {
      var x, y := LE(a[1..]), LE(b[1..]);
      XorBytes(a[1..], b[1..], c[1..]);
      XorByteBelow(8 * |a[1..]|, a[0], b[0], x, y);
      assert c == [c[0]] + c[1..];
    }
  }

  lemma XorWords(a: seq<int>, b: seq<int>, c: seq<int>)
    requires |a| == 8 && XorsTo(a, b, c)
    ensures IsBytes(c) && 0 <= LE(a) < W64 && 0 <= LE(b) < W64
    ensures LE(c) == Xor(64, LE(a), LE(b))
  {
    XorBytes(a, b, c);
    WordBound(a);
    WordBound(b);
  }

  lemma XorU64(a: U64, b: U64)
    ensures 0 <= Xor(64, a, b) < W64
  {
    XorBound(64, a, b);
    PowBytes(8);
    Pow256Eight();
  }

  // ----- rotation to the right by r bits (section 2.1 of RFC 7693) -----

  function RotR(x: int, r: nat): int
    requires r <= 64
  {
    x / Pow(2, r) + (x % Pow(2, r)) * Pow(2, 64 - r)
  }

  /** Rotating by k bytes moves the low k bytes to the top. */
  lemma RotRBytes(b: seq<int>, k: nat)
    requires |b| == 8 && IsBytes(b) && k <= 8
    ensures RotR(LE(b), 8 * k) == LE(b[k..] + b[..k])
  {
    var lo, hi := b[..k], b[k..];
    assert lo + hi == b;
    LEConcat(lo, hi);
    LEConcat(hi, lo);
    LEBound(lo);
    RotRWhole(LE(b), k, LE(hi), LE(lo));
  }

  lemma RotRWhole(x: int, k: nat, hi: int, lo: int)
    requires k <= 8 && 0 <= lo < Pow(256, k) && x == lo + Pow(256, k) * hi
    ensures RotR(x, 8 * k) == hi + Pow(256, 8 - k) * lo
  {
    PowBytes(k);
    PowBytes(8 - k);
    RotRParts(x, Pow(256, k), Pow(256, 8 - k), hi, lo);
  }

  lemma PowBytes(k: nat)
    ensures Pow(2, 8 * k) == Pow(256, k)
  {
    assert Pow(2, 8) == 256;
    PowPow(2, 8, k);
  }

  lemma RotRParts(x: int, p: int, q: int, hi: int, lo: int)
    requires 0 < p && 0 <= lo < p && x == lo + p * hi
    ensures x / p + (x % p) * q == hi + q * lo
  {
    assert p * hi == hi * p;
    DivModUnique(x, p, hi, lo);
    assert lo * q == q * lo;
  }

  /** Rotating right by 63 bits doubles and wraps the top bit around. */
  lemma RotR63(z: U64, c: int, out: int)
    requires 0 <= c <= 1 && 0 <= out < W64 && 2 * z + c == out + W64 * c
    ensures out == RotR(z, 63)
  {
    Pow63();
    assert Pow(2, 1) == 2;
    if c == 0 {
      DivModUnique(z, Pow(2, 63), 0, z);
    } else {
      DivModUnique(z, Pow(2, 63), 1, z - Pow(2, 63));
    }
  }

  lemma Pow63()
    ensures Pow(2, 63) == 0x8000_0000_0000_0000
  {
    assert Pow(2, 7) == 128;
    PowPow(2, 7, 9);
    assert Pow(128, 3) == 0x20_0000;
    PowPow(128, 3, 3);
    assert Pow(0x20_0000, 3) == 0x8000_0000_0000_0000;
  }
}
