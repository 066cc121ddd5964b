/** The BLAKE2b mixing function G (section 3.1 of RFC 7693), independent of any trace. */
module Rfc7693 {
  import opened Arith
  import opened Words

  datatype Quad = Quad(a: U64, b: U64, c: U64, d: U64)

  lemma RotRBound(x: U64, r: nat)
    requires r <= 64
    ensures 0 <= RotR(x, r) < W64
  {
    var p, q := Pow(2, r), Pow(2, 64 - r);
    PowAdd(2, r, 64 - r);
    PowBytes(8);
    Pow256Eight();
    RotRSum(x, p, q);
  }

  lemma RotRSum(x: int, p: int, q: int)
    requires 0 < p && 0 < q && 0 <= x < p * q
    ensures 0 <= x / p + (x % p) * q < p * q
  {
    var h, l := x / p, x % p;
    assert x == h * p + l;
    if q <= h { MulMono(p, q, h); assert false; }
    MulMono(q, l, p - 1);
    MulDistribute(p, 1, q);
    MulNonNeg(l, q);
  }

  function Xor64(x: U64, y: U64): U64 {
    XorU64(x, y);
    Xor(64, x, y)
  }

  /** (x ^ y) >>> r */
  function XorRotR(x: U64, y: U64, r: nat): U64
    requires r <= 64
  {
    XorU64(x, y);
    RotRBound(Xor(64, x, y), r);
    RotR(Xor(64, x, y), r)
  }

  /** Addition modulo 2^64. */
  function Plus(x: U64, y: U64, z: U64): U64 {
    (x + y + z) % W64
  }

  /** G with rotation constants R1..R4 = 32, 24, 16, 63. */
  function G(a: U64, b: U64, c: U64, d: U64, x: U64, y: U64): Quad {
    var a1 := Plus(a, b, x);
    var d1 := XorRotR(d, a1, 32);
    var c1 := Plus(c, d1, 0);
    var b1 := XorRotR(b, c1, 24);
    var a2 := Plus(a1, b1, y);
    var d2 := XorRotR(d1, a2, 16);
    var c2 := Plus(c1, d2, 0);
    var b2 := XorRotR(b1, c2, 63);
    Quad(a2, b2, c2, d2)
  }

  // ----- the compression function F (section 3.2), for any mixing function in place of G -----

  type Mixing = (U64, U64, U64, U64, U64, U64) -> Quad

  type State = v: seq<U64> | |v| == 16 witness seq(16, _ => 0)

  /** The message schedule SIGMA (section 2.7). */
  const SIGMA: seq<seq<nat>> := [
    [0, 1, 2, 3, 4, 5, 6, 7, 8, 9, 10, 11, 12, 13, 14, 15],
    [14, 10, 4, 8, 9, 15, 13, 6, 1, 12, 0, 2, 11, 7, 5, 3],
    [11, 8, 12, 0, 5, 2, 15, 13, 10, 14, 3, 6, 7, 1, 9, 4],
    [7, 9, 3, 1, 13, 12, 11, 14, 2, 6, 5, 10, 4, 0, 15, 8],
    [9, 0, 5, 7, 2, 4, 10, 15, 14, 1, 11, 12, 6, 8, 3, 13],
    [2, 12, 6, 10, 0, 11, 8, 3, 4, 13, 7, 5, 15, 14, 1, 9],
    [12, 5, 1, 15, 14, 13, 4, 10, 0, 7, 6, 3, 9, 2, 8, 11],
    [13, 11, 7, 14, 12, 1, 3, 9, 5, 0, 15, 4, 8, 6, 2, 10],
    [6, 15, 14, 9, 11, 3, 0, 8, 12, 2, 13, 7, 1, 4, 10, 5],
    [10, 2, 8, 4, 7, 6, 1, 5, 15, 11, 9, 14, 3, 12, 13, 0]]

  predicate IsSchedule(s: seq<nat>) {
    |s| == 16 && forall i :: 0 <= i < 16 ==> s[i] < 16
  }

  /** v := G(v, a, b, c, d, x, y), the in-place form the RFC uses. */
  type Mixer = (State, nat, nat, nat, nat, U64, U64) -> State

  function MixAt(g: Mixing, v: State, a: nat, b: nat, c: nat, d: nat, x: U64, y: U64): State
    requires a < 16 && b < 16 && c < 16 && d < 16
  {
    var q := g(v[a], v[b], v[c], v[d], x, y);
    v[a := q.a][b := q.b][c := q.c][d := q.d]
  }

  function MixerOf(g: Mixing): Mixer {
    (v: State, a: nat, b: nat, c: nat, d: nat, x: U64, y: U64) =>
      if a < 16 && b < 16 && c < 16 && d < 16 then MixAt(g, v, a, b, c, d, x, y) else v
  }

  /** One round: four column steps, then four diagonal steps. */
  function Round(mix: Mixer, v0: State, m: State, s: seq<nat>): State
    requires IsSchedule(s)
  {
    var v1 := mix(v0, 0, 4, 8, 12, m[s[0]], m[s[1]]);
    var v2 := mix(v1, 1, 5, 9, 13, m[s[2]], m[s[3]]);
    var v3 := mix(v2, 2, 6, 10, 14, m[s[4]], m[s[5]]);
    var v4 := mix(v3, 3, 7, 11, 15, m[s[6]], m[s[7]]);
    var v5 := mix(v4, 0, 5, 10, 15, m[s[8]], m[s[9]]);
    var v6 := mix(v5, 1, 6, 11, 12, m[s[10]], m[s[11]]);
    var v7 := mix(v6, 2, 7, 8, 13, m[s[12]], m[s[13]]);
    mix(v7, 3, 4, 9, 14, m[s[14]], m[s[15]])
  }

  /** The schedule of round i, of which only ten differ. */
  function Sigma(i: nat): (s: seq<nat>)
    ensures IsSchedule(s)
  {
    SIGMA[i % 10]
  }

  type RoundFunction = (State, nat) -> State

  /** Round i on a message. */
  function RoundOf(mix: Mixer, m: State): RoundFunction {
    (v: State, i: nat) => Round(mix, v, m, Sigma(i))
  }

  function Rounds(round: RoundFunction, v: State, n: nat): State {
    if n == 0 then v else round(Rounds(round, v, n - 1), n - 1)
  }

  /** h[i] ^ v[i] ^ v[i + 8], where the local vector started from h in its first half. */
  function Finish(start: State, end: State): (h: seq<U64>)
    ensures |h| == 8
  {
    seq(8, i requires 0 <= i < 8 => Xor64(Xor64(start[i], end[i]), end[i + 8]))
  }

  /** The new chaining value of one block: twelve rounds and the final exclusive or. */
  function Compress(mix: Mixer, v: State, m: State): (h: seq<U64>)
    ensures |h| == 8
  {
    Finish(v, Rounds(RoundOf(mix, m), v, 12))
  }

  /** The mixing function of BLAKE2b. */
  const MIX_G: Mixer := MixerOf(G)
}
