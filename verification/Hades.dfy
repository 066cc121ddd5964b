/**
 * The Hades-3 permutation of src/poseidon252_air.rs over the Stark field: compressed round keys, rounds in
 * place, the sponge. Main result: for every raw key table, the permutation with compressed keys is the
 * permutation that adds the whole raw key row in every round.
 */
module Hades {
  import opened Arith
  import opened Primes
  import opened LimbReduction

  type Felt = x: int | 0 <= x < 0x0800000000000011000000000000000000000000000000000000000000000001

  function FAdd(x: Felt, y: Felt): Felt { (x + y) % PRIME }
  function FSub(x: Felt, y: Felt): Felt { (x - y) % PRIME }
  function FMul(x: Felt, y: Felt): Felt { (x * y) % PRIME }

  function Cube(x: Felt): Felt { FMul(FMul(x, x), x) }

  lemma CubeIs(x: Felt)
    ensures Cube(x) == CubeMod(x, PRIME)
  {
  }

  datatype Triple = Triple(x: Felt, y: Felt, z: Felt)

  const ZERO: Triple := Triple(0, 0, 0)

  function Add(s: Triple, t: Triple): Triple {
    Triple(FAdd(s.x, t.x), FAdd(s.y, t.y), FAdd(s.z, t.z))
  }

  function MixOf(s: Triple): Triple {
    var t := FAdd(FAdd(s.x, s.y), s.z);
    Triple(FAdd(t, FAdd(s.x, s.x)), FSub(t, FAdd(s.y, s.y)), FSub(t, FMul(3, s.z)))
  }

  // ----- rounds -----

  const HALF: nat := 4       // full rounds before, and after, the partial ones
  const PARTIAL: nat := 83
  const ROUND_COUNT: nat := 91
  const KEY_COUNT: nat := 107

  predicate IsFull(pos: nat) {
    pos < HALF || pos >= HALF + PARTIAL
  }

  function Sbox(full: bool, s: Triple): Triple {
    if full then Triple(Cube(s.x), Cube(s.y), Cube(s.z)) else Triple(s.x, s.y, Cube(s.z))
  }

  /** One round of the permutation with key row k. */
  function RoundOf(full: bool, k: Triple, s: Triple): Triple {
    MixOf(Sbox(full, Add(s, k)))
  }

  /** The reference permutation: every round adds its whole raw key row. */
  function RawPermute(raw: seq<Triple>, s: Triple, n: nat): Triple
    requires n <= |raw|
  {
    if n == 0 then s else RoundOf(IsFull(n - 1), raw[n - 1], RawPermute(raw, s, n - 1))
  }

  type Keys = k: seq<Felt> | |k| == KEY_COUNT witness seq(107, _ => 0)

  function RoundKeyIndex(pos: nat): (i: nat)
    requires pos < ROUND_COUNT
    ensures if IsFull(pos) then i + 3 <= KEY_COUNT else i < KEY_COUNT
  {
    if pos < HALF then 3 * pos
    else if pos < HALF + PARTIAL then 3 * HALF + (pos - HALF)
    else 3 * HALF + PARTIAL + 3 * (pos - HALF - PARTIAL)
  }

  /** The compressed round: a partial round touches lane 2 only. */
  function CompRound(keys: Keys, pos: nat, s: Triple): Triple
    requires pos < ROUND_COUNT
  {
    var i := RoundKeyIndex(pos);
    if IsFull(pos) then
      MixOf(Triple(Cube(FAdd(s.x, keys[i])), Cube(FAdd(s.y, keys[i + 1])), Cube(FAdd(s.z, keys[i + 2]))))
    else
      MixOf(Triple(s.x, s.y, Cube(FAdd(s.z, keys[i]))))
  }

  function CompPermute(keys: Keys, s: Triple, n: nat): Triple
    requires n <= ROUND_COUNT
  {
    if n == 0 then s else CompRound(keys, n - 1, CompPermute(keys, s, n - 1))
  }

  /** The key row of a round as the trace builder arranges it: lanes 0 and 1 are zero in partial rounds. */
  function RoundConstants(keys: Keys, pos: nat): Triple
    requires pos < ROUND_COUNT
  {
    if pos < HALF then Triple(keys[pos * 3], keys[pos * 3 + 1], keys[pos * 3 + 2])
    else if pos < HALF + PARTIAL then Triple(0, 0, keys[3 * HALF + (pos - HALF)])
    else
      var base := 3 * HALF + PARTIAL + 3 * (pos - (HALF + PARTIAL));
      Triple(keys[base], keys[base + 1], keys[base + 2])
  }

  lemma AddZero(x: Felt)
    ensures FAdd(x, 0) == x && FAdd(0, x) == x
  {
  }

  /** The two ways of finding a round's keys agree. */
  lemma RoundKeysAgree(keys: Keys, pos: nat, s: Triple)
    requires pos < ROUND_COUNT
    ensures CompRound(keys, pos, s) == RoundOf(IsFull(pos), RoundConstants(keys, pos), s)
  {
    AddZero(s.x);
    AddZero(s.y);
  }

  // ----- key compression -----

  /** The offset that the raw keys of n partial rounds have left on the state, pushed through the mix. */
  function Offset(raw: seq<Triple>, n: nat): Triple
    requires HALF + n <= |raw|
  {
    if n == 0 then ZERO
    else
      var a := Add(Offset(raw, n - 1), raw[HALF + (n - 1)]);
      MixOf(Triple(a.x, a.y, 0))
  }

  /** What the compressed schedule must hold. */
  ghost predicate Compresses(keys: Keys, raw: seq<Triple>)
    requires |raw| == ROUND_COUNT
  {
    && (forall pos: nat :: pos < HALF ==> RoundConstants(keys, pos) == raw[pos])
    && (forall n: nat :: n < PARTIAL ==> keys[3 * HALF + n] == Add(Offset(raw, n), raw[HALF + n]).z)
    && RoundConstants(keys, HALF + PARTIAL) == Add(Offset(raw, PARTIAL), raw[HALF + PARTIAL])
    && (forall pos: nat :: HALF + PARTIAL < pos < ROUND_COUNT ==> RoundConstants(keys, pos) == raw[pos])
  }

  // ----- linearity of the mix -----

  lemma FAddAssoc(x: Felt, y: Felt, z: Felt)
    ensures FAdd(FAdd(x, y), z) == FAdd(x, FAdd(y, z))
  {
    ReduceTerm(x + y, z, PRIME);
    ReduceTerm(y + z, x, PRIME);
  }

  lemma AddAssoc(s: Triple, t: Triple, u: Triple)
    ensures Add(Add(s, t), u) == Add(s, Add(t, u))
  {
    FAddAssoc(s.x, t.x, u.x);
    FAddAssoc(s.y, t.y, u.y);
    FAddAssoc(s.z, t.z, u.z);
  }

  ghost predicate MixedBy(s: Triple, m: Triple, p: int) {
    && 0 < p && m.x == (3 * s.x + s.y + s.z) % p && m.y == (s.x - s.y + s.z) % p && m.z == (s.x + s.y - 2 * s.z) % p
  }

  /** The program's five additions and subtractions, for any modulus. */
  lemma MixedLanes(s: Triple, m: Triple, t: int, p: int)
    requires 0 < p && t == ((s.x + s.y) % p + s.z) % p
    requires m.x == (t + (s.x + s.x) % p) % p && m.y == (t - (s.y + s.y) % p) % p && m.z == (t - (3 * s.z) % p) % p
    ensures MixedBy(s, m, p)
  {
    MixLanes(s.x, s.y, s.z, p);
  }

  /** The mix as a matrix. */
  lemma MixMatrix(s: Triple)
    ensures MixOf(s).x == (3 * s.x + s.y + s.z) % PRIME
    ensures MixOf(s).y == (s.x - s.y + s.z) % PRIME
    ensures MixOf(s).z == (s.x + s.y - 2 * s.z) % PRIME
  {
    MixedLanes(s, MixOf(s), FAdd(FAdd(s.x, s.y), s.z), PRIME);
  }

  lemma MixLanes(x: int, y: int, z: int, p: int)
    requires 0 < p
    ensures var t := ((x + y) % p + z) % p;
      && (t + (x + x) % p) % p == (3 * x + y + z) % p
      && (t - (y + y) % p) % p == (x - y + z) % p
      && (t - (3 * z) % p) % p == (x + y - 2 * z) % p
  {
    var s, t := x + y + z, (x + y + z) % p;
    ReduceTerm(x + y, z, p);
    MixLane(s, 1, x + x, p);
    MixLane(s, -1, y + y, p);
    MixLane(s, -1, 3 * z, p);
  }

  lemma MixLane(s: int, b: int, x: int, p: int)
    requires 0 < p
    ensures (s % p + b * (x % p)) % p == (s + b * x) % p
  {
    ReduceForm(1, s, b, x, 0, 0, p);
  }

  /** A linear form of sums is the sum of the linear forms. */
  lemma FormOfSums(a: int, x: int, x': int, b: int, y: int, y': int, c: int, z: int, z': int, p: int)
    requires 0 < p
    ensures (a * ((x + x') % p) + b * ((y + y') % p) + c * ((z + z') % p)) % p
      == ((a * x + b * y + c * z) % p + (a * x' + b * y' + c * z') % p) % p
  {
    var f, g := a * x + b * y + c * z, a * x' + b * y' + c * z';
    ReduceForm(a, x + x', b, y + y', c, z + z', p);
    ReduceTerm(f, g % p, p);
    ReduceTerm(g, f, p);
    Distributed(a, x, x', b, y, y', c, z, z');
  }

  lemma Distributed(a: int, x: int, x': int, b: int, y: int, y': int, c: int, z: int, z': int)
    ensures a * (x + x') + b * (y + y') + c * (z + z') == (a * x + b * y + c * z) + (a * x' + b * y' + c * z')
  {
    MulDistribute(x, x', a);
    MulDistribute(y, y', b);
    MulDistribute(z, z', c);
  }

  ghost predicate IsMatrix(f: Triple -> Triple, p: int, s: Triple) {
    FormIs(3, 1, 1, p, s, f(s).x) && FormIs(1, -1, 1, p, s, f(s).y) && FormIs(1, 1, -2, p, s, f(s).z)
  }

  ghost predicate IsSum(add: (Triple, Triple) -> Triple, p: int, s: Triple, t: Triple) {
    0 < p && add(s, t).x == (s.x + t.x) % p && add(s, t).y == (s.y + t.y) % p && add(s, t).z == (s.z + t.z) % p
  }

  ghost predicate FormIs(a: int, b: int, c: int, p: int, s: Triple, f: int) {
    0 < p && f == (a * s.x + b * s.y + c * s.z) % p
  }

  /** A linear form of a sum is the sum of the linear forms, for any modulus. */
  lemma FormAdds(a: int, b: int, c: int, p: int, s: Triple, t: Triple, u: Triple, f: int, g: int, h: int)
    requires FormIs(a, b, c, p, s, f) && FormIs(a, b, c, p, t, g) && FormIs(a, b, c, p, u, h)
    requires u.x == (s.x + t.x) % p && u.y == (s.y + t.y) % p && u.z == (s.z + t.z) % p
    ensures h == (f + g) % p
  {
    FormOfSums(a, s.x, t.x, b, s.y, t.y, c, s.z, t.z, p);
  }

  lemma MatrixLinear(f: Triple -> Triple, add: (Triple, Triple) -> Triple, p: int, s: Triple, t: Triple)
    requires IsMatrix(f, p, s) && IsMatrix(f, p, t) && IsMatrix(f, p, add(s, t))
    requires IsSum(add, p, s, t) && IsSum(add, p, f(s), f(t))
    ensures f(add(s, t)) == add(f(s), f(t))
  {
    var u := add(s, t);
    FormAdds(3, 1, 1, p, s, t, u, f(s).x, f(t).x, f(u).x);
    FormAdds(1, -1, 1, p, s, t, u, f(s).y, f(t).y, f(u).y);
    FormAdds(1, 1, -2, p, s, t, u, f(s).z, f(t).z, f(u).z);
  }

  lemma AddIsSum(s: Triple, t: Triple)
    ensures IsSum(Add, PRIME, s, t)
  {
  }

  lemma MixIsMatrix(s: Triple)
    ensures IsMatrix(MixOf, PRIME, s)
  {
    MixMatrix(s);
  }

  lemma MixLinear(s: Triple, t: Triple)
    ensures MixOf(Add(s, t)) == Add(MixOf(s), MixOf(t))
  {
    MixIsMatrix(s);
    MixIsMatrix(t);
    MixIsMatrix(Add(s, t));
    AddIsSum(s, t);
    AddIsSum(MixOf(s), MixOf(t));
    MatrixLinear(MixOf, Add, PRIME, s, t);
  }

  // ----- compressed keys compute the raw permutation -----

  /** What the raw state is, relative to the compressed one, after n rounds. */
  ghost predicate Tracks(keys: Keys, raw: seq<Triple>, s: Triple, n: nat)
    requires n <= |raw| == ROUND_COUNT
  {
    RawPermute(raw, s, n)
      == if HALF <= n <= HALF + PARTIAL then Add(CompPermute(keys, s, n), Offset(raw, n - HALF)) else CompPermute(keys, s, n)
  }

  lemma AddZeros(s: Triple)
    ensures Add(s, ZERO) == s
  {
    AddZero(s.x);
    AddZero(s.y);
    AddZero(s.z);
  }

  /** A partial round moves an offset past the S-box: lane 2 of it joins the key, the rest is mixed. */
  lemma PartialRound(s: Triple, offset: Triple, k: Triple, a: Triple)
    requires a == Add(offset, k)
    ensures RoundOf(false, k, Add(s, offset)) == Add(MixOf(Triple(s.x, s.y, Cube(FAdd(s.z, a.z)))), MixOf(Triple(a.x, a.y, 0)))
  {
    AddAssoc(s, offset, k);
    var c := Cube(FAdd(s.z, a.z));
    AddZero(c);
    MixLinear(Triple(s.x, s.y, c), Triple(a.x, a.y, 0));
  }

  /** A full round whose key holds the offset absorbs it. */
  lemma FullRound(s: Triple, offset: Triple, k: Triple)
    ensures RoundOf(true, k, Add(s, offset)) == RoundOf(true, Add(offset, k), s)
  {
    AddAssoc(s, offset, k);
  }

  lemma TracksStep(keys: Keys, raw: seq<Triple>, s: Triple, n: nat)
    requires |raw| == ROUND_COUNT && n < ROUND_COUNT && Compresses(keys, raw) && Tracks(keys, raw, s, n)
    ensures Tracks(keys, raw, s, n + 1)
  {
    var c := CompPermute(keys, s, n);
    RoundKeysAgree(keys, n, c);
    if n < HALF {
      if n + 1 == HALF { AddZeros(CompPermute(keys, s, n + 1)); }
    } else if n < HALF + PARTIAL {
      var offset := Offset(raw, n - HALF);
      PartialRound(c, offset, raw[n], Add(offset, raw[n]));
      assert keys[3 * HALF + (n - HALF)] == Add(offset, raw[HALF + (n - HALF)]).z;
    } else if n == HALF + PARTIAL {
      FullRound(c, Offset(raw, PARTIAL), raw[n]);
    }
  }

  lemma {:induction false} TracksAll(keys: Keys, raw: seq<Triple>, s: Triple, n: nat)
    requires |raw| == ROUND_COUNT && n <= ROUND_COUNT && Compresses(keys, raw)
    ensures Tracks(keys, raw, s, n)
  {
    if n > 0 {
      TracksAll(keys, raw, s, n - 1);
      TracksStep(keys, raw, s, n - 1);
    }
  }

  /** For every raw key table and every state the compressed permutation is the raw one. */
  lemma CompressedIsRaw(keys: Keys, raw: seq<Triple>, s: Triple)
    requires |raw| == ROUND_COUNT && Compresses(keys, raw)
    ensures CompPermute(keys, s, ROUND_COUNT) == RawPermute(raw, s, ROUND_COUNT)
  {
    TracksAll(keys, raw, s, ROUND_COUNT);
  }

  // ----- the program, updating three lanes in place -----

  function Lanes(a: array<Felt>): Triple
    reads a
    requires a.Length == 3
  {
    Triple(a[0], a[1], a[2])
  }

  method Mix(state: array<Felt>)
    requires state.Length == 3
    modifies state
    ensures Lanes(state) == MixOf(old(Lanes(state)))
  {
    var t := FAdd(FAdd(state[0], state[1]), state[2]);
    state[0] := FAdd(t, FAdd(state[0], state[0]));
    state[1] := FSub(t, FAdd(state[1], state[1]));
    state[2] := FSub(t, FMul(3, state[2]));
  }

  method ApplyRound(keys: Keys, state: array<Felt>, pos: nat)
    requires state.Length == 3 && pos < ROUND_COUNT
    modifies state
    ensures Lanes(state) == CompRound(keys, pos, old(Lanes(state)))
  {
    var i := RoundKeyIndex(pos);
    if IsFull(pos) {
      state[0] := FAdd(state[0], keys[i]);
      state[1] := FAdd(state[1], keys[i + 1]);
      state[2] := FAdd(state[2], keys[i + 2]);
      state[0] := Cube(state[0]);
      state[1] := Cube(state[1]);
      state[2] := Cube(state[2]);
    } else {
      state[2] := FAdd(state[2], keys[i]);
      state[2] := Cube(state[2]);
    }
    Mix(state);
  }

  method PermuteComp(keys: Keys, state: array<Felt>)
    requires state.Length == 3
    modifies state
    ensures Lanes(state) == CompPermute(keys, old(Lanes(state)), ROUND_COUNT)
  {
    for pos := 0 to ROUND_COUNT
      invariant Lanes(state) == CompPermute(keys, old(Lanes(state)), pos)
    {
      ApplyRound(keys, state, pos);
    }
  }

  // ----- building the compressed schedule -----

  /** The rows of `raw` from `start` on, laid out three keys a row. */
  ghost predicate RowsAt(out: seq<Felt>, base: nat, raw: seq<Triple>, start: nat, n: nat) {
    && base + 3 * n <= |out| && start + n <= |raw|
    && forall i: nat :: i < n ==> RowAt(out, base + 3 * i, raw[start + i])
  }

  ghost predicate RowAt(out: seq<Felt>, at: nat, row: Triple) {
    at + 3 <= |out| && out[at] == row.x && out[at + 1] == row.y && out[at + 2] == row.z
  }

  method AppendRows(out: seq<Felt>, raw: seq<Triple>, start: nat, n: nat) returns (r: seq<Felt>)
    requires start + n <= |raw|
    ensures |r| == |out| + 3 * n && out <= r && RowsAt(r, |out|, raw, start, n)
  {
    r := out;
    for i := 0 to n
      invariant |r| == |out| + 3 * i && out <= r && RowsAt(r, |out|, raw, start, i)
    {
      var row := raw[start + i];
      ghost var before := r;
      r := r + [row.x, row.y, row.z];
      forall k: nat | k < i ensures RowAt(r, |out| + 3 * k, raw[start + k]) {
        assert RowAt(before, |out| + 3 * k, raw[start + k]);
      }
    }
  }

  /** Add a raw key row to the offset, hand out its lane 2 and push the rest through the mix. */
  method TakeKey(acc: array<Felt>, row: Triple) returns (key: Felt)
    requires acc.Length == 3
    modifies acc
    ensures key == Add(old(Lanes(acc)), row).z
    ensures Lanes(acc) == MixOf(Triple(Add(old(Lanes(acc)), row).x, Add(old(Lanes(acc)), row).y, 0))
  {
    acc[0] := FAdd(acc[0], row.x);
    acc[1] := FAdd(acc[1], row.y);
    acc[2] := FAdd(acc[2], row.z);
    key := acc[2];
    acc[2] := 0;
    Mix(acc);
  }

  lemma OffsetNext(raw: seq<Triple>, n: nat, before: Triple, after: Triple)
    requires HALF + n < |raw| && before == Offset(raw, n)
    requires after == MixOf(Triple(Add(before, raw[HALF + n]).x, Add(before, raw[HALF + n]).y, 0))
    ensures after == Offset(raw, n + 1)
  {
  }

  /** The lane-2 keys of the partial rounds, and the offset they leave. */
  method PartialKeys(out: seq<Felt>, raw: seq<Triple>) returns (r: seq<Felt>, offset: Triple)
    requires |raw| == ROUND_COUNT
    ensures |r| == |out| + PARTIAL && out <= r && offset == Offset(raw, PARTIAL)
    ensures forall n: nat :: n < PARTIAL ==> r[|out| + n] == Add(Offset(raw, n), raw[HALF + n]).z
  {
    r := out;
    var acc := new Felt[3](_ => 0);
    for n := 0 to PARTIAL
      invariant |r| == |out| + n && out <= r && fresh(acc) && Lanes(acc) == Offset(raw, n)
      invariant forall k: nat :: k < n ==> r[|out| + k] == Add(Offset(raw, k), raw[HALF + k]).z
    {
      ghost var before := Lanes(acc);
      var key := TakeKey(acc, raw[HALF + n]);
      OffsetNext(raw, n, before, Lanes(acc));
      r := r + [key];
    }
    offset := Lanes(acc);
  }

  lemma RowIsConstants(keys: Keys, pos: nat, row: Triple)
    requires pos < ROUND_COUNT && IsFull(pos) && RowAt(keys, RoundKeyIndex(pos), row)
    ensures RoundConstants(keys, pos) == row
  {
  }

  /** The compressed schedule of any raw table. */
  method CompressedRoundKeys(raw: seq<Triple>) returns (keys: Keys)
    requires |raw| == ROUND_COUNT
    ensures Compresses(keys, raw)
    ensures forall s :: CompPermute(keys, s, ROUND_COUNT) == RawPermute(raw, s, ROUND_COUNT)
  {
    var head := AppendRows([], raw, 0, HALF);
    var body, offset := PartialKeys(head, raw);
    var tail := HALF + PARTIAL;
    var first := Add(offset, raw[tail]);
    var joint := body + [first.x, first.y, first.z];
    keys := AppendRows(joint, raw, tail + 1, HALF - 1);
    CompressedShape(keys, raw, head, body, joint, first);
    CompressedEverywhere(keys, raw);
  }

  lemma CompressedEverywhere(keys: Keys, raw: seq<Triple>)
    requires |raw| == ROUND_COUNT && Compresses(keys, raw)
    ensures forall s :: CompPermute(keys, s, ROUND_COUNT) == RawPermute(raw, s, ROUND_COUNT)
  {
    forall s ensures CompPermute(keys, s, ROUND_COUNT) == RawPermute(raw, s, ROUND_COUNT) {
      CompressedIsRaw(keys, raw, s);
    }
  }

  lemma CompressedShape(keys: Keys, raw: seq<Triple>, head: seq<Felt>, body: seq<Felt>, joint: seq<Felt>, first: Triple)
    requires |raw| == ROUND_COUNT && head <= body <= joint <= keys
    requires |head| == 3 * HALF && RowsAt(head, 0, raw, 0, HALF)
    requires |body| == 3 * HALF + PARTIAL && forall n: nat :: n < PARTIAL ==> body[|head| + n] == Add(Offset(raw, n), raw[HALF + n]).z
    requires first == Add(Offset(raw, PARTIAL), raw[HALF + PARTIAL]) && joint == body + [first.x, first.y, first.z]
    requires RowsAt(keys, |joint|, raw, HALF + PARTIAL + 1, HALF - 1)
    ensures Compresses(keys, raw)
  {
    forall pos: nat | pos < HALF ensures RoundConstants(keys, pos) == raw[pos] {
      assert RowAt(head, 0 + 3 * pos, raw[0 + pos]);
      RowIsConstants(keys, pos, raw[pos]);
    }
    RowIsConstants(keys, HALF + PARTIAL, first);
    forall pos: nat | HALF + PARTIAL < pos < ROUND_COUNT ensures RoundConstants(keys, pos) == raw[pos] {
      var i := pos - (HALF + PARTIAL + 1);
      assert RowAt(keys, |joint| + 3 * i, raw[HALF + PARTIAL + 1 + i]);
      RowIsConstants(keys, pos, raw[pos]);
    }
  }
}
