/**
 * The chain statement of src/poseidon252_air.rs: message padding, sponge, power-of-two layout and the
 * row-by-row trace. Main results: padding is injective; the layout always leaves between 1 and 90 rows over;
 * every trace row is the canonical limbs of the native walk, so consecutive rows link, the anchor row ends in
 * the native sponge state, the last row in the void state, and the state tuples cancel as multisets.
 */
module PoseidonChain {
  import opened Arith
  import opened Hades
  import opened LimbReduction
  import opened PoseidonRound
  import opened PoseidonRows
  import opened Primes
  import opened Wrappers
  import StarkField

  // ----- absorb schedule -----

  datatype Pair = Pair(a: Felt, b: Felt)

  /** Message followed by a one and, to an even length, a zero. */
  function Padded(msg: seq<Felt>): (p: seq<Felt>)
    ensures |p| == 2 * ((|msg| + 2) / 2)
  {
    if |msg| % 2 == 1 then msg + [1] else msg + [1, 0]
  }

  function PairAt(msg: seq<Felt>, i: nat): Pair
    requires i < (|msg| + 2) / 2
  {
    Pair(Padded(msg)[2 * i], Padded(msg)[2 * i + 1])
  }

  function PairsOf(msg: seq<Felt>): (p: seq<Pair>)
    ensures |p| == (|msg| + 2) / 2
  {
    seq((|msg| + 2) / 2, i requires 0 <= i < (|msg| + 2) / 2 => PairAt(msg, i))
  }

  /** The two halves of every pair, one after another. */
  function HalfAt(pairs: seq<Pair>, k: nat): Felt
    requires k < 2 * |pairs|
  {
    if k % 2 == 0 then pairs[k / 2].a else pairs[k / 2].b
  }

  /** Half by half: the message, then a one, then a zero where one half is left. */
  ghost predicate Absorbs(pairs: seq<Pair>, msg: seq<Felt>) {
    && |msg| < 2 * |pairs| <= |msg| + 2
    && forall k: nat :: k < 2 * |pairs| ==> HalfAt(pairs, k) == if k < |msg| then msg[k] else if k == |msg| then 1 else 0
  }

  method AbsorbSchedule(msg: seq<Felt>) returns (pairs: seq<Pair>)
    ensures pairs == PairsOf(msg) && Absorbs(pairs, msg)
  {
    var perms := (|msg| + 2) / 2;
    pairs := [];
    for i := 0 to perms
      invariant |pairs| == i && forall k: nat :: k < i ==> pairs[k] == PairAt(msg, k)
    {
      if 2 * i + 1 < |msg| {
        pairs := pairs + [Pair(msg[2 * i], msg[2 * i + 1])];
      } else if 2 * i < |msg| {
        pairs := pairs + [Pair(msg[2 * i], 1)];
      } else {
        pairs := pairs + [Pair(1, 0)];
      }
    }
    PairsAbsorb(msg);
  }

  lemma PairsAbsorb(msg: seq<Felt>)
    ensures Absorbs(PairsOf(msg), msg)
  {
    var pairs := PairsOf(msg);
    forall k: nat | k < 2 * |pairs|
      ensures HalfAt(pairs, k) == if k < |msg| then msg[k] else if k == |msg| then 1 else 0
    {
      assert pairs[k / 2] == PairAt(msg, k / 2);
      assert HalfAt(pairs, k) == Padded(msg)[k];
    }
  }

  lemma PaddedFromPairs(m: seq<Felt>, n: seq<Felt>, k: nat)
    requires PairsOf(m) == PairsOf(n) && k < |Padded(m)|
    ensures k < |Padded(n)| && Padded(m)[k] == Padded(n)[k]
  {
    assert PairsOf(m)[k / 2] == PairsOf(n)[k / 2];
  }

  /** The last padded element tells whether the message length was odd. */
  lemma UnpadUnique(m: seq<Felt>, n: seq<Felt>)
    requires Padded(m) == Padded(n)
    ensures m == n
  {
    var p := Padded(m);
    assert p[|p| - 1] == |m| % 2 && p[|p| - 1] == |n| % 2;
    assert |m| == |n|;
    assert m == p[..|m|] && n == p[..|m|];
  }

  /** Different messages give different absorb schedules. */
  lemma AbsorbInjective(m: seq<Felt>, n: seq<Felt>)
    requires PairsOf(m) == PairsOf(n)
    ensures m == n
  {
    forall k: nat | k < |Padded(m)| ensures Padded(m)[k] == Padded(n)[k] {
      PaddedFromPairs(m, n, k);
    }
    UnpadUnique(m, n);
  }

  // ----- sponge -----

  /** A permutation applied to a state that has absorbed a pair. */
  type Permutation = (Triple, Pair) -> Triple

  function Absorb(s: Triple, p: Pair): Triple {
    Add(s, Triple(p.a, p.b, 0))
  }

  function Permute(keys: Keys): Permutation {
    (s: Triple, p: Pair) => CompPermute(keys, Absorb(s, p), ROUND_COUNT)
  }

  /** The sponge after n pairs, from any initial state. */
  function SpongeFrom(permute: Permutation, start: Triple, pairs: seq<Pair>, n: nat): Triple
    requires n <= |pairs|
  {
    if n == 0 then start else permute(SpongeFrom(permute, start, pairs, n - 1), pairs[n - 1])
  }

  /** The native sponge, which starts from zero. */
  method Sponge(keys: Keys, pairs: seq<Pair>) returns (s: Triple)
    ensures s == SpongeFrom(Permute(keys), ZERO, pairs, |pairs|)
  {
    var state := new Felt[3](_ => 0);
    for i := 0 to |pairs|
      invariant fresh(state) && Lanes(state) == SpongeFrom(Permute(keys), ZERO, pairs, i)
    {
      AbsorbZero(Lanes(state), pairs[i]);
      state[0] := FAdd(state[0], pairs[i].a);
      state[1] := FAdd(state[1], pairs[i].b);
      PermuteComp(keys, state);
    }
    s := Lanes(state);
  }

  lemma AbsorbZero(s: Triple, p: Pair)
    ensures Absorb(s, p) == Triple(FAdd(s.x, p.a), FAdd(s.y, p.b), s.z)
  {
    AddZero(s.z);
  }

  // ----- layout -----

  const LOG_SIZE_FLOOR: nat := 8

  datatype Layout = Layout(logSize: nat, rows: nat, perms: nat, pad: nat, leftover: nat)

  /** The exponent of the smallest power of two that is at least x. */
  function CeilLog(x: nat, k: nat): (r: nat)
    requires k == 0 || Pow(2, k - 1) < x
    ensures x <= Pow(2, r) && k <= r && (r == 0 || Pow(2, r - 1) < x)
    decreases x - Pow(2, k)
  {
    if x <= Pow(2, k) then k else CeilLog(x, k + 1)
  }

  lemma {:induction false} PowersModSeven(k: nat)
    ensures Pow(2, k) % 7 == 1 || Pow(2, k) % 7 == 2 || Pow(2, k) % 7 == 4
  {
    if k > 0 { PowersModSeven(k - 1); }
  }

  /** 91 never divides a power of two. */
  lemma NeverDivides(k: nat, m: nat)
    ensures Pow(2, k) != ROUND_COUNT * m
  {
    PowersModSeven(k);
    assert ROUND_COUNT * m == 7 * (13 * m);
  }

  function LayoutFor(perms: nat): Layout
    requires perms > 0
  {
    var min := ROUND_COUNT * perms + 1;
    var wanted := (if min < 256 then 256 else min) - 1;
    var ceil := CeilLog(wanted, 0);
    var log := if ceil < LOG_SIZE_FLOOR then LOG_SIZE_FLOOR else ceil;
    LayoutFits(perms, wanted, log);
    var rows := Pow(2, log);
    var pad := (rows - ROUND_COUNT * perms) / ROUND_COUNT;
    Layout(log, rows, perms, pad, rows - ROUND_COUNT * (perms + pad))
  }

  lemma LayoutFits(perms: nat, wanted: nat, log: nat)
    requires wanted >= ROUND_COUNT * perms && wanted <= Pow(2, log)
    ensures ROUND_COUNT * perms < Pow(2, log)
    ensures var pad := (Pow(2, log) - ROUND_COUNT * perms) / ROUND_COUNT; 1 <= Pow(2, log) - ROUND_COUNT * (perms + pad) <= 90
  {
    NeverDivides(log, perms);
    var pad := (Pow(2, log) - ROUND_COUNT * perms) / ROUND_COUNT;
    NeverDivides(log, perms + pad);
  }

  /** The rows are the least power of two, from 256 on, with room for the real permutations. */
  lemma LayoutExact(perms: nat)
    requires perms > 0
    ensures var l := LayoutFor(perms);
      && l.perms == perms && l.rows == Pow(2, l.logSize) && ROUND_COUNT * perms < l.rows
      && l.rows == ROUND_COUNT * (perms + l.pad) + l.leftover && 1 <= l.leftover <= 90
      && l.rows >= 256 && (l.rows == 256 || l.rows <= 2 * (ROUND_COUNT * perms))
  {
    var min := ROUND_COUNT * perms + 1;
    var wanted := (if min < 256 then 256 else min) - 1;
    LayoutFits(perms, wanted, LayoutFor(perms).logSize);
    assert Pow(2, 8) == 256;
    if CeilLog(wanted, 0) > 8 && min < 256 {
      PowMono(2, 8, CeilLog(wanted, 0) - 1);
      assert false;
    }
  }

  // ----- the native walk of the whole trace -----

  const NOTHING: Pair := Pair(0, 0)

  /** What row `row` absorbs: a message pair at the start of a real permutation, nothing elsewhere. */
  function AbsorbedAt(pairs: seq<Pair>, row: nat): Pair {
    var block := row / ROUND_COUNT;
    if row % ROUND_COUNT == 0 && block < |pairs| then pairs[block] else NOTHING
  }

  type RoundStep = (nat, Triple, Pair) -> Triple

  /** Absorb, then round `pos` of the permutation. */
  function StepOf(keys: Keys): RoundStep {
    (pos: nat, s: Triple, p: Pair) => if pos < ROUND_COUNT then CompRound(keys, pos, Absorb(s, p)) else s
  }

  /** The state entering row `row`. */
  function Walk(step: RoundStep, start: Triple, pairs: seq<Pair>, row: nat): Triple {
    if row == 0 then start
    else step((row - 1) % ROUND_COUNT, Walk(step, start, pairs, row - 1), AbsorbedAt(pairs, row - 1))
  }

  /** n rounds from round 0 on, the first of them absorbing a pair. */
  function Rounds(step: RoundStep, s: Triple, p: Pair, n: nat): Triple {
    if n == 0 then s else step(n - 1, Rounds(step, s, p, n - 1), if n == 1 then p else NOTHING)
  }

  lemma AbsorbNothing(s: Triple)
    ensures Absorb(s, NOTHING) == s
  {
    AddZeros(s);
  }

  lemma {:induction false} RoundsPermute(keys: Keys, s: Triple, p: Pair, n: nat)
    requires 0 < n <= ROUND_COUNT
    ensures Rounds(StepOf(keys), s, p, n) == CompPermute(keys, Absorb(s, p), n)
  {
    if n > 1 {
      RoundsPermute(keys, s, p, n - 1);
      AbsorbNothing(CompPermute(keys, Absorb(s, p), n - 1));
    } else {
      assert CompPermute(keys, Absorb(s, p), 0) == Absorb(s, p);
    }
  }

  lemma RowInBlock(block: nat, local: nat)
    requires local < ROUND_COUNT
    ensures (ROUND_COUNT * block + local) / ROUND_COUNT == block && (ROUND_COUNT * block + local) % ROUND_COUNT == local
  {
    DivModUnique(ROUND_COUNT * block + local, ROUND_COUNT, block, local);
  }

  /** What a block absorbs at its first row. */
  function BlockPair(pairs: seq<Pair>, block: nat): Pair {
    if block < |pairs| then pairs[block] else NOTHING
  }

  lemma BlockAbsorbs(pairs: seq<Pair>, block: nat, local: nat)
    requires local < ROUND_COUNT
    ensures AbsorbedAt(pairs, ROUND_COUNT * block + local) == if local == 0 then BlockPair(pairs, block) else NOTHING
  {
    RowInBlock(block, local);
  }

  /** Inside a block the walk is the rounds of one permutation. */
  lemma {:induction false} WalkInBlock(step: RoundStep, start: Triple, pairs: seq<Pair>, block: nat, local: nat, s: Triple)
    requires local <= ROUND_COUNT && s == Walk(step, start, pairs, ROUND_COUNT * block)
    ensures Walk(step, start, pairs, ROUND_COUNT * block + local) == Rounds(step, s, BlockPair(pairs, block), local)
  {
    if local > 0 {
      WalkInBlock(step, start, pairs, block, local - 1, s);
      RowInBlock(block, local - 1);
      BlockAbsorbs(pairs, block, local - 1);
    }
  }

  /** A permutation is the ROUND_COUNT rounds of its steps. */
  ghost predicate Permutes(step: RoundStep, permute: Permutation) {
    forall s, p :: permute(s, p) == Rounds(step, s, p, ROUND_COUNT)
  }

  lemma KeysPermute(keys: Keys)
    ensures Permutes(StepOf(keys), Permute(keys))
  {
    forall s, p ensures Permute(keys)(s, p) == Rounds(StepOf(keys), s, p, ROUND_COUNT) {
      RoundsPermute(keys, s, p, ROUND_COUNT);
    }
  }

  /** A whole block absorbs its pair, if it has one, and permutes. */
  lemma WalkBlock(step: RoundStep, permute: Permutation, start: Triple, pairs: seq<Pair>, block: nat)
    requires Permutes(step, permute)
    ensures Walk(step, start, pairs, ROUND_COUNT * (block + 1))
      == permute(Walk(step, start, pairs, ROUND_COUNT * block), BlockPair(pairs, block))
  {
    WalkInBlock(step, start, pairs, block, ROUND_COUNT, Walk(step, start, pairs, ROUND_COUNT * block));
  }

  /** After b real blocks the walk stands at the sponge after b pairs. */
  lemma {:induction false} WalkIsSponge(step: RoundStep, permute: Permutation, start: Triple, pairs: seq<Pair>, b: nat)
    requires b <= |pairs| && Permutes(step, permute)
    ensures Walk(step, start, pairs, ROUND_COUNT * b) == SpongeFrom(permute, start, pairs, b)
  {
    if b > 0 {
      WalkIsSponge(step, permute, start, pairs, b - 1);
      WalkBlock(step, permute, start, pairs, b - 1);
    }
  }

  /** n whole permutations that absorb nothing. */
  function PadWalk(permute: Permutation, s: Triple, n: nat): Triple {
    if n == 0 then s else permute(PadWalk(permute, s, n - 1), NOTHING)
  }

  lemma {:induction false} WalkPads(step: RoundStep, permute: Permutation, start: Triple, pairs: seq<Pair>, anchor: Triple, n: nat)
    requires Permutes(step, permute) && anchor == Walk(step, start, pairs, ROUND_COUNT * |pairs|)
    ensures Walk(step, start, pairs, ROUND_COUNT * (|pairs| + n)) == PadWalk(permute, anchor, n)
  {
    if n > 0 {
      WalkPads(step, permute, start, pairs, anchor, n - 1);
      WalkBlock(step, permute, start, pairs, |pairs| + (n - 1));
    }
  }

  /** The void state: the anchor, the padding permutations, then the leftover rounds. */
  function VoidState(step: RoundStep, permute: Permutation, anchor: Triple, l: Layout): Triple {
    Rounds(step, PadWalk(permute, anchor, l.pad), NOTHING, l.leftover)
  }

  /** The walk of all rows ends in the void state of its own anchor. */
  lemma WalkEndsVoid(step: RoundStep, permute: Permutation, start: Triple, pairs: seq<Pair>, l: Layout, anchor: Triple)
    requires Permutes(step, permute) && l.leftover <= 90 && l.rows == ROUND_COUNT * (|pairs| + l.pad) + l.leftover
    requires anchor == Walk(step, start, pairs, ROUND_COUNT * |pairs|)
    ensures Walk(step, start, pairs, l.rows) == VoidState(step, permute, anchor, l)
  {
    WalkPads(step, permute, start, pairs, anchor, l.pad);
    WalkInBlock(step, start, pairs, |pairs| + l.pad, l.leftover, PadWalk(permute, anchor, l.pad));
  }

  // ----- the trace -----

  const MAX_MESSAGE: nat := 4096

  datatype Spec = Spec(initial: Triple, message: seq<Felt>)

  /** A row: round position, state in and out, next position, whether the position wraps, and the round's columns. */
  datatype Row = Row(pos: nat, input: Lanes3, output: Lanes3, next: nat, wraps: bool, columns: RoundColumns)

  datatype Trace = Trace(layout: Layout, rows: seq<Row>, muls: seq<Product>, reduces: seq<Reduction>,
                         anchor: Lanes3, void: Lanes3, voidPos: nat)

  function Perms(spec: Spec): (n: nat)
    ensures n > 0
  {
    (|spec.message| + 2) / 2
  }

  /** The native anchor: it does not look at the initial state. */
  function AnchorState(keys: Keys, spec: Spec): Triple {
    var pairs := PairsOf(spec.message);
    SpongeFrom(Permute(keys), ZERO, pairs, |pairs|)
  }

  /** Rows a round contributes to the coprocessors, summed over the first n rows. */
  function MulCount(n: nat): nat {
    if n == 0 then 0 else MulCount(n - 1) + 2 * Nonlinear(IsFull((n - 1) % ROUND_COUNT))
  }

  function ReduceCount(n: nat): nat {
    if n == 0 then 0 else ReduceCount(n - 1) + Nonlinear(IsFull((n - 1) % ROUND_COUNT)) + 3
  }

  method CountRows(n: nat) returns (mul: nat, reduce: nat)
    ensures mul == MulCount(n) && reduce == ReduceCount(n)
  {
    mul, reduce := 0, 0;
    for row := 0 to n
      invariant mul == MulCount(row) && reduce == ReduceCount(row)
    {
      var nonlinear := if IsFull(row % ROUND_COUNT) then 3 else 1;
      mul := mul + 2 * nonlinear;
      reduce := reduce + nonlinear + 3;
    }
  }

  /** The counts the verifier derives from the layout alone. */
  method CoprocessorRowCounts(spec: Spec) returns (mul: nat, reduce: nat)
    ensures mul == MulCount(LayoutFor(Perms(spec)).rows) && reduce == ReduceCount(LayoutFor(Perms(spec)).rows)
  {
    var l := LayoutFor(Perms(spec));
    mul, reduce := CountRows(l.rows);
  }

  /** The scope of a row: its round constants and absorbed words. */
  function ScopeAt(keys: Keys, pairs: seq<Pair>, row: nat): (scope: RoundScope)
    ensures IsScope(scope)
  {
    var pos := row % ROUND_COUNT;
    var w := AbsorbedAt(pairs, row);
    RoundScope(IsFull(pos), LanesOf(RoundConstants(keys, pos)), FeltToLimbs(w.a), FeltToLimbs(w.b))
  }

  lemma ScopeAbsorbs(keys: Keys, pairs: seq<Pair>, row: nat, s: Triple)
    ensures var scope := ScopeAt(keys, pairs, row);
      RoundOf(scope.full, Values(scope.k), Add(s, Absorbed(scope))) == StepOf(keys)(row % ROUND_COUNT, s, AbsorbedAt(pairs, row))
  {
    RoundKeysAgree(keys, row % ROUND_COUNT, Absorb(s, AbsorbedAt(pairs, row)));
  }

  /** The states of a trace, as limbs. */
  type States = nat -> Lanes3

  function StatesOf(keys: Keys, start: Triple, pairs: seq<Pair>): States {
    (row: nat) => LanesOf(Walk(StepOf(keys), start, pairs, row))
  }

  /** A row is right when it takes one state to the next and counts the round. */
  ghost predicate IsRow(states: States, i: nat, r: Row) {
    && r.pos == i % ROUND_COUNT && r.next == (i + 1) % ROUND_COUNT
    && r.input == states(i) && r.output == states(i + 1)
  }

  lemma WalkStep(step: RoundStep, start: Triple, pairs: seq<Pair>, row: nat)
    ensures Walk(step, start, pairs, row + 1) == step(row % ROUND_COUNT, Walk(step, start, pairs, row), AbsorbedAt(pairs, row))
  {
  }

  /** The columns of a row meet their equations over its scope and belong to its states. */
  ghost predicate Recorded(scope: RoundScope, r: Row) {
    && IsRound(scope, r.columns) && r.columns.input == r.input && OutputOf(r.columns) == r.output
    && (r.wraps <==> r.pos == ROUND_COUNT - 1)
  }

  ghost function RowProducts(scope: RoundScope, c: RoundColumns): seq<Product> {
    if IsRound(scope, c) then ProductsOf(scope, c) else []
  }

  ghost function RowReductions(scope: RoundScope, c: RoundColumns): seq<Reduction> {
    if IsRound(scope, c) then ReductionsOf(scope, c) else []
  }

  /** What is recorded of the row at each place: whether it is right, and its coprocessor rows. */
  datatype Records = Records(right: (nat, Row) -> bool, products: (nat, Row) -> seq<Product>, reductions: (nat, Row) -> seq<Reduction>)

  ghost function RecordsOf(keys: Keys, pairs: seq<Pair>): Records {
    Records((i: nat, r: Row) => Recorded(ScopeAt(keys, pairs, i), r),
            (i: nat, r: Row) => RowProducts(ScopeAt(keys, pairs, i), r.columns),
            (i: nat, r: Row) => RowReductions(ScopeAt(keys, pairs, i), r.columns))
  }

  /** What every row contributes, one row after another. */
  ghost function Flat<T>(f: (nat, Row) -> seq<T>, rows: seq<Row>): seq<T> {
    if rows == [] then [] else Flat(f, rows[..|rows| - 1]) + f(|rows| - 1, rows[|rows| - 1])
  }

  lemma FlatStep<T>(f: (nat, Row) -> seq<T>, rows: seq<Row>, r: Row)
    ensures Flat(f, rows + [r]) == Flat(f, rows) + f(|rows|, r)
  {
    assert (rows + [r])[..|rows|] == rows;
  }

  method RoundLimbs(keys: Keys, pairs: seq<Pair>, row: nat, state: Lanes3, ghost s: Triple, ghost next: Triple)
      returns (c: RoundColumns, out: Lanes3, muls: seq<Product>, reduces: seq<Reduction>)
    requires state == LanesOf(s) && next == StepOf(keys)(row % ROUND_COUNT, s, AbsorbedAt(pairs, row))
    ensures out == LanesOf(next) == OutputOf(c) && c.input == state && RoundRows(row, ScopeAt(keys, pairs, row), c, muls, reduces)
  {
    var scope := ScopeAt(keys, pairs, row);
    ScopeAbsorbs(keys, pairs, row, s);
    c, out, muls, reduces := OneRoundWitness(state, scope);
    LanesAre(out);
  }

  lemma NextPos(row: nat)
    ensures (row + 1) % ROUND_COUNT == if row % ROUND_COUNT == ROUND_COUNT - 1 then 0 else row % ROUND_COUNT + 1
  {
  }

  ghost predicate RoundRows(row: nat, scope: RoundScope, c: RoundColumns, muls: seq<Product>, reduces: seq<Reduction>) {
    IsRound(scope, c) && muls == ProductsOf(scope, c) && reduces == ReductionsOf(scope, c) && Exact(row, muls, reduces)
  }

  method BuildRow(keys: Keys, pairs: seq<Pair>, row: nat, state: Lanes3, ghost s: Triple, ghost next: Triple)
      returns (r: Row, muls: seq<Product>, reduces: seq<Reduction>)
    requires state == LanesOf(s) && next == StepOf(keys)(row % ROUND_COUNT, s, AbsorbedAt(pairs, row))
    ensures r.pos == row % ROUND_COUNT && r.input == state && r.output == LanesOf(next) && r.next == (row + 1) % ROUND_COUNT
    ensures Recorded(ScopeAt(keys, pairs, row), r) && RoundRows(row, ScopeAt(keys, pairs, row), r.columns, muls, reduces)
  {
    var c, out;
    c, out, muls, reduces := RoundLimbs(keys, pairs, row, state, s, next);
    var pos := row % ROUND_COUNT;
    NextPos(row);
    var wraps := pos == ROUND_COUNT - 1;
    r := Row(pos, state, out, if wraps then 0 else pos + 1, wraps, c);
  }

  ghost predicate AllRows(states: States, rows: seq<Row>) {
    forall i: nat :: i < |rows| ==> IsRow(states, i, rows[i])
  }

  ghost predicate AllRight(right: (nat, Row) -> bool, rows: seq<Row>) {
    forall i: nat :: i < |rows| ==> right(i, rows[i])
  }

  /** What has been built after some rows. */
  ghost predicate Built(states: States, records: Records, rows: seq<Row>, state: Lanes3, muls: seq<Product>, reduces: seq<Reduction>) {
    && AllRows(states, rows) && state == states(|rows|)
    && AllRight(records.right, rows) && muls == Flat(records.products, rows) && reduces == Flat(records.reductions, rows)
    && AllProducts(muls) && AllReductions(reduces) && |muls| == MulCount(|rows|) && |reduces| == ReduceCount(|rows|)
  }

  /** The rows a round adds to the coprocessors are all exact, and as many as its round type says. */
  ghost predicate Exact(row: nat, muls: seq<Product>, reduces: seq<Reduction>) {
    && AllProducts(muls) && AllReductions(reduces)
    && |muls| == 2 * Nonlinear(IsFull(row % ROUND_COUNT)) && |reduces| == Nonlinear(IsFull(row % ROUND_COUNT)) + 3
  }

  /** A row with its coprocessor rows, as the round at that place makes them. */
  ghost predicate Made(states: States, records: Records, row: nat, r: Row, muls: seq<Product>, reduces: seq<Reduction>) {
    && IsRow(states, row, r) && records.right(row, r)
    && muls == records.products(row, r) && reduces == records.reductions(row, r) && Exact(row, muls, reduces)
  }

  lemma BuiltStep(states: States, records: Records, rows: seq<Row>, state: Lanes3, muls: seq<Product>, reduces: seq<Reduction>,
                  r: Row, m: seq<Product>, d: seq<Reduction>)
    requires Built(states, records, rows, state, muls, reduces) && Made(states, records, |rows|, r, m, d)
    ensures Built(states, records, rows + [r], r.output, muls + m, reduces + d)
  {
    RowsJoin(muls, m, reduces, d);
    FlatStep(records.products, rows, r);
    FlatStep(records.reductions, rows, r);
  }

  lemma BuiltStart(states: States, records: Records, state: Lanes3)
    requires state == states(0)
    ensures Built(states, records, [], state, [], [])
  {
  }

  method NextRow(keys: Keys, start: Triple, pairs: seq<Pair>, row: nat, state: Lanes3, ghost states: States, ghost records: Records)
      returns (r: Row, muls: seq<Product>, reduces: seq<Reduction>)
    requires states == StatesOf(keys, start, pairs) && records == RecordsOf(keys, pairs) && state == states(row)
    ensures Made(states, records, row, r, muls, reduces)
  {
    ghost var s, next := Walk(StepOf(keys), start, pairs, row), Walk(StepOf(keys), start, pairs, row + 1);
    WalkStep(StepOf(keys), start, pairs, row);
    r, muls, reduces := BuildRow(keys, pairs, row, state, s, next);
  }

  method Extend(keys: Keys, start: Triple, pairs: seq<Pair>, rows: seq<Row>, state: Lanes3, muls: seq<Product>, reduces: seq<Reduction>,
                ghost states: States, ghost records: Records)
      returns (rows': seq<Row>, state': Lanes3, muls': seq<Product>, reduces': seq<Reduction>)
    requires states == StatesOf(keys, start, pairs) && records == RecordsOf(keys, pairs) && Built(states, records, rows, state, muls, reduces)
    ensures Built(states, records, rows', state', muls', reduces') && |rows'| == |rows| + 1
  {
    var r, m, d := NextRow(keys, start, pairs, |rows|, state, states, records);
    BuiltStep(states, records, rows, state, muls, reduces, r, m, d);
    rows', state', muls', reduces' := rows + [r], r.output, muls + m, reduces + d;
  }

  method BuildRows(keys: Keys, start: Triple, first: Lanes3, pairs: seq<Pair>, n: nat, ghost states: States, ghost records: Records)
      returns (rows: seq<Row>, state: Lanes3, muls: seq<Product>, reduces: seq<Reduction>)
    requires states == StatesOf(keys, start, pairs) && records == RecordsOf(keys, pairs) && first == states(0)
    ensures |rows| == n && Built(states, records, rows, state, muls, reduces)
  {
    rows, state, muls, reduces := [], first, [], [];
    BuiltStart(states, records, state);
    for row := 0 to n
      invariant |rows| == row && Built(states, records, rows, state, muls, reduces)
    {
      rows, state, muls, reduces := Extend(keys, start, pairs, rows, state, muls, reduces, states, records);
    }
  }

  method PadPermutations(keys: Keys, state: array<Felt>, n: nat)
    requires state.Length == 3
    modifies state
    ensures Lanes(state) == PadWalk(Permute(keys), old(Lanes(state)), n)
  {
    for i := 0 to n
      invariant Lanes(state) == PadWalk(Permute(keys), old(Lanes(state)), i)
    {
      AbsorbNothing(Lanes(state));
      PermuteComp(keys, state);
    }
  }

  method LeftoverRounds(keys: Keys, state: array<Felt>, n: nat)
    requires state.Length == 3 && n <= ROUND_COUNT
    modifies state
    ensures Lanes(state) == Rounds(StepOf(keys), old(Lanes(state)), NOTHING, n)
  {
    for pos := 0 to n
      invariant Lanes(state) == Rounds(StepOf(keys), old(Lanes(state)), NOTHING, pos)
    {
      AbsorbNothing(Lanes(state));
      ApplyRound(keys, state, pos);
    }
  }

  method PadState(keys: Keys, anchor: Triple, l: Layout) returns (s: Triple)
    requires l.leftover <= ROUND_COUNT
    ensures s == VoidState(StepOf(keys), Permute(keys), anchor, l)
  {
    var state := new Felt[3];
    state[0], state[1], state[2] := anchor.x, anchor.y, anchor.z;
    PadPermutations(keys, state, l.pad);
    LeftoverRounds(keys, state, l.leftover);
    s := Lanes(state);
  }

  /** The whole honest trace; only an overlong message is refused. */
  method BuildChainTrace(keys: Keys, spec: Spec) returns (r: Option<Trace>)
    ensures r.None? <==> |spec.message| > 4096
    ensures r.Some? ==> IsTrace(keys, spec, r.value) && IsRecorded(RecordsOf(keys, PairsOf(spec.message)), r.value)
  {
    if |spec.message| > MAX_MESSAGE { return None; }
    var pairs := AbsorbSchedule(spec.message);
    var l := LayoutFor(Perms(spec));
    LayoutExact(Perms(spec));
    var anchor := Sponge(keys, pairs);
    var void := PadState(keys, anchor, l);
    var rows, state, muls, reduces := BuildRows(keys, spec.initial, LanesOf(spec.initial), pairs, l.rows,
                                                StatesOf(keys, spec.initial, pairs), RecordsOf(keys, pairs));
    return Some(Trace(l, rows, muls, reduces, LanesOf(anchor), LanesOf(void), l.leftover % ROUND_COUNT));
  }

  /** What the builder promises: every row follows the native walk, and the scope holds anchor and void. */
  ghost predicate IsTrace(keys: Keys, spec: Spec, t: Trace) {
    var pairs := PairsOf(spec.message);
    && t.layout == LayoutFor(Perms(spec)) && |t.rows| == t.layout.rows
    && AllRows(StatesOf(keys, spec.initial, pairs), t.rows)
    && t.anchor == LanesOf(AnchorState(keys, spec))
    && t.void == LanesOf(VoidState(StepOf(keys), Permute(keys), AnchorState(keys, spec), t.layout))
    && t.voidPos == t.layout.leftover % ROUND_COUNT
    && AllProducts(t.muls) && AllReductions(t.reduces)
    && |t.muls| == MulCount(t.layout.rows) && |t.reduces| == ReduceCount(t.layout.rows)
  }

  /** The columns of every row meet all their equations, and the coprocessor rows are those of the rounds, in order. */
  ghost predicate IsRecorded(records: Records, t: Trace) {
    && AllRight(records.right, t.rows)
    && t.muls == Flat(records.products, t.rows) && t.reduces == Flat(records.reductions, t.rows)
  }

  // ----- what the trace establishes -----

  /** The output and next position of a row are the input and position of the one after it. */
  ghost predicate Follows(rows: seq<Row>, i: nat) {
    i + 1 < |rows| && rows[i].output == rows[i + 1].input && rows[i].next == rows[i + 1].pos
  }

  lemma RowsLink(states: States, rows: seq<Row>, i: nat)
    requires AllRows(states, rows) && i + 1 < |rows|
    ensures Follows(rows, i)
  {
    assert IsRow(states, i, rows[i]) && IsRow(states, i + 1, rows[i + 1]);
  }

  /** A state with its round position, as the relation carries it. */
  datatype Tuple = Tuple(state: Lanes3, pos: nat)

  function Inputs(rows: seq<Row>): multiset<Tuple> {
    multiset(seq(|rows|, i requires 0 <= i < |rows| => Tuple(rows[i].input, rows[i].pos)))
  }

  function Outputs(rows: seq<Row>): multiset<Tuple> {
    multiset(seq(|rows|, i requires 0 <= i < |rows| => Tuple(rows[i].output, rows[i].next)))
  }

  function Node(states: States, i: nat): Tuple {
    Tuple(states(i), i % ROUND_COUNT)
  }

  /** Along a linked trace the tuples telescope: inputs and the last output are outputs and the first input. */
  lemma Telescope(states: States, rows: seq<Row>)
    requires AllRows(states, rows)
    ensures Inputs(rows) + multiset{Node(states, |rows|)} == Outputs(rows) + multiset{Node(states, 0)}
  {
    var n := |rows|;
    var ins := seq(n, i requires 0 <= i < n => Tuple(rows[i].input, rows[i].pos));
    var outs := seq(n, i requires 0 <= i < n => Tuple(rows[i].output, rows[i].next));
    var nodes := seq(n + 1, i requires 0 <= i => Node(states, i));
    forall i: nat | i < n ensures ins[i] == nodes[i] && outs[i] == nodes[i + 1] {
      assert IsRow(states, i, rows[i]);
    }
    Overlap(nodes, ins, outs);
  }

  lemma Overlap<T>(nodes: seq<T>, a: seq<T>, b: seq<T>)
    requires |nodes| == |a| + 1 == |b| + 1 && forall i: nat :: i < |a| ==> a[i] == nodes[i] && b[i] == nodes[i + 1]
    ensures multiset(a) + multiset{nodes[|a|]} == multiset(b) + multiset{nodes[0]}
  {
    assert nodes == a + [nodes[|a|]];
    assert nodes == [nodes[0]] + b;
    assert multiset(a + [nodes[|a|]]) == multiset([nodes[0]] + b);
  }

  lemma LayoutTail(n: nat, l: Layout)
    requires n > 0 && l == LayoutFor(n)
    ensures ROUND_COUNT * n < l.rows && l.rows % ROUND_COUNT == l.leftover == l.leftover % ROUND_COUNT && l.leftover <= 90
    ensures l.rows == ROUND_COUNT * (n + l.pad) + l.leftover
  {
    LayoutExact(n);
    RowInBlock(n + l.pad, l.leftover);
    SmallMod(l.leftover, ROUND_COUNT);
  }

  /** Where the native walk stands at the anchor and at the end. */
  lemma WalkEnds(keys: Keys, step: RoundStep, permute: Permutation, start: Triple, pairs: seq<Pair>, l: Layout)
    requires step == StepOf(keys) && permute == Permute(keys)
    requires l.leftover <= 90 && l.rows == ROUND_COUNT * (|pairs| + l.pad) + l.leftover
    ensures Walk(step, start, pairs, ROUND_COUNT * |pairs|) == SpongeFrom(permute, start, pairs, |pairs|)
    ensures Walk(step, start, pairs, l.rows) == VoidState(step, permute, SpongeFrom(permute, start, pairs, |pairs|), l)
  {
    KeysPermute(keys);
    WalkIsSponge(step, permute, start, pairs, |pairs|);
    WalkEndsVoid(step, permute, start, pairs, l, SpongeFrom(permute, start, pairs, |pairs|));
  }

  /** A linked trace whose states pass through an anchor and end in a void state. */
  lemma Closes(states: States, rows: seq<Row>, n: nat, anchor: Lanes3, void: Lanes3, voidPos: nat)
    requires AllRows(states, rows) && 0 < n < |rows| && states(n) == anchor
    requires states(|rows|) == void && |rows| % ROUND_COUNT == voidPos
    ensures rows[n - 1].output == anchor
    ensures rows[|rows| - 1].output == void && rows[|rows| - 1].next == voidPos
    ensures Inputs(rows) + multiset{Tuple(void, voidPos)} == Outputs(rows) + multiset{Tuple(states(0), 0)}
    ensures forall i: nat :: i + 1 < |rows| ==> Follows(rows, i)
  {
    forall i: nat | i + 1 < |rows| ensures Follows(rows, i) {
      RowsLink(states, rows, i);
    }
    assert IsRow(states, n - 1, rows[n - 1]);
    assert IsRow(states, |rows| - 1, rows[|rows| - 1]);
    Telescope(states, rows);
  }

  /**
   * From a zero initial state, which every hash statement has: consecutive rows link, the anchor row ends in the
   * native sponge state, the last row in the void state, and the in, out, initial and void tuples cancel as multisets.
   */
  lemma TraceCloses(keys: Keys, spec: Spec, t: Trace)
    requires IsTrace(keys, spec, t) && spec.initial == ZERO
    ensures 0 < ROUND_COUNT * Perms(spec) < |t.rows|
    ensures t.rows[ROUND_COUNT * Perms(spec) - 1].output == t.anchor
    ensures t.rows[|t.rows| - 1].output == t.void && t.rows[|t.rows| - 1].next == t.voidPos
    ensures Inputs(t.rows) + multiset{Tuple(t.void, t.voidPos)} == Outputs(t.rows) + multiset{Tuple(LanesOf(ZERO), 0)}
    ensures forall i: nat :: i + 1 < |t.rows| ==> Follows(t.rows, i)
  {
    var pairs := PairsOf(spec.message);
    LayoutTail(|pairs|, t.layout);
    WalkEnds(keys, StepOf(keys), Permute(keys), ZERO, pairs, t.layout);
    Closes(StatesOf(keys, ZERO, pairs), t.rows, ROUND_COUNT * |pairs|, t.anchor, t.void, t.voidPos);
  }

  // ----- a nonzero initial state detaches the anchor -----

  lemma AddInjective(x: Felt, y: Felt, k: Felt)
    requires FAdd(x, k) == FAdd(y, k)
    ensures x == y
  {
    var a := Wrap(x + k, PRIME);
    var b := Wrap(y + k, PRIME);
  }

  lemma AddsInjective(s: Triple, t: Triple, k: Triple)
    requires Add(s, k) == Add(t, k)
    ensures s == t
  {
    AddInjective(s.x, t.x, k.x);
    AddInjective(s.y, t.y, k.y);
    AddInjective(s.z, t.z, k.z);
  }

  /** The mix matrix has determinant 8, which is a unit. */
  lemma MixInjective(s: Triple, t: Triple)
    requires MixOf(s) == MixOf(t)
    ensures s == t
  {
    MixMatrix(s);
    MixMatrix(t);
    Unmix(s.x - t.x, s.y - t.y, s.z - t.z, 3 * s.x + s.y + s.z, 3 * t.x + t.y + t.z, s.x - s.y + s.z, t.x - t.y + t.z,
          s.x + s.y - 2 * s.z, t.x + t.y - 2 * t.z);
  }

  lemma Unmix(dx: int, dy: int, dz: int, a: int, a': int, b: int, b': int, c: int, c': int)
    requires a % PRIME == a' % PRIME && b % PRIME == b' % PRIME && c % PRIME == c' % PRIME
    requires a - a' == 3 * dx + dy + dz && b - b' == dx - dy + dz && c - c' == dx + dy - 2 * dz
    requires -PRIME < dx < PRIME && -PRIME < dy < PRIME && -PRIME < dz < PRIME
    ensures dx == dy == dz == 0
  {
    var i, j, k := a / PRIME - a' / PRIME, b / PRIME - b' / PRIME, c / PRIME - c' / PRIME;
    EightTimes(dx, i + 3 * j + 2 * k);
    EightTimes(dy, 3 * i - 7 * j - 2 * k);
    EightTimes(dz, 2 * i - 2 * j - 4 * k);
  }

  lemma EightTimes(d: int, k: int)
    requires 8 * d == k * PRIME && -PRIME < d < PRIME
    ensures d == 0
  {
    var u := (PRIME - 1) / 8;
    assert PRIME == 8 * u + 1;
    assert k == 8 * (d - k * u);
  }

  /** The nonlinear layer loses nothing: cubing is injective over the Stark field. */
  lemma SboxInjective(full: bool, s: Triple, t: Triple)
    requires Sbox(full, s) == Sbox(full, t)
    ensures s == t
  {
    StarkField.StarkPrime();
    CubeIs(s.z);
    CubeIs(t.z);
    CubeModInjective(s.z, t.z, PRIME);
    if full {
      CubeIs(s.x);
      CubeIs(t.x);
      CubeModInjective(s.x, t.x, PRIME);
      CubeIs(s.y);
      CubeIs(t.y);
      CubeModInjective(s.y, t.y, PRIME);
    }
  }

  lemma RoundInjective(full: bool, k: Triple, s: Triple, t: Triple)
    requires RoundOf(full, k, s) == RoundOf(full, k, t)
    ensures s == t
  {
    MixInjective(Sbox(full, Add(s, k)), Sbox(full, Add(t, k)));
    SboxInjective(full, Add(s, k), Add(t, k));
    AddsInjective(s, t, k);
  }

  lemma CompRoundInjective(keys: Keys, pos: nat, u: Triple, v: Triple)
    requires pos < ROUND_COUNT && CompRound(keys, pos, u) == CompRound(keys, pos, v)
    ensures u == v
  {
    RoundKeysAgree(keys, pos, u);
    RoundKeysAgree(keys, pos, v);
    RoundInjective(IsFull(pos), RoundConstants(keys, pos), u, v);
  }

  /** n steps of an indexed function. */
  function Iterate(f: (nat, Triple) -> Triple, s: Triple, n: nat): Triple {
    if n == 0 then s else f(n - 1, Iterate(f, s, n - 1))
  }

  function RoundFunction(keys: Keys): (nat, Triple) -> Triple {
    (pos: nat, s: Triple) => if pos < ROUND_COUNT then CompRound(keys, pos, s) else s
  }

  lemma {:induction false} IterateIsPermute(keys: Keys, f: (nat, Triple) -> Triple, s: Triple, n: nat)
    requires n <= ROUND_COUNT && f == RoundFunction(keys)
    ensures Iterate(f, s, n) == CompPermute(keys, s, n)
  {
    if n > 0 {
      IterateIsPermute(keys, f, s, n - 1);
      PermuteStep(keys, f, s, n, CompPermute(keys, s, n - 1));
    }
  }

  lemma PermuteStep(keys: Keys, f: (nat, Triple) -> Triple, s: Triple, n: nat, u: Triple)
    requires 0 < n <= ROUND_COUNT && u == CompPermute(keys, s, n - 1) && f == RoundFunction(keys)
    ensures CompPermute(keys, s, n) == f(n - 1, u)
  {
  }

  lemma {:induction false} IterateInjective(f: (nat, Triple) -> Triple, s: Triple, t: Triple, n: nat)
    requires forall i: nat, u, v :: f(i, u) == f(i, v) ==> u == v
    requires Iterate(f, s, n) == Iterate(f, t, n)
    ensures s == t
  {
    if n > 0 { IterateInjective(f, s, t, n - 1); }
  }

  lemma PermuteInjective(keys: Keys, s: Triple, t: Triple, n: nat)
    requires n <= ROUND_COUNT && CompPermute(keys, s, n) == CompPermute(keys, t, n)
    ensures s == t
  {
    var f := RoundFunction(keys);
    IterateIsPermute(keys, f, s, n);
    IterateIsPermute(keys, f, t, n);
    forall i: nat, u, v | f(i, u) == f(i, v) ensures u == v {
      if i < ROUND_COUNT { CompRoundInjective(keys, i, u, v); }
    }
    IterateInjective(f, s, t, n);
  }

  ghost predicate PermutesInjectively(permute: Permutation) {
    forall u, v, p :: permute(u, p) == permute(v, p) ==> u == v
  }

  lemma {:induction false} SpongeInjective(permute: Permutation, s: Triple, t: Triple, pairs: seq<Pair>, n: nat)
    requires PermutesInjectively(permute) && n <= |pairs| && SpongeFrom(permute, s, pairs, n) == SpongeFrom(permute, t, pairs, n)
    ensures s == t
  {
    if n > 0 { SpongeInjective(permute, s, t, pairs, n - 1); }
  }

  lemma KeysInjective(keys: Keys)
    ensures PermutesInjectively(Permute(keys))
  {
    forall u, v, p | Permute(keys)(u, p) == Permute(keys)(v, p) ensures u == v {
      PermuteInjective(keys, Absorb(u, p), Absorb(v, p), ROUND_COUNT);
      AddsInjective(u, v, Triple(p.a, p.b, 0));
    }
  }

  /** The anchor row holds the sponge from the trace's own initial state. */
  lemma AnchorRow(keys: Keys, spec: Spec, t: Trace, pairs: seq<Pair>)
    requires IsTrace(keys, spec, t) && pairs == PairsOf(spec.message)
    ensures |pairs| == Perms(spec) && 0 < ROUND_COUNT * |pairs| < |t.rows|
    ensures t.rows[ROUND_COUNT * |pairs| - 1].output == LanesOf(SpongeFrom(Permute(keys), spec.initial, pairs, |pairs|))
    ensures t.anchor == LanesOf(SpongeFrom(Permute(keys), ZERO, pairs, |pairs|))
  {
    var n := ROUND_COUNT * |pairs|;
    LayoutTail(|pairs|, t.layout);
    WalkEnds(keys, StepOf(keys), Permute(keys), spec.initial, pairs, t.layout);
    assert IsRow(StatesOf(keys, spec.initial, pairs), n - 1, t.rows[n - 1]);
  }

  lemma SameSponge(permute: Permutation, s: Triple, pairs: seq<Pair>, u: Triple, v: Triple)
    requires PermutesInjectively(permute) && u == SpongeFrom(permute, s, pairs, |pairs|) && v == SpongeFrom(permute, ZERO, pairs, |pairs|)
    ensures LanesOf(u) == LanesOf(v) <==> s == ZERO
  {
    if LanesOf(u) == LanesOf(v) {
      assert Values(LanesOf(u)) == Values(LanesOf(v));
      SpongeInjective(permute, s, ZERO, pairs, |pairs|);
    }
  }

  /**
   * The anchor ignores the initial state the trace starts from, so the anchor row meets it exactly when that
   * state is zero.
   */
  lemma AnchorMetIffZero(keys: Keys, spec: Spec, t: Trace)
    requires IsTrace(keys, spec, t)
    ensures 0 < ROUND_COUNT * Perms(spec) < |t.rows|
    ensures t.rows[ROUND_COUNT * Perms(spec) - 1].output == t.anchor <==> spec.initial == ZERO
  {
    var pairs := PairsOf(spec.message);
    AnchorRow(keys, spec, t, pairs);
    KeysInjective(keys);
    SameSponge(Permute(keys), spec.initial, pairs, SpongeFrom(Permute(keys), spec.initial, pairs, |pairs|),
               SpongeFrom(Permute(keys), ZERO, pairs, |pairs|));
  }

  /** A trace that starts from (1, 0, 0) misses the anchor, whatever its message and keys. */
  lemma NonzeroStartMissesAnchor(keys: Keys, spec: Spec, t: Trace)
    requires IsTrace(keys, spec, t) && spec.initial == Triple(1, 0, 0)
    ensures 0 < ROUND_COUNT * Perms(spec) < |t.rows|
    ensures t.rows[ROUND_COUNT * Perms(spec) - 1].output != t.anchor
  {
    AnchorMetIffZero(keys, spec, t);
  }
}
