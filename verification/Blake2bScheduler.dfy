/**
 * The compression scheduler (src/blake2b_lookup_compression.rs): 96 rows per block, each taking one G call
 * from the 16-word state to its successor, with a final row that closes the chaining value by XOR lookups.
 * Columns are grouped by word. Rows are in call order, the order in which the [0, 1] masks link them.
 *
 * Main result: over the verifier-built scope, any trace that satisfies the constraints, with true calls,
 * forces every block's eight hash words to be the compression of section 3.2 of RFC 7693.
 */
module Blake2bScheduler {
  import opened Arith
  import opened Field31
  import opened Words
  import opened Rfc7693
  import Blake2bG

  const G_ROWS: nat := 96

  // ----- fixed wiring -----

  const BLAKE2B_SIGMA: seq<seq<nat>> := [
    [0, 1, 2, 3, 4, 5, 6, 7, 8, 9, 10, 11, 12, 13, 14, 15],
    [14, 10, 4, 8, 9, 15, 13, 6, 1, 12, 0, 2, 11, 7, 5, 3],
    [11, 8, 12, 0, 5, 2, 15, 13, 10, 14, 3, 6, 7, 1, 9, 4],
    [7, 9, 3, 1, 13, 12, 11, 14, 2, 6, 5, 10, 4, 0, 15, 8],
    [9, 0, 5, 7, 2, 4, 10, 15, 14, 1, 11, 12, 6, 8, 3, 13],
    [2, 12, 6, 10, 0, 11, 8, 3, 4, 13, 7, 5, 15, 14, 1, 9],
    [12, 5, 1, 15, 14, 13, 4, 10, 0, 7, 6, 3, 9, 2, 8, 11],
    [13, 11, 7, 14, 12, 1, 3, 9, 5, 0, 15, 4, 8, 6, 2, 10],
    [6, 15, 14, 9, 11, 3, 0, 8, 12, 2, 13, 7, 1, 4, 10, 5],
    [10, 2, 8, 4, 7, 6, 1, 5, 15, 11, 9, 14, 3, 12, 13, 0],
    [0, 1, 2, 3, 4, 5, 6, 7, 8, 9, 10, 11, 12, 13, 14, 15],
    [14, 10, 4, 8, 9, 15, 13, 6, 1, 12, 0, 2, 11, 7, 5, 3]]

  function SigmaRow(round: nat): (s: seq<nat>)
    requires round < 12
    ensures IsSchedule(s)
  {
    BLAKE2B_SIGMA[round]
  }

  /** The twelve rows of the table are the RFC's ten, taken cyclically. */
  lemma SigmaAgrees(round: nat)
    requires round < 12
    ensures SigmaRow(round) == Sigma(round)
  {
  }

  /** State lanes a, b, c, d and message words x, y of one row. */
  datatype RawWiring = RawWiring(lanes: seq<nat>, x: nat, y: nat)

  type Wiring = w: RawWiring | IsWiring(w) witness RawWiring([0, 4, 8, 12], 0, 1)

  function Lanes(g: nat): (lanes: seq<nat>)
    requires g < 8
    ensures |lanes| == 4 && forall i :: 0 <= i < 4 ==> lanes[i] < 16
    ensures forall i, j :: 0 <= i < j < 4 ==> lanes[i] != lanes[j]
  {
    match g
    case 0 => [0, 4, 8, 12]
    case 1 => [1, 5, 9, 13]
    case 2 => [2, 6, 10, 14]
    case 3 => [3, 7, 11, 15]
    case 4 => [0, 5, 10, 15]
    case 5 => [1, 6, 11, 12]
    case 6 => [2, 7, 8, 13]
    case _ => [3, 4, 9, 14]
  }

  predicate IsWiring(w: RawWiring) {
    && |w.lanes| == 4 && w.x < 16 && w.y < 16
    && (forall i :: 0 <= i < 4 ==> w.lanes[i] < 16)
    && (forall i, j :: 0 <= i < j < 4 ==> w.lanes[i] != w.lanes[j])
  }

  function Wired(sigma: seq<nat>, g: nat): (w: Wiring)
    requires IsSchedule(sigma) && g < 8
  {
    RawWiring(Lanes(g), sigma[2 * g], sigma[2 * g + 1])
  }

  function Schedule(row: nat): (w: Wiring)
    requires row < G_ROWS
  {
    Wired(SigmaRow(row / 8), row % 8)
  }

  // ----- the state walk -----

  type StepFunction = (State, Wiring) -> State

  /** The effect of one row: mix the wired lanes with the wired message words. */
  function StepWith(mix: Mixer, m: State, v: State, w: Wiring): State {
    mix(v, w.lanes[0], w.lanes[1], w.lanes[2], w.lanes[3], m[w.x], m[w.y])
  }

  function StepOf(mix: Mixer, m: State): StepFunction {
    (v: State, w: Wiring) => StepWith(mix, m, v, w)
  }

  type Wires = nat -> Wiring

  const WIRES: Wires := (row: nat) => if row < G_ROWS then Schedule(row) else Schedule(0)

  /** The state k rows after row `start` was entered with v. */
  function Walk(step: StepFunction, wires: Wires, v: State, start: nat, k: nat): State {
    if k == 0 then v else step(Walk(step, wires, v, start, k - 1), wires(start + k - 1))
  }

  lemma {:induction false} WalkSplit(step: StepFunction, wires: Wires, v: State, i: nat, j: nat)
    ensures Walk(step, wires, v, 0, i + j) == Walk(step, wires, Walk(step, wires, v, 0, i), i, j)
  {
    if j > 0 { WalkSplit(step, wires, v, i, j - 1); }
  }

  /** The eight rows from 8i on make round i. */
  ghost predicate MakeRound(step: StepFunction, wires: Wires, round: RoundFunction, i: nat) {
    forall u: State :: Walk(step, wires, u, 8 * i, 8) == round(u, i)
  }

  lemma {:induction false} WalkRounds(step: StepFunction, wires: Wires, round: RoundFunction, v: State, n: nat)
    requires n <= 12 && forall i: nat :: i < 12 ==> MakeRound(step, wires, round, i)
    ensures Walk(step, wires, v, 0, 8 * n) == Rounds(round, v, n)
  {
    if n > 0 {
      WalkRounds(step, wires, round, v, n - 1);
      WalkSplit(step, wires, v, 8 * (n - 1), 8);
      assert MakeRound(step, wires, round, n - 1);
    }
  }

  /** The wires of rows start .. start + 7 are those of a round with schedule s. */
  ghost predicate RoundWires(wires: Wires, start: nat, s: seq<nat>) {
    && IsSchedule(s)
    && forall k: nat :: k < 8 ==> wires(start + k) == Wired(s, k)
  }

  lemma DivRow(n: nat, k: nat)
    requires k < 8
    ensures (8 * n + k) / 8 == n && (8 * n + k) % 8 == k
  {
  }

  lemma WireAt(n: nat, k: nat)
    requires n < 12 && k < 8
    ensures WIRES(8 * n + k) == Wired(SigmaRow(n), k)
  {
    DivRow(n, k);
  }

  lemma WiringOf(n: nat)
    requires n < 12
    ensures RoundWires(WIRES, 8 * n, SigmaRow(n))
  {
    forall k: nat | k < 8
      ensures WIRES(8 * n + k) == Wired(SigmaRow(n), k)
    {
      WireAt(n, k);
    }
  }

  lemma MixStep(mix: Mixer, step: StepFunction, wires: Wires, m: State, start: nat, s: seq<nat>, v: State, k: nat, u: State, l: seq<nat>)
      returns (next: State)
    requires RoundWires(wires, start, s) && k < 8 && Lanes(k) == l && step == StepOf(mix, m)
    requires u == Walk(step, wires, v, start, k)
    ensures next == Walk(step, wires, v, start, k + 1)
    ensures next == mix(u, l[0], l[1], l[2], l[3], m[s[2 * k]], m[s[2 * k + 1]])
  {
    var w := wires(start + k);
    assert w == Wired(s, k);
    next := StepWith(mix, m, u, w);
    assert start + (k + 1) - 1 == start + k;
  }

  lemma StepsAreRound(mix: Mixer, step: StepFunction, wires: Wires, v: State, m: State, start: nat, s: seq<nat>)
    requires RoundWires(wires, start, s) && step == StepOf(mix, m)
    ensures Walk(step, wires, v, start, 8) == Round(mix, v, m, s)
  {
    var v1 := MixStep(mix, step, wires, m, start, s, v, 0, v, [0, 4, 8, 12]);
    var v2 := MixStep(mix, step, wires, m, start, s, v, 1, v1, [1, 5, 9, 13]);
    var v3 := MixStep(mix, step, wires, m, start, s, v, 2, v2, [2, 6, 10, 14]);
    var v4 := MixStep(mix, step, wires, m, start, s, v, 3, v3, [3, 7, 11, 15]);
    var v5 := MixStep(mix, step, wires, m, start, s, v, 4, v4, [0, 5, 10, 15]);
    var v6 := MixStep(mix, step, wires, m, start, s, v, 5, v5, [1, 6, 11, 12]);
    var v7 := MixStep(mix, step, wires, m, start, s, v, 6, v6, [2, 7, 8, 13]);
    var v8 := MixStep(mix, step, wires, m, start, s, v, 7, v7, [3, 4, 9, 14]);
  }

  /** The 96 rows of a block compute the twelve rounds of the compression function. */
  lemma WalkIsCompression(mix: Mixer, v: State, m: State)
    ensures Finish(v, Walk(StepOf(mix, m), WIRES, v, 0, G_ROWS)) == Compress(mix, v, m)
  {
    forall i: nat | i < 12 ensures MakeRound(StepOf(mix, m), WIRES, RoundOf(mix, m), i) {
      WiringOf(i);
      SigmaAgrees(i);
      forall u: State ensures Walk(StepOf(mix, m), WIRES, u, 8 * i, 8) == RoundOf(mix, m)(u, i) {
        StepsAreRound(mix, StepOf(mix, m), WIRES, u, m, 8 * i, SigmaRow(i));
      }
    }
    WalkRounds(StepOf(mix, m), WIRES, RoundOf(mix, m), v, 12);
  }

  // ----- statement and verifier-built scope -----

  type Block = m: seq<Byte> | |m| == 128 witness seq(128, _ => 0)
  type Digest = d: seq<Byte> | |d| == 32 witness seq(32, _ => 0)
  type Hash = h: seq<U64> | |h| == 8 witness seq(8, _ => 0)

  datatype Statement = Statement(
    messages: seq<Block>, digests: seq<Digest>, initial: seq<State>,
    hashes: seq<Hash>, chain: seq<bool>, calls: seq<Blake2bG.Call>)

  /** The shapes the scope builder accepts; it also refuses a final block that chains on. */
  predicate Accepts(st: Statement) {
    && 0 < |st.messages| == |st.digests| == |st.initial| == |st.hashes| == |st.chain|
    && |st.calls| == |st.messages| * G_ROWS
    && !st.chain[|st.chain| - 1]
  }

  function WordAt(bytes: seq<Byte>, i: nat): U64
    requires 8 * i + 8 <= |bytes|
  {
    var b: seq<int> := bytes[8 * i..8 * i + 8];
    WordBound(b);
    LE(b)
  }

  /** The sixteen little-endian words of a block. */
  function MessageWords(m: Block): State {
    seq(16, i requires 0 <= i < 16 => WordAt(m, i))
  }

  function DigestWords(d: Digest): (w: seq<U64>)
    ensures |w| == 4
  {
    seq(4, i requires 0 <= i < 4 => WordAt(d, i))
  }

  function Columns(ws: seq<U64>): (b: seq<seq<int>>)
    ensures |b| == |ws|
    ensures forall i :: 0 <= i < |b| ==> |b[i]| == 8
  {
    seq(|ws|, i requires 0 <= i < |ws| => ToLE(ws[i], 8))
  }

  function Blank(n: nat): seq<U64> {
    seq(n, _ => 0)
  }

  function OneHot(n: nat, k: nat): (s: seq<int>)
    ensures |s| == n
  {
    seq(n, i => if i == k then 1 else 0)
  }

  datatype Scope = Scope(
    active: int, first: int, last: int, advance: int,
    initial: seq<seq<int>>, message: seq<seq<int>>, digest: seq<seq<int>>, hash: seq<seq<int>>,
    chain: int, nextHash: seq<seq<int>>, selectors: seq<seq<int>>, call: seq<seq<int>>)

  function Bit(b: bool): int { if b then 1 else 0 }

  function Selectors(w: Wiring): seq<seq<int>> {
    [OneHot(16, w.lanes[0]), OneHot(16, w.lanes[1]), OneHot(16, w.lanes[2]), OneHot(16, w.lanes[3]),
     OneHot(16, w.x), OneHot(16, w.y)]
  }

  type DigestState = w: seq<U64> | |w| == 4 witness seq(4, _ => 0)

  /** What the scope says of one block. */
  datatype BlockData = BlockData(
    initial: State, message: State, digest: DigestState, hash: Hash, chained: bool, next: Hash)

  function ScopeFor(w: Wiring, local: nat, d: BlockData, call: Blake2bG.Call): Scope {
    var last := local + 1 == G_ROWS;
    Scope(1, Bit(local == 0), Bit(last), Bit(!last),
          Columns(d.initial), Columns(d.message),
          Columns(if last then d.digest else Blank(4)), Columns(if last then d.hash else Blank(8)),
          Bit(last && d.chained), Columns(if last && d.chained then d.next else Blank(8)),
          Selectors(w), Columns(call.input + call.output))
  }

  function DataOf(st: Statement, block: nat): BlockData
    requires Accepts(st) && block < |st.messages|
  {
    BlockData(st.initial[block], MessageWords(st.messages[block]), DigestWords(st.digests[block]), st.hashes[block],
              st.chain[block], if st.chain[block] then st.initial[block + 1][..8] else Blank(8))
  }

  /** The all-zero scope row that pads the columns to a power of two. */
  function PaddingScope(): Scope {
    Scope(0, 0, 0, 0, Columns(Blank(16)), Columns(Blank(16)), Columns(Blank(4)), Columns(Blank(8)),
          0, Columns(Blank(8)), seq(6, _ => OneHot(16, 16)), Columns(Blank(10)))
  }

  function ScopeAt(wires: Wires, st: Statement, step: nat): Scope
    requires Accepts(st)
  {
    if step < |st.calls| then ScopeFor(wires(step % G_ROWS), step % G_ROWS, DataOf(st, step / G_ROWS), st.calls[step]) else PaddingScope()
  }

  // ----- trace rows and constraints -----

  datatype TraceRow = TraceRow(
    state: seq<seq<int>>, mid: seq<seq<int>>, active: int, next: seq<seq<int>>, nextActive: int)

  predicate IsColumns(b: seq<seq<int>>, n: nat) {
    |b| == n && forall i: nat :: i < n ==> |b[i]| == 8 && IsElems(b[i])
  }

  predicate IsRow(r: TraceRow) {
    && IsColumns(r.state, 16) && IsColumns(r.mid, 8) && IsColumns(r.next, 16)
    && 0 <= r.active < M31 && 0 <= r.nextActive < M31
  }

  predicate IsScope(s: Scope) {
    && IsColumns(s.initial, 16) && IsColumns(s.message, 16) && IsColumns(s.digest, 4) && IsColumns(s.hash, 8)
    && IsColumns(s.nextHash, 8) && IsColumns(s.call, 10)
    && |s.selectors| == 6 && forall i: nat :: i < 6 ==> |s.selectors[i]| == 16
  }

  function Dot(sel: seq<int>, columns: seq<seq<int>>, byte: nat, n: nat): int
    requires n <= |sel| && n <= |columns| && (forall i: nat :: i < |columns| ==> |columns[i]| == 8) && byte < 8
  {
    if n == 0 then 0 else Dot(sel, columns, byte, n - 1) + sel[n - 1] * columns[n - 1][byte]
  }

  predicate Flags(r: TraceRow, s: Scope) {
    && Zero(r.active - s.active)
    && Zero(s.active * (s.active - 1)) && Zero(s.first * (s.first - 1))
    && Zero(s.last * (s.last - 1)) && Zero(s.advance * (s.advance - 1))
    && Zero(s.last + s.advance - s.active) && Zero(s.first * (1 - s.active))
    && Zero(r.nextActive - s.active * s.advance) && Zero(r.nextActive * (r.nextActive - 1))
  }

  predicate InactiveZero(s: Scope, columns: seq<seq<int>>) {
    forall i: nat, byte: nat :: i < |columns| && byte < |columns[i]| ==> Zero((1 - s.active) * columns[i][byte])
  }

  /** First row and selected inputs, at one lane and byte. */
  predicate LaneByte(r: TraceRow, s: Scope, lane: nat, byte: nat)
    requires IsRow(r) && IsScope(s) && lane < 16 && byte < 8
  {
    && Zero(s.first * (r.state[lane][byte] - s.initial[lane][byte]))
    && (forall g: nat :: g < 4 ==> Zero(s.active * s.selectors[g][lane] * (s.call[g][byte] - r.state[lane][byte])))
  }

  /** Digest truncation and chaining at one hash word and byte. */
  predicate HashByte(s: Scope, word: nat, byte: nat)
    requires IsScope(s) && word < 8 && byte < 8
  {
    && (word < 4 ==> Zero(s.last * (s.hash[word][byte] - s.digest[word][byte])))
    && Zero(s.chain * (s.hash[word][byte] - s.nextHash[word][byte]))
  }

  predicate InputByte(r: TraceRow, s: Scope, g: nat, byte: nat)
    requires IsRow(r) && IsScope(s) && g < 4 && byte < 8
  {
    Zero(s.active * (s.call[g][byte] - Dot(s.selectors[g], r.state, byte, 16)))
  }

  predicate MessageByte(s: Scope, g: nat, byte: nat)
    requires IsScope(s) && g < 2 && byte < 8
  {
    Zero(s.active * (s.call[4 + g][byte] - Dot(s.selectors[4 + g], s.message, byte, 16)))
  }

  function Updated(s: Scope, lane: nat, byte: nat, before: int): int
    requires IsScope(s) && lane < 16 && byte < 8
  {
    before + s.selectors[0][lane] * (s.call[6][byte] - before) + s.selectors[1][lane] * (s.call[7][byte] - before)
        + s.selectors[2][lane] * (s.call[8][byte] - before) + s.selectors[3][lane] * (s.call[9][byte] - before)
  }

  predicate UpdateByte(r: TraceRow, succ: TraceRow, s: Scope, lane: nat, byte: nat)
    requires IsRow(r) && IsRow(succ) && IsScope(s) && lane < 16 && byte < 8
  {
    && Zero(s.active * (r.next[lane][byte] - Updated(s, lane, byte, r.state[lane][byte])))
    && Zero(s.advance * (succ.state[lane][byte] - r.next[lane][byte]))
  }

  predicate HashLookup(r: TraceRow, s: Scope, word: nat, byte: nat)
    requires IsRow(r) && IsScope(s) && word < 8 && byte < 8
  {
    && Blake2bG.InXorTable(s.initial[word][byte], r.next[word][byte], r.mid[word][byte])
    && Blake2bG.InXorTable(r.mid[word][byte], r.next[word + 8][byte], s.hash[word][byte])
  }

  /** The polynomial constraints of one row. */
  predicate Constraints(r: TraceRow, succ: TraceRow, s: Scope)
    requires IsRow(r) && IsRow(succ) && IsScope(s)
  {
    && Flags(r, s)
    && InactiveZero(s, r.state) && InactiveZero(s, r.mid) && InactiveZero(s, r.next)
    && (forall lane: nat, byte: nat :: lane < 16 && byte < 8 ==> LaneByte(r, s, lane, byte))
    && (forall word: nat, byte: nat :: word < 8 && byte < 8 ==> HashByte(s, word, byte))
    && (forall g: nat, byte: nat :: g < 4 && byte < 8 ==> InputByte(r, s, g, byte))
    && (forall g: nat, byte: nat :: g < 2 && byte < 8 ==> MessageByte(s, g, byte))
    && (forall lane: nat, byte: nat :: lane < 16 && byte < 8 ==> UpdateByte(r, succ, s, lane, byte))
  }

  /** The lookups of one row, which carry multiplicity `last`. */
  predicate HashLookups(r: TraceRow, s: Scope)
    requires IsRow(r) && IsScope(s)
  {
    s.last != 0 ==> forall word: nat, byte: nat :: word < 8 && byte < 8 ==> HashLookup(r, s, word, byte)
  }

  // ----- one row is forced -----

  /** The columns hold the bytes of the state words. */
  ghost predicate StateIs(columns: seq<seq<int>>, v: State) {
    |columns| == 16 && forall lane: nat :: lane < 16 ==> columns[lane] == ToLE(v[lane], 8)
  }

  ghost predicate CallMixes(g: Mixing, c: Blake2bG.Call) {
    Quad(c.output[0], c.output[1], c.output[2], c.output[3])
      == g(c.input[0], c.input[1], c.input[2], c.input[3], c.input[4], c.input[5])
  }

  /** The call a row makes: the wired words in, their mix out. */
  function CallAt(g: Mixing, m: State, v: State, w: Wiring): Blake2bG.Call {
    var input := [v[w.lanes[0]], v[w.lanes[1]], v[w.lanes[2]], v[w.lanes[3]], m[w.x], m[w.y]];
    var q := g(input[0], input[1], input[2], input[3], input[4], input[5]);
    Blake2bG.RawCall(input, [q.a, q.b, q.c, q.d])
  }

  lemma {:induction false} DotOneHot(columns: seq<seq<int>>, byte: nat, k: nat, n: nat)
    requires n <= |columns| == 16 && (forall i: nat :: i < |columns| ==> |columns[i]| == 8) && byte < 8 && k < 16
    ensures Dot(OneHot(16, k), columns, byte, n) == if k < n then columns[k][byte] else 0
  {
    if n > 0 { DotOneHot(columns, byte, k, n - 1); }
  }

  lemma SameBytes(x: U64, y: U64)
    requires forall byte: nat :: byte < 8 ==> ToLE(x, 8)[byte] == ToLE(y, 8)[byte]
    ensures x == y
  {
    assert ToLE(x, 8) == ToLE(y, 8);
    Pow256Eight();
    LEToLE(x, 8);
    LEToLE(y, 8);
  }

  lemma ByteZero(x: int, y: int)
    requires Zero(1 * (x - y)) && 0 <= x < M31 && 0 <= y < M31
    ensures x == y
  {
  }

  /** Call word g is the state word the selector picks. */
  lemma InputSound(r: TraceRow, s: Scope, v: State, g: nat, lane: nat, x: U64)
    requires IsRow(r) && IsScope(s) && g < 4 && lane < 16 && StateIs(r.state, v)
    requires s.active == 1 && s.selectors[g] == OneHot(16, lane) && s.call[g] == ToLE(x, 8)
    requires forall byte: nat :: byte < 8 ==> InputByte(r, s, g, byte)
    ensures x == v[lane]
  {
    forall byte: nat | byte < 8
      ensures ToLE(x, 8)[byte] == ToLE(v[lane], 8)[byte]
    {
      assert InputByte(r, s, g, byte);
      DotOneHot(r.state, byte, lane, 16);
      ByteZero(s.call[g][byte], r.state[lane][byte]);
    }
    SameBytes(x, v[lane]);
  }

  lemma MessageSound(s: Scope, m: State, g: nat, word: nat, x: U64)
    requires IsScope(s) && g < 2 && word < 16 && StateIs(s.message, m)
    requires s.active == 1 && s.selectors[4 + g] == OneHot(16, word) && s.call[4 + g] == ToLE(x, 8)
    requires forall byte: nat :: byte < 8 ==> MessageByte(s, g, byte)
    ensures x == m[word]
  {
    forall byte: nat | byte < 8
      ensures ToLE(x, 8)[byte] == ToLE(m[word], 8)[byte]
    {
      assert MessageByte(s, g, byte);
      DotOneHot(s.message, byte, word, 16);
      ByteZero(s.call[4 + g][byte], s.message[word][byte]);
    }
    SameBytes(x, m[word]);
  }

  /** The state after writing four outputs to four distinct lanes. */
  function Written(v: State, lanes: seq<nat>, out: seq<U64>): State
    requires |lanes| == |out| == 4 && forall i :: 0 <= i < 4 ==> lanes[i] < 16
  {
    v[lanes[0] := out[0]][lanes[1] := out[1]][lanes[2] := out[2]][lanes[3] := out[3]]
  }

  ghost predicate SelectorsAre(s: Scope, w: Wiring)
    requires IsScope(s)
  {
    forall g: nat :: g < 4 ==> s.selectors[g] == OneHot(16, w.lanes[g])
  }

  lemma UpdatedIs(s: Scope, w: Wiring, v: State, out: seq<U64>, lane: nat, byte: nat)
    requires IsScope(s) && SelectorsAre(s, w) && |out| == 4 && lane < 16 && byte < 8
    requires forall g: nat :: g < 4 ==> s.call[6 + g] == ToLE(out[g], 8)
    ensures Updated(s, lane, byte, ToLE(v[lane], 8)[byte]) == ToLE(Written(v, w.lanes, out)[lane], 8)[byte]
  {
    assert s.selectors[0] == OneHot(16, w.lanes[0]) && s.selectors[1] == OneHot(16, w.lanes[1]);
    assert s.selectors[2] == OneHot(16, w.lanes[2]) && s.selectors[3] == OneHot(16, w.lanes[3]);
    assert s.call[6 + 0] == ToLE(out[0], 8) && s.call[6 + 1] == ToLE(out[1], 8);
    assert s.call[6 + 2] == ToLE(out[2], 8) && s.call[6 + 3] == ToLE(out[3], 8);
  }

  lemma NextSound(r: TraceRow, succ: TraceRow, s: Scope, w: Wiring, v: State, out: seq<U64>)
    requires IsRow(r) && IsRow(succ) && IsScope(s) && SelectorsAre(s, w) && |out| == 4
    requires s.active == 1 && StateIs(r.state, v) && forall g: nat :: g < 4 ==> s.call[6 + g] == ToLE(out[g], 8)
    requires forall lane: nat, byte: nat :: lane < 16 && byte < 8 ==> UpdateByte(r, succ, s, lane, byte)
    ensures StateIs(r.next, Written(v, w.lanes, out))
  {
    forall lane: nat | lane < 16
      ensures r.next[lane] == ToLE(Written(v, w.lanes, out)[lane], 8)
    {
      forall byte: nat | byte < 8
        ensures r.next[lane][byte] == ToLE(Written(v, w.lanes, out)[lane], 8)[byte]
      {
        assert UpdateByte(r, succ, s, lane, byte);
        UpdatedIs(s, w, v, out, lane, byte);
        ByteZero(r.next[lane][byte], ToLE(Written(v, w.lanes, out)[lane], 8)[byte]);
      }
    }
  }

  lemma SuccessorSound(r: TraceRow, succ: TraceRow, s: Scope, v: State)
    requires IsRow(r) && IsRow(succ) && IsScope(s) && s.advance == 1 && StateIs(r.next, v)
    requires forall lane: nat, byte: nat :: lane < 16 && byte < 8 ==> UpdateByte(r, succ, s, lane, byte)
    ensures StateIs(succ.state, v)
  {
    forall lane: nat | lane < 16
      ensures succ.state[lane] == ToLE(v[lane], 8)
    {
      forall byte: nat | byte < 8
        ensures succ.state[lane][byte] == r.next[lane][byte]
      {
        assert UpdateByte(r, succ, s, lane, byte);
        ByteZero(succ.state[lane][byte], r.next[lane][byte]);
      }
    }
  }

  lemma FirstSound(r: TraceRow, s: Scope, v: State)
    requires IsRow(r) && IsScope(s) && s.first == 1 && StateIs(s.initial, v)
    requires forall lane: nat, byte: nat :: lane < 16 && byte < 8 ==> LaneByte(r, s, lane, byte)
    ensures StateIs(r.state, v)
  {
    forall lane: nat | lane < 16
      ensures r.state[lane] == ToLE(v[lane], 8)
    {
      forall byte: nat | byte < 8
        ensures r.state[lane][byte] == s.initial[lane][byte]
      {
        assert LaneByte(r, s, lane, byte);
        ByteZero(r.state[lane][byte], s.initial[lane][byte]);
      }
    }
  }

  // ----- the final row closes the chaining value -----

  lemma XorColumn(a: seq<int>, b: seq<int>, c: seq<int>, x: U64, y: U64)
    requires a == ToLE(x, 8) && b == ToLE(y, 8) && |c| == 8
    requires forall byte: nat :: byte < 8 ==> Blake2bG.InXorTable(a[byte], b[byte], c[byte])
    ensures c == ToLE(Xor64(x, y), 8)
  {
    Blake2bG.TableXors(a, b, c);
    XorWords(a, b, c);
    Pow256Eight();
    LEToLE(x, 8);
    LEToLE(y, 8);
    ToLELE(c);
  }

  lemma HashWord(r: TraceRow, s: Scope, v: State, u: State, word: nat)
    requires IsRow(r) && IsScope(s) && word < 8 && StateIs(s.initial, v) && StateIs(r.next, u)
    requires forall byte: nat :: byte < 8 ==> HashLookup(r, s, word, byte)
    ensures s.hash[word] == ToLE(Finish(v, u)[word], 8)
  {
    forall byte: nat | byte < 8
      ensures Blake2bG.InXorTable(s.initial[word][byte], r.next[word][byte], r.mid[word][byte])
      ensures Blake2bG.InXorTable(r.mid[word][byte], r.next[word + 8][byte], s.hash[word][byte])
    {
      assert HashLookup(r, s, word, byte);
    }
    XorColumn(s.initial[word], r.next[word], r.mid[word], v[word], u[word]);
    XorColumn(r.mid[word], r.next[word + 8], s.hash[word], Xor64(v[word], u[word]), u[word + 8]);
  }

  lemma HashSound(r: TraceRow, s: Scope, v: State, u: State, hash: Hash)
    requires IsRow(r) && IsScope(s) && StateIs(s.initial, v) && StateIs(r.next, u) && s.hash == Columns(hash)
    requires forall word: nat, byte: nat :: word < 8 && byte < 8 ==> HashLookup(r, s, word, byte)
    ensures hash == Finish(v, u)
  {
    forall word: nat | word < 8
      ensures hash[word] == Finish(v, u)[word]
    {
      HashWord(r, s, v, u, word);
      SameBytes(hash[word], Finish(v, u)[word]);
    }
  }

  // ----- one row over the verifier-built scope -----

  lemma ColumnsAre(ws: seq<U64>, i: nat)
    requires i < |ws|
    ensures Columns(ws)[i] == ToLE(ws[i], 8)
  {
  }

  /** What the scope row of a step says of its block. */
  ghost predicate ScopeFacts(w: Wiring, s: Scope, local: nat, d: BlockData, call: Blake2bG.Call) {
    && IsScope(s) && s.active == 1 && StateIs(s.initial, d.initial) && StateIs(s.message, d.message)
    && s.selectors == Selectors(w) && SelectorsAre(s, w)
    && s.call == Columns(call.input + call.output)
    && s.first == Bit(local == 0) && s.advance == Bit(local + 1 < G_ROWS) && s.last == Bit(local + 1 == G_ROWS)
    && s.chain == Bit(local + 1 == G_ROWS && d.chained)
    && (local + 1 == G_ROWS ==> s.hash == Columns(d.hash) && s.digest == Columns(d.digest))
    && (local + 1 == G_ROWS && d.chained ==> s.nextHash == Columns(d.next))
  }

  lemma ScopeShape(w: Wiring, local: nat, d: BlockData, call: Blake2bG.Call)
    requires local < G_ROWS
    ensures ScopeFacts(w, ScopeFor(w, local, d, call), local, d, call)
  {
  }

  lemma CallWords(call: Blake2bG.Call)
    ensures forall g: nat :: g < 6 ==> Columns(call.input + call.output)[g] == ToLE(call.input[g], 8)
    ensures forall g: nat :: g < 4 ==> Columns(call.input + call.output)[6 + g] == ToLE(call.output[g], 8)
  {
  }

  lemma CallSound(g: Mixing, r: TraceRow, succ: TraceRow, s: Scope, w: Wiring, m: State, call: Blake2bG.Call, v: State)
    requires IsRow(r) && IsRow(succ) && IsScope(s) && Constraints(r, succ, s)
    requires s.active == 1 && s.selectors == Selectors(w) && s.call == Columns(call.input + call.output)
    requires StateIs(s.message, m) && StateIs(r.state, v) && CallMixes(g, call)
    ensures call == CallAt(g, m, v, w)
  {
    CallWords(call);
    InputSound(r, s, v, 0, w.lanes[0], call.input[0]);
    InputSound(r, s, v, 1, w.lanes[1], call.input[1]);
    InputSound(r, s, v, 2, w.lanes[2], call.input[2]);
    InputSound(r, s, v, 3, w.lanes[3], call.input[3]);
    MessageSound(s, m, 0, w.x, call.input[4]);
    MessageSound(s, m, 1, w.y, call.input[5]);
  }

  lemma WriteIsStep(g: Mixing, m: State, u: State, w: Wiring)
    ensures Written(u, w.lanes, CallAt(g, m, u, w).output) == StepWith(MixerOf(g), m, u, w)
  {
  }

  /** The row's flags are those of its scope. */
  lemma ActiveSound(r: TraceRow, s: Scope)
    requires 0 <= r.active < M31 && 0 <= r.nextActive < M31 && Flags(r, s) && (s.active == 0 || s.active == 1)
    ensures r.active == s.active && (s.advance == 0 || s.advance == 1 ==> r.nextActive == s.active * s.advance)
  {
  }

  /** A row that meets its constraints makes the wired call and carries the state through exactly one step. */
  lemma RowSound(g: Mixing, r: TraceRow, succ: TraceRow, s: Scope, w: Wiring, m: State, call: Blake2bG.Call, v: State)
    requires IsRow(r) && IsRow(succ) && IsScope(s) && Constraints(r, succ, s)
    requires s.active == 1 && s.selectors == Selectors(w) && SelectorsAre(s, w)
    requires s.call == Columns(call.input + call.output) && StateIs(s.message, m)
    requires StateIs(r.state, v) && CallMixes(g, call)
    ensures call == CallAt(g, m, v, w)
    ensures StateIs(r.next, StepWith(MixerOf(g), m, v, w))
    ensures s.advance == 1 ==> StateIs(succ.state, StepWith(MixerOf(g), m, v, w))
    ensures r.active == 1 && (s.advance == 0 || s.advance == 1 ==> r.nextActive == s.advance)
  {
    ActiveSound(r, s);
    CallSound(g, r, succ, s, w, m, call, v);
    CallWords(call);
    NextSound(r, succ, s, w, v, call.output);
    WriteIsStep(g, m, v, w);
    if s.advance == 1 { SuccessorSound(r, succ, s, Written(v, w.lanes, call.output)); }
  }

  // ----- whole traces -----

  ghost predicate RowHolds(r: TraceRow, succ: TraceRow, s: Scope) {
    IsRow(r) && IsRow(succ) && IsScope(s) && Constraints(r, succ, s)
  }

  ghost predicate HoldsAt(trace: seq<TraceRow>, scope: seq<Scope>, i: nat) {
    i < |trace| == |scope| && RowHolds(trace[i], trace[(i + 1) % |trace|], scope[i])
  }

  /** Every row meets its polynomial constraints over its scope row, followed cyclically by the next row of the trace. */
  ghost predicate RowsHold(trace: seq<TraceRow>, scope: seq<Scope>) {
    |scope| == |trace| && forall i: nat :: i < |trace| ==> HoldsAt(trace, scope, i)
  }

  ghost predicate LooksUpAt(trace: seq<TraceRow>, scope: seq<Scope>, i: nat) {
    i < |trace| == |scope| && IsRow(trace[i]) && IsScope(scope[i]) && HashLookups(trace[i], scope[i])
  }

  /** Constraints hold and lookups hit. */
  ghost predicate RowsPass(trace: seq<TraceRow>, scope: seq<Scope>) {
    RowsHold(trace, scope) && forall i: nat :: i < |trace| ==> LooksUpAt(trace, scope, i)
  }

  function ScopeRows(wires: Wires, st: Statement, rows: nat): seq<Scope>
    requires Accepts(st)
  {
    seq(rows, step requires 0 <= step => ScopeAt(wires, st, step))
  }

  ghost predicate TraceHolds(wires: Wires, st: Statement, trace: seq<TraceRow>) {
    Accepts(st) && |st.calls| <= |trace| && RowsHold(trace, ScopeRows(wires, st, |trace|))
  }

  ghost predicate TracePasses(wires: Wires, st: Statement, trace: seq<TraceRow>) {
    Accepts(st) && |st.calls| <= |trace| && RowsPass(trace, ScopeRows(wires, st, |trace|))
  }

  /** Whatever state enters the row, one step of it leaves, and enters the successor when there is one. */
  ghost predicate Carries(r: TraceRow, succ: TraceRow, advance: bool, step: StepFunction, w: Wiring) {
    forall v: State :: StateIs(r.state, v) ==>
      StateIs(r.next, step(v, w)) && (advance ==> StateIs(succ.state, step(v, w)))
  }

  lemma RowCarries(g: Mixing, r: TraceRow, succ: TraceRow, s: Scope, w: Wiring, m: State, call: Blake2bG.Call)
    requires RowHolds(r, succ, s) && CallMixes(g, call)
    requires s.active == 1 && s.selectors == Selectors(w) && SelectorsAre(s, w)
    requires s.call == Columns(call.input + call.output) && StateIs(s.message, m)
    ensures Carries(r, succ, s.advance == 1, StepOf(MixerOf(g), m), w)
  {
    forall v: State | StateIs(r.state, v)
      ensures StateIs(r.next, StepWith(MixerOf(g), m, v, w))
      ensures s.advance == 1 ==> StateIs(succ.state, StepWith(MixerOf(g), m, v, w))
    {
      RowSound(g, r, succ, s, w, m, call, v);
    }
  }

  ghost predicate AllCarry(rows: seq<TraceRow>, step: StepFunction, wires: Wires) {
    && |rows| == G_ROWS + 1
    && forall i: nat :: i < G_ROWS ==> Carries(rows[i], rows[i + 1], i + 1 < G_ROWS, step, wires(i))
  }

  /** By induction over the rows of a block, each is entered with the state the walk prescribes. */
  lemma {:induction false} RowsWalk(rows: seq<TraceRow>, step: StepFunction, wires: Wires, v: State, k: nat)
    requires AllCarry(rows, step, wires) && k < G_ROWS && StateIs(rows[0].state, v)
    ensures StateIs(rows[k].state, Walk(step, wires, v, 0, k))
    ensures StateIs(rows[k].next, Walk(step, wires, v, 0, k + 1))
  {
    if k > 0 { RowsWalk(rows, step, wires, v, k - 1); }
    assert Carries(rows[k], rows[k + 1], k + 1 < G_ROWS, step, wires(k));
    if k > 0 { assert Carries(rows[k - 1], rows[k - 1 + 1], k - 1 + 1 < G_ROWS, step, wires(k - 1)); }
  }

  lemma BlockStep(st: Statement, block: nat, local: nat) returns (step: nat)
    requires Accepts(st) && block < |st.messages| && local < G_ROWS
    ensures step == G_ROWS * block + local < |st.calls| && step / G_ROWS == block && step % G_ROWS == local
  {
    step := G_ROWS * block + local;
    MulMono(G_ROWS, block, |st.messages| - 1);
    DivModUnique(step, G_ROWS, block, local);
  }

  /** Scope rows that say of every step what the statement says. */
  ghost predicate Describes(wires: Wires, scope: seq<Scope>, st: Statement) {
    Accepts(st) && |scope| >= |st.calls|
    && forall step: nat :: step < |st.calls| ==> DescribesStep(wires, scope[step], st, step)
  }

  ghost predicate DescribesStep(wires: Wires, s: Scope, st: Statement, step: nat)
    requires Accepts(st) && step < |st.calls|
  {
    ScopeFacts(wires(step % G_ROWS), s, step % G_ROWS, DataOf(st, step / G_ROWS), st.calls[step])
  }

  lemma ScopeDescribes(wires: Wires, st: Statement, rows: nat)
    requires Accepts(st) && |st.calls| <= rows
    ensures Describes(wires, ScopeRows(wires, st, rows), st)
  {
    forall step: nat | step < |st.calls|
      ensures DescribesStep(wires, ScopeAt(wires, st, step), st, step)
    {
      ScopeShape(wires(step % G_ROWS), step % G_ROWS, DataOf(st, step / G_ROWS), st.calls[step]);
    }
  }

  /** The rows of one block and the row that follows them. */
  ghost function BlockRows(trace: seq<TraceRow>, block: nat): seq<TraceRow>
    requires |trace| > 0
  {
    seq(G_ROWS + 1, i requires 0 <= i => trace[(G_ROWS * block + i) % |trace|])
  }

  lemma ScopedCarries(g: Mixing, w: Wiring, r: TraceRow, succ: TraceRow, s: Scope, local: nat, d: BlockData, call: Blake2bG.Call)
    requires RowHolds(r, succ, s) && local < G_ROWS && ScopeFacts(w, s, local, d, call) && CallMixes(g, call)
    ensures Carries(r, succ, local + 1 < G_ROWS, StepOf(MixerOf(g), d.message), w)
  {
    RowCarries(g, r, succ, s, w, d.message, call);
  }

  lemma StepRows(trace: seq<TraceRow>, block: nat, local: nat)
    requires local < G_ROWS && G_ROWS * block + local < |trace|
    ensures BlockRows(trace, block)[local] == trace[G_ROWS * block + local]
    ensures BlockRows(trace, block)[local + 1] == trace[(G_ROWS * block + local + 1) % |trace|]
  {
    SmallMod(G_ROWS * block + local, |trace|);
  }

  /** The row of one step, its successor and its scope, as the constraints see them. */
  lemma StepSeen(wires: Wires, st: Statement, scope: seq<Scope>, trace: seq<TraceRow>, block: nat, local: nat) returns (i: nat, d: BlockData)
    requires Describes(wires, scope, st) && RowsHold(trace, scope) && block < |st.messages| && local < G_ROWS
    ensures i == G_ROWS * block + local < |st.calls| <= |trace| && d == DataOf(st, block)
    ensures BlockRows(trace, block)[local] == trace[i] && BlockRows(trace, block)[local + 1] == trace[(i + 1) % |trace|]
    ensures RowHolds(trace[i], trace[(i + 1) % |trace|], scope[i])
    ensures ScopeFacts(wires(local), scope[i], local, d, st.calls[i])
  {
    i := BlockStep(st, block, local);
    d := DataOf(st, block);
    StepRows(trace, block, local);
    assert DescribesStep(wires, scope[i], st, i);
    assert HoldsAt(trace, scope, i);
  }

  lemma BlockCarries(g: Mixing, wires: Wires, st: Statement, scope: seq<Scope>, trace: seq<TraceRow>, block: nat, local: nat, m: State, step: StepFunction)
    requires Describes(wires, scope, st) && RowsHold(trace, scope) && block < |st.messages| && local < G_ROWS
    requires forall i: nat :: i < |st.calls| ==> CallMixes(g, st.calls[i])
    requires m == DataOf(st, block).message && step == StepOf(MixerOf(g), m)
    ensures Carries(BlockRows(trace, block)[local], BlockRows(trace, block)[local + 1], local + 1 < G_ROWS, step, wires(local))
  {
    var i, d := StepSeen(wires, st, scope, trace, block, local);
    ScopedCarries(g, wires(local), trace[i], trace[(i + 1) % |trace|], scope[i], local, d, st.calls[i]);
  }

  lemma FirstRow(wires: Wires, st: Statement, scope: seq<Scope>, trace: seq<TraceRow>, block: nat)
    requires Describes(wires, scope, st) && RowsHold(trace, scope) && block < |st.messages|
    ensures StateIs(BlockRows(trace, block)[0].state, st.initial[block])
  {
    var i, d := StepSeen(wires, st, scope, trace, block, 0);
    FirstSound(trace[i], scope[i], d.initial);
  }

  /** The digest truncates the hash words and a chained successor starts from them. */
  ghost predicate TailHolds(d: BlockData) {
    d.digest == d.hash[..4] && (d.chained ==> d.next == d.hash)
  }

  /** The digest and the next block's chaining value are bound to the hash words. */
  lemma TailSound(s: Scope, d: BlockData)
    requires IsScope(s) && s.last == 1 && s.chain == Bit(d.chained)
    requires s.hash == Columns(d.hash) && s.digest == Columns(d.digest) && (d.chained ==> s.nextHash == Columns(d.next))
    requires forall word: nat, byte: nat :: word < 8 && byte < 8 ==> HashByte(s, word, byte)
    ensures TailHolds(d)
  {
    forall word: nat | word < 8
      ensures word < 4 ==> d.digest[word] == d.hash[word]
      ensures d.chained ==> d.next[word] == d.hash[word]
    {
      forall byte: nat | byte < 8
        ensures word < 4 ==> s.hash[word][byte] == s.digest[word][byte]
        ensures d.chained ==> s.hash[word][byte] == s.nextHash[word][byte]
      {
        assert HashByte(s, word, byte);
        if word < 4 { ByteZero(s.hash[word][byte], s.digest[word][byte]); }
        if d.chained { ByteZero(s.hash[word][byte], s.nextHash[word][byte]); }
      }
      if word < 4 { SameBytes(d.digest[word], d.hash[word]); }
      if d.chained { SameBytes(d.next[word], d.hash[word]); }
    }
  }

  lemma TailRow(wires: Wires, st: Statement, scope: seq<Scope>, trace: seq<TraceRow>, block: nat)
    requires Describes(wires, scope, st) && RowsHold(trace, scope) && block < |st.messages|
    ensures TailHolds(DataOf(st, block))
  {
    var i, d := StepSeen(wires, st, scope, trace, block, G_ROWS - 1);
    TailSound(scope[i], d);
  }

  lemma HashRow(wires: Wires, st: Statement, scope: seq<Scope>, trace: seq<TraceRow>, block: nat, u: State)
    requires Describes(wires, scope, st) && RowsPass(trace, scope) && block < |st.messages|
    requires StateIs(BlockRows(trace, block)[G_ROWS - 1].next, u)
    ensures st.hashes[block] == Finish(st.initial[block], u)
  {
    var i, d := StepSeen(wires, st, scope, trace, block, G_ROWS - 1);
    assert LooksUpAt(trace, scope, i);
    HashSound(trace[i], scope[i], d.initial, u, d.hash);
  }

  lemma CallForced(g: Mixing, wires: Wires, st: Statement, scope: seq<Scope>, trace: seq<TraceRow>, block: nat, local: nat, v: State)
    requires Describes(wires, scope, st) && RowsHold(trace, scope) && block < |st.messages| && local < G_ROWS
    requires forall i: nat :: i < |st.calls| ==> CallMixes(g, st.calls[i])
    requires StateIs(BlockRows(trace, block)[local].state, v)
    ensures G_ROWS * block + local < |st.calls|
    ensures st.calls[G_ROWS * block + local] == CallAt(g, DataOf(st, block).message, v, wires(local))
  {
    var i, d := StepSeen(wires, st, scope, trace, block, local);
    RowSound(g, trace[i], trace[(i + 1) % |trace|], scope[i], wires(local), d.message, st.calls[i], v);
  }

  lemma BlockWalk(g: Mixing, wires: Wires, st: Statement, scope: seq<Scope>, trace: seq<TraceRow>, block: nat, local: nat, step: StepFunction) returns (v: State)
    requires Describes(wires, scope, st) && RowsHold(trace, scope) && block < |st.messages| && local < G_ROWS
    requires forall i: nat :: i < |st.calls| ==> CallMixes(g, st.calls[i])
    requires step == StepOf(MixerOf(g), DataOf(st, block).message)
    ensures v == Walk(step, wires, st.initial[block], 0, local)
    ensures StateIs(BlockRows(trace, block)[local].state, v)
    ensures StateIs(BlockRows(trace, block)[local].next, Walk(step, wires, st.initial[block], 0, local + 1))
  {
    var rows := BlockRows(trace, block);
    forall i: nat | i < G_ROWS
      ensures Carries(rows[i], rows[i + 1], i + 1 < G_ROWS, step, wires(i))
    {
      BlockCarries(g, wires, st, scope, trace, block, i, DataOf(st, block).message, step);
    }
    FirstRow(wires, st, scope, trace, block);
    v := Walk(step, wires, st.initial[block], 0, local);
    RowsWalk(rows, step, wires, st.initial[block], local);
  }

  /** The state entering row `local` of a block. */
  function Entering(g: Mixing, wires: Wires, v: State, m: State, local: nat): State {
    Walk(StepOf(MixerOf(g), m), wires, v, 0, local)
  }

  /** With `end` the state after its rows, the block's hash words, digest and successor's chaining value are right. */
  ghost predicate BlockCloses(d: BlockData, end: State) {
    d.hash == Finish(d.initial, end) && TailHolds(d)
  }

  /** Call `local` of a block, made from the state its predecessors leave. */
  ghost predicate IsCall(g: Mixing, wires: Wires, v: State, m: State, local: nat, call: Blake2bG.Call) {
    call == CallAt(g, m, Entering(g, wires, v, m, local), wires(local))
  }

  ghost predicate CallHolds(g: Mixing, wires: Wires, d: BlockData, local: nat, call: Blake2bG.Call) {
    IsCall(g, wires, d.initial, d.message, local, call)
  }

  /** Digests and links follow the hash words, and the calls are the ones the rows make, in order; the hash words are free. */
  ghost predicate IsWired(g: Mixing, wires: Wires, st: Statement)
    requires Accepts(st)
  {
    && (forall block: nat :: block < |st.messages| ==> TailHolds(DataOf(st, block)))
    && (forall step: nat :: step < |st.calls| ==>
          CallHolds(g, wires, DataOf(st, step / G_ROWS), step % G_ROWS, st.calls[step]))
  }

  /** Every block closes, and the calls are the ones its rows make, in order. */
  ghost predicate Closes(g: Mixing, wires: Wires, st: Statement)
    requires Accepts(st)
  {
    && (forall block: nat :: block < |st.messages| ==>
          BlockCloses(DataOf(st, block), Entering(g, wires, DataOf(st, block).initial, DataOf(st, block).message, G_ROWS)))
    && (forall step: nat :: step < |st.calls| ==>
          CallHolds(g, wires, DataOf(st, step / G_ROWS), step % G_ROWS, st.calls[step]))
  }

  lemma TailForced(wires: Wires, st: Statement, trace: seq<TraceRow>, block: nat)
    requires TraceHolds(wires, st, trace) && block < |st.messages|
    ensures TailHolds(DataOf(st, block))
  {
    ScopeDescribes(wires, st, |trace|);
    TailRow(wires, st, ScopeRows(wires, st, |trace|), trace, block);
  }

  lemma BlockForced(g: Mixing, wires: Wires, st: Statement, trace: seq<TraceRow>, block: nat, d: BlockData)
    requires TracePasses(wires, st, trace) && block < |st.messages| && d == DataOf(st, block)
    requires forall i: nat :: i < |st.calls| ==> CallMixes(g, st.calls[i])
    ensures BlockCloses(d, Entering(g, wires, d.initial, d.message, G_ROWS))
  {
    var scope := ScopeRows(wires, st, |trace|);
    ScopeDescribes(wires, st, |trace|);
    var v := BlockWalk(g, wires, st, scope, trace, block, G_ROWS - 1, StepOf(MixerOf(g), d.message));
    HashRow(wires, st, scope, trace, block, Entering(g, wires, d.initial, d.message, G_ROWS));
    TailRow(wires, st, scope, trace, block);
  }

  lemma StepForced(g: Mixing, wires: Wires, st: Statement, trace: seq<TraceRow>, block: nat, local: nat)
    requires TraceHolds(wires, st, trace) && block < |st.messages| && local < G_ROWS
    requires forall i: nat :: i < |st.calls| ==> CallMixes(g, st.calls[i])
    ensures G_ROWS * block + local < |st.calls|
    ensures CallHolds(g, wires, DataOf(st, block), local, st.calls[G_ROWS * block + local])
  {
    var d, scope := DataOf(st, block), ScopeRows(wires, st, |trace|);
    ScopeDescribes(wires, st, |trace|);
    var v := BlockWalk(g, wires, st, scope, trace, block, local, StepOf(MixerOf(g), d.message));
    CallForced(g, wires, st, scope, trace, block, local, v);
  }

  /** The polynomial constraints alone force every call, digest and link, but say nothing of the hash words. */
  lemma TraceWired(g: Mixing, wires: Wires, st: Statement, trace: seq<TraceRow>)
    requires TraceHolds(wires, st, trace)
    requires forall i: nat :: i < |st.calls| ==> CallMixes(g, st.calls[i])
    ensures IsWired(g, wires, st)
  {
    forall block: nat | block < |st.messages| ensures TailHolds(DataOf(st, block)) {
      TailForced(wires, st, trace, block);
    }
    forall step: nat | step < |st.calls|
      ensures CallHolds(g, wires, DataOf(st, step / G_ROWS), step % G_ROWS, st.calls[step])
    {
      StepForced(g, wires, st, trace, step / G_ROWS, step % G_ROWS);
    }
  }

  /** With the lookups of the final rows every block closes too. */
  lemma TraceCloses(g: Mixing, wires: Wires, st: Statement, trace: seq<TraceRow>)
    requires TracePasses(wires, st, trace)
    requires forall i: nat :: i < |st.calls| ==> CallMixes(g, st.calls[i])
    ensures Closes(g, wires, st)
  {
    TraceWired(g, wires, st, trace);
    forall block: nat | block < |st.messages|
      ensures BlockCloses(DataOf(st, block), Entering(g, wires, DataOf(st, block).initial, DataOf(st, block).message, G_ROWS))
    {
      BlockForced(g, wires, st, trace, block, DataOf(st, block));
    }
  }

  /** The block's hash words, digest and successor's chaining value are those of the compression function. */
  ghost predicate IsCompression(g: Mixing, d: BlockData) {
    d.hash == Compress(MixerOf(g), d.initial, d.message) && TailHolds(d)
  }

  /** A block closes over the fixed wiring exactly when it is a compression. */
  lemma ClosingIsCompression(g: Mixing, d: BlockData)
    ensures BlockCloses(d, Entering(g, WIRES, d.initial, d.message, G_ROWS)) <==> IsCompression(g, d)
  {
    WalkIsCompression(MixerOf(g), d.initial, d.message);
  }

  /** Over the verifier-built scope, with true mixing calls, a passing trace forces every block. */
  lemma TraceForcesCompression(g: Mixing, st: Statement, trace: seq<TraceRow>, block: nat)
    requires TracePasses(WIRES, st, trace) && block < |st.messages|
    requires forall i: nat :: i < |st.calls| ==> CallMixes(g, st.calls[i])
    ensures IsCompression(g, DataOf(st, block))
  {
    BlockForced(g, WIRES, st, trace, block, DataOf(st, block));
    ClosingIsCompression(g, DataOf(st, block));
  }
}
