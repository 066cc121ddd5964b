/**
 * Building the scheduler's calls and trace (compression_calls and trace_columns of
 * src/blake2b_lookup_compression.rs), and the converse of the scheduler's soundness: the built trace,
 * zero padding included, satisfies every row exactly when the statement is true.
 */
module Blake2bSchedulerTrace {
  import opened Arith
  import opened Field31
  import opened Words
  import opened Rfc7693
  import opened Blake2bScheduler
  import opened Wrappers
  import Blake2bG

  // ----- honest rows -----

  function MidWords(initial: State, next: State): (w: seq<U64>)
    ensures |w| == 8
  {
    seq(8, i requires 0 <= i < 8 => Xor64(initial[i], next[i]))
  }

  /** The row that takes state u through a call's outputs. */
  function RowOf(local: nat, initial: State, u: State, next: State): TraceRow {
    TraceRow(Columns(u), Columns(if local + 1 == G_ROWS then MidWords(initial, next) else Blank(8)), 1,
             Columns(next), Bit(local + 1 < G_ROWS))
  }

  function PaddingRow(): TraceRow {
    TraceRow(Columns(Blank(16)), Columns(Blank(8)), 0, Columns(Blank(16)), 0)
  }

  lemma ColumnsAreColumns(ws: seq<U64>)
    ensures IsColumns(Columns(ws), |ws|)
  {
    forall i: nat | i < |ws|
      ensures |Columns(ws)[i]| == 8 && IsElems(Columns(ws)[i])
    {
      ColumnsAre(ws, i);
    }
  }

  lemma RowOfIsRow(local: nat, initial: State, u: State, next: State)
    ensures IsRow(RowOf(local, initial, u, next)) && IsRow(PaddingRow())
    ensures StateIs(RowOf(local, initial, u, next).state, u) && StateIs(RowOf(local, initial, u, next).next, next)
  {
    ColumnsAreColumns(u);
    ColumnsAreColumns(next);
    ColumnsAreColumns(MidWords(initial, next));
    ColumnsAreColumns(Blank(8));
    ColumnsAreColumns(Blank(16));
  }

  // ----- each family of constraints holds -----

  /** A gated difference vanishes when the gate is closed or the two sides agree. */
  lemma Gated(gate: int, x: int, y: int)
    requires gate == 0 || x == y
    ensures Zero(gate * (x - y))
  {
  }

  lemma LanesHold(r: TraceRow, s: Scope, w: Wiring, v: State, u: State, input: seq<U64>, lane: nat, byte: nat)
    requires IsRow(r) && IsScope(s) && SelectorsAre(s, w) && lane < 16 && byte < 8 && |input| == 6
    requires StateIs(r.state, u) && StateIs(s.initial, v) && (s.first == 0 || u == v)
    requires forall g: nat :: g < 4 ==> s.call[g] == ToLE(input[g], 8) && input[g] == u[w.lanes[g]]
    ensures LaneByte(r, s, lane, byte)
  {
    Gated(s.first, r.state[lane][byte], s.initial[lane][byte]);
    forall g: nat | g < 4
      ensures Zero(s.active * s.selectors[g][lane] * (s.call[g][byte] - r.state[lane][byte]))
    {
      assert s.selectors[g] == OneHot(16, w.lanes[g]);
      Gated(s.active * s.selectors[g][lane], s.call[g][byte], r.state[lane][byte]);
    }
  }

  lemma InputHolds(r: TraceRow, s: Scope, u: State, g: nat, lane: nat, byte: nat)
    requires IsRow(r) && IsScope(s) && g < 4 && lane < 16 && byte < 8 && StateIs(r.state, u)
    requires s.selectors[g] == OneHot(16, lane) && s.call[g] == ToLE(u[lane], 8)
    ensures InputByte(r, s, g, byte)
  {
    DotOneHot(r.state, byte, lane, 16);
    Gated(s.active, s.call[g][byte], r.state[lane][byte]);
  }

  lemma MessageHolds(s: Scope, m: State, g: nat, word: nat, byte: nat)
    requires IsScope(s) && g < 2 && word < 16 && byte < 8 && StateIs(s.message, m)
    requires s.selectors[4 + g] == OneHot(16, word) && s.call[4 + g] == ToLE(m[word], 8)
    ensures MessageByte(s, g, byte)
  {
    DotOneHot(s.message, byte, word, 16);
    Gated(s.active, s.call[4 + g][byte], s.message[word][byte]);
  }

  lemma UpdateHolds(r: TraceRow, succ: TraceRow, s: Scope, w: Wiring, u: State, out: seq<U64>, lane: nat, byte: nat)
    requires IsRow(r) && IsRow(succ) && IsScope(s) && SelectorsAre(s, w) && |out| == 4 && lane < 16 && byte < 8
    requires forall g: nat :: g < 4 ==> s.call[6 + g] == ToLE(out[g], 8)
    requires StateIs(r.state, u) && StateIs(r.next, Written(u, w.lanes, out))
    requires s.advance == 0 || StateIs(succ.state, Written(u, w.lanes, out))
    ensures UpdateByte(r, succ, s, lane, byte)
  {
    UpdatedIs(s, w, u, out, lane, byte);
    Gated(s.active, r.next[lane][byte], Updated(s, lane, byte, r.state[lane][byte]));
    Gated(s.advance, succ.state[lane][byte], r.next[lane][byte]);
  }

  /** Exclusive or of words is exclusive or of their bytes. */
  lemma XorByByte(x: U64, y: U64, byte: nat)
    requires byte < 8
    ensures Blake2bG.InXorTable(ToLE(x, 8)[byte], ToLE(y, 8)[byte], ToLE(Xor64(x, y), 8)[byte])
  {
    var z := seq(8, i requires 0 <= i < 8 => Xor(8, ToLE(x, 8)[i], ToLE(y, 8)[i]));
    XorWords(ToLE(x, 8), ToLE(y, 8), z);
    Pow256Eight();
    LEToLE(x, 8);
    LEToLE(y, 8);
    ToLELE(z);
  }

  lemma LookupsHold(r: TraceRow, s: Scope, v: State, next: State, hash: Hash, word: nat, byte: nat)
    requires IsRow(r) && IsScope(s) && word < 8 && byte < 8 && StateIs(s.initial, v) && StateIs(r.next, next)
    requires r.mid == Columns(MidWords(v, next)) && s.hash == Columns(hash) && hash == Finish(v, next)
    ensures HashLookup(r, s, word, byte)
  {
    ColumnsAre(MidWords(v, next), word);
    ColumnsAre(hash, word);
    XorByByte(v[word], next[word], byte);
    XorByByte(Xor64(v[word], next[word]), next[word + 8], byte);
  }

  lemma HashHolds(s: Scope, d: BlockData, word: nat, byte: nat)
    requires IsScope(s) && word < 8 && byte < 8
    requires s.last == 0 || (s.hash == Columns(d.hash) && s.digest == Columns(d.digest) && d.digest == d.hash[..4])
    requires s.chain == 0 || (s.hash == Columns(d.hash) && s.nextHash == Columns(d.next) && d.next == d.hash)
    ensures HashByte(s, word, byte)
  {
    if word < 4 { Gated(s.last, s.hash[word][byte], s.digest[word][byte]); }
    Gated(s.chain, s.hash[word][byte], s.nextHash[word][byte]);
  }

  lemma InactiveHolds(s: Scope, columns: seq<seq<int>>)
    requires s.active == 1
    ensures InactiveZero(s, columns)
  {
    forall i: nat, byte: nat | i < |columns| && byte < |columns[i]|
      ensures Zero((1 - s.active) * columns[i][byte])
    {
      Gated(1 - s.active, columns[i][byte], 0);
    }
  }

  lemma FlagsHold(r: TraceRow, s: Scope, local: nat)
    requires local < G_ROWS && s.active == 1 && r.active == 1 && r.nextActive == Bit(local + 1 < G_ROWS)
    requires s.first == Bit(local == 0) && s.advance == Bit(local + 1 < G_ROWS) && s.last == Bit(local + 1 == G_ROWS)
    ensures Flags(r, s)
  {
  }

  /** What makes the row of one step right. */
  ghost predicate StepRight(w: Wiring, local: nat, d: BlockData, call: Blake2bG.Call, u: State, next: State) {
    && call.input == [u[w.lanes[0]], u[w.lanes[1]], u[w.lanes[2]], u[w.lanes[3]], d.message[w.x], d.message[w.y]]
    && next == Written(u, w.lanes, call.output)
    && (local == 0 ==> u == d.initial)
    && (local + 1 == G_ROWS ==> TailHolds(d))
  }

  lemma WiredHold(r: TraceRow, s: Scope, w: Wiring, d: BlockData, call: Blake2bG.Call, u: State)
    requires IsRow(r) && IsScope(s) && s.selectors == Selectors(w) && SelectorsAre(s, w)
    requires StateIs(r.state, u) && StateIs(s.initial, d.initial) && StateIs(s.message, d.message)
    requires s.call == Columns(call.input + call.output)
    requires call.input == [u[w.lanes[0]], u[w.lanes[1]], u[w.lanes[2]], u[w.lanes[3]], d.message[w.x], d.message[w.y]]
    requires s.first == 0 || u == d.initial
    ensures forall lane: nat, byte: nat :: lane < 16 && byte < 8 ==> LaneByte(r, s, lane, byte)
    ensures forall g: nat, byte: nat :: g < 4 && byte < 8 ==> InputByte(r, s, g, byte)
    ensures forall g: nat, byte: nat :: g < 2 && byte < 8 ==> MessageByte(s, g, byte)
  {
    CallWords(call);
    forall lane: nat, byte: nat | lane < 16 && byte < 8 ensures LaneByte(r, s, lane, byte) {
      LanesHold(r, s, w, d.initial, u, call.input, lane, byte);
    }
    forall g: nat, byte: nat | g < 4 && byte < 8 ensures InputByte(r, s, g, byte) {
      InputHolds(r, s, u, g, w.lanes[g], byte);
    }
    forall g: nat, byte: nat | g < 2 && byte < 8 ensures MessageByte(s, g, byte) {
      MessageHolds(s, d.message, g, if g == 0 then w.x else w.y, byte);
    }
  }

  lemma MovesHold(r: TraceRow, succ: TraceRow, s: Scope, w: Wiring, call: Blake2bG.Call, u: State)
    requires IsRow(r) && IsRow(succ) && IsScope(s) && SelectorsAre(s, w)
    requires StateIs(r.state, u) && s.call == Columns(call.input + call.output)
    requires StateIs(r.next, Written(u, w.lanes, call.output))
    requires s.advance == 0 || StateIs(succ.state, Written(u, w.lanes, call.output))
    ensures forall lane: nat, byte: nat :: lane < 16 && byte < 8 ==> UpdateByte(r, succ, s, lane, byte)
  {
    CallWords(call);
    forall lane: nat, byte: nat | lane < 16 && byte < 8 ensures UpdateByte(r, succ, s, lane, byte) {
      UpdateHolds(r, succ, s, w, u, call.output, lane, byte);
    }
  }

  lemma TailRowHolds(s: Scope, d: BlockData)
    requires IsScope(s)
    requires s.last == 0 || (s.hash == Columns(d.hash) && s.digest == Columns(d.digest) && d.digest == d.hash[..4])
    requires s.chain == 0 || (s.hash == Columns(d.hash) && s.nextHash == Columns(d.next) && d.next == d.hash)
    ensures forall word: nat, byte: nat :: word < 8 && byte < 8 ==> HashByte(s, word, byte)
  {
    forall word: nat, byte: nat | word < 8 && byte < 8 ensures HashByte(s, word, byte) {
      HashHolds(s, d, word, byte);
    }
  }

  lemma RowComplete(w: Wiring, r: TraceRow, succ: TraceRow, s: Scope, local: nat, d: BlockData, call: Blake2bG.Call, u: State, next: State)
    requires local < G_ROWS && ScopeFacts(w, s, local, d, call) && StepRight(w, local, d, call, u, next)
    requires r == RowOf(local, d.initial, u, next) && IsRow(succ)
    requires local + 1 < G_ROWS ==> StateIs(succ.state, next)
    ensures RowHolds(r, succ, s)
  {
    RowOfIsRow(local, d.initial, u, next);
    FlagsHold(r, s, local);
    InactiveHolds(s, r.state);
    InactiveHolds(s, r.mid);
    InactiveHolds(s, r.next);
    WiredHold(r, s, w, d, call, u);
    MovesHold(r, succ, s, w, call, u);
    TailRowHolds(s, d);
  }

  // ----- padding -----

  lemma BlankBytes(n: nat, i: nat, byte: nat)
    requires i < n && byte < 8
    ensures Columns(Blank(n))[i][byte] == 0
  {
    ColumnsAre(Blank(n), i);
    ZeroBytes(8, byte);
  }

  lemma {:induction false} ZeroBytes(n: nat, i: nat)
    requires i < n
    ensures ToLE(0, n)[i] == 0
  {
    if i > 0 { ZeroBytes(n - 1, i - 1); }
  }

  lemma InactiveBlank(s: Scope, n: nat)
    ensures InactiveZero(s, Columns(Blank(n)))
  {
    forall i: nat, byte: nat | i < n && byte < 8
      ensures Zero((1 - s.active) * Columns(Blank(n))[i][byte])
    {
      BlankBytes(n, i, byte);
      Gated(1 - s.active, 0, 0);
    }
  }

  lemma PaddingScopeShape()
    ensures IsScope(PaddingScope())
  {
    ColumnsAreColumns(Blank(4));
    ColumnsAreColumns(Blank(8));
    ColumnsAreColumns(Blank(10));
    ColumnsAreColumns(Blank(16));
  }

  lemma ClosedGates(r: TraceRow, succ: TraceRow, s: Scope)
    requires IsRow(r) && IsRow(succ) && IsScope(s)
    requires s.active == s.first == s.last == s.advance == s.chain == 0
    ensures forall lane: nat, byte: nat :: lane < 16 && byte < 8 ==> LaneByte(r, s, lane, byte)
    ensures forall word: nat, byte: nat :: word < 8 && byte < 8 ==> HashByte(s, word, byte)
    ensures forall g: nat, byte: nat :: g < 4 && byte < 8 ==> InputByte(r, s, g, byte)
    ensures forall g: nat, byte: nat :: g < 2 && byte < 8 ==> MessageByte(s, g, byte)
    ensures forall lane: nat, byte: nat :: lane < 16 && byte < 8 ==> UpdateByte(r, succ, s, lane, byte)
  {
  }

  /** A padding row holds whatever row follows it. */
  lemma PaddingHolds(succ: TraceRow)
    requires IsRow(succ)
    ensures RowHolds(PaddingRow(), succ, PaddingScope())
  {
    var r, s := PaddingRow(), PaddingScope();
    RowOfIsRow(0, Blank(16), Blank(16), Blank(16));
    PaddingScopeShape();
    InactiveBlank(s, 16);
    InactiveBlank(s, 8);
    ClosedGates(r, succ, s);
  }

  lemma BlankForced(s: Scope, columns: seq<seq<int>>, n: nat)
    requires s.active == 0 && IsColumns(columns, n) && InactiveZero(s, columns)
    ensures columns == Columns(Blank(n))
  {
    forall i: nat | i < n ensures columns[i] == Columns(Blank(n))[i] {
      forall byte: nat | byte < 8 ensures columns[i][byte] == Columns(Blank(n))[i][byte] {
        assert Zero((1 - s.active) * columns[i][byte]);
        ByteZero(columns[i][byte], 0);
        BlankBytes(n, i, byte);
      }
    }
  }

  /** Over a padding scope only the all-zero row passes. */
  lemma PaddingIff(r: TraceRow, succ: TraceRow)
    requires IsRow(r) && IsRow(succ)
    ensures RowHolds(r, succ, PaddingScope()) <==> r == PaddingRow()
  {
    var s := PaddingScope();
    if r == PaddingRow() { PaddingHolds(succ); }
    if RowHolds(r, succ, s) {
      BlankForced(s, r.state, 16);
      BlankForced(s, r.mid, 8);
      BlankForced(s, r.next, 16);
      ActiveSound(r, s);
    }
  }

  // ----- whole traces -----

  type Writer = (State, Wiring, Blake2bG.Call) -> State

  /** Writing a call's outputs to its lanes. */
  const WRITE: Writer := (u: State, w: Wiring, call: Blake2bG.Call) => Written(u, w.lanes, call.output)

  /** The state after writing k calls over the wiring. */
  function Replay(write: Writer, wires: Wires, v: State, calls: seq<Blake2bG.Call>, k: nat): State
    requires k <= |calls|
  {
    if k == 0 then v else write(Replay(write, wires, v, calls, k - 1), wires(k - 1), calls[k - 1])
  }

  function CallsOf(calls: seq<Blake2bG.Call>, block: nat): (c: seq<Blake2bG.Call>)
    requires G_ROWS * block + G_ROWS <= |calls|
    ensures |c| == G_ROWS
  {
    calls[G_ROWS * block..G_ROWS * block + G_ROWS]
  }

  function StepRow(wires: Wires, v: State, calls: seq<Blake2bG.Call>, local: nat): TraceRow
    requires local < G_ROWS && |calls| == G_ROWS
  {
    RowOf(local, v, Replay(WRITE, wires, v, calls, local), Replay(WRITE, wires, v, calls, local + 1))
  }

  lemma BlockInside(blocks: nat, i: nat)
    requires i < blocks * G_ROWS
    ensures i / G_ROWS < blocks && G_ROWS * (i / G_ROWS) + G_ROWS <= blocks * G_ROWS
  {
  }

  /** The cells (block, local) laid out one after another, then padding. */
  function Blockwise<T>(f: (nat, nat) -> T, blocks: nat, pad: T, i: nat): T {
    if i < blocks * G_ROWS then f(i / G_ROWS, i % G_ROWS) else pad
  }

  lemma BlockwiseAt<T>(f: (nat, nat) -> T, blocks: nat, pad: T, block: nat, local: nat)
    requires block < blocks && local < G_ROWS
    ensures block * G_ROWS + local < blocks * G_ROWS && Blockwise(f, blocks, pad, block * G_ROWS + local) == f(block, local)
  {
    DivModUnique(block * G_ROWS + local, G_ROWS, block, local);
    MulMono(G_ROWS, block, blocks - 1);
  }

  function RowCells(wires: Wires, initial: seq<State>, calls: seq<Blake2bG.Call>): (nat, nat) -> TraceRow {
    (block: nat, local: nat) =>
      if block < |initial| && local < G_ROWS && G_ROWS * block + G_ROWS <= |calls|
      then StepRow(wires, initial[block], CallsOf(calls, block), local)
      else PaddingRow()
  }

  function TraceOf(wires: Wires, initial: seq<State>, calls: seq<Blake2bG.Call>, rows: nat): seq<TraceRow> {
    seq(rows, i requires 0 <= i => Blockwise(RowCells(wires, initial, calls), |initial|, PaddingRow(), i))
  }

  ghost predicate BlockCalls(g: Mixing, wires: Wires, v: State, m: State, calls: seq<Blake2bG.Call>) {
    |calls| == G_ROWS && forall local: nat :: local < G_ROWS ==> IsCall(g, wires, v, m, local, calls[local])
  }

  /** Writing call i to the walk's state makes the walk's step. */
  ghost predicate Follows(write: Writer, step: StepFunction, wires: Wires, v: State, i: nat, call: Blake2bG.Call) {
    write(Walk(step, wires, v, 0, i), wires(i), call) == step(Walk(step, wires, v, 0, i), wires(i))
  }

  lemma {:induction false} ReplayFollows(write: Writer, step: StepFunction, wires: Wires, v: State, calls: seq<Blake2bG.Call>, k: nat)
    requires k <= |calls|
    requires forall i: nat :: i < |calls| ==> Follows(write, step, wires, v, i, calls[i])
    ensures Replay(write, wires, v, calls, k) == Walk(step, wires, v, 0, k)
  {
    if k > 0 {
      ReplayFollows(write, step, wires, v, calls, k - 1);
      assert Follows(write, step, wires, v, k - 1, calls[k - 1]);
    }
  }

  lemma ReplayIsWalk(g: Mixing, wires: Wires, v: State, m: State, calls: seq<Blake2bG.Call>, k: nat)
    requires BlockCalls(g, wires, v, m, calls) && k <= G_ROWS
    ensures Replay(WRITE, wires, v, calls, k) == Entering(g, wires, v, m, k)
  {
    var step := StepOf(MixerOf(g), m);
    forall i: nat | i < |calls|
      ensures Follows(WRITE, step, wires, v, i, calls[i])
    {
      assert IsCall(g, wires, v, m, i, calls[i]);
      WriteIsStep(g, m, Walk(step, wires, v, 0, i), wires(i));
    }
    ReplayFollows(WRITE, step, wires, v, calls, k);
  }

  lemma CallOfStep(g: Mixing, wires: Wires, st: Statement, step: nat, block: nat, local: nat, d: BlockData)
    requires Accepts(st) && IsWired(g, wires, st) && block < |st.messages| && d == DataOf(st, block)
    requires step < |st.calls| && step / G_ROWS == block && step % G_ROWS == local
    ensures CallHolds(g, wires, d, local, st.calls[step])
  {
  }

  lemma CallOfBlock(g: Mixing, wires: Wires, st: Statement, block: nat, local: nat)
    requires Accepts(st) && IsWired(g, wires, st) && block < |st.messages| && local < G_ROWS
    ensures G_ROWS * block + local < |st.calls|
    ensures IsCall(g, wires, st.initial[block], DataOf(st, block).message, local, st.calls[G_ROWS * block + local])
  {
    var step := BlockStep(st, block, local);
    CallOfStep(g, wires, st, step, block, local, DataOf(st, block));
  }

  lemma CallsOfBlock(g: Mixing, wires: Wires, st: Statement, block: nat)
    requires Accepts(st) && IsWired(g, wires, st) && block < |st.messages|
    ensures G_ROWS * block + G_ROWS <= |st.calls|
    ensures BlockCalls(g, wires, st.initial[block], DataOf(st, block).message, CallsOf(st.calls, block))
  {
    MulMono(G_ROWS, block + 1, |st.messages|);
    forall local: nat | local < G_ROWS
      ensures IsCall(g, wires, st.initial[block], DataOf(st, block).message, local, CallsOf(st.calls, block)[local])
    {
      CallOfBlock(g, wires, st, block, local);
    }
  }

  lemma StepIsRight(g: Mixing, wires: Wires, d: BlockData, calls: seq<Blake2bG.Call>, local: nat)
    requires local < G_ROWS && BlockCalls(g, wires, d.initial, d.message, calls)
    requires TailHolds(d)
    ensures StepRight(wires(local), local, d, calls[local],
                      Replay(WRITE, wires, d.initial, calls, local), Replay(WRITE, wires, d.initial, calls, local + 1))
  {
    ReplayIsWalk(g, wires, d.initial, d.message, calls, local);
    assert IsCall(g, wires, d.initial, d.message, local, calls[local]);
  }

  lemma BlockRowHolds(g: Mixing, wires: Wires, d: BlockData, calls: seq<Blake2bG.Call>, local: nat, succ: TraceRow)
    requires BlockCalls(g, wires, d.initial, d.message, calls) && local < G_ROWS && IsRow(succ)
    requires TailHolds(d)
    requires local + 1 < G_ROWS ==> succ == StepRow(wires, d.initial, calls, local + 1)
    ensures RowHolds(StepRow(wires, d.initial, calls, local), succ, ScopeFor(wires(local), local, d, calls[local]))
  {
    var w, u, next := wires(local), Replay(WRITE, wires, d.initial, calls, local), Replay(WRITE, wires, d.initial, calls, local + 1);
    StepIsRight(g, wires, d, calls, local);
    ScopeShape(w, local, d, calls[local]);
    if local + 1 < G_ROWS { RowOfIsRow(local + 1, d.initial, next, Replay(WRITE, wires, d.initial, calls, local + 2)); }
    RowComplete(w, RowOf(local, d.initial, u, next), succ, ScopeFor(w, local, d, calls[local]), local, d, calls[local], u, next);
  }

  // The linking of cells into a cycle of rows, for any rows, scope rows and constraints.

  /** A cell passes over its scope; one that ends its block does so whatever row follows it. */
  ghost predicate Meets<R(!new), S>(ok: R -> bool, pass: (R, R, S) -> bool, f: (nat, nat) -> R, h: (nat, nat) -> S, block: nat, local: nat) {
    && ok(f(block, local))
    && (local + 1 == G_ROWS ==> forall succ :: ok(succ) ==> pass(f(block, local), succ, h(block, local)))
    && (local + 1 < G_ROWS ==> pass(f(block, local), f(block, local + 1), h(block, local)))
  }

  lemma BlockwiseOk<R(!new), S>(ok: R -> bool, pass: (R, R, S) -> bool, f: (nat, nat) -> R, h: (nat, nat) -> S, blocks: nat, pad: R, i: nat)
    requires ok(pad) && forall b: nat, l: nat :: b < blocks && l < G_ROWS ==> Meets(ok, pass, f, h, b, l)
    ensures ok(Blockwise(f, blocks, pad, i))
  {
    if i < blocks * G_ROWS {
      BlockInside(blocks, i);
      assert Meets(ok, pass, f, h, i / G_ROWS, i % G_ROWS);
    }
  }

  lemma NextInBlock(blocks: nat, i: nat)
    requires i < blocks * G_ROWS && i % G_ROWS + 1 < G_ROWS
    ensures i + 1 < blocks * G_ROWS && (i + 1) / G_ROWS == i / G_ROWS && (i + 1) % G_ROWS == i % G_ROWS + 1
  {
  }

  lemma CyclePasses<R(!new), S>(ok: R -> bool, pass: (R, R, S) -> bool, f: (nat, nat) -> R, h: (nat, nat) -> S,
                                blocks: nat, pad: R, padScope: S, rows: nat, i: nat)
    requires ok(pad) && forall b: nat, l: nat :: b < blocks && l < G_ROWS ==> Meets(ok, pass, f, h, b, l)
    requires forall succ :: ok(succ) ==> pass(pad, succ, padScope)
    requires blocks * G_ROWS <= rows && i < rows
    ensures pass(Blockwise(f, blocks, pad, i), Blockwise(f, blocks, pad, (i + 1) % rows), Blockwise(h, blocks, padScope, i))
  {
    BlockwiseOk(ok, pass, f, h, blocks, pad, (i + 1) % rows);
    if i < blocks * G_ROWS {
      BlockInside(blocks, i);
      assert Meets(ok, pass, f, h, i / G_ROWS, i % G_ROWS);
      if i % G_ROWS + 1 < G_ROWS {
        NextInBlock(blocks, i);
        SmallMod(i + 1, rows);
      }
    }
  }

  function ScopeCells(wires: Wires, st: Statement): (nat, nat) -> Scope
    requires Accepts(st)
  {
    (block: nat, local: nat) =>
      if block < |st.messages| && local < G_ROWS && G_ROWS * block + local < |st.calls|
      then ScopeFor(wires(local), local, DataOf(st, block), st.calls[G_ROWS * block + local])
      else PaddingScope()
  }

  lemma ScopeIsBlockwise(wires: Wires, st: Statement, i: nat)
    requires Accepts(st)
    ensures ScopeAt(wires, st, i) == Blockwise(ScopeCells(wires, st), |st.messages|, PaddingScope(), i)
  {
    if i < |st.calls| { BlockInside(|st.messages|, i); }
  }

  lemma StepRowIsRow(wires: Wires, v: State, calls: seq<Blake2bG.Call>, local: nat)
    requires local < G_ROWS && |calls| == G_ROWS
    ensures IsRow(StepRow(wires, v, calls, local))
  {
    RowOfIsRow(local, v, Replay(WRITE, wires, v, calls, local), Replay(WRITE, wires, v, calls, local + 1));
  }

  type Relation = (TraceRow, TraceRow, Scope) -> bool

  /** The rows of one block meet their scope. */
  lemma BlockMeets(g: Mixing, wires: Wires, d: BlockData, calls: seq<Blake2bG.Call>, b: nat, local: nat,
                   f: (nat, nat) -> TraceRow, h: (nat, nat) -> Scope, pass: Relation)
    requires BlockCalls(g, wires, d.initial, d.message, calls) && local < G_ROWS && pass == RowHolds
    requires TailHolds(d)
    requires f(b, local) == StepRow(wires, d.initial, calls, local) && h(b, local) == ScopeFor(wires(local), local, d, calls[local])
    requires local + 1 < G_ROWS ==> f(b, local + 1) == StepRow(wires, d.initial, calls, local + 1)
    ensures Meets(IsRow, pass, f, h, b, local)
  {
    StepRowIsRow(wires, d.initial, calls, local);
    if local + 1 < G_ROWS {
      StepRowIsRow(wires, d.initial, calls, local + 1);
      BlockRowHolds(g, wires, d, calls, local, f(b, local + 1));
    } else {
      forall succ | IsRow(succ) ensures pass(f(b, local), succ, h(b, local)) {
        BlockRowHolds(g, wires, d, calls, local, succ);
      }
    }
  }

  lemma CellsAre(wires: Wires, st: Statement, block: nat, local: nat, d: BlockData, calls: seq<Blake2bG.Call>,
                 f: (nat, nat) -> TraceRow, h: (nat, nat) -> Scope)
    requires Accepts(st) && block < |st.messages| && local < G_ROWS && G_ROWS * block + G_ROWS <= |st.calls|
    requires f == RowCells(wires, st.initial, st.calls) && h == ScopeCells(wires, st)
    requires d == DataOf(st, block) && calls == CallsOf(st.calls, block)
    ensures f(block, local) == StepRow(wires, d.initial, calls, local)
    ensures h(block, local) == ScopeFor(wires(local), local, d, calls[local])
  {
  }

  lemma StepMeets(g: Mixing, wires: Wires, st: Statement, block: nat, local: nat, d: BlockData, calls: seq<Blake2bG.Call>,
                  f: (nat, nat) -> TraceRow, h: (nat, nat) -> Scope, pass: Relation)
    requires Accepts(st) && IsWired(g, wires, st) && block < |st.messages| && local < G_ROWS && G_ROWS * block + G_ROWS <= |st.calls|
    requires f == RowCells(wires, st.initial, st.calls) && h == ScopeCells(wires, st) && pass == RowHolds
    requires d == DataOf(st, block) && calls == CallsOf(st.calls, block)
    ensures Meets(IsRow, pass, f, h, block, local)
  {
    CallsOfBlock(g, wires, st, block);
    CellsAre(wires, st, block, local, d, calls, f, h);
    if local + 1 < G_ROWS { CellsAre(wires, st, block, local + 1, d, calls, f, h); }
    BlockMeets(g, wires, d, calls, block, local, f, h, pass);
  }

  lemma PaddingIsRow()
    ensures IsRow(PaddingRow())
  {
    RowOfIsRow(0, Blank(16), Blank(16), Blank(16));
  }

  lemma AllHold(g: Mixing, wires: Wires, st: Statement, rows: nat, i: nat, f: (nat, nat) -> TraceRow, h: (nat, nat) -> Scope, pass: Relation)
    requires Accepts(st) && IsWired(g, wires, st) && |st.calls| <= rows && i < rows
    requires f == RowCells(wires, st.initial, st.calls) && h == ScopeCells(wires, st) && pass == RowHolds
    ensures pass(Blockwise(f, |st.messages|, PaddingRow(), i), Blockwise(f, |st.messages|, PaddingRow(), (i + 1) % rows),
                 Blockwise(h, |st.messages|, PaddingScope(), i))
  {
    forall b: nat, local: nat | b < |st.messages| && local < G_ROWS ensures Meets(IsRow, pass, f, h, b, local) {
      MulMono(G_ROWS, b + 1, |st.messages|);
      StepMeets(g, wires, st, b, local, DataOf(st, b), CallsOf(st.calls, b), f, h, pass);
    }
    PaddingIsRow();
    forall succ | IsRow(succ) ensures pass(PaddingRow(), succ, PaddingScope()) {
      PaddingHolds(succ);
    }
    CyclePasses(IsRow, pass, f, h, |st.messages|, PaddingRow(), PaddingScope(), rows, i);
  }

  /** The built trace of a wired statement meets its polynomial constraints, padding included. */
  lemma WiredHolds(g: Mixing, wires: Wires, st: Statement, rows: nat)
    requires Accepts(st) && IsWired(g, wires, st) && |st.calls| <= rows
    ensures TraceHolds(wires, st, TraceOf(wires, st.initial, st.calls, rows))
  {
    var trace, scope := TraceOf(wires, st.initial, st.calls, rows), ScopeRows(wires, st, rows);
    forall i: nat | i < rows ensures HoldsAt(trace, scope, i) {
      AllHold(g, wires, st, rows, i, RowCells(wires, st.initial, st.calls), ScopeCells(wires, st), RowHolds);
      ScopeIsBlockwise(wires, st, i);
    }
  }

  /** The lookups of the row that ends a block, when its hash words are right. */
  lemma FinalLookups(wires: Wires, d: BlockData, calls: seq<Blake2bG.Call>, local: nat, r: TraceRow, s: Scope)
    requires |calls| == G_ROWS && local + 1 == G_ROWS && r == StepRow(wires, d.initial, calls, local)
    requires s == ScopeFor(wires(local), local, d, calls[local])
    requires d.hash == Finish(d.initial, Replay(WRITE, wires, d.initial, calls, G_ROWS))
    ensures IsRow(r) && IsScope(s) && HashLookups(r, s)
  {
    var u, next := Replay(WRITE, wires, d.initial, calls, local), Replay(WRITE, wires, d.initial, calls, G_ROWS);
    ScopeShape(wires(local), local, d, calls[local]);
    RowOfIsRow(local, d.initial, u, next);
    forall word: nat, byte: nat | word < 8 && byte < 8 ensures HashLookup(r, s, word, byte) {
      LookupsHold(r, s, d.initial, next, d.hash, word, byte);
    }
  }

  lemma CellAt(wires: Wires, st: Statement, rows: nat, i: nat, block: nat, local: nat)
    requires Accepts(st) && i < |st.calls| <= rows && block == i / G_ROWS && local == i % G_ROWS
    ensures block < |st.messages| && G_ROWS * block + G_ROWS <= |st.calls|
    ensures TraceOf(wires, st.initial, st.calls, rows)[i] == StepRow(wires, st.initial[block], CallsOf(st.calls, block), local)
    ensures ScopeRows(wires, st, rows)[i] == ScopeFor(wires(local), local, DataOf(st, block), CallsOf(st.calls, block)[local])
  {
    BlockInside(|st.messages|, i);
  }

  lemma ClosedLooksUp(g: Mixing, wires: Wires, st: Statement, block: nat, local: nat, calls: seq<Blake2bG.Call>, r: TraceRow, s: Scope)
    requires Accepts(st) && Closes(g, wires, st) && block < |st.messages| && local + 1 == G_ROWS
    requires G_ROWS * block + G_ROWS <= |st.calls| && calls == CallsOf(st.calls, block)
    requires r == StepRow(wires, st.initial[block], calls, local) && s == ScopeFor(wires(local), local, DataOf(st, block), calls[local])
    ensures IsRow(r) && IsScope(s) && HashLookups(r, s)
  {
    var d := DataOf(st, block);
    CallsOfBlock(g, wires, st, block);
    ReplayIsWalk(g, wires, d.initial, d.message, calls, G_ROWS);
    assert BlockCloses(d, Entering(g, wires, d.initial, d.message, G_ROWS));
    FinalLookups(wires, d, calls, local, r, s);
  }

  /** The built trace of a true statement passes: its lookups hit too. */
  lemma TrueStatementPasses(g: Mixing, wires: Wires, st: Statement, rows: nat)
    requires Accepts(st) && Closes(g, wires, st) && |st.calls| <= rows
    ensures TracePasses(wires, st, TraceOf(wires, st.initial, st.calls, rows))
  {
    var trace, scope := TraceOf(wires, st.initial, st.calls, rows), ScopeRows(wires, st, rows);
    WiredHolds(g, wires, st, rows);
    forall i: nat | i < rows ensures LooksUpAt(trace, scope, i) {
      assert HoldsAt(trace, scope, i);
      if i < |st.calls| && i % G_ROWS + 1 == G_ROWS {
        CellAt(wires, st, rows, i, i / G_ROWS, i % G_ROWS);
        ClosedLooksUp(g, wires, st, i / G_ROWS, i % G_ROWS, CallsOf(st.calls, i / G_ROWS), trace[i], scope[i]);
      }
    }
  }

  /** A wired statement closes exactly when the lookups of its built trace hit. */
  lemma WiredClosesIff(g: Mixing, wires: Wires, st: Statement, rows: nat)
    requires Accepts(st) && IsWired(g, wires, st) && |st.calls| <= rows
    ensures TracePasses(wires, st, TraceOf(wires, st.initial, st.calls, rows)) <==> Closes(g, wires, st)
  {
    forall i: nat | i < |st.calls| ensures CallMixes(g, st.calls[i]) {
      assert CallHolds(g, wires, DataOf(st, i / G_ROWS), i % G_ROWS, st.calls[i]);
    }
    if Closes(g, wires, st) { TrueStatementPasses(g, wires, st, rows); }
    if TracePasses(wires, st, TraceOf(wires, st.initial, st.calls, rows)) {
      TraceCloses(g, wires, st, TraceOf(wires, st.initial, st.calls, rows));
    }
  }

  /** The statement is true: every block is a compression, and the calls are those its rows make, in order. */
  ghost predicate IsTrue(g: Mixing, st: Statement)
    requires Accepts(st)
  {
    && (forall block: nat :: block < |st.messages| ==> IsCompression(g, DataOf(st, block)))
    && (forall step: nat :: step < |st.calls| ==> CallHolds(g, WIRES, DataOf(st, step / G_ROWS), step % G_ROWS, st.calls[step]))
  }

  lemma TrueIsClosed(g: Mixing, st: Statement)
    requires Accepts(st)
    ensures IsTrue(g, st) <==> Closes(g, WIRES, st)
  {
    forall block: nat | block < |st.messages|
      ensures IsCompression(g, DataOf(st, block))
        <==> BlockCloses(DataOf(st, block), Entering(g, WIRES, DataOf(st, block).initial, DataOf(st, block).message, G_ROWS))
    {
      ClosingIsCompression(g, DataOf(st, block));
    }
  }

  /** With true mixing calls, some trace passes exactly when the statement is true; the built one then does. */
  lemma PassesIffTrue(g: Mixing, st: Statement, rows: nat)
    requires Accepts(st) && |st.calls| <= rows
    requires forall i: nat :: i < |st.calls| ==> CallMixes(g, st.calls[i])
    ensures (exists trace :: |trace| == rows && TracePasses(WIRES, st, trace)) <==> IsTrue(g, st)
    ensures TracePasses(WIRES, st, TraceOf(WIRES, st.initial, st.calls, rows)) <==> IsTrue(g, st)
  {
    TrueIsClosed(g, st);
    if IsTrue(g, st) { TrueStatementPasses(g, WIRES, st, rows); }
    if trace :| |trace| == rows && TracePasses(WIRES, st, trace) { TraceCloses(g, WIRES, st, trace); }
  }

  // ----- the builders -----

  /** rotate_left(1) is a rotation to the right by 63. */
  function RotL1(x: U64): (r: U64)
    ensures r == RotR(x, 63)
  {
    LeftOneIsRight63(x);
    (2 * x) % W64 + x / 0x8000_0000_0000_0000
  }

  lemma LeftOneIsRight63(x: U64)
    ensures 0 <= (2 * x) % W64 + x / 0x8000_0000_0000_0000 == RotR(x, 63) < W64
  {
    var c := x / 0x8000_0000_0000_0000;
    assert (2 * x) % W64 == 2 * x - W64 * c;
    RotR63(x, c, 2 * x - W64 * c + c);
  }

  /** The builder's own G, which rotates left by one where the RFC rotates right by 63. */
  function GOutputs(a: U64, b: U64, c: U64, d: U64, x: U64, y: U64): (out: seq<U64>)
    ensures |out| == 4 && Quad(out[0], out[1], out[2], out[3]) == G(a, b, c, d, x, y)
  {
    var a1 := Plus(a, b, x);
    var d1 := XorRotR(d, a1, 32);
    var c1 := Plus(c, d1, 0);
    var b1 := XorRotR(b, c1, 24);
    var a2 := Plus(a1, b1, y);
    var d2 := XorRotR(d1, a2, 16);
    var c2 := Plus(c1, d2, 0);
    [a2, RotL1(Xor64(b1, c2)), c2, d2]
  }

  type Caller = (State, Wiring) -> Blake2bG.Call

  /** One row of the builder: the call made from the state, and the state it leaves. */
  method MixRow(words: State, state: State, w: Wiring, ghost step: StepFunction, ghost make: Caller)
      returns (call: Blake2bG.Call, next: State)
    requires step == StepOf(MIX_G, words) && make == CallerOf(words)
    ensures call == make(state, w) && next == step(state, w)
  {
    var input := [state[w.lanes[0]], state[w.lanes[1]], state[w.lanes[2]], state[w.lanes[3]], words[w.x], words[w.y]];
    var output := GOutputs(input[0], input[1], input[2], input[3], input[4], input[5]);
    call := Blake2bG.RawCall(input, output);
    next := Written(state, w.lanes, output);
    WriteIsStep(G, words, state, w);
  }

  function CallerOf(words: State): Caller {
    (u: State, w: Wiring) => CallAt(G, words, u, w)
  }

  method CompressBlock(wires: Wires, words: State, initial: State, ghost step: StepFunction, ghost make: Caller)
      returns (calls: seq<Blake2bG.Call>, hash: Hash)
    requires step == StepOf(MIX_G, words) && make == CallerOf(words)
    ensures |calls| == G_ROWS
    ensures forall i: nat :: i < G_ROWS ==> calls[i] == make(Walk(step, wires, initial, 0, i), wires(i))
    ensures hash == Finish(initial, Walk(step, wires, initial, 0, G_ROWS))
  {
    var state := initial;
    calls := [];
    for row := 0 to G_ROWS
      invariant |calls| == row && state == Walk(step, wires, initial, 0, row)
      invariant forall i: nat :: i < row ==> calls[i] == make(Walk(step, wires, initial, 0, i), wires(i))
    {
      var call, next := MixRow(words, state, wires(row), step, make);
      calls, state := calls + [call], next;
    }
    hash := Finish(initial, state);
  }

  /** The calls and hash words of one block are those of its compression. */
  ghost predicate Compressed(words: State, initial: State, calls: seq<Blake2bG.Call>, hash: Hash) {
    BlockCalls(G, WIRES, initial, words, calls) && hash == Compress(MIX_G, initial, words)
  }

  type BlockRelation = (State, State, seq<Blake2bG.Call>, Hash) -> bool

  ghost predicate EachBlock(good: BlockRelation, messages: seq<Block>, initial: seq<State>, calls: seq<Blake2bG.Call>, hashes: seq<Hash>, n: nat) {
    && |messages| == |initial| && n <= |messages| && |calls| == n * G_ROWS && |hashes| == n
    && forall b: nat :: b < n ==>
      G_ROWS * b + G_ROWS <= |calls| && good(MessageWords(messages[b]), initial[b], CallsOf(calls, b), hashes[b])
  }

  lemma BlockAppended(good: BlockRelation, messages: seq<Block>, initial: seq<State>, calls: seq<Blake2bG.Call>, hashes: seq<Hash>, n: nat,
                      more: seq<Blake2bG.Call>, hash: Hash)
    requires EachBlock(good, messages, initial, calls, hashes, n) && n < |messages| && |more| == G_ROWS
    requires good(MessageWords(messages[n]), initial[n], more, hash)
    ensures EachBlock(good, messages, initial, calls + more, hashes + [hash], n + 1)
  {
    forall b: nat | b < n + 1
      ensures G_ROWS * b + G_ROWS <= |calls + more|
      ensures good(MessageWords(messages[b]), initial[b], CallsOf(calls + more, b), (hashes + [hash])[b])
    {
      if b < n {
        assert CallsOf(calls + more, b) == CallsOf(calls, b);
      } else {
        assert CallsOf(calls + more, b) == more;
      }
    }
  }

  lemma IsBlock(words: State, initial: State, wires: Wires, c: seq<Blake2bG.Call>, step: StepFunction, make: Caller)
    requires |c| == G_ROWS && step == StepOf(MIX_G, words) && make == CallerOf(words)
    requires forall i: nat :: i < G_ROWS ==> c[i] == make(Walk(step, wires, initial, 0, i), wires(i))
    ensures BlockCalls(G, wires, initial, words, c)
  {
  }

  method NextBlock(wires: Wires, words: State, initial: State) returns (c: seq<Blake2bG.Call>, hash: Hash)
    requires wires == WIRES
    ensures BlockCalls(G, wires, initial, words, c) && hash == Compress(MIX_G, initial, words)
  {
    ghost var step, make := StepOf(MIX_G, words), CallerOf(words);
    c, hash := CompressBlock(wires, words, initial, step, make);
    IsBlock(words, initial, wires, c, step, make);
    WalkIsCompression(MIX_G, initial, words);
  }

  /** All calls of all blocks in order, and every block's hash words; refused only for a shape mismatch. */
  method CompressionCalls(messages: seq<Block>, initial: seq<State>)
      returns (r: Option<(seq<Blake2bG.Call>, seq<Hash>)>)
    ensures r.None? <==> |messages| == 0 || |messages| != |initial|
    ensures r.Some? ==> EachBlock(Compressed, messages, initial, r.value.0, r.value.1, |messages|)
  {
    if |messages| == 0 || |messages| != |initial| { return None; }
    var calls: seq<Blake2bG.Call>, hashes: seq<Hash> := [], [];
    for i := 0 to |messages|
      invariant EachBlock(Compressed, messages, initial, calls, hashes, i)
    {
      var c, h := NextBlock(WIRES, MessageWords(messages[i]), initial[i]);
      BlockAppended(Compressed, messages, initial, calls, hashes, i, c, h);
      calls, hashes := calls + c, hashes + [h];
    }
    return Some((calls, hashes));
  }

  lemma StepWritten(wires: Wires, initial: State, calls: seq<Blake2bG.Call>, local: nat, state: State, next: State)
    requires |calls| == G_ROWS && local < G_ROWS && state == Replay(WRITE, wires, initial, calls, local)
    requires next == Written(state, wires(local).lanes, calls[local].output)
    ensures next == Replay(WRITE, wires, initial, calls, local + 1)
    ensures RowOf(local, initial, state, next) == StepRow(wires, initial, calls, local)
  {
  }

  method TraceBlock(wires: Wires, initial: State, calls: seq<Blake2bG.Call>) returns (trace: seq<TraceRow>)
    requires |calls| == G_ROWS
    ensures |trace| == G_ROWS && forall local: nat :: local < G_ROWS ==> trace[local] == StepRow(wires, initial, calls, local)
  {
    var state := initial;
    trace := [];
    for local := 0 to G_ROWS
      invariant |trace| == local && state == Replay(WRITE, wires, initial, calls, local)
      invariant forall i: nat :: i < local ==> trace[i] == StepRow(wires, initial, calls, i)
    {
      var next := Written(state, wires(local).lanes, calls[local].output);
      StepWritten(wires, initial, calls, local, state, next);
      trace := trace + [RowOf(local, initial, state, next)];
      state := next;
    }
  }

  /** The scheduler's trace rows from the calls; refused only for a shape mismatch. */
  method TraceColumns(wires: Wires, messages: seq<Block>, initial: seq<State>, calls: seq<Blake2bG.Call>, rows: nat)
      returns (r: Option<seq<TraceRow>>)
    requires |calls| <= rows
    ensures r.None? <==> |messages| != |initial| || |calls| != |messages| * G_ROWS
    ensures r.Some? ==> r.value == TraceOf(wires, initial, calls, rows)
  {
    if |messages| != |initial| || |calls| != |messages| * G_ROWS { return None; }
    var trace: seq<TraceRow> := [];
    ghost var f := RowCells(wires, initial, calls);
    for block := 0 to |initial|
      invariant |trace| == block * G_ROWS
      invariant forall i: nat :: i < |trace| ==> trace[i] == Blockwise(f, |initial|, PaddingRow(), i)
    {
      MulMono(G_ROWS, block + 1, |initial|);
      var own := TraceBlock(wires, initial[block], CallsOf(calls, block));
      trace := Appended(f, |initial|, block, trace, own);
    }
    while |trace| < rows
      invariant |calls| <= |trace| <= rows
      invariant forall i: nat :: i < |trace| ==> trace[i] == Blockwise(f, |initial|, PaddingRow(), i)
    {
      trace := trace + [PaddingRow()];
    }
    return Some(trace);
  }

  method Appended(ghost f: (nat, nat) -> TraceRow, ghost blocks: nat, ghost block: nat, trace: seq<TraceRow>, own: seq<TraceRow>)
      returns (r: seq<TraceRow>)
    requires block < blocks && |trace| == block * G_ROWS && |own| == G_ROWS
    requires forall i: nat :: i < |trace| ==> trace[i] == Blockwise(f, blocks, PaddingRow(), i)
    requires forall local: nat :: local < G_ROWS ==> own[local] == f(block, local)
    ensures |r| == (block + 1) * G_ROWS
    ensures forall i: nat :: i < |r| ==> r[i] == Blockwise(f, blocks, PaddingRow(), i)
  {
    r := trace + own;
    forall local: nat | local < G_ROWS
      ensures own[local] == Blockwise(f, blocks, PaddingRow(), block * G_ROWS + local)
    {
      BlockwiseAt(f, blocks, PaddingRow(), block, local);
    }
  }
}
