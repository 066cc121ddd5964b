/**
 * The lookups of the compression scheduler (scheduler_pair_tuples, scheduler_scalar_tuples and
 * xor_multiplicity_column of src/blake2b_lookup_compression.rs), and what verify_schedule_proof accepts. The verifier
 * recomputes the sum of the scheduler and the sum of the table from the statement, and does not compare them with
 * each other. Main results, for true calls: some trace is accepted exactly when calls, digests and links are right,
 * the hash words being free; and the two sums cancel as well exactly when every block is a compression.
 */
module SchedulerLookups {
  import opened Arith
  import opened Field31
  import opened LogUp
  import opened Rfc7693
  import opened Blake2bScheduler
  import opened Blake2bSchedulerTrace
  import Blake2bGProof

  const PAIRS: nat := 64

  /** The two lookups of one interaction pair. */
  function PairTuples(r: TraceRow, s: Scope, pair: nat): (XorTuple, XorTuple)
    requires IsRow(r) && IsScope(s) && pair < PAIRS
  {
    var word, byte := pair / 8, pair % 8;
    var mid := r.mid[word][byte];
    (XorTuple(s.initial[word][byte], r.next[word][byte], mid), XorTuple(mid, r.next[word + 8][byte], s.hash[word][byte]))
  }

  /** All lookups of a row: the pairs one after another. */
  function RowTuples(r: TraceRow, s: Scope): (ts: seq<XorTuple>)
    requires IsRow(r) && IsScope(s)
    ensures |ts| == 128
  {
    seq(128, i requires 0 <= i < 128 => if i % 2 == 0 then PairTuples(r, s, i / 2).0 else PairTuples(r, s, i / 2).1)
  }

  lemma Pushed<T>(ts: seq<T>, n: nat)
    requires n + 2 <= |ts|
    ensures ts[..n] + [ts[n]] + [ts[n + 1]] == ts[..n + 2]
  {
  }

  /** The whole list, pushed word by word and byte by byte; the optimised pairs are its consecutive entries. */
  method ScalarTuples(r: TraceRow, s: Scope) returns (ts: seq<XorTuple>)
    requires IsRow(r) && IsScope(s)
    ensures ts == RowTuples(r, s)
  {
    ts := [];
    for word := 0 to 8
      invariant ts == RowTuples(r, s)[..16 * word]
    {
      for byte := 0 to 8
        invariant ts == RowTuples(r, s)[..16 * word + 2 * byte]
      {
        PairPlace(r, s, word, byte);
        Pushed(RowTuples(r, s), 16 * word + 2 * byte);
        var mid := r.mid[word][byte];
        ts := ts + [XorTuple(s.initial[word][byte], r.next[word][byte], mid)];
        ts := ts + [XorTuple(mid, r.next[word + 8][byte], s.hash[word][byte])];
      }
    }
  }

  /** The pair of a word and byte stands at entries 2i and 2i + 1. */
  lemma PairPlace(r: TraceRow, s: Scope, word: nat, byte: nat)
    requires IsRow(r) && IsScope(s) && word < 8 && byte < 8
    ensures RowTuples(r, s)[16 * word + 2 * byte] == XorTuple(s.initial[word][byte], r.next[word][byte], r.mid[word][byte])
    ensures RowTuples(r, s)[16 * word + 2 * byte + 1] == XorTuple(r.mid[word][byte], r.next[word + 8][byte], s.hash[word][byte])
  {
    var pair := 8 * word + byte;
    DivModUnique(pair, 8, word, byte);
    DivModUnique(2 * pair, 2, pair, 0);
    DivModUnique(2 * pair + 1, 2, pair, 1);
  }

  ghost predicate AllIn(ts: seq<XorTuple>) {
    forall t :: t in ts ==> InXor(t)
  }

  lemma PairsHit(r: TraceRow, s: Scope, pair: nat)
    requires IsRow(r) && IsScope(s) && pair < PAIRS
    ensures HashLookup(r, s, pair / 8, pair % 8) <==> InXor(PairTuples(r, s, pair).0) && InXor(PairTuples(r, s, pair).1)
  {
  }

  lemma LookupsIn(r: TraceRow, s: Scope, word: nat, byte: nat)
    requires IsRow(r) && IsScope(s) && AllIn(RowTuples(r, s)) && word < 8 && byte < 8
    ensures HashLookup(r, s, word, byte)
  {
    PairPlace(r, s, word, byte);
    assert RowTuples(r, s)[16 * word + 2 * byte] in RowTuples(r, s);
    assert RowTuples(r, s)[16 * word + 2 * byte + 1] in RowTuples(r, s);
  }

  /** A final row's lookups hold exactly when its 128 tuples are in the table. */
  lemma TuplesAreLookups(r: TraceRow, s: Scope)
    requires IsRow(r) && IsScope(s) && s.last != 0
    ensures AllIn(RowTuples(r, s)) <==> HashLookups(r, s)
  {
    if AllIn(RowTuples(r, s)) {
      forall word: nat, byte: nat | word < 8 && byte < 8 ensures HashLookup(r, s, word, byte) {
        LookupsIn(r, s, word, byte);
      }
    }
    if HashLookups(r, s) {
      forall i | 0 <= i < 128 ensures InXor(RowTuples(r, s)[i]) {
        assert HashLookup(r, s, i / 2 / 8, i / 2 % 8);
        PairsHit(r, s, i / 2);
      }
    }
  }

  // ----- whole traces -----

  /** The lookups of row i: none unless it is a final one. */
  ghost function TuplesAt(trace: seq<TraceRow>, scope: seq<Scope>): nat -> seq<XorTuple> {
    (i: nat) =>
      if i < |trace| == |scope| && IsRow(trace[i]) && IsScope(scope[i]) && scope[i].last != 0 then RowTuples(trace[i], scope[i]) else []
  }

  ghost function Joined(rows: nat -> seq<XorTuple>, n: nat): seq<XorTuple> {
    if n == 0 then [] else Joined(rows, n - 1) + rows(n - 1)
  }

  /** The lookups of all final rows. */
  ghost function AllTuples(trace: seq<TraceRow>, scope: seq<Scope>): seq<XorTuple> {
    Joined(TuplesAt(trace, scope), |trace|)
  }

  lemma InBoth(a: seq<XorTuple>, b: seq<XorTuple>)
    ensures AllIn(a + b) <==> AllIn(a) && AllIn(b)
  {
    if AllIn(a + b) {
      forall t | t in a ensures InXor(t) { assert t in a + b; }
      forall t | t in b ensures InXor(t) { assert t in a + b; }
    }
  }

  lemma {:induction false} JoinedIn(rows: nat -> seq<XorTuple>, n: nat)
    ensures AllIn(Joined(rows, n)) <==> forall i: nat :: i < n ==> AllIn(rows(i))
  {
    if n > 0 {
      JoinedIn(rows, n - 1);
      InBoth(Joined(rows, n - 1), rows(n - 1));
    }
  }

  lemma LooksUpWhenIn(trace: seq<TraceRow>, scope: seq<Scope>, i: nat)
    requires HoldsAt(trace, scope, i)
    ensures LooksUpAt(trace, scope, i) <==> AllIn(TuplesAt(trace, scope)(i))
  {
    if scope[i].last != 0 { TuplesAreLookups(trace[i], scope[i]); }
  }

  /** Where the constraints hold, the lookups of all rows hit exactly when all tuples are in the table. */
  lemma PassesWhenIn(trace: seq<TraceRow>, scope: seq<Scope>)
    requires RowsHold(trace, scope)
    ensures RowsPass(trace, scope) <==> AllIn(AllTuples(trace, scope))
  {
    forall i: nat | i < |trace| ensures LooksUpAt(trace, scope, i) <==> AllIn(TuplesAt(trace, scope)(i)) {
      assert HoldsAt(trace, scope, i);
      LooksUpWhenIn(trace, scope, i);
    }
    JoinedIn(TuplesAt(trace, scope), |trace|);
  }

  // ----- balance -----

  /** The committed multiplicities balance the lookups of the trace, for every weight. */
  ghost predicate Balances(trace: seq<TraceRow>, scope: seq<Scope>, mult: nat -> int) {
    Balanced(AllTuples(trace, scope), XorTable(), mult, XOR_ROWS)
  }

  /** Whatever the multiplicities, constraints and balance make every row pass. */
  lemma BalancedTracePasses(trace: seq<TraceRow>, scope: seq<Scope>, mult: nat -> int)
    requires RowsHold(trace, scope) && Balances(trace, scope, mult) && |AllTuples(trace, scope)| < M31
    ensures RowsPass(trace, scope)
  {
    var ts := AllTuples(trace, scope);
    forall t | t in ts ensures InXor(t) {
      var k: nat :| k < |ts| && ts[k] == t;
      BalancedHits(ts, XorTable(), mult, XOR_ROWS, k);
      XorInTable(t);
    }
    PassesWhenIn(trace, scope);
  }

  /** The multiplicity column that counts the tuples, in the field. */
  function Counted(ts: seq<XorTuple>): nat -> int {
    (i: nat) => Count(XorIndex(), ts, i) % M31
  }

  /** With counted multiplicities, a trace that meets its constraints passes exactly when its lookups balance. */
  lemma PassesIffBalanced(trace: seq<TraceRow>, scope: seq<Scope>)
    requires RowsHold(trace, scope) && |AllTuples(trace, scope)| < M31
    ensures RowsPass(trace, scope) <==> Balances(trace, scope, Counted(AllTuples(trace, scope)))
  {
    var ts := AllTuples(trace, scope);
    PassesWhenIn(trace, scope);
    XorBalancedIff(ts, Counted(ts));
    assert AllIn(ts) <==> forall k: nat :: k < |ts| ==> InXor(ts[k]);
  }

  /**
   * With the lookups read off the balance: true calls, constrained rows and balanced books force every block. The
   * verifier does not compare the sums; by BalancedIffCancel what it accepts is balanced exactly when they cancel.
   */
  lemma BalanceForcesCompression(g: Mixing, st: Statement, trace: seq<TraceRow>, mult: nat -> int, block: nat)
    requires TraceHolds(WIRES, st, trace) && block < |st.messages|
    requires forall i: nat :: i < |st.calls| ==> CallMixes(g, st.calls[i])
    requires Balances(trace, ScopeRows(WIRES, st, |trace|), mult)
    requires |AllTuples(trace, ScopeRows(WIRES, st, |trace|))| < M31
    ensures IsCompression(g, DataOf(st, block))
  {
    BalancedTracePasses(trace, ScopeRows(WIRES, st, |trace|), mult);
    TraceForcesCompression(g, st, trace, block);
  }

  // ----- how many lookups there are -----

  const ROW_TUPLES: nat := 128

  /** Row i is the last of its block. */
  predicate Ends(i: nat, calls: nat) {
    i < calls && i % G_ROWS == G_ROWS - 1
  }

  lemma EndsCount(n: nat, calls: nat, blocks: nat)
    requires n > 0 && calls == blocks * G_ROWS
    ensures (if n < calls then n else calls) / G_ROWS
      == (if n - 1 < calls then n - 1 else calls) / G_ROWS + if Ends(n - 1, calls) then 1 else 0
  {
  }

  lemma {:induction false} JoinedCount(rows: nat -> seq<XorTuple>, n: nat, calls: nat, blocks: nat)
    requires calls == blocks * G_ROWS
    requires forall i: nat :: i < n ==> |rows(i)| == if Ends(i, calls) then ROW_TUPLES else 0
    ensures |Joined(rows, n)| == ROW_TUPLES * ((if n < calls then n else calls) / G_ROWS)
  {
    if n > 0 {
      JoinedCount(rows, n - 1, calls, blocks);
      EndsCount(n, calls, blocks);
    }
  }

  lemma LastIsEnd(wires: Wires, st: Statement, i: nat)
    requires Accepts(st)
    ensures ScopeAt(wires, st, i).last != 0 <==> Ends(i, |st.calls|)
  {
  }

  lemma TuplesAtRow(wires: Wires, st: Statement, trace: seq<TraceRow>, scope: seq<Scope>, i: nat)
    requires TraceHolds(wires, st, trace) && scope == ScopeRows(wires, st, |trace|) && i < |trace|
    ensures |TuplesAt(trace, scope)(i)| == if Ends(i, |st.calls|) then ROW_TUPLES else 0
  {
    assert HoldsAt(trace, scope, i);
    LastIsEnd(wires, st, i);
  }

  /** A trace over the verifier-built scope makes 128 lookups per block. */
  lemma TupleCount(wires: Wires, st: Statement, trace: seq<TraceRow>)
    requires TraceHolds(wires, st, trace)
    ensures |AllTuples(trace, ScopeRows(wires, st, |trace|))| == ROW_TUPLES * |st.messages|
  {
    var scope := ScopeRows(wires, st, |trace|);
    forall i: nat | i < |trace| ensures |TuplesAt(trace, scope)(i)| == if Ends(i, |st.calls|) then ROW_TUPLES else 0 {
      TuplesAtRow(wires, st, trace, scope, i);
    }
    JoinedCount(TuplesAt(trace, scope), |trace|, |st.calls|, |st.messages|);
    DivModUnique(|st.calls|, G_ROWS, |st.messages|, 0);
  }

  /** Fewer lookups than field elements, which holds wherever the rows of the G component fit. */
  predicate FewBlocks(st: Statement) {
    ROW_TUPLES * |st.messages| < M31
  }

  lemma BlocksFit(st: Statement, rows: nat)
    requires Accepts(st) && |st.calls| <= rows && Blake2bGProof.Fits(rows)
    ensures FewBlocks(st)
  {
  }

  // ----- what the verifier accepts -----

  /** The lookups of the trace the verifier builds from the statement. */
  ghost function BuiltTuples(wires: Wires, st: Statement, rows: nat): seq<XorTuple>
    requires Accepts(st)
  {
    AllTuples(TraceOf(wires, st.initial, st.calls, rows), ScopeRows(wires, st, rows))
  }

  /** The two columns give the table one sum, for every weight. */
  ghost predicate SameTables(table: nat -> XorTuple, mult: nat -> int, other: nat -> int, n: nat) {
    forall w: XorTuple -> int :: Zero(SumTable(w, table, mult, n) - SumTable(w, table, other, n))
  }

  /**
   * The constraints of every committed row over the verifier-built scope, the verifier's own scheduler sum and its own
   * table sum. It recomputes both from the statement and never asks whether they cancel.
   */
  ghost predicate Accepted(wires: Wires, st: Statement, trace: seq<TraceRow>, mult: nat -> int) {
    && TraceHolds(wires, st, trace)
    && SameSums(AllTuples(trace, ScopeRows(wires, st, |trace|)), BuiltTuples(wires, st, |trace|))
    && SameTables(XorTable(), mult, Counted(BuiltTuples(wires, st, |trace|)), XOR_ROWS)
  }

  /** The guard: the two sums recomputed from the statement cancel. Only the prover asserts it, in debug builds. */
  ghost predicate SumsCancel(wires: Wires, st: Statement, rows: nat)
    requires Accepts(st)
  {
    Balanced(BuiltTuples(wires, st, rows), XorTable(), Counted(BuiltTuples(wires, st, rows)), XOR_ROWS)
  }

  lemma ZeroShift(a: int, b: int, c: int, d: int)
    requires Zero(a - c) && Zero(b - d)
    ensures Zero(a - b) <==> Zero(c - d)
  {
  }

  lemma WeightShifts(w: XorTuple -> int, ts: seq<XorTuple>, built: seq<XorTuple>, table: nat -> XorTuple, mult: nat -> int, counted: nat -> int, n: nat)
    requires Zero(SumTuples(w, ts) - SumTuples(w, built))
    requires Zero(SumTable(w, table, mult, n) - SumTable(w, table, counted, n))
    ensures Zero(Imbalance(w, ts, table, mult, n)) <==> Zero(Imbalance(w, built, table, counted, n))
  {
    ZeroShift(SumTuples(w, ts), SumTable(w, table, mult, n), SumTuples(w, built), SumTable(w, table, counted, n));
  }

  /** Books that agree with balanced ones are balanced. */
  lemma BalanceShifts(ts: seq<XorTuple>, built: seq<XorTuple>, table: nat -> XorTuple, mult: nat -> int, counted: nat -> int, n: nat)
    requires SameSums(ts, built) && SameTables(table, mult, counted, n)
    ensures Balanced(ts, table, mult, n) <==> Balanced(built, table, counted, n)
  {
    forall w: XorTuple -> int
      ensures Zero(Imbalance(w, ts, table, mult, n)) <==> Zero(Imbalance(w, built, table, counted, n))
    {
      WeightShifts(w, ts, built, table, mult, counted, n);
    }
  }

  /** What is accepted is balanced exactly when the guard holds. */
  lemma BalancedIffCancel(wires: Wires, st: Statement, trace: seq<TraceRow>, mult: nat -> int)
    requires Accepted(wires, st, trace, mult)
    ensures Balances(trace, ScopeRows(wires, st, |trace|), mult) <==> SumsCancel(wires, st, |trace|)
  {
    var built := BuiltTuples(wires, st, |trace|);
    BalanceShifts(AllTuples(trace, ScopeRows(wires, st, |trace|)), built, XorTable(), mult, Counted(built), XOR_ROWS);
  }

  /** With the guard, what is accepted passes. */
  lemma GuardedPasses(wires: Wires, st: Statement, trace: seq<TraceRow>, mult: nat -> int)
    requires Accepted(wires, st, trace, mult) && SumsCancel(wires, st, |trace|) && FewBlocks(st)
    ensures TracePasses(wires, st, trace)
  {
    BalancedIffCancel(wires, st, trace, mult);
    TupleCount(wires, st, trace);
    BalancedTracePasses(trace, ScopeRows(wires, st, |trace|), mult);
  }

  lemma SameColumn(table: nat -> XorTuple, mult: nat -> int, other: nat -> int, n: nat)
    requires mult == other
    ensures SameTables(table, mult, other, n)
  {
    forall w: XorTuple -> int ensures Zero(SumTable(w, table, mult, n) - SumTable(w, table, other, n)) {
      assert SumTable(w, table, mult, n) - SumTable(w, table, other, n) == 0;
    }
  }

  /** The built trace of a wired statement is accepted with counted multiplicities, whatever the hash words. */
  lemma WiredAccepted(g: Mixing, wires: Wires, st: Statement, rows: nat)
    requires Accepts(st) && IsWired(g, wires, st) && |st.calls| <= rows
    ensures Accepted(wires, st, TraceOf(wires, st.initial, st.calls, rows), Counted(BuiltTuples(wires, st, rows)))
  {
    var built := BuiltTuples(wires, st, rows);
    WiredHolds(g, wires, st, rows);
    SameBook(built, built);
    SameColumn(XorTable(), Counted(built), Counted(built), XOR_ROWS);
  }

  /** Some trace of the given height, with some multiplicities, is accepted. */
  ghost predicate SomeAccepted(wires: Wires, st: Statement, rows: nat) {
    exists trace: seq<TraceRow>, mult: nat -> int :: |trace| == rows && Accepted(wires, st, trace, mult)
  }

  /** With true calls, acceptance is exactly that calls, digests and links are right; the hash words are free. */
  lemma AcceptedIffWired(g: Mixing, wires: Wires, st: Statement, rows: nat)
    requires Accepts(st) && |st.calls| <= rows
    requires forall i: nat :: i < |st.calls| ==> CallMixes(g, st.calls[i])
    ensures SomeAccepted(wires, st, rows) <==> IsWired(g, wires, st)
  {
    if IsWired(g, wires, st) {
      WiredAccepted(g, wires, st, rows);
      var trace := TraceOf(wires, st.initial, st.calls, rows);
      assert |trace| == rows && Accepted(wires, st, trace, Counted(BuiltTuples(wires, st, rows)));
    }
    if trace: seq<TraceRow>, mult: nat -> int :| |trace| == rows && Accepted(wires, st, trace, mult) {
      TraceWired(g, wires, st, trace);
    }
  }

  /** For a wired statement the guard holds exactly when every block closes. */
  lemma CancelIffCloses(g: Mixing, wires: Wires, st: Statement, rows: nat)
    requires Accepts(st) && IsWired(g, wires, st) && |st.calls| <= rows && FewBlocks(st)
    ensures SumsCancel(wires, st, rows) <==> Closes(g, wires, st)
  {
    var trace := TraceOf(wires, st.initial, st.calls, rows);
    WiredHolds(g, wires, st, rows);
    TupleCount(wires, st, trace);
    PassesIffBalanced(trace, ScopeRows(wires, st, rows));
    WiredClosesIff(g, wires, st, rows);
  }

  /** With true calls, acceptance and the guard together are exactly the truth of the statement. */
  lemma GuardedIffTrue(g: Mixing, st: Statement, rows: nat)
    requires Accepts(st) && |st.calls| <= rows && FewBlocks(st)
    requires forall i: nat :: i < |st.calls| ==> CallMixes(g, st.calls[i])
    ensures SomeAccepted(WIRES, st, rows) && SumsCancel(WIRES, st, rows) <==> IsTrue(g, st)
  {
    AcceptedIffWired(g, WIRES, st, rows);
    TrueIsClosed(g, st);
    if IsWired(g, WIRES, st) { CancelIffCloses(g, WIRES, st, rows); }
  }
}
