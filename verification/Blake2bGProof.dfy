/**
 * What an accepted proof of a batch of G calls shows (make_trace, g_lookup_tuples_scalar and verify_blake2b_g of
 * src/blake2b_lookup_g.rs). The verifier recomputes the component's sum from the trace it builds itself, so the
 * committed rows and the built rows have one weighted sum of lookups, whatever the weights. Main result: the
 * committed rows satisfy the constraints and have that sum exactly when every call is a true G and the committed
 * rows are the built ones. That every call has an active row, and that every lookup hits its table, are
 * consequences.
 */
module Blake2bGProof {
  import opened Arith
  import opened Field31
  import opened Words
  import opened Blake2bG
  import opened Blake2bGRow
  import opened Blake2bGExact
  import opened LogUp

  // ----- the lookups of a row -----

  /** A row looks up both tables; the two have challenges of their own. */
  datatype Lookup = XorLookup(xor: XorTuple) | RotateLookup(rotate: RotateTuple)

  function GXorAt(row: Row, a: nat, b: nat, out: nat, shift: nat, byte: nat): XorTuple
    requires a < 14 && b < 14 && out < 14 && byte < 8
  {
    var source := (byte + shift) % 8;
    XorTuple(row[WordBase(a) + source], row[WordBase(b) + source], row[WordBase(out) + byte])
  }

  /** The exclusive or that feeds the one-bit rotation. */
  function GFeed(row: Row, byte: nat): XorTuple
    requires byte < 8
  {
    XorTuple(row[WordBase(9) + byte], row[WordBase(12) + byte], row[ROTATE_XOR_BASE + byte])
  }

  function GRotate(row: Row, byte: nat): RotateTuple
    requires byte < 8
  {
    RotateTuple(row[ROTATE_XOR_BASE + byte], row[ROTATE_CARRY_IN_BASE + byte],
                row[WordBase(13) + byte], row[ROTATE_CARRY_OUT_BASE + byte])
  }

  /** Three rotations by whole bytes, the exclusive or before the last rotation, and that rotation. */
  function GLookup(row: Row, block: nat, byte: nat): Lookup
    requires block < 5 && byte < 8
  {
    match block
    case 0 => XorLookup(GXorAt(row, 6, 3, 7, 4, byte))
    case 1 => XorLookup(GXorAt(row, 1, 8, 9, 3, byte))
    case 2 => XorLookup(GXorAt(row, 7, 10, 11, 2, byte))
    case 3 => XorLookup(GFeed(row, byte))
    case _ => RotateLookup(GRotate(row, byte))
  }

  const ROW_LOOKUPS: nat := 40

  function RowLookups(row: Row): (ts: seq<Lookup>)
    ensures |ts| == ROW_LOOKUPS
  {
    seq(40, i requires 0 <= i < 40 => GLookup(row, i / 8, i % 8))
  }

  predicate Hits(t: Lookup) {
    match t
    case XorLookup(x) => InXor(x)
    case RotateLookup(r) => InRotate(r)
  }

  lemma XorByteHits(row: Row, a: nat, b: nat, out: nat, shift: nat, byte: nat)
    requires a < 14 && b < 14 && out < 14 && byte < 8
    ensures InXor(GXorAt(row, a, b, out, shift, byte)) <==> XorByte(row, a, b, out, shift, byte)
  {
  }

  lemma RotateByteHits(row: Row, byte: nat)
    requires byte < 8
    ensures InXor(GFeed(row, byte)) && InRotate(GRotate(row, byte)) <==> RotateByte(row, byte)
  {
  }

  ghost predicate ByteHits(row: Row, byte: nat)
    requires byte < 8
  {
    forall block: nat :: block < 5 ==> Hits(GLookup(row, block, byte))
  }

  lemma ByteHitsAre(row: Row, byte: nat)
    requires byte < 8
    ensures ByteHits(row, byte) <==>
      XorByte(row, 6, 3, 7, 4, byte) && XorByte(row, 1, 8, 9, 3, byte) && XorByte(row, 7, 10, 11, 2, byte) && RotateByte(row, byte)
  {
    XorByteHits(row, 6, 3, 7, 4, byte);
    XorByteHits(row, 1, 8, 9, 3, byte);
    XorByteHits(row, 7, 10, 11, 2, byte);
    RotateByteHits(row, byte);
    assert Hits(GLookup(row, 0, byte)) <==> InXor(GXorAt(row, 6, 3, 7, 4, byte));
    assert Hits(GLookup(row, 1, byte)) <==> InXor(GXorAt(row, 1, 8, 9, 3, byte));
    assert Hits(GLookup(row, 2, byte)) <==> InXor(GXorAt(row, 7, 10, 11, 2, byte));
    assert Hits(GLookup(row, 3, byte)) <==> InXor(GFeed(row, byte));
    assert Hits(GLookup(row, 4, byte)) <==> InRotate(GRotate(row, byte));
  }

  ghost predicate RowHits(row: Row) {
    forall byte: nat :: byte < 8 ==> ByteHits(row, byte)
  }

  /** The forty lookups hit exactly when the row's table constraints hold. */
  lemma HitsAreLookups(row: Row)
    ensures RowHits(row) <==> Lookups(row)
  {
    forall byte: nat | byte < 8
      ensures ByteHits(row, byte) <==>
        XorByte(row, 6, 3, 7, 4, byte) && XorByte(row, 1, 8, 9, 3, byte) && XorByte(row, 7, 10, 11, 2, byte) && RotateByte(row, byte)
    {
      ByteHitsAre(row, byte);
    }
  }

  lemma EveryLookupHits(row: Row)
    requires Lookups(row)
    ensures forall t :: t in RowLookups(row) ==> Hits(t)
  {
    HitsAreLookups(row);
    forall i | 0 <= i < ROW_LOOKUPS ensures Hits(RowLookups(row)[i]) {
      assert ByteHits(row, i % 8);
    }
  }

  // ----- the lookups of all active rows -----

  function AllLookups(rows: seq<Row>): seq<Lookup> {
    if rows == [] then []
    else
      var row := rows[|rows| - 1];
      AllLookups(rows[..|rows| - 1]) + if row[ACTIVE_COLUMN] != 0 then RowLookups(row) else []
  }

  function ActiveCount(rows: seq<Row>): nat {
    if rows == [] then 0
    else ActiveCount(rows[..|rows| - 1]) + if rows[|rows| - 1][ACTIVE_COLUMN] != 0 then 1 else 0
  }

  lemma {:induction false} LookupCount(rows: seq<Row>)
    ensures |AllLookups(rows)| == ROW_LOOKUPS * ActiveCount(rows)
  {
    if rows != [] { LookupCount(rows[..|rows| - 1]); }
  }

  lemma {:induction false} ActiveBound(rows: seq<Row>)
    ensures ActiveCount(rows) <= |rows|
  {
    if rows != [] { ActiveBound(rows[..|rows| - 1]); }
  }

  /** Fewer lookups than field elements, as in any trace of up to 2^25 rows. */
  predicate Fits(rows: nat) {
    ROW_LOOKUPS * rows < M31
  }

  lemma LookupPlace(row: Row, block: nat, byte: nat)
    requires block < 5 && byte < 8
    ensures GLookup(row, block, byte) in RowLookups(row)
  {
    DivModUnique(8 * block + byte, 8, block, byte);
    assert RowLookups(row)[8 * block + byte] == GLookup(row, block, byte);
  }

  lemma LastRowAmong(rows: seq<Row>, block: nat, byte: nat)
    requires rows != [] && rows[|rows| - 1][ACTIVE_COLUMN] != 0 && block < 5 && byte < 8
    ensures GLookup(rows[|rows| - 1], block, byte) in AllLookups(rows)
  {
    LookupPlace(rows[|rows| - 1], block, byte);
  }

  /** The lookups of an active row are among all lookups. */
  lemma {:induction false} RowAmongAll(rows: seq<Row>, k: nat, block: nat, byte: nat)
    requires k < |rows| && rows[k][ACTIVE_COLUMN] != 0 && block < 5 && byte < 8
    ensures GLookup(rows[k], block, byte) in AllLookups(rows)
  {
    if k < |rows| - 1 {
      RowAmongAll(rows[..|rows| - 1], k, block, byte);
    } else {
      LastRowAmong(rows, block, byte);
    }
  }

  /** If every active row hits its tables, so does every lookup. */
  lemma {:induction false} AllHit(rows: seq<Row>)
    requires forall k :: 0 <= k < |rows| ==> rows[k][ACTIVE_COLUMN] != 0 ==> Lookups(rows[k])
    ensures forall t :: t in AllLookups(rows) ==> Hits(t)
  {
    if rows != [] {
      var n := |rows| - 1;
      AllHit(rows[..n]);
      if rows[n][ACTIVE_COLUMN] != 0 { EveryLookupHits(rows[n]); }
    }
  }

  // ----- balance of the rows against the two tables -----

  function XorsOf(ts: seq<Lookup>): seq<XorTuple> {
    if ts == [] then []
    else XorsOf(ts[..|ts| - 1]) + if ts[|ts| - 1].XorLookup? then [ts[|ts| - 1].xor] else []
  }

  function RotatesOf(ts: seq<Lookup>): seq<RotateTuple> {
    if ts == [] then []
    else RotatesOf(ts[..|ts| - 1]) + if ts[|ts| - 1].RotateLookup? then [ts[|ts| - 1].rotate] else []
  }

  /** Weights for the two relations. */
  function Weigh(x: XorTuple -> int, r: RotateTuple -> int): Lookup -> int {
    (t: Lookup) => if t.XorLookup? then x(t.xor) else r(t.rotate)
  }

  lemma {:induction false} SumsSplit(x: XorTuple -> int, r: RotateTuple -> int, ts: seq<Lookup>)
    ensures SumTuples(Weigh(x, r), ts) == SumTuples(x, XorsOf(ts)) + SumTuples(r, RotatesOf(ts))
  {
    if ts != [] {
      var before, t := ts[..|ts| - 1], ts[|ts| - 1];
      SumsSplit(x, r, before);
      if t.XorLookup? {
        SumPush(x, XorsOf(before), t.xor);
        assert RotatesOf(ts) == RotatesOf(before);
      } else {
        SumPush(r, RotatesOf(before), t.rotate);
        assert XorsOf(ts) == XorsOf(before);
      }
    }
  }

  lemma {:induction false} PartsHit(ts: seq<Lookup>)
    requires forall t :: t in ts ==> Hits(t)
    ensures forall k :: 0 <= k < |XorsOf(ts)| ==> InXor(XorsOf(ts)[k])
    ensures forall k :: 0 <= k < |RotatesOf(ts)| ==> InRotate(RotatesOf(ts)[k])
  {
    if ts != [] {
      assert Hits(ts[|ts| - 1]);
      PartsHit(ts[..|ts| - 1]);
    }
  }

  /** All lookups of rows whose active ones hit balance against the two tables, for every pair of weights. */
  lemma GBalance(x: XorTuple -> int, r: RotateTuple -> int, rows: seq<Row>)
    requires forall k :: 0 <= k < |rows| ==> rows[k][ACTIVE_COLUMN] != 0 ==> Lookups(rows[k])
    ensures var ts := AllLookups(rows);
      SumTuples(Weigh(x, r), ts)
        == SumTable(x, XorTable(), Counts(XorIndex(), XorsOf(ts)), XOR_ROWS)
         + SumTable(r, RotateTable(), Counts(RotateIndex(), RotatesOf(ts)), ROTATE_ROWS)
  {
    var ts := AllLookups(rows);
    AllHit(rows);
    PartsHit(ts);
    SumsSplit(x, r, ts);
    XorBalance(x, XorsOf(ts));
    RotateBalance(r, RotatesOf(ts));
  }

  // ----- the trace the builder makes, and the verifier rebuilds -----

  function PaddingScope(): Scope {
    seq(81, _ => 0)
  }

  ghost function BuiltRow(calls: seq<Call>, i: nat): Row {
    if i < |calls| then CallRow(calls[i]) else ZeroRow()
  }

  /** One built row per call, all-zero padding after them. */
  ghost function TraceRows(calls: seq<Call>, rows: nat): seq<Row> {
    seq(rows, i requires 0 <= i => BuiltRow(calls, i))
  }

  function ScopeAtRow(calls: seq<Call>, i: nat): Scope {
    if i < |calls| then ScopeRow(calls[i]) else PaddingScope()
  }

  method MakeTrace(calls: seq<Call>, rows: nat) returns (trace: seq<Row>)
    requires |calls| <= rows
    ensures trace == TraceRows(calls, rows)
  {
    trace := seq(rows, _ => ZeroRow());
    for i := 0 to |calls|
      invariant |trace| == rows
      invariant forall k: nat :: k < i ==> trace[k] == CallRow(calls[k])
      invariant forall k: nat :: i <= k < rows ==> trace[k] == ZeroRow()
    {
      var row := MakeCallRow(calls[i]);
      trace := trace[i := row];
    }
  }

  lemma CallRowHits(c: Call)
    ensures CallRow(c)[ACTIVE_COLUMN] == 1 && Lookups(CallRow(c))
  {
    var w := RowWords(c, StepsFor(c));
    CallWordsLinked(c, StepsFor(c));
    PartsConsistent(w);
    RotationColumns(PartsOf(w), 0);
    LookupsHold(PartsOf(w));
  }

  /** The built rows of the calls are active and hit the tables, whether or not the calls are true. */
  lemma BuiltRowsHit(calls: seq<Call>, rows: nat)
    ensures forall k :: 0 <= k < rows ==> (TraceRows(calls, rows)[k][ACTIVE_COLUMN] != 0 <==> k < |calls|)
    ensures forall k :: 0 <= k < rows ==> TraceRows(calls, rows)[k][ACTIVE_COLUMN] != 0 ==> Lookups(TraceRows(calls, rows)[k])
  {
    forall k | 0 <= k < |calls| && k < rows
      ensures CallRow(calls[k])[ACTIVE_COLUMN] == 1 && Lookups(CallRow(calls[k]))
    {
      CallRowHits(calls[k]);
    }
  }

  lemma {:induction false} ActivePrefix(rows: seq<Row>, n: nat)
    requires forall k :: 0 <= k < |rows| ==> (rows[k][ACTIVE_COLUMN] != 0 <==> k < n)
    ensures ActiveCount(rows) == if n <= |rows| then n else |rows|
  {
    if rows != [] { ActivePrefix(rows[..|rows| - 1], n); }
  }

  // ----- acceptance -----

  /** The constraints of every committed row over the verifier-built scope, and the verifier's own sum. */
  ghost predicate Accepted(calls: seq<Call>, rows: seq<Row>) {
    && |calls| <= |rows|
    && (forall i: nat :: i < |rows| ==> Constraints(rows[i], ScopeAtRow(calls, i)))
    && SameSums(AllLookups(rows), AllLookups(TraceRows(calls, |rows|)))
  }

  lemma BooksFit(rows: seq<Row>)
    requires Fits(|rows|)
    ensures |AllLookups(rows)| < M31
  {
    LookupCount(rows);
    ActiveBound(rows);
  }

  /** The two traces hold the same lookups, equally often. */
  lemma SameBooks(calls: seq<Call>, rows: seq<Row>)
    requires Accepted(calls, rows) && Fits(|rows|)
    ensures multiset(AllLookups(rows)) == multiset(AllLookups(TraceRows(calls, |rows|)))
  {
    BooksFit(rows);
    BooksFit(TraceRows(calls, |rows|));
    SameLookups(AllLookups(rows), AllLookups(TraceRows(calls, |rows|)));
  }

  /** Every committed lookup hits its table. */
  lemma CommittedHit(calls: seq<Call>, rows: seq<Row>, k: nat)
    requires Accepted(calls, rows) && Fits(|rows|) && k < |rows| && rows[k][ACTIVE_COLUMN] != 0
    ensures Lookups(rows[k])
  {
    var built := TraceRows(calls, |rows|);
    SameBooks(calls, rows);
    BuiltRowsHit(calls, |rows|);
    AllHit(built);
    forall byte: nat, block: nat | byte < 8 && block < 5 ensures Hits(GLookup(rows[k], block, byte)) {
      RowAmongAll(rows, k, block, byte);
      assert GLookup(rows[k], block, byte) in multiset(AllLookups(rows));
      assert GLookup(rows[k], block, byte) in AllLookups(built);
    }
    HitsAreLookups(rows[k]);
  }

  /** Inactive rows at the end do not count. */
  lemma {:induction false} InactiveTail(rows: seq<Row>, n: nat)
    requires n <= |rows| && forall i :: n <= i < |rows| ==> rows[i][ACTIVE_COLUMN] == 0
    ensures ActiveCount(rows) == ActiveCount(rows[..n])
  {
    var m := |rows| - 1;
    if n == |rows| {
      assert rows[..n] == rows;
    } else {
      InactiveTail(rows[..m], n);
      assert rows[..m][..n] == rows[..n];
    }
  }

  /** As many active rows as rows are all of them. */
  lemma {:induction false} AllActive(rows: seq<Row>, k: nat)
    requires ActiveCount(rows) == |rows| && k < |rows|
    ensures rows[k][ACTIVE_COLUMN] != 0
  {
    var m := |rows| - 1;
    ActiveBound(rows[..m]);
    if k < m { AllActive(rows[..m], k); }
  }

  lemma SameLength<T>(a: seq<T>, b: seq<T>)
    requires multiset(a) == multiset(b)
    ensures |a| == |b|
  {
    assert |multiset(a)| == |a| && |multiset(b)| == |b|;
  }

  lemma BuiltCount(calls: seq<Call>, rows: nat)
    requires |calls| <= rows
    ensures ActiveCount(TraceRows(calls, rows)) == |calls|
  {
    BuiltRowsHit(calls, rows);
    ActivePrefix(TraceRows(calls, rows), |calls|);
  }

  /** As many rows are active as there are calls. */
  lemma ActiveAsCalls(calls: seq<Call>, rows: seq<Row>)
    requires Accepted(calls, rows) && Fits(|rows|)
    ensures ActiveCount(rows) == |calls|
  {
    SameBooks(calls, rows);
    SameLength(AllLookups(rows), AllLookups(TraceRows(calls, |rows|)));
    LookupCount(rows);
    LookupCount(TraceRows(calls, |rows|));
    BuiltCount(calls, |rows|);
  }

  lemma PaddingForced(calls: seq<Call>, rows: seq<Row>, k: nat)
    requires Accepted(calls, rows) && |calls| <= k < |rows|
    ensures rows[k][ACTIVE_COLUMN] == 0 && rows[k] == ZeroRow()
  {
    assert Constraints(rows[k], ScopeAtRow(calls, k));
    PaddingInactive(rows[k], PaddingScope());
    InactiveRow(rows[k], PaddingScope());
  }

  /** Every call has an active row. */
  lemma CallsActive(calls: seq<Call>, rows: seq<Row>, k: nat)
    requires Accepted(calls, rows) && Fits(|rows|) && k < |calls|
    ensures rows[k][ACTIVE_COLUMN] != 0
  {
    forall i | |calls| <= i < |rows| ensures rows[i][ACTIVE_COLUMN] == 0 {
      PaddingForced(calls, rows, i);
    }
    ActiveAsCalls(calls, rows);
    InactiveTail(rows, |calls|);
    AllActive(rows[..|calls|], k);
  }

  lemma ActiveForced(c: Call, row: Row)
    requires Constraints(row, ScopeRow(c)) && Lookups(row) && row[ACTIVE_COLUMN] != 0
    ensures row == CallRow(c) && IsG(c)
  {
    SatisfiedRowIsG(row, c);
    ActiveRowIsBuilt(row, c);
  }

  ghost predicate IsForced(calls: seq<Call>, rows: seq<Row>, k: nat)
    requires k < |rows|
  {
    rows[k] == BuiltRow(calls, k) && (k < |calls| ==> IsG(calls[k]))
  }

  lemma RowForced(calls: seq<Call>, rows: seq<Row>, k: nat)
    requires Accepted(calls, rows) && Fits(|rows|) && k < |rows|
    ensures IsForced(calls, rows, k)
  {
    if k < |calls| {
      assert Constraints(rows[k], ScopeAtRow(calls, k));
      CallsActive(calls, rows, k);
      CommittedHit(calls, rows, k);
      ActiveForced(calls[k], rows[k]);
    } else {
      PaddingForced(calls, rows, k);
    }
  }

  ghost predicate AllG(calls: seq<Call>) {
    forall i: nat :: i < |calls| ==> IsG(calls[i])
  }

  lemma AllForced(calls: seq<Call>, rows: seq<Row>)
    requires |calls| <= |rows| && forall k: nat :: k < |rows| ==> IsForced(calls, rows, k)
    ensures AllG(calls) && rows == TraceRows(calls, |rows|)
  {
    forall i: nat | i < |calls| ensures IsG(calls[i]) {
      assert IsForced(calls, rows, i);
    }
    forall k: nat | k < |rows| ensures rows[k] == TraceRows(calls, |rows|)[k] {
      assert IsForced(calls, rows, k);
    }
  }

  /** The committed rows are the built ones, and every call is a true G. */
  lemma AcceptedForces(calls: seq<Call>, rows: seq<Row>)
    requires Accepted(calls, rows) && Fits(|rows|)
    ensures AllG(calls) && rows == TraceRows(calls, |rows|)
  {
    forall k: nat | k < |rows| ensures IsForced(calls, rows, k) {
      RowForced(calls, rows, k);
    }
    AllForced(calls, rows);
  }

  lemma BuiltRowHolds(calls: seq<Call>, rows: nat, i: nat)
    requires AllG(calls) && |calls| <= rows && i < rows
    ensures Constraints(TraceRows(calls, rows)[i], ScopeAtRow(calls, i))
  {
    if i < |calls| {
      CallRowSatisfiesIffG(calls[i]);
    } else {
      ZeroRowSatisfies(PaddingScope());
    }
  }

  /** The built trace of true calls is accepted. */
  lemma BuiltAccepted(calls: seq<Call>, rows: nat)
    requires AllG(calls) && |calls| <= rows
    ensures Accepted(calls, TraceRows(calls, rows))
  {
    var built := TraceRows(calls, rows);
    forall i: nat | i < rows ensures Constraints(built[i], ScopeAtRow(calls, i)) {
      BuiltRowHolds(calls, rows, i);
    }
    SameBook(AllLookups(built), AllLookups(built));
  }

  /** The constraints and sums accept exactly the built trace of true calls. */
  lemma AcceptedIff(calls: seq<Call>, rows: seq<Row>)
    requires |calls| <= |rows| && Fits(|rows|)
    ensures Accepted(calls, rows) <==> AllG(calls) && rows == TraceRows(calls, |rows|)
  {
    if Accepted(calls, rows) { AcceptedForces(calls, rows); }
    if AllG(calls) { BuiltAccepted(calls, |rows|); }
  }
}
