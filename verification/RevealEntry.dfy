/**
 * One slot of the reveal ledger (src/canonical_reveal_opening.rs): the validator of an assignment and the
 * field constraints that stand for it. Main result: some bit advice satisfies the constraints exactly when
 * the validator accepts.
 */
module RevealEntry {
  import opened Arith
  import opened Field31
  import opened Bits

  const SEATS: nat := 9

  datatype Assignment = Assignment(
    present: bool, card: nat, kind: nat, seat: nat, slot: nat, runout: nat, board: nat, pending: nat, submitted: nat)

  /** The wire types: bytes, and 16-bit masks. */
  predicate Typed(a: Assignment) {
    && a.card < 256 && a.kind < 256 && a.seat < 256 && a.slot < 256 && a.runout < 256 && a.board < 256
    && a.pending < 0x1_0000 && a.submitted < 0x1_0000
  }

  const EMPTY: Assignment := Assignment(false, 0, 0, 0, 0, 0, 0, 0, 0)

  /** The assignment validator. */
  predicate EntryOk(a: Assignment) {
    if !a.present then a == EMPTY
    else
      && a.card < 52 && a.kind <= 1 && a.seat < 9
      && a.pending < 512 && a.submitted < 512 && And(16, a.pending, a.submitted) == 0
      && (a.kind == 0 ==> a.slot < 2) && (a.kind == 1 ==> a.runout < 2 && a.board < 5)
      && (a.kind == 0 ==> a.runout == 0 && a.board == 0) && (a.kind == 1 ==> a.seat == 0 && a.slot == 0)
  }

  /** The target's place in the canonical order: hole cards by seat and slot, then board cards by run-out and position. */
  function Key(a: Assignment): int {
    if a.kind == 0 then 2 * a.seat + a.slot else 18 + 5 * a.runout + a.board
  }

  // ----- columns and constraints -----

  function One(b: bool): int { if b then 1 else 0 }

  function Fields(a: Assignment): (f: seq<int>)
    ensures |f| == 9
  {
    [One(a.present), a.card, a.kind, a.seat, a.slot, a.runout, a.board, a.pending, a.submitted]
  }

  datatype Columns = Columns(
    fields: seq<int>, key: int, pending: seq<int>, submitted: seq<int>,
    cardBits: seq<int>, cardHigh: int, seatBits: seq<int>, boardBits: seq<int>)

  predicate IsColumns(e: Columns) {
    && |e.fields| == 9 && |e.pending| == SEATS && |e.submitted| == SEATS
    && |e.cardBits| == 6 && |e.seatBits| == 4 && |e.boardBits| == 3
    && IsElems(e.fields) && IsElems(e.pending) && IsElems(e.submitted)
    && IsElems(e.cardBits) && IsElems(e.seatBits) && IsElems(e.boardBits)
    && 0 <= e.key < M31 && 0 <= e.cardHigh < M31
  }

  predicate Boolean(b: int) { Zero(b * (b - 1)) }

  predicate Booleans(bits: seq<int>) {
    forall i :: 0 <= i < |bits| ==> Boolean(bits[i])
  }

  /** A boolean column that is zero in absent slots, and its mask. */
  predicate MaskColumns(present: int, mask: int, bits: seq<int>)
    requires |bits| == SEATS
  {
    && Booleans(bits) && (forall s :: 0 <= s < SEATS ==> Zero((1 - present) * bits[s]))
    && Zero(mask - Weighted(bits, SEATS))
  }

  predicate Masks(e: Columns)
    requires IsColumns(e)
  {
    && MaskColumns(e.fields[0], e.fields[7], e.pending) && MaskColumns(e.fields[0], e.fields[8], e.submitted)
    && forall s :: 0 <= s < SEATS ==> Zero(e.pending[s] * e.submitted[s])
  }

  predicate CardColumns(e: Columns)
    requires IsColumns(e)
  {
    && Booleans(e.cardBits) && Zero(e.fields[1] - Weighted(e.cardBits, 6))
    && Zero(e.cardHigh - e.cardBits[5] * e.cardBits[4]) && Zero(e.cardHigh * (e.cardBits[3] + e.cardBits[2]))
  }

  predicate SeatColumns(e: Columns)
    requires IsColumns(e)
  {
    && Booleans(e.seatBits) && Zero(e.fields[3] - Weighted(e.seatBits, 4))
    && Zero(e.seatBits[3] * (e.seatBits[2] + e.seatBits[1] + e.seatBits[0]))
  }

  predicate BoardColumns(e: Columns)
    requires IsColumns(e)
  {
    && Booleans(e.boardBits) && Zero(e.fields[6] - Weighted(e.boardBits, 3))
    && Zero(e.boardBits[2] * (e.boardBits[1] + e.boardBits[0]))
  }

  /** Hole and board targets own disjoint fields; an absent slot is all zero. */
  predicate TypedColumns(f: seq<int>)
    requires |f| == 9
  {
    && Boolean(f[0]) && Boolean(f[2]) && Boolean(f[4]) && Boolean(f[5])
    && (forall j :: 1 <= j < 9 ==> Zero((1 - f[0]) * f[j]))
    && Zero((1 - f[2]) * f[5]) && Zero((1 - f[2]) * f[6]) && Zero(f[2] * f[3]) && Zero(f[2] * f[4])
  }

  predicate EntryConstraints(e: Columns, scope: seq<int>)
    requires IsColumns(e) && |scope| == 9
  {
    && (forall j :: 0 <= j < 9 ==> Zero(e.fields[j] - scope[j]))
    && TypedColumns(e.fields) && Masks(e) && CardColumns(e) && SeatColumns(e) && BoardColumns(e)
  }

  // ----- soundness -----

  lemma Same(x: int, y: int)
    requires Zero(x - y) && 0 <= x < M31 && 0 <= y < M31
    ensures x == y
  {
  }

  lemma BooleansAre(bits: seq<int>)
    requires IsElems(bits) && Booleans(bits)
    ensures AreBits(bits)
  {
    forall i | 0 <= i < |bits| ensures bits[i] == 0 || bits[i] == 1 {
      BooleanColumn(bits[i]);
    }
  }

  lemma SmallPowers()
    ensures Pow(2, 3) == 8 && Pow(2, 4) == 16 && Pow(2, 5) == 32 && Pow(2, 6) == 64 && Pow(2, 9) == 512
  {
  }

  /** A value tied to boolean columns is their number. */
  lemma Tied(x: int, bits: seq<int>)
    requires IsElems(bits) && Booleans(bits) && 0 <= x < M31 && |bits| <= 9 && Zero(x - Weighted(bits, |bits|))
    ensures AreBits(bits) && x == Weighted(bits, |bits|) && 0 <= x < Pow(2, |bits|) && bits == BitsOf(x, |bits|)
  {
    BooleansAre(bits);
    WeightedIs(bits);
    PowMono(2, |bits|, 9);
    SmallPowers();
    Same(x, Weighted(bits, |bits|));
    Determined(bits, x);
  }

  lemma Expand3(b: seq<int>)
    requires |b| >= 3
    ensures Weighted(b, 3) == b[0] + 2 * b[1] + 4 * b[2]
  {
    assert Pow(2, 0) == 1 && Pow(2, 1) == 2 && Pow(2, 2) == 4;
    assert Weighted(b, 1) == b[0] && Weighted(b, 2) == Weighted(b, 1) + b[1] * 2;
  }

  lemma Expand4(b: seq<int>)
    requires |b| >= 4
    ensures Weighted(b, 4) == b[0] + 2 * b[1] + 4 * b[2] + 8 * b[3]
  {
    Expand3(b);
    SmallPowers();
  }

  lemma Expand6(b: seq<int>)
    requires |b| == 6
    ensures Weighted(b, 6) == b[0] + 2 * b[1] + 4 * b[2] + 8 * b[3] + 16 * b[4] + 32 * b[5]
  {
    Expand4(b);
    SmallPowers();
    assert Weighted(b, 5) == Weighted(b, 4) + b[4] * 16;
  }

  lemma CardSound(e: Columns)
    requires IsColumns(e) && CardColumns(e)
    ensures e.fields[1] < 52
  {
    Tied(e.fields[1], e.cardBits);
    Expand6(e.cardBits);
    var b := e.cardBits;
    assert b[5] * b[4] == if b[5] == 1 && b[4] == 1 then 1 else 0;
    Same(e.cardHigh, b[5] * b[4]);
  }

  lemma SeatSound(e: Columns)
    requires IsColumns(e) && SeatColumns(e)
    ensures e.fields[3] < 9
  {
    Tied(e.fields[3], e.seatBits);
    Expand4(e.seatBits);
  }

  lemma BoardSound(e: Columns)
    requires IsColumns(e) && BoardColumns(e)
    ensures e.fields[6] < 5
  {
    Tied(e.fields[6], e.boardBits);
    Expand3(e.boardBits);
  }

  lemma MasksSound(e: Columns)
    requires IsColumns(e) && Masks(e)
    ensures 0 <= e.fields[7] < 512 && 0 <= e.fields[8] < 512
    ensures e.pending == BitsOf(e.fields[7], SEATS) && e.submitted == BitsOf(e.fields[8], SEATS)
    ensures And(16, e.fields[7], e.fields[8]) == 0
  {
    SmallPowers();
    Tied(e.fields[7], e.pending);
    Tied(e.fields[8], e.submitted);
    MasksDisjoint(e.fields[7], e.fields[8], e.pending, e.submitted);
  }

  lemma MasksDisjoint(x: nat, y: nat, p: seq<int>, q: seq<int>)
    requires x < 512 && y < 512 && p == BitsOf(x, SEATS) && q == BitsOf(y, SEATS)
    requires forall s :: 0 <= s < SEATS ==> Zero(p[s] * q[s])
    ensures And(16, x, y) == 0
  {
    SmallPowers();
    forall i: nat | i < 16 ensures !Shares(x, y, i) {
      if i < SEATS {
        assert Zero(p[i] * q[i]);
      } else {
        HighBit(x, SEATS, i);
      }
    }
    Disjoint(16, x, y);
  }

  /** An open gate lets nothing through that its factor does not. */
  lemma GateOpen(x: int)
    requires Zero((1 - 0) * x) && 0 <= x < M31
    ensures x == 0
  {
  }

  lemma MirrorSound(e: Columns, a: Assignment)
    requires IsColumns(e) && Typed(a) && forall j :: 0 <= j < 9 ==> Zero(e.fields[j] - Fields(a)[j])
    ensures e.fields == Fields(a)
  {
    forall j | 0 <= j < 9 ensures e.fields[j] == Fields(a)[j] {
      Same(e.fields[j], Fields(a)[j]);
    }
  }

  lemma TypedSound(a: Assignment)
    requires Typed(a) && TypedColumns(Fields(a))
    ensures a.kind <= 1 && a.slot <= 1 && a.runout <= 1
    ensures !a.present ==> a == EMPTY
    ensures (a.kind == 0 ==> a.runout == 0 && a.board == 0) && (a.kind == 1 ==> a.seat == 0 && a.slot == 0)
  {
    var f := Fields(a);
    BooleanColumn(f[2]);
    BooleanColumn(f[4]);
    BooleanColumn(f[5]);
    if !a.present {
      forall j | 1 <= j < 9 ensures f[j] == 0 {
        GateOpen(f[j]);
      }
      assert f[1] == 0 && f[2] == 0 && f[3] == 0 && f[4] == 0 && f[5] == 0 && f[6] == 0 && f[7] == 0 && f[8] == 0;
    }
  }

  /** Satisfied slot constraints force what the validator checks. */
  lemma EntrySound(e: Columns, a: Assignment)
    requires IsColumns(e) && Typed(a) && EntryConstraints(e, Fields(a))
    ensures EntryOk(a) && e.fields == Fields(a) && e.pending == BitsOf(a.pending, SEATS)
  {
    MirrorSound(e, a);
    TypedSound(a);
    CardSound(e);
    SeatSound(e);
    BoardSound(e);
    MasksSound(e);
  }

  // ----- completeness -----

  /** The advice the trace builder writes for a slot, with a given key column. */
  function Honest(a: Assignment, key: int): (e: Columns)
    ensures |e.fields| == 9 && |e.pending| == SEATS && |e.submitted| == SEATS
    ensures |e.cardBits| == 6 && |e.seatBits| == 4 && |e.boardBits| == 3
  {
    Columns(Fields(a), key, BitsOf(a.pending, SEATS), BitsOf(a.submitted, SEATS),
            BitsOf(a.card, 6), Bit(a.card, 5) * Bit(a.card, 4), BitsOf(a.seat, 4), BitsOf(a.board, 3))
  }

  lemma BitsBoolean(bits: seq<int>)
    requires AreBits(bits)
    ensures IsElems(bits) && Booleans(bits)
  {
  }

  lemma HonestShape(a: Assignment, key: int)
    requires Typed(a) && 0 <= key < M31
    ensures IsColumns(Honest(a, key))
  {
    BitsBoolean(BitsOf(a.pending, SEATS));
    BitsBoolean(BitsOf(a.submitted, SEATS));
    BitsBoolean(BitsOf(a.card, 6));
    BitsBoolean(BitsOf(a.seat, 4));
    BitsBoolean(BitsOf(a.board, 3));
  }

  lemma CardComplete(a: Assignment, key: int)
    requires Typed(a) && EntryOk(a) && 0 <= key < M31
    ensures IsColumns(Honest(a, key)) && CardColumns(Honest(a, key))
  {
    HonestShape(a, key);
    var b := BitsOf(a.card, 6);
    SmallPowers();
    Recomposes(a.card, 6);
    Expand6(b);
    BitsBoolean(b);
    var e := Honest(a, key);
    assert e.cardBits == b && b[5] == Bit(a.card, 5) && b[4] == Bit(a.card, 4);
    if b[5] == 1 && b[4] == 1 { assert b[3] == 0 && b[2] == 0; }
    assert e.cardHigh == if b[5] == 1 && b[4] == 1 then 1 else 0;
  }

  lemma SeatComplete(a: Assignment, key: int)
    requires Typed(a) && EntryOk(a) && 0 <= key < M31
    ensures IsColumns(Honest(a, key)) && SeatColumns(Honest(a, key))
  {
    HonestShape(a, key);
    var b := BitsOf(a.seat, 4);
    SmallPowers();
    Recomposes(a.seat, 4);
    Expand4(b);
    BitsBoolean(b);
    if b[3] == 1 { assert b[2] == 0 && b[1] == 0 && b[0] == 0; }
  }

  lemma BoardComplete(a: Assignment, key: int)
    requires Typed(a) && EntryOk(a) && 0 <= key < M31
    ensures IsColumns(Honest(a, key)) && BoardColumns(Honest(a, key))
  {
    HonestShape(a, key);
    var b := BitsOf(a.board, 3);
    SmallPowers();
    Recomposes(a.board, 3);
    Expand3(b);
    BitsBoolean(b);
    if b[2] == 1 { assert b[1] == 0 && b[0] == 0; }
  }

  lemma MaskComplete(present: bool, mask: nat)
    requires mask < 512 && (!present ==> mask == 0)
    ensures MaskColumns(One(present), mask, BitsOf(mask, SEATS))
  {
    var b := BitsOf(mask, SEATS);
    SmallPowers();
    Recomposes(mask, SEATS);
    BitsBoolean(b);
    forall s | 0 <= s < SEATS ensures Zero((1 - One(present)) * b[s]) {
      if !present { ZeroBit(s); }
    }
  }

  lemma MasksComplete(a: Assignment, key: int)
    requires Typed(a) && EntryOk(a) && 0 <= key < M31
    ensures IsColumns(Honest(a, key)) && Masks(Honest(a, key))
  {
    HonestShape(a, key);
    MaskComplete(a.present, a.pending);
    MaskComplete(a.present, a.submitted);
    var p, q := BitsOf(a.pending, SEATS), BitsOf(a.submitted, SEATS);
    forall s | 0 <= s < SEATS ensures Zero(p[s] * q[s]) {
      if a.present {
        Disjoint(16, a.pending, a.submitted);
        assert !Shares(a.pending, a.submitted, s);
      } else {
        ZeroBit(s);
      }
    }
  }

  /** The builder's advice satisfies the slot constraints of every accepted assignment. */
  lemma EntryComplete(a: Assignment, key: int)
    requires Typed(a) && EntryOk(a) && 0 <= key < M31
    ensures IsColumns(Honest(a, key)) && EntryConstraints(Honest(a, key), Fields(a))
  {
    CardComplete(a, key);
    SeatComplete(a, key);
    BoardComplete(a, key);
    MasksComplete(a, key);
  }
}
