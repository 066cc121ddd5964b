/**
 * The reveal ledger (src/canonical_reveal_opening.rs): an ordinary validator and the field-constraint system
 * that stands in for it. Main result: some trace satisfies the constraints exactly when the ledger is
 * contiguous, every slot is accepted, cards are distinct, the union is the or of the pending masks, targets
 * increase from slot 1 on, and the kick schedule is the forced one. The first pair of targets is not forced.
 */
module RevealLedger {
  import opened Arith
  import opened Field31
  import opened Bits
  import opened RevealEntry

  const SLOTS: nat := 18
  const SCHEDULE_EMPTY: nat := 255

  datatype RawLedger = RawLedger(phase: nat, street: nat, count: nat, union: nat, slots: seq<Assignment>)

  predicate IsLedger(l: RawLedger) {
    && |l.slots| == SLOTS && l.phase < 256 && l.street < 256 && l.count < 256 && l.union < 0x1_0000
    && forall i :: 0 <= i < |l.slots| ==> Typed(l.slots[i])
  }

  type Ledger = l: RawLedger | IsLedger(l) witness RawLedger(0, 0, 0, 0, seq(18, _ => EMPTY))

  // ----- what the ledger must be -----

  /** The or of the first n pending masks. */
  function UnionOf(slots: seq<Assignment>, n: nat): nat
    requires n <= |slots|
  {
    if n == 0 then 0 else Or(16, UnionOf(slots, n - 1), slots[n - 1].pending)
  }

  ghost predicate Contiguous(l: Ledger) {
    l.count <= |l.slots| && forall i: nat :: i < |l.slots| ==> (l.slots[i].present <==> i < l.count)
  }

  ghost predicate SlotOk(slots: seq<Assignment>, i: nat)
    requires i < |slots|
  {
    EntryOk(slots[i])
  }

  ghost predicate SlotsOk(l: Ledger) {
    forall i: nat :: i < |l.slots| ==> SlotOk(l.slots, i)
  }

  /** Adjacent targets increase, from slot `from` on. */
  ghost predicate Increasing(l: Ledger, from: nat) {
    forall i: nat :: from < i < |l.slots| && l.slots[i].present ==> Key(l.slots[i - 1]) < Key(l.slots[i])
  }

  ghost predicate DistinctCards(l: Ledger) {
    forall i: nat, j: nat :: i < j < |l.slots| && l.slots[j].present ==> l.slots[i].card != l.slots[j].card
  }

  ghost predicate UnionIsOr(l: Ledger) {
    l.union == UnionOf(l.slots, |l.slots|)
  }

  ghost predicate WellFormed(l: Ledger, from: nat) {
    Contiguous(l) && SlotsOk(l) && Increasing(l, from) && DistinctCards(l) && UnionIsOr(l)
  }

  /** What the validator accepts. */
  ghost predicate Valid(l: Ledger) {
    l.phase != 0 && l.street != 0 && WellFormed(l, 0)
  }

  /** What the constraints accept: nothing is said of phase and street, nor of the first pair of targets. */
  ghost predicate Constrained(l: Ledger) {
    WellFormed(l, 1)
  }

  /** Slot s of the schedule names seat s exactly when it is pending. */
  function KickSchedule(union: nat): (k: seq<nat>)
    ensures |k| == SEATS
  {
    seq(SEATS, s requires 0 <= s => if Bit(union, s) == 1 then s else SCHEDULE_EMPTY)
  }

  /** The schedule names exactly the pending seats; 255 stands for none and is no seat. */
  lemma ScheduleNames(union: nat, s: nat)
    requires s < SEATS
    ensures KickSchedule(union)[s] == s <==> Bit(union, s) == 1
    ensures KickSchedule(union)[s] == 255 <==> Bit(union, s) == 0
  {
  }

  // ----- the trace row and its constraints -----

  datatype Witness = Witness(
    slots: seq<Columns>, union: seq<int>, schedule: seq<int>, running: seq<seq<int>>,
    stepBits: seq<seq<int>>, stepInverse: seq<int>, cardInverse: seq<seq<int>>)

  predicate IsWitness(w: Witness, n: nat) {
    && |w.slots| == n && (forall i: nat :: i < n ==> IsColumns(w.slots[i]))
    && |w.union| == SEATS && IsElems(w.union) && |w.schedule| == SEATS && IsElems(w.schedule)
    && |w.running| == SEATS && (forall s: nat :: s < SEATS ==> |w.running[s]| == n && IsElems(w.running[s]))
    && |w.stepBits| == n && (forall i: nat :: i < n ==> |w.stepBits[i]| == 5 && IsElems(w.stepBits[i]))
    && |w.stepInverse| == n && IsElems(w.stepInverse)
    && |w.cardInverse| == n && (forall i: nat :: i < n ==> |w.cardInverse[i]| == n && IsElems(w.cardInverse[i]))
  }

  function Present(w: Witness, i: nat): int
    requires IsWitness(w, |w.slots|) && i < |w.slots|
  {
    w.slots[i].fields[0]
  }

  function PresentSum(w: Witness, n: nat): int
    requires IsWitness(w, |w.slots|) && n <= |w.slots|
  {
    if n == 0 then 0 else PresentSum(w, n - 1) + Present(w, n - 1)
  }

  predicate SlotHolds(w: Witness, i: nat, slots: seq<Assignment>)
    requires IsWitness(w, |w.slots|) && i < |w.slots| == |slots|
  {
    EntryConstraints(w.slots[i], Fields(slots[i])) && (i > 0 ==> Zero(Present(w, i) * (1 - Present(w, i - 1))))
  }

  /** The running or of one seat at one slot. */
  predicate RunningHolds(w: Witness, s: nat, i: nat)
    requires IsWitness(w, |w.slots|) && s < SEATS && i < |w.slots|
  {
    var r, bit := w.running[s], w.slots[i].pending[s];
    && Boolean(r[i])
    && if i == 0 then Zero(r[0] - bit) else Zero(r[i] - (r[i - 1] + bit - r[i - 1] * bit))
  }

  predicate SeatHolds(w: Witness, s: nat, scheduled: int)
    requires IsWitness(w, |w.slots|) && s < SEATS && 0 < |w.slots|
  {
    && Zero(w.schedule[s] - scheduled)
    && Zero(w.schedule[s] - (s * w.union[s] + SCHEDULE_EMPTY * (1 - w.union[s])))
    && Boolean(w.union[s]) && Zero(w.union[s] - w.running[s][|w.slots| - 1])
  }

  /** The target key as the constraints compute it from the fields. */
  function KeyColumn(e: Columns): int
    requires IsColumns(e)
  {
    var f := e.fields;
    (1 - f[2]) * (f[3] * 2 + f[4]) + f[2] * (18 + f[5] * 5 + f[6])
  }

  predicate StepHolds(w: Witness, i: nat)
    requires IsWitness(w, |w.slots|) && 0 < i < |w.slots|
  {
    var difference := Weighted(w.stepBits[i], 5);
    && Booleans(w.stepBits[i])
    && Zero(Present(w, i) * (difference - (w.slots[i].key - w.slots[i - 1].key)))
    && Zero(w.slots[i].key - KeyColumn(w.slots[i]))
    && Zero(difference * w.stepInverse[i] - Present(w, i))
  }

  predicate CardsHold(w: Witness, i: nat, j: nat)
    requires IsWitness(w, |w.slots|) && i < j < |w.slots|
  {
    Zero((w.slots[j].fields[1] - w.slots[i].fields[1]) * w.cardInverse[j][i] - Present(w, j))
  }

  ghost predicate Satisfies(w: Witness, l: Ledger, schedule: seq<nat>)
    requires IsWitness(w, |l.slots|) && |schedule| == SEATS
  {
    var n := |l.slots|;
    && (forall i: nat :: i < n ==> SlotHolds(w, i, l.slots))
    && Zero(PresentSum(w, n) - l.count)
    && (forall s: nat, i: nat :: s < SEATS && i < n ==> RunningHolds(w, s, i))
    && (forall s: nat :: s < SEATS ==> SeatHolds(w, s, schedule[s]))
    && Zero(l.union - Weighted(w.union, |w.union|))
    && (forall i: nat :: 0 < i < n ==> StepHolds(w, i))
    && (forall i: nat, j: nat :: i < j < n ==> CardsHold(w, i, j))
  }

  /** Bytes of the claimed schedule. */
  predicate IsSchedule(schedule: seq<nat>) {
    |schedule| == SEATS && forall s :: 0 <= s < SEATS ==> schedule[s] < 256
  }

  ghost predicate Satisfiable(l: Ledger, schedule: seq<nat>)
    requires IsSchedule(schedule)
  {
    exists w :: IsWitness(w, |l.slots|) && Satisfies(w, l, schedule)
  }

  // ----- soundness -----

  /** The slot columns are the ledger's own. */
  ghost predicate Mirrors(w: Witness, l: Ledger, n: nat)
    requires IsWitness(w, |l.slots|) && n <= |l.slots|
  {
    forall i: nat :: i < n ==> w.slots[i].fields == Fields(l.slots[i]) && w.slots[i].pending == BitsOf(l.slots[i].pending, SEATS)
  }

  lemma SlotsSound(w: Witness, l: Ledger, schedule: seq<nat>)
    requires IsWitness(w, |l.slots|) && IsSchedule(schedule) && Satisfies(w, l, schedule)
    ensures SlotsOk(l) && Mirrors(w, l, |l.slots|)
  {
    forall i: nat | i < |l.slots|
      ensures SlotOk(l.slots, i) && w.slots[i].fields == Fields(l.slots[i]) && w.slots[i].pending == BitsOf(l.slots[i].pending, SEATS)
    {
      assert SlotHolds(w, i, l.slots);
      EntrySound(w.slots[i], l.slots[i]);
    }
  }

  /** A count of leading present slots. */
  function Counted(slots: seq<Assignment>, n: nat): nat
    requires n <= |slots|
  {
    if n == 0 then 0 else Counted(slots, n - 1) + One(slots[n - 1].present)
  }

  lemma {:induction false} SumIsCount(w: Witness, l: Ledger, n: nat)
    requires IsWitness(w, |l.slots|) && n <= |l.slots| && Mirrors(w, l, |l.slots|)
    ensures PresentSum(w, n) == Counted(l.slots, n) && Counted(l.slots, n) <= n
  {
    if n > 0 { SumIsCount(w, l, n - 1); }
  }

  ghost predicate NoGaps(slots: seq<Assignment>) {
    forall i: nat :: 0 < i < |slots| && slots[i].present ==> slots[i - 1].present
  }

  lemma {:induction false} NoGapsBelow(slots: seq<Assignment>, i: nat, j: nat)
    requires NoGaps(slots) && i <= j < |slots| && slots[j].present
    ensures slots[i].present
  {
    if i < j { NoGapsBelow(slots, i, j - 1); }
  }

  /** Without gaps, the number of present slots is where they end. */
  lemma {:induction false} CountMarksEnd(slots: seq<Assignment>, n: nat, i: nat)
    requires NoGaps(slots) && i < n <= |slots|
    ensures slots[i].present <==> i < Counted(slots, n)
    ensures Counted(slots, n) <= n
  {
    if n > 1 {
      CountMarksEnd(slots, n - 1, if i < n - 1 then i else 0);
      if slots[n - 1].present {
        NoGapsBelow(slots, n - 2, n - 1);
        CountMarksEnd(slots, n - 1, n - 2);
        NoGapsBelow(slots, i, n - 1);
      } else if i == n - 1 && Counted(slots, n) > n - 1 {
        assert false;
      }
    }
  }

  lemma GapForbidden(w: Witness, i: nat, slots: seq<Assignment>)
    requires IsWitness(w, |w.slots|) && 0 < i < |w.slots| == |slots| && SlotHolds(w, i, slots) && slots[i].present
    requires w.slots[i].fields[0] == One(slots[i].present) && w.slots[i - 1].fields[0] == One(slots[i - 1].present)
    ensures slots[i - 1].present
  {
  }

  lemma GapsForbidden(w: Witness, l: Ledger, schedule: seq<nat>)
    requires IsWitness(w, |l.slots|) && IsSchedule(schedule) && Satisfies(w, l, schedule) && Mirrors(w, l, |l.slots|)
    ensures NoGaps(l.slots)
  {
    forall i: nat | 0 < i < |l.slots| && l.slots[i].present
      ensures l.slots[i - 1].present
    {
      assert SlotHolds(w, i, l.slots);
      GapAt(w, l, i);
    }
  }

  lemma GapAt(w: Witness, l: Ledger, i: nat)
    requires IsWitness(w, |l.slots|) && Mirrors(w, l, |l.slots|) && 0 < i < |l.slots| && SlotHolds(w, i, l.slots) && l.slots[i].present
    ensures l.slots[i - 1].present
  {
    MirrorsAt(w, l, i);
    MirrorsAt(w, l, i - 1);
    GapForbidden(w, i, l.slots);
  }

  lemma MirrorsAt(w: Witness, l: Ledger, i: nat)
    requires IsWitness(w, |l.slots|) && Mirrors(w, l, |l.slots|) && i < |l.slots|
    ensures w.slots[i].fields[0] == One(l.slots[i].present) && w.slots[i].fields[1] == l.slots[i].card
  {
  }

  lemma ContiguousSound(w: Witness, l: Ledger, schedule: seq<nat>)
    requires IsWitness(w, |l.slots|) && IsSchedule(schedule) && Satisfies(w, l, schedule) && Mirrors(w, l, |l.slots|)
    ensures Contiguous(l)
  {
    GapsForbidden(w, l, schedule);
    SumIsCount(w, l, |l.slots|);
    Same(PresentSum(w, |l.slots|), l.count);
    forall i: nat | i < |l.slots| ensures l.slots[i].present <==> i < l.count {
      CountMarksEnd(l.slots, |l.slots|, i);
    }
  }

  /** Each running column is the or of the pending bits so far. */
  lemma {:induction false} RunningSound(w: Witness, l: Ledger, s: nat, i: nat)
    requires IsWitness(w, |l.slots|) && Mirrors(w, l, |l.slots|) && s < SEATS && i < |l.slots|
    requires forall j: nat :: j < |l.slots| ==> RunningHolds(w, s, j)
    ensures w.running[s][i] == Bit(UnionOf(l.slots, i + 1), s)
  {
    var r, bit := w.running[s], Bit(l.slots[i].pending, s);
    assert RunningHolds(w, s, i);
    assert w.slots[i].pending == BitsOf(l.slots[i].pending, SEATS);
    OrBit(16, UnionOf(l.slots, i), l.slots[i].pending, s);
    if i == 0 {
      ZeroBit(s);
      Same(r[0], bit);
    } else {
      RunningSound(w, l, s, i - 1);
      assert r[i - 1] * bit == if r[i - 1] == 1 && bit == 1 then 1 else 0;
      Same(r[i], r[i - 1] + bit - r[i - 1] * bit);
    }
  }

  lemma UnionBits(w: Witness, l: Ledger, scheduled: int, s: nat)
    requires IsWitness(w, |l.slots|) && Mirrors(w, l, |l.slots|) && s < SEATS
    requires SeatHolds(w, s, scheduled) && forall j: nat :: j < |l.slots| ==> RunningHolds(w, s, j)
    ensures w.union[s] == Bit(UnionOf(l.slots, |l.slots|), s)
  {
    var n := |l.slots|;
    RunningSound(w, l, s, n - 1);
    Same(w.union[s], w.running[s][n - 1]);
  }

  lemma {:induction false} UnionBound(slots: seq<Assignment>, n: nat, i: nat)
    requires n <= |slots| && 9 <= i < 16 && forall j: nat :: j < n ==> slots[j].pending < 512
    ensures Bit(UnionOf(slots, n), i) == 0
  {
    if n == 0 {
      ZeroBit(i);
    } else {
      UnionBound(slots, n - 1, i);
      assert slots[n - 1].pending < 512;
      SmallPowers();
      HighBit(slots[n - 1].pending, 9, i);
      OrBit(16, UnionOf(slots, n - 1), slots[n - 1].pending, i);
    }
  }

  lemma UnionWidth(slots: seq<Assignment>, n: nat)
    requires n <= |slots|
    ensures UnionOf(slots, n) < Pow(2, 16)
  {
    if n > 0 { OrBound(16, UnionOf(slots, n - 1), slots[n - 1].pending); }
  }

  lemma PendingBound(l: Ledger)
    requires SlotsOk(l)
    ensures forall j: nat :: j < |l.slots| ==> l.slots[j].pending < 512
  {
    forall j: nat | j < |l.slots| ensures l.slots[j].pending < 512 {
      assert SlotOk(l.slots, j);
    }
  }

  /** A mask with the union's nine bits is the union. */
  lemma MaskIsUnion(l: Ledger, x: nat)
    requires SlotsOk(l) && x < 512
    requires forall s: nat :: s < SEATS ==> Bit(x, s) == Bit(UnionOf(l.slots, |l.slots|), s)
    ensures x == UnionOf(l.slots, |l.slots|)
  {
    var u := UnionOf(l.slots, |l.slots|);
    SmallPowers();
    PowMono(2, 9, 16);
    UnionWidth(l.slots, |l.slots|);
    PendingBound(l);
    forall i: nat | i < 16 ensures Bit(x, i) == Bit(u, i) {
      if i >= 9 {
        HighBit(x, 9, i);
        UnionBound(l.slots, |l.slots|, i);
      }
    }
    BitsUnique(x, u, 16);
  }

  lemma UnionBitAt(w: Witness, l: Ledger, schedule: seq<nat>, s: nat)
    requires IsWitness(w, |l.slots|) && IsSchedule(schedule) && Satisfies(w, l, schedule) && Mirrors(w, l, |l.slots|) && s < SEATS
    ensures Boolean(w.union[s]) && w.union[s] == Bit(UnionOf(l.slots, |l.slots|), s)
  {
    assert SeatHolds(w, s, schedule[s]);
    forall j: nat | j < |l.slots| ensures RunningHolds(w, s, j) {
    }
    UnionBits(w, l, schedule[s], s);
  }

  lemma UnionSound(w: Witness, l: Ledger, schedule: seq<nat>)
    requires IsWitness(w, |l.slots|) && IsSchedule(schedule) && Satisfies(w, l, schedule)
    requires SlotsOk(l) && Mirrors(w, l, |l.slots|)
    ensures UnionIsOr(l) && w.union == BitsOf(l.union, SEATS)
  {
    UnionBitsAll(w, l, schedule);
    UnionTied(l, w.union, UnionOf(l.slots, |l.slots|));
  }

  lemma UnionBitsAll(w: Witness, l: Ledger, schedule: seq<nat>)
    requires IsWitness(w, |l.slots|) && IsSchedule(schedule) && Satisfies(w, l, schedule) && Mirrors(w, l, |l.slots|)
    ensures w.union == BitsOf(UnionOf(l.slots, |l.slots|), SEATS)
  {
    forall s: nat | s < SEATS ensures Boolean(w.union[s]) && w.union[s] == Bit(UnionOf(l.slots, |l.slots|), s) {
      UnionBitAt(w, l, schedule, s);
    }
  }

  lemma UnionTied(l: Ledger, bits: seq<int>, u: nat)
    requires SlotsOk(l) && |bits| == SEATS && IsElems(bits) && Zero(l.union - Weighted(bits, |bits|)) && u == UnionOf(l.slots, |l.slots|)
    requires bits == BitsOf(u, SEATS)
    ensures l.union == u && bits == BitsOf(l.union, SEATS)
  {
    BitsBoolean(bits);
    Tied(l.union, bits);
    SmallPowers();
    forall s: nat | s < SEATS ensures Bit(l.union, s) == Bit(u, s) {
      assert BitsOf(u, SEATS)[s] == BitsOf(l.union, SEATS)[s];
    }
    MaskIsUnion(l, l.union);
  }

  lemma ScheduleSound(w: Witness, l: Ledger, schedule: seq<nat>)
    requires IsWitness(w, |l.slots|) && IsSchedule(schedule) && Satisfies(w, l, schedule) && w.union == BitsOf(l.union, SEATS)
    ensures schedule == KickSchedule(l.union)
  {
    forall s: nat | s < SEATS ensures schedule[s] == KickSchedule(l.union)[s] {
      assert SeatHolds(w, s, schedule[s]);
      Same(w.schedule[s], schedule[s]);
      Same(w.schedule[s], KickSchedule(l.union)[s]);
    }
  }

  lemma KeyIs(a: Assignment, e: Columns)
    requires IsColumns(e) && e.fields == Fields(a) && EntryOk(a)
    ensures KeyColumn(e) == Key(a) && 0 <= Key(a) <= 27
  {
    assert a.kind == 0 || a.kind == 1;
  }

  lemma Bits5(b: seq<int>)
    requires |b| == 5 && IsElems(b) && Booleans(b)
    ensures 0 <= Weighted(b, 5) < 32
  {
    BooleansAre(b);
    WeightedIs(b);
    SmallPowers();
  }

  /** From slot 1 on a present target is above its predecessor. */
  lemma StepSound(w: Witness, l: Ledger, i: nat)
    requires IsWitness(w, |l.slots|) && SlotsOk(l) && Mirrors(w, l, |l.slots|) && 1 < i < |l.slots| && l.slots[i].present
    requires StepHolds(w, i) && StepHolds(w, i - 1)
    ensures Key(l.slots[i - 1]) < Key(l.slots[i])
  {
    var d := Weighted(w.stepBits[i], 5);
    Bits5(w.stepBits[i]);
    assert SlotOk(l.slots, i) && SlotOk(l.slots, i - 1);
    KeyIs(l.slots[i], w.slots[i]);
    KeyIs(l.slots[i - 1], w.slots[i - 1]);
    Same(w.slots[i].key, Key(l.slots[i]));
    Same(w.slots[i - 1].key, Key(l.slots[i - 1]));
    StepForced(d, Key(l.slots[i]), Key(l.slots[i - 1]), w.stepInverse[i]);
  }

  lemma StepForced(d: int, k: int, k': int, inverse: int)
    requires 0 <= d < 32 && 0 <= k <= 27 && 0 <= k' <= 27
    requires Zero(1 * (d - (k - k'))) && Zero(d * inverse - 1)
    ensures k' < k
  {
    assert d == k - k';
  }

  lemma IncreasingSound(w: Witness, l: Ledger, schedule: seq<nat>)
    requires IsWitness(w, |l.slots|) && IsSchedule(schedule) && Satisfies(w, l, schedule) && SlotsOk(l) && Mirrors(w, l, |l.slots|)
    ensures Increasing(l, 1)
  {
    forall i: nat | 1 < i < |l.slots| && l.slots[i].present
      ensures Key(l.slots[i - 1]) < Key(l.slots[i])
    {
      StepSound(w, l, i);
    }
  }

  lemma CardsSound(w: Witness, l: Ledger, schedule: seq<nat>)
    requires IsWitness(w, |l.slots|) && IsSchedule(schedule) && Satisfies(w, l, schedule) && Mirrors(w, l, |l.slots|)
    ensures DistinctCards(l)
  {
    forall i: nat, j: nat | i < j < |l.slots| && l.slots[j].present
      ensures l.slots[i].card != l.slots[j].card
    {
      assert CardsHold(w, i, j);
      CardPair(w, l, i, j);
    }
  }

  lemma CardPair(w: Witness, l: Ledger, i: nat, j: nat)
    requires IsWitness(w, |l.slots|) && Mirrors(w, l, |l.slots|) && i < j < |l.slots| && l.slots[j].present && CardsHold(w, i, j)
    ensures l.slots[i].card != l.slots[j].card
  {
    MirrorsAt(w, l, i);
    MirrorsAt(w, l, j);
    CardsDiffer(l.slots[i].card, l.slots[j].card, w.cardInverse[j][i]);
  }

  lemma CardsDiffer(x: int, y: int, inverse: int)
    requires Zero((y - x) * inverse - 1)
    ensures x != y
  {
    assert x == y ==> (y - x) * inverse == 0;
  }

  /** A satisfying trace forces everything but phase, street and the first pair of targets. */
  lemma SatisfiedIsConstrained(w: Witness, l: Ledger, schedule: seq<nat>)
    requires IsWitness(w, |l.slots|) && IsSchedule(schedule) && Satisfies(w, l, schedule)
    ensures Constrained(l) && schedule == KickSchedule(l.union)
  {
    SlotsSound(w, l, schedule);
    ContiguousSound(w, l, schedule);
    UnionSound(w, l, schedule);
    ScheduleSound(w, l, schedule);
    IncreasingSound(w, l, schedule);
    CardsSound(w, l, schedule);
  }
}
