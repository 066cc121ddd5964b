/**
 * Building the reveal ledger's trace and validating the ledger (pending_union_trace and validate of
 * src/canonical_reveal_opening.rs), with the converse of the constraint system's soundness.
 */
module RevealTrace {
  import opened Arith
  import opened Primes
  import opened Field31
  import opened Bits
  import opened RevealEntry
  import opened RevealLedger
  import opened Wrappers

  // ----- inverses -----

  ghost predicate Inverts(x: int, y: int) {
    0 <= y < M31 && (x * y) % M31 == 1
  }

  lemma HasInverse(x: int)
    requires x % M31 != 0
    ensures exists y :: Inverts(x, y)
  {
    var y := InverseExists(x % M31);
    ReduceFactor(x, y, M31);
    assert Inverts(x, y);
  }

  /** A field inverse; zero where there is none, as the builder writes it. */
  ghost function Inverse(x: int): (y: int)
    ensures 0 <= y < M31 && (x % M31 != 0 ==> Inverts(x, y))
  {
    if x % M31 == 0 then 0
    else
      HasInverse(x);
      var y :| Inverts(x, y); y
  }

  // ----- the builder's columns -----

  /** What the step columns of slot i record: the increase of the key, one for the pair the caller chooses. */
  function Step(slots: seq<Assignment>, i: nat, first: nat): int
    requires 0 < i < |slots|
  {
    if !slots[i].present then 0 else if i == 1 then first else Key(slots[i]) - Key(slots[i - 1])
  }

  function Running(slots: seq<Assignment>, s: nat): (r: seq<int>)
    ensures |r| == |slots|
  {
    seq(|slots|, i requires 0 <= i < |slots| => Bit(UnionOf(slots, i + 1), s))
  }

  ghost function CardInverses(slots: seq<Assignment>, j: nat): (r: seq<int>)
    requires j < |slots|
    ensures |r| == |slots|
  {
    seq(|slots|, i requires 0 <= i < |slots| =>
      if slots[j].present then Inverse(slots[j].card - slots[i].card) else 0)
  }

  /** The trace row, with the key column of slot 0 and the first step left open. */
  ghost function Build(l: Ledger, key: int, first: nat): Witness {
    var n := |l.slots|;
    Witness(
      seq(n, i requires 0 <= i < n => Honest(l.slots[i], if i == 0 then key else Key(l.slots[i]))),
      BitsOf(l.union, SEATS), KickSchedule(l.union),
      seq(SEATS, s requires 0 <= s => Running(l.slots, s)),
      seq(n, i requires 0 <= i < n => if i == 0 then BitsOf(0, 5) else BitsOf(StepNat(l.slots, i, first), 5)),
      seq(n, i requires 0 <= i < n => if i == 0 then 0 else Inverse(StepNat(l.slots, i, first))),
      seq(n, j requires 0 <= j < n => CardInverses(l.slots, j)))
  }

  function StepNat(slots: seq<Assignment>, i: nat, first: nat): nat
    requires 0 < i < |slots|
  {
    if Step(slots, i, first) < 0 then 0 else Step(slots, i, first)
  }

  lemma KeyBound(a: Assignment)
    requires EntryOk(a)
    ensures 0 <= Key(a) <= 27
  {
  }

  lemma SlotShape(l: Ledger, key: int, first: nat, i: nat)
    requires SlotsOk(l) && 0 <= key < M31 && i < |l.slots|
    ensures IsColumns(Build(l, key, first).slots[i])
    ensures EntryConstraints(Build(l, key, first).slots[i], Fields(l.slots[i]))
  {
    assert SlotOk(l.slots, i);
    KeyBound(l.slots[i]);
    EntryComplete(l.slots[i], if i == 0 then key else Key(l.slots[i]));
  }

  lemma RunningElems(slots: seq<Assignment>, s: nat)
    ensures AreBits(Running(slots, s)) && IsElems(Running(slots, s))
  {
    BitsBoolean(Running(slots, s));
  }

  lemma BuildShape(l: Ledger, key: int, first: nat)
    requires SlotsOk(l) && 0 <= key < M31
    ensures IsWitness(Build(l, key, first), |l.slots|)
  {
    var w, n := Build(l, key, first), |l.slots|;
    forall i: nat | i < n ensures IsColumns(w.slots[i]) {
      SlotShape(l, key, first, i);
    }
    BitsBoolean(w.union);
    forall s: nat | s < SEATS ensures |w.running[s]| == n && IsElems(w.running[s]) {
      RunningElems(l.slots, s);
    }
    forall i: nat | i < n ensures |w.stepBits[i]| == 5 && IsElems(w.stepBits[i]) {
      BitsBoolean(w.stepBits[i]);
    }
  }

  // ----- each family of constraints holds -----

  lemma SlotHoldsFor(w: Witness, l: Ledger, key: int, first: nat, i: nat)
    requires Contiguous(l) && SlotsOk(l) && 0 <= key < M31 && i < |l.slots| && w == Build(l, key, first)
    requires IsWitness(w, |l.slots|)
    ensures SlotHolds(w, i, l.slots)
  {
    SlotShape(l, key, first, i);
    if i > 0 && l.slots[i].present { assert l.slots[i - 1].present; }
  }

  lemma {:induction false} SumFor(w: Witness, l: Ledger, key: int, first: nat, n: nat)
    requires Contiguous(l) && n <= |l.slots| && w == Build(l, key, first) && IsWitness(w, |l.slots|)
    ensures PresentSum(w, n) == if n <= l.count then n else l.count
  {
    if n > 0 {
      SumFor(w, l, key, first, n - 1);
      assert Present(w, n - 1) == One(l.slots[n - 1].present);
    }
  }

  lemma BuiltRunning(w: Witness, l: Ledger, key: int, first: nat, s: nat, i: nat)
    requires s < SEATS && i < |l.slots| && w == Build(l, key, first) && IsWitness(w, |l.slots|)
    ensures w.running[s] == Running(l.slots, s) && w.slots[i].pending[s] == Bit(l.slots[i].pending, s)
  {
  }

  lemma RunningHeld(w: Witness, slots: seq<Assignment>, s: nat, i: nat)
    requires s < SEATS && i < |slots| && IsWitness(w, |slots|)
    requires w.running[s] == Running(slots, s) && w.slots[i].pending[s] == Bit(slots[i].pending, s)
    ensures RunningHolds(w, s, i)
  {
    var r, bit := Running(slots, s), Bit(slots[i].pending, s);
    assert r[i] == Bit(UnionOf(slots, i + 1), s);
    OrBit(16, UnionOf(slots, i), slots[i].pending, s);
    if i == 0 {
      ZeroBit(s);
    } else {
      assert r[i - 1] == Bit(UnionOf(slots, i - 1 + 1), s);
      assert r[i] == r[i - 1] + bit - r[i - 1] * bit;
    }
  }

  lemma RunningHoldsFor(w: Witness, l: Ledger, key: int, first: nat, s: nat, i: nat)
    requires s < SEATS && i < |l.slots| && w == Build(l, key, first) && IsWitness(w, |l.slots|)
    ensures RunningHolds(w, s, i)
  {
    BuiltRunning(w, l, key, first, s, i);
    RunningHeld(w, l.slots, s, i);
  }

  lemma SeatHoldsFor(w: Witness, l: Ledger, key: int, first: nat, s: nat)
    requires UnionIsOr(l) && s < SEATS && w == Build(l, key, first) && IsWitness(w, |l.slots|)
    ensures SeatHolds(w, s, KickSchedule(l.union)[s])
  {
    assert w.running[s] == Running(l.slots, s);
    assert w.union[s] == Bit(l.union, s);
  }

  /** The open choices are right: the first step is positive and explains the key column of slot 0. */
  ghost predicate FirstStep(l: Ledger, key: int, first: nat) {
    && 0 <= key < M31
    && (l.slots[1].present ==> 0 < first < 32 && Zero(first - (Key(l.slots[1]) - key)))
  }

  lemma StepIs(l: Ledger, key: int, first: nat, i: nat)
    requires SlotsOk(l) && Increasing(l, 1) && FirstStep(l, key, first) && 0 < i < |l.slots|
    ensures var d := Step(l.slots, i, first);
      && 0 <= d < 32 && (l.slots[i].present <==> 0 < d)
      && (l.slots[i].present ==> Zero(d - (Key(l.slots[i]) - if i == 1 then key else Key(l.slots[i - 1]))))
  {
    assert SlotOk(l.slots, i) && SlotOk(l.slots, i - 1);
    KeyBound(l.slots[i]);
    KeyBound(l.slots[i - 1]);
  }

  /** What the builder writes into the step columns of slot i. */
  ghost predicate StepWritten(w: Witness, l: Ledger, key: int, first: nat, i: nat)
    requires 0 < i < |l.slots| && IsWitness(w, |l.slots|)
  {
    && w.stepBits[i] == BitsOf(StepNat(l.slots, i, first), 5) && w.stepInverse[i] == Inverse(StepNat(l.slots, i, first))
    && w.slots[i].fields == Fields(l.slots[i]) && w.slots[i].key == Key(l.slots[i])
    && w.slots[i - 1].key == if i == 1 then key else Key(l.slots[i - 1])
  }

  lemma BuiltStep(w: Witness, l: Ledger, key: int, first: nat, i: nat)
    requires 0 < i < |l.slots| && w == Build(l, key, first) && IsWitness(w, |l.slots|)
    ensures StepWritten(w, l, key, first, i)
  {
  }

  lemma StepHeld(w: Witness, n: nat, i: nat, d: nat, k: int, k': int, present: bool)
    requires 0 < i < n && IsWitness(w, n) && w.stepBits[i] == BitsOf(d, 5) && w.stepInverse[i] == Inverse(d)
    requires w.slots[i].key == k == KeyColumn(w.slots[i]) && w.slots[i - 1].key == k' && Present(w, i) == One(present)
    requires d < 32 && (present <==> 0 < d) && (present ==> Zero(d - (k - k')))
    ensures StepHolds(w, i)
  {
    SmallPowers();
    Recomposes(d, 5);
    BitsBoolean(BitsOf(d, 5));
    StepColumns(d, k, k', present);
  }

  lemma WrittenStepHolds(w: Witness, l: Ledger, key: int, first: nat, i: nat)
    requires SlotsOk(l) && Increasing(l, 1) && FirstStep(l, key, first) && 0 < i < |l.slots|
    requires IsWitness(w, |l.slots|) && StepWritten(w, l, key, first, i)
    ensures StepHolds(w, i)
  {
    StepIs(l, key, first, i);
    assert SlotOk(l.slots, i);
    KeyIs(l.slots[i], w.slots[i]);
    StepHeld(w, |l.slots|, i, Step(l.slots, i, first), Key(l.slots[i]), if i == 1 then key else Key(l.slots[i - 1]), l.slots[i].present);
  }

  lemma StepHoldsFor(w: Witness, l: Ledger, key: int, first: nat, i: nat)
    requires SlotsOk(l) && Increasing(l, 1) && FirstStep(l, key, first) && 0 < i < |l.slots|
    requires w == Build(l, key, first) && IsWitness(w, |l.slots|)
    ensures StepHolds(w, i)
  {
    BuiltStep(w, l, key, first, i);
    WrittenStepHolds(w, l, key, first, i);
  }

  lemma StepColumns(d: int, k: int, k': int, present: bool)
    requires 0 <= d < 32 && (present <==> 0 < d) && (present ==> Zero(d - (k - k')))
    ensures Zero(One(present) * (d - (k - k'))) && Zero(d * Inverse(d) - One(present))
  {
    if present {
      assert Inverts(d, Inverse(d));
    }
  }

  lemma BuiltCards(w: Witness, l: Ledger, key: int, first: nat, i: nat, j: nat)
    requires i < j < |l.slots| && w == Build(l, key, first) && IsWitness(w, |l.slots|)
    ensures w.cardInverse[j][i] == if l.slots[j].present then Inverse(l.slots[j].card - l.slots[i].card) else 0
    ensures w.slots[i].fields == Fields(l.slots[i]) && w.slots[j].fields == Fields(l.slots[j])
  {
    assert w.cardInverse[j] == CardInverses(l.slots, j);
  }

  lemma CardsHeld(w: Witness, n: nat, a: Assignment, b: Assignment, i: nat, j: nat)
    requires i < j < n && IsWitness(w, n) && EntryOk(a) && EntryOk(b) && (b.present ==> a.present && a.card != b.card)
    requires w.slots[i].fields == Fields(a) && w.slots[j].fields == Fields(b)
    requires w.cardInverse[j][i] == if b.present then Inverse(b.card - a.card) else 0
    ensures CardsHold(w, i, j)
  {
    if b.present { CardDifference(b.card, a.card); }
  }

  lemma CardsHoldFor(w: Witness, l: Ledger, key: int, first: nat, i: nat, j: nat)
    requires Contiguous(l) && SlotsOk(l) && DistinctCards(l) && i < j < |l.slots| && w == Build(l, key, first) && IsWitness(w, |l.slots|)
    ensures CardsHold(w, i, j)
  {
    assert SlotOk(l.slots, i) && SlotOk(l.slots, j);
    assert l.slots[j].present ==> l.slots[i].present && l.slots[i].card != l.slots[j].card;
    BuiltCards(w, l, key, first, i, j);
    CardsHeld(w, |l.slots|, l.slots[i], l.slots[j], i, j);
  }

  lemma CardDifference(x: int, y: int)
    requires 0 <= x < 52 && 0 <= y < 52 && x != y
    ensures Zero((x - y) * Inverse(x - y) - 1)
  {
    assert (x - y) % M31 != 0;
    assert Inverts(x - y, Inverse(x - y));
  }

  /** The built row satisfies every constraint. */
  lemma BuildSatisfies(l: Ledger, key: int, first: nat)
    requires Constrained(l) && FirstStep(l, key, first)
    ensures IsWitness(Build(l, key, first), |l.slots|) && Satisfies(Build(l, key, first), l, KickSchedule(l.union))
  {
    var w, n := Build(l, key, first), |l.slots|;
    BuildShape(l, key, first);
    forall i: nat | i < n ensures SlotHolds(w, i, l.slots) {
      SlotHoldsFor(w, l, key, first, i);
    }
    SumFor(w, l, key, first, n);
    forall s: nat, i: nat | s < SEATS && i < n ensures RunningHolds(w, s, i) {
      RunningHoldsFor(w, l, key, first, s, i);
    }
    forall s: nat | s < SEATS ensures SeatHolds(w, s, KickSchedule(l.union)[s]) {
      SeatHoldsFor(w, l, key, first, s);
    }
    UnionRecomposes(l);
    forall i: nat | 0 < i < n ensures StepHolds(w, i) {
      StepHoldsFor(w, l, key, first, i);
    }
    forall i: nat, j: nat | i < j < n ensures CardsHold(w, i, j) {
      CardsHoldFor(w, l, key, first, i, j);
    }
  }

  lemma UnionRecomposes(l: Ledger)
    requires SlotsOk(l) && UnionIsOr(l)
    ensures Zero(l.union - Weighted(BitsOf(l.union, SEATS), SEATS)) && l.union < 512
  {
    SmallPowers();
    UnionFits(l);
    Recomposes(l.union, SEATS);
  }

  lemma UnionFits(l: Ledger)
    requires SlotsOk(l)
    ensures UnionOf(l.slots, |l.slots|) < 512
  {
    var u := UnionOf(l.slots, |l.slots|);
    PendingBound(l);
    WeightedIs(BitsOf(u, SEATS));
    SmallPowers();
    MaskIsUnion(l, Weighted(BitsOf(u, SEATS), SEATS));
  }

  // ----- main results -----

  /** Some trace satisfies the constraints exactly when the ledger is constrained and the schedule is forced. */
  lemma SatisfiableIffConstrained(l: Ledger, schedule: seq<nat>)
    requires IsSchedule(schedule)
    ensures Satisfiable(l, schedule) <==> Constrained(l) && schedule == KickSchedule(l.union)
  {
    if Satisfiable(l, schedule) {
      var w :| IsWitness(w, |l.slots|) && Satisfies(w, l, schedule);
      SatisfiedIsConstrained(w, l, schedule);
    }
    if Constrained(l) && schedule == KickSchedule(l.union) {
      var key := (Key(l.slots[1]) - 1) % M31;
      BuildSatisfies(l, key, 1);
      assert IsWitness(Build(l, key, 1), |l.slots|) && Satisfies(Build(l, key, 1), l, schedule);
    }
  }

  /** The builder's own row, whose first key column and step come from the ledger, satisfies every valid ledger. */
  lemma ValidIsSatisfied(l: Ledger)
    requires Valid(l)
    ensures var w := Build(l, Key(l.slots[0]), if l.slots[1].present then Key(l.slots[1]) - Key(l.slots[0]) else 0);
      IsWitness(w, |l.slots|) && Satisfies(w, l, KickSchedule(l.union))
  {
    assert SlotOk(l.slots, 0) && SlotOk(l.slots, 1);
    KeyBound(l.slots[0]);
    KeyBound(l.slots[1]);
    BuildSatisfies(l, Key(l.slots[0]), if l.slots[1].present then Key(l.slots[1]) - Key(l.slots[0]) else 0);
  }

  /** What the constraints leave to the validator: the header, and the order of the first two targets. */
  lemma ValidIff(l: Ledger, schedule: seq<nat>)
    requires IsSchedule(schedule) && schedule == KickSchedule(l.union)
    ensures Valid(l) <==>
      (Satisfiable(l, schedule) && l.phase != 0 && l.street != 0 && (l.slots[1].present ==> Key(l.slots[0]) < Key(l.slots[1])))
  {
    SatisfiableIffConstrained(l, schedule);
  }

  /** Two hole cards in the wrong order: seat 1 before seat 0. */
  const SWAPPED: Ledger :=
    RawLedger(1, 1, 2, 0,
              [Assignment(true, 0, 0, 1, 0, 0, 0, 0, 0), Assignment(true, 1, 0, 0, 0, 0, 0, 0, 0)] + seq(16, _ => EMPTY))

  lemma {:induction false} OrNothing(k: nat)
    ensures Or(k, 0, 0) == 0
  {
    if k > 0 { OrNothing(k - 1); }
  }

  lemma {:induction false} NothingPending(slots: seq<Assignment>, n: nat)
    requires n <= |slots| && forall i: nat :: i < n ==> slots[i].pending == 0
    ensures UnionOf(slots, n) == 0
  {
    if n > 0 {
      NothingPending(slots, n - 1);
      OrNothing(16);
    }
  }

  lemma SwappedSlots(l: Ledger)
    requires l == SWAPPED
    ensures SlotsOk(l) && Contiguous(l)
  {
    NoMasks(16);
    forall i: nat | i < |l.slots| ensures SlotOk(l.slots, i) {
    }
  }

  lemma {:induction false} NoMasks(k: nat)
    ensures And(k, 0, 0) == 0
  {
    if k > 0 { NoMasks(k - 1); }
  }

  /** The validator refuses this ledger and the constraints accept it: the key column of slot 0 is tied to nothing. */
  lemma FirstPairNotForced()
    ensures IsSchedule(KickSchedule(0)) && Satisfiable(SWAPPED, KickSchedule(0)) && !Valid(SWAPPED)
  {
    var l := SWAPPED;
    SwappedSlots(l);
    NothingPending(l.slots, |l.slots|);
    SatisfiableIffConstrained(l, KickSchedule(0));
    assert l.slots[1].present && Key(l.slots[1]) < Key(l.slots[0]);
  }

  // ----- the validator -----

  /** A target as the validator compares it. */
  datatype Target = Target(kind: nat, major: nat, minor: nat)

  function TargetOf(a: Assignment): Target {
    if a.kind == 0 then Target(0, a.seat, a.slot) else Target(1, a.runout, a.board)
  }

  predicate AtLeast(t: Target, u: Target) {
    t.kind > u.kind || (t.kind == u.kind && (t.major > u.major || (t.major == u.major && t.minor >= u.minor)))
  }

  /** Comparing targets is comparing keys. */
  lemma KeysOrder(a: Assignment, b: Assignment)
    requires EntryOk(a) && EntryOk(b) && a.present && b.present
    ensures AtLeast(TargetOf(a), TargetOf(b)) <==> Key(b) <= Key(a)
  {
  }

  lemma {:induction false} OrZero(k: nat, x: nat)
    requires x < Pow(2, k)
    ensures Or(k, x, 0) == x
  {
    if k > 0 { OrZero(k - 1, x / 2); }
  }

  /** The slots below i are as they should be. */
  ghost predicate CheckedTo(l: Ledger, i: nat) {
    && i <= |l.slots| && l.count <= |l.slots|
    && (forall k: nat :: k < i ==> (l.slots[k].present <==> k < l.count) && SlotOk(l.slots, k))
    && (forall k: nat :: 0 < k < i && l.slots[k].present ==> Key(l.slots[k - 1]) < Key(l.slots[k]))
    && (forall j: nat, k: nat :: j < k < i && l.slots[k].present ==> l.slots[j].card != l.slots[k].card)
  }

  ghost predicate HasSeen(l: Ledger, i: nat, seen: seq<bool>) {
    && |seen| == 52 && i <= |l.slots|
    && (forall k: nat :: k < i && l.slots[k].present ==> l.slots[k].card < 52 && seen[l.slots[k].card])
    && (forall c: nat :: c < 52 && seen[c] ==> exists k: nat :: k < i && l.slots[k].present && l.slots[k].card == c)
  }

  lemma SeenStep(l: Ledger, i: nat, seen: seq<bool>)
    requires HasSeen(l, i, seen) && i < |l.slots| && l.slots[i].present && l.slots[i].card < 52
    ensures HasSeen(l, i + 1, seen[l.slots[i].card := true])
  {
    var next := seen[l.slots[i].card := true];
    forall c: nat | c < 52 && next[c] ensures exists k: nat :: k < i + 1 && l.slots[k].present && l.slots[k].card == c {
      if c == l.slots[i].card {
        assert i < i + 1 && l.slots[i].present;
      } else {
        var k: nat :| k < i && l.slots[k].present && l.slots[k].card == c;
      }
    }
  }

  /** One occupied slot, checked against what came before. */
  lemma OccupiedStep(l: Ledger, i: nat, seen: seq<bool>, prior: Option<Target>)
    requires CheckedTo(l, i) && HasSeen(l, i, seen) && i < |l.slots| && i < l.count
    requires l.slots[i].present && SlotOk(l.slots, i)
    requires i == 0 ==> prior == None
    requires i > 0 ==> prior == Some(TargetOf(l.slots[i - 1]))
    ensures (prior.Some? && AtLeast(prior.value, TargetOf(l.slots[i]))) ==> !Valid(l)
    ensures seen[l.slots[i].card] ==> !Valid(l)
    ensures !(prior.Some? && AtLeast(prior.value, TargetOf(l.slots[i]))) && !seen[l.slots[i].card] ==> CheckedTo(l, i + 1)
  {
    if i > 0 {
      assert SlotOk(l.slots, i - 1);
      KeysOrder(l.slots[i - 1], l.slots[i]);
    }
    if seen[l.slots[i].card] {
      var k: nat :| k < i && l.slots[k].present && l.slots[k].card == l.slots[i].card;
    } else {
      forall j: nat | j < i ensures l.slots[j].card != l.slots[i].card {
        assert l.slots[j].present;
      }
    }
  }

  lemma EmptyStep(l: Ledger, i: nat)
    requires CheckedTo(l, i) && i < |l.slots| && l.count <= i && !l.slots[i].present && SlotOk(l.slots, i)
    ensures CheckedTo(l, i + 1) && UnionOf(l.slots, i + 1) == UnionOf(l.slots, i)
  {
    UnionWidth(l.slots, i);
    OrZero(16, UnionOf(l.slots, i));
  }

  /** A misplaced or malformed slot makes the ledger invalid. */
  lemma Refused(l: Ledger, i: nat)
    requires i < |l.slots|
    ensures l.slots[i].present != (i < l.count) ==> !Valid(l)
    ensures !EntryOk(l.slots[i]) ==> !Valid(l)
    ensures EntryOk(l.slots[i]) ==> SlotOk(l.slots, i)
  {
    if !EntryOk(l.slots[i]) { assert !SlotOk(l.slots, i); }
  }

  lemma AllChecked(l: Ledger)
    requires CheckedTo(l, |l.slots|) && l.phase != 0 && l.street != 0
    ensures Valid(l) <==> UnionOf(l.slots, |l.slots|) == l.union
  {
  }

  /** An occupied slot: its target must come after the prior one, and its card must be new. */
  method Occupy(l: Ledger, i: nat, seen: seq<bool>, prior: Option<Target>) returns (r: Option<(Target, seq<bool>)>)
    requires CheckedTo(l, i) && HasSeen(l, i, seen) && i < |l.slots| && i < l.count
    requires l.slots[i].present && SlotOk(l.slots, i)
    requires i == 0 ==> prior == None
    requires i > 0 ==> prior == Some(TargetOf(l.slots[i - 1]))
    ensures r.None? ==> !Valid(l)
    ensures r.Some? ==> CheckedTo(l, i + 1) && HasSeen(l, i + 1, r.value.1) && r.value.0 == TargetOf(l.slots[i])
  {
    var a := l.slots[i];
    OccupiedStep(l, i, seen, prior);
    if prior.Some? && AtLeast(prior.value, TargetOf(a)) { return None; }
    if seen[a.card] { return None; }
    SeenStep(l, i, seen);
    return Some((TargetOf(a), seen[a.card := true]));
  }

  /** What the validator carries from slot to slot. */
  datatype Progress = Progress(union: nat, prior: Option<Target>, seen: seq<bool>)

  ghost predicate ScannedTo(l: Ledger, i: nat, p: Progress) {
    && CheckedTo(l, i) && HasSeen(l, i, p.seen) && p.union == UnionOf(l.slots, i)
    && (i == 0 ==> p.prior == None)
    && (0 < i <= l.count ==> p.prior == Some(TargetOf(l.slots[i - 1])))
  }

  method ScanSlot(l: Ledger, i: nat, p: Progress) returns (r: Option<Progress>)
    requires ScannedTo(l, i, p) && i < |l.slots|
    ensures r.None? ==> !Valid(l)
    ensures r.Some? ==> ScannedTo(l, i + 1, r.value)
  {
    var a := l.slots[i];
    Refused(l, i);
    if a.present != (i < l.count) { return None; }
    if !EntryOk(a) { return None; }
    if i < l.count {
      var next := Occupy(l, i, p.seen, p.prior);
      if next.None? { return None; }
      r := Some(Progress(Or(16, p.union, a.pending), Some(next.value.0), next.value.1));
    } else {
      EmptyStep(l, i);
      r := Some(p);
    }
  }

  /** The ledger validator: it accepts exactly the valid ledgers. */
  method Validate(l: Ledger) returns (ok: bool)
    ensures ok <==> Valid(l)
  {
    if l.count > SLOTS || l.phase == 0 || l.street == 0 { return false; }
    if l.union >= 512 {
      if Valid(l) { UnionFits(l); }
      return false;
    }
    var p := Progress(0, None, seq(52, _ => false));
    for i := 0 to |l.slots|
      invariant ScannedTo(l, i, p)
    {
      var next := ScanSlot(l, i, p);
      if next.None? { return false; }
      p := next.value;
    }
    AllChecked(l);
    return p.union == l.union;
  }

  /** The running columns, seat by seat, with an accumulator that is or-ed along the slots. */
  method RunningColumns(l: Ledger) returns (columns: seq<seq<int>>)
    requires SlotsOk(l)
    ensures |columns| == SEATS && forall s: nat :: s < SEATS ==> columns[s] == Running(l.slots, s)
  {
    columns := [];
    for s := 0 to SEATS
      invariant |columns| == s && forall k: nat :: k < s ==> columns[k] == Running(l.slots, k)
    {
      var running, column := 0, [];
      ZeroBit(s);
      for i := 0 to |l.slots|
        invariant running == Bit(UnionOf(l.slots, i), s) && |column| == i
        invariant forall k: nat :: k < i ==> column[k] == Bit(UnionOf(l.slots, k + 1), s)
      {
        OrBit(16, UnionOf(l.slots, i), l.slots[i].pending, s);
        running := if running == 1 || Bit(l.slots[i].pending, s) == 1 then 1 else 0;
        column := column + [running];
      }
      columns := columns + [column];
    }
  }
}
