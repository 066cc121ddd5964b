/**
 * The dead-button blind rotation, derived once in src/canonical_shuffle_chain.rs and once in
 * src/canonical_dispatch_trace.rs. Main results: with a fixed set of k participants, k at least two, any k
 * consecutive hands give each of them the big blind exactly once; the two blinds always differ; and exactly when
 * the two derivations agree, for every table.
 */
module BlindRotation {
  import opened Arith
  import opened Wrappers

  const NO_SEAT: nat := 15

  datatype Status = Empty | Waiting | Active | Folded | AllIn | Out

  /** Nine seats, of which the first `max` are in use. */
  datatype RawTable = RawTable(seats: seq<Status>, max: nat, button: nat, lastBb: nat)

  type Table = t: RawTable | |t.seats| == 9 && 0 < t.max <= 9 && t.button < 9 && (t.lastBb < 9 || t.lastBb == NO_SEAT)
    witness RawTable(seq(9, _ => Empty), 9, 0, NO_SEAT)

  type Seats = nat -> bool

  // ----- the scan for the next participating seat -----

  /** Whether the seat at an offset participates. */
  predicate PlaysAt(p: Seats, max: nat, from: nat, o: nat)
    requires 0 < max
  {
    p((from + o) % max)
  }

  /** The first offset from `o` on whose seat participates. */
  function Scan(p: Seats, max: nat, from: nat, o: nat): (r: Option<nat>)
    requires 0 < max && o <= max + 1
    ensures r.None? <==> forall i: nat :: o <= i <= max ==> !PlaysAt(p, max, from, i)
    ensures r.Some? ==> o <= r.value <= max && PlaysAt(p, max, from, r.value)
    ensures r.Some? ==> forall i: nat :: o <= i < r.value ==> !PlaysAt(p, max, from, i)
    decreases max + 1 - o
  {
    if o > max then None
    else if PlaysAt(p, max, from, o) then Some(o)
    else Scan(p, max, from, o + 1)
  }

  function Next(p: Seats, max: nat, from: nat): (r: Option<nat>)
    requires 0 < max
    ensures r.Some? ==> r.value < max && p(r.value)
  {
    var o := Scan(p, max, from, 1);
    if o.None? then None else Some((from + o.value) % max)
  }

  /** Seats below n that participate. */
  function Count(p: Seats, n: nat): (c: nat)
    ensures c <= n
  {
    if n == 0 then 0 else Count(p, n - 1) + if p(n - 1) then 1 else 0
  }

  lemma {:induction false} CountMono(p: Seats, a: nat, b: nat)
    requires a <= b
    ensures Count(p, a) <= Count(p, b)
    ensures Count(p, a) == Count(p, b) <==> forall i: nat :: a <= i < b ==> !p(i)
  {
    if a < b { CountMono(p, a, b - 1); }
  }

  /** Every seat is reached by some offset. */
  lemma Reached(max: nat, from: nat, seat: nat) returns (o: nat)
    requires seat < max
    ensures 1 <= o <= max && (from + o) % max == seat
  {
    var f := from % max;
    o := if f < seat then seat - f else seat - f + max;
    var q := from / max;
    assert from == q * max + f;
    if f < seat {
      DivModUnique(from + o, max, q, seat);
    } else {
      MulDistribute(q, 1, max);
      DivModUnique(from + o, max, q + 1, seat);
    }
  }

  lemma NextExists(p: Seats, max: nat, from: nat)
    requires 0 < max && Count(p, max) > 0
    ensures Next(p, max, from).Some?
  {
    CountMono(p, 0, max);
    var seat: nat :| seat < max && p(seat);
    var o := Reached(max, from, seat);
    assert PlaysAt(p, max, from, o);
  }

  /** Offsets below the next seat's own lead to seats that do not participate. */
  lemma SkippedSeat(p: Seats, max: nat, from: nat, o: nat, seat: nat)
    requires from < max && 1 <= o <= max && seat < max
    requires forall i: nat :: 1 <= i < o ==> !PlaysAt(p, max, from, i)
    requires if from + o < max then from < seat < from + o else seat > from || seat < from + o - max
    ensures !p(seat)
  {
    var i := if seat > from then seat - from else seat - from + max;
    if seat > from {
      SmallMod(from + i, max);
    } else {
      DivModUnique(from + i, max, 1, seat);
    }
    assert !PlaysAt(p, max, from, i);
  }

  /** No wrap: the next participant is above, with nothing between. */
  lemma NextAbove(p: Seats, max: nat, from: nat, o: nat)
    requires from < max && p(from) && 1 <= o && from + o < max && p(from + o)
    requires forall i: nat :: 1 <= i < o ==> !PlaysAt(p, max, from, i)
    ensures Count(p, from + o) == Count(p, from) + 1 && Count(p, from + o) < Count(p, max)
  {
    var t := from + o;
    forall i: nat | from + 1 <= i < t ensures !p(i) {
      SkippedSeat(p, max, from, o, i);
    }
    CountMono(p, from + 1, t);
    CountMono(p, t + 1, max);
  }

  /** Wrap: the last participant goes to the first. */
  lemma NextWraps(p: Seats, max: nat, from: nat, o: nat, t: nat)
    requires from < max && p(from) && 1 <= o <= max <= from + o && t == from + o - max
    requires forall i: nat :: 1 <= i < o ==> !PlaysAt(p, max, from, i)
    ensures Count(p, t) == 0 && Count(p, from) + 1 == Count(p, max)
  {
    forall i: nat | i < t ensures !p(i) {
      SkippedSeat(p, max, from, o, i);
    }
    forall i: nat | from + 1 <= i < max ensures !p(i) {
      SkippedSeat(p, max, from, o, i);
    }
    CountMono(p, from + 1, max);
    CountMono(p, 0, t);
  }

  /** From a participant the scan goes to the next in cyclic order, so ranks go up by one, cyclically. */
  lemma NextRank(p: Seats, max: nat, from: nat)
    requires 0 < max && from < max && p(from) && Count(p, max) >= 2
    ensures var t := Next(p, max, from);
      t.Some? && t.value != from && Count(p, t.value) == (Count(p, from) + 1) % Count(p, max)
  {
    NextExists(p, max, from);
    var o, k := Scan(p, max, from, 1).value, Count(p, max);
    if from + o < max {
      SmallMod(from + o, max);
      NextAbove(p, max, from, o);
      SmallMod(Count(p, from) + 1, k);
    } else {
      DivModUnique(from + o, max, 1, from + o - max);
      NextWraps(p, max, from, o, from + o - max);
      ModOfMultiple(1, k);
    }
  }

  lemma RankBelow(p: Seats, max: nat, seat: nat)
    requires seat < max && p(seat)
    ensures Count(p, seat) < Count(p, max)
  {
    CountMono(p, seat + 1, max);
  }

  /** A participant is determined by its rank. */
  lemma RankInjective(p: Seats, a: nat, b: nat)
    requires p(a) && p(b) && Count(p, a) == Count(p, b)
    ensures a == b
  {
    if a < b { CountMono(p, a, b); }
    if b < a { CountMono(p, b, a); }
  }

  // ----- fairness over consecutive hands -----

  type Picker = nat -> nat

  /** The seat after a rotation base, or the base itself when nobody participates. */
  function PickOf(p: Seats, max: nat): Picker
    requires 0 < max
  {
    (from: nat) => OrElse(Next(p, max, from), from)
  }

  /** The pick of hand i, when every hand's pick is the next hand's rotation base. */
  function Turn(pick: Picker, base: nat, i: nat): nat {
    pick(if i == 0 then base else Turn(pick, base, i - 1))
  }

  /** The pick j hands after hand i. */
  function Later(pick: Picker, base: nat, i: nat, j: nat): nat {
    Turn(pick, base, i + j)
  }

  /** Picks are participants, and from a participant the rank goes up by one, cyclically. */
  ghost predicate PicksNext(pick: Picker, p: Seats, max: nat, k: nat, x: nat)
    requires 0 < k
  {
    && pick(x) < max && p(pick(x))
    && (x < max && p(x) ==> Count(p, pick(x)) == (Count(p, x) + 1) % k)
  }

  ghost predicate Rotates(pick: Picker, p: Seats, max: nat, k: nat) {
    Count(p, max) == k >= 2 && forall x: nat :: PicksNext(pick, p, max, k, x)
  }

  lemma PickRotates(p: Seats, max: nat, k: nat)
    requires 0 < max && Count(p, max) == k >= 2
    ensures Rotates(PickOf(p, max), p, max, k)
  {
    forall x: nat ensures PicksNext(PickOf(p, max), p, max, k, x) {
      NextExists(p, max, x);
      if x < max && p(x) { NextRank(p, max, x); }
    }
  }

  lemma TurnPlays(pick: Picker, p: Seats, max: nat, k: nat, base: nat, i: nat)
    requires Rotates(pick, p, max, k)
    ensures Turn(pick, base, i) < max && p(Turn(pick, base, i))
  {
    assert PicksNext(pick, p, max, k, if i == 0 then base else Turn(pick, base, i - 1));
  }

  lemma TurnRank(pick: Picker, p: Seats, max: nat, k: nat, base: nat, i: nat)
    requires Rotates(pick, p, max, k)
    ensures Count(p, Turn(pick, base, i + 1)) == (Count(p, Turn(pick, base, i)) + 1) % k
  {
    TurnPlays(pick, p, max, k, base, i);
    assert PicksNext(pick, p, max, k, Turn(pick, base, i));
  }

  lemma {:induction false} LaterRank(pick: Picker, p: Seats, max: nat, k: nat, base: nat, i: nat, j: nat, r: nat)
    requires Rotates(pick, p, max, k) && r == Count(p, Turn(pick, base, i))
    ensures r < k && Count(p, Later(pick, base, i, j)) == (r + j) % k
  {
    TurnPlays(pick, p, max, k, base, i);
    RankBelow(p, max, Turn(pick, base, i));
    if j == 0 {
      SmallMod(r, k);
    } else {
      LaterRank(pick, p, max, k, base, i, j - 1, r);
      LaterStep(pick, p, max, k, base, i, j - 1, r + (j - 1));
    }
  }

  lemma LaterStep(pick: Picker, p: Seats, max: nat, k: nat, base: nat, i: nat, j: nat, x: nat)
    requires Rotates(pick, p, max, k) && Count(p, Later(pick, base, i, j)) == x % k
    ensures Count(p, Later(pick, base, i, j + 1)) == (x + 1) % k
  {
    TurnRank(pick, p, max, k, base, i + j);
    Successor(x, k);
  }

  lemma Successor(x: nat, k: nat)
    requires k > 0
    ensures (x % k + 1) % k == (x + 1) % k
  {
    CongMod(x, k);
    CongAdd(x % k, x, 1, 1, k);
  }

  /** Hand i + j, for j below k, whose big blind has a given rank. */
  lemma HandOfRank(r: nat, rank: nat, k: nat) returns (j: nat)
    requires r < k && rank < k
    ensures j < k && (r + j) % k == rank
  {
    j := if r <= rank then rank - r else rank - r + k;
    if r <= rank {
      SmallMod(r + j, k);
    } else {
      DivModUnique(r + j, k, 1, rank);
    }
  }

  /** Among any k consecutive hands each participant is picked exactly once. */
  lemma EveryoneOnce(pick: Picker, p: Seats, max: nat, k: nat, base: nat, i: nat, seat: nat)
    requires Rotates(pick, p, max, k) && seat < max && p(seat)
    ensures exists j: nat :: j < k && Later(pick, base, i, j) == seat
    ensures forall j: nat, j': nat :: j < j' < k ==> Later(pick, base, i, j) != Later(pick, base, i, j')
  {
    var r := Count(p, Turn(pick, base, i));
    LaterRank(pick, p, max, k, base, i, 0, r);
    RankBelow(p, max, seat);
    var j := HandOfRank(r, Count(p, seat), k);
    LaterRank(pick, p, max, k, base, i, j, r);
    TurnPlays(pick, p, max, k, base, i + j);
    RankInjective(p, Later(pick, base, i, j), seat);
    forall a: nat, b: nat | a < b < k ensures Later(pick, base, i, a) != Later(pick, base, i, b) {
      LaterRank(pick, p, max, k, base, i, a, r);
      LaterRank(pick, p, max, k, base, i, b, r);
      DifferentRanks(r, a, b, k);
    }
  }

  lemma DifferentRanks(r: nat, a: nat, b: nat, k: nat)
    requires a < b < k
    ensures (r + a) % k != (r + b) % k
  {
    if (r + a) % k == (r + b) % k {
      CongDiff(r + b, r + a, k);
      SmallMod(b - a, k);
    }
  }

  // ----- the two derivations -----

  datatype Blinds = Blinds(sb: nat, bb: nat)

  function Base(t: Table): (b: nat)
    ensures b < 9
  {
    if t.lastBb != NO_SEAT then t.lastBb else t.button
  }

  predicate InHand(s: Status) { s != Empty && s != Out }

  /** Occupied and not out: what the shuffle-chain derivation scans for. */
  function Occupied(t: Table): Seats {
    (i: nat) => i < |t.seats| && InHand(t.seats[i])
  }

  /** Playing in this hand, within the table: what the dispatch derivation scans for. */
  function Playing(t: Table): Seats {
    (i: nat) => i < |t.seats| && i < t.max && (t.seats[i] == Active || t.seats[i] == Folded || t.seats[i] == AllIn)
  }

  function ActiveSeats(t: Table): Seats {
    (i: nat) => i < |t.seats| && t.seats[i] == Active
  }

  function OrElse(r: Option<nat>, default: nat): nat {
    if r.Some? then r.value else default
  }

  /** blind_seats_of: heads-up is two active seats, and the dead small blind looks at the base seat itself. */
  function BlindSeatsOf(t: Table): Blinds {
    var base := Base(t);
    var bb := OrElse(Next(Occupied(t), t.max, base), base);
    if Count(ActiveSeats(t), 9) == 2 then Blinds(OrElse(Next(Occupied(t), t.max, bb), bb), bb)
    else Blinds(if base != bb && InHand(t.seats[base]) then base else NO_SEAT, bb)
  }

  /** blind_seats: heads-up is two participants, and an empty hand has no blinds. */
  function BlindSeats(t: Table): Blinds {
    var base := Base(t);
    if Count(Playing(t), t.max) == 0 then Blinds(NO_SEAT, NO_SEAT)
    else
      var bb := OrElse(Next(Playing(t), t.max, base), base);
      if Count(Playing(t), t.max) == 2 then Blinds(OrElse(Next(Playing(t), t.max, bb), bb), bb)
      else Blinds(if base != bb && Playing(t)(base) then base else NO_SEAT, bb)
  }

  // ----- exactly when the two derivations agree -----

  /** The seats and blinds both derivations compute, for one set of participants and one notion of heads-up. */
  function BlindsFor(p: Seats, max: nat, base: nat, headsUp: bool): Blinds
    requires 0 < max
  {
    var bb := OrElse(Next(p, max, base), base);
    if headsUp then Blinds(OrElse(Next(p, max, bb), bb), bb)
    else Blinds(if base != bb && p(base) then base else NO_SEAT, bb)
  }

  ghost predicate Subset(p: Seats, q: Seats) {
    forall i: nat :: p(i) ==> q(i)
  }

  /** Among more seats the scan goes to the same one exactly when that one is among the fewer. */
  lemma NextAmong(p: Seats, q: Seats, max: nat, from: nat)
    requires 0 < max && Subset(p, q) && Count(p, max) > 0
    ensures Next(q, max, from).Some? && Next(p, max, from).Some?
    ensures Next(p, max, from) == Next(q, max, from) <==> p(Next(q, max, from).value)
  {
    CountSubset(p, q, max);
    NextExists(p, max, from);
    NextExists(q, max, from);
    var a, b := Scan(p, max, from, 1).value, Scan(q, max, from, 1).value;
    assert PlaysAt(q, max, from, a) && b <= a;
    if p(Next(q, max, from).value) { assert PlaysAt(p, max, from, b); }
  }

  lemma {:induction false} CountSubset(p: Seats, q: Seats, n: nat)
    requires Subset(p, q)
    ensures Count(p, n) <= Count(q, n)
  {
    if n > 0 { CountSubset(p, q, n - 1); }
  }

  lemma CountTwo(p: Seats, a: nat, b: nat, n: nat)
    requires a < b < n && p(a) && p(b)
    ensures Count(p, n) >= 2
  {
    CountMono(p, a + 1, b);
    CountMono(p, b + 1, n);
  }

  lemma CountBoth(p: Seats, a: nat, b: nat, n: nat)
    requires a < n && b < n && a != b && p(a) && p(b)
    ensures Count(p, n) >= 2
  {
    if a < b { CountTwo(p, a, b, n); } else { CountTwo(p, b, a, n); }
  }

  lemma TwiceRound(r: nat, k: nat)
    requires r < k && k >= 2
    ensures ((r + 1) % k + 1) % k == r <==> k == 2
  {
    Successor(r + 1, k);
    if r + 2 < k {
      SmallMod(r + 2, k);
    } else {
      DivModUnique(r + 2, k, 1, r + 2 - k);
    }
  }

  /** Two steps of the scan come back to a participant exactly when there are two of them. */
  lemma NextTwice(p: Seats, max: nat, base: nat, bb: nat)
    requires base < max && p(base) && Count(p, max) >= 2 && Next(p, max, base) == Some(bb)
    ensures Next(p, max, bb).Some?
    ensures Next(p, max, bb).value == base <==> Count(p, max) == 2
  {
    NextRank(p, max, base);
    NextRank(p, max, bb);
    RankBelow(p, max, base);
    TwiceRound(Count(p, base), Count(p, max));
    if Count(p, max) == 2 { RankInjective(p, Next(p, max, bb).value, base); }
  }

  /** Heads-up for the first only: the small blinds differ. */
  lemma FirstHeadsUp(p: Seats, q: Seats, max: nat, base: nat)
    requires 0 < max && Subset(p, q) && (forall i: nat :: p(i) ==> i < max) && Count(p, max) > 0 && Count(p, max) != 2
    ensures BlindsFor(q, max, base, true) != BlindsFor(p, max, base, false) || BlindsFor(q, max, base, true).sb == NO_SEAT
  {
    var f, g := BlindsFor(q, max, base, true), BlindsFor(p, max, base, false);
    if f == g && f.sb != NO_SEAT {
      NextAmong(p, q, max, base);
      CountBoth(p, base, f.bb, max);
      CountSubset(p, q, max);
      NextTwice(q, max, base, f.bb);
    }
  }

  /** Heads-up for the second only: they agree when the base seat takes part. */
  lemma SecondHeadsUp(p: Seats, q: Seats, max: nat, base: nat)
    requires 0 < max < NO_SEAT && Subset(p, q) && (forall i: nat :: p(i) ==> i < max) && Count(p, max) == 2
    ensures var f := BlindsFor(q, max, base, false);
      f == BlindsFor(p, max, base, true) <==> p(f.bb) && p(base)
  {
    NextAmong(p, q, max, base);
    var bb := Next(p, max, base).value;
    NextExists(p, max, bb);
    if p(base) {
      NextRank(p, max, base);
      NextTwice(p, max, base, bb);
    }
  }

  /** What must hold of the seats the first derivation names for the second to name the same. */
  ghost predicate Shared(p: Seats, q: Seats, base: nat, f: Blinds, h1: bool, h2: bool) {
    && p(f.bb)
    && (if h1 then h2 && p(f.sb) else if h2 then p(base) else p(base) == q(base))
  }

  /** For participants within those of the first derivation, whatever the two notions of heads-up. */
  lemma AgreeFor(p: Seats, q: Seats, max: nat, base: nat, h1: bool, h2: bool)
    requires 0 < max < NO_SEAT && base < NO_SEAT && Subset(p, q) && forall i: nat :: p(i) ==> i < max
    requires Count(p, max) > 0 && h2 == (Count(p, max) == 2)
    ensures var f := BlindsFor(q, max, base, h1);
      f == BlindsFor(p, max, base, h2) <==> Shared(p, q, base, f, h1, h2)
  {
    var f := BlindsFor(q, max, base, h1);
    NextAmong(p, q, max, base);
    if h1 {
      NextAmong(p, q, max, f.bb);
      if !h2 { FirstHeadsUp(p, q, max, base); }
    } else if h2 {
      SecondHeadsUp(p, q, max, base);
    }
  }

  lemma PlayingOccupied(t: Table)
    ensures Subset(Playing(t), Occupied(t)) && forall i: nat :: Playing(t)(i) ==> i < t.max
  {
  }

  /** With nobody in the hand they never agree: one names a big blind, the other none. */
  lemma EmptyHandDisagrees(t: Table)
    requires Count(Playing(t), t.max) == 0
    ensures BlindSeatsOf(t) != BlindSeats(t)
  {
  }

  lemma NobodyPlays(t: Table, seat: nat)
    requires Count(Playing(t), t.max) == 0
    ensures !Playing(t)(seat)
  {
    CountMono(Playing(t), 0, t.max);
  }

  lemma AgreeForTable(t: Table)
    requires Count(Playing(t), t.max) > 0
    ensures BlindSeatsOf(t) == BlindSeats(t) <==>
      Shared(Playing(t), Occupied(t), Base(t), BlindSeatsOf(t), Count(ActiveSeats(t), 9) == 2, Count(Playing(t), t.max) == 2)
  {
    var h1, h2 := Count(ActiveSeats(t), 9) == 2, Count(Playing(t), t.max) == 2;
    PlayingOccupied(t);
    AgreeFor(Playing(t), Occupied(t), t.max, Base(t), h1, h2);
    BothAreFor(t, Base(t));
  }

  /** At offset o after a seat comes one of p, and no seat of q in between. */
  ghost predicate ComesFirst(p: Seats, q: Seats, max: nat, from: nat, o: nat)
    requires 0 < max
  {
    1 <= o <= max && PlaysAt(p, max, from, o) && forall i: nat :: 1 <= i < o ==> !PlaysAt(q, max, from, i)
  }

  ghost predicate SomeFirst(p: Seats, q: Seats, max: nat, from: nat)
    requires 0 < max
  {
    exists o: nat :: ComesFirst(p, q, max, from, o)
  }

  /** The seat the scan over q finds is one of p exactly when one of p comes first. */
  lemma FirstFound(p: Seats, q: Seats, max: nat, from: nat, found: nat)
    requires 0 < max && Subset(p, q) && Next(q, max, from) == Some(found)
    ensures p(found) <==> SomeFirst(p, q, max, from)
    ensures forall o: nat :: ComesFirst(p, q, max, from, o) ==> (from + o) % max == found
  {
    var b := Scan(q, max, from, 1).value;
    if p(found) { assert ComesFirst(p, q, max, from, b); }
    forall o: nat | ComesFirst(p, q, max, from, o) ensures (from + o) % max == found && p(found) {
      assert PlaysAt(q, max, from, o);
      assert o == b;
    }
  }

  /**
   * On the seats: after the base the first seat in use belongs to somebody in the hand, at offset o, and then, by the
   * two notions of heads-up: the same holds after that seat; or the base seat is in the hand; or it is in use only if
   * it is in the hand.
   */
  ghost predicate AgreesFrom(p: Seats, q: Seats, max: nat, base: nat, h1: bool, h2: bool, o: nat)
    requires 0 < max
  {
    && ComesFirst(p, q, max, base, o)
    && (if h1 then h2 && SomeFirst(p, q, max, (base + o) % max) else if h2 then p(base) else p(base) == q(base))
  }

  ghost predicate Agreeing(p: Seats, q: Seats, max: nat, base: nat, h1: bool, h2: bool)
    requires 0 < max
  {
    exists o: nat :: AgreesFrom(p, q, max, base, h1, h2, o)
  }

  lemma AgreeingIsShared(p: Seats, q: Seats, max: nat, base: nat, h1: bool, h2: bool, f: Blinds)
    requires 0 < max && Subset(p, q) && Count(p, max) > 0 && f == BlindsFor(q, max, base, h1)
    ensures Shared(p, q, base, f, h1, h2) <==> Agreeing(p, q, max, base, h1, h2)
  {
    CountSubset(p, q, max);
    NextExists(q, max, base);
    FirstFound(p, q, max, base, f.bb);
    if h1 {
      NextExists(q, max, f.bb);
      FirstFound(p, q, max, f.bb, f.sb);
    }
    if Shared(p, q, base, f, h1, h2) {
      var o: nat :| ComesFirst(p, q, max, base, o);
      assert AgreesFrom(p, q, max, base, h1, h2, o);
    }
  }

  /**
   * For every table, the two derivations agree exactly when the first occupied seat after the base takes part in the
   * hand and: if the first takes the table for heads-up, so does the second, and the next occupied seat takes part too;
   * if only the second does, the base seat takes part; if neither does, the base seat takes part for both or for neither.
   */
  lemma DerivationsAgree(t: Table)
    ensures BlindSeatsOf(t) == BlindSeats(t) <==>
      Agreeing(Playing(t), Occupied(t), t.max, Base(t), Count(ActiveSeats(t), 9) == 2, Count(Playing(t), t.max) == 2)
  {
    var h1, h2 := Count(ActiveSeats(t), 9) == 2, Count(Playing(t), t.max) == 2;
    if Count(Playing(t), t.max) == 0 {
      EmptyHandDisagrees(t);
      forall o: nat ensures !ComesFirst(Playing(t), Occupied(t), t.max, Base(t), o) {
        NobodyPlays(t, (Base(t) + o) % t.max);
      }
    } else {
      PlayingOccupied(t);
      AgreeForTable(t);
      AgreeingIsShared(Playing(t), Occupied(t), t.max, Base(t), h1, h2, BlindSeatsOf(t));
    }
  }

  /** By status: who is seated is neither absent nor out, who plays does not wait either and sits at the table. */
  lemma StatusesAre(t: Table, i: nat)
    requires i < 9
    ensures Occupied(t)(i) <==> t.seats[i] == Waiting || t.seats[i] == Active || t.seats[i] == Folded || t.seats[i] == AllIn
    ensures Playing(t)(i) <==> i < t.max && t.seats[i] != Empty && t.seats[i] != Waiting && t.seats[i] != Out
  {
  }

  /** Nobody waits, and nobody in the hand sits outside the table. */
  ghost predicate NobodyWaits(t: Table) {
    forall i: nat :: i < 9 ==> t.seats[i] != Waiting && (t.max <= i ==> t.seats[i] == Empty || t.seats[i] == Out)
  }

  /** With nobody waiting, only the two notions of heads-up can part them: active seats against participants. */
  lemma AgreeWithoutWaiting(t: Table)
    requires NobodyWaits(t) && Count(Playing(t), t.max) > 0
    ensures var h1, h2 := Count(ActiveSeats(t), 9) == 2, Count(Playing(t), t.max) == 2;
      BlindSeatsOf(t) == BlindSeats(t) <==> h1 == h2 || (h2 && Playing(t)(Base(t)))
  {
    AgreeForTable(t);
    NextExists(Occupied(t), t.max, Base(t)) by { PlayingOccupied(t); CountSubset(Playing(t), Occupied(t), t.max); }
    var f := BlindSeatsOf(t);
    assert Occupied(t)(f.bb) && f.bb < 9;
    if Count(ActiveSeats(t), 9) == 2 {
      NextExists(Occupied(t), t.max, f.bb) by { PlayingOccupied(t); CountSubset(Playing(t), Occupied(t), t.max); }
      assert Occupied(t)(f.sb) && f.sb < 9;
    }
  }

  lemma NextNeighbour(p: Seats, max: nat, from: nat, seat: nat)
    requires seat == from + 1 < max && p(seat)
    ensures Next(p, max, from) == Some(seat)
  {
    SmallMod(seat, max);
    assert PlaysAt(p, max, from, 1);
  }

  lemma NextButOne(p: Seats, max: nat, from: nat, seat: nat)
    requires seat == from + 2 < max && p(seat) && !p(from + 1)
    ensures Next(p, max, from) == Some(seat) && Count(p, max) > 0
  {
    SmallMod(from + 1, max);
    SmallMod(seat, max);
    assert !PlaysAt(p, max, from, 1) && PlaysAt(p, max, from, 2);
    CountMono(p, seat, max);
  }

  /** A seat that waits for the next hand is a participant to one derivation only, and takes the big blind there. */
  lemma WaitingDisagrees()
    ensures var t: Table := RawTable([Active, Waiting, Active, Active, Empty, Empty, Empty, Empty, Empty], 9, 0, NO_SEAT);
      BlindSeatsOf(t).bb == 1 && BlindSeats(t).bb == 2
  {
    var t: Table := RawTable([Active, Waiting, Active, Active, Empty, Empty, Empty, Empty, Empty], 9, 0, NO_SEAT);
    NextNeighbour(Occupied(t), t.max, 0, 1);
    NextButOne(Playing(t), t.max, 0, 2);
  }

  lemma FoldedCounts(t: Table)
    requires t.seats == [Active, Active, Folded, Empty, Empty, Empty, Empty, Empty, Empty] && t.max == 9
    ensures Count(ActiveSeats(t), 9) == 2 && Count(Playing(t), t.max) == 3
  {
    CountLow(ActiveSeats(t), 2, 9);
    CountLow(Playing(t), 3, 9);
  }

  /** A folded seat makes two active seats heads-up to one derivation only. */
  lemma FoldedDisagrees()
    ensures var t: Table := RawTable([Active, Active, Folded, Empty, Empty, Empty, Empty, Empty, Empty], 9, 0, NO_SEAT);
      BlindSeatsOf(t) == Blinds(2, 1) && BlindSeats(t) == Blinds(0, 1)
  {
    var t: Table := RawTable([Active, Active, Folded, Empty, Empty, Empty, Empty, Empty, Empty], 9, 0, NO_SEAT);
    FoldedCounts(t);
    NextNeighbour(Occupied(t), t.max, 0, 1);
    NextNeighbour(Playing(t), t.max, 0, 1);
    NextNeighbour(Occupied(t), t.max, 1, 2);
  }

  /** The first n seats, all taking part, are all that count. */
  lemma CountLow(p: Seats, n: nat, m: nat)
    requires n <= m && forall i: nat :: i < m ==> (p(i) <==> i < n)
    ensures Count(p, m) == n
  {
    CountPrefix(p, n);
    CountMono(p, n, m);
  }

  lemma {:induction false} CountPrefix(p: Seats, n: nat)
    requires forall i: nat :: i < n ==> p(i)
    ensures Count(p, n) == n
  {
    if n > 0 { CountPrefix(p, n - 1); }
  }

  /** Small and big blind differ, whoever is in the hand, as long as two are. */
  lemma BlindsDiffer(t: Table)
    requires Count(Occupied(t), t.max) >= 2
    ensures BlindSeatsOf(t).sb != BlindSeatsOf(t).bb && BlindSeatsOf(t).bb < t.max && InHand(t.seats[BlindSeatsOf(t).bb])
  {
    NextExists(Occupied(t), t.max, Base(t));
    NextRank(Occupied(t), t.max, BlindSeatsOf(t).bb);
  }

  // ----- the base of the rotation -----

  lemma SameSeats(t: Table, h: Table)
    requires h.seats == t.seats && h.max == t.max
    ensures Occupied(h) == Occupied(t) && Playing(h) == Playing(t) && ActiveSeats(h) == ActiveSeats(t)
  {
  }

  /** Without a last big blind both derivations go on from the button, as if it had been there. */
  lemma ButtonIsFirstBase(t: Table)
    requires t.lastBb == NO_SEAT
    ensures BlindSeatsOf(t) == BlindSeatsOf(t.(lastBb := t.button)) && BlindSeats(t) == BlindSeats(t.(lastBb := t.button))
  {
    SameSeats(t, t.(lastBb := t.button));
  }

  /** The seat the scan finds is the first of its kind strictly after where it starts. */
  lemma NextComesFirst(p: Seats, max: nat, from: nat) returns (o: nat)
    requires 0 < max && Count(p, max) > 0
    ensures ComesFirst(p, p, max, from, o) && Next(p, max, from) == Some((from + o) % max)
  {
    NextExists(p, max, from);
    o := Scan(p, max, from, 1).value;
  }

  lemma BlindsFirst(p: Seats, max: nat, base: nat, h: bool) returns (o: nat)
    requires 0 < max && Count(p, max) > 0
    ensures ComesFirst(p, p, max, base, o) && BlindsFor(p, max, base, h).bb == (base + o) % max
  {
    o := NextComesFirst(p, max, base);
  }

  /** The same computation behind both, over their own seats and their own notion of heads-up. */
  lemma BothAreFor(t: Table, base: nat)
    requires base == if t.lastBb == NO_SEAT then t.button else t.lastBb
    ensures BlindSeatsOf(t) == BlindsFor(Occupied(t), t.max, base, Count(ActiveSeats(t), 9) == 2)
    ensures Count(Playing(t), t.max) > 0 ==> BlindSeats(t) == BlindsFor(Playing(t), t.max, base, Count(Playing(t), t.max) == 2)
  {
  }

  /**
   * The big blind is the first participating seat strictly after the last big blind, and in the first hand of a table,
   * where there is none, strictly after the button.
   */
  lemma BigBlindIsFirst(t: Table, base: nat) returns (o: nat, i: nat)
    requires base == if t.lastBb == NO_SEAT then t.button else t.lastBb
    requires Count(Occupied(t), t.max) > 0 && Count(Playing(t), t.max) > 0
    ensures ComesFirst(Occupied(t), Occupied(t), t.max, base, o) && BlindSeatsOf(t).bb == (base + o) % t.max
    ensures ComesFirst(Playing(t), Playing(t), t.max, base, i) && BlindSeats(t).bb == (base + i) % t.max
  {
    BothAreFor(t, base);
    o := BlindsFirst(Occupied(t), t.max, base, Count(ActiveSeats(t), 9) == 2);
    i := BlindsFirst(Playing(t), t.max, base, Count(Playing(t), t.max) == 2);
  }

  lemma NotBackAtOnce(p: Seats, max: nat, from: nat)
    requires 0 < max && Count(p, max) >= 2 && p(from)
    ensures Next(p, max, from).Some? && Next(p, max, from).value != from
  {
    NextExists(p, max, from);
    if from < max { NextRank(p, max, from); }
  }

  /**
   * The dead small blind: unless the hand is heads-up, the last big blind posts it when that seat still takes part, and
   * nobody does otherwise.
   */
  lemma DeadSmallBlind(t: Table)
    requires t.lastBb != NO_SEAT && Count(Occupied(t), t.max) >= 2 && Count(Playing(t), t.max) >= 2
    ensures Count(ActiveSeats(t), 9) != 2 ==>
      BlindSeatsOf(t).sb == if t.seats[t.lastBb] == Empty || t.seats[t.lastBb] == Out then 15 else t.lastBb
    ensures Count(Playing(t), t.max) != 2 ==>
      BlindSeats(t).sb == if Playing(t)(t.lastBb) then t.lastBb else 15
  {
    if Occupied(t)(t.lastBb) { NotBackAtOnce(Occupied(t), t.max, t.lastBb); }
    if Playing(t)(t.lastBb) { NotBackAtOnce(Playing(t), t.max, t.lastBb); }
  }

  lemma HeadsUpFirst(p: Seats, max: nat, base: nat, f: Blinds) returns (o: nat)
    requires 0 < max && Count(p, max) > 0 && f == BlindsFor(p, max, base, true)
    ensures ComesFirst(p, p, max, f.bb, o) && f.sb == (f.bb + o) % max
  {
    o := NextComesFirst(p, max, f.bb);
  }

  /** Heads-up, the small blind is the first participating seat after the big blind. */
  lemma HeadsUpSmallBlind(t: Table, f: Blinds, g: Blinds) returns (o: nat, i: nat)
    requires Count(Occupied(t), t.max) > 0 && Count(ActiveSeats(t), 9) == 2 && Count(Playing(t), t.max) == 2
    requires f == BlindSeatsOf(t) && g == BlindSeats(t)
    ensures ComesFirst(Occupied(t), Occupied(t), t.max, f.bb, o) && f.sb == (f.bb + o) % t.max
    ensures ComesFirst(Playing(t), Playing(t), t.max, g.bb, i) && g.sb == (g.bb + i) % t.max
  {
    BothAreFor(t, Base(t));
    o := HeadsUpFirst(Occupied(t), t.max, Base(t), f);
    i := HeadsUpFirst(Playing(t), t.max, Base(t), g);
  }

  type Rule = Table -> nat

  const BIG_BLIND: Rule := (t: Table) => BlindSeatsOf(t).bb

  /** The table of hand i: the same seats, the last hand's big blind as rotation base. */
  function Hand(bb: Rule, t: Table, i: nat): (h: Table)
    ensures h.seats == t.seats && h.max == t.max
  {
    if i == 0 then t
    else
      var h := Hand(bb, t, i - 1);
      if bb(h) < 9 then h.(lastBb := bb(h)) else h
  }

  /** The big blind j hands after hand i. */
  function BbAfter(bb: Rule, t: Table, i: nat, j: nat): nat {
    bb(Hand(bb, t, i + j))
  }

  /** A rule that looks at a table's seats only to pick the seat after its base makes the hands take turns. */
  lemma {:induction false} HandTurns(bb: Rule, pick: Picker, t: Table, i: nat)
    requires forall h: Table :: h.seats == t.seats && h.max == t.max ==> bb(h) == pick(Base(h))
    requires forall x :: pick(x) < 9
    ensures bb(Hand(bb, t, i)) == Turn(pick, Base(t), i)
  {
    if i > 0 { HandTurns(bb, pick, t, i - 1); }
  }

  lemma BbPicks(t: Table)
    ensures forall h: Table :: h.seats == t.seats && h.max == t.max ==> BIG_BLIND(h) == PickOf(Occupied(t), t.max)(Base(h))
  {
    forall h: Table | h.seats == t.seats && h.max == t.max
      ensures BIG_BLIND(h) == PickOf(Occupied(t), t.max)(Base(h))
    {
      assert Occupied(h) == Occupied(t);
    }
  }

  /** Fair rotation: in any k consecutive hands of k participants each has the big blind exactly once. */
  lemma RotationIsFair(t: Table, i: nat, seat: nat, k: nat)
    requires Count(Occupied(t), t.max) == k >= 2 && seat < t.max && InHand(t.seats[seat])
    ensures exists j: nat :: j < k && BbAfter(BIG_BLIND, t, i, j) == seat
    ensures forall j: nat, j': nat :: j < j' < k ==> BbAfter(BIG_BLIND, t, i, j) != BbAfter(BIG_BLIND, t, i, j')
  {
    PickRotates(Occupied(t), t.max, k);
    BbPicks(t);
    FairFor(BIG_BLIND, PickOf(Occupied(t), t.max), Occupied(t), t, i, seat, k);
  }

  lemma FairFor(bb: Rule, pick: Picker, p: Seats, t: Table, i: nat, seat: nat, k: nat)
    requires Rotates(pick, p, t.max, k) && seat < t.max && p(seat)
    requires forall h: Table :: h.seats == t.seats && h.max == t.max ==> bb(h) == pick(Base(h))
    ensures exists j: nat :: j < k && BbAfter(bb, t, i, j) == seat
    ensures forall j: nat, j': nat :: j < j' < k ==> BbAfter(bb, t, i, j) != BbAfter(bb, t, i, j')
  {
    EveryoneOnce(pick, p, t.max, k, Base(t), i, seat);
    forall x: nat ensures pick(x) < 9 {
      assert PicksNext(pick, p, t.max, k, x);
    }
    forall j: nat ensures BbAfter(bb, t, i, j) == Later(pick, Base(t), i, j) {
      HandTurns(bb, pick, t, i + j);
    }
    var j: nat :| j < k && Later(pick, Base(t), i, j) == seat;
    assert BbAfter(bb, t, i, j) == seat;
  }
}
