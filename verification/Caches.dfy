/**
 * The process-wide setup cache (blake3_setup of src/blake3_flock.rs): under every interleaving of any number of
 * threads, all calls for one block count return the one published setup.
 */
module Caches {
  // ----- the setup cache, as a state machine -----

  /** A built setup: the block count it is for, and which of possibly many builds it is. */
  datatype Setup = Setup(blocks: nat, build: nat)

  /** Where a call stands between its critical sections. */
  datatype Call =
    | Idle
    | Entered(blocks: nat)
    | Missed(blocks: nat)
    | Built(blocks: nat, own: Setup)
    | Returned(blocks: nat, result: Setup)

  type Thread = nat

  datatype State = State(cache: map<nat, Setup>, calls: Thread -> Call)

  ghost predicate Initial(s: State) {
    s.cache == map[] && forall t: Thread :: s.calls(t) == Idle
  }

  /** Every other thread is where it was. */
  ghost predicate Only(s: State, s': State, t: Thread, c: Call) {
    s'.calls(t) == c && forall u: Thread :: u != t ==> s'.calls(u) == s.calls(u)
  }

  ghost predicate Enter(s: State, s': State, t: Thread, n: nat) {
    (s.calls(t).Idle? || s.calls(t).Returned?) && s'.cache == s.cache && Only(s, s', t, Entered(n))
  }

  /** First critical section: a hit returns the entry, a miss goes on to build. */
  ghost predicate Check(s: State, s': State, t: Thread) {
    var c := s.calls(t);
    && c.Entered? && s'.cache == s.cache
    && Only(s, s', t, if c.blocks in s.cache then Returned(c.blocks, s.cache[c.blocks]) else Missed(c.blocks))
  }

  /** Building happens outside the lock and yields some setup of the right size. */
  ghost predicate Build(s: State, s': State, t: Thread, build: nat) {
    var c := s.calls(t);
    c.Missed? && s'.cache == s.cache && Only(s, s', t, Built(c.blocks, Setup(c.blocks, build)))
  }

  /** Second critical section: the first to arrive publishes, later ones take what is there. */
  ghost predicate Publish(s: State, s': State, t: Thread) {
    var c := s.calls(t);
    && c.Built?
    && if c.blocks in s.cache then s'.cache == s.cache && Only(s, s', t, Returned(c.blocks, s.cache[c.blocks]))
       else s'.cache == s.cache[c.blocks := c.own] && Only(s, s', t, Returned(c.blocks, c.own))
  }

  ghost predicate Moves(s: State, s': State, t: Thread, x: nat) {
    Enter(s, s', t, x) || Check(s, s', t) || Build(s, s', t, x) || Publish(s, s', t)
  }

  ghost predicate Next(s: State, s': State) {
    exists t: Thread, x: nat :: Moves(s, s', t, x)
  }

  ghost predicate IsRun(run: seq<State>) {
    |run| > 0 && Initial(run[0]) && forall i: nat :: i + 1 < |run| ==> Next(run[i], run[i + 1])
  }

  /** A call's setups have its size, and what it returned is what is published. */
  ghost predicate CallOk(cache: map<nat, Setup>, c: Call) {
    match c
    case Built(n, own) => own.blocks == n
    case Returned(n, r) => n in cache && r == cache[n]
    case _ => true
  }

  ghost predicate Inv(s: State) {
    (forall n :: n in s.cache ==> s.cache[n].blocks == n) && forall t: Thread :: CallOk(s.cache, s.calls(t))
  }

  /** Published entries are never replaced. */
  ghost predicate Grows(a: map<nat, Setup>, b: map<nat, Setup>) {
    forall n :: n in a ==> n in b && b[n] == a[n]
  }

  /** A thread that moves to a sound call over a cache that only grew keeps the invariant. */
  lemma MoveKeeps(s: State, s': State, t: Thread, c: Call)
    requires Inv(s) && Grows(s.cache, s'.cache) && Only(s, s', t, c) && CallOk(s'.cache, c)
    requires forall n :: n in s'.cache ==> s'.cache[n].blocks == n
    ensures Inv(s')
  {
    forall u: Thread ensures CallOk(s'.cache, s'.calls(u)) {
      if u != t { assert CallOk(s.cache, s.calls(u)); }
    }
  }

  lemma StepKeeps(s: State, s': State)
    requires Inv(s) && Next(s, s')
    ensures Inv(s') && Grows(s.cache, s'.cache)
  {
    var t: Thread, x: nat :| Moves(s, s', t, x);
    var c := s.calls(t);
    assert CallOk(s.cache, c);
    if Enter(s, s', t, x) {
      MoveKeeps(s, s', t, Entered(x));
    } else if Check(s, s', t) {
      MoveKeeps(s, s', t, if c.blocks in s.cache then Returned(c.blocks, s.cache[c.blocks]) else Missed(c.blocks));
    } else if Build(s, s', t, x) {
      MoveKeeps(s, s', t, Built(c.blocks, Setup(c.blocks, x)));
    } else if c.blocks in s.cache {
      MoveKeeps(s, s', t, Returned(c.blocks, s.cache[c.blocks]));
    } else {
      MoveKeeps(s, s', t, Returned(c.blocks, c.own));
    }
  }

  lemma {:induction false} RunKeeps(run: seq<State>, i: nat, j: nat)
    requires IsRun(run) && i <= j < |run|
    ensures Inv(run[i]) && Inv(run[j]) && Grows(run[i].cache, run[j].cache)
    decreases j
  {
    if j == 0 {
      assert forall t: Thread :: CallOk(run[0].cache, run[0].calls(t));
    } else {
      RunKeeps(run, if i < j then i else j - 1, j - 1);
      assert Next(run[j - 1], run[j - 1 + 1]);
      StepKeeps(run[j - 1], run[j]);
    }
  }

  /** Any two calls for one block count, whenever and wherever they return in a run, return the same setup. */
  lemma OneSetup(run: seq<State>, i: nat, j: nat, t: Thread, u: Thread)
    requires IsRun(run) && i <= j < |run| && run[i].calls(t).Returned? && run[j].calls(u).Returned?
    requires run[i].calls(t).blocks == run[j].calls(u).blocks
    ensures run[i].calls(t).result == run[j].calls(u).result && run[i].calls(t).result.blocks == run[i].calls(t).blocks
  {
    RunKeeps(run, i, j);
    assert CallOk(run[i].cache, run[i].calls(t));
    assert CallOk(run[j].cache, run[j].calls(u));
  }

  // ----- a race -----

  /** Two threads at two calls, everyone else idle. */
  function Pair(cache: map<nat, Setup>, c: Call, d: Call): State {
    State(cache, (t: Thread) => if t == 0 then c else if t == 1 then d else Idle)
  }

  /** Two threads look, miss, build and publish the same block count, one after the other. */
  function Race(n: nat, x: nat, y: nat): seq<State> {
    var a, b := Setup(n, x), Setup(n, y);
    [Pair(map[], Idle, Idle), Pair(map[], Entered(n), Idle), Pair(map[], Entered(n), Entered(n)),
     Pair(map[], Missed(n), Entered(n)), Pair(map[], Missed(n), Missed(n)),
     Pair(map[], Built(n, a), Missed(n)), Pair(map[], Built(n, a), Built(n, b)),
     Pair(map[n := a], Returned(n, a), Built(n, b)), Pair(map[n := a], Returned(n, a), Returned(n, a))]
  }

  lemma RaceStep(n: nat, x: nat, y: nat, i: nat)
    requires i + 1 < |Race(n, x, y)|
    ensures Next(Race(n, x, y)[i], Race(n, x, y)[i + 1])
  {
    var s, s' := Race(n, x, y)[i], Race(n, x, y)[i + 1];
    if i == 0 {
      assert Enter(s, s', 0, n);
      assert Moves(s, s', 0, n);
    } else if i == 1 {
      assert Enter(s, s', 1, n);
      assert Moves(s, s', 1, n);
    } else if i == 2 {
      assert Check(s, s', 0);
      assert Moves(s, s', 0, n);
    } else if i == 3 {
      assert Check(s, s', 1);
      assert Moves(s, s', 1, n);
    } else if i == 4 {
      assert Build(s, s', 0, x);
      assert Moves(s, s', 0, x);
    } else if i == 5 {
      assert Build(s, s', 1, y);
      assert Moves(s, s', 1, y);
    } else if i == 6 {
      assert Publish(s, s', 0);
      assert Moves(s, s', 0, n);
    } else {
      assert Publish(s, s', 1);
      assert Moves(s, s', 1, n);
    }
  }

  /** The race can happen: both threads build, and both return the setup that was published first. */
  lemma RaceRuns(n: nat, x: nat, y: nat)
    ensures IsRun(Race(n, x, y))
    ensures var last := Race(n, x, y)[8]; last.calls(0) == last.calls(1) == Returned(n, Setup(n, x))
  {
    forall i: nat | i + 1 < |Race(n, x, y)| ensures Next(Race(n, x, y)[i], Race(n, x, y)[i + 1]) {
      RaceStep(n, x, y, i);
    }
  }
}
