/**
 * The process-wide cache of twiddles (simd_twiddles of src/prover_context.rs), which may evict what it published.
 * Main results: under every interleaving of any number of threads each call returns the value computed for its key,
 * the cache stays within its budget or holds a single entry, and the largest domain in it never leaves without a
 * larger one; each write section evicts smallest domains only, and no more of them than the budget asks for.
 */
module Twiddles {
  import opened Arith
  import opened Wrappers

  const BUDGET: nat := 512 * 0x10_0000

  /** Four bytes for each of 2^log values, capped below the word size. */
  function Estimate(log: nat): nat {
    Pow(2, if log + 2 < 63 then log + 2 else 63)
  }

  /** Four bytes for each value of the domain, until the exponent reaches the word size; 128 MiB for 2^25, a quarter of the budget. */
  lemma EstimateIs(log: nat)
    ensures log <= 61 ==> Estimate(log) == 4 * Pow(2, log)
    ensures log > 61 ==> Estimate(log) == Pow(2, 63)
    ensures log == 25 ==> Estimate(log) == 0x800_0000 && BUDGET == 4 * Estimate(log)
  {
    if log <= 61 { PowAdd(2, log, 2); }
    assert Pow(2, 2) == 4;
    if log == 25 {
      assert Pow(2, 5) == 32;
      PowPow(2, 5, 5);
      assert Pow(32, 5) == 0x200_0000;
    }
  }

  /** Estimated bytes of the keys below n. */
  function Total(keys: set<nat>, n: nat): nat {
    if n == 0 then 0 else Total(keys, n - 1) + if n - 1 in keys then Estimate(n - 1) else 0
  }

  lemma {:induction false} TotalWithout(keys: set<nat>, x: nat, n: nat)
    requires x in keys
    ensures Total(keys, n) == Total(keys - {x}, n) + if x < n then Estimate(x) else 0
  {
    if n > 0 { TotalWithout(keys, x, n - 1); }
  }

  lemma HasLowest(keys: set<nat>) returns (x: nat)
    requires keys != {}
    ensures x in keys && forall k :: k in keys ==> x <= k
  {
    x :| x in keys;
    var rest := keys - {x};
    if rest != {} {
      var y := HasLowest(rest);
      forall k | k in keys ensures (if y < x then y else x) <= k {
        assert k == x || k in rest;
      }
      x := if y < x then y else x;
    } else {
      forall k | k in keys ensures x <= k {
        assert k == x || k in rest;
      }
    }
  }

  // ----- the write section -----

  /** Every entry is the value computed for its key. */
  ghost predicate Right<T(!new)>(compute: nat -> T, limit: nat, cache: map<nat, T>) {
    forall k :: k in cache ==> k < limit && cache[k] == compute(k)
  }

  /** Within budget, or down to one entry. */
  ghost predicate Bounded<T>(limit: nat, cache: map<nat, T>) {
    Total(cache.Keys, limit) <= BUDGET || |cache| <= 1
  }

  /** Only smallest keys were removed, and what stayed is unchanged. */
  ghost predicate Evicted<T(!new)>(from: map<nat, T>, to: map<nat, T>) {
    && (forall k :: k in to ==> k in from && to[k] == from[k])
    && (forall k, j :: k in from && k !in to && j in to ==> k < j)
  }

  /** Putting back the last key evicted would have exceeded the budget. */
  ghost predicate Needed<T(!new)>(limit: nat, from: map<nat, T>, to: map<nat, T>, k: nat) {
    && k in from && k !in to && Total(to.Keys + {k}, limit) > BUDGET
    && forall j :: j in from && j !in to ==> j <= k
  }

  /** Smallest keys leave, one by one, until the rest is within budget, and not one more. */
  ghost predicate Trimmed<T(!new)>(limit: nat, from: map<nat, T>, to: map<nat, T>) {
    && Evicted(from, to) && to != map[] && Bounded(limit, to)
    && (to == from || exists k :: Needed(limit, from, to, k))
  }

  /** The write section: take what someone else has published, or publish and trim. */
  ghost predicate Published<T(!new)>(limit: nat, before: map<nat, T>, after: map<nat, T>, log: nat, value: T, result: T) {
    if log in before then after == before && result == before[log]
    else result == value && Trimmed(limit, before[log := value], after)
  }

  class TwiddleCache<T(==, !new)> {
    const compute: nat -> T
    const limit: nat
    var entries: map<nat, T>

    ghost predicate Valid()
      reads this
    {
      Right(compute, limit, entries) && Bounded(limit, entries)
    }

    constructor (compute: nat -> T, limit: nat)
      ensures Valid() && entries == map[] && this.compute == compute && this.limit == limit
    {
      this.compute, this.limit, entries := compute, limit, map[];
    }

    /** The read section. */
    method Lookup(log: nat) returns (r: Option<T>)
      requires Valid()
      ensures r.Some? <==> log in entries
      ensures r.Some? ==> r.value == compute(log)
    {
      r := if log in entries then Some(entries[log]) else None;
    }

    /** The write section: publish unless someone else has, then evict the smallest domains while over budget. */
    method Publish(log: nat, twiddles: T) returns (r: T)
      requires Valid() && log < limit && twiddles == compute(log)
      modifies this
      ensures Valid() && r == compute(log)
      ensures Published(limit, old(entries), entries, log, twiddles, r)
    {
      if log in entries { return entries[log]; }
      entries := entries[log := twiddles];
      Evict();
      r := twiddles;
    }

    method Evict()
      requires Right(compute, limit, entries) && entries != map[]
      modifies this
      ensures Right(compute, limit, entries) && Trimmed(limit, old(entries), entries)
    {
      var total := SumOf();
      while total > BUDGET && |entries| > 1
        invariant Right(compute, limit, entries) && total == Total(entries.Keys, limit) && entries != map[]
        invariant Evicted(old(entries), entries)
        invariant entries == old(entries) || exists k :: Needed(limit, old(entries), entries, k)
        decreases |entries|
      {
        total := EvictOne(old(entries), total);
      }
    }

    method EvictOne(ghost from: map<nat, T>, total: nat) returns (rest: nat)
      requires Right(compute, limit, entries) && total == Total(entries.Keys, limit) > BUDGET && |entries| > 1
      requires Evicted(from, entries)
      modifies this
      ensures Right(compute, limit, entries) && rest == Total(entries.Keys, limit) && |entries| < |old(entries)| && entries != map[]
      ensures Evicted(from, entries) && exists k :: Needed(limit, from, entries, k)
    {
      ghost var low := HasLowest(entries.Keys);
      var smallest :| smallest in entries && forall k :: k in entries ==> smallest <= k;
      TotalWithout(entries.Keys, smallest, limit);
      Removed(entries, smallest);
      OneLess(from, entries, entries - {smallest}, smallest, limit);
      rest := total - Estimate(smallest);
      entries := entries - {smallest};
    }

    method SumOf() returns (total: nat)
      requires Right(compute, limit, entries)
      ensures total == Total(entries.Keys, limit)
    {
      total := 0;
      for n := 0 to limit
        invariant total == Total(entries.Keys, n)
      {
        if n in entries { total := total + Estimate(n); }
      }
    }

    /** A call with nobody else about; the runs below let other threads act between its sections. */
    method Twiddles(log: nat) returns (r: T)
      requires Valid() && log < limit
      modifies this
      ensures Valid() && r == compute(log)
      ensures Published(limit, old(entries), entries, log, compute(log), r)
    {
      var hit := Lookup(log);
      if hit.Some? { return hit.value; }
      r := Publish(log, compute(log));
    }
  }

  lemma Removed<T>(a: map<nat, T>, x: nat)
    requires x in a
    ensures (a - {x}).Keys == a.Keys - {x} && |a - {x}| == |a| - 1
  {
    assert (a - {x}).Keys == a.Keys - {x};
    assert |a - {x}| == |(a - {x}).Keys| && |a| == |a.Keys|;
  }

  lemma OneLess<T(!new)>(from: map<nat, T>, a: map<nat, T>, b: map<nat, T>, x: nat, limit: nat)
    requires Evicted(from, a) && x in a && (forall k :: k in a ==> x <= k) && b == a - {x} && Total(a.Keys, limit) > BUDGET
    ensures Evicted(from, b) && Needed(limit, from, b, x)
  {
    assert b.Keys + {x} == a.Keys;
    forall k, j | k in from && k !in b && j in b ensures k < j {
      if k in a { assert k == x; }
    }
  }

  // ----- every interleaving of any number of threads -----

  /** Where a call stands between its critical sections. */
  datatype Call<T> =
    | Idle
    | Entered(log: nat)
    | Missed(log: nat)
    | Computed(log: nat, own: T)
    | Returned(log: nat, result: T)

  type Thread = nat

  datatype State<T> = State(cache: map<nat, T>, calls: Thread -> Call<T>)

  /** Every other thread is where it was. */
  ghost predicate Only<T(!new)>(s: State<T>, s': State<T>, t: Thread, c: Call<T>) {
    s'.calls(t) == c && forall u: Thread :: u != t ==> s'.calls(u) == s.calls(u)
  }

  ghost predicate Enter<T(!new)>(s: State<T>, s': State<T>, t: Thread, log: nat, limit: nat) {
    (s.calls(t).Idle? || s.calls(t).Returned?) && log < limit && s'.cache == s.cache && Only(s, s', t, Entered(log))
  }

  /** The read section. */
  ghost predicate Read<T(!new)>(s: State<T>, s': State<T>, t: Thread) {
    var c := s.calls(t);
    && c.Entered? && s'.cache == s.cache
    && Only(s, s', t, if c.log in s.cache then Returned(c.log, s.cache[c.log]) else Missed(c.log))
  }

  /** Computing happens outside both sections. */
  ghost predicate Compute<T(!new)>(s: State<T>, s': State<T>, t: Thread, compute: nat -> T) {
    var c := s.calls(t);
    c.Missed? && s'.cache == s.cache && Only(s, s', t, Computed(c.log, compute(c.log)))
  }

  /** The write section. */
  ghost predicate Write<T(!new)>(s: State<T>, s': State<T>, t: Thread, limit: nat, result: T) {
    var c := s.calls(t);
    && c.Computed? && Published(limit, s.cache, s'.cache, c.log, c.own, result)
    && Only(s, s', t, Returned(c.log, result))
  }

  ghost predicate Moves<T(!new)>(compute: nat -> T, limit: nat, s: State<T>, s': State<T>, t: Thread) {
    || (exists log :: Enter(s, s', t, log, limit))
    || Read(s, s', t) || Compute(s, s', t, compute)
    || (exists result :: Write(s, s', t, limit, result))
  }

  ghost predicate Next<T(!new)>(compute: nat -> T, limit: nat, s: State<T>, s': State<T>) {
    exists t: Thread :: Moves(compute, limit, s, s', t)
  }

  ghost predicate NextAt<T(!new)>(compute: nat -> T, limit: nat, run: seq<State<T>>, i: nat) {
    i + 1 < |run| && Next(compute, limit, run[i], run[i + 1])
  }

  ghost predicate IsRun<T(!new)>(compute: nat -> T, limit: nat, run: seq<State<T>>) {
    && |run| > 0 && run[0].cache == map[] && (forall t: Thread :: run[0].calls(t) == Idle)
    && forall i: nat :: i + 1 < |run| ==> NextAt(compute, limit, run, i)
  }

  /** What a call holds or has returned is the value computed for its key. */
  ghost predicate CallRight<T>(compute: nat -> T, limit: nat, c: Call<T>) {
    match c
    case Idle => true
    case Entered(n) => n < limit
    case Missed(n) => n < limit
    case Computed(n, own) => n < limit && own == compute(n)
    case Returned(n, r) => n < limit && r == compute(n)
  }

  ghost predicate Inv<T(!new)>(compute: nat -> T, limit: nat, s: State<T>) {
    && Right(compute, limit, s.cache) && Bounded(limit, s.cache)
    && forall t: Thread :: CallRight(compute, limit, s.calls(t))
  }

  /** What the write section leaves is right and within bounds, and so is what it returns. */
  lemma PublishedRight<T(!new)>(compute: nat -> T, limit: nat, before: map<nat, T>, after: map<nat, T>, log: nat, result: T)
    requires Right(compute, limit, before) && Bounded(limit, before) && log < limit
    requires Published(limit, before, after, log, compute(log), result)
    ensures Right(compute, limit, after) && Bounded(limit, after) && result == compute(log)
  {
  }

  lemma MoveKeeps<T(!new)>(compute: nat -> T, limit: nat, s: State<T>, s': State<T>, t: Thread, c: Call<T>)
    requires Inv(compute, limit, s) && Only(s, s', t, c) && CallRight(compute, limit, c)
    requires Right(compute, limit, s'.cache) && Bounded(limit, s'.cache)
    ensures Inv(compute, limit, s')
  {
    forall u: Thread ensures CallRight(compute, limit, s'.calls(u)) {
      if u != t { assert CallRight(compute, limit, s.calls(u)); }
    }
  }

  /** Some domain at least as large is cached. */
  ghost predicate Covered<T>(cache: map<nat, T>, k: nat) {
    exists m :: m in cache && k <= m
  }

  lemma PublishedCovers<T(!new)>(limit: nat, before: map<nat, T>, after: map<nat, T>, log: nat, value: T, result: T, k: nat)
    requires Published(limit, before, after, log, value, result) && Covered(before, k)
    ensures Covered(after, k)
  {
    var m :| m in before && k <= m;
    if log !in before && m !in after {
      assert after.Keys != {};
      var j :| j in after.Keys;
      assert j in after && m < j;
    }
  }

  /** Every step of any thread keeps the invariant, and what is covered stays covered. */
  lemma StepKeeps<T(!new)>(compute: nat -> T, limit: nat, s: State<T>, s': State<T>, k: nat)
    requires Inv(compute, limit, s) && Next(compute, limit, s, s')
    ensures Inv(compute, limit, s') && (Covered(s.cache, k) ==> Covered(s'.cache, k))
  {
    var t: Thread :| Moves(compute, limit, s, s', t);
    var c := s.calls(t);
    assert CallRight(compute, limit, c);
    if log :| Enter(s, s', t, log, limit) {
      MoveKeeps(compute, limit, s, s', t, Entered(log));
    } else if Read(s, s', t) {
      MoveKeeps(compute, limit, s, s', t, if c.log in s.cache then Returned(c.log, s.cache[c.log]) else Missed(c.log));
    } else if Compute(s, s', t, compute) {
      MoveKeeps(compute, limit, s, s', t, Computed(c.log, compute(c.log)));
    } else if result :| Write(s, s', t, limit, result) {
      PublishedRight(compute, limit, s.cache, s'.cache, c.log, result);
      MoveKeeps(compute, limit, s, s', t, Returned(c.log, result));
      if Covered(s.cache, k) { PublishedCovers(limit, s.cache, s'.cache, c.log, c.own, result, k); }
    }
  }

  lemma RunStep<T(!new)>(compute: nat -> T, limit: nat, run: seq<State<T>>, j: nat, k: nat)
    requires NextAt(compute, limit, run, j) && Inv(compute, limit, run[j])
    ensures Inv(compute, limit, run[j + 1]) && (Covered(run[j].cache, k) ==> Covered(run[j + 1].cache, k))
  {
    StepKeeps(compute, limit, run[j], run[j + 1], k);
  }

  lemma {:induction false} RunHolds<T(!new)>(compute: nat -> T, limit: nat, run: seq<State<T>>, j: nat)
    requires IsRun(compute, limit, run) && j < |run|
    ensures Inv(compute, limit, run[j])
  {
    if j == 0 {
      FirstHolds(compute, limit, run[0]);
    } else {
      RunHolds(compute, limit, run, j - 1);
      RunStep(compute, limit, run, j - 1, 0);
    }
  }

  lemma {:induction false} RunCovers<T(!new)>(compute: nat -> T, limit: nat, run: seq<State<T>>, i: nat, j: nat, k: nat)
    requires IsRun(compute, limit, run) && i <= j < |run| && Covered(run[i].cache, k)
    ensures Covered(run[j].cache, k)
  {
    if i < j {
      RunCovers(compute, limit, run, i, j - 1, k);
      RunHolds(compute, limit, run, j - 1);
      RunStep(compute, limit, run, j - 1, k);
    }
  }

  lemma FirstHolds<T(!new)>(compute: nat -> T, limit: nat, s: State<T>)
    requires s.cache == map[] && forall t: Thread :: s.calls(t) == Idle
    ensures Inv(compute, limit, s)
  {
    forall t: Thread ensures CallRight(compute, limit, s.calls(t)) {
      assert s.calls(t) == Idle;
    }
  }

  /** In every interleaving each call returns the value computed for its key, over a cache that is right and bounded. */
  lemma CallsReturnComputed<T(!new)>(compute: nat -> T, limit: nat, run: seq<State<T>>, j: nat, t: Thread)
    requires IsRun(compute, limit, run) && j < |run|
    ensures Right(compute, limit, run[j].cache) && Bounded(limit, run[j].cache)
    ensures run[j].calls(t).Returned? ==> run[j].calls(t).result == compute(run[j].calls(t).log)
  {
    RunHolds(compute, limit, run, j);
    assert CallRight(compute, limit, run[j].calls(t));
  }

  /** In every interleaving, whatever is evicted, a domain at least as large as any once cached is still cached. */
  lemma LargestStays<T(!new)>(compute: nat -> T, limit: nat, run: seq<State<T>>, i: nat, j: nat, k: nat)
    requires IsRun(compute, limit, run) && i <= j < |run| && k in run[i].cache
    ensures exists m :: m in run[j].cache && k <= m
  {
    assert Covered(run[i].cache, k);
    RunCovers(compute, limit, run, i, j, k);
    assert Covered(run[j].cache, k);
  }

  // ----- a call -----

  /** One thread at a call, everyone else idle. */
  function Alone<T>(cache: map<nat, T>, t: Thread, c: Call<T>): State<T> {
    State(cache, (u: Thread) => if u == t then c else Idle)
  }

  /** A cold call, section by section. */
  function ColdCall<T>(compute: nat -> T, t: Thread, log: nat): seq<State<T>> {
    var v := compute(log);
    [Alone(map[], t, Idle), Alone(map[], t, Entered(log)), Alone(map[], t, Missed(log)),
     Alone(map[], t, Computed(log, v)), Alone(map[log := v], t, Returned(log, v))]
  }

  /** One entry is never too many. */
  lemma OneEntry<T(!new)>(limit: nat, log: nat, v: T)
    ensures Published(limit, map[], map[log := v], log, v, v)
  {
    var m: map<nat, T> := map[];
    assert m[log := v] == map[log := v];
    assert |map[log := v]| == 1;
  }

  lemma ColdStep<T(!new)>(compute: nat -> T, limit: nat, t: Thread, log: nat, i: nat)
    requires log < limit && i < 4
    ensures NextAt(compute, limit, ColdCall(compute, t, log), i)
  {
    var run := ColdCall(compute, t, log);
    var s, s' := run[i], run[i + 1];
    if i == 0 {
      assert Enter(s, s', t, log, limit);
    } else if i == 1 {
      assert Read(s, s', t);
    } else if i == 2 {
      assert Compute(s, s', t, compute);
    } else {
      OneEntry(limit, log, compute(log));
      assert Write(s, s', t, limit, compute(log));
    }
    assert Moves(compute, limit, s, s', t);
  }

  /** Every thread can make every call: a cold one misses, computes, publishes and returns. */
  lemma ColdCallRuns<T(!new)>(compute: nat -> T, limit: nat, t: Thread, log: nat)
    requires log < limit
    ensures IsRun(compute, limit, ColdCall(compute, t, log))
    ensures ColdCall(compute, t, log)[4].calls(t) == Returned(log, compute(log)) && log in ColdCall(compute, t, log)[4].cache
  {
    forall i: nat | i + 1 < 5 ensures NextAt(compute, limit, ColdCall(compute, t, log), i) {
      ColdStep(compute, limit, t, log, i);
    }
  }
}
