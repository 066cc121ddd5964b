/**
 * The lookup argument's books (src/blake2b_lookup_g.rs and src/blake2b_lookup_compression.rs), for any table and
 * any weight function. Main results: lookups that hit a table weigh what the table weighs with its multiplicities,
 * exactly and with multiplicities reduced in the field; and conversely, when the two sides agree in the field for
 * every weight and there are fewer lookups than field elements, every lookup hits the table. Two books that agree
 * for every weight hold the same lookups.
 */
module LogUp {
  import opened Arith
  import opened Field31
  import opened Words
  import Blake2bG

  // ----- balance, for any table -----

  function SumTuples<T>(w: T -> int, ts: seq<T>): int {
    if ts == [] then 0 else SumTuples(w, ts[..|ts| - 1]) + w(ts[|ts| - 1])
  }

  lemma SumPush<T>(w: T -> int, ts: seq<T>, t: T)
    ensures SumTuples(w, ts + [t]) == SumTuples(w, ts) + w(t)
  {
    assert (ts + [t])[..|ts|] == ts;
  }

  /** The sum of mult(i) times the weight of table row i, over i below n. */
  function SumTable<T>(w: T -> int, table: nat -> T, mult: nat -> int, n: nat): int {
    if n == 0 then 0 else SumTable(w, table, mult, n - 1) + mult(n - 1) * w(table(n - 1))
  }

  /** How many tuples fall on table row i. */
  function Count<T>(index: T -> nat, ts: seq<T>, i: nat): nat {
    if ts == [] then 0 else Count(index, ts[..|ts| - 1], i) + if index(ts[|ts| - 1]) == i then 1 else 0
  }

  function Counts<T>(index: T -> nat, ts: seq<T>): nat -> int {
    (i: nat) => Count(index, ts, i)
  }

  /** The tuple is the table row its index names. */
  ghost predicate Indexed<T>(table: nat -> T, index: T -> nat, n: nat, t: T) {
    index(t) < n && table(index(t)) == t
  }

  lemma {:induction false} Bumped<T>(w: T -> int, table: nat -> T, f: nat -> int, g: nat -> int, k: nat, n: nat)
    requires forall i: nat :: i < n ==> g(i) == f(i) + if i == k then 1 else 0
    ensures SumTable(w, table, g, n) == SumTable(w, table, f, n) + if k < n then w(table(k)) else 0
  {
    if n > 0 {
      Bumped(w, table, f, g, k, n - 1);
      MulDistribute(f(n - 1), 1, w(table(n - 1)));
    }
  }

  lemma {:induction false} EmptyTable<T>(w: T -> int, table: nat -> T, f: nat -> int, n: nat)
    requires forall i: nat :: i < n ==> f(i) == 0
    ensures SumTable(w, table, f, n) == 0
  {
    if n > 0 { EmptyTable(w, table, f, n - 1); }
  }

  /** Whatever the weights, the lookups weigh as much as the table with their multiplicities. */
  lemma {:induction false} Balance<T>(w: T -> int, table: nat -> T, index: T -> nat, ts: seq<T>, n: nat)
    requires forall k: nat :: k < |ts| ==> Indexed(table, index, n, ts[k])
    ensures SumTuples(w, ts) == SumTable(w, table, Counts(index, ts), n)
  {
    if ts == [] {
      EmptyTable(w, table, Counts(index, ts), n);
    } else {
      var before, t := ts[..|ts| - 1], ts[|ts| - 1];
      forall k: nat | k < |before| ensures Indexed(table, index, n, before[k]) {
        assert Indexed(table, index, n, ts[k]);
      }
      Balance(w, table, index, before, n);
      assert Indexed(table, index, n, ts[|ts| - 1]);
      Bumped(w, table, Counts(index, before), Counts(index, ts), index(t), n);
    }
  }

  /** Multiplicities reduced in the field change the table's weight by a multiple of the modulus. */
  lemma {:induction false} Reduced<T>(w: T -> int, table: nat -> T, f: nat -> int, g: nat -> int, n: nat)
    requires forall i: nat :: i < n ==> g(i) == f(i) % M31
    ensures Zero(SumTable(w, table, f, n) - SumTable(w, table, g, n))
  {
    if n > 0 {
      Reduced(w, table, f, g, n - 1);
      var x, v := f(n - 1), w(table(n - 1));
      CongMod(x, M31);
      CongMul(x % M31, x, v, v, M31);
      CongDiff(x * v, (x % M31) * v, M31);
      MultipleAdd(SumTable(w, table, f, n - 1) - SumTable(w, table, g, n - 1), x * v - (x % M31) * v, M31);
    }
  }

  /** What the lookups weigh more than the table. */
  function Imbalance<T>(w: T -> int, ts: seq<T>, table: nat -> T, mult: nat -> int, n: nat): int {
    SumTuples(w, ts) - SumTable(w, table, mult, n)
  }

  lemma BalanceReduced<T>(w: T -> int, table: nat -> T, index: T -> nat, ts: seq<T>, mult: nat -> int, n: nat)
    requires forall k: nat :: k < |ts| ==> Indexed(table, index, n, ts[k])
    requires forall i: nat :: i < n ==> mult(i) == Count(index, ts, i) % M31
    ensures Zero(Imbalance(w, ts, table, mult, n))
  {
    Balance(w, table, index, ts, n);
    Reduced(w, table, Counts(index, ts), mult, n);
  }

  /** The multiplicity column: one field increment per lookup. */
  method Multiplicities<T>(index: T -> nat, ts: seq<T>, n: nat) returns (mult: array<int>)
    requires forall k :: 0 <= k < |ts| ==> index(ts[k]) < n
    ensures fresh(mult) && mult.Length == n && forall i: nat :: i < n ==> mult[i] == Count(index, ts, i) % M31
  {
    mult := new int[n](_ => 0);
    assert ts[..0] == [];
    for k := 0 to |ts|
      invariant fresh(mult) && mult.Length == n && forall i: nat :: i < n ==> mult[i] == Count(index, ts[..k], i) % M31
    {
      assert ts[..k + 1][..k] == ts[..k];
      var i := index(ts[k]);
      Increment(Count(index, ts[..k], i));
      mult[i] := (mult[i] + 1) % M31;
    }
    assert ts[..|ts|] == ts;
  }

  lemma Increment(c: nat)
    ensures (c % M31 + 1) % M31 == (c + 1) % M31
  {
  }

  // ----- what agreeing sums determine -----

  /** The two books agree in the field for every weight function. */
  ghost predicate SameSums<T(!new)>(a: seq<T>, b: seq<T>) {
    forall w: T -> int :: Zero(SumTuples(w, a) - SumTuples(w, b))
  }

  lemma SameBook<T(!new)>(a: seq<T>, b: seq<T>)
    requires a == b
    ensures SameSums(a, b)
  {
    forall w: T -> int ensures Zero(SumTuples(w, a) - SumTuples(w, b)) {
      assert SumTuples(w, a) - SumTuples(w, b) == 0;
    }
  }

  /** The sums of the lookups and of the table agree in the field for every weight function. */
  ghost predicate Balanced<T(!new)>(ts: seq<T>, table: nat -> T, mult: nat -> int, n: nat) {
    forall w: T -> int :: Zero(Imbalance(w, ts, table, mult, n))
  }

  /** Weight one for t, nothing for everything else. */
  function Only<T(==)>(t: T): T -> int {
    (u: T) => if u == t then 1 else 0
  }

  lemma {:induction false} OnlyCounts<T>(t: T, ts: seq<T>)
    ensures SumTuples(Only(t), ts) == multiset(ts)[t] <= |ts|
  {
    if ts != [] {
      var before, last := ts[..|ts| - 1], ts[|ts| - 1];
      OnlyCounts(t, before);
      assert ts == before + [last];
    }
  }

  lemma SameCount<T(!new)>(a: seq<T>, b: seq<T>, t: T)
    requires SameSums(a, b) && |a| < M31 && |b| < M31
    ensures multiset(a)[t] == multiset(b)[t]
  {
    OnlyCounts(t, a);
    OnlyCounts(t, b);
    var w := Only(t);
    assert Zero(SumTuples(w, a) - SumTuples(w, b));
    SmallDifference(multiset(a)[t], multiset(b)[t]);
  }

  lemma SmallDifference(x: int, y: int)
    requires Zero(x - y) && 0 <= x < M31 && 0 <= y < M31
    ensures x == y
  {
  }

  /** Books shorter than the field that agree for every weight hold the same lookups, equally often. */
  lemma SameLookups<T(!new)>(a: seq<T>, b: seq<T>)
    requires SameSums(a, b) && |a| < M31 && |b| < M31
    ensures multiset(a) == multiset(b)
  {
    forall t ensures multiset(a)[t] == multiset(b)[t] {
      SameCount(a, b, t);
    }
  }

  lemma {:induction false} AbsentWeighsNothing<T>(t: T, table: nat -> T, mult: nat -> int, n: nat)
    requires forall i: nat :: i < n ==> table(i) != t
    ensures SumTable(Only(t), table, mult, n) == 0
  {
    if n > 0 { AbsentWeighsNothing(t, table, mult, n - 1); }
  }

  /** The tuple is a row of the table. */
  ghost predicate InTable<T>(table: nat -> T, n: nat, t: T) {
    exists i: nat :: i < n && table(i) == t
  }

  /** Balance for every weight, with fewer lookups than field elements, puts every lookup in the table. */
  lemma BalancedHits<T(!new)>(ts: seq<T>, table: nat -> T, mult: nat -> int, n: nat, k: nat)
    requires Balanced(ts, table, mult, n) && |ts| < M31 && k < |ts|
    ensures InTable(table, n, ts[k])
  {
    var t := ts[k];
    if !InTable(table, n, t) {
      AbsentWeighsNothing(t, table, mult, n);
      OnlyCounts(t, ts);
      assert t in multiset(ts);
      assert Zero(Imbalance(Only(t), ts, table, mult, n));
      SmallDifference(multiset(ts)[t], 0);
    }
  }

  /** A table whose index finds every one of its rows. */
  ghost predicate FindsRows<T>(table: nat -> T, index: T -> nat, n: nat) {
    forall i: nat :: i < n ==> Indexed(table, index, n, table(i))
  }

  /** With counted multiplicities, the books balance for every weight exactly when every lookup hits. */
  lemma BalancedIffHit<T(!new)>(ts: seq<T>, table: nat -> T, index: T -> nat, mult: nat -> int, n: nat)
    requires FindsRows(table, index, n) && |ts| < M31
    requires forall i: nat :: i < n ==> mult(i) == Count(index, ts, i) % M31
    ensures Balanced(ts, table, mult, n) <==> forall k: nat :: k < |ts| ==> InTable(table, n, ts[k])
  {
    if Balanced(ts, table, mult, n) {
      forall k: nat | k < |ts| ensures InTable(table, n, ts[k]) {
        BalancedHits(ts, table, mult, n, k);
      }
    }
    if forall k: nat :: k < |ts| ==> InTable(table, n, ts[k]) {
      forall k: nat | k < |ts| ensures Indexed(table, index, n, ts[k]) {
        assert InTable(table, n, ts[k]);
      }
      forall w: T -> int ensures Zero(Imbalance(w, ts, table, mult, n)) {
        BalanceReduced(w, table, index, ts, mult, n);
      }
    }
  }

  // ----- the two tables -----

  datatype XorTuple = XorTuple(a: int, b: int, c: int)
  datatype RotateTuple = RotateTuple(z: int, carryIn: int, out: int, carryOut: int)

  const XOR_ROWS: nat := 0x1_0000
  const ROTATE_ROWS: nat := 0x400

  function XorTable(): nat -> XorTuple {
    (i: nat) => XorTuple(i / 256, i % 256, Xor(8, i / 256, i % 256))
  }

  function XorIndex(): XorTuple -> nat {
    (t: XorTuple) => if t.a >= 0 && t.b >= 0 then 256 * t.a + t.b else 0
  }

  function RotateTable(): nat -> RotateTuple {
    (i: nat) =>
      var z, carry := i % 256, (i / 256) % 2;
      RotateTuple(z, carry, (2 * z + carry) % 256, (2 * z + carry) / 256)
  }

  function RotateIndex(): RotateTuple -> nat {
    (t: RotateTuple) => if t.z >= 0 && t.carryIn >= 0 then t.z + 256 * t.carryIn else 0
  }

  predicate InXor(t: XorTuple) { Blake2bG.InXorTable(t.a, t.b, t.c) }

  predicate InRotate(t: RotateTuple) { Blake2bG.InRotateTable(t.z, t.carryIn, t.out, t.carryOut) }

  lemma XorIndexed(t: XorTuple)
    requires InXor(t)
    ensures Indexed(XorTable(), XorIndex(), XOR_ROWS, t)
  {
    DivModUnique(256 * t.a + t.b, 256, t.a, t.b);
  }

  lemma RotateIndexed(t: RotateTuple)
    requires InRotate(t)
    ensures Indexed(RotateTable(), RotateIndex(), ROTATE_ROWS, t)
  {
    DivModUnique(t.z + 256 * t.carryIn, 256, t.carryIn, t.z);
    SmallMod(t.carryIn, 2);
  }

  /** The row of two bytes holds their exclusive or; that of a byte and a carry in, its rotation by one bit. */
  lemma TableRows(a: nat, b: nat, z: nat, carry: nat)
    requires a < 256 && b < 256 && z < 256 && carry < 2
    ensures XorTable()(256 * a + b) == XorTuple(a, b, Xor(8, a, b)) && XorIndex()(XorTuple(a, b, Xor(8, a, b))) == 256 * a + b
    ensures var t := RotateTable()(z + 256 * carry); t.z == z && t.carryIn == carry && t.out + 256 * t.carryOut == 2 * z + carry
  {
    DivModUnique(256 * a + b, 256, a, b);
    DivModUnique(z + 256 * carry, 256, carry, z);
    SmallMod(carry, 2);
  }

  /** Membership in the XOR table is being one of its rows. */
  lemma XorInTable(t: XorTuple)
    ensures InTable(XorTable(), XOR_ROWS, t) <==> InXor(t)
  {
    if InXor(t) { XorIndexed(t); }
  }

  lemma XorFindsRows(table: nat -> XorTuple, index: XorTuple -> nat, n: nat)
    requires table == XorTable() && index == XorIndex() && n == XOR_ROWS
    ensures FindsRows(table, index, n)
  {
    forall i: nat | i < n ensures Indexed(table, index, n, table(i)) {
      XorIndexed(XorTable()(i));
    }
  }

  /** Membership in the rotate table is being one of its rows, padding included. */
  lemma RotateInTable(t: RotateTuple)
    ensures InTable(RotateTable(), ROTATE_ROWS, t) <==> InRotate(t)
  {
    if InRotate(t) { RotateIndexed(t); }
  }

  lemma RotateFindsRows(table: nat -> RotateTuple, index: RotateTuple -> nat, n: nat)
    requires table == RotateTable() && index == RotateIndex() && n == ROTATE_ROWS
    ensures FindsRows(table, index, n)
  {
    forall i: nat | i < n ensures Indexed(table, index, n, table(i)) {
      RotateIndexed(RotateTable()(i));
    }
  }

  /** Lookups and exclusive-or table balance in the field for every weight exactly when every lookup is in the table. */
  lemma XorBalancedIff(ts: seq<XorTuple>, mult: nat -> int)
    requires |ts| < M31 && forall i: nat :: i < XOR_ROWS ==> mult(i) == Count(XorIndex(), ts, i) % M31
    ensures Balanced(ts, XorTable(), mult, XOR_ROWS) <==> forall k: nat :: k < |ts| ==> InXor(ts[k])
  {
    XorFindsRows(XorTable(), XorIndex(), XOR_ROWS);
    BalancedIffHit(ts, XorTable(), XorIndex(), mult, XOR_ROWS);
    forall k: nat | k < |ts| ensures InTable(XorTable(), XOR_ROWS, ts[k]) <==> InXor(ts[k]) {
      XorInTable(ts[k]);
    }
  }

  /** The same for the rotate table. */
  lemma RotateBalancedIff(ts: seq<RotateTuple>, mult: nat -> int)
    requires |ts| < M31 && forall i: nat :: i < ROTATE_ROWS ==> mult(i) == Count(RotateIndex(), ts, i) % M31
    ensures Balanced(ts, RotateTable(), mult, ROTATE_ROWS) <==> forall k: nat :: k < |ts| ==> InRotate(ts[k])
  {
    RotateFindsRows(RotateTable(), RotateIndex(), ROTATE_ROWS);
    BalancedIffHit(ts, RotateTable(), RotateIndex(), mult, ROTATE_ROWS);
    forall k: nat | k < |ts| ensures InTable(RotateTable(), ROTATE_ROWS, ts[k]) <==> InRotate(ts[k]) {
      RotateInTable(ts[k]);
    }
  }

  /** The XOR table balances any lookups that hit it. */
  lemma XorBalance(w: XorTuple -> int, ts: seq<XorTuple>)
    requires forall k :: 0 <= k < |ts| ==> InXor(ts[k])
    ensures SumTuples(w, ts) == SumTable(w, XorTable(), Counts(XorIndex(), ts), XOR_ROWS)
  {
    forall k: nat | k < |ts| ensures Indexed(XorTable(), XorIndex(), XOR_ROWS, ts[k]) {
      XorIndexed(ts[k]);
    }
    Balance(w, XorTable(), XorIndex(), ts, XOR_ROWS);
  }

  /** The rotate table balances any lookups that hit it; the rows its padding repeats are never counted. */
  lemma RotateBalance(w: RotateTuple -> int, ts: seq<RotateTuple>)
    requires forall k :: 0 <= k < |ts| ==> InRotate(ts[k])
    ensures SumTuples(w, ts) == SumTable(w, RotateTable(), Counts(RotateIndex(), ts), ROTATE_ROWS)
  {
    forall k: nat | k < |ts| ensures Indexed(RotateTable(), RotateIndex(), ROTATE_ROWS, ts[k]) {
      RotateIndexed(ts[k]);
    }
    Balance(w, RotateTable(), RotateIndex(), ts, ROTATE_ROWS);
  }
}
