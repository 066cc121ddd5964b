/**
 * Where a path of src/blake2b_smt_witness.rs stands in its tree. Main results: the direction bits, from the leaf up,
 * are the binary digits of the key read as a big-endian number, so distinct keys stand at distinct leaves; and in any
 * tree of height 256 the opening of a leaf, with the subtrees beside its branch as siblings, is authentic.
 */
module SparseMerkleTree {
  import opened Arith
  import opened Blake2bScheduler
  import opened Blake2bHash
  import opened SparseMerkle
  import opened Words
  import Bits

  // ----- the place of a key -----

  /** The big-endian value of a byte string. */
  function BE(b: seq<Byte>): nat {
    if b == [] then 0 else 256 * BE(b[..|b| - 1]) + b[|b| - 1]
  }

  function Turn(b: bool): nat { if b then 1 else 0 }

  /** The sum of 2^(h - 1) over the heights h up to n at which the path takes the right. */
  function Place(key: Digest, n: nat): (p: nat)
    requires n <= HEIGHT
    ensures p < Pow(2, n)
  {
    if n == 0 then 0 else Place(key, n - 1) + Pow(2, n - 1) * Turn(DirectionBit(key, n))
  }

  /** Bit k of the big-endian value is bit k % 8 of byte k / 8 from the end. */
  lemma {:induction false} BigEndianBit(b: seq<Byte>, k: nat)
    requires k < 8 * |b|
    ensures Bits.Bit(BE(b), k) == Bits.Bit(b[|b| - 1 - k / 8], k % 8)
  {
    var rest, low := b[..|b| - 1], b[|b| - 1];
    if k < 8 {
      LowBit(low, BE(rest), k);
    } else {
      HighBits(low, BE(rest), k - 8);
      BigEndianBit(rest, k - 8);
    }
  }

  lemma {:induction false} ShiftedBit(x: nat, m: nat, k: nat)
    ensures Bits.Bit(x, m + k) == Bits.Bit(x / Pow(2, m), k)
  {
    if m > 0 {
      ShiftedBit(x / 2, m - 1, k);
      HalfThenPower(x, Pow(2, m - 1));
    }
  }

  lemma HalfThenPower(x: nat, p: nat)
    requires p > 0
    ensures x / 2 / p == x / (2 * p)
  {
    var h, r := x / 2 / p, x / 2 % p;
    MulAssoc(2, p, h);
    DivModUnique(x, 2 * p, h, 2 * r + x % 2);
  }

  lemma HighBits(low: nat, high: nat, k: nat)
    requires low < 256
    ensures Bits.Bit(256 * high + low, 8 + k) == Bits.Bit(high, k)
  {
    ShiftedBit(256 * high + low, 8, k);
    assert Pow(2, 8) == 256;
  }

  lemma {:induction false} LowBits(low: nat, high: nat, m: nat, k: nat)
    requires k < m
    ensures Bits.Bit(Pow(2, m) * high + low, k) == Bits.Bit(low, k)
  {
    var p := Pow(2, m - 1) * high;
    MulAssoc(2, Pow(2, m - 1), high);
    Halved(p, low);
    if k > 0 { LowBits(low / 2, high, m - 1, k - 1); }
  }

  lemma Halved(p: nat, low: nat)
    ensures (2 * p + low) % 2 == low % 2 && (2 * p + low) / 2 == p + low / 2
  {
  }

  lemma LowBit(low: nat, high: nat, k: nat)
    requires k < 8
    ensures Bits.Bit(256 * high + low, k) == Bits.Bit(low, k)
  {
    LowBits(low, high, 8, k);
    assert Pow(2, 8) == 256;
  }

  /** The turn at height h is bit h - 1 of the key's value. */
  lemma TurnIsBit(key: Digest, h: nat)
    requires 0 < h <= HEIGHT
    ensures Turn(DirectionBit(key, h)) == Bits.Bit(BE(key), h - 1)
  {
    BigEndianBit(key, h - 1);
  }

  lemma BitIs(x: nat, n: nat)
    ensures Bits.Bit(x, n) == x / Pow(2, n) % 2
  {
    ShiftedBit(x, n, 0);
  }

  /** One digit more of a remainder. */
  lemma TopBit(x: nat, p: nat, q: nat)
    requires p > 0 && q == x / p
    ensures x % (2 * p) == x % p + p * (q % 2)
  {
    SplitTwice(x, p, q, q / 2, q % 2);
  }

  lemma SplitTwice(x: nat, p: nat, q: nat, u: nat, b: nat)
    requires p > 0 && q == x / p && q == 2 * u + b && b < 2
    ensures x % (2 * p) == x % p + p * b && x / (2 * p) == u
  {
    var r := x % p;
    assert x == p * q + r;
    MulDistribute(2 * u, b, p);
    MulAssoc(2, p, u);
    Regrouped(p, q, u, b);
    DivModUnique(x, 2 * p, u, r + p * b);
  }

  lemma Regrouped(p: nat, q: nat, u: nat, b: nat)
    requires q == 2 * u + b && b < 2
    ensures p * q == (2 * p) * u + p * b && p * b <= p
  {
  }

  /** The turns of the path are the low bits of x, from the leaf up. */
  ghost predicate TurnsAre(key: Digest, x: nat) {
    forall h: nat :: 0 < h <= HEIGHT ==> Turn(DirectionBit(key, h)) == Bits.Bit(x, h - 1)
  }

  lemma NextPlace(x: nat, n: nat, p: nat, before: nat, b: nat)
    requires p == Pow(2, n) && before == x % p && b == Bits.Bit(x, n)
    ensures before + p * b == x % (2 * p)
  {
    BitIs(x, n);
    TopBit(x, p, x / p);
  }

  lemma {:induction false} PlaceIsRemainder(key: Digest, x: nat, n: nat)
    requires n <= HEIGHT && TurnsAre(key, x)
    ensures Place(key, n) == x % Pow(2, n)
  {
    if n > 0 {
      PlaceIsRemainder(key, x, n - 1);
      NextPlace(x, n - 1, Pow(2, n - 1), Place(key, n - 1), Turn(DirectionBit(key, n)));
    }
  }

  lemma {:induction false} BEBound(b: seq<Byte>)
    ensures BE(b) < Pow(256, |b|)
  {
    if b != [] { BEBound(b[..|b| - 1]); }
  }

  lemma KeyBelow(key: Digest, n: nat)
    requires n == 8 * |key|
    ensures BE(key) < Pow(2, n)
  {
    BEBound(key);
    PowBytes(|key|);
  }

  lemma PlaceFrom(key: Digest, x: nat, n: nat)
    requires x == BE(key) < Pow(2, n) && n <= HEIGHT
    ensures Place(key, n) == x
  {
    forall h: nat | 0 < h <= HEIGHT ensures Turn(DirectionBit(key, h)) == Bits.Bit(x, h - 1) {
      TurnIsBit(key, h);
    }
    PlaceIsRemainder(key, x, n);
    SmallMod(x, Pow(2, n));
  }

  /** The direction bits are the digits of the key, read as a big-endian number. */
  lemma PlaceIsKey(key: Digest, n: nat)
    requires n == 256
    ensures Place(key, n) == BE(key)
  {
    KeyBelow(key, n);
    PlaceFrom(key, BE(key), n);
  }

  lemma {:induction false} BEInjective(a: seq<Byte>, b: seq<Byte>)
    requires |a| == |b| && BE(a) == BE(b)
    ensures a == b
  {
    if a != [] {
      DivModUnique(BE(a), 256, BE(a[..|a| - 1]), a[|a| - 1]);
      DivModUnique(BE(b), 256, BE(b[..|b| - 1]), b[|b| - 1]);
      BEInjective(a[..|a| - 1], b[..|b| - 1]);
      assert a == a[..|a| - 1] + [a[|a| - 1]] && b == b[..|b| - 1] + [b[|b| - 1]];
    }
  }

  /** Distinct keys stand at distinct leaves. */
  lemma PlacesDiffer(a: Digest, b: Digest, n: nat)
    requires n == 256 && a != b
    ensures Place(a, n) != Place(b, n)
  {
    PlaceIsKey(a, n);
    PlaceIsKey(b, n);
    if BE(a) == BE(b) { BEInjective(a, b); }
  }

  // ----- openings of a tree -----

  type Leaves = nat -> Digest

  /** The node at height h, index i from the left. */
  function TreeNode(hash: Hasher, leaves: Leaves, h: nat, i: nat): Digest {
    if h == 0 then leaves(i)
    else hash(DomainBlock(1, TreeNode(hash, leaves, h - 1, 2 * i), TreeNode(hash, leaves, h - 1, 2 * i + 1)))
  }

  /** The index beside i. */
  function Beside(i: nat): nat {
    if i % 2 == 0 then i + 1 else i - 1
  }

  /** The index of the ancestor at height h of the leaf at a place. */
  function Ancestor(place: nat, h: nat): nat {
    place / Pow(2, h)
  }

  lemma AncestorUp(place: nat, h: nat)
    ensures Ancestor(place, h + 1) == Ancestor(place, h) / 2
  {
    PowerThenHalf(place, Pow(2, h));
  }

  lemma PowerThenHalf(x: nat, p: nat)
    requires p > 0
    ensures x / p / 2 == x / (2 * p)
  {
    SplitTwice(x, p, x / p, x / p / 2, x / p % 2);
  }

  /** The path turns right at height h exactly where its ancestor below is a right child. */
  lemma TurnsWithPlace(key: Digest, h: nat)
    requires 0 < h <= HEIGHT
    ensures DirectionBit(key, h) <==> Ancestor(BE(key), h - 1) % 2 == 1
  {
    TurnIsBit(key, h);
    BitIs(BE(key), h - 1);
  }

  /** The opening of the leaf at a place, in a tree of some height: its branch, and the subtrees beside it. */
  ghost predicate Opens(hash: Hasher, leaves: Leaves, p: Path, place: nat, top: nat) {
    && (forall h: nat :: h <= top && h < NODES ==> p.nodes[h] == TreeNode(hash, leaves, h, Ancestor(place, h)))
    && (forall h: nat :: h < top && h < HEIGHT ==> p.siblings[h] == TreeNode(hash, leaves, h, Beside(Ancestor(place, h))))
    && p.root == TreeNode(hash, leaves, top, 0)
  }

  /** The children of an ancestor are the ancestor below and the node beside it, on the side the path says. */
  lemma Children(place: nat, h: nat, i: nat, up: nat)
    requires h > 0 && i == Ancestor(place, h - 1) && up == Ancestor(place, h)
    ensures if i % 2 == 1 then 2 * up == Beside(i) && 2 * up + 1 == i else 2 * up == i && 2 * up + 1 == Beside(i)
  {
    AncestorUp(place, h - 1);
  }

  lemma ParentNode(hash: Hasher, leaves: Leaves, h: nat, up: nat, left: Digest, right: Digest)
    requires h > 0 && left == TreeNode(hash, leaves, h - 1, 2 * up) && right == TreeNode(hash, leaves, h - 1, 2 * up + 1)
    ensures TreeNode(hash, leaves, h, up) == hash(DomainBlock(1, left, right))
  {
  }

  lemma ParentBlock(hash: Hasher, leaves: Leaves, p: Path, place: nat, top: nat, h: nat)
    requires Opens(hash, leaves, p, place, top) && 0 < h <= top && h < NODES && place == BE(p.key)
    ensures p.nodes[h] == hash(BlockAt(p, h))
  {
    var i, up := Ancestor(place, h - 1), Ancestor(place, h);
    var node, sibling := p.nodes[h - 1], p.siblings[h - 1];
    Children(place, h, i, up);
    TurnsWithPlace(p.key, h);
    if i % 2 == 1 {
      ParentNode(hash, leaves, h, up, sibling, node);
    } else {
      ParentNode(hash, leaves, h, up, node, sibling);
    }
  }

  lemma RootIndex(place: nat, top: nat)
    requires place < Pow(2, top)
    ensures Ancestor(place, top) == 0
  {
    DivModUnique(place, Pow(2, top), 0, place);
  }

  lemma LeafNode(hash: Hasher, leaves: Leaves, p: Path, place: nat, top: nat)
    requires Opens(hash, leaves, p, place, top) && leaves(place) == hash(DomainBlock(0, p.key, p.value))
    ensures p.nodes[0] == hash(BlockAt(p, 0))
  {
    assert Ancestor(place, 0) == place;
  }

  lemma BranchNode(hash: Hasher, leaves: Leaves, p: Path, place: nat, top: nat, h: nat)
    requires Opens(hash, leaves, p, place, top) && h <= top && h < NODES && place == BE(p.key)
    requires leaves(place) == hash(DomainBlock(0, p.key, p.value))
    ensures p.nodes[h] == hash(BlockAt(p, h))
  {
    if h == 0 {
      LeafNode(hash, leaves, p, place, top);
    } else {
      ParentBlock(hash, leaves, p, place, top, h);
    }
  }

  lemma RootNode(hash: Hasher, leaves: Leaves, p: Path, place: nat, top: nat)
    requires Opens(hash, leaves, p, place, top) && place < Pow(2, top) && top < NODES
    ensures p.nodes[top] == p.root
  {
    RootIndex(place, top);
  }

  /** In any tree of height 256, the opening of the leaf of a key, where it holds the key's value, is authentic. */
  lemma OpeningIsAuthentic(hash: Hasher, leaves: Leaves, p: Path, top: nat)
    requires top == 256 && Opens(hash, leaves, p, BE(p.key), top)
    requires leaves(BE(p.key)) == hash(DomainBlock(0, p.key, p.value))
    ensures Authentic(hash, p)
  {
    KeyBelow(p.key, top);
    RootNode(hash, leaves, p, BE(p.key), top);
    forall h: nat | h < NODES ensures p.nodes[h] == hash(BlockAt(p, h)) {
      BranchNode(hash, leaves, p, BE(p.key), top, h);
    }
  }
}
