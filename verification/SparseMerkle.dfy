/**
 * Fixed-value sparse-Merkle paths (src/blake2b_smt_witness.rs) and their batches
 * (src/blake2b_lookup_compression.rs). Main results: a node is BLAKE2b-256 of its 65 bytes; two paths with one
 * key and one root are equal or exhibit a hash collision; where the sums of a verified batch cancel, it splits into
 * authentic paths. The verifier does not check that they do, and then accepts any nodes.
 */
module SparseMerkle {
  import opened Arith
  import opened Words
  import opened Rfc7693
  import opened Blake2bScheduler
  import opened Blake2bHash
  import Blake2bAccepted
  import opened Wrappers
  import Blake2bG
  import Blake2bGProof
  import Bits

  const HEIGHT: nat := 256
  const NODES: nat := 257
  const INPUT_BYTES: nat := 65

  datatype RawPath = RawPath(key: Digest, value: Digest, siblings: seq<Digest>, nodes: seq<Digest>, root: Digest)

  type Path = p: RawPath | |p.siblings| == HEIGHT && |p.nodes| == NODES
    witness RawPath(seq(32, _ => 0), seq(32, _ => 0), seq(256, _ => seq(32, _ => 0)), seq(257, _ => seq(32, _ => 0)), seq(32, _ => 0))

  /** Key bits are big-endian, siblings bottom-up: the first parent takes bit 255 of the key. */
  function DirectionBit(key: Digest, height: nat): bool
    requires 0 < height <= HEIGHT
  {
    var index := HEIGHT - height;
    Bits.Bit(key[index / 8], 7 - index % 8) == 1
  }

  const LEAF_DOMAIN: Byte := 0
  const INTERNAL_DOMAIN: Byte := 1

  /** A domain byte and two digests, zero padded to a block. */
  function DomainBlock(domain: Byte, left: Digest, right: Digest): Block {
    [domain] + left + right + seq(63, _ => 0)
  }

  /** The block hashed at height i of a path. */
  function BlockAt(p: Path, i: nat): Block
    requires i < NODES
  {
    if i == 0 then DomainBlock(LEAF_DOMAIN, p.key, p.value)
    else if DirectionBit(p.key, i) then DomainBlock(INTERNAL_DOMAIN, p.siblings[i - 1], p.nodes[i - 1])
    else DomainBlock(INTERNAL_DOMAIN, p.nodes[i - 1], p.siblings[i - 1])
  }

  function Blocks(p: Path): (b: seq<Block>)
    ensures |b| == NODES
  {
    seq(NODES, i requires 0 <= i < NODES => BlockAt(p, i))
  }

  /** Every node is the hash of its block and the last one is the root. */
  ghost predicate Authentic(hash: Hasher, p: Path) {
    (forall i: nat :: i < NODES ==> p.nodes[i] == hash(BlockAt(p, i))) && p.nodes[HEIGHT] == p.root
  }

  // ----- position binding -----

  lemma BlockInjective(d: Byte, l: Digest, r: Digest, d': Byte, l': Digest, r': Digest)
    requires DomainBlock(d, l, r) == DomainBlock(d', l', r')
    ensures d == d' && l == l' && r == r'
  {
    var b, b' := DomainBlock(d, l, r), DomainBlock(d', l', r');
    assert b[0] == d && b'[0] == d' && b[1..33] == l && b'[1..33] == l' && b[33..65] == r && b'[33..65] == r';
  }

  /** No leaf block is an internal block: they start with a zero and with a one. */
  lemma DomainsSeparate(p: Path, q: Path, i: nat)
    requires 0 < i < NODES
    ensures BlockAt(p, 0)[0] == 0 && BlockAt(q, i)[0] == 1 && BlockAt(p, 0) != BlockAt(q, i)
  {
    assert BlockAt(p, 0)[0] == LEAF_DOMAIN && BlockAt(q, i)[0] == INTERNAL_DOMAIN;
  }

  /** Blocks at height i that differ but hash to the same node. */
  ghost predicate CollidesAt(hash: Hasher, p: Path, q: Path, i: nat) {
    i < NODES && BlockAt(p, i) != BlockAt(q, i) && hash(BlockAt(p, i)) == hash(BlockAt(q, i))
  }

  ghost predicate Collide(hash: Hasher, p: Path, q: Path) {
    exists i: nat :: CollidesAt(hash, p, q, i)
  }

  /** Below an equal node either a collision or equal children. */
  lemma ChildrenEqual(hash: Hasher, p: Path, q: Path, i: nat)
    requires Authentic(hash, p) && Authentic(hash, q) && p.key == q.key && 0 < i < NODES && p.nodes[i] == q.nodes[i]
    requires !Collide(hash, p, q)
    ensures p.nodes[i - 1] == q.nodes[i - 1] && p.siblings[i - 1] == q.siblings[i - 1]
  {
    assert !CollidesAt(hash, p, q, i);
    if DirectionBit(p.key, i) {
      BlockInjective(INTERNAL_DOMAIN, p.siblings[i - 1], p.nodes[i - 1], INTERNAL_DOMAIN, q.siblings[i - 1], q.nodes[i - 1]);
    } else {
      BlockInjective(INTERNAL_DOMAIN, p.nodes[i - 1], p.siblings[i - 1], INTERNAL_DOMAIN, q.nodes[i - 1], q.siblings[i - 1]);
    }
  }

  /** Downward from the root, height by height. */
  lemma {:induction false} NodesEqual(hash: Hasher, p: Path, q: Path, i: nat)
    requires Authentic(hash, p) && Authentic(hash, q) && p.key == q.key && p.root == q.root && !Collide(hash, p, q) && i < NODES
    ensures p.nodes[i] == q.nodes[i] && (i < HEIGHT ==> p.siblings[i] == q.siblings[i])
    decreases HEIGHT - i
  {
    if i < HEIGHT {
      NodesEqual(hash, p, q, i + 1);
      ChildrenEqual(hash, p, q, i + 1);
    }
  }

  /** Two authentic paths with one key and one root are the same path, or show two blocks with one hash. */
  lemma PositionBinding(hash: Hasher, p: Path, q: Path)
    requires Authentic(hash, p) && Authentic(hash, q) && p.key == q.key && p.root == q.root
    ensures p == q || Collide(hash, p, q)
  {
    if !Collide(hash, p, q) {
      forall i: nat | i < NODES ensures p.nodes[i] == q.nodes[i] && (i < HEIGHT ==> p.siblings[i] == q.siblings[i]) {
        NodesEqual(hash, p, q, i);
      }
      assert p.nodes == q.nodes && p.siblings == q.siblings;
      assert !CollidesAt(hash, p, q, 0);
      BlockInjective(LEAF_DOMAIN, p.key, p.value, LEAF_DOMAIN, q.key, q.value);
    }
  }

  // ----- nodes are BLAKE2b-256 -----

  /** The vector of a single final block of 65 bytes. */
  function FixedV(): State {
    var h := StandardInitialH();
    var v: State := h + BLAKE2B_IV;
    var counted := v[12 := Xor64(v[12], INPUT_BYTES)];
    counted[14 := ALL_ONES - counted[14]]
  }

  function NodeHash(): Hasher {
    HashFrom(FixedV())
  }

  lemma FixedIsInitial()
    ensures FixedV() == InitialV(BLAKE2B_IV, StartValue(), INPUT_BYTES, true)
  {
  }

  lemma SixtyFive(message: seq<Byte>, b: Block)
    requires |message| == INPUT_BYTES && b == message + seq(63, _ => 0)
    ensures BlockCount(|message|) == 1 && PaddedBlock(message, 0) == b
  {
  }

  lemma OneBlock(compress: Compressor, iv: Hash, start: Hash, words: nat -> State, length: nat)
    requires BlockCount(length) == 1 && length < W64
    ensures Chain(compress, iv, start, words, 1, length, 1) == compress(InitialV(iv, start, length, true), words(0))
  {
    InitialIsLocal(iv, start, length, true);
  }

  /** A node is the BLAKE2b-256 hash of its domain byte and two digests. */
  lemma NodeIsBlake2b(domain: Byte, left: Digest, right: Digest)
    ensures NodeHash()(DomainBlock(domain, left, right)) == Blake2b256([domain] + left + right)
  {
    var message := [domain] + left + right;
    SixtyFive(message, DomainBlock(domain, left, right));
    FixedIsInitial();
    OneBlock(CompressG(), BLAKE2B_IV, StartValue(), BlockWords(message), INPUT_BYTES);
  }

  // ----- batches -----

  datatype Batch = Batch(messages: seq<Block>, digests: seq<Digest>)

  /** Path k of a batch stands at blocks 257 k and following. */
  ghost predicate StandsAt(b: Batch, p: Path, k: nat) {
    && NODES * k + NODES <= |b.messages| == |b.digests|
    && b.messages[NODES * k..NODES * k + NODES] == Blocks(p)
    && b.digests[NODES * k..NODES * k + NODES] == p.nodes
  }

  ghost predicate Laid(b: Batch, paths: seq<Path>) {
    && |b.messages| == |b.digests| == NODES * |paths|
    && forall k: nat :: k < |paths| ==> StandsAt(b, paths[k], k)
  }

  lemma StandsStill(b: Batch, p: Path, k: nat, m: seq<Block>, d: seq<Digest>)
    requires StandsAt(b, p, k) && |m| == |d|
    ensures StandsAt(Batch(b.messages + m, b.digests + d), p, k)
  {
    assert (b.messages + m)[NODES * k..NODES * k + NODES] == b.messages[NODES * k..NODES * k + NODES];
    assert (b.digests + d)[NODES * k..NODES * k + NODES] == b.digests[NODES * k..NODES * k + NODES];
  }

  lemma LaidMore(b: Batch, paths: seq<Path>, p: Path)
    requires Laid(b, paths)
    ensures Laid(Batch(b.messages + Blocks(p), b.digests + p.nodes), paths + [p])
  {
    var c, n := Batch(b.messages + Blocks(p), b.digests + p.nodes), |paths|;
    forall k: nat | k < n + 1 ensures StandsAt(c, (paths + [p])[k], k) {
      if k < n {
        StandsStill(b, paths[k], k, Blocks(p), p.nodes);
      } else {
        assert c.messages[NODES * n..NODES * n + NODES] == Blocks(p);
        assert c.digests[NODES * n..NODES * n + NODES] == p.nodes;
      }
    }
  }

  /** Concatenate the blocks and nodes of every path; an empty batch or a detached root is refused. */
  method PathsMessagesAndDigests(paths: seq<Path>) returns (r: Option<Batch>)
    ensures r.Some? <==> |paths| > 0 && forall k: nat :: k < |paths| ==> paths[k].nodes[HEIGHT] == paths[k].root
    ensures r.Some? ==> Laid(r.value, paths)
  {
    if |paths| == 0 { return None; }
    var messages: seq<Block>, digests: seq<Digest> := [], [];
    for i := 0 to |paths|
      invariant Laid(Batch(messages, digests), paths[..i])
      invariant forall k: nat :: k < i ==> paths[k].nodes[HEIGHT] == paths[k].root
    {
      if paths[i].nodes[HEIGHT] != paths[i].root { return None; }
      LaidMore(Batch(messages, digests), paths[..i], paths[i]);
      assert paths[..i] + [paths[i]] == paths[..i + 1];
      messages, digests := messages + Blocks(paths[i]), digests + paths[i].nodes;
    }
    assert paths[..|paths|] == paths;
    return Some(Batch(messages, digests));
  }

  /** Every block of a batch whose statement holds hashes to its digest. */
  ghost predicate BatchHashes(hash: Hasher, b: Batch) {
    |b.messages| == |b.digests| && forall i: nat :: i < |b.messages| ==> b.digests[i] == hash(b.messages[i])
  }

  /** A batch splits back into individually authentic paths. */
  lemma BatchSplits(hash: Hasher, b: Batch, paths: seq<Path>, k: nat)
    requires Laid(b, paths) && BatchHashes(hash, b) && k < |paths| && paths[k].nodes[HEIGHT] == paths[k].root
    ensures Authentic(hash, paths[k])
  {
    var p := paths[k];
    assert StandsAt(b, p, k);
    forall i: nat | i < NODES ensures p.nodes[i] == hash(BlockAt(p, i)) {
      assert b.messages[NODES * k..NODES * k + NODES][i] == Blocks(p)[i];
      assert b.digests[NODES * k..NODES * k + NODES][i] == p.nodes[i];
      assert b.digests[NODES * k + i] == hash(b.messages[NODES * k + i]);
    }
  }

  /** A batch whose statement was verified over one vector hashes every block to its digest, from that vector. */
  lemma StatementHashes(v: State, st: Statement, b: Batch)
    requires Accepts(st) && st.messages == b.messages && st.digests == b.digests
    requires forall i: nat :: i < |st.messages| ==> IsCompression(G, DataOf(st, i)) && st.initial[i] == v
    ensures BatchHashes(HashFrom(v), b)
  {
    forall i: nat | i < |b.messages| ensures b.digests[i] == HashFrom(v)(b.messages[i]) {
      VerifiedBlockHashes(st, i);
      assert BlockHashes(st.initial, st.messages, st.digests, i);
    }
  }

  /** From byte constraints to paths: with the guard, a batch verified over one vector has authentic paths for that vector's hash. */
  lemma ConstraintsForcePaths(v: State, st: Statement, rows: seq<Blake2bG.Row>, trace: seq<TraceRow>, mult: nat -> int,
                              b: Batch, paths: seq<Path>, k: nat)
    requires Verified(st, rows, trace, mult) && Blake2bGProof.Fits(|rows|) && SumsCancel(st, |trace|)
    requires st.messages == b.messages && st.digests == b.digests && forall i: nat :: i < |st.initial| ==> st.initial[i] == v
    requires Laid(b, paths) && k < |paths| && paths[k].nodes[HEIGHT] == paths[k].root
    ensures Authentic(HashFrom(v), paths[k])
  {
    ConstraintsForceBlocks(st, rows, trace, mult);
    StatementHashes(v, st, b);
    BatchSplits(HashFrom(v), b, paths, k);
  }

  /** Over the fixed vector the hash is BLAKE2b-256 of 65 bytes. */
  lemma FixedVectorPaths(st: Statement, rows: seq<Blake2bG.Row>, trace: seq<TraceRow>, mult: nat -> int, b: Batch, paths: seq<Path>, k: nat)
    requires Verified(st, rows, trace, mult) && Blake2bGProof.Fits(|rows|) && SumsCancel(st, |trace|)
    requires st.messages == b.messages && st.digests == b.digests && forall i: nat :: i < |st.initial| ==> st.initial[i] == FixedV()
    requires Laid(b, paths) && k < |paths| && paths[k].nodes[HEIGHT] == paths[k].root
    ensures Authentic(NodeHash(), paths[k])
  {
    ConstraintsForcePaths(FixedV(), st, rows, trace, mult, b, paths, k);
  }

  // ----- other vectors -----

  /** The block of a path of a batch, from its place. */
  lemma BatchJoins(hash: Hasher, b: Batch, paths: seq<Path>, i: nat)
    requires Laid(b, paths) && i < |b.messages| && forall k: nat :: k < |paths| ==> Authentic(hash, paths[k])
    ensures b.digests[i] == hash(b.messages[i])
  {
    var k, j := i / NODES, i % NODES;
    PathInside(|paths|, i);
    assert StandsAt(b, paths[k], k) && Authentic(hash, paths[k]);
    assert b.messages[NODES * k..NODES * k + NODES][j] == Blocks(paths[k])[j];
    assert b.digests[NODES * k..NODES * k + NODES][j] == paths[k].nodes[j];
  }

  lemma PathInside(paths: nat, i: nat)
    requires i < NODES * paths
    ensures i / NODES < paths && i == NODES * (i / NODES) + i % NODES
  {
  }

  /** One vector for every block. */
  ghost predicate AllFrom(initial: seq<State>, v: State, n: nat) {
    |initial| == n && forall i: nat :: i < n ==> initial[i] == v
  }

  lemma BlocksHashIsBatch(hash: Hasher, v: State, initial: seq<State>, b: Batch)
    requires AllFrom(initial, v, |b.messages|) && hash == HashFrom(v)
    ensures BlocksHash(initial, b.messages, b.digests) <==> BatchHashes(hash, b)
  {
    if BlocksHash(initial, b.messages, b.digests) {
      forall i: nat | i < |b.messages| ensures b.digests[i] == hash(b.messages[i]) {
        assert BlockHashes(initial, b.messages, b.digests, i);
      }
    }
    if BatchHashes(hash, b) {
      forall i: nat | i < |b.messages| ensures BlockHashes(initial, b.messages, b.digests, i) {
        assert b.digests[i] == hash(b.messages[i]);
      }
    }
  }

  /** A batch hashes to its digests exactly when all its paths are authentic. */
  lemma BatchIsPaths(hash: Hasher, b: Batch, paths: seq<Path>)
    requires Laid(b, paths) && forall k: nat :: k < |paths| ==> paths[k].nodes[HEIGHT] == paths[k].root
    ensures BatchHashes(hash, b) <==> forall k: nat :: k < |paths| ==> Authentic(hash, paths[k])
  {
    if BatchHashes(hash, b) {
      forall k: nat | k < |paths| ensures Authentic(hash, paths[k]) {
        BatchSplits(hash, b, paths, k);
      }
    }
    if forall k: nat :: k < |paths| ==> Authentic(hash, paths[k]) {
      forall i: nat | i < |b.messages| ensures b.digests[i] == hash(b.messages[i]) {
        BatchJoins(hash, b, paths, i);
      }
    }
  }

  /**
   * With the guard, a batch over vectors all equal to v is accepted exactly when every path is authentic for the hash
   * from v: the verifier does not compare v with the fixed vector.
   */
  lemma PathsAcceptedIff(v: State, initial: seq<State>, b: Batch, paths: seq<Path>, rows: nat)
    requires Laid(b, paths) && |paths| > 0 && forall k: nat :: k < |paths| ==> paths[k].nodes[HEIGHT] == paths[k].root
    requires AllFrom(initial, v, |b.messages|) && G_ROWS * |b.messages| <= rows && Blake2bGProof.Fits(rows)
    ensures SomeGuarded(b.messages, b.digests, initial, rows)
      <==> forall k: nat :: k < |paths| ==> Authentic(HashFrom(v), paths[k])
  {
    VerifiedIff(b.messages, b.digests, initial, rows);
    BlocksHashIsBatch(HashFrom(v), v, initial, b);
    BatchIsPaths(HashFrom(v), b, paths);
  }

  /** As it stands, the verifier accepts a batch of any paths over any vectors, whatever their nodes. */
  lemma AnyPathsAccepted(initial: seq<State>, b: Batch, paths: seq<Path>, rows: nat)
    requires Laid(b, paths) && |paths| > 0 && |initial| == |b.messages|
    requires G_ROWS * |b.messages| <= rows && Blake2bGProof.Fits(rows)
    ensures SomeVerified(b.messages, b.digests, initial, rows)
  {
    Blake2bAccepted.VerifiedIffLengths(b.messages, b.digests, initial, rows);
  }

  /** The nodes up to height n, hashed bottom-up. */
  function NodesUpTo(hash: Hasher, key: Digest, value: Digest, siblings: seq<Digest>, n: nat): (nodes: seq<Digest>)
    requires |siblings| == HEIGHT && n < NODES
    ensures |nodes| == n + 1
  {
    if n == 0 then [hash(DomainBlock(LEAF_DOMAIN, key, value))]
    else
      var below := NodesUpTo(hash, key, value, siblings, n - 1);
      below + [hash(if DirectionBit(key, n) then DomainBlock(INTERNAL_DOMAIN, siblings[n - 1], below[n - 1])
                    else DomainBlock(INTERNAL_DOMAIN, below[n - 1], siblings[n - 1]))]
  }

  lemma {:induction false} NodeAt(hash: Hasher, p: Path, n: nat, i: nat)
    requires i <= n < NODES && p.nodes[..n + 1] == NodesUpTo(hash, p.key, p.value, p.siblings, n)
    ensures p.nodes[i] == hash(BlockAt(p, i))
  {
    var below := if n == 0 then [] else NodesUpTo(hash, p.key, p.value, p.siblings, n - 1);
    if n > 0 {
      assert p.nodes[..n] == p.nodes[..n + 1][..n] == below;
      assert p.nodes[n - 1] == below[n - 1];
    }
    if i < n {
      NodeAt(hash, p, n - 1, i);
    } else {
      assert p.nodes[n] == p.nodes[..n + 1][n];
    }
  }

  /** The path with these contents whose nodes are hashed by `hash`. */
  lemma PathFrom(hash: Hasher, key: Digest, value: Digest, siblings: seq<Digest>) returns (p: Path)
    requires |siblings| == HEIGHT
    ensures p.key == key && p.value == value && p.siblings == siblings && Authentic(hash, p)
  {
    var nodes := NodesUpTo(hash, key, value, siblings, HEIGHT);
    p := RawPath(key, value, siblings, nodes, nodes[HEIGHT]);
    assert p.nodes[..NODES] == nodes;
    forall i: nat | i < NODES ensures p.nodes[i] == hash(BlockAt(p, i)) {
      NodeAt(hash, p, HEIGHT, i);
    }
  }

  lemma SinglePath(p: Path)
    ensures Laid(Batch(Blocks(p), p.nodes), [p])
  {
    var b := Batch(Blocks(p), p.nodes);
    assert b.messages[0..NODES] == b.messages && b.digests[0..NODES] == b.digests;
    assert StandsAt(b, p, 0);
  }

  /** For every vector, key, value and siblings there is a path that is accepted over that vector, the guard included. */
  lemma EveryVectorAccepted(v: State, initial: seq<State>, key: Digest, value: Digest, siblings: seq<Digest>, rows: nat) returns (p: Path)
    requires |siblings| == HEIGHT && AllFrom(initial, v, NODES) && G_ROWS * NODES <= rows && Blake2bGProof.Fits(rows)
    ensures p.key == key && p.value == value && p.siblings == siblings && Authentic(HashFrom(v), p)
    ensures SomeGuarded(Blocks(p), p.nodes, initial, rows)
  {
    p := PathFrom(HashFrom(v), key, value, siblings);
    SinglePath(p);
    PathsAcceptedIff(v, initial, Batch(Blocks(p), p.nodes), [p], rows);
  }
}
