/**
 * Standard BLAKE2b-256 over any byte string, as a chain of compressions (src/blake2b_lookup_compression.rs).
 * Main results: an archive that passes the chain checks, with every block a true compression, carries the
 * digest of section 3.3 of RFC 7693; the planner's own archive always passes, whatever the length; what the verifier
 * accepts is exactly the wired statements, whose hash words are free; and where the two sums it recomputes cancel,
 * which it does not check, exactly the true ones.
 */
module Blake2bHash {
  import opened Arith
  import opened Words
  import opened Rfc7693
  import opened Blake2bScheduler
  import opened Blake2bSchedulerTrace
  import Blake2bG
  import Blake2bGProof
  import SchedulerLookups

  const BLAKE2B_IV: Hash := [
    0x6a09_e667_f3bc_c908, 0xbb67_ae85_84ca_a73b, 0x3c6e_f372_fe94_f82b, 0xa54f_f53a_5f1d_36f1,
    0x510e_527f_ade6_82d1, 0x9b05_688c_2b3e_6c1f, 0x1f83_d9ab_fb41_bd6b, 0x5be0_cd19_137e_2179]

  /** q is the integral part of the square root of n. */
  predicate IsRoot(q: nat, n: nat) {
    q * q <= n < (q + 1) * (q + 1)
  }

  /** w is the first 64 bits of the fractional part of the square root of p, whose integral part is r. */
  predicate IsRootWord(p: nat, r: nat, w: U64) {
    IsRoot(r * W64 + w, p * (W64 * W64))
  }

  /** Section 2.6 of RFC 7693: the words come from the square roots of the first eight primes. */
  lemma IvIsRoots()
    ensures IsRootWord(2, 1, BLAKE2B_IV[0]) && IsRootWord(3, 1, BLAKE2B_IV[1])
    ensures IsRootWord(5, 2, BLAKE2B_IV[2]) && IsRootWord(7, 2, BLAKE2B_IV[3])
    ensures IsRootWord(11, 3, BLAKE2B_IV[4]) && IsRootWord(13, 3, BLAKE2B_IV[5])
    ensures IsRootWord(17, 4, BLAKE2B_IV[6]) && IsRootWord(19, 4, BLAKE2B_IV[7])
  {
  }

  /** There is only one such word over an integral part, `base` in units of the last bit. */
  lemma RootWordUnique(n: nat, base: nat, v: nat, w: nat)
    requires IsRoot(base + v, n) && IsRoot(base + w, n)
    ensures v == w
  {
    if v < w { SquareMono(base + v + 1, base + w); }
    if w < v { SquareMono(base + w + 1, base + v); }
  }

  lemma SquareMono(a: nat, b: nat)
    requires a <= b
    ensures a * a <= b * b
  {
    MulMono(a, a, b);
    MulMono(b, a, b);
  }

  const PARAMETER_WORD: U64 := 0x0101_0020
  const ALL_ONES: U64 := 0xffff_ffff_ffff_ffff

  // ----- the hash of section 3.3, for any mixing function -----

  /** The local vector of F: chaining value, IV, 128-bit offset counter and final flag (section 3.2). */
  function LocalVector(iv: Hash, h: Hash, t: nat, last: bool): State {
    var v: State := h + iv;
    v[12 := Xor64(v[12], t % W64)][13 := Xor64(v[13], (t / W64) % W64)]
     [14 := if last then Xor64(v[14], ALL_ONES) else v[14]]
  }

  type Compressor = (State, State) -> Hash

  /** The chaining value after i of n blocks of a message of `length` bytes. */
  function Chain(compress: Compressor, iv: Hash, start: Hash, words: nat -> State, n: nat, length: nat, i: nat): Hash {
    if i == 0 then start
    else
      var h := Chain(compress, iv, start, words, n, length, i - 1);
      compress(LocalVector(iv, h, if i < n then 128 * i else length, i == n), words(i - 1))
  }

  /** Parameter block word for 32 digest bytes, no key, sequential mode: 0x01010000 ^ (kk << 8) ^ nn. */
  function StartValue(): Hash {
    BLAKE2B_IV[0 := Xor64(BLAKE2B_IV[0], 0x0101_0000 + 32)]
  }

  /** Blocks of a message: 128 bytes each, zero padded, one block for the empty message. */
  function BlockCount(length: nat): (n: nat)
    ensures n > 0 && 128 * (n - 1) <= length <= 128 * n && (length > 0 ==> 128 * (n - 1) < length)
  {
    if length == 0 then 1 else (length + 127) / 128
  }

  function PaddedMessage(message: seq<Byte>): (p: seq<Byte>)
    ensures |p| == 128 * BlockCount(|message|)
  {
    message + seq(128 * BlockCount(|message|) - |message|, _ => 0)
  }

  function PaddedBlock(message: seq<Byte>, i: nat): Block
    requires i < BlockCount(|message|)
  {
    PaddedMessage(message)[128 * i..128 * i + 128]
  }

  function BlockWords(message: seq<Byte>): nat -> State {
    (i: nat) => if i < BlockCount(|message|) then MessageWords(PaddedBlock(message, i)) else Blank(16)
  }

  function CompressG(): Compressor {
    (v: State, m: State) => Compress(MIX_G, v, m)
  }

  function Bytes(ws: seq<U64>): (b: seq<Byte>)
    ensures |b| == 8 * |ws|
  {
    if ws == [] then [] else ToLE(ws[0], 8) + Bytes(ws[1..])
  }

  /** BLAKE2b-256 of a message: the first 32 bytes of the final chaining value, little-endian. */
  function Blake2b256(message: seq<Byte>): Digest {
    var n := BlockCount(|message|);
    Bytes(Chain(CompressG(), BLAKE2B_IV, StartValue(), BlockWords(message), n, |message|, n)[..4])
  }

  // ----- the program's own block and vector builders -----

  /** Copy the block's bytes into a zeroed block. */
  function HashBlock(message: seq<Byte>, i: nat): Block {
    var start := 128 * i;
    var end := if |message| < start + 128 then |message| else start + 128;
    if start < end then message[start..end] + seq(128 - (end - start), _ => 0) else seq(128, _ => 0)
  }

  /** Byte by byte the blocks are the message, and zeros after it. */
  ghost predicate IsBlocks(message: seq<Byte>, blocks: seq<Block>) {
    && 0 < |blocks| && |message| <= 128 * |blocks| && (|blocks| == 1 || 128 * (|blocks| - 1) < |message|)
    && forall i: nat, j: nat :: i < |blocks| && j < 128 ==>
      blocks[i][j] == if 128 * i + j < |message| then message[128 * i + j] else 0
  }

  method HashMessages(message: seq<Byte>) returns (blocks: seq<Block>)
    ensures blocks == MessagesOf(message) && IsBlocks(message, blocks)
  {
    var n := ((if |message| < 1 then 1 else |message|) + 127) / 128;
    blocks := [];
    for i := 0 to n
      invariant |blocks| == i && forall k: nat :: k < i ==> blocks[k] == HashBlock(message, k)
    {
      blocks := blocks + [HashBlock(message, i)];
    }
    forall k: nat | k < n ensures HashBlock(message, k) == PaddedBlock(message, k) {
      BlockIsPadded(message, k);
    }
    BlocksAreMessage(message, blocks);
  }

  lemma BlocksAreMessage(message: seq<Byte>, blocks: seq<Block>)
    requires blocks == MessagesOf(message)
    ensures IsBlocks(message, blocks)
  {
    forall i: nat, j: nat | i < |blocks| && j < 128
      ensures blocks[i][j] == if 128 * i + j < |message| then message[128 * i + j] else 0
    {
      assert blocks[i][j] == PaddedMessage(message)[128 * i + j];
    }
  }

  function MessagesOf(message: seq<Byte>): (b: seq<Block>)
    ensures |b| == BlockCount(|message|)
  {
    seq(BlockCount(|message|), i requires 0 <= i < BlockCount(|message|) => PaddedBlock(message, i))
  }

  lemma BlockIsPadded(message: seq<Byte>, i: nat)
    requires i < BlockCount(|message|)
    ensures HashBlock(message, i) == PaddedBlock(message, i)
  {
  }

  /** The local vector as the program builds it, for byte counts below 2^64. */
  function InitialV(iv: Hash, h: Hash, counter: U64, last: bool): State {
    var v: State := h + iv;
    var counted := v[12 := Xor64(v[12], counter)];
    if last then counted[14 := ALL_ONES - counted[14]] else counted
  }

  lemma {:induction false} XorOnes(k: nat, x: nat)
    requires x < Pow(2, k)
    ensures Xor(k, x, Pow(2, k) - 1) == Pow(2, k) - 1 - x
  {
    if k > 0 {
      XorOnes(k - 1, x / 2);
      OnesStep(x, Pow(2, k - 1));
    }
  }

  lemma OnesStep(x: nat, p: nat)
    requires p > 0
    ensures (2 * p - 1) / 2 == p - 1 && (x + (2 * p - 1)) % 2 + 2 * (p - 1 - x / 2) == 2 * p - 1 - x
  {
    Flip(x / 2, x % 2, p);
  }

  lemma Flip(y: nat, b: nat, p: nat)
    requires b < 2 && p > 0
    ensures (2 * y + b + (2 * p - 1)) % 2 == 1 - b && (2 * p - 1) / 2 == p - 1
  {
    DivModUnique(2 * y + b + (2 * p - 1), 2, y + p - 1 + b, 1 - b);
    DivModUnique(2 * p - 1, 2, p - 1, 1);
  }

  lemma Complement(x: U64)
    ensures Xor64(x, ALL_ONES) == ALL_ONES - x && Xor64(x, 0) == x
  {
    PowBytes(8);
    Pow256Eight();
    XorOnes(64, x);
    XorZero(64, x);
  }

  /** The program's vector is the one the RFC prescribes. */
  lemma InitialIsLocal(iv: Hash, h: Hash, counter: U64, last: bool)
    ensures InitialV(iv, h, counter, last) == LocalVector(iv, h, counter, last)
  {
    var v: State := h + iv;
    SmallMod(counter, W64);
    Complement(v[13]);
    Complement(v[14]);
  }

  function StandardInitialH(): (h: Hash)
    ensures h == StartValue()
  {
    BLAKE2B_IV[0 := Xor64(BLAKE2B_IV[0], PARAMETER_WORD)]
  }

  function Counter(length: nat, i: nat): (c: nat)
    ensures c <= length
  {
    if length < 128 * (i + 1) then length else 128 * (i + 1)
  }

  lemma CounterIs(length: nat, i: nat)
    requires i < BlockCount(length)
    ensures Counter(length, i) == if i + 1 < BlockCount(length) then 128 * (i + 1) else length
  {
  }

  // ----- archives and their checks -----

  datatype Archive = Archive(message: seq<Byte>, digest: Digest, compression: Statement)

  /** Block i has the counter, final flag and chain flag the message length prescribes. */
  ghost predicate BlockAbi(iv: Hash, length: nat, initial: State, chained: bool, i: nat) {
    var n, counter := BlockCount(length), Counter(length, i);
    && counter < W64 && initial[8..] == InitialV(iv, Blank(8), counter, i + 1 == n)[8..]
    && chained == (i + 1 < n)
  }

  /** The checks made on a hash archive before its compression proof is verified. */
  ghost predicate ChainAbi(a: Archive) {
    var st, n := a.compression, BlockCount(|a.message|);
    && st.messages == MessagesOf(a.message) && |st.initial| == |st.chain| == |st.digests| == n
    && (forall i: nat :: i < n ==> BlockAbi(BLAKE2B_IV, |a.message|, st.initial[i], st.chain[i], i))
    && st.initial[0][..8] == StandardInitialH() && st.digests[n - 1] == a.digest
  }

  ghost predicate LinkOk(initial: seq<State>, hashes: seq<Hash>, chain: seq<bool>, i: nat)
    requires i < |chain| == |initial| == |hashes|
  {
    chain[i] ==> i + 1 < |initial| && initial[i + 1][..8] == hashes[i]
  }

  ghost predicate Linked(initial: seq<State>, hashes: seq<Hash>, chain: seq<bool>) {
    && 0 < |initial| == |hashes| == |chain| && !chain[|chain| - 1]
    && forall i: nat :: i < |chain| ==> LinkOk(initial, hashes, chain, i)
  }

  ghost predicate SameWord(initial: seq<State>, hashes: seq<Hash>, i: nat, w: nat)
    requires i + 1 < |initial| == |hashes| && w < 8
  {
    initial[i + 1][w] == hashes[i][w]
  }

  /** Word by word: every chained block's eight hash words open its successor's vector. */
  lemma LinksAreWords(initial: seq<State>, hashes: seq<Hash>, chain: seq<bool>)
    requires 0 < |initial| == |hashes| == |chain| && !chain[|chain| - 1]
    ensures Linked(initial, hashes, chain)
      <==> forall i: nat, w: nat :: i + 1 < |chain| && chain[i] && w < 8 ==> SameWord(initial, hashes, i, w)
  {
    if Linked(initial, hashes, chain) {
      forall i: nat, w: nat | i + 1 < |chain| && chain[i] && w < 8 ensures SameWord(initial, hashes, i, w) {
        assert LinkOk(initial, hashes, chain, i);
        assert initial[i + 1][..8][w] == hashes[i][w];
      }
    }
    if forall i: nat, w: nat :: i + 1 < |chain| && chain[i] && w < 8 ==> SameWord(initial, hashes, i, w) {
      forall i: nat | i < |chain| ensures LinkOk(initial, hashes, chain, i) {
        if chain[i] {
          forall w: nat | w < 8 ensures initial[i + 1][..8][w] == hashes[i][w] {
            assert SameWord(initial, hashes, i, w);
          }
        }
      }
    }
  }

  /** The check of chaining values made before verification: it accepts exactly the linked statements. */
  method ValidateChainingLinks(initial: seq<State>, hashes: seq<Hash>, chain: seq<bool>) returns (ok: bool)
    ensures ok <==> Linked(initial, hashes, chain)
    ensures ok ==> forall i: nat, w: nat :: i + 1 < |chain| && chain[i] && w < 8 ==> SameWord(initial, hashes, i, w)
  {
    if |initial| == 0 || |initial| != |hashes| || |initial| != |chain| || chain[|chain| - 1] { return false; }
    for i := 0 to |initial|
      invariant forall k: nat :: k < i ==> LinkOk(initial, hashes, chain, k)
    {
      if chain[i] && (i + 1 == |initial| || initial[i + 1][..8] != hashes[i]) {
        assert !LinkOk(initial, hashes, chain, i);
        return false;
      }
    }
    LinksAreWords(initial, hashes, chain);
    return true;
  }

  /** The checks of one block: second half of the vector, and chain flag. */
  method CheckBlock(iv: Hash, length: nat, initial: State, chained: bool, i: nat) returns (ok: bool)
    requires length < W64
    ensures ok <==> BlockAbi(iv, length, initial, chained, i)
  {
    var expected := InitialV(iv, Blank(8), Counter(length, i), i + 1 == BlockCount(length));
    ok := initial[8..] == expected[8..] && chained == (i + 1 < BlockCount(length));
  }

  method CheckBlocks(iv: Hash, length: nat, initial: seq<State>, chain: seq<bool>) returns (ok: bool)
    requires length < W64 && |initial| == |chain| == BlockCount(length)
    ensures ok <==> forall i: nat :: i < |initial| ==> BlockAbi(iv, length, initial[i], chain[i], i)
  {
    for i := 0 to |initial|
      invariant forall k: nat :: k < i ==> BlockAbi(iv, length, initial[k], chain[k], k)
    {
      var fits := CheckBlock(iv, length, initial[i], chain[i], i);
      if !fits { return false; }
    }
    return true;
  }

  /** Block by block, the checks made on a hash archive; lengths are byte counts below 2^64. */
  method ValidateHashChainAbi(a: Archive) returns (ok: bool)
    requires |a.message| < W64
    ensures ok <==> ChainAbi(a)
  {
    var st := a.compression;
    var messages := HashMessages(a.message);
    var n := |messages|;
    if st.messages != messages || |st.initial| != n || |st.chain| != n || |st.digests| != n { return false; }
    var fit := CheckBlocks(BLAKE2B_IV, |a.message|, st.initial, st.chain);
    return fit && st.initial[0][..8] == StandardInitialH() && st.digests[n - 1] == a.digest;
  }

  /** The second half of the vector does not depend on the chaining value. */
  lemma TailOnly(iv: Hash, v: State, counter: U64, last: bool)
    requires v[8..] == InitialV(iv, Blank(8), counter, last)[8..]
    ensures v == InitialV(iv, v[..8], counter, last)
  {
    var w := InitialV(iv, v[..8], counter, last);
    forall i: nat | i < 16 ensures v[i] == w[i] {
      if i >= 8 { assert v[8..][i - 8] == InitialV(iv, Blank(8), counter, last)[8..][i - 8]; }
    }
  }

  /** One block of the chain: from the right chaining value, the right vector and so the right hash. */
  lemma ChainStep(compress: Compressor, iv: Hash, start: Hash, words: nat -> State, length: nat, i: nat, initial: State, hash: Hash, chained: bool)
    requires i < BlockCount(length) && BlockAbi(iv, length, initial, chained, i)
    requires initial[..8] == Chain(compress, iv, start, words, BlockCount(length), length, i)
    requires hash == compress(initial, words(i))
    ensures hash == Chain(compress, iv, start, words, BlockCount(length), length, i + 1)
  {
    var n, counter := BlockCount(length), Counter(length, i);
    TailOnly(iv, initial, counter, i + 1 == n);
    InitialIsLocal(iv, initial[..8], counter, i + 1 == n);
    CounterIs(length, i);
  }

  /** What one block of a verified archive satisfies. */
  ghost predicate BlockOk(compress: Compressor, iv: Hash, words: nat -> State, length: nat, st: Statement, i: nat)
    requires Accepts(st) && i < |st.messages|
  {
    && BlockAbi(iv, length, st.initial[i], st.chain[i], i)
    && st.hashes[i] == compress(st.initial[i], words(i))
    && (st.chain[i] ==> st.initial[i + 1][..8] == st.hashes[i])
  }

  lemma {:induction false} ChainForced(compress: Compressor, iv: Hash, start: Hash, words: nat -> State, length: nat, st: Statement, i: nat)
    requires Accepts(st) && |st.messages| == BlockCount(length) && i < |st.messages| && st.initial[0][..8] == start
    requires forall k: nat :: k < |st.messages| ==> BlockOk(compress, iv, words, length, st, k)
    ensures st.hashes[i] == Chain(compress, iv, start, words, BlockCount(length), length, i + 1)
  {
    assert BlockOk(compress, iv, words, length, st, i);
    if i > 0 {
      ChainForced(compress, iv, start, words, length, st, i - 1);
      assert BlockOk(compress, iv, words, length, st, i - 1);
    }
    ChainStep(compress, iv, start, words, length, i, st.initial[i], st.hashes[i], st.chain[i]);
  }

  /** Four digest words determine the digest's bytes. */
  lemma {:induction false} BytesOfWords(d: seq<Byte>, ws: seq<U64>)
    requires |d| == 8 * |ws| && forall i: nat :: i < |ws| ==> WordAt(d, i) == ws[i]
    ensures d == Bytes(ws)
  {
    if ws != [] {
      var low: seq<int> := d[..8];
      assert WordAt(d, 0) == ws[0];
      assert d[8 * 0..8 * 0 + 8] == d[..8];
      ToLELE(low);
      forall i: nat | i < |ws| - 1 ensures WordAt(d[8..], i) == ws[1..][i] {
        assert WordAt(d, i + 1) == ws[i + 1];
        assert d[8..][8 * i..8 * i + 8] == d[8 * (i + 1)..8 * (i + 1) + 8];
      }
      BytesOfWords(d[8..], ws[1..]);
      assert d == d[..8] + d[8..];
    }
  }

  /** The sixteen words of a block are its bytes, eight at a time. */
  lemma BlockBytes(b: Block)
    ensures Bytes(MessageWords(b)) == b
  {
    forall i: nat | i < 16 ensures WordAt(b, i) == MessageWords(b)[i] {
    }
    BytesOfWords(b, MessageWords(b));
  }

  lemma BlockIsOk(a: Archive, i: nat)
    requires |a.message| < W64 && ChainAbi(a) && Accepts(a.compression) && i < |a.compression.messages|
    requires IsCompression(G, DataOf(a.compression, i))
    ensures BlockOk(CompressG(), BLAKE2B_IV, BlockWords(a.message), |a.message|, a.compression, i)
  {
    assert BlockAbi(BLAKE2B_IV, |a.message|, a.compression.initial[i], a.compression.chain[i], i);
  }

  /** Block by block, the last hash words are the end of the chain. */
  lemma ArchiveChain(st: Statement, compress: Compressor, iv: Hash, start: Hash, words: nat -> State, length: nat)
    requires Accepts(st) && |st.messages| == BlockCount(length) && st.initial[0][..8] == start
    requires forall k: nat :: k < |st.messages| ==> BlockOk(compress, iv, words, length, st, k)
    ensures st.hashes[BlockCount(length) - 1] == Chain(compress, iv, start, words, BlockCount(length), length, BlockCount(length))
  {
    ChainForced(compress, iv, start, words, length, st, BlockCount(length) - 1);
  }

  lemma BlocksAreOk(a: Archive)
    requires |a.message| < W64 && ChainAbi(a) && Accepts(a.compression)
    requires forall i: nat :: i < |a.compression.messages| ==> IsCompression(G, DataOf(a.compression, i))
    ensures forall k: nat :: k < |a.compression.messages| ==>
      BlockOk(CompressG(), BLAKE2B_IV, BlockWords(a.message), |a.message|, a.compression, k)
  {
    forall k: nat | k < |a.compression.messages|
      ensures BlockOk(CompressG(), BLAKE2B_IV, BlockWords(a.message), |a.message|, a.compression, k)
    {
      BlockIsOk(a, k);
    }
  }

  /** An archive that passes the chain checks, every block a true compression, carries the hash of its message. */
  lemma ArchiveIsHash(a: Archive)
    requires |a.message| < W64 && ChainAbi(a) && Accepts(a.compression)
    requires forall i: nat :: i < |a.compression.messages| ==> IsCompression(G, DataOf(a.compression, i))
    ensures a.digest == Blake2b256(a.message)
  {
    var st, n := a.compression, BlockCount(|a.message|);
    BlocksAreOk(a);
    ArchiveChain(st, CompressG(), BLAKE2B_IV, StartValue(), BlockWords(a.message), |a.message|);
    LastDigest(a, st, n - 1);
  }

  lemma LastDigest(a: Archive, st: Statement, i: nat)
    requires Accepts(st) && i < |st.messages| && IsCompression(G, DataOf(st, i)) && st.digests[i] == a.digest
    ensures a.digest == Bytes(st.hashes[i][..4])
  {
    DigestIs(st.digests[i], st.hashes[i]);
  }

  lemma DigestIs(d: Digest, h: Hash)
    requires DigestWords(d) == h[..4]
    ensures d == Bytes(h[..4])
  {
    forall i: nat | i < 4 ensures WordAt(d, i) == h[..4][i] {
      assert DigestWords(d)[i] == h[..4][i];
    }
    BytesOfWords(d, h[..4]);
  }

  // ----- from constraints to the hash -----

  /**
   * What the verifier of a compression archive checks: shape, links, and the rows and sums of both components, over one
   * height. That the sums of scheduler and exclusive-or table cancel is not among its checks.
   */
  ghost predicate Verified(st: Statement, rows: seq<Blake2bG.Row>, trace: seq<TraceRow>, mult: nat -> int) {
    && Accepts(st) && Linked(st.initial, st.hashes, st.chain) && |rows| == |trace|
    && Blake2bGProof.Accepted(st.calls, rows) && SchedulerLookups.Accepted(WIRES, st, trace, mult)
  }

  /** The missing guard, which a caller can check on the archive alone: the two recomputed sums cancel. */
  ghost predicate SumsCancel(st: Statement, rows: nat)
    requires Accepts(st)
  {
    SchedulerLookups.SumsCancel(WIRES, st, rows)
  }

  lemma AcceptedCallsMix(calls: seq<Blake2bG.Call>, rows: seq<Blake2bG.Row>)
    requires Blake2bGProof.Accepted(calls, rows) && Blake2bGProof.Fits(|rows|)
    ensures forall i: nat :: i < |calls| ==> CallMixes(G, calls[i])
  {
    Blake2bGProof.AcceptedForces(calls, rows);
    forall i: nat | i < |calls| ensures CallMixes(G, calls[i]) {
      assert Blake2bG.IsG(calls[i]);
    }
  }

  /** A verified statement is true where the recomputed sums cancel. */
  lemma GuardedIsTrue(st: Statement, rows: seq<Blake2bG.Row>, trace: seq<TraceRow>, mult: nat -> int)
    requires Verified(st, rows, trace, mult) && SumsCancel(st, |trace|) && Blake2bGProof.Fits(|rows|)
    ensures IsTrue(G, st)
  {
    AcceptedCallsMix(st.calls, rows);
    SchedulerLookups.BlocksFit(st, |rows|);
    assert SchedulerLookups.SomeAccepted(WIRES, st, |trace|);
    SchedulerLookups.GuardedIffTrue(G, st, |trace|);
  }

  /** So its every block is a compression. */
  lemma ConstraintsForceBlocks(st: Statement, rows: seq<Blake2bG.Row>, trace: seq<TraceRow>, mult: nat -> int)
    requires Verified(st, rows, trace, mult) && SumsCancel(st, |trace|) && Blake2bGProof.Fits(|rows|)
    ensures forall i: nat :: i < |st.messages| ==> IsCompression(G, DataOf(st, i))
  {
    GuardedIsTrue(st, rows, trace, mult);
  }

  /** From byte constraints to the hash: with the guard, a verified archive's digest is BLAKE2b-256 of its message. */
  lemma ConstraintsForceHash(a: Archive, rows: seq<Blake2bG.Row>, trace: seq<TraceRow>, mult: nat -> int)
    requires |a.message| < W64 && ChainAbi(a) && Verified(a.compression, rows, trace, mult) && Blake2bGProof.Fits(|rows|)
    requires SumsCancel(a.compression, |trace|)
    ensures a.digest == Blake2b256(a.message)
  {
    ConstraintsForceBlocks(a.compression, rows, trace, mult);
    ArchiveIsHash(a);
  }

  // ----- the planner -----

  /** The first four hash words, byte by byte. */
  function DigestOf(h: Hash): (d: Digest)
    ensures DigestWords(d) == h[..4]
  {
    BytesRead(h[..4]);
    Bytes(h[..4])
  }

  lemma {:induction false} BytesRead(ws: seq<U64>)
    ensures forall i: nat :: i < |ws| ==> WordAt(Bytes(ws), i) == ws[i]
  {
    if ws != [] {
      var b := Bytes(ws);
      BytesRead(ws[1..]);
      Pow256Eight();
      LEToLE(ws[0], 8);
      forall i: nat | i < |ws| ensures WordAt(b, i) == ws[i] {
        if i == 0 {
          assert b[8 * 0..8 * 0 + 8] == ToLE(ws[0], 8);
        } else {
          assert WordAt(Bytes(ws[1..]), i - 1) == ws[1..][i - 1];
          assert b[8 * i..8 * i + 8] == Bytes(ws[1..])[8 * (i - 1)..8 * (i - 1) + 8];
        }
      }
    }
  }

  datatype Plan = Plan(messages: seq<Block>, initial: seq<State>, digests: seq<Digest>, chain: seq<bool>)

  /** The chaining value after i blocks of a message. */
  function ChainAt(message: seq<Byte>, i: nat): Hash {
    Chain(CompressG(), BLAKE2B_IV, StartValue(), BlockWords(message), BlockCount(|message|), |message|, i)
  }

  function Chaining(message: seq<Byte>): nat -> Hash {
    (i: nat) => ChainAt(message, i)
  }

  /** The vector the program builds for block i from a chaining value. */
  function VectorAt(iv: Hash, length: nat, h: Hash, i: nat): State
    requires length < W64
  {
    InitialV(iv, h, Counter(length, i), i + 1 == BlockCount(length))
  }

  /** The chaining values step from block to block. */
  ghost predicate Steps(chaining: nat -> Hash, iv: Hash, message: seq<Byte>, i: nat)
    requires |message| < W64 && i < BlockCount(|message|)
  {
    chaining(i + 1) == Compress(MIX_G, VectorAt(iv, |message|, chaining(i), i), MessageWords(PaddedBlock(message, i)))
  }

  lemma ChainingSteps(message: seq<Byte>, i: nat)
    requires |message| < W64 && i < BlockCount(|message|)
    ensures Steps(Chaining(message), BLAKE2B_IV, message, i)
  {
    StepsFor(CompressG(), BLAKE2B_IV, StartValue(), BlockWords(message), message, i, Chaining(message));
  }

  lemma StepsFor(compress: Compressor, iv: Hash, start: Hash, words: nat -> State, message: seq<Byte>, i: nat, chaining: nat -> Hash)
    requires |message| < W64 && i < BlockCount(|message|) && words == BlockWords(message) && compress == CompressG()
    requires forall k: nat :: chaining(k) == Chain(compress, iv, start, words, BlockCount(|message|), |message|, k)
    ensures Steps(chaining, iv, message, i)
  {
    ChainSteps(compress, iv, start, words, |message|, i, chaining(i));
    assert words(i) == MessageWords(PaddedBlock(message, i));
  }

  lemma ChainSteps(compress: Compressor, iv: Hash, start: Hash, words: nat -> State, length: nat, i: nat, h: Hash)
    requires length < W64 && i < BlockCount(length) && h == Chain(compress, iv, start, words, BlockCount(length), length, i)
    ensures Chain(compress, iv, start, words, BlockCount(length), length, i + 1) == compress(VectorAt(iv, length, h, i), words(i))
  {
    InitialIsLocal(iv, h, Counter(length, i), i + 1 == BlockCount(length));
    CounterIs(length, i);
  }

  /** What the planner writes for block i. */
  ghost predicate Planned(iv: Hash, length: nat, initial: seq<State>, digests: seq<Digest>, chaining: nat -> Hash, i: nat)
    requires length < W64
  {
    && i < |initial| && i < |digests|
    && initial[i] == VectorAt(iv, length, chaining(i), i) && digests[i] == DigestOf(chaining(i + 1))
  }

  /** One block compressed on its own, as the planner does it. */
  method CompressOne(block: Block, v: State) returns (h: Hash)
    ensures h == Compress(MIX_G, v, MessageWords(block))
  {
    var r := CompressionCalls([block], [v]);
    h := r.value.1[0];
  }

  method PlanBlocks(iv: Hash, start: Hash, message: seq<Byte>, messages: seq<Block>, ghost chaining: nat -> Hash)
      returns (initial: seq<State>, digests: seq<Digest>)
    requires |message| < W64 && messages == MessagesOf(message) && start == chaining(0)
    requires forall i: nat :: i < BlockCount(|message|) ==> Steps(chaining, iv, message, i)
    ensures |initial| == |digests| == BlockCount(|message|)
    ensures forall i: nat :: i < BlockCount(|message|) ==> Planned(iv, |message|, initial, digests, chaining, i)
  {
    initial, digests := [], [];
    var h := start;
    for i := 0 to |messages|
      invariant |initial| == |digests| == i && h == chaining(i)
      invariant forall k: nat :: k < i ==> Planned(iv, |message|, initial, digests, chaining, k)
    {
      var v := VectorAt(iv, |message|, h, i);
      assert Steps(chaining, iv, message, i);
      h := CompressOne(messages[i], v);
      PlanGrows(iv, |message|, initial, digests, chaining, v, h);
      initial, digests := initial + [v], digests + [DigestOf(h)];
    }
  }

  lemma PlanGrows(iv: Hash, length: nat, initial: seq<State>, digests: seq<Digest>, chaining: nat -> Hash, v: State, h: Hash)
    requires length < W64 && |initial| == |digests|
    requires forall k: nat :: k < |initial| ==> Planned(iv, length, initial, digests, chaining, k)
    requires v == VectorAt(iv, length, chaining(|initial|), |initial|) && h == chaining(|initial| + 1)
    ensures forall k: nat :: k < |initial| + 1 ==> Planned(iv, length, initial + [v], digests + [DigestOf(h)], chaining, k)
  {
    forall k: nat | k < |initial| ensures Planned(iv, length, initial + [v], digests + [DigestOf(h)], chaining, k) {
      assert Planned(iv, length, initial, digests, chaining, k);
    }
  }

  /** The plan of a message: its blocks, and for each the vector, the digest so far and whether it chains on. */
  ghost predicate IsPlan(iv: Hash, message: seq<Byte>, p: Plan, chaining: nat -> Hash) {
    var n := BlockCount(|message|);
    && |message| < W64 && p.messages == MessagesOf(message) && |p.initial| == |p.digests| == n
    && p.chain == seq(n, i => i + 1 < n)
    && forall i: nat :: i < n ==> Planned(iv, |message|, p.initial, p.digests, chaining, i)
  }

  method HashChainPlan(message: seq<Byte>) returns (p: Plan)
    requires |message| < W64
    ensures IsPlan(BLAKE2B_IV, message, p, Chaining(message))
  {
    var messages := HashMessages(message);
    forall i: nat | i < BlockCount(|message|) ensures Steps(Chaining(message), BLAKE2B_IV, message, i) {
      ChainingSteps(message, i);
    }
    var initial, digests := PlanBlocks(BLAKE2B_IV, StandardInitialH(), message, messages, Chaining(message));
    p := Plan(messages, initial, digests, seq(|messages|, i => i + 1 < |messages|));
  }

  // ----- the planner's archive passes -----

  lemma PlannedPasses(iv: Hash, message: seq<Byte>, initial: seq<State>, digests: seq<Digest>, chaining: nat -> Hash, i: nat, chained: bool)
    requires |message| < W64 && i < BlockCount(|message|) && Planned(iv, |message|, initial, digests, chaining, i)
    requires chained == (i + 1 < BlockCount(|message|))
    ensures BlockAbi(iv, |message|, initial[i], chained, i) && initial[i][..8] == chaining(i)
  {
    VectorHalves(iv, chaining(i), Counter(|message|, i), i + 1 == BlockCount(|message|));
  }

  lemma VectorHalves(iv: Hash, h: Hash, counter: U64, last: bool)
    ensures InitialV(iv, h, counter, last)[..8] == h
    ensures InitialV(iv, h, counter, last)[8..] == InitialV(iv, Blank(8), counter, last)[8..]
  {
    var v, w := InitialV(iv, h, counter, last), InitialV(iv, Blank(8), counter, last);
    forall i: nat | 8 <= i < 16 ensures v[i] == w[i] {
    }
  }

  /** The archive a prover makes from a plan: its calls and hash words come from compressing the blocks. */
  ghost predicate IsPlanned(iv: Hash, message: seq<Byte>, p: Plan, chaining: nat -> Hash, a: Archive) {
    && IsPlan(iv, message, p, chaining) && a.message == message && a.digest == p.digests[|p.digests| - 1]
    && a.compression.messages == p.messages && a.compression.digests == p.digests
    && a.compression.initial == p.initial && a.compression.chain == p.chain
    && EachBlock(Compressed, p.messages, p.initial, a.compression.calls, a.compression.hashes, |p.messages|)
  }

  lemma PlannedShape(iv: Hash, message: seq<Byte>, p: Plan, chaining: nat -> Hash, a: Archive)
    requires IsPlanned(iv, message, p, chaining, a)
    ensures Accepts(a.compression)
  {
  }

  lemma PlannedHash(iv: Hash, message: seq<Byte>, p: Plan, chaining: nat -> Hash, a: Archive, i: nat)
    requires IsPlanned(iv, message, p, chaining, a) && i < BlockCount(|message|) && Steps(chaining, iv, message, i)
    ensures a.compression.hashes[i] == chaining(i + 1) == Compress(MIX_G, p.initial[i], MessageWords(p.messages[i]))
  {
    assert Planned(iv, |message|, p.initial, p.digests, chaining, i);
    assert Compressed(MessageWords(p.messages[i]), p.initial[i], CallsOf(a.compression.calls, i), a.compression.hashes[i]);
  }

  lemma PlannedVector(iv: Hash, message: seq<Byte>, p: Plan, chaining: nat -> Hash, i: nat)
    requires IsPlan(iv, message, p, chaining) && i < BlockCount(|message|)
    ensures BlockAbi(iv, |message|, p.initial[i], p.chain[i], i) && p.initial[i][..8] == chaining(i)
    ensures DigestWords(p.digests[i]) == chaining(i + 1)[..4] && p.chain[i] == (i + 1 < BlockCount(|message|))
  {
    assert Planned(iv, |message|, p.initial, p.digests, chaining, i);
    PlannedPasses(iv, message, p.initial, p.digests, chaining, i, p.chain[i]);
  }

  lemma PlannedBlock(iv: Hash, message: seq<Byte>, p: Plan, chaining: nat -> Hash, a: Archive, i: nat)
    requires IsPlanned(iv, message, p, chaining, a) && Accepts(a.compression) && i < BlockCount(|message|)
    requires Steps(chaining, iv, message, i)
    ensures IsCompression(G, DataOf(a.compression, i))
    ensures BlockAbi(iv, |message|, p.initial[i], p.chain[i], i)
  {
    PlannedHash(iv, message, p, chaining, a, i);
    PlannedVector(iv, message, p, chaining, i);
    if p.chain[i] { PlannedVector(iv, message, p, chaining, i + 1); }
    Compressing(a.compression, i, chaining(i + 1));
  }

  lemma Compressing(st: Statement, i: nat, h: Hash)
    requires Accepts(st) && i < |st.messages| && st.hashes[i] == h == Compress(MIX_G, st.initial[i], MessageWords(st.messages[i]))
    requires DigestWords(st.digests[i]) == h[..4] && (st.chain[i] ==> st.initial[i + 1][..8] == h)
    ensures IsCompression(G, DataOf(st, i))
  {
  }

  lemma PlannedOne(message: seq<Byte>, p: Plan, a: Archive, i: nat)
    requires IsPlanned(BLAKE2B_IV, message, p, Chaining(message), a) && Accepts(a.compression) && i < BlockCount(|message|)
    ensures IsCompression(G, DataOf(a.compression, i)) && BlockAbi(BLAKE2B_IV, |message|, p.initial[i], p.chain[i], i)
  {
    ChainingSteps(message, i);
    PlannedBlock(BLAKE2B_IV, message, p, Chaining(message), a, i);
  }

  lemma PlannedStart(message: seq<Byte>, p: Plan)
    requires IsPlan(BLAKE2B_IV, message, p, Chaining(message))
    ensures p.initial[0][..8] == StandardInitialH()
  {
    PlannedVector(BLAKE2B_IV, message, p, Chaining(message), 0);
  }

  lemma PlannedAbi(message: seq<Byte>, p: Plan, a: Archive)
    requires IsPlanned(BLAKE2B_IV, message, p, Chaining(message), a)
    ensures Accepts(a.compression) && ChainAbi(a)
    ensures forall i: nat :: i < |a.compression.messages| ==> IsCompression(G, DataOf(a.compression, i))
  {
    PlannedShape(BLAKE2B_IV, message, p, Chaining(message), a);
    PlannedStart(message, p);
    forall i: nat | i < BlockCount(|message|)
      ensures IsCompression(G, DataOf(a.compression, i)) && BlockAbi(BLAKE2B_IV, |message|, p.initial[i], p.chain[i], i)
    {
      PlannedOne(message, p, a, i);
    }
  }

  lemma MadeStep(good: BlockRelation, st: Statement, hashes: seq<Hash>, step: nat, block: nat, local: nat)
    requires Accepts(st) && EachBlock(good, st.messages, st.initial, st.calls, hashes, |st.messages|) && good == Compressed
    requires block < |st.messages| && local < G_ROWS && step == G_ROWS * block + local < |st.calls|
    ensures CallHolds(G, WIRES, DataOf(st, block), local, st.calls[step])
  {
    var calls := CallsOf(st.calls, block);
    assert good(MessageWords(st.messages[block]), st.initial[block], calls, hashes[block]);
    assert IsCall(G, WIRES, st.initial[block], MessageWords(st.messages[block]), local, calls[local]);
  }

  lemma PlannedTrue(st: Statement, n: nat)
    requires Accepts(st) && n == |st.messages| && EachBlock(Compressed, st.messages, st.initial, st.calls, st.hashes, n)
    requires forall i: nat :: i < n ==> IsCompression(G, DataOf(st, i))
    ensures IsTrue(G, st)
  {
    forall step: nat | step < |st.calls|
      ensures CallHolds(G, WIRES, DataOf(st, step / G_ROWS), step % G_ROWS, st.calls[step])
    {
      BlockInside(n, step);
      MadeStep(Compressed, st, st.hashes, step, step / G_ROWS, step % G_ROWS);
    }
  }

  lemma NextLinks(st: Statement, i: nat)
    requires Accepts(st) && i < |st.messages| && (DataOf(st, i).chained ==> DataOf(st, i).next == DataOf(st, i).hash)
    ensures LinkOk(st.initial, st.hashes, st.chain, i)
  {
  }

  lemma HeldCallIsG(d: BlockData, local: nat, c: Blake2bG.Call)
    requires CallHolds(G, WIRES, d, local, c)
    ensures Blake2bG.IsG(c)
  {
  }

  /** The committed multiplicities of an honest prover. */
  ghost function MultiplicitiesOf(st: Statement, rows: nat): nat -> int
    requires Accepts(st)
  {
    SchedulerLookups.Counted(SchedulerLookups.BuiltTuples(WIRES, st, rows))
  }

  /** The built rows of both components of a statement, with its multiplicities, are verified. */
  ghost predicate BuiltVerified(st: Statement, rows: nat) {
    && Accepts(st)
    && Verified(st, Blake2bGProof.TraceRows(st.calls, rows), TraceOf(WIRES, st.initial, st.calls, rows), MultiplicitiesOf(st, rows))
  }

  lemma HeldTails(d: BlockData)
    requires TailHolds(d)
    ensures d.chained ==> d.next == d.hash
  {
  }

  /** Where the links hold, blocks chain as they say they do. */
  lemma WiredLinks(st: Statement)
    requires Accepts(st) && IsWired(G, WIRES, st)
    ensures Linked(st.initial, st.hashes, st.chain)
  {
    forall i: nat | i < |st.chain| ensures LinkOk(st.initial, st.hashes, st.chain, i) {
      HeldTails(DataOf(st, i));
      NextLinks(st, i);
    }
  }

  /** The calls of a wired statement are true, so their built rows are accepted. */
  lemma WiredCallsAccepted(st: Statement, rows: nat)
    requires Accepts(st) && IsWired(G, WIRES, st) && |st.calls| <= rows
    ensures Blake2bGProof.Accepted(st.calls, Blake2bGProof.TraceRows(st.calls, rows))
  {
    forall i: nat | i < |st.calls| ensures Blake2bG.IsG(st.calls[i]) {
      HeldCallIsG(DataOf(st, i / G_ROWS), i % G_ROWS, st.calls[i]);
    }
    Blake2bGProof.BuiltAccepted(st.calls, rows);
  }

  /** The built rows of a wired statement are verified, whatever its hash words. */
  lemma WiredVerified(st: Statement, rows: nat)
    requires Accepts(st) && IsWired(G, WIRES, st) && |st.calls| <= rows
    ensures BuiltVerified(st, rows)
  {
    WiredLinks(st);
    WiredCallsAccepted(st, rows);
    SchedulerLookups.WiredAccepted(G, WIRES, st, rows);
  }

  lemma TrueIsWired(st: Statement)
    requires Accepts(st) && IsTrue(G, st)
    ensures IsWired(G, WIRES, st)
  {
    forall block: nat | block < |st.messages| ensures TailHolds(DataOf(st, block)) {
      assert IsCompression(G, DataOf(st, block));
    }
  }

  /** The built rows of a true statement are verified, and its sums cancel. */
  lemma TrueVerified(st: Statement, rows: nat)
    requires Accepts(st) && IsTrue(G, st) && |st.calls| <= rows && Blake2bGProof.Fits(rows)
    ensures BuiltVerified(st, rows) && SumsCancel(st, rows)
  {
    TrueIsWired(st);
    TrueIsClosed(G, st);
    WiredVerified(st, rows);
    SchedulerLookups.BlocksFit(st, rows);
    SchedulerLookups.CancelIffCloses(G, WIRES, st, rows);
  }

  /** Some rows, trace and multiplicities of one height are verified for the statement. */
  ghost predicate SomeRowsVerified(st: Statement, rows: nat) {
    exists g: seq<Blake2bG.Row>, trace: seq<TraceRow>, mult: nat -> int :: |g| == rows && Verified(st, g, trace, mult)
  }

  /** The verifier accepts exactly the statements whose calls, digests and links are right, whatever their hash words. */
  lemma VerifiedIffWired(st: Statement, rows: nat)
    requires Accepts(st) && |st.calls| <= rows && Blake2bGProof.Fits(rows)
    ensures SomeRowsVerified(st, rows) <==> IsWired(G, WIRES, st)
  {
    if IsWired(G, WIRES, st) { WiredVerified(st, rows); }
    if g: seq<Blake2bG.Row>, trace: seq<TraceRow>, mult: nat -> int :| |g| == rows && Verified(st, g, trace, mult) {
      AcceptedCallsMix(st.calls, g);
      TraceWired(G, WIRES, st, trace);
    }
  }

  /** With the guard, exactly the true ones. */
  lemma GuardedIffTrue(st: Statement, rows: nat)
    requires Accepts(st) && |st.calls| <= rows && Blake2bGProof.Fits(rows)
    ensures SomeRowsVerified(st, rows) && SumsCancel(st, rows) <==> IsTrue(G, st)
  {
    VerifiedIffWired(st, rows);
    if IsTrue(G, st) { TrueVerified(st, rows); }
    if IsWired(G, WIRES, st) {
      TrueIsClosed(G, st);
      SchedulerLookups.BlocksFit(st, rows);
      SchedulerLookups.CancelIffCloses(G, WIRES, st, rows);
    }
  }

  /** Calls made block by block, every block a compression: the built rows are verified and the sums cancel. */
  lemma CompressedVerified(st: Statement, rows: nat)
    requires Accepts(st) && |st.calls| <= rows && Blake2bGProof.Fits(rows)
    requires EachBlock(Compressed, st.messages, st.initial, st.calls, st.hashes, |st.messages|)
    requires forall i: nat :: i < |st.messages| ==> IsCompression(G, DataOf(st, i))
    ensures BuiltVerified(st, rows) && SumsCancel(st, rows)
  {
    PlannedTrue(st, |st.messages|);
    TrueVerified(st, rows);
  }

  /** The planner's archive passes every check, its traces pass every constraint, and its sums cancel. */
  lemma PlannerPasses(message: seq<Byte>, p: Plan, a: Archive, rows: nat)
    requires IsPlanned(BLAKE2B_IV, message, p, Chaining(message), a) && |a.compression.calls| <= rows && Blake2bGProof.Fits(rows)
    ensures ChainAbi(a) && a.digest == Blake2b256(message)
    ensures BuiltVerified(a.compression, rows) && SumsCancel(a.compression, rows)
  {
    PlannedAbi(message, p, a);
    ArchiveIsHash(a);
    CompressedVerified(a.compression, rows);
  }

  // ----- statements over any vectors -----

  /** The first n calls of a block, made in order from its vector. */
  lemma {:induction false} CallsMade(wires: Wires, words: State, initial: State, n: nat) returns (c: seq<Blake2bG.Call>)
    ensures |c| == n && forall i: nat :: i < n ==> IsCall(G, wires, initial, words, i, c[i])
  {
    if n == 0 {
      c := [];
    } else {
      c := CallsMade(wires, words, initial, n - 1);
      c := c + [CallAt(G, words, Entering(G, wires, initial, words, n - 1), wires(n - 1))];
    }
  }

  lemma BlockMade(words: State, initial: State) returns (c: seq<Blake2bG.Call>, h: Hash)
    ensures |c| == G_ROWS && Compressed(words, initial, c, h)
  {
    c := CallsMade(WIRES, words, initial, G_ROWS);
    h := Compress(MIX_G, initial, words);
  }

  lemma BlockJoined(good: BlockRelation, messages: seq<Block>, initial: seq<State>, calls: seq<Blake2bG.Call>, hashes: seq<Hash>, n: nat)
      returns (calls': seq<Blake2bG.Call>, hashes': seq<Hash>)
    requires EachBlock(good, messages, initial, calls, hashes, n) && n < |messages| && good == Compressed
    ensures EachBlock(good, messages, initial, calls', hashes', n + 1)
  {
    var c, h := BlockMade(MessageWords(messages[n]), initial[n]);
    BlockAppended(good, messages, initial, calls, hashes, n, c, h);
    calls', hashes' := calls + c, hashes + [h];
  }

  /** The calls and hash words of the first n blocks, each from its own vector. */
  lemma {:induction false} BlocksMade(good: BlockRelation, messages: seq<Block>, initial: seq<State>, n: nat)
      returns (calls: seq<Blake2bG.Call>, hashes: seq<Hash>)
    requires n <= |messages| == |initial| && good == Compressed
    ensures EachBlock(good, messages, initial, calls, hashes, n)
  {
    calls, hashes := [], [];
    if n > 0 {
      calls, hashes := BlocksMade(good, messages, initial, n - 1);
      calls, hashes := BlockJoined(good, messages, initial, calls, hashes, n - 1);
    }
  }

  type Hasher = Block -> Digest

  /** The digest of a block compressed from a vector. */
  function HashFrom(v: State): Hasher {
    (b: Block) => Bytes(Compress(MIX_G, v, MessageWords(b))[..4])
  }

  ghost predicate BlockHashes(initial: seq<State>, messages: seq<Block>, digests: seq<Digest>, i: nat)
    requires i < |initial| == |messages| == |digests|
  {
    digests[i] == HashFrom(initial[i])(messages[i])
  }

  /** Every digest is that of its block, compressed from its vector. */
  ghost predicate BlocksHash(initial: seq<State>, messages: seq<Block>, digests: seq<Digest>) {
    && |initial| == |messages| == |digests|
    && forall i: nat :: i < |messages| ==> BlockHashes(initial, messages, digests, i)
  }

  lemma StatementBlock(st: Statement, i: nat, h: Hash)
    requires Accepts(st) && i < |st.messages| && !st.chain[i] && BlockHashes(st.initial, st.messages, st.digests, i)
    requires st.hashes[i] == h == Compress(MIX_G, st.initial[i], MessageWords(st.messages[i]))
    ensures IsCompression(G, DataOf(st, i))
  {
    BytesRead(h[..4]);
    Compressing(st, i, h);
  }

  lemma HashOfBlock(good: BlockRelation, st: Statement, i: nat)
    requires EachBlock(good, st.messages, st.initial, st.calls, st.hashes, |st.messages|) && i < |st.messages| && good == Compressed
    ensures st.hashes[i] == Compress(MIX_G, st.initial[i], MessageWords(st.messages[i]))
  {
    assert good(MessageWords(st.messages[i]), st.initial[i], CallsOf(st.calls, i), st.hashes[i]);
  }

  lemma MadeStatement(good: BlockRelation, st: Statement)
    requires 0 < |st.messages| == |st.digests| == |st.initial| && st.chain == seq(|st.messages|, _ => false) && good == Compressed
    requires EachBlock(good, st.messages, st.initial, st.calls, st.hashes, |st.messages|)
    requires BlocksHash(st.initial, st.messages, st.digests)
    ensures Accepts(st) && forall i: nat :: i < |st.messages| ==> IsCompression(G, DataOf(st, i))
  {
    forall i: nat | i < |st.messages| ensures IsCompression(G, DataOf(st, i)) {
      HashOfBlock(good, st, i);
      assert BlockHashes(st.initial, st.messages, st.digests, i);
      StatementBlock(st, i, st.hashes[i]);
    }
  }

  /** Whatever the vectors, there is a verified statement of blocks that hash to their digests, and its sums cancel. */
  lemma StatementVerified(messages: seq<Block>, digests: seq<Digest>, initial: seq<State>, rows: nat) returns (st: Statement)
    requires 0 < |messages| && BlocksHash(initial, messages, digests) && G_ROWS * |messages| <= rows && Blake2bGProof.Fits(rows)
    ensures st.messages == messages && st.digests == digests && st.initial == initial
    ensures BuiltVerified(st, rows) && SumsCancel(st, rows)
  {
    var calls, hashes := BlocksMade(Compressed, messages, initial, |messages|);
    st := Statement(messages, digests, initial, hashes, seq(|messages|, _ => false), calls);
    MadeStatement(Compressed, st);
    CompressedVerified(st, rows);
  }

  lemma VerifiedBlockHashes(st: Statement, i: nat)
    requires Accepts(st) && i < |st.messages| && IsCompression(G, DataOf(st, i))
    ensures BlockHashes(st.initial, st.messages, st.digests, i)
  {
    DigestIs(st.digests[i], st.hashes[i]);
  }

  /** Some verified statement has these blocks, digests and vectors. */
  ghost predicate SomeVerified(messages: seq<Block>, digests: seq<Digest>, initial: seq<State>, rows: nat) {
    exists st: Statement :: st.messages == messages && st.digests == digests && st.initial == initial && SomeRowsVerified(st, rows)
  }

  ghost predicate IsGuarded(st: Statement, rows: nat) {
    SomeRowsVerified(st, rows) && Accepts(st) && SumsCancel(st, rows)
  }

  /** The same, the recomputed sums cancelling too. */
  ghost predicate SomeGuarded(messages: seq<Block>, digests: seq<Digest>, initial: seq<State>, rows: nat) {
    exists st: Statement :: st.messages == messages && st.digests == digests && st.initial == initial && IsGuarded(st, rows)
  }

  lemma GuardedBlockHashes(st: Statement, rows: nat)
    requires IsGuarded(st, rows) && |st.calls| <= rows && Blake2bGProof.Fits(rows)
    ensures BlocksHash(st.initial, st.messages, st.digests)
  {
    GuardedIffTrue(st, rows);
    forall i: nat | i < |st.messages| ensures BlockHashes(st.initial, st.messages, st.digests, i) {
      VerifiedBlockHashes(st, i);
    }
  }

  /** With the guard, blocks, digests and vectors are accepted exactly when every digest is its block's, from its own vector. */
  lemma VerifiedIff(messages: seq<Block>, digests: seq<Digest>, initial: seq<State>, rows: nat)
    requires 0 < |messages| && G_ROWS * |messages| <= rows && Blake2bGProof.Fits(rows)
    ensures SomeGuarded(messages, digests, initial, rows) <==> BlocksHash(initial, messages, digests)
  {
    if BlocksHash(initial, messages, digests) {
      var st := StatementVerified(messages, digests, initial, rows);
      assert IsGuarded(st, rows);
    }
    if st: Statement :| st.messages == messages && st.digests == digests && st.initial == initial && IsGuarded(st, rows) {
      GuardedBlockHashes(st, rows);
    }
  }
}
