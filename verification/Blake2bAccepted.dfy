/**
 * Which digests the verifier of compression and hash archives (src/blake2b_lookup_compression.rs) accepts as it stands,
 * without asking whether the sums it recomputes cancel, and which where they do. Main results: with the guard, exactly
 * the hash of the message; without it, any digest at all, for every message and every batch of blocks; and one
 * statement, spelled out, that is accepted, carries a wrong digest, and fails the guard.
 */
module Blake2bAccepted {
  import opened Arith
  import opened Words
  import opened Rfc7693
  import opened Blake2bScheduler
  import opened Blake2bSchedulerTrace
  import opened Blake2bHash
  import Blake2bG
  import Blake2bGProof

  // ----- any digests -----

  /** Hash words that fit a digest: its own words, followed by zeros. */
  function ClaimedHash(d: Digest): Hash {
    DigestWords(d) + Blank(4)
  }

  ghost predicate Claims(st: Statement, i: nat)
    requires Accepts(st) && i < |st.messages|
  {
    !st.chain[i] && st.hashes[i] == ClaimedHash(st.digests[i])
  }

  lemma ClaimedTail(st: Statement, i: nat)
    requires Accepts(st) && i < |st.messages| && Claims(st, i)
    ensures TailHolds(DataOf(st, i))
  {
  }

  /** Calls made block by block are wired, whatever hash words stand in the statement. */
  lemma ClaimedWired(st: Statement, hashes: seq<Hash>)
    requires Accepts(st) && EachBlock(Compressed, st.messages, st.initial, st.calls, hashes, |st.messages|)
    requires forall i: nat :: i < |st.messages| ==> Claims(st, i)
    ensures IsWired(G, WIRES, st)
  {
    forall i: nat | i < |st.messages| ensures TailHolds(DataOf(st, i)) {
      ClaimedTail(st, i);
    }
    forall step: nat | step < |st.calls|
      ensures CallHolds(G, WIRES, DataOf(st, step / G_ROWS), step % G_ROWS, st.calls[step])
    {
      BlockInside(|st.messages|, step);
      MadeStep(Compressed, st, hashes, step, step / G_ROWS, step % G_ROWS);
    }
  }

  lemma {:induction false} ClaimedHashes(digests: seq<Digest>, n: nat) returns (hashes: seq<Hash>)
    requires n <= |digests|
    ensures |hashes| == n && forall i: nat :: i < n ==> hashes[i] == ClaimedHash(digests[i])
  {
    hashes := [];
    if n > 0 {
      hashes := ClaimedHashes(digests, n - 1);
      hashes := hashes + [ClaimedHash(digests[n - 1])];
    }
  }

  lemma ClaimedStatement(messages: seq<Block>, digests: seq<Digest>, initial: seq<State>) returns (st: Statement)
    requires 0 < |messages| == |digests| == |initial|
    ensures st.messages == messages && st.digests == digests && st.initial == initial && Accepts(st) && IsWired(G, WIRES, st)
  {
    var calls, made := BlocksMade(Compressed, messages, initial, |messages|);
    var hashes := ClaimedHashes(digests, |messages|);
    st := Statement(messages, digests, initial, hashes, seq(|messages|, _ => false), calls);
    ClaimedWired(st, made);
  }

  /** As it stands, the verifier accepts blocks and vectors with any digests: only the lengths must agree. */
  lemma VerifiedIffLengths(messages: seq<Block>, digests: seq<Digest>, initial: seq<State>, rows: nat)
    requires 0 < |messages| && G_ROWS * |messages| <= rows && Blake2bGProof.Fits(rows)
    ensures SomeVerified(messages, digests, initial, rows) <==> |messages| == |digests| == |initial|
  {
    if |messages| == |digests| == |initial| {
      var st := ClaimedStatement(messages, digests, initial);
      VerifiedIffWired(st, rows);
    }
  }

  // ----- hash archives -----

  /** The plan of the first n blocks. */
  lemma {:induction false} PlanMade(iv: Hash, length: nat, chaining: nat -> Hash, n: nat) returns (initial: seq<State>, digests: seq<Digest>)
    requires length < W64 && n <= BlockCount(length)
    ensures |initial| == |digests| == n && forall i: nat :: i < n ==> Planned(iv, length, initial, digests, chaining, i)
  {
    initial, digests := [], [];
    if n > 0 {
      var before, read := PlanMade(iv, length, chaining, n - 1);
      var v, h := VectorAt(iv, length, chaining(n - 1), n - 1), chaining(n);
      PlanGrows(iv, length, before, read, chaining, v, h);
      initial, digests := before + [v], read + [DigestOf(h)];
    }
  }

  /** Every message has a plan and an archive made from it. */
  lemma ArchiveMade(iv: Hash, message: seq<Byte>, chaining: nat -> Hash) returns (p: Plan, a: Archive)
    requires |message| < W64
    ensures IsPlanned(iv, message, p, chaining, a) && |a.compression.calls| == BlockCount(|message|) * G_ROWS
  {
    var n := BlockCount(|message|);
    var initial, digests := PlanMade(iv, |message|, chaining, n);
    p := Plan(MessagesOf(message), initial, digests, seq(n, i => i + 1 < n));
    var calls, hashes := BlocksMade(Compressed, p.messages, initial, n);
    a := Archive(message, digests[n - 1], Statement(p.messages, digests, initial, hashes, p.chain, calls));
  }

  /** The archive's checks and the verifier pass for some rows. */
  ghost predicate ArchiveAccepted(a: Archive, rows: nat) {
    ChainAbi(a) && Accepts(a.compression) && SomeRowsVerified(a.compression, rows)
  }

  /** The same, the recomputed sums cancelling too. */
  ghost predicate ArchiveGuarded(a: Archive, rows: nat) {
    ArchiveAccepted(a, rows) && SumsCancel(a.compression, rows)
  }

  ghost predicate SomeArchive(accepted: (Archive, nat) -> bool, message: seq<Byte>, digest: Digest, rows: nat) {
    exists a: Archive :: a.message == message && a.digest == digest && accepted(a, rows)
  }

  lemma GuardedIsHash(a: Archive, rows: nat)
    requires |a.message| < W64 && ArchiveGuarded(a, rows) && |a.compression.calls| <= rows && Blake2bGProof.Fits(rows)
    ensures a.digest == Blake2b256(a.message)
  {
    GuardedIffTrue(a.compression, rows);
    ArchiveIsHash(a);
  }

  lemma HashIsGuarded(message: seq<Byte>, rows: nat) returns (a: Archive)
    requires |message| < W64 && BlockCount(|message|) * G_ROWS <= rows && Blake2bGProof.Fits(rows)
    ensures a.message == message && a.digest == Blake2b256(message) && ArchiveGuarded(a, rows)
  {
    var p: Plan;
    p, a := ArchiveMade(BLAKE2B_IV, message, Chaining(message));
    PlannerPasses(message, p, a, rows);
  }

  lemma ArchiveCalls(a: Archive)
    requires ChainAbi(a) && Accepts(a.compression)
    ensures |a.compression.calls| == BlockCount(|a.message|) * G_ROWS
  {
  }

  /** With the guard, an archive of a message is accepted with exactly one digest, BLAKE2b-256 of the message. */
  lemma GuardedIffHash(message: seq<Byte>, digest: Digest, rows: nat)
    requires |message| < W64 && BlockCount(|message|) * G_ROWS <= rows && Blake2bGProof.Fits(rows)
    ensures SomeArchive(ArchiveGuarded, message, digest, rows) <==> digest == Blake2b256(message)
  {
    var made := HashIsGuarded(message, rows);
    if a: Archive :| a.message == message && a.digest == digest && ArchiveGuarded(a, rows) {
      ArchiveCalls(a);
      GuardedIsHash(a, rows);
    }
  }

  /** The statement with another digest for its last block, and hash words to fit. */
  function Redigested(st: Statement, digest: Digest): Statement
    requires |st.digests| > 0 && |st.hashes| == |st.digests|
  {
    var last := |st.digests| - 1;
    st.(digests := st.digests[last := digest], hashes := st.hashes[last := ClaimedHash(digest)])
  }

  lemma RedigestedTail(st: Statement, digest: Digest, i: nat)
    requires Accepts(st) && Accepts(Redigested(st, digest)) && i < |st.messages| && TailHolds(DataOf(st, i))
    ensures TailHolds(DataOf(Redigested(st, digest), i))
  {
    if i + 1 == |st.messages| {
      ClaimedTail(Redigested(st, digest), i);
    } else {
      assert DataOf(Redigested(st, digest), i) == DataOf(st, i);
    }
  }

  /** A call is judged by its block's vector and message only. */
  lemma SameCalls(g: Mixing, wires: Wires, d: BlockData, e: BlockData, local: nat, call: Blake2bG.Call)
    requires CallHolds(g, wires, d, local, call) && e.initial == d.initial && e.message == d.message
    ensures CallHolds(g, wires, e, local, call)
  {
  }

  lemma RedigestedWired(g: Mixing, wires: Wires, st: Statement, digest: Digest)
    requires Accepts(st) && IsWired(g, wires, st)
    ensures Accepts(Redigested(st, digest)) && IsWired(g, wires, Redigested(st, digest))
  {
    var other := Redigested(st, digest);
    forall i: nat | i < |other.messages| ensures TailHolds(DataOf(other, i)) {
      RedigestedTail(st, digest, i);
    }
    forall step: nat | step < |other.calls|
      ensures CallHolds(g, wires, DataOf(other, step / G_ROWS), step % G_ROWS, other.calls[step])
    {
      SameCalls(g, wires, DataOf(st, step / G_ROWS), DataOf(other, step / G_ROWS), step % G_ROWS, st.calls[step]);
    }
  }

  lemma RedigestedAbi(a: Archive, digest: Digest)
    requires ChainAbi(a) && Accepts(a.compression)
    ensures ChainAbi(a.(digest := digest, compression := Redigested(a.compression, digest)))
  {
  }

  /** As it stands, the verifier accepts an archive of any message with any digest. */
  lemma AnyDigestAccepted(message: seq<Byte>, digest: Digest, rows: nat)
    requires |message| < W64 && BlockCount(|message|) * G_ROWS <= rows && Blake2bGProof.Fits(rows)
    ensures SomeArchive(ArchiveAccepted, message, digest, rows)
  {
    var a := HashIsGuarded(message, rows);
    var st, other := a.compression, Redigested(a.compression, digest);
    ArchiveCalls(a);
    VerifiedIffWired(st, rows);
    RedigestedWired(G, WIRES, st, digest);
    RedigestedAbi(a, digest);
    VerifiedIffWired(other, rows);
    assert ArchiveAccepted(a.(digest := digest, compression := other), rows);
  }

  // ----- one statement -----

  function ZeroBlock(): Block {
    seq(128, _ => 0)
  }

  function WrongDigest(): Digest {
    [1] + seq(31, _ => 0)
  }

  const ZERO_CALL: Blake2bG.Call := Blake2bG.RawCall([0, 0, 0, 0, 0, 0], [0, 0, 0, 0])

  /** One zero block from the zero vector: every call is zero, and so is the true hash, but the digest starts with a one. */
  function WrongStatement(): Statement {
    Statement([ZeroBlock()], [WrongDigest()], [Blank(16)], [ClaimedHash(WrongDigest())], [false], seq(G_ROWS, _ => ZERO_CALL))
  }

  lemma XorZeros(z: U64)
    requires z == 0
    ensures Xor64(z, z) == z
  {
    Complement(z);
  }

  lemma RotateZeros(z: U64, r: nat)
    requires z == 0 && r <= 64
    ensures XorRotR(z, z, r) == z
  {
    XorZeros(z);
  }

  lemma GFixed(z: U64, n: U64)
    requires Plus(z, z, z) == z && Plus(z, z, n) == z && n == 0
    requires forall r: nat :: r <= 64 ==> XorRotR(z, z, r) == z
    ensures G(z, z, z, z, z, z) == Quad(z, z, z, z)
  {
  }

  lemma GZero(z: U64)
    requires z == 0
    ensures G(z, z, z, z, z, z) == Quad(z, z, z, z)
  {
    forall r: nat | r <= 64 ensures XorRotR(z, z, r) == z {
      RotateZeros(z, r);
    }
    GFixed(z, z);
  }

  ghost predicate FixesZeros(g: Mixing) {
    forall z: U64 :: z == 0 ==> g(z, z, z, z, z, z) == Quad(z, z, z, z)
  }

  lemma GFixesZeros()
    ensures FixesZeros(G)
  {
    forall z: U64 | z == 0 ensures G(z, z, z, z, z, z) == Quad(z, z, z, z) {
      GZero(z);
    }
  }

  lemma {:induction false} ZeroWalk(g: Mixing, wires: Wires, v: State, k: nat)
    requires FixesZeros(g) && v == Blank(16)
    ensures Entering(g, wires, v, v, k) == v
  {
    if k > 0 {
      ZeroWalk(g, wires, v, k - 1);
      assert StepWith(MixerOf(g), v, v, wires(k - 1)) == v;
    }
  }

  lemma {:induction false} ZeroLE(b: seq<int>)
    requires forall i :: 0 <= i < |b| ==> b[i] == 0
    ensures LE(b) == 0
  {
    if b != [] { ZeroLE(b[1..]); }
  }

  lemma ZeroWord(b: Block, i: nat)
    requires (forall k :: 0 <= k < |b| ==> b[k] == 0) && i < 16
    ensures WordAt(b, i) == 0
  {
    ZeroLE(b[8 * i..8 * i + 8]);
  }

  lemma ZeroWords()
    ensures MessageWords(ZeroBlock()) == Blank(16)
  {
    forall i: nat | i < 16 ensures WordAt(ZeroBlock(), i) == 0 {
      ZeroWord(ZeroBlock(), i);
    }
  }

  lemma ZeroCalls(g: Mixing, wires: Wires, local: nat, d: BlockData)
    requires FixesZeros(g) && d.initial == Blank(16) && d.message == Blank(16)
    ensures CallHolds(g, wires, d, local, ZERO_CALL)
  {
    ZeroWalk(g, wires, Blank(16), local);
  }

  lemma OneBlockStep(step: nat)
    requires step < G_ROWS
    ensures step / G_ROWS == 0 && step % G_ROWS == step
  {
  }

  lemma WrongCall(g: Mixing, wires: Wires, st: Statement, step: nat, d: BlockData)
    requires FixesZeros(g) && Accepts(st) && |st.messages| == 1 && d == DataOf(st, 0)
    requires d.initial == Blank(16) && d.message == Blank(16) && step < |st.calls| && st.calls[step] == ZERO_CALL
    ensures CallHolds(g, wires, DataOf(st, step / G_ROWS), step % G_ROWS, st.calls[step])
  {
    OneBlockStep(step);
    ZeroCalls(g, wires, step, d);
  }

  lemma WrongIsWired(g: Mixing, wires: Wires, st: Statement, d: BlockData)
    requires FixesZeros(g) && Accepts(st) && |st.messages| == 1 && d == DataOf(st, 0) && TailHolds(d)
    requires d.initial == Blank(16) && d.message == Blank(16)
    requires forall step: nat :: step < |st.calls| ==> st.calls[step] == ZERO_CALL
    ensures IsWired(g, wires, st)
  {
    forall step: nat | step < |st.calls|
      ensures CallHolds(g, wires, DataOf(st, step / G_ROWS), step % G_ROWS, st.calls[step])
    {
      WrongCall(g, wires, st, step, d);
    }
  }

  lemma WrongTail(st: Statement)
    requires st == WrongStatement()
    ensures Accepts(st) && |st.messages| == 1 && TailHolds(DataOf(st, 0))
    ensures DataOf(st, 0).initial == Blank(16) && DataOf(st, 0).message == Blank(16)
  {
    ZeroWords();
    ClaimedTail(st, 0);
  }

  lemma FinishZero(v: State, i: nat)
    requires i < 8 && v[i] == v[i + 8] == 0
    ensures Finish(v, v)[i] == 0
  {
    XorZeros(v[i]);
  }

  lemma FirstByte(ws: seq<U64>)
    requires |ws| > 0 && ws[0] == 0
    ensures Bytes(ws)[0] == 0
  {
    ZeroBytes(8, 0);
  }

  lemma ZeroCompress(g: Mixing, v: State, h: Hash)
    requires FixesZeros(g) && v == Blank(16) && h == Finish(v, v)
    ensures Compress(MixerOf(g), v, v) == h
  {
    WalkIsCompression(MixerOf(g), v, v);
    ZeroWalk(g, WIRES, v, G_ROWS);
  }

  lemma FinishBlank(v: State, i: nat) returns (h: Hash)
    requires v == Blank(16) && i < 8
    ensures h == Finish(v, v) && h[i] == 0
  {
    h := Finish(v, v);
    FinishZero(v, i);
  }

  lemma NotWrong(v: State, b: Block, m: State)
    requires m == MessageWords(b) && Compress(MIX_G, v, m)[0] == 0
    ensures HashFrom(v)(b) != WrongDigest()
  {
    FirstByte(Compress(MIX_G, v, m)[..4]);
  }

  /** The zero block does not hash to bytes that start with a one from the zero vector. */
  lemma ZeroHash(v: State, b: Block)
    requires v == Blank(16) && b == ZeroBlock()
    ensures HashFrom(v)(b) != WrongDigest()
  {
    ZeroWords();
    GFixesZeros();
    var h := FinishBlank(v, 0);
    ZeroCompress(G, v, h);
    NotWrong(v, b, v);
  }

  /** The statement is verified with its built rows, its digest is not its block's, and the guard refuses it. */
  lemma WrongDigestVerified(rows: nat)
    requires G_ROWS <= rows && Blake2bGProof.Fits(rows)
    ensures BuiltVerified(WrongStatement(), rows) && !SumsCancel(WrongStatement(), rows)
    ensures HashFrom(Blank(16))(ZeroBlock()) != WrongDigest()
  {
    var st := WrongStatement();
    WrongTail(st);
    GFixesZeros();
    WrongIsWired(G, WIRES, st, DataOf(st, 0));
    WiredVerified(st, rows);
    ZeroHash(Blank(16), ZeroBlock());
    GuardedIffTrue(st, rows);
    if IsTrue(G, st) { VerifiedBlockHashes(st, 0); }
  }
}
