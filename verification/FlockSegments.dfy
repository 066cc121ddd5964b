/**
 * Segmentation of hash statements into chains and Merkle runs, the pairing of segments with archived
 * sub-proofs, and the padded hash chain (src/blake3_flock.rs). Main results: segments partition the statements
 * into ordered maximal runs; the pairing loop accepts exactly the archives laid out as the prover lays them
 * out; the streaming digest is the last chaining value of the materialised blocks; block sequences are
 * injective in the message.
 */
module FlockSegments {
  import opened Arith
  import opened Words
  import opened Wrappers

  type Digest = d: seq<Byte> | |d| == 32 witness seq(32, _ => 0)

  datatype Statement = Statement(message: seq<Byte>, digest: Digest)

  /** A Merkle run: statements start .. start + len - 1, with the side each digest takes in its parent. */
  datatype Run = Run(start: nat, len: nat, bits: seq<bool>)

  // ----- recognition -----

  /** Statement i continues the run: a 64-byte message with the previous digest as one half. */
  predicate Continues(s: seq<Statement>, i: nat)
    requires 0 < i < |s|
  {
    var m := s[i].message;
    |m| == 64 && (m[..32] == s[i - 1].digest || m[32..] == s[i - 1].digest)
  }

  /** The side of the previous digest; the left one wins when both halves are it. */
  function Side(s: seq<Statement>, i: nat): bool
    requires 0 < i < |s| && Continues(s, i)
  {
    s[i].message[..32] != s[i - 1].digest
  }

  /** Statement k + 1 of a run continues it, on the recorded side. */
  ghost predicate RunLink(s: seq<Statement>, start: nat, bits: seq<bool>, k: nat)
    requires k < |bits| && start + k + 1 < |s|
  {
    Continues(s, start + k + 1) && bits[k] == Side(s, start + k + 1)
  }

  ghost predicate IsRunOf(s: seq<Statement>, r: Run) {
    && r.start + r.len <= |s| && 0 < r.len && |r.bits| == r.len - 1 && |s[r.start].message| == 64
    && forall k: nat :: k < r.len - 1 ==> RunLink(s, r.start, r.bits, k)
  }

  /** The run cannot be extended. */
  ghost predicate IsMaximal(s: seq<Statement>, r: Run) {
    IsRunOf(s, r) && (r.start + r.len < |s| ==> !Continues(s, r.start + r.len))
  }

  /** Whether a run of two or more starts here. */
  predicate StartsRun(s: seq<Statement>, i: nat) {
    i + 1 < |s| && |s[i].message| == 64 && Continues(s, i + 1)
  }

  /** The longest run from `start`, if it has at least two statements. */
  method RecognizePathRun(s: seq<Statement>, start: nat) returns (r: Option<Run>)
    ensures r.Some? <==> StartsRun(s, start)
    ensures r.Some? ==> r.value.start == start && r.value.len >= 2 && IsMaximal(s, r.value)
  {
    if start >= |s| || |s[start].message| != 64 { return None; }
    var bits, len := [], 1;
    while start + len < |s|
      invariant IsRunOf(s, Run(start, len, bits))
      decreases |s| - len
    {
      var prev, m := s[start + len - 1].digest, s[start + len].message;
      if |m| != 64 { break; }
      var side := m[..32] != prev;
      if side && m[32..] != prev { break; }
      RunGrows(s, start, len, bits, side);
      bits, len := bits + [side], len + 1;
    }
    if len < 2 { return None; }
    assert RunLink(s, start, bits, 0);
    return Some(Run(start, len, bits));
  }

  lemma RunGrows(s: seq<Statement>, start: nat, len: nat, bits: seq<bool>, side: bool)
    requires IsRunOf(s, Run(start, len, bits)) && start + len < |s| && Continues(s, start + len) && side == Side(s, start + len)
    ensures IsRunOf(s, Run(start, len + 1, bits + [side]))
  {
    forall k: nat | k < len ensures RunLink(s, start, bits + [side], k) {
      if k < len - 1 { assert RunLink(s, start, bits, k); }
    }
  }

  // ----- segmentation -----

  datatype Segment = Chain(start: nat) | Merkle(run: Run)

  function From(g: Segment): nat {
    match g
    case Chain(start) => start
    case Merkle(run) => run.start
  }

  function Size(g: Segment): nat {
    match g
    case Chain(_) => 1
    case Merkle(run) => run.len
  }

  /** A lone statement where no run starts, or a maximal run of at least two. */
  ghost predicate IsSegment(s: seq<Statement>, g: Segment) {
    match g
    case Chain(start) => start < |s| && !StartsRun(s, start)
    case Merkle(run) => run.len >= 2 && IsMaximal(s, run)
  }

  /** Segments follow one another from `from` and end at `to`. */
  ghost predicate Tiles(gs: seq<Segment>, from: nat, to: nat) {
    if gs == [] then from == to
    else From(gs[0]) == from && Size(gs[0]) > 0 && Tiles(gs[1..], from + Size(gs[0]), to)
  }

  lemma {:induction false} TilesPush(gs: seq<Segment>, from: nat, to: nat, g: Segment)
    requires Tiles(gs, from, to) && From(g) == to && Size(g) > 0
    ensures Tiles(gs + [g], from, to + Size(g))
  {
    if gs == [] {
      assert [g][1..] == [];
      assert gs + [g] == [g];
    } else {
      TilesPush(gs[1..], from + Size(gs[0]), to, g);
      assert (gs + [g])[1..] == gs[1..] + [g];
    }
  }

  ghost predicate Partitions(s: seq<Statement>, gs: seq<Segment>) {
    Tiles(gs, 0, |s|) && forall k :: 0 <= k < |gs| ==> IsSegment(s, gs[k])
  }

  /** The segment containing a statement. */
  ghost predicate Covers(g: Segment, i: nat) {
    From(g) <= i < From(g) + Size(g)
  }

  /** In a tiling every statement lies in exactly one segment. */
  lemma {:induction false} CoveredOnce(gs: seq<Segment>, from: nat, to: nat, i: nat)
    requires Tiles(gs, from, to) && from <= i < to
    ensures exists k: nat :: k < |gs| && Covers(gs[k], i)
    ensures forall j: nat, k: nat :: j < k < |gs| ==> !(Covers(gs[j], i) && Covers(gs[k], i))
  {
    var g, rest, next := gs[0], gs[1..], from + Size(gs[0]);
    assert forall k: nat :: k < |rest| ==> rest[k] == gs[k + 1];
    TilesBounds(rest, next, to);
    if i < next {
      assert Covers(gs[0], i);
    } else {
      CoveredOnce(rest, next, to, i);
      var k: nat :| k < |rest| && Covers(rest[k], i);
      assert Covers(gs[k + 1], i);
    }
    forall j: nat, k: nat | j < k < |gs| ensures !(Covers(gs[j], i) && Covers(gs[k], i)) {
      assert gs[k] == rest[k - 1];
      if j > 0 { assert gs[j] == rest[j - 1]; }
    }
  }

  lemma {:induction false} TilesBounds(gs: seq<Segment>, from: nat, to: nat)
    requires Tiles(gs, from, to)
    ensures from <= to && forall k: nat :: k < |gs| ==> from <= From(gs[k])
  {
    if gs != [] {
      TilesBounds(gs[1..], from + Size(gs[0]), to);
      assert forall k: nat :: 0 < k < |gs| ==> gs[k] == gs[1..][k - 1];
    }
  }

  /** Greedy segmentation. */
  method SegmentStatements(s: seq<Statement>) returns (gs: seq<Segment>)
    ensures Partitions(s, gs)
  {
    gs := [];
    var i := 0;
    while i < |s|
      invariant 0 <= i <= |s| && Tiles(gs, 0, i) && forall k :: 0 <= k < |gs| ==> IsSegment(s, gs[k])
    {
      var run := RecognizePathRun(s, i);
      var g := if run.Some? then Merkle(run.value) else Chain(i);
      TilesPush(gs, 0, i, g);
      gs := gs + [g];
      i := i + Size(g);
    }
  }

  lemma RunContinues(s: seq<Statement>, r: Run, k: nat)
    requires IsRunOf(s, r) && k + 1 < r.len
    ensures Continues(s, r.start + k + 1)
  {
    assert RunLink(s, r.start, r.bits, k);
  }

  lemma NotLonger(s: seq<Statement>, a: Run, b: Run)
    requires IsMaximal(s, a) && IsRunOf(s, b) && a.start == b.start
    ensures b.len <= a.len
  {
    if a.len < b.len { RunContinues(s, b, a.len - 1); }
  }

  lemma RunStarts(s: seq<Statement>, r: Run)
    requires IsRunOf(s, r) && r.len >= 2
    ensures StartsRun(s, r.start)
  {
    RunContinues(s, r, 0);
  }

  /** What the sides of a run say: which half of the next message the digest is, the left one first. */
  lemma SidesAre(s: seq<Statement>, r: Run, k: nat)
    requires IsRunOf(s, r) && k + 1 < r.len
    ensures var m, d := s[r.start + k + 1].message, s[r.start + k].digest;
      |m| == 64 && (if r.bits[k] then m[..32] != d && m[32..] == d else m[..32] == d)
  {
    assert RunLink(s, r.start, r.bits, k);
  }

  /** Two maximal runs from one start are the same run. */
  lemma MaximalUnique(s: seq<Statement>, a: Run, b: Run)
    requires IsMaximal(s, a) && IsMaximal(s, b) && a.start == b.start
    ensures a == b
  {
    NotLonger(s, a, b);
    NotLonger(s, b, a);
    forall k: nat | k < |a.bits| ensures a.bits[k] == b.bits[k] {
      assert RunLink(s, a.start, a.bits, k) && RunLink(s, b.start, b.bits, k);
    }
  }

  lemma TilesEmpty(gs: seq<Segment>, from: nat)
    requires Tiles(gs, from, from)
    ensures gs == []
  {
    if gs != [] { TilesBounds(gs[1..], from + Size(gs[0]), from); }
  }

  /** The statements determine the segmentation, so prover and verifier cannot drift apart. */
  lemma {:induction false} PartitionUnique(s: seq<Statement>, a: seq<Segment>, b: seq<Segment>, from: nat)
    requires Tiles(a, from, |s|) && Tiles(b, from, |s|)
    requires (forall k :: 0 <= k < |a| ==> IsSegment(s, a[k])) && (forall k :: 0 <= k < |b| ==> IsSegment(s, b[k]))
    ensures a == b
    decreases |a|
  {
    if a == [] {
      TilesEmpty(b, from);
    } else if b == [] {
      TilesEmpty(a, from);
    } else {
      FirstUnique(s, a[0], b[0]);
      PartitionUnique(s, a[1..], b[1..], from + Size(a[0]));
      assert a == [a[0]] + a[1..] && b == [b[0]] + b[1..];
    }
  }

  lemma FirstUnique(s: seq<Statement>, a: Segment, b: Segment)
    requires IsSegment(s, a) && IsSegment(s, b) && From(a) == From(b)
    ensures a == b
  {
    match (a, b) {
      case (Merkle(r), Merkle(q)) => MaximalUnique(s, r, q);
      case (Merkle(r), Chain(i)) => RunStarts(s, r);
      case (Chain(i), Merkle(r)) => RunStarts(s, r);
      case (Chain(i), Chain(j)) =>
    }
  }

  // ----- pairing segments with archived sub-proofs -----

  datatype ChainProof = ChainProof(index: nat)
  datatype MerkleProof = MerkleProof(start: nat, len: nat, bits: seq<Byte>)

  const U32_LIMIT: nat := 0x1_0000_0000

  function Starts(gs: seq<Segment>): seq<nat> {
    if gs == [] then []
    else
      var last := gs[|gs| - 1];
      Starts(gs[..|gs| - 1]) + if last.Chain? then [last.start] else []
  }

  function Runs(gs: seq<Segment>): seq<Run> {
    if gs == [] then []
    else
      var last := gs[|gs| - 1];
      Runs(gs[..|gs| - 1]) + if last.Merkle? then [last.run] else []
  }

  lemma Push(gs: seq<Segment>, g: Segment)
    ensures Starts(gs + [g]) == Starts(gs) + if g.Chain? then [g.start] else []
    ensures Runs(gs + [g]) == Runs(gs) + if g.Merkle? then [g.run] else []
  {
    assert (gs + [g])[..|gs|] == gs;
  }

  lemma {:induction false} Prefix(gs: seq<Segment>, i: nat)
    requires i <= |gs|
    ensures Starts(gs[..i]) <= Starts(gs) && Runs(gs[..i]) <= Runs(gs)
  {
    if i < |gs| {
      Prefix(gs[..|gs| - 1], i);
      assert gs[..|gs| - 1][..i] == gs[..i];
    } else {
      assert gs[..i] == gs;
    }
  }

  predicate ChainFits(start: nat, c: ChainProof) { c.index == start }

  /** Archived direction bytes: one means right, anything else left. */
  predicate RunFits(r: Run, m: MerkleProof) {
    m.start == r.start && m.len == r.len && |m.bits| == |r.bits| && forall k :: 0 <= k < |r.bits| ==> (m.bits[k] == 1) == r.bits[k]
  }

  /** An archived proof fits one run only. */
  lemma FitsOneRun(r: Run, q: Run, m: MerkleProof)
    requires RunFits(r, m) && RunFits(q, m)
    ensures r == q
  {
    forall k | 0 <= k < |r.bits| ensures r.bits[k] == q.bits[k] {
      assert (m.bits[k] == 1) == r.bits[k];
    }
  }

  /** Each item is fitted by the proof at its place, with none over and none missing. */
  ghost predicate Fit<A, B>(fits: (A, B) -> bool, items: seq<A>, proofs: seq<B>) {
    |items| == |proofs| && forall k: nat :: k < |items| ==> fits(items[k], proofs[k])
  }

  ghost predicate LaidOut(gs: seq<Segment>, chains: seq<ChainProof>, merkles: seq<MerkleProof>) {
    Fit(ChainFits, Starts(gs), chains) && Fit(RunFits, Runs(gs), merkles)
  }

  ghost predicate Fitted<A, B>(fits: (A, B) -> bool, items: seq<A>, proofs: seq<B>, n: nat) {
    |items| == n <= |proofs| && forall k: nat :: k < n ==> fits(items[k], proofs[k])
  }

  lemma Misfit<A, B>(fits: (A, B) -> bool, done: seq<A>, items: seq<A>, proofs: seq<B>, x: A)
    requires Fitted(fits, done, proofs, |done|) && done + [x] <= items
    requires |done| == |proofs| || !fits(x, proofs[|done|])
    ensures !Fit(fits, items, proofs)
  {
    assert items[|done|] == x;
  }

  lemma Fits<A, B>(fits: (A, B) -> bool, done: seq<A>, proofs: seq<B>, x: A)
    requires Fitted(fits, done, proofs, |done|) && |done| < |proofs| && fits(x, proofs[|done|])
    ensures Fitted(fits, done + [x], proofs, |done| + 1)
  {
  }

  /** The pairing loop: it accepts exactly the archives laid out segment by segment. */
  method Pair(gs: seq<Segment>, chains: seq<ChainProof>, merkles: seq<MerkleProof>) returns (ok: bool)
    ensures ok <==> LaidOut(gs, chains, merkles)
  {
    var c, m := 0, 0;
    assert gs[..0] == [];
    for i := 0 to |gs|
      invariant Fitted(ChainFits, Starts(gs[..i]), chains, c) && Fitted(RunFits, Runs(gs[..i]), merkles, m)
    {
      var g := gs[i];
      assert gs[..i + 1] == gs[..i] + [g];
      Push(gs[..i], g);
      Prefix(gs, i + 1);
      match g {
        case Chain(start) =>
          if c >= |chains| || !ChainFits(start, chains[c]) {
            Misfit(ChainFits, Starts(gs[..i]), Starts(gs), chains, start);
            return false;
          }
          Fits(ChainFits, Starts(gs[..i]), chains, start);
          c := c + 1;
        case Merkle(run) =>
          if m >= |merkles| || !RunFits(run, merkles[m]) {
            Misfit(RunFits, Runs(gs[..i]), Runs(gs), merkles, run);
            return false;
          }
          Fits(RunFits, Runs(gs[..i]), merkles, run);
          m := m + 1;
      }
    }
    assert gs[..|gs|] == gs;
    return c == |chains| && m == |merkles|;
  }

  /** What the prover writes for each segment; indices are truncated to 32 bits. */
  method Emit(gs: seq<Segment>) returns (chains: seq<ChainProof>, merkles: seq<MerkleProof>)
    requires forall k :: 0 <= k < |gs| ==> From(gs[k]) < U32_LIMIT && Size(gs[k]) < U32_LIMIT
    ensures LaidOut(gs, chains, merkles)
  {
    chains, merkles := [], [];
    assert gs[..0] == [];
    for i := 0 to |gs|
      invariant LaidOut(gs[..i], chains, merkles)
    {
      assert gs[..i + 1] == gs[..i] + [gs[i]];
      Push(gs[..i], gs[i]);
      match gs[i] {
        case Chain(start) =>
          SmallMod(start, U32_LIMIT);
          chains := chains + [ChainProof(start % U32_LIMIT)];
        case Merkle(run) =>
          SmallMod(run.start, U32_LIMIT);
          SmallMod(run.len, U32_LIMIT);
          var bits := seq(|run.bits|, k requires 0 <= k < |run.bits| => if run.bits[k] then 1 else 0);
          merkles := merkles + [MerkleProof(run.start % U32_LIMIT, run.len % U32_LIMIT, bits)];
      }
    }
    assert gs[..|gs|] == gs;
  }

  /** What the prover emits for any statements passes the verifier's pairing. */
  method ProveThenPair(s: seq<Statement>) returns (ok: bool)
    requires |s| < U32_LIMIT
    ensures ok
  {
    var mine := SegmentStatements(s);
    SegmentsInside(s, mine, 0);
    var chains, merkles := Emit(mine);
    var theirs := SegmentStatements(s);
    PartitionUnique(s, mine, theirs, 0);
    ok := Pair(theirs, chains, merkles);
  }

  lemma {:induction false} SegmentsInside(s: seq<Statement>, gs: seq<Segment>, from: nat)
    requires Tiles(gs, from, |s|)
    ensures forall k :: 0 <= k < |gs| ==> From(gs[k]) + Size(gs[k]) <= |s|
  {
    if gs != [] {
      TilesBounds(gs[1..], from + Size(gs[0]), |s|);
      SegmentsInside(s, gs[1..], from + Size(gs[0]));
      assert forall k :: 0 < k < |gs| ==> gs[k] == gs[1..][k - 1];
    }
  }

  // ----- the padded, length-bound hash chain -----

  type Block = b: seq<Byte> | |b| == 64 witness seq(64, _ => 0)

  /** A block and the byte count its compression is given. */
  datatype Step = Step(block: Block, len: nat)

  type Cv = nat
  type Compressor = (Cv, Block, nat) -> Cv

  const MIN_STEPS: nat := 256

  function Chunks(length: nat): (n: nat)
    ensures length <= 64 * n && (n > 0 ==> 64 * (n - 1) < length)
  {
    (length + 63) / 64
  }

  /** The least power of two that is at least n, from p on. */
  function PowerFrom(n: nat, p: nat): (r: nat)
    requires p > 0
    ensures n <= r && p <= r && (r == p || r < 2 * n)
    decreases n - p
  {
    if n <= p then p else PowerFrom(n, 2 * p)
  }

  lemma {:induction false} PowerFromIs(n: nat, p: nat, k: nat) returns (j: nat)
    requires p == Pow(2, k)
    ensures PowerFrom(n, p) == Pow(2, j)
    decreases n - p
  {
    if n <= p {
      j := k;
    } else {
      j := PowerFromIs(n, 2 * p, k + 1);
    }
  }

  function ChainSteps(length: nat): (n: nat)
    ensures n >= MIN_STEPS && n >= Chunks(length) + 1
  {
    var p := PowerFrom(Chunks(length) + 1, 1);
    if p < MIN_STEPS then MIN_STEPS else p
  }

  /** The steps are the least power of two, from 256 on, with room for the chunks and the length. */
  lemma StepsExact(length: nat) returns (j: nat)
    ensures ChainSteps(length) == Pow(2, j) >= 256 && 64 * (ChainSteps(length) - 1) >= length
    ensures ChainSteps(length) == 256 || 64 * (ChainSteps(length) / 2 - 1) < length
  {
    j := PowerFromIs(Chunks(length) + 1, 1, 0);
    if ChainSteps(length) == MIN_STEPS {
      j := 8;
      assert Pow(2, 8) == 256;
    } else {
      EvenPower(j);
    }
  }

  lemma EvenPower(j: nat)
    requires Pow(2, j) > 1
    ensures Pow(2, j) % 2 == 0
  {
  }

  function Zeros(n: nat): (z: seq<Byte>)
    ensures |z| == n
  {
    seq(n, _ => 0)
  }

  function ChunkStep(message: seq<Byte>, i: nat): Step
    requires i < Chunks(|message|)
  {
    var hi := if 64 * (i + 1) < |message| then 64 * (i + 1) else |message|;
    Step(message[64 * i..hi] + Zeros(64 - (hi - 64 * i)), hi - 64 * i)
  }

  function LengthStep(length: nat): Step {
    Step(ToLE(length % W64, 8) + Zeros(56), 64)
  }

  const PAD_STEP: Step := Step(Zeros(64), 0)

  /** The steps of a message: its chunks, its length, then empty blocks. */
  function StepAt(message: seq<Byte>, i: nat): Step {
    var n := Chunks(|message|);
    if i < n then ChunkStep(message, i) else if i == n then LengthStep(|message|) else PAD_STEP
  }

  function StepsOf(message: seq<Byte>): (s: seq<Step>)
    ensures |s| == ChainSteps(|message|)
  {
    seq(ChainSteps(|message|), i requires 0 <= i => StepAt(message, i))
  }

  /** The chaining value after the first n steps. */
  function Cvs(compress: Compressor, iv: Cv, steps: nat -> Step, n: nat): Cv {
    if n == 0 then iv else compress(Cvs(compress, iv, steps, n - 1), steps(n - 1).block, steps(n - 1).len)
  }

  function Stepper(message: seq<Byte>): nat -> Step {
    (i: nat) => StepAt(message, i)
  }

  /** A chunk holds the bytes of the message from 64 i on, then zeros. */
  lemma ChunkBytes(message: seq<Byte>, i: nat, b: nat)
    requires b < 64 && i < Chunks(|message|)
    ensures ChunkStep(message, i).block[b] == if 64 * i + b < |message| then message[64 * i + b] else 0
    ensures ChunkStep(message, i).len == if 64 * i + 64 <= |message| then 64 else |message| - 64 * i
  {
    var hi := if 64 * (i + 1) < |message| then 64 * (i + 1) else |message|;
    var part := message[64 * i..hi];
    assert ChunkStep(message, i) == Step(part + Zeros(64 - |part|), |part|);
    if b < |part| {
      assert part[b] == message[64 * i + b];
    }
  }

  lemma LengthBytes(length: nat, b: nat)
    requires b < 64
    ensures LengthStep(length).block[b] == if b < 8 then ToLE(length % W64, 8)[b] else 0
    ensures LengthStep(length).len == 64
  {
    var word := ToLE(length % W64, 8);
    assert LengthStep(length).block == word + Zeros(56);
  }

  /** The bytes of step i: those of the message from 64 i on, then zeros; its length; or nothing. */
  lemma StepBytes(message: seq<Byte>, i: nat, b: nat)
    requires b < 64
    ensures i < Chunks(|message|) ==> StepAt(message, i).block[b] == if 64 * i + b < |message| then message[64 * i + b] else 0
    ensures i < Chunks(|message|) ==> StepAt(message, i).len == if 64 * i + 64 <= |message| then 64 else |message| - 64 * i
    ensures i == Chunks(|message|) ==> StepAt(message, i).block[b] == if b < 8 then ToLE(|message| % W64, 8)[b] else 0
    ensures i == Chunks(|message|) ==> StepAt(message, i).len == 64
    ensures i > Chunks(|message|) ==> StepAt(message, i).block[b] == 0 && StepAt(message, i).len == 0
  {
    if i < Chunks(|message|) {
      ChunkBytes(message, i, b);
    } else if i == Chunks(|message|) {
      LengthBytes(|message|, b);
    } else {
      assert StepAt(message, i) == PAD_STEP;
    }
  }

  /** A block with the chaining value it was compressed under. */
  datatype Compression = Compression(cv: Cv, step: Step)

  /** The first blocks are those of the chain, and cv is the next chaining value. */
  ghost predicate Chained(compress: Compressor, iv: Cv, steps: nat -> Step, blocks: seq<Compression>, cv: Cv) {
    && cv == Cvs(compress, iv, steps, |blocks|)
    && forall i: nat :: i < |blocks| ==> IsBlock(compress, iv, steps, i, blocks[i])
  }

  ghost predicate IsBlock(compress: Compressor, iv: Cv, steps: nat -> Step, i: nat, b: Compression) {
    b == Compression(Cvs(compress, iv, steps, i), steps(i))
  }

  /** Compress one block and record it. */
  method PushStep(compress: Compressor, ghost iv: Cv, ghost steps: nat -> Step, blocks: seq<Compression>, cv: Cv, step: Step)
      returns (blocks': seq<Compression>, cv': Cv)
    requires Chained(compress, iv, steps, blocks, cv) && step == steps(|blocks|)
    ensures Chained(compress, iv, steps, blocks', cv') && |blocks'| == |blocks| + 1
  {
    assert IsBlock(compress, iv, steps, |blocks|, Compression(cv, step));
    blocks' := blocks + [Compression(cv, step)];
    cv' := compress(cv, step.block, step.len);
  }

  /** Block i is compressed under its chaining value into that of the next block, or into the last one. */
  ghost predicate Threads(compress: Compressor, message: seq<Byte>, blocks: seq<Compression>, cv: Cv, i: nat)
    requires i < |blocks|
  {
    && blocks[i].step == StepAt(message, i)
    && compress(blocks[i].cv, blocks[i].step.block, blocks[i].step.len) == if i + 1 < |blocks| then blocks[i + 1].cv else cv
  }

  lemma ChainThreads(compress: Compressor, iv: Cv, steps: nat -> Step, message: seq<Byte>, blocks: seq<Compression>, cv: Cv, i: nat)
    requires Chained(compress, iv, steps, blocks, cv) && steps == Stepper(message) && i < |blocks|
    ensures Threads(compress, message, blocks, cv, i) && (i == 0 ==> blocks[i].cv == iv)
  {
    assert IsBlock(compress, iv, steps, i, blocks[i]);
    if i + 1 < |blocks| { assert IsBlock(compress, iv, steps, i + 1, blocks[i + 1]); }
  }

  /** The materialised blocks and the terminal chaining value. */
  method ChainBlocks(compress: Compressor, iv: Cv, message: seq<Byte>) returns (blocks: seq<Compression>, cv: Cv)
    ensures |blocks| == ChainSteps(|message|) && Chained(compress, iv, Stepper(message), blocks, cv)
    ensures blocks[0].cv == iv && forall i: nat :: i < |blocks| ==> Threads(compress, message, blocks, cv, i)
  {
    var n, steps := Chunks(|message|), ChainSteps(|message|);
    ghost var f := Stepper(message);
    blocks, cv := [], iv;
    for i := 0 to n
      invariant |blocks| == i && Chained(compress, iv, f, blocks, cv)
    {
      blocks, cv := PushStep(compress, iv, f, blocks, cv, ChunkStep(message, i));
    }
    blocks, cv := PushStep(compress, iv, f, blocks, cv, LengthStep(|message|));
    while |blocks| < steps
      invariant n + 1 <= |blocks| <= steps && Chained(compress, iv, f, blocks, cv)
    {
      blocks, cv := PushStep(compress, iv, f, blocks, cv, PAD_STEP);
    }
    forall i: nat | i < |blocks| ensures Threads(compress, message, blocks, cv, i) && (i == 0 ==> blocks[i].cv == iv) {
      ChainThreads(compress, iv, f, message, blocks, cv, i);
    }
  }

  method Absorb(compress: Compressor, ghost iv: Cv, ghost steps: nat -> Step, ghost i: nat, cv: Cv, step: Step) returns (cv': Cv)
    requires cv == Cvs(compress, iv, steps, i) && step == steps(i)
    ensures cv' == Cvs(compress, iv, steps, i + 1)
  {
    cv' := compress(cv, step.block, step.len);
  }

  method AbsorbChunks(compress: Compressor, iv: Cv, message: seq<Byte>, ghost steps: nat -> Step) returns (cv: Cv)
    requires forall i: nat :: i < Chunks(|message|) ==> steps(i) == ChunkStep(message, i)
    ensures cv == Cvs(compress, iv, steps, Chunks(|message|))
  {
    cv := iv;
    for i := 0 to Chunks(|message|)
      invariant cv == Cvs(compress, iv, steps, i)
    {
      cv := Absorb(compress, iv, steps, i, cv, ChunkStep(message, i));
    }
  }

  method AbsorbPadding(compress: Compressor, ghost iv: Cv, ghost steps: nat -> Step, from: nat, to: nat, cv: Cv, pad: Step)
      returns (cv': Cv)
    requires from <= to && cv == Cvs(compress, iv, steps, from) && forall i: nat :: from <= i < to ==> steps(i) == pad
    ensures cv' == Cvs(compress, iv, steps, to)
  {
    cv' := cv;
    for i := from to to
      invariant cv' == Cvs(compress, iv, steps, i)
    {
      cv' := Absorb(compress, iv, steps, i, cv', pad);
    }
  }

  /** The streaming digest: the terminal chaining value, without the blocks. */
  method ChainDigest(compress: Compressor, iv: Cv, message: seq<Byte>) returns (cv: Cv)
    ensures cv == Cvs(compress, iv, Stepper(message), ChainSteps(|message|))
  {
    var n, steps := Chunks(|message|), ChainSteps(|message|);
    ghost var f := Stepper(message);
    cv := AbsorbChunks(compress, iv, message, f);
    cv := Absorb(compress, iv, f, n, cv, LengthStep(|message|));
    cv := AbsorbPadding(compress, iv, f, n + 1, steps, cv, PAD_STEP);
  }

  /** The last nonempty step tells where the message ends. */
  lemma NotFewerChunks(a: seq<Byte>, b: seq<Byte>)
    requires StepsOf(a) == StepsOf(b)
    ensures Chunks(|b|) <= Chunks(|a|)
  {
    var n := Chunks(|b|);
    assert StepsOf(a)[n] == StepsOf(b)[n];
  }

  lemma LengthInjective(a: nat, b: nat)
    requires a < W64 && b < W64 && LengthStep(a) == LengthStep(b)
    ensures a == b
  {
    SmallMod(a, W64);
    SmallMod(b, W64);
    Pow256Eight();
    LEToLE(a, 8);
    LEToLE(b, 8);
    assert ToLE(a, 8) == LengthStep(a).block[..8] && ToLE(b, 8) == LengthStep(b).block[..8];
  }

  lemma ByteBack(message: seq<Byte>, i: nat)
    requires i < |message|
    ensures i / 64 < Chunks(|message|) && ChunkStep(message, i / 64).block[i % 64] == message[i]
  {
  }

  /** Distinct messages have distinct step sequences. */
  lemma StepsInjective(a: seq<Byte>, b: seq<Byte>)
    requires |a| < W64 && |b| < W64 && StepsOf(a) == StepsOf(b)
    ensures a == b
  {
    NotFewerChunks(a, b);
    NotFewerChunks(b, a);
    var n := Chunks(|a|);
    assert StepsOf(a)[n] == StepsOf(b)[n];
    LengthInjective(|a|, |b|);
    forall i: nat | i < |a| ensures a[i] == b[i] {
      ByteBack(a, i);
      ByteBack(b, i);
      assert StepsOf(a)[i / 64] == StepsOf(b)[i / 64];
    }
  }
}
