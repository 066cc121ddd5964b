/**
 * The shuffle, reveal and reconstruct protocol of src/canonical_shuffle_chain.rs: a stateful producer of rows
 * and side material, and an independent verifier that consumes the material row by row. Curve arithmetic,
 * proofs and commitments are functions of the record Crypto.
 *
 * Main results: the verifier accepts exactly when material and protocol rows match one to one, in order and
 * seat by seat; and whatever run a producer makes over linked state images, the verifier accepts its rows and
 * consumes its material to the last entry.
 */
module ShuffleChain {
  import opened Wrappers

  // ----- opaque cryptography -----

  type Card = int
  type Point = nat
  type Scalar = nat
  type Proof = nat
  type Commitment = nat
  type Deck = seq<Card>

  /** A revealed card: the ciphertext and the seat's share of its decryption. */
  datatype Revealed = Revealed(card: Card, token: Point)

  datatype Reconstruction = Reconstruction(contributions: seq<Card>, key: Point, context: nat)

  datatype Crypto = Crypto(
    commitDeck: Deck -> Option<Commitment>,
    reEncrypt: (Card, Point, Scalar) -> Card,
    verifyShuffle: (Deck, Deck, Point, Proof) -> bool,
    tokenOf: (Card, Scalar) -> Point,
    verifyToken: (Card, Point, Point, Proof) -> bool,
    commitReveal: (Commitment, nat, seq<Revealed>) -> Option<Commitment>,
    verifyReconstruct: (Reconstruction, Proof) -> bool,
    commitReconstruct: Reconstruction -> Commitment,
    rebuild: Reconstruction -> Option<Deck>)

  // ----- state images, rows and side material -----

  datatype Phase = Shuffling | Revealing | Reconstructing | Betting | OtherPhase

  /** The protocol part of a state image; `pending` is the mask of seats still to contribute. */
  type Mask = s: set<nat> | forall x :: x in s ==> x < 16

  datatype Image = Image(
    callSeq: nat, phase: Phase, pending: Mask, deck: Commitment, ledger: Commitment, reconstruct: Commitment, table: nat)

  datatype Kind = SubmitShuffle | SubmitReveal | SubmitReconstruct | OtherKind

  datatype Completion = Incomplete | ShuffleComplete | RevealComplete | ReconstructComplete

  datatype Row = Row(kind: Kind, seat: nat, pre: Image, post: Image, completion: Completion, preReconstruct: Commitment)

  datatype ShuffleMaterial = ShuffleMaterial(seat: nat, key: Point, input: Deck, output: Deck, proof: Proof)
  datatype RevealEntry = RevealEntry(revealed: Revealed, proof: Proof)
  datatype RevealMaterial = RevealMaterial(seat: nat, key: Point, entries: seq<RevealEntry>)
  datatype ReconstructMaterial = ReconstructMaterial(seat: nat, statement: Reconstruction, proof: Proof, rebuilt: Deck)

  datatype Material = Material(shuffles: seq<ShuffleMaterial>, disclosures: seq<RevealMaterial>, reconstructs: seq<ReconstructMaterial>)

  const NO_MATERIAL: Material := Material([], [], [])

  // ----- what one row demands of its material -----

  predicate ShuffleOk(c: Crypto, r: Row, m: ShuffleMaterial) {
    && m.seat == r.seat && c.commitDeck(m.input) == Some(r.pre.deck) && c.commitDeck(m.output) == Some(r.post.deck)
    && c.verifyShuffle(m.input, m.output, m.key, m.proof)
  }

  function CardsOf(entries: seq<RevealEntry>): (cards: seq<Revealed>)
    ensures |cards| == |entries|
  {
    seq(|entries|, i requires 0 <= i < |entries| => entries[i].revealed)
  }

  predicate TokensOk(c: Crypto, key: Point, entries: seq<RevealEntry>) {
    forall i :: 0 <= i < |entries| ==> c.verifyToken(entries[i].revealed.card, entries[i].revealed.token, key, entries[i].proof)
  }

  predicate RevealOk(c: Crypto, r: Row, m: RevealMaterial) {
    && m.seat == r.seat && TokensOk(c, m.key, m.entries)
    && c.commitReveal(r.pre.ledger, r.seat, CardsOf(m.entries)) == Some(r.post.ledger)
  }

  predicate ReconstructOk(c: Crypto, r: Row, m: ReconstructMaterial) {
    var rotated := c.commitReconstruct(m.statement);
    && m.seat == r.seat && c.verifyReconstruct(m.statement, m.proof)
    && rotated == r.post.reconstruct
    && !(rotated == r.preReconstruct && r.completion != Incomplete)
    && (r.completion == ReconstructComplete ==> c.commitDeck(m.rebuilt) == Some(r.post.deck))
  }

  // ----- rows of one kind, in order -----

  function Only(rows: seq<Row>, kind: Kind): seq<Row> {
    if rows == [] then []
    else
      var last := rows[|rows| - 1];
      Only(rows[..|rows| - 1], kind) + if last.kind == kind then [last] else []
  }

  lemma OnlyPush(rows: seq<Row>, r: Row, kind: Kind)
    ensures Only(rows + [r], kind) == Only(rows, kind) + if r.kind == kind then [r] else []
  {
    assert (rows + [r])[..|rows|] == rows;
  }

  /** The rows of a prefix come first. */
  lemma {:induction false} OnlyPrefix(rows: seq<Row>, i: nat, kind: Kind)
    requires i <= |rows|
    ensures Only(rows[..i], kind) <= Only(rows, kind)
  {
    if i < |rows| {
      OnlyPrefix(rows[..|rows| - 1], i, kind);
      assert rows[..|rows| - 1][..i] == rows[..i];
    } else {
      assert rows[..i] == rows;
    }
  }

  /** Each row of a kind is answered by the material at its place, with nothing over and nothing missing. */
  ghost predicate Answers<M>(ok: (Crypto, Row, M) -> bool, c: Crypto, rows: seq<Row>, ms: seq<M>) {
    |rows| == |ms| && forall k: nat :: k < |rows| ==> ok(c, rows[k], ms[k])
  }

  ghost predicate Matches(c: Crypto, rows: seq<Row>, m: Material) {
    && Answers(ShuffleOk, c, Only(rows, SubmitShuffle), m.shuffles)
    && Answers(RevealOk, c, Only(rows, SubmitReveal), m.disclosures)
    && Answers(ReconstructOk, c, Only(rows, SubmitReconstruct), m.reconstructs)
  }

  // ----- the verifier -----

  class Sidecar {
    var shuffles: seq<ShuffleMaterial>
    var disclosures: seq<RevealMaterial>
    var reconstructs: seq<ReconstructMaterial>

    function Contents(): Material
      reads this
    {
      Material(shuffles, disclosures, reconstructs)
    }

    constructor (m: Material)
      ensures Contents() == m
    {
      shuffles, disclosures, reconstructs := m.shuffles, m.disclosures, m.reconstructs;
    }

    method TakeShuffle(seat: nat) returns (r: Option<ShuffleMaterial>)
      modifies this
      ensures r.Some? <==> old(shuffles) != [] && old(shuffles)[0].seat == seat
      ensures r.Some? ==> r.value == old(shuffles)[0] && Contents() == old(Contents()).(shuffles := old(shuffles)[1..])
      ensures r.None? ==> Contents() == old(Contents())
    {
      if shuffles == [] || shuffles[0].seat != seat { return None; }
      r := Some(shuffles[0]);
      shuffles := shuffles[1..];
    }

    method TakeReveal(seat: nat) returns (r: Option<RevealMaterial>)
      modifies this
      ensures r.Some? <==> old(disclosures) != [] && old(disclosures)[0].seat == seat
      ensures r.Some? ==> r.value == old(disclosures)[0] && Contents() == old(Contents()).(disclosures := old(disclosures)[1..])
      ensures r.None? ==> Contents() == old(Contents())
    {
      if disclosures == [] || disclosures[0].seat != seat { return None; }
      r := Some(disclosures[0]);
      disclosures := disclosures[1..];
    }

    method TakeReconstruct(seat: nat) returns (r: Option<ReconstructMaterial>)
      modifies this
      ensures r.Some? <==> old(reconstructs) != [] && old(reconstructs)[0].seat == seat
      ensures r.Some? ==> r.value == old(reconstructs)[0] && Contents() == old(Contents()).(reconstructs := old(reconstructs)[1..])
      ensures r.None? ==> Contents() == old(Contents())
    {
      if reconstructs == [] || reconstructs[0].seat != seat { return None; }
      r := Some(reconstructs[0]);
      reconstructs := reconstructs[1..];
    }
  }

  /** The first k entries have answered the rows so far and the rest remain. */
  ghost predicate Answered<M>(ok: (Crypto, Row, M) -> bool, c: Crypto, rows: seq<Row>, all: seq<M>, rest: seq<M>) {
    && |rows| <= |all| && rest == all[|rows|..]
    && forall k: nat :: k < |rows| ==> ok(c, rows[k], all[k])
  }

  /** The next row, answered by the next entry. */
  lemma AnsweredStep<M>(ok: (Crypto, Row, M) -> bool, c: Crypto, rows: seq<Row>, all: seq<M>, rest: seq<M>, r: Row)
    requires Answered(ok, c, rows, all, rest) && rest != [] && ok(c, r, rest[0])
    ensures Answered(ok, c, rows + [r], all, rest[1..])
  {
  }

  /** A row that its entry does not answer, or that has none, refutes the match. */
  lemma Unanswered<M>(ok: (Crypto, Row, M) -> bool, c: Crypto, done: seq<Row>, rows: seq<Row>, all: seq<M>, rest: seq<M>, r: Row)
    requires Answered(ok, c, done, all, rest) && done + [r] <= rows && (rest == [] || !ok(c, r, rest[0]))
    ensures !Answers(ok, c, rows, all)
  {
    assert rows[|done|] == r;
    if rest != [] { assert all[|done|] == rest[0]; }
  }

  /** All rows answered: they match exactly when nothing is left. */
  lemma AllAnswered<M>(ok: (Crypto, Row, M) -> bool, c: Crypto, rows: seq<Row>, all: seq<M>, rest: seq<M>)
    requires Answered(ok, c, rows, all, rest)
    ensures Answers(ok, c, rows, all) <==> rest == []
  {
  }

  ghost predicate Consumed(c: Crypto, rows: seq<Row>, m: Material, rest: Material) {
    && Answered(ShuffleOk, c, Only(rows, SubmitShuffle), m.shuffles, rest.shuffles)
    && Answered(RevealOk, c, Only(rows, SubmitReveal), m.disclosures, rest.disclosures)
    && Answered(ReconstructOk, c, Only(rows, SubmitReconstruct), m.reconstructs, rest.reconstructs)
  }

  /** What a row takes from the material. */
  function Took(kind: Kind, rest: Material): Material {
    match kind
    case SubmitShuffle => if rest.shuffles == [] then rest else rest.(shuffles := rest.shuffles[1..])
    case SubmitReveal => if rest.disclosures == [] then rest else rest.(disclosures := rest.disclosures[1..])
    case SubmitReconstruct => if rest.reconstructs == [] then rest else rest.(reconstructs := rest.reconstructs[1..])
    case OtherKind => rest
  }

  /** Whether the next entry answers the row. */
  predicate RowOk(c: Crypto, r: Row, rest: Material) {
    match r.kind
    case SubmitShuffle => rest.shuffles != [] && ShuffleOk(c, r, rest.shuffles[0])
    case SubmitReveal => rest.disclosures != [] && RevealOk(c, r, rest.disclosures[0])
    case SubmitReconstruct => rest.reconstructs != [] && ReconstructOk(c, r, rest.reconstructs[0])
    case OtherKind => true
  }

  lemma ConsumedStep(c: Crypto, rows: seq<Row>, m: Material, rest: Material, r: Row)
    requires Consumed(c, rows, m, rest) && RowOk(c, r, rest)
    ensures Consumed(c, rows + [r], m, Took(r.kind, rest))
  {
    OnlyPush(rows, r, SubmitShuffle);
    OnlyPush(rows, r, SubmitReveal);
    OnlyPush(rows, r, SubmitReconstruct);
    match r.kind
    case SubmitShuffle => AnsweredStep(ShuffleOk, c, Only(rows, SubmitShuffle), m.shuffles, rest.shuffles, r);
    case SubmitReveal => AnsweredStep(RevealOk, c, Only(rows, SubmitReveal), m.disclosures, rest.disclosures, r);
    case SubmitReconstruct => AnsweredStep(ReconstructOk, c, Only(rows, SubmitReconstruct), m.reconstructs, rest.reconstructs, r);
    case OtherKind =>
  }

  lemma Refuted(c: Crypto, rows: seq<Row>, i: nat, m: Material, rest: Material)
    requires i < |rows| && Consumed(c, rows[..i], m, rest) && !RowOk(c, rows[i], rest)
    ensures !Matches(c, rows, m)
  {
    var done, r := rows[..i], rows[i];
    assert rows[..i + 1] == done + [r];
    OnlyPush(done, r, r.kind);
    OnlyPrefix(rows, i + 1, r.kind);
    match r.kind
    case SubmitShuffle => Unanswered(ShuffleOk, c, Only(done, SubmitShuffle), Only(rows, SubmitShuffle), m.shuffles, rest.shuffles, r);
    case SubmitReveal => Unanswered(RevealOk, c, Only(done, SubmitReveal), Only(rows, SubmitReveal), m.disclosures, rest.disclosures, r);
    case SubmitReconstruct =>
      Unanswered(ReconstructOk, c, Only(done, SubmitReconstruct), Only(rows, SubmitReconstruct), m.reconstructs, rest.reconstructs, r);
  }

  lemma Finished(c: Crypto, rows: seq<Row>, m: Material, rest: Material)
    requires Consumed(c, rows, m, rest)
    ensures Matches(c, rows, m) <==> rest == NO_MATERIAL
  {
    AllAnswered(ShuffleOk, c, Only(rows, SubmitShuffle), m.shuffles, rest.shuffles);
    AllAnswered(RevealOk, c, Only(rows, SubmitReveal), m.disclosures, rest.disclosures);
    AllAnswered(ReconstructOk, c, Only(rows, SubmitReconstruct), m.reconstructs, rest.reconstructs);
  }

  method VerifyShuffleRow(c: Crypto, r: Row, s: Sidecar) returns (ok: bool)
    requires r.kind == SubmitShuffle
    modifies s
    ensures ok <==> RowOk(c, r, old(s.Contents()))
    ensures ok ==> s.Contents() == Took(r.kind, old(s.Contents()))
  {
    var material := s.TakeShuffle(r.seat);
    if material.None? { return false; }
    var input, output := c.commitDeck(material.value.input), c.commitDeck(material.value.output);
    if input.None? || output.None? || input.value != r.pre.deck || output.value != r.post.deck { return false; }
    return c.verifyShuffle(material.value.input, material.value.output, material.value.key, material.value.proof);
  }

  method VerifyRevealRow(c: Crypto, r: Row, s: Sidecar) returns (ok: bool)
    requires r.kind == SubmitReveal
    modifies s
    ensures ok <==> RowOk(c, r, old(s.Contents()))
    ensures ok ==> s.Contents() == Took(r.kind, old(s.Contents()))
  {
    var material := s.TakeReveal(r.seat);
    if material.None? { return false; }
    var entries := material.value.entries;
    for i := 0 to |entries|
      invariant TokensOk(c, material.value.key, entries[..i]) && s.Contents() == Took(r.kind, old(s.Contents()))
    {
      var e := entries[i];
      if !c.verifyToken(e.revealed.card, e.revealed.token, material.value.key, e.proof) { return false; }
    }
    assert entries[..|entries|] == entries;
    return c.commitReveal(r.pre.ledger, r.seat, CardsOf(entries)) == Some(r.post.ledger);
  }

  method VerifyReconstructRow(c: Crypto, r: Row, s: Sidecar) returns (ok: bool)
    requires r.kind == SubmitReconstruct
    modifies s
    ensures ok <==> RowOk(c, r, old(s.Contents()))
    ensures ok ==> s.Contents() == Took(r.kind, old(s.Contents()))
  {
    var material := s.TakeReconstruct(r.seat);
    if material.None? { return false; }
    if !c.verifyReconstruct(material.value.statement, material.value.proof) { return false; }
    var rotated := c.commitReconstruct(material.value.statement);
    if rotated != r.post.reconstruct || (rotated == r.preReconstruct && r.completion != Incomplete) { return false; }
    if r.completion == ReconstructComplete {
      var rebuilt := c.commitDeck(material.value.rebuilt);
      if rebuilt.None? || rebuilt.value != r.post.deck { return false; }
    }
    return true;
  }

  method VerifyRow(c: Crypto, r: Row, s: Sidecar) returns (ok: bool)
    modifies s
    ensures ok <==> RowOk(c, r, old(s.Contents()))
    ensures ok ==> s.Contents() == Took(r.kind, old(s.Contents()))
  {
    match r.kind {
      case SubmitShuffle => ok := VerifyShuffleRow(c, r, s);
      case SubmitReveal => ok := VerifyRevealRow(c, r, s);
      case SubmitReconstruct => ok := VerifyReconstructRow(c, r, s);
      case OtherKind => ok := true;
    }
  }

  /** The commitment a row of a kind rotates. */
  function Rotated(r: Row): Commitment {
    match r.kind
    case SubmitShuffle => r.post.deck
    case SubmitReveal => r.post.ledger
    case _ => r.post.reconstruct
  }

  /** The rotations of one kind, in batch order: what the receipt folds. */
  function ChainOf(rows: seq<Row>, kind: Kind): (chain: seq<Commitment>)
    ensures |chain| == |Only(rows, kind)|
  {
    var only := Only(rows, kind);
    seq(|only|, i requires 0 <= i < |only| => Rotated(only[i]))
  }

  lemma ChainPush(rows: seq<Row>, r: Row, kind: Kind)
    ensures ChainOf(rows + [r], kind) == ChainOf(rows, kind) + if r.kind == kind then [Rotated(r)] else []
  {
    OnlyPush(rows, r, kind);
  }

  /** What a row states, and the receipt digests: its kind and seat, and the commitment before and after. */
  datatype Claim = Claim(kind: Kind, seat: nat, before: Commitment, after: Commitment)

  function Replaced(r: Row): Commitment {
    match r.kind
    case SubmitShuffle => r.pre.deck
    case SubmitReveal => r.pre.ledger
    case _ => r.pre.reconstruct
  }

  /** The claims of the protocol rows, in batch order. */
  function ClaimsOf(rows: seq<Row>): seq<Claim> {
    if rows == [] then []
    else
      var last := rows[|rows| - 1];
      ClaimsOf(rows[..|rows| - 1]) + if last.kind == OtherKind then [] else [Claim(last.kind, last.seat, Replaced(last), Rotated(last))]
  }

  /** The commitments that claims of one kind end in. */
  function AftersOf(claims: seq<Claim>, kind: Kind): seq<Commitment> {
    if claims == [] then []
    else
      var last := claims[|claims| - 1];
      AftersOf(claims[..|claims| - 1], kind) + if last.kind == kind then [last.after] else []
  }

  lemma AftersPush(claims: seq<Claim>, c: Claim, kind: Kind)
    ensures AftersOf(claims + [c], kind) == AftersOf(claims, kind) + if c.kind == kind then [c.after] else []
  {
    assert (claims + [c])[..|claims|] == claims;
  }

  /** The claims of one kind end in the rotations the receipt folds for that kind. */
  lemma {:induction false} ClaimsAreChain(rows: seq<Row>, kind: Kind)
    requires kind != OtherKind
    ensures AftersOf(ClaimsOf(rows), kind) == ChainOf(rows, kind)
  {
    if rows == [] {
      assert ChainOf(rows, kind) == [];
    } else {
      var before, last := rows[..|rows| - 1], rows[|rows| - 1];
      ClaimsAreChain(before, kind);
      ChainPush(before, last, kind);
      assert before + [last] == rows;
      AftersPush(ClaimsOf(before), Claim(last.kind, last.seat, Replaced(last), Rotated(last)), kind);
      if last.kind == OtherKind { assert ClaimsOf(rows) == ClaimsOf(before); }
    }
  }

  datatype Chains = Chains(decks: seq<Commitment>, ledgers: seq<Commitment>, reconstructs: seq<Commitment>, claims: seq<Claim>)

  function ChainsOf(rows: seq<Row>): Chains {
    Chains(ChainOf(rows, SubmitShuffle), ChainOf(rows, SubmitReveal), ChainOf(rows, SubmitReconstruct), ClaimsOf(rows))
  }

  lemma ChainsStart()
    ensures ChainsOf([]) == Chains([], [], [], [])
  {
  }

  method Fold(chains: Chains, r: Row, ghost rows: seq<Row>, ghost fold: seq<Row> -> Chains) returns (next: Chains)
    requires fold == ChainsOf && chains == fold(rows)
    ensures next == fold(rows + [r])
  {
    ChainPush(rows, r, SubmitShuffle);
    ChainPush(rows, r, SubmitReveal);
    ChainPush(rows, r, SubmitReconstruct);
    assert (rows + [r])[..|rows|] == rows;
    match r.kind {
      case SubmitShuffle =>
        next := chains.(decks := chains.decks + [r.post.deck],
                        claims := chains.claims + [Claim(r.kind, r.seat, r.pre.deck, r.post.deck)]);
      case SubmitReveal =>
        next := chains.(ledgers := chains.ledgers + [r.post.ledger],
                        claims := chains.claims + [Claim(r.kind, r.seat, r.pre.ledger, r.post.ledger)]);
      case SubmitReconstruct =>
        next := chains.(reconstructs := chains.reconstructs + [r.post.reconstruct],
                        claims := chains.claims + [Claim(r.kind, r.seat, r.pre.reconstruct, r.post.reconstruct)]);
      case OtherKind => next := chains;
    }
  }

  /** One turn of the row loop: the next row is consumed, or refutes the batch. */
  method TakeRow(c: Crypto, rows: seq<Row>, i: nat, s: Sidecar, chains: Chains, ghost m: Material, ghost fold: seq<Row> -> Chains)
      returns (good: bool, next: Chains)
    requires i < |rows| && Consumed(c, rows[..i], m, s.Contents()) && fold == ChainsOf && chains == fold(rows[..i])
    modifies s
    ensures good ==> Consumed(c, rows[..i + 1], m, s.Contents()) && next == fold(rows[..i + 1])
    ensures !good ==> !Matches(c, rows, m)
  {
    ghost var rest := s.Contents();
    next := chains;
    good := VerifyRow(c, rows[i], s);
    if good {
      assert rows[..i + 1] == rows[..i] + [rows[i]];
      ConsumedStep(c, rows[..i], m, rest, rows[i]);
      next := Fold(chains, rows[i], rows[..i], fold);
    } else {
      Refuted(c, rows, i, m, rest);
    }
  }

  /** The row loop: it accepts exactly the batches whose material matches, and then has consumed all of it. */
  method VerifyRows(c: Crypto, rows: seq<Row>, s: Sidecar) returns (ok: bool, chains: Chains)
    modifies s
    ensures ok <==> Matches(c, rows, old(s.Contents()))
    ensures ok ==> s.Contents() == NO_MATERIAL && chains == ChainsOf(rows)
  {
    ghost var m := s.Contents();
    ghost var fold: seq<Row> -> Chains := ChainsOf;
    chains := Chains([], [], [], []);
    ChainsStart();
    assert rows[..0] == [];
    for i := 0 to |rows|
      invariant Consumed(c, rows[..i], m, s.Contents()) && chains == fold(rows[..i])
    {
      var good;
      good, chains := TakeRow(c, rows, i, s, chains, m, fold);
      if !good { return false, chains; }
    }
    assert rows[..|rows|] == rows;
    Finished(c, rows, m, s.Contents());
    ok := s.Contents() == NO_MATERIAL;
  }

  // ----- what acceptance says of the whole batch -----

  /** Between shuffle rows that hand the deck on, each output deck is committed as the next input deck. */
  lemma DecksLink(c: Crypto, rows: seq<Row>, m: Material, k: nat)
    requires Matches(c, rows, m) && k + 1 < |Only(rows, SubmitShuffle)|
    requires Only(rows, SubmitShuffle)[k].post.deck == Only(rows, SubmitShuffle)[k + 1].pre.deck
    ensures k + 1 < |m.shuffles| && c.commitDeck(m.shuffles[k].output).Some?
    ensures c.commitDeck(m.shuffles[k].output) == c.commitDeck(m.shuffles[k + 1].input)
    ensures c.verifyShuffle(m.shuffles[k].input, m.shuffles[k].output, m.shuffles[k].key, m.shuffles[k].proof)
  {
    var only := Only(rows, SubmitShuffle);
    assert ShuffleOk(c, only[k], m.shuffles[k]) && ShuffleOk(c, only[k + 1], m.shuffles[k + 1]);
  }

  /** The ledger commitment after the first n disclosures, from a first one. */
  function Disclosed(c: Crypto, start: Commitment, ms: seq<RevealMaterial>, n: nat): Option<Commitment>
    requires n <= |ms|
  {
    if n == 0 then Some(start)
    else
      var before := Disclosed(c, start, ms, n - 1);
      if before.None? then None
      else c.commitReveal(before.value, ms[n - 1].seat, seq(|ms[n - 1].entries|, i requires 0 <= i < |ms[n - 1].entries| => ms[n - 1].entries[i].revealed))
  }

  predicate TokenVerifies(c: Crypto, key: Point, e: RevealEntry) {
    c.verifyToken(e.revealed.card, e.revealed.token, key, e.proof)
  }

  ghost predicate AllVerify(c: Crypto, x: RevealMaterial) {
    forall i: nat :: i < |x.entries| ==> TokenVerifies(c, x.key, x.entries[i])
  }

  ghost predicate LedgerHandedOn(only: seq<Row>, k: nat) {
    k + 1 < |only| && only[k].post.ledger == only[k + 1].pre.ledger
  }

  /** Over reveal rows that hand the ledger on, the last commitment is that of all disclosed cards, seat by seat, in order. */
  lemma {:induction false} LedgersLink(c: Crypto, rows: seq<Row>, m: Material, only: seq<Row>, n: nat)
    requires Matches(c, rows, m) && only == Only(rows, SubmitReveal) && 0 < n <= |only|
    requires forall k: nat :: k + 1 < |only| ==> LedgerHandedOn(only, k)
    ensures n <= |m.disclosures| && Disclosed(c, only[0].pre.ledger, m.disclosures, n) == Some(only[n - 1].post.ledger)
    ensures AllVerify(c, m.disclosures[n - 1])
  {
    assert RevealOk(c, only[n - 1], m.disclosures[n - 1]);
    assert CardsOf(m.disclosures[n - 1].entries)
      == seq(|m.disclosures[n - 1].entries|, i requires 0 <= i < |m.disclosures[n - 1].entries| => m.disclosures[n - 1].entries[i].revealed);
    if n > 1 {
      LedgersLink(c, rows, m, only, n - 1);
      assert LedgerHandedOn(only, n - 2);
    }
  }

  /** Every reconstruct row's statement verifies and commits to its rotation, which moves where the row completes the phase. */
  lemma ReconstructsVerify(c: Crypto, rows: seq<Row>, m: Material, k: nat)
    requires Matches(c, rows, m) && k < |Only(rows, SubmitReconstruct)|
    ensures k < |m.reconstructs| && m.reconstructs[k].seat == Only(rows, SubmitReconstruct)[k].seat
    ensures c.verifyReconstruct(m.reconstructs[k].statement, m.reconstructs[k].proof)
    ensures c.commitReconstruct(m.reconstructs[k].statement) == Only(rows, SubmitReconstruct)[k].post.reconstruct
    ensures Only(rows, SubmitReconstruct)[k].completion != Incomplete ==>
      Only(rows, SubmitReconstruct)[k].post.reconstruct != Only(rows, SubmitReconstruct)[k].preReconstruct
  {
    assert ReconstructOk(c, Only(rows, SubmitReconstruct)[k], m.reconstructs[k]);
  }

  /** A rebuilt deck is committed as the next shuffle's input, where the deck is handed on. */
  lemma RebuiltLinks(c: Crypto, rows: seq<Row>, m: Material, k: nat, j: nat)
    requires Matches(c, rows, m) && k < |Only(rows, SubmitReconstruct)| && j < |Only(rows, SubmitShuffle)|
    requires Only(rows, SubmitReconstruct)[k].completion == ReconstructComplete
    requires Only(rows, SubmitReconstruct)[k].post.deck == Only(rows, SubmitShuffle)[j].pre.deck
    ensures k < |m.reconstructs| && j < |m.shuffles| && c.commitDeck(m.reconstructs[k].rebuilt).Some?
    ensures c.commitDeck(m.reconstructs[k].rebuilt) == c.commitDeck(m.shuffles[j].input)
  {
    assert ReconstructOk(c, Only(rows, SubmitReconstruct)[k], m.reconstructs[k]);
    assert ShuffleOk(c, Only(rows, SubmitShuffle)[j], m.shuffles[j]);
  }

  // ----- the producer -----

  datatype Player = Player(seat: nat, secret: Scalar, public: Point)

  /** Where a completed phase leaves the table: who contributes next, and the rest of the image. */
  datatype Closing = Closing(pending: Mask, table: nat)

  /** Deadlines, active masks and blind posting, each of which may refuse. */
  datatype Rules = Rules(
    closeShuffle: Image -> Option<Closing>,
    closeReveal: (Image, nat, nat) -> Option<nat>,
    closeReconstruct: Image -> Option<Closing>)

  /** The lowest pending seat. */
  function Lowest(m: Mask, k: nat): (seat: nat)
    requires exists x :: x in m && k <= x
    ensures seat in m && k <= seat && forall x :: x in m && k <= x ==> seat <= x
    decreases 16 - k
  {
    if k in m then k
    else
      assert forall x :: x in m && k <= x ==> k + 1 <= x;
      Lowest(m, k + 1)
  }

  /** The image after a contribution, before any completion. */
  function Contributed(pre: Image, seat: nat): Image {
    pre.(callSeq := pre.callSeq + 1, pending := pre.pending - {seat})
  }

  function Closed(post: Image, phase: Phase, pending: Mask, table: nat): Image {
    post.(phase := phase, pending := pending, table := table)
  }

  function PlayerAt(players: seq<Player>, seat: nat): (p: Option<Player>)
    ensures p.Some? <==> exists i :: 0 <= i < |players| && players[i].seat == seat
    ensures p.Some? ==> p.value in players && p.value.seat == seat
  {
    if players == [] then None
    else if players[0].seat == seat then Some(players[0])
    else
      assert forall i :: 0 < i < |players| ==> players[i] == players[1..][i - 1];
      PlayerAt(players[1..], seat)
  }

  lemma MatchesShuffle(c: Crypto, rows: seq<Row>, m: Material, r: Row, x: ShuffleMaterial)
    requires Matches(c, rows, m) && r.kind == SubmitShuffle && ShuffleOk(c, r, x)
    ensures Matches(c, rows + [r], m.(shuffles := m.shuffles + [x]))
  {
    OnlyPush(rows, r, SubmitShuffle);
    OnlyPush(rows, r, SubmitReveal);
    OnlyPush(rows, r, SubmitReconstruct);
  }

  lemma MatchesReveal(c: Crypto, rows: seq<Row>, m: Material, r: Row, x: RevealMaterial)
    requires Matches(c, rows, m) && r.kind == SubmitReveal && RevealOk(c, r, x)
    ensures Matches(c, rows + [r], m.(disclosures := m.disclosures + [x]))
  {
    OnlyPush(rows, r, SubmitShuffle);
    OnlyPush(rows, r, SubmitReveal);
    OnlyPush(rows, r, SubmitReconstruct);
  }

  /** A reconstruct row is answered by its material, and only then, if nothing before it was wrong. */
  lemma MatchesReconstruct(c: Crypto, rows: seq<Row>, m: Material, r: Row, x: ReconstructMaterial)
    requires Matches(c, rows, m) && r.kind == SubmitReconstruct
    ensures Matches(c, rows + [r], m.(reconstructs := m.reconstructs + [x])) <==> ReconstructOk(c, r, x)
  {
    OnlyPush(rows, r, SubmitShuffle);
    OnlyPush(rows, r, SubmitReveal);
    OnlyPush(rows, r, SubmitReconstruct);
    var only, all := Only(rows, SubmitReconstruct), m.reconstructs + [x];
    if Answers(ReconstructOk, c, only + [r], all) {
      assert (only + [r])[|only|] == r && all[|only|] == x;
    }
  }

  /** The deck that indices and fresh randomness make of another. */
  function Shuffled(c: Crypto, key: Point, deck: Deck, permutation: seq<nat>, randomness: seq<Scalar>): (d: Deck)
    requires |permutation| == |randomness| && forall i :: 0 <= i < |permutation| ==> permutation[i] < |deck|
    ensures |d| == |permutation|
  {
    seq(|permutation|, i requires 0 <= i < |permutation| => c.reEncrypt(deck[permutation[i]], key, randomness[i]))
  }

  /** The keys and rules of one hand. */
  datatype Env = Env(crypto: Crypto, rules: Rules, players: seq<Player>, aggregate: Point)

  /** What a producer has made so far: live deck, deck chain, side material and rows. */
  datatype Lineage = Lineage(deck: Deck, chain: seq<Commitment>, material: Material, rows: seq<Row>)

  // ----- what each production makes, if it is allowed -----

  /**
   * The indices fall in the deck: indexing panics otherwise. That they are all different is not looked at here but left
   * to the shuffle proof.
   */
  predicate IndexesDeck(deck: Deck, permutation: seq<nat>) {
    |permutation| == |deck| ==> forall i :: 0 <= i < |permutation| ==> permutation[i] < |deck|
  }

  function ShuffleStep(e: Env, deck: Deck, pre: Image, permutation: seq<nat>, randomness: seq<Scalar>, proof: Proof)
      : Option<(Row, ShuffleMaterial)>
    requires IndexesDeck(deck, permutation)
  {
    if pre.phase != Shuffling || pre.pending == {} || |permutation| != |deck| || |randomness| != |deck| then None
    else
      var seat := Lowest(pre.pending, 0);
      var output := Shuffled(e.crypto, e.aggregate, deck, permutation, randomness);
      var commitment := e.crypto.commitDeck(output);
      if !e.crypto.verifyShuffle(deck, output, e.aggregate, proof) || commitment.None? then None
      else
        var post := Contributed(pre, seat).(deck := commitment.value);
        var material := ShuffleMaterial(seat, e.aggregate, deck, output, proof);
        if |pre.pending| != 1 then Some((Row(SubmitShuffle, seat, pre, post, Incomplete, 0), material))
        else
          var closing := e.rules.closeShuffle(pre);
          if closing.None? then None
          else Some((Row(SubmitShuffle, seat, pre, Closed(post, Revealing, closing.value.pending, closing.value.table), ShuffleComplete, pre.reconstruct), material))
  }

  function EntryOf(c: Crypto, deck: Deck, p: Player, index: nat, proof: Proof): RevealEntry
    requires index < |deck|
  {
    RevealEntry(Revealed(deck[index], c.tokenOf(deck[index], p.secret)), proof)
  }

  predicate EntryVerifies(c: Crypto, deck: Deck, p: Player, index: nat, proof: Proof) {
    index < |deck| && c.verifyToken(deck[index], c.tokenOf(deck[index], p.secret), p.public, proof)
  }

  /** The entries of a reveal: each card's token under the seat's secret, with a proof that verifies. */
  function EntriesOf(c: Crypto, deck: Deck, p: Player, indices: seq<nat>, proofs: seq<Proof>): (r: Option<seq<RevealEntry>>)
    requires |indices| == |proofs|
    ensures r.Some? ==> |r.value| == |indices| && TokensOk(c, p.public, r.value)
  {
    if indices == [] then Some([])
    else
      var n := |indices| - 1;
      var before := EntriesOf(c, deck, p, indices[..n], proofs[..n]);
      if before.None? || !EntryVerifies(c, deck, p, indices[n], proofs[n]) then None
      else Some(before.value + [EntryOf(c, deck, p, indices[n], proofs[n])])
  }

  function RevealStep(e: Env, deck: Deck, blinds: Option<(nat, nat)>, pre: Image, seat: nat, indices: seq<nat>, proofs: seq<Proof>)
      : Option<(Row, RevealMaterial)>
    requires |indices| == |proofs|
  {
    var player := PlayerAt(e.players, seat);
    if indices == [] || player.None? then None
    else
      var entries := EntriesOf(e.crypto, deck, player.value, indices, proofs);
      if entries.None? then None
      else
        var commitment := e.crypto.commitReveal(pre.ledger, seat, CardsOf(entries.value));
        if commitment.None? then None
        else
          var post := Contributed(pre, seat).(ledger := commitment.value);
          var material := RevealMaterial(seat, player.value.public, entries.value);
          if |pre.pending| != 1 then Some((Row(SubmitReveal, seat, pre, post, Incomplete, 0), material))
          else if blinds.None? then None
          else
            var closing := e.rules.closeReveal(pre, blinds.value.0, blinds.value.1);
            if closing.None? then None
            else Some((Row(SubmitReveal, seat, pre, Closed(post, Betting, {}, closing.value), RevealComplete, pre.reconstruct), material))
  }

  function ReconstructStep(e: Env, pre: Image, seat: nat, readable: seq<Card>, statement: Reconstruction, proof: Proof)
      : Option<(Row, ReconstructMaterial)>
  {
    var rebuilt := e.crypto.rebuild(statement);
    if readable == [] || PlayerAt(e.players, seat).None? || !e.crypto.verifyReconstruct(statement, proof) || rebuilt.None? then None
    else
      var commitment := e.crypto.commitDeck(rebuilt.value);
      if commitment.None? then None
      else
        var post := Contributed(pre, seat).(reconstruct := e.crypto.commitReconstruct(statement));
        var material := ReconstructMaterial(seat, statement, proof, rebuilt.value);
        if |pre.pending| != 1 then Some((Row(SubmitReconstruct, seat, pre, post, Incomplete, 0), material))
        else
          var closing := e.rules.closeReconstruct(pre);
          if closing.None? then None
          else
            var closed := Closed(post, Shuffling, closing.value.pending, closing.value.table).(deck := commitment.value);
            Some((Row(SubmitReconstruct, seat, pre, closed, ReconstructComplete, pre.reconstruct), material))
  }

  // ----- what a row does to the image -----

  /** One more call; the seat has contributed, and while others are pending nothing else of the phase changes. */
  ghost predicate Contributes(r: Row) {
    && r.post.callSeq == r.pre.callSeq + 1
    && (r.completion == Incomplete ==>
          r.post.pending == r.pre.pending - {r.seat} && r.post.phase == r.pre.phase && r.post.table == r.pre.table && r.preReconstruct == 0)
    && (r.completion != Incomplete ==> |r.pre.pending| == 1 && r.preReconstruct == r.pre.reconstruct)
    && (r.completion == ShuffleComplete ==> r.kind == SubmitShuffle && r.post.phase == Revealing)
    && (r.completion == RevealComplete ==> r.kind == SubmitReveal && r.post.phase == Betting && r.post.pending == {})
    && (r.completion == ReconstructComplete ==> r.kind == SubmitReconstruct && r.post.phase == Shuffling)
  }

  /** A row rotates the commitment of its kind only; a rebuilt deck is the one exception. */
  ghost predicate RotatesOwn(r: Row) {
    && (r.kind != SubmitShuffle && r.completion != ReconstructComplete ==> r.post.deck == r.pre.deck)
    && (r.kind != SubmitReveal ==> r.post.ledger == r.pre.ledger)
    && (r.kind != SubmitReconstruct ==> r.post.reconstruct == r.pre.reconstruct)
  }

  /** The output deck holds, card by card, a re-encryption of the card its index names. */
  ghost predicate Reshuffles(e: Env, input: Deck, output: Deck, permutation: seq<nat>, randomness: seq<Scalar>) {
    && |output| == |input| == |permutation| == |randomness|
    && forall i: nat :: i < |output| ==>
      permutation[i] < |input| && output[i] == e.crypto.reEncrypt(input[permutation[i]], e.aggregate, randomness[i])
  }

  /** Entry i discloses the card at index i with the token under the secret of the first player of the seat. */
  ghost predicate Discloses(e: Env, deck: Deck, seat: nat, indices: seq<nat>, proofs: seq<Proof>, m: RevealMaterial) {
    && m.seat == seat && |m.entries| == |indices| == |proofs|
    && exists p: nat :: FirstOfSeat(e.players, seat, p) && m.key == e.players[p].public
         && forall i: nat :: i < |indices| ==> DisclosesAt(e.crypto, deck, e.players[p].secret, indices[i], proofs[i], m.entries[i])
  }

  ghost predicate DisclosesAt(c: Crypto, deck: Deck, secret: Scalar, index: nat, proof: Proof, entry: RevealEntry) {
    index < |deck| && entry == RevealEntry(Revealed(deck[index], c.tokenOf(deck[index], secret)), proof)
  }

  ghost predicate FirstOfSeat(players: seq<Player>, seat: nat, p: nat) {
    p < |players| && players[p].seat == seat && forall q: nat :: q < p ==> players[q].seat != seat
  }

  lemma {:induction false} PlayerIsFirst(players: seq<Player>, seat: nat) returns (p: nat)
    requires PlayerAt(players, seat).Some?
    ensures FirstOfSeat(players, seat, p) && PlayerAt(players, seat) == Some(players[p])
  {
    if players[0].seat == seat {
      p := 0;
    } else {
      var q := PlayerIsFirst(players[1..], seat);
      p := q + 1;
      forall k: nat | k < p ensures players[k].seat != seat {
        if k > 0 { assert players[1..][k - 1].seat != seat; }
      }
    }
  }

  lemma {:induction false} EntriesDisclose(c: Crypto, deck: Deck, p: Player, indices: seq<nat>, proofs: seq<Proof>, i: nat)
    requires |indices| == |proofs| && EntriesOf(c, deck, p, indices, proofs).Some? && i < |indices|
    ensures DisclosesAt(c, deck, p.secret, indices[i], proofs[i], EntriesOf(c, deck, p, indices, proofs).value[i])
  {
    var n := |indices| - 1;
    if i < n { EntriesDisclose(c, deck, p, indices[..n], proofs[..n], i); }
  }

  lemma ShuffleRowIs(e: Env, deck: Deck, pre: Image, permutation: seq<nat>, randomness: seq<Scalar>, proof: Proof)
    requires IndexesDeck(deck, permutation)
    ensures var step := ShuffleStep(e, deck, pre, permutation, randomness, proof);
      step.Some? ==> var (r, x) := step.value;
        && r.kind == SubmitShuffle && r.pre == pre && Contributes(r) && RotatesOwn(r) && TakesTurn(r)
        && Reshuffles(e, deck, x.output, permutation, randomness) && e.crypto.commitDeck(x.output) == Some(r.post.deck)
  {
  }

  lemma RevealRowIs(e: Env, deck: Deck, blinds: Option<(nat, nat)>, pre: Image, seat: nat, indices: seq<nat>, proofs: seq<Proof>)
    requires |indices| == |proofs|
    ensures var step := RevealStep(e, deck, blinds, pre, seat, indices, proofs);
      step.Some? ==> var (r, x) := step.value;
        && r.kind == SubmitReveal && r.seat == seat && r.pre == pre && Contributes(r) && RotatesOwn(r)
        && Discloses(e, deck, seat, indices, proofs, x)
        && e.crypto.commitReveal(pre.ledger, seat, CardsOf(x.entries)) == Some(r.post.ledger)
  {
    var step := RevealStep(e, deck, blinds, pre, seat, indices, proofs);
    if step.Some? {
      var p := PlayerIsFirst(e.players, seat);
      forall i: nat | i < |indices|
        ensures DisclosesAt(e.crypto, deck, e.players[p].secret, indices[i], proofs[i], step.value.1.entries[i])
      {
        EntriesDisclose(e.crypto, deck, e.players[p], indices, proofs, i);
      }
    }
  }

  lemma ReconstructRowIs(e: Env, pre: Image, seat: nat, readable: seq<Card>, statement: Reconstruction, proof: Proof)
    ensures var step := ReconstructStep(e, pre, seat, readable, statement, proof);
      step.Some? ==> var (r, x) := step.value;
        && r.kind == SubmitReconstruct && r.seat == seat && r.pre == pre && Contributes(r) && RotatesOwn(r)
        && x == ReconstructMaterial(seat, statement, proof, x.rebuilt) && e.crypto.rebuild(statement) == Some(x.rebuilt)
        && r.post.reconstruct == e.crypto.commitReconstruct(statement)
        && (r.completion == ReconstructComplete ==> e.crypto.commitDeck(x.rebuilt) == Some(r.post.deck))
  {
  }

  // ----- a whole shuffle phase -----

  /** The lowest pending seat takes its turn in a shuffling image, and the last one closes the phase. */
  ghost predicate TakesTurn(r: Row) {
    && r.kind == SubmitShuffle && r.pre.phase == Shuffling && r.seat in r.pre.pending
    && (forall x :: x in r.pre.pending ==> r.seat <= x)
    && (r.completion == Incomplete <==> |r.pre.pending| > 1)
  }

  ghost predicate LinkedAt(rows: seq<Row>, i: nat) {
    i + 1 < |rows| && rows[i + 1].pre == rows[i].post
  }

  /** Rows one after another from an image. */
  ghost predicate Continues(rows: seq<Row>, from: Image) {
    && (rows != [] ==> rows[0].pre == from)
    && forall i: nat :: i + 1 < |rows| ==> LinkedAt(rows, i)
  }

  lemma ContinuesTail(rows: seq<Row>, from: Image)
    requires rows != [] && Continues(rows, from)
    ensures Continues(rows[1..], rows[0].post)
  {
    if |rows| > 1 { assert LinkedAt(rows, 0); }
    forall i: nat | i + 1 < |rows| - 1 ensures LinkedAt(rows[1..], i) {
      assert LinkedAt(rows, i + 1);
    }
  }

  /** Which seat contributes at each row of a phase. */
  ghost predicate Serves(rows: seq<Row>, pending: Mask) {
    && (forall i: nat, j: nat :: i < j < |rows| ==> rows[i].seat < rows[j].seat)
    && (forall x: nat :: x in pending <==> IsServed(rows, x))
  }

  ghost predicate IsServed(rows: seq<Row>, x: nat) {
    exists k: nat :: k < |rows| && rows[k].seat == x
  }

  ghost predicate Shuffles(r: Row) {
    Contributes(r) && TakesTurn(r)
  }

  lemma ServedMore(rows: seq<Row>, x: nat)
    requires rows != []
    ensures IsServed(rows, x) <==> rows[0].seat == x || IsServed(rows[1..], x)
  {
    if IsServed(rows[1..], x) {
      var k: nat :| k < |rows| - 1 && rows[1..][k].seat == x;
      assert rows[k + 1].seat == x;
    }
    if IsServed(rows, x) && rows[0].seat != x {
      var k: nat :| k < |rows| && rows[k].seat == x;
      assert rows[1..][k - 1].seat == x;
    }
  }

  lemma ServesMore(rows: seq<Row>, pending: Mask, seat: nat)
    requires rows != [] && rows[0].seat == seat && seat in pending && (forall x :: x in pending ==> seat <= x)
    requires Serves(rows[1..], pending - {seat})
    ensures Serves(rows, pending)
  {
    var rest := rows[1..];
    forall i: nat, j: nat | i < j < |rows| ensures rows[i].seat < rows[j].seat {
      assert rows[j] == rest[j - 1];
      assert IsServed(rest, rest[j - 1].seat);
      if i > 0 { assert rows[i] == rest[i - 1]; }
    }
    forall x: nat ensures x in pending <==> IsServed(rows, x) {
      ServedMore(rows, x);
    }
  }

  /**
   * From an image with n pending seats, n shuffle rows name each of those seats once, in increasing order; the last one,
   * and no other, closes the phase, n calls later.
   */
  lemma {:induction false} PhaseCompletes(rows: seq<Row>, from: Image)
    requires Continues(rows, from) && |rows| == |from.pending| && forall k: nat :: k < |rows| ==> Shuffles(rows[k])
    ensures Serves(rows, from.pending)
    ensures forall k: nat :: k < |rows| ==> (rows[k].completion == ShuffleComplete <==> k == |rows| - 1)
    ensures rows != [] ==> rows[|rows| - 1].post.phase == Revealing && rows[|rows| - 1].post.callSeq == from.callSeq + |rows|
  {
    if rows != [] {
      var r, rest := rows[0], rows[1..];
      assert Shuffles(r);
      ContinuesTail(rows, from);
      assert |from.pending - {r.seat}| == |from.pending| - 1;
      if rest == [] {
        ServesOne(rows, from.pending, r.seat);
      } else {
        assert forall k: nat :: k < |rest| ==> rest[k] == rows[k + 1];
        PhaseCompletes(rest, r.post);
        ServesMore(rows, from.pending, r.seat);
      }
    } else {
      assert from.pending == {};
    }
  }

  lemma ServesOne(rows: seq<Row>, pending: Mask, seat: nat)
    requires |rows| == 1 == |pending| && rows[0].seat == seat && seat in pending
    ensures Serves(rows, pending)
  {
    assert |pending - {seat}| == 0;
    assert pending == {seat};
    assert rows[0].seat == seat;
  }

  // ----- where each production leads -----

  function AfterShuffle(l: Lineage, step: Option<(Row, ShuffleMaterial)>): Lineage {
    if step.None? then l
    else
      var (r, x) := step.value;
      Lineage(x.output, l.chain + [r.post.deck], l.material.(shuffles := l.material.shuffles + [x]), l.rows + [r])
  }

  function AfterReveal(l: Lineage, step: Option<(Row, RevealMaterial)>): Lineage {
    if step.None? then l
    else
      var (r, x) := step.value;
      l.(material := l.material.(disclosures := l.material.disclosures + [x]), rows := l.rows + [r])
  }

  function AfterReconstruct(l: Lineage, step: Option<(Row, ReconstructMaterial)>): Lineage {
    if step.None? then l
    else
      var (r, x) := step.value;
      var material, rows := l.material.(reconstructs := l.material.reconstructs + [x]), l.rows + [r];
      if r.completion == ReconstructComplete then Lineage(x.rebuilt, l.chain + [r.post.deck], material, rows)
      else Lineage(l.deck, l.chain, material, rows)
  }

  // ----- the producer object -----

  class Builder {
    const env: Env
    var deck: Deck
    var sidecar: Material
    var deckChain: seq<Commitment>
    var blinds: Option<(nat, nat)>
    ghost var rows: seq<Row>

    ghost function Contents(): Lineage
      reads this
    {
      Lineage(deck, deckChain, sidecar, rows)
    }

    constructor (env: Env, initial: Deck, commitment: Commitment)
      ensures this.env == env && blinds == None && Contents() == Lineage(initial, [commitment], NO_MATERIAL, [])
    {
      this.env, deck, sidecar, deckChain, blinds, rows := env, initial, NO_MATERIAL, [commitment], None, [];
    }

    method SetRevealCompletionBlinds(sb: nat, bb: nat)
      modifies this`blinds
      ensures blinds == Some((sb, bb))
    {
      blinds := Some((sb, bb));
    }

    /** One shuffle row; nothing changes unless the proof verifies. The proof is what the prover returned. */
    method ProduceShuffleRow(pre: Image, permutation: seq<nat>, randomness: seq<Scalar>, proof: Proof) returns (r: Option<Row>)
      requires IndexesDeck(deck, permutation)
      modifies this`deck, this`sidecar, this`deckChain, this`rows
      ensures var step := ShuffleStep(env, old(deck), pre, permutation, randomness, proof);
        && r == (if step.None? then None else Some(step.value.0)) && Contents() == AfterShuffle(old(Contents()), step)
      ensures r.Some? ==> r.value.pre == pre && Contributes(r.value) && TakesTurn(r.value)
      ensures r.Some? ==> Reshuffles(env, old(deck), deck, permutation, randomness)
    {
      ShuffleRowIs(env, deck, pre, permutation, randomness, proof);
      if pre.phase != Shuffling || pre.pending == {} { return None; }
      var seat := Lowest(pre.pending, 0);
      if |permutation| != |deck| || |randomness| != |deck| { return None; }
      var input, output := deck, Shuffled(env.crypto, env.aggregate, deck, permutation, randomness);
      if !env.crypto.verifyShuffle(input, output, env.aggregate, proof) { return None; }
      var commitment := env.crypto.commitDeck(output);
      if commitment.None? { return None; }
      var post, completion, opening := Contributed(pre, seat).(deck := commitment.value), Incomplete, 0;
      if |pre.pending| == 1 {
        var closing := env.rules.closeShuffle(pre);
        if closing.None? { return None; }
        post, completion, opening := Closed(post, Revealing, closing.value.pending, closing.value.table), ShuffleComplete, pre.reconstruct;
      }
      var row := Row(SubmitShuffle, seat, pre, post, completion, opening);
      deck := output;
      deckChain := deckChain + [commitment.value];
      sidecar := sidecar.(shuffles := sidecar.shuffles + [ShuffleMaterial(seat, env.aggregate, input, output, proof)]);
      rows := rows + [row];
      r := Some(row);
    }

    method Disclose(p: Player, indices: seq<nat>, proofs: seq<Proof>) returns (r: Option<seq<RevealEntry>>)
      requires |proofs| == |indices|
      ensures r == EntriesOf(env.crypto, deck, p, indices, proofs)
    {
      var entries: seq<RevealEntry> := [];
      assert indices[..0] == [];
      for i := 0 to |indices|
        invariant EntriesOf(env.crypto, deck, p, indices[..i], proofs[..i]) == Some(entries)
      {
        assert indices[..i + 1][..i] == indices[..i] && proofs[..i + 1][..i] == proofs[..i];
        if !EntryVerifies(env.crypto, deck, p, indices[i], proofs[i]) {
          Stuck(env.crypto, deck, p, indices, proofs, i + 1);
          return None;
        }
        entries := entries + [EntryOf(env.crypto, deck, p, indices[i], proofs[i])];
      }
      assert indices[..|indices|] == indices && proofs[..|indices|] == proofs;
      r := Some(entries);
    }

    /** One row of reveal tokens; the last one closes the phase with the blinds supplied before. */
    method ProduceRevealRow(pre: Image, seat: nat, indices: seq<nat>, proofs: seq<Proof>) returns (r: Option<Row>)
      requires |proofs| == |indices|
      modifies this`sidecar, this`rows
      ensures var step := RevealStep(env, deck, blinds, pre, seat, indices, proofs);
        && r == (if step.None? then None else Some(step.value.0)) && Contents() == AfterReveal(old(Contents()), step)
      ensures r.Some? ==> r.value.pre == pre && r.value.seat == seat && Contributes(r.value)
      ensures r.Some? ==> sidecar.disclosures != [] && Discloses(env, deck, seat, indices, proofs, sidecar.disclosures[|sidecar.disclosures| - 1])
    {
      RevealRowIs(env, deck, blinds, pre, seat, indices, proofs);
      if indices == [] { return None; }
      var player := PlayerAt(env.players, seat);
      if player.None? { return None; }
      var entries := Disclose(player.value, indices, proofs);
      if entries.None? { return None; }
      var commitment := env.crypto.commitReveal(pre.ledger, seat, CardsOf(entries.value));
      if commitment.None? { return None; }
      var post, completion, opening := Contributed(pre, seat).(ledger := commitment.value), Incomplete, 0;
      if |pre.pending| == 1 {
        if blinds.None? { return None; }
        var closing := env.rules.closeReveal(pre, blinds.value.0, blinds.value.1);
        if closing.None? { return None; }
        post, completion, opening := Closed(post, Betting, {}, closing.value), RevealComplete, pre.reconstruct;
      }
      var row := Row(SubmitReveal, seat, pre, post, completion, opening);
      sidecar := sidecar.(disclosures := sidecar.disclosures + [RevealMaterial(seat, player.value.public, entries.value)]);
      rows := rows + [row];
      r := Some(row);
    }

    /** One reconstruct row, from the statement and proof the prover returned; the last one opens the rebuilt deck. */
    method ProduceReconstructRow(pre: Image, seat: nat, readable: seq<Card>, statement: Reconstruction, proof: Proof) returns (r: Option<Row>)
      modifies this`deck, this`sidecar, this`deckChain, this`rows
      ensures var step := ReconstructStep(env, pre, seat, readable, statement, proof);
        && r == (if step.None? then None else Some(step.value.0)) && Contents() == AfterReconstruct(old(Contents()), step)
      ensures r.Some? ==> r.value.pre == pre && r.value.seat == seat && Contributes(r.value)
    {
      ReconstructRowIs(env, pre, seat, readable, statement, proof);
      if readable == [] { return None; }
      var player := PlayerAt(env.players, seat);
      if player.None? { return None; }
      if !env.crypto.verifyReconstruct(statement, proof) { return None; }
      var rebuilt := env.crypto.rebuild(statement);
      if rebuilt.None? { return None; }
      var commitment := env.crypto.commitDeck(rebuilt.value);
      if commitment.None? { return None; }
      var post, completion, opening := Contributed(pre, seat).(reconstruct := env.crypto.commitReconstruct(statement)), Incomplete, 0;
      if |pre.pending| == 1 {
        var closing := env.rules.closeReconstruct(pre);
        if closing.None? { return None; }
        post := Closed(post, Shuffling, closing.value.pending, closing.value.table).(deck := commitment.value);
        completion, opening := ReconstructComplete, pre.reconstruct;
      }
      var row := Row(SubmitReconstruct, seat, pre, post, completion, opening);
      if completion == ReconstructComplete {
        deck := rebuilt.value;
        deckChain := deckChain + [commitment.value];
      }
      sidecar := sidecar.(reconstructs := sidecar.reconstructs + [ReconstructMaterial(seat, statement, proof, rebuilt.value)]);
      rows := rows + [row];
      r := Some(row);
    }

    /** One request of a run, as a caller makes it: blinds, where a reveal has them, are set before its row is asked for. */
    method Serve(q: Request)
      requires Permitted(Contents(), q) && (q.RevealRequest? && q.blinds.None? ==> blinds.None?)
      modifies this
      ensures Contents() == Produce(env, old(Contents()), q)
    {
      match q {
        case ShuffleRequest(pre, permutation, randomness, proof) =>
          var row := ProduceShuffleRow(pre, permutation, randomness, proof);
        case RevealRequest(pre, seat, indices, proofs, given) =>
          if given.Some? { SetRevealCompletionBlinds(given.value.0, given.value.1); }
          var row := ProduceRevealRow(pre, seat, indices, proofs);
        case ReconstructRequest(pre, seat, readable, statement, proof) =>
          var row := ProduceReconstructRow(pre, seat, readable, statement, proof);
      }
    }
  }

  /** A failing entry fails the whole reveal. */
  lemma {:induction false} Stuck(c: Crypto, deck: Deck, p: Player, indices: seq<nat>, proofs: seq<Proof>, i: nat)
    requires |indices| == |proofs| && 0 < i <= |indices| && EntriesOf(c, deck, p, indices[..i], proofs[..i]) == None
    ensures EntriesOf(c, deck, p, indices, proofs) == None
  {
    var n := |indices| - 1;
    if i == |indices| {
      assert indices[..i] == indices && proofs[..i] == proofs;
    } else {
      assert indices[..n][..i] == indices[..i] && proofs[..n][..i] == proofs[..i];
      Stuck(c, deck, p, indices[..n], proofs[..n], i);
    }
  }

  // ----- every run is accepted -----

  /** What a caller may ask of the producer. */
  datatype Request =
    | ShuffleRequest(pre: Image, permutation: seq<nat>, randomness: seq<Scalar>, proof: Proof)
    | RevealRequest(pre: Image, seat: nat, indices: seq<nat>, proofs: seq<Proof>, blinds: Option<(nat, nat)>)
    | ReconstructRequest(pre: Image, seat: nat, readable: seq<Card>, statement: Reconstruction, proof: Proof)

  predicate Permitted(l: Lineage, q: Request) {
    match q
    case ShuffleRequest(_, permutation, _, _) => IndexesDeck(l.deck, permutation)
    case RevealRequest(_, _, indices, proofs, _) => |indices| == |proofs|
    case ReconstructRequest(_, _, _, _, _) => true
  }

  function Produce(e: Env, l: Lineage, q: Request): Lineage
    requires Permitted(l, q)
  {
    match q
    case ShuffleRequest(pre, permutation, randomness, proof) => AfterShuffle(l, ShuffleStep(e, l.deck, pre, permutation, randomness, proof))
    case RevealRequest(pre, seat, indices, proofs, blinds) => AfterReveal(l, RevealStep(e, l.deck, blinds, pre, seat, indices, proofs))
    case ReconstructRequest(pre, seat, readable, statement, proof) => AfterReconstruct(l, ReconstructStep(e, pre, seat, readable, statement, proof))
  }

  /** The last deck commitment, that of the live deck, is the one the last image carries. */
  ghost predicate Current(c: Crypto, l: Lineage) {
    && |l.chain| > 0 && c.commitDeck(l.deck) == Some(l.chain[|l.chain| - 1])
    && (if l.rows == [] then |l.chain| == 1 else l.rows[|l.rows| - 1].post.deck == l.chain[|l.chain| - 1])
  }

  /** The image continues the run: the last one emitted, or at first one that carries the initial deck. */
  ghost predicate Follows(l: Lineage, pre: Image) {
    |l.chain| > 0 && if l.rows == [] then pre.deck == l.chain[0] else pre == l.rows[|l.rows| - 1].post
  }

  /** A completed reconstruction moves the reconstruction commitment. */
  predicate Rotates(e: Env, q: Request) {
    q.ReconstructRequest? && |q.pre.pending| == 1 ==> e.crypto.commitReconstruct(q.statement) != q.pre.reconstruct
  }

  lemma CurrentKept(e: Env, l: Lineage, q: Request)
    requires Current(e.crypto, l) && Permitted(l, q) && Follows(l, q.pre)
    ensures Current(e.crypto, Produce(e, l, q))
  {
  }

  lemma ShuffleKept(e: Env, l: Lineage, q: Request)
    requires q.ShuffleRequest? && Permitted(l, q) && Matches(e.crypto, l.rows, l.material) && e.crypto.commitDeck(l.deck) == Some(q.pre.deck)
    ensures var n := Produce(e, l, q); Matches(e.crypto, n.rows, n.material)
  {
    var step := ShuffleStep(e, l.deck, q.pre, q.permutation, q.randomness, q.proof);
    if step.Some? { MatchesShuffle(e.crypto, l.rows, l.material, step.value.0, step.value.1); }
  }

  lemma RevealKept(e: Env, l: Lineage, q: Request)
    requires q.RevealRequest? && Permitted(l, q) && Matches(e.crypto, l.rows, l.material)
    ensures var n := Produce(e, l, q); Matches(e.crypto, n.rows, n.material)
  {
    var step := RevealStep(e, l.deck, q.blinds, q.pre, q.seat, q.indices, q.proofs);
    if step.Some? { MatchesReveal(e.crypto, l.rows, l.material, step.value.0, step.value.1); }
  }

  /** Where a reconstruct row is emitted, the verifier goes on accepting exactly when a completion rotates. */
  lemma ReconstructKept(e: Env, l: Lineage, q: Request)
    requires q.ReconstructRequest? && Permitted(l, q) && Matches(e.crypto, l.rows, l.material)
    requires ReconstructStep(e, q.pre, q.seat, q.readable, q.statement, q.proof).Some?
    ensures var n := Produce(e, l, q); Matches(e.crypto, n.rows, n.material) <==> Rotates(e, q)
  {
    var step := ReconstructStep(e, q.pre, q.seat, q.readable, q.statement, q.proof);
    MatchesReconstruct(e.crypto, l.rows, l.material, step.value.0, step.value.1);
  }

  lemma MatchKept(e: Env, l: Lineage, q: Request)
    requires Matches(e.crypto, l.rows, l.material) && Current(e.crypto, l) && Permitted(l, q) && Follows(l, q.pre) && Rotates(e, q)
    ensures var n := Produce(e, l, q); Matches(e.crypto, n.rows, n.material)
  {
    match q {
      case ShuffleRequest(_, _, _, _) => ShuffleKept(e, l, q);
      case RevealRequest(_, _, _, _, _) => RevealKept(e, l, q);
      case ReconstructRequest(pre, seat, readable, statement, proof) =>
        if ReconstructStep(e, pre, seat, readable, statement, proof).Some? { ReconstructKept(e, l, q); }
    }
  }

  /** A run of requests from a fresh producer, each continuing the images, each completion rotating. */
  ghost predicate IsRun(e: Env, states: seq<Lineage>, requests: seq<Request>) {
    && |states| == |requests| + 1
    && |states[0].chain| == 1 && states[0].rows == [] && states[0].material == NO_MATERIAL
    && e.crypto.commitDeck(states[0].deck) == Some(states[0].chain[0])
    && forall i: nat :: i < |requests| ==> IsStep(e, states[i], requests[i], states[i + 1])
  }

  ghost predicate IsStep(e: Env, l: Lineage, q: Request, n: Lineage) {
    Permitted(l, q) && Follows(l, q.pre) && Rotates(e, q) && n == Produce(e, l, q)
  }

  /** Whatever run a producer makes, the verifier accepts its rows with its material. */
  lemma {:induction false} RunAccepted(e: Env, states: seq<Lineage>, requests: seq<Request>, i: nat)
    requires IsRun(e, states, requests) && i < |states|
    ensures Current(e.crypto, states[i]) && Matches(e.crypto, states[i].rows, states[i].material)
  {
    if i > 0 {
      RunAccepted(e, states, requests, i - 1);
      assert IsStep(e, states[i - 1], requests[i - 1], states[i - 1 + 1]);
      CurrentKept(e, states[i - 1], requests[i - 1]);
      MatchKept(e, states[i - 1], requests[i - 1]);
    }
  }

  // ----- every row of a run -----

  /** What every emitted row does, whatever was asked for. */
  ghost predicate GoodRow(r: Row) {
    Contributes(r) && RotatesOwn(r) && (r.kind == SubmitShuffle ==> TakesTurn(r))
  }

  ghost predicate Emits(rows: seq<Row>, more: seq<Row>, pre: Image) {
    |more| == |rows| + 1 && more[..|rows|] == rows && GoodRow(more[|rows|]) && more[|rows|].pre == pre
  }

  lemma ProducedRow(e: Env, l: Lineage, q: Request)
    requires Permitted(l, q)
    ensures var n := Produce(e, l, q);
      n.rows == l.rows || Emits(l.rows, n.rows, q.pre)
  {
    match q
    case ShuffleRequest(pre, permutation, randomness, proof) => ShuffleRowIs(e, l.deck, pre, permutation, randomness, proof);
    case RevealRequest(pre, seat, indices, proofs, blinds) => RevealRowIs(e, l.deck, blinds, pre, seat, indices, proofs);
    case ReconstructRequest(pre, seat, readable, statement, proof) => ReconstructRowIs(e, pre, seat, readable, statement, proof);
  }

  /** Rows that follow one another, each one call after the one before, each doing what its kind does. */
  ghost predicate GoodRows(rows: seq<Row>) {
    && (forall k: nat :: k < |rows| ==> GoodRow(rows[k]))
    && (forall k: nat :: k + 1 < |rows| ==> LinkedAt(rows, k))
    && (forall k: nat :: k < |rows| ==> rows[k].post.callSeq == rows[0].pre.callSeq + k + 1)
  }

  lemma GoodPush(rows: seq<Row>, more: seq<Row>, pre: Image)
    requires GoodRows(rows) && Emits(rows, more, pre) && (rows != [] ==> pre == rows[|rows| - 1].post)
    ensures GoodRows(more)
  {
    assert forall k: nat :: k < |rows| ==> more[k] == rows[k];
    forall k: nat | k + 1 < |more| ensures LinkedAt(more, k) {
      if k + 1 < |rows| { assert LinkedAt(rows, k); }
    }
  }

  lemma StepContributes(e: Env, l: Lineage, q: Request, n: Lineage)
    requires IsStep(e, l, q, n) && GoodRows(l.rows)
    ensures GoodRows(n.rows)
  {
    ProducedRow(e, l, q);
    if n.rows != l.rows { GoodPush(l.rows, n.rows, q.pre); }
  }

  /** In every run the rows follow one another, call by call, and each contributes as its kind does. */
  lemma {:induction false} RunContributes(e: Env, states: seq<Lineage>, requests: seq<Request>, i: nat)
    requires IsRun(e, states, requests) && i < |states|
    ensures GoodRows(states[i].rows)
  {
    if i > 0 {
      RunContributes(e, states, requests, i - 1);
      assert IsStep(e, states[i - 1], requests[i - 1], states[i - 1 + 1]);
      StepContributes(e, states[i - 1], requests[i - 1], states[i]);
    }
  }

  /** So a stretch of a run that is all shuffle rows, as many as seats were pending, completes the phase. */
  lemma RunCompletesPhase(e: Env, states: seq<Lineage>, requests: seq<Request>, i: nat, a: nat, b: nat)
    requires IsRun(e, states, requests) && i < |states| && a < b <= |states[i].rows|
    requires b - a == |states[i].rows[a].pre.pending| && forall k: nat :: a <= k < b ==> states[i].rows[k].kind == SubmitShuffle
    ensures var rows := states[i].rows[a..b];
      && Serves(rows, rows[0].pre.pending) && rows[|rows| - 1].completion == ShuffleComplete
      && rows[|rows| - 1].post.phase == Revealing
  {
    var all := states[i].rows;
    var rows := all[a..b];
    RunContributes(e, states, requests, i);
    forall k: nat | k + 1 < |rows| ensures LinkedAt(rows, k) {
      assert LinkedAt(all, a + k);
    }
    forall k: nat | k < |rows| ensures Shuffles(rows[k]) {
      assert GoodRow(all[a + k]);
    }
    PhaseCompletes(rows, rows[0].pre);
  }

  // ----- the claims of a run -----

  function OfKind(claims: seq<Claim>, kind: Kind): seq<Claim> {
    if claims == [] then []
    else
      var last := claims[|claims| - 1];
      OfKind(claims[..|claims| - 1], kind) + if last.kind == kind then [last] else []
  }

  lemma OfKindPush(claims: seq<Claim>, c: Claim, kind: Kind)
    ensures OfKind(claims + [c], kind) == OfKind(claims, kind) + if c.kind == kind then [c] else []
  {
    assert (claims + [c])[..|claims|] == claims;
  }

  /** Each claim starts where the one before it ended, from one commitment to another. */
  ghost predicate HandsOver(claims: seq<Claim>, from: Commitment, to: Commitment) {
    if claims == [] then from == to
    else
      var last := claims[|claims| - 1];
      last.after == to && HandsOver(claims[..|claims| - 1], from, last.before)
  }

  lemma HandsOverPush(claims: seq<Claim>, c: Claim, from: Commitment)
    requires HandsOver(claims, from, c.before)
    ensures HandsOver(claims + [c], from, c.after)
  {
    assert (claims + [c])[..|claims|] == claims;
  }

  /** The commitment that only rows of the kind rotate. */
  function Own(i: Image, kind: Kind): Commitment {
    if kind == SubmitReveal then i.ledger else i.reconstruct
  }

  /** What one row claims. */
  function Claimed(r: Row): seq<Claim> {
    if r.kind == OtherKind then [] else [Claim(r.kind, r.seat, Replaced(r), Rotated(r))]
  }

  lemma ClaimsPush(rows: seq<Row>, r: Row)
    ensures ClaimsOf(rows + [r]) == ClaimsOf(rows) + Claimed(r)
  {
    assert (rows + [r])[..|rows|] == rows;
  }

  lemma HandOverStep(claims: seq<Claim>, r: Row, kind: Kind, from: Commitment)
    requires RotatesOwn(r) && (kind == SubmitReveal || kind == SubmitReconstruct)
    requires HandsOver(OfKind(claims, kind), from, Own(r.pre, kind))
    ensures HandsOver(OfKind(claims + Claimed(r), kind), from, Own(r.post, kind))
  {
    if r.kind == OtherKind {
      assert claims + Claimed(r) == claims;
    } else {
      var c := Claim(r.kind, r.seat, Replaced(r), Rotated(r));
      OfKindPush(claims, c, kind);
      if r.kind == kind {
        HandsOverPush(OfKind(claims, kind), c, from);
      } else {
        assert OfKind(claims, kind) + [] == OfKind(claims, kind);
      }
    }
  }

  /** Over the rows of a run the claims of disclosures hand the ledger over, and those of reconstructions their commitment. */
  lemma {:induction false} ClaimsHandOver(rows: seq<Row>, kind: Kind)
    requires GoodRows(rows) && rows != [] && (kind == SubmitReveal || kind == SubmitReconstruct)
    ensures HandsOver(OfKind(ClaimsOf(rows), kind), Own(rows[0].pre, kind), Own(rows[|rows| - 1].post, kind))
  {
    var n := |rows| - 1;
    var before, r := rows[..n], rows[n];
    assert rows == before + [r] && GoodRow(r);
    ClaimsPush(before, r);
    if n > 0 {
      GoodPrefix(rows);
      ClaimsHandOver(before, kind);
      assert LinkedAt(rows, n - 1);
    }
    HandOverStep(ClaimsOf(before), r, kind, Own(rows[0].pre, kind));
  }

  lemma GoodPrefix(rows: seq<Row>)
    requires GoodRows(rows) && |rows| > 1
    ensures GoodRows(rows[..|rows| - 1])
  {
    var before := rows[..|rows| - 1];
    forall k: nat | k + 1 < |before| ensures LinkedAt(before, k) {
      assert LinkedAt(rows, k);
    }
  }
}
