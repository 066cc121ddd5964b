/**
 * The outer aggregate of src/outer_aggregate.rs: a fixed header and length-prefixed dual-proof children. Main
 * results: decode after encode, and encode after decode, are the identity on exactly the well-formed
 * aggregates and the accepted byte strings.
 */
module OuterCodec {
  import opened Arith
  import opened Words
  import opened DualCodec
  import opened Wrappers

  const OUTER_MAGIC: seq<Byte> := [0x5a, 0x50, 0x4f, 0x55, 0x54, 0x52, 0x30, 0x34]   // ZPOUTR04
  const OUTER_VERSION: Byte := 1
  const OUTER_HEADER: nat := 144
  const MIN_CHILDREN: nat := 2
  const MAX_CHILDREN: nat := 64
  const MAX_OUTER: nat := 0x1000_0000
  const MAX_CHILD: nat := 20 + MAX_PROOF + MAX_REQUEST

  type Word32 = x: int | 0 <= x < 0x1_0000_0000
  type Root = b: seq<Byte> | |b| == 32 witness seq(32, _ => 0)

  datatype Meta = Meta(
    version: Byte, table: U64, hand: Word32, firstCall: Word32, preVersion: U64, postVersion: U64,
    preRoot: Root, postRoot: Root, digest: Root)

  datatype Aggregate = Aggregate(meta: Meta, children: seq<Bundle>)

  predicate CountOk(n: nat) { MIN_CHILDREN <= n <= MAX_CHILDREN }

  // ----- encoding -----

  function U64Bytes(x: U64): (b: seq<Byte>)
    ensures |b| == 8
  {
    ToLE(x, 8)
  }

  function OuterHeader(m: Meta, count: nat): (h: seq<Byte>)
    ensures |h| == OUTER_HEADER
  {
    OUTER_MAGIC + [m.version, 0] + [0, 0] + U32(count) + U64Bytes(m.table) + U32(m.hand) + U32(m.firstCall)
    + U64Bytes(m.preVersion) + U64Bytes(m.postVersion) + m.preRoot + m.postRoot + m.digest
  }

  /** A child with its length prefix. */
  function Framed(b: Bundle): (w: seq<Byte>)
    ensures |w| == 4 + |Wire(b)|
  {
    U32(|Wire(b)|) + Wire(b)
  }

  function FramedAll(children: seq<Bundle>): (w: seq<Byte>) {
    if children == [] then [] else Framed(children[0]) + FramedAll(children[1..])
  }

  function OuterWire(a: Aggregate): seq<Byte> {
    OuterHeader(a.meta, |a.children|) + FramedAll(a.children)
  }

  predicate ChildOk(b: Bundle) {
    Encodable(b) && |Wire(b)| <= MAX_CHILD
  }

  /** What encoding checks. */
  predicate OuterEncodable(a: Aggregate) {
    && CountOk(|a.children|) && |OuterWire(a)| <= MAX_OUTER
    && forall i :: 0 <= i < |a.children| ==> ChildOk(a.children[i])
  }

  /** The limits in figures: 2 to 64 children of up to 71303188 bytes, 256 MiB in all. */
  lemma OuterLimits(a: Aggregate)
    ensures OuterEncodable(a) <==>
      && 2 <= |a.children| <= 64 && |OuterWire(a)| <= 268_435_456
      && forall i :: 0 <= i < |a.children| ==> Encodable(a.children[i]) && |Wire(a.children[i])| <= 71_303_188
  {
  }

  /** The magic bytes spell a word. */
  lemma OuterMagicSpells(i: nat)
    requires i < 8
    ensures OUTER_MAGIC[i] == "ZPOUTR04"[i] as int
  {
  }

  lemma {:induction false} FramedPush(children: seq<Bundle>, b: Bundle, w: seq<Byte>)
    requires w == Framed(b)
    ensures FramedAll(children + [b]) == FramedAll(children) + w
  {
    if children == [] {
      assert [b][1..] == [];
      assert children + [b] == [b];
      assert FramedAll([b]) == Framed(b) + FramedAll([]);
    } else {
      FramedPush(children[1..], b, w);
      assert (children + [b])[1..] == children[1..] + [b];
      assert (children + [b])[0] == children[0];
    }
  }

  lemma FramedNext(children: seq<Bundle>, i: nat)
    requires i < |children|
    ensures FramedAll(children[..i + 1]) == FramedAll(children[..i]) + Framed(children[i])
  {
    FramedPush(children[..i], children[i], Framed(children[i]));
    assert children[..i + 1] == children[..i] + [children[i]];
  }

  /** Total length first, then the bytes, child after child. */
  method EncodeOuter(a: Aggregate) returns (r: Option<seq<Byte>>)
    ensures r.Some? <==> OuterEncodable(a)
    ensures r.Some? ==> r.value == OuterWire(a)
  {
    if !CountOk(|a.children|) { return None; }
    var total := OUTER_HEADER;
    for i := 0 to |a.children|
      invariant total == OUTER_HEADER + |FramedAll(a.children[..i])|
      invariant forall k :: 0 <= k < i ==> ChildOk(a.children[k])
    {
      var len := EncodedLen(a.children[i]);
      if len.None? || len.value > MAX_CHILD { return None; }
      FramedNext(a.children, i);
      total := total + 4 + len.value;
    }
    assert a.children[..|a.children|] == a.children;
    if total > MAX_OUTER { return None; }
    var out := WriteChildren(a);
    return Some(out);
  }

  method WriteChild(buffer: Buffer, b: Bundle)
    requires Encodable(b)
    modifies buffer
    ensures buffer.bytes == old(buffer.bytes) + Framed(b)
  {
    var len := EncodedLen(b);
    buffer.Extend(U32(len.value));
    var n := buffer.EncodeInto(b);
  }

  lemma Regroup(a: seq<Byte>, b: seq<Byte>, c: seq<Byte>)
    ensures (a + b) + c == a + (b + c)
  {
  }

  method WriteChildren(a: Aggregate) returns (out: seq<Byte>)
    requires forall i :: 0 <= i < |a.children| ==> ChildOk(a.children[i])
    ensures out == OuterWire(a)
  {
    var buffer := new Buffer();
    buffer.Extend(OuterHeader(a.meta, |a.children|));
    for i := 0 to |a.children|
      invariant buffer.bytes == OuterHeader(a.meta, |a.children|) + FramedAll(a.children[..i])
    {
      ghost var before := FramedAll(a.children[..i]);
      WriteChild(buffer, a.children[i]);
      FramedNext(a.children, i);
      Regroup(OuterHeader(a.meta, |a.children|), before, Framed(a.children[i]));
    }
    assert a.children[..|a.children|] == a.children;
    out := buffer.bytes;
  }

  // ----- decoding -----

  /** The child at a cursor: its length prefix within bounds, its payload present and accepted. */
  function ChildAt(abis: Abis, x: seq<Byte>, cursor: nat): (r: Option<(Bundle, nat)>)
    ensures r.Some? ==> cursor < r.value.1 <= |x|
  {
    if cursor + 4 > |x| then None
    else
      var len := ReadLE(x, cursor, 4);
      if len == 0 || len > MAX_CHILD || cursor + 4 + len > |x| then None
      else
        var b := Decode(abis, x[cursor + 4..cursor + 4 + len]);
        if b.None? then None else Some((b.value, cursor + 4 + len))
  }

  /** n children from a cursor, to the end of the bytes. */
  function ChildrenAt(abis: Abis, x: seq<Byte>, cursor: nat, n: nat): (r: Option<seq<Bundle>>)
    ensures r.Some? ==> |r.value| == n
    decreases n
  {
    if n == 0 then if cursor == |x| then Some([]) else None
    else
      var first := ChildAt(abis, x, cursor);
      if first.None? then None
      else
        var rest := ChildrenAt(abis, x, first.value.1, n - 1);
        if rest.None? then None else Some([first.value.0] + rest.value)
  }

  predicate OuterHeaderOk(x: seq<Byte>) {
    && OUTER_HEADER <= |x| <= MAX_OUTER && x[..8] == OUTER_MAGIC && x[8] == OUTER_VERSION && x[9] == 0
    && x[10..12] == [0, 0] && CountOk(ReadLE(x, 12, 4))
  }

  function ReadU32(x: seq<Byte>, from: nat): Word32
    requires from + 4 <= |x|
  {
    Pow256Four();
    ReadLE(x, from, 4)
  }

  function ReadU64(x: seq<Byte>, from: nat): U64
    requires from + 8 <= |x|
  {
    Pow256Eight();
    ReadLE(x, from, 8)
  }

  function MetaOf(x: seq<Byte>): Meta
    requires OUTER_HEADER <= |x|
  {
    Meta(x[8], ReadU64(x, 16), ReadU32(x, 24), ReadU32(x, 28), ReadU64(x, 32), ReadU64(x, 40), x[48..80], x[80..112], x[112..144])
  }

  function DecodeOuter(abis: Abis, x: seq<Byte>): Option<Aggregate> {
    if !OuterHeaderOk(x) then None
    else
      var children := ChildrenAt(abis, x, OUTER_HEADER, ReadLE(x, 12, 4));
      if children.None? then None else Some(Aggregate(MetaOf(x), children.value))
  }

  /** The cursor loop computes the same. */
  method DecodeChildren(abis: Abis, x: seq<Byte>, n: nat) returns (r: Option<seq<Bundle>>)
    requires OUTER_HEADER <= |x|
    ensures r == ChildrenAt(abis, x, OUTER_HEADER, n)
  {
    var cursor: nat := OUTER_HEADER;
    var children: seq<Bundle> := [];
    ResumeStart(abis, x, n);
    for i := 0 to n
      invariant i <= n && |children| == i && cursor <= |x|
      invariant Resumes(abis, x, n, children, ChildrenAt(abis, x, cursor, n - i))
    {
      var child := ChildAt(abis, x, cursor);
      if child.None? { return None; }
      ResumeStep(abis, x, n, children, cursor, n - i, child.value.0, child.value.1);
      children, cursor := children + [child.value.0], child.value.1;
    }
    if cursor != |x| { return None; }
    assert children + [] == children;
    return Some(children);
  }

  /** The whole is what was read followed by what is still to be read. */
  ghost predicate Resumes(abis: Abis, x: seq<Byte>, n: nat, children: seq<Bundle>, rest: Option<seq<Bundle>>) {
    ChildrenAt(abis, x, OUTER_HEADER, n) == if rest.None? then None else Some(children + rest.value)
  }

  lemma ResumeStart(abis: Abis, x: seq<Byte>, n: nat)
    ensures Resumes(abis, x, n, [], ChildrenAt(abis, x, OUTER_HEADER, n))
  {
    var rest := ChildrenAt(abis, x, OUTER_HEADER, n);
    if rest.Some? { assert [] + rest.value == rest.value; }
  }

  lemma ResumeStep(abis: Abis, x: seq<Byte>, n: nat, children: seq<Bundle>, cursor: nat, m: nat, b: Bundle, next: nat)
    requires m > 0 && ChildAt(abis, x, cursor) == Some((b, next))
    requires Resumes(abis, x, n, children, ChildrenAt(abis, x, cursor, m))
    ensures Resumes(abis, x, n, children + [b], ChildrenAt(abis, x, next, m - 1))
  {
    var rest := ChildrenAt(abis, x, next, m - 1);
    if rest.Some? { assert children + ([b] + rest.value) == children + [b] + rest.value; }
  }

  // ----- decode after encode -----

  predicate ChildSupported(abis: Abis, b: Bundle) {
    IsBundle(b) && Supported(abis, b)
  }

  /** Child i is one the encoder and the decoder both accept. */
  predicate Good(abis: Abis, children: seq<Bundle>, i: nat)
    requires i < |children|
  {
    ChildOk(children[i]) && ChildSupported(abis, children[i])
  }

  ghost predicate AllGood(abis: Abis, children: seq<Bundle>) {
    forall i: nat :: i < |children| ==> Good(abis, children, i)
  }

  lemma GoodTail(abis: Abis, children: seq<Bundle>)
    requires AllGood(abis, children) && children != []
    ensures ChildOk(children[0]) && ChildSupported(abis, children[0]) && AllGood(abis, children[1..])
  {
    assert Good(abis, children, 0);
    forall i: nat | i < |children| - 1 ensures Good(abis, children[1..], i) {
      assert Good(abis, children, i + 1);
    }
  }

  lemma GoodCons(abis: Abis, b: Bundle, rest: seq<Bundle>)
    requires ChildOk(b) && ChildSupported(abis, b) && AllGood(abis, rest)
    ensures AllGood(abis, [b] + rest)
  {
    forall i: nat | i < |rest| + 1 ensures Good(abis, [b] + rest, i) {
      if i > 0 { assert Good(abis, rest, i - 1); }
    }
  }

  lemma FrameSlices(x: seq<Byte>, cursor: nat, b: Bundle, rest: seq<Byte>, len: nat)
    requires cursor <= |x| && x[cursor..] == Framed(b) + rest && len == |Wire(b)|
    ensures cursor + 4 + len <= |x| && x[cursor..cursor + 4] == U32(len) && x[cursor + 4..cursor + 4 + len] == Wire(b)
    ensures x[cursor + 4 + len..] == rest
  {
    var y := x[cursor..];
    assert y == U32(len) + (Wire(b) + rest);
    assert x[cursor..cursor + 4] == y[..4];
    assert x[cursor + 4..cursor + 4 + len] == y[4..4 + len];
    assert x[cursor + 4 + len..] == y[4 + len..];
  }

  lemma ReadFramed(abis: Abis, x: seq<Byte>, cursor: nat, b: Bundle, rest: seq<Byte>)
    requires ChildOk(b) && ChildSupported(abis, b) && cursor <= |x| && x[cursor..] == Framed(b) + rest
    ensures ChildAt(abis, x, cursor) == Some((b, cursor + |Framed(b)|)) && cursor + |Framed(b)| <= |x|
    ensures x[cursor + |Framed(b)|..] == rest
  {
    var len := |Wire(b)|;
    FrameSlices(x, cursor, b, rest, len);
    ReadSlice(x, cursor, len);
    RoundTrip(abis, b);
  }

  lemma NoneLeft(abis: Abis, x: seq<Byte>, cursor: nat)
    requires cursor <= |x| && x[cursor..] == FramedAll([])
    ensures ChildrenAt(abis, x, cursor, 0) == Some([])
  {
    assert |x[cursor..]| == |x| - cursor;
  }

  lemma OneMore(abis: Abis, x: seq<Byte>, cursor: nat, n: nat, b: Bundle, next: nat, rest: seq<Bundle>, all: seq<Bundle>)
    requires n > 0 && ChildAt(abis, x, cursor) == Some((b, next)) && ChildrenAt(abis, x, next, n - 1) == Some(rest)
    requires all == [b] + rest
    ensures ChildrenAt(abis, x, cursor, n) == Some(all)
  {
  }

  lemma {:induction false} ReadAllFramed(abis: Abis, x: seq<Byte>, cursor: nat, children: seq<Bundle>)
    requires cursor <= |x| && x[cursor..] == FramedAll(children)
    requires AllGood(abis, children)
    ensures ChildrenAt(abis, x, cursor, |children|) == Some(children)
    decreases |children|
  {
    if children == [] {
      NoneLeft(abis, x, cursor);
    } else {
      GoodTail(abis, children);
      var next := FirstFramed(abis, x, cursor, children);
      ReadAllFramed(abis, x, next, children[1..]);
      assert children == [children[0]] + children[1..];
      OneMore(abis, x, cursor, |children|, children[0], next, children[1..], children);
    }
  }

  lemma FirstFramed(abis: Abis, x: seq<Byte>, cursor: nat, children: seq<Bundle>) returns (next: nat)
    requires cursor <= |x| && children != [] && x[cursor..] == FramedAll(children)
    requires ChildOk(children[0]) && ChildSupported(abis, children[0])
    ensures ChildAt(abis, x, cursor) == Some((children[0], next)) && next <= |x| && x[next..] == FramedAll(children[1..])
  {
    next := cursor + |Framed(children[0])|;
    ReadFramed(abis, x, cursor, children[0], FramedAll(children[1..]));
  }

  lemma ReadSlice64(x: seq<Byte>, from: nat, n: U64)
    requires from + 8 <= |x| && x[from..from + 8] == U64Bytes(n)
    ensures ReadLE(x, from, 8) == n
  {
    Pow256Eight();
    LEToLE(n, 8);
  }

  lemma BytesBack(m: Meta, count: nat, body: seq<Byte>)
    ensures var x := OuterHeader(m, count) + body;
      && x[..8] == OUTER_MAGIC && x[8] == m.version && x[9] == 0 && x[10..12] == [0, 0]
      && x[48..80] == m.preRoot && x[80..112] == m.postRoot && x[112..144] == m.digest
  {
  }

  lemma SlicesBack(m: Meta, count: nat, body: seq<Byte>)
    ensures var x := OuterHeader(m, count) + body;
      && x[12..16] == U32(count) && x[16..24] == U64Bytes(m.table) && x[24..28] == U32(m.hand) && x[28..32] == U32(m.firstCall)
      && x[32..40] == U64Bytes(m.preVersion) && x[40..48] == U64Bytes(m.postVersion)
  {
  }

  /** The integer fields of the header read back. */
  lemma NumbersBack(m: Meta, count: nat, x: seq<Byte>)
    requires count < U32_LIMIT && OUTER_HEADER <= |x|
    requires x[12..16] == U32(count) && x[16..24] == U64Bytes(m.table) && x[24..28] == U32(m.hand) && x[28..32] == U32(m.firstCall)
    requires x[32..40] == U64Bytes(m.preVersion) && x[40..48] == U64Bytes(m.postVersion)
    ensures ReadLE(x, 12, 4) == count && ReadLE(x, 16, 8) == m.table && ReadLE(x, 24, 4) == m.hand
    ensures ReadLE(x, 28, 4) == m.firstCall && ReadLE(x, 32, 8) == m.preVersion && ReadLE(x, 40, 8) == m.postVersion
  {
    ReadSlice(x, 12, count);
    ReadSlice64(x, 16, m.table);
    ReadSlice(x, 24, m.hand);
    ReadSlice(x, 28, m.firstCall);
    ReadSlice64(x, 32, m.preVersion);
    ReadSlice64(x, 40, m.postVersion);
  }

  /** A well-formed aggregate: encodable, of the current version, every child supported. */
  ghost predicate WellFormed(abis: Abis, a: Aggregate) {
    && CountOk(|a.children|) && |OuterWire(a)| <= MAX_OUTER && a.meta.version == OUTER_VERSION && AllGood(abis, a.children)
  }

  /** Decoding undoes encoding for every well-formed aggregate. */
  lemma OuterRoundTrip(abis: Abis, a: Aggregate)
    requires WellFormed(abis, a)
    ensures DecodeOuter(abis, OuterWire(a)) == Some(a)
  {
    var n := |a.children|;
    SlicesBack(a.meta, n, FramedAll(a.children));
    NumbersBack(a.meta, n, OuterWire(a));
    BytesBack(a.meta, n, FramedAll(a.children));
    ReadAllFramed(abis, OuterWire(a), OUTER_HEADER, a.children);
  }

  // ----- encode after decode -----

  lemma WriteBack64(x: seq<Byte>, from: nat)
    requires from + 8 <= |x|
    ensures U64Bytes(ReadU64(x, from)) == x[from..from + 8]
  {
    ToLELE(x[from..from + 8]);
  }

  /** What a child that reads says of the bytes it stands in. */
  lemma ChildParts(abis: Abis, x: seq<Byte>, cursor: nat, b: Bundle, next: nat) returns (w: seq<Byte>)
    requires ChildAt(abis, x, cursor) == Some((b, next))
    ensures cursor + 4 <= next <= |x| && w == x[cursor + 4..next] && Decode(abis, w) == Some(b)
    ensures ReadLE(x, cursor, 4) == |w| <= MAX_CHILD
  {
    w := x[cursor + 4..next];
  }

  lemma ChildSound(abis: Abis, b: Bundle, w: seq<Byte>)
    requires Decode(abis, w) == Some(b) && |w| <= MAX_CHILD
    ensures Wire(b) == w && ChildOk(b) && ChildSupported(abis, b)
  {
    Canonical(abis, w);
    RoundTrip(abis, b);
  }

  lemma ChildBack(abis: Abis, x: seq<Byte>, cursor: nat, b: Bundle, next: nat)
    requires ChildAt(abis, x, cursor) == Some((b, next))
    ensures x[cursor..next] == Framed(b) && ChildOk(b) && ChildSupported(abis, b)
  {
    var w := ChildParts(abis, x, cursor, b, next);
    ChildSound(abis, b, w);
    WriteBack(x, cursor);
    assert x[cursor..next] == x[cursor..cursor + 4] + x[cursor + 4..next];
  }

  lemma {:induction false} ChildrenBack(abis: Abis, x: seq<Byte>, cursor: nat, n: nat, all: seq<Bundle>)
    requires cursor <= |x| && ChildrenAt(abis, x, cursor, n) == Some(all)
    ensures x[cursor..] == FramedAll(all) && AllGood(abis, all)
    decreases n
  {
    if n > 0 {
      var first := ChildAt(abis, x, cursor).value;
      var rest := ChildrenAt(abis, x, first.1, n - 1).value;
      ChildrenBack(abis, x, first.1, n - 1, rest);
      ChildBack(abis, x, cursor, first.0, first.1);
      GoodCons(abis, first.0, rest);
      Spliced(x, cursor, first.1, first.0, rest);
    }
  }

  lemma Spliced(x: seq<Byte>, cursor: nat, next: nat, b: Bundle, rest: seq<Bundle>)
    requires cursor <= next <= |x| && x[cursor..next] == Framed(b) && x[next..] == FramedAll(rest)
    ensures x[cursor..] == FramedAll([b] + rest)
  {
    assert ([b] + rest)[1..] == rest;
    assert x[cursor..] == x[cursor..next] + x[next..];
  }

  lemma MetaBack(x: seq<Byte>)
    requires OuterHeaderOk(x)
    ensures OuterHeader(MetaOf(x), ReadLE(x, 12, 4)) == x[..OUTER_HEADER]
  {
    WriteBack(x, 12);
    WriteBack64(x, 16);
    WriteBack(x, 24);
    WriteBack(x, 28);
    WriteBack64(x, 32);
    WriteBack64(x, 40);
    Pieces(x);
    assert x[8..10] == [x[8], 0];
  }

  lemma Pieces(x: seq<Byte>)
    requires OUTER_HEADER <= |x|
    ensures x[..OUTER_HEADER] == x[..8] + x[8..10] + x[10..12] + x[12..16] + x[16..24] + x[24..28] + x[28..32]
      + x[32..40] + x[40..48] + x[48..80] + x[80..112] + x[112..144]
  {
  }

  /** Whatever decodes is well formed and re-encodes to the same bytes. */
  lemma OuterCanonical(abis: Abis, x: seq<Byte>)
    requires DecodeOuter(abis, x).Some?
    ensures WellFormed(abis, DecodeOuter(abis, x).value) && OuterWire(DecodeOuter(abis, x).value) == x
  {
    ChildrenBack(abis, x, OUTER_HEADER, ReadLE(x, 12, 4), DecodeOuter(abis, x).value.children);
    MetaBack(x);
    assert x == x[..OUTER_HEADER] + x[OUTER_HEADER..];
  }

  /** Well-formed aggregates are encodable. */
  lemma WellFormedEncodes(abis: Abis, a: Aggregate)
    requires WellFormed(abis, a)
    ensures OuterEncodable(a)
  {
    forall i: nat | i < |a.children| ensures ChildOk(a.children[i]) {
      assert Good(abis, a.children, i);
    }
  }

  /** Exactly the well-formed aggregates can be encoded and decode to themselves. */
  lemma OuterRoundTripIff(abis: Abis, a: Aggregate)
    ensures WellFormed(abis, a) <==> OuterEncodable(a) && DecodeOuter(abis, OuterWire(a)) == Some(a)
    ensures WellFormed(abis, a) ==> a.meta.version == 1
  {
    if WellFormed(abis, a) {
      WellFormedEncodes(abis, a);
      OuterRoundTrip(abis, a);
    }
    if DecodeOuter(abis, OuterWire(a)) == Some(a) { OuterCanonical(abis, OuterWire(a)); }
  }
}
