/**
 * The dual-proof envelope of src/method_precompile_dual.rs: a strict little-endian codec. Main results: an
 * encoded bundle decodes to itself exactly when its version, route and root binding are supported; whatever
 * decodes re-encodes to the same bytes; and the three ways of producing the bytes agree.
 */
module DualCodec {
  import opened Arith
  import opened Words
  import opened Wrappers

  const MAGIC: seq<Byte> := [0x5a, 0x50, 0x44, 0x55, 0x41, 0x4c, 0x30, 0x33]   // ZPDUAL03
  const VERSION: Byte := 2
  const HEADER: nat := 24
  const MAX_PROOF: nat := 0x400_0000
  const MAX_REQUEST: nat := 0x40_0000
  const MAX_BINDING: nat := 0x40_0000
  const U32_LIMIT: nat := 0x1_0000_0000

  datatype Bundle = Bundle(
    version: Byte, call: Byte, precompile: Byte, abi: Byte, proof: seq<Byte>, request: seq<Byte>, binding: seq<Byte>)

  /** The request ABI versions that are defined outside this program. */
  datatype Abis = Abis(shuffle: Byte, reconstruction: Byte)

  /** Method numbers in use. */
  predicate IsMethod(m: Byte) {
    m <= 22 && m != 5 && m != 10 && m != 15 && m != 16
  }

  predicate IsPrecompile(p: Byte) { 1 <= p <= 4 }

  /** Shuffle, reconstruction, fold with proof and player tokens, each with its own precompile and ABI. */
  predicate IsRoute(abis: Abis, call: Byte, precompile: Byte, abi: Byte) {
    || (call == 17 && precompile == 1 && abi == abis.shuffle)
    || (call == 19 && precompile == 3 && abi == abis.reconstruction)
    || (call == 22 && precompile == 2 && abi == 1)
    || (call == 18 && precompile == 4 && abi == 1)
  }

  /** The nineteen method numbers and the four precompiles. */
  lemma SelectorsAre(x: Byte)
    ensures IsMethod(x) <==> x in {0, 1, 2, 3, 4, 6, 7, 8, 9, 11, 12, 13, 14, 17, 18, 19, 20, 21, 22}
    ensures IsPrecompile(x) <==> x in {1, 2, 3, 4}
  {
  }

  /** Call by call: which precompile answers it, under which ABI version; no other call has one. */
  lemma RoutesAre(abis: Abis, precompile: Byte, abi: Byte)
    ensures IsRoute(abis, 17, precompile, abi) <==> precompile == 1 && abi == abis.shuffle
    ensures IsRoute(abis, 18, precompile, abi) <==> precompile == 4 && abi == 1
    ensures IsRoute(abis, 19, precompile, abi) <==> precompile == 3 && abi == abis.reconstruction
    ensures IsRoute(abis, 22, precompile, abi) <==> precompile == 2 && abi == 1
    ensures forall call: Byte :: IsRoute(abis, call, precompile, abi) ==> IsMethod(call) && IsPrecompile(precompile) && call in {17, 18, 19, 22}
  {
  }

  predicate LengthsOk(proof: nat, request: nat) {
    0 < proof <= MAX_PROOF && 0 < request <= MAX_REQUEST
  }

  /** A bundle's selectors are those of the program's own enumerations. */
  predicate IsBundle(b: Bundle) {
    IsMethod(b.call) && IsPrecompile(b.precompile)
  }

  // ----- encoding -----

  function U32(n: nat): (b: seq<Byte>)
    ensures |b| == 4
  {
    ToLE(n, 4)
  }

  function HeaderOf(b: Bundle): (h: seq<Byte>)
    ensures |h| == HEADER
  {
    MAGIC + [b.version, b.call, b.precompile, b.abi] + U32(|b.proof|) + U32(|b.request|) + U32(|b.binding|)
  }

  function Wire(b: Bundle): (w: seq<Byte>)
    ensures |w| == HEADER + |b.proof| + |b.request| + |b.binding|
  {
    HeaderOf(b) + b.proof + b.request + b.binding
  }

  /** Encoding checks lengths only: not the version, not the route, and the binding only against 32 bits. */
  predicate Encodable(b: Bundle) {
    LengthsOk(|b.proof|, |b.request|) && |b.binding| < U32_LIMIT
  }

  method Encode(b: Bundle) returns (r: Option<seq<Byte>>)
    ensures r.Some? <==> Encodable(b)
    ensures r.Some? <==> 0 < |b.proof| <= 67_108_864 && 0 < |b.request| <= 4_194_304 && |b.binding| < 4_294_967_296
    ensures r.Some? ==> r.value == Wire(b)
  {
    if !LengthsOk(|b.proof|, |b.request|) || |b.binding| >= U32_LIMIT { return None; }
    var out: seq<Byte> := MAGIC;
    out := out + [b.version, b.call, b.precompile, b.abi];
    out := out + U32(|b.proof|);
    out := out + U32(|b.request|);
    out := out + U32(|b.binding|);
    out := out + b.proof;
    out := out + b.request;
    out := out + b.binding;
    return Some(out);
  }

  method EncodedLen(b: Bundle) returns (r: Option<nat>)
    ensures r.Some? <==> Encodable(b)
    ensures r.Some? ==> r.value == |Wire(b)|
  {
    if !LengthsOk(|b.proof|, |b.request|) || |b.binding| >= U32_LIMIT { return None; }
    return Some(HEADER + |b.proof| + |b.request| + |b.binding|);
  }

  /** The low 32 bits of a length. */
  function Truncated(n: nat): (b: seq<Byte>)
    ensures n < U32_LIMIT ==> b == U32(n)
  {
    if n < U32_LIMIT then
      SmallMod(n, U32_LIMIT);
      U32(n % U32_LIMIT)
    else U32(n % U32_LIMIT)
  }

  lemma WireSplit(b: Bundle, out: seq<Byte>, proof: seq<Byte>, request: seq<Byte>, binding: seq<Byte>)
    requires proof == U32(|b.proof|) && request == U32(|b.request|) && binding == U32(|b.binding|)
    ensures out + (MAGIC + [b.version, b.call, b.precompile, b.abi] + proof + request + binding) + (b.proof + b.request + b.binding)
      == out + Wire(b)
  {
  }

  /** A growing output buffer. */
  class Buffer {
    var bytes: seq<Byte>

    constructor ()
      ensures bytes == []
    {
      bytes := [];
    }

    method Extend(more: seq<Byte>)
      modifies this
      ensures bytes == old(bytes) + more
    {
      bytes := bytes + more;
    }

    method ExtendHeader(b: Bundle, proof: seq<Byte>, request: seq<Byte>, binding: seq<Byte>)
      modifies this
      ensures bytes == old(bytes) + (MAGIC + [b.version, b.call, b.precompile, b.abi] + proof + request + binding)
    {
      Extend(MAGIC);
      Extend([b.version, b.call, b.precompile, b.abi]);
      Extend(proof);
      Extend(request);
      Extend(binding);
    }

    method ExtendBody(b: Bundle)
      modifies this
      ensures bytes == old(bytes) + (b.proof + b.request + b.binding)
    {
      Extend(b.proof);
      Extend(b.request);
      Extend(b.binding);
    }

    /** Append a bundle's encoding; a refused bundle leaves the buffer alone. */
    method EncodeInto(b: Bundle) returns (r: Option<nat>)
      modifies this
      ensures r.Some? <==> Encodable(b)
      ensures r.Some? ==> r.value == |Wire(b)| && bytes == old(bytes) + Wire(b)
      ensures r.None? ==> bytes == old(bytes)
    {
      r := EncodedLen(b);
      if r.None? { return; }
      WireSplit(b, bytes, U32(|b.proof|), U32(|b.request|), U32(|b.binding|));
      ExtendHeader(b, U32(|b.proof|), U32(|b.request|), U32(|b.binding|));
      ExtendBody(b);
    }

    /** Feed a hasher the same bytes; lengths are truncated to 32 bits, which the check before makes exact. */
    method UpdateHasher(b: Bundle) returns (r: Option<nat>)
      modifies this
      ensures r.Some? <==> Encodable(b)
      ensures r.Some? ==> r.value == |Wire(b)| && bytes == old(bytes) + Wire(b)
      ensures r.None? ==> bytes == old(bytes)
    {
      r := EncodedLen(b);
      if r.None? { return; }
      var proof, request, binding := Truncated(|b.proof|), Truncated(|b.request|), Truncated(|b.binding|);
      WireSplit(b, bytes, proof, request, binding);
      ExtendHeader(b, proof, request, binding);
      ExtendBody(b);
    }
  }

  // ----- decoding -----

  function ReadLE(bytes: seq<Byte>, from: nat, n: nat): (v: nat)
    requires from + n <= |bytes|
    ensures v < Pow(256, n)
  {
    var b: seq<int> := bytes[from..from + n];
    LEBound(b);
    LE(b)
  }

  /** What the decoder demands of the header. */
  predicate HeaderOk(abis: Abis, x: seq<Byte>) {
    && HEADER <= |x| && x[..8] == MAGIC && x[8] == VERSION && IsMethod(x[9]) && IsPrecompile(x[10])
    && IsRoute(abis, x[9], x[10], x[11])
    && LengthsOk(ReadLE(x, 12, 4), ReadLE(x, 16, 4)) && ReadLE(x, 20, 4) <= MAX_BINDING
    && |x| == HEADER + ReadLE(x, 12, 4) + ReadLE(x, 16, 4) + ReadLE(x, 20, 4)
  }

  function Decode(abis: Abis, x: seq<Byte>): (r: Option<Bundle>)
    ensures r.Some? <==> HeaderOk(abis, x)
    ensures r.Some? ==> IsBundle(r.value)
  {
    if !HeaderOk(abis, x) then None
    else
      var p := HEADER + ReadLE(x, 12, 4);
      var q := p + ReadLE(x, 16, 4);
      Some(Bundle(x[8], x[9], x[10], x[11], x[HEADER..p], x[p..q], x[q..]))
  }

  /** What decoding asks beyond what encoding checked. */
  predicate Supported(abis: Abis, b: Bundle) {
    b.version == VERSION && IsRoute(abis, b.call, b.precompile, b.abi) && |b.binding| <= MAX_BINDING
  }

  /** The magic bytes spell a word. */
  lemma MagicSpells(i: nat)
    requires i < 8
    ensures MAGIC[i] == "ZPDUAL03"[i] as int
  {
  }

  lemma Pow256Four()
    ensures Pow(256, 4) == U32_LIMIT
  {
  }

  lemma ReadSlice(x: seq<Byte>, from: nat, n: nat)
    requires n < U32_LIMIT && from + 4 <= |x| && x[from..from + 4] == U32(n)
    ensures ReadLE(x, from, 4) == n
  {
    Pow256Four();
    LEToLE(n, 4);
  }

  lemma ReadBack(pre: seq<Byte>, n: nat, post: seq<Byte>)
    requires n < U32_LIMIT
    ensures |pre| + 4 <= |pre + U32(n) + post| && ReadLE(pre + U32(n) + post, |pre|, 4) == n
  {
    Pow256Four();
    LEToLE(n, 4);
    assert (pre + U32(n) + post)[|pre|..|pre| + 4] == U32(n);
  }

  /** The fields of the encoded header. */
  lemma WireHeader(b: Bundle)
    requires Encodable(b)
    ensures var x := Wire(b);
      && x[..8] == MAGIC && x[8] == b.version && x[9] == b.call && x[10] == b.precompile && x[11] == b.abi
      && ReadLE(x, 12, 4) == |b.proof| && ReadLE(x, 16, 4) == |b.request| && ReadLE(x, 20, 4) == |b.binding|
  {
    var x := Wire(b);
    var body := b.proof + b.request + b.binding;
    var head := MAGIC + [b.version, b.call, b.precompile, b.abi];
    var p, q, r := U32(|b.proof|), U32(|b.request|), U32(|b.binding|);
    assert x == head + p + (q + r + body);
    assert x == (head + p) + q + (r + body);
    assert x == (head + p + q) + r + body;
    ReadBack(head, |b.proof|, q + r + body);
    ReadBack(head + p, |b.request|, r + body);
    ReadBack(head + p + q, |b.binding|, body);
  }

  /** An encoded bundle decodes to itself exactly when the decoder supports it. */
  lemma RoundTrip(abis: Abis, b: Bundle)
    requires IsBundle(b) && Encodable(b)
    ensures Decode(abis, Wire(b)) == Some(b) <==> Supported(abis, b)
    ensures Decode(abis, Wire(b)) == Some(b)
      <==> b.version == 2 && IsRoute(abis, b.call, b.precompile, b.abi) && |b.binding| <= 4_194_304
    ensures !Supported(abis, b) ==> Decode(abis, Wire(b)) == None
  {
    WireHeader(b);
    BodyBack(b);
  }

  lemma BodyBack(b: Bundle)
    ensures var p, q := HEADER + |b.proof|, HEADER + |b.proof| + |b.request|;
      Wire(b)[HEADER..p] == b.proof && Wire(b)[p..q] == b.request && Wire(b)[q..] == b.binding
  {
  }

  lemma WriteBack(x: seq<Byte>, from: nat)
    requires from + 4 <= |x|
    ensures U32(ReadLE(x, from, 4)) == x[from..from + 4]
  {
    ToLELE(x[from..from + 4]);
  }

  /** Whatever decodes re-encodes to the same bytes. */
  lemma Canonical(abis: Abis, x: seq<Byte>)
    requires Decode(abis, x).Some?
    ensures Encodable(Decode(abis, x).value) && Wire(Decode(abis, x).value) == x
  {
    var b := Decode(abis, x).value;
    Pow256Four();
    WriteBack(x, 12);
    WriteBack(x, 16);
    WriteBack(x, 20);
    HeaderBack(x, b);
  }

  lemma HeaderBack(x: seq<Byte>, b: Bundle)
    requires |x| == HEADER + |b.proof| + |b.request| + |b.binding|
    requires x[..8] == MAGIC && x[8] == b.version && x[9] == b.call && x[10] == b.precompile && x[11] == b.abi
    requires x[12..16] == U32(|b.proof|) && x[16..20] == U32(|b.request|) && x[20..24] == U32(|b.binding|)
    requires x[HEADER..HEADER + |b.proof|] == b.proof
    requires x[HEADER + |b.proof|..HEADER + |b.proof| + |b.request|] == b.request && x[HEADER + |b.proof| + |b.request|..] == b.binding
    ensures Wire(b) == x
  {
    assert x[8..12] == [b.version, b.call, b.precompile, b.abi];
    assert x[..24] == x[..8] + x[8..12] + x[12..16] + x[16..20] + x[20..24];
    var p, q := HEADER + |b.proof|, HEADER + |b.proof| + |b.request|;
    assert x == x[..24] + x[24..p] + x[p..q] + x[q..];
  }
}
