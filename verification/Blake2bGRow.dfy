/**
 * The witness side of the G component (src/blake2b_lookup_g.rs): ripple-carry addition and the row built
 * for one call. The row satisfies every constraint and lookup exactly when the call is a true G.
 */
module Blake2bGRow {
  import opened Arith
  import opened Field31
  import opened Words
  import opened Rfc7693
  import opened Blake2bG

  // ----- byte addition with a running carry -----

  /** Carry out of byte i when three byte strings are added from the least significant end. */
  function CarryAt(a: seq<int>, b: seq<int>, x: seq<int>, i: nat): int
    requires |a| == |b| == |x| && i < |a|
  {
    (a[i] + b[i] + x[i] + (if i == 0 then 0 else CarryAt(a, b, x, i - 1))) / 256
  }

  function SumAt(a: seq<int>, b: seq<int>, x: seq<int>, i: nat): int
    requires |a| == |b| == |x| && i < |a|
  {
    (a[i] + b[i] + x[i] + (if i == 0 then 0 else CarryAt(a, b, x, i - 1))) % 256
  }

  lemma {:induction false} CarryAtRange(a: seq<int>, b: seq<int>, x: seq<int>, i: nat)
    requires |a| == |b| == |x| && i < |a| && IsBytes(a) && IsBytes(b) && IsBytes(x)
    ensures 0 <= CarryAt(a, b, x, i) <= 2
  {
    if i > 0 { CarryAtRange(a, b, x, i - 1); }
  }

  /** The bytes and carries of the ripple addition spell the wrapping sum. */
  lemma RippleAdds(a: U64, b: U64, x: U64, o: seq<int>, c: seq<int>)
    requires |o| == |c| == 8
    requires forall i: nat :: i < 8 ==> o[i] == SumAt(ToLE(a, 8), ToLE(b, 8), ToLE(x, 8), i)
    requires forall i: nat :: i < 8 ==> c[i] == CarryAt(ToLE(a, 8), ToLE(b, 8), ToLE(x, 8), i)
    ensures IsBytes(o) && o == ToLE(Plus(a, b, x), 8) && LE(o) == Plus(a, b, x)
    ensures CarryChain(ToLE(a, 8), ToLE(b, 8), ToLE(x, 8), o, c, 0)
  {
    var aa, bb, xx := ToLE(a, 8), ToLE(b, 8), ToLE(x, 8);
    forall i: nat | i < 8
      ensures 0 <= o[i] < 256 && CarryStep(aa, bb, xx, o, c, 0, i)
    {
      if i > 0 { assert c[i - 1] == CarryAt(aa, bb, xx, i - 1); }
      assert o[i] == SumAt(aa, bb, xx, i) && c[i] == CarryAt(aa, bb, xx, i);
    }
    ToLEValue(a);
    ToLEValue(b);
    ToLEValue(x);
    AdditionOfBytes(aa, bb, xx, o, c);
    ToLELE(o);
  }

  lemma ToLEValue(x: U64)
    ensures LE(ToLE(x, 8)) == x && IsBytes(ToLE(x, 8))
  {
    Pow256Eight();
    LEToLE(x, 8);
  }

  ghost predicate Rippled(a: seq<int>, b: seq<int>, x: seq<int>, o: seq<int>, c: seq<int>, i: nat)
    requires |a| == |b| == |x| && |o| == |c| && i < |a| && i < |o|
  {
    o[i] == SumAt(a, b, x, i) && c[i] == CarryAt(a, b, x, i)
  }

  method AddWithCarries(a: U64, b: U64, extra: U64) returns (sum: U64, carries: seq<int>)
    ensures sum == Plus(a, b, extra)
    ensures |carries| == 8
    ensures forall i: nat :: i < 8 ==> carries[i] == CarryAt(ToLE(a, 8), ToLE(b, 8), ToLE(extra, 8), i)
  {
    var aa: seq<int>, bb: seq<int>, xx: seq<int> := ToLE(a, 8), ToLE(b, 8), ToLE(extra, 8);
    var out: seq<int> := [];
    carries := [];
    var carry := 0;
    for i := 0 to 8
      invariant |out| == |carries| == i
      invariant carry == if i == 0 then 0 else carries[i - 1]
      invariant forall j: nat :: j < i ==> Rippled(aa, bb, xx, out, carries, j)
    {
      if i > 0 { assert Rippled(aa, bb, xx, out, carries, i - 1); }
      ghost var o, c := out, carries;
      var s := aa[i] + bb[i] + xx[i] + carry;
      out := out + [s % 256];
      carry := s / 256;
      carries := carries + [carry];
      forall j: nat | j < i
        ensures Rippled(aa, bb, xx, out, carries, j)
      {
        assert Rippled(aa, bb, xx, o, c, j);
      }
    }
    RippledAdds(a, b, extra, out, carries);
    sum := LE(out);
  }

  lemma RippledAdds(a: U64, b: U64, x: U64, o: seq<int>, c: seq<int>)
    requires |o| == |c| == 8 && forall j: nat :: j < 8 ==> Rippled(ToLE(a, 8), ToLE(b, 8), ToLE(x, 8), o, c, j)
    ensures LE(o) == Plus(a, b, x)
    ensures forall i: nat :: i < 8 ==> c[i] == CarryAt(ToLE(a, 8), ToLE(b, 8), ToLE(x, 8), i)
  {
    forall i: nat | i < 8
      ensures o[i] == SumAt(ToLE(a, 8), ToLE(b, 8), ToLE(x, 8), i) && c[i] == CarryAt(ToLE(a, 8), ToLE(b, 8), ToLE(x, 8), i)
    {
      assert Rippled(ToLE(a, 8), ToLE(b, 8), ToLE(x, 8), o, c, i);
    }
    RippleAdds(a, b, x, o, c);
  }

  // ----- column layout of a row, given its byte strings -----

  /** Fourteen words and a zero word, four carry strings, and the three byte strings of the rotation. */
  datatype Parts = Parts(words: seq<seq<int>>, carries: seq<seq<int>>, z: seq<int>, carryIn: seq<int>, carryOut: seq<int>)

  ghost predicate ByteString(b: seq<int>) {
    |b| == 8 && IsBytes(b)
  }

  ghost predicate Shaped(p: Parts) {
    && |p.words| == 15 && |p.carries| == 4
    && (forall w: nat :: w < 15 ==> ByteString(p.words[w]))
    && (forall k: nat :: k < 4 ==> ByteString(p.carries[k]))
    && ByteString(p.z) && ByteString(p.carryIn) && ByteString(p.carryOut)
  }

  ghost function ColumnAt(p: Parts, column: nat): (v: int)
    requires Shaped(p) && column < NUM_TRACE_COLUMNS
    ensures 0 <= v < 256
  {
    if column < CARRY_BASE then
      assert ByteString(p.words[column / 8]);
      p.words[column / 8][column % 8]
    else if column < CARRY_BIT_BASE then
      assert ByteString(p.carries[(column - CARRY_BASE) / 8]);
      p.carries[(column - CARRY_BASE) / 8][(column - CARRY_BASE) % 8]
    else if column < ROTATE_XOR_BASE then
      assert ByteString(p.carries[(column - CARRY_BIT_BASE) / 16]);
      var carry := p.carries[(column - CARRY_BIT_BASE) / 16][(column - CARRY_BIT_BASE) % 16 / 2];
      if column % 2 == 0 then carry % 2 else carry / 2 % 2
    else if column < ROTATE_CARRY_IN_BASE then p.z[column - ROTATE_XOR_BASE]
    else if column < ROTATE_CARRY_OUT_BASE then p.carryIn[column - ROTATE_CARRY_IN_BASE]
    else if column < ACTIVE_COLUMN then p.carryOut[column - ROTATE_CARRY_OUT_BASE]
    else 1
  }

  ghost function Layout(p: Parts): (row: Row)
    requires Shaped(p)
    ensures forall column: nat :: column < NUM_TRACE_COLUMNS ==> row[column] == ColumnAt(p, column)
  {
    var row := seq(233, column requires 0 <= column < 233 => ColumnAt(p, column));
    assert forall i :: 0 <= i < |row| ==> row[i] == ColumnAt(p, i);
    row
  }

  lemma WordColumn(p: Parts, word: nat, byte: nat)
    requires Shaped(p) && word < 14 && byte < 8
    ensures ByteString(p.words[word]) && Layout(p)[WordBase(word) + byte] == p.words[word][byte]
  {
    assert ByteString(p.words[word]);
    DivSmall(word, byte, 8);
    assert Layout(p)[WordBase(word) + byte] == ColumnAt(p, WordBase(word) + byte);
  }

  lemma DivSmall(q: nat, r: nat, d: nat)
    requires r < d
    ensures (q * d + r) / d == q && (q * d + r) % d == r
  {
    DivModUnique(q * d + r, d, q, r);
  }

  lemma CarryColumn(p: Parts, k: nat, byte: nat)
    requires Shaped(p) && k < 4 && byte < 8
    ensures ByteString(p.carries[k]) && Layout(p)[CarryBase(k) + byte] == p.carries[k][byte]
  {
    assert ByteString(p.carries[k]);
    DivSmall(k, byte, 8);
    assert Layout(p)[CarryBase(k) + byte] == ColumnAt(p, CarryBase(k) + byte);
  }

  lemma CarryBitColumns(p: Parts, k: nat, byte: nat)
    requires Shaped(p) && k < 4 && byte < 8
    ensures ByteString(p.carries[k])
    ensures Layout(p)[CarryBitBase(k, byte, 0)] == p.carries[k][byte] % 2
    ensures Layout(p)[CarryBitBase(k, byte, 1)] == p.carries[k][byte] / 2 % 2
  {
    assert ByteString(p.carries[k]);
    DivSmall(k, byte * 2, 16);
    DivSmall(k, byte * 2 + 1, 16);
    assert Layout(p)[CarryBitBase(k, byte, 0)] == ColumnAt(p, CarryBitBase(k, byte, 0));
    assert Layout(p)[CarryBitBase(k, byte, 1)] == ColumnAt(p, CarryBitBase(k, byte, 1));
  }

  lemma RotationColumns(p: Parts, byte: nat)
    requires Shaped(p) && byte < 8
    ensures Layout(p)[ROTATE_XOR_BASE + byte] == p.z[byte]
    ensures Layout(p)[ROTATE_CARRY_IN_BASE + byte] == p.carryIn[byte]
    ensures Layout(p)[ROTATE_CARRY_OUT_BASE + byte] == p.carryOut[byte]
    ensures Layout(p)[ACTIVE_COLUMN] == 1
  {
    assert Layout(p)[ROTATE_XOR_BASE + byte] == ColumnAt(p, ROTATE_XOR_BASE + byte);
    assert Layout(p)[ROTATE_CARRY_IN_BASE + byte] == ColumnAt(p, ROTATE_CARRY_IN_BASE + byte);
    assert Layout(p)[ROTATE_CARRY_OUT_BASE + byte] == ColumnAt(p, ROTATE_CARRY_OUT_BASE + byte);
  }

  // ----- relations between the byte strings give the constraints on the columns -----

  ghost predicate AddsUp(p: Parts, s: AddSpec)
    requires Shaped(p) && ValidSpec(s)
  {
    && CarryChain(p.words[s.a], p.words[s.b], p.words[s.extra], p.words[s.out], p.carries[s.carry], 0)
    && forall i: nat :: i < |p.carries[s.carry]| ==> 0 <= p.carries[s.carry][i] <= 3
  }

  /** The sum constraint on the byte strings themselves. */
  lemma AddsUpByte(p: Parts, s: AddSpec, byte: nat)
    requires Shaped(p) && ValidSpec(s) && AddsUp(p, s) && byte < 8
    ensures ByteString(p.words[s.a]) && ByteString(p.words[s.b]) && ByteString(p.words[s.extra])
    ensures ByteString(p.words[s.out]) && ByteString(p.carries[s.carry])
    ensures var carry := p.carries[s.carry];
            AddU8Sum(1, p.words[s.a][byte], p.words[s.b][byte], p.words[s.extra][byte], p.words[s.out][byte],
                     if byte == 0 then 0 else carry[byte - 1], carry[byte], carry[byte] % 2, carry[byte] / 2 % 2)
  {
    assert ByteString(p.words[s.a]) && ByteString(p.words[s.b]) && ByteString(p.words[s.extra]);
    assert ByteString(p.words[s.out]) && ByteString(p.carries[s.carry]);
    assert CarryStep(p.words[s.a], p.words[s.b], p.words[s.extra], p.words[s.out], p.carries[s.carry], 0, byte);
    BitsOfCarry(p.carries[s.carry][byte]);
  }

  lemma AddByteHolds(p: Parts, s: AddSpec, byte: nat)
    requires Shaped(p) && ValidSpec(s) && AddsUp(p, s) && p.words[NO_WORD] == [0, 0, 0, 0, 0, 0, 0, 0] && byte < 8
    ensures AddByte(Layout(p), s, byte)
  {
    AddsUpByte(p, s, byte);
    AddColumns(p, s, byte);
    CarryColumns(p, s, byte);
    RotationColumns(p, byte);
  }

  lemma AddColumns(p: Parts, s: AddSpec, byte: nat)
    requires Shaped(p) && ValidSpec(s) && p.words[NO_WORD] == [0, 0, 0, 0, 0, 0, 0, 0] && byte < 8
    requires ByteString(p.words[s.a]) && ByteString(p.words[s.b]) && ByteString(p.words[s.extra]) && ByteString(p.words[s.out])
    ensures Layout(p)[WordBase(s.a) + byte] == p.words[s.a][byte]
    ensures Layout(p)[WordBase(s.b) + byte] == p.words[s.b][byte]
    ensures Layout(p)[WordBase(s.out) + byte] == p.words[s.out][byte]
    ensures ExtraByte(Layout(p), s, byte) == p.words[s.extra][byte]
  {
    WordColumn(p, s.a, byte);
    WordColumn(p, s.b, byte);
    WordColumn(p, s.out, byte);
    if s.extra != NO_WORD { WordColumn(p, s.extra, byte); }
  }

  lemma CarryColumns(p: Parts, s: AddSpec, byte: nat)
    requires Shaped(p) && ValidSpec(s) && byte < 8 && ByteString(p.carries[s.carry])
    ensures var carry := p.carries[s.carry];
            && CarryInto(Layout(p), s, byte) == (if byte == 0 then 0 else carry[byte - 1])
            && Layout(p)[CarryBase(s.carry) + byte] == carry[byte]
            && Layout(p)[CarryBitBase(s.carry, byte, 0)] == carry[byte] % 2
            && Layout(p)[CarryBitBase(s.carry, byte, 1)] == carry[byte] / 2 % 2
  {
    CarryColumn(p, s.carry, byte);
    CarryBitColumns(p, s.carry, byte);
    if byte > 0 { CarryColumn(p, s.carry, byte - 1); }
  }

  lemma BitsOfCarry(carry: int)
    requires 0 <= carry <= 3
    ensures Zero(carry % 2 * (carry % 2 - 1)) && Zero(carry / 2 % 2 * (carry / 2 % 2 - 1))
    ensures carry == carry % 2 + 2 * (carry / 2 % 2)
  {
  }

  /** out[i] = a[(i + shift) mod 8] ^ b[(i + shift) mod 8] */
  ghost predicate RotatedXor(a: seq<int>, b: seq<int>, out: seq<int>, shift: nat, i: nat)
    requires |a| == |b| == |out| == 8 && i < 8
  {
    InXorTable(a[(i + shift) % 8], b[(i + shift) % 8], out[i])
  }

  lemma XorByteHolds(p: Parts, a: nat, b: nat, out: nat, shift: nat, byte: nat)
    requires Shaped(p) && a < 14 && b < 14 && out < 14 && byte < 8
    requires ByteString(p.words[a]) && ByteString(p.words[b]) && ByteString(p.words[out])
    requires RotatedXor(p.words[a], p.words[b], p.words[out], shift, byte)
    ensures XorByte(Layout(p), a, b, out, shift, byte)
  {
    WordColumn(p, a, (byte + shift) % 8);
    WordColumn(p, b, (byte + shift) % 8);
    WordColumn(p, out, byte);
  }

  ghost predicate Doubles(p: Parts, i: nat)
    requires Shaped(p) && i < 8
  {
    && ByteString(p.words[9]) && ByteString(p.words[12]) && ByteString(p.words[13])
    && InXorTable(p.words[9][i], p.words[12][i], p.z[i])
    && InRotateTable(p.z[i], p.carryIn[i], p.words[13][i], p.carryOut[i])
    && p.carryIn[(i + 1) % 8] == p.carryOut[i]
  }

  lemma RotateByteHolds(p: Parts, byte: nat)
    requires Shaped(p) && byte < 8 && Doubles(p, byte)
    ensures RotateByte(Layout(p), byte) && CarryLink(Layout(p), byte)
  {
    WordColumn(p, 9, byte);
    WordColumn(p, 12, byte);
    WordColumn(p, 13, byte);
    RotationColumns(p, byte);
    CarryLinkHolds(p, byte);
  }

  lemma CarryLinkHolds(p: Parts, byte: nat)
    requires Shaped(p) && byte < 8 && p.carryIn[(byte + 1) % 8] == p.carryOut[byte]
    ensures CarryLink(Layout(p), byte)
  {
    RotationColumns(p, byte);
    RotationColumns(p, (byte + 1) % 8);
  }

  /** Everything the constraints ask of the byte strings, apart from the public words. */
  ghost predicate Consistent(p: Parts) {
    && Shaped(p)
    && p.words[NO_WORD] == [0, 0, 0, 0, 0, 0, 0, 0]
    && (forall k: nat :: k < 4 ==> AddsUp(p, ADD_SPECS[k]))
    && (forall w: nat :: w < 14 ==> ByteString(p.words[w]))
    && (forall i: nat :: i < 8 ==> RotatedXor(p.words[6], p.words[3], p.words[7], 4, i))
    && (forall i: nat :: i < 8 ==> RotatedXor(p.words[1], p.words[8], p.words[9], 3, i))
    && (forall i: nat :: i < 8 ==> RotatedXor(p.words[7], p.words[10], p.words[11], 2, i))
    && (forall i: nat :: i < 8 ==> Doubles(p, i))
  }

  lemma LookupsHold(p: Parts)
    requires Consistent(p)
    ensures Lookups(Layout(p)) && forall byte: nat :: byte < 8 ==> CarryLink(Layout(p), byte)
  {
    forall byte: nat | byte < 8
      ensures XorByte(Layout(p), 6, 3, 7, 4, byte) && XorByte(Layout(p), 1, 8, 9, 3, byte)
      ensures XorByte(Layout(p), 7, 10, 11, 2, byte)
      ensures RotateByte(Layout(p), byte) && CarryLink(Layout(p), byte)
    {
      XorByteHolds(p, 6, 3, 7, 4, byte);
      XorByteHolds(p, 1, 8, 9, 3, byte);
      XorByteHolds(p, 7, 10, 11, 2, byte);
      RotateByteHolds(p, byte);
    }
  }

  lemma AdditionHolds(p: Parts, k: nat)
    requires Consistent(p) && k < 4
    ensures Addition(Layout(p), ADD_SPECS[k])
  {
    assert AddsUp(p, ADD_SPECS[k]);
    forall byte: nat | byte < 8
      ensures AddByte(Layout(p), ADD_SPECS[k], byte)
    {
      AddByteHolds(p, ADD_SPECS[k], byte);
    }
  }

  // ----- the row of one call -----

  /** z = b1 ^ c2, the word rotated last, byte by byte. */
  function ZBytes(b1: U64, c2: U64): seq<int> {
    seq(8, i requires 0 <= i < 8 => Xor(8, ToLE(b1, 8)[i], ToLE(c2, 8)[i]))
  }

  function ZCarryIn(z: seq<int>): seq<int>
    requires |z| == 8
  {
    seq(8, i requires 0 <= i < 8 => z[(i + 7) % 8] / 128)
  }

  function ZCarryOut(z: seq<int>): seq<int>
    requires |z| == 8
  {
    seq(8, i requires 0 <= i < 8 => (2 * z[i] + ZCarryIn(z)[i]) / 256)
  }

  function Carries(a: U64, b: U64, x: U64): seq<int> {
    seq(8, i requires 0 <= i < 8 => CarryAt(ToLE(a, 8), ToLE(b, 8), ToLE(x, 8), i))
  }

  function StepsFor(c: Call): (s: Steps)
    ensures StepsOf(c.input[0], c.input[1], c.input[2], c.input[3], c.input[4], c.input[5], s)
  {
    var a1 := Plus(c.input[0], c.input[1], c.input[4]);
    var d1 := XorRotR(a1, c.input[3], 32);
    var c1 := Plus(c.input[2], d1, 0);
    var b1 := XorRotR(c.input[1], c1, 24);
    var a2 := Plus(a1, b1, c.input[5]);
    var d2 := XorRotR(d1, a2, 16);
    var c2 := Plus(c1, d2, 0);
    var b2 := XorRotR(b1, c2, 63);
    Steps(a1, d1, c1, b1, a2, d2, c2, b2)
  }

  /** The fifteen words of a row whose intermediate words are s, in column order. */
  function RowWords(c: Call, s: Steps): (w: seq<U64>)
    ensures |w| == 15
  {
    c.input + [s.a1, s.d1, s.c1, s.b1, s.a2, s.d2, s.c2, s.b2, 0]
  }

  function PartsOf(w: seq<U64>): Parts
    requires |w| == 15
  {
    Parts(seq(15, i requires 0 <= i < 15 => ToLE(w[i], 8)),
          [Carries(w[0], w[1], w[4]), Carries(w[2], w[7], w[14]), Carries(w[6], w[9], w[5]), Carries(w[8], w[11], w[14])],
          ZBytes(w[9], w[12]), ZCarryIn(ZBytes(w[9], w[12])), ZCarryOut(ZBytes(w[9], w[12])))
  }

  lemma CarriesAdd(a: U64, b: U64, x: U64)
    ensures CarryChain(ToLE(a, 8), ToLE(b, 8), ToLE(x, 8), ToLE(Plus(a, b, x), 8), Carries(a, b, x), 0)
    ensures forall i: nat :: i < 8 ==> 0 <= Carries(a, b, x)[i] <= 3
  {
    var o: seq<int> := seq(8, i requires 0 <= i < 8 => SumAt(ToLE(a, 8), ToLE(b, 8), ToLE(x, 8), i));
    RippleAdds(a, b, x, o, Carries(a, b, x));
    forall i: nat | i < 8
      ensures 0 <= Carries(a, b, x)[i] <= 3
    {
      CarryAtRange(ToLE(a, 8), ToLE(b, 8), ToLE(x, 8), i);
    }
  }

  /** The bytes of x ^ y are the bytewise exclusive or. */
  lemma ZBytesAre(x: U64, y: U64)
    ensures IsBytes(ZBytes(x, y)) && 0 <= Xor(64, x, y) < W64 && LE(ZBytes(x, y)) == Xor(64, x, y)
    ensures forall i: nat :: i < 8 ==> InXorTable(ToLE(x, 8)[i], ToLE(y, 8)[i], ZBytes(x, y)[i])
  {
    ToLEValue(x);
    ToLEValue(y);
    XorWords(ToLE(x, 8), ToLE(y, 8), ZBytes(x, y));
    WordBound(ZBytes(x, y));
  }

  lemma XorRotBytes(x: U64, y: U64, shift: nat)
    requires shift < 8
    ensures forall i: nat :: i < 8 ==> RotatedXor(ToLE(x, 8), ToLE(y, 8), ToLE(XorRotR(x, y, 8 * shift), 8), shift, i)
  {
    var z := ZBytes(x, y);
    ZBytesAre(x, y);
    RotRBytes(z, shift);
    RotatedString(z, shift);
    ToLELE(Rotated(z, shift));
    forall i: nat | i < 8
      ensures RotatedXor(ToLE(x, 8), ToLE(y, 8), Rotated(z, shift), shift, i)
    {
      assert InXorTable(ToLE(x, 8)[(i + shift) % 8], ToLE(y, 8)[(i + shift) % 8], z[(i + shift) % 8]);
    }
  }

  function Rotated(z: seq<int>, shift: nat): (o: seq<int>)
    requires |z| == 8 && shift < 8
    ensures |o| == 8
  {
    z[shift..] + z[..shift]
  }

  lemma RotatedString(z: seq<int>, shift: nat)
    requires |z| == 8 && shift < 8 && IsBytes(z)
    ensures IsBytes(Rotated(z, shift)) && forall i: nat :: i < 8 ==> Rotated(z, shift)[i] == z[(i + shift) % 8]
  {
  }

  /** The carry out of a byte is its top bit, whatever came in: the carries around the cycle are forced. */
  lemma TopBitCarries(z: seq<int>, i: nat)
    requires |z| == 8 && IsBytes(z) && i < 8
    ensures 0 <= ZCarryIn(z)[i] <= 1
    ensures ZCarryOut(z)[i] == z[i] / 128 == ZCarryIn(z)[(i + 1) % 8]
  {
    assert ((i + 1) % 8 + 7) % 8 == i;
  }

  function ZOut(z: seq<int>): (o: seq<int>)
    requires |z| == 8
    ensures |o| == 8 && IsBytes(o)
  {
    seq(8, i requires 0 <= i < 8 => (2 * z[i] + ZCarryIn(z)[i]) % 256)
  }

  lemma ZOutIsRotation(z: seq<int>)
    requires |z| == 8 && IsBytes(z)
    ensures 0 <= RotR(LE(z), 63) && ZOut(z) == ToLE(RotR(LE(z), 63), 8)
  {
    forall i: nat | i < 8
      ensures CarryStep(z, z, [0, 0, 0, 0, 0, 0, 0, 0], ZOut(z), ZCarryOut(z), ZCarryOut(z)[7], i)
    {
      ZOutStep(z, i);
    }
    TopBitCarries(z, 7);
    DoubleOfBytes(z, ZOut(z), ZCarryOut(z));
    ToLELE(ZOut(z));
  }

  lemma ZOutStep(z: seq<int>, i: nat)
    requires |z| == 8 && IsBytes(z) && i < 8
    ensures CarryStep(z, z, [0, 0, 0, 0, 0, 0, 0, 0], ZOut(z), ZCarryOut(z), ZCarryOut(z)[7], i)
  {
    TopBitCarries(z, i);
    TopBitCarries(z, if i == 0 then 7 else i - 1);
  }

  /** The relations between the words that G imposes. */
  predicate Linked(w: seq<U64>)
    requires |w| == 15
  {
    && w[14] == 0
    && w[6] == Plus(w[0], w[1], w[4]) && w[7] == XorRotR(w[6], w[3], 32)
    && w[8] == Plus(w[2], w[7], w[14]) && w[9] == XorRotR(w[1], w[8], 24)
    && w[10] == Plus(w[6], w[9], w[5]) && w[11] == XorRotR(w[7], w[10], 16)
    && w[12] == Plus(w[8], w[11], w[14]) && w[13] == XorRotR(w[9], w[12], 63)
  }

  lemma PartsShaped(w: seq<U64>)
    requires |w| == 15
    ensures Shaped(PartsOf(w))
    ensures forall i: nat :: i < 15 ==> PartsOf(w).words[i] == ToLE(w[i], 8)
  {
    var p := PartsOf(w);
    CarriesAdd(w[0], w[1], w[4]);
    CarriesAdd(w[2], w[7], w[14]);
    CarriesAdd(w[6], w[9], w[5]);
    CarriesAdd(w[8], w[11], w[14]);
    ZBytesAre(w[9], w[12]);
    var z := ZBytes(w[9], w[12]);
    forall i: nat | i < 8
      ensures 0 <= ZCarryIn(z)[i] < 256 && 0 <= ZCarryOut(z)[i] < 256
    {
      TopBitCarries(z, i);
    }
  }

  lemma AllAddUp(w: seq<U64>)
    requires |w| == 15 && Linked(w) && Shaped(PartsOf(w))
    requires forall i: nat :: i < 15 ==> PartsOf(w).words[i] == ToLE(w[i], 8)
    ensures forall k: nat :: k < 4 ==> AddsUp(PartsOf(w), ADD_SPECS[k])
  {
    CarriesAdd(w[0], w[1], w[4]);
    CarriesAdd(w[2], w[7], w[14]);
    CarriesAdd(w[6], w[9], w[5]);
    CarriesAdd(w[8], w[11], w[14]);
  }

  lemma AllDouble(w: seq<U64>)
    requires |w| == 15 && w[13] == XorRotR(w[9], w[12], 63) && Shaped(PartsOf(w))
    requires forall i: nat :: i < 15 ==> PartsOf(w).words[i] == ToLE(w[i], 8)
    ensures forall i: nat :: i < 8 ==> Doubles(PartsOf(w), i)
  {
    forall i: nat | i < 8
      ensures Doubles(PartsOf(w), i)
    {
      ByteDoubles(w, i);
    }
  }

  lemma ByteDoubles(w: seq<U64>, i: nat)
    requires |w| == 15 && w[13] == XorRotR(w[9], w[12], 63) && Shaped(PartsOf(w)) && i < 8
    requires forall i: nat :: i < 15 ==> PartsOf(w).words[i] == ToLE(w[i], 8)
    ensures Doubles(PartsOf(w), i)
  {
    var p := PartsOf(w);
    assert ByteString(p.words[9]) && ByteString(p.words[12]) && ByteString(p.words[13]);
    ZBytesAre(w[9], w[12]);
    ZOutIsRotation(p.z);
    ZOutByte(p.z, i);
    assert p.words[13][i] == ZOut(p.z)[i];
  }

  lemma ZOutByte(z: seq<int>, i: nat)
    requires |z| == 8 && IsBytes(z) && i < 8
    ensures InRotateTable(z[i], ZCarryIn(z)[i], ZOut(z)[i], ZCarryOut(z)[i])
    ensures ZCarryIn(z)[(i + 1) % 8] == ZCarryOut(z)[i]
  {
    TopBitCarries(z, i);
  }

  lemma PartsConsistent(w: seq<U64>)
    requires |w| == 15 && Linked(w)
    ensures Consistent(PartsOf(w))
  {
    PartsShaped(w);
    AllAddUp(w);
    AllDouble(w);
    AllRotate(w, 6, 3, 7, 4);
    AllRotate(w, 1, 8, 9, 3);
    AllRotate(w, 7, 10, 11, 2);
    ToLEZeros();
  }

  lemma AllRotate(w: seq<U64>, a: nat, b: nat, out: nat, shift: nat)
    requires |w| == 15 && a < 14 && b < 14 && out < 14 && shift < 8 && w[out] == XorRotR(w[a], w[b], 8 * shift)
    requires forall i: nat :: i < 15 ==> PartsOf(w).words[i] == ToLE(w[i], 8)
    ensures forall i: nat :: i < 8 ==> RotatedXor(PartsOf(w).words[a], PartsOf(w).words[b], PartsOf(w).words[out], shift, i)
  {
    XorRotBytes(w[a], w[b], shift);
  }

  lemma ToLEZeros()
    ensures ToLE(0, 8) == [0, 0, 0, 0, 0, 0, 0, 0]
  {
  }

  lemma InputsHold(c: Call, w: seq<U64>, word: nat, byte: nat)
    requires |w| == 15 && Shaped(PartsOf(w)) && word < 6 && byte < 8 && w[word] == c.input[word]
    ensures InputByte(Layout(PartsOf(w)), ScopeRow(c), word, byte)
  {
    PartsShaped(w);
    WordColumn(PartsOf(w), word, byte);
    ScopeAt(c, word, byte);
    MatchingColumn(Layout(PartsOf(w))[WordBase(word) + byte], ScopeRow(c)[1 + word * 8 + byte], Layout(PartsOf(w))[ACTIVE_COLUMN]);
  }

  lemma MatchingColumn(x: int, y: int, gate: int)
    requires x == y
    ensures Zero(gate * (x - y))
  {
  }

  lemma OutputsHold(c: Call, w: seq<U64>, output: nat, byte: nat)
    requires |w| == 15 && Shaped(PartsOf(w)) && output < 4 && byte < 8 && w[OUTPUT_WORDS[output]] == c.output[output]
    ensures OutputByte(Layout(PartsOf(w)), ScopeRow(c), output, byte)
  {
    PartsShaped(w);
    WordColumn(PartsOf(w), OUTPUT_WORDS[output], byte);
    ScopeAt(c, 6 + output, byte);
    MatchingColumn(Layout(PartsOf(w))[WordBase(OUTPUT_WORDS[output]) + byte], ScopeRow(c)[1 + (6 + output) * 8 + byte],
                   Layout(PartsOf(w))[ACTIVE_COLUMN]);
  }

  /** The words of a true call: linked as G links them, with the public words in their places. */
  ghost predicate WordsOf(c: Call, w: seq<U64>) {
    && |w| == 15
    && (forall word: nat :: word < 6 ==> w[word] == c.input[word])
    && (forall output: nat :: output < 4 ==> w[OUTPUT_WORDS[output]] == c.output[output])
  }

  lemma ConstraintsHold(c: Call, w: seq<U64>)
    requires WordsOf(c, w) && Consistent(PartsOf(w))
    ensures Constraints(Layout(PartsOf(w)), ScopeRow(c)) && Lookups(Layout(PartsOf(w)))
  {
    var p := PartsOf(w);
    RotationColumns(p, 0);
    LookupsHold(p);
    forall word: nat, byte: nat | word < 6 && byte < 8
      ensures InputByte(Layout(p), ScopeRow(c), word, byte)
    {
      InputsHold(c, w, word, byte);
    }
    forall output: nat, byte: nat | output < 4 && byte < 8
      ensures OutputByte(Layout(p), ScopeRow(c), output, byte)
    {
      OutputsHold(c, w, output, byte);
    }
    forall k: nat | k < 4
      ensures Addition(Layout(p), ADD_SPECS[k])
    {
      AdditionHolds(p, k);
    }
  }

  function CallWords(c: Call): (w: seq<U64>)
    ensures |w| == 15
  {
    RowWords(c, StepsFor(c))
  }

  lemma CallWordsLinked(c: Call, s: Steps)
    requires StepsOf(c.input[0], c.input[1], c.input[2], c.input[3], c.input[4], c.input[5], s)
    ensures Linked(RowWords(c, s))
  {
  }

  lemma CallWordsOf(c: Call, s: Steps)
    requires StepsOf(c.input[0], c.input[1], c.input[2], c.input[3], c.input[4], c.input[5], s) && IsG(c)
    ensures WordsOf(c, RowWords(c, s))
  {
    StepsAreG(c.input[0], c.input[1], c.input[2], c.input[3], c.input[4], c.input[5], s);
  }

  /** The row built for a call passes every constraint and lookup exactly when the call is a true G. */
  lemma CallRowSatisfiesIffG(c: Call)
    ensures Shaped(PartsOf(CallWords(c)))
    ensures Satisfies(Layout(PartsOf(CallWords(c))), ScopeRow(c)) <==> IsG(c)
  {
    var w := RowWords(c, StepsFor(c));
    CallWordsLinked(c, StepsFor(c));
    PartsConsistent(w);
    RotationColumns(PartsOf(w), 0);
    if IsG(c) {
      CallWordsOf(c, StepsFor(c));
      ConstraintsHold(c, w);
    }
    if Satisfies(Layout(PartsOf(w)), ScopeRow(c)) { SatisfiedRowIsG(Layout(PartsOf(w)), c); }
  }

  // ----- building the row in a buffer -----

  method WriteWords(buf: array<int>, w: seq<U64>)
    requires buf.Length == NUM_TRACE_COLUMNS && |w| == 15 && Shaped(PartsOf(w))
    modifies buf
    ensures forall column: nat :: column < CARRY_BASE ==> buf[column] == ColumnAt(PartsOf(w), column)
    ensures forall column: nat :: CARRY_BASE <= column < NUM_TRACE_COLUMNS ==> buf[column] == old(buf[column])
  {
    ghost var p := PartsOf(w);
    PartsShaped(w);
    for word := 0 to 14
      invariant forall column: nat :: column < WordBase(word) ==> buf[column] == ColumnAt(p, column)
      invariant forall column: nat :: CARRY_BASE <= column < NUM_TRACE_COLUMNS ==> buf[column] == old(buf[column])
    {
      var bytes := ToLE(w[word], 8);
      for byte := 0 to 8
        invariant forall column: nat :: column < WordBase(word) + byte ==> buf[column] == ColumnAt(p, column)
        invariant forall column: nat :: CARRY_BASE <= column < NUM_TRACE_COLUMNS ==> buf[column] == old(buf[column])
      {
        DivSmall(word, byte, 8);
        assert p.words[word] == bytes;
        buf[WordBase(word) + byte] := bytes[byte];
      }
    }
  }

  method WriteCarries(buf: array<int>, carries: seq<seq<int>>, ghost p: Parts)
    requires buf.Length == NUM_TRACE_COLUMNS && Shaped(p) && carries == p.carries
    modifies buf
    ensures forall column: nat :: CARRY_BASE <= column < ROTATE_XOR_BASE ==> buf[column] == ColumnAt(p, column)
    ensures forall column: nat :: column < CARRY_BASE || ROTATE_XOR_BASE <= column < NUM_TRACE_COLUMNS ==>
      buf[column] == old(buf[column])
  {
    for k := 0 to 4
      invariant CarriesWritten(buf, p, 8 * k)
      invariant forall column: nat :: column < CARRY_BASE || ROTATE_XOR_BASE <= column < NUM_TRACE_COLUMNS ==>
        buf[column] == old(buf[column])
    {
      for byte := 0 to 8
        invariant CarriesWritten(buf, p, 8 * k + byte)
        invariant forall column: nat :: column < CARRY_BASE || ROTATE_XOR_BASE <= column < NUM_TRACE_COLUMNS ==>
          buf[column] == old(buf[column])
      {
        assert ByteString(p.carries[k]);
        WriteCarry(buf, k, byte, carries[k][byte], p);
      }
    }
  }

  method WriteCarry(buf: array<int>, k: nat, byte: nat, carry: int, ghost p: Parts)
    requires buf.Length == NUM_TRACE_COLUMNS && Shaped(p) && k < 4 && byte < 8
    requires ByteString(p.carries[k]) && carry == p.carries[k][byte] && CarriesWritten(buf, p, 8 * k + byte)
    modifies buf
    ensures CarriesWritten(buf, p, 8 * k + byte + 1)
    ensures forall column: nat :: column < CARRY_BASE || ROTATE_XOR_BASE <= column < NUM_TRACE_COLUMNS ==>
      buf[column] == old(buf[column])
  {
    CarryColumnValues(p, k, byte);
    buf[CarryBase(k) + byte] := carry;
    buf[CarryBitBase(k, byte, 0)] := carry % 2;
    buf[CarryBitBase(k, byte, 1)] := carry / 2 % 2;
  }

  /** The first n carries and their bits are in place. */
  ghost predicate CarriesWritten(buf: array<int>, p: Parts, n: nat)
    requires buf.Length == NUM_TRACE_COLUMNS && Shaped(p) && n <= 32
    reads buf
  {
    && (forall column: nat :: CARRY_BASE <= column < CARRY_BASE + n ==> buf[column] == ColumnAt(p, column))
    && (forall column: nat :: CARRY_BIT_BASE <= column < CARRY_BIT_BASE + 2 * n ==> buf[column] == ColumnAt(p, column))
  }

  lemma CarryColumnValues(p: Parts, k: nat, byte: nat)
    requires Shaped(p) && k < 4 && byte < 8
    ensures ByteString(p.carries[k])
    ensures ColumnAt(p, CarryBase(k) + byte) == p.carries[k][byte]
    ensures ColumnAt(p, CarryBitBase(k, byte, 0)) == p.carries[k][byte] % 2
    ensures ColumnAt(p, CarryBitBase(k, byte, 1)) == p.carries[k][byte] / 2 % 2
  {
    CarryColumn(p, k, byte);
    CarryBitColumns(p, k, byte);
  }

  method WriteRotation(buf: array<int>, z: seq<int>, ghost p: Parts)
    requires buf.Length == NUM_TRACE_COLUMNS && Shaped(p) && z == p.z
    requires p.carryIn == ZCarryIn(z) && p.carryOut == ZCarryOut(z)
    modifies buf
    ensures forall column: nat :: ROTATE_XOR_BASE <= column < ACTIVE_COLUMN ==> buf[column] == ColumnAt(p, column)
    ensures forall column: nat :: column < ROTATE_XOR_BASE || column == ACTIVE_COLUMN ==> buf[column] == old(buf[column])
  {
    for byte := 0 to 8
      invariant forall i: nat :: i < byte ==> buf[ROTATE_XOR_BASE + i] == p.z[i]
      invariant forall i: nat :: i < byte ==> buf[ROTATE_CARRY_IN_BASE + i] == p.carryIn[i]
      invariant forall i: nat :: i < byte ==> buf[ROTATE_CARRY_OUT_BASE + i] == p.carryOut[i]
      invariant forall column: nat :: column < ROTATE_XOR_BASE || column == ACTIVE_COLUMN ==> buf[column] == old(buf[column])
    {
      var carryIn := z[(byte + 8 - 1) % 8] / 128;
      buf[ROTATE_XOR_BASE + byte] := z[byte];
      buf[ROTATE_CARRY_IN_BASE + byte] := carryIn;
      buf[ROTATE_CARRY_OUT_BASE + byte] := (z[byte] * 2 + carryIn) / 256;
    }
    forall column: nat | ROTATE_XOR_BASE <= column < ACTIVE_COLUMN
      ensures buf[column] == ColumnAt(p, column)
    {
      var byte := (column - ROTATE_XOR_BASE) % 8;
      assert buf[ROTATE_XOR_BASE + byte] == p.z[byte];
      assert buf[ROTATE_CARRY_IN_BASE + byte] == p.carryIn[byte];
      assert buf[ROTATE_CARRY_OUT_BASE + byte] == p.carryOut[byte];
    }
  }

  /** The row of a call, assembled in place; it equals the layout of the call's words. */
  method MakeCallRow(c: Call) returns (row: seq<int>)
    ensures Shaped(PartsOf(CallWords(c))) && row == Layout(PartsOf(CallWords(c)))
  {
    var a, b, cc, d, x, y := c.input[0], c.input[1], c.input[2], c.input[3], c.input[4], c.input[5];
    var a1, carry0 := AddWithCarries(a, b, x);
    XorRotRComm(d, a1, 32);
    var d1 := XorRotR(d, a1, 32);
    var c1, carry1 := AddWithCarries(cc, d1, 0);
    var b1 := XorRotR(b, c1, 24);
    var a2, carry2 := AddWithCarries(a1, b1, y);
    var d2 := XorRotR(d1, a2, 16);
    var c2, carry3 := AddWithCarries(c1, d2, 0);
    var b2 := XorRotR(b1, c2, 63);
    var w := c.input + [a1, d1, c1, b1, a2, d2, c2, b2, 0];
    assert w == CallWords(c);
    row := FillRow(w, [carry0, carry1, carry2, carry3], ZBytes(b1, c2));
  }

  method FillRow(w: seq<U64>, carries: seq<seq<int>>, z: seq<int>) returns (row: seq<int>)
    requires |w| == 15 && |carries| == 4 && (forall k: nat :: k < 4 ==> |carries[k]| == 8) && z == ZBytes(w[9], w[12])
    requires forall i: nat :: i < 8 ==> carries[0][i] == CarryAt(ToLE(w[0], 8), ToLE(w[1], 8), ToLE(w[4], 8), i)
    requires forall i: nat :: i < 8 ==> carries[1][i] == CarryAt(ToLE(w[2], 8), ToLE(w[7], 8), ToLE(w[14], 8), i)
    requires forall i: nat :: i < 8 ==> carries[2][i] == CarryAt(ToLE(w[6], 8), ToLE(w[9], 8), ToLE(w[5], 8), i)
    requires forall i: nat :: i < 8 ==> carries[3][i] == CarryAt(ToLE(w[8], 8), ToLE(w[11], 8), ToLE(w[14], 8), i)
    ensures Shaped(PartsOf(w)) && row == Layout(PartsOf(w))
  {
    ghost var p := PartsOf(w);
    PartsShaped(w);
    assert carries[0] == p.carries[0] && carries[1] == p.carries[1];
    assert carries[2] == p.carries[2] && carries[3] == p.carries[3];
    assert carries == p.carries;
    var buf := new int[NUM_TRACE_COLUMNS](_ => 0);
    WriteWords(buf, w);
    WriteCarries(buf, carries, p);
    WriteRotation(buf, z, p);
    buf[ACTIVE_COLUMN] := 1;
    row := buf[..];
    assert |row| == |Layout(p)|;
    forall i | 0 <= i < |row|
      ensures row[i] == Layout(p)[i]
    {
      assert row[i] == ColumnAt(p, i);
    }
  }
}
