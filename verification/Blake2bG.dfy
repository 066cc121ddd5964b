/**
 * The lookup-backed constraint system for one call of the BLAKE2b mixing function
 * (src/blake2b_lookup_g.rs): bytes in field columns, carries with bit columns, XOR and rotate tables.
 *
 * Main results: a satisfied active row forces the call to be a true G, and the row built for a call
 * satisfies everything exactly when the call is a true G.
 */
module Blake2bG {
  import opened Arith
  import opened Field31
  import opened Words
  import opened Rfc7693

  // ----- statement and column layout -----

  datatype RawCall = RawCall(input: seq<U64>, output: seq<U64>)

  /** Six input words a, b, c, d, x, y and four output words a, b, c, d. */
  type Call = c: RawCall | |c.input| == 6 && |c.output| == 4
    witness RawCall([0, 0, 0, 0, 0, 0], [0, 0, 0, 0])

  predicate IsG(c: Call) {
    Quad(c.output[0], c.output[1], c.output[2], c.output[3])
      == G(c.input[0], c.input[1], c.input[2], c.input[3], c.input[4], c.input[5])
  }

  const CARRY_BASE: nat := 112
  const CARRY_BIT_BASE: nat := 144
  const ROTATE_XOR_BASE: nat := 208
  const ROTATE_CARRY_IN_BASE: nat := 216
  const ROTATE_CARRY_OUT_BASE: nat := 224
  const ACTIVE_COLUMN: nat := 232
  const NUM_TRACE_COLUMNS: nat := 233

  type Row = r: seq<int> | |r| == 233 && IsElems(r) witness seq(233, _ => 0)
  type Scope = s: seq<int> | |s| == 81 && IsElems(s) witness seq(81, _ => 0)

  function WordBase(word: nat): nat { word * 8 }

  function CarryBase(addition: nat): nat { CARRY_BASE + addition * 8 }

  function CarryBitBase(addition: nat, byte: nat, bit: nat): nat {
    CARRY_BIT_BASE + addition * 16 + byte * 2 + bit
  }

  function WordOf(row: Row, word: nat): (b: seq<int>)
    requires word < 14
    ensures |b| == 8
  {
    row[WordBase(word)..WordBase(word) + 8]
  }

  function Value(row: Row, word: nat): int
    requires word < 14
  {
    LE(WordOf(row, word))
  }

  /** The verifier-built scope row of one call: an active flag and the bytes of the ten public words. */
  function ScopeRow(c: Call): Scope {
    seq(81, i requires 0 <= i < 81 =>
      if i == 0 then 1
      else ToLE((c.input + c.output)[(i - 1) / 8], 8)[(i - 1) % 8])
  }

  // ----- constraints -----

  /** Membership in the 2^16-row XOR table. */
  predicate InXorTable(a: int, b: int, c: int) {
    0 <= a < 256 && 0 <= b < 256 && c == Xor(8, a, b)
  }

  /** Membership in the 2^10-row rotate table. */
  predicate InRotateTable(z: int, carryIn: int, out: int, carryOut: int) {
    0 <= z < 256 && 0 <= carryIn < 2 && out == (2 * z + carryIn) % 256 && carryOut == (2 * z + carryIn) / 256
  }

  predicate AddU8Sum(gate: int, a: int, b: int, extra: int, out: int, carryIn: int, carryOut: int, bit0: int, bit1: int) {
    && Zero(bit0 * (bit0 - 1))
    && Zero(bit1 * (bit1 - 1))
    && Zero(carryOut - bit0 - 2 * bit1)
    && Zero(gate * (a + b + extra + carryIn - out - 256 * carryOut))
  }

  /** Word indices of one addition; NO_WORD marks the absent third operand. */
  datatype AddSpec = AddSpec(a: nat, b: nat, extra: nat, out: nat, carry: nat)

  const NO_WORD: nat := 14

  predicate ValidSpec(s: AddSpec) {
    s.a < 14 && s.b < 14 && s.extra <= 14 && s.out < 14 && s.carry < 4
  }

  const ADD_SPECS: seq<AddSpec> :=
    [AddSpec(0, 1, 4, 6, 0), AddSpec(2, 7, NO_WORD, 8, 1), AddSpec(6, 9, 5, 10, 2), AddSpec(8, 11, NO_WORD, 12, 3)]

  function ExtraByte(row: Row, s: AddSpec, byte: nat): int
    requires ValidSpec(s) && byte < 8
  {
    if s.extra == NO_WORD then 0 else row[WordBase(s.extra) + byte]
  }

  function CarryInto(row: Row, s: AddSpec, byte: nat): int
    requires ValidSpec(s) && byte < 8
  {
    if byte == 0 then 0 else row[CarryBase(s.carry) + byte - 1]
  }

  predicate AddByte(row: Row, s: AddSpec, byte: nat)
    requires ValidSpec(s) && byte < 8
  {
    AddU8Sum(row[ACTIVE_COLUMN],
             row[WordBase(s.a) + byte], row[WordBase(s.b) + byte], ExtraByte(row, s, byte),
             row[WordBase(s.out) + byte],
             CarryInto(row, s, byte), row[CarryBase(s.carry) + byte],
             row[CarryBitBase(s.carry, byte, 0)], row[CarryBitBase(s.carry, byte, 1)])
  }

  predicate Addition(row: Row, s: AddSpec)
    requires ValidSpec(s)
  {
    forall byte: nat :: byte < 8 ==> AddByte(row, s, byte)
  }

  predicate InputByte(row: Row, scope: Scope, word: nat, byte: nat)
    requires word < 6 && byte < 8
  {
    Zero(row[ACTIVE_COLUMN] * (row[WordBase(word) + byte] - scope[1 + word * 8 + byte]))
  }

  const OUTPUT_WORDS: seq<nat> := [10, 13, 12, 11]

  predicate OutputByte(row: Row, scope: Scope, output: nat, byte: nat)
    requires output < 4 && byte < 8
  {
    Zero(row[ACTIVE_COLUMN] * (row[WordBase(OUTPUT_WORDS[output]) + byte] - scope[1 + (6 + output) * 8 + byte]))
  }

  predicate XorByte(row: Row, a: nat, b: nat, out: nat, shift: nat, byte: nat)
    requires a < 14 && b < 14 && out < 14 && byte < 8
  {
    InXorTable(row[WordBase(a) + (byte + shift) % 8], row[WordBase(b) + (byte + shift) % 8], row[WordBase(out) + byte])
  }

  predicate RotateByte(row: Row, byte: nat)
    requires byte < 8
  {
    && InXorTable(row[WordBase(9) + byte], row[WordBase(12) + byte], row[ROTATE_XOR_BASE + byte])
    && InRotateTable(row[ROTATE_XOR_BASE + byte], row[ROTATE_CARRY_IN_BASE + byte],
                     row[WordBase(13) + byte], row[ROTATE_CARRY_OUT_BASE + byte])
  }

  predicate CarryLink(row: Row, byte: nat)
    requires byte < 8
  {
    Zero(row[ACTIVE_COLUMN] * (row[ROTATE_CARRY_IN_BASE + (byte + 1) % 8] - row[ROTATE_CARRY_OUT_BASE + byte]))
  }

  /** Every lookup an active row emits hits its table. */
  predicate Lookups(row: Row) {
    && (forall byte: nat :: byte < 8 ==> XorByte(row, 6, 3, 7, 4, byte))
    && (forall byte: nat :: byte < 8 ==> XorByte(row, 1, 8, 9, 3, byte))
    && (forall byte: nat :: byte < 8 ==> XorByte(row, 7, 10, 11, 2, byte))
    && (forall byte: nat :: byte < 8 ==> RotateByte(row, byte))
  }

  predicate InactiveZero(row: Row, column: nat)
    requires column < ACTIVE_COLUMN
  {
    Zero((1 - row[ACTIVE_COLUMN]) * row[column])
  }

  predicate Constraints(row: Row, scope: Scope) {
    && Zero(row[ACTIVE_COLUMN] * (row[ACTIVE_COLUMN] - 1))
    && (forall column: nat :: column < ACTIVE_COLUMN ==> InactiveZero(row, column))
    && Zero(row[ACTIVE_COLUMN] * (scope[0] - row[ACTIVE_COLUMN]))
    && (forall word: nat, byte: nat :: word < 6 && byte < 8 ==> InputByte(row, scope, word, byte))
    && (forall output: nat, byte: nat :: output < 4 && byte < 8 ==> OutputByte(row, scope, output, byte))
    && (forall i: nat :: i < 4 ==> Addition(row, ADD_SPECS[i]))
    && (forall byte: nat :: byte < 8 ==> CarryLink(row, byte))
  }

  /** The component accepts the row: polynomial constraints, and table lookups with multiplicity `active`. */
  predicate Satisfies(row: Row, scope: Scope) {
    Constraints(row, scope) && (row[ACTIVE_COLUMN] != 0 ==> Lookups(row))
  }

  // ----- soundness -----

  lemma ZeroEqual(x: Elem, y: Elem)
    requires Zero(1 * (x - y))
    ensures x == y
  {
  }

  /** Column i of a three-operand byte addition with a carry chain. */
  ghost predicate CarryStep(a: seq<int>, b: seq<int>, x: seq<int>, o: seq<int>, c: seq<int>, carryIn: int, i: nat)
    requires |a| == |b| == |x| == |o| == |c| && i < |c|
  {
    a[i] + b[i] + x[i] + (if i == 0 then carryIn else c[i - 1]) == o[i] + 256 * c[i]
  }

  ghost predicate CarryChain(a: seq<int>, b: seq<int>, x: seq<int>, o: seq<int>, c: seq<int>, carryIn: int) {
    && |a| == |b| == |x| == |o| == |c|
    && forall i: nat :: i < |c| ==> CarryStep(a, b, x, o, c, carryIn, i)
  }

  /** Bytes that add up column by column with a carry chain add up as numbers. */
  lemma {:induction false} AddChain(a: seq<int>, b: seq<int>, x: seq<int>, o: seq<int>, c: seq<int>, carryIn: int)
    requires CarryChain(a, b, x, o, c, carryIn)
    ensures LE(a) + LE(b) + LE(x) + carryIn
      == LE(o) + Pow(256, |o|) * (if |c| == 0 then carryIn else c[|c| - 1])
  {
    if |c| > 0 {
      assert CarryStep(a, b, x, o, c, carryIn, 0);
      CarryChainTail(a, b, x, o, c, carryIn);
      AddChain(a[1..], b[1..], x[1..], o[1..], c[1..], c[0]);
      var top := c[|c| - 1];
      MulAssoc(256, Pow(256, |o| - 1), top);
    }
  }

  lemma CarryChainTail(a: seq<int>, b: seq<int>, x: seq<int>, o: seq<int>, c: seq<int>, carryIn: int)
    requires CarryChain(a, b, x, o, c, carryIn) && |c| > 0
    ensures CarryChain(a[1..], b[1..], x[1..], o[1..], c[1..], c[0])
  {
    forall i: nat | i < |c| - 1
      ensures CarryStep(a[1..], b[1..], x[1..], o[1..], c[1..], c[0], i)
    {
      assert CarryStep(a, b, x, o, c, carryIn, i + 1);
    }
  }

  /** One byte of an addition is exact: the carry lies in 0..3 and nothing wraps in the field. */
  lemma ExactByte(a: int, b: int, x: int, o: int, carryIn: int, carryOut: Elem, bit0: Elem, bit1: Elem)
    requires AddU8Sum(1, a, b, x, o, carryIn, carryOut, bit0, bit1)
    requires 0 <= a < 256 && 0 <= b < 256 && 0 <= x < 256 && 0 <= o < 256 && 0 <= carryIn <= 3
    ensures a + b + x + carryIn == o + 256 * carryOut
  {
    CarryBits(carryOut, bit0, bit1);
    SmallZero(a + b + x + carryIn, o + 256 * carryOut);
  }

  lemma CarryBits(carry: Elem, bit0: Elem, bit1: Elem)
    requires Zero(bit0 * (bit0 - 1)) && Zero(bit1 * (bit1 - 1)) && Zero(carry - bit0 - 2 * bit1)
    ensures 0 <= carry <= 3
  {
    BooleanColumn(bit0);
    BooleanColumn(bit1);
  }

  lemma CarryRange(row: Row, s: AddSpec, byte: nat)
    requires ValidSpec(s) && byte < 8 && AddByte(row, s, byte)
    ensures 0 <= row[CarryBase(s.carry) + byte] <= 3
  {
    CarryBits(row[CarryBase(s.carry) + byte], row[CarryBitBase(s.carry, byte, 0)], row[CarryBitBase(s.carry, byte, 1)]);
  }

  function ExtraOf(row: Row, s: AddSpec): (b: seq<int>)
    requires ValidSpec(s)
    ensures |b| == 8
  {
    if s.extra == NO_WORD then [0, 0, 0, 0, 0, 0, 0, 0] else WordOf(row, s.extra)
  }

  ghost predicate ByteOperands(row: Row, s: AddSpec)
    requires ValidSpec(s)
  {
    IsBytes(WordOf(row, s.a)) && IsBytes(WordOf(row, s.b)) && IsBytes(WordOf(row, s.out)) && IsBytes(ExtraOf(row, s))
  }

  function CarriesOf(row: Row, s: AddSpec): (c: seq<int>)
    requires ValidSpec(s)
    ensures |c| == 8
  {
    row[CarryBase(s.carry)..CarryBase(s.carry) + 8]
  }

  lemma ByteOf(row: Row, word: nat, byte: nat)
    requires word < 14 && byte < 8
    ensures WordOf(row, word)[byte] == row[WordBase(word) + byte]
    ensures IsBytes(WordOf(row, word)) ==> row[WordBase(word) + byte] < 256
  {
  }

  lemma CarryIntoRange(row: Row, s: AddSpec, byte: nat)
    requires ValidSpec(s) && byte < 8 && Addition(row, s)
    ensures 0 <= CarryInto(row, s, byte) <= 3
  {
    if byte > 0 {
      assert AddByte(row, s, byte - 1);
      CarryRange(row, s, byte - 1);
    }
  }

  /** One addition over bytes is exact, in terms of the columns. */
  lemma AdditionByteRow(row: Row, s: AddSpec, byte: nat)
    requires ValidSpec(s) && byte < 8 && AddByte(row, s, byte) && row[ACTIVE_COLUMN] == 1
    requires row[WordBase(s.a) + byte] < 256 && row[WordBase(s.b) + byte] < 256 && row[WordBase(s.out) + byte] < 256
    requires 0 <= ExtraByte(row, s, byte) < 256 && 0 <= CarryInto(row, s, byte) <= 3
    ensures row[WordBase(s.a) + byte] + row[WordBase(s.b) + byte] + ExtraByte(row, s, byte) + CarryInto(row, s, byte)
      == row[WordBase(s.out) + byte] + 256 * row[CarryBase(s.carry) + byte]
  {
    ExactByte(row[WordBase(s.a) + byte], row[WordBase(s.b) + byte], ExtraByte(row, s, byte), row[WordBase(s.out) + byte],
              CarryInto(row, s, byte), row[CarryBase(s.carry) + byte],
              row[CarryBitBase(s.carry, byte, 0)], row[CarryBitBase(s.carry, byte, 1)]);
  }

  lemma OperandBytes(row: Row, s: AddSpec, byte: nat)
    requires ValidSpec(s) && byte < 8 && ByteOperands(row, s)
    ensures WordOf(row, s.a)[byte] == row[WordBase(s.a) + byte] < 256
    ensures WordOf(row, s.b)[byte] == row[WordBase(s.b) + byte] < 256
    ensures WordOf(row, s.out)[byte] == row[WordBase(s.out) + byte] < 256
    ensures 0 <= ExtraOf(row, s)[byte] == ExtraByte(row, s, byte) < 256
  {
    ByteOf(row, s.a, byte);
    ByteOf(row, s.b, byte);
    ByteOf(row, s.out, byte);
    if s.extra != NO_WORD { ByteOf(row, s.extra, byte); }
  }

  lemma AdditionByteExact(row: Row, s: AddSpec, byte: nat)
    requires ValidSpec(s) && byte < 8 && Addition(row, s) && row[ACTIVE_COLUMN] == 1 && ByteOperands(row, s)
    ensures CarryStep(WordOf(row, s.a), WordOf(row, s.b), ExtraOf(row, s), WordOf(row, s.out), CarriesOf(row, s), 0, byte)
  {
    assert AddByte(row, s, byte);
    OperandBytes(row, s, byte);
    CarryIntoRange(row, s, byte);
    AdditionByteRow(row, s, byte);
    assert CarriesOf(row, s)[byte] == row[CarryBase(s.carry) + byte];
  }

  lemma SmallZero(x: int, y: int)
    requires Zero(1 * (x - y)) && 0 <= x < M31 && 0 <= y < M31
    ensures x == y
  {
  }

  lemma AdditionSound(row: Row, s: AddSpec)
    requires ValidSpec(s) && Addition(row, s) && row[ACTIVE_COLUMN] == 1 && ByteOperands(row, s)
    ensures 0 <= Value(row, s.a) < W64 && 0 <= Value(row, s.b) < W64 && 0 <= LE(ExtraOf(row, s)) < W64
    ensures Value(row, s.out) == Plus(Value(row, s.a), Value(row, s.b), LE(ExtraOf(row, s)))
  {
    forall i: nat | i < 8
      ensures CarryStep(WordOf(row, s.a), WordOf(row, s.b), ExtraOf(row, s), WordOf(row, s.out), CarriesOf(row, s), 0, i)
    {
      AdditionByteExact(row, s, i);
    }
    AdditionOfBytes(WordOf(row, s.a), WordOf(row, s.b), ExtraOf(row, s), WordOf(row, s.out), CarriesOf(row, s));
  }

  lemma AdditionOfBytes(a: seq<int>, b: seq<int>, x: seq<int>, o: seq<int>, c: seq<int>)
    requires |o| == 8 && IsBytes(a) && IsBytes(b) && IsBytes(x) && IsBytes(o) && CarryChain(a, b, x, o, c, 0)
    ensures 0 <= LE(a) < W64 && 0 <= LE(b) < W64 && 0 <= LE(x) < W64
    ensures LE(o) == Plus(LE(a), LE(b), LE(x))
  {
    WordBound(a);
    WordBound(b);
    WordBound(x);
    WordBound(o);
    AddWords(a, b, x, o, c, 0);
    PlusByCarry(LE(a), LE(b), LE(x), c[7], LE(o));
  }

  lemma PlusByCarry(a: U64, b: U64, x: U64, carry: int, o: int)
    requires a + b + x == o + W64 * carry && 0 <= o < W64
    ensures Plus(a, b, x) == o
  {
  }

  lemma AddWords(a: seq<int>, b: seq<int>, x: seq<int>, o: seq<int>, c: seq<int>, carryIn: int)
    requires |o| == 8 && CarryChain(a, b, x, o, c, carryIn)
    ensures LE(a) + LE(b) + LE(x) + carryIn == LE(o) + W64 * c[7]
  {
    AddChain(a, b, x, o, c, carryIn);
    Pow256Eight();
  }

  ghost predicate GoodWord(row: Row, word: nat)
    requires word < 14
  {
    IsBytes(WordOf(row, word)) && 0 <= Value(row, word) < W64
  }

  /** A rotated XOR: out[byte] = (a ^ b)[(byte + shift) mod 8] for every byte. */
  lemma XorRotSound(row: Row, a: nat, b: nat, out: nat, shift: nat)
    requires a < 14 && b < 14 && out < 14 && shift < 8
    requires forall byte: nat :: byte < 8 ==> XorByte(row, a, b, out, shift, byte)
    ensures GoodWord(row, a) && GoodWord(row, b) && GoodWord(row, out)
    ensures Value(row, out) == XorRotR(Value(row, a), Value(row, b), 8 * shift)
  {
    var wa, wb, wo := WordOf(row, a), WordOf(row, b), WordOf(row, out);
    var c := Unrotated(wo, shift);
    forall i: nat | i < 8
      ensures InXorTable(wa[i], wb[i], c[i])
    {
      XorRotByte(row, a, b, out, shift, i);
    }
    XorRotated(wa, wb, c, shift);
    UnrotatedInverse(wo, shift);
    WordBound(wo);
  }

  function Unrotated(wo: seq<int>, shift: nat): (c: seq<int>)
    requires |wo| == 8 && shift < 8
    ensures |c| == 8
  {
    wo[8 - shift..] + wo[..8 - shift]
  }

  lemma UnrotatedInverse(wo: seq<int>, shift: nat)
    requires |wo| == 8 && shift < 8
    ensures Unrotated(wo, shift)[shift..] + Unrotated(wo, shift)[..shift] == wo
    ensures IsBytes(Unrotated(wo, shift)) ==> IsBytes(wo)
  {
    var c := Unrotated(wo, shift);
    assert c[shift..] + c[..shift] == wo;
    if IsBytes(c) {
      forall i | 0 <= i < 8
        ensures 0 <= wo[i] < 256
      {
        assert wo[i] == (c[shift..] + c[..shift])[i];
        assert wo[i] == if i + shift < 8 then c[i + shift] else c[i + shift - 8];
      }
    }
  }

  lemma XorRotByte(row: Row, a: nat, b: nat, out: nat, shift: nat, i: nat)
    requires a < 14 && b < 14 && out < 14 && shift < 8 && i < 8
    requires forall byte: nat :: byte < 8 ==> XorByte(row, a, b, out, shift, byte)
    ensures InXorTable(WordOf(row, a)[i], WordOf(row, b)[i], Unrotated(WordOf(row, out), shift)[i])
  {
    var byte := UnrotatedAt(WordOf(row, out), shift, i);
    assert XorByte(row, a, b, out, shift, byte);
    ByteOf(row, a, i);
    ByteOf(row, b, i);
    ByteOf(row, out, byte);
  }

  lemma UnrotatedAt(wo: seq<int>, shift: nat, i: nat) returns (byte: nat)
    requires |wo| == 8 && shift < 8 && i < 8
    ensures byte < 8 && (byte + shift) % 8 == i && Unrotated(wo, shift)[i] == wo[byte]
  {
    byte := if i < shift then 8 - shift + i else i - shift;
  }

  lemma XorRotated(wa: seq<int>, wb: seq<int>, c: seq<int>, shift: nat)
    requires |wa| == |wb| == |c| == 8 && shift < 8
    requires forall i: nat :: i < 8 ==> InXorTable(wa[i], wb[i], c[i])
    ensures IsBytes(wa) && IsBytes(wb) && IsBytes(c) && 0 <= LE(wa) < W64 && 0 <= LE(wb) < W64
    ensures LE(c[shift..] + c[..shift]) == XorRotR(LE(wa), LE(wb), 8 * shift)
  {
    TableXors(wa, wb, c);
    XorWords(wa, wb, c);
    RotRBytes(c, shift);
  }

  lemma TableXors(wa: seq<int>, wb: seq<int>, c: seq<int>)
    requires |wa| == |wb| == |c| && forall i: nat :: i < |c| ==> InXorTable(wa[i], wb[i], c[i])
    ensures XorsTo(wa, wb, c)
  {
    forall i: nat | i < |c|
      ensures 0 <= wa[i] < 256 && 0 <= wb[i] < 256 && c[i] == Xor(8, wa[i], wb[i])
    {
      assert InXorTable(wa[i], wb[i], c[i]);
    }
  }

  /** The rotate lookups with cyclic carries compute a left rotation by one; the carries are forced. */
  lemma RotateSound(row: Row)
    requires row[ACTIVE_COLUMN] == 1
    requires forall byte: nat :: byte < 8 ==> RotateByte(row, byte)
    requires forall byte: nat :: byte < 8 ==> CarryLink(row, byte)
    ensures GoodWord(row, 9) && GoodWord(row, 12) && GoodWord(row, 13)
    ensures Value(row, 13) == XorRotR(Value(row, 9), Value(row, 12), 63)
  {
    forall i: nat | i < 8
      ensures InXorTable(WordOf(row, 9)[i], WordOf(row, 12)[i], RotateXor(row)[i])
      ensures 0 <= WordOf(row, 13)[i] < 256 && 0 <= RotateCarry(row)[i] < 2
      ensures CarryStep(RotateXor(row), RotateXor(row), [0, 0, 0, 0, 0, 0, 0, 0], WordOf(row, 13),
                        RotateCarry(row), RotateCarry(row)[7], i)
    {
      RotateStep(row, i);
    }
    RotateOfBytes(WordOf(row, 9), WordOf(row, 12), WordOf(row, 13), RotateXor(row), RotateCarry(row));
    WordBound(WordOf(row, 13));
  }

  function RotateXor(row: Row): (z: seq<int>)
    ensures |z| == 8
  {
    row[ROTATE_XOR_BASE..ROTATE_XOR_BASE + 8]
  }

  function RotateCarry(row: Row): (c: seq<int>)
    ensures |c| == 8
  {
    row[ROTATE_CARRY_OUT_BASE..ROTATE_CARRY_OUT_BASE + 8]
  }

  lemma RotateStep(row: Row, i: nat)
    requires row[ACTIVE_COLUMN] == 1 && i < 8
    requires forall byte: nat :: byte < 8 ==> RotateByte(row, byte)
    requires forall byte: nat :: byte < 8 ==> CarryLink(row, byte)
    ensures InXorTable(WordOf(row, 9)[i], WordOf(row, 12)[i], RotateXor(row)[i])
    ensures 0 <= WordOf(row, 13)[i] < 256 && 0 <= RotateCarry(row)[i] < 2
    ensures CarryStep(RotateXor(row), RotateXor(row), [0, 0, 0, 0, 0, 0, 0, 0], WordOf(row, 13),
                      RotateCarry(row), RotateCarry(row)[7], i)
  {
    assert RotateByte(row, i);
    assert CarryLink(row, if i == 0 then 7 else i - 1);
    ByteOf(row, 9, i);
    ByteOf(row, 12, i);
    RotateCarryStep(row, i, if i == 0 then 7 else i - 1);
  }

  lemma RotateCarryStep(row: Row, i: nat, p: nat)
    requires row[ACTIVE_COLUMN] == 1 && i < 8 && p == (if i == 0 then 7 else i - 1) && CarryLink(row, p)
    requires InRotateTable(row[ROTATE_XOR_BASE + i], row[ROTATE_CARRY_IN_BASE + i],
                           row[WordBase(13) + i], row[ROTATE_CARRY_OUT_BASE + i])
    ensures 0 <= WordOf(row, 13)[i] < 256 && 0 <= RotateCarry(row)[i] < 2
    ensures CarryStep(RotateXor(row), RotateXor(row), [0, 0, 0, 0, 0, 0, 0, 0], WordOf(row, 13),
                      RotateCarry(row), RotateCarry(row)[7], i)
  {
    ByteOf(row, 13, i);
    LinkEqual(row, i, p);
    ExactRotate(row[ROTATE_XOR_BASE + i], row[ROTATE_CARRY_IN_BASE + i], row[WordBase(13) + i],
                row[ROTATE_CARRY_OUT_BASE + i]);
  }

  lemma LinkEqual(row: Row, i: nat, p: nat)
    requires row[ACTIVE_COLUMN] == 1 && i < 8 && p == (if i == 0 then 7 else i - 1) && CarryLink(row, p)
    ensures row[ROTATE_CARRY_IN_BASE + i] == row[ROTATE_CARRY_OUT_BASE + p]
  {
    assert (p + 1) % 8 == i;
    ZeroEqual(row[ROTATE_CARRY_IN_BASE + i], row[ROTATE_CARRY_OUT_BASE + p]);
  }

  lemma ExactRotate(z: int, carryIn: int, out: int, carryOut: int)
    requires InRotateTable(z, carryIn, out, carryOut)
    ensures 2 * z + carryIn == out + 256 * carryOut && 0 <= out < 256 && 0 <= carryOut < 2
  {
  }

  lemma RotateOfBytes(wa: seq<int>, wb: seq<int>, wo: seq<int>, z: seq<int>, c: seq<int>)
    requires |wa| == |wb| == |wo| == |z| == |c| == 8 && IsBytes(wo) && 0 <= c[7] < 2
    requires forall i: nat :: i < 8 ==> InXorTable(wa[i], wb[i], z[i])
    requires CarryChain(z, z, [0, 0, 0, 0, 0, 0, 0, 0], wo, c, c[7])
    ensures IsBytes(wa) && IsBytes(wb) && 0 <= LE(wa) < W64 && 0 <= LE(wb) < W64
    ensures LE(wo) == XorRotR(LE(wa), LE(wb), 63)
  {
    TableXors(wa, wb, z);
    XorWords(wa, wb, z);
    DoubleOfBytes(z, wo, c);
  }

  lemma DoubleOfBytes(z: seq<int>, wo: seq<int>, c: seq<int>)
    requires |wo| == |z| == |c| == 8 && IsBytes(z) && IsBytes(wo) && 0 <= c[7] < 2
    requires CarryChain(z, z, [0, 0, 0, 0, 0, 0, 0, 0], wo, c, c[7])
    ensures LE(wo) == RotR(LE(z), 63)
  {
    WordBound(z);
    WordBound(wo);
    AddWords(z, z, [0, 0, 0, 0, 0, 0, 0, 0], wo, c, c[7]);
    LEZeros();
    RotR63(LE(z), c[7], LE(wo));
  }

  lemma LEZeros()
    ensures LE([0, 0, 0, 0, 0, 0, 0, 0]) == 0
  {
  }

  lemma ScopeAt(c: Call, word: nat, byte: nat)
    requires word < 10 && byte < 8
    ensures ScopeRow(c)[1 + word * 8 + byte] == ToLE((c.input + c.output)[word], 8)[byte]
  {
    assert (word * 8 + byte) / 8 == word && (word * 8 + byte) % 8 == byte;
  }

  /** A word whose columns equal the scope bytes of x has value x. */
  lemma WordIs(row: Row, word: nat, x: U64)
    requires word < 14
    requires forall byte: nat :: byte < 8 ==> row[WordBase(word) + byte] == ToLE(x, 8)[byte]
    ensures IsBytes(WordOf(row, word)) && Value(row, word) == x
  {
    forall byte: nat | byte < 8
      ensures WordOf(row, word)[byte] == ToLE(x, 8)[byte]
    {
      ByteOf(row, word, byte);
    }
    assert WordOf(row, word) == ToLE(x, 8);
    Pow256Eight();
    LEToLE(x, 8);
  }

  lemma InputWord(row: Row, c: Call, word: nat)
    requires Constraints(row, ScopeRow(c)) && row[ACTIVE_COLUMN] == 1 && word < 6
    ensures GoodWord(row, word) && Value(row, word) == c.input[word]
  {
    forall byte: nat | byte < 8
      ensures row[WordBase(word) + byte] == ToLE(c.input[word], 8)[byte]
    {
      assert InputByte(row, ScopeRow(c), word, byte);
      ScopeAt(c, word, byte);
      ZeroEqual(row[WordBase(word) + byte], ScopeRow(c)[1 + word * 8 + byte]);
    }
    WordIs(row, word, c.input[word]);
  }

  lemma OutputWord(row: Row, c: Call, output: nat)
    requires Constraints(row, ScopeRow(c)) && row[ACTIVE_COLUMN] == 1 && output < 4
    ensures Value(row, OUTPUT_WORDS[output]) == c.output[output]
  {
    var word := OUTPUT_WORDS[output];
    forall byte: nat | byte < 8
      ensures row[WordBase(word) + byte] == ToLE(c.output[output], 8)[byte]
    {
      assert OutputByte(row, ScopeRow(c), output, byte);
      ScopeAt(c, 6 + output, byte);
      ZeroEqual(row[WordBase(word) + byte], ScopeRow(c)[1 + (6 + output) * 8 + byte]);
    }
    WordIs(row, word, c.output[output]);
  }

  lemma XorRotRComm(x: U64, y: U64, r: nat)
    requires r <= 64
    ensures XorRotR(x, y, r) == XorRotR(y, x, r)
  {
    XorComm(64, x, y);
  }

  /** The eight intermediate words of G, as the row lists them. */
  datatype Steps = Steps(a1: U64, d1: U64, c1: U64, b1: U64, a2: U64, d2: U64, c2: U64, b2: U64)

  predicate StepsOf(a: U64, b: U64, c: U64, d: U64, x: U64, y: U64, s: Steps) {
    && s.a1 == Plus(a, b, x) && s.d1 == XorRotR(s.a1, d, 32)
    && s.c1 == Plus(c, s.d1, 0) && s.b1 == XorRotR(b, s.c1, 24)
    && s.a2 == Plus(s.a1, s.b1, y) && s.d2 == XorRotR(s.d1, s.a2, 16)
    && s.c2 == Plus(s.c1, s.d2, 0) && s.b2 == XorRotR(s.b1, s.c2, 63)
  }

  lemma StepsAreG(a: U64, b: U64, c: U64, d: U64, x: U64, y: U64, s: Steps)
    requires StepsOf(a, b, c, d, x, y, s)
    ensures G(a, b, c, d, x, y) == Quad(s.a2, s.b2, s.c2, s.d2)
  {
    XorRotRComm(s.a1, d, 32);
  }

  lemma RowBytes(row: Row)
    requires Lookups(row) && row[ACTIVE_COLUMN] == 1 && forall byte: nat :: byte < 8 ==> CarryLink(row, byte)
    ensures GoodWord(row, 6) && GoodWord(row, 7) && GoodWord(row, 8) && GoodWord(row, 9)
    ensures GoodWord(row, 10) && GoodWord(row, 11) && GoodWord(row, 12) && GoodWord(row, 13)
    ensures 0 <= Value(row, 3) < W64 && Value(row, 7) == XorRotR(Value(row, 6), Value(row, 3), 32)
    ensures 0 <= Value(row, 1) < W64 && Value(row, 9) == XorRotR(Value(row, 1), Value(row, 8), 24)
    ensures Value(row, 11) == XorRotR(Value(row, 7), Value(row, 10), 16)
    ensures Value(row, 13) == XorRotR(Value(row, 9), Value(row, 12), 63)
  {
    XorRotSound(row, 6, 3, 7, 4);
    XorRotSound(row, 1, 8, 9, 3);
    XorRotSound(row, 7, 10, 11, 2);
    RotateSound(row);
  }

  lemma RowSums(row: Row)
    requires row[ACTIVE_COLUMN] == 1 && (forall i: nat :: i < 4 ==> Addition(row, ADD_SPECS[i]))
    requires GoodWord(row, 0) && GoodWord(row, 1) && GoodWord(row, 2) && GoodWord(row, 4) && GoodWord(row, 5)
    requires GoodWord(row, 6) && GoodWord(row, 7) && GoodWord(row, 8) && GoodWord(row, 9)
    requires GoodWord(row, 10) && GoodWord(row, 11) && GoodWord(row, 12)
    ensures Value(row, 6) == Plus(Value(row, 0), Value(row, 1), Value(row, 4))
    ensures Value(row, 8) == Plus(Value(row, 2), Value(row, 7), 0)
    ensures Value(row, 10) == Plus(Value(row, 6), Value(row, 9), Value(row, 5))
    ensures Value(row, 12) == Plus(Value(row, 8), Value(row, 11), 0)
  {
    LEZeros();
    assert Addition(row, ADD_SPECS[0]) && Addition(row, ADD_SPECS[1]);
    assert Addition(row, ADD_SPECS[2]) && Addition(row, ADD_SPECS[3]);
    AdditionSound(row, ADD_SPECS[0]);
    AdditionSound(row, ADD_SPECS[1]);
    AdditionSound(row, ADD_SPECS[2]);
    AdditionSound(row, ADD_SPECS[3]);
  }

  ghost predicate GoodRow(row: Row) {
    forall word: nat :: word < 14 ==> GoodWord(row, word)
  }

  ghost function RowSteps(row: Row): Steps
    requires GoodRow(row)
  {
    assert GoodWord(row, 6) && GoodWord(row, 7) && GoodWord(row, 8) && GoodWord(row, 9);
    assert GoodWord(row, 10) && GoodWord(row, 11) && GoodWord(row, 12) && GoodWord(row, 13);
    Steps(Value(row, 6), Value(row, 7), Value(row, 8), Value(row, 9),
          Value(row, 10), Value(row, 11), Value(row, 12), Value(row, 13))
  }

  lemma ActiveInputs(row: Row, c: Call)
    requires Satisfies(row, ScopeRow(c)) && row[ACTIVE_COLUMN] == 1
    ensures forall word: nat :: word < 6 ==> GoodWord(row, word) && Value(row, word) == c.input[word]
  {
    forall word: nat | word < 6 ensures GoodWord(row, word) && Value(row, word) == c.input[word] {
      InputWord(row, c, word);
    }
  }

  lemma ActiveWords(row: Row, c: Call)
    requires Satisfies(row, ScopeRow(c)) && row[ACTIVE_COLUMN] == 1
    ensures GoodRow(row)
  {
    ActiveInputs(row, c);
    RowBytes(row);
    forall word: nat | word < 14 ensures GoodWord(row, word) {
      if word >= 6 { LaterWord(row, word); }
    }
  }

  lemma LaterWord(row: Row, word: nat)
    requires GoodWord(row, 6) && GoodWord(row, 7) && GoodWord(row, 8) && GoodWord(row, 9)
    requires GoodWord(row, 10) && GoodWord(row, 11) && GoodWord(row, 12) && GoodWord(row, 13)
    requires 6 <= word < 14
    ensures GoodWord(row, word)
  {
  }

  lemma GoodWords(row: Row)
    requires GoodRow(row)
    ensures GoodWord(row, 0) && GoodWord(row, 1) && GoodWord(row, 2) && GoodWord(row, 4) && GoodWord(row, 5)
    ensures GoodWord(row, 6) && GoodWord(row, 7) && GoodWord(row, 8) && GoodWord(row, 9)
    ensures GoodWord(row, 10) && GoodWord(row, 11) && GoodWord(row, 12)
  {
  }

  /** A satisfied active row holds the call's inputs and the intermediate words of G. */
  lemma ActiveRow(row: Row, c: Call)
    requires Satisfies(row, ScopeRow(c)) && row[ACTIVE_COLUMN] != 0
    ensures row[ACTIVE_COLUMN] == 1 && GoodRow(row)
    ensures forall word: nat :: word < 6 ==> Value(row, word) == c.input[word]
    ensures StepsOf(c.input[0], c.input[1], c.input[2], c.input[3], c.input[4], c.input[5], RowSteps(row))
  {
    BooleanColumn(row[ACTIVE_COLUMN]);
    ActiveWords(row, c);
    ActiveInputs(row, c);
    GoodWords(row);
    RowBytes(row);
    RowSums(row);
  }

  /** Any active row that satisfies every constraint and lookup over the scope of a call forces the call to be G. */
  lemma SatisfiedRowIsG(row: Row, c: Call)
    requires Satisfies(row, ScopeRow(c)) && row[ACTIVE_COLUMN] != 0
    ensures IsG(c)
  {
    ActiveRow(row, c);
    StepsAreG(c.input[0], c.input[1], c.input[2], c.input[3], c.input[4], c.input[5], RowSteps(row));
    OutputWord(row, c, 0);
    OutputWord(row, c, 1);
    OutputWord(row, c, 2);
    OutputWord(row, c, 3);
  }
}
