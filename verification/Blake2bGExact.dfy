/**
 * What the G component accepts, exactly (src/blake2b_lookup_g.rs): over the scope of a call, the all-zero row and,
 * when the call is a true G, the row built for it; over a padding scope, the all-zero row. Every column of an
 * active row is determined, the carries around the one-bit rotation included.
 */
module Blake2bGExact {
  import opened Arith
  import opened Field31
  import opened Words
  import opened Rfc7693
  import opened Blake2bG
  import opened Blake2bGRow

  // ----- the all-zero row -----

  function ZeroRow(): Row {
    seq(233, _ => 0)
  }

  /** The all-zero row satisfies everything, over any scope. */
  lemma ZeroRowSatisfies(scope: Scope)
    ensures Satisfies(ZeroRow(), scope)
  {
    assert ZeroRow()[ACTIVE_COLUMN] == 0;
    forall k: nat | k < 4 ensures Addition(ZeroRow(), ADD_SPECS[k]) {
      ZeroAddition(ADD_SPECS[k]);
    }
  }

  lemma ZeroAddition(s: AddSpec)
    requires ValidSpec(s)
    ensures Addition(ZeroRow(), s)
  {
  }

  /** An inactive row is all zero. */
  lemma InactiveRow(row: Row, scope: Scope)
    requires Constraints(row, scope) && row[ACTIVE_COLUMN] == 0
    ensures row == ZeroRow()
  {
    forall column: nat | column < 233 ensures row[column] == 0 {
      if column < ACTIVE_COLUMN {
        assert InactiveZero(row, column);
        ZeroEqual(row[column], 0);
      }
    }
  }

  /** A row is active only where its scope is. */
  lemma PaddingInactive(row: Row, scope: Scope)
    requires Constraints(row, scope) && scope[0] == 0
    ensures row[ACTIVE_COLUMN] == 0
  {
    BooleanColumn(row[ACTIVE_COLUMN]);
  }

  // ----- every column of an active row is determined -----

  /** The row spells the words w. */
  ghost predicate Spells(row: Row, w: seq<U64>) {
    && |w| == 15 && w[14] == 0
    && forall word: nat :: word < 14 ==> WordOf(row, word) == ToLE(w[word], 8)
  }

  lemma WordBytes(row: Row, word: nat, x: U64)
    requires word < 14 && GoodWord(row, word) && Value(row, word) == x
    ensures WordOf(row, word) == ToLE(x, 8)
  {
    ToLELE(WordOf(row, word));
  }

  lemma SameSteps(a: U64, b: U64, c: U64, d: U64, x: U64, y: U64, s: Steps, t: Steps)
    requires StepsOf(a, b, c, d, x, y, s) && StepsOf(a, b, c, d, x, y, t)
    ensures s == t
  {
  }

  lemma LaterWords(s: Steps, c: Call, word: nat)
    requires 6 <= word < 14
    ensures RowWords(c, s)[word] == [s.a1, s.d1, s.c1, s.b1, s.a2, s.d2, s.c2, s.b2][word - 6]
  {
  }

  lemma StepOfRow(row: Row, s: Steps, word: nat)
    requires GoodRow(row) && RowSteps(row) == s && 6 <= word < 14
    ensures Value(row, word) == [s.a1, s.d1, s.c1, s.b1, s.a2, s.d2, s.c2, s.b2][word - 6]
  {
  }

  lemma WordsOfSteps(row: Row, c: Call, word: nat)
    requires GoodRow(row) && RowSteps(row) == StepsFor(c) && word < 14
    requires word < 6 ==> Value(row, word) == c.input[word]
    ensures Value(row, word) == CallWords(c)[word]
  {
    if word >= 6 {
      LaterWords(StepsFor(c), c, word);
      StepOfRow(row, StepsFor(c), word);
    }
  }

  lemma ActiveSpells(row: Row, c: Call)
    requires Satisfies(row, ScopeRow(c)) && row[ACTIVE_COLUMN] != 0
    ensures Spells(row, CallWords(c)) && row[ACTIVE_COLUMN] == 1
  {
    ActiveRow(row, c);
    SameSteps(c.input[0], c.input[1], c.input[2], c.input[3], c.input[4], c.input[5], RowSteps(row), StepsFor(c));
    RowSpells(row, c, CallWords(c));
  }

  lemma RowSpells(row: Row, c: Call, w: seq<U64>)
    requires GoodRow(row) && RowSteps(row) == StepsFor(c) && w == CallWords(c)
    requires forall word: nat :: word < 6 ==> Value(row, word) == c.input[word]
    ensures Spells(row, w)
  {
    forall word: nat | word < 14 ensures WordOf(row, word) == ToLE(w[word], 8) {
      assert GoodWord(row, word);
      WordsOfSteps(row, c, word);
      WordBytes(row, word, w[word]);
    }
  }

  /** A carry chain over bytes is the ripple of its operands. */
  lemma {:induction false} CarriesForced(a: seq<int>, b: seq<int>, x: seq<int>, o: seq<int>, c: seq<int>, i: nat)
    requires CarryChain(a, b, x, o, c, 0) && IsBytes(o) && i < |c|
    ensures c[i] == CarryAt(a, b, x, i)
  {
    if i > 0 { CarriesForced(a, b, x, o, c, i - 1); }
    assert CarryStep(a, b, x, o, c, 0, i);
    DivModUnique(a[i] + b[i] + x[i] + (if i == 0 then 0 else c[i - 1]), 256, c[i], o[i]);
  }

  lemma OperandsSpelled(row: Row, w: seq<U64>, s: AddSpec)
    requires Spells(row, w) && ValidSpec(s)
    ensures ByteOperands(row, s) && ExtraOf(row, s) == ToLE(w[s.extra], 8)
    ensures WordOf(row, s.a) == ToLE(w[s.a], 8) && WordOf(row, s.b) == ToLE(w[s.b], 8)
  {
    ToLEValue(w[s.a]);
    ToLEValue(w[s.b]);
    ToLEValue(w[s.out]);
    ToLEValue(w[s.extra]);
    ToLEZeros();
  }

  /** The carries of one addition. */
  lemma AdditionCarries(row: Row, w: seq<U64>, s: AddSpec)
    requires Spells(row, w) && row[ACTIVE_COLUMN] == 1 && ValidSpec(s) && Addition(row, s)
    ensures CarriesOf(row, s) == Carries(w[s.a], w[s.b], w[s.extra])
  {
    OperandsSpelled(row, w, s);
    forall i: nat | i < 8
      ensures CarryStep(WordOf(row, s.a), WordOf(row, s.b), ExtraOf(row, s), WordOf(row, s.out), CarriesOf(row, s), 0, i)
    {
      AdditionByteExact(row, s, i);
    }
    forall i: nat | i < 8 ensures CarriesOf(row, s)[i] == Carries(w[s.a], w[s.b], w[s.extra])[i] {
      CarriesForced(WordOf(row, s.a), WordOf(row, s.b), ExtraOf(row, s), WordOf(row, s.out), CarriesOf(row, s), i);
    }
  }

  /** The bit columns of a carry are its bits. */
  lemma BitsForced(carry: Elem, bit0: Elem, bit1: Elem)
    requires Zero(bit0 * (bit0 - 1)) && Zero(bit1 * (bit1 - 1)) && Zero(carry - bit0 - 2 * bit1)
    ensures bit0 == carry % 2 && bit1 == carry / 2 % 2
  {
    BooleanColumn(bit0);
    BooleanColumn(bit1);
    CarryBits(carry, bit0, bit1);
  }

  /** The carry columns of one byte of one addition hold what the layout holds. */
  ghost predicate CarryMatches(row: Row, p: Parts, k: nat, byte: nat)
    requires Shaped(p) && k < 4 && byte < 8
  {
    && |p.carries[k]| == 8 && row[CarryBase(k) + byte] == p.carries[k][byte]
    && row[CarryBitBase(k, byte, 0)] == p.carries[k][byte] % 2
    && row[CarryBitBase(k, byte, 1)] == p.carries[k][byte] / 2 % 2
  }

  lemma PartsCarries(w: seq<U64>, k: nat)
    requires |w| == 15 && k < 4
    ensures var s := ADD_SPECS[k];
      && ValidSpec(s) && s.carry == k && PartsOf(w).carries[k] == Carries(w[s.a], w[s.b], w[s.extra])
  {
  }

  lemma CarryColumnIs(row: Row, w: seq<U64>, s: AddSpec, byte: nat)
    requires Spells(row, w) && row[ACTIVE_COLUMN] == 1 && ValidSpec(s) && byte < 8 && Addition(row, s)
    ensures row[CarryBase(s.carry) + byte] == Carries(w[s.a], w[s.b], w[s.extra])[byte]
  {
    AdditionCarries(row, w, s);
    assert CarriesOf(row, s)[byte] == row[CarryBase(s.carry) + byte];
  }

  lemma CarryBitsAre(row: Row, s: AddSpec, byte: nat)
    requires ValidSpec(s) && byte < 8 && Addition(row, s)
    ensures row[CarryBitBase(s.carry, byte, 0)] == row[CarryBase(s.carry) + byte] % 2
    ensures row[CarryBitBase(s.carry, byte, 1)] == row[CarryBase(s.carry) + byte] / 2 % 2
  {
    assert AddByte(row, s, byte);
    BitsForced(row[CarryBase(s.carry) + byte], row[CarryBitBase(s.carry, byte, 0)], row[CarryBitBase(s.carry, byte, 1)]);
  }

  lemma CarryColumnsForced(row: Row, w: seq<U64>, p: Parts, s: AddSpec, byte: nat)
    requires Spells(row, w) && row[ACTIVE_COLUMN] == 1 && Shaped(p) && ValidSpec(s) && byte < 8 && Addition(row, s)
    requires p.carries[s.carry] == Carries(w[s.a], w[s.b], w[s.extra])
    ensures CarryMatches(row, p, s.carry, byte)
  {
    CarryColumnIs(row, w, s, byte);
    CarryBitsAre(row, s, byte);
  }

  lemma CarryOutIs(z: int, carryIn: int, out: int, carryOut: int)
    requires InRotateTable(z, carryIn, out, carryOut)
    ensures carryOut == z / 128
  {
  }

  ghost predicate RotationMatches(row: Row, p: Parts, byte: nat)
    requires Shaped(p) && byte < 8
  {
    && row[ROTATE_XOR_BASE + byte] == p.z[byte]
    && row[ROTATE_CARRY_IN_BASE + byte] == p.carryIn[byte]
    && row[ROTATE_CARRY_OUT_BASE + byte] == p.carryOut[byte]
  }

  lemma XorColumn(row: Row, w: seq<U64>, byte: nat)
    requires Spells(row, w) && byte < 8 && RotateByte(row, byte)
    ensures row[ROTATE_XOR_BASE + byte] == ZBytes(w[9], w[12])[byte]
    ensures row[ROTATE_CARRY_OUT_BASE + byte] == ZBytes(w[9], w[12])[byte] / 128
  {
    ByteOf(row, 9, byte);
    ByteOf(row, 12, byte);
    CarryOutIs(row[ROTATE_XOR_BASE + byte], row[ROTATE_CARRY_IN_BASE + byte], row[WordBase(13) + byte], row[ROTATE_CARRY_OUT_BASE + byte]);
  }

  /** The cyclic carries of the rotation: each is the top bit of the byte before, so there is no second solution. */
  lemma RotationColumnsForced(row: Row, w: seq<U64>, z: seq<int>, byte: nat, before: nat)
    requires Spells(row, w) && row[ACTIVE_COLUMN] == 1 && z == ZBytes(w[9], w[12])
    requires byte < 8 && before == (if byte == 0 then 7 else byte - 1)
    requires RotateByte(row, byte) && RotateByte(row, before) && CarryLink(row, before)
    ensures row[ROTATE_XOR_BASE + byte] == z[byte] && row[ROTATE_CARRY_OUT_BASE + byte] == z[byte] / 128
    ensures row[ROTATE_CARRY_IN_BASE + byte] == z[before] / 128
  {
    XorColumn(row, w, byte);
    XorColumn(row, w, before);
    LinkEqual(row, byte, before);
  }

  lemma RotationLayout(row: Row, w: seq<U64>, p: Parts, byte: nat, before: nat)
    requires |w| == 15 && Shaped(p) && p == PartsOf(w) && byte < 8 && before == (byte + 7) % 8
    requires row[ROTATE_XOR_BASE + byte] == p.z[byte] && row[ROTATE_CARRY_OUT_BASE + byte] == p.z[byte] / 128
    requires row[ROTATE_CARRY_IN_BASE + byte] == p.z[before] / 128
    ensures RotationMatches(row, p, byte)
  {
    ZBytesAre(w[9], w[12]);
    TopBitCarries(p.z, byte);
  }

  // ----- columns that match a layout are the layout -----

  ghost predicate Matches(row: Row, p: Parts) {
    && Shaped(p) && row[ACTIVE_COLUMN] == 1
    && (forall word: nat :: word < 14 ==> WordOf(row, word) == p.words[word])
    && (forall k: nat, byte: nat :: k < 4 && byte < 8 ==> CarryMatches(row, p, k, byte))
    && (forall byte: nat :: byte < 8 ==> RotationMatches(row, p, byte))
  }

  lemma WordRegion(row: Row, p: Parts, column: nat)
    requires Matches(row, p) && column < CARRY_BASE
    ensures row[column] == ColumnAt(p, column)
  {
    var word, byte := column / 8, column % 8;
    assert column == WordBase(word) + byte;
    ByteOf(row, word, byte);
  }

  lemma CarryRegion(row: Row, p: Parts, column: nat)
    requires Matches(row, p) && CARRY_BASE <= column < CARRY_BIT_BASE
    ensures row[column] == ColumnAt(p, column)
  {
    var k, byte := (column - CARRY_BASE) / 8, (column - CARRY_BASE) % 8;
    assert column == CarryBase(k) + byte;
    assert CarryMatches(row, p, k, byte);
  }

  lemma BitRegion(row: Row, p: Parts, column: nat)
    requires Matches(row, p) && CARRY_BIT_BASE <= column < ROTATE_XOR_BASE
    ensures row[column] == ColumnAt(p, column)
  {
    var offset := column - CARRY_BIT_BASE;
    var k, byte, bit := offset / 16, offset % 16 / 2, offset % 2;
    assert offset % 16 % 2 == bit && column == CarryBitBase(k, byte, bit);
    assert CarryMatches(row, p, k, byte);
  }

  lemma RotationRegion(row: Row, p: Parts, column: nat)
    requires Matches(row, p) && ROTATE_XOR_BASE <= column < 233
    ensures row[column] == ColumnAt(p, column)
  {
    if column < ACTIVE_COLUMN {
      assert RotationMatches(row, p, (column - ROTATE_XOR_BASE) % 8);
    }
  }

  lemma MatchesIsLayout(row: Row, p: Parts)
    requires Matches(row, p)
    ensures row == Layout(p)
  {
    forall column: nat | column < 233 ensures row[column] == Layout(p)[column] {
      if column < CARRY_BASE { WordRegion(row, p, column); }
      else if column < CARRY_BIT_BASE { CarryRegion(row, p, column); }
      else if column < ROTATE_XOR_BASE { BitRegion(row, p, column); }
      else { RotationRegion(row, p, column); }
    }
  }

  /** The row the builder makes for a call. */
  ghost function CallRow(c: Call): Row {
    CallRowSatisfiesIffG(c);
    Layout(PartsOf(CallWords(c)))
  }

  lemma CarriesMatch(row: Row, w: seq<U64>, p: Parts)
    requires Spells(row, w) && row[ACTIVE_COLUMN] == 1 && Shaped(p) && p == PartsOf(w)
    requires forall k: nat :: k < 4 ==> Addition(row, ADD_SPECS[k])
    ensures forall k: nat, byte: nat :: k < 4 && byte < 8 ==> CarryMatches(row, p, k, byte)
  {
    forall k: nat, byte: nat | k < 4 && byte < 8 ensures CarryMatches(row, p, k, byte) {
      assert Addition(row, ADD_SPECS[k]);
      PartsCarries(w, k);
      CarryColumnsForced(row, w, p, ADD_SPECS[k], byte);
    }
  }

  /** The constraints of the rotation at one byte and the byte before it. */
  ghost predicate RotatesAt(row: Row, byte: nat, before: nat) {
    && byte < 8 && before == (if byte == 0 then 7 else byte - 1)
    && RotateByte(row, byte) && RotateByte(row, before) && CarryLink(row, before)
  }

  lemma RotatesEverywhere(row: Row, byte: nat) returns (before: nat)
    requires forall i: nat :: i < 8 ==> RotateByte(row, i)
    requires forall i: nat :: i < 8 ==> CarryLink(row, i)
    requires byte < 8
    ensures RotatesAt(row, byte, before)
  {
    before := if byte == 0 then 7 else byte - 1;
  }

  lemma CyclicBefore(byte: nat, before: nat)
    requires byte < 8 && before == (if byte == 0 then 7 else byte - 1)
    ensures before == (byte + 7) % 8
  {
  }

  lemma PartsRotate(w: seq<U64>)
    requires |w| == 15
    ensures PartsOf(w).z == ZBytes(w[9], w[12])
  {
  }

  lemma RotationForced(row: Row, w: seq<U64>, p: Parts, byte: nat, before: nat)
    requires Spells(row, w) && row[ACTIVE_COLUMN] == 1 && Shaped(p) && p == PartsOf(w) && RotatesAt(row, byte, before)
    ensures RotationMatches(row, p, byte)
  {
    PartsRotate(w);
    CyclicBefore(byte, before);
    RotationColumnsForced(row, w, p.z, byte, before);
    RotationLayout(row, w, p, byte, before);
  }

  lemma RotationsMatch(row: Row, w: seq<U64>, p: Parts)
    requires Spells(row, w) && row[ACTIVE_COLUMN] == 1 && Shaped(p) && p == PartsOf(w)
    requires forall i: nat :: i < 8 ==> RotateByte(row, i)
    requires forall i: nat :: i < 8 ==> CarryLink(row, i)
    ensures forall byte: nat :: byte < 8 ==> RotationMatches(row, p, byte)
  {
    forall byte: nat | byte < 8 ensures RotationMatches(row, p, byte) {
      var before := RotatesEverywhere(row, byte);
      RotationForced(row, w, p, byte, before);
    }
  }

  /** A satisfied active row is the row built for its call, column by column. */
  lemma ActiveRowIsBuilt(row: Row, c: Call)
    requires Satisfies(row, ScopeRow(c)) && row[ACTIVE_COLUMN] != 0
    ensures row == CallRow(c)
  {
    var w := CallWords(c);
    ActiveSpells(row, c);
    PartsShaped(w);
    CarriesMatch(row, w, PartsOf(w));
    RotationsMatch(row, w, PartsOf(w));
    MatchesIsLayout(row, PartsOf(w));
  }

  /** Over the scope of a call exactly two rows can pass: all zero, and for a true call the row built for it. */
  lemma SatisfiesIff(row: Row, c: Call)
    ensures Satisfies(row, ScopeRow(c)) <==> row == ZeroRow() || (IsG(c) && row == CallRow(c))
  {
    ZeroRowSatisfies(ScopeRow(c));
    CallRowSatisfiesIffG(c);
    if Satisfies(row, ScopeRow(c)) {
      if row[ACTIVE_COLUMN] == 0 {
        InactiveRow(row, ScopeRow(c));
      } else {
        SatisfiedRowIsG(row, c);
        ActiveRowIsBuilt(row, c);
      }
    }
  }

  /** Over a padding scope only the all-zero row passes. */
  lemma PaddingIff(row: Row, scope: Scope)
    requires scope[0] == 0
    ensures Satisfies(row, scope) <==> row == ZeroRow()
  {
    ZeroRowSatisfies(scope);
    if Satisfies(row, scope) {
      PaddingInactive(row, scope);
      InactiveRow(row, scope);
    }
  }
}
