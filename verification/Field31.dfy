/**
 * The base field of every constraint system: residues modulo the Mersenne prime 2^31 - 1.
 *
 * A constraint is an integer polynomial in the column values; it holds when its value is divisible by
 * the modulus. That the modulus is prime is proved, not assumed: 7 generates all nonzero residues, so
 * every one of them is invertible.
 */
module Field31 {
  import opened Arith
  import opened Primes

  const M31: int := 0x7fff_ffff

  type Elem = x: int | 0 <= x < 0x7fff_ffff

  predicate IsElems(r: seq<int>) {
    forall i :: 0 <= i < |r| ==> 0 <= r[i] < 0x7fff_ffff
  }

  /** The value of a constraint polynomial is zero in the field. */
  predicate Zero(e: int) {
    e % M31 == 0
  }

  // ----- three powers of 7, computed by square-and-multiply -----

  const ORDER: nat := 0x7fff_fffe

  /** From v = 7^e to w = 7^(2e), with the quotient of the reduction. */
  lemma Square(f: nat -> int, e: nat, v: int, q: int, w: int)
    requires PowersOf(f, 7, M31) && v == f(e) && v * v == q * M31 + w && 0 <= w < M31
    ensures f(2 * e) == w
  {
    assert AddLaw(f, M31, e, e);
    assert e + e == 2 * e;
  }

  /** From v = 7^e to w = 7^(2e + 1), by way of u = 7^(2e). */
  lemma SquareTimes7(f: nat -> int, e: nat, v: int, q: int, u: int, w: int)
    requires PowersOf(f, 7, M31) && v == f(e) && v * v == q * M31 + u && 0 <= u < M31 && w == (7 * u) % M31
    ensures f(2 * e + 1) == w
  {
    Square(f, e, v, q, u);
    assert AddLaw(f, M31, 2 * e, 1);
  }

  lemma SevenToOrderPart1(f: nat -> int)
    requires PowersOf(f, 7, M31)
    ensures f(32767) == 1734770806
  {
    SquareTimes7(f, 0, 1, 0, 1, 7);
    SquareTimes7(f, 1, 7, 0, 49, 343);
    SquareTimes7(f, 3, 343, 0, 117649, 823543);
    SquareTimes7(f, 7, 823543, 315, 1765724044, 1622650073);
    SquareTimes7(f, 15, 1622650073, 1226083031, 470211272, 1143995257);
    SquareTimes7(f, 31, 1143995257, 609422637, 969378910, 343201429);
    SquareTimes7(f, 63, 343201429, 54848948, 1982488685, 992518913);
    SquareTimes7(f, 127, 992518913, 458720043, 1769064748, 1646035001);
    SquareTimes7(f, 255, 1646035001, 1261677232, 1004844897, 591463338);
    SquareTimes7(f, 511, 591463338, 162901766, 1645681642, 782353259);
    SquareTimes7(f, 1023, 782353259, 285020387, 1723809692, 1329249609);
    SquareTimes7(f, 2047, 1329249609, 822779035, 269712236, 1887985652);
    SquareTimes7(f, 4095, 1887985652, 1659844919, 2049325511, 1460376695);
    SquareTimes7(f, 8191, 1460376695, 993115870, 897945135, 1990648651);
    SquareTimes7(f, 16383, 1990648651, 1845267626, 554607779, 1734770806);
  }

  lemma SevenToOrder(f: nat -> int)
    requires PowersOf(f, 7, M31)
    ensures f(2147483646) == 1
  {
    SevenToOrderPart1(f);
    SquareTimes7(f, 32767, 1734770806, 1401374931, 1711636279, 1244035718);
    SquareTimes7(f, 65535, 1244035718, 720668988, 1029736288, 765703075);
    SquareTimes7(f, 131071, 765703075, 273017771, 501564788, 1363469869);
    SquareTimes7(f, 262143, 1363469869, 865687655, 1148599376, 1597744691);
    SquareTimes7(f, 524287, 1597744691, 1188734592, 675468457, 433311905);
    SquareTimes7(f, 1048575, 433311905, 87432194, 178397507, 1248782549);
    SquareTimes7(f, 2097151, 1248782549, 726179152, 974610057, 379819458);
    SquareTimes7(f, 4194303, 379819458, 67177610, 1755870094, 1553672423);
    SquareTimes7(f, 8388607, 1553672423, 1124058849, 1497548626, 1892905794);
    SquareTimes7(f, 16777215, 1892905794, 1668507394, 1445184518, 1526357038);
    SquareTimes7(f, 33554431, 1526357038, 1084881745, 1135809429, 1508215062);
    SquareTimes7(f, 67108863, 1508215062, 1059245632, 367483940, 424903933);
    SquareTimes7(f, 134217727, 424903933, 84072049, 1881585786, 286198620);
    SquareTimes7(f, 268435455, 286198620, 38142153, 261032409, 1827226863);
    SquareTimes7(f, 536870911, 1827226863, 1554730353, 306783378, 2147483646);
    Square(f, 1073741823, 2147483646, 2147483645, 1);
  }

  lemma SevenToOrderOver331(f: nat -> int)
    requires PowersOf(f, 7, M31)
    ensures f(6487866) == 1761855083
  {
    SquareTimes7(f, 0, 1, 0, 1, 7);
    SquareTimes7(f, 1, 7, 0, 49, 343);
    Square(f, 3, 343, 0, 117649);
    Square(f, 6, 117649, 6, 956385319);
    Square(f, 12, 956385319, 425927750, 470227511);
    SquareTimes7(f, 24, 470227511, 102964188, 2144621485, 2127448513);
    Square(f, 49, 2127448513, 2107600298, 1098584363);
    SquareTimes7(f, 98, 1098584363, 562000834, 2012754171, 1204377315);
    SquareTimes7(f, 197, 1204377315, 675453207, 540403296, 1635339425);
    SquareTimes7(f, 395, 1635339425, 1245334295, 1398556760, 1199962732);
    SquareTimes7(f, 791, 1199962732, 670510604, 958811036, 269226311);
    SquareTimes7(f, 1583, 269226311, 33752437, 30770982, 215396874);
    SquareTimes7(f, 3167, 215396874, 21604734, 366186978, 415825199);
    SquareTimes7(f, 6335, 415825199, 80517770, 1755482411, 1550958642);
    SquareTimes7(f, 12671, 1550958642, 1120135518, 1865610018, 174368244);
    Square(f, 25343, 174368244, 14158098, 588020130);
    Square(f, 50686, 588020130, 161010619, 1989369407);
    SquareTimes7(f, 101372, 1989369407, 1842896751, 1625600752, 641787029);
    SquareTimes7(f, 202745, 641787029, 191801502, 1577609047, 305845094);
    SquareTimes7(f, 405491, 305845094, 43558525, 1398928161, 1202562539);
    Square(f, 810983, 1202562539, 673419172, 759846237);
    SquareTimes7(f, 1621966, 759846237, 268857136, 943805177, 164185298);
    Square(f, 3243933, 164185298, 12552743, 1761855083);
  }

  lemma SevenToOrderOver151(f: nat -> int)
    requires PowersOf(f, 7, M31)
    ensures f(14221746) == 535044134
  {
    SquareTimes7(f, 0, 1, 0, 1, 7);
    SquareTimes7(f, 1, 7, 0, 49, 343);
    Square(f, 3, 343, 0, 117649);
    SquareTimes7(f, 6, 117649, 6, 956385319, 252246292);
    SquareTimes7(f, 13, 252246292, 29629185, 1566311569, 226762748);
    Square(f, 27, 226762748, 23944929, 424435441);
    Square(f, 54, 424435441, 83886759, 424534408);
    SquareTimes7(f, 108, 424534408, 83925884, 125891516, 881240612);
    Square(f, 217, 881240612, 361625578, 1146211578);
    Square(f, 434, 1146211578, 611786256, 1321894452);
    Square(f, 868, 1321894452, 813698835, 482929059);
    Square(f, 1736, 482929059, 108601747, 308494172);
    Square(f, 3472, 308494172, 44316358, 58367958);
    Square(f, 6944, 58367958, 1586423, 1071365083);
    Square(f, 13888, 1071365083, 534496801, 1550283642);
    SquareTimes7(f, 27776, 1550283642, 1119160732, 318234560, 80158273);
    SquareTimes7(f, 55553, 80158273, 2992036, 349107237, 296267012);
    Square(f, 111107, 296267012, 40873020, 345904204);
    SquareTimes7(f, 222214, 345904204, 55716241, 1925062689, 590536941);
    SquareTimes7(f, 444429, 590536941, 162391866, 2044822179, 1428853371);
    Square(f, 888859, 1428853371, 950704308, 1255612365);
    Square(f, 1777718, 1255612365, 734144082, 504066171);
    SquareTimes7(f, 3555436, 504066171, 118316479, 923482328, 21925355);
    Square(f, 7110873, 21925355, 223853, 535044134);
  }

  lemma TwoPrimes()
    ensures Prime(151) && Prime(331)
  {
    assert Rough(151, 12);
    RoughMeans(151, 12);
    TrialDivision(151, 12);
    assert Rough(331, 9);
    RoughMeans(331, 18);
    TrialDivision(331, 18);
  }

  // ----- the order of 7 modulo a small divisor would be too large -----

  /** Modulo a divisor of M31 the three computed powers are 1, not 1 and not 1. */
  lemma PowersModDivisor(h: nat -> int, f: nat -> int, d: nat)
    requires PowersOf(h, 7, M31) && 1 < d && M31 % d == 0
    requires f(ORDER) == h(ORDER) % d && f(6487866) == h(6487866) % d && f(14221746) == h(14221746) % d
    ensures f(ORDER) == 1 && f(6487866) != 1 && f(14221746) != 1
  {
    SevenToOrder(h);
    SmallMod(1, d);
    SevenToOrderOver331(h);
    StaysOffOne(1761855083, 1924809196, M31, d);
    SevenToOrderOver151(h);
    StaysOffOne(535044134, 1648395377, M31, d);
  }

  lemma OrderModDivisor(d: nat) returns (f: nat -> int, g: nat)
    requires 1 < d <= ORDER && M31 % d == 0
    ensures PowersOf(f, 7, d) && 0 < g < d && ORDER % g == 0 && f(g) == 1
    ensures f(6487866) != 1 && f(14221746) != 1
  {
    f := PowMIsPowers(7, d);
    var h := PowMIsPowers(7, M31);
    PowMDivisor(7, ORDER, M31, d);
    PowMDivisor(7, 6487866, M31, d);
    PowMDivisor(7, 14221746, M31, d);
    PowersModDivisor(h, f, d);
    g := OrderBelow(f, 7, d, ORDER);
  }

  /** No d in 2..46340 divides 2^31 - 1 (Pocklington's argument with the factor 151 * 331 of the order). */
  lemma NoSmallDivisor(d: nat)
    requires 1 < d <= 46340
    ensures M31 % d != 0
  {
    if M31 % d == 0 {
      var f, g := OrderModDivisor(d);
      var k := ORDER / g;
      assert k * g == ORDER;
      NoMultiple(f, 7, d, g, k, 331, 6487866);
      NoMultiple(f, 7, d, g, k, 151, 14221746);
      TwoPrimes();
      var h := Strip(331, 6487866, k, g);
      h := Strip(151, 42966, k, h);
      assert false;
    }
  }

  lemma ModulusIsPrime()
    ensures Prime(M31)
  {
    forall d: nat | 1 < d <= 46340
      ensures M31 % d != 0
    {
      NoSmallDivisor(d);
    }
    TrialDivision(M31, 46340);
  }

  // ----- the facts the constraint systems rest on -----

  /** Every nonzero field element has an inverse. */
  lemma InverseExists(x: int) returns (y: Elem)
    requires 0 < x < M31
    ensures (x * y) % M31 == 1
  {
    ModulusIsPrime();
    var z := InverseStep(M31, x);
    y := z % M31;
    ReduceFactor(z, x, M31);
    assert z * x == x * z;
  }

  /** A vanishing product has a vanishing factor. */
  lemma NoZeroDivisors(a: int, b: int)
    requires Zero(a * b)
    ensures Zero(a) || Zero(b)
  {
    ModulusIsPrime();
    EuclidLemma(M31, a, b);
  }

  /** A column constrained by x * (x - 1) = 0 holds a bit. */
  lemma BooleanColumn(x: Elem)
    requires Zero(x * (x - 1))
    ensures x == 0 || x == 1
  {
    NoZeroDivisors(x, x - 1);
  }
}
