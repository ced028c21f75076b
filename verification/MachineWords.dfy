/**
 Numbers below 2^32 as machine words: exclusive or, shifts, masks and single bits of words are the arithmetic that
 stands for them elsewhere. With it, the Bech32 round as the word operations it is written with.
 */
module MachineWords {
  import opened Positional
  import opened ExclusiveOr
  import opened PolyMod

  /** The word with these binary digits. */
  function Word(n: nat): bv32 {
    if n == 0 then 0 else Shifted(Word(n / 2), n % 2 == 1)
  }

  /** One more digit at the low end. */
  function Shifted(w: bv32, bit: bool): bv32 {
    (w << 1) ^ (if bit then 1 else 0)
  }

  function Either(v: bv32, w: bv32): bv32 {
    v ^ w
  }

  lemma {:induction false} WordNext(n: nat)
    ensures Word(n) == Shifted(Word(n / 2), n % 2 == 1)
  {
    hide Shifted;
    if n == 0 {
      assert Word(0) == 0;
      ShiftedZero();
    }
  }

  lemma ShiftedZero()
    ensures Shifted(0, false) == 0
  {
  }

  lemma ShiftedEither(v: bv32, w: bv32, a: bool, b: bool)
    ensures Shifted(Either(v, w), a != b) == Either(Shifted(v, a), Shifted(w, b))
  {
  }

  lemma {:induction false} EitherZero(w: bv32)
    ensures Word(0) == 0 && Either(w, 0) == w == Either(0, w)
  {
  }

  /** Exclusive or on words. */
  lemma {:induction false} WordXor(a: nat, b: nat)
    ensures Word(Xor(a, b)) == Either(Word(a), Word(b))
    decreases a + b
  {
    hide Word, Shifted, Xor, Either;
    if a == 0 {
      XorZero(b);
      EitherZero(Word(b));
    } else if b == 0 {
      XorZero(a);
      EitherZero(Word(a));
    } else {
      XorUnfolds(a, b);
      WordXor(a / 2, b / 2);
      ShiftedEither(Word(a / 2), Word(b / 2), a % 2 == 1, b % 2 == 1);
      WordNext(a);
      WordNext(b);
      WordNext(Xor(a, b));
    }
  }

  // ---------------------------------------------------------------- shifts

  function Double(w: bv32): bv32 {
    w << 1
  }

  function Up5(w: bv32): bv32 {
    w << 5
  }

  function Up25(w: bv32): bv32 {
    w << 25
  }

  lemma {:induction false} WordDouble(n: nat)
    ensures Word(n * 2) == Double(Word(n))
  {
    hide Word, Shifted, Double;
    WordNext(n * 2);
    ShiftedEven(Word(n));
  }

  lemma ShiftedEven(w: bv32)
    ensures Shifted(w, false) == Double(w)
  {
  }

  /** Times 32 is a shift by five bits. */
  lemma {:induction false} WordUp5(n: nat)
    ensures Word(n * 32) == Up5(Word(n))
  {
    hide Word, Double, Up5;
    WordDouble(n);
    WordDouble(n * 2);
    WordDouble(n * 4);
    WordDouble(n * 8);
    WordDouble(n * 16);
    FiveDoubles(Word(n));
  }

  lemma FiveDoubles(w: bv32)
    ensures Double(Double(Double(Double(Double(w))))) == Up5(w)
  {
  }

  /** Times 2^25 is a shift by 25 bits. */
  lemma {:induction false} WordUp25(n: nat)
    ensures Word(n * TOP) == Up25(Word(n))
  {
    hide Word, Up5, Up25;
    WordUp5(n);
    WordUp5(n * 32);
    WordUp5(n * 1024);
    WordUp5(n * 32768);
    WordUp5(n * 1048576);
    FiveUps(Word(n));
  }

  lemma FiveUps(w: bv32)
    ensures Up5(Up5(Up5(Up5(Up5(w))))) == Up25(w)
  {
  }

  // ---------------------------------------------------------------- masks and bits

  /** The low `k` bits. */
  function Mask(k: nat): bv32 {
    if k == 0 then 0 else Shifted(Mask(k - 1), true)
  }

  predicate Under(w: bv32, m: bv32) {
    w & m == w
  }

  lemma UnderNext(w: bv32, m: bv32, bit: bool)
    requires Under(w, m)
    ensures Under(Shifted(w, bit), Shifted(m, true))
  {
  }

  lemma {:induction false} WordUnder(n: nat, k: nat)
    requires n < Pow2(k)
    ensures Under(Word(n), Mask(k))
    decreases k
  {
    hide Shifted, Under, Pow2, Word;
    if k == 0 {
      Pow2Next(0);
      NothingUnder();
    } else {
      Pow2Next(k - 1);
      WordUnder(n / 2, k - 1);
      WordNext(n);
      UnderNext(Word(n / 2), Mask(k - 1), n % 2 == 1);
    }
  }

  lemma {:induction false} NothingUnder()
    ensures Under(Word(0), Mask(0))
  {
  }

  lemma {:induction false} Masks()
    ensures Mask(5) == 31 && Mask(25) == 0x1ffffff
  {
    assert Mask(5) == 31;
    assert Mask(10) == 0x3ff;
    assert Mask(15) == 0x7fff;
    assert Mask(20) == 0xfffff;
  }

  function Low25(w: bv32): bv32 {
    w & 0x1ffffff
  }

  function Down25(w: bv32): bv32 {
    w >> 25
  }

  lemma Halves(hi: bv32, lo: bv32)
    requires Under(hi, 31) && Under(lo, 0x1ffffff)
    ensures Low25(Either(Up25(hi), lo)) == lo && Down25(Either(Up25(hi), lo)) == hi
  {
  }

  /** The low 25 bits and the bits above them, of a number of 30 bits. */
  lemma {:induction false} WordSplits(c: nat)
    requires c < STATES
    ensures Low25(Word(c)) == Word(c % TOP) && Down25(Word(c)) == Word(c / TOP)
  {
    hide Word, Low25, Down25, Under, Either, Up25, Pow2, Xor, Mask;
    var q, r := c / TOP, c % TOP;
    Powers();
    Masks();
    WordUnder(q, 5);
    WordUnder(r, 25);
    XorDisjoint(q, r, 25);
    WordXor(q * TOP, r);
    WordUp25(q);
    Halves(Word(q), Word(r));
  }

  predicate Has(w: bv32, m: bv32) {
    w & m != 0
  }

  lemma HasNext(w: bv32, m: bv32, bit: bool)
    requires m & 0x8000_0000 == 0
    ensures Has(Shifted(w, bit), Double(m)) == Has(w, m) && Has(Shifted(w, bit), 1) == bit
  {
  }

  /** The bits of a number are the bits of its word. */
  lemma {:induction false} WordBits(n: nat)
    ensures BitOn(n, 0) == Has(Word(n), 1) && BitOn(n, 1) == Has(Word(n), 2) && BitOn(n, 2) == Has(Word(n), 4)
    ensures BitOn(n, 3) == Has(Word(n), 8) && BitOn(n, 4) == Has(Word(n), 16)
  {
    hide Word, Has, BitOn, Shifted;
    WordBit(n, 0, 1);
    WordBit(n, 1, 2);
    WordBit(n, 2, 4);
    WordBit(n, 3, 8);
    WordBit(n, 4, 16);
  }

  function Single(k: nat): bv32 {
    if k == 0 then 1 else Double(Single(k - 1))
  }

  lemma {:induction false} WordBit(n: nat, k: nat, m: bv32)
    requires k <= 4 && m == Single(k)
    ensures BitOn(n, k) == Has(Word(n), m)
    decreases k
  {
    hide Word, Has, BitOn, Shifted, Double;
    WordNext(n);
    if k == 0 {
      BitZero(n);
      HasNext(Word(n / 2), 1, n % 2 == 1);
    } else {
      WordBit(n / 2, k - 1, Single(k - 1));
      BitNext(n, k);
      SingleSmall(k - 1);
      HasNext(Word(n / 2), Single(k - 1), n % 2 == 1);
    }
  }

  lemma {:induction false} SingleSmall(k: nat)
    requires k <= 3
    ensures Single(k) & 0x8000_0000 == 0
  {
    assert Single(0) == 1 && Single(1) == 2;
    assert Single(2) == 4 && Single(3) == 8;
  }

  lemma {:induction false} BitZero(n: nat)
    ensures BitOn(n, 0) == (n % 2 == 1)
  {
    assert Pow2(0) == 1;
  }

  lemma {:induction false} BitNext(n: nat, k: nat)
    requires k > 0
    ensures BitOn(n, k) == BitOn(n / 2, k - 1)
  {
    hide Pow2;
    Pow2Next(k - 1);
    HalfQuotient(n, Pow2(k - 1));
    assert n / Pow2(k) == n / 2 / Pow2(k - 1);
  }

  lemma HalfQuotient(n: nat, p: nat)
    requires p > 0
    ensures n / (2 * p) == n / 2 / p
  {
    var m := n / 2;
    var q, r := m / p, m % p;
    Swap(q, 2, p);
    HalvesJoin(m, p);
    DivisionIs(n, 2 * p, q, 2 * r + n % 2);
  }

  lemma HalvesJoin(m: nat, p: nat)
    requires p > 0
    ensures 2 * m == 2 * (m / p * p) + 2 * (m % p) && m % p < p
  {
  }

  // ---------------------------------------------------------------- the round

  /** One round of the checksum on words, as it is written. */
  function Round(c: bv32, v: bv32): bv32 {
    var c0 := Down25(c);
    var c1 := Either(Up5(Low25(c)), v);
    var c2 := if Has(c0, 1) then Either(c1, 0x3b6a57b2) else c1;
    var c3 := if Has(c0, 2) then Either(c2, 0x26508e6d) else c2;
    var c4 := if Has(c0, 4) then Either(c3, 0x1ea119fa) else c3;
    var c5 := if Has(c0, 8) then Either(c4, 0x3d4233dd) else c4;
    if Has(c0, 16) then Either(c5, 0x2a1462b3) else c5
  }

  function Chosen(b: bool, k: bv32): bv32 {
    if b then k else 0
  }

  lemma EitherAssociates(x: bv32, y: bv32, z: bv32)
    ensures Either(Either(x, y), z) == Either(x, Either(y, z))
  {
  }

  /** Adding a chosen word and then the rest is adding the sum of the two. */
  lemma {:induction false} ChosenSum(x: bv32, b: bool, k: bv32, rest: bv32)
    ensures Either(if b then Either(x, k) else x, rest) == Either(x, Either(Chosen(b, k), rest))
    ensures (if b then Either(x, k) else x) == Either(x, Chosen(b, k))
  {
    hide Either;
    EitherAssociates(x, k, rest);
    EitherZero(rest);
    EitherZero(x);
  }

  lemma RoundSums(c: bv32, v: bv32)
    ensures var c0 := Down25(c);
      Round(c, v) ==
      Either(Either(Up5(Low25(c)), v),
             Either(Chosen(Has(c0, 1), 0x3b6a57b2), Either(Chosen(Has(c0, 2), 0x26508e6d),
             Either(Chosen(Has(c0, 4), 0x1ea119fa), Either(Chosen(Has(c0, 8), 0x3d4233dd),
                    Chosen(Has(c0, 16), 0x2a1462b3))))))
  {
    hide Has, Down25, Up5, Low25, Either, Chosen;
    var c0 := Down25(c);
    var c1 := Either(Up5(Low25(c)), v);
    var c2 := if Has(c0, 1) then Either(c1, 0x3b6a57b2) else c1;
    var c3 := if Has(c0, 2) then Either(c2, 0x26508e6d) else c2;
    var c4 := if Has(c0, 4) then Either(c3, 0x1ea119fa) else c3;
    var c5 := if Has(c0, 8) then Either(c4, 0x3d4233dd) else c4;
    var r4 := Chosen(Has(c0, 16), 0x2a1462b3);
    var r3 := Either(Chosen(Has(c0, 8), 0x3d4233dd), r4);
    var r2 := Either(Chosen(Has(c0, 4), 0x1ea119fa), r3);
    var r1 := Either(Chosen(Has(c0, 2), 0x26508e6d), r2);
    ChosenSum(c5, Has(c0, 16), 0x2a1462b3, 0);
    ChosenSum(c4, Has(c0, 8), 0x3d4233dd, r4);
    ChosenSum(c3, Has(c0, 4), 0x1ea119fa, r3);
    ChosenSum(c2, Has(c0, 2), 0x26508e6d, r2);
    ChosenSum(c1, Has(c0, 1), 0x3b6a57b2, r1);
  }

  /** One more symbol of five bits at the low end. */
  lemma {:induction false} WordSymbol(n: nat, d: nat)
    requires d < 32
    ensures Word(n * 32 + d) == Either(Up5(Word(n)), Word(d))
  {
    hide Word, Xor, Either, Up5, Pow2;
    Powers();
    XorDisjoint(n, d, 5);
    WordXor(n * 32, d);
    WordUp5(n);
  }

  function Six(a: bv32, b: bv32, c: bv32, d: bv32, e: bv32, g: bv32): bv32 {
    Either(Up5(Either(Up5(Either(Up5(Either(Up5(Either(Up5(a), b)), c)), d)), e)), g)
  }

  lemma {:induction false} WordOfSix(a: nat, b: nat, c: nat, d: nat, e: nat, g: nat)
    requires b < 32 && c < 32 && d < 32 && e < 32 && g < 32
    ensures Word(((((a * 32 + b) * 32 + c) * 32 + d) * 32 + e) * 32 + g) ==
      Six(Word(a), Word(b), Word(c), Word(d), Word(e), Word(g))
  {
    hide Word, Either, Up5;
    WordSymbol(a, b);
    WordSymbol(a * 32 + b, c);
    WordSymbol((a * 32 + b) * 32 + c, d);
    WordSymbol(((a * 32 + b) * 32 + c) * 32 + d, e);
    WordSymbol((((a * 32 + b) * 32 + c) * 32 + d) * 32 + e, g);
  }

  lemma {:induction false} WordPick(t: nat, n: nat, k: nat, w: bv32)
    requires Word(k) == w
    ensures Word(Pick(t, n, k)) == Chosen(BitOn(t, n), w)
  {
    hide BitOn;
    assert Word(0) == 0;
  }

  lemma {:induction false} SmallWords()
    ensures Word(0) == 0 && Word(1) == 1 && Word(2) == 2 && Word(3) == 3 && Word(4) == 4 && Word(5) == 5
    ensures Word(6) == 6 && Word(7) == 7 && Word(8) == 8 && Word(9) == 9 && Word(10) == 10 && Word(11) == 11
    ensures Word(12) == 12 && Word(13) == 13 && Word(14) == 14 && Word(15) == 15 && Word(16) == 16 && Word(17) == 17
    ensures Word(18) == 18 && Word(19) == 19 && Word(20) == 20 && Word(21) == 21 && Word(22) == 22 && Word(23) == 23
    ensures Word(24) == 24 && Word(25) == 25 && Word(26) == 26 && Word(27) == 27 && Word(28) == 28 && Word(29) == 29
    ensures Word(30) == 30 && Word(31) == 31
  {
  }

  lemma {:induction false} GeneratorWords()
    ensures Word(K0) == 0x3b6a57b2 && Word(K1) == 0x26508e6d && Word(K2) == 0x1ea119fa
    ensures Word(K3) == 0x3d4233dd && Word(K4) == 0x2a1462b3
  {
    SmallWords();
    hide Word;
    WordOfSix(29, 22, 20, 21, 29, 18);
    WordOfSix(19, 5, 1, 3, 19, 13);
    WordOfSix(15, 10, 2, 6, 15, 26);
    WordOfSix(30, 20, 4, 12, 30, 29);
    WordOfSix(21, 1, 8, 24, 21, 19);
  }

  /** The round on numbers is the round on their words. */
  lemma {:induction false} WordStep(c: nat, v: nat)
    requires c < STATES
    ensures Word(Step(c, v)) == Round(Word(c), Word(v))
  {
    hide Word, Xor, Either, Chosen, Has, Down25, Up5, Low25, Pick, BitOn, Round;
    var t := c / TOP;
    WordSplits(c);
    WordUp5(c % TOP);
    WordBits(t);
    GeneratorWords();
    WordPick(t, 0, K0, 0x3b6a57b2);
    WordPick(t, 1, K1, 0x26508e6d);
    WordPick(t, 2, K2, 0x1ea119fa);
    WordPick(t, 3, K3, 0x3d4233dd);
    WordPick(t, 4, K4, 0x2a1462b3);
    var r3 := Xor(Pick(t, 3, K3), Pick(t, 4, K4));
    var r2 := Xor(Pick(t, 2, K2), r3);
    var r1 := Xor(Pick(t, 1, K1), r2);
    WordXor(Pick(t, 3, K3), Pick(t, 4, K4));
    WordXor(Pick(t, 2, K2), r3);
    WordXor(Pick(t, 1, K1), r2);
    WordXor(Pick(t, 0, K0), r1);
    WordXor((c % TOP) * 32, v);
    WordXor(Xor((c % TOP) * 32, v), Reduced(t));
    RoundSums(Word(c), Word(v));
  }

  // ---------------------------------------------------------------- whole messages

  /** The loop over the symbols of a message, on words. */
  function Rounds(c: bv32, v: seq<nat>): bv32
    decreases |v|
  {
    if v == [] then c else Rounds(Round(c, Word(v[0])), v[1..])
  }

  /** The checksum on numbers is the checksum on words. */
  lemma {:induction false} WordFold(c: nat, v: seq<nat>)
    requires c < STATES && Symbols(v)
    ensures Word(Fold(c, v)) == Rounds(Word(c), v)
    decreases |v|
  {
    hide Word, Round, Step;
    if v != [] {
      WordStep(c, v[0]);
      StepKeeps(c, v[0]);
      WordFold(Step(c, v[0]), v[1..]);
    }
  }

  lemma {:induction false} RoundsSplit(c: bv32, a: seq<nat>, b: seq<nat>)
    ensures Rounds(c, a + b) == Rounds(Rounds(c, a), b)
    decreases |a|
  {
    hide Word, Round;
    if a == [] {
      assert a + b == b;
    } else {
      RoundsSplit(Round(c, Word(a[0])), a[1..], b);
      assert (a + b)[1..] == a[1..] + b;
    }
  }

  lemma Unshifted(w: bv32, bit: bool)
    requires Under(w, 0x3fff_ffff)
    ensures Shifted(w, bit) == 0 ==> w == 0 && !bit
    ensures Shifted(w, bit) == 1 ==> w == 0 && bit
  {
  }

  /** Only zero has the word zero, and only one the word one. */
  lemma {:induction false} SmallestWords(n: nat)
    requires n < STATES
    ensures Word(n) == 0 ==> n == 0
    ensures Word(n) == 1 ==> n == 1
  {
    hide Word, Shifted, Under, Mask, Pow2;
    if n > 0 {
      WordNext(n);
      Powers();
      ThirtyBits();
      WordUnder(n / 2, 30);
      Unshifted(Word(n / 2), n % 2 == 1);
      SmallestWords(n / 2);
    } else {
      EitherZero(0);
    }
  }

  lemma {:induction false} ThirtyBits()
    ensures Mask(30) == 0x3fff_ffff
  {
    Masks();
    assert Mask(30) == Shifted(Shifted(Shifted(Shifted(Shifted(Mask(25), true), true), true), true), true);
  }
}
