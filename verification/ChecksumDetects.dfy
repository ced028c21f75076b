/**
 What the Bech32 checksum detects: its states, read as polynomials over the field of 32 elements, are evaluated at
 three neighbouring powers of a generator of the field of 1024 elements, which are roots of the code's generator.
 A difference in up to three symbols within a window of 1023 does not vanish at all three of them.
 */
module ChecksumDetects {
  import opened Sequences
  import opened Positional
  import opened ExclusiveOr
  import opened PolyMod
  import opened Field1024

  // ---------------------------------------------------------------- symbols as field elements

  /** What bit `n` of a symbol contributes. */
  function Digit(x: nat, n: nat, c: bv10): bv10 {
    if BitOn(x, n) then c else 0
  }

  function Sum(a: bv10, b: bv10, c: bv10, d: bv10, e: bv10): bv10 {
    Add(a, Add(b, Add(c, Add(d, e))))
  }

  /** A symbol as an element of the larger field. */
  function Element(x: nat): bv10 {
    Sum(Digit(x, 0, 1), Digit(x, 1, 14), Digit(x, 2, 84), Digit(x, 3, 856), Digit(x, 4, 191))
  }

  lemma SumLinear(a: bv10, b: bv10, c: bv10, d: bv10, e: bv10, a': bv10, b': bv10, c': bv10, d': bv10, e': bv10)
    ensures Sum(Add(a, a'), Add(b, b'), Add(c, c'), Add(d, d'), Add(e, e')) ==
      Add(Sum(a, b, c, d, e), Sum(a', b', c', d', e'))
  {
    hide Add;
    AddExchanges(d, d', e, e');
    AddExchanges(c, c', Add(d, e), Add(d', e'));
    AddExchanges(b, b', Add(c, Add(d, e)), Add(c', Add(d', e')));
    AddExchanges(a, a', Add(b, Add(c, Add(d, e))), Add(b', Add(c', Add(d', e'))));
  }

  lemma DigitLinear(x: nat, y: nat, n: nat, c: bv10)
    ensures Digit(Xor(x, y), n, c) == Add(Digit(x, n, c), Digit(y, n, c))
  {
    hide Add, Xor, BitOn;
    BitOnLinear(x, y, n);
    AddZero(c);
    AddZero(0);
  }

  lemma {:induction false} ElementLinear(x: nat, y: nat)
    ensures Element(Xor(x, y)) == Add(Element(x), Element(y))
  {
    hide Xor, Add, Digit, Sum;
    DigitLinear(x, y, 0, 1);
    DigitLinear(x, y, 1, 14);
    DigitLinear(x, y, 2, 84);
    DigitLinear(x, y, 3, 856);
    DigitLinear(x, y, 4, 191);
    SumLinear(Digit(x, 0, 1), Digit(x, 1, 14), Digit(x, 2, 84), Digit(x, 3, 856), Digit(x, 4, 191),
              Digit(y, 0, 1), Digit(y, 1, 14), Digit(y, 2, 84), Digit(y, 3, 856), Digit(y, 4, 191));
  }

  /** Of the 32 sums of the five elements, only the empty one is zero. */
  lemma Independent(x: nat)
    requires Element(x) == 0
    ensures !BitOn(x, 0) && !BitOn(x, 1) && !BitOn(x, 2) && !BitOn(x, 3) && !BitOn(x, 4)
  {
    hide BitOn;
  }

  lemma ElementZero(x: nat)
    requires x < 32
    ensures Element(x) == 0 <==> x == 0
  {
    hide BitOn, Add;
    if Element(x) == 0 {
      Independent(x);
      NoBitsIsZero(x);
    }
    ZeroElement();
  }

  lemma ZeroElement()
    ensures Element(0) == 0
  {
    hide BitOn;
    NoBitOfZero(0);
    NoBitOfZero(1);
    NoBitOfZero(2);
    NoBitOfZero(3);
    NoBitOfZero(4);
  }

  // ---------------------------------------------------------------- states as polynomials

  /** The lowest `n` symbols of a state, as a polynomial, at the b-th power of the generator. */
  function Value(b: nat, c: nat, n: nat): bv10 {
    if n == 0 then 0 else Add(Element(c % 32), Shift(b, Value(b, c / 32, n - 1)))
  }

  lemma {:induction false} ValueLinear(b: nat, c: nat, d: nat, n: nat)
    ensures Value(b, Xor(c, d), n) == Add(Value(b, c, n), Value(b, d, n))
    decreases n
  {
    hide Xor, Element, Add, Shift, Pow2;
    if n == 0 {
      AddZero(0);
    } else {
      PolyMod.Powers();
      XorMasks(c, d, 5);
      XorShiftsDown(c, d, 5);
      ElementLinear(c % 32, d % 32);
      ValueLinear(b, c / 32, d / 32, n - 1);
      var x, y := Value(b, c / 32, n - 1), Value(b, d / 32, n - 1);
      ShiftLinear(b, x, y);
      AddExchanges(Element(c % 32), Element(d % 32), Shift(b, x), Shift(b, y));
    }
  }

  lemma {:induction false} ValueZero(b: nat, n: nat)
    ensures Value(b, 0, n) == 0
    decreases n
  {
    hide Element, Shift, Add;
    if n > 0 {
      ValueZero(b, n - 1);
      ZeroElement();
      ShiftZero(b, 0);
      AddZero(0);
    }
  }

  /** Appending a symbol. */
  lemma {:induction false} ValueAppends(b: nat, c: nat, v: nat, n: nat)
    requires v < 32
    ensures Value(b, c * 32 + v, n + 1) == Add(Element(v), Shift(b, Value(b, c, n)))
  {
    hide Element, Shift, Add;
    DivisionIs(c * 32 + v, 32, c, v);
  }

  /** The top one of `n + 1` symbols. */
  lemma {:induction false} ValueSplits(b: nat, c: nat, n: nat)
    requires Pow(32, n) > 0 && c < Pow(32, n + 1)
    ensures var p := Pow(32, n); Value(b, c, n + 1) == Add(Value(b, c % p, n), Shift(n * b, Element(c / p)))
    decreases n
  {
    hide Element, Add, Shift, Value, Pow;
    PowNext(32, n);
    if n == 0 {
      ValueOfOne(b, c);
    } else {
      var p := Pow(32, n - 1);
      PowPositive(32, n - 1);
      PowNext(32, n - 1);
      ValueSplits(b, c / 32, n - 1);
      Digits32(c, p);
      ValueNext(b, c, n + 1);
      ValueNext(b, c % (32 * p), n);
      SplitStep(b, n, Element(c % 32), Value(b, c / 32 % p, n - 1), Element(c / 32 / p));
    }
  }

  lemma {:induction false} ValueOfOne(b: nat, c: nat)
    requires c < 32
    ensures Value(b, c, 1) == Add(Value(b, c % 1, 0), Shift(0 * b, Element(c / 1)))
  {
    hide Element, Add, Shift, Value;
    AddZero(Element(c));
    ShiftNone(b, Element(c));
    DivisionIs(c, 32, 0, c);
    ValueNext(b, c, 1);
    ValueNext(b, c / 32, 0);
    ValueNext(b, c % 1, 0);
    ShiftZero(b, 0);
  }

  lemma {:induction false} SplitStep(b: nat, n: nat, e: bv10, low: bv10, top: bv10)
    requires n > 0
    ensures Add(e, Shift(b, Add(low, Shift((n - 1) * b, top)))) == Add(Add(e, Shift(b, low)), Shift(n * b, top))
  {
    hide Shift, Add;
    Distribute(b, n - 1, 1);
    var y := Shift((n - 1) * b, top);
    ShiftLinear(b, low, y);
    ShiftAdd(b, (n - 1) * b, top);
    AddAssociates(e, Shift(b, low), Shift(b, y));
  }

  lemma {:induction false} ValueNext(b: nat, c: nat, n: nat)
    ensures n > 0 ==> Value(b, c, n) == Add(Element(c % 32), Shift(b, Value(b, c / 32, n - 1)))
    ensures Value(b, c, 0) == 0
  {
  }

  lemma {:induction false} ShiftNone(b: nat, v: bv10)
    ensures Shift(0 * b, v) == v
  {
  }

  lemma Digits32(c: nat, p: nat)
    requires p > 0
    ensures c % (32 * p) % 32 == c % 32 && c % (32 * p) / 32 == c / 32 % p && c / (32 * p) == c / 32 / p
  {
    var q, r := c / 32, c % 32;
    var t, s := q / p, q % p;
    Regrouped(q, p);
    Below(s, p, r);
    DivisionIs(c, 32 * p, t, s * 32 + r);
    DivisionIs(s * 32 + r, 32, s, r);
  }

  lemma Regrouped(q: nat, p: nat)
    requires p > 0
    ensures q * 32 == q / p * (32 * p) + q % p * 32 && q % p < p
  {
    var t := q / p;
    Associate(32, p, t);
    assert t * (32 * p) == 32 * (t * p) && q == t * p + q % p;
  }

  lemma Below(s: nat, p: nat, r: nat)
    requires s < p && r < 32
    ensures s * 32 + r < 32 * p
  {
    Monotone(s + 1, p, 32);
  }

  // ---------------------------------------------------------------- the roots of the generator

  /** The same values, with the multiplication written out. */
  function Evaluated(b: nat, c: nat, n: nat): bv10
    requires IsRoot(b)
  {
    if n == 0 then 0 else Add(Element(c % 32), By(b, Evaluated(b, c / 32, n - 1)))
  }

  lemma {:induction false} EvaluatedIs(b: nat, c: nat, n: nat)
    requires IsRoot(b)
    ensures Value(b, c, n) == Evaluated(b, c, n)
    decreases n
  {
    hide Element, Add, Shift, By, IsRoot;
    if n > 0 {
      EvaluatedIs(b, c / 32, n - 1);
      ByIs(b, Value(b, c / 32, n - 1));
    }
  }

  function Repeated(b: nat, n: nat, v: bv10): bv10
    requires IsRoot(b)
  {
    if n == 0 then v else By(b, Repeated(b, n - 1, v))
  }

  lemma {:induction false} RepeatedIs(b: nat, n: nat, v: bv10)
    requires IsRoot(b)
    ensures Shift(n * b, v) == Repeated(b, n, v)
    decreases n
  {
    hide Shift, By, IsRoot;
    if n > 0 {
      RepeatedIs(b, n - 1, v);
      ByIs(b, Shift((n - 1) * b, v));
      ShiftAdd(b, (n - 1) * b, v);
      Distribute(b, n - 1, 1);
    } else {
      ShiftNone(b, v);
    }
  }

  lemma {:induction false} FirstElements()
    ensures Element(18) == 177 && Element(29) == 946 && Element(21) == 234
  {
    hide BitOn;
    LowBits(18);
    LowBits(29);
    LowBits(21);
  }

  lemma {:induction false} OtherElements()
    ensures Element(20) == 235 && Element(22) == 229 && Element(1) == 1
  {
    hide BitOn;
    LowBits(20);
    LowBits(22);
    LowBits(1);
  }

  lemma {:induction false} Sums24()
    ensures Add(229, By(24, 946)) == 125
    ensures Add(235, By(24, 125)) == 125
    ensures Add(234, By(24, 125)) == 124
    ensures Add(946, By(24, 124)) == 212
    ensures Add(177, By(24, 212)) == 698
    ensures Add(946, By(24, 0)) == 946
  {
  }

  lemma {:induction false} Powers24()
    ensures By(24, 1) == 1008
    ensures By(24, 1008) == 589
    ensures By(24, 589) == 697
    ensures By(24, 697) == 185
    ensures By(24, 185) == 9
    ensures By(24, 9) == 698
  {
  }

  lemma {:induction false} Sums25()
    ensures Add(229, By(25, 946)) == 469
    ensures Add(235, By(25, 469)) == 941
    ensures Add(234, By(25, 941)) == 105
    ensures Add(946, By(25, 105)) == 991
    ensures Add(177, By(25, 991)) == 166
    ensures Add(946, By(25, 0)) == 946
  {
  }

  lemma {:induction false} Powers25()
    ensures By(25, 1) == 707
    ensures By(25, 707) == 882
    ensures By(25, 882) == 324
    ensures By(25, 324) == 470
    ensures By(25, 470) == 288
    ensures By(25, 288) == 166
  {
  }

  lemma {:induction false} Sums26()
    ensures Add(229, By(26, 946)) == 645
    ensures Add(235, By(26, 645)) == 170
    ensures Add(234, By(26, 170)) == 311
    ensures Add(946, By(26, 311)) == 403
    ensures Add(177, By(26, 403)) == 152
    ensures Add(946, By(26, 0)) == 946
  {
  }

  lemma {:induction false} Powers26()
    ensures By(26, 1) == 165
    ensures By(26, 165) == 685
    ensures By(26, 685) == 102
    ensures By(26, 102) == 938
    ensures By(26, 938) == 637
    ensures By(26, 637) == 152
  {
  }

  lemma {:induction false} EvaluatedNext(b: nat, c: nat, n: nat)
    requires IsRoot(b)
    ensures n > 0 ==> Evaluated(b, c, n) == Add(Element(c % 32), By(b, Evaluated(b, c / 32, n - 1)))
    ensures Evaluated(b, c, 0) == 0
  {
  }

  lemma {:induction false} RepeatedNext(b: nat, n: nat, v: bv10)
    requires IsRoot(b)
    ensures n > 0 ==> Repeated(b, n, v) == By(b, Repeated(b, n - 1, v))
    ensures Repeated(b, 0, v) == v
  {
  }

  lemma {:induction false} RepeatedSix(b: nat, v: bv10)
    requires IsRoot(b)
    ensures Repeated(b, 6, v) == By(b, By(b, By(b, By(b, By(b, By(b, v))))))
  {
    hide By, Repeated;
    RepeatedNext(b, 6, v);
    RepeatedNext(b, 5, v);
    RepeatedNext(b, 4, v);
    RepeatedNext(b, 3, v);
    RepeatedNext(b, 2, v);
    RepeatedNext(b, 1, v);
  }

  /** The first generator constant, symbol by symbol. */
  lemma {:induction false} EvaluatedK0(b: nat)
    requires IsRoot(b)
    ensures Evaluated(b, K0, 6) ==
            Add(Element(18), By(b, Add(Element(29), By(b, Add(Element(21), By(b, Add(Element(20), By(b,
            Add(Element(22), By(b, Add(Element(29), By(b, 0))))))))))))
  {
    hide By, Element, Add;
    EvaluatedNext(b, K0, 6);
    EvaluatedNext(b, K0 / 32, 5);
    EvaluatedNext(b, K0 / 32 / 32, 4);
    EvaluatedNext(b, K0 / 32 / 32 / 32, 3);
    EvaluatedNext(b, K0 / 32 / 32 / 32 / 32, 2);
    EvaluatedNext(b, K0 / 32 / 32 / 32 / 32 / 32, 1);
    EvaluatedNext(b, 0, 0);
  }

  /** The generator, x^6 + k(x), vanishes at the three powers. */
  lemma {:induction false} GeneratorVanishes(b: nat)
    requires IsRoot(b)
    ensures Value(b, K0, 6) == Shift(6 * b, 1)
  {
    hide Value, Shift, Evaluated, Repeated, By, Add, Element;
    EvaluatedIs(b, K0, 6);
    RepeatedIs(b, 6, 1);
    EvaluatedK0(b);
    RepeatedSix(b, 1);
    FirstElements();
    OtherElements();
    if b == 24 {
      Sums24();
      Powers24();
    } else if b == 25 {
      Sums25();
      Powers25();
    } else {
      Sums26();
      Powers26();
    }
  }

  // ---------------------------------------------------------------- doubling in the smaller field

  /** The product of a symbol with 2, modulo a^5 + a^3 + 1. */
  function Twice(x: nat): nat
    requires x < 32
  {
    if x < 16 then 2 * x else Xor(2 * x - 32, 9)
  }

  lemma {:induction false} EvenBits(x: nat)
    requires x < 16
    ensures !BitOn(2 * x, 0) && BitOn(2 * x, 1) == BitOn(x, 0) && BitOn(2 * x, 2) == BitOn(x, 1)
    ensures BitOn(2 * x, 3) == BitOn(x, 2) && BitOn(2 * x, 4) == BitOn(x, 3) && !BitOn(x, 4)
  {
    hide BitOn;
    LowBits(x);
    LowBits(2 * x);
  }

  lemma {:induction false} LowerBits(x: nat)
    requires 16 <= x < 32
    ensures BitOn(x - 16, 0) == BitOn(x, 0) && BitOn(x - 16, 1) == BitOn(x, 1) && BitOn(x - 16, 2) == BitOn(x, 2)
    ensures BitOn(x - 16, 3) == BitOn(x, 3) && BitOn(x, 4)
    ensures BitOn(9, 0) && !BitOn(9, 1) && !BitOn(9, 2) && BitOn(9, 3) && !BitOn(9, 4)
  {
    hide BitOn;
    LowBits(x);
    LowBits(x - 16);
    LowBits(9);
  }

  lemma {:induction false} TwiceBits(x: nat)
    requires x < 32
    ensures var y := Twice(x);
      && BitOn(y, 0) == BitOn(x, 4) && BitOn(y, 1) == BitOn(x, 0) && BitOn(y, 2) == BitOn(x, 1)
      && BitOn(y, 3) == (BitOn(x, 2) != BitOn(x, 4)) && BitOn(y, 4) == BitOn(x, 3)
  {
    hide BitOn, Xor;
    if x < 16 {
      EvenBits(x);
    } else {
      EvenBits(x - 16);
      LowerBits(x);
      var z := 2 * (x - 16);
      BitOnLinear(z, 9, 0);
      BitOnLinear(z, 9, 1);
      BitOnLinear(z, 9, 2);
      BitOnLinear(z, 9, 3);
      BitOnLinear(z, 9, 4);
    }
  }

  lemma {:induction false} ShiftDigit(n: nat, x: nat, k: nat, c: bv10)
    ensures Shift(n, Digit(x, k, c)) == Digit(x, k, Shift(n, c))
  {
    hide Shift, BitOn;
    ShiftZero(n, 0);
  }

  lemma {:induction false} ShiftSum(n: nat, a: bv10, b: bv10, c: bv10, d: bv10, e: bv10)
    ensures Shift(n, Sum(a, b, c, d, e)) == Sum(Shift(n, a), Shift(n, b), Shift(n, c), Shift(n, d), Shift(n, e))
  {
    hide Shift, Add;
    ShiftLinear(n, d, e);
    ShiftLinear(n, c, Add(d, e));
    ShiftLinear(n, b, Add(c, Add(d, e)));
    ShiftLinear(n, a, Add(b, Add(c, Add(d, e))));
  }

  /** The same sum, by the bits of the doubled symbol and by those of the symbol. */
  lemma {:induction false} SameSum(x: nat)
    requires x < 32
    ensures Element(Twice(x)) ==
      Sum(Digit(x, 0, 14), Digit(x, 1, 84), Digit(x, 2, 856), Digit(x, 3, 191), Digit(x, 4, 857))
  {
    hide BitOn, Twice;
    TwiceBits(x);
  }

  /** Doubling a symbol multiplies its element by that of 2. */
  lemma {:induction false} ElementTwice(x: nat)
    requires x < 32
    ensures Element(Twice(x)) == Shift(924, Element(x))
  {
    hide Digit, Sum, Shift, Twice;
    SameSum(x);
    SmallFieldPowers();
    ShiftSum(924, Digit(x, 0, 1), Digit(x, 1, 14), Digit(x, 2, 84), Digit(x, 3, 856), Digit(x, 4, 191));
    ShiftDigit(924, x, 0, 1);
    ShiftDigit(924, x, 1, 14);
    ShiftDigit(924, x, 2, 84);
    ShiftDigit(924, x, 3, 856);
    ShiftDigit(924, x, 4, 191);
  }

  /** The lowest `n` symbols of `d` are the doubled ones of `c`. */
  predicate Doubled(c: nat, d: nat, n: nat) {
    n == 0 || (d % 32 == Twice(c % 32) && Doubled(c / 32, d / 32, n - 1))
  }

  lemma {:induction false} ValueDoubled(b: nat, c: nat, d: nat, n: nat)
    requires Doubled(c, d, n)
    ensures Value(b, d, n) == Shift(924, Value(b, c, n))
    decreases n
  {
    hide Element, Shift, Add, Twice;
    if n == 0 {
      ShiftZero(924, 0);
    } else {
      ElementTwice(c % 32);
      ValueDoubled(b, c / 32, d / 32, n - 1);
      var x := Value(b, c / 32, n - 1);
      ShiftAdd(b, 924, x);
      ShiftAdd(924, b, x);
      ShiftLinear(924, Element(c % 32), Shift(b, x));
    }
  }

  lemma {:induction false} SmallDoubles()
    ensures Twice(1) == 2 && Twice(2) == 4 && Twice(3) == 6 && Twice(4) == 8 && Twice(5) == 10 && Twice(6) == 12
    ensures Twice(10) == 20 && Twice(12) == 24 && Twice(13) == 26 && Twice(15) == 30
  {
  }

  /** Adding a^3 + 1 flips two bits. */
  lemma {:induction false} FlipTwo(x: nat)
    ensures var h := x / 2 / 2 / 2;
            Xor(x, 9) == x + (if x % 2 == 0 then 1 else -1) + (if h % 2 == 0 then 8 else -8)
  {
    hide Xor;
    var a := x / 2;
    var b := a / 2;
    var h := b / 2;
    XorUnfolds(x, 9);
    XorUnfolds(a, 4);
    XorUnfolds(b, 2);
    XorUnfolds(h, 1);
    XorZero(h / 2);
    assert Xor(h, 1) == h + if h % 2 == 0 then 1 else -1;
    assert Xor(b, 2) == 2 * Xor(h, 1) + b % 2;
    assert Xor(a, 4) == 2 * Xor(b, 2) + a % 2;
  }

  lemma {:induction false} LargeDoubles()
    ensures Twice(18) == 13 && Twice(19) == 15 && Twice(20) == 1 && Twice(21) == 3
    ensures Twice(22) == 5 && Twice(26) == 29 && Twice(29) == 19 && Twice(30) == 21
  {
    hide Xor;
    FlipTwo(4);
    FlipTwo(6);
    FlipTwo(8);
    FlipTwo(10);
    FlipTwo(12);
    FlipTwo(20);
    FlipTwo(26);
    FlipTwo(28);
  }

  lemma {:induction false} DoubledNext(c: nat, d: nat, n: nat)
    requires n > 0
    ensures Doubled(c, d, n) <==> d % 32 == Twice(c % 32) && Doubled(c / 32, d / 32, n - 1)
    ensures Doubled(c, d, 0)
  {
  }

  lemma {:induction false} DoubledSix(c: nat, d: nat)
    requires d % 32 == Twice(c % 32) && d / 32 % 32 == Twice(c / 32 % 32)
    requires d / 32 / 32 % 32 == Twice(c / 32 / 32 % 32)
    requires d / 32 / 32 / 32 % 32 == Twice(c / 32 / 32 / 32 % 32)
    requires d / 32 / 32 / 32 / 32 % 32 == Twice(c / 32 / 32 / 32 / 32 % 32)
    requires d / 32 / 32 / 32 / 32 / 32 % 32 == Twice(c / 32 / 32 / 32 / 32 / 32 % 32)
    ensures Doubled(c, d, 6)
  {
    hide Twice, Doubled;
    var c1, d1 := c / 32, d / 32;
    var c2, d2 := c1 / 32, d1 / 32;
    var c3, d3 := c2 / 32, d2 / 32;
    var c4, d4 := c3 / 32, d3 / 32;
    DoubledNext(c, d, 6);
    DoubledNext(c1, d1, 5);
    DoubledNext(c2, d2, 4);
    DoubledNext(c3, d3, 3);
    DoubledNext(c4, d4, 2);
    DoubledNext(c4 / 32, d4 / 32, 1);
    DoubledNext(c4 / 32 / 32, d4 / 32 / 32, 1);
  }

  /** Each generator constant is the one before, doubled. */
  lemma {:induction false} GeneratorsDouble()
    ensures Doubled(K0, K1, 6) && Doubled(K1, K2, 6) && Doubled(K2, K3, 6) && Doubled(K3, K4, 6)
  {
    hide Twice, Doubled;
    SmallDoubles();
    LargeDoubles();
    DoubledSix(K0, K1);
    DoubledSix(K1, K2);
    DoubledSix(K2, K3);
    DoubledSix(K3, K4);
  }

  lemma {:induction false} NextVanishes(b: nat, c: nat, d: nat, e: bv10, f: bv10)
    requires Value(b, c, 6) == Shift(6 * b, e) && Doubled(c, d, 6) && Shift(924, e) == f
    ensures Value(b, d, 6) == Shift(6 * b, f)
  {
    hide Value, Shift, Doubled;
    ValueDoubled(b, c, d, 6);
    ShiftAdd(924, 6 * b, e);
    ShiftAdd(6 * b, 924, e);
  }

  /** What a symbol shifted out of a state contributes, at the roots. */
  lemma {:induction false} GeneratorsVanish(b: nat)
    requires IsRoot(b)
    ensures Value(b, K0, 6) == Shift(6 * b, 1) && Value(b, K1, 6) == Shift(6 * b, 14)
    ensures Value(b, K2, 6) == Shift(6 * b, 84) && Value(b, K3, 6) == Shift(6 * b, 856)
    ensures Value(b, K4, 6) == Shift(6 * b, 191)
  {
    hide Value, Shift, Doubled;
    GeneratorVanishes(b);
    GeneratorsDouble();
    SmallFieldPowers();
    NextVanishes(b, K0, K1, 1, 14);
    NextVanishes(b, K1, K2, 14, 84);
    NextVanishes(b, K2, K3, 84, 856);
    NextVanishes(b, K3, K4, 856, 191);
  }

  lemma {:induction false} PickVanishes(b: nat, c: nat, n: nat, k: nat, e: bv10)
    requires Value(b, k, 6) == Shift(6 * b, e)
    ensures Value(b, Pick(c, n, k), 6) == Shift(6 * b, Digit(c, n, e))
  {
    hide Value, Shift, BitOn;
    ValueZero(b, 6);
    ShiftZero(6 * b, 0);
  }

  /** What a step takes off at the top it adds below, so that nothing changes at the roots. */
  lemma {:induction false} ReducedVanishes(b: nat, c: nat)
    requires IsRoot(b)
    ensures Value(b, Reduced(c), 6) == Shift(6 * b, Element(c))
  {
    hide Value, Shift, Pick, Digit, Xor, Add;
    GeneratorsVanish(b);
    PickVanishes(b, c, 0, K0, 1);
    PickVanishes(b, c, 1, K1, 14);
    PickVanishes(b, c, 2, K2, 84);
    PickVanishes(b, c, 3, K3, 856);
    PickVanishes(b, c, 4, K4, 191);
    var r3 := Xor(Pick(c, 3, K3), Pick(c, 4, K4));
    var r2 := Xor(Pick(c, 2, K2), r3);
    var r1 := Xor(Pick(c, 1, K1), r2);
    ValueLinear(b, Pick(c, 3, K3), Pick(c, 4, K4), 6);
    ValueLinear(b, Pick(c, 2, K2), r3, 6);
    ValueLinear(b, Pick(c, 1, K1), r2, 6);
    ValueLinear(b, Pick(c, 0, K0), r1, 6);
    ShiftSum(6 * b, Digit(c, 0, 1), Digit(c, 1, 14), Digit(c, 2, 84), Digit(c, 3, 856), Digit(c, 4, 191));
  }

  // ---------------------------------------------------------------- the checksum at the roots

  lemma Regroup(v: bv10, s: bv10, t: bv10)
    ensures Add(Add(v, s), t) == Add(Add(s, t), v)
  {
    hide Add;
    AddAssociates(v, s, t);
    AddCommutes(v, Add(s, t));
  }

  /** At the roots, a step multiplies and adds. */
  lemma {:induction false} StepAtRoots(b: nat, c: nat, v: nat)
    requires IsRoot(b) && c < STATES && v < 32
    ensures Value(b, Step(c, v), 6) == Add(Shift(b, Value(b, c, 6)), Element(v))
  {
    hide Value, Shift, Element, Add, Xor, Reduced, Pow2, Pow;
    PolyMod.Powers();
    Pow32();
    var low, top := c % TOP, c / TOP;
    XorDisjoint(low, v, 5);
    ValueAppends(b, low, v, 5);
    ValueLinear(b, low * 32 + v, Reduced(top), 6);
    ReducedVanishes(b, top);
    ValueSplits(b, c, 5);
    var s, t := Value(b, low, 5), Shift(5 * b, Element(top));
    ShiftLinear(b, s, t);
    ShiftAdd(b, 5 * b, Element(top));
    Regroup(Element(v), Shift(b, s), Shift(b, t));
  }

  /** The value of a polynomial whose coefficients come one after the other. */
  function Syndrome(b: nat, s: bv10, e: seq<nat>): bv10
    decreases |e|
  {
    if e == [] then s else Syndrome(b, Add(Shift(b, s), Element(e[0])), e[1..])
  }

  lemma {:induction false} FoldAtRoots(b: nat, c: nat, e: seq<nat>)
    requires IsRoot(b) && c < STATES && Symbols(e)
    ensures Value(b, Fold(c, e), 6) == Syndrome(b, Value(b, c, 6), e)
    decreases |e|
  {
    hide Value, Shift, Element, Add, Step, IsRoot;
    if e != [] {
      StepAtRoots(b, c, e[0]);
      StepKeeps(c, e[0]);
      FoldAtRoots(b, Step(c, e[0]), e[1..]);
    }
  }

  lemma {:induction false} SyndromeConcat(b: nat, s: bv10, e: seq<nat>, f: seq<nat>)
    ensures Syndrome(b, s, e + f) == Syndrome(b, Syndrome(b, s, e), f)
    decreases |e|
  {
    hide Shift, Element, Add;
    if e == [] {
      assert e + f == f;
    } else {
      SyndromeConcat(b, Add(Shift(b, s), Element(e[0])), e[1..], f);
      assert (e + f)[1..] == e[1..] + f;
    }
  }

  lemma {:induction false} SyndromeZeros(b: nat, s: bv10, n: nat)
    ensures Syndrome(b, s, Zeros(n)) == Shift(n * b, s)
    decreases n
  {
    hide Shift, Element, Add;
    if n == 0 {
      ShiftNone(b, s);
    } else {
      ZeroElement();
      AddZero(Shift(b, s));
      SyndromeZeros(b, Shift(b, s), n - 1);
      assert Zeros(n)[1..] == Zeros(n - 1);
      ShiftAdd((n - 1) * b, b, s);
      Distribute(b, n - 1, 1);
    }
  }

  lemma {:induction false} SyndromeOne(b: nat, s: bv10, x: nat)
    ensures Syndrome(b, s, [x]) == Add(Shift(b, s), Element(x))
  {
    hide Shift, Element, Add;
    assert [x][1..] == [];
  }

  /** Zeros and then a symbol. */
  lemma {:induction false} SyndromeGap(b: nat, s: bv10, n: nat, x: nat)
    ensures Syndrome(b, s, Zeros(n) + [x]) == Add(Shift((n + 1) * b, s), Element(x))
  {
    hide Shift, Element, Add, Syndrome;
    SyndromeConcat(b, s, Zeros(n), [x]);
    SyndromeZeros(b, s, n);
    SyndromeOne(b, Shift(n * b, s), x);
    ShiftAdd(b, n * b, s);
    Distribute(b, n, 1);
  }

  /** Three symbols among zeros. */
  function Pattern(before: nat, x: nat, p: nat, y: nat, q: nat, z: nat, after: nat): seq<nat>
    requires p > 0 && q > 0
  {
    (Zeros(before) + [x]) + ((Zeros(p - 1) + [y]) + ((Zeros(q - 1) + [z]) + Zeros(after)))
  }

  lemma {:induction false} PatternSyndrome(b: nat, before: nat, x: nat, p: nat, y: nat, q: nat, z: nat, after: nat)
    requires p > 0 && q > 0
    ensures Syndrome(b, 0, Pattern(before, x, p, y, q, z, after)) ==
            Shift(after * b, Add(Shift(q * b, Add(Shift(p * b, Element(x)), Element(y))), Element(z)))
  {
    hide Shift, Element, Add, Syndrome;
    var c := Zeros(q - 1) + [z];
    var d := Zeros(p - 1) + [y];
    SyndromeConcat(b, 0, Zeros(before) + [x], d + (c + Zeros(after)));
    SyndromeGap(b, 0, before, x);
    ShiftZero((before + 1) * b, 0);
    AddZero(Element(x));
    var s := Element(x);
    SyndromeConcat(b, s, d, c + Zeros(after));
    SyndromeGap(b, s, p - 1, y);
    var t := Add(Shift(p * b, s), Element(y));
    SyndromeConcat(b, t, c, Zeros(after));
    SyndromeGap(b, t, q - 1, z);
    SyndromeZeros(b, Add(Shift(q * b, t), Element(z)), after);
  }

  // ---------------------------------------------------------------- three symbols cannot vanish at three roots

  lemma {:induction false} SameDifference(a: bv10, b: bv10, c: bv10, d: bv10)
    requires Add(a, b) == Add(c, d)
    ensures Add(a, c) == Add(b, d)
  {
    hide Add;
    AddExchanges(a, b, c, d);
    AddSame(Add(a, b), Add(c, d));
    AddSame(Add(a, c), Add(b, d));
  }

  /** Three neighbouring equations with two unknowns: only zero solves them. */
  lemma {:induction false} OnlyZero(f: bv10, g: bv10, z: bv10, p: nat, q: nat)
    requires p > 0 && q > 0 && p + q < 1023
    requires Add(f, g) == z && Add(Shift(p + q, f), Shift(q, g)) == z
    requires Add(Shift(p + q, Shift(p + q, f)), Shift(q, Shift(q, g))) == z
    ensures f == 0 && g == 0 && z == 0
  {
    hide Shift, Add;
    var n := p + q;
    var f1, g1 := Shift(n, f), Shift(q, g);
    SameDifference(f1, g1, f, g);
    SameDifference(Shift(n, f1), Shift(q, g1), f1, g1);
    var h := Add(f1, f);
    ShiftLinear(n, f1, f);
    ShiftLinear(q, g1, g);
    assert Shift(n, h) == Shift(q, h);
    ShiftAdd(q, p, h);
    ShiftInjective(q, Shift(p, h), h);
    NoSmallPeriod(p, h);
    AddSame(f1, f);
    AddSame(g1, g);
    NoSmallPeriod(n, f);
    NoSmallPeriod(q, g);
    AddZero(0);
  }

  /** The equation of one root, with the two unknowns apart. */
  lemma {:induction false} Separate(b: nat, p: nat, q: nat, x: bv10, y: bv10, z: bv10)
    requires Add(Shift(q * b, Add(Shift(p * b, x), y)), z) == 0
    ensures Add(Shift((p + q) * b, x), Shift(q * b, y)) == z
  {
    hide Shift, Add;
    ShiftLinear(q * b, Shift(p * b, x), y);
    ShiftAdd(q * b, p * b, x);
    Distribute(b, p, q);
    AddSame(Add(Shift((p + q) * b, x), Shift(q * b, y)), z);
  }

  /** One root further. */
  lemma {:induction false} NextRoot(n: nat, v: bv10)
    ensures Shift(n * 25, v) == Shift(n, Shift(n * 24, v)) && Shift(n * 26, v) == Shift(n, Shift(n, Shift(n * 24, v)))
  {
    hide Shift;
    ShiftAdd(n, n * 24, v);
    ShiftAdd(n, n * 25, v);
  }

  lemma {:induction false} OnlyZeroElements(p: nat, q: nat, x: bv10, y: bv10, z: bv10)
    requires p > 0 && q > 0 && p + q < 1023
    requires forall b :: IsRoot(b) ==> Add(Shift(q * b, Add(Shift(p * b, x), y)), z) == 0
    ensures x == 0 && y == 0 && z == 0
  {
    assert IsRoot(24) && IsRoot(25) && IsRoot(26);
    hide Shift, Add, IsRoot;
    var n := p + q;
    Separate(24, p, q, x, y, z);
    Separate(25, p, q, x, y, z);
    Separate(26, p, q, x, y, z);
    NextRoot(n, x);
    NextRoot(q, y);
    OnlyZero(Shift(n * 24, x), Shift(q * 24, y), z, p, q);
    ShiftZero(n * 24, x);
    ShiftZero(q * 24, y);
  }

  /** A difference in at most three symbols that the checksum does not see is none. */
  lemma {:induction false} PatternDetected(before: nat, x: nat, p: nat, y: nat, q: nat, z: nat, after: nat)
    requires p > 0 && q > 0 && p + q < 1023 && x < 32 && y < 32 && z < 32
    requires Fold(0, Pattern(before, x, p, y, q, z, after)) == 0
    ensures x == 0 && y == 0 && z == 0
  {
    hide Fold, Shift, Add, Element, Value, Syndrome, IsRoot, Pattern;
    var e := Pattern(before, x, p, y, q, z, after);
    PatternSymbols(before, x, p, y, q, z, after);
    forall b | IsRoot(b)
      ensures Add(Shift(q * b, Add(Shift(p * b, Element(x)), Element(y))), Element(z)) == 0
    {
      FoldAtRoots(b, 0, e);
      ValueZero(b, 6);
      PatternSyndrome(b, before, x, p, y, q, z, after);
      ShiftZero(after * b, Add(Shift(q * b, Add(Shift(p * b, Element(x)), Element(y))), Element(z)));
    }
    OnlyZeroElements(p, q, Element(x), Element(y), Element(z));
    ElementZero(x);
    ElementZero(y);
    ElementZero(z);
  }

  lemma PatternSymbols(before: nat, x: nat, p: nat, y: nat, q: nat, z: nat, after: nat)
    requires p > 0 && q > 0 && x < 32 && y < 32 && z < 32
    ensures Symbols(Pattern(before, x, p, y, q, z, after))
  {
  }

  /** A list that is zero but for three places is such a pattern. */
  lemma {:induction false} IsPattern(e: seq<nat>, i: nat, j: nat, k: nat)
    requires i < j < k < |e| && forall m :: 0 <= m < |e| && m != i && m != j && m != k ==> e[m] == 0
    ensures e == Pattern(i, e[i], j - i, e[j], k - j, e[k], |e| - 1 - k)
  {
    var a, b, c, d := Zeros(i) + [e[i]], Zeros(j - i - 1) + [e[j]], Zeros(k - j - 1) + [e[k]], Zeros(|e| - 1 - k);
    assert e[..i + 1] == a;
    assert e[i + 1..j + 1] == b;
    assert e[j + 1..k + 1] == c;
    assert e[k + 1..] == d;
    assert e == e[..i + 1] + (e[i + 1..j + 1] + (e[j + 1..k + 1] + e[k + 1..]));
  }

  /** Two messages that differ, but only in three symbols within a window of 1023, have different checksums. */
  lemma {:induction false} ThreeErrorsDetected(v: seq<nat>, w: seq<nat>, i: nat, j: nat, k: nat)
    requires |v| == |w| && Symbols(v) && Symbols(w) && v != w
    requires i < j < k < |v| && k - i < 1023
    requires forall m :: 0 <= m < |v| && m != i && m != j && m != k ==> v[m] == w[m]
    ensures Fold(1, v) != Fold(1, w)
  {
    hide Fold, Xor, Pattern;
    var e := XorAll(v, w);
    SymbolsXor(v, w);
    forall m | 0 <= m < |v|
      ensures e[m] == 0 <==> v[m] == w[m]
    {
      XorDiffers(v[m], w[m]);
    }
    IsPattern(e, i, j, k);
    FoldLinear(1, 1, v, w);
    XorSelf(1);
    XorDiffers(Fold(1, v), Fold(1, w));
    if Fold(1, v) == Fold(1, w) {
      PatternDetected(i, e[i], j - i, e[j], k - j, e[k], |e| - 1 - k);
    }
  }
}
