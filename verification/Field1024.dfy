/**
 The field of 1024 elements, as vectors of ten bits: multiplication by the generator, whose minimal polynomial is
 x^10 + x^8 + x^5 + x + 1, its powers, and the fact that it has no smaller period than 1023 on anything but zero.
 */
module Field1024 {
  import opened Positional

  /** Addition, which is its own inverse. */
  function Add(u: bv10, v: bv10): bv10 {
    u ^ v
  }

  lemma AddZero(u: bv10)
    ensures Add(u, 0) == u && Add(0, u) == u && Add(u, u) == 0
  {
  }

  lemma AddSame(u: bv10, v: bv10)
    ensures Add(u, v) == 0 <==> u == v
  {
  }

  lemma AddAssociates(a: bv10, b: bv10, c: bv10)
    ensures Add(Add(a, b), c) == Add(a, Add(b, c))
  {
  }

  lemma AddCommutes(a: bv10, b: bv10)
    ensures Add(a, b) == Add(b, a)
  {
  }

  lemma AddExchanges(a: bv10, b: bv10, c: bv10, d: bv10)
    ensures Add(Add(a, b), Add(c, d)) == Add(Add(a, c), Add(b, d))
  {
    hide Add;
    AddAssociates(a, b, Add(c, d));
    AddAssociates(b, c, d);
    AddCommutes(b, c);
    AddAssociates(c, b, d);
    AddAssociates(a, c, Add(b, d));
  }

  // ---------------------------------------------------------------- powers of the generator

  function Double(v: bv10): bv10 {
    v + v
  }

  function Carried(v: bv10): bv10 {
    if v & 0x200 != 0 then 0x123 else 0
  }

  /** Multiplication by the generator. */
  function Mul(v: bv10): bv10 {
    Add(Double(v), Carried(v))
  }

  /** Multiplication by its n-th power. */
  function Shift(n: nat, v: bv10): bv10 {
    if n == 0 then v else Shift(n - 1, Mul(v))
  }

  lemma DoubleLinear(u: bv10, v: bv10)
    ensures Double(Add(u, v)) == Add(Double(u), Double(v))
  {
  }

  lemma CarriedLinear(u: bv10, v: bv10)
    ensures Carried(Add(u, v)) == Add(Carried(u), Carried(v))
  {
  }

  lemma MulLinear(u: bv10, v: bv10)
    ensures Mul(Add(u, v)) == Add(Mul(u), Mul(v))
  {
    hide Add, Double, Carried;
    DoubleLinear(u, v);
    CarriedLinear(u, v);
    AddExchanges(Double(u), Double(v), Carried(u), Carried(v));
  }

  lemma MulZero(v: bv10)
    ensures Mul(v) == 0 <==> v == 0
  {
  }

  lemma {:induction false} ShiftLinear(n: nat, u: bv10, v: bv10)
    ensures Shift(n, Add(u, v)) == Add(Shift(n, u), Shift(n, v))
    decreases n
  {
    hide Mul, Add;
    if n > 0 {
      MulLinear(u, v);
      ShiftLinear(n - 1, Mul(u), Mul(v));
    }
  }

  lemma {:induction false} ShiftZero(n: nat, v: bv10)
    ensures Shift(n, v) == 0 <==> v == 0
    decreases n
  {
    hide Mul;
    if n > 0 {
      MulZero(v);
      ShiftZero(n - 1, Mul(v));
    }
  }

  lemma {:induction false} ShiftInjective(n: nat, u: bv10, v: bv10)
    requires Shift(n, u) == Shift(n, v)
    ensures u == v
  {
    hide Shift, Add;
    ShiftLinear(n, u, v);
    AddSame(Shift(n, u), Shift(n, v));
    ShiftZero(n, Add(u, v));
    AddSame(u, v);
  }

  lemma {:induction false} ShiftAdd(m: nat, n: nat, v: bv10)
    ensures Shift(m + n, v) == Shift(m, Shift(n, v))
    decreases n
  {
    hide Mul;
    if n > 0 {
      ShiftAdd(m, n - 1, Mul(v));
    }
  }

  lemma {:induction false} ShiftOne(n: nat, v: bv10)
    ensures Shift(n + 1, v) == Mul(Shift(n, v)) == Shift(n, Mul(v))
  {
    hide Mul;
    ShiftAdd(1, n, v);
    OnceIsMul(Shift(n, v));
  }

  lemma {:induction false} OnceIsMul(v: bv10)
    ensures Shift(1, v) == Mul(v)
  {
    hide Mul;
  }

  // ---------------------------------------------------------------- powers as elements

  /** What bit `b` of `v` selects. */
  function Part(v: bv10, b: bv10, c: bv10): bv10 {
    if v & b != 0 then c else 0
  }

  /** The product of the bits of `v` from bit `b` on, `k` of them, with `c` for the first of these. */
  function TimesFrom(v: bv10, b: bv10, c: bv10, k: nat): bv10
    decreases k
  {
    if k == 0 then 0 else Add(Part(v, b, c), TimesFrom(v, Double(b), Mul(c), k - 1))
  }

  /** The product of two elements. */
  function Times(v: bv10, c: bv10): bv10 {
    TimesFrom(v, 1, c, 10)
  }

  /** Multiplying by a power acts on the product bit by bit. */
  lemma {:induction false} ShiftFrom(n: nat, v: bv10, b: bv10, c: bv10, k: nat)
    ensures Shift(n, TimesFrom(v, b, c, k)) == TimesFrom(v, b, Shift(n, c), k)
    decreases k
  {
    hide Shift, Add, Mul, Double, Part;
    if k == 0 {
      ShiftZero(n, 0);
    } else {
      ShiftFrom(n, v, Double(b), Mul(c), k - 1);
      ShiftLinear(n, Part(v, b, c), TimesFrom(v, Double(b), Mul(c), k - 1));
      PartShift(n, v, b, c);
      ShiftOne(n, c);
    }
  }

  lemma {:induction false} PartShift(n: nat, v: bv10, b: bv10, c: bv10)
    ensures Shift(n, Part(v, b, c)) == Part(v, b, Shift(n, c))
  {
    hide Shift;
    ShiftZero(n, 0);
  }

  lemma {:induction false} BasisPowers()
    ensures Mul(1) == 2 && Mul(2) == 4 && Mul(4) == 8 && Mul(8) == 16 && Mul(16) == 32
    ensures Mul(32) == 64 && Mul(64) == 128 && Mul(128) == 256 && Mul(256) == 512
    ensures Double(1) == 2 && Double(2) == 4 && Double(4) == 8 && Double(8) == 16 && Double(16) == 32
    ensures Double(32) == 64 && Double(64) == 128 && Double(128) == 256 && Double(256) == 512
  {
  }

  lemma {:induction false} FromNext(v: bv10, b: bv10, c: bv10, k: nat)
    requires k > 0
    ensures TimesFrom(v, b, c, k) == Add(Part(v, b, c), TimesFrom(v, Double(b), Mul(c), k - 1))
    ensures TimesFrom(v, b, c, 0) == 0
  {
  }

  /** The bits of an element that a mask selects. */
  function Masked(v: bv10, m: bv10): bv10 {
    v & m
  }

  predicate AllOrNone(v: bv10, b: bv10) {
    v & b == 0 || v & b == b
  }

  /** One more bit of an element. */
  lemma MoreBits(v: bv10, b: bv10, m: bv10, n: bv10)
    requires b & m == 0 && b | m == n && AllOrNone(v, b)
    ensures Add(Part(v, b, b), Masked(v, m)) == Masked(v, n)
  {
    hide Masked;
    MaskedBoth(v, b, m);
    MaskedApart(v, b, m);
  }

  lemma MaskedBoth(v: bv10, b: bv10, m: bv10)
    ensures Masked(v, b | m) == Masked(v, b) | Masked(v, m) && Masked(v, b) == v & b
  {
  }

  lemma MaskedApart(v: bv10, b: bv10, m: bv10)
    requires b & m == 0
    ensures Masked(v, b) | Masked(v, m) == Masked(v, b) ^ Masked(v, m)
  {
  }

  lemma OneBit(v: bv10)
    ensures AllOrNone(v, 1) && AllOrNone(v, 2) && AllOrNone(v, 4) && AllOrNone(v, 8) && AllOrNone(v, 16)
    ensures AllOrNone(v, 32) && AllOrNone(v, 64) && AllOrNone(v, 128) && AllOrNone(v, 256) && AllOrNone(v, 512)
    ensures Masked(v, 0) == 0 && Masked(v, 1023) == v
  {
  }

  /** An element is the sum of its bits. */
  lemma {:induction false} TimesOne(v: bv10)
    ensures Times(v, 1) == v
  {
    hide TimesFrom, Mul, Double, Add, Part, Masked, AllOrNone;
    OneBit(v);
    BasisPowers();
    FromNext(v, 512, 512, 1);
    FromNext(v, Double(512), Mul(512), 1);
    MoreBits(v, 512, 0, 512);
    FromNext(v, 256, 256, 2);
    MoreBits(v, 256, 512, 768);
    FromNext(v, 128, 128, 3);
    MoreBits(v, 128, 768, 896);
    FromNext(v, 64, 64, 4);
    MoreBits(v, 64, 896, 960);
    FromNext(v, 32, 32, 5);
    MoreBits(v, 32, 960, 992);
    FromNext(v, 16, 16, 6);
    MoreBits(v, 16, 992, 1008);
    FromNext(v, 8, 8, 7);
    MoreBits(v, 8, 1008, 1016);
    FromNext(v, 4, 4, 8);
    MoreBits(v, 4, 1016, 1020);
    FromNext(v, 2, 2, 9);
    MoreBits(v, 2, 1020, 1022);
    FromNext(v, 1, 1, 10);
    MoreBits(v, 1, 1022, 1023);
  }

  /** Multiplying by a power is multiplying by the element that the power is. */
  lemma {:induction false} ShiftIsTimes(n: nat, v: bv10)
    ensures Shift(n, v) == Times(v, Shift(n, 1))
  {
    hide Shift, TimesFrom;
    TimesOne(v);
    ShiftFrom(n, v, 1, 1, 10);
  }

  lemma {:induction false} PowerSum(m: nat, n: nat)
    ensures Shift(m + n, 1) == Times(Shift(n, 1), Shift(m, 1))
  {
    hide Shift, Times;
    ShiftAdd(m, n, 1);
    ShiftIsTimes(m, Shift(n, 1));
  }

  // ---------------------------------------------------------------- the period

  lemma {:induction false} SmallSquares()
    ensures Times(2, 2) == 4 && Times(4, 4) == 16 && Times(16, 16) == 256
  {
    hide Times, TimesFrom;
    TimesColumns(2, 2);
    TimesColumns(4, 4);
    TimesColumns(16, 16);
  }

  lemma {:induction false} MiddleSquares()
    ensures Times(256, 256) == 281 && Times(281, 281) == 88 && Times(88, 88) == 239
  {
    hide Times, TimesFrom;
    TimesColumns(256, 256);
    TimesColumns(281, 281);
    TimesColumns(88, 88);
  }

  lemma {:induction false} LargeSquares()
    ensures Times(239, 239) == 838 && Times(838, 838) == 485
  {
    hide Times, TimesFrom;
    TimesColumns(239, 239);
    TimesColumns(838, 838);
  }

  lemma {:induction false} LastSquares()
    ensures Times(485, 485) == 539 && Times(539, 539) == 2
  {
    hide Times, TimesFrom;
    TimesColumns(485, 485);
    TimesColumns(539, 539);
  }

  lemma {:induction false} PowersOfTwo()
    ensures Shift(1, 1) == 2 && Shift(2, 1) == 4 && Shift(4, 1) == 16 && Shift(8, 1) == 256 && Shift(16, 1) == 281
    ensures Shift(32, 1) == 88 && Shift(64, 1) == 239 && Shift(128, 1) == 838 && Shift(256, 1) == 485
    ensures Shift(512, 1) == 539 && Shift(1024, 1) == 2
  {
    OnceIsMul(1);
    BasisPowers();
    hide Shift, Times, Mul, Double;
    SmallSquares();
    MiddleSquares();
    LargeSquares();
    LastSquares();
    PowerSum(1, 1);
    PowerSum(2, 2);
    PowerSum(4, 4);
    PowerSum(8, 8);
    PowerSum(16, 16);
    PowerSum(32, 32);
    PowerSum(64, 64);
    PowerSum(128, 128);
    PowerSum(256, 256);
    PowerSum(512, 512);
  }

  lemma {:induction false} Products1()
    ensures Times(2, 16) == 32 && Times(32, 256) == 862
  {
    hide Times, TimesFrom;
    TimesColumns(2, 16);
    TimesColumns(32, 256);
  }

  lemma {:induction false} Products2()
    ensures Times(862, 88) == 421 && Times(421, 838) == 945
  {
    hide Times, TimesFrom;
    TimesColumns(862, 88);
    TimesColumns(421, 838);
  }

  lemma {:induction false} Products3()
    ensures Times(945, 485) == 177 && Times(4, 256) == 291
  {
    hide Times, TimesFrom;
    TimesColumns(945, 485);
    TimesColumns(4, 256);
  }

  lemma {:induction false} Products4()
    ensures Times(291, 88) == 472 && Times(472, 838) == 779
  {
    hide Times, TimesFrom;
    TimesColumns(291, 88);
    TimesColumns(472, 838);
  }

  lemma {:induction false} Products5()
    ensures Times(779, 485) == 875 && Times(779, 539) == 55
  {
    hide Times, TimesFrom;
    TimesColumns(779, 485);
    TimesColumns(779, 539);
  }

  lemma {:induction false} Products6()
    ensures Times(862, 281) == 11 && Times(11, 239) == 874
  {
    hide Times, TimesFrom;
    TimesColumns(862, 281);
    TimesColumns(11, 239);
  }

  lemma {:induction false} Products7()
    ensures Times(32, 281) == 126 && Times(126, 239) == 497
  {
    hide Times, TimesFrom;
    TimesColumns(32, 281);
    TimesColumns(126, 239);
  }

  lemma {:induction false} Products8()
    ensures Times(497, 485) == 54 && Times(2, 88) == 176
  {
    hide Times, TimesFrom;
    TimesColumns(497, 485);
    TimesColumns(2, 88);
  }

  /** The powers that the generator's order and the sums below are made of. */
  lemma {:induction false} Powers()
    ensures Shift(33, 1) == 176 && Shift(93, 1) == 874 && Shift(341, 1) == 54
    ensures Shift(429, 1) == 177 && Shift(426, 1) == 875 && Shift(682, 1) == 55
  {
    PowersOfTwo();
    hide Shift, Times;
    Products1();
    Products2();
    Products3();
    Products4();
    Products5();
    Products6();
    Products7();
    Products8();
    PowerSum(4, 1);
    PowerSum(8, 5);
    PowerSum(32, 13);
    PowerSum(128, 45);
    PowerSum(256, 173);
    PowerSum(8, 2);
    PowerSum(32, 10);
    PowerSum(128, 42);
    PowerSum(256, 170);
    PowerSum(512, 170);
    PowerSum(16, 13);
    PowerSum(64, 29);
    PowerSum(16, 5);
    PowerSum(64, 21);
    PowerSum(256, 85);
    PowerSum(32, 1);
  }

  lemma {:induction false} PartLinear(v: bv10, b: bv10, c: bv10, d: bv10)
    ensures Part(v, b, Add(c, d)) == Add(Part(v, b, c), Part(v, b, d))
  {
    hide Add;
    AddZero(0);
  }

  lemma {:induction false} FromLinear(v: bv10, b: bv10, c: bv10, d: bv10, k: nat)
    ensures TimesFrom(v, b, Add(c, d), k) == Add(TimesFrom(v, b, c, k), TimesFrom(v, b, d, k))
    decreases k
  {
    hide Add, Part, Mul, Double;
    if k == 0 {
      AddZero(0);
    } else {
      MulLinear(c, d);
      PartLinear(v, b, c, d);
      FromLinear(v, Double(b), Mul(c), Mul(d), k - 1);
      AddExchanges(Part(v, b, c), Part(v, b, d), TimesFrom(v, Double(b), Mul(c), k - 1),
                   TimesFrom(v, Double(b), Mul(d), k - 1));
    }
  }

  /** Adding an element to its product with one power gives its product with another. */
  lemma {:induction false} SumIsPower(n: nat, z: nat, v: bv10)
    requires Add(Shift(n, 1), 1) == Shift(z, 1)
    ensures Add(Shift(n, v), v) == Shift(z, v)
  {
    hide Shift, TimesFrom, Add;
    ShiftIsTimes(n, v);
    ShiftIsTimes(z, v);
    TimesOne(v);
    FromLinear(v, 1, Shift(n, 1), 1, 10);
  }

  lemma {:induction false} NotFixed(n: nat, z: nat, v: bv10)
    requires Add(Shift(n, 1), 1) == Shift(z, 1) && Shift(n, v) == v
    ensures v == 0
  {
    hide Shift, Add;
    SumIsPower(n, z, v);
    AddZero(v);
    ShiftZero(z, v);
  }

  lemma {:induction false} Period(v: bv10)
    ensures Shift(1023, v) == v
  {
    PowersOfTwo();
    OnceIsMul(1);
    BasisPowers();
    hide Shift, Times, Mul, Double;
    ShiftAdd(1, 1023, 1);
    ShiftInjective(1, Shift(1023, 1), 1);
    ShiftIsTimes(1023, v);
    TimesOne(v);
  }

  // ---------------------------------------------------------------- nothing has a smaller period

  lemma {:induction false} Multiples(g: nat, k: nat, v: bv10)
    requires Shift(g, v) == v
    ensures Shift(g * k, v) == v
    decreases k
  {
    if k > 0 {
      Multiples(g, k - 1, v);
      assert g * k == g * (k - 1) + g;
      ShiftAdd(g * (k - 1), g, v);
    } else {
      assert g * k == 0;
    }
  }

  /** A common divisor of two periods that is a period itself, by Euclid's algorithm. */
  lemma {:induction false} CommonPeriod(a: nat, b: nat, v: bv10) returns (g: nat)
    requires a > 0 && Shift(a, v) == v && Shift(b, v) == v
    ensures 0 < g <= a && a % g == 0 && b % g == 0 && Shift(g, v) == v
    decreases a
  {
    hide Shift;
    var q, r := b / a, b % a;
    assert b == a * q + r;
    Multiples(a, q, v);
    ShiftAdd(r, a * q, v);
    assert Shift(r, v) == v;
    if r == 0 {
      g := a;
      DivisionIs(a, a, 1, 0);
    } else {
      g := CommonPeriod(r, a, v);
      DividesSum(g, a, q, r, b);
    }
  }

  lemma DividesSum(g: nat, a: nat, q: nat, r: nat, b: nat)
    requires g > 0 && a % g == 0 && r % g == 0 && b == a * q + r
    ensures b % g == 0
  {
    var i, j := a / g, r / g;
    assert a == i * g && r == j * g;
    Associate(i, g, q);
    Associate(i, q, g);
    assert a * q == (i * q) * g;
    Distribute(g, i * q, j);
    DivisionIs(b, g, i * q + j, 0);
  }

  lemma SmallDivisors(x: nat)
    requires 0 < x <= 32 && 1023 % x == 0
    ensures x == 1 || x == 3 || x == 11 || x == 31
  {
    var q := 1023 / x;
    assert 1023 == q * x;
    if x <= 16 {
      assert x == 1 || x == 2 || x == 3 || x == 4 || x == 5 || x == 6 || x == 7 || x == 8
          || x == 9 || x == 10 || x == 11 || x == 12 || x == 13 || x == 14 || x == 15 || x == 16;
    } else {
      assert x == 17 || x == 18 || x == 19 || x == 20 || x == 21 || x == 22 || x == 23 || x == 24
          || x == 25 || x == 26 || x == 27 || x == 28 || x == 29 || x == 30 || x == 31 || x == 32;
    }
  }

  /** A proper divisor of 1023 divides one of its three largest. */
  lemma ProperDivisors(g: nat)
    requires 0 < g < 1023 && 1023 % g == 0
    ensures 33 % g == 0 || 93 % g == 0 || 341 % g == 0
  {
    var q := 1023 / g;
    assert 1023 == q * g;
    if g <= 32 {
      SmallDivisors(g);
    } else {
      SmallQuotient(g, q);
      DivisionIs(1023, q, g, 0);
      SmallDivisors(q);
    }
  }

  lemma SmallQuotient(g: nat, q: nat)
    requires g > 32 && q * g == 1023
    ensures 0 < q <= 32
  {
    if q > 32 {
      Monotone(33, q, g);
    }
  }

  lemma {:induction false} PeriodDivides(g: nat, n: nat, z: nat, v: bv10)
    requires g > 0 && n % g == 0 && Shift(g, v) == v && Add(Shift(n, 1), 1) == Shift(z, 1)
    ensures v == 0
  {
    hide Shift, Add;
    Multiples(g, n / g, v);
    assert g * (n / g) == n;
    NotFixed(n, z, v);
  }

  /** Multiplying anything but zero by a power below the 1023rd changes it. */
  lemma {:induction false} NoSmallPeriod(d: nat, v: bv10)
    requires 0 < d < 1023 && Shift(d, v) == v
    ensures v == 0
  {
    hide Shift;
    Period(v);
    var g := CommonPeriod(d, 1023, v);
    ProperDivisors(g);
    Powers();
    if 33 % g == 0 {
      PeriodDivides(g, 33, 429, v);
    } else if 93 % g == 0 {
      PeriodDivides(g, 93, 426, v);
    } else {
      PeriodDivides(g, 341, 682, v);
    }
  }

  // ---------------------------------------------------------------- three powers

  /** The sum of the columns that the bits of an element select. */
  function Columns(v: bv10, c0: bv10, c1: bv10, c2: bv10, c3: bv10, c4: bv10,
      c5: bv10, c6: bv10, c7: bv10, c8: bv10, c9: bv10)
    : bv10
  {
    Add(Part(v, 1, c0), Add(Part(v, 2, c1), Add(Part(v, 4, c2), Add(Part(v, 8, c3), Add(Part(v, 16, c4),
    Add(Part(v, 32, c5), Add(Part(v, 64, c6), Add(Part(v, 128, c7), Add(Part(v, 256, c8),
    Add(Part(v, 512, c9), 0))))))))))
  }

  lemma {:induction false} TimesColumns(v: bv10, c: bv10)
    ensures var c1 := Mul(c); var c2 := Mul(c1); var c3 := Mul(c2); var c4 := Mul(c3); var c5 := Mul(c4);
            var c6 := Mul(c5); var c7 := Mul(c6); var c8 := Mul(c7); var c9 := Mul(c8);
            Times(v, c) == Columns(v, c, c1, c2, c3, c4, c5, c6, c7, c8, c9)
  {
    BasisPowers();
    hide TimesFrom, Mul, Double, Add, Part;
    var c1 := Mul(c);
    var c2 := Mul(c1);
    var c3 := Mul(c2);
    var c4 := Mul(c3);
    var c5 := Mul(c4);
    var c6 := Mul(c5);
    var c7 := Mul(c6);
    var c8 := Mul(c7);
    var c9 := Mul(c8);
    FromNext(v, 1, c, 10);
    FromNext(v, 2, c1, 9);
    FromNext(v, 4, c2, 8);
    FromNext(v, 8, c3, 7);
    FromNext(v, 16, c4, 6);
    FromNext(v, 32, c5, 5);
    FromNext(v, 64, c6, 4);
    FromNext(v, 128, c7, 3);
    FromNext(v, 256, c8, 2);
    FromNext(v, 512, c9, 1);
    FromNext(v, Double(512), Mul(c9), 1);
  }

  /** The powers at which the checksum is evaluated. */
  predicate IsRoot(b: nat) {
    b == 24 || b == 25 || b == 26
  }

  /** Multiplication by one of these powers, written out. */
  function By(b: nat, v: bv10): bv10
    requires IsRoot(b)
  {
    if b == 24 then Columns(v, 1008, 707, 165, 330, 660, 11, 22, 44, 88, 176)
    else if b == 25 then Columns(v, 707, 165, 330, 660, 11, 22, 44, 88, 176, 352)
    else Columns(v, 165, 330, 660, 11, 22, 44, 88, 176, 352, 704)
  }

  lemma {:induction false} RootProducts()
    ensures Times(256, 281) == 1008
  {
    hide Times, TimesFrom;
    TimesColumns(256, 281);
  }

  lemma {:induction false} RootPowers()
    ensures Mul(1008) == 707 && Mul(707) == 165
    ensures Mul(165) == 330
    ensures Mul(330) == 660
    ensures Mul(660) == 11
    ensures Mul(11) == 22
    ensures Mul(22) == 44
    ensures Mul(44) == 88
    ensures Mul(88) == 176
    ensures Mul(176) == 352
    ensures Mul(352) == 704
  {
  }

  lemma {:induction false} ByIs(b: nat, v: bv10)
    requires IsRoot(b)
    ensures Shift(b, v) == By(b, v)
  {
    PowersOfTwo();
    hide Shift, Times, Columns, Mul;
    RootProducts();
    PowerSum(16, 8);
    RootPowers();
    ShiftOne(24, 1);
    ShiftOne(25, 1);
    ShiftIsTimes(b, v);
    TimesColumns(v, Shift(b, 1));
  }

  // ---------------------------------------------------------------- the smaller field

  lemma {:induction false} Factors1()
    ensures Times(16, 256) == 431 && Times(431, 281) == 660
  {
    hide Times, TimesFrom;
    TimesColumns(16, 256);
    TimesColumns(431, 281);
  }

  lemma {:induction false} Factors2()
    ensures Times(660, 838) == 152 && Times(152, 485) == 292
  {
    hide Times, TimesFrom;
    TimesColumns(660, 838);
    TimesColumns(152, 485);
  }

  lemma {:induction false} Factors3()
    ensures Times(292, 539) == 14
  {
    hide Times, TimesFrom;
    TimesColumns(292, 539);
  }

  lemma {:induction false} SmallFieldProducts()
    ensures Times(14, 14) == 84 && Times(84, 14) == 856
  {
    hide Times, TimesFrom;
    TimesColumns(14, 14);
    TimesColumns(84, 14);
  }

  lemma {:induction false} MoreSmallFieldProducts()
    ensures Times(856, 14) == 191 && Times(191, 14) == 857
  {
    hide Times, TimesFrom;
    TimesColumns(856, 14);
    TimesColumns(191, 14);
  }

  /** Multiplication by the element that stands for 2 in the field of 32 elements. */
  lemma {:induction false} SmallFieldPowers()
    ensures Shift(924, 1) == 14 && Shift(924, 14) == 84 && Shift(924, 84) == 856
    ensures Shift(924, 856) == 191 && Shift(924, 191) == 857
  {
    PowersOfTwo();
    hide Shift, Times;
    Factors1();
    Factors2();
    Factors3();
    PowerSum(8, 4);
    PowerSum(16, 12);
    PowerSum(128, 28);
    PowerSum(256, 156);
    PowerSum(512, 412);
    SmallFieldProducts();
    MoreSmallFieldProducts();
    ShiftIsTimes(924, 14);
    ShiftIsTimes(924, 84);
    ShiftIsTimes(924, 856);
    ShiftIsTimes(924, 191);
  }
}
