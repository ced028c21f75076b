/** The compact form of amounts: up to nine trailing zeros become an exponent, in 64 bits that may wrap around. */
module Amounts {
  import opened Positional
  import opened VarInt

  const MAX_MONEY: nat := 2_000_000_000 * 100_000_000

  /** Up to nine factors of ten taken off, and how many they are when `e` were taken off before. */
  function Stripped(n: nat, e: nat): (nat, nat)
    decreases 9 - e
  {
    if n % 10 == 0 && e < 9 then Stripped(n / 10, e + 1) else (n, e)
  }

  function CompressAmount(n: nat): nat {
    if n == 0 then 0 else StrippedIs(n, 0); Joined(Stripped(n, 0).0, Stripped(n, 0).1)
  }

  function Joined(m: nat, e: nat): nat
    requires m > 0 && (e < 9 ==> m % 10 != 0)
  {
    if e < 9 then 1 + (m / 10 * 9 + m % 10 - 1) * 10 + e else 1 + (m - 1) * 10 + 9
  }

  function Mantissa(x: nat): nat
    requires x > 0
  {
    var y := x - 1;
    if y % 10 < 9 then y / 10 / 9 * 10 + (y / 10 % 9 + 1) else y / 10 + 1
  }

  function DecompressAmount(x: nat): nat {
    if x == 0 then 0 else Mantissa(x) * Pow(10, (x - 1) % 10)
  }

  lemma {:induction false} StrippedIs(n: nat, e: nat)
    requires n > 0 && e <= 9
    ensures var (m, f) := Stripped(n, e);
            && m > 0 && e <= f <= 9 && (f < 9 ==> m % 10 != 0)
            && n == m * Pow(10, f - e)
    decreases 9 - e
  {
    if n % 10 == 0 && e < 9 {
      StrippedIs(n / 10, e + 1);
      var (m, f) := Stripped(n / 10, e + 1);
      Swap(m, 10, Pow(10, f - e - 1));
    }
  }

  lemma {:induction false} StripScaled(m: nat, k: nat, e: nat)
    requires m > 0 && e + k <= 9 && (e + k < 9 ==> m % 10 != 0)
    ensures Stripped(m * Pow(10, k), e) == (m, e + k)
    decreases k
  {
    hide Stripped, Pow;
    if k > 0 {
      var n := m * Pow(10, k - 1);
      TenTimes(m, k - 1);
      StripScaled(m, k - 1, e + 1);
      DivisionIs(10 * n, 10, n, 0);
      StrippedStep(10 * n, e);
    } else {
      TenTimes(m, 0);
      StrippedStep(m, e);
    }
  }

  lemma {:induction false} StrippedStep(n: nat, e: nat)
    ensures Stripped(n, e) == if n % 10 == 0 && e < 9 then Stripped(n / 10, e + 1) else (n, e)
  {
  }

  lemma JoinedSplits(m: nat, e: nat)
    requires m > 0 && e <= 9 && (e < 9 ==> m % 10 != 0)
    ensures Joined(m, e) > 0 && (Joined(m, e) - 1) % 10 == e && Mantissa(Joined(m, e)) == m
  {
    if e < 9 {
      var q := m / 10 * 9 + m % 10 - 1;
      var y := q * 10 + e;
      assert y / 10 == q && y % 10 == e;
      assert q / 9 == m / 10 && q % 9 == m % 10 - 1;
    }
  }

  lemma SplitJoins(x: nat)
    requires x > 0
    ensures var m, e := Mantissa(x), (x - 1) % 10;
            m > 0 && (e < 9 ==> m % 10 != 0) && Joined(m, e) == x
  {
    var y := x - 1;
    var q := y / 10;
    if y % 10 < 9 {
      var m := q / 9 * 10 + (q % 9 + 1);
      assert m / 10 == q / 9 && m % 10 == q % 9 + 1;
    }
  }

  /** Without a bound on the integers, amount compression is a bijection: each direction undoes the other. */
  lemma AmountBijection(n: nat)
    ensures DecompressAmount(CompressAmount(n)) == n
    ensures CompressAmount(DecompressAmount(n)) == n
  {
    hide Stripped, Joined, Mantissa, Pow;
    if n > 0 {
      StrippedIs(n, 0);
      JoinedSplits(Stripped(n, 0).0, Stripped(n, 0).1);
      SplitJoins(n);
      var m, e := Mantissa(n), (n - 1) % 10;
      PowPositive(10, e);
      Monotone(1, Pow(10, e), m);
      StripScaled(m, e, 0);
    }
  }

  /** The compression of 64-bit amounts, which wraps around. */
  function Compress64(n: nat): nat {
    CompressAmount(n) % UINT64
  }

  function Decompress64(x: nat): nat {
    DecompressAmount(x) % UINT64
  }

  // ---------------------------------------------------------------- when compression wraps around

  /** An amount without trailing zeros. */
  lemma CompressPlain(n: nat)
    requires n % 10 != 0
    ensures CompressAmount(n) == 1 + (n / 10 * 9 + n % 10 - 1) * 10 == 9 * n + n % 10 - 9
  {
    StrippedStep(n, 0);
    hide Stripped;
    assert Stripped(n, 0) == (n, 0);
  }

  /** An amount with trailing zeros, which leave ample room. */
  lemma CompressRound(n: nat)
    requires n % 10 == 0
    ensures CompressAmount(n) <= n
  {
    hide Stripped;
    if n > 0 {
      RoundIsScaled(n);
    }
  }

  lemma RoundIsScaled(n: nat)
    requires n > 0 && n % 10 == 0
    ensures var (m, e) := Stripped(n, 0); m > 0 && 0 < e <= 9 && n >= 10 * m
  {
    hide Stripped, Pow;
    StrippedIs(n, 0);
    StrippedStep(n, 0);
    StrippedIs(n / 10, 1);
    var (m, e) := Stripped(n, 0);
    TenTimes(m, e - 1);
    PowPositive(10, e - 1);
    Monotone(1, Pow(10, e - 1), m);
  }

  /** Compression does not wrap around exactly if there is a trailing zero or the amount is small enough. */
  lemma CompressFits(n: nat)
    requires n < UINT64
    ensures CompressAmount(n) < UINT64 <==> n % 10 == 0 || 1 + (n / 10 * 9 + n % 10 - 1) * 10 < UINT64
  {
    hide CompressAmount;
    if n % 10 == 0 {
      CompressRound(n);
    } else {
      CompressPlain(n);
    }
  }

  /** Compression does not wrap around on any amount up to a ninth of the range, and so on no valid amount. */
  lemma AmountFits(n: nat)
    requires n <= (UINT64 - 1) / 9
    ensures CompressAmount(n) <= 9 * n && CompressAmount(n) < UINT64
  {
    hide CompressAmount;
    if n % 10 == 0 {
      CompressRound(n);
    } else {
      CompressPlain(n);
    }
  }

  /** Decompression does not wrap around exactly if the mantissa is small enough for its power of ten. */
  lemma DecompressFits(x: nat)
    requires x > 0
    ensures var p := Pow(10, (x - 1) % 10);
            p > 0 && (DecompressAmount(x) < UINT64 <==> Mantissa(x) <= (UINT64 - 1) / p)
  {
    hide Mantissa, Pow;
    var p, m := Pow(10, (x - 1) % 10), Mantissa(x);
    PowPositive(10, (x - 1) % 10);
    AtMostQuotient(m, UINT64 - 1, p);
  }

  lemma AtMostQuotient(m: nat, n: nat, p: nat)
    requires p > 0
    ensures m <= n / p <==> m * p <= n
  {
    var q, r := n / p, n % p;
    assert n == q * p + r;
    if m <= q {
      Monotone(m, q, p);
    } else {
      Monotone(q + 1, m, p);
    }
  }

  // ---------------------------------------------------------------- no coincidences

  lemma UintIsPower()
    ensures Pow2(64) == UINT64
  {
    assert Pow(2, 8) == 256;
    PowAdd(2, 8, 8);
    PowAdd(2, 16, 16);
    PowAdd(2, 32, 32);
  }

  /** An odd factor can be cancelled modulo a power of two. */
  lemma {:induction false} OddCancels(a: nat, x: int, z: int, k: nat) returns (w: int)
    requires a % 2 == 1 && a * x == z * Pow2(k)
    ensures x == w * Pow2(k)
    decreases k
  {
    if k == 0 {
      w := x;
    } else {
      var p := Pow2(k - 1);
      assert Pow2(k) == 2 * p;
      hide Pow2;
      Twice(z, p);
      OddTimes(a, x, z * p);
      w := OddCancels(a, x / 2, z, k - 1);
      Twice(w, p);
    }
  }

  lemma Twice(z: int, p: int)
    ensures z * (2 * p) == 2 * (z * p)
  {
    Associate(z, 2, p);
    Associate(2, z, p);
  }

  lemma OddTimes(a: nat, x: int, y: int)
    requires a % 2 == 1 && a * x == 2 * y
    ensures x == 2 * (x / 2) && a * (x / 2) == y
  {
    var h, q, r := a / 2, x / 2, x % 2;
    Distribute(x, 2 * h, 1);
    Associate(2, h, x);
    assert x == 2 * (y - h * x);
    Twice(a, q);
  }

  /** A congruence with an odd factor has one solution below 2^64. */
  lemma OneSolution(a: nat, b: int, n: nat, m: nat, i: int, j: int)
    requires a % 2 == 1 && n < UINT64 && m < UINT64
    requires a * n == b + i * UINT64 && a * m == b + j * UINT64
    ensures n == m
  {
    UintIsPower();
    Distribute(a, n - m, m);
    Distribute(UINT64, i - j, j);
    hide Pow2;
    var w := OddCancels(a, n - m, i - j, 64);
  }

  /** The mantissa that a compression reduced by `k` times 2^64 is read with. */
  lemma WrappedMantissa(n: nat, k: nat, e: nat, c: nat)
    requires n % 10 != 0 && k * UINT64 + e == 10 * c && e < 9
    requires CompressAmount(n) > k * UINT64
    ensures var x := CompressAmount(n) - k * UINT64;
      && (x - 1) % 10 == e
      && (9 * Mantissa(x) == 9 * n - 10 * c + c % 9 || 9 * Mantissa(x) == 9 * n - 10 * c + c % 9 - 9)
  {
    CompressPlain(n);
    hide CompressAmount, Mantissa;
    var q := n / 10 * 9 + n % 10 - 1;
    var x := CompressAmount(n) - k * UINT64;
    assert x - 1 == 10 * (q - c) + e;
    MantissaIs(x, q - c, e);
    PlainNinths(n);
    NinthOf(q, c);
  }

  lemma MantissaIs(x: nat, z: nat, e: nat)
    requires x > 0 && x - 1 == 10 * z + e && e < 9
    ensures (x - 1) % 10 == e && 9 * Mantissa(x) == 10 * z - z % 9 + 9
  {
    DivisionIs(x - 1, 10, z, e);
    assert z == 9 * (z / 9) + z % 9;
  }

  lemma PlainNinths(n: nat)
    requires n % 10 != 0
    ensures var q := n / 10 * 9 + n % 10 - 1; 9 * n == 10 * q - q % 9 + 9
  {
    DivisionIs(n / 10 * 9 + n % 10 - 1, 9, n / 10, n % 10 - 1);
    assert n == 10 * (n / 10) + n % 10;
  }

  lemma NinthOf(q: nat, c: nat)
    requires q >= c
    ensures (q - c) % 9 == q % 9 - c % 9 || (q - c) % 9 == q % 9 - c % 9 + 9
  {
    var d := q - c;
    assert q == 9 * (q / 9) + q % 9 && c == 9 * (c / 9) + c % 9 && d == 9 * (d / 9) + d % 9;
  }

  /** The one amount that a mantissa at a given distance from it is read as. */
  lemma ReadAs(n: nat, m: nat, p: nat, b: int, m1: nat, j: int)
    requires n < UINT64 && m1 < UINT64 && p > 0 && p % 2 == 0
    requires 9 * m == 9 * n - b && m * p % UINT64 == n
    requires 9 * (p - 1) * m1 == p * b + j * UINT64
    ensures n == m1
  {
    var i := m * p / UINT64;
    Congruence(n, m, p, b, i);
    OneSolution(9 * (p - 1), p * b, n, m1, 9 * i, j);
  }

  /** The only two amounts that could be read back are given, and wrap around another number of times. */
  lemma NoCoincidence(n: nat, k: nat, e: nat, c: nat, p: nat, m1: nat, j1: int, m2: nat, j2: int)
    requires n < UINT64 && n % 10 != 0 && k * UINT64 < CompressAmount(n) < (k + 1) * UINT64
    requires k * UINT64 + e == 10 * c && 0 < e < 9 && p == Pow(10, e) > 0 && p % 2 == 0
    requires m1 < UINT64 && 9 * (p - 1) * m1 == p * (10 * c - c % 9) + j1 * UINT64
    requires m2 < UINT64 && 9 * (p - 1) * m2 == p * (10 * c - c % 9 + 9) + j2 * UINT64
    requires (9 * m1 + m1 % 10 - 9) / UINT64 != k && (9 * m2 + m2 % 10 - 9) / UINT64 != k
    ensures Decompress64(CompressAmount(n) - k * UINT64) != n
  {
    var x := CompressAmount(n) - k * UINT64;
    CompressPlain(n);
    WrappedMantissa(n, k, e, c);
    hide CompressAmount, Mantissa, Pow;
    DivisionIs(9 * n + n % 10 - 9, UINT64, k, x);
    var m := Mantissa(x);
    assert Decompress64(x) == m * p % UINT64;
    if m * p % UINT64 == n {
      if 9 * m == 9 * n - (10 * c - c % 9) {
        ReadAs(n, m, p, 10 * c - c % 9, m1, j1);
      } else {
        ReadAs(n, m, p, 10 * c - c % 9 + 9, m2, j2);
      }
    }
  }

  lemma Congruence(n: nat, m: nat, p: nat, b: int, i: int)
    requires p > 0 && 9 * m == 9 * n - b && m * p == i * UINT64 + n
    ensures 9 * (p - 1) * n == p * b + (9 * i) * UINT64
  {
    Distribute(p, 9 * n, -b);
    Distribute(n, p, -1);
    Associate(9, m, p);
    Associate(9, n, p);
    Associate(9, p - 1, n);
    assert (9 * m) * p == 9 * (i * UINT64 + n);
  }

  lemma EvenPowers()
    ensures Pow(10, 2) == 100 && Pow(10, 4) == 10000 && Pow(10, 6) == 1000000 && Pow(10, 8) == 100000000
  {
    assert Pow(10, 2) == 100;
    PowAdd(10, 2, 2);
    PowAdd(10, 2, 4);
    PowAdd(10, 4, 4);
  }

  /** An amount whose compression wraps around is not read back. */
  lemma WrappedIsLost(n: nat)
    requires n < UINT64 && CompressAmount(n) >= UINT64
    ensures Decompress64(Compress64(n)) != n
  {
    CompressFits(n);
    CompressPlain(n);
    EvenPowers();
    hide CompressAmount, DecompressAmount, Pow;
    var k, x := CompressAmount(n) / UINT64, CompressAmount(n) % UINT64;
    assert CompressAmount(n) == k * UINT64 + x && 1 <= k <= 8;
    if x == 0 {
      NothingIsZero();
    } else if k == 5 {
      WrappedFive(n, x);
    } else if k == 1 {
      NoCoincidence(n, 1, 4, 1844674407370955162, 10000, 15288550632769423584, 64584, 10300052185393623248, 40248);
    } else if k == 2 {
      NoCoincidence(n, 2, 8, 3689348814741910324, 100000000, 14480868974329830400, 506508525,
                    14781022037580233472, 521152722);
    } else if k == 3 {
      NoCoincidence(n, 3, 2, 5534023222112865485, 100, 1925417731599313468, -207, 14595908610510924680, 405);
    } else if k == 4 {
      NoCoincidence(n, 4, 6, 7378697629483820647, 1000000, 14161661572577611840, 2909340,
                    15833915935345966592, 3725217);
    } else if k == 6 {
      NoCoincidence(n, 6, 4, 11068046444225730970, 10000, 4486081875444583760, -38115, 17944327501778335040, 27540);
    } else if k == 7 {
      NoCoincidence(n, 7, 8, 12912720851596686132, 100000000, 4266028162630124288, -491864337,
                    4566181225880527360, -477220140);
    } else if k == 8 {
      NoCoincidence(n, 8, 2, 14757395258967641293, 100, 7432526512302726184, -441, 1656273317504785780, -720);
    }
  }

  lemma NothingIsZero()
    ensures DecompressAmount(0) == 0
  {
  }

  /** Five times 2^64 ends in a zero, so nothing is scaled and what is read is too small to be the amount. */
  lemma WrappedFive(n: nat, x: nat)
    requires n < UINT64 && n % 10 != 0 && CompressAmount(n) == 5 * UINT64 + x && 0 < x < UINT64
    ensures Decompress64(x) != n
  {
    WrappedMantissa(n, 5, 0, UINT64 / 2);
    AmountBijection(x);
    hide CompressAmount, Mantissa, Pow;
    TenTimes(Mantissa(x), 0);
    assert DecompressAmount(x) == Mantissa(x);
  }

  /** Each round trip of the 64-bit functions holds exactly where the first of its two steps does not wrap around. */
  lemma AmountRoundTrip(n: nat)
    requires n < UINT64
    ensures Decompress64(Compress64(n)) == n <==> CompressAmount(n) < UINT64
    ensures Compress64(Decompress64(n)) == n <==> DecompressAmount(n) < UINT64
  {
    hide CompressAmount, DecompressAmount;
    AmountBijection(n);
    if CompressAmount(n) >= UINT64 {
      WrappedIsLost(n);
    }
    var m := Decompress64(n);
    AmountBijection(m);
    if DecompressAmount(n) >= UINT64 && CompressAmount(m) >= UINT64 {
      WrappedIsLost(m);
    }
  }

  /** Both steps wrap around on the largest 64-bit number, so neither round trip holds of it. */
  lemma {:induction false} RoundTripFails()
    ensures Decompress64(Compress64(UINT64 - 1)) != UINT64 - 1
    ensures Compress64(Decompress64(UINT64 - 1)) != UINT64 - 1
  {
    var n := UINT64 - 1;
    CompressPlain(n);
    LargestScaled();
    hide CompressAmount, DecompressAmount, Compress64, Decompress64;
    AmountRoundTrip(n);
  }

  lemma {:induction false} LargestScaled()
    ensures DecompressAmount(UINT64 - 1) >= UINT64
  {
    EvenPowers();
    hide Pow;
    var x := UINT64 - 1;
    assert (x - 1) % 10 == 4 && Mantissa(x) == 2049638230412172402;
  }

  // ---------------------------------------------------------------- the code

  /** The loop that takes off factors of ten. */
  method StripTens(amount: nat) returns (n: nat, e: nat)
    requires amount > 0
    ensures (n, e) == Stripped(amount, 0)
  {
    n, e := amount, 0;
    while n % 10 == 0 && e < 9
      invariant n > 0 && e <= 9 && Stripped(n, e) == Stripped(amount, 0)
      decreases 9 - e
    {
      n, e := n / 10, e + 1;
    }
  }

  method CompressAmountOf(amount: nat) returns (x: nat)
    requires amount < UINT64
    ensures x == Compress64(amount)
  {
    hide Stripped, Pow;
    if amount == 0 {
      return 0;
    }
    var n, e := StripTens(amount);
    StrippedIs(amount, 0);
    if e < 9 {
      var d := n % 10;
      assert 1 <= d <= 9;
      n := n / 10;
      x := (1 + (n * 9 + d - 1) * 10 + e) % UINT64;
    } else {
      x := (1 + (n - 1) * 10 + 9) % UINT64;
    }
  }

  /** The loop that puts factors of ten back, wrapping around. */
  method ScaleByTens(m: nat, k: nat) returns (n: nat)
    requires m < UINT64
    ensures n == m * Pow(10, k) % UINT64
  {
    hide Pow;
    var e := k;
    n := m;
    TenTimes(m, 0);
    while e > 0
      invariant 0 <= e <= k && n == m * Pow(10, k - e) % UINT64
    {
      TenTimes(m, k - e);
      WrapTen(m * Pow(10, k - e));
      n := n * 10 % UINT64;
      e := e - 1;
    }
  }

  method DecompressAmountOf(x: nat) returns (n: nat)
    requires x < UINT64
    ensures n == Decompress64(x)
  {
    hide Pow;
    if x == 0 {
      return 0;
    }
    var y := x - 1;
    var e := y % 10;
    y := y / 10;
    if e < 9 {
      var d := y % 9 + 1;
      y := y / 9;
      n := y * 10 + d;
    } else {
      n := y + 1;
    }
    assert n == Mantissa(x);
    n := ScaleByTens(n, e);
  }

  lemma WrapTen(m: nat)
    ensures m % UINT64 * 10 % UINT64 == m * 10 % UINT64
  {
    var q, r := m / UINT64, m % UINT64;
    SameMod(r * 10, m * 10, UINT64, q * 10);
  }

  lemma TenTimes(m: nat, k: nat)
    ensures m * Pow(10, k + 1) == m * Pow(10, k) * 10 && m * Pow(10, 0) == m
  {
    Swap(m, 10, Pow(10, k));
    assert Pow(10, 0) == 1;
  }
}
