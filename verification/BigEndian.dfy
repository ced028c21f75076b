/**
 Numbers as big-endian digits, their canonical form without leading zeros, and the change
 of base that keeps leading zeros: the arithmetic behind Base58.
 */
module BigEndian {
  import opened Positional
  import opened Sequences

  /** The number that the digits stand for, most significant first. */
  function Num(b: nat, s: seq<nat>): nat {
    if s == [] then 0 else Num(b, s[..|s| - 1]) * b + s[|s| - 1]
  }

  lemma {:induction false} NumConcat(b: nat, s: seq<nat>, t: seq<nat>)
    ensures Num(b, s + t) == Num(b, s) * Pow(b, |t|) + Num(b, t)
    decreases |t|
  {
    if t == [] {
      assert s + t == s;
    } else {
      var front, x := t[..|t| - 1], t[|t| - 1];
      NumConcat(b, s, front);
      assert (s + t)[..|s + t| - 1] == s + front;
      var p := Pow(b, |front|);
      Distribute(b, Num(b, s) * p, Num(b, front));
      Associate(Num(b, s), p, b);
    }
  }

  lemma {:induction false} NumPrepend(b: nat, d: nat, t: seq<nat>)
    ensures Num(b, [d] + t) == d * Pow(b, |t|) + Num(b, t)
  {
    NumConcat(b, [d], t);
    assert Num(b, [d]) == Num(b, []) * b + d;
  }

  lemma {:induction false} NumBound(b: nat, s: seq<nat>)
    requires Digits(b, s)
    ensures Num(b, s) < Pow(b, |s|)
  {
    if s != [] {
      NumBound(b, s[..|s| - 1]);
      Monotone(Num(b, s[..|s| - 1]) + 1, Pow(b, |s| - 1), b);
      Distribute(b, Num(b, s[..|s| - 1]), 1);
    }
  }

  lemma {:induction false} NumZeros(b: nat, s: seq<nat>)
    requires forall i :: 0 <= i < |s| ==> s[i] == 0
    ensures Num(b, s) == 0
  {
    if s != [] {
      NumZeros(b, s[..|s| - 1]);
    }
  }

  // ---------------------------------------------------------------- canonical digits

  /** The digits of a number without leading zeros. */
  function FromNum(b: nat, v: nat): (s: seq<nat>)
    requires b > 1
    decreases v
  {
    if v == 0 then [] else Smaller(v, b); FromNum(b, v / b) + [v % b]
  }

  lemma Smaller(v: nat, b: nat)
    requires v > 0 && b > 1
    ensures v / b < v
  {
    if v / b >= v {
      Monotone(2, b, v / b);
    }
  }

  lemma {:induction false} FromNumIs(b: nat, v: nat)
    requires b > 1
    ensures Digits(b, FromNum(b, v)) && Num(b, FromNum(b, v)) == v
    ensures v > 0 ==> FromNum(b, v) != [] && FromNum(b, v)[0] != 0
    decreases v
  {
    hide Num, FromNum;
    FromNumZero(b);
    if v == 0 {
      NumZeros(b, []);
    } else {
      var q, r := v / b, v % b;
      Smaller(v, b);
      FromNumIs(b, q);
      FromNumLast(b, v);
      var s := FromNum(b, v);
      assert s[..|s| - 1] == FromNum(b, q) && s[|s| - 1] == r;
      NumLast(b, s);
      QuotientAndRest(v, b);
    }
  }

  lemma QuotientAndRest(v: nat, b: nat)
    requires b > 0
    ensures v == v / b * b + v % b && v % b < b && (v > 0 && v / b == 0 ==> v % b > 0)
  {
  }

  function Lead(s: seq<nat>): (n: nat)
    ensures n <= |s|
    ensures forall i :: 0 <= i < n ==> s[i] == 0
    ensures n < |s| ==> s[n] != 0
  {
    if s == [] || s[0] != 0 then 0 else 1 + Lead(s[1..])
  }

  lemma {:induction false} LeadUnique(s: seq<nat>, n: nat)
    requires n <= |s| && (forall i :: 0 <= i < n ==> s[i] == 0) && (n < |s| ==> s[n] != 0)
    ensures Lead(s) == n
  {
    if n > 0 {
      LeadUnique(s[1..], n - 1);
    }
  }

  /** Digits without their leading zeros are the canonical digits of their number. */
  lemma {:induction false} CanonicalIs(b: nat, s: seq<nat>)
    requires b > 1 && Digits(b, s)
    ensures FromNum(b, Num(b, s)) == s[Lead(s)..]
    decreases |s|
  {
    hide Num, FromNum, Lead;
    FromNumZero(b);
    if Lead(s) == |s| {
      NumZeros(b, s);
    } else {
      var front, x := s[..|s| - 1], s[|s| - 1];
      CanonicalIs(b, front);
      NumLast(b, s);
      PositiveNum(b, s);
      DivisionIs(Num(b, s), b, Num(b, front), x);
      FromNumLast(b, Num(b, s));
      LeadOfFront(s);
      assert s[Lead(s)..] == front[Lead(front)..] + [x];
    }
  }

  lemma {:induction false} NumLast(b: nat, s: seq<nat>)
    requires s != []
    ensures Num(b, s) == Num(b, s[..|s| - 1]) * b + s[|s| - 1]
  {
  }

  lemma {:induction false} FromNumLast(b: nat, v: nat)
    requires b > 1 && v > 0
    ensures FromNum(b, v) == FromNum(b, v / b) + [v % b]
  {
  }

  lemma {:induction false} LeadOfFront(s: seq<nat>)
    requires Lead(s) < |s|
    ensures Lead(s[..|s| - 1]) == Lead(s)
  {
    LeadUnique(s[..|s| - 1], Lead(s));
  }

  lemma {:induction false} PositiveNum(b: nat, s: seq<nat>)
    requires b > 1 && Digits(b, s) && Lead(s) < |s|
    ensures Num(b, s) > 0
    decreases |s|
  {
    if Lead(s) < |s| - 1 {
      var front := s[..|s| - 1];
      LeadUnique(front, Lead(s));
      PositiveNum(b, front);
      Monotone(1, Num(b, front), b);
    }
  }

  // ---------------------------------------------------------------- change of base

  /** The same number in base `c`, with as many leading zeros. */
  function Rebase(b: nat, c: nat, s: seq<nat>): seq<nat>
    requires c > 1
  {
    Zeros(Lead(s)) + FromNum(c, Num(b, s))
  }

  /** Changing the base and changing it back gives the same digits. */
  lemma {:induction false} RebaseInverts(b: nat, c: nat, s: seq<nat>)
    requires b > 1 && c > 1 && Digits(b, s)
    ensures Digits(c, Rebase(b, c, s)) && Rebase(c, b, Rebase(b, c, s)) == s
    ensures Lead(Rebase(b, c, s)) == Lead(s)
  {
    hide Num, FromNum;
    var n, v := Lead(s), Num(b, s);
    var z, t := Zeros(n), FromNum(c, v);
    FromNumIs(c, v);
    CanonicalIs(b, s);
    NumConcat(c, z, t);
    NumZeros(c, z);
    if n < |s| {
      PositiveNum(b, s);
      assert (z + t)[n] == t[0];
    } else {
      NumZeros(b, s);
      FromNumZero(c);
    }
    LeadUnique(z + t, n);
    assert s == z + s[n..];
  }

  lemma {:induction false} FromNumZero(b: nat)
    requires b > 1
    ensures FromNum(b, 0) == []
  {
  }

  // ---------------------------------------------------------------- one digit more

  /** One step of multiplying digits in place by `m`, from the last digit to the first. */
  lemma {:induction false} ColumnStep(b: nat, m: nat, r: seq<nat>, x: seq<nat>, d: nat, y: nat, carry: nat, next: nat,
      c: nat)
    requires |r| == |x|
    requires Num(b, r) + carry * Pow(b, |r|) == Num(b, x) * m + c
    requires d + b * next == carry + m * y
    ensures Num(b, [d] + r) + next * Pow(b, |r| + 1) == Num(b, [y] + x) * m + c
  {
    hide Num, Pow;
    NumPrepend(b, d, r);
    NumPrepend(b, y, x);
    PowNext(b, |r|);
    ColumnEquation(b, m, Num(b, r), Num(b, x), Pow(b, |r|), d, y, carry, next, c);
  }

  lemma ColumnEquation(b: nat, m: nat, r: nat, x: nat, p: nat, d: nat, y: nat, carry: nat, next: nat, c: nat)
    requires r + carry * p == x * m + c
    requires d + b * next == carry + m * y
    ensures d * p + r + next * (b * p) == (y * p + x) * m + c
  {
    Associate(next, b, p);
    Distribute(p, d, b * next);
    Distribute(p, carry, m * y);
    Distribute(m, y * p, x);
    Associate(m, y, p);
  }

  // ---------------------------------------------------------------- buffer sizes

  lemma {:induction false} PowOfPow(b: nat, m: nat, n: nat)
    ensures Pow(Pow(b, m), n) == Pow(b, m * n)
  {
    if n > 0 {
      PowOfPow(b, m, n - 1);
      PowAdd(b, m, m * (n - 1));
      Distribute(m, n - 1, 1);
    }
  }

  lemma {:induction false} PowOfLarger(x: nat, y: nat, n: nat)
    requires x <= y
    ensures Pow(x, n) <= Pow(y, n)
  {
    if n > 0 {
      PowOfLarger(x, y, n - 1);
      Monotone(Pow(x, n - 1), Pow(y, n - 1), x);
      Monotone(x, y, Pow(y, n - 1));
    }
  }

  lemma {:induction false} PowOfStrictlyLarger(x: nat, y: nat, n: nat)
    requires 0 < x < y && n > 0
    ensures Pow(x, n) < Pow(y, n)
  {
    PowOfLarger(x, y, n - 1);
    PowPositive(x, n - 1);
    PowPositive(y, n - 1);
    Monotone(Pow(x, n - 1), Pow(y, n - 1), x);
    Monotone(x + 1, y, Pow(y, n - 1));
    Distribute(Pow(y, n - 1), x, 1);
  }

  lemma {:induction false} PowSwap(a: nat, n: nat, u: nat)
    ensures Pow(Pow(a, n), u) == Pow(Pow(a, u), n)
  {
    hide Pow;
    PowOfPow(a, n, u);
    PowOfPow(a, u, n);
    assert n * u == u * n;
  }

  lemma {:induction false} RatePowers(a: nat, b: nat, u: nat, w: nat, n: nat, e: nat)
    requires a > 0 && b > 0 && Pow(a, u) <= Pow(b, w) && e >= w * n
    ensures Pow(Pow(a, n), u) <= Pow(b, e)
  {
    hide Pow;
    PowSwap(a, n, u);
    PowOfLarger(Pow(a, u), Pow(b, w), n);
    PowOfPow(b, w, n);
    PowMonotone(b, w * n, e);
  }

  /** If `a^u <= b^w` then `a^n <= b^k` whenever `k * u >= w * n`. */
  lemma {:induction false} RateSuffices(a: nat, b: nat, u: nat, w: nat, n: nat, k: nat)
    requires a > 0 && b > 0 && u > 0 && Pow(a, u) <= Pow(b, w) && k * u >= w * n
    ensures Pow(a, n) <= Pow(b, k)
  {
    hide Pow;
    RatePowers(a, b, u, w, n, k * u);
    PowOfPow(b, k, u);
    PowPositive(b, k);
    if Pow(a, n) > Pow(b, k) {
      PowOfStrictlyLarger(Pow(b, k), Pow(a, n), u);
    }
  }

  lemma Rate58()
    ensures Pow(256, 8) <= Pow(58, 11)
  {
    hide Pow;
    SmallPowers();
    PowAdd(256, 4, 4);
    PowAdd(58, 8, 2);
    PowAdd(58, 10, 1);
  }

  lemma SmallPowers()
    ensures Pow(58, 1) == 58 && Pow(58, 2) == 3364 && Pow(58, 4) == 11316496 && Pow(58, 8) == 0x7479027ea100
    ensures Pow(256, 4) == 0x1_0000_0000
  {
    assert Pow(58, 1) == 58;
    PowAdd(58, 1, 1);
    PowAdd(58, 2, 2);
    PowAdd(58, 4, 4);
    assert Pow(256, 1) == 256;
    PowAdd(256, 1, 1);
    PowAdd(256, 2, 2);
  }

  lemma Rate256()
    ensures Pow(58, 71) <= Pow(256, 52)
  {
    hide Pow;
    SmallPowers();
    PowAdd(58, 8, 8);
    PowAdd(58, 16, 16);
    PowAdd(58, 32, 32);
    PowAdd(58, 64, 4);
    PowAdd(58, 68, 2);
    PowAdd(58, 70, 1);
    PowAdd(256, 4, 4);
    PowAdd(256, 8, 8);
    PowAdd(256, 16, 16);
    PowAdd(256, 32, 16);
    PowAdd(256, 48, 4);
    assert Pow(58, 16) == 0x34fde3761da26b26e1410000;
    assert Pow(58, 32) == 0xaf820335d9b3d9cf58b911d87035677fb7f528100000000;
    assert Pow(58, 64) == 0x7853026ae25f4ce0c69893e6f1f86f67aef4db69563516064adeb967a9d66f4fe64b09ec94e5010000000000000000;
    assert Pow(58, 71) == 0xf1a10f76073f997e1af0b37f5c795ecf145633452837a5de3fa17ac74b86f60a0ebe5446f358940a4ca12a800000000000000000;
    assert Pow(256, 16) == 0x100000000000000000000000000000000;
    assert Pow(256, 32) == 0x10000000000000000000000000000000000000000000000000000000000000000;
    assert Pow(256, 52) == 0x100000000000000000000000000000000000000000000000000000000000000000000000000000000000000000000000000000000;
  }

  /** The 138/100 buffer holds every number of `n` bytes in base 58. */
  lemma {:induction false} EncodeBuffer(n: nat)
    ensures Pow(256, n) <= Pow(58, n * 138 / 100 + 1)
  {
    hide Pow;
    Rate58();
    RateSuffices(256, 58, 8, 11, n, n * 138 / 100 + 1);
  }

  /** The 733/1000 buffer holds every number of `n` base 58 digits in bytes. */
  lemma DecodeBuffer(n: nat, len: nat)
    requires n <= len
    ensures Pow(58, n) <= Pow(256, len * 733 / 1000 + 1)
  {
    hide Pow;
    Rate256();
    RateSuffices(58, 256, 71, 52, n, len * 733 / 1000 + 1);
  }
}
