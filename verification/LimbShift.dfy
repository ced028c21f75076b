/** Shifting a number held in 32-bit limbs, limb by limb, against multiplying and dividing by a power of two. */
module LimbShift {
  import opened Positional

  const BASE: nat := 0x1_0000_0000
  const WIDTH: nat := 8

  /** The modulus of 256-bit arithmetic. */
  function Modulus(): nat {
    Pow(BASE, WIDTH)
  }

  // ---------------------------------------------------------------- bitwise or

  function Or(x: nat, y: nat): nat {
    if x == 0 then y
    else if y == 0 then x
    else 2 * Or(x / 2, y / 2) + if x % 2 == 1 || y % 2 == 1 then 1 else 0
  }

  /** Where no bit is set in both, or is addition. */
  lemma {:induction false} OrDisjoint(q: nat, y: nat, s: nat)
    requires y < Pow2(s)
    ensures Or(q * Pow2(s), y) == Or(y, q * Pow2(s)) == q * Pow2(s) + y
    decreases s
  {
    OrCommutes(q * Pow2(s), y);
    if s > 0 {
      var h := Pow2(s - 1);
      assert q * Pow2(s) == 2 * (q * h) by {
        Associate(q, 2, h);
        Associate(2, q, h);
      }
      OrDisjoint(q, y / 2, s - 1);
      OrHalves(q * h, y);
    }
  }

  lemma {:induction false} OrHalves(x: nat, y: nat)
    ensures Or(2 * x, y) == 2 * Or(x, y / 2) + y % 2
  {
    hide Or;
    var d := 2 * x;
    assert d / 2 == x && d % 2 == 0;
    OrUnfolds(d, y);
    if x == 0 {
      OrZero(y / 2);
      assert y == 2 * (y / 2) + y % 2;
    } else if y == 0 {
      OrZero(x);
    } else {
      assert Or(d / 2, y / 2) == Or(x, y / 2);
      assert Or(d, y) == 2 * Or(x, y / 2) + y % 2;
    }
  }

  lemma {:induction false} OrCommutes(x: nat, y: nat)
    ensures Or(x, y) == Or(y, x)
    decreases x
  {
    if x > 0 && y > 0 {
      OrCommutes(x / 2, y / 2);
    }
  }

  lemma {:induction false} OrZero(x: nat)
    ensures Or(x, 0) == Or(0, x) == x
  {
  }

  lemma {:induction false} OrUnfolds(x: nat, y: nat)
    ensures x > 0 && y > 0 ==> Or(x, y) == 2 * Or(x / 2, y / 2) + if x % 2 == 1 || y % 2 == 1 then 1 else 0
    ensures x == 0 ==> Or(x, y) == y
    ensures y == 0 ==> Or(x, y) == x
  {
  }

  // ---------------------------------------------------------------- one limb

  function LowPart(x: nat, s: nat): nat {
    (x * Pow2(s)) % BASE
  }

  function HighPart(x: nat, s: nat): nat
    requires s < 32
  {
    if s == 0 then 0 else x / Pow2(32 - s)
  }

  lemma Pow2Of32(s: nat)
    requires s <= 32
    ensures Pow2(s) * Pow2(32 - s) == BASE
  {
    PowAdd(2, s, 32 - s);
    Pow2Is32();
  }

  lemma Pow2Is32()
    ensures Pow2(32) == BASE
  {
    assert Pow2(8) == 0x100;
    PowAdd(2, 8, 8);
    PowAdd(2, 16, 16);
  }

  lemma NoShift()
    ensures Pow2(0) == 1
  {
  }

  /** Shifted left by `s`, a limb splits into a high part below `Pow2(s)` and a low part that is a multiple of it. */
  lemma {:induction false} Split(x: nat, s: nat) returns (q: nat)
    requires s < 32 && x < BASE
    ensures LowPart(x, s) + BASE * HighPart(x, s) == Pow2(s) * x
    ensures LowPart(x, s) == q * Pow2(s) < BASE
    ensures HighPart(x, s) < Pow2(s)
  {
    hide Pow2;
    var p := Pow2(s);
    if s == 0 {
      q := x;
      NoShift();
      return;
    }
    var r := Pow2(32 - s);
    Pow2Of32(s);
    var hi := x / r;
    q := x % r;
    SplitValue(x, p, r, hi, q);
    DivisionIs(x * p, BASE, hi, q * p);
  }

  lemma SplitValue(x: nat, p: nat, r: nat, hi: nat, q: nat)
    requires p > 0 && r > 0 && x == hi * r + q && q < r && x < p * r
    ensures x * p == hi * (p * r) + q * p && q * p < p * r && hi < p
  {
    Distribute(p, hi * r, q);
    Associate(hi, r, p);
    Monotone(q + 1, r, p);
    Distribute(p, q, 1);
    if hi >= p {
      Monotone(p, hi, r);
    }
  }

  // ---------------------------------------------------------------- left shift

  /** The limb at `j` of a left shift by `k` limbs and `s` bits. */
  function ShlLimb(a: seq<nat>, k: nat, s: nat, j: nat): nat
    requires s < 32 && j < |a|
  {
    if j < k then 0 else LowPart(a[j - k], s) + CarryIn(a, s, j - k)
  }

  function CarryIn(a: seq<nat>, s: nat, j: nat): nat
    requires s < 32 && j <= |a|
  {
    if j > 0 then HighPart(a[j - 1], s) else 0
  }

  /** The two parts of a limb of a left shift occupy different bits. */
  lemma {:induction false} ShlLimbIsOr(a: seq<nat>, s: nat, j: nat)
    requires Digits(BASE, a) && s < 32 && j < |a|
    ensures Or(CarryIn(a, s, j), LowPart(a[j], s)) == LowPart(a[j], s) + CarryIn(a, s, j) < BASE
  {
    var q := Split(a[j], s);
    if j > 0 {
      var q1 := Split(a[j - 1], s);
    }
    OrDisjoint(q, CarryIn(a, s, j), s);
    Pow2Of32(s);
    MultipleBelow(q, Pow2(s), Pow2(32 - s), CarryIn(a, s, j));
  }

  /** A multiple of `p` below `p * r` stays below it with anything less than `p` added. */
  lemma MultipleBelow(q: nat, p: nat, r: nat, y: nat)
    requires q * p < p * r && y < p
    ensures q * p + y < p * r
  {
    if q >= r {
      Monotone(r, q, p);
    }
    Monotone(q + 1, r, p);
    Distribute(p, q, 1);
  }

  /** Without the limb offset, the limbs up to `n` and the carry out of them hold the product with `Pow2(s)`. */
  lemma {:induction false} ShlPrefix(a: seq<nat>, t: seq<nat>, s: nat, n: nat)
    requires Digits(BASE, a) && s < 32 && n <= |a| && n <= |t|
    requires forall j :: 0 <= j < n ==> t[j] == ShlLimb(a, 0, s, j)
    ensures Val(BASE, t[..n]) + Pow(BASE, n) * CarryIn(a, s, n) == Pow2(s) * Val(BASE, a[..n])
  {
    hide LowPart, HighPart;
    if n > 0 {
      var m, p := n - 1, Pow2(s);
      ShlPrefix(a, t, s, m);
      var q := Split(a[m], s);
      assert t[m] == ShlLimb(a, 0, s, m);
      CarryStep(BASE, t[..m], CarryIn(a, s, m), p * a[m], t[m], HighPart(a[m], s), p * Val(BASE, a[..m]));
      assert t[..n] == t[..m] + [t[m]];
      assert a[..n] == a[..m] + [a[m]];
      ValAppend(BASE, a[..m], a[m]);
      Distribute(p, Val(BASE, a[..m]), Pow(BASE, m) * a[m]);
      Swap(p, Pow(BASE, m), a[m]);
    }
  }

  lemma {:induction false} Pow2Limbs(k: nat)
    ensures Pow2(32 * k) == Pow(BASE, k)
  {
    if k > 0 {
      Pow2Limbs(k - 1);
      PowAdd(2, 32, 32 * (k - 1));
      Pow2Is32();
    }
  }

  lemma {:induction false} Pow2Shift(k: nat, s: nat)
    ensures Pow2(32 * k + s) == Pow2(s) * Pow(BASE, k)
  {
    Pow2Limbs(k);
    PowAdd(2, 32 * k, s);
  }

  /** The limbs of a left shift hold the product with the power of two, modulo the modulus. */
  lemma {:induction false} ShlValue(a: seq<nat>, r: seq<nat>, k: nat, s: nat)
    requires Digits(BASE, a) && |a| == |r| == WIDTH && s < 32
    requires forall j :: 0 <= j < WIDTH ==> r[j] == ShlLimb(a, k, s, j)
    ensures Digits(BASE, r)
    ensures Val(BASE, r) == (Val(BASE, a) * Pow2(32 * k + s)) % Modulus()
  {
    hide LowPart, CarryIn, Val, Pow;
    PowPositive(BASE, WIDTH);
    Pow2Shift(k, s);
    forall j | 0 <= j < WIDTH
      ensures r[j] < BASE
    {
      if j >= k {
        ShlLimbIsOr(a, s, j - k);
      }
    }
    ValBound(BASE, r);
    if k >= WIDTH {
      ValZeros(BASE, r);
      PowAdd(BASE, WIDTH, k - WIDTH);
      MultipleOf(Val(BASE, a), Pow2(s), Modulus(), Pow(BASE, k - WIDTH));
    } else {
      var n := WIDTH - k;
      var t, p := r[k..], Pow2(s);
      ShlPrefix(a, t, s, n);
      assert t[..n] == t;
      ValZeros(BASE, r[..k]);
      ValConcat(BASE, r[..k], t);
      assert r[..k] + t == r;
      ValConcat(BASE, a[..n], a[n..]);
      assert a[..n] + a[n..] == a;
      PowAdd(BASE, k, n);
      ShlEquation(Val(BASE, t), Pow(BASE, n), CarryIn(a, s, n), p, Val(BASE, a[..n]), Val(BASE, a[n..]), Pow(BASE, k));
      DivisionIs(Val(BASE, a) * Pow2(32 * k + s), Modulus(), CarryIn(a, s, n) + p * Val(BASE, a[n..]), Val(BASE, r));
    }
  }

  lemma MultipleOf(v: nat, p: nat, m: nat, e: nat)
    requires m > 0
    ensures (v * (p * (m * e))) % m == 0
  {
    var q := v * (p * e);
    calc {
      v * (p * (m * e));
      { Swap(p, m, e); }
      v * (m * (p * e));
      { Swap(v, m, p * e); }
      m * q;
    }
    DivisionIs(m * q, m, q, 0);
  }

  lemma ShlEquation(t: nat, pn: nat, c: nat, p: nat, lo: nat, hi: nat, pk: nat)
    requires t + pn * c == p * lo
    ensures (lo + pn * hi) * (p * pk) == (c + p * hi) * (pk * pn) + pk * t
  {
    calc {
      (lo + pn * hi) * (p * pk);
      { Distribute(p * pk, lo, pn * hi); }
      lo * (p * pk) + (pn * hi) * (p * pk);
      { Associate(lo, p, pk); Product(pn, hi, p, pk); }
      (p * lo) * pk + (p * hi) * (pk * pn);
      { Distribute(pk, t, pn * c); Product(pn, c, 1, pk); }
      t * pk + c * (pk * pn) + (p * hi) * (pk * pn);
      { Distribute(pk * pn, c, p * hi); }
      pk * t + (c + p * hi) * (pk * pn);
    }
  }

  lemma Product(a: nat, b: nat, c: nat, d: nat)
    ensures (a * b) * (c * d) == (c * b) * (d * a)
  {
    Associate(a * b, c, d);
    Associate(c * b, d, a);
    Associate(c, a, b);
    Associate(c * b, a, d);
    Associate(c, b, a);
  }

  // ---------------------------------------------------------------- right shift

  /** The limb at `j` of a right shift by `k` limbs and `s` bits. */
  function ShrLimb(a: seq<nat>, k: nat, s: nat, j: nat): nat
    requires s < 32
  {
    if j + k >= |a| then 0 else ShiftedDown(a[j + k], s) + FromAbove(a, s, j + k)
  }

  function ShiftedDown(x: nat, s: nat): nat {
    x / Pow2(s)
  }

  function FromAbove(a: seq<nat>, s: nat, j: nat): nat
    requires s < 32
  {
    if s != 0 && j + 1 < |a| then LowPart(a[j + 1], 32 - s) else 0
  }

  /** The bits of `x` below `s`. */
  function LowBits(x: nat, s: nat): nat {
    x % Pow2(s)
  }

  lemma MovedUp(x: nat, s: nat)
    requires 0 < s < 32
    ensures LowPart(x, 32 - s) == LowBits(x, s) * Pow2(32 - s) < BASE
    ensures Pow2(s) * LowPart(x, 32 - s) == BASE * LowBits(x, s)
  {
    var p, r := Pow2(s), Pow2(32 - s);
    Pow2Of32(s);
    var q, m := x / p, x % p;
    MovedUpEquation(x, p, r, q, m);
    DivisionIs(x * r, BASE, q, m * r);
    Swap(p, m, r);
  }

  lemma MovedUpEquation(x: nat, p: nat, r: nat, q: nat, m: nat)
    requires x == p * q + m && m < p && r > 0
    ensures x * r == q * (p * r) + m * r && m * r < p * r
  {
    Distribute(r, p * q, m);
    Associate(q, p, r);
    Monotone(m + 1, p, r);
    Distribute(r, m, 1);
  }

  lemma {:induction false} ShrLimbIsOr(a: seq<nat>, s: nat, j: nat)
    requires Digits(BASE, a) && s < 32 && j < |a|
    ensures Or(ShiftedDown(a[j], s), FromAbove(a, s, j)) == ShiftedDown(a[j], s) + FromAbove(a, s, j) < BASE
  {
    hide Or, Pow2, LowPart, LowBits, ShiftedDown;
    Pow2Of32(s);
    var r := Pow2(32 - s);
    ShiftedBelow(a[j], s);
    if s != 0 && j + 1 < |a| {
      MovedUp(a[j + 1], s);
      OrDisjoint(LowBits(a[j + 1], s), ShiftedDown(a[j], s), 32 - s);
      MultipleBelow(LowBits(a[j + 1], s), r, Pow2(s), ShiftedDown(a[j], s));
    } else {
      OrZero(ShiftedDown(a[j], s));
    }
  }

  lemma ShiftedBelow(x: nat, s: nat)
    requires s < 32 && x < BASE
    ensures ShiftedDown(x, s) < Pow2(32 - s) && ShiftedDown(x, s) < BASE
  {
    hide Pow2;
    Pow2Of32(s);
    ShrinksBelow(x, Pow2(s), Pow2(32 - s));
    Monotone(1, Pow2(s), Pow2(32 - s));
  }

  lemma ShrinksBelow(x: nat, p: nat, r: nat)
    requires p > 0 && x < p * r
    ensures x / p < r
  {
    if x / p >= r {
      Monotone(r, x / p, p);
    }
  }

  /** The limbs of a right shift by `s` bits and the bits shifted out hold the number. */
  lemma {:induction false} ShrTail(b: seq<nat>, r: seq<nat>, s: nat)
    requires Digits(BASE, b) && s < 32 && |b| == |r|
    requires forall j :: 0 <= j < |b| ==> r[j] == ShrLimb(b, 0, s, j)
    ensures Pow2(s) * Val(BASE, r) + (if b == [] then 0 else LowBits(b[0], s)) == Val(BASE, b)
  {
    hide LowPart, LowBits, ShiftedDown;
    if b != [] {
      forall j | 0 <= j < |b| - 1
        ensures r[1..][j] == ShrLimb(b[1..], 0, s, j)
      {
        assert r[j + 1] == ShrLimb(b, 0, s, j + 1);
      }
      ShrTail(b[1..], r[1..], s);
      assert r[0] == ShrLimb(b, 0, s, 0);
      var p, rest := Pow2(s), Val(BASE, r[1..]);
      DownAndLow(b[0], s);
      if |b| > 1 {
        if s > 0 {
          MovedUp(b[1], s);
        } else {
          LowBitsOfNone(b[1]);
        }
      }
      ShrEquation(p, ShiftedDown(b[0], s), FromAbove(b, s, 0), rest, if |b| > 1 then LowBits(b[1], s) else 0);
    }
  }

  lemma DownAndLow(x: nat, s: nat)
    ensures Pow2(s) * ShiftedDown(x, s) + LowBits(x, s) == x && LowBits(x, s) < Pow2(s)
  {
  }

  lemma LowBitsOfNone(x: nat)
    ensures LowBits(x, 0) == 0
  {
    assert Pow2(0) == 1;
  }

  lemma ShrEquation(p: nat, down: nat, up: nat, rest: nat, low: nat)
    requires p * up == BASE * low
    ensures p * (down + up + BASE * rest) == p * down + BASE * (p * rest + low)
  {
    Distribute(p, down + up, BASE * rest);
    Distribute(p, down, up);
    Swap(p, BASE, rest);
    Distribute(BASE, p * rest, low);
  }

  /** The limbs of a right shift hold the quotient by the power of two. */
  lemma {:induction false} ShrValue(a: seq<nat>, r: seq<nat>, k: nat, s: nat)
    requires Digits(BASE, a) && |a| == |r| == WIDTH && s < 32
    requires forall j :: 0 <= j < WIDTH ==> r[j] == ShrLimb(a, k, s, j)
    ensures Digits(BASE, r)
    ensures Pow2(32 * k + s) > 0 && Val(BASE, r) == Val(BASE, a) / Pow2(32 * k + s)
  {
    hide LowPart, LowBits, ShiftedDown, FromAbove, Val, Pow;
    Pow2Shift(k, s);
    forall j | 0 <= j < WIDTH
      ensures r[j] < BASE
    {
      if j + k < WIDTH {
        ShrLimbIsOr(a, s, j + k);
      }
    }
    if k >= WIDTH {
      ValZeros(BASE, r);
      ValBound(BASE, a);
      PowMonotone(BASE, WIDTH, k);
      Monotone(1, Pow2(s), Pow(BASE, k));
      DivisionIs(Val(BASE, a), Pow2(32 * k + s), 0, Val(BASE, a));
    } else {
      var n := WIDTH - k;
      var b := a[k..];
      assert Digits(BASE, a[..k]) && Digits(BASE, b);
      forall j | 0 <= j < n
        ensures r[..n][j] == ShrLimb(b, 0, s, j)
      {
        FromAboveShifts(a, k, s, j);
      }
      ShrTail(b, r[..n], s);
      DownAndLow(b[0], s);
      ValZeros(BASE, r[n..]);
      ValConcat(BASE, r[..n], r[n..]);
      assert r[..n] + r[n..] == r;
      ValConcat(BASE, a[..k], b);
      assert a[..k] + b == a;
      ValBound(BASE, a[..k]);
      ShrQuotient(Val(BASE, a), Val(BASE, a[..k]), Pow(BASE, k), Pow2(s), Val(BASE, r), LowBits(b[0], s));
    }
  }

  lemma FromAboveShifts(a: seq<nat>, k: nat, s: nat, j: nat)
    requires s < 32 && k + j < |a|
    ensures FromAbove(a, s, j + k) == FromAbove(a[k..], s, j)
  {
  }

  lemma ShrQuotient(v: nat, low: nat, pk: nat, p: nat, r: nat, m: nat)
    requires low < pk && m < p && p * pk > 0
    requires v == low + pk * (p * r + m)
    ensures v / (p * pk) == r
  {
    Distribute(pk, p * r, m);
    Swap(pk, p, r);
    Associate(p, pk, r);
    Monotone(m + 1, p, pk);
    Distribute(pk, m, 1);
    DivisionIs(v, p * pk, r, low + pk * m);
  }
}
