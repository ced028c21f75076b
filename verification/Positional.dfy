/** Numbers as little-endian digit sequences in some base. */
module Positional {

  function Pow(b: nat, n: nat): nat {
    if n == 0 then 1 else b * Pow(b, n - 1)
  }

  function Pow2(n: nat): (p: nat)
    ensures p > 0
  {
    PowPositive(2, n);
    Pow(2, n)
  }

  predicate BitOn(x: nat, n: nat) {
    x / Pow2(n) % 2 == 1
  }

  predicate Digits(b: nat, s: seq<nat>) {
    forall i :: 0 <= i < |s| ==> s[i] < b
  }

  /** The number that the digits stand for, least significant first. */
  function Val(b: nat, s: seq<nat>): nat {
    if s == [] then 0 else s[0] + b * Val(b, s[1..])
  }

  // ---------------------------------------------------------------- arithmetic

  lemma Distribute(a: int, b: int, c: int)
    ensures a * (b + c) == a * b + a * c
    ensures (b + c) * a == b * a + c * a
  {
  }

  lemma Associate(a: int, b: int, c: int)
    ensures a * (b * c) == (a * b) * c
  {
  }

  lemma Swap(a: nat, b: nat, c: nat)
    ensures a * (b * c) == b * (a * c)
  {
    Associate(a, b, c);
    Associate(b, a, c);
  }

  lemma Monotone(a: nat, b: nat, c: nat)
    requires a <= b
    ensures a * c <= b * c && c * a <= c * b
  {
  }

  lemma {:induction false} PowPositive(b: nat, n: nat)
    requires b > 0
    ensures Pow(b, n) > 0
  {
    if n > 0 {
      PowPositive(b, n - 1);
    }
  }

  lemma PowNext(b: nat, n: nat)
    ensures Pow(b, 0) == 1 && Pow(b, n + 1) == b * Pow(b, n)
  {
  }

  lemma {:induction false} PowAdd(b: nat, m: nat, n: nat)
    ensures Pow(b, m + n) == Pow(b, m) * Pow(b, n)
  {
    if m > 0 {
      PowAdd(b, m - 1, n);
      Associate(b, Pow(b, m - 1), Pow(b, n));
    }
  }

  lemma {:induction false} PowMonotone(b: nat, m: nat, n: nat)
    requires b > 0 && m <= n
    ensures Pow(b, m) <= Pow(b, n)
  {
    PowAdd(b, m, n - m);
    PowPositive(b, n - m);
    Monotone(1, Pow(b, n - m), Pow(b, m));
  }

  /** The quotient and remainder that satisfy the division equation are the ones division gives. */
  lemma DivisionIs(v: nat, d: nat, q: nat, r: nat)
    requires r < d && v == q * d + r
    ensures v / d == q && v % d == r
  {
    var q1, r1 := v / d, v % d;
    if q1 < q {
      Distribute(d, q - q1 - 1, 1);
      Distribute(d, q1, q - q1);
      Monotone(1, q - q1, d);
    } else if q1 > q {
      Distribute(d, q, q1 - q);
      Monotone(1, q1 - q, d);
    }
  }

  lemma DivideTwice(v: nat, a: nat, b: nat)
    requires a > 0 && b > 0
    ensures a * b > 0 && v / a / b == v / (a * b)
  {
    var q, r := v / a, v % a;
    var q1, r1 := q / b, q % b;
    Monotone(1, b, a);
    TwoRemainders(v, a, b, q, r, q1, r1);
    DivisionIs(v, a * b, q1, a * r1 + r);
  }

  lemma TwoRemainders(v: nat, a: nat, b: nat, q: nat, r: nat, q1: nat, r1: nat)
    requires v == a * q + r && r < a && q == b * q1 + r1 && r1 < b
    ensures v == q1 * (a * b) + (a * r1 + r) && a * r1 + r < a * b
  {
    Distribute(a, b * q1, r1);
    Associate(a, b, q1);
    Monotone(r1 + 1, b, a);
    Distribute(a, r1, 1);
  }

  // ---------------------------------------------------------------- value of digits

  lemma {:induction false} ValConcat(b: nat, s: seq<nat>, t: seq<nat>)
    ensures Val(b, s + t) == Val(b, s) + Pow(b, |s|) * Val(b, t)
  {
    if s == [] {
      assert s + t == t;
    } else {
      ValConcat(b, s[1..], t);
      assert (s + t)[1..] == s[1..] + t;
      var p := Pow(b, |s| - 1);
      Distribute(b, Val(b, s[1..]), p * Val(b, t));
      Associate(b, p, Val(b, t));
    }
  }

  lemma {:induction false} ValAppend(b: nat, s: seq<nat>, x: nat)
    ensures Val(b, s + [x]) == Val(b, s) + Pow(b, |s|) * x
  {
    ValConcat(b, s, [x]);
    assert Val(b, [x]) == x + b * Val(b, []);
  }

  lemma {:induction false} ValBound(b: nat, s: seq<nat>)
    requires Digits(b, s) && b > 0
    ensures Val(b, s) < Pow(b, |s|)
  {
    if s != [] {
      ValBound(b, s[1..]);
      Monotone(Val(b, s[1..]) + 1, Pow(b, |s| - 1), b);
      Distribute(b, Val(b, s[1..]), 1);
    }
  }

  /** Equally many digits stand for the same number only when they are the same digits. */
  lemma {:induction false} ValInjective(b: nat, s: seq<nat>, t: seq<nat>)
    requires Digits(b, s) && Digits(b, t) && |s| == |t|
    requires Val(b, s) == Val(b, t)
    ensures s == t
  {
    if s != [] {
      DivisionIs(Val(b, s), b, Val(b, s[1..]), s[0]);
      DivisionIs(Val(b, s), b, Val(b, t[1..]), t[0]);
      ValInjective(b, s[1..], t[1..]);
      assert s == [s[0]] + s[1..] && t == [t[0]] + t[1..];
    }
  }

  lemma {:induction false} ValZeros(b: nat, s: seq<nat>)
    requires forall i :: 0 <= i < |s| ==> s[i] == 0
    ensures Val(b, s) == 0
  {
    if s != [] {
      ValZeros(b, s[1..]);
    }
  }

  /** One column of any digit-by-digit sum: digit `d` is kept and `next` carried. */
  lemma {:induction false} CarryStep(b: nat, r: seq<nat>, carry: nat, u: nat, d: nat, next: nat, sum: nat)
    requires Val(b, r) + Pow(b, |r|) * carry == sum
    requires d + b * next == carry + u
    ensures Val(b, r + [d]) + Pow(b, |r| + 1) * next == sum + Pow(b, |r|) * u
  {
    var p := Pow(b, |r|);
    ValAppend(b, r, d);
    Associate(p, b, next);
    Distribute(p, d, b * next);
    Distribute(p, carry, u);
    assert Pow(b, |r| + 1) == b * p;
  }
}
