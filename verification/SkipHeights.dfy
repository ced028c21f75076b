/**
 The heights that skip pointers lead to, and how many blocks a walk back by parents and skips
 visits: no more than the square of the number of binary digits of the height, and little more.
 */
module SkipHeights {
  import opened Positional

  /** The bitwise conjunction of `n` and `n - 1`: the lowest set bit of `n` is cleared. */
  function InvertLowestOne(n: nat): nat {
    if n == 0 then 0 else if n % 2 == 1 then n - 1 else 2 * InvertLowestOne(n / 2)
  }

  /** The cleared bit `k` is the lowest one: `n` is an odd multiple of `Pow2(k)`. */
  lemma {:induction false} InvertedMeaning(n: nat) returns (k: nat, q: nat)
    requires n > 0
    ensures n == (2 * q + 1) * Pow2(k)
    ensures InvertLowestOne(n) == (2 * q) * Pow2(k) == n - Pow2(k)
  {
    if n % 2 == 1 {
      k, q := 0, n / 2;
    } else {
      k, q := InvertedMeaning(n / 2);
      Doubling(2 * q + 1, Pow2(k));
      Doubling(2 * q, Pow2(k));
      k := k + 1;
    }
  }

  lemma Doubling(a: nat, p: nat)
    ensures 2 * (a * p) == a * (2 * p)
  {
  }

  lemma {:induction false} InvertedIsBelow(n: nat)
    ensures if n > 0 then InvertLowestOne(n) < n else InvertLowestOne(n) == 0
  {
    if n > 0 && n % 2 == 0 {
      InvertedIsBelow(n / 2);
    }
  }

  function SkipHeight(height: int): (skip: int)
    ensures height > 0 ==> 0 <= skip < height
    ensures height <= 0 ==> skip == 0
  {
    if height < 2 then 0
    else if height % 2 == 1 then
      InvertedIsBelow(height - 1);
      InvertedIsBelow(InvertLowestOne(height - 1));
      InvertLowestOne(InvertLowestOne(height - 1)) + 1
    else
      InvertedIsBelow(height);
      InvertLowestOne(height)
  }

  /** An even height skips by its lowest set bit, to the height without it. */
  lemma {:induction false} EvenSkip(h: nat) returns (k: nat, q: nat)
    requires h % 2 == 0 && h > 0
    ensures k > 0 && h == (2 * q + 1) * Pow2(k) && SkipHeight(h) == h - Pow2(k)
  {
    k, q := InvertedMeaning(h);
    assert Pow2(0) == 1;
    if k == 0 {
      assert false;
    }
  }

  /** An odd height above one skips by the two lowest set bits of the height below it, or to height one. */
  lemma {:induction false} OddSkips(h: nat) returns (k: nat, q: nat, m: nat, r: nat)
    requires h % 2 == 1 && h > 1
    ensures h - 1 == (2 * q + 1) * Pow2(k)
    ensures q == 0 ==> SkipHeight(h) == 1
    ensures q > 0 ==> m > k && h - 1 - Pow2(k) == (2 * r + 1) * Pow2(m) && SkipHeight(h) == h - Pow2(k) - Pow2(m)
  {
    k, q := InvertedMeaning(h - 1);
    m, r := 0, 0;
    if q > 0 {
      Monotone(1, 2 * q, Pow2(k));
      m, r := InvertedMeaning(InvertLowestOne(h - 1));
      LaterBit(q, k, r, m);
    }
  }

  lemma LaterBit(q: nat, k: nat, r: nat, m: nat)
    requires (2 * q) * Pow2(k) == (2 * r + 1) * Pow2(m)
    ensures m > k
  {
    if m <= k {
      PowAdd(2, m, k - m);
      hide Pow2;
      var p, d := Pow2(m), Pow2(k - m);
      Swap(2 * q, p, d);
      Cancels(p, 2 * q * d, 2 * r + 1);
      Associate(2, q, d);
      assert false;
    }
  }

  lemma Cancels(p: nat, a: nat, b: nat)
    requires p > 0 && p * a == b * p
    ensures a == b
  {
    DivisionIs(p * a, p, a, 0);
    DivisionIs(p * a, p, b, 0);
  }

  // ---------------------------------------------------------------- the walk

  /** Whether the walk from `h` to `target` follows the skip; it does not where the parent's skip is better. */
  predicate Skips(h: nat, target: nat) {
    SkipHeight(h) == target ||
    (SkipHeight(h) > target && !(SkipHeight(h - 1) < SkipHeight(h) - 2 && SkipHeight(h - 1) >= target))
  }

  function NextHeight(h: nat, target: nat): (r: nat)
    requires h > target
    ensures target <= r < h
  {
    if Skips(h, target) then SkipHeight(h) else h - 1
  }

  /** The number of blocks the walk visits after the first. */
  function Steps(h: nat, target: nat): nat
    requires h >= target
    decreases h
  {
    if h == target then 0 else 1 + Steps(NextHeight(h, target), target)
  }

  lemma {:induction false} StepsNext(h: nat, target: nat)
    requires h > target
    ensures Steps(h, target) == 1 + Steps(NextHeight(h, target), target)
  {
  }

  lemma {:induction false} StepsNone(h: int)
    ensures h >= 0 ==> Steps(h, h) == 0
  {
  }

  // ---------------------------------------------------------------- how far two heights are apart

  /** The number of binary digits up to the highest one in which the two differ. */
  function Apart(h: nat, a: nat): nat
    decreases h + a
  {
    if h == a then 0 else 1 + Apart(h / 2, a / 2)
  }

  /** The ones of `h` below that digit. */
  function Ones(h: nat, a: nat): nat
    decreases h + a
  {
    if h / 2 == a / 2 then 0 else h % 2 + Ones(h / 2, a / 2)
  }

  lemma {:induction false} OnesBelow(h: nat, a: nat)
    requires h != a
    ensures Ones(h, a) < Apart(h, a)
    decreases h + a
  {
    if h / 2 != a / 2 {
      OnesBelow(h / 2, a / 2);
    }
  }

  /** A value that no step raises. */
  function Bound(h: nat, a: nat): nat {
    Apart(h, a) * Apart(h, a) + 2 * Ones(h, a)
  }

  /** Nearer by a digit, or with at least `k` ones less before it. */
  predicate Nearer(h: nat, r: nat, a: nat, k: nat) {
    r == a || Apart(r, a) < Apart(h, a) || (Apart(r, a) == Apart(h, a) && Ones(r, a) + k <= Ones(h, a))
  }

  lemma {:induction false} ApartPositive(h: nat, a: nat)
    ensures Apart(h, a) == 0 <==> h == a
    ensures h / 2 != a / 2 ==> Apart(h, a) >= 2
  {
  }

  lemma {:induction false} NearerBound(h: nat, r: nat, a: nat)
    requires h > a && Nearer(h, r, a, 1)
    ensures r == a || Bound(r, a) + 2 <= Bound(h, a)
    ensures Bound(h, a) >= 1
  {
    ApartPositive(h, a);
    ApartPositive(r, a);
    hide Apart, Ones;
    var d, e := Apart(h, a), Apart(r, a);
    if r != a {
      OnesBelow(r, a);
      if e < d {
        SquareStep(e, d);
      }
    }
    SquareStep(0, d);
  }

  lemma SquareStep(e: nat, d: nat)
    requires e < d
    ensures e * e + 2 * e + 1 <= d * d
  {
    Monotone(e + 1, d, e + 1);
    Monotone(e + 1, d, d);
    assert (e + 1) * (e + 1) == e * e + 2 * e + 1;
  }

  // ---------------------------------------------------------------- what clearing a digit does

  /** Clearing the lowest one, without going below `a`, takes one of the ones before the highest difference. */
  lemma {:induction false} ClearNearer(h: nat, a: nat)
    requires h > a && InvertLowestOne(h) >= a
    ensures Nearer(h, InvertLowestOne(h), a, 1)
  {
    if h % 2 == 0 {
      ClearNearer(h / 2, a / 2);
    }
  }

  /** Where clearing it would go below `a`, the number before `h` is nearer by a digit. */
  lemma {:induction false} BeforeNearer(h: nat, a: nat)
    requires h > a && InvertLowestOne(h) <= a
    ensures Apart(h - 1, a) < Apart(h, a)
  {
    if h % 2 == 0 {
      BeforeNearer(h / 2, a / 2);
    }
  }

  lemma {:induction false} ClearedIsEven(n: nat)
    ensures InvertLowestOne(n) % 2 == 0
  {
  }

  /** An even number and the odd one after it. */
  lemma {:induction false} OddAfter(v: nat, a: nat)
    requires v % 2 == 0 && v > a
    ensures Apart(v + 1, a) == Apart(v, a) && Ones(v + 1, a) == Ones(v, a) + 1 && Apart(v, a) >= 2
  {
    assert (v + 1) / 2 == v / 2 && v / 2 > a / 2;
  }

  lemma {:induction false} OneApart(v: nat)
    requires v % 2 == 0
    ensures Apart(v + 1, v) == 1
  {
    assert (v + 1) / 2 == v / 2;
  }

  lemma ClearedOnes(w: nat, a: nat)
    requires w > a && InvertLowestOne(w) > a
    ensures Nearer(w, InvertLowestOne(w), a, 1)
    ensures InvertLowestOne(w) % 2 == 0
  {
    ClearNearer(w, a);
    ClearedIsEven(w);
  }

  /** Clearing the lowest one of an even number and adding one. */
  lemma ClearAndOne(w: nat, a: nat)
    requires w % 2 == 0 && w > a && InvertLowestOne(w) + 1 >= a
    ensures Nearer(w, InvertLowestOne(w) + 1, a, 0)
  {
    hide Apart, Ones, InvertLowestOne;
    var v := InvertLowestOne(w);
    ClearedIsEven(w);
    OddAfter(w, a);
    if v > a {
      ClearedOnes(w, a);
      OddAfter(v, a);
    } else if v == a {
      OneApart(v);
    }
  }

  /** Clearing the two lowest ones of an even number and adding one, as the skip of the next number does. */
  lemma ClearTwoAndOne(n: nat, a: nat)
    requires n % 2 == 0 && n > a && InvertLowestOne(InvertLowestOne(n)) + 1 >= a
    ensures Nearer(n, InvertLowestOne(InvertLowestOne(n)) + 1, a, 1)
  {
    hide Apart, Ones, InvertLowestOne;
    var u := InvertLowestOne(n);
    InvertedIsBelow(u);
    ClearedIsEven(n);
    OddAfter(n, a);
    if u > a {
      ClearedOnes(n, a);
      ClearAndOne(u, a);
    } else if u == 0 && a == 0 {
      OneApart(0);
    }
  }

  // ---------------------------------------------------------------- the bound

  lemma {:induction false} ClearOne(q: nat)
    ensures InvertLowestOne(2 * q + 1) == 2 * q
  {
  }

  lemma {:induction false} ClearTwo(q: nat)
    ensures InvertLowestOne(4 * q + 2) == 4 * q
  {
    ClearOne(q);
    ClearDouble(2 * q + 1);
  }

  lemma {:induction false} ClearFour(q: nat)
    ensures InvertLowestOne(8 * q + 4) == 8 * q
  {
    ClearTwo(q);
    ClearDouble(4 * q + 2);
  }

  lemma {:induction false} ClearEight(q: nat)
    requires q > 0
    ensures InvertLowestOne(8 * q) <= 8 * q - 8
  {
    hide InvertLowestOne;
    InvertedIsBelow(q);
    ClearDouble(q);
    ClearDouble(2 * q);
    ClearDouble(4 * q);
  }

  lemma {:induction false} ClearDouble(q: nat)
    ensures InvertLowestOne(2 * q) == 2 * InvertLowestOne(q)
  {
    var h := 2 * q;
    assert h / 2 == q && h % 2 == 0;
  }

  /** Following a skip brings the walk nearer. */
  lemma SkipNearer(h: nat, a: nat)
    requires h > a && SkipHeight(h) >= a
    ensures Nearer(h, SkipHeight(h), a, 1)
  {
    hide Apart, Ones, InvertLowestOne;
    if h >= 2 {
      if h % 2 == 0 {
        ClearNearer(h, a);
      } else {
        var n := h - 1;
        InvertedIsBelow(n);
        InvertedIsBelow(InvertLowestOne(n));
        if n > a {
          ClearTwoAndOne(n, a);
          OddAfter(n, a);
        }
      }
    }
  }

  /** The skip of an odd height. */
  lemma OddSkip(h: nat)
    requires h % 2 == 0 && h >= 4
    ensures SkipHeight(h - 1) == InvertLowestOne(InvertLowestOne(h - 2)) + 1
    ensures SkipHeight(h - 2) == InvertLowestOne(h - 2)
  {
    hide InvertLowestOne;
    assert (h - 1) % 2 == 1;
  }

  lemma ParentSkips(h: nat, a: nat)
    requires h % 2 == 0 && h >= 4 && InvertLowestOne(h) > a && a <= SkipHeight(h - 1)
    ensures h - 1 > a && Skips(h - 1, a)
  {
    hide InvertLowestOne, SkipHeight;
    InvertedIsBelow(h);
    OddSkip(h);
    InvertedIsBelow(InvertLowestOne(h - 2));
    assert h - 1 - 1 == h - 2;
  }

  /** A better skip of the parent clears one or two digits more than the block's own. */
  lemma ParentSkipIs(h: nat)
    requires h % 2 == 0 && h >= 4 && SkipHeight(h - 1) < InvertLowestOne(h) - 2
    ensures var t := InvertLowestOne(h);
      SkipHeight(h - 1) == InvertLowestOne(t) + 1 || SkipHeight(h - 1) == InvertLowestOne(InvertLowestOne(t)) + 1
  {
    hide InvertLowestOne, SkipHeight;
    OddSkip(h);
    EvenEighths(h);
    var q := h / 8;
    if h == 8 * q {
      ClearEight(q);
      ClearTwo(2 * (q - 1) + 1);
      ClearFour(q - 1);
    } else if h == 8 * q + 4 {
      ClearFour(q);
      ClearTwo(2 * q);
    } else {
      ClearTwo(h / 4);
    }
  }

  lemma EvenEighths(h: nat)
    requires h % 2 == 0
    ensures h == 8 * (h / 8) || h == 8 * (h / 8) + 4 || h == 4 * (h / 4) + 2
  {
    var q, r, s := h / 8, h % 8, h / 2;
    assert h == 8 * q + r && h == 2 * s && r == 2 * (s - 4 * q);
    if r == 2 {
      DivisionIs(h, 4, 2 * q, 2);
    } else if r == 6 {
      DivisionIs(h, 4, 2 * q + 1, 2);
    }
  }

  /** Where the parent's skip is better, the walk follows that one next, and is nearer then. */
  lemma ParentSkipNearer(h: nat, a: nat)
    requires h % 2 == 0 && InvertLowestOne(h) > a
    requires a <= SkipHeight(h - 1) < InvertLowestOne(h) - 2
    ensures h - 1 > a && Skips(h - 1, a) && Nearer(h, SkipHeight(h - 1), a, 1)
  {
    hide Apart, Ones, InvertLowestOne, SkipHeight, Skips;
    var t := InvertLowestOne(h);
    InvertedIsBelow(h);
    ClearedOnes(h, a);
    assert h >= 4;
    ParentSkips(h, a);
    ParentSkipIs(h);
    if SkipHeight(h - 1) == InvertLowestOne(t) + 1 {
      ClearAndOne(t, a);
    } else {
      ClearTwoAndOne(t, a);
    }
  }

  /** Every walk is bounded. */
  lemma {:induction false} StepsBound(h: nat, a: nat)
    requires h >= a
    ensures Steps(h, a) <= Bound(h, a)
    decreases h
  {
    hide Bound, Nearer, Skips, SkipHeight;
    if h > a {
      var r := NextHeight(h, a);
      if Skips(h, a) {
        SkipTaken(h, a);
        SkipNearer(h, a);
        StepsBound(r, a);
        NearerBound(h, r, a);
      } else {
        ParentTaken(h, a);
      }
    }
  }

  lemma SkipTaken(h: nat, a: nat)
    requires h > a && Skips(h, a)
    ensures SkipHeight(h) >= a
  {
  }

  lemma {:induction false} ParentTaken(h: nat, a: nat)
    requires h > a && !Skips(h, a)
    ensures Steps(h, a) <= Bound(h, a)
    decreases h, 0
  {
    hide Bound, Nearer, Apart, Ones, InvertLowestOne;
    if h % 2 == 1 || InvertLowestOne(h) <= a {
      BackNearer(h, a);
      StepsBound(h - 1, a);
      NearerBound(h, h - 1, a);
    } else {
      ParentSkipNearer(h, a);
      var r := SkipHeight(h - 1);
      StepsBound(r, a);
      NearerBound(h, r, a);
      assert Steps(h, a) == 2 + Steps(r, a);
      FarBound(h, a);
    }
  }

  lemma {:induction false} BackNearer(h: nat, a: nat)
    requires h > a && (h % 2 == 1 || InvertLowestOne(h) <= a)
    ensures Nearer(h, h - 1, a, 1)
  {
    if h % 2 == 1 {
      ClearNearer(h, a);
    } else {
      BeforeNearer(h, a);
    }
  }

  lemma {:induction false} FarBound(h: nat, a: nat)
    requires h > a && h % 2 == 0
    ensures Bound(h, a) >= 4
  {
    assert h / 2 > a / 2;
    ApartPositive(h, a);
    hide Apart, Ones;
    SquareStep(1, Apart(h, a));
  }

  lemma {:induction false} ApartDigits(h: nat, a: nat, n: nat)
    requires h < Pow2(n) && a <= h
    ensures Apart(h, a) <= n
    decreases n
  {
    if h != a {
      assert Pow2(n) == 2 * Pow2(n - 1);
      ApartDigits(h / 2, a / 2, n - 1);
    }
  }

  /** From a height of `n` binary digits, any ancestor is reached in at most n * n + 2 * n steps. */
  lemma {:induction false} StepsAreFew(h: nat, a: nat, n: nat)
    requires h < Pow2(n) && a <= h
    ensures Steps(h, a) <= n * n + 2 * n
  {
    hide Apart, Ones, Steps, Pow2;
    StepsBound(h, a);
    ApartDigits(h, a, n);
    if h == a {
      SameBound(a);
    } else {
      OnesBelow(h, a);
      Monotone(Apart(h, a), n, Apart(h, a));
      Monotone(Apart(h, a), n, n);
    }
  }

  lemma {:induction false} SameBound(a: nat)
    ensures Bound(a, a) == 0
  {
  }

  /** At most n * n + 2 * n, for every number `n` of binary digits that suffices for the height. */
  ghost predicate IsFew(h: nat, steps: nat) {
    forall n: nat :: h < Pow2(n) ==> steps <= n * n + 2 * n
  }

  lemma StepsBounded(h: nat, a: nat)
    requires a <= h
    ensures IsFew(h, Steps(h, a))
  {
    forall n: nat | h < Pow2(n)
      ensures Steps(h, a) <= n * n + 2 * n
    {
      StepsAreFew(h, a, n);
    }
  }

  lemma NoneIsFew(h: nat)
    ensures IsFew(h, 0)
  {
    forall n: nat | h < Pow2(n)
      ensures 0 <= n * n + 2 * n
    {
      Monotone(0, n, n);
    }
  }
}
