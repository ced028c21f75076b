/** Bitwise exclusive or on natural numbers, and how it goes with shifts and masks. */
module ExclusiveOr {
  import opened Positional

  function Xor(a: nat, b: nat): nat {
    if a == 0 then b
    else if b == 0 then a
    else 2 * Xor(a / 2, b / 2) + (a % 2 + b % 2) % 2
  }

  lemma {:induction false} XorUnfolds(a: nat, b: nat)
    ensures Xor(a, b) == 2 * Xor(a / 2, b / 2) + (a % 2 + b % 2) % 2
    ensures Xor(a, b) / 2 == Xor(a / 2, b / 2) && Xor(a, b) % 2 == (a % 2 + b % 2) % 2
  {
  }

  lemma {:induction false} XorZero(a: nat)
    ensures Xor(a, 0) == Xor(0, a) == a
  {
  }

  lemma {:induction false} XorCommutes(a: nat, b: nat)
    ensures Xor(a, b) == Xor(b, a)
    decreases a
  {
    if a > 0 {
      XorCommutes(a / 2, b / 2);
    }
  }

  lemma {:induction false} XorAssociates(a: nat, b: nat, c: nat)
    ensures Xor(Xor(a, b), c) == Xor(a, Xor(b, c))
    decreases a
  {
    hide Xor;
    if a == 0 {
      XorZero(b);
      XorZero(Xor(b, c));
    } else {
      XorUnfolds(a, b);
      XorUnfolds(b, c);
      XorUnfolds(Xor(a, b), c);
      XorUnfolds(a, Xor(b, c));
      XorAssociates(a / 2, b / 2, c / 2);
    }
  }

  lemma {:induction false} XorSelf(a: nat)
    ensures Xor(a, a) == 0
  {
    if a > 0 {
      XorSelf(a / 2);
    }
  }

  lemma {:induction false} XorDiffers(a: nat, b: nat)
    ensures Xor(a, b) == 0 <==> a == b
    decreases a
  {
    hide Xor;
    if a == 0 {
      XorZero(b);
    } else {
      XorUnfolds(a, b);
      XorDiffers(a / 2, b / 2);
    }
  }

  /** Exchanging the inner two of four. */
  lemma {:induction false} XorExchanges(a: nat, b: nat, c: nat, d: nat)
    ensures Xor(Xor(a, b), Xor(c, d)) == Xor(Xor(a, c), Xor(b, d))
  {
    hide Xor;
    XorAssociates(a, b, Xor(c, d));
    XorAssociates(b, c, d);
    XorCommutes(b, c);
    XorAssociates(c, b, d);
    XorAssociates(a, c, Xor(b, d));
  }

  // ---------------------------------------------------------------- shifts and masks

  lemma {:induction false} Pow2Next(k: nat)
    ensures Pow2(k + 1) == 2 * Pow2(k) && Pow2(0) == 1
  {
  }

  lemma {:induction false} XorShiftsDown(a: nat, b: nat, k: nat)
    ensures Xor(a, b) / Pow2(k) == Xor(a / Pow2(k), b / Pow2(k))
    decreases k
  {
    hide Xor, Pow2;
    if k == 0 {
      Pow2Next(0);
    } else {
      Pow2Next(k - 1);
      XorUnfolds(a, b);
      XorShiftsDown(a / 2, b / 2, k - 1);
      DivideTwice(a, 2, Pow2(k - 1));
      DivideTwice(b, 2, Pow2(k - 1));
      DivideTwice(Xor(a, b), 2, Pow2(k - 1));
    }
  }

  lemma MaskNext(a: nat, p: nat)
    requires p > 0
    ensures a % (2 * p) == 2 * (a / 2 % p) + a % 2
    ensures a % (2 * p) / 2 == a / 2 % p && a % (2 * p) % 2 == a % 2
  {
    var q := a / 2 / p;
    Associate(2, p, q);
    DivisionIs(a, 2 * p, q, 2 * (a / 2 % p) + a % 2);
  }

  lemma {:induction false} XorMasks(a: nat, b: nat, k: nat)
    ensures Xor(a, b) % Pow2(k) == Xor(a % Pow2(k), b % Pow2(k))
    decreases k
  {
    hide Xor, Pow2;
    if k == 0 {
      Pow2Next(0);
      XorZero(0);
    } else {
      var p := Pow2(k - 1);
      Pow2Next(k - 1);
      XorUnfolds(a, b);
      XorMasks(a / 2, b / 2, k - 1);
      MaskNext(a, p);
      MaskNext(b, p);
      MaskNext(Xor(a, b), p);
      var am, bm := a % (2 * p), b % (2 * p);
      XorUnfolds(am, bm);
      assert Xor(am / 2, bm / 2) == Xor(a / 2, b / 2) % p;
    }
  }

  lemma {:induction false} XorShiftsUp(a: nat, b: nat, k: nat)
    ensures Xor(a * Pow2(k), b * Pow2(k)) == Xor(a, b) * Pow2(k)
    decreases k
  {
    hide Xor, Pow2;
    if k == 0 {
      Pow2Next(0);
    } else {
      var p := Pow2(k - 1);
      Pow2Next(k - 1);
      XorShiftsUp(a, b, k - 1);
      XorUnfolds(2 * (a * p), 2 * (b * p));
      UpTwice(a, p);
      UpTwice(b, p);
      UpTwice(Xor(a, b), p);
    }
  }

  lemma UpTwice(a: nat, p: nat)
    ensures a * (2 * p) == 2 * (a * p)
  {
    Associate(a, 2, p);
    Associate(2, a, p);
  }

  /** Where no bit is set in both, exclusive or is addition. */
  lemma {:induction false} XorDisjoint(q: nat, y: nat, k: nat)
    requires y < Pow2(k)
    ensures Xor(q * Pow2(k), y) == q * Pow2(k) + y
    decreases k
  {
    hide Xor, Pow2;
    if k == 0 {
      Pow2Next(0);
      XorZero(q);
    } else {
      var p := Pow2(k - 1);
      Pow2Next(k - 1);
      UpTwice(q, p);
      XorUnfolds(2 * (q * p), y);
      XorDisjoint(q, y / 2, k - 1);
    }
  }

  lemma {:induction false} XorBelow(a: nat, b: nat, k: nat)
    requires a < Pow2(k) && b < Pow2(k)
    ensures Xor(a, b) < Pow2(k)
  {
    hide Xor, Pow2;
    XorMasks(a, b, k);
    DivisionIs(a, Pow2(k), 0, a);
    DivisionIs(b, Pow2(k), 0, b);
  }
}
