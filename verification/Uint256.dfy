/**
 256-bit unsigned integers as eight 32-bit limbs, least significant first. Every operation
 is stated by its integer meaning modulo 2^256.
 */
module Uint256 {
  import opened Positional
  import opened LimbShift

  lemma ModulusIs(v: nat, carry: nat, sum: nat)
    requires v < Modulus() && v + Modulus() * carry == sum
    ensures v == sum % Modulus()
  {
    DivisionIs(sum, Modulus(), carry, v);
  }

  class BaseUint {
    const pn: array<nat>

    ghost predicate Valid()
      reads pn
    {
      pn.Length == WIDTH && Digits(BASE, pn[..])
    }

    ghost function Value(): nat
      reads pn
    {
      Val(BASE, pn[..])
    }

    constructor ()
      ensures Valid() && fresh(pn) && Value() == 0
    {
      pn := new nat[WIDTH](_ => 0);
      new;
      ValZeros(BASE, pn[..]);
    }

    constructor Copy(b: BaseUint)
      requires b.Valid()
      ensures Valid() && fresh(pn) && pn[..] == b.pn[..]
    {
      pn := new nat[WIDTH](i requires 0 <= i < WIDTH && b.Valid() reads b.pn => b.pn[i]);
      new;
      assert pn[..] == b.pn[..];
    }

    method Assign(b: nat)
      requires b < BASE * BASE && Valid()
      modifies pn
      ensures Valid() && Value() == b
    {
      pn[0] := b % BASE;
      pn[1] := b / BASE;
      for i := 2 to WIDTH
        invariant pn[0] == b % BASE && pn[1] == b / BASE
        invariant forall j :: 2 <= j < i ==> pn[j] == 0
        invariant Digits(BASE, pn[..])
      {
        pn[i] := 0;
      }
      ghost var s := pn[..];
      ValZeros(BASE, s[2..]);
      assert s[1..][1..] == s[2..];
      assert Val(BASE, s[1..]) == s[1] + BASE * Val(BASE, s[2..]);
    }

    // -------------------------------------------------------------- addition and subtraction

    method Add(b: BaseUint)
      requires Valid() && b.Valid()
      modifies pn
      ensures Valid() && Value() == (old(Value()) + old(b.Value())) % Modulus()
    {
      hide Val, Pow, Times, Modulus, LowLimb, CarryOf;
      ghost var x, y := pn[..], b.pn[..];
      var carry: nat := 0;
      Whole(pn[..], x, y);
      TimesZero(Pow(BASE, 0));
      for i := 0 to WIDTH
        invariant carry <= 1 && Digits(BASE, pn[..])
        invariant pn[i..] == x[i..] && b.pn[i..] == y[i..]
        invariant Val(BASE, pn[..i]) + Times(Pow(BASE, i), carry) == Val(BASE, x[..i]) + Val(BASE, y[..i])
      {
        ghost var r := pn[..i];
        assert pn[i] == x[i] && b.pn[i] == y[i];
        var n := carry + pn[i] + b.pn[i];
        AddColumn(r, carry, x, y, i);
        pn[i] := LowLimb(n);
        carry := CarryOf(n);
        assert pn[..i] == r;
        assert pn[..i + 1] == r + [pn[i]];
      }
      Whole(pn[..], x, y);
      TimesModulus(carry);
      ModulusIs(Val(BASE, pn[..]), carry, Val(BASE, x) + Val(BASE, y));
    }

    method Increment()
      requires Valid()
      modifies pn
      ensures Valid() && Value() == (old(Value()) + 1) % Modulus()
    {
      hide Val, Pow, Modulus;
      ghost var x := pn[..];
      Whole(x, x, x);
      PowZero();
      var i := 0;
      while true
        invariant 0 <= i < WIDTH && Digits(BASE, pn[..]) && pn[i..] == x[i..]
        invariant Val(BASE, pn[..i]) + Pow(BASE, i) * 1 == Val(BASE, x[..i]) + 1
        decreases WIDTH - i
      {
        ghost var r := pn[..i];
        assert pn[i] == x[i];
        IncrementColumn(r, x, i);
        pn[i] := (pn[i] + 1) % BASE;
        assert pn[..i] == r && pn[..i + 1] == r + [pn[i]] && pn[i + 1..] == x[i + 1..];
        if !(pn[i] == 0 && i < WIDTH - 1) {
          break;
        }
        i := i + 1;
      }
      IncrementEnds(pn[..], x, i);
    }

    /** Two's complement: every limb inverted, plus one. */
    method Negated() returns (r: BaseUint)
      requires Valid()
      ensures r.Valid() && fresh(r) && fresh(r.pn) && Value() == old(Value())
      ensures r.Value() == if Value() == 0 then 0 else Modulus() - Value()
    {
      r := new BaseUint();
      for i := 0 to WIDTH
        invariant r.Valid() && pn[..] == old(pn[..])
        invariant forall j :: 0 <= j < i ==> r.pn[j] == BASE - 1 - pn[j]
      {
        r.pn[i] := BASE - 1 - pn[i];
      }
      Complement(pn[..], r.pn[..]);
      r.Increment();
      NegatedIs(Value());
    }

    method Subtract(b: BaseUint)
      requires Valid() && b.Valid()
      modifies pn
      ensures Valid()
      ensures Value() == if old(Value()) >= old(b.Value()) then old(Value()) - old(b.Value())
                         else old(Value()) - old(b.Value()) + Modulus()
    {
      hide Val, Pow, Modulus;
      var n := b.Negated();
      Whole(pn[..], pn[..], b.pn[..]);
      Whole(b.pn[..], pn[..], b.pn[..]);
      SubtractedIs(Value(), b.Value());
      Add(n);
    }

    // -------------------------------------------------------------- multiplication

    method MultiplySmall(b: nat)
      requires Valid() && b < BASE
      modifies pn
      ensures Valid() && Value() == Times(b, old(Value())) % Modulus()
    {
      hide Val, Pow, Modulus, Times;
      ghost var x := pn[..];
      Whole(x, x, x);
      TimesZero(Pow(BASE, 0));
      TimesZero(b);
      var carry: nat := 0;
      for i := 0 to WIDTH
        invariant carry < BASE && Digits(BASE, pn[..]) && pn[i..] == x[i..]
        invariant Val(BASE, pn[..i]) + Times(Pow(BASE, i), carry) == Times(b, Val(BASE, x[..i]))
      {
        ghost var r := pn[..i];
        assert pn[i] == x[i];
        var n := carry + Times(b, pn[i]);
        NoOverflow(carry, 0, b, pn[i]);
        ghost var none := seq(WIDTH, _ => 0);
        ValZeros(BASE, none[..i]);
        ValZeros(BASE, none[..i + 1]);
        SumColumn(r, carry, none, x, b, i);
        pn[i] := LowLimb(n);
        carry := CarryOf(n);
        assert pn[..i] == r && pn[..i + 1] == r + [pn[i]];
      }
      Whole(pn[..], x, x);
      TimesModulus(carry);
      ModulusIs(Val(BASE, pn[..]), carry, Times(b, Val(BASE, x)));
    }

    /** Schoolbook multiplication; with itself as the factor the number is zeroed before it is read. */
    method Multiply(b: BaseUint)
      requires Valid() && b.Valid()
      modifies pn
      ensures Valid()
      ensures Value() == if pn == b.pn then 0 else Times(old(Value()), b.Value()) % Modulus()
    {
      hide Val, Pow, Modulus, Times;
      var a := pn[..];
      TimesZero(Modulus());
      Assign(0);
      ghost var z := pn[..];
      ghost var y := b.pn[..];
      ghost var over := 0;
      Whole(a, a, y);
      TimesZero(Val(BASE, y));
      AllZero(z);
      for j := 0 to WIDTH
        invariant Digits(BASE, pn[..]) && b.pn[..] == y
        invariant pn == b.pn ==> forall i :: 0 <= i < WIDTH ==> y[i] == 0
        invariant Value() + Times(Modulus(), over) == Times(Val(BASE, a[..j]), Val(BASE, y))
      {
        ghost var w := pn[..];
        var carry := AddScaled(b, a[j], j);
        over := RowAdds(w, pn[..], a, y, j, carry, over);
      }
      Whole(pn[..], a, y);
      TimesModulus(over);
      ModulusIs(Value(), over, Times(Val(BASE, a), Val(BASE, y)));
      if pn == b.pn {
        ValZeros(BASE, y);
      }
    }

    /** The inner loop: adds `f` times `b` from limb `j` on. */
    method AddScaled(b: BaseUint, f: nat, j: nat) returns (carry: nat)
      requires Valid() && b.Valid() && f < BASE && j < WIDTH
      requires pn == b.pn ==> forall i :: 0 <= i < WIDTH ==> pn[i] == 0
      modifies pn
      ensures Valid() && pn[..j] == old(pn[..j])
      ensures b.pn[..] == old(b.pn[..])
      ensures Val(BASE, pn[j..]) + Times(Pow(BASE, WIDTH - j), carry) ==
              Val(BASE, old(pn[j..])) + Times(f, Val(BASE, b.pn[..WIDTH - j]))
    {
      hide Val, Pow, Times, LowLimb, CarryOf, SumSoFar, Replaced;
      ghost var w, y := pn[..], b.pn[..];
      carry := 0;
      var i := 0;
      ghost var r: seq<nat> := [];
      NoColumns(w, y, f, j);
      assert pn == b.pn ==> AllZeros(y);
      hide AllZeros;
      while i + j < WIDTH
        invariant 0 <= i && i + j <= WIDTH && carry < BASE
        invariant Valid() && |r| == i && Replaced(pn[..], w, r, j) && b.pn[..] == y
        invariant pn == b.pn ==> carry == 0
        invariant SumSoFar(r, carry, w[j..], y, f)
        decreases WIDTH - i
      {
        ghost var x := pn[..];
        SumColumn(r, carry, w[j..], y, f, i);
        carry := AddLimb(b, f, i, j, carry);
        ReplacedNext(x, w, r, j, pn[..][i + j]);
        r := r + [pn[..][i + j]];
        i := i + 1;
      }
      ReplacedAll(pn[..], w, r, j);
      AllColumns(r, carry, w[j..], y, f);
    }

    /** One column: `f` times limb `i` of `b` and the carry go to limb `i + j`. */
    method AddLimb(b: BaseUint, f: nat, i: nat, j: nat, carry: nat) returns (next: nat)
      requires Valid() && b.Valid() && f < BASE && i + j < WIDTH && carry < BASE
      requires pn == b.pn ==> carry == 0 && AllZeros(b.pn[..])
      modifies pn
      ensures Valid() && next < BASE
      ensures var n := carry + old(pn[..])[i + j] + Times(f, old(b.pn[..])[i]);
        pn[..] == old(pn[..])[i + j := LowLimb(n)] && next == CarryOf(n)
      ensures b.pn[..] == old(b.pn[..]) && (pn == b.pn ==> next == 0)
    {
      hide Times;
      TimesZero(f);
      var n := carry + pn[i + j] + Times(f, b.pn[i]);
      NoOverflow(carry, pn[i + j], f, b.pn[i]);
      pn[i + j] := LowLimb(n);
      next := CarryOf(n);
    }

    // -------------------------------------------------------------- comparison

    method CompareTo(b: BaseUint) returns (sign: int)
      requires Valid() && b.Valid()
      ensures sign == if Value() < b.Value() then -1 else if Value() > b.Value() then 1 else 0
    {
      hide Val;
      var i := WIDTH - 1;
      while i >= 0
        invariant -1 <= i < WIDTH && pn[i + 1..] == b.pn[i + 1..]
      {
        if pn[i] < b.pn[i] {
          DecidedAt(pn[..], b.pn[..], i);
          return -1;
        }
        if pn[i] > b.pn[i] {
          DecidedAt(b.pn[..], pn[..], i);
          return 1;
        }
        assert pn[i..] == [pn[i]] + pn[i + 1..] && b.pn[i..] == [b.pn[i]] + b.pn[i + 1..];
        i := i - 1;
      }
      assert pn[..] == pn[0..] && b.pn[..] == b.pn[0..];
      return 0;
    }

    /** The highest bit of a limb. */
    static method TopBitOf(x: nat) returns (bits: nat)
      requires 0 < x < BASE
      ensures bits < 32 && Pow2(bits) <= x < Pow2(bits + 1)
    {
      hide Pow2;
      bits := 31;
      Pow2Values();
      while bits > 0
        invariant 0 <= bits <= 31 && x < Pow2(bits + 1)
      {
        Pow2Doubles(bits);
        BitClear(x, bits);
        if BitSet(x, bits) {
          return;
        }
        bits := bits - 1;
      }
    }

    /** One more than the position of the highest bit set, or zero. */
    method Bits() returns (n: nat)
      requires Valid()
      ensures n <= 256
      ensures if Value() == 0 then n == 0 else n > 0 && Pow2(n - 1) <= Value() < Pow2(n)
    {
      hide Val, Pow2;
      var pos := WIDTH - 1;
      while pos >= 0
        invariant -1 <= pos < WIDTH && forall j :: pos < j < WIDTH ==> pn[j] == 0
      {
        if pn[pos] != 0 {
          var bits := TopBitOf(pn[pos]);
          TopBit(pn[..], pos, bits);
          return 32 * pos + bits + 1;
        }
        pos := pos - 1;
      }
      ValZeros(BASE, pn[..]);
      return 0;
    }

    // -------------------------------------------------------------- shifts

    method ShiftLeft(shift: nat)
      requires Valid()
      modifies pn
      ensures Valid() && Value() == (old(Value()) * Pow2(shift)) % Modulus()
    {
      hide Val, Pow, Pow2, LowPart, HighPart, Or;
      var a := pn[..];
      Clear();
      var k, s := shift / 32, shift % 32;
      for i := 0 to WIDTH
        invariant forall j :: 0 <= j < WIDTH ==> pn[j] == PartialShl(a, k, s, i, j)
      {
        ShlLimbIsOr(a, s, i);
        OrZero(HighPart(a[i], s));
        HighOfNone(a[i]);
        if i + k + 1 < WIDTH && s != 0 {
          pn[i + k + 1] := Or(pn[i + k + 1], HighPart(a[i], s));
        }
        if i + k < WIDTH {
          pn[i + k] := Or(pn[i + k], LowPart(a[i], s));
        }
      }
      assert forall j :: 0 <= j < WIDTH ==> PartialShl(a, k, s, WIDTH, j) == ShlLimb(a, k, s, j);
      ShlValue(a, pn[..], k, s);
    }

    method Clear()
      requires Valid()
      modifies pn
      ensures Valid() && forall j :: 0 <= j < WIDTH ==> pn[j] == 0
    {
      for i := 0 to WIDTH
        invariant Valid() && forall j :: 0 <= j < i ==> pn[j] == 0
      {
        pn[i] := 0;
      }
    }

    method ShiftRight(shift: nat)
      requires Valid()
      modifies pn
      ensures Valid() && Pow2(shift) > 0 && Value() == old(Value()) / Pow2(shift)
    {
      hide Val, Pow, Pow2, LowPart, ShiftedDown, Or;
      var a := pn[..];
      Clear();
      var k, s := shift / 32, shift % 32;
      for i := 0 to WIDTH
        invariant forall j :: 0 <= j < WIDTH ==> pn[j] == PartialShr(a, k, s, i, j)
      {
        if i > 0 {
          ShrLimbIsOr(a, s, i - 1);
        }
        OrZero(ShiftedDown(a[i], s));
        if i - k - 1 >= 0 && s != 0 {
          pn[i - k - 1] := Or(pn[i - k - 1], LowPart(a[i], 32 - s));
        }
        if i - k >= 0 {
          pn[i - k] := Or(pn[i - k], ShiftedDown(a[i], s));
        }
      }
      assert forall j :: 0 <= j < WIDTH ==> PartialShr(a, k, s, WIDTH, j) == ShrLimb(a, k, s, j);
      ShrValue(a, pn[..], k, s);
    }

    // -------------------------------------------------------------- division

    method SetBit(n: nat)
      requires Valid() && n < 256 && LowClear(pn[..], n + 1)
      modifies pn
      ensures Valid() && Value() == old(Value()) + Pow2(n) && LowClear(pn[..], n)
    {
      hide Val, Pow, Pow2, Or, LowClear;
      ghost var x := pn[..];
      var j, m := n / 32, n % 32;
      SetBitIs(x, n, j, m);
      pn[j] := Or(pn[j], Pow2(m));
      assert pn[..] == x[j := x[j] + Pow2(m)];
    }

    /** One round of the long division: subtract the shifted divisor where it fits, and set the quotient's bit. */
    method DivideBit(num: BaseUint, div: BaseUint, shift: nat, ghost w: nat)
      requires Valid() && num.Valid() && div.Valid() && pn != num.pn && pn != div.pn && num.pn != div.pn
      requires shift < 256 && LowClear(pn[..], shift + 1)
      requires num.Value() < Times(w, Pow2(shift + 1)) && div.Value() == Times(w, Pow2(shift))
      modifies pn, num.pn, div.pn
      ensures Valid() && num.Valid() && div.Valid() && LowClear(pn[..], shift)
      ensures num.Value() + Times(w, Value()) == old(num.Value() + Times(w, Value()))
      ensures num.Value() < Times(w, Pow2(shift))
      ensures shift > 0 ==> div.Value() == Times(w, Pow2(shift - 1))
    {
      hide Val, Pow, Pow2, Modulus, LowClear, Times;
      DivisionStep(w, shift, Value());
      LowClearLess(pn[..], shift);
      var sign := num.CompareTo(div);
      if sign >= 0 {
        num.Subtract(div);
        SetBit(shift);
      }
      div.ShiftRight(1);
    }

    /** Shift and subtract: the quotient, or a failure with the number zeroed when the divisor is zero. */
    method Divide(b: BaseUint) returns (ok: bool)
      requires Valid() && b.Valid()
      modifies pn
      ensures Valid() && (ok <==> old(b.Value()) != 0)
      ensures Value() == if ok then old(Value()) / old(b.Value()) else 0
    {
      hide Val, Pow, Pow2, Modulus, LowClear, Times;
      var div := new BaseUint.Copy(b);
      var num := new BaseUint.Copy(this);
      ghost var v, w := Value(), b.Value();
      Clear();
      ClearIs(pn[..], 0);
      var numBits := num.Bits();
      var divBits := div.Bits();
      if divBits == 0 {
        return false;
      }
      if divBits > numBits {
        SmallerBits(v, w, numBits, divBits);
        return true;
      }
      var shift: int := numBits - divBits;
      ClearIs(pn[..], shift + 1);
      Aligned(v, w, numBits, divBits);
      div.ShiftLeft(shift);
      TimesZero(w);
      while shift >= 0
        invariant -1 <= shift < 256
        invariant Valid() && num.Valid() && div.Valid()
        invariant fresh(num.pn) && fresh(div.pn) && num.pn != div.pn
        invariant LowClear(pn[..], shift + 1)
        invariant num.Value() + Times(w, Value()) == v
        invariant num.Value() < Times(w, Pow2(shift + 1))
        invariant shift >= 0 ==> div.Value() == Times(w, Pow2(shift))
      {
        DivideBit(num, div, shift, w);
        shift := shift - 1;
      }
      DivisionEnds(v, w, num.Value(), Value());
      return true;
    }
  }

  /** The bits below `n` are all clear. */
  ghost predicate LowClear(x: seq<nat>, n: nat) {
    forall j :: 0 <= j < |x| ==> LimbClear(x[j], n - 32 * j)
  }

  /** The bits of a limb below `s` are clear. */
  ghost predicate LimbClear(x: nat, s: int) {
    if s >= 32 then x == 0 else s > 0 ==> LowBits(x, s) == 0
  }

  lemma LimbClearLess(x: nat, s: int)
    requires LimbClear(x, s + 1)
    ensures LimbClear(x, s)
  {
    if s > 0 && x != 0 {
      var p := Pow2(s);
      Pow2Doubles(s);
      var q := x / (2 * p);
      assert x == (2 * p) * q;
      Swap(2, p, q);
      Associate(2, p, q);
      DivisionIs(x, p, 2 * q, 0);
    } else if s > 0 {
    }
  }

  lemma LowClearLess(x: seq<nat>, n: nat)
    requires LowClear(x, n + 1)
    ensures LowClear(x, n)
  {
    forall j | 0 <= j < |x|
      ensures LimbClear(x[j], n - 32 * j)
    {
      assert LimbClear(x[j], n + 1 - 32 * j);
      LimbClearLess(x[j], n - 32 * j);
    }
  }

  lemma {:induction false} ClearIs(x: seq<nat>, n: nat)
    requires forall j :: 0 <= j < |x| ==> x[j] == 0
    ensures Val(BASE, x) == 0 && LowClear(x, n)
  {
    ValZeros(BASE, x);
    forall j | 0 <= j < |x|
      ensures LimbClear(x[j], n - 32 * j)
    {
      if 0 < n - 32 * j < 32 {
      }
    }
  }

  lemma {:induction false} SetLimb(x: nat, m: nat)
    requires x < BASE && m < 32 && LimbClear(x, m + 1)
    ensures Or(x, Pow2(m)) == x + Pow2(m) < BASE
    ensures LimbClear(x + Pow2(m), m)
  {
    hide Or, Pow2, LimbClear;
    var p, d := Pow2(m), Pow2(m + 1);
    Pow2Doubles(m);
    Pow2Of32(m + 1);
    var q := x / d;
    ClearIsMultiple(x, m + 1);
    OrDisjoint(q, p, m + 1);
    MultipleBelow(q, d, Pow2(31 - m), p);
    OddMultipleClear(q, m);
  }

  lemma ClearIsMultiple(x: nat, s: nat)
    requires 0 < s <= 32 && LimbClear(x, s)
    ensures x == x / Pow2(s) * Pow2(s)
  {
    if s == 32 {
      DivisionIs(x, Pow2(s), 0, 0);
    }
  }

  lemma OddMultipleClear(q: nat, m: nat)
    requires m < 32
    ensures LimbClear(q * Pow2(m + 1) + Pow2(m), m)
  {
    var p := Pow2(m);
    Pow2Doubles(m);
    Swap(q, 2, p);
    Associate(2, q, p);
    Distribute(p, 2 * q, 1);
    DivisionIs(q * Pow2(m + 1) + p, p, 2 * q + 1, 0);
  }

  lemma {:induction false} SetBitIs(x: seq<nat>, n: nat, j: nat, m: nat)
    requires |x| == WIDTH && Digits(BASE, x) && n < 256 && j == n / 32 && m == n % 32 && LowClear(x, n + 1)
    ensures Or(x[j], Pow2(m)) == x[j] + Pow2(m) < BASE
    ensures Val(BASE, x[j := x[j] + Pow2(m)]) == Val(BASE, x) + Pow2(n) && LowClear(x[j := x[j] + Pow2(m)], n)
  {
    hide Val, Pow, Pow2, Or, LimbClear;
    var y := x[j := x[j] + Pow2(m)];
    assert LimbClear(x[j], n + 1 - 32 * j);
    SetLimb(x[j], m);
    ValAbout(x, j);
    ValAbout(y, j);
    assert y[..j] == x[..j] && y[j + 1..] == x[j + 1..];
    Distribute(Pow(BASE, j), x[j] + BASE * Val(BASE, x[j + 1..]), Pow2(m));
    Pow2Shift(j, m);
    LowClearLess(x, n);
    forall t | 0 <= t < |y|
      ensures LimbClear(y[t], n - 32 * t)
    {
      assert LimbClear(x[t], n - 32 * t);
    }
  }

  lemma SmallerBits(v: nat, w: nat, numBits: nat, divBits: nat)
    requires numBits < divBits && w > 0 && Pow2(divBits - 1) <= w
    requires v == 0 || v < Pow2(numBits)
    ensures v / w == 0
  {
    PowMonotone(2, numBits, divBits - 1);
    DivisionIs(v, w, 0, v);
  }

  /** Aligned, the divisor still fits and twice the divisor exceeds the number. */
  lemma Aligned(v: nat, w: nat, numBits: nat, divBits: nat)
    requires 0 < divBits <= numBits <= 256
    requires v < Pow2(numBits) && Pow2(divBits - 1) <= w < Pow2(divBits)
    ensures (w * Pow2(numBits - divBits)) % Modulus() == Times(w, Pow2(numBits - divBits))
    ensures v < Times(w, Pow2(numBits - divBits + 1))
  {
    hide Pow, Pow2, Modulus;
    var shift := numBits - divBits;
    Pow2Fits(numBits);
    Pow2Adds(divBits, shift);
    Pow2Adds(divBits - 1, shift + 1);
    Scaled(w, Pow2(divBits), Pow2(shift));
    Monotone(Pow2(divBits - 1), w, Pow2(shift + 1));
    DivisionIs(w * Pow2(shift), Modulus(), 0, w * Pow2(shift));
  }

  lemma Pow2Fits(n: nat)
    requires n <= 256
    ensures Pow2(n) <= Modulus()
  {
    hide Pow;
    PowMonotone(2, n, 256);
    Pow2Limbs(WIDTH);
  }

  lemma Pow2Adds(m: nat, n: nat)
    ensures Pow2(m + n) == Pow2(m) * Pow2(n)
  {
    PowAdd(2, m, n);
  }

  lemma Scaled(w: nat, d: nat, p: nat)
    requires w < d && p > 0
    ensures w * p < d * p
  {
    Monotone(w + 1, d, p);
    Distribute(p, w, 1);
  }

  lemma DivisionStep(w: nat, shift: nat, q: nat)
    ensures Times(w, Pow2(shift + 1)) == 2 * Times(w, Pow2(shift))
    ensures shift > 0 ==> Times(w, Pow2(shift)) / Pow2(1) == Times(w, Pow2(shift - 1))
    ensures Pow2(1) > 0
    ensures Times(w, q + Pow2(shift)) == Times(w, q) + Times(w, Pow2(shift))
  {
    hide Pow2;
    Pow2Values();
    Pow2Doubles(shift);
    Swap(w, 2, Pow2(shift));
    Distribute(w, q, Pow2(shift));
    if shift > 0 {
      Pow2Doubles(shift - 1);
      Swap(w, 2, Pow2(shift - 1));
    }
  }

  lemma DivisionEnds(v: nat, w: nat, num: nat, q: nat)
    requires num + Times(w, q) == v && num < Times(w, Pow2(0))
    ensures w > 0 && v / w == q
  {
    Pow2Values();
    DivisionIs(v, w, q, num);
  }

  /** The limb at `j` when the first `i` limbs have been shifted left. */
  ghost function PartialShl(a: seq<nat>, k: nat, s: nat, i: nat, j: nat): nat
    requires s < 32 && i <= |a| && j < |a|
  {
    if j < i + k then ShlLimb(a, k, s, j) else if j == i + k then CarryIn(a, s, i) else 0
  }

  /** The limb at `j` when the first `i` limbs have been shifted right. */
  ghost function PartialShr(a: seq<nat>, k: nat, s: nat, i: nat, j: nat): nat
    requires s < 32 && i <= |a|
  {
    if j + k + 1 < i then ShrLimb(a, k, s, j) else if j + k + 1 == i then ShiftedDown(a[j + k], s) else 0
  }

  /** The highest limb that differs decides. */
  lemma {:induction false} DecidedAt(x: seq<nat>, y: seq<nat>, i: nat)
    requires |x| == |y| && i < |x| && Digits(BASE, x) && Digits(BASE, y)
    requires x[i + 1..] == y[i + 1..] && x[i] < y[i]
    ensures Val(BASE, x) < Val(BASE, y)
  {
    hide Val, Pow;
    var p := Pow(BASE, i);
    ValAbout(x, i);
    ValAbout(y, i);
    ValBound(BASE, x[..i]);
    Monotone(x[i] + 1, y[i], p);
    Distribute(p, x[i], 1);
    var rest := Val(BASE, x[i + 1..]);
    Distribute(p, x[i], BASE * rest);
    Distribute(p, y[i], BASE * rest);
  }

  lemma {:induction false} ValAbout(x: seq<nat>, i: nat)
    requires i < |x|
    ensures Val(BASE, x) == Val(BASE, x[..i]) + Pow(BASE, i) * (x[i] + BASE * Val(BASE, x[i + 1..]))
  {
    hide Pow;
    ValConcat(BASE, x[..i], x[i..]);
    assert x[..i] + x[i..] == x;
    assert x[i..][1..] == x[i + 1..];
  }

  predicate BitSet(x: nat, k: nat) {
    x / Pow2(k) % 2 == 1
  }

  lemma BitClear(x: nat, k: nat)
    requires x < 2 * Pow2(k)
    ensures if BitSet(x, k) then Pow2(k) <= x else x < Pow2(k)
  {
    var p := Pow2(k);
    if x < p {
      DivisionIs(x, p, 0, x);
    } else {
      DivisionIs(x, p, 1, x - p);
    }
  }

  lemma HighOfNone(x: nat)
    ensures HighPart(x, 0) == 0
  {
  }

  lemma Pow2Doubles(k: nat)
    ensures Pow2(k + 1) == 2 * Pow2(k)
  {
  }

  lemma Pow2Values()
    ensures Pow2(32) == BASE && Pow2(0) == 1 && Pow2(1) == 2
  {
    Pow2Is32();
  }

  /** The highest bit of the highest limb that is not zero is the highest bit of the number. */
  lemma {:induction false} TopBit(x: seq<nat>, pos: nat, bits: nat)
    requires |x| == WIDTH && Digits(BASE, x) && pos < WIDTH && bits < 32
    requires forall j :: pos < j < WIDTH ==> x[j] == 0
    requires Pow2(bits) <= x[pos] < Pow2(bits + 1)
    ensures Pow2(32 * pos + bits) <= Val(BASE, x) < Pow2(32 * pos + bits + 1)
    ensures Val(BASE, x) > 0
  {
    hide Val, Pow, Pow2;
    var p := Pow(BASE, pos);
    ValAbout(x, pos);
    ValZeros(BASE, x[pos + 1..]);
    ValBound(BASE, x[..pos]);
    Pow2Shift(pos, bits);
    Pow2Shift(pos, bits + 1);
    Monotone(Pow2(bits), x[pos], p);
    Monotone(x[pos] + 1, Pow2(bits + 1), p);
    Distribute(p, x[pos], 1);
  }

  function Times(f: nat, y: nat): nat {
    f * y
  }

  function LowLimb(n: nat): nat {
    n % BASE
  }

  function CarryOf(n: nat): nat {
    n / BASE
  }

  /** The 64-bit accumulator holds a column of a product. */
  lemma NoOverflow(carry: nat, x: nat, f: nat, y: nat)
    requires carry < BASE && x < BASE && f < BASE && y < BASE
    ensures carry + x + Times(f, y) < BASE * BASE
    ensures (carry + x + Times(f, y)) / BASE < BASE
  {
    Monotone(f, BASE - 1, y);
    Monotone(y, BASE - 1, BASE - 1);
  }

  lemma TimesZero(f: nat)
    ensures Times(f, 0) == Times(0, f) == 0
  {
  }

  lemma TimesModulus(carry: nat)
    ensures Times(Modulus(), carry) == Modulus() * carry && Times(Pow(BASE, WIDTH), carry) == Modulus() * carry
  {
  }

  lemma {:induction false} AllZero(z: seq<nat>)
    requires Val(BASE, z) == 0
    ensures forall i :: 0 <= i < |z| ==> z[i] == 0
  {
    if z != [] {
      AllZero(z[1..]);
    }
  }

  ghost predicate AllZeros(x: seq<nat>) {
    forall i :: 0 <= i < |x| ==> x[i] == 0
  }

  /** `x` is `w` with `r` in place of its limbs from `j` on. */
  ghost predicate Replaced(x: seq<nat>, w: seq<nat>, r: seq<nat>, j: nat) {
    j + |r| <= |w| && x == w[..j] + r + w[j + |r|..]
  }

  lemma ReplacedNext(x: seq<nat>, w: seq<nat>, r: seq<nat>, j: nat, d: nat)
    requires Replaced(x, w, r, j) && j + |r| < |w|
    ensures |x| == |w| && x[|r| + j] == w[j..][|r|] && Replaced(x[|r| + j := d], w, r + [d], j)
  {
  }

  lemma ReplacedAll(x: seq<nat>, w: seq<nat>, r: seq<nat>, j: nat)
    requires Replaced(x, w, r, j) && j + |r| == |w|
    ensures |x| == |w| && x[..j] == w[..j] && x[j..] == r
  {
  }

  /** The columns done so far, `r`, and the carry make the sum of those of `w` and of `f` times those of `y`. */
  ghost predicate SumSoFar(r: seq<nat>, carry: nat, w: seq<nat>, y: seq<nat>, f: nat) {
    && |r| <= |w| && |r| <= |y|
    && Val(BASE, r) + Times(Pow(BASE, |r|), carry) == Val(BASE, w[..|r|]) + Times(f, Val(BASE, y[..|r|]))
  }

  lemma {:induction false} NoColumns(w: seq<nat>, y: seq<nat>, f: nat, j: nat)
    requires j <= |w|
    ensures Replaced(w, w, [], j) && SumSoFar([], 0, w[j..], y, f)
  {
    hide Times;
    TimesZero(f);
    TimesZero(Pow(BASE, 0));
    assert w == w[..j] + [] + w[j..];
  }

  lemma {:induction false} AllColumns(r: seq<nat>, carry: nat, w: seq<nat>, y: seq<nat>, f: nat)
    requires SumSoFar(r, carry, w, y, f) && |r| == |w|
    ensures Val(BASE, r) + Times(Pow(BASE, |w|), carry) == Val(BASE, w) + Times(f, Val(BASE, y[..|w|]))
  {
    hide Val, Times, Pow;
    assert w[..|r|] == w;
  }

  lemma {:induction false} SumColumn(r: seq<nat>, carry: nat, w: seq<nat>, y: seq<nat>, f: nat, i: nat)
    requires |r| == i < |w| && i < |y| && SumSoFar(r, carry, w, y, f)
    ensures var n := carry + w[i] + Times(f, y[i]); SumSoFar(r + [LowLimb(n)], CarryOf(n), w, y, f)
  {
    hide Val, Pow;
    var n, p := carry + w[i] + f * y[i], Pow(BASE, i);
    CarryStep(BASE, r, carry, w[i] + f * y[i], n % BASE, n / BASE, Val(BASE, w[..i]) + f * Val(BASE, y[..i]));
    ValAppend(BASE, w[..i], w[i]);
    ValAppend(BASE, y[..i], y[i]);
    assert w[..i + 1] == w[..i] + [w[i]] && y[..i + 1] == y[..i] + [y[i]];
    Distribute(p, w[i], f * y[i]);
    Distribute(f, Val(BASE, y[..i]), p * y[i]);
    Swap(p, f, y[i]);
  }

  /** A row of the product: what was added, up to the modulus, is the row's share of the product. */
  lemma {:induction false} RowAdds(w: seq<nat>, r: seq<nat>, a: seq<nat>, y: seq<nat>, j: nat, carry: nat, over: nat)
    returns (next: nat)
    requires |w| == |r| == |a| == |y| == WIDTH && j < WIDTH && r[..j] == w[..j]
    requires Val(BASE, w) + Times(Modulus(), over) == Times(Val(BASE, a[..j]), Val(BASE, y))
    requires Val(BASE, r[j..]) + Times(Pow(BASE, WIDTH - j), carry) ==
             Val(BASE, w[j..]) + Times(a[j], Val(BASE, y[..WIDTH - j]))
    ensures Val(BASE, r) + Times(Modulus(), next) == Times(Val(BASE, a[..j + 1]), Val(BASE, y))
  {
    hide Val, Pow, Times;
    var n := WIDTH - j;
    ValConcat(BASE, r[..j], r[j..]);
    ValConcat(BASE, w[..j], w[j..]);
    ValConcat(BASE, y[..n], y[n..]);
    assert r[..j] + r[j..] == r && w[..j] + w[j..] == w && y[..n] + y[n..] == y;
    ValAppend(BASE, a[..j], a[j]);
    assert a[..j + 1] == a[..j] + [a[j]];
    PowAdd(BASE, j, n);
    next := over + carry + Times(a[j], Val(BASE, y[n..]));
    RowSum(Val(BASE, w[..j]), Val(BASE, r[j..]), Val(BASE, w[j..]), Pow(BASE, j), Pow(BASE, n), carry, over,
           Val(BASE, a[..j]), a[j], Val(BASE, y[..n]), Val(BASE, y[n..]));
  }

  /** The row's equation, in numbers: `low` is common to both sums, `head` is the product's earlier digits. */
  lemma RowSum(low: nat, r: nat, w: nat, pj: nat, pn: nat, carry: nat, over: nat, head: nat, f: nat, lo: nat, hi: nat)
    requires low + pj * w + Times(pj * pn, over) == Times(head, lo + pn * hi)
    requires r + Times(pn, carry) == w + Times(f, lo)
    ensures low + pj * r + Times(pj * pn, over + carry + Times(f, hi)) == Times(head + pj * f, lo + pn * hi)
  {
    RowEquation(r, w, pj, pn, carry, over, f, lo, hi);
    Distribute(lo + pn * hi, head, pj * f);
  }

  lemma RowEquation(r: nat, w: nat, pj: nat, pn: nat, carry: nat, over: nat, f: nat, lo: nat, hi: nat)
    requires r + pn * carry == w + f * lo
    ensures pj * r + (pj * pn) * (over + carry + f * hi) == pj * w + (pj * pn) * over + (pj * f) * (lo + pn * hi)
  {
    var m := pj * pn;
    Distribute(m, over + carry, f * hi);
    Distribute(m, over, carry);
    Associate(pj, pn, carry);
    Distribute(pj, r, pn * carry);
    Distribute(pj, w, f * lo);
    Associate(pj, f, lo);
    Distribute(pj * f, lo, pn * hi);
    assert m * (f * hi) == (pj * f) * (pn * hi) by {
      Associate(m, f, hi);
      Associate(pj * f, pn, hi);
      Associate(pj, pn, f);
      Associate(pj, f, pn);
    }
  }

  lemma PowZero()
    ensures Pow(BASE, 0) == 1
  {
  }

  lemma {:induction false} IncrementColumn(r: seq<nat>, x: seq<nat>, i: nat)
    requires |r| == i < |x| && Digits(BASE, x)
    requires Val(BASE, r) + Pow(BASE, i) * 1 == Val(BASE, x[..i]) + 1
    ensures var d := (x[i] + 1) % BASE;
            Val(BASE, r + [d]) + Pow(BASE, i + 1) * (if d == 0 then 1 else 0) == Val(BASE, x[..i + 1]) + 1
  {
    hide Val, Pow;
    var n := x[i] + 1;
    CarryStep(BASE, r, 1, x[i], n % BASE, n / BASE, Val(BASE, x[..i]) + 1);
    ValAppend(BASE, x[..i], x[i]);
    assert x[..i + 1] == x[..i] + [x[i]];
  }

  lemma {:induction false} IncrementEnds(r: seq<nat>, x: seq<nat>, i: nat)
    requires |r| == |x| == WIDTH && i < WIDTH && Digits(BASE, r) && Digits(BASE, x)
    requires r[i + 1..] == x[i + 1..] && (r[i] == 0 ==> i == WIDTH - 1)
    requires Val(BASE, r[..i + 1]) + Pow(BASE, i + 1) * (if r[i] == 0 then 1 else 0) == Val(BASE, x[..i + 1]) + 1
    ensures Val(BASE, r) == (Val(BASE, x) + 1) % Modulus()
  {
    hide Val, Pow;
    Whole(r, x, x);
    ValConcat(BASE, r[..i + 1], r[i + 1..]);
    ValConcat(BASE, x[..i + 1], x[i + 1..]);
    assert r[..i + 1] + r[i + 1..] == r && x[..i + 1] + x[i + 1..] == x;
    ModulusIs(Val(BASE, r), if r[i] == 0 then 1 else 0, Val(BASE, x) + 1);
  }

  lemma {:induction false} Complement(x: seq<nat>, r: seq<nat>)
    requires |x| == |r| && Digits(BASE, x) && forall j :: 0 <= j < |x| ==> r[j] == BASE - 1 - x[j]
    ensures Val(BASE, x) + Val(BASE, r) + 1 == Pow(BASE, |x|)
  {
    if x != [] {
      Complement(x[1..], r[1..]);
    }
  }

  lemma NegatedIs(v: nat)
    requires v < Modulus()
    ensures (Modulus() - 1 - v + 1) % Modulus() == if v == 0 then 0 else Modulus() - v
  {
    var m := Modulus();
    if v == 0 {
      DivisionIs(m, m, 1, 0);
    } else {
      DivisionIs(m - v, m, 0, m - v);
    }
  }

  lemma SubtractedIs(v: nat, w: nat)
    requires v < Modulus() && w < Modulus()
    ensures (v + if w == 0 then 0 else Modulus() - w) % Modulus() == if v >= w then v - w else v - w + Modulus()
  {
    hide Modulus;
    var m := Modulus();
    if v >= w {
      DivisionIs(v + (if w == 0 then 0 else m - w), m, if w == 0 then 0 else 1, v - w);
    } else {
      DivisionIs(v + m - w, m, 0, v + m - w);
    }
  }

  lemma {:induction false} Whole(r: seq<nat>, x: seq<nat>, y: seq<nat>)
    requires |r| == |x| == |y| == WIDTH && Digits(BASE, r)
    ensures r[..WIDTH] == r && x[..WIDTH] == x && y[..WIDTH] == y
    ensures Val(BASE, r) < Modulus()
    ensures Val(BASE, r[..0]) == Val(BASE, x[..0]) == Val(BASE, y[..0]) == 0
  {
    ValBound(BASE, r);
  }

  lemma {:induction false} AddColumn(r: seq<nat>, carry: nat, x: seq<nat>, y: seq<nat>, i: nat)
    requires |r| == i < |x| == |y| && carry <= 1 && x[i] < BASE && y[i] < BASE
    requires Val(BASE, r) + Times(Pow(BASE, i), carry) == Val(BASE, x[..i]) + Val(BASE, y[..i])
    ensures var n := carry + x[i] + y[i];
      && Val(BASE, r + [LowLimb(n)]) + Times(Pow(BASE, i + 1), CarryOf(n)) ==
         Val(BASE, x[..i + 1]) + Val(BASE, y[..i + 1])
      && LowLimb(n) < BASE && CarryOf(n) <= 1
  {
    hide Val, Pow;
    var n := carry + x[i] + y[i];
    CarryStep(BASE, r, carry, x[i] + y[i], n % BASE, n / BASE, Val(BASE, x[..i]) + Val(BASE, y[..i]));
    ValAppend(BASE, x[..i], x[i]);
    ValAppend(BASE, y[..i], y[i]);
    assert x[..i + 1] == x[..i] + [x[i]] && y[..i + 1] == y[..i] + [y[i]];
    Distribute(Pow(BASE, i), x[i], y[i]);
  }
}
