/**
 The compact target format: a size in bytes, a sign bit and the three leading bytes of a
 256-bit number.
 */
module CompactTarget {
  import opened Positional
  import opened LimbShift
  import opened Uint256

  const SIGN_BIT: nat := 0x80_0000
  const SIZE_UNIT: nat := 0x100_0000

  function Pow256(n: nat): nat {
    Pow(256, n)
  }

  // ---------------------------------------------------------------- the format

  function SizeOf(compact: nat): nat {
    compact / SIZE_UNIT
  }

  function WordOf(compact: nat): nat {
    compact % SIGN_BIT
  }

  predicate SignOf(compact: nat) {
    compact / SIGN_BIT % 2 == 1
  }

  /** The number of `size` bytes that starts with the three bytes `word`. */
  function Expand(word: nat, size: nat): nat {
    PowPositive(256, 3);
    PowPositive(256, if size <= 3 then 3 - size else 0);
    if size <= 3 then word / Pow256(3 - size) else word * Pow256(size - 3)
  }

  /** The first three of the `size` bytes of `v`. */
  function Leading(v: nat, size: nat): nat {
    PowPositive(256, if size > 3 then size - 3 else 0);
    if size <= 3 then v * Pow256(3 - size) else v / Pow256(size - 3)
  }

  /** How many bytes the number takes. */
  function Bytes(v: nat): nat {
    if v == 0 then 0 else 1 + Bytes(v / 256)
  }

  /** The size field for `v`: one more than its bytes when the leading byte would set the sign bit. */
  function SizeFor(v: nat): nat {
    if Leading(v, Bytes(v)) >= SIGN_BIT then Bytes(v) + 1 else Bytes(v)
  }

  function Encode(v: nat, negative: bool): nat {
    var word := Leading(v, SizeFor(v));
    SizeFor(v) * SIZE_UNIT + (if negative && word != 0 then SIGN_BIT else 0) + word
  }

  predicate Overflows(word: nat, size: nat) {
    word != 0 && (size > 34 || (word > 0xff && size > 33) || (word > 0xffff && size > 32))
  }

  // ---------------------------------------------------------------- lemmas

  lemma {:induction false} BytesMeaning(v: nat)
    ensures v < Pow256(Bytes(v))
    ensures v > 0 ==> Bytes(v) > 0 && Pow256(Bytes(v) - 1) <= v
  {
    if v > 0 {
      var q := v / 256;
      BytesMeaning(q);
      assert v < 256 * (q + 1);
    }
  }

  lemma {:induction false} BytesUnique(v: nat, n: nat)
    requires v < Pow256(n) && n > 0 && Pow256(n - 1) <= v
    ensures Bytes(v) == n
  {
    hide Bytes, Pow;
    PowPositive(256, n - 1);
    BytesMeaning(v);
    if Bytes(v) < n {
      PowMonotone(256, Bytes(v), n - 1);
    } else if Bytes(v) > n {
      PowMonotone(256, n, Bytes(v) - 1);
    }
  }

  lemma LeadingNext(v: nat, size: nat)
    ensures Leading(v, size + 1) == Leading(v, size) / 256
  {
    hide Pow256;
    Pow256Next(if size < 3 then 2 - size else size - 3);
    if size < 3 {
      Swap(v, 256, Pow256(2 - size));
    } else if size == 3 {
      Pow256Zero();
    } else {
      DivideTwice(v, Pow256(size - 3), 256);
    }
  }

  lemma Pow256Next(n: nat)
    ensures Pow256(n + 1) == 256 * Pow256(n) && Pow256(n) > 0
  {
    PowPositive(256, n);
  }

  lemma Pow256Zero()
    ensures Pow256(0) == 1 && Pow256(1) == 256 && Pow256(2) == 0x1_0000 && Pow256(3) == SIZE_UNIT
  {
    Pow256Next(0);
    Pow256Next(1);
    Pow256Next(2);
  }

  lemma Pow256Adds(m: nat, n: nat)
    ensures Pow256(m + n) == Pow256(m) * Pow256(n)
  {
    PowAdd(256, m, n);
  }

  /** The leading three bytes of a number of `n` bytes. */
  lemma {:induction false} LeadingBounds(v: nat)
    ensures Leading(v, Bytes(v)) < SIZE_UNIT
    ensures v > 0 ==> Leading(v, Bytes(v)) >= 0x1_0000
  {
    hide Pow256, Bytes;
    var n := Bytes(v);
    BytesMeaning(v);
    Pow256Zero();
    if n <= 3 {
      var p := Pow256(3 - n);
      Pow256Next(3 - n);
      Pow256Adds(n, 3 - n);
      Scaled(v, Pow256(n), p);
      if v > 0 {
        Pow256Adds(n - 1, 3 - n);
        Monotone(Pow256(n - 1), v, p);
      }
    } else {
      var p := Pow256(n - 3);
      Pow256Next(n - 3);
      Pow256Adds(n - 3, 3);
      ShrinksBelow(v, p, Pow256(3));
      if v > 0 {
        Pow256Adds(n - 3, 2);
        QuotientAtLeast(v, p, 0x1_0000);
      }
    }
  }

  lemma QuotientAtLeast(v: nat, p: nat, q: nat)
    requires p > 0 && p * q <= v
    ensures v / p >= q
  {
    if v / p < q {
      Monotone(v / p + 1, q, p);
      Distribute(p, v / p, 1);
    }
  }

  /** The word of an encoded number leaves the sign bit clear, and is zero for zero only. */
  lemma {:induction false} WordFits(v: nat)
    ensures Leading(v, SizeFor(v)) < SIGN_BIT
    ensures v > 0 ==> Leading(v, SizeFor(v)) >= 0x8000
    ensures v > 0 && SizeFor(v) == Bytes(v) ==> Leading(v, SizeFor(v)) >= 0x1_0000
    ensures SizeFor(v) != Bytes(v) ==> SizeFor(v) == Bytes(v) + 1 && Leading(v, SizeFor(v)) < 0x1_0000
    ensures v == 0 ==> SizeFor(v) == 0 && Leading(v, SizeFor(v)) == 0
  {
    hide Pow256;
    LeadingBounds(v);
    LeadingNext(v, Bytes(v));
    if v == 0 {
      assert 0 * Pow256(3) == 0;
    }
  }

  /** What the mantissa keeps of a number: all of it up to three bytes, otherwise the leading ones. */
  function RoundedDown(v: nat): nat {
    RoundedTo(v, SizeFor(v))
  }

  /** What the three leading bytes of a number of this size leave of it. */
  function RoundedTo(v: nat, size: nat): nat {
    if size <= 3 then v
    else
      PowPositive(256, size - 3);
      MultipleOf(v, Pow256(size - 3))
  }

  function MultipleOf(v: nat, p: nat): nat
    requires p > 0
  {
    v - v % p
  }

  lemma ExpandLeading(v: nat)
    ensures Expand(Leading(v, SizeFor(v)), SizeFor(v)) == RoundedDown(v) <= v
  {
    hide Pow256, SizeFor;
    var size := SizeFor(v);
    if size <= 3 {
      var p := Pow256(3 - size);
      Pow256Next(3 - size);
      DivisionIs(v * p, p, v, 0);
    } else {
      Pow256Next(size - 3);
    }
  }

  lemma FieldsOf(v: nat, negative: bool)
    ensures SizeOf(Encode(v, negative)) == SizeFor(v)
    ensures WordOf(Encode(v, negative)) == Leading(v, SizeFor(v))
    ensures SignOf(Encode(v, negative)) <==> negative && v != 0
  {
    hide SizeFor, Leading;
    WordFits(v);
    var word := Leading(v, SizeFor(v));
    Fields(SizeFor(v), if negative && word != 0 then 1 else 0, word);
  }

  lemma Fields(size: nat, sign: nat, word: nat)
    requires sign <= 1 && word < SIGN_BIT
    ensures var n := size * SIZE_UNIT + sign * SIGN_BIT + word;
            SizeOf(n) == size && WordOf(n) == word && (SignOf(n) <==> sign == 1)
  {
    var n := size * SIZE_UNIT + sign * SIGN_BIT + word;
    DivisionIs(n, SIZE_UNIT, size, sign * SIGN_BIT + word);
    DivisionIs(n, SIGN_BIT, 2 * size + sign, word);
  }

  lemma ModulusIs256()
    ensures Modulus() == Pow256(32)
  {
    hide Pow;
    Pow256IsPow2(32);
    Pow2Limbs(WIDTH);
  }

  lemma {:induction false} Pow256IsPow2(n: nat)
    ensures Pow256(n) == Pow2(8 * n)
  {
    if n > 0 {
      Pow256IsPow2(n - 1);
      PowAdd(2, 8, 8 * (n - 1));
      assert Pow(2, 8) == 256;
    }
  }

  /** The overflow flag is exactly that the number does not fit 256 bits. */
  lemma OverflowMeaning(word: nat, size: nat)
    requires word < SIGN_BIT
    ensures Overflows(word, size) <==> size > 3 && word * Pow256(size - 3) >= Modulus()
  {
    hide Pow256;
    ModulusIs256();
    Pow256Zero();
    if size > 3 && word > 0 {
      var p := Pow256(size - 3);
      Pow256Next(size - 3);
      if size > 34 {
        PowMonotone(256, 32, size - 3);
        PowsAre(size - 3);
        Monotone(1, word, p);
      } else {
        Pow256Adds(size - 3, 35 - size);
        ThresholdIs(word, p, Pow256(35 - size));
        if size < 32 {
          PowMonotone(256, 3, 35 - size);
          PowsAre(35 - size);
        }
      }
    }
  }

  lemma {:induction false} PowsAre(n: nat)
    ensures Pow256(n) == Pow(256, n) && Pow256(32) == Pow(256, 32) && Pow256(3) == Pow(256, 3)
  {
  }

  lemma ThresholdIs(word: nat, p: nat, q: nat)
    requires p > 0
    ensures word * p >= p * q <==> word >= q
  {
    if word >= q {
      Monotone(q, word, p);
    } else {
      Scaled(word, q, p);
    }
  }

  // ---------------------------------------------------------------- round trips

  /** Reading back what was written: no overflow, the sign of a nonzero number, and the number rounded down. */
  lemma DecodeEncoded(v: nat, negative: bool)
    requires v < Modulus()
    ensures var n := Encode(v, negative);
            && !Overflows(WordOf(n), SizeOf(n))
            && (SignOf(n) <==> negative && v != 0)
            && Expand(WordOf(n), SizeOf(n)) == RoundedDown(v) <= v
  {
    hide Pow256, SizeFor, Leading, Modulus;
    FieldsOf(v, negative);
    ExpandLeading(v);
    WordFits(v);
    OverflowMeaning(Leading(v, SizeFor(v)), SizeFor(v));
  }

  /** What rounding down drops is less than one unit of the mantissa, which has at least fifteen bits. */
  lemma RoundingLoss(v: nat)
    ensures v > 0 ==> 0x8000 * (v - RoundedDown(v)) < v
  {
    hide Pow256, SizeFor;
    var size := SizeFor(v);
    WordFits(v);
    if size > 3 && v > 0 {
      Pow256Next(size - 3);
      LossOf(v, Pow256(size - 3));
    }
  }

  lemma LossOf(v: nat, p: nat)
    requires p > 0 && v / p >= 0x8000
    ensures 0x8000 * (v % p) < v
  {
    Monotone(0x8000, v / p, p);
  }

  /** Writing again what was read back gives the same compact form. */
  lemma EncodeIsFixed(v: nat, negative: bool)
    ensures Encode(RoundedDown(v), negative) == Encode(v, negative)
  {
    hide Pow256, Bytes;
    var size := SizeFor(v);
    if size > 3 {
      var word := Leading(v, size);
      var p := Pow256(size - 3);
      WordFits(v);
      ExpandLeading(v);
      Pow256Next(size - 3);
      assert v > 0 by { BytesOfZero(); LeadingOfZero(); }
      DivisionIs(word * p, p, word, 0);
      if size == Bytes(v) {
        WholeMantissa(word, p, size);
      } else {
        ShortMantissa(word, p, size);
      }
    }
  }

  lemma BytesOfZero()
    ensures Bytes(0) == 0
  {
  }

  lemma LeadingOfZero()
    ensures Leading(0, 0) == 0
  {
    assert 0 * Pow256(3) == 0;
  }

  lemma {:induction false} WholeMantissa(word: nat, p: nat, size: nat)
    requires size > 3 && p == Pow256(size - 3) && 0x1_0000 <= word < SIGN_BIT
    ensures Bytes(word * p) == size
  {
    hide Pow256;
    Pow256Zero();
    Pow256Next(size - 3);
    Pow256Adds(2, size - 3);
    Pow256Adds(3, size - 3);
    Monotone(0x1_0000, word, p);
    Scaled(word, SIZE_UNIT, p);
    BytesUnique(word * p, size);
  }

  lemma {:induction false} ShortMantissa(word: nat, p: nat, size: nat)
    requires size > 3 && p == Pow256(size - 3) && 0x8000 <= word < 0x1_0000
    ensures Bytes(word * p) == size - 1
    ensures Leading(word * p, size - 1) == 256 * word >= SIGN_BIT
  {
    hide Pow256, Bytes;
    Pow256Zero();
    Pow256Next(size - 3);
    Pow256Next(size - 4);
    Pow256Adds(1, size - 3);
    Pow256Adds(2, size - 3);
    Monotone(256, word, p);
    Scaled(word, 0x1_0000, p);
    BytesUnique(word * p, size - 1);
    var h := Pow256(size - 4);
    Associate(word, 256, h);
    DivisionIs(word * p, h, 256 * word, 0);
  }

  // ---------------------------------------------------------------- on 256-bit numbers

  method SetCompact(t: BaseUint, compact: nat) returns (negative: bool, overflow: bool)
    requires t.Valid() && compact < 0x1_0000_0000
    modifies t.pn
    ensures t.Valid()
    ensures overflow <==> SizeOf(compact) > 3 && WordOf(compact) * Pow256(SizeOf(compact) - 3) >= Modulus()
    ensures !overflow ==> t.Value() == Expand(WordOf(compact), SizeOf(compact))
    ensures overflow ==> t.Value() == Expand(WordOf(compact), SizeOf(compact)) % Modulus()
    ensures negative <==> SignOf(compact) && Expand(WordOf(compact), SizeOf(compact)) != 0
  {
    hide Pow256, Modulus, Pow2, Val;
    var size := compact / SIZE_UNIT;
    var word := compact % SIGN_BIT;
    OverflowMeaning(word, size);
    if size <= 3 {
      word := ShiftedDown(word, 8 * (3 - size));
      BytesDown(compact % SIGN_BIT, 3 - size);
      t.Assign(word);
    } else {
      t.Assign(word);
      t.ShiftLeft(8 * (size - 3));
      BytesUp(word, size - 3);
    }
    negative := word != 0 && SignOf(compact);
    overflow := Overflows(word, size);
  }

  lemma BytesDown(word: nat, n: nat)
    requires word < SIGN_BIT
    ensures Pow256(n) > 0 && ShiftedDown(word, 8 * n) == word / Pow256(n) < SIGN_BIT
  {
    Pow256IsPow2(n);
    ShrinksBelow(word, Pow256(n), SIGN_BIT);
  }

  lemma BytesUp(word: nat, n: nat)
    ensures word * Pow2(8 * n) == word * Pow256(n)
    ensures word * Pow256(n) < Modulus() ==> (word * Pow256(n)) % Modulus() == word * Pow256(n)
    ensures word > 0 ==> word * Pow256(n) > 0
  {
    Pow256IsPow2(n);
    Pow256Next(n);
    if word * Pow256(n) < Modulus() {
      DivisionIs(word * Pow256(n), Modulus(), 0, word * Pow256(n));
    }
    if word > 0 {
      Monotone(1, word, Pow256(n));
    }
  }

  method GetCompact(t: BaseUint, negative: bool) returns (compact: nat)
    requires t.Valid()
    ensures compact == Encode(t.Value(), negative) < 0x1_0000_0000
  {
    hide Pow256, Pow2, Val, Or, Leading, Bytes;
    var bits := t.Bits();
    var size := (bits + 7) / 8;
    ghost var v := t.Value();
    BytesOfBits(v, bits);
    ValueBound(t.pn[..]);
    SizeBound(v);
    LeadingBounds(v);
    LeadingNext(v, size);
    WordFits(v);
    if size <= 3 {
      compact := Low64(t) * Pow2(8 * (3 - size));
      LeadingShort(v, size);
    } else {
      var bn := new BaseUint.Copy(t);
      bn.ShiftRight(8 * (size - 3));
      LeadingLong(v, size);
      ValueBound(bn.pn[..]);
      compact := Low64(bn);
    }
    if compact >= SIGN_BIT {
      compact := compact / 256;
      size := size + 1;
    }
    assert compact < SIGN_BIT && size < 256;
    OrFields(compact, size);
    var mantissa := compact;
    compact := Or(compact, size * SIZE_UNIT);
    compact := Or(compact, if negative && mantissa != 0 then SIGN_BIT else 0);
  }

  function Low64(t: BaseUint): nat
    reads t.pn
    requires t.Valid()
    ensures t.Value() < BASE * BASE ==> Low64(t) == t.Value()
  {
    LowTwo(t.pn[..]);
    t.pn[0] + t.pn[1] * BASE
  }

  lemma {:induction false} LowTwo(s: seq<nat>)
    requires |s| == WIDTH && Digits(BASE, s)
    ensures Val(BASE, s) < BASE * BASE ==> Val(BASE, s) == s[0] + s[1] * BASE
  {
    var rest := Val(BASE, s[2..]);
    assert s[1..][1..] == s[2..];
    assert Val(BASE, s[1..]) == s[1] + BASE * rest;
  }

  lemma {:induction false} ValueBound(s: seq<nat>)
    requires |s| == WIDTH && Digits(BASE, s)
    ensures Val(BASE, s) < Modulus()
  {
    ValBound(BASE, s);
  }

  lemma {:induction false} BytesOfBits(v: nat, bits: nat)
    requires if v == 0 then bits == 0 else bits > 0 && Pow2(bits - 1) <= v < Pow2(bits)
    ensures Bytes(v) == (bits + 7) / 8
  {
    if v > 0 {
      var n := (bits + 7) / 8;
      Pow256IsPow2(n);
      Pow256IsPow2(n - 1);
      PowMonotone(2, bits, 8 * n);
      PowMonotone(2, 8 * (n - 1), bits - 1);
      BytesUnique(v, n);
    }
  }

  lemma {:induction false} SizeBound(v: nat)
    requires v < Modulus()
    ensures Bytes(v) <= 32
  {
    ModulusIs256();
    BytesMeaning(v);
    if Bytes(v) > 32 {
      PowMonotone(256, 32, Bytes(v) - 1);
    }
  }

  lemma LeadingShort(v: nat, size: nat)
    requires size <= 3 && Leading(v, size) < SIZE_UNIT
    ensures v * Pow2(8 * (3 - size)) == Leading(v, size) && v < BASE * BASE
  {
    Pow256IsPow2(3 - size);
    Pow256Next(3 - size);
    Monotone(1, Pow256(3 - size), v);
  }

  lemma LeadingLong(v: nat, size: nat)
    requires size > 3
    ensures Pow2(8 * (size - 3)) > 0 && v / Pow2(8 * (size - 3)) == Leading(v, size)
  {
    Pow256IsPow2(size - 3);
  }

  /** Joining mantissa, size and sign bit by or is adding them. */
  lemma {:induction false} OrFields(word: nat, size: nat)
    requires word < SIGN_BIT
    ensures Or(word, size * SIZE_UNIT) == size * SIZE_UNIT + word
    ensures Or(size * SIZE_UNIT + word, SIGN_BIT) == size * SIZE_UNIT + SIGN_BIT + word
    ensures Or(size * SIZE_UNIT + word, 0) == size * SIZE_UNIT + word
  {
    hide Or, Pow;
    Pow2Fields();
    OrDisjoint(size, word, 24);
    OrBit(size, word, 23);
    OrZero(size * SIZE_UNIT + word);
  }

  lemma Pow2Fields()
    ensures Pow2(23) == SIGN_BIT && Pow2(24) == SIZE_UNIT
  {
    assert Pow2(8) == 0x100;
    PowAdd(2, 8, 8);
    PowAdd(2, 16, 8);
    Pow2Doubles(23);
  }

  lemma {:induction false} OrBit(a: nat, m: nat, s: nat)
    requires m < Pow2(s)
    ensures Or((2 * a) * Pow2(s) + m, Pow2(s)) == (2 * a + 1) * Pow2(s) + m
    decreases s
  {
    hide Or;
    var x, p := (2 * a) * Pow2(s) + m, Pow2(s);
    if s == 0 {
      assert Pow2(0) == 1;
      OrHalves(a, 1);
      OrZero(a);
    } else {
      var h := Pow2(s - 1);
      Pow2Doubles(s - 1);
      Swap(2 * a, 2, h);
      Swap(2 * a + 1, 2, h);
      OrBit(a, m / 2, s - 1);
      assert x / 2 == (2 * a) * h + m / 2;
      OrHalves(h, x);
      OrCommutes(x, 2 * h);
      OrCommutes(x / 2, h);
    }
  }
}
