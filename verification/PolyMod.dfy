/**
 The Bech32 checksum (section "Checksum" of BIP 173) as a fold over 5-bit symbols: linear
 over exclusive or, so that a checksum can be appended, and free of collisions among
 messages that differ in few neighbouring symbols.
 */
module PolyMod {
  import opened Positional
  import opened Sequences
  import opened ExclusiveOr

  /** Above the low five symbols of a state. */
  const TOP: nat := 0x200_0000
  /** States hold six symbols of five bits. */
  const STATES: nat := 0x4000_0000

  const K0: nat := 0x3b6a57b2
  const K1: nat := 0x26508e6d
  const K2: nat := 0x1ea119fa
  const K3: nat := 0x3d4233dd
  const K4: nat := 0x2a1462b3

  function Pick(c: nat, n: nat, k: nat): nat {
    if BitOn(c, n) then k else 0
  }

  /** What the symbol shifted out of a state contributes. */
  function Reduced(c: nat): nat {
    Xor(Pick(c, 0, K0), Xor(Pick(c, 1, K1), Xor(Pick(c, 2, K2), Xor(Pick(c, 3, K3), Pick(c, 4, K4)))))
  }

  function Step(c: nat, v: nat): nat {
    Xor(Xor((c % TOP) * 32, v), Reduced(c / TOP))
  }

  function Fold(c: nat, v: seq<nat>): nat
    decreases |v|
  {
    if v == [] then c else Fold(Step(c, v[0]), v[1..])
  }

  method PolyModOf(v: seq<nat>) returns (c: nat)
    ensures c == Fold(1, v)
  {
    hide Step;
    c := 1;
    for i := 0 to |v|
      invariant Fold(c, v[i..]) == Fold(1, v)
    {
      assert v[i..][1..] == v[i + 1..];
      c := NextState(c, v[i]);
    }
  }

  method NextState(was: nat, v: nat) returns (c: nat)
    ensures c == Step(was, v)
  {
    hide Xor, BitOn;
    var c0 := was / TOP;
    c := Xor((was % TOP) * 32, v);
    ghost var x := c;
    if BitOn(c0, 0) {
      c := Xor(c, K0);
    }
    if BitOn(c0, 1) {
      c := Xor(c, K1);
    }
    if BitOn(c0, 2) {
      c := Xor(c, K2);
    }
    if BitOn(c0, 3) {
      c := Xor(c, K3);
    }
    if BitOn(c0, 4) {
      c := Xor(c, K4);
    }
    AddedOneByOne(x, c0);
  }

  lemma {:induction false} AddedOneByOne(x: nat, c: nat)
    ensures var x1 := if BitOn(c, 0) then Xor(x, K0) else x;
            var x2 := if BitOn(c, 1) then Xor(x1, K1) else x1;
            var x3 := if BitOn(c, 2) then Xor(x2, K2) else x2;
            var x4 := if BitOn(c, 3) then Xor(x3, K3) else x3;
            var x5 := if BitOn(c, 4) then Xor(x4, K4) else x4;
            x5 == Xor(x, Reduced(c))
  {
    hide Xor, BitOn;
    var x1 := Xor(x, Pick(c, 0, K0));
    var x2 := Xor(x1, Pick(c, 1, K1));
    var x3 := Xor(x2, Pick(c, 2, K2));
    var x4 := Xor(x3, Pick(c, 3, K3));
    XorZero(x);
    XorZero(x1);
    XorZero(x2);
    XorZero(x3);
    XorZero(x4);
    var r3 := Xor(Pick(c, 3, K3), Pick(c, 4, K4));
    var r2 := Xor(Pick(c, 2, K2), r3);
    var r1 := Xor(Pick(c, 1, K1), r2);
    XorAssociates(x3, Pick(c, 3, K3), Pick(c, 4, K4));
    XorAssociates(x2, Pick(c, 2, K2), r3);
    XorAssociates(x1, Pick(c, 1, K1), r2);
    XorAssociates(x, Pick(c, 0, K0), r1);
  }

  // ---------------------------------------------------------------- linearity

  lemma {:induction false} BitOnLinear(a: nat, b: nat, n: nat)
    ensures BitOn(Xor(a, b), n) <==> BitOn(a, n) != BitOn(b, n)
  {
    hide Xor, Pow2;
    XorShiftsDown(a, b, n);
    XorUnfolds(a / Pow2(n), b / Pow2(n));
  }

  lemma {:induction false} PickLinear(a: nat, b: nat, n: nat, k: nat)
    ensures Pick(Xor(a, b), n, k) == Xor(Pick(a, n, k), Pick(b, n, k))
  {
    hide Xor, BitOn;
    BitOnLinear(a, b, n);
    XorSelf(k);
    XorZero(k);
    XorZero(0);
  }

  lemma {:induction false} ReducedLinear(a: nat, b: nat)
    ensures Reduced(Xor(a, b)) == Xor(Reduced(a), Reduced(b))
  {
    hide Xor, Pick;
    PickLinear(a, b, 0, K0);
    PickLinear(a, b, 1, K1);
    PickLinear(a, b, 2, K2);
    PickLinear(a, b, 3, K3);
    PickLinear(a, b, 4, K4);
    var a3, b3 := Xor(Pick(a, 3, K3), Pick(a, 4, K4)), Xor(Pick(b, 3, K3), Pick(b, 4, K4));
    var a2, b2 := Xor(Pick(a, 2, K2), a3), Xor(Pick(b, 2, K2), b3);
    var a1, b1 := Xor(Pick(a, 1, K1), a2), Xor(Pick(b, 1, K1), b2);
    XorExchanges(Pick(a, 3, K3), Pick(b, 3, K3), Pick(a, 4, K4), Pick(b, 4, K4));
    XorExchanges(Pick(a, 2, K2), Pick(b, 2, K2), a3, b3);
    XorExchanges(Pick(a, 1, K1), Pick(b, 1, K1), a2, b2);
    XorExchanges(Pick(a, 0, K0), Pick(b, 0, K0), a1, b1);
  }

  lemma {:induction false} StepLinear(c: nat, d: nat, v: nat, w: nat)
    ensures Step(Xor(c, d), Xor(v, w)) == Xor(Step(c, v), Step(d, w))
  {
    hide Xor, Reduced, Pow2;
    Powers();
    XorMasks(c, d, 25);
    XorShiftsUp(c % TOP, d % TOP, 5);
    XorShiftsDown(c, d, 25);
    ReducedLinear(c / TOP, d / TOP);
    var cs, ds := (c % TOP) * 32, (d % TOP) * 32;
    XorExchanges(cs, ds, v, w);
    XorExchanges(Xor(cs, v), Xor(ds, w), Reduced(c / TOP), Reduced(d / TOP));
  }

  lemma Powers()
    ensures Pow2(5) == 32 && Pow2(25) == TOP && Pow2(30) == STATES
    ensures Pow2(0) == 1 && Pow2(1) == 2 && Pow2(2) == 4 && Pow2(3) == 8 && Pow2(4) == 16
  {
    assert Pow(2, 5) == 32;
    PowAdd(2, 5, 5);
    PowAdd(2, 10, 10);
    PowAdd(2, 20, 5);
    PowAdd(2, 25, 5);
  }

  function XorAll(v: seq<nat>, w: seq<nat>): (r: seq<nat>)
    requires |v| == |w|
    ensures |r| == |v|
  {
    seq(|v|, i requires 0 <= i < |v| => Xor(v[i], w[i]))
  }

  /** The checksum of a symbol-wise exclusive or is the exclusive or of the checksums. */
  lemma {:induction false} FoldLinear(c: nat, d: nat, v: seq<nat>, w: seq<nat>)
    requires |v| == |w|
    ensures Fold(Xor(c, d), XorAll(v, w)) == Xor(Fold(c, v), Fold(d, w))
    decreases |v|
  {
    hide Step, Xor;
    if v != [] {
      StepLinear(c, d, v[0], w[0]);
      FoldLinear(Step(c, v[0]), Step(d, w[0]), v[1..], w[1..]);
      assert XorAll(v, w)[1..] == XorAll(v[1..], w[1..]);
    }
  }

  lemma {:induction false} FoldConcat(c: nat, v: seq<nat>, w: seq<nat>)
    ensures Fold(c, v + w) == Fold(Fold(c, v), w)
    decreases |v|
  {
    hide Step;
    if v == [] {
      assert v + w == w;
    } else {
      FoldConcat(Step(c, v[0]), v[1..], w);
      assert (v + w)[1..] == v[1..] + w;
    }
  }

  // ---------------------------------------------------------------- states and symbols

  predicate Symbols(v: seq<nat>) {
    forall i :: 0 <= i < |v| ==> v[i] < 32
  }

  lemma PickBelow(c: nat, n: nat, k: nat)
    requires k < STATES
    ensures Pick(c, n, k) < STATES
  {
  }

  lemma {:induction false} BelowStates(a: nat, b: nat)
    requires a < STATES && b < STATES
    ensures Xor(a, b) < STATES
  {
    hide Xor, Pow2;
    Powers();
    XorBelow(a, b, 30);
  }

  lemma StepKeeps(c: nat, v: nat)
    requires v < STATES
    ensures Step(c, v) < STATES
  {
    hide Xor, Pick;
    var d := c / TOP;
    PickBelow(d, 0, K0);
    PickBelow(d, 1, K1);
    PickBelow(d, 2, K2);
    PickBelow(d, 3, K3);
    PickBelow(d, 4, K4);
    BelowStates(Pick(d, 3, K3), Pick(d, 4, K4));
    BelowStates(Pick(d, 2, K2), Xor(Pick(d, 3, K3), Pick(d, 4, K4)));
    BelowStates(Pick(d, 1, K1), Xor(Pick(d, 2, K2), Xor(Pick(d, 3, K3), Pick(d, 4, K4))));
    BelowStates(Pick(d, 0, K0), Xor(Pick(d, 1, K1), Xor(Pick(d, 2, K2), Xor(Pick(d, 3, K3), Pick(d, 4, K4)))));
    BelowStates((c % TOP) * 32, v);
    BelowStates(Xor((c % TOP) * 32, v), Reduced(d));
  }

  lemma {:induction false} FoldKeeps(c: nat, v: seq<nat>)
    requires c < STATES && forall i :: 0 <= i < |v| ==> v[i] < STATES
    ensures Fold(c, v) < STATES
    decreases |v|
  {
    hide Step;
    if v != [] {
      StepKeeps(c, v[0]);
      FoldKeeps(Step(c, v[0]), v[1..]);
    }
  }

  lemma NothingReduced()
    ensures Reduced(0) == 0
  {
    hide Xor, Pow2;
    Powers();
    XorZero(0);
  }

  /** While the top symbol is zero, a step appends the new symbol. */
  lemma StepAppends(c: nat, v: nat)
    requires c < TOP && v < 32
    ensures Step(c, v) == c * 32 + v
  {
    hide Xor, Reduced, Pow2;
    Powers();
    DivisionIs(c, TOP, 0, c);
    NothingReduced();
    XorDisjoint(c, v, 5);
    XorZero(c * 32 + v);
  }

  /** The symbols as one number, first symbol on top. */
  function Packed(v: seq<nat>): nat {
    if v == [] then 0 else Packed(v[..|v| - 1]) * 32 + v[|v| - 1]
  }

  lemma {:induction false} PackedBelow(v: seq<nat>)
    requires Symbols(v)
    ensures Packed(v) < Pow(32, |v|)
  {
    if v != [] {
      PackedBelow(v[..|v| - 1]);
    }
  }

  lemma Pow32()
    ensures Pow(32, 5) == TOP && Pow(32, 6) == STATES
  {
    assert Pow(32, 2) == 0x400;
    PowAdd(32, 2, 2);
    PowAdd(32, 4, 1);
    PowAdd(32, 4, 2);
    assert Pow(32, 1) == 32;
  }

  /** From the zero state, up to six symbols are just packed. */
  lemma {:induction false} FoldPacks(v: seq<nat>)
    requires Symbols(v) && |v| <= 6
    ensures Fold(0, v) == Packed(v) < STATES
  {
    hide Step, Pow;
    Pow32();
    PackedBelow(v);
    PowMonotone(32, |v|, 6);
    if v != [] {
      var front, x := v[..|v| - 1], v[|v| - 1];
      FoldPacks(front);
      PackedBelow(front);
      PowMonotone(32, |front|, 5);
      assert v == front + [x];
      FoldConcat(0, front, [x]);
      FoldOne(Packed(front), x);
      StepAppends(Packed(front), x);
    }
  }

  lemma {:induction false} FoldOne(c: nat, x: nat)
    ensures Fold(c, [x]) == Step(c, x)
  {
    assert [x][1..] == [];
  }

  // ---------------------------------------------------------------- no collisions

  lemma ReducedBit(c: nat, j: nat)
    ensures BitOn(Reduced(c), j) <==>
            (BitOn(c, 0) && BitOn(K0, j)) != ((BitOn(c, 1) && BitOn(K1, j)) != ((BitOn(c, 2) && BitOn(K2, j)) !=
            ((BitOn(c, 3) && BitOn(K3, j)) != (BitOn(c, 4) && BitOn(K4, j)))))
  {
    hide Xor, BitOn;
    var r3 := Xor(Pick(c, 3, K3), Pick(c, 4, K4));
    var r2 := Xor(Pick(c, 2, K2), r3);
    var r1 := Xor(Pick(c, 1, K1), r2);
    BitOnLinear(Pick(c, 3, K3), Pick(c, 4, K4), j);
    BitOnLinear(Pick(c, 2, K2), r3, j);
    BitOnLinear(Pick(c, 1, K1), r2, j);
    BitOnLinear(Pick(c, 0, K0), r1, j);
    NoBitOfZero(j);
  }

  lemma NoBitOfZero(j: nat)
    ensures !BitOn(0, j)
  {
    DivisionIs(0, Pow2(j), 0, 0);
  }

  lemma LowBits(k: nat)
    ensures BitOn(k, 0) <==> k % 2 == 1
    ensures BitOn(k, 1) <==> k / 2 % 2 == 1
    ensures BitOn(k, 2) <==> k / 4 % 2 == 1
    ensures BitOn(k, 3) <==> k / 8 % 2 == 1
    ensures BitOn(k, 4) <==> k / 16 % 2 == 1
  {
    hide Pow2;
    Powers();
  }

  /** The low symbol of what is reduced is zero only for the zero symbol. */
  lemma ReducedLowSymbol(c: nat, q: nat)
    requires c < 32 && Reduced(c) == q * 32
    ensures c == 0
  {
    hide Reduced, BitOn;
    ReducedBit(c, 0);
    ReducedBit(c, 1);
    ReducedBit(c, 2);
    ReducedBit(c, 3);
    ReducedBit(c, 4);
    GeneratorBits();
    MultipleHasNone(q);
    NoBitsIsZero(c);
  }

  lemma MultipleHasNone(q: nat)
    ensures !BitOn(q * 32, 0) && !BitOn(q * 32, 1) && !BitOn(q * 32, 2) && !BitOn(q * 32, 3) && !BitOn(q * 32, 4)
  {
    hide BitOn;
    var r := q * 32;
    LowBits(r);
    DivisionIs(r, 2, 16 * q, 0);
    DivisionIs(r, 4, 8 * q, 0);
    DivisionIs(r, 8, 4 * q, 0);
    DivisionIs(r, 16, 2 * q, 0);
    DivisionIs(16 * q, 2, 8 * q, 0);
    DivisionIs(8 * q, 2, 4 * q, 0);
    DivisionIs(4 * q, 2, 2 * q, 0);
    DivisionIs(2 * q, 2, q, 0);
  }

  lemma NoBitsIsZero(c: nat)
    requires c < 32 && !BitOn(c, 0) && !BitOn(c, 1) && !BitOn(c, 2) && !BitOn(c, 3) && !BitOn(c, 4)
    ensures c == 0
  {
    hide BitOn;
    LowBits(c);
  }

  lemma GeneratorBits()
    ensures !BitOn(K0, 0) && BitOn(K0, 1) && !BitOn(K0, 2) && !BitOn(K0, 3) && BitOn(K0, 4)
    ensures BitOn(K1, 0) && !BitOn(K1, 1) && BitOn(K1, 2) && BitOn(K1, 3) && !BitOn(K1, 4)
    ensures !BitOn(K2, 0) && BitOn(K2, 1) && !BitOn(K2, 2) && BitOn(K2, 3) && BitOn(K2, 4)
    ensures BitOn(K3, 0) && !BitOn(K3, 1) && BitOn(K3, 2) && BitOn(K3, 3) && BitOn(K3, 4)
    ensures BitOn(K4, 0) && BitOn(K4, 1) && !BitOn(K4, 2) && !BitOn(K4, 3) && BitOn(K4, 4)
  {
    hide BitOn;
    LowBits(K0);
    LowBits(K1);
    LowBits(K2);
    LowBits(K3);
    LowBits(K4);
  }

  /** A nonzero state never becomes zero by stepping over a zero symbol. */
  lemma StepOverZero(c: nat)
    requires c < STATES && Step(c, 0) == 0
    ensures c == 0
  {
    hide Xor, Reduced;
    var q := c % TOP;
    XorZero(q * 32);
    XorDiffers(q * 32, Reduced(c / TOP));
    ReducedLowSymbol(c / TOP, q);
    NothingReduced();
  }

  lemma {:induction false} FoldOverZeros(c: nat, n: nat)
    requires 0 < c < STATES
    ensures Fold(c, Zeros(n)) != 0
    decreases n
  {
    hide Step;
    if n > 0 {
      StepKeeps(c, 0);
      if Step(c, 0) == 0 {
        StepOverZero(c);
      }
      FoldOverZeros(Step(c, 0), n - 1);
      assert Zeros(n)[1..] == Zeros(n - 1);
    }
  }

  lemma {:induction false} PackedNonzero(v: seq<nat>, i: nat)
    requires i < |v| && v[i] > 0
    ensures Packed(v) > 0
  {
    if i < |v| - 1 {
      PackedNonzero(v[..|v| - 1], i);
    }
  }

  lemma SymbolsXor(x: seq<nat>, y: seq<nat>)
    requires |x| == |y| && Symbols(x) && Symbols(y)
    ensures Symbols(XorAll(x, y))
  {
    hide Xor, Pow2;
    forall i | 0 <= i < |x|
      ensures XorAll(x, y)[i] < 32
    {
      Powers();
      XorBelow(x[i], y[i], 5);
    }
  }

  /** Two messages of any length that differ, but only within six neighbouring symbols, have different checksums. */
  lemma {:induction false} BurstDetected(p: seq<nat>, x: seq<nat>, y: seq<nat>, q: seq<nat>)
    requires |x| == |y| <= 6 && Symbols(x) && Symbols(y) && x != y
    ensures Fold(1, p + x + q) != Fold(1, p + y + q)
  {
    hide Xor, Step, Fold;
    var c := Fold(1, p);
    var cx, cy := Fold(c, x), Fold(c, y);
    FoldConcat(1, p, x);
    FoldConcat(1, p, y);
    FoldConcat(1, p + x, q);
    FoldConcat(1, p + y, q);
    var d := XorAll(x, y);
    var i :| 0 <= i < |x| && x[i] != y[i];
    XorDiffers(x[i], y[i]);
    SymbolsXor(x, y);
    PackedNonzero(d, i);
    FoldPacks(d);
    FoldLinear(c, c, x, y);
    XorSelf(c);
    FoldLinear(cx, cy, q, q);
    NoDifference(q);
    FoldOverZeros(Packed(d), |q|);
    XorDiffers(Fold(cx, q), Fold(cy, q));
  }

  /** The implicit one in front tells a message from the same message after a zero. */
  lemma {:induction false} LeadingZeroDetected(v: seq<nat>)
    ensures Fold(1, [0] + v) != Fold(1, v)
  {
    hide Xor, Step, Fold;
    FoldConcat(1, [0], v);
    FoldOne(1, 0);
    StepAppends(1, 0);
    FoldLinear(32, 1, v, v);
    NoDifference(v);
    Pow2Of5();
    XorDisjoint(1, 1, 5);
    FoldOverZeros(33, |v|);
    XorDiffers(Fold(32, v), Fold(1, v));
  }

  lemma Pow2Of5()
    ensures Pow2(5) == 32
  {
    Powers();
  }

  lemma NoDifference(q: seq<nat>)
    ensures XorAll(q, q) == Zeros(|q|)
  {
    hide Xor;
    forall i | 0 <= i < |q|
      ensures XorAll(q, q)[i] == 0
    {
      XorSelf(q[i]);
    }
  }

  // ---------------------------------------------------------------- appending a checksum

  /** The lowest `n` symbols of `m`, highest first. */
  function Unpacked(m: nat, n: nat): (r: seq<nat>)
    ensures |r| == n && Symbols(r)
  {
    if n == 0 then [] else Unpacked(m / 32, n - 1) + [m % 32]
  }

  lemma {:induction false} PackUnpacked(m: nat, n: nat)
    requires m < Pow(32, n)
    ensures Packed(Unpacked(m, n)) == m
    decreases n
  {
    if n > 0 {
      PackUnpacked(m / 32, n - 1);
      assert Unpacked(m, n)[..n - 1] == Unpacked(m / 32, n - 1);
    }
  }

  lemma {:induction false} UnpackedAt(m: nat, n: nat, i: nat)
    requires i < n
    ensures Pow(32, n - 1 - i) > 0 && Unpacked(m, n)[i] == m / Pow(32, n - 1 - i) % 32
    decreases n
  {
    PowPositive(32, n - 1 - i);
    if i < n - 1 {
      UnpackedAt(m / 32, n - 1, i);
      DivideTwice(m, 32, Pow(32, n - 2 - i));
    }
  }

  /** The six symbols that make the checksum of a message come out as one. */
  function Checksum(enc: seq<nat>): seq<nat> {
    Unpacked(Xor(Fold(1, enc + Zeros(6)), 1), 6)
  }

  lemma {:induction false} ChecksumVerifies(enc: seq<nat>)
    requires forall i :: 0 <= i < |enc| ==> enc[i] < STATES
    ensures Fold(1, enc + Checksum(enc)) == 1
  {
    hide Xor, Step, Fold, Pow, Unpacked;
    var c, s, z := Fold(1, enc), Checksum(enc), Zeros(6);
    var m := Fold(c, z);
    FoldConcat(1, enc, z);
    FoldConcat(1, enc, s);
    FoldKeeps(1, enc);
    FoldKeeps(c, z);
    BelowStates(m, 1);
    Pow32();
    PackUnpacked(Xor(m, 1), 6);
    FoldPacks(s);
    FoldLinear(c, 0, z, s);
    XorZero(c);
    OnlyChecksum(s);
    XorAssociates(m, m, 1);
    XorSelf(m);
    XorZero(1);
  }

  lemma OnlyChecksum(s: seq<nat>)
    ensures XorAll(Zeros(|s|), s) == s
  {
    hide Xor;
    forall i | 0 <= i < |s|
      ensures XorAll(Zeros(|s|), s)[i] == s[i]
    {
      XorZero(s[i]);
    }
  }
}
