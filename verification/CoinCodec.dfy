/**
 The stored form of a coin record: version, a code for the first two outputs and the size
 of a bit mask for the others, the mask, the unspent outputs and the height.
 */
module CoinCodec {
  import opened Positional
  import opened CoinRecord
  import opened VarInt
  import opened Compressor

  // ---------------------------------------------------------------- the mask

  predicate Avail(vout: seq<TxOut>, i: nat) {
    i < |vout| && !IsNull(vout[i])
  }

  /** Whether the output that bit `p` of mask byte `b` stands for is unspent. */
  predicate InByte(vout: seq<TxOut>, b: nat, p: nat) {
    Avail(vout, 2 + b * 8 + p)
  }

  /** The lowest `n` bits of mask byte `b`: one for each output from `2 + 8 * b` on that is unspent. */
  function MaskBits(vout: seq<TxOut>, b: nat, n: nat): (x: nat)
    ensures x < Pow2(n)
  {
    if n == 0 then 0
    else MaskBits(vout, b, n - 1) + if InByte(vout, b, n - 1) then Pow2(n - 1) else 0
  }

  function MaskByte(vout: seq<TxOut>, b: nat): Byte {
    assert Pow2(8) == 256;
    MaskBits(vout, b, 8)
  }

  lemma TopBit(low: nat, n: nat)
    requires low < Pow2(n)
    ensures BitOn(low + Pow2(n), n) && !BitOn(low, n)
  {
    hide Pow2;
    DivisionIs(low + Pow2(n), Pow2(n), 1, low);
    DivisionIs(low, Pow2(n), 0, low);
  }

  lemma {:induction false} MaskBitIs(vout: seq<TxOut>, b: nat, n: nat, p: nat)
    requires p < n
    ensures BitOn(MaskBits(vout, b, n), p) <==> InByte(vout, b, p)
    decreases n
  {
    hide Pow2, BitOn;
    var low := MaskBits(vout, b, n - 1);
    if p == n - 1 {
      TopBit(low, p);
    } else {
      MaskBitIs(vout, b, n - 1, p);
      if InByte(vout, b, n - 1) {
        HigherBit(low, p, n - 1);
      }
    }
  }

  /** Setting a higher bit does not change a lower one. */
  lemma HigherBit(x: nat, p: nat, n: nat)
    requires p < n
    ensures BitOn(x + Pow2(n), p) == BitOn(x, p)
  {
    hide Pow2;
    var d, k := Pow2(p), Pow2(n - p - 1);
    PowSplits(p, n);
    AddMultiple(x, d, k);
  }

  lemma PowSplits(p: nat, n: nat)
    requires p < n
    ensures Pow2(n) == Pow2(p) * (2 * Pow2(n - p - 1))
  {
    hide Pow;
    PowAdd(2, p, n - p);
    PowStep(n - p);
  }

  lemma AddMultiple(x: nat, d: nat, k: nat)
    requires d > 0
    ensures (x + d * (2 * k)) / d % 2 == x / d % 2
  {
    QuotientShifts(x, d, 2 * k);
  }

  lemma QuotientShifts(x: nat, d: nat, z: nat)
    requires d > 0
    ensures (x + d * z) / d == x / d + z
  {
    var q, r := x / d, x % d;
    Distribute(d, q, z);
    DivisionIs(x + d * z, d, q + z, r);
  }

  lemma {:induction false} PowStep(n: nat)
    requires n > 0
    ensures Pow(2, n) == 2 * Pow2(n - 1)
  {
  }

  /** A mask byte is zero exactly when its eight outputs are spent. */
  lemma MaskByteZero(vout: seq<TxOut>, b: nat)
    ensures MaskByte(vout, b) == 0 <==> forall p :: 0 <= p < 8 ==> !InByte(vout, b, p)
  {
    hide MaskBits, BitOn, InByte;
    if MaskByte(vout, b) == 0 {
      forall p | 0 <= p < 8
        ensures !InByte(vout, b, p)
      {
        MaskBitIs(vout, b, 8, p);
        ZeroBit(p);
      }
    } else if forall p :: 0 <= p < 8 ==> !InByte(vout, b, p) {
      NoBits(vout, b, 8);
    }
  }

  lemma ZeroBit(p: nat)
    ensures !BitOn(0, p)
  {
    DivisionIs(0, Pow2(p), 0, 0);
  }

  lemma {:induction false} NoBits(vout: seq<TxOut>, b: nat, n: nat)
    requires forall p :: 0 <= p < n ==> !InByte(vout, b, p)
    ensures MaskBits(vout, b, n) == 0
  {
    if n > 0 {
      NoBits(vout, b, n - 1);
    }
  }

  /** How many of the first `n` mask bytes are needed, and how many of them are not zero. */
  function LastUsed(vout: seq<TxOut>, n: nat): (m: nat)
    ensures m <= n && (m > 0 ==> MaskByte(vout, m - 1) != 0)
    ensures forall b :: m <= b < n ==> MaskByte(vout, b) == 0
  {
    if n == 0 then 0 else if MaskByte(vout, n - 1) != 0 then n else LastUsed(vout, n - 1)
  }

  function MaskBytes(vout: seq<TxOut>): nat {
    if |vout| <= 2 then 0 else (|vout| - 2 + 7) / 8
  }

  function Mask(vout: seq<TxOut>): (m: seq<Byte>)
    ensures m == [] || m[|m| - 1] != 0
  {
    seq(LastUsed(vout, MaskBytes(vout)), b requires 0 <= b => MaskByte(vout, b))
  }

  function Nonzero(m: seq<Byte>): nat {
    if m == [] then 0 else Nonzero(m[..|m| - 1]) + if m[|m| - 1] != 0 then 1 else 0
  }

  /** The mask covers every unspent output. */
  lemma MaskCovers(vout: seq<TxOut>, i: nat)
    requires Avail(vout, i)
    ensures i < 2 + 8 * |Mask(vout)|
  {
    hide MaskBits;
    if i >= 2 {
      var b, p := (i - 2) / 8, (i - 2) % 8;
      assert i == 2 + b * 8 + p;
      assert InByte(vout, b, p);
      MaskByteZero(vout, b);
      assert b < MaskBytes(vout);
    }
  }

  function Flags(first: bool, second: bool, m: seq<Byte>): (a: seq<bool>)
    ensures |a| == 2 + 8 * |m|
  {
    [first, second] + seq(8 * |m|, j requires 0 <= j < 8 * |m| => BitOn(m[j / 8], j % 8))
  }

  lemma FlagsAre(vout: seq<TxOut>, i: nat)
    requires i < 2 + 8 * |Mask(vout)|
    ensures Flags(Avail(vout, 0), Avail(vout, 1), Mask(vout))[i] == Avail(vout, i)
  {
    hide MaskBits, BitOn;
    if i >= 2 {
      var j := i - 2;
      MaskBitIs(vout, j / 8, 8, j % 8);
    }
  }

  // ---------------------------------------------------------------- reading the mask

  /** Mask bytes are read until `k` of them were not zero. */
  function ReadMask(k: nat, t: seq<Byte>): Reading<seq<Byte>>
    decreases |t|
  {
    if k == 0 then Got([], t)
    else if t == [] then Fail
    else
      match ReadMask(if t[0] != 0 then k - 1 else k, t[1..])
      case Fail => Fail
      case Got(m, rest) => Got([t[0]] + m, rest)
  }

  lemma {:induction false} NonzeroFirst(m: seq<Byte>)
    requires m != []
    ensures Nonzero(m) == Nonzero(m[1..]) + if m[0] != 0 then 1 else 0
  {
    if |m| > 1 {
      NonzeroFirst(m[..|m| - 1]);
      assert m[..|m| - 1][1..] == m[1..][..|m| - 2];
    }
  }

  lemma {:induction false} NonzeroLast(m: seq<Byte>)
    requires m != [] && m[|m| - 1] != 0
    ensures Nonzero(m) > 0
  {
  }

  /** The count of nonzero bytes tells where the mask ends, because its last byte is not zero. */
  lemma {:induction false} ReadMaskIs(m: seq<Byte>, t: seq<Byte>)
    requires m == [] || m[|m| - 1] != 0
    ensures ReadMask(Nonzero(m), m + t) == Got(m, t)
  {
    if m == [] {
      assert m + t == t;
    } else {
      NonzeroLast(m);
      NonzeroFirst(m);
      assert (m + t)[1..] == m[1..] + t;
      ReadMaskIs(m[1..], t);
      assert m == [m[0]] + m[1..];
    }
  }

  // ---------------------------------------------------------------- the record

  function Bool(b: bool): nat {
    if b then 1 else 0
  }

  /** The header code: coinbase bit, the first two outputs, and how many nonzero mask bytes follow. */
  function HeaderCode(c: Coins): nat
    requires !IsPruned(c)
  {
    SomethingUnspent(c);
    var first, second := Avail(c.vout, 0), Avail(c.vout, 1);
    8 * (Nonzero(Mask(c.vout)) - if first || second then 0 else 1)
    + Bool(c.coinBase) + 2 * Bool(first) + 4 * Bool(second)
  }

  /** The assertion before writing holds exactly for records that are not pruned. */
  lemma SomethingUnspent(c: Coins)
    ensures Avail(c.vout, 0) || Avail(c.vout, 1) || Nonzero(Mask(c.vout)) > 0 <==> !IsPruned(c)
  {
    hide MaskBits, LastUsed;
    var m := Mask(c.vout);
    if !IsPruned(c) {
      var i: nat :| i < |c.vout| && !IsNull(c.vout[i]);
      MaskCovers(c.vout, i);
      if m != [] {
        NonzeroLast(m);
      }
    } else if m != [] {
      var b := |m| - 1;
      MaskByteZero(c.vout, b);
    } else {
      assert Nonzero(m) == 0;
    }
  }

  /** Numbers are of the daemon's types, and sizes fit 32 bits. */
  predicate Typed(c: Coins) {
    && !IsPruned(c) && HeaderCode(c) < UINT32
    && -0x8000_0000 <= c.version < 0x8000_0000 && -0x8000_0000 <= c.height < 0x8000_0000
    && forall i :: 0 <= i < |c.vout| ==> TypedOut(c.vout[i])
  }

  predicate TypedOut(o: TxOut) {
    IsInt64(o.value) && |o.script| + SPECIAL_SCRIPTS < UINT32
  }

  /** Records the stored form keeps. */
  predicate StorableCoins(c: Coins) {
    c.version >= 0 && c.height >= 0 && forall i :: 0 <= i < |c.vout| && !IsNull(c.vout[i]) ==> Storable(c.vout[i])
  }

  function OutsBytes(keys: Keys, vout: seq<TxOut>): seq<Byte> {
    if vout == [] then []
    else (if IsNull(vout[0]) then [] else OutBytes(keys, vout[0])) + OutsBytes(keys, vout[1..])
  }

  /** A record's bytes; writing one without unspent outputs is an error. */
  function CoinBytes(keys: Keys, c: Coins): seq<Byte>
    requires !IsPruned(c)
  {
    IntBytes(c.version)
    + (VarBytes(HeaderCode(c) % UINT32) + (Mask(c.vout) + (OutsBytes(keys, c.vout) + IntBytes(c.height))))
  }

  function ReadOuts(keys: Keys, flags: seq<bool>, t: seq<Byte>): Reading<seq<TxOut>>
    decreases |flags|
  {
    if flags == [] then Got([], t)
    else if !flags[0] then
      match ReadOuts(keys, flags[1..], t)
      case Fail => Fail
      case Got(outs, rest) => Got([NULL_OUT] + outs, rest)
    else
      match ReadOut(keys, t)
      case Fail => Fail
      case Got(o, after) =>
        match ReadOuts(keys, flags[1..], after)
        case Fail => Fail
        case Got(outs, rest) => Got([o] + outs, rest)
  }

  function ReadCoins(keys: Keys, t: seq<Byte>): Reading<Coins> {
    match ReadInt(t)
    case Fail => Fail
    case Got(version, t1) =>
      match ReadUint(UINT32, t1)
      case Fail => Fail
      case Got(code, t2) =>
        var first, second := code / 2 % 2 == 1, code / 4 % 2 == 1;
        match ReadMask(code / 8 + (if first || second then 0 else 1), t2)
        case Fail => Fail
        case Got(m, t3) =>
          match ReadOuts(keys, Flags(first, second, m), t3)
          case Fail => Fail
          case Got(outs, t4) =>
            match ReadInt(t4)
            case Fail => Fail
            case Got(height, rest) => Got(Cleanup(Coins(code % 2 == 1, outs, height, version)), rest)
  }

  // ---------------------------------------------------------------- round trip

  /** The record with whatever a spent output still held dropped. */
  function Normalized(c: Coins): Coins {
    c.(vout := Shown(c.vout, |c.vout|))
  }

  /** The first `n` outputs as they are seen: unspent ones, and nothing in place of the others. */
  function Shown(vout: seq<TxOut>, n: nat): (r: seq<TxOut>)
    ensures |r| == n
  {
    seq(n, i requires 0 <= i => if Avail(vout, i) then vout[i] else NULL_OUT)
  }

  /** The first `n` outputs as they are read back. */
  function ReadShown(vout: seq<TxOut>, n: nat): (r: seq<TxOut>)
    ensures |r| == n
  {
    seq(n, i requires 0 <= i => if Avail(vout, i) then Stored(vout[i]) else NULL_OUT)
  }

  lemma HeaderFields(c: Coins)
    requires !IsPruned(c)
    ensures var code := HeaderCode(c);
            && (code % 2 == 1 <==> c.coinBase)
            && (code / 2 % 2 == 1 <==> Avail(c.vout, 0)) && (code / 4 % 2 == 1 <==> Avail(c.vout, 1))
            && code / 8 + (if Avail(c.vout, 0) || Avail(c.vout, 1) then 0 else 1) == Nonzero(Mask(c.vout))
  {
    hide Avail, Mask, Nonzero;
    SomethingUnspent(c);
    var first, second := Avail(c.vout, 0), Avail(c.vout, 1);
    var k := Nonzero(Mask(c.vout)) - if first || second then 0 else 1;
    CodeFields(k, Bool(c.coinBase), Bool(first), Bool(second));
  }

  lemma CodeFields(k: nat, a: nat, b: nat, d: nat)
    requires a <= 1 && b <= 1 && d <= 1
    ensures var code := 8 * k + a + 2 * b + 4 * d;
            code % 2 == a && code / 2 % 2 == b && code / 4 % 2 == d && code / 8 == k
  {
    var code := 8 * k + a + 2 * b + 4 * d;
    DivisionIs(code, 2, 4 * k + 2 * d + b, a);
    DivisionIs(4 * k + 2 * d + b, 2, 2 * k + d, b);
    DivisionIs(code, 4, 2 * k + d, 2 * b + a);
    DivisionIs(2 * k + d, 2, k, d);
    DivisionIs(code, 8, k, 4 * d + 2 * b + a);
  }

  /** Reading with one flag per output, and none beyond which anything is unspent. */
  lemma {:induction false} ReadOutsIs(keys: Keys, vout: seq<TxOut>, flags: seq<bool>, t: seq<Byte>)
    requires KeysOk(keys)
    requires forall i :: 0 <= i < |vout| ==> TypedOut(vout[i])
    requires forall i :: 0 <= i < |flags| ==> flags[i] == Avail(vout, i)
    requires forall i :: |flags| <= i < |vout| ==> IsNull(vout[i])
    ensures ReadOuts(keys, flags, OutsBytes(keys, vout) + t) == Got(ReadShown(vout, |flags|), t)
    decreases |flags|
  {
    hide ReadOut, OutBytes, KeysOk, Stored;
    if flags == [] {
      NothingWritten(keys, vout);
      assert [] + t == t;
    } else if vout == [] {
      ReadOutsIs(keys, vout, flags[1..], t);
      assert ReadShown(vout, |flags|) == [NULL_OUT] + ReadShown(vout, |flags| - 1);
    } else {
      var rest := vout[1..];
      assert forall i :: 0 <= i < |flags| - 1 ==> flags[1..][i] == flags[i + 1] == Avail(rest, i);
      ReadOutsIs(keys, rest, flags[1..], t);
      assert flags[0] == Avail(vout, 0);
      ShownFirst(vout, |flags|);
      if flags[0] {
        assert TypedOut(vout[0]);
        ReadOutBytes(keys, vout[0], OutsBytes(keys, rest) + t);
        assert OutBytes(keys, vout[0]) + OutsBytes(keys, rest) + t ==
          OutBytes(keys, vout[0]) + (OutsBytes(keys, rest) + t);
      } else {
        assert [] + OutsBytes(keys, rest) == OutsBytes(keys, rest);
      }
    }
  }

  lemma ShownFirst(vout: seq<TxOut>, n: nat)
    requires vout != [] && n > 0
    ensures ReadShown(vout, n) == [if IsNull(vout[0]) then NULL_OUT else Stored(vout[0])] + ReadShown(vout[1..], n - 1)
  {
    hide Stored;
    forall i | 0 < i < n
      ensures ReadShown(vout, n)[i] == ReadShown(vout[1..], n - 1)[i - 1]
    {
      assert Avail(vout, i) == Avail(vout[1..], i - 1);
    }
  }

  lemma {:induction false} NothingWritten(keys: Keys, vout: seq<TxOut>)
    requires forall i :: 0 <= i < |vout| ==> IsNull(vout[i])
    ensures OutsBytes(keys, vout) == []
  {
    if vout != [] {
      NothingWritten(keys, vout[1..]);
    }
  }

  /** Spent outputs added at the end are trimmed again. */
  lemma {:induction false} TrimPadded(a: seq<TxOut>, b: seq<TxOut>)
    requires a <= b && forall i :: |a| <= i < |b| ==> IsNull(b[i])
    ensures Trim(b) == Trim(a)
    decreases |b|
  {
    if |a| < |b| {
      TrimPadded(a, b[..|b| - 1]);
    } else {
      assert a == b;
    }
  }

  lemma TrimReadShown(vout: seq<TxOut>, m: nat, n: nat)
    requires forall i :: m <= i < |vout| ==> IsNull(vout[i])
    requires forall i :: n <= i < |vout| ==> IsNull(vout[i])
    ensures Trim(ReadShown(vout, m)) == Trim(ReadShown(vout, n))
  {
    hide Stored, Trim;
    if m <= n {
      TrimPadded(ReadShown(vout, m), ReadShown(vout, n));
    } else {
      TrimPadded(ReadShown(vout, n), ReadShown(vout, m));
    }
  }

  /** The outputs come back as they are seen exactly if each unspent one does. */
  lemma SameShown(vout: seq<TxOut>)
    ensures Trim(ReadShown(vout, |vout|)) == Trim(Shown(vout, |vout|)) <==>
            forall i :: 0 <= i < |vout| && !IsNull(vout[i]) ==> Stored(vout[i]) == vout[i]
  {
    hide Stored;
    var a, b := ReadShown(vout, |vout|), Shown(vout, |vout|);
    if forall i :: 0 <= i < |vout| && !IsNull(vout[i]) ==> Stored(vout[i]) == vout[i] {
      assert a == b;
    }
    if Trim(a) == Trim(b) {
      forall i | 0 <= i < |vout| && !IsNull(vout[i])
        ensures Stored(vout[i]) == vout[i]
      {
        assert b[i] == vout[i] && i < |Trim(b)|;
        assert Trim(a)[i] == a[i];
      }
    }
  }

  /** What is left of a version or height: of a negative one, its lowest seven bits. */
  function Kept(n: int): int {
    if n < 0 then n % 128 else n
  }

  /** The record as it is read back. */
  function ReadBack(c: Coins): Coins {
    Cleanup(Coins(c.coinBase, ReadShown(c.vout, |c.vout|), Kept(c.height), Kept(c.version)))
  }

  lemma ReadBackIsSame(c: Coins)
    requires Typed(c)
    ensures ReadBack(c) == Cleanup(Normalized(c)) <==> StorableCoins(c)
  {
    hide HeaderCode, Stored, Storable, Trim, ReadShown, Shown, IsPruned;
    SameShown(c.vout);
    forall i | 0 <= i < |c.vout|
      ensures Stored(c.vout[i]) == c.vout[i] <==> Storable(c.vout[i])
    {
      assert TypedOut(c.vout[i]);
      StoredIsSame(c.vout[i]);
    }
  }

  /**
   Reading back a written record uses exactly its bytes, and gives the record without spent outputs at the end
   exactly if neither its version nor its height is negative and each of its unspent outputs is storable.
   */
  lemma ReadCoinBytes(keys: Keys, c: Coins, t: seq<Byte>)
    requires KeysOk(keys) && Typed(c)
    ensures ReadCoins(keys, CoinBytes(keys, c) + t) == Got(ReadBack(c), t)
    ensures ReadCoins(keys, CoinBytes(keys, c) + t) == Got(Cleanup(Normalized(c)), t) <==> StorableCoins(c)
  {
    hide KeysOk, IntBytes, VarBytes, ReadInt, ReadUint, HeaderCode, Mask, OutsBytes, ReadOuts, ReadMask, Flags, Nonzero,
         Avail, Trim, ReadShown, TypedOut, StorableCoins, Normalized;
    var first, second := Avail(c.vout, 0), Avail(c.vout, 1);
    var code, m, outs := HeaderCode(c), Mask(c.vout), OutsBytes(keys, c.vout);
    var height := IntBytes(c.height) + t;
    var t3 := outs + height;
    var t2 := m + t3;
    var t1 := VarBytes(code) + t2;
    DivisionIs(code, UINT32, 0, code);
    Regroup(IntBytes(c.version), VarBytes(code), m, outs, IntBytes(c.height), t);
    ReadIntBytes(c.version, t1);
    ReadUintBytes(UINT32, code, t2);
    HeaderFields(c);
    ReadMaskIs(m, t3);
    FlagsFor(c, Flags(first, second, m));
    ReadOutsIs(keys, c.vout, Flags(first, second, m), height);
    ReadIntBytes(c.height, t);
    TrimReadShown(c.vout, |Flags(first, second, m)|, |c.vout|);
    ReadBackIsSame(c);
  }

  lemma Regroup(a: seq<Byte>, b: seq<Byte>, c: seq<Byte>, d: seq<Byte>, e: seq<Byte>, t: seq<Byte>)
    ensures a + (b + (c + (d + e))) + t == a + (b + (c + (d + (e + t))))
  {
  }

  lemma FlagsFor(c: Coins, flags: seq<bool>)
    requires flags == Flags(Avail(c.vout, 0), Avail(c.vout, 1), Mask(c.vout))
    ensures forall i :: 0 <= i < |flags| ==> flags[i] == Avail(c.vout, i)
    ensures forall i :: |flags| <= i < |c.vout| ==> IsNull(c.vout[i])
  {
    hide Mask, Flags;
    forall i | 0 <= i < |flags|
      ensures flags[i] == Avail(c.vout, i)
    {
      FlagsAre(c.vout, i);
    }
    forall i | |flags| <= i < |c.vout|
      ensures IsNull(c.vout[i])
    {
      if !IsNull(c.vout[i]) {
        MaskCovers(c.vout, i);
      }
    }
  }
}
