/** Coin records written to and read from a byte stream, as the functions of the stored form have it. */
module CoinStream {
  import opened Positional
  import opened Amounts
  import opened LimbShift
  import opened CoinRecord
  import opened VarInt
  import opened Compressor
  import opened CoinCodec

  // ---------------------------------------------------------------- scripts and outputs

  method SerializeScript(s: Stream, keys: Keys, script: seq<Byte>)
    modifies s
    ensures s.data == old(s.data) + ScriptBytes(keys, script)
  {
    hide VarBytes;
    PositiveBytes((|script| + SPECIAL_SCRIPTS) % UINT32);
    var compressed := Compress(keys, script);
    if compressed.Some? {
      s.Write(compressed.value);
      return;
    }
    var size := (|script| + SPECIAL_SCRIPTS) % UINT32;
    s.WriteVarInt(size);
    s.Write(script);
    assert s.data == old(s.data) + (VarBytes(size) + script);
  }

  lemma PositiveBytes(n: nat)
    ensures IntBytes(n) == VarBytes(n)
  {
  }

  method UnserializeScript(s: Stream, keys: Keys) returns (ok: bool, script: seq<Byte>)
    modifies s
    ensures var r := ReadScript(keys, old(s.data));
            (ok <==> r.Got?) && (ok ==> script == r.value && s.data == r.rest)
  {
    hide ReadUint, Decompress;
    script := [];
    var size;
    ok, size := s.ReadVarInt(UINT32);
    if !ok {
      return;
    }
    var bytes;
    if size < SPECIAL_SCRIPTS {
      ok, bytes := s.Read(SpecialSize(size));
      if ok {
        var d := Decompress(keys, size, bytes);
        if d.Some? {
          script := d.value;
        }
      }
      return;
    }
    size := size - SPECIAL_SCRIPTS;
    ok, bytes := s.Read(size);
    if ok {
      script := if size > MAX_SCRIPT_SIZE then [OP_RETURN] else bytes;
    }
  }

  method SerializeOut(s: Stream, keys: Keys, o: TxOut)
    modifies s
    ensures s.data == old(s.data) + OutBytes(keys, o)
  {
    hide VarBytes, Compress64, ScriptBytes;
    var x := CompressAmountOf(o.value % UINT64);
    PositiveBytes(x);
    s.WriteVarInt(x);
    SerializeScript(s, keys, o.script);
    assert s.data == old(s.data) + (VarBytes(x) + ScriptBytes(keys, o.script));
  }

  method UnserializeOut(s: Stream, keys: Keys) returns (ok: bool, o: TxOut)
    modifies s
    ensures var r := ReadOut(keys, old(s.data));
            (ok <==> r.Got?) && (ok ==> o == r.value && s.data == r.rest)
  {
    hide ReadFrom, ReadScript, Decompress64;
    o := NULL_OUT;
    var x, script;
    ok, x := s.ReadVarInt(UINT64);
    if !ok {
      return;
    }
    ok, script := UnserializeScript(s, keys);
    if !ok {
      return;
    }
    var value := DecompressAmountOf(x);
    o := TxOut(ToInt64(value), script);
  }

  // ---------------------------------------------------------------- the mask

  /** All mask bytes up to `n`. */
  ghost function MaskUpTo(vout: seq<TxOut>, n: nat): (m: seq<Byte>)
    ensures |m| == n
  {
    seq(n, b requires 0 <= b => MaskByte(vout, b))
  }

  method CalcMaskSize(vout: seq<TxOut>) returns (bytes: nat, nonzero: nat)
    ensures bytes == |Mask(vout)| && nonzero == Nonzero(Mask(vout))
  {
    hide MaskByte, Nonzero;
    bytes, nonzero := 0, 0;
    var b := 0;
    NonzeroGrows(vout, 0);
    while 2 + b * 8 < |vout|
      invariant 0 <= b <= MaskBytes(vout) && bytes == LastUsed(vout, b) && nonzero == Nonzero(MaskUpTo(vout, b))
      decreases |vout| - b * 8
    {
      var zero := true;
      var i := 0;
      while i < 8 && 2 + b * 8 + i < |vout|
        invariant 0 <= i <= 8 && (zero <==> forall p :: 0 <= p < i ==> !InByte(vout, b, p))
      {
        if !IsNull(vout[2 + b * 8 + i]) {
          assert InByte(vout, b, i);
          zero := false;
        }
        i := i + 1;
      }
      assert forall p :: i <= p < 8 ==> !InByte(vout, b, p);
      MaskByteZero(vout, b);
      NonzeroGrows(vout, b);
      if !zero {
        bytes := b + 1;
        nonzero := nonzero + 1;
      }
      b := b + 1;
    }
    SameNonzero(vout, LastUsed(vout, b), b);
    assert Mask(vout) == MaskUpTo(vout, LastUsed(vout, b));
  }

  lemma NonzeroGrows(vout: seq<TxOut>, n: nat)
    ensures Nonzero(MaskUpTo(vout, 0)) == 0
    ensures Nonzero(MaskUpTo(vout, n + 1)) == Nonzero(MaskUpTo(vout, n)) + if MaskByte(vout, n) != 0 then 1 else 0
  {
    assert MaskUpTo(vout, n + 1)[..n] == MaskUpTo(vout, n);
  }

  lemma {:induction false} SameNonzero(vout: seq<TxOut>, m: nat, n: nat)
    requires m <= n && forall b :: m <= b < n ==> MaskByte(vout, b) == 0
    ensures Nonzero(MaskUpTo(vout, m)) == Nonzero(MaskUpTo(vout, n))
    decreases n
  {
    if m < n {
      SameNonzero(vout, m, n - 1);
      NonzeroGrows(vout, n - 1);
    }
  }

  method MaskByteOf(vout: seq<TxOut>, b: nat) returns (x: nat)
    ensures x == MaskByte(vout, b)
  {
    hide Pow2, Or;
    x := 0;
    var i := 0;
    while i < 8 && 2 + b * 8 + i < |vout|
      invariant 0 <= i <= 8 && x == MaskBits(vout, b, i)
    {
      if !IsNull(vout[2 + b * 8 + i]) {
        assert InByte(vout, b, i);
        OrDisjoint(1, x, i);
        x := Or(x, Pow2(i));
      }
      i := i + 1;
    }
    NoHigherBits(vout, b, i, 8);
  }

  lemma {:induction false} NoHigherBits(vout: seq<TxOut>, b: nat, i: nat, n: nat)
    requires i <= n && (i == n || 2 + b * 8 + i >= |vout|)
    ensures MaskBits(vout, b, n) == MaskBits(vout, b, i)
    decreases n
  {
    if i < n {
      NoHigherBits(vout, b, i, n - 1);
    }
  }

  // ---------------------------------------------------------------- records

  method Serialize(s: Stream, keys: Keys, c: Coins)
    requires !IsPruned(c)
    modifies s
    ensures s.data == old(s.data) + CoinBytes(keys, c)
  {
    hide IntBytes, VarBytes, Mask, OutsBytes, OutBytes, Nonzero, MaskByte, IsPruned;
    var maskSize, maskCode := CalcMaskSize(c.vout);
    var first := |c.vout| > 0 && !IsNull(c.vout[0]);
    var second := |c.vout| > 1 && !IsNull(c.vout[1]);
    SomethingUnspent(c);
    assert first || second || maskCode > 0;
    var code := 8 * (maskCode - if first || second then 0 else 1)
                + Bool(c.coinBase) + 2 * Bool(first) + 4 * Bool(second);
    assert code == HeaderCode(c);
    s.WriteVarInt(c.version);
    PositiveBytes(code % UINT32);
    s.WriteVarInt(code % UINT32);
    ghost var start := s.data;
    WriteMask(s, c.vout, maskSize);
    WriteOuts(s, keys, c.vout);
    s.WriteVarInt(c.height);
    Flatten(old(s.data), IntBytes(c.version), VarBytes(code % UINT32), Mask(c.vout), OutsBytes(keys, c.vout),
            IntBytes(c.height));
  }

  lemma Flatten(z: seq<Byte>, a: seq<Byte>, b: seq<Byte>, c: seq<Byte>, d: seq<Byte>, e: seq<Byte>)
    ensures z + a + b + c + d + e == z + (a + (b + (c + (d + e))))
  {
  }

  method WriteMask(s: Stream, vout: seq<TxOut>, maskSize: nat)
    requires maskSize == |Mask(vout)|
    modifies s
    ensures s.data == old(s.data) + Mask(vout)
  {
    hide MaskByte;
    for b := 0 to maskSize
      invariant s.data == old(s.data) + Mask(vout)[..b]
    {
      var avail := MaskByteOf(vout, b);
      s.Write([avail]);
    }
  }

  method WriteOuts(s: Stream, keys: Keys, vout: seq<TxOut>)
    modifies s
    ensures s.data == old(s.data) + OutsBytes(keys, vout)
  {
    hide OutBytes;
    for i := 0 to |vout|
      invariant old(s.data) + OutsBytes(keys, vout) == s.data + OutsBytes(keys, vout[i..])
    {
      ghost var was, rest := s.data, OutsBytes(keys, vout[i + 1..]);
      assert vout[i..][1..] == vout[i + 1..] && vout[i..][0] == vout[i];
      if !IsNull(vout[i]) {
        SerializeOut(s, keys, vout[i]);
        assert was + (OutBytes(keys, vout[i]) + rest) == was + OutBytes(keys, vout[i]) + rest;
      }
    }
  }

  method Unserialize(s: Stream, keys: Keys) returns (ok: bool, c: Coins)
    modifies s
    ensures var r := ReadCoins(keys, old(s.data));
            (ok <==> r.Got?) && (ok ==> c == r.value && s.data == r.rest)
  {
    hide ReadUint, ReadMask, ReadOuts, Flags, Trim;
    c := NO_COINS;
    var version, code, flags, outs, height;
    ok, version := s.ReadVarInt(UINT32);
    if !ok {
      return;
    }
    ok, code := s.ReadVarInt(UINT32);
    if !ok {
      return;
    }
    var first, second := code / 2 % 2 == 1, code / 4 % 2 == 1;
    ghost var m;
    ok, flags, m := ReadFlags(s, first, second, code / 8 + if first || second then 0 else 1);
    if !ok {
      return;
    }
    ok, outs := ReadFlagged(s, keys, flags);
    if !ok {
      return;
    }
    ok, height := s.ReadVarInt(UINT32);
    if !ok {
      return;
    }
    outs := CleanupOutputs(outs);
    c := Coins(code % 2 == 1, outs, ToInt32(height), ToInt32(version));
  }

  method ReadFlags(s: Stream, first: bool, second: bool, k: nat)
    returns (ok: bool, flags: seq<bool>, ghost m: seq<Byte>)
    modifies s
    ensures var r := ReadMask(k, old(s.data));
            (ok <==> r.Got?) && (ok ==> m == r.value && s.data == r.rest && flags == Flags(first, second, m))
  {
    hide BitOn;
    flags, m := [first, second], [];
    var left := k;
    ghost var start := s.data;
    assert forall t: seq<Byte> :: [] + t == t;
    while left > 0
      invariant flags == Flags(first, second, m)
      invariant MaskProgress(k, start, m, left, s.data)
      decreases |s.data|, left
    {
      ghost var was, wasLeft := s.data, left;
      var bytes;
      ok, bytes := s.Read(1);
      if !ok {
        return;
      }
      var avail := bytes[0];
      for p := 0 to 8
        invariant flags == Flags(first, second, m) + seq(p, j requires 0 <= j => BitOn(avail, j))
      {
        flags := flags + [BitOn(avail, p)];
      }
      FlagsGrow(first, second, m, avail);
      if avail != 0 {
        left := left - 1;
      }
      MaskStep(k, start, m, wasLeft, was, avail);
      m := m + [avail];
    }
    ok := true;
  }

  /** Having read `m`, what is left to read gives the rest of the mask. */
  ghost predicate MaskProgress(k: nat, start: seq<Byte>, m: seq<Byte>, left: nat, now: seq<Byte>) {
    ReadMask(k, start) == match ReadMask(left, now)
                          case Fail => Fail
                          case Got(rest, t) => Got(m + rest, t)
  }

  lemma MaskStep(k: nat, start: seq<Byte>, m: seq<Byte>, left: nat, now: seq<Byte>, b: Byte)
    requires left > 0 && now != [] && now[0] == b && MaskProgress(k, start, m, left, now)
    ensures MaskProgress(k, start, m + [b], if b != 0 then left - 1 else left, now[1..])
  {
    var r := ReadMask(if b != 0 then left - 1 else left, now[1..]);
    if r.Got? {
      assert m + ([b] + r.value) == m + [b] + r.value;
    }
  }

  lemma FlagsGrow(first: bool, second: bool, m: seq<Byte>, b: Byte)
    ensures Flags(first, second, m + [b]) == Flags(first, second, m) + seq(8, j requires 0 <= j => BitOn(b, j))
  {
    hide BitOn;
    var x, y := Flags(first, second, m + [b]), Flags(first, second, m) + seq(8, j requires 0 <= j => BitOn(b, j));
    forall i | 0 <= i < |x|
      ensures x[i] == y[i]
    {
      if i >= 2 {
        var j := i - 2;
        if j < 8 * |m| {
          assert (m + [b])[j / 8] == m[j / 8];
        } else {
          assert j / 8 == |m| && j % 8 == j - 8 * |m|;
        }
      }
    }
  }

  method ReadFlagged(s: Stream, keys: Keys, flags: seq<bool>) returns (ok: bool, outs: seq<TxOut>)
    modifies s
    ensures var r := ReadOuts(keys, flags, old(s.data));
            (ok <==> r.Got?) && (ok ==> outs == r.value && s.data == r.rest)
  {
    hide ReadOut;
    outs := seq(|flags|, _ => NULL_OUT);
    ghost var start := s.data;
    assert flags[0..] == flags && outs[..0] == [];
    assert forall t: seq<TxOut> :: [] + t == t;
    for i := 0 to |flags|
      invariant |outs| == |flags| && forall j :: i <= j < |flags| ==> outs[j] == NULL_OUT
      invariant OutsProgress(keys, flags, start, outs[..i], s.data, i)
    {
      ghost var was, before := s.data, outs[..i];
      if flags[i] {
        var o;
        ok, o := UnserializeOut(s, keys);
        OutsStep(keys, flags, start, before, was, i);
        if !ok {
          return;
        }
        outs := outs[i := o];
      } else {
        OutsStep(keys, flags, start, before, was, i);
      }
      assert outs[..i + 1] == before + [outs[i]];
    }
    assert outs[..|flags|] == outs && flags[|flags|..] == [];
    assert outs + [] == outs;
    ok := true;
  }

  ghost predicate OutsProgress(keys: Keys, flags: seq<bool>, start: seq<Byte>, done: seq<TxOut>, now: seq<Byte>, i: nat)
    requires i <= |flags|
  {
    ReadOuts(keys, flags, start) == match ReadOuts(keys, flags[i..], now)
                                    case Fail => Fail
                                    case Got(rest, t) => Got(done + rest, t)
  }

  lemma {:induction false} OutsStep(keys: Keys, flags: seq<bool>, start: seq<Byte>, done: seq<TxOut>, now: seq<Byte>,
      i: nat)
    requires i < |flags| && OutsProgress(keys, flags, start, done, now, i)
    ensures !flags[i] ==> OutsProgress(keys, flags, start, done + [NULL_OUT], now, i + 1)
    ensures flags[i] && ReadOut(keys, now).Got? ==>
              OutsProgress(keys, flags, start, done + [ReadOut(keys, now).value], ReadOut(keys, now).rest, i + 1)
    ensures flags[i] && ReadOut(keys, now).Fail? ==> ReadOuts(keys, flags, start).Fail?
  {
    hide ReadOut;
    assert flags[i..][1..] == flags[i + 1..] && flags[i..][0] == flags[i];
    var o := if flags[i] && ReadOut(keys, now).Got? then ReadOut(keys, now).value else NULL_OUT;
    var t := if flags[i] && ReadOut(keys, now).Got? then ReadOut(keys, now).rest else now;
    var r := ReadOuts(keys, flags[i + 1..], t);
    if r.Got? {
      assert done + ([o] + r.value) == done + [o] + r.value;
    }
  }

  /** A record written to an empty stream is read back from it, exactly if it is storable, and nothing is left. */
  method WriteAndRead(s: Stream, keys: Keys, c: Coins) returns (ok: bool, d: Coins)
    requires KeysOk(keys) && Typed(c) && s.data == []
    modifies s
    ensures ok && s.data == [] && d == ReadBack(c)
    ensures d == Cleanup(Normalized(c)) <==> StorableCoins(c)
  {
    hide CoinBytes, ReadCoins, StorableCoins, Typed, KeysOk, Cleanup, ReadBack, Normalized;
    assert !IsPruned(c) by { TypedUnspent(c); }
    Serialize(s, keys, c);
    ReadCoinBytes(keys, c, []);
    ReadBackIsSame(c);
    assert [] + CoinBytes(keys, c) + [] == CoinBytes(keys, c) + [];
    assert s.data == CoinBytes(keys, c) + [];
    ok, d := Unserialize(s, keys);
  }

  lemma TypedUnspent(c: Coins)
    requires Typed(c)
    ensures !IsPruned(c)
  {
  }
}
