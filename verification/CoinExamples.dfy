/** The two stored coin records that the format's comment spells out, for every key hash. */
module CoinExamples {
  import opened Positional
  import opened CoinRecord
  import opened VarInt
  import opened Amounts
  import opened Compressor
  import opened CoinCodec

  /** The script that pays to the hash of a key. */
  function PayTo(id: seq<Byte>): seq<Byte> {
    [0x76, 0xa9, 20] + id + [0x88, 0xac]
  }

  lemma PayToBytes(keys: Keys, id: seq<Byte>)
    requires |id| == 20
    ensures ScriptBytes(keys, PayTo(id)) == [0x00] + id
  {
    assert PaysKeyId(PayTo(id), [0] + id);
    CompressExactly(keys, PayTo(id), [0] + id);
  }

  lemma {:induction false} OutAt(keys: Keys, id: seq<Byte>, value: nat, compressed: nat, bytes: seq<Byte>)
    requires |id| == 20 && value < UINT64 && Compress64(value) == compressed && VarBytes(compressed) == bytes
    ensures OutBytes(keys, TxOut(value, PayTo(id))) == bytes + ([0x00] + id)
  {
    hide Compress64, VarBytes, ScriptBytes;
    PayToBytes(keys, id);
  }

  lemma {:induction false} FirstNumbers()
    ensures Compress64(60000000000) == 600 && VarBytes(600) == [0x83, 0x58]
    ensures VarBytes(1) == [0x01] && VarBytes(4) == [0x04] && VarBytes(203998) == [0x8b, 0xb8, 0x5e]
  {
  }

  /** A second output of 600 coins at height 203998; nothing else is unspent. */
  function FirstRecord(id: seq<Byte>): Coins {
    Coins(false, [NULL_OUT, TxOut(60000000000, PayTo(id))], 203998, 1)
  }

  lemma {:induction false} FirstBytes(keys: Keys, id: seq<Byte>)
    requires |id| == 20
    ensures !IsPruned(FirstRecord(id))
    ensures CoinBytes(keys, FirstRecord(id)) == [0x01, 0x04, 0x83, 0x58, 0x00] + id + [0x8b, 0xb8, 0x5e]
  {
    hide VarBytes, OutBytes, Compress64;
    var c := FirstRecord(id);
    FirstNumbers();
    OutAt(keys, id, 60000000000, 600, [0x83, 0x58]);
    assert !IsNull(c.vout[1]);
    assert Mask(c.vout) == [];
    TwoOuts(keys, c.vout[1]);
    assert HeaderCode(c) == 4;
  }

  lemma {:induction false} TwoOuts(keys: Keys, o: TxOut)
    requires !IsNull(o)
    ensures OutsBytes(keys, [NULL_OUT, o]) == OutBytes(keys, o)
  {
    hide OutBytes;
    assert [NULL_OUT, o][1..] == [o] && [o][1..] == [];
    assert OutsBytes(keys, [o]) == OutBytes(keys, o) + OutsBytes(keys, []);
  }

  // ---------------------------------------------------------------- with a mask

  function Nulls(n: nat): seq<TxOut> {
    seq(n, _ => NULL_OUT)
  }

  lemma {:induction false} NullsSkipped(keys: Keys, n: nat, rest: seq<TxOut>)
    ensures OutsBytes(keys, Nulls(n) + rest) == OutsBytes(keys, rest)
  {
    hide OutBytes;
    if n == 0 {
      assert Nulls(0) + rest == rest;
    } else {
      NullsSkipped(keys, n - 1, rest);
      assert (Nulls(n) + rest)[1..] == Nulls(n - 1) + rest && (Nulls(n) + rest)[0] == NULL_OUT;
    }
  }

  /** The fifth and the seventeenth output of a coinbase at height 120891. */
  function SecondRecord(a: seq<Byte>, b: seq<Byte>): Coins {
    Coins(true, Nulls(4) + ([TxOut(234925952, PayTo(a))] + (Nulls(11) + [TxOut(110397, PayTo(b))])), 120891, 1)
  }

  lemma {:induction false} SecondAmounts()
    ensures Compress64(234925952) == 2114333561 && Compress64(110397) == 993571
  {
  }

  lemma {:induction false} SecondNumbers()
    ensures VarBytes(993571) == [0xbb, 0xd1, 0x23] && VarBytes(120891) == [0x86, 0xaf, 0x3b]
    ensures VarBytes(9) == [0x09] && VarBytes(1) == [0x01]
  {
  }

  lemma {:induction false} LargestNumber()
    ensures VarBytes(2114333561) == [0x86, 0xef, 0x97, 0xd5, 0x79]
  {
    assert Leading(6) == [0x86];
    hide Leading, VarBytes;
    LeadingNext(6, 111);
    LeadingNext(1007, 23);
    LeadingNext(129047, 85);
    LeadingNext(16518229, 121);
  }

  lemma {:induction false} SecondOuts(keys: Keys, a: seq<Byte>, b: seq<Byte>)
    requires |a| == |b| == 20
    ensures OutsBytes(keys, SecondRecord(a, b).vout) ==
      [0x86, 0xef, 0x97, 0xd5, 0x79] + ([0x00] + a) + ([0xbb, 0xd1, 0x23] + ([0x00] + b))
  {
    hide OutBytes, VarBytes, Compress64, PayTo;
    var x, y := TxOut(234925952, PayTo(a)), TxOut(110397, PayTo(b));
    SecondAmounts();
    SecondNumbers();
    LargestNumber();
    OutAt(keys, a, 234925952, 2114333561, [0x86, 0xef, 0x97, 0xd5, 0x79]);
    OutAt(keys, b, 110397, 993571, [0xbb, 0xd1, 0x23]);
    NullsSkipped(keys, 4, [x] + (Nulls(11) + [y]));
    assert ([x] + (Nulls(11) + [y]))[1..] == Nulls(11) + [y];
    NullsSkipped(keys, 11, [y]);
    assert OutsBytes(keys, [y]) == OutBytes(keys, y) + OutsBytes(keys, []);
  }

  lemma {:induction false} SecondMask(vout: seq<TxOut>)
    requires |vout| == 17 && forall i: nat :: Avail(vout, i) <==> i == 4 || i == 16
    ensures Mask(vout) == [0x04, 0x40] && Nonzero(Mask(vout)) == 2
  {
    hide Avail, Nonzero;
    assert Pow2(2) == 4 && Pow2(6) == 64;
    MaskIs(vout, 0, 2, 0x04);
    MaskIs(vout, 1, 6, 0x40);
    assert MaskBytes(vout) == 2;
    hide MaskByte;
    assert Mask(vout) == [0x04, 0x40];
    BothNonzero();
  }

  lemma {:induction false} BothNonzero()
    ensures Nonzero([0x04, 0x40]) == 2
  {
    var m: seq<Byte> := [0x04, 0x40];
    assert m[..1] == [0x04] && [0x04][..0] == [];
    assert Nonzero([0x04]) == Nonzero([]) + 1;
  }

  /** A byte of the mask with one bit set. */
  lemma {:induction false} MaskIs(vout: seq<TxOut>, b: nat, p: nat, x: nat)
    requires p < 8 && x == Pow2(p) && forall q :: 0 <= q < 8 ==> (InByte(vout, b, q) <==> q == p)
    ensures MaskByte(vout, b) == x
  {
    hide InByte, Pow2;
    BitsBelow(vout, b, p, 8);
  }

  lemma {:induction false} BitsBelow(vout: seq<TxOut>, b: nat, p: nat, n: nat)
    requires n <= 8 && forall q :: 0 <= q < n ==> (InByte(vout, b, q) <==> q == p)
    ensures MaskBits(vout, b, n) == if p < n then Pow2(p) else 0
  {
    hide InByte, Pow2;
    if n > 0 {
      BitsBelow(vout, b, p, n - 1);
    }
  }

  lemma {:induction false} SecondBytes(keys: Keys, a: seq<Byte>, b: seq<Byte>)
    requires |a| == |b| == 20
    ensures !IsPruned(SecondRecord(a, b))
    ensures CoinBytes(keys, SecondRecord(a, b)) ==
      [0x01, 0x09, 0x04, 0x40, 0x86, 0xef, 0x97, 0xd5, 0x79, 0x00] + a + [0xbb, 0xd1, 0x23, 0x00] + b
      + [0x86, 0xaf, 0x3b]
  {
    hide VarBytes, OutBytes, OutsBytes, Mask, PayTo, Nonzero;
    var c := SecondRecord(a, b);
    SecondNumbers();
    assert !IsNull(c.vout[4]);
    SecondMask(c.vout);
    SecondOuts(keys, a, b);
    assert HeaderCode(c) == 9;
  }
}
