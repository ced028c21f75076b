/** The compact form of transaction outputs: amounts without trailing zeros, common scripts by a tag. */
module Compressor {
  import opened Positional
  import opened Amounts
  import opened CoinRecord
  import opened VarInt
  import opened Options
  import opened Sequences

  // ---------------------------------------------------------------- scripts

  const OP_RETURN: Byte := 0x6a
  const OP_DUP: Byte := 0x76
  const OP_EQUAL: Byte := 0x87
  const OP_EQUALVERIFY: Byte := 0x88
  const OP_HASH160: Byte := 0xa9
  const OP_CHECKSIG: Byte := 0xac

  const SPECIAL_SCRIPTS: nat := 6
  const MAX_SCRIPT_SIZE: nat := 10000

  /** Public keys as the curve library treats them. */
  datatype Keys = Keys(fullyValid: seq<Byte> -> bool, decompress: seq<Byte> -> Option<seq<Byte>>)

  /** Decompressing the compressed form of a valid 65-byte key gives the key back. */
  ghost predicate KeysOk(keys: Keys) {
    && (forall k {:trigger keys.fullyValid(k)} :: |k| == 65 && k[0] == 4 && keys.fullyValid(k) ==>
          keys.decompress([2 + k[64] % 2] + k[1..33]) == Some(k))
    && (forall k :: keys.decompress(k).Some? ==> |keys.decompress(k).value| == 65)
  }

  predicate IsToKeyId(s: seq<Byte>) {
    && |s| == 25 && s[0] == OP_DUP && s[1] == OP_HASH160 && s[2] == 20
    && s[23] == OP_EQUALVERIFY && s[24] == OP_CHECKSIG
  }

  predicate IsToScriptId(s: seq<Byte>) {
    |s| == 23 && s[0] == OP_HASH160 && s[1] == 20 && s[22] == OP_EQUAL
  }

  predicate IsToShortKey(s: seq<Byte>) {
    |s| == 35 && s[0] == 33 && s[34] == OP_CHECKSIG && (s[1] == 2 || s[1] == 3)
  }

  predicate IsToLongKey(keys: Keys, s: seq<Byte>) {
    |s| == 67 && s[0] == 65 && s[66] == OP_CHECKSIG && s[1] == 4 && keys.fullyValid(s[1..66])
  }

  /** The tag and the bytes of a script that has a special form. */
  function Compress(keys: Keys, s: seq<Byte>): (r: Option<seq<Byte>>) {
    if IsToKeyId(s) then Some([0] + s[3..23])
    else if IsToScriptId(s) then Some([1] + s[2..22])
    else if IsToShortKey(s) then Some([s[1]] + s[2..34])
    else if IsToLongKey(keys, s) then Some([4 + s[65] % 2] + s[2..34])
    else None
  }

  function SpecialSize(tag: nat): nat {
    if tag <= 1 then 20 else if tag <= 5 then 32 else 0
  }

  function Decompress(keys: Keys, tag: nat, bytes: seq<Byte>): (r: Option<seq<Byte>>)
    requires |bytes| == SpecialSize(tag)
  {
    if tag == 0 then Some([OP_DUP, OP_HASH160, 20] + bytes + [OP_EQUALVERIFY, OP_CHECKSIG])
    else if tag == 1 then Some([OP_HASH160, 20] + bytes + [OP_EQUAL])
    else if tag == 2 || tag == 3 then Some([33, tag] + bytes + [OP_CHECKSIG])
    else if tag == 4 || tag == 5 then
      match keys.decompress([tag - 2] + bytes)
      case None => None
      case Some(key) => Some([65] + key + [OP_CHECKSIG])
    else None
  }

  lemma DecompressCompressed(keys: Keys, s: seq<Byte>)
    requires KeysOk(keys) && Compress(keys, s).Some?
    ensures var c := Compress(keys, s).value;
            && c != [] && c[0] < SPECIAL_SCRIPTS && |c| == 1 + SpecialSize(c[0])
            && Decompress(keys, c[0], c[1..]) == Some(s)
  {
    if IsToKeyId(s) {
      assert s == [OP_DUP, OP_HASH160, 20] + s[3..23] + [OP_EQUALVERIFY, OP_CHECKSIG];
    } else if IsToScriptId(s) {
      assert s == [OP_HASH160, 20] + s[2..22] + [OP_EQUAL];
    } else if IsToShortKey(s) {
      assert s == [33, s[1]] + s[2..34] + [OP_CHECKSIG];
    } else {
      LongKeyRestored(keys, s);
    }
  }

  lemma LongKeyRestored(keys: Keys, s: seq<Byte>)
    requires KeysOk(keys) && IsToLongKey(keys, s)
    ensures Decompress(keys, 4 + s[65] % 2, s[2..34]) == Some(s)
  {
    var k := s[1..66];
    SliceOfSlice(s, 1, 66, 1, 33);
    assert k[64] == s[65];
    assert s == [65] + k + [OP_CHECKSIG];
  }

  /** Pay to the hash of a key. */
  ghost predicate PaysKeyId(s: seq<Byte>, c: seq<Byte>) {
    exists id: seq<Byte> :: |id| == 20 && s == [0x76, 0xa9, 20] + id + [0x88, 0xac] && c == [0] + id
  }

  /** Pay to the hash of a script. */
  ghost predicate PaysScriptId(s: seq<Byte>, c: seq<Byte>) {
    exists id: seq<Byte> :: |id| == 20 && s == [0xa9, 20] + id + [0x87] && c == [1] + id
  }

  /** Pay to a key of 33 bytes. */
  ghost predicate PaysShortKey(s: seq<Byte>, c: seq<Byte>) {
    exists x: seq<Byte> :: |x| == 32 && (c == [2] + x || c == [3] + x) && s == [33] + c + [0xac]
  }

  /** Pay to a valid key of 65 bytes. */
  ghost predicate PaysLongKey(keys: Keys, s: seq<Byte>, c: seq<Byte>) {
    exists x: seq<Byte>, y: seq<Byte> :: |x| == |y| == 32 && PaysTo(keys, s, c, x, y)
  }

  /** The key with the coordinates `x` and `y`; the short form keeps one of them and the parity of the other. */
  predicate PaysTo(keys: Keys, s: seq<Byte>, c: seq<Byte>, x: seq<Byte>, y: seq<Byte>)
    requires |x| == |y| == 32
  {
    keys.fullyValid([4] + x + y) && s == [65] + ([4] + x + y) + [0xac] && c == [4 + y[31] % 2] + x
  }

  /** Exactly these scripts are shortened, whatever the hash or the key, and each to its short form. */
  lemma {:induction false} CompressExactly(keys: Keys, s: seq<Byte>, c: seq<Byte>)
    ensures Compress(keys, s) == Some(c) <==>
      PaysKeyId(s, c) || PaysScriptId(s, c) || PaysShortKey(s, c) || PaysLongKey(keys, s, c)
  {
    hide PaysKeyId, PaysScriptId, PaysShortKey, PaysLongKey;
    KeyIdForm(s, c);
    ScriptIdForm(s, c);
    ShortKeyForm(s, c);
    LongKeyForm(keys, s, c);
  }

  lemma KeyIdForm(s: seq<Byte>, c: seq<Byte>)
    ensures PaysKeyId(s, c) <==> IsToKeyId(s) && c == [0] + s[3..23]
  {
    if IsToKeyId(s) {
      assert s == [0x76, 0xa9, 20] + s[3..23] + [0x88, 0xac];
    }
    if id: seq<Byte> :| |id| == 20 && s == [0x76, 0xa9, 20] + id + [0x88, 0xac] && c == [0] + id {
      assert s[3..23] == id;
    }
  }

  lemma ScriptIdForm(s: seq<Byte>, c: seq<Byte>)
    ensures PaysScriptId(s, c) <==> IsToScriptId(s) && c == [1] + s[2..22]
  {
    if IsToScriptId(s) {
      assert s == [0xa9, 20] + s[2..22] + [0x87];
    }
    if id: seq<Byte> :| |id| == 20 && s == [0xa9, 20] + id + [0x87] && c == [1] + id {
      assert s[2..22] == id;
    }
  }

  lemma ShortKeyForm(s: seq<Byte>, c: seq<Byte>)
    ensures PaysShortKey(s, c) <==> IsToShortKey(s) && c == [s[1]] + s[2..34]
  {
    if IsToShortKey(s) && c == [s[1]] + s[2..34] {
      assert s == [33] + c + [0xac];
      assert |s[2..34]| == 32 && (c == [2] + s[2..34] || c == [3] + s[2..34]);
    }
    if x: seq<Byte> :| |x| == 32 && (c == [2] + x || c == [3] + x) && s == [33] + c + [0xac] {
      assert s[2..34] == x && s[1] == c[0];
    }
  }

  lemma LongKeyForm(keys: Keys, s: seq<Byte>, c: seq<Byte>)
    ensures PaysLongKey(keys, s, c) <==> IsToLongKey(keys, s) && c == [4 + s[65] % 2] + s[2..34]
  {
    hide PaysTo;
    if IsToLongKey(keys, s) && c == [4 + s[65] % 2] + s[2..34] {
      LongKeyParts(keys, s);
    }
    if x: seq<Byte>, y: seq<Byte> :| |x| == |y| == 32 && PaysTo(keys, s, c, x, y) {
      LongKeyJoined(keys, s, c, x, y);
    }
  }

  lemma LongKeyParts(keys: Keys, s: seq<Byte>)
    requires IsToLongKey(keys, s)
    ensures PaysTo(keys, s, [4 + s[65] % 2] + s[2..34], s[2..34], s[34..66])
  {
    var x, y := s[2..34], s[34..66];
    assert s[1..66] == [4] + x + y;
    assert y[31] == s[65];
    assert s == [65] + s[1..66] + [0xac];
  }

  lemma LongKeyJoined(keys: Keys, s: seq<Byte>, c: seq<Byte>, x: seq<Byte>, y: seq<Byte>)
    requires |x| == |y| == 32 && PaysTo(keys, s, c, x, y)
    ensures IsToLongKey(keys, s) && c == [4 + s[65] % 2] + s[2..34]
  {
    var k := [4] + x + y;
    assert |k| == 65 && k[64] == y[31] && k[1..33] == x && k[0] == 4;
    assert s[1..66] == k;
    assert s[2..34] == k[1..33] && s[65] == k[64];
  }

  /** A script's bytes; its size is an unsigned integer. */
  function ScriptBytes(keys: Keys, s: seq<Byte>): seq<Byte> {
    match Compress(keys, s)
    case Some(c) => c
    case None => VarBytes((|s| + SPECIAL_SCRIPTS) % UINT32) + s
  }

  /** Reading a script into an empty one; an unreadable key leaves it empty, an overlong script becomes unspendable. */
  function ReadScript(keys: Keys, t: seq<Byte>): Reading<seq<Byte>> {
    match ReadUint(UINT32, t)
    case Fail => Fail
    case Got(n, rest) =>
      if n < SPECIAL_SCRIPTS then
        var size := SpecialSize(n);
        if |rest| < size then Fail
        else
          var d := Decompress(keys, n, rest[..size]);
          Got(if d.Some? then d.value else [], rest[size..])
      else
        var size := n - SPECIAL_SCRIPTS;
        if |rest| < size then Fail
        else Got(if size > MAX_SCRIPT_SIZE then [OP_RETURN] else rest[..size], rest[size..])
  }

  lemma ReadSpecial(keys: Keys, s: seq<Byte>, t: seq<Byte>)
    requires KeysOk(keys) && Compress(keys, s).Some?
    ensures ReadScript(keys, ScriptBytes(keys, s) + t) == Got(s, t) && |s| <= 67
  {
    hide Decompress, KeysOk, ReadUint;
    var c := Compress(keys, s).value;
    DecompressCompressed(keys, s);
    var rest := c[1..] + t;
    assert c + t == [c[0]] + rest;
    OneByte(c[0], rest);
    assert rest[..SpecialSize(c[0])] == c[1..] && rest[SpecialSize(c[0])..] == t;
  }

  lemma ReadPlain(keys: Keys, s: seq<Byte>, t: seq<Byte>)
    requires Compress(keys, s).None? && |s| + SPECIAL_SCRIPTS < UINT32
    ensures ReadScript(keys, ScriptBytes(keys, s) + t) == Got(if |s| <= MAX_SCRIPT_SIZE then s else [OP_RETURN], t)
  {
    hide Decompress, ReadUint, VarBytes, Compress;
    var n := |s| + SPECIAL_SCRIPTS;
    DivisionIs(n, UINT32, 0, n);
    assert VarBytes(n) + s + t == VarBytes(n) + (s + t);
    ReadUintBytes(UINT32, n, s + t);
    assert (s + t)[..|s|] == s && (s + t)[|s|..] == t;
  }

  /** Reading never gives a script as long as those whose size wraps around. */
  lemma ReadIsShort(keys: Keys, t: seq<Byte>)
    requires KeysOk(keys)
    ensures ReadScript(keys, t).Got? ==> |ReadScript(keys, t).value| <= MAX_SCRIPT_SIZE
  {
    hide ReadUint;
    assert forall k :: keys.decompress(k).Some? ==> |keys.decompress(k).value| == 65;
  }

  /** Writing a script and reading it gives the script exactly up to the size limit, and uses its bytes only. */
  lemma ReadScriptBytes(keys: Keys, s: seq<Byte>, t: seq<Byte>)
    requires KeysOk(keys)
    ensures |s| + SPECIAL_SCRIPTS < UINT32 ==>
              ReadScript(keys, ScriptBytes(keys, s) + t) == Got(if |s| <= MAX_SCRIPT_SIZE then s else [OP_RETURN], t)
    ensures ReadScript(keys, ScriptBytes(keys, s) + t) == Got(s, t) <==> |s| <= MAX_SCRIPT_SIZE
  {
    hide KeysOk, ScriptBytes, ReadScript, Compress;
    ReadIsShort(keys, ScriptBytes(keys, s) + t);
    if Compress(keys, s).Some? {
      ReadSpecial(keys, s, t);
    } else if |s| + SPECIAL_SCRIPTS < UINT32 {
      ReadPlain(keys, s, t);
    }
  }

  lemma {:induction false} OneByte(b: Byte, t: seq<Byte>)
    requires b < 128
    ensures ReadUint(UINT32, [b] + t) == Got(b, t)
  {
    assert ([b] + t)[1..] == t;
  }

  // ---------------------------------------------------------------- outputs

  function ToInt64(x: nat): int {
    if x < UINT64 / 2 then x else x - UINT64
  }

  /** Amounts are signed integers of 64 bits. */
  predicate IsInt64(v: int) {
    -(UINT64 as int) / 2 <= v < UINT64 / 2
  }

  lemma SameInt64(v: int, x: nat)
    requires IsInt64(v) && x < UINT64
    ensures ToInt64(x) == v <==> x == v % UINT64
  {
  }

  /** Outputs the compact form keeps: the amount, taken as unsigned, compresses without wrapping around. */
  predicate Storable(o: TxOut) {
    CompressAmount(o.value % UINT64) < UINT64 && |o.script| <= MAX_SCRIPT_SIZE
  }

  lemma ValidIsStorable(o: TxOut)
    requires 0 <= o.value <= MAX_MONEY && |o.script| <= MAX_SCRIPT_SIZE
    ensures Storable(o)
  {
    hide CompressAmount;
    AmountFits(o.value);
  }

  /** An output's bytes; its amount is compressed as an unsigned integer. */
  function OutBytes(keys: Keys, o: TxOut): seq<Byte> {
    VarBytes(Compress64(o.value % UINT64)) + ScriptBytes(keys, o.script)
  }

  function ReadOut(keys: Keys, t: seq<Byte>): Reading<TxOut> {
    match ReadUint(UINT64, t)
    case Fail => Fail
    case Got(x, rest) =>
      match ReadScript(keys, rest)
      case Fail => Fail
      case Got(script, after) => Got(TxOut(ToInt64(Decompress64(x)), script), after)
  }

  /** What a written output is read back as. */
  function Stored(o: TxOut): TxOut {
    TxOut(ToInt64(Decompress64(Compress64(o.value % UINT64))),
          if |o.script| <= MAX_SCRIPT_SIZE then o.script else [OP_RETURN])
  }

  lemma StoredIsSame(o: TxOut)
    requires IsInt64(o.value)
    ensures Stored(o) == o <==> Storable(o)
  {
    var n := o.value % UINT64;
    Below64(n, Compress64(n));
    hide Compress64, Decompress64, CompressAmount, DecompressAmount;
    AmountRoundTrip(n);
    SameInt64(o.value, Decompress64(Compress64(n)));
  }

  /** An output is read back exactly if it is storable, and its bytes are used exactly. */
  lemma ReadOutBytes(keys: Keys, o: TxOut, t: seq<Byte>)
    requires KeysOk(keys) && IsInt64(o.value)
    ensures |o.script| + SPECIAL_SCRIPTS < UINT32 ==> ReadOut(keys, OutBytes(keys, o) + t) == Got(Stored(o), t)
    ensures ReadOut(keys, OutBytes(keys, o) + t) == Got(o, t) <==> Storable(o)
  {
    hide KeysOk, VarBytes, ReadUint, ReadScript, ScriptBytes, Compress64, Decompress64, CompressAmount;
    hide DecompressAmount;
    var n := o.value % UINT64;
    var x := Compress64(n);
    var b := ScriptBytes(keys, o.script);
    Below64(n, x);
    assert OutBytes(keys, o) + t == VarBytes(x) + (b + t);
    ReadUintBytes(UINT64, x, b + t);
    ReadScriptBytes(keys, o.script, t);
    StoredIsSame(o);
  }

  lemma Below64(n: nat, x: nat)
    ensures Compress64(n) < UINT64 && Decompress64(x) < UINT64
  {
    hide CompressAmount, DecompressAmount;
  }
}
