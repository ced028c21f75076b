/** Values that the daemon's comments and its own examples give for its encodings, which fix their details. */
module KnownValues {
  import opened Positional
  import opened VarInt
  import Amounts
  import Base58
  import BigEndian
  import CompactTarget
  import opened Compressor

  // ---------------------------------------------------------------- integers of variable length

  /** One byte up to 127, most significant digits first, and no integer in two ways. */
  lemma {:induction false} Integers()
    ensures VarBytes(0) == [0x00] && VarBytes(1) == [0x01] && VarBytes(127) == [0x7F]
    ensures VarBytes(128) == [0x80, 0x00] && VarBytes(255) == [0x80, 0x7F] && VarBytes(256) == [0x81, 0x00]
    ensures VarBytes(16383) == [0xFE, 0x7F] && VarBytes(16384) == [0xFF, 0x00]
    ensures VarBytes(16511) == [0xFF, 0x7F] && VarBytes(65535) == [0x82, 0xFE, 0x7F]
    ensures VarBytes(0x1_0000_0000) == [0x8E, 0xFE, 0xFE, 0xFF, 0x00]
  {
  }

  /** The comment on the format gives other bytes for 16511 and 65535; they stand for these integers. */
  lemma {:induction false} IntegersMistaken()
    ensures ReadFrom(0, [0x80, 0xFF, 0x7F]) == Got(32895, []) && ReadFrom(0, [0x82, 0xFD, 0x7F]) == Got(65407, [])
  {
  }

  // ---------------------------------------------------------------- amounts

  lemma {:induction false} SmallAmounts()
    ensures Amounts.Compress64(0) == 0 && Amounts.Compress64(1) == 1 && Amounts.Compress64(1000000) == 7
    ensures Amounts.Compress64(100000000) == 9 && Amounts.Compress64(5000000000) == 50
  {
  }

  lemma {:induction false} LargeAmounts()
    ensures Amounts.Compress64(2100000000000000) == 0x1406f40 && Amounts.Compress64(4400000000000000) == 0x29f6300
  {
  }

  // ---------------------------------------------------------------- Base58

  /** The digits are the decimal digits and the letters but for 0, O, I and l. */
  lemma AlphabetIs(c: char)
    ensures Base58.DigitOf(c) >= 0 <==>
      ('0' <= c <= '9' || 'A' <= c <= 'Z' || 'a' <= c <= 'z') && c != '0' && c != 'O' && c != 'I' && c != 'l'
  {
  }

  /** They are in the order of their codes. */
  lemma AlphabetAscends(c: char, e: char)
    requires Base58.DigitOf(c) >= 0 && Base58.DigitOf(e) >= 0
    ensures Base58.DigitOf(c) < Base58.DigitOf(e) <==> c < e
  {
  }

  /** Text whose digits stand for the same number as the bytes, after as many zeros, is the text of the bytes. */
  lemma {:induction false} TextIs(bytes: seq<nat>, digits: seq<nat>, zeros: nat, v: nat)
    requires Digits(256, bytes) && Digits(58, digits)
    requires BigEndian.Lead(bytes) == zeros == BigEndian.Lead(digits)
    requires BigEndian.Num(256, bytes) == v == BigEndian.Num(58, digits)
    ensures Base58.Encode(bytes) == Base58.CharsOf(digits)
  {
    hide BigEndian.Num, BigEndian.FromNum, BigEndian.Lead;
    BigEndian.CanonicalIs(58, digits);
    assert BigEndian.Rebase(256, 58, bytes) == digits;
  }

  lemma {:induction false} NumNext(b: nat, s: seq<nat>, d: nat)
    ensures BigEndian.Num(b, s + [d]) == BigEndian.Num(b, s) * b + d && BigEndian.Num(b, []) == 0
  {
    assert (s + [d])[..|s|] == s;
  }

  lemma {:induction false} OneByte()
    ensures Base58.Encode([0x61]) == "2g"
  {
    hide BigEndian.Num, Base58.Encode;
    NumNext(256, [], 0x61);
    NumNext(58, [], 1);
    NumNext(58, [1], 39);
    assert [] + [0x61] == [0x61];
    assert [] + [1] == [1] && [1] + [39] == [1, 39];
    TextIs([0x61], [1, 39], 0, 97);
    assert Base58.CharsOf([1, 39]) == "2g";
  }

  lemma {:induction false} ThreeBytes()
    ensures Base58.Encode([0x62, 0x62, 0x62]) == "a3gV"
  {
    hide BigEndian.Num, Base58.Encode, Base58.CharsOf;
    NumThree(256, 0x62, 0x62, 0x62);
    NumThree(58, 33, 2, 39);
    NumNext(58, [33, 2, 39], 28);
    assert [33, 2, 39] + [28] == [33, 2, 39, 28];
    TextIs([0x62, 0x62, 0x62], [33, 2, 39, 28], 0, 6447714);
    ThreeChars();
  }

  lemma ThreeChars()
    ensures Base58.CharsOf([33, 2, 39, 28]) == "a3gV"
  {
  }

  lemma {:induction false} NumThree(b: nat, x: nat, y: nat, z: nat)
    ensures BigEndian.Num(b, [x, y, z]) == (x * b + y) * b + z
  {
    hide BigEndian.Num;
    NumNext(b, [], x);
    NumNext(b, [x], y);
    NumNext(b, [x, y], z);
    assert [] + [x] == [x] && [x] + [y] == [x, y] && [x, y] + [z] == [x, y, z];
  }

  lemma {:induction false} OnlyZeros()
    ensures Base58.Encode([0, 0, 0, 0, 0, 0, 0, 0, 0, 0]) == "1111111111"
  {
    var zeros := [0, 0, 0, 0, 0, 0, 0, 0, 0, 0];
    BigEndian.LeadUnique(zeros, 10);
    BigEndian.NumZeros(256, zeros);
    BigEndian.NumZeros(58, zeros);
    TextIs(zeros, zeros, 10, 0);
    assert Base58.CharsOf(zeros) == "1111111111";
  }

  // ---------------------------------------------------------------- compact targets

  /** The value that a compact form stands for. */
  function Value(compact: nat): nat {
    CompactTarget.Expand(CompactTarget.WordOf(compact), CompactTarget.SizeOf(compact))
  }

  lemma {:induction false} TargetsRead()
    ensures Value(0x01123456) == 0x12 && Value(0x02123456) == 0x1234 && Value(0x03123456) == 0x123456
    ensures Value(0x04123456) == 0x12345600 && Value(0x04923456) == 0x12345600 && Value(0x05009234) == 0x92340000
    ensures CompactTarget.SignOf(0x04923456) && !CompactTarget.SignOf(0x05009234)
  {
  }

  lemma {:induction false} TargetsWritten()
    ensures CompactTarget.Encode(0x12, false) == 0x01120000 && CompactTarget.Encode(0x80, false) == 0x02008000
    ensures CompactTarget.Encode(0x7e, true) == 0x01fe0000 && CompactTarget.Encode(0x12345600, true) == 0x04923456
    ensures CompactTarget.Encode(0x92340000, false) == 0x05009234
  {
  }
}
