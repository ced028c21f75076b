/** Known strings and their meanings, which fix the alphabet, the expansion of the prefix and the generator. */
module Bech32Vectors {
  import opened PolyMod
  import opened MachineWords
  import opened Bech32

  /** A prefix, data and six symbols whose checksum on words is one are the encoding of the data under the prefix. */
  lemma {:induction false} Known(hrp: string, values: seq<nat>, sum: seq<nat>)
    requires Encodable(hrp, values) && Symbols(sum) && |sum| == 6
    requires Rounds(1, ExpandHrp(hrp) + (values + sum)) == 1
    ensures Encode(hrp, values) == hrp + "1" + CharsOf(values + sum)
    ensures Decode(hrp + "1" + CharsOf(values + sum)) == Valid(hrp, values)
  {
    hide Rounds, Fold, Checksum, Word, CharsetRev, Printable;
    var enc := ExpandHrp(hrp) + values;
    ExpandedIsSmall(hrp, values);
    assert enc + sum == ExpandHrp(hrp) + (values + sum);
    ExpandedAreSymbols(hrp, values + sum);
    OneWord();
    WordFold(1, enc + sum);
    FoldKeeps(1, enc + sum);
    SmallestWords(Fold(1, enc + sum));
    ChecksumSymbols(enc);
    ChecksumVerifies(enc);
    OneTail(enc, sum, Checksum(enc));
    DecodeEncoded(hrp, values);
  }

  lemma {:induction false} OneWord()
    ensures Word(1) == 1
  {
  }

  /** After the same message, two tails of six symbols that both verify are the same. */
  lemma {:induction false} OneTail(enc: seq<nat>, a: seq<nat>, b: seq<nat>)
    requires Symbols(enc) && Symbols(a) && Symbols(b) && |a| == |b| == 6
    requires Fold(1, enc + a) == Fold(1, enc + b)
    ensures a == b
  {
    hide Fold;
    assert enc + a + [] == enc + a && enc + b + [] == enc + b;
    if a != b {
      BurstDetected(enc, a, b, []);
    }
  }

  /** Rounds over a few symbols, written out. */
  lemma {:induction false} RoundsThree(c: bv32, x: nat, y: nat, z: nat)
    ensures Rounds(c, [x, y, z]) == Round(Round(Round(c, Word(x)), Word(y)), Word(z))
  {
    hide Round, Word;
    RoundsNext(c, x, [y, z]);
    RoundsNext(Round(c, Word(x)), y, [z]);
    RoundsNext(Round(Round(c, Word(x)), Word(y)), z, []);
    RoundsNone(Round(Round(Round(c, Word(x)), Word(y)), Word(z)));
  }

  lemma {:induction false} RoundsNext(c: bv32, x: nat, rest: seq<nat>)
    ensures Rounds(c, [x] + rest) == Rounds(Round(c, Word(x)), rest)
  {
    hide Round, Word;
    assert ([x] + rest)[1..] == rest;
  }

  lemma {:induction false} RoundsNone(c: bv32)
    ensures Rounds(c, []) == c
  {
  }

  lemma {:induction false} ShortSum()
    ensures Rounds(0x1, [3, 0, 1, 10, 28, 25, 31, 20, 31]) == 0x1
  {
    SmallWords();
    hide Word, Rounds;
    RoundsThree(0x1, 3, 0, 1);
    RoundsThree(0x8c01, 10, 28, 25);
    RoundsThree(0x3d6afc2b, 31, 20, 31);
    RoundsSplit(0x1, [3, 0, 1], [10, 28, 25, 31, 20, 31]);
    assert [3, 0, 1] + [10, 28, 25, 31, 20, 31] == [3, 0, 1, 10, 28, 25, 31, 20, 31];
    RoundsSplit(0x8c01, [10, 28, 25], [31, 20, 31]);
    assert [10, 28, 25] + [31, 20, 31] == [10, 28, 25, 31, 20, 31];
  }

  lemma ShortParts()
    ensures ExpandHrp("a") == [3, 0, 1] && CharsOf([10, 28, 25, 31, 20, 31]) == "2uel5l"
    ensures Encodable("a", [])
  {
  }

  /** The shortest string there is, of the prefix "a" and no data. */
  lemma {:induction false} ShortString()
    ensures Encode("a", []) == "a12uel5l" && Decode("a12uel5l") == Valid("a", [])
  {
    hide Rounds, Encode, Decode, CharsetRev, ExpandHrp, CharsOf, Encodable;
    ShortParts();
    ShortSum();
    assert [] + [10, 28, 25, 31, 20, 31] == [10, 28, 25, 31, 20, 31];
    assert [3, 0, 1] + [10, 28, 25, 31, 20, 31] == [3, 0, 1, 10, 28, 25, 31, 20, 31];
    Known("a", [], [10, 28, 25, 31, 20, 31]);
    assert "a" + "1" + "2uel5l" == "a12uel5l";
  }

  lemma {:induction false} Long1()
    ensures Rounds(0x1, [3, 3, 3, 3, 3, 3, 0, 1, 2]) == 0x17456f7b
  {
    SmallWords();
    hide Word, Rounds;
    RoundsThree(0x1, 3, 3, 3);
    RoundsThree(0x8c63, 3, 3, 3);
    RoundsThree(0x3d5bdbd1, 0, 1, 2);
    RoundsSplit(0x1, [3, 3, 3], [3, 3, 3, 0, 1, 2]);
    assert [3, 3, 3] + [3, 3, 3, 0, 1, 2] == [3, 3, 3, 3, 3, 3, 0, 1, 2];
    RoundsSplit(0x8c63, [3, 3, 3], [0, 1, 2]);
    assert [3, 3, 3] + [0, 1, 2] == [3, 3, 3, 0, 1, 2];
  }

  lemma {:induction false} Long2()
    ensures Rounds(0x17456f7b, [3, 4, 5, 6, 0, 1, 2, 3, 4]) == 0x28db67b3
  {
    SmallWords();
    hide Word, Rounds;
    RoundsThree(0x17456f7b, 3, 4, 5);
    RoundsThree(0x266635a8, 6, 0, 1);
    RoundsThree(0x30018ce4, 2, 3, 4);
    RoundsSplit(0x17456f7b, [3, 4, 5], [6, 0, 1, 2, 3, 4]);
    assert [3, 4, 5] + [6, 0, 1, 2, 3, 4] == [3, 4, 5, 6, 0, 1, 2, 3, 4];
    RoundsSplit(0x266635a8, [6, 0, 1], [2, 3, 4]);
    assert [6, 0, 1] + [2, 3, 4] == [6, 0, 1, 2, 3, 4];
  }

  lemma {:induction false} Long3()
    ensures Rounds(0x28db67b3, [5, 6, 7, 8, 9, 10, 11, 12, 13]) == 0x212c0d6a
  {
    SmallWords();
    hide Word, Rounds;
    RoundsThree(0x28db67b3, 5, 6, 7);
    RoundsThree(0x11e88668, 8, 9, 10);
    RoundsThree(0x2e301b62, 11, 12, 13);
    RoundsSplit(0x28db67b3, [5, 6, 7], [8, 9, 10, 11, 12, 13]);
    assert [5, 6, 7] + [8, 9, 10, 11, 12, 13] == [5, 6, 7, 8, 9, 10, 11, 12, 13];
    RoundsSplit(0x11e88668, [8, 9, 10], [11, 12, 13]);
    assert [8, 9, 10] + [11, 12, 13] == [8, 9, 10, 11, 12, 13];
  }

  lemma {:induction false} Long4()
    ensures Rounds(0x212c0d6a, [14, 15, 16, 17, 18, 19, 20, 21, 22]) == 0xc8c6efb
  {
    SmallWords();
    hide Word, Rounds;
    RoundsThree(0x212c0d6a, 14, 15, 16);
    RoundsThree(0x3311a03e, 17, 18, 19);
    RoundsThree(0x28166541, 20, 21, 22);
    RoundsSplit(0x212c0d6a, [14, 15, 16], [17, 18, 19, 20, 21, 22]);
    assert [14, 15, 16] + [17, 18, 19, 20, 21, 22] == [14, 15, 16, 17, 18, 19, 20, 21, 22];
    RoundsSplit(0x3311a03e, [17, 18, 19], [20, 21, 22]);
    assert [17, 18, 19] + [20, 21, 22] == [17, 18, 19, 20, 21, 22];
  }

  lemma {:induction false} Long5()
    ensures Rounds(0xc8c6efb, [23, 24, 25, 26, 27, 28, 29, 30, 31]) == 0x1a0d3656
  {
    SmallWords();
    hide Word, Rounds;
    RoundsThree(0xc8c6efb, 23, 24, 25);
    RoundsThree(0x3f0597ac, 26, 27, 28);
    RoundsThree(0x9853657, 29, 30, 31);
    RoundsSplit(0xc8c6efb, [23, 24, 25], [26, 27, 28, 29, 30, 31]);
    assert [23, 24, 25] + [26, 27, 28, 29, 30, 31] == [23, 24, 25, 26, 27, 28, 29, 30, 31];
    RoundsSplit(0x3f0597ac, [26, 27, 28], [29, 30, 31]);
    assert [26, 27, 28] + [29, 30, 31] == [26, 27, 28, 29, 30, 31];
  }

  lemma {:induction false} Long6()
    ensures Rounds(0x1a0d3656, [27, 0, 0, 0, 6, 14]) == 0x1
  {
    SmallWords();
    hide Word, Rounds;
    RoundsThree(0x1a0d3656, 27, 0, 0);
    RoundsThree(0x1f82a53f, 0, 6, 14);
    RoundsSplit(0x1a0d3656, [27, 0, 0], [0, 6, 14]);
    assert [27, 0, 0] + [0, 6, 14] == [27, 0, 0, 0, 6, 14];
  }

  /** A character's share of the expanded prefix. */
  lemma PrefixAt(hrp: string, i: nat)
    requires i < |hrp|
    ensures ExpandHrp(hrp)[i] == ByteOf(hrp[i]) / 32 && ExpandHrp(hrp)[|hrp| + 1 + i] == ByteOf(hrp[i]) % 32
  {
  }

  lemma LongPrefix()
    ensures ExpandHrp("abcdef") == [3, 3, 3, 3, 3, 3, 0, 1, 2, 3, 4, 5, 6]
  {
    hide ExpandHrp;
    var h := "abcdef";
    PrefixAt(h, 0);
    PrefixAt(h, 1);
    PrefixAt(h, 2);
    PrefixAt(h, 3);
    PrefixAt(h, 4);
    PrefixAt(h, 5);
  }

  lemma LongFits()
    ensures Encodable("abcdef", Ascending())
  {
  }

  /** The symbols from 0 to 31. */
  function Ascending(): (r: seq<nat>)
    ensures |r| == 32 && Symbols(r) && forall i :: 0 <= i < 32 ==> r[i] == i
  {
    seq(32, i => i)
  }

  lemma LongChars()
    ensures CharsOf(Ascending() + [27, 0, 0, 0, 6, 14]) == CHARSET + "mqqqxw"
  {
  }

  lemma {:induction false} LongSum(v: seq<nat>)
    requires v == [3, 3, 3, 3, 3, 3, 0, 1, 2, 3, 4, 5, 6] + (Ascending() + [27, 0, 0, 0, 6, 14])
    ensures Rounds(1, v) == 1
  {
    hide Rounds;
    var a := [3, 3, 3, 3, 3, 3, 0, 1, 2];
    var b := [3, 4, 5, 6, 0, 1, 2, 3, 4];
    var c := [5, 6, 7, 8, 9, 10, 11, 12, 13];
    var d := [14, 15, 16, 17, 18, 19, 20, 21, 22];
    var e := [23, 24, 25, 26, 27, 28, 29, 30, 31];
    var g := [27, 0, 0, 0, 6, 14];
    Long1();
    Long2();
    Long3();
    Long4();
    Long5();
    Long6();
    RoundsSplit(0x1, a, b + (c + (d + (e + (g)))));
    RoundsSplit(0x17456f7b, b, c + (d + (e + (g))));
    RoundsSplit(0x28db67b3, c, d + (e + (g)));
    RoundsSplit(0x212c0d6a, d, e + (g));
    RoundsSplit(0xc8c6efb, e, g);
    assert v == a + (b + (c + (d + (e + (g)))));
  }

  /** A string with every symbol in order. */
  lemma {:induction false} LongString()
    ensures var s := "abcdef1qpzry9x8gf2tvdw0s" + "3jn54khce6mua7lmqqqxw";
      Encode("abcdef", Ascending()) == s && Decode(s) == Valid("abcdef", Ascending())
  {
    hide Rounds, Encode, Decode, CharsetRev, ExpandHrp, CharsOf, Encodable, Ascending;
    LongPrefix();
    LongFits();
    LongSum(ExpandHrp("abcdef") + (Ascending() + [27, 0, 0, 0, 6, 14]));
    Known("abcdef", Ascending(), [27, 0, 0, 0, 6, 14]);
    LongChars();
    LongText();
  }

  lemma LongText()
    ensures "abcdef" + "1" + (CHARSET + "mqqqxw") == "abcdef1qpzry9x8gf2tvdw0s" + "3jn54khce6mua7lmqqqxw"
  {
    CharsetHalves();
    FirstHalf();
    SecondHalf();
    var a, b, c, d := "abcdef" + "1", "qpzry9x8gf2tvdw0s", "3jn54khce6mua7l", "mqqqxw";
    assert a + ((b + c) + d) == (a + b) + (c + d);
  }

  lemma CharsetHalves()
    ensures CHARSET == "qpzry9x8gf2tvdw0s" + "3jn54khce6mua7l"
  {
    assert |CHARSET| == |"qpzry9x8gf2tvdw0s" + "3jn54khce6mua7l"|;
  }

  lemma FirstHalf()
    ensures "abcdef" + "1" + "qpzry9x8gf2tvdw0s" == "abcdef1qpzry9x8gf2tvdw0s"
  {
    assert |"abcdef" + "1" + "qpzry9x8gf2tvdw0s"| == |"abcdef1qpzry9x8gf2tvdw0s"|;
  }

  lemma SecondHalf()
    ensures "3jn54khce6mua7l" + "mqqqxw" == "3jn54khce6mua7lmqqqxw"
  {
    assert |"3jn54khce6mua7l" + "mqqqxw"| == |"3jn54khce6mua7lmqqqxw"|;
  }
}
