/**
 Base58 text for byte strings: a change of base from 256 to 58 in a fixed buffer, with
 leading zero bytes written as leading ones, and the variant with a four-byte check.
 */
module Base58 {
  import opened Sequences
  import opened Positional
  import opened BigEndian

  const ALPHABET := "123456789" + "ABCDEFGH" + "JKLMN" + "PQRSTUVWXYZ" + "abcdefghijk" + "mnopqrstuvwxyz"

  datatype Decoded = Invalid | Bytes(bytes: seq<nat>)

  // ---------------------------------------------------------------- characters

  predicate IsSpace(c: char) {
    c == ' ' || 9 as char <= c <= 13 as char
  }

  /** The position of a character in the alphabet, or -1. */
  function DigitOf(c: char): int {
    if '1' <= c <= '9' then c as int - '1' as int
    else if 'A' <= c <= 'H' then c as int - 'A' as int + 9
    else if 'J' <= c <= 'N' then c as int - 'J' as int + 17
    else if 'P' <= c <= 'Z' then c as int - 'P' as int + 22
    else if 'a' <= c <= 'k' then c as int - 'a' as int + 33
    else if 'm' <= c <= 'z' then c as int - 'm' as int + 44
    else -1
  }

  lemma AlphabetLength()
    ensures |ALPHABET| == 58
  {
  }

  function CharOf(d: nat): char
    requires d < 58
  {
    AlphabetLength();
    ALPHABET[d]
  }

  lemma FirstChars(d: nat)
    requires d < 22
    ensures DigitOf(CharOf(d)) == d
  {
  }

  lemma MiddleChars(d: nat)
    requires 22 <= d < 44
    ensures DigitOf(CharOf(d)) == d
  {
  }

  lemma LastChars(d: nat)
    requires 44 <= d < 58
    ensures DigitOf(CharOf(d)) == d
  {
  }

  lemma CharOfIs(d: nat)
    requires d < 58
    ensures DigitOf(CharOf(d)) == d && !IsSpace(CharOf(d))
  {
    hide CharOf;
    if d < 22 {
      FirstChars(d);
    } else if d < 44 {
      MiddleChars(d);
    } else {
      LastChars(d);
    }
  }

  lemma DigitOfIs(c: char)
    ensures -1 <= DigitOf(c) < 58
    ensures DigitOf(c) >= 0 ==> CharOf(DigitOf(c)) == c && !IsSpace(c)
    ensures DigitOf(c) == 0 <==> c == '1'
  {
  }

  predicate AllDigits(s: string) {
    forall i :: 0 <= i < |s| ==> DigitOf(s[i]) != -1
  }

  function DigitsOf(s: string): (r: seq<nat>)
    requires AllDigits(s)
    ensures |r| == |s| && Digits(58, r)
  {
    seq(|s|, i requires 0 <= i < |s| => Digit(s[i]))
  }

  function Digit(c: char): (d: nat)
    requires DigitOf(c) != -1
    ensures d < 58
  {
    DigitOfIs(c);
    DigitOf(c)
  }

  function CharsOf(v: seq<nat>): (r: string)
    requires Digits(58, v)
    ensures |r| == |v|
  {
    seq(|v|, i requires 0 <= i < |v| => CharOf(v[i]))
  }

  lemma DigitsOfChars(v: seq<nat>)
    requires Digits(58, v)
    ensures var s := CharsOf(v);
            AllDigits(s) && DigitsOf(s) == v && forall i :: 0 <= i < |s| ==> !IsSpace(s[i])
  {
    hide DigitOf, IsSpace;
    forall i | 0 <= i < |v|
      ensures var c := CharsOf(v)[i]; DigitOf(c) == v[i] && !IsSpace(c)
    {
      CharOfIs(v[i]);
    }
  }

  lemma CharsOfDigits(s: string)
    requires AllDigits(s)
    ensures CharsOf(DigitsOf(s)) == s
  {
    hide DigitOf;
    forall i | 0 <= i < |s|
      ensures CharsOf(DigitsOf(s))[i] == s[i]
    {
      DigitOfIs(s[i]);
    }
  }

  // ---------------------------------------------------------------- the text around the digits

  function Spaces(s: string): (n: nat)
    ensures n <= |s| && (forall i :: 0 <= i < n ==> IsSpace(s[i])) && (n < |s| ==> !IsSpace(s[n]))
  {
    if s == "" || !IsSpace(s[0]) then 0 else 1 + Spaces(s[1..])
  }

  function Run(s: string): (n: nat)
    ensures n <= |s| && (forall i :: 0 <= i < n ==> !IsSpace(s[i])) && (n < |s| ==> IsSpace(s[n]))
  {
    if s == "" || IsSpace(s[0]) then 0 else 1 + Run(s[1..])
  }

  lemma {:induction false} RunUnique(s: string, n: nat)
    requires n <= |s| && (forall i :: 0 <= i < n ==> !IsSpace(s[i])) && (n < |s| ==> IsSpace(s[n]))
    ensures Run(s) == n
  {
    if n > 0 {
      RunUnique(s[1..], n - 1);
    }
  }

  lemma {:induction false} SpacesUnique(s: string, n: nat)
    requires n <= |s| && (forall i :: 0 <= i < n ==> IsSpace(s[i])) && (n < |s| ==> !IsSpace(s[n]))
    ensures Spaces(s) == n
  {
    if n > 0 {
      SpacesUnique(s[1..], n - 1);
    }
  }

  /** What is between the spaces at both ends, up to the first space inside. */
  function Body(s: string): string {
    var t := s[Spaces(s)..];
    t[..Run(t)]
  }

  function After(s: string): string {
    var t := s[Spaces(s)..];
    t[Run(t)..]
  }

  predicate Readable(s: string) {
    AllDigits(Body(s)) && Spaces(After(s)) == |After(s)|
  }

  // ---------------------------------------------------------------- the codec

  function Encode(bytes: seq<nat>): string
    requires Digits(256, bytes)
  {
    RebaseInverts(256, 58, bytes);
    CharsOf(Rebase(256, 58, bytes))
  }

  function Decode(s: string): Decoded {
    if Readable(s) then Bytes(Rebase(58, 256, DigitsOf(Body(s)))) else Invalid
  }

  lemma BodyOfPlain(s: string)
    requires forall i :: 0 <= i < |s| ==> !IsSpace(s[i])
    ensures Body(s) == s && After(s) == ""
  {
    SpacesUnique(s, 0);
    assert s[0..] == s;
    RunUnique(s, |s|);
  }

  /** Every byte string is read back. */
  lemma DecodeEncoded(bytes: seq<nat>)
    requires Digits(256, bytes)
    ensures Decode(Encode(bytes)) == Bytes(bytes)
  {
    RebaseInverts(256, 58, bytes);
    DigitsOfChars(Rebase(256, 58, bytes));
    BodyOfPlain(Encode(bytes));
  }

  /** What can be read is, without the spaces around it, exactly what its bytes are written as. */
  lemma EncodeDecoded(s: string)
    requires Decode(s).Bytes?
    ensures Digits(256, Decode(s).bytes) && Encode(Decode(s).bytes) == Body(s)
  {
    var v := DigitsOf(Body(s));
    RebaseInverts(58, 256, v);
    CharsOfDigits(Body(s));
  }

  // ---------------------------------------------------------------- the code

  /** Multiplies the digits in the buffer by `m` and adds `c`, in place from the last digit to the first. */
  method MulAdd(buf: array<nat>, b: nat, m: nat, c: nat) returns (carry: nat)
    requires b > 0 && Digits(b, buf[..])
    modifies buf
    ensures Digits(b, buf[..])
    ensures Num(b, buf[..]) + carry * Pow(b, buf.Length) == Num(b, old(buf[..])) * m + c
  {
    hide Num, Pow;
    ghost var x := buf[..];
    carry := c;
    var i := buf.Length;
    NumEmpty(b, x);
    while i > 0
      invariant 0 <= i <= buf.Length && Digits(b, buf[..]) && buf[..i] == x[..i]
      invariant Num(b, buf[i..]) + carry * Pow(b, buf.Length - i) == Num(b, x[i..]) * m + c
    {
      i := i - 1;
      ghost var r, was := buf[i + 1..], carry;
      assert buf[i] == x[i];
      carry := carry + m * buf[i];
      ghost var sum := carry;
      buf[i] := carry % b;
      carry := carry / b;
      ColumnStep(b, m, r, x[i + 1..], buf[i], x[i], was, carry, c);
      assert buf[i..] == [buf[i]] + r && x[i..] == [x[i]] + x[i + 1..];
    }
    assert buf[0..] == buf[..] && x[0..] == x;
  }

  lemma {:induction false} NumEmpty(b: nat, x: seq<nat>)
    ensures Num(b, x[|x|..]) == 0 && Pow(b, 0) == 1
  {
  }

  /** One more digit of base `m` into a buffer that is large enough: no carry is left. */
  method TakeDigit(buf: array<nat>, b: nat, m: nat, ghost digits: seq<nat>, d: nat)
    requires b > 0 && Digits(b, buf[..]) && Digits(m, digits) && d < m
    requires Num(b, buf[..]) == Num(m, digits) && Pow(m, |digits| + 1) <= Pow(b, buf.Length)
    modifies buf
    ensures Digits(b, buf[..]) && Num(b, buf[..]) == Num(m, digits + [d])
  {
    hide Num, Pow;
    var carry := MulAdd(buf, b, m, d);
    FitsBuffer(b, m, digits, d, buf.Length, Num(b, buf[..]), carry);
    assert carry == 0;
  }

  lemma FitsBuffer(b: nat, m: nat, digits: seq<nat>, d: nat, len: nat, num: nat, carry: nat)
    requires Digits(m, digits) && d < m && Pow(m, |digits| + 1) <= Pow(b, len)
    requires num + carry * Pow(b, len) == Num(m, digits) * m + d
    ensures carry == 0 && num == Num(m, digits + [d])
  {
    hide Pow;
    var all := digits + [d];
    assert all[..|all| - 1] == digits;
    assert Num(m, all) == Num(m, digits) * m + d;
    NumBound(m, all);
    if carry > 0 {
      Monotone(1, carry, Pow(b, len));
    }
  }

  /** Reads digits of base `m` into an empty buffer of base `b` that is large enough. */
  method Load(buf: array<nat>, b: nat, m: nat, digits: seq<nat>)
    requires b > 0 && m > 0 && Digits(m, digits)
    requires forall i :: 0 <= i < buf.Length ==> buf[i] == 0
    requires Pow(m, |digits|) <= Pow(b, buf.Length)
    modifies buf
    ensures Digits(b, buf[..]) && Num(b, buf[..]) == Num(m, digits)
  {
    hide Num, Pow;
    NumZeros(b, buf[..]);
    NumZeros(m, digits[..0]);
    for i := 0 to |digits|
      invariant Digits(b, buf[..]) && Num(b, buf[..]) == Num(m, digits[..i])
    {
      PowMonotone(m, i + 1, |digits|);
      TakeDigit(buf, b, m, digits[..i], digits[i]);
      assert digits[..i + 1] == digits[..i] + [digits[i]];
    }
    assert digits[..|digits|] == digits;
  }

  method CountLead(s: seq<nat>) returns (n: nat)
    ensures n == Lead(s)
  {
    n := 0;
    while n < |s| && s[n] == 0
      invariant n <= |s| && forall i :: 0 <= i < n ==> s[i] == 0
    {
      n := n + 1;
    }
    LeadUnique(s, n);
  }

  method EncodeBase58(bytes: seq<nat>) returns (s: string)
    requires Digits(256, bytes)
    ensures s == Encode(bytes)
  {
    hide Num, Pow, Lead, Rebase;
    var zeroes := CountLead(bytes);
    var rest := bytes[zeroes..];
    var b58 := new nat[|rest| * 138 / 100 + 1](_ => 0);
    EncodeBuffer(|rest|);
    Load(b58, 58, 256, rest);
    var skip := CountLead(b58[..]);
    RebaseInverts(256, 58, bytes);
    RebasedFrom(256, 58, bytes, b58[..]);
    s := Translate(zeroes, b58[skip..]);
  }

  method Translate(zeroes: nat, digits: seq<nat>) returns (s: string)
    requires Digits(58, digits)
    ensures Digits(58, Zeros(zeroes) + digits) && s == CharsOf(Zeros(zeroes) + digits)
  {
    hide CharOf;
    s := seq(zeroes, _ => '1');
    ghost var z := Zeros(zeroes);
    CharOfIs(0);
    DigitOfIs('1');
    assert s == CharsOf(z);
    for i := 0 to |digits|
      invariant s == CharsOf(z + digits[..i])
    {
      assert z + digits[..i + 1] == z + digits[..i] + [digits[i]];
      s := s + [CharOf(digits[i])];
    }
    assert digits[..|digits|] == digits;
  }

  /** Leading zeros, then the buffer from its first nonzero digit on, are the digits in the new base. */
  lemma {:induction false} RebasedFrom(b: nat, c: nat, s: seq<nat>, buf: seq<nat>)
    requires b > 1 && c > 1 && Digits(b, s) && Digits(c, buf) && Num(c, buf) == Num(b, s[Lead(s)..])
    ensures Rebase(b, c, s) == Zeros(Lead(s)) + buf[Lead(buf)..]
  {
    hide Num, Lead, FromNum;
    CanonicalIs(c, buf);
    NumOfRest(b, s);
  }

  lemma {:induction false} NumOfRest(b: nat, s: seq<nat>)
    ensures Num(b, s) == Num(b, s[Lead(s)..])
  {
    hide Num, Pow, Lead;
    var n := Lead(s);
    NumConcat(b, s[..n], s[n..]);
    NumZeros(b, s[..n]);
    assert s[..n] + s[n..] == s;
  }

  method SkipSpaces(s: string, start: nat) returns (i: nat)
    requires start <= |s|
    ensures i == start + Spaces(s[start..])
  {
    i := start;
    while i < |s| && IsSpace(s[i])
      invariant start <= i <= |s| && forall j :: start <= j < i ==> IsSpace(s[j])
    {
      i := i + 1;
    }
    SpacesUnique(s[start..], i - start);
  }

  /** Reads characters into a buffer of bytes up to a space or the end, unless one is not in the alphabet. */
  method ReadRun(psz: string, first: nat) returns (ok: bool, i: nat, b256: array<nat>)
    requires first <= |psz|
    ensures fresh(b256) && ok == AllDigits(psz[first..first + Run(psz[first..])])
    ensures ok ==> i == first + Run(psz[first..]) && Digits(256, b256[..])
    ensures ok ==> Num(256, b256[..]) == Num(58, DigitsOf(psz[first..i]))
  {
    hide Num, Pow, DigitOf, IsSpace, AllDigits, DigitsOf, Run;
    i := first;
    ghost var rest := psz[first..];
    b256 := new nat[(|psz| - first) * 733 / 1000 + 1](_ => 0);
    NumZeros(256, b256[..]);
    NoDigits(psz[first..first]);
    while i < |psz| && !IsSpace(psz[i])
      invariant first <= i <= |psz| && forall j :: first <= j < i ==> !IsSpace(psz[j])
      invariant AllDigits(psz[first..i]) && Digits(256, b256[..])
      invariant Num(256, b256[..]) == Num(58, DigitsOf(psz[first..i]))
    {
      var ch := DigitOf(psz[i]);
      if ch == -1 {
        BadCharacter(rest, i - first);
        assert rest[..Run(rest)] == psz[first..first + Run(rest)];
        return false, i, b256;
      }
      DigitsGrow(psz, first, i);
      DecodeBuffer(i - first + 1, |psz| - first);
      TakeDigit(b256, 256, 58, DigitsOf(psz[first..i]), ch);
      i := i + 1;
    }
    RunUnique(rest, i - first);
    ok := true;
  }

  method DecodeBase58(psz: string) returns (r: Decoded)
    ensures r == Decode(psz)
  {
    hide Num, Lead, DigitOf, IsSpace, Rebase, AllDigits, DigitsOf, Run, Spaces;
    var start := SkipSpaces(psz, 0);
    assert psz[0..] == psz;
    var first := SkipOnes(psz, start);
    var ok, after, b256 := ReadRun(psz, first);
    OnesThenRun(psz, start, first);
    BodyIs(psz, start, first + Run(psz[first..]));
    OnesAreDigits(psz, start, first, first + Run(psz[first..]));
    if !ok {
      return Invalid;
    }
    var i := SkipSpaces(psz, after);
    if i != |psz| {
      return Invalid;
    }
    var skip := CountLead(b256[..]);
    var zeroes := first - start;
    DigitsSplit(psz, start, first, after);
    RebasedFrom(58, 256, DigitsOf(psz[start..after]), b256[..]);
    r := Bytes(Zeros(zeroes) + b256[skip..]);
  }

  method SkipOnes(s: string, start: nat) returns (i: nat)
    requires start <= |s|
    ensures start <= i <= |s| && (forall j :: start <= j < i ==> s[j] == '1') && (i < |s| ==> s[i] != '1')
  {
    i := start;
    while i < |s| && s[i] == '1'
      invariant start <= i <= |s| && forall j :: start <= j < i ==> s[j] == '1'
    {
      i := i + 1;
    }
  }

  lemma BodyIs(s: string, start: nat, after: nat)
    requires start == Spaces(s) && after == start + Run(s[start..])
    ensures Body(s) == s[start..after] && After(s) == s[after..]
  {
  }

  lemma NoDigits(t: string)
    requires t == ""
    ensures AllDigits(t) && Num(58, DigitsOf(t)) == 0
  {
  }

  lemma DigitsGrow(s: string, first: nat, i: nat)
    requires first <= i < |s| && AllDigits(s[first..i]) && DigitOf(s[i]) != -1
    ensures 0 <= DigitOf(s[i]) < 58 && AllDigits(s[first..i + 1])
    ensures DigitsOf(s[first..i + 1]) == DigitsOf(s[first..i]) + [DigitOf(s[i])]
  {
    hide DigitOf;
    DigitOfIs(s[i]);
    assert s[first..i + 1] == s[first..i] + [s[i]];
  }

  /** Leading ones and the run after them are the whole run. */
  lemma OnesThenRun(s: string, start: nat, first: nat)
    requires start <= first <= |s| && forall j :: start <= j < first ==> s[j] == '1'
    ensures Run(s[start..]) == first - start + Run(s[first..])
  {
    var n := Run(s[first..]);
    var after := first + n;
    assert forall j :: first <= j < after ==> !IsSpace(s[j]) by {
      assert forall j :: first <= j < after ==> s[j] == s[first..][j - first];
    }
    RunUnique(s[start..], after - start);
  }

  lemma OnesAreDigits(s: string, start: nat, first: nat, after: nat)
    requires start <= first <= after <= |s| && forall j :: start <= j < first ==> s[j] == '1'
    ensures AllDigits(s[start..after]) <==> AllDigits(s[first..after])
  {
    var whole, part, k := s[start..after], s[first..after], first - start;
    DigitOfIs('1');
    hide DigitOf;
    if AllDigits(part) {
      forall j | 0 <= j < |whole|
        ensures DigitOf(whole[j]) != -1
      {
        assert whole[j] == if j < k then '1' else part[j - k];
      }
    } else {
      var j :| 0 <= j < |part| && DigitOf(part[j]) == -1;
      assert whole[k + j] == part[j];
    }
  }

  /** A character outside the alphabet before the first space. */
  lemma {:induction false} BadCharacter(t: string, k: nat)
    requires k < |t| && DigitOf(t[k]) == -1 && forall j :: 0 <= j <= k ==> !IsSpace(t[j])
    ensures !AllDigits(t[..Run(t)])
  {
    hide DigitOf, IsSpace;
    assert Run(t) > k;
    assert t[..Run(t)][k] == t[k];
  }

  lemma DigitsSplit(s: string, start: nat, first: nat, after: nat)
    requires start <= first <= after <= |s| && AllDigits(s[start..after])
    requires (forall j :: start <= j < first ==> s[j] == '1') && (first < after ==> s[first] != '1')
    ensures AllDigits(s[first..after])
    ensures var v := DigitsOf(s[start..after]);
      Lead(v) == first - start && v[first - start..] == DigitsOf(s[first..after])
  {
    hide DigitOf;
    var body, zeroes := s[start..after], first - start;
    var v := DigitsOf(body);
    forall j | 0 <= j < |body|
      ensures v[j] == 0 <==> body[j] == '1'
    {
      DigitOfIs(body[j]);
    }
    LeadUnique(v, zeroes);
    assert body[zeroes..] == s[first..after];
  }

  // ---------------------------------------------------------------- with a check

  /** A hash gives 32 bytes. */
  ghost predicate IsHash(hash: seq<nat> -> seq<nat>) {
    forall v :: |hash(v)| == 32 && Digits(256, hash(v))
  }

  method EncodeBase58Check(hash: seq<nat> -> seq<nat>, bytes: seq<nat>) returns (s: string)
    requires IsHash(hash) && Digits(256, bytes)
    ensures s == EncodeCheck(hash, bytes)
  {
    s := EncodeBase58(bytes + hash(bytes)[..4]);
  }

  ghost function EncodeCheck(hash: seq<nat> -> seq<nat>, bytes: seq<nat>): string
    requires IsHash(hash) && Digits(256, bytes)
  {
    Encode(bytes + hash(bytes)[..4])
  }

  method DecodeBase58Check(hash: seq<nat> -> seq<nat>, psz: string) returns (r: Decoded)
    requires IsHash(hash)
    ensures r == DecodeCheck(hash, psz)
  {
    var all := DecodeBase58(psz);
    if all.Invalid? || |all.bytes| < 4 {
      return Invalid;
    }
    var n := |all.bytes| - 4;
    if hash(all.bytes[..n])[..4] != all.bytes[n..] {
      return Invalid;
    }
    return Bytes(all.bytes[..n]);
  }

  ghost function DecodeCheck(hash: seq<nat> -> seq<nat>, s: string): Decoded
    requires IsHash(hash)
  {
    var all := Decode(s);
    if all.Invalid? || |all.bytes| < 4 then Invalid
    else
      var n := |all.bytes| - 4;
      if hash(all.bytes[..n])[..4] == all.bytes[n..] then Bytes(all.bytes[..n]) else Invalid
  }

  /**
   A text passes the check with some bytes exactly when, without the spaces around it, it is their text with the check.
   */
  lemma CheckedExactly(hash: seq<nat> -> seq<nat>, s: string, bytes: seq<nat>)
    requires IsHash(hash) && Digits(256, bytes)
    ensures DecodeCheck(hash, s) == Bytes(bytes) <==> Readable(s) && Body(s) == Encode(bytes + hash(bytes)[..4])
  {
    hide Decode, Encode, Readable, Body;
    var all := bytes + hash(bytes)[..4];
    assert all[..|bytes|] == bytes && all[|bytes|..] == hash(bytes)[..4];
    if DecodeCheck(hash, s) == Bytes(bytes) {
      EncodeDecoded(s);
      DecodeIsReadable(s);
      var n := |Decode(s).bytes| - 4;
      assert Decode(s).bytes == Decode(s).bytes[..n] + Decode(s).bytes[n..];
    } else if Readable(s) && Body(s) == Encode(all) {
      DecodeEncoded(all);
      SameBody(s, all);
    }
  }

  lemma DecodeIsReadable(s: string)
    ensures Decode(s).Bytes? <==> Readable(s)
  {
  }

  lemma SameBody(s: string, all: seq<nat>)
    requires Digits(256, all) && Readable(s) && Body(s) == Encode(all)
    ensures Decode(s) == Bytes(all)
  {
    hide Rebase;
    RebaseInverts(256, 58, all);
    DigitsOfChars(Rebase(256, 58, all));
  }
}
