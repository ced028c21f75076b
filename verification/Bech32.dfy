/**
 Bech32 strings (section "Bech32" of BIP 173, here with a length limit of 1023): a
 human-readable prefix, a separator, and 5-bit symbols with a checksum at the end.
 */
module Bech32 {
  import opened Sequences
  import opened Positional
  import opened ExclusiveOr
  import opened PolyMod
  import Detects = ChecksumDetects

  const CHARSET := "qpzry9x8gf2tvdw0s3jn54khce6mua7l"
  const LIMIT := 1023

  datatype Decoded = Invalid | Valid(hrp: string, data: seq<nat>)

  // ---------------------------------------------------------------- characters

  predicate Printable(c: char) {
    33 as char <= c <= 126 as char
  }

  predicate IsLower(c: char) {
    'a' <= c <= 'z'
  }

  predicate IsUpper(c: char) {
    'A' <= c <= 'Z'
  }

  function LowerCase(c: char): char {
    if IsUpper(c) then (c - 'A') + 'a' else c
  }

  /** The value of a symbol character of either case, or -1. */
  function CharsetRev(c: char): int {
    match LowerCase(c)
    case 'q' => 0
    case 'p' => 1
    case 'z' => 2
    case 'r' => 3
    case 'y' => 4
    case '9' => 5
    case 'x' => 6
    case '8' => 7
    case 'g' => 8
    case 'f' => 9
    case '2' => 10
    case 't' => 11
    case 'v' => 12
    case 'd' => 13
    case 'w' => 14
    case '0' => 15
    case 's' => 16
    case '3' => 17
    case 'j' => 18
    case 'n' => 19
    case '5' => 20
    case '4' => 21
    case 'k' => 22
    case 'h' => 23
    case 'c' => 24
    case 'e' => 25
    case '6' => 26
    case 'm' => 27
    case 'u' => 28
    case 'a' => 29
    case '7' => 30
    case 'l' => 31
    case _ => -1
  }

  function SymbolChar(v: nat): char
    requires v < 32
  {
    CharsetLength();
    CHARSET[v]
  }

  lemma CharsetLength()
    ensures |CHARSET| == 32
  {
  }

  lemma SymbolCharIs(v: nat)
    requires v < 32
    ensures CharsetRev(SymbolChar(v)) == v
    ensures Printable(SymbolChar(v)) && !IsUpper(SymbolChar(v)) && SymbolChar(v) != '1'
  {
  }

  lemma SymbolOfChar(c: char)
    requires CharsetRev(c) != -1
    ensures 0 <= CharsetRev(c) < 32 && SymbolChar(CharsetRev(c)) == LowerCase(c)
  {
  }

  // ---------------------------------------------------------------- strings

  function ByteOf(c: char): (b: nat)
    ensures b < 256
  {
    (c as int) % 256
  }

  /** The prefix as symbols: the high bits of every character, a zero, and the low bits. */
  function ExpandHrp(hrp: string): (r: seq<nat>)
    ensures |r| == 2 * |hrp| + 1 && r[|hrp|] == 0
    ensures forall i {:trigger hrp[i]} :: 0 <= i < |hrp| ==>
      r[i] < 8 && r[|hrp| + 1 + i] < 32 && 32 * r[i] + r[|hrp| + 1 + i] == ByteOf(hrp[i])
  {
    seq(|hrp|, i requires 0 <= i < |hrp| => ByteOf(hrp[i]) / 32) + [0]
    + seq(|hrp|, i requires 0 <= i < |hrp| => ByteOf(hrp[i]) % 32)
  }

  function Lowered(s: string): (r: string)
    ensures |r| == |s|
  {
    seq(|s|, i requires 0 <= i < |s| => LowerCase(s[i]))
  }

  function CharsOf(v: seq<nat>): (r: string)
    requires Symbols(v)
    ensures |r| == |v|
  {
    seq(|v|, i requires 0 <= i < |v| => SymbolChar(v[i]))
  }

  predicate AllSymbols(s: string) {
    forall i :: 0 <= i < |s| ==> CharsetRev(s[i]) != -1
  }

  function SymbolsOf(s: string): (r: seq<nat>)
    requires AllSymbols(s)
    ensures |r| == |s| && Symbols(r)
  {
    seq(|s|, i requires 0 <= i < |s| => SymbolOf(s[i]))
  }

  function SymbolOf(c: char): (v: nat)
    requires CharsetRev(c) != -1
    ensures v < 32
  {
    SymbolOfChar(c);
    CharsetRev(c)
  }

  /** The last position of the separator, or -1. */
  function LastSeparator(s: string): (p: int)
    ensures -1 <= p < |s|
    ensures p >= 0 ==> s[p] == '1'
    ensures forall i :: p < i < |s| ==> s[i] != '1'
  {
    if s == [] then -1
    else if s[|s| - 1] == '1' then |s| - 1
    else LastSeparator(s[..|s| - 1])
  }

  predicate AllPrintable(s: string) {
    forall i :: 0 <= i < |s| ==> Printable(s[i])
  }

  predicate HasLower(s: string) {
    exists i :: 0 <= i < |s| && IsLower(s[i])
  }

  predicate HasUpper(s: string) {
    exists i :: 0 <= i < |s| && IsUpper(s[i])
  }

  // ---------------------------------------------------------------- the codec

  predicate Verifies(hrp: string, values: seq<nat>) {
    Fold(1, ExpandHrp(hrp) + values) == 1
  }

  function Encode(hrp: string, values: seq<nat>): string {
    if !Symbols(values) then ""
    else hrp + "1" + CharsOf(values + Checksum(ExpandHrp(hrp) + values))
  }

  /** The shape of a string that has a prefix and symbols to check. */
  predicate WellFormed(s: string) {
    && AllPrintable(s) && !(HasLower(s) && HasUpper(s)) && |s| <= LIMIT
    && 0 < LastSeparator(s) <= |s| - 7
    && AllSymbols(s[LastSeparator(s) + 1..])
  }

  function Decode(s: string): Decoded {
    if !WellFormed(s) then Invalid
    else
      var p := LastSeparator(s);
      var hrp, values := Lowered(s[..p]), SymbolsOf(s[p + 1..]);
      if Verifies(hrp, values) then Valid(hrp, values[..|values| - 6]) else Invalid
  }

  // ---------------------------------------------------------------- round trips

  /** The prefixes and data that a Bech32 string can carry. */
  predicate Encodable(hrp: string, values: seq<nat>) {
    && hrp != "" && AllPrintable(hrp) && !HasUpper(hrp)
    && Symbols(values)
    && |hrp| + 1 + |values| + 6 <= LIMIT
  }

  lemma ExpandedIsSmall(hrp: string, values: seq<nat>)
    requires Symbols(values)
    ensures var e := ExpandHrp(hrp) + values; forall i :: 0 <= i < |e| ==> e[i] < STATES
  {
  }

  lemma CharsOfIs(v: seq<nat>)
    requires Symbols(v)
    ensures var s := CharsOf(v);
            && AllPrintable(s) && !HasUpper(s) && (forall i :: 0 <= i < |s| ==> s[i] != '1')
            && AllSymbols(s) && SymbolsOf(s) == v
  {
    forall i | 0 <= i < |v|
      ensures var c := CharsOf(v)[i]; Printable(c) && !IsUpper(c) && c != '1' && CharsetRev(c) == v[i]
    {
      SymbolCharIs(v[i]);
    }
  }

  lemma LoweredIsSame(s: string)
    ensures Lowered(s) == s <==> !HasUpper(s)
  {
    forall i | 0 <= i < |s|
      ensures LowerCase(s[i]) == s[i] <==> !IsUpper(s[i])
    {
    }
    if Lowered(s) == s {
      assert forall i :: 0 <= i < |s| ==> Lowered(s)[i] == s[i];
    }
  }

  /** Where the separator of an encoded string is, and what is around it. */
  lemma SeparatorIs(hrp: string, t: string)
    requires forall i :: 0 <= i < |t| ==> t[i] != '1'
    ensures var s := hrp + "1" + t;
            LastSeparator(s) == |hrp| && s[..|hrp|] == hrp && s[|hrp| + 1..] == t
  {
    var s := hrp + "1" + t;
    assert s[|hrp|] == '1';
    assert forall i :: |hrp| < i < |s| ==> s[i] == t[i - |hrp| - 1];
  }

  /** Decoding an encoded string gives back prefix and data exactly when they are encodable. */
  lemma DecodeEncoded(hrp: string, values: seq<nat>)
    ensures Decode(Encode(hrp, values)) == Valid(hrp, values) <==> Encodable(hrp, values)
  {
    hide Fold, Checksum, CharsetRev, Printable, ExpandHrp, HasUpper, HasLower, AllPrintable, LastSeparator, CharsOf;
    hide Lowered, SymbolsOf, AllSymbols;
    if !Symbols(values) {
      assert !WellFormed("");
    } else {
      var enc := ExpandHrp(hrp) + values;
      var sum := Checksum(enc);
      ChecksumSymbols(enc);
      var t := CharsOf(values + sum);
      CharsOfIs(values + sum);
      SeparatorIs(hrp, t);
      LoweredIsSame(hrp);
      ExpandedIsSmall(hrp, values);
      ChecksumVerifies(enc);
      assert ExpandHrp(hrp) + (values + sum) == enc + sum;
      assert (values + sum)[..|values|] == values;
      EncodedForm(hrp, t);
    }
  }

  lemma ChecksumSymbols(enc: seq<nat>)
    ensures |Checksum(enc)| == 6 && Symbols(Checksum(enc))
  {
  }

  lemma EncodedForm(hrp: string, t: string)
    requires AllPrintable(t) && !HasUpper(t) && AllSymbols(t) && |t| >= 6
    requires forall i :: 0 <= i < |t| ==> t[i] != '1'
    ensures var s := hrp + "1" + t;
            && (hrp != "" && AllPrintable(hrp) && !HasUpper(hrp) && |s| <= LIMIT ==> WellFormed(s))
            && (WellFormed(s) ==> hrp != "" && AllPrintable(hrp) && |s| <= LIMIT)
  {
    var s := hrp + "1" + t;
    SeparatorIs(hrp, t);
    assert Printable('1') && !IsUpper('1');
    if AllPrintable(s) {
      forall i | 0 <= i < |hrp|
        ensures Printable(hrp[i])
      {
        assert s[i] == hrp[i];
      }
    }
  }

  /** A valid string is, but for its case, the one string that encodes what it decodes to. */
  lemma EncodeDecoded(s: string)
    requires Decode(s).Valid?
    ensures Encode(Decode(s).hrp, Decode(s).data) == Lowered(s)
  {
    hide Fold, Checksum, CharsetRev, Printable;
    var p := LastSeparator(s);
    var hrp, values := Lowered(s[..p]), SymbolsOf(s[p + 1..]);
    var n := |values| - 6;
    var data, tail := values[..n], values[n..];
    var enc := ExpandHrp(hrp) + data;
    var sum := Checksum(enc);
    ChecksumSymbols(enc);
    ExpandedIsSmall(hrp, data);
    ChecksumVerifies(enc);
    assert ExpandHrp(hrp) + values == enc + tail;
    assert enc + tail + [] == enc + tail && enc + sum + [] == enc + sum;
    if tail != sum {
      BurstDetected(enc, tail, sum, []);
    }
    assert data + sum == values;
    CharsOfSymbols(s[p + 1..]);
    LoweredParts(s, p);
  }

  lemma LoweredChar(c: char)
    ensures var d := LowerCase(c);
      && LowerCase(d) == d && !IsUpper(d) && (Printable(d) <==> Printable(c)) && (d == '1' <==> c == '1')
      && CharsetRev(d) == CharsetRev(c)
  {
  }

  lemma {:induction false} LoweredText(s: string)
    ensures var t := Lowered(s);
      && Lowered(t) == t && !HasUpper(t) && (AllPrintable(t) <==> AllPrintable(s)) && (AllSymbols(t) <==> AllSymbols(s))
      && (AllSymbols(s) ==> SymbolsOf(t) == SymbolsOf(s)) && LastSeparator(t) == LastSeparator(s)
  {
    hide LowerCase, IsUpper, Printable, CharsetRev, LastSeparator;
    var t := Lowered(s);
    forall i {:trigger s[i]} {:trigger t[i]} | 0 <= i < |s|
      ensures LowerCase(t[i]) == t[i] && !IsUpper(t[i]) && (Printable(t[i]) <==> Printable(s[i]))
      ensures (t[i] == '1' <==> s[i] == '1') && CharsetRev(t[i]) == CharsetRev(s[i])
    {
      LoweredChar(s[i]);
    }
    assert AllSymbols(t) <==> AllSymbols(s);
    SeparatorSame(s, t);
  }

  lemma SeparatorSame(s: string, t: string)
    requires |s| == |t| && forall i {:trigger s[i]} {:trigger t[i]} :: 0 <= i < |s| ==> (t[i] == '1' <==> s[i] == '1')
    ensures LastSeparator(t) == LastSeparator(s)
  {
    var p, q := LastSeparator(s), LastSeparator(t);
    assert p >= 0 ==> s[p] == '1' == t[p];
    assert q >= 0 ==> s[q] == '1' == t[q];
  }

  /** Case does not matter, as long as it is not mixed. */
  lemma {:induction false} DecodeLowered(s: string)
    requires !(HasLower(s) && HasUpper(s))
    ensures Decode(Lowered(s)) == Decode(s)
  {
    hide LowerCase, IsUpper, Printable, CharsetRev, LastSeparator, AllSymbols, AllPrintable, SymbolsOf, Verifies;
    LoweredText(s);
    var p := LastSeparator(s);
    if p >= 0 {
      var t := Lowered(s);
      assert t[..p] == Lowered(s[..p]) && t[p + 1..] == Lowered(s[p + 1..]);
      LoweredText(s[..p]);
      LoweredText(s[p + 1..]);
    }
  }

  lemma ValidIsOneCase(s: string)
    ensures Decode(s).Valid? ==> !(HasLower(s) && HasUpper(s))
  {
  }

  /** A string reads as a prefix and data exactly when, in one case, it is their encoding and they can be encoded. */
  lemma {:induction false} DecodeExactly(s: string, hrp: string, data: seq<nat>)
    ensures Decode(s) == Valid(hrp, data) <==>
      Encodable(hrp, data) && Lowered(s) == Encode(hrp, data) && !(HasLower(s) && HasUpper(s))
  {
    hide Decode, Encode, HasUpper, HasLower, Lowered;
    DecodeEncoded(hrp, data);
    ValidIsOneCase(s);
    if !(HasLower(s) && HasUpper(s)) {
      DecodeLowered(s);
    }
    if Decode(s) == Valid(hrp, data) {
      EncodeDecoded(s);
    }
  }

  lemma CharsOfSymbols(t: string)
    requires AllSymbols(t)
    ensures CharsOf(SymbolsOf(t)) == Lowered(t)
  {
    hide CharsetRev;
    forall i | 0 <= i < |t|
      ensures CharsOf(SymbolsOf(t))[i] == LowerCase(t[i])
    {
      SymbolOfChar(t[i]);
    }
  }

  lemma LoweredParts(s: string, p: nat)
    requires p < |s| && s[p] == '1'
    ensures Lowered(s) == Lowered(s[..p]) + "1" + Lowered(s[p + 1..])
  {
    assert LowerCase('1') == '1';
  }

  // ---------------------------------------------------------------- errors

  lemma ExpandedAreSymbols(hrp: string, values: seq<nat>)
    requires Symbols(values)
    ensures Symbols(ExpandHrp(hrp) + values)
  {
  }

  lemma SeparatorStays(s: string, t: string)
    requires |t| == |s| && LastSeparator(s) >= 0 && t[..LastSeparator(s) + 1] == s[..LastSeparator(s) + 1]
    requires forall m :: LastSeparator(s) < m < |t| ==> t[m] != '1'
    ensures LastSeparator(t) == LastSeparator(s)
  {
    assert t[LastSeparator(s)] == s[LastSeparator(s)];
  }

  lemma SameSymbols(a: string, b: string)
    requires |a| == |b| && AllSymbols(a) && AllSymbols(b)
    ensures forall m :: 0 <= m < |a| ==> (SymbolsOf(a)[m] == SymbolsOf(b)[m] <==> LowerCase(a[m]) == LowerCase(b[m]))
  {
    hide CharsetRev, LowerCase;
    forall m | 0 <= m < |a|
      ensures SymbolsOf(a)[m] == SymbolsOf(b)[m] <==> LowerCase(a[m]) == LowerCase(b[m])
    {
      SymbolOfChar(a[m]);
      SymbolOfChar(b[m]);
      SameCase(a[m], b[m]);
    }
  }

  lemma SameCase(a: char, b: char)
    ensures LowerCase(a) == LowerCase(b) ==> CharsetRev(a) == CharsetRev(b)
  {
  }

  /** The same positions counted from after the separator, and from the start of what the checksum covers. */
  lemma {:induction false} ValuesDetected(hrp: string, u: seq<nat>, w: seq<nat>, i: nat, j: nat, k: nat)
    requires |u| == |w| && Symbols(u) && Symbols(w) && u != w && Verifies(hrp, u)
    requires i < j < k < |u| && k - i < 1023
    requires forall m :: 0 <= m < |u| && m != i && m != j && m != k ==> u[m] == w[m]
    ensures !Verifies(hrp, w)
  {
    hide Fold;
    var x := ExpandHrp(hrp);
    ExpandedAreSymbols(hrp, u);
    ExpandedAreSymbols(hrp, w);
    var m :| 0 <= m < |u| && u[m] != w[m];
    assert (x + u)[|x| + m] != (x + w)[|x| + m];
    Detects.ThreeErrorsDetected(x + u, x + w, |x| + i, |x| + j, |x| + k);
  }

  /**
   A valid string in which up to three characters after the separator were changed, to anything but another
   separator and not only in case, is refused.
   */
  lemma {:induction false} ChangesRefused(s: string, t: string, i: nat, j: nat, k: nat)
    requires Decode(s).Valid? && |t| == |s| && Lowered(t) != Lowered(s)
    requires LastSeparator(s) < i < j < k < |s|
    requires forall m :: 0 <= m < |s| && m != i && m != j && m != k ==> t[m] == s[m]
    requires t[i] != '1' && t[j] != '1' && t[k] != '1'
    ensures Decode(t) == Invalid
  {
    hide CharsetRev, LowerCase, Verifies;
    var p := LastSeparator(s);
    assert t[..p + 1] == s[..p + 1];
    assert t[..p] == s[..p];
    SeparatorStays(s, t);
    if WellFormed(t) {
      hide AllPrintable, HasLower, HasUpper, AllSymbols, SymbolsOf, Lowered;
      var a, b := s[p + 1..], t[p + 1..];
      assert forall m :: 0 <= m < |a| && m != i - p - 1 && m != j - p - 1 && m != k - p - 1 ==> a[m] == b[m];
      LoweredTails(s, t, p + 1);
      SymbolsDetected(Lowered(s[..p]), a, b, i - p - 1, j - p - 1, k - p - 1);
    }
  }

  lemma LoweredTails(s: string, t: string, p: nat)
    requires |t| == |s| && p <= |s| && t[..p] == s[..p] && Lowered(t) != Lowered(s)
    ensures Lowered(t[p..]) != Lowered(s[p..])
  {
    hide LowerCase;
    assert forall m :: 0 <= m < p ==> t[m] == t[..p][m] == s[..p][m] == s[m];
    var n :| 0 <= n < |s| && Lowered(t)[n] != Lowered(s)[n];
    assert Lowered(t[p..])[n - p] != Lowered(s[p..])[n - p];
  }

  lemma {:induction false} SymbolsDetected(hrp: string, a: string, b: string, i: nat, j: nat, k: nat)
    requires |a| == |b| && AllSymbols(a) && AllSymbols(b) && Lowered(a) != Lowered(b) && Verifies(hrp, SymbolsOf(a))
    requires i < j < k < |a| && k - i < 1023
    requires forall m :: 0 <= m < |a| && m != i && m != j && m != k ==> a[m] == b[m]
    ensures !Verifies(hrp, SymbolsOf(b))
  {
    hide CharsetRev, LowerCase, Verifies;
    SameSymbols(a, b);
    var n :| 0 <= n < |a| && Lowered(a)[n] != Lowered(b)[n];
    assert SymbolsOf(a)[n] != SymbolsOf(b)[n];
    ValuesDetected(hrp, SymbolsOf(a), SymbolsOf(b), i, j, k);
  }

  // ---------------------------------------------------------------- the code

  method ExpandHrpOf(hrp: string) returns (r: seq<nat>)
    ensures r == ExpandHrp(hrp)
  {
    var ret := new nat[2 * |hrp| + 1](_ => 0);
    for i := 0 to |hrp|
      invariant forall j :: 0 <= j < i ==> ret[j] == ByteOf(hrp[j]) / 32 && ret[j + |hrp| + 1] == ByteOf(hrp[j]) % 32
    {
      var c := ByteOf(hrp[i]);
      ret[i] := c / 32;
      ret[i + |hrp| + 1] := c % 32;
    }
    ret[|hrp|] := 0;
    r := ret[..];
    forall k | 0 <= k < |r|
      ensures r[k] == ExpandHrp(hrp)[k]
    {
      if k > |hrp| {
        var j := k - |hrp| - 1;
        assert ret[j + |hrp| + 1] == ByteOf(hrp[j]) % 32;
      }
    }
  }

  method CreateChecksum(hrp: string, values: seq<nat>) returns (r: seq<nat>)
    ensures r == Checksum(ExpandHrp(hrp) + values)
  {
    hide Fold, Unpacked, Xor;
    var expanded := ExpandHrpOf(hrp);
    var enc := expanded + values;
    var c := PolyModOf(enc + Zeros(6));
    var mod := Xor(c, 1);
    r := [];
    for i := 0 to 6
      invariant r == Unpacked(mod, 6)[..i]
    {
      UnpackedAt(mod, 6, i);
      r := r + [mod / Pow(32, 5 - i) % 32];
    }
    assert Unpacked(mod, 6)[..6] == Unpacked(mod, 6);
  }

  method EncodeString(hrp: string, values: seq<nat>) returns (r: string)
    ensures r == Encode(hrp, values)
  {
    hide Checksum;
    var checksum := CreateChecksum(hrp, values);
    ghost var enc := ExpandHrp(hrp) + values;
    ChecksumSymbols(enc);
    var combined := values + checksum;
    r := hrp + "1";
    for i := 0 to |combined|
      invariant Symbols(combined[..i]) && r == hrp + "1" + CharsOf(combined[..i])
    {
      if combined[i] >= 32 {
        return "";
      }
      assert combined[..i + 1] == combined[..i] + [combined[i]];
      assert CharsOf(combined[..i + 1]) == CharsOf(combined[..i]) + [SymbolChar(combined[i])];
      r := r + [SymbolChar(combined[i])];
    }
    assert combined[..|combined|] == combined;
    assert forall i :: 0 <= i < |values| ==> combined[i] == values[i];
  }

  /** The first loop: every character is printable, and letters of one case only occur. */
  method CheckCase(s: string) returns (ok: bool)
    ensures ok <==> AllPrintable(s) && !(HasLower(s) && HasUpper(s))
  {
    hide Printable, IsLower, IsUpper;
    var lower, upper := false, false;
    for i := 0 to |s|
      invariant AllPrintable(s[..i]) && (lower <==> HasLower(s[..i])) && (upper <==> HasUpper(s[..i]))
    {
      CaseSoFar(s, i);
      if !Printable(s[i]) {
        return false;
      }
      lower := lower || IsLower(s[i]);
      upper := upper || IsUpper(s[i]);
    }
    assert s[..|s|] == s;
    return !(lower && upper);
  }

  /** The second loop, over the part after the separator. */
  method ReadSymbols(t: string) returns (ok: bool, values: seq<nat>)
    ensures ok <==> AllSymbols(t)
    ensures ok ==> values == SymbolsOf(t)
  {
    hide CharsetRev;
    values := [];
    for i := 0 to |t|
      invariant AllSymbols(t[..i]) && values == SymbolsOf(t[..i])
    {
      if CharsetRev(t[i]) == -1 {
        return false, values;
      }
      assert t[..i + 1] == t[..i] + [t[i]];
      values := values + [SymbolOf(t[i])];
    }
    assert t[..|t|] == t;
    return true, values;
  }

  /** The third loop. */
  method LowerString(s: string) returns (r: string)
    ensures r == Lowered(s)
  {
    hide LowerCase;
    r := "";
    for i := 0 to |s|
      invariant r == Lowered(s[..i])
    {
      assert s[..i + 1] == s[..i] + [s[i]];
      r := r + [LowerCase(s[i])];
    }
    assert s[..|s|] == s;
  }

  method DecodeString(s: string) returns (r: Decoded)
    ensures r == Decode(s)
  {
    hide Fold, AllPrintable, HasLower, HasUpper, AllSymbols, SymbolsOf, Lowered;
    var ok := CheckCase(s);
    if !ok {
      return Invalid;
    }
    var p := LastSeparator(s);
    if |s| > LIMIT || p == -1 || p == 0 || p + 7 > |s| {
      return Invalid;
    }
    var values;
    ok, values := ReadSymbols(s[p + 1..]);
    if !ok {
      return Invalid;
    }
    var hrp := LowerString(s[..p]);
    var expanded := ExpandHrpOf(hrp);
    var sum := PolyModOf(expanded + values);
    if sum != 1 {
      return Invalid;
    }
    return Valid(hrp, values[..|values| - 6]);
  }

  lemma CaseSoFar(s: string, i: nat)
    requires i < |s|
    ensures AllPrintable(s[..i + 1]) <==> AllPrintable(s[..i]) && Printable(s[i])
    ensures HasLower(s[..i + 1]) <==> HasLower(s[..i]) || IsLower(s[i])
    ensures HasUpper(s[..i + 1]) <==> HasUpper(s[..i]) || IsUpper(s[i])
    ensures AllPrintable(s) ==> Printable(s[i])
  {
    hide Printable, IsLower, IsUpper;
    var a, b := s[..i], s[..i + 1];
    assert b == a + [s[i]];
    if HasLower(a) {
      var j :| 0 <= j < |a| && IsLower(a[j]);
      assert IsLower(b[j]);
    }
    if HasUpper(a) {
      var j :| 0 <= j < |a| && IsUpper(a[j]);
      assert IsUpper(b[j]);
    }
    if AllPrintable(b) {
      assert forall j :: 0 <= j < |a| ==> Printable(b[j]);
      assert Printable(b[i]);
    }
    assert b[i] == s[i];
  }
}
