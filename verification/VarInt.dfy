/** Byte streams and the variable-length integers written to them. */
module VarInt {
  import opened CoinRecord
  import opened Positional

  const UINT32: nat := 0x1_0000_0000
  const UINT64: nat := 0x1_0000_0000_0000_0000

  datatype Reading<T> = Fail | Got(value: T, rest: seq<Byte>)

  // ---------------------------------------------------------------- the code

  /** The bytes before the last one, each with the continuation bit. */
  function Leading(n: nat): seq<Byte> {
    if n <= 127 then [n + 128] else Leading(n / 128 - 1) + [n % 128 + 128]
  }

  function VarBytes(n: nat): seq<Byte> {
    if n <= 127 then [n] else Leading(n / 128 - 1) + [n % 128]
  }

  function ReadFrom(n: nat, s: seq<Byte>): Reading<nat>
    decreases |s|
  {
    if s == [] then Fail
    else if s[0] >= 128 then ReadFrom(n * 128 + (s[0] - 128) + 1, s[1..])
    else Got(n * 128 + s[0], s[1..])
  }

  /** The low seven bits of a byte. */
  function Low7(b: Byte): nat {
    b % 128
  }

  lemma {:induction false} ReadNext(n: nat, s: seq<Byte>)
    ensures s != [] && s[0] < 128 ==> ReadFrom(n, s) == Got(n * 128 + Low7(s[0]), s[1..])
    ensures s != [] && s[0] >= 128 ==> ReadFrom(n, s) == ReadFrom(n * 128 + Low7(s[0]) + 1, s[1..])
    ensures s == [] ==> ReadFrom(n, s) == Fail
  {
  }

  lemma {:induction false} ReadLeading(n: nat, t: seq<Byte>)
    ensures ReadFrom(0, Leading(n) + t) == ReadFrom(n + 1, t)
    decreases n
  {
    if n <= 127 {
      assert ([n + 128] + t)[1..] == t;
    } else {
      var b := n % 128 + 128;
      ReadLeading(n / 128 - 1, [b] + t);
      assert Leading(n) + t == Leading(n / 128 - 1) + ([b] + t);
      assert ([b] + t)[1..] == t;
    }
  }

  /** An integer is read back, and nothing after it is touched. */
  lemma {:induction false} ReadVarBytes(n: nat, t: seq<Byte>)
    ensures ReadFrom(0, VarBytes(n) + t) == Got(n, t)
  {
    if n <= 127 {
      assert ([n as Byte] + t)[1..] == t;
    } else {
      hide VarBytes, ReadFrom;
      ReadLast(n / 128 - 1, n % 128, t);
    }
  }

  lemma {:induction false} ReadLast(m: nat, b: Byte, t: seq<Byte>)
    requires b < 128
    ensures var n := (m + 1) * 128 + b; ReadFrom(0, VarBytes(n) + t) == Got(n, t)
  {
    hide Leading, VarBytes, ReadFrom;
    var n := (m + 1) * 128 + b;
    LeadingNext(m, b);
    ReadLeading(m, [b] + t);
    assert VarBytes(n) + t == Leading(m) + ([b] + t);
    ReadNext(m + 1, [b] + t);
    assert ([b] + t)[1..] == t;
  }

  /** Whatever was read was the one encoding of the integer. */
  lemma {:induction false} ReadIsVarBytes(n: nat, s: seq<Byte>, t: seq<Byte>)
    requires ReadFrom(0, s) == Got(n, t)
    ensures s == VarBytes(n) + t
  {
    if s[0] < 128 {
      assert s == [s[0]] + s[1..];
    } else {
      assert s == [s[0]] + s[1..];
      ReadIsLeading(s[0] - 128, s[1..], n, t);
    }
  }

  /** The same after some bytes with the continuation bit, which stand for `m`. */
  lemma {:induction false} ReadIsLeading(m: nat, s: seq<Byte>, n: nat, t: seq<Byte>)
    requires ReadFrom(m + 1, s) == Got(n, t)
    ensures Leading(m) + s == VarBytes(n) + t
    decreases |s|
  {
    hide Leading, VarBytes, ReadFrom;
    ReadNext(m + 1, s);
    var b := s[0];
    assert s == [b] + s[1..];
    LeadingNext(m, Low7(b));
    assert Leading(m) + s == Leading(m) + [b] + s[1..];
    if b >= 128 {
      ReadIsLeading((m + 1) * 128 + Low7(b), s[1..], n, t);
    }
  }

  /** One more digit. */
  lemma {:induction false} LeadingNext(m: nat, d: nat)
    requires d < 128
    ensures Leading((m + 1) * 128 + d) == Leading(m) + [d + 128]
    ensures VarBytes((m + 1) * 128 + d) == Leading(m) + [d]
  {
    DivisionIs((m + 1) * 128 + d, 128, m + 1, d);
  }

  /**
   Two streams that give the same integer begin with the same bytes, and only a stream that never ends an integer fails.
   */
  lemma {:induction false} OneEncoding(r: seq<Byte>, s: seq<Byte>)
    ensures ReadFrom(0, r).Got? && ReadFrom(0, s).Got? && ReadFrom(0, r).value == ReadFrom(0, s).value ==>
              exists b :: r == b + ReadFrom(0, r).rest && s == b + ReadFrom(0, s).rest
    ensures ReadFrom(0, s).Fail? <==> forall i :: 0 <= i < |s| ==> s[i] >= 128
  {
    hide VarBytes;
    if ReadFrom(0, r).Got? && ReadFrom(0, s).Got? && ReadFrom(0, r).value == ReadFrom(0, s).value {
      ReadIsVarBytes(ReadFrom(0, r).value, r, ReadFrom(0, r).rest);
      ReadIsVarBytes(ReadFrom(0, s).value, s, ReadFrom(0, s).rest);
    }
    NeverEnds(0, s);
  }

  lemma {:induction false} NeverEnds(n: nat, s: seq<Byte>)
    ensures ReadFrom(n, s).Fail? <==> forall i :: 0 <= i < |s| ==> s[i] >= 128
    decreases |s|
  {
    if s != [] && s[0] >= 128 {
      NeverEnds(n * 128 + (s[0] - 128) + 1, s[1..]);
      assert forall i :: 0 <= i < |s| ==> s[i] == if i == 0 then s[0] else s[1..][i - 1];
    }
  }

  /** The buffer the bytes are first written to is large enough: seven bits a byte. */
  lemma {:induction false} VarBytesFit(n: nat, k: nat)
    requires n < Pow(128, k) && k > 0
    ensures |VarBytes(n)| <= k
  {
    if n > 127 {
      LeadingFit(n / 128 - 1, n, k);
    }
  }

  lemma {:induction false} LeadingFit(m: nat, n: nat, k: nat)
    requires n < Pow(128, k) && n > 127 && m == n / 128 - 1
    ensures k > 1 && |Leading(m)| < k
    decreases k
  {
    assert k > 0 && Pow(128, 0) == 1 && Pow(128, 1) == 128;
    assert k > 1;
    DivBelowPow(n, k);
    if m > 127 {
      LeadingFit(m / 128 - 1, m, k - 1);
    }
  }

  lemma DivBelowPow(n: nat, k: nat)
    requires k > 0 && n < Pow(128, k)
    ensures n / 128 < Pow(128, k - 1)
  {
    assert Pow(128, k) == 128 * Pow(128, k - 1);
  }

  // ---------------------------------------------------------------- integers of the machine

  /** What is written for an integer of any type: of a negative one, its lowest seven bits. */
  function IntBytes(n: int): seq<Byte> {
    if n < 0 then [n % 128] else VarBytes(n)
  }

  /** What an unsigned type with this many values keeps of a number. */
  function Wrapped(n: nat, modulus: nat): nat
    requires modulus > 0
  {
    n % modulus
  }

  /** Reading into an unsigned integer, which wraps around. */
  function ReadUint(modulus: nat, s: seq<Byte>): Reading<nat>
    requires modulus > 0
  {
    match ReadFrom(0, s)
    case Fail => Fail
    case Got(n, rest) => Got(Wrapped(n, modulus), rest)
  }

  function ToInt32(x: nat): int {
    if x < 0x8000_0000 then x else x - UINT32
  }

  /** Reading into a signed integer of 32 bits. */
  function ReadInt(s: seq<Byte>): Reading<int> {
    match ReadUint(UINT32, s)
    case Fail => Fail
    case Got(x, rest) => Got(ToInt32(x), rest)
  }

  /** An unsigned integer is read back, by a reader at least as wide. */
  lemma {:induction false} ReadUintBytes(modulus: nat, n: nat, t: seq<Byte>)
    requires n < modulus
    ensures ReadUint(modulus, VarBytes(n) + t) == Got(n, t)
  {
    hide VarBytes, ReadFrom;
    ReadVarBytes(n, t);
    DivisionIs(n, modulus, 0, n);
  }

  /** The bytes read are those that would be written exactly if the reader did not wrap around. */
  lemma {:induction false} ReadUintIsBytes(modulus: nat, s: seq<Byte>)
    requires modulus > 0 && ReadUint(modulus, s).Got?
    ensures var r := ReadUint(modulus, s);
            s == VarBytes(r.value) + r.rest <==> ReadFrom(0, s).value < modulus
  {
    hide VarBytes, ReadFrom;
    var r, u := ReadUint(modulus, s), ReadFrom(0, s);
    ReadIsVarBytes(u.value, s, u.rest);
    if u.value < modulus {
      DivisionIs(u.value, modulus, 0, u.value);
    }
    if s == VarBytes(r.value) + r.rest {
      ReadVarBytes(r.value, r.rest);
    }
  }

  /** A signed integer is read back exactly if it is not negative. */
  lemma {:induction false} ReadIntBytes(n: int, t: seq<Byte>)
    requires -0x8000_0000 <= n < 0x8000_0000
    ensures ReadInt(IntBytes(n) + t) == Got(if n < 0 then n % 128 else n, t)
    ensures ReadInt(IntBytes(n) + t) == Got(n, t) <==> n >= 0
  {
    hide VarBytes, ReadFrom;
    if n < 0 {
      ReadUintBytes(UINT32, n % 128, t);
      assert VarBytes(n % 128) == [n % 128] by { SmallBytes(n % 128); }
    } else {
      ReadUintBytes(UINT32, n, t);
    }
  }

  lemma {:induction false} SmallBytes(n: nat)
    requires n <= 127
    ensures VarBytes(n) == [n]
  {
  }

  // ---------------------------------------------------------------- streams

  class Stream {
    var data: seq<Byte>

    constructor (data: seq<Byte>)
      ensures this.data == data
    {
      this.data := data;
    }

    method Write(bytes: seq<Byte>)
      modifies this
      ensures data == old(data) + bytes
    {
      data := data + bytes;
    }

    /** The next `n` bytes; a stream that ends earlier is an error. */
    method Read(n: nat) returns (ok: bool, bytes: seq<Byte>)
      modifies this
      ensures ok <==> n <= |old(data)|
      ensures ok ==> old(data) == bytes + data && |bytes| == n
      ensures ok ==> bytes == old(data)[..n] && data == old(data)[n..]
      ensures !ok ==> data == old(data) && bytes == []
    {
      if n > |data| {
        return false, [];
      }
      bytes := data[..n];
      data := data[n..];
      return true, bytes;
    }

    method WriteVarInt(n: int)
      modifies this
      ensures data == old(data) + IntBytes(n)
    {
      var tmp := VarDigits(n);
      var len := |tmp|;
      ghost var start := data;
      assert tmp[..len] == tmp;
      while len > 0
        invariant 0 <= len <= |tmp| && data == start + Backwards(tmp)[..|tmp| - len]
      {
        len := len - 1;
        BackwardsAt(tmp, |tmp| - 1 - len);
        Write([tmp[len]]);
      }
    }

    /** Reads into an unsigned integer below `modulus`. */
    method ReadVarInt(modulus: nat) returns (ok: bool, n: nat)
      requires modulus > 0
      modifies this
      ensures var r := ReadUint(modulus, old(data));
              (ok <==> r.Got?) && (ok ==> n == r.value && data == r.rest)
    {
      hide ReadFrom, Wrapped, Low7;
      n := 0;
      ghost var m: nat := 0;
      WrapNone(modulus);
      while data != []
        invariant ReadFrom(m, data) == ReadFrom(0, old(data)) && n == Wrapped(m, modulus)
        decreases |data|
      {
        ReadNext(m, data);
        var b := data[0];
        data := data[1..];
        WrapStep(m, Low7(b), modulus);
        n := Wrapped(n * 128 + Low7(b), modulus);
        m := m * 128 + Low7(b);
        if b >= 128 {
          WrapOne(m, modulus);
          n := Wrapped(n + 1, modulus);
          m := m + 1;
        } else {
          return true, n;
        }
      }
      ReadNext(m, data);
      return false, n;
    }
  }

  lemma WrapNone(modulus: nat)
    requires modulus > 0
    ensures Wrapped(0, modulus) == 0
  {
    DivisionIs(0, modulus, 0, 0);
  }

  lemma WrapStep(m: nat, d: nat, modulus: nat)
    requires modulus > 0
    ensures Wrapped(Wrapped(m, modulus) * 128 + d, modulus) == Wrapped(m * 128 + d, modulus)
  {
    var q, r := m / modulus, m % modulus;
    assert m == modulus * q + r;
    SameMod(r * 128 + d, m * 128 + d, modulus, q * 128);
  }

  lemma WrapOne(m: nat, modulus: nat)
    requires modulus > 0
    ensures Wrapped(Wrapped(m, modulus) + 1, modulus) == Wrapped(m + 1, modulus)
  {
    var q, r := m / modulus, m % modulus;
    assert m == modulus * q + r;
    SameMod(r + 1, m + 1, modulus, q);
  }

  /** Numbers that differ by a multiple of the modulus leave the same remainder. */
  lemma SameMod(a: nat, b: nat, modulus: nat, k: nat)
    requires modulus > 0 && b == a + modulus * k
    ensures a % modulus == b % modulus
  {
    var q, r := a / modulus, a % modulus;
    Distribute(modulus, q, k);
    DivisionIs(b, modulus, q + k, r);
  }

  /** The bytes of an integer, found from the last one to the first one. */
  method VarDigits(value: int) returns (tmp: seq<Byte>)
    ensures Backwards(tmp) == IntBytes(value)
  {
    hide VarBytes, Leading;
    tmp := [];
    var n := value;
    while true
      invariant n >= 0 || (n == value && tmp == [])
      invariant IntBytes(value) == (if n < 0 then IntBytes(n) else Ahead(n, tmp != [])) + Backwards(tmp)
      decreases n
    {
      if n < 0 {
        tmp := [n % 128];
        assert tmp[..0] == [];
        break;
      }
      AheadStep(n, tmp != []);
      ghost var was := tmp;
      tmp := tmp + [n % 128 + if tmp != [] then 128 else 0];
      assert tmp[..|tmp| - 1] == was;
      if n <= 127 {
        break;
      }
      n := n / 128 - 1;
    }
  }

  /** The bytes still to be found. */
  function Ahead(n: nat, continued: bool): seq<Byte> {
    if continued then Leading(n) else VarBytes(n)
  }

  lemma {:induction false} AheadStep(n: nat, continued: bool)
    ensures var b: Byte := n % 128 + if continued then 128 else 0;
            Ahead(n, continued) == if n <= 127 then [b] else Ahead(n / 128 - 1, true) + [b]
  {
  }

  lemma {:induction false} BackwardsAt(s: seq<Byte>, i: nat)
    requires i < |s|
    ensures Backwards(s)[i] == s[|s| - 1 - i]
  {
    if i > 0 {
      BackwardsAt(s[..|s| - 1], i - 1);
    }
  }

  function Backwards(s: seq<Byte>): (r: seq<Byte>)
    ensures |r| == |s|
  {
    if s == [] then [] else [s[|s| - 1]] + Backwards(s[..|s| - 1])
  }
}
