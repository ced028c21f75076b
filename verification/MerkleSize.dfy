/** The serialized size of a partial Merkle tree, against the guarantee of the format's comment. */
module MerkleSize {
  import opened Positional
  import opened MerkleTree
  import opened MerkleBlock

  /** The bytes of a compact size. */
  function CompactSizeBytes(n: nat): nat {
    if n < 253 then 1 else if n <= 0xFFFF then 3 else if n <= 0xFFFF_FFFF then 5 else 9
  }

  /** The number of transactions, the hashes and the flag bytes, the last two with their counts. */
  function SerializedSize(b: Partial): nat {
    var bytes := BytesFor(|b.bits|);
    4 + CompactSizeBytes(|b.hashes|) + 32 * |b.hashes| + CompactSizeBytes(bytes) + bytes
  }

  /** 10 + ceil(32.25 * N). */
  function Guaranteed(hashes: nat): nat {
    10 + (129 * hashes + 3) / 4
  }

  /** The flag bytes that single children cost beyond those of 2N - 1 bits. */
  function LoneBytes(hashes: nat, lone: nat): nat {
    (2 * hashes + 6 + lone) / 8 - (2 * hashes + 6) / 8
  }

  /**
   The guarantee on the size holds exactly when the two counts and the flag bytes for single children
   together take no more than six bytes.
   */
  lemma {:induction false} SizeGuarantee(f: Pairing, txids: seq<Hash>, mask: seq<bool>)
    requires |mask| == |txids| > 0
    ensures Width(|txids|, Height(|txids|)) == 1
    ensures var b := Build(f, txids, mask, Height(|txids|), 0);
      var lone := Lone(|txids|, mask, Height(|txids|));
      && |b.bits| == 2 * |b.hashes| - 1 + lone
      && (SerializedSize(b) <= Guaranteed(|b.hashes|) <==>
            CompactSizeBytes(|b.hashes|) + CompactSizeBytes(BytesFor(2 * |b.hashes| - 1 + lone))
            + LoneBytes(|b.hashes|, lone) <= 6)
  {
    RootWidth(|txids|);
    BitCount(f, txids, mask, Height(|txids|), 0);
    hide Build, Lone, Height, Width, CompactSizeBytes;
  }

  lemma {:induction false} LoneAtMost(n: nat, mask: seq<bool>, h: nat)
    ensures Lone(n, mask, h) <= h
  {
    if h > 0 {
      LoneAtMost(n, mask, h - 1);
    }
  }

  /** As many leaves as a height has room for need no more than that height. */
  lemma {:induction false} HeightAtMost(n: nat, h: nat)
    requires n <= Pow2(h)
    ensures Height(n) <= h
  {
    WidthMeans(n, h, 1);
    var r := Height(n);
    assert Width(n, h) <= 1 && (h < r ==> Width(n, h) > 1);
  }

  lemma Powers16()
    ensures Pow2(16) == 0x1_0000 && Pow2(32) == 0x1_0000_0000
  {
    assert Pow2(4) == 16;
    assert Pow2(8) == 256;
    assert Pow2(12) == 4096;
    assert Pow2(16) == 0x1_0000;
    assert Pow2(20) == 0x10_0000;
    assert Pow2(24) == 0x100_0000;
    assert Pow2(28) == 0x1000_0000;
  }

  /**
   The guarantee holds for fewer than 253 hashes, whatever 32-bit number of transactions they are taken from; for up
   to 1000 hashes of any block; and for up to 65535 hashes if no single child is descended into.
   */
  lemma {:induction false} SizeGuaranteed(f: Pairing, txids: seq<Hash>, mask: seq<bool>)
    requires |mask| == |txids| > 0
    ensures Width(|txids|, Height(|txids|)) == 1
    ensures var b := Build(f, txids, mask, Height(|txids|), 0);
      || (|b.hashes| < 253 && |txids| < 0x1_0000_0000)
      || (|b.hashes| <= 1000 && |txids| <= MAX_TRANSACTIONS)
      || (|b.hashes| <= 0xFFFF && Lone(|txids|, mask, Height(|txids|)) == 0)
      ==> SerializedSize(b) <= Guaranteed(|b.hashes|)
  {
    hide Build, Lone, Height, Width, Pow2;
    RootWidth(|txids|);
    SizeGuarantee(f, txids, mask);
    LoneAtMost(|txids|, mask, Height(|txids|));
    Powers16();
    if |txids| < 0x1_0000_0000 {
      HeightAtMost(|txids|, 32);
    }
    if |txids| <= MAX_TRANSACTIONS {
      HeightAtMost(|txids|, 16);
    }
  }

  // ---------------------------------------------------------------- a tree that breaks it

  /** With everything matched, every leaf is stored. */
  lemma {:induction false} AllStored(f: Pairing, txids: seq<Hash>, mask: seq<bool>, h: nat, pos: nat)
    requires |mask| == |txids| && pos < Width(|txids|, h) && forall i :: 0 <= i < |mask| ==> mask[i]
    ensures |Build(f, txids, mask, h, pos).hashes| == Leaves(|txids|, h, pos)
    decreases h
  {
    hide Build, Width, Pow2, ParentOfMatch;
    var n := |txids|;
    WidthMeans(n, h, pos);
    AllMatch(n, mask, h, pos);
    if h == 0 {
      BuildLeaf(f, txids, mask, h, pos);
      OneLeaf(n, pos);
    } else {
      BuildInner(f, txids, mask, h, pos);
      Halves(pos, h);
      ChildWidth(n, h, pos);
      AllStored(f, txids, mask, h - 1, 2 * pos);
      if 2 * pos + 1 < Width(n, h - 1) {
        AllStored(f, txids, mask, h - 1, 2 * pos + 1);
      }
    }
  }

  lemma OneLeaf(n: nat, pos: nat)
    requires First(pos, 0) < n
    ensures Leaves(n, 0, pos) == 1
  {
  }

  lemma {:induction false} AllMatch(n: nat, mask: seq<bool>, h: nat, pos: nat)
    requires |mask| == n && First(pos, h) < n && forall i :: 0 <= i < |mask| ==> mask[i]
    ensures ParentOfMatch(mask, h, pos)
  {
    FirstMono(pos, pos + 1, h);
  }

  lemma PowersOfTwo()
    ensures Pow2(0) == 1 && Pow2(1) == 2 && Pow2(2) == 4 && Pow2(3) == 8 && Pow2(4) == 16 && Pow2(5) == 32
    ensures Pow2(6) == 64 && Pow2(7) == 128 && Pow2(8) == 256 && Pow2(9) == 512 && Pow2(10) == 1024 && Pow2(11) == 2048
  {
    assert Pow2(4) == 16;
    assert Pow2(8) == 256;
  }

  lemma {:induction false} Widths()
    ensures Width(1025, 0) == 1025 && Width(1025, 1) == 513 && Width(1025, 2) == 257 && Width(1025, 3) == 129
    ensures Width(1025, 4) == 65 && Width(1025, 5) == 33 && Width(1025, 6) == 17 && Width(1025, 7) == 9
    ensures Width(1025, 8) == 5 && Width(1025, 9) == 3 && Width(1025, 10) == 2 && Width(1025, 11) == 1
  {
    PowersOfTwo();
    hide Pow2;
  }

  lemma {:induction false} HeightIs()
    ensures Height(1025) == 11
  {
    Widths();
    hide Width;
    var r := Height(1025);
    assert r <= 11 && Width(1025, r) <= 1;
  }

  lemma {:induction false} LoneNext(mask: seq<bool>, h: nat)
    requires |mask| == 1025 && (forall i :: 0 <= i < |mask| ==> mask[i])
    requires h > 0 && Width(1025, h) > 0
    ensures Lone(1025, mask, h) == Lone(1025, mask, h - 1) + Width(1025, h - 1) % 2
  {
    WidthMeans(1025, h, Width(1025, h) - 1);
    AllMatch(1025, mask, h, Width(1025, h) - 1);
    hide ParentOfMatch, Width;
  }

  lemma {:induction false} TenLone(mask: seq<bool>)
    requires |mask| == 1025 && forall i :: 0 <= i < |mask| ==> mask[i]
    ensures Lone(1025, mask, 11) == 10
  {
    Widths();
    hide Width, LoneAt;
    LoneNext(mask, 1);
    LoneNext(mask, 2);
    LoneNext(mask, 3);
    LoneNext(mask, 4);
    LoneNext(mask, 5);
    LoneNext(mask, 6);
    LoneNext(mask, 7);
    LoneNext(mask, 8);
    LoneNext(mask, 9);
    LoneNext(mask, 10);
    LoneNext(mask, 11);
    hide Lone;
  }

  /** 1025 transactions, all matched: 33068 bytes, one more than is guaranteed. */
  lemma {:induction false} GuaranteeFails(f: Pairing, txids: seq<Hash>, mask: seq<bool>)
    requires |txids| == |mask| == 1025 && forall i :: 0 <= i < |mask| ==> mask[i]
    ensures Width(1025, Height(1025)) == 1
    ensures var b := Build(f, txids, mask, Height(1025), 0);
      |b.hashes| == 1025 && SerializedSize(b) == 33068 && Guaranteed(|b.hashes|) == 33067
  {
    HeightIs();
    Widths();
    PowersOfTwo();
    TenLone(mask);
    hide Build, Lone, Height, Width, Pow2;
    AllStored(f, txids, mask, 11, 0);
    SizeGuarantee(f, txids, mask);
  }
}
