/**
 The partial tree as the object that is built, packed into bytes, unpacked and read, each
 traversal pushing to or advancing over the object's vectors.
 */
module MerkleBlock {
  import opened MerkleTree
  import opened Sequences

  // ---------------------------------------------------------------- flag bits in bytes

  /** Bit `i` of a byte, the least significant first. */
  predicate BitOf(b: bv8, i: nat)
    requires i < 8
  {
    (b & (1 << i)) != 0
  }

  lemma SetBit(b: bv8, x: bool, i: nat, j: nat)
    requires i < 8 && j < 8
    ensures BitOf(b | ((if x then 1 else 0) << i), j) == if i == j then BitOf(b, j) || x else BitOf(b, j)
  {
  }

  lemma NoBits(i: nat)
    requires i < 8
    ensures !BitOf(0, i)
  {
  }

  function BytesFor(n: nat): nat {
    (n + 7) / 8
  }

  /** The bytes hold the bits, and nothing beyond them. */
  predicate Packs(bytes: seq<bv8>, bits: seq<bool>) {
    && |bytes| == BytesFor(|bits|)
    && forall p :: 0 <= p < 8 * |bytes| ==> BitOf(bytes[p / 8], p % 8) == (p < |bits| && bits[p])
  }

  method PackBits(bits: seq<bool>) returns (bytes: seq<bv8>)
    ensures Packs(bytes, bits)
  {
    bytes := seq(BytesFor(|bits|), _ => 0);
    hide BitOf;
    forall p | 0 <= p < 8 * |bytes| ensures !BitOf(bytes[p / 8], p % 8) {
      NoBits(p % 8);
    }
    for p := 0 to |bits|
      invariant |bytes| == BytesFor(|bits|)
      invariant forall q :: 0 <= q < 8 * |bytes| ==> BitOf(bytes[q / 8], q % 8) == (q < p && bits[q])
    {
      var before := bytes;
      bytes := bytes[p / 8 := bytes[p / 8] | ((if bits[p] then 1 else 0) << (p % 8))];
      forall q | 0 <= q < 8 * |bytes| ensures BitOf(bytes[q / 8], q % 8) == (q < p + 1 && bits[q]) {
        if q / 8 == p / 8 {
          SetBit(before[p / 8], bits[p], p % 8, q % 8);
        }
      }
    }
  }

  method UnpackBits(bytes: seq<bv8>) returns (bits: seq<bool>)
    ensures |bits| == 8 * |bytes|
    ensures forall p :: 0 <= p < |bits| ==> bits[p] == BitOf(bytes[p / 8], p % 8)
  {
    bits := [];
    for p := 0 to 8 * |bytes|
      invariant |bits| == p
      invariant forall q :: 0 <= q < p ==> bits[q] == BitOf(bytes[q / 8], q % 8)
    {
      bits := bits + [BitOf(bytes[p / 8], p % 8)];
    }
  }

  /** Packing and unpacking pads the bits with zeros to whole bytes. */
  method PackAndUnpack(bits: seq<bool>) returns (r: seq<bool>)
    ensures bits <= r && |r| == 8 * BytesFor(|bits|) && BytesFor(|r|) == BytesFor(|bits|)
    ensures forall p :: |bits| <= p < |r| ==> !r[p]
  {
    var bytes := PackBits(bits);
    r := UnpackBits(bytes);
  }

  // ---------------------------------------------------------------- the tree object

  class PartialMerkleTree {
    const f: Pairing
    var nTransactions: nat
    var vBits: seq<bool>
    var vHash: seq<Hash>
    var fBad: bool

    ghost function Value(): Partial
      reads this
    {
      Partial(vBits, vHash)
    }

    method FindHeight() returns (h: nat)
      ensures h == Height(nTransactions)
    {
      h := 0;
      while Width(nTransactions, h) > 1
        invariant HeightFrom(nTransactions, h) == Height(nTransactions)
        decreases Width(nTransactions, h)
      {
        WidthShrinks(nTransactions, h);
        h := h + 1;
      }
    }

    /** The loop over a node's leaves. */
    method IsParentOfMatch(h: nat, pos: nat, mask: seq<bool>) returns (r: bool)
      requires |mask| == nTransactions
      ensures r == ParentOfMatch(mask, h, pos)
    {
      var p, end := First(pos, h), First(pos + 1, h);
      r := false;
      while p < end && p < nTransactions
        invariant (r || AnyMatch(mask, p, end)) == ParentOfMatch(mask, h, pos)
        decreases end - p
      {
        r := r || mask[p];
        p := p + 1;
      }
    }

    method TraverseAndBuild(h: nat, pos: nat, txids: seq<Hash>, mask: seq<bool>)
      requires |txids| == |mask| == nTransactions && pos < Width(nTransactions, h)
      modifies this`vBits, this`vHash
      ensures Value() == Join(old(Value()), Build(f, txids, mask, h, pos))
      decreases h
    {
      hide Width, First, Build, CalcHash, ParentOfMatch;
      var parent := IsParentOfMatch(h, pos, mask);
      vBits := vBits + [parent];
      if h == 0 || !parent {
        vHash := vHash + [CalcHash(f, txids, h, pos)];
        BuildLeafOrUnmatched(f, txids, mask, h, pos);
      } else {
        BuildInner(f, txids, mask, h, pos);
        ghost var l := Build(f, txids, mask, h - 1, 2 * pos);
        TraverseAndBuild(h - 1, 2 * pos, txids, mask);
        assert Value() == Join(old(Value()), Join(Partial([true], []), l));
        if 2 * pos + 1 < Width(nTransactions, h - 1) {
          TraverseAndBuild(h - 1, 2 * pos + 1, txids, mask);
          JoinAssoc(old(Value()), Partial([true], []), l, Build(f, txids, mask, h - 1, 2 * pos + 1));
        }
      }
    }

    /** Build the tree of a block. */
    constructor Of(f: Pairing, txids: seq<Hash>, mask: seq<bool>)
      requires |txids| == |mask| > 0
      ensures this.f == f && nTransactions == |txids| && !fBad
      ensures Width(|txids|, Height(|txids|)) == 1 && Value() == Build(f, txids, mask, Height(|txids|), 0)
    {
      hide Width, Height, Build;
      this.f := f;
      nTransactions, vBits, vHash, fBad := |txids|, [], [], false;
      new;
      RootWidth(|txids|);
      var h := FindHeight();
      TraverseAndBuild(h, 0, txids, mask);
    }

    /** A tree as it is read from the network: any count, hashes and bytes. */
    constructor FromBytes(f: Pairing, nTransactions: nat, vHash: seq<Hash>, bytes: seq<bv8>)
      ensures this.f == f && this.nTransactions == nTransactions && this.vHash == vHash && !fBad
      ensures |vBits| == 8 * |bytes| && forall p :: 0 <= p < |vBits| ==> vBits[p] == BitOf(bytes[p / 8], p % 8)
    {
      this.f, this.nTransactions, this.vHash, fBad := f, nTransactions, vHash, false;
      var bits := UnpackBits(bytes);
      vBits := bits;
    }

    method TraverseAndExtract(h: nat, pos: nat, bitsUsed: nat, hashUsed: nat, vMatch: seq<Hash>)
      returns (hash: Hash, bitsUsed': nat, hashUsed': nat, vMatch': seq<Hash>)
      modifies this`fBad
      ensures var r := Read(f, nTransactions, Value(), h, pos, bitsUsed, hashUsed);
        && hash == r.hash && bitsUsed' == r.bitsUsed && hashUsed' == r.hashUsed
        && vMatch' == vMatch + r.matches && fBad == (old(fBad) || r.bad)
      decreases h
    {
      hide Width, Read;
      ReadLeafAt(f, nTransactions, Value(), h, pos, bitsUsed, hashUsed);
      if bitsUsed >= |vBits| {
        fBad := true;
        return 0, bitsUsed, hashUsed, vMatch;
      }
      var parent := vBits[bitsUsed];
      bitsUsed' := bitsUsed + 1;
      if h == 0 || !parent {
        if hashUsed >= |vHash| {
          fBad := true;
          return 0, bitsUsed', hashUsed, vMatch;
        }
        hash, hashUsed', vMatch' := vHash[hashUsed], hashUsed + 1, vMatch;
        if h == 0 && parent {
          vMatch' := vMatch' + [hash];
        }
      } else {
        ReadInnerAt(f, nTransactions, Value(), h, pos, bitsUsed, hashUsed);
        var left, right;
        left, bitsUsed', hashUsed', vMatch' := TraverseAndExtract(h - 1, 2 * pos, bitsUsed', hashUsed, vMatch);
        if 2 * pos + 1 < Width(nTransactions, h - 1) {
          right, bitsUsed', hashUsed', vMatch' := TraverseAndExtract(h - 1, 2 * pos + 1, bitsUsed', hashUsed', vMatch');
          if right == left {
            fBad := true;
          }
        } else {
          right := left;
        }
        hash := f(left, right);
      }
    }

    method Extract() returns (root: Hash, vMatch: seq<Hash>)
      requires !fBad
      modifies this`fBad
      ensures (root, vMatch) == ExtractMatches(f, nTransactions, old(Value()))
    {
      hide Read, Height;
      if nTransactions == 0 {
        return 0, [];
      }
      if nTransactions > MAX_TRANSACTIONS {
        return 0, [];
      }
      if |vHash| > nTransactions {
        return 0, [];
      }
      if |vBits| < |vHash| {
        return 0, [];
      }
      var h := FindHeight();
      var hash, bitsUsed, hashUsed;
      hash, bitsUsed, hashUsed, vMatch := TraverseAndExtract(h, 0, 0, 0, []);
      assert vMatch == Read(f, nTransactions, Value(), h, 0, 0, 0).matches;
      if fBad {
        return 0, vMatch;
      }
      if (bitsUsed + 7) / 8 != (|vBits| + 7) / 8 {
        return 0, vMatch;
      }
      if hashUsed != |vHash| {
        return 0, vMatch;
      }
      root := hash;
    }
  }

  lemma JoinAssoc(a: Partial, b: Partial, c: Partial, d: Partial)
    ensures Join(Join(a, Join(b, c)), d) == Join(a, Join(b, Join(c, d)))
  {
  }

  /** Built, packed into bytes, sent, unpacked and read: the true root, and the matched txids in order. */
  method SendAndExtract(f: Pairing, txids: seq<Hash>, mask: seq<bool>) returns (root: Hash, matches: seq<Hash>)
    requires Injective(f) && Distinct(txids) && |mask| == |txids| && 0 < |txids| <= MAX_TRANSACTIONS
    ensures Width(|txids|, Height(|txids|)) == 1
    ensures root == CalcHash(f, txids, Height(|txids|), 0) && matches == Matched(txids, mask, 0, |txids|)
  {
    hide Injective, Distinct, Width, Height, Build, CalcHash, Matched, ExtractMatches;
    var sent := new PartialMerkleTree.Of(f, txids, mask);
    var bytes := PackBits(sent.vBits);
    var got := new PartialMerkleTree.FromBytes(f, sent.nTransactions, sent.vHash, bytes);
    assert sent.vBits <= got.vBits;
    ExtractBuilt(f, txids, mask, got.Value());
    root, matches := got.Extract();
  }
}
