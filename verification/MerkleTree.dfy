/**
 Partial Merkle trees (BIP 37, "Partial Merkle branch format"): the traversals that build
 and read one, as functions. A hash is a number with 0 the null hash, and the pair hash is
 any function of two hashes.
 */
module MerkleTree {
  import opened Positional
  import opened Sequences

  type Hash = nat

  type Pairing = (Hash, Hash) -> Hash

  ghost predicate Injective(f: Pairing) {
    forall a, b, c, d :: f(a, b) == f(c, d) ==> a == c && b == d
  }

  // ---------------------------------------------------------------- the shape of the tree

  /** The number of nodes at height `h` over `n` leaves. */
  function Width(n: nat, h: nat): nat {
    (n + Pow2(h) - 1) / Pow2(h)
  }

  lemma DivBelow(a: int, b: int, q: int)
    requires b > 0
    ensures q < (a + b - 1) / b <==> q * b < a
  {
    var d := (a + b - 1) / b;
    var r := (a + b - 1) % b;
    assert a + b - 1 == d * b + r && 0 <= r < b;
    if q < d {
      MulMono(q + 1, d, b);
      assert q * b + b <= d * b;
    } else {
      MulMono(d, q, b);
    }
  }

  lemma MulMono(a: int, b: int, c: int)
    requires a <= b && c >= 0
    ensures a * c <= b * c
  {
  }

  /** A position is within the width exactly when its first leaf exists. */
  lemma WidthMeans(n: nat, h: nat, pos: nat)
    ensures pos < Width(n, h) <==> First(pos, h) < n
  {
    DivBelow(n, Pow2(h), pos);
  }

  lemma ChildWidth(n: nat, h: nat, pos: nat)
    requires h > 0 && pos < Width(n, h)
    ensures 2 * pos < Width(n, h - 1)
    ensures 2 * pos + 1 < Width(n, h - 1) <==> First(2 * pos + 1, h - 1) < n
  {
    WidthMeans(n, h, pos);
    WidthMeans(n, h - 1, 2 * pos);
    WidthMeans(n, h - 1, 2 * pos + 1);
    Halves(pos, h);
  }

  /** The first leaf under a node. */
  function First(pos: nat, h: nat): nat {
    pos * Pow2(h)
  }

  /** A node's leaves are those of its two children. */
  lemma Halves(pos: nat, h: nat)
    requires h > 0
    ensures First(2 * pos, h - 1) == First(pos, h)
    ensures First(2 * pos + 1, h - 1) == First(pos, h) + Pow2(h - 1)
    ensures First(2 * pos + 2, h - 1) == First(pos + 1, h) == First(pos, h) + Pow2(h)
    ensures First(pos, h) < First(2 * pos + 1, h - 1) < First(pos + 1, h)
  {
    var p := Pow2(h - 1);
    assert Pow2(h) == 2 * p;
    assert (2 * pos) * p == pos * (2 * p);
    assert (2 * pos + 1) * p == (2 * pos) * p + p;
    assert (2 * pos + 2) * p == (pos + 1) * (2 * p) == pos * (2 * p) + 2 * p;
  }

  /** The height the search for a single node stops at. */
  function HeightFrom(n: nat, h: nat): (r: nat)
    ensures r >= h && Width(n, r) <= 1
    ensures forall k :: h <= k < r ==> Width(n, k) > 1
    decreases Width(n, h)
  {
    if Width(n, h) <= 1 then h else
    WidthShrinks(n, h);
    HeightFrom(n, h + 1)
  }

  lemma WidthShrinks(n: nat, h: nat)
    requires Width(n, h) > 1
    ensures Width(n, h + 1) < Width(n, h)
  {
    var w := Width(n, h);
    WidthMeans(n, h, w);
    WidthMeans(n, h + 1, w - 1);
    assert (w - 1) * Pow2(h + 1) == (2 * w - 2) * Pow2(h) by {
      Halves(w - 1, h + 1);
    }
    MulMono(w, 2 * w - 2, Pow2(h));
  }

  function Height(n: nat): nat {
    HeightFrom(n, 0)
  }

  lemma RootWidth(n: nat)
    requires n > 0
    ensures Width(n, Height(n)) == 1 && n <= Pow2(Height(n))
  {
    WidthMeans(n, Height(n), 0);
    WidthMeans(n, Height(n), 1);
  }

  // ---------------------------------------------------------------- hashes of nodes

  function CalcHash(f: Pairing, txids: seq<Hash>, h: nat, pos: nat): Hash
    requires pos < Width(|txids|, h)
    decreases h
  {
    if h == 0 then
      WidthMeans(|txids|, 0, pos);
      txids[pos]
    else
      ChildWidth(|txids|, h, pos);
      var left := CalcHash(f, txids, h - 1, 2 * pos);
      var right := if 2 * pos + 1 < Width(|txids|, h - 1) then CalcHash(f, txids, h - 1, 2 * pos + 1) else left;
      f(left, right)
  }

  /** Nodes of one height with the same hash start at the same leaf. */
  lemma {:induction false} SameHashSameLeaf(f: Pairing, txids: seq<Hash>, h: nat, p: nat, q: nat)
    requires Injective(f) && p < Width(|txids|, h) && q < Width(|txids|, h)
    requires CalcHash(f, txids, h, p) == CalcHash(f, txids, h, q)
    ensures First(p, h) < |txids| && First(q, h) < |txids| && txids[First(p, h)] == txids[First(q, h)]
    decreases h
  {
    WidthMeans(|txids|, h, p);
    WidthMeans(|txids|, h, q);
    if h > 0 {
      ChildWidth(|txids|, h, p);
      ChildWidth(|txids|, h, q);
      SameHashSameLeaf(f, txids, h - 1, 2 * p, 2 * q);
      Halves(p, h);
      Halves(q, h);
    }
  }

  lemma {:induction false} FirstMono(p: nat, q: nat, h: nat)
    requires p < q
    ensures First(p, h) + Pow2(h) <= First(q, h)
  {
    MulMono(p + 1, q, Pow2(h));
    assert (p + 1) * Pow2(h) == p * Pow2(h) + Pow2(h);
  }

  /** Over distinct txids no two nodes of one height have the same hash. */
  lemma {:induction false} SiblingsDiffer(f: Pairing, txids: seq<Hash>, h: nat, p: nat, q: nat)
    requires Injective(f) && Distinct(txids) && p < q < Width(|txids|, h)
    ensures CalcHash(f, txids, h, p) != CalcHash(f, txids, h, q)
  {
    FirstMono(p, q, h);
    if CalcHash(f, txids, h, p) == CalcHash(f, txids, h, q) {
      SameHashSameLeaf(f, txids, h, p, q);
    }
  }

  // ---------------------------------------------------------------- building

  /** Whether a leaf from `lo` up to `hi` is matched. */
  function AnyMatch(mask: seq<bool>, lo: nat, hi: nat): bool
    decreases hi - lo
  {
    if lo >= hi || lo >= |mask| then false else mask[lo] || AnyMatch(mask, lo + 1, hi)
  }

  predicate ParentOfMatch(mask: seq<bool>, h: nat, pos: nat) {
    AnyMatch(mask, First(pos, h), First(pos + 1, h))
  }

  /** The flag bits and hashes of one subtree. */
  datatype Partial = Partial(bits: seq<bool>, hashes: seq<Hash>)

  function Join(a: Partial, b: Partial): Partial {
    Partial(a.bits + b.bits, a.hashes + b.hashes)
  }

  function Build(f: Pairing, txids: seq<Hash>, mask: seq<bool>, h: nat, pos: nat): Partial
    requires |mask| == |txids| && pos < Width(|txids|, h)
    decreases h
  {
    var parent := ParentOfMatch(mask, h, pos);
    if h == 0 || !parent then Partial([parent], [CalcHash(f, txids, h, pos)])
    else
      ChildWidth(|txids|, h, pos);
      var below := Build(f, txids, mask, h - 1, 2 * pos);
      Join(Partial([parent], []),
           if 2 * pos + 1 < Width(|txids|, h - 1)
           then Join(below, Build(f, txids, mask, h - 1, 2 * pos + 1))
           else below)
  }

  // ---------------------------------------------------------------- reading

  /**
   What the reading of one subtree leaves: its hash, the bits and hashes used, the matched txids, and whether it failed.
   */
  datatype Extract = Extract(hash: Hash, bitsUsed: nat, hashUsed: nat, matches: seq<Hash>, bad: bool)

  function Read(f: Pairing, n: nat, p: Partial, h: nat, pos: nat, bitsUsed: nat, hashUsed: nat): Extract
    decreases h
  {
    if bitsUsed >= |p.bits| then Extract(0, bitsUsed, hashUsed, [], true)
    else
      var parent := p.bits[bitsUsed];
      if h == 0 || !parent then
        if hashUsed >= |p.hashes| then Extract(0, bitsUsed + 1, hashUsed, [], true)
        else
          var found := if h == 0 && parent then [p.hashes[hashUsed]] else [];
          Extract(p.hashes[hashUsed], bitsUsed + 1, hashUsed + 1, found, false)
      else
        var left := Read(f, n, p, h - 1, 2 * pos, bitsUsed + 1, hashUsed);
        if 2 * pos + 1 < Width(n, h - 1) then
          var right := Read(f, n, p, h - 1, 2 * pos + 1, left.bitsUsed, left.hashUsed);
          Extract(f(left.hash, right.hash), right.bitsUsed, right.hashUsed, left.matches + right.matches,
                  left.bad || right.bad || right.hash == left.hash)
        else left.(hash := f(left.hash, left.hash))
  }

  lemma ReadLeafAt(f: Pairing, n: nat, p: Partial, h: nat, pos: nat, bitsUsed: nat, hashUsed: nat)
    ensures bitsUsed >= |p.bits| ==>
      Read(f, n, p, h, pos, bitsUsed, hashUsed) == Extract(0, bitsUsed, hashUsed, [], true)
    ensures bitsUsed < |p.bits| && (h == 0 || !p.bits[bitsUsed]) ==>
      Read(f, n, p, h, pos, bitsUsed, hashUsed) ==
      if hashUsed >= |p.hashes| then Extract(0, bitsUsed + 1, hashUsed, [], true)
      else Extract(p.hashes[hashUsed], bitsUsed + 1, hashUsed + 1,
                   if h == 0 && p.bits[bitsUsed] then [p.hashes[hashUsed]] else [], false)
  {
  }

  lemma ReadInnerAt(f: Pairing, n: nat, p: Partial, h: nat, pos: nat, bitsUsed: nat, hashUsed: nat)
    requires h > 0 && bitsUsed < |p.bits| && p.bits[bitsUsed]
    ensures var left := Read(f, n, p, h - 1, 2 * pos, bitsUsed + 1, hashUsed);
      Read(f, n, p, h, pos, bitsUsed, hashUsed) ==
      if 2 * pos + 1 < Width(n, h - 1) then
        var right := Read(f, n, p, h - 1, 2 * pos + 1, left.bitsUsed, left.hashUsed);
        Extract(f(left.hash, right.hash), right.bitsUsed, right.hashUsed, left.matches + right.matches,
                left.bad || right.bad || right.hash == left.hash)
      else left.(hash := f(left.hash, left.hash))
  {
  }

  const MAX_TRANSACTIONS := 2000000 / 60

  /** The Merkle root, 0 on failure, and the matched txids. */
  function ExtractMatches(f: Pairing, n: nat, p: Partial): (Hash, seq<Hash>) {
    if n == 0 || n > MAX_TRANSACTIONS || |p.hashes| > n || |p.bits| < |p.hashes| then (0, [])
    else
      var r := Read(f, n, p, Height(n), 0, 0, 0);
      if r.bad || (r.bitsUsed + 7) / 8 != (|p.bits| + 7) / 8 || r.hashUsed != |p.hashes| then (0, r.matches)
      else (r.hash, r.matches)
  }

  // ---------------------------------------------------------------- soundness

  /** The leaves whose bits are read as matched. */
  function ReadAt(f: Pairing, n: nat, p: Partial, h: nat, pos: nat, bitsUsed: nat, hashUsed: nat): seq<nat>
    decreases h
  {
    if bitsUsed >= |p.bits| then []
    else if h == 0 || !p.bits[bitsUsed] then
      if h == 0 && p.bits[bitsUsed] && hashUsed < |p.hashes| then [pos] else []
    else
      var left := Read(f, n, p, h - 1, 2 * pos, bitsUsed + 1, hashUsed);
      ReadAt(f, n, p, h - 1, 2 * pos, bitsUsed + 1, hashUsed) +
        if 2 * pos + 1 < Width(n, h - 1) then ReadAt(f, n, p, h - 1, 2 * pos + 1, left.bitsUsed, left.hashUsed) else []
  }

  /** The matches are the txids at these leaves, in the order of the block, all between `lo` and `hi`. */
  ghost predicate AreTxids(txids: seq<Hash>, at: seq<nat>, matches: seq<Hash>, lo: nat, hi: nat) {
    && |at| == |matches|
    && (forall i :: 0 <= i < |at| ==> lo <= at[i] < hi && at[i] < |txids| && matches[i] == txids[at[i]])
    && (forall i, j :: 0 <= i < j < |at| ==> at[i] < at[j])
  }

  lemma AreTxidsJoin(txids: seq<Hash>, a: seq<nat>, m: seq<Hash>, b: seq<nat>, k: seq<Hash>, lo: nat, mid: nat, hi: nat)
    requires AreTxids(txids, a, m, lo, mid) && AreTxids(txids, b, k, mid, hi) && lo <= mid <= hi
    ensures AreTxids(txids, a + b, m + k, lo, hi)
  {
  }

  lemma LeafFirst(pos: nat)
    ensures First(pos, 0) == pos && First(pos + 1, 0) == pos + 1
  {
  }

  /** A subtree that reads as the block's own hash can only match the block's own txids. */
  lemma {:induction false} ReadSound(f: Pairing, txids: seq<Hash>, p: Partial, h: nat, pos: nat, bitsUsed: nat,
      hashUsed: nat)
    requires Injective(f) && pos < Width(|txids|, h)
    requires var r := Read(f, |txids|, p, h, pos, bitsUsed, hashUsed); !r.bad && r.hash == CalcHash(f, txids, h, pos)
    ensures AreTxids(txids, ReadAt(f, |txids|, p, h, pos, bitsUsed, hashUsed),
                     Read(f, |txids|, p, h, pos, bitsUsed, hashUsed).matches, First(pos, h), First(pos + 1, h))
    decreases h
  {
    hide First, Width, Pow2, Injective, CalcHash, AreTxids, Read, ReadAt;
    var n := |txids|;
    ReadWithin(f, n, p, h, pos, bitsUsed, hashUsed);
    if h == 0 || !p.bits[bitsUsed] {
      ReadLeaf(f, txids, p, h, pos, bitsUsed, hashUsed);
    } else {
      ReadInner(f, n, p, h, pos, bitsUsed, hashUsed);
      Children(f, txids, h, pos);
      Halves(pos, h);
      var left := Read(f, n, p, h - 1, 2 * pos, bitsUsed + 1, hashUsed);
      var at := ReadAt(f, n, p, h - 1, 2 * pos, bitsUsed + 1, hashUsed);
      if 2 * pos + 1 < Width(n, h - 1) {
        var right := Read(f, n, p, h - 1, 2 * pos + 1, left.bitsUsed, left.hashUsed);
        var at' := ReadAt(f, n, p, h - 1, 2 * pos + 1, left.bitsUsed, left.hashUsed);
        Unpair(f, left.hash, right.hash, CalcHash(f, txids, h - 1, 2 * pos), CalcHash(f, txids, h - 1, 2 * pos + 1));
        ReadSound(f, txids, p, h - 1, 2 * pos, bitsUsed + 1, hashUsed);
        ReadSound(f, txids, p, h - 1, 2 * pos + 1, left.bitsUsed, left.hashUsed);
        AreTxidsJoin(txids, at, left.matches, at', right.matches,
                     First(pos, h), First(2 * pos + 1, h - 1), First(pos + 1, h));
      } else {
        var c := CalcHash(f, txids, h - 1, 2 * pos);
        Unpair(f, left.hash, left.hash, c, c);
        ReadSound(f, txids, p, h - 1, 2 * pos, bitsUsed + 1, hashUsed);
        AreTxidsWiden(txids, at, left.matches, First(pos, h), First(2 * pos + 1, h - 1), First(pos + 1, h));
      }
    }
  }

  lemma {:induction false} ReadWithin(f: Pairing, n: nat, p: Partial, h: nat, pos: nat, bitsUsed: nat, hashUsed: nat)
    requires !Read(f, n, p, h, pos, bitsUsed, hashUsed).bad
    ensures bitsUsed < |p.bits|
  {
  }

  lemma {:induction false} ReadLeaf(f: Pairing, txids: seq<Hash>, p: Partial, h: nat, pos: nat, bitsUsed: nat,
      hashUsed: nat)
    requires pos < Width(|txids|, h) && bitsUsed < |p.bits| && (h == 0 || !p.bits[bitsUsed])
    requires var r := Read(f, |txids|, p, h, pos, bitsUsed, hashUsed); !r.bad && r.hash == CalcHash(f, txids, h, pos)
    ensures AreTxids(txids, ReadAt(f, |txids|, p, h, pos, bitsUsed, hashUsed),
                     Read(f, |txids|, p, h, pos, bitsUsed, hashUsed).matches, First(pos, h), First(pos + 1, h))
  {
    WidthMeans(|txids|, h, pos);
    LeafFirst(pos);
  }

  /** Reading a node whose bit is set is reading its children. */
  lemma ReadInner(f: Pairing, n: nat, p: Partial, h: nat, pos: nat, bitsUsed: nat, hashUsed: nat)
    requires h > 0 && bitsUsed < |p.bits| && p.bits[bitsUsed]
    ensures var r, at := Read(f, n, p, h, pos, bitsUsed, hashUsed), ReadAt(f, n, p, h, pos, bitsUsed, hashUsed);
      var left := Read(f, n, p, h - 1, 2 * pos, bitsUsed + 1, hashUsed);
      var leftAt := ReadAt(f, n, p, h - 1, 2 * pos, bitsUsed + 1, hashUsed);
      if 2 * pos + 1 < Width(n, h - 1) then
        var right := Read(f, n, p, h - 1, 2 * pos + 1, left.bitsUsed, left.hashUsed);
        && r == Extract(f(left.hash, right.hash), right.bitsUsed, right.hashUsed, left.matches + right.matches,
                        left.bad || right.bad || right.hash == left.hash)
        && at == leftAt + ReadAt(f, n, p, h - 1, 2 * pos + 1, left.bitsUsed, left.hashUsed)
      else r == left.(hash := f(left.hash, left.hash)) && at == leftAt
  {
  }

  lemma AreTxidsWiden(txids: seq<Hash>, a: seq<nat>, m: seq<Hash>, lo: nat, mid: nat, hi: nat)
    requires AreTxids(txids, a, m, lo, mid) && mid <= hi
    ensures AreTxids(txids, a, m, lo, hi)
  {
  }

  lemma Unpair(f: Pairing, a: Hash, b: Hash, c: Hash, d: Hash)
    requires Injective(f) && f(a, b) == f(c, d)
    ensures a == c && b == d
  {
  }

  /** An inner node's hash in terms of its children's. */
  lemma Children(f: Pairing, txids: seq<Hash>, h: nat, pos: nat)
    requires h > 0 && pos < Width(|txids|, h)
    ensures 2 * pos < Width(|txids|, h - 1)
    ensures CalcHash(f, txids, h, pos) ==
      var left := CalcHash(f, txids, h - 1, 2 * pos);
      f(left, if 2 * pos + 1 < Width(|txids|, h - 1) then CalcHash(f, txids, h - 1, 2 * pos + 1) else left)
    ensures 2 * pos + 1 < Width(|txids|, h - 1) <==> First(2 * pos + 1, h - 1) < |txids|
  {
    ChildWidth(|txids|, h, pos);
  }

  /**
   Whatever its bits and hashes, a partial tree that extracts to a block's root, not null, returns only txids of that
   block, in the block's order and each at most once.
   */
  lemma {:induction false} ExtractSound(f: Pairing, txids: seq<Hash>, p: Partial)
    requires Injective(f) && txids != [] && Width(|txids|, Height(|txids|)) == 1
    requires ExtractMatches(f, |txids|, p).0 == CalcHash(f, txids, Height(|txids|), 0) != 0
    ensures exists at :: AreTxids(txids, at, ExtractMatches(f, |txids|, p).1, 0, |txids|)
  {
    var h := Height(|txids|);
    ReadSound(f, txids, p, h, 0, 0, 0);
    var at := ReadAt(f, |txids|, p, h, 0, 0, 0);
    assert AreTxids(txids, at, ExtractMatches(f, |txids|, p).1, 0, |txids|);
  }

  // ---------------------------------------------------------------- reading what was built

  /** The matched txids from leaf `lo` up to `hi`. */
  function Matched(txids: seq<Hash>, mask: seq<bool>, lo: nat, hi: nat): seq<Hash>
    requires |mask| == |txids|
    decreases hi - lo
  {
    if lo >= hi || lo >= |txids| then []
    else (if mask[lo] then [txids[lo]] else []) + Matched(txids, mask, lo + 1, hi)
  }

  lemma {:induction false} MatchedNone(txids: seq<Hash>, mask: seq<bool>, lo: nat, hi: nat)
    requires |mask| == |txids| && !AnyMatch(mask, lo, hi)
    ensures Matched(txids, mask, lo, hi) == []
    decreases hi - lo
  {
    if lo < hi && lo < |txids| {
      MatchedNone(txids, mask, lo + 1, hi);
    }
  }

  lemma {:induction false} MatchedJoin(txids: seq<Hash>, mask: seq<bool>, lo: nat, mid: nat, hi: nat)
    requires |mask| == |txids| && lo <= mid <= hi
    ensures Matched(txids, mask, lo, hi) == Matched(txids, mask, lo, mid) + Matched(txids, mask, mid, hi)
    ensures AnyMatch(mask, lo, hi) == (AnyMatch(mask, lo, mid) || AnyMatch(mask, mid, hi))
    decreases mid - lo
  {
    if lo < mid && lo < |txids| {
      MatchedJoin(txids, mask, lo + 1, mid, hi);
    }
  }

  /** The bits and hashes of `b` stand in `p` from these places on. */
  ghost predicate StandsAt(p: Partial, b: Partial, bitsUsed: nat, hashUsed: nat) {
    && bitsUsed + |b.bits| <= |p.bits| && p.bits[bitsUsed..bitsUsed + |b.bits|] == b.bits
    && hashUsed + |b.hashes| <= |p.hashes| && p.hashes[hashUsed..hashUsed + |b.hashes|] == b.hashes
  }

  lemma StandsSplit(p: Partial, a: Partial, b: Partial, bitsUsed: nat, hashUsed: nat)
    requires StandsAt(p, Join(a, b), bitsUsed, hashUsed)
    ensures StandsAt(p, a, bitsUsed, hashUsed) && StandsAt(p, b, bitsUsed + |a.bits|, hashUsed + |a.hashes|)
  {
    var ab := Join(a, b);
    assert a.bits == ab.bits[..|a.bits|] && b.bits == ab.bits[|a.bits|..];
    assert a.hashes == ab.hashes[..|a.hashes|] && b.hashes == ab.hashes[|a.hashes|..];
  }

  /** What reading a built subtree gives. */
  ghost function Expected(f: Pairing, txids: seq<Hash>, mask: seq<bool>, h: nat, pos: nat, bitsUsed: nat,
      hashUsed: nat): Extract
    requires |mask| == |txids| && pos < Width(|txids|, h)
  {
    var b := Build(f, txids, mask, h, pos);
    Extract(CalcHash(f, txids, h, pos), bitsUsed + |b.bits|, hashUsed + |b.hashes|,
            Matched(txids, mask, First(pos, h), First(pos + 1, h)), false)
  }

  lemma {:induction false} ReadBuiltLeaf(f: Pairing, txids: seq<Hash>, mask: seq<bool>, p: Partial, h: nat, pos: nat,
      bitsUsed: nat, hashUsed: nat)
    requires |mask| == |txids| && pos < Width(|txids|, h) && (h == 0 || !ParentOfMatch(mask, h, pos))
    requires StandsAt(p, Build(f, txids, mask, h, pos), bitsUsed, hashUsed)
    ensures Read(f, |txids|, p, h, pos, bitsUsed, hashUsed) == Expected(f, txids, mask, h, pos, bitsUsed, hashUsed)
  {
    var b := Build(f, txids, mask, h, pos);
    assert p.bits[bitsUsed] == b.bits[0] && p.hashes[hashUsed] == b.hashes[0];
    WidthMeans(|txids|, h, pos);
    LeafFirst(pos);
    hide First, Width, Pow2;
    if h == 0 {
      assert Matched(txids, mask, pos + 1, pos + 1) == [];
      assert AnyMatch(mask, pos + 1, pos + 1) == false;
    } else {
      MatchedNone(txids, mask, First(pos, h), First(pos + 1, h));
    }
  }

  /** An inner node is built of its bit and its children. */
  lemma BuildInner(f: Pairing, txids: seq<Hash>, mask: seq<bool>, h: nat, pos: nat)
    requires |mask| == |txids| && pos < Width(|txids|, h) && h > 0 && ParentOfMatch(mask, h, pos)
    ensures 2 * pos < Width(|txids|, h - 1)
    ensures Build(f, txids, mask, h, pos) == Join(Partial([true], []),
      if 2 * pos + 1 < Width(|txids|, h - 1)
      then Join(Build(f, txids, mask, h - 1, 2 * pos), Build(f, txids, mask, h - 1, 2 * pos + 1))
      else Build(f, txids, mask, h - 1, 2 * pos))
  {
    ChildWidth(|txids|, h, pos);
  }

  lemma {:induction false} ReadBuilt(f: Pairing, txids: seq<Hash>, mask: seq<bool>, p: Partial, h: nat, pos: nat,
      bitsUsed: nat, hashUsed: nat)
    requires Injective(f) && Distinct(txids) && |mask| == |txids| && pos < Width(|txids|, h)
    requires StandsAt(p, Build(f, txids, mask, h, pos), bitsUsed, hashUsed)
    ensures Read(f, |txids|, p, h, pos, bitsUsed, hashUsed) == Expected(f, txids, mask, h, pos, bitsUsed, hashUsed)
    decreases h
  {
    hide Read, ReadAt, Build, CalcHash, Matched, Injective, Distinct, Width, Pow2, First, StandsAt, ParentOfMatch;
    var n := |txids|;
    if h == 0 || !ParentOfMatch(mask, h, pos) {
      ReadBuiltLeaf(f, txids, mask, p, h, pos, bitsUsed, hashUsed);
    } else {
      BuildInner(f, txids, mask, h, pos);
      Children(f, txids, h, pos);
      Halves(pos, h);
      MatchedJoin(txids, mask, First(pos, h), First(2 * pos + 1, h - 1), First(pos + 1, h));
      var l := Build(f, txids, mask, h - 1, 2 * pos);
      if 2 * pos + 1 < Width(n, h - 1) {
        var r := Build(f, txids, mask, h - 1, 2 * pos + 1);
        StandsSplit(p, Partial([true], []), Join(l, r), bitsUsed, hashUsed);
        StandsFirst(p, Partial([true], []), bitsUsed, hashUsed);
        ReadInner(f, n, p, h, pos, bitsUsed, hashUsed);
        StandsSplit(p, l, r, bitsUsed + 1, hashUsed);
        ReadBuilt(f, txids, mask, p, h - 1, 2 * pos, bitsUsed + 1, hashUsed);
        ReadBuilt(f, txids, mask, p, h - 1, 2 * pos + 1, bitsUsed + 1 + |l.bits|, hashUsed + |l.hashes|);
        SiblingsDiffer(f, txids, h - 1, 2 * pos, 2 * pos + 1);
      } else {
        StandsSplit(p, Partial([true], []), l, bitsUsed, hashUsed);
        StandsFirst(p, Partial([true], []), bitsUsed, hashUsed);
        ReadInner(f, n, p, h, pos, bitsUsed, hashUsed);
        ReadBuilt(f, txids, mask, p, h - 1, 2 * pos, bitsUsed + 1, hashUsed);
        MatchedBeyond(txids, mask, First(2 * pos + 1, h - 1), First(pos + 1, h));
      }
    }
  }

  lemma {:induction false} MatchedBeyond(txids: seq<Hash>, mask: seq<bool>, lo: nat, hi: nat)
    requires |mask| == |txids| && lo >= |txids|
    ensures Matched(txids, mask, lo, hi) == []
  {
  }

  lemma StandsFirst(p: Partial, b: Partial, bitsUsed: nat, hashUsed: nat)
    requires StandsAt(p, b, bitsUsed, hashUsed) && b.bits != []
    ensures bitsUsed < |p.bits| && p.bits[bitsUsed] == b.bits[0]
  {
  }

  /** A partial tree as it comes back from bytes: the same hashes, the bits padded within the last byte. */
  ghost predicate PaddedFrom(b: Partial, p: Partial) {
    p.hashes == b.hashes && b.bits <= p.bits && (|b.bits| + 7) / 8 == (|p.bits| + 7) / 8
  }

  /** Extraction inverts construction: the true root and exactly the matched txids in order, padded or not. */
  lemma {:induction false} ExtractBuilt(f: Pairing, txids: seq<Hash>, mask: seq<bool>, p: Partial)
    requires Injective(f) && Distinct(txids) && |mask| == |txids| && 0 < |txids| <= MAX_TRANSACTIONS
    requires Width(|txids|, Height(|txids|)) == 1
    requires PaddedFrom(Build(f, txids, mask, Height(|txids|), 0), p)
    ensures ExtractMatches(f, |txids|, p)
         == (CalcHash(f, txids, Height(|txids|), 0), Matched(txids, mask, 0, |txids|))
  {
    hide Read, Build, CalcHash, Matched, Injective, Distinct, Width, Pow2, First, Height;
    var n, h := |txids|, Height(|txids|);
    RootRange(n);
    BuildFits(f, txids, mask, h, 0);
    assert StandsAt(p, Build(f, txids, mask, h, 0), 0, 0);
    ReadBuilt(f, txids, mask, p, h, 0, 0, 0);
    MatchedJoin(txids, mask, 0, n, First(1, h));
    MatchedBeyond(txids, mask, n, First(1, h));
    assert Matched(txids, mask, 0, First(1, h)) == Matched(txids, mask, 0, n);
  }

  lemma RootRange(n: nat)
    requires n > 0
    ensures First(0, Height(n)) == 0 && First(1, Height(n)) >= n && Leaves(n, Height(n), 0) == n
  {
    RootWidth(n);
  }

  // ---------------------------------------------------------------- how much is stored

  /** The leaves under a node. */
  function Leaves(n: nat, h: nat, pos: nat): int {
    (if First(pos + 1, h) < n then First(pos + 1, h) else n) - First(pos, h)
  }

  /** At most one hash a leaf, at most one more than height times matches, and a bit for every hash. */
  lemma {:induction false} BuildSizes(f: Pairing, txids: seq<Hash>, mask: seq<bool>, h: nat, pos: nat)
    requires |mask| == |txids| && pos < Width(|txids|, h)
    ensures var b := Build(f, txids, mask, h, pos);
      var m := |Matched(txids, mask, First(pos, h), First(pos + 1, h))|;
      && 1 <= |b.hashes| <= Leaves(|txids|, h, pos)
      && |b.hashes| <= 1 + m * h
      && |b.hashes| <= |b.bits|
    decreases h
  {
    hide Matched, Build, Width, Pow2;
    var n := |txids|;
    WidthMeans(n, h, pos);
    if h == 0 || !ParentOfMatch(mask, h, pos) {
      BuildLeaf(f, txids, mask, h, pos);
      LeavesPositive(n, h, pos);
    } else {
      BuildInner(f, txids, mask, h, pos);
      Children(f, txids, h, pos);
      Halves(pos, h);
      var lo, mid, hi := First(pos, h), First(2 * pos + 1, h - 1), First(pos + 1, h);
      MatchedJoin(txids, mask, lo, mid, hi);
      MatchedSome(txids, mask, lo, hi);
      BuildSizes(f, txids, mask, h - 1, 2 * pos);
      var a := |Matched(txids, mask, lo, mid)|;
      hide First;
      if 2 * pos + 1 < Width(n, h - 1) {
        BuildSizes(f, txids, mask, h - 1, 2 * pos + 1);
        var b := |Matched(txids, mask, mid, hi)|;
        SizeStep(a, b, h);
      } else {
        MatchedBeyond(txids, mask, mid, hi);
        SizeStep(a, 0, h);
      }
    }
  }

  lemma {:induction false} BuildFits(f: Pairing, txids: seq<Hash>, mask: seq<bool>, h: nat, pos: nat)
    requires |mask| == |txids| && pos < Width(|txids|, h)
    ensures var b := Build(f, txids, mask, h, pos); 1 <= |b.hashes| <= Leaves(|txids|, h, pos) && |b.hashes| <= |b.bits|
  {
    BuildSizes(f, txids, mask, h, pos);
  }

  /** The stored hashes are at most one a transaction, and at most one more than matches times height. */
  lemma {:induction false} StoredHashes(f: Pairing, txids: seq<Hash>, mask: seq<bool>)
    requires |mask| == |txids| > 0 && Width(|txids|, Height(|txids|)) == 1
    ensures var b := Build(f, txids, mask, Height(|txids|), 0);
      |b.hashes| <= |txids| && |b.hashes| <= 1 + |Matched(txids, mask, 0, |txids|)| * Height(|txids|)
  {
    hide Build, Matched, Height, First, Leaves;
    var n, h := |txids|, Height(|txids|);
    RootRange(n);
    BuildSizes(f, txids, mask, h, 0);
    MatchedJoin(txids, mask, 0, n, First(1, h));
    MatchedBeyond(txids, mask, n, First(1, h));
    assert Matched(txids, mask, 0, First(1, h)) == Matched(txids, mask, 0, n);
  }

  lemma SizeStep(a: nat, b: nat, h: nat)
    requires h > 0 && a + b >= 1
    ensures (1 + a * (h - 1)) + (1 + b * (h - 1)) <= 1 + (a + b) * h
    ensures a >= 1 ==> 1 + a * (h - 1) <= 1 + a * h
  {
    assert a * (h - 1) == a * h - a && b * (h - 1) == b * h - b && (a + b) * h == a * h + b * h;
  }

  lemma {:induction false} BuildLeaf(f: Pairing, txids: seq<Hash>, mask: seq<bool>, h: nat, pos: nat)
    requires |mask| == |txids| && pos < Width(|txids|, h) && (h == 0 || !ParentOfMatch(mask, h, pos))
    ensures |Build(f, txids, mask, h, pos).hashes| == 1 && |Build(f, txids, mask, h, pos).bits| == 1
  {
  }

  lemma LeavesPositive(n: nat, h: nat, pos: nat)
    requires First(pos, h) < n
    ensures Leaves(n, h, pos) >= 1
  {
    FirstMono(pos, pos + 1, h);
  }

  lemma {:induction false} MatchedSome(txids: seq<Hash>, mask: seq<bool>, lo: nat, hi: nat)
    requires |mask| == |txids| && AnyMatch(mask, lo, hi)
    ensures |Matched(txids, mask, lo, hi)| >= 1
    decreases hi - lo
  {
    if !mask[lo] {
      MatchedSome(txids, mask, lo + 1, hi);
    }
  }

  /**
   Whether the last node of height `h` has a single child and is descended into. The format's comment allows
   2N - 1 bits for N hashes; every such node costs one more.
   */
  predicate LoneAt(n: nat, mask: seq<bool>, h: nat) {
    h > 0 && n > 0 && Width(n, h) > 0 && Width(n, h - 1) % 2 == 1 && ParentOfMatch(mask, h, Width(n, h) - 1)
  }

  function Lone(n: nat, mask: seq<bool>, h: nat): nat {
    if h == 0 then 0 else Lone(n, mask, h - 1) + if LoneAt(n, mask, h) then 1 else 0
  }

  /** The last node of a height and the last of the height below. */
  lemma LastChild(n: nat, h: nat)
    requires n > 0 && h > 0
    ensures Width(n, h) > 0 && Width(n, h - 1) > 0
    ensures Width(n, h - 1) == 2 * Width(n, h) || Width(n, h - 1) == 2 * Width(n, h) - 1
  {
    WidthMeans(n, h, 0);
    WidthMeans(n, h - 1, 0);
    var w := Width(n, h);
    WidthMeans(n, h, w);
    WidthMeans(n, h, w - 1);
    WidthMeans(n, h - 1, 2 * w);
    WidthMeans(n, h - 1, 2 * w - 2);
    Halves(w, h);
    Halves(w - 1, h);
  }

  /** Nothing matched under the last node of a height, nothing matched under the last nodes below it. */
  lemma {:induction false} NoLone(n: nat, mask: seq<bool>, h: nat)
    requires n == |mask| > 0 && Width(n, h) > 0 && !ParentOfMatch(mask, h, Width(n, h) - 1)
    ensures Lone(n, mask, h) == 0
  {
    if h > 0 {
      LastChild(n, h);
      var pos := Width(n, h) - 1;
      var last := Width(n, h - 1) - 1;
      Halves(pos, h);
      MatchedJoin(seq(n, _ => 0), mask, First(pos, h), First(2 * pos + 1, h - 1), First(pos + 1, h));
      NoLone(n, mask, h - 1);
    }
  }

  /** Exactly how many bits: 2N - 1 for N hashes, and one more for every single child descended into. */
  lemma {:induction false} BitCount(f: Pairing, txids: seq<Hash>, mask: seq<bool>, h: nat, pos: nat)
    requires |mask| == |txids| && pos < Width(|txids|, h)
    ensures var b := Build(f, txids, mask, h, pos);
      |b.bits| == 2 * |b.hashes| - 1 + if pos == Width(|txids|, h) - 1 then Lone(|txids|, mask, h) else 0
    decreases h
  {
    hide Build, Pow2, ParentOfMatch, Width, First, Leaves, LoneAt;
    var n := |txids|;
    SomeLeaf(n, h, pos);
    if h == 0 || !ParentOfMatch(mask, h, pos) {
      BuildLeaf(f, txids, mask, h, pos);
      if pos == Width(n, h) - 1 {
        NoLoneOrLeaf(n, mask, h);
      }
    } else {
      BuildInner(f, txids, mask, h, pos);
      LastChild(n, h);
      LoneMeans(n, mask, h);
      BuildFits(f, txids, mask, h - 1, 2 * pos);
      BitCount(f, txids, mask, h - 1, 2 * pos);
      if pos + 1 < Width(n, h) {
        NonLastChildren(n, h, pos);
      }
      if 2 * pos + 1 < Width(n, h - 1) {
        BuildFits(f, txids, mask, h - 1, 2 * pos + 1);
        BitCount(f, txids, mask, h - 1, 2 * pos + 1);
      }
    }
  }

  lemma SomeLeaf(n: nat, h: nat, pos: nat)
    requires pos < Width(n, h)
    ensures n > 0
  {
    WidthMeans(n, h, pos);
  }

  lemma {:induction false} NoLoneOrLeaf(n: nat, mask: seq<bool>, h: nat)
    requires n == |mask| > 0 && Width(n, h) > 0 && (h == 0 || !ParentOfMatch(mask, h, Width(n, h) - 1))
    ensures Lone(n, mask, h) == 0
  {
    if h > 0 {
      NoLone(n, mask, h);
    }
  }

  lemma LoneMeans(n: nat, mask: seq<bool>, h: nat)
    requires n > 0 && h > 0 && Width(n, h) > 0
    ensures LoneAt(n, mask, h) <==> Width(n, h - 1) % 2 == 1 && ParentOfMatch(mask, h, Width(n, h) - 1)
  {
  }

  lemma NonLastChildren(n: nat, h: nat, pos: nat)
    requires h > 0 && pos + 1 < Width(n, h)
    ensures 2 * pos + 2 < Width(n, h - 1)
  {
    ChildWidth(n, h, pos + 1);
  }

  /** The bound of the format's comment, 2N - 1 bits, holds exactly when no single child is descended into. */
  lemma {:induction false} BitBound(f: Pairing, txids: seq<Hash>, mask: seq<bool>)
    requires |mask| == |txids| > 0 && Width(|txids|, Height(|txids|)) == 1
    ensures var b := Build(f, txids, mask, Height(|txids|), 0);
      |b.bits| <= 2 * |b.hashes| - 1 <==> forall h :: 0 < h <= Height(|txids|) ==> !LoneAt(|txids|, mask, h)
  {
    BitCount(f, txids, mask, Height(|txids|), 0);
    LoneZero(|txids|, mask, Height(|txids|));
  }

  lemma {:induction false} LoneZero(n: nat, mask: seq<bool>, h: nat)
    ensures Lone(n, mask, h) == 0 <==> forall k :: 0 < k <= h ==> !LoneAt(n, mask, k)
  {
    hide LoneAt;
    if h > 0 {
      LoneZero(n, mask, h - 1);
    }
  }

  lemma SmallTree(mask: seq<bool>)
    requires mask == [false, false, true]
    ensures Width(3, 0) == 3 && Width(3, 1) == 2 && Width(3, 2) == 1
    ensures ParentOfMatch(mask, 2, 0) && !ParentOfMatch(mask, 1, 0) && ParentOfMatch(mask, 1, 1)
      && ParentOfMatch(mask, 0, 2)
  {
    assert Pow2(0) == 1 && Pow2(1) == 2 && Pow2(2) == 4;
    assert !AnyMatch(mask, 2, 2) && !AnyMatch(mask, 1, 2) && !AnyMatch(mask, 0, 2);
    assert AnyMatch(mask, 2, 4) && AnyMatch(mask, 1, 4) && AnyMatch(mask, 0, 4);
    assert AnyMatch(mask, 2, 3);
  }

  lemma {:induction false} BuildLeafOrUnmatched(f: Pairing, txids: seq<Hash>, mask: seq<bool>, h: nat, pos: nat)
    requires |mask| == |txids| && pos < Width(|txids|, h) && (h == 0 || !ParentOfMatch(mask, h, pos))
    ensures Build(f, txids, mask, h, pos) == Partial([ParentOfMatch(mask, h, pos)], [CalcHash(f, txids, h, pos)])
  {
  }

  /** Three transactions, the last matched: four bits for two hashes. */
  lemma BitBoundFails(f: Pairing, a: Hash, b: Hash, c: Hash)
    ensures Width(3, 2) == 1 && Build(f, [a, b, c], [false, false, true], 2, 0).bits == [true, false, true, true]
    ensures |Build(f, [a, b, c], [false, false, true], 2, 0).hashes| == 2
  {
    hide Build, ParentOfMatch, Width, CalcHash;
    var txids, mask := [a, b, c], [false, false, true];
    SmallTree(mask);
    BuildInner(f, txids, mask, 2, 0);
    BuildInner(f, txids, mask, 1, 1);
    BuildLeafOrUnmatched(f, txids, mask, 1, 0);
    BuildLeafOrUnmatched(f, txids, mask, 0, 2);
  }
}
