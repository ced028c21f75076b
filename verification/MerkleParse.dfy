/**
 Which bytes a partial Merkle tree may be received as: exactly those that spell out a pruned tree of the shape of the
 block, with nothing left over but the padding of the last byte.
 */
module MerkleParse {
  import opened MerkleTree

  /** A tree with subtrees cut off: a stored hash, two children, or the single child at the right edge. */
  datatype Pruned = Stub(hash: Hash, flag: bool) | Fork(left: Pruned, right: Pruned) | Edge(child: Pruned)

  /** The tree has the shape of the subtree at `pos` of height `h` over `n` leaves; only leaves can be flagged. */
  predicate Shaped(t: Pruned, n: nat, h: nat, pos: nat) {
    match t
    case Stub(_, flag) => h > 0 ==> !flag
    case Fork(l, r) =>
      && h > 0 && 2 * pos + 1 < Width(n, h - 1)
      && Shaped(l, n, h - 1, 2 * pos) && Shaped(r, n, h - 1, 2 * pos + 1)
    case Edge(c) => h > 0 && 2 * pos + 1 >= Width(n, h - 1) && Shaped(c, n, h - 1, 2 * pos)
  }

  function RootOf(f: Pairing, t: Pruned): Hash {
    match t
    case Stub(hash, _) => hash
    case Fork(l, r) => f(RootOf(f, l), RootOf(f, r))
    case Edge(c) => f(RootOf(f, c), RootOf(f, c))
  }

  /** No two siblings have the same hash. */
  predicate NoTwins(f: Pairing, t: Pruned) {
    match t
    case Stub(_, _) => true
    case Fork(l, r) => RootOf(f, l) != RootOf(f, r) && NoTwins(f, l) && NoTwins(f, r)
    case Edge(c) => NoTwins(f, c)
  }

  /** The hashes of the flagged leaves. */
  function Flagged(t: Pruned): seq<Hash> {
    match t
    case Stub(hash, flag) => if flag then [hash] else []
    case Fork(l, r) => Flagged(l) + Flagged(r)
    case Edge(c) => Flagged(c)
  }

  /** The tree in depth-first order: a bit for every node, a hash for every stub. */
  function Spelled(t: Pruned): Partial {
    match t
    case Stub(hash, flag) => Partial([flag], [hash])
    case Fork(l, r) => Join(Partial([true], []), Join(Spelled(l), Spelled(r)))
    case Edge(c) => Join(Partial([true], []), Spelled(c))
  }

  // ---------------------------------------------------------------- reading is parsing

  /** What stands at a place is read as the tree it spells out. */
  lemma {:induction false} ReadSpelled(f: Pairing, n: nat, p: Partial, t: Pruned, h: nat, pos: nat, b: nat, k: nat)
    requires Shaped(t, n, h, pos) && NoTwins(f, t) && StandsAt(p, Spelled(t), b, k)
    ensures Read(f, n, p, h, pos, b, k) ==
      Extract(RootOf(f, t), b + |Spelled(t).bits|, k + |Spelled(t).hashes|, Flagged(t), false)
    decreases t
  {
    hide Read, Width, StandsAt, Join;
    ReadLeafAt(f, n, p, h, pos, b, k);
    match t
    case Stub(hash, flag) =>
      StubStands(p, hash, flag, b, k);
    case Fork(l, r) =>
      BranchStands(p, Join(Spelled(l), Spelled(r)), b, k);
      JoinSizes(Spelled(l), Spelled(r));
      ReadInnerAt(f, n, p, h, pos, b, k);
      StandsSplit(p, Spelled(l), Spelled(r), b + 1, k);
      ReadSpelled(f, n, p, l, h - 1, 2 * pos, b + 1, k);
      ReadSpelled(f, n, p, r, h - 1, 2 * pos + 1, b + 1 + |Spelled(l).bits|, k + |Spelled(l).hashes|);
    case Edge(c) =>
      BranchStands(p, Spelled(c), b, k);
      ReadInnerAt(f, n, p, h, pos, b, k);
      ReadSpelled(f, n, p, c, h - 1, 2 * pos, b + 1, k);
  }

  lemma StubStands(p: Partial, hash: Hash, flag: bool, b: nat, k: nat)
    ensures StandsAt(p, Partial([flag], [hash]), b, k) <==>
      b < |p.bits| && p.bits[b] == flag && k < |p.hashes| && p.hashes[k] == hash
  {
    if b < |p.bits| && k < |p.hashes| {
      assert p.bits[b..b + 1] == [p.bits[b]] && p.hashes[k..k + 1] == [p.hashes[k]];
    }
  }

  /** A branch's own bit, and what follows it. */
  lemma BranchStands(p: Partial, y: Partial, b: nat, k: nat)
    ensures var x := Join(Partial([true], []), y); |x.bits| == 1 + |y.bits| && |x.hashes| == |y.hashes|
    ensures StandsAt(p, Join(Partial([true], []), y), b, k) <==>
      b < |p.bits| && p.bits[b] && StandsAt(p, y, b + 1, k)
  {
    var x := Join(Partial([true], []), y);
    assert x.hashes == y.hashes;
    if b + 1 + |y.bits| <= |p.bits| {
      var all := p.bits[b..b + 1 + |y.bits|];
      assert all == [p.bits[b]] + p.bits[b + 1..b + 1 + |y.bits|];
      assert all == x.bits ==> all[0] == true && all[1..] == y.bits;
    }
  }

  lemma JoinSizes(x: Partial, y: Partial)
    ensures |Join(x, y).bits| == |x.bits| + |y.bits| && |Join(x, y).hashes| == |x.hashes| + |y.hashes|
  {
  }

  /** Whatever is read without failure spells out a tree. */
  lemma {:induction false} ReadIsSpelled(f: Pairing, n: nat, p: Partial, h: nat, pos: nat, b: nat, k: nat)
    returns (t: Pruned)
    requires !Read(f, n, p, h, pos, b, k).bad
    ensures Shaped(t, n, h, pos) && NoTwins(f, t) && StandsAt(p, Spelled(t), b, k)
    decreases h
  {
    hide Read, Width, StandsAt, Join, Spelled;
    ReadLeafAt(f, n, p, h, pos, b, k);
    if h == 0 || !p.bits[b] {
      t := Stub(p.hashes[k], p.bits[b]);
      SpelledStub(t);
      StubStands(p, p.hashes[k], p.bits[b], b, k);
    } else {
      ReadInnerAt(f, n, p, h, pos, b, k);
      var l := ReadIsSpelled(f, n, p, h - 1, 2 * pos, b + 1, k);
      ReadSpelled(f, n, p, l, h - 1, 2 * pos, b + 1, k);
      if 2 * pos + 1 < Width(n, h - 1) {
        var b', k' := b + 1 + |Spelled(l).bits|, k + |Spelled(l).hashes|;
        var r := ReadIsSpelled(f, n, p, h - 1, 2 * pos + 1, b', k');
        ReadSpelled(f, n, p, r, h - 1, 2 * pos + 1, b', k');
        t := Fork(l, r);
        SpelledFork(l, r);
        StandsJoin(p, Spelled(l), Spelled(r), b + 1, k);
        BranchStands(p, Join(Spelled(l), Spelled(r)), b, k);
      } else {
        t := Edge(l);
        SpelledEdge(l);
        BranchStands(p, Spelled(l), b, k);
      }
    }
  }

  lemma {:induction false} SpelledStub(t: Pruned)
    requires t.Stub?
    ensures Spelled(t) == Partial([t.flag], [t.hash])
  {
  }

  lemma {:induction false} SpelledFork(l: Pruned, r: Pruned)
    ensures Spelled(Fork(l, r)) == Join(Partial([true], []), Join(Spelled(l), Spelled(r)))
  {
    hide Join;
  }

  lemma {:induction false} SpelledEdge(c: Pruned)
    ensures Spelled(Edge(c)) == Join(Partial([true], []), Spelled(c))
  {
    hide Join;
  }

  lemma StandsJoin(p: Partial, x: Partial, y: Partial, b: nat, k: nat)
    requires StandsAt(p, x, b, k) && StandsAt(p, y, b + |x.bits|, k + |x.hashes|)
    ensures StandsAt(p, Join(x, y), b, k)
  {
    var z := Join(x, y);
    assert p.bits[b..b + |z.bits|] == p.bits[b..b + |x.bits|] + p.bits[b + |x.bits|..b + |z.bits|];
    assert p.hashes[k..k + |z.hashes|] == p.hashes[k..k + |x.hashes|] + p.hashes[k + |x.hashes|..k + |z.hashes|];
  }

  // ---------------------------------------------------------------- what is accepted

  /** A pruned tree has no more hashes than leaves below it, and no more than bits. */
  lemma {:induction false} SpelledSizes(t: Pruned, n: nat, h: nat, pos: nat)
    requires Shaped(t, n, h, pos) && pos < Width(n, h)
    ensures 0 < |Spelled(t).hashes| <= Leaves(n, h, pos) && |Spelled(t).hashes| <= |Spelled(t).bits|
    decreases t
  {
    hide Width, Leaves;
    WidthMeans(n, h, pos);
    LeavesPositive(n, h, pos);
    match t
    case Stub(_, _) =>
    case Fork(l, r) =>
      ChildWidth(n, h, pos);
      LeavesSplit(n, h, pos);
      SpelledSizes(l, n, h - 1, 2 * pos);
      SpelledSizes(r, n, h - 1, 2 * pos + 1);
    case Edge(c) =>
      ChildWidth(n, h, pos);
      LeavesSplit(n, h, pos);
      SpelledSizes(c, n, h - 1, 2 * pos);
  }

  lemma LeavesSplit(n: nat, h: nat, pos: nat)
    requires h > 0 && pos < Width(n, h)
    ensures Leaves(n, h, pos) == Leaves(n, h - 1, 2 * pos) +
      if 2 * pos + 1 < Width(n, h - 1) then Leaves(n, h - 1, 2 * pos + 1) else 0
  {
    hide Width, First;
    ChildWidth(n, h, pos);
    Halves(pos, h);
  }

  function Bytes(bits: seq<bool>): nat {
    (|bits| + 7) / 8
  }

  /** The tree spells out these hashes and bits, but for the padding of the last byte. */
  ghost predicate SpellsOut(f: Pairing, n: nat, p: Partial, t: Pruned) {
    && Shaped(t, n, Height(n), 0) && NoTwins(f, t)
    && p.hashes == Spelled(t).hashes
    && Spelled(t).bits <= p.bits && Bytes(Spelled(t).bits) == Bytes(p.bits)
  }

  /** A received tree gives a root exactly if it spells out a pruned tree over 1 to 33333 leaves with that root. */
  lemma {:induction false} ExtractExactly(f: Pairing, n: nat, p: Partial, root: Hash, matches: seq<Hash>)
    requires root != 0
    ensures ExtractMatches(f, n, p) == (root, matches) <==>
      && 0 < n <= 33333
      && exists t :: SpellsOut(f, n, p, t) && RootOf(f, t) == root && Flagged(t) == matches
  {
    hide Read, Height, Shaped, NoTwins, RootOf, Flagged, Spelled;
    if ExtractMatches(f, n, p) == (root, matches) {
      var t := ReadIsSpelled(f, n, p, Height(n), 0, 0, 0);
      ReadSpelled(f, n, p, t, Height(n), 0, 0, 0);
      StandsWhole(p, Spelled(t));
      assert SpellsOut(f, n, p, t);
    }
    if 0 < n <= 33333 {
      forall t | SpellsOut(f, n, p, t) && RootOf(f, t) == root && Flagged(t) == matches
        ensures ExtractMatches(f, n, p) == (root, matches)
      {
        RootRange(n);
        SpelledSizes(t, n, Height(n), 0);
        StandsWhole(p, Spelled(t));
        ReadSpelled(f, n, p, t, Height(n), 0, 0, 0);
      }
    }
  }

  lemma StandsWhole(p: Partial, x: Partial)
    ensures x.bits <= p.bits && x.hashes == p.hashes ==> StandsAt(p, x, 0, 0)
    ensures StandsAt(p, x, 0, 0) ==> x.bits <= p.bits && (|x.hashes| == |p.hashes| ==> x.hashes == p.hashes)
  {
  }

  /** Of two received trees of which one continues the other, only such give a root that differ in padding. */
  lemma {:induction false} LeftoversRefused(f: Pairing, n: nat, p: Partial, q: Partial)
    requires p.bits <= q.bits && p.hashes <= q.hashes
    requires ExtractMatches(f, n, p).0 != 0 && ExtractMatches(f, n, q).0 != 0
    ensures p.hashes == q.hashes && Bytes(p.bits) == Bytes(q.bits) && ExtractMatches(f, n, p) == ExtractMatches(f, n, q)
  {
    hide Read, Height, Shaped, NoTwins, RootOf, Flagged, Spelled;
    var t := ReadIsSpelled(f, n, p, Height(n), 0, 0, 0);
    ReadSpelled(f, n, p, t, Height(n), 0, 0, 0);
    StandsLonger(p, q, Spelled(t));
    ReadSpelled(f, n, q, t, Height(n), 0, 0, 0);
  }

  lemma StandsLonger(p: Partial, q: Partial, x: Partial)
    requires p.bits <= q.bits && p.hashes <= q.hashes && StandsAt(p, x, 0, 0)
    ensures StandsAt(q, x, 0, 0)
  {
  }

  /** With one hash too many, nothing is extracted. */
  lemma {:induction false} OneHashTooMany(f: Pairing, n: nat, p: Partial, x: Hash)
    requires ExtractMatches(f, n, p).0 != 0
    ensures ExtractMatches(f, n, Partial(p.bits, p.hashes + [x])).0 == 0
  {
    hide ExtractMatches;
    if ExtractMatches(f, n, Partial(p.bits, p.hashes + [x])).0 != 0 {
      LeftoversRefused(f, n, p, Partial(p.bits, p.hashes + [x]));
      assert false;
    }
  }

  /** With one byte of flags too many, nothing is extracted. */
  lemma {:induction false} OneByteTooMany(f: Pairing, n: nat, p: Partial, bits: seq<bool>)
    requires ExtractMatches(f, n, p).0 != 0 && |bits| == 8
    ensures ExtractMatches(f, n, Partial(p.bits + bits, p.hashes)).0 == 0
  {
    hide ExtractMatches;
    if ExtractMatches(f, n, Partial(p.bits + bits, p.hashes)).0 != 0 {
      LeftoversRefused(f, n, p, Partial(p.bits + bits, p.hashes));
      assert false;
    }
  }
}
