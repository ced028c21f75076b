/**
 The Merkle tree of a whole block, level by level, its branches, and the root they share with the partial trees; and
 what the test for repeated hashes at the end of a level rules out.
 */
module MerkleRoot {
  import opened MerkleTree

  /** The level above: pairs are hashed, and a last one without a partner with itself. */
  function Above(f: Pairing, s: seq<Hash>): (r: seq<Hash>)
    ensures |r| == (|s| + 1) / 2
  {
    seq((|s| + 1) / 2, i requires 0 <= i < (|s| + 1) / 2 =>
      f(s[2 * i], s[if 2 * i + 1 < |s| then 2 * i + 1 else |s| - 1]))
  }

  /** All levels below the root, one after the other, and the root. */
  function Levels(f: Pairing, s: seq<Hash>): seq<Hash>
    decreases |s|
  {
    if |s| <= 1 then s else s + Levels(f, Above(f, s))
  }

  function RootOf(f: Pairing, s: seq<Hash>): Hash
    decreases |s|
  {
    if |s| == 0 then 0 else if |s| == 1 then s[0] else RootOf(f, Above(f, s))
  }

  /** Some level ends in two identical hashes. */
  predicate Mutated(f: Pairing, s: seq<Hash>)
    decreases |s|
  {
    |s| > 1 && (EndsTwice(s) || Mutated(f, Above(f, s)))
  }

  predicate EndsTwice(s: seq<Hash>) {
    |s| > 1 && |s| % 2 == 0 && s[|s| - 2] == s[|s| - 1]
  }

  // ---------------------------------------------------------------- the code

  /** The inner loop: the level above the last one is appended. */
  method AddLevel(f: Pairing, tree: seq<Hash>, j: nat) returns (r: seq<Hash>, twice: bool)
    requires j <= |tree|
    ensures r == tree + Above(f, tree[j..]) && twice == EndsTwice(tree[j..])
  {
    hide Above;
    r, twice := tree, false;
    ghost var level := tree[j..];
    var size := |tree| - j;
    var i := 0;
    AboveNone(f, level);
    while i < size
      invariant 0 <= i <= size + 1 && i % 2 == 0
      invariant r == tree + Above(f, level)[..i / 2]
      invariant twice <==> i >= size && EndsTwice(level)
    {
      AboveAt(f, level, i / 2);
      var i2 := if i + 1 < size - 1 then i + 1 else size - 1;
      assert r[j + i] == level[i] && r[j + i2] == level[i2];
      if i2 == i + 1 && i2 + 1 == size && r[j + i] == r[j + i2] {
        twice := true;
      }
      r := r + [f(r[j + i], r[j + i2])];
      i := i + 2;
    }
    assert Above(f, level)[..i / 2] == Above(f, level);
  }

  /** All levels in one vector, and whether a level ended in two identical hashes. */
  method BuildMerkleTree(f: Pairing, txids: seq<Hash>) returns (tree: seq<Hash>, root: Hash, mutated: bool)
    ensures tree == Levels(f, txids) && root == RootOf(f, txids) && mutated == Mutated(f, txids)
  {
    hide Levels, RootOf, Mutated, Above, EndsTwice;
    tree := txids;
    mutated := false;
    var j, size := 0, |txids|;
    while size > 1
      invariant 0 <= j && 0 <= size && j + size == |tree| && (size == 0 ==> j == 0)
      invariant tree[..j] + Levels(f, tree[j..]) == Levels(f, txids) && RootOf(f, tree[j..]) == RootOf(f, txids)
      invariant mutated || Mutated(f, tree[j..]) <==> Mutated(f, txids)
      decreases size
    {
      ghost var was, level := tree, tree[j..];
      LevelStep(f, level);
      var twice;
      tree, twice := AddLevel(f, tree, j);
      mutated := mutated || twice;
      j := j + size;
      size := (size + 1) / 2;
      assert tree[..j] == was && tree[j..] == Above(f, level);
      assert was == was[..j - |level|] + level;
    }
    LastLevel(f, tree[j..]);
    assert tree == tree[..j] + tree[j..];
    root := if tree == [] then 0 else tree[|tree| - 1];
  }

  lemma AboveNone(f: Pairing, s: seq<Hash>)
    ensures |Above(f, s)| == (|s| + 1) / 2 && Above(f, s)[..0] == []
  {
  }

  lemma {:induction false} LevelStep(f: Pairing, s: seq<Hash>)
    requires |s| > 1
    ensures Levels(f, s) == s + Levels(f, Above(f, s)) && RootOf(f, s) == RootOf(f, Above(f, s))
    ensures Mutated(f, s) <==> EndsTwice(s) || Mutated(f, Above(f, s))
    ensures |Above(f, s)| == (|s| + 1) / 2
  {
  }

  lemma {:induction false} LastLevel(f: Pairing, s: seq<Hash>)
    requires |s| <= 1
    ensures Levels(f, s) == s && RootOf(f, s) == (if s == [] then 0 else s[0]) && !Mutated(f, s)
  {
  }

  lemma AboveAt(f: Pairing, s: seq<Hash>, i: nat)
    requires 2 * i < |s|
    ensures |Above(f, s)| == (|s| + 1) / 2 > i
    ensures Above(f, s)[i] == f(s[2 * i], s[if 2 * i + 1 < |s| then 2 * i + 1 else |s| - 1])
    ensures Above(f, s)[..i + 1] == Above(f, s)[..i] + [Above(f, s)[i]]
  {
  }

  // ---------------------------------------------------------------- branches

  /** The other of a pair; the last without a partner is its own. */
  function Partner(n: nat, i: nat): (k: nat)
    requires i < n
    ensures k < n
  {
    if i % 2 == 1 then i - 1 else if i + 1 < n then i + 1 else i
  }

  /** The hashes that lead from a leaf to the root. */
  function Branch(f: Pairing, s: seq<Hash>, i: nat): seq<Hash>
    requires i < |s|
    decreases |s|
  {
    if |s| == 1 then [] else [s[Partner(|s|, i)]] + Branch(f, Above(f, s), i / 2)
  }

  /** The root that a leaf and a branch lead to. */
  function Climb(f: Pairing, hash: Hash, branch: seq<Hash>, i: nat): Hash
    decreases |branch|
  {
    if branch == [] then hash
    else Climb(f, if i % 2 == 1 then f(branch[0], hash) else f(hash, branch[0]), branch[1..], i / 2)
  }

  method GetMerkleBranch(f: Pairing, txids: seq<Hash>, index: nat) returns (branch: seq<Hash>)
    requires index < |txids|
    ensures branch == Branch(f, txids, index)
  {
    hide Levels, RootOf, Mutated, Above, Branch;
    var tree, root, mutated := BuildMerkleTree(f, txids);
    branch := [];
    var j: nat, size, i: nat := 0, |txids|, index;
    ghost var level := txids;
    LevelsLonger(f, txids);
    assert tree[0..] == tree;
    while size > 1
      invariant size == |level| && i < size && j + size <= |tree| && tree[j..] == Levels(f, level)
      invariant branch + Branch(f, level, i) == Branch(f, txids, index)
      decreases size
    {
      LevelStep(f, level);
      BranchStep(f, level, i);
      var k := Partner(size, i);
      assert tree[j + k] == tree[j..][k] == level[k];
      branch := branch + [tree[j + k]];
      assert tree[j + size..] == tree[j..][size..] == Levels(f, Above(f, level));
      LevelsLonger(f, Above(f, level));
      i := i / 2;
      j := j + size;
      size := (size + 1) / 2;
      level := Above(f, level);
    }
    BranchEnds(f, level, i);
  }

  lemma {:induction false} LevelsLonger(f: Pairing, s: seq<Hash>)
    ensures |s| <= |Levels(f, s)|
  {
  }

  lemma {:induction false} BranchStep(f: Pairing, s: seq<Hash>, i: nat)
    requires i < |s| && |s| > 1
    ensures i / 2 < |Above(f, s)| && Branch(f, s, i) == [s[Partner(|s|, i)]] + Branch(f, Above(f, s), i / 2)
  {
  }

  lemma {:induction false} BranchEnds(f: Pairing, s: seq<Hash>, i: nat)
    requires i < |s| && |s| <= 1
    ensures Branch(f, s, i) == []
  {
  }

  /** The index -1 stands for a transaction that is in no block. */
  method CheckMerkleBranch(f: Pairing, hash: Hash, branch: seq<Hash>, index: int) returns (root: Hash)
    requires index >= -1
    ensures root == if index == -1 then 0 else Climb(f, hash, branch, index)
  {
    if index == -1 {
      return 0;
    }
    root := hash;
    var i: nat := index;
    for k := 0 to |branch|
      invariant Climb(f, root, branch[k..], i) == Climb(f, hash, branch, index)
    {
      assert branch[k..][0] == branch[k] && branch[k..][1..] == branch[k + 1..];
      root := if i % 2 == 1 then f(branch[k], root) else f(root, branch[k]);
      i := i / 2;
    }
  }

  /** The branch of a transaction leads from it to the root. */
  lemma {:induction false} BranchLeads(f: Pairing, s: seq<Hash>, i: nat)
    requires i < |s|
    ensures Climb(f, s[i], Branch(f, s, i), i) == RootOf(f, s)
    decreases |s|
  {
    hide Above;
    if |s| > 1 {
      AboveAt(f, s, i / 2);
      BranchLeads(f, Above(f, s), i / 2);
      PairOf(f, s, i);
      var b := Branch(f, Above(f, s), i / 2);
      assert ([s[Partner(|s|, i)]] + b)[1..] == b;
    }
  }

  lemma PairOf(f: Pairing, s: seq<Hash>, i: nat)
    requires i < |s| && |s| > 1
    ensures var k := Partner(|s|, i);
      i / 2 < |Above(f, s)| && Above(f, s)[i / 2] == if i % 2 == 1 then f(s[k], s[i]) else f(s[i], s[k])
  {
  }

  /** A branch of the right length leads to the root only from the transaction at its index. */
  lemma {:induction false} BranchProves(f: Pairing, s: seq<Hash>, i: nat, x: Hash, b: seq<Hash>)
    requires Injective(f) && i < |s| && |b| == |Branch(f, s, i)| && Climb(f, x, b, i) == RootOf(f, s)
    ensures x == s[i] && b == Branch(f, s, i)
    decreases |s|
  {
    hide Above;
    if |s| > 1 {
      AboveAt(f, s, i / 2);
      PairOf(f, s, i);
      var y := if i % 2 == 1 then f(b[0], x) else f(x, b[0]);
      BranchProves(f, Above(f, s), i / 2, y, b[1..]);
      assert b == [b[0]] + b[1..];
    }
  }

  // ---------------------------------------------------------------- the same root as partial trees

  /** The level at height `h`. */
  function At(f: Pairing, s: seq<Hash>, h: nat): seq<Hash> {
    if h == 0 then s else Above(f, At(f, s, h - 1))
  }

  lemma HalfWidth(n: nat, h: nat)
    ensures Width(n, 0) == n && Width(n, h + 1) == (Width(n, h) + 1) / 2
  {
    WidthZero(n);
    if n > 0 {
      LastChild(n, h + 1);
    } else {
      WidthMeans(0, h, 0);
      WidthMeans(0, h + 1, 0);
    }
  }

  lemma WidthZero(n: nat)
    ensures Width(n, 0) == n
  {
    WidthMeans(n, 0, n);
    if n > 0 {
      WidthMeans(n, 0, n - 1);
    }
  }

  /** Each level holds the hashes of the nodes of that height. */
  lemma {:induction false} LevelIsNodes(f: Pairing, s: seq<Hash>, h: nat)
    ensures |At(f, s, h)| == Width(|s|, h)
    ensures forall pos :: 0 <= pos < Width(|s|, h) ==> At(f, s, h)[pos] == CalcHash(f, s, h, pos)
  {
    hide Width, Above;
    HalfWidth(|s|, if h == 0 then 0 else h - 1);
    if h > 0 {
      LevelIsNodes(f, s, h - 1);
      var below := At(f, s, h - 1);
      forall pos | 0 <= pos < Width(|s|, h)
        ensures pos < |At(f, s, h)| && At(f, s, h)[pos] == CalcHash(f, s, h, pos)
      {
        Children(f, s, h, pos);
        AboveAt(f, below, pos);
      }
    }
  }

  lemma {:induction false} RootOfLevel(f: Pairing, s: seq<Hash>, h: nat)
    requires forall k :: 0 <= k < h ==> |At(f, s, k)| > 1
    ensures RootOf(f, At(f, s, h)) == RootOf(f, s)
  {
    hide Above;
    if h > 0 {
      RootOfLevel(f, s, h - 1);
    }
  }

  /** The root of a block is the root of its partial trees. */
  lemma {:induction false} SameRoot(f: Pairing, txids: seq<Hash>)
    requires txids != []
    ensures Width(|txids|, Height(|txids|)) == 1
    ensures RootOf(f, txids) == CalcHash(f, txids, Height(|txids|), 0)
  {
    hide Width, At, CalcHash;
    var h := Height(|txids|);
    RootWidth(|txids|);
    forall k | 0 <= k < h
      ensures |At(f, txids, k)| > 1
    {
      LevelIsNodes(f, txids, k);
    }
    RootOfLevel(f, txids, h);
    LevelIsNodes(f, txids, h);
  }

  // ---------------------------------------------------------------- repeated transactions

  /** With the same level above, the shorter list differs at most by a last one that is not repeated. */
  lemma AbovePairs(f: Pairing, a: seq<Hash>, b: seq<Hash>)
    requires Injective(f) && Above(f, a) == Above(f, b) && |b| <= |a|
    ensures |a| <= |b| + 1 && forall i :: 0 <= i < |b| ==> a[i] == b[i]
    ensures |b| < |a| ==> EndsTwice(a)
  {
    hide Above;
    AboveNone(f, a);
    AboveNone(f, b);
    forall i | 0 <= i < |b|
      ensures a[i] == b[i]
    {
      AboveAt(f, a, i / 2);
      AboveAt(f, b, i / 2);
      assert i == 2 * (i / 2) || i == 2 * (i / 2) + 1;
    }
    if |b| < |a| {
      AboveAt(f, a, |b| / 2);
      AboveAt(f, b, |b| / 2);
    }
  }

  /** The number of levels above the leaves. */
  function Depth(n: nat): nat {
    if n <= 1 then 0 else 1 + Depth((n + 1) / 2)
  }

  /**
   A list of transactions that no level of which ends in two identical hashes has another root than every other list
   of at most its length whose tree has the same height.
   */
  lemma {:induction false} RootDetermines(f: Pairing, a: seq<Hash>, b: seq<Hash>)
    requires Injective(f) && RootOf(f, a) == RootOf(f, b) && !Mutated(f, a)
    requires 0 < |b| <= |a| && Depth(|a|) == Depth(|b|)
    ensures a == b
    decreases |a|
  {
    hide Above;
    if |a| > 1 {
      AboveNone(f, a);
      AboveNone(f, b);
      RootDetermines(f, Above(f, a), Above(f, b));
      AbovePairs(f, a, b);
    }
  }

  /** The two lists of six and of eight transactions that have the same root, whatever the hash. */
  lemma RepeatedTail(f: Pairing, a: Hash, b: Hash, c: Hash, d: Hash, x: Hash, y: Hash)
    ensures var s, t := [a, b, c, d, x, y], [a, b, c, d, x, y, x, y];
      RootOf(f, s) == RootOf(f, t) && Depth(|s|) == Depth(|t|) && Mutated(f, t)
  {
    var s, t := [a, b, c, d, x, y], [a, b, c, d, x, y, x, y];
    var l, m, n := f(a, b), f(c, d), f(x, y);
    assert Above(f, s) == [l, m, n] && Above(f, t) == [l, m, n, n];
    assert Above(f, [l, m, n]) == [f(l, m), f(n, n)] == Above(f, [l, m, n, n]);
    assert Depth(6) == 3 == Depth(8);
  }
}
