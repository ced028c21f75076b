/**
 The block index: every block knows its parent and a skip pointer further back, so an
 ancestor at a given height is reached in a number of steps that grows with the square of the
 logarithm of the height. The active chain is a vector of blocks indexed by height.
 */
module BlockIndex {
  import opened Positional
  import opened SkipHeights

  // ---------------------------------------------------------------- blocks and their ancestors

  class Block {
    const hash: int
    const nTime: int
    const nHeight: nat
    const pprev: Block?
    var pskip: Block?
    /** The blocks before this one, from the first block up. */
    ghost const ancestors: seq<Block>

    constructor (hash: int, nTime: int, pprev: Block?)
      requires pprev != null ==> Linked(pprev)
      ensures Linked(this) && this.pprev == pprev && pskip == null
      ensures this.hash == hash && this.nTime == nTime
      ensures nHeight == if pprev == null then 0 else pprev.nHeight + 1
    {
      this.hash := hash;
      this.nTime := nTime;
      this.pprev := pprev;
      this.pskip := null;
      nHeight := if pprev == null then 0 else pprev.nHeight + 1;
      ancestors := if pprev == null then [] else Path(pprev);
      new;
      if pprev != null {
        PathLinked(pprev);
      }
    }

    /**
     Walks back by parents and skips to the block that following parents alone would reach. With all skips set, it
     takes no more steps than a little over the square of the number of binary digits of the height.
     */
    method GetAncestor(height: int) returns (r: Block?, ghost steps: nat)
      requires Linked(this) && SkipsOk(this)
      ensures r == AncestorAt(this, height)
      ensures SkipsSet(this) ==> IsFew(nHeight, steps)
    {
      steps := 0;
      if height > nHeight || height < 0 {
        NoneIsFew(nHeight);
        return null, 0;
      }
      hide Linked, Step, Steps, SkipHeight, IsFew, Path, SkipsOk, SkipsSet;
      var walk := this;
      PathEnds(this);
      var heightWalk := nHeight;
      while heightWalk > height
        invariant height <= heightWalk <= nHeight < |Path(this)|
        invariant walk == Path(this)[heightWalk]
        invariant SkipsSet(this) ==> steps + Steps(heightWalk, height) == Steps(nHeight, height)
        decreases heightWalk
      {
        Pointers(this, heightWalk);
        StepsNext(heightWalk, height);
        var heightSkip := SkipHeight(heightWalk);
        var heightSkipPrev := SkipHeight(heightWalk - 1);
        if walk.pskip != null &&
          (heightSkip == height ||
           (heightSkip > height && !(heightSkipPrev < heightSkip - 2 && heightSkipPrev >= height)))
        {
          walk := walk.pskip;
          heightWalk := heightSkip;
        } else {
          walk := walk.pprev;
          heightWalk := heightWalk - 1;
        }
        steps := steps + 1;
      }
      r := walk;
      StepsNone(height);
      StepsBounded(nHeight, height);
    }

    method BuildSkip()
      requires Linked(this) && (pprev != null ==> SkipsOk(pprev))
      modifies this`pskip
      ensures pprev == null ==> pskip == old(pskip)
      ensures pprev != null ==> SkipsOk(this) && pskip != null && pskip.nHeight == SkipHeight(nHeight) < nHeight
      ensures pprev != null && old(SkipsSet(pprev)) ==> SkipsSet(this)
    {
      if pprev != null {
        ParentLinked(this);
        var skip := SkipHeight(nHeight);
        var r, _ := pprev.GetAncestor(skip);
        PathPrefix(pprev, skip);
        assert r == Path(this)[skip];
        OwnPathExcludes(this);
        pskip := r;
      }
    }
  }

  ghost function AncestorAt(b: Block, height: int): (r: Block?)
    requires Linked(b)
  {
    if 0 <= height <= b.nHeight then Path(b)[height] else null
  }

  ghost predicate SkipOk(b: Block)
    reads b
    requires Step(b)
  {
    b.pskip == null || b.pskip == Path(b)[SkipHeight(b.nHeight)]
  }

  /** The skips of a block and of its ancestors are unset or as `BuildSkip` leaves them. */
  ghost predicate SkipsOk(b: Block)
    reads set a | a in Path(b)
    requires Linked(b)
  {
    forall a :: a in Path(b) ==> SkipOk(a)
  }

  /** The skips of a block and of its ancestors other than the first block are set. */
  ghost predicate SkipsSet(b: Block)
    reads set a | a in Path(b)
  {
    forall a :: a in Path(b) && a.nHeight > 0 ==> a.pskip != null
  }

  /** A block is not among its own ancestors. */
  lemma OwnPathExcludes(b: Block)
    requires Linked(b)
    ensures b !in b.ancestors
  {
    forall h | 0 <= h < b.nHeight
      ensures b.ancestors[h] != b
    {
      PathPrefix(b, h);
    }
  }

  lemma PathEnds(b: Block)
    requires Linked(b)
    ensures |Path(b)| == b.nHeight + 1 && Path(b)[b.nHeight] == b
  {
  }

  /** Where the pointers of a block on the path lead. */
  lemma {:induction false} Pointers(b: Block, h: nat)
    requires Linked(b) && SkipsOk(b) && 0 < h <= b.nHeight
    ensures var a := Path(b)[h];
      && a.pprev == Path(b)[h - 1]
      && (a.pskip != null ==> a.pskip == Path(b)[SkipHeight(h)])
      && (SkipsSet(b) ==> a.pskip != null)
  {
    hide Linked, Step, SkipHeight;
    PathEnds(b);
    PathPrefix(b, h);
    var a := Path(b)[h];
    StepBack(a);
    assert a in Path(b) && SkipOk(a);
  }

  lemma StepBack(b: Block)
    requires Linked(b) && b.nHeight > 0
    ensures b.pprev != null && Step(b)
    ensures b.pprev == Path(b)[b.nHeight - 1]
  {
  }

  ghost function Path(b: Block): seq<Block> {
    b.ancestors + [b]
  }

  /** Parents, heights and ancestors agree for `b`. */
  ghost predicate Step(b: Block) {
    && b.nHeight == |b.ancestors|
    && (b.pprev == null <==> b.ancestors == [])
    && (b.pprev != null ==> b.ancestors == Path(b.pprev))
  }

  /** Parents, heights and ancestors agree all the way down. */
  ghost predicate Linked(b: Block) {
    Step(b) && forall a :: a in b.ancestors ==> Step(a)
  }

  lemma PathLinked(b: Block)
    requires Linked(b)
    ensures forall a :: a in Path(b) ==> Step(a)
  {
  }

  /** Each block of a path is linked, and its own path is the part of the path up to it. */
  lemma {:induction false} PathPrefix(b: Block, h: nat)
    requires Linked(b) && h <= b.nHeight
    ensures Path(b)[h].nHeight == h && Linked(Path(b)[h])
    ensures Path(Path(b)[h]) == Path(b)[..h + 1]
    decreases b.nHeight - h
  {
    if h == b.nHeight {
      assert Path(b)[h] == b;
      assert Path(b)[..h + 1] == Path(b);
    } else {
      ParentLinked(b);
      PathPrefix(b.pprev, h);
      assert Path(b)[..h + 1] == Path(b.pprev)[..h + 1];
    }
  }

  lemma ParentLinked(b: Block)
    requires Linked(b) && b.pprev != null
    ensures Linked(b.pprev) && b.pprev.nHeight == b.nHeight - 1
    ensures Path(b) == Path(b.pprev) + [b]
  {
    assert b.pprev in b.ancestors;
    forall a | a in b.pprev.ancestors
      ensures Step(a)
    {
      assert a in b.ancestors;
    }
  }

  // ---------------------------------------------------------------- the active chain

  class Chain {
    var vChain: seq<Block?>

    /** The chain is the whole ancestor path of its tip. */
    ghost predicate Valid()
      reads this
    {
      vChain == [] || IsPath(vChain)
    }

    constructor ()
      ensures Valid() && vChain == []
    {
      vChain := [];
    }

    function Tip(): Block?
      reads this
    {
      if |vChain| > 0 then vChain[|vChain| - 1] else null
    }

    function At(height: int): Block?
      reads this
    {
      if height < 0 || height >= |vChain| then null else vChain[height]
    }

    predicate Contains(b: Block)
      reads this
    {
      At(b.nHeight) == b
    }

    function Height(): int
      reads this
    {
      |vChain| - 1
    }

    /** Stops at the first block already in place, and still leaves the whole path of the tip. */
    method SetTip(tip: Block?)
      requires Valid() && (tip != null ==> Linked(tip))
      modifies this
      ensures Valid() && Tip() == tip
      ensures vChain == if tip == null then [] else Path(tip)
    {
      hide Linked, Step;
      if tip == null {
        vChain := [];
        return;
      }
      ghost var was := vChain;
      vChain := Resized(vChain, tip.nHeight + 1);
      ghost var resized := vChain;
      LinkedHeight(tip);
      ghost var path := Path(tip);
      var p: Block? := tip;
      while p != null && vChain[p.nHeight] != p
        invariant |vChain| == |path|
        invariant p != null ==> p.nHeight < |path| && p == path[p.nHeight]
        invariant forall h :: 0 <= h < |path| ==>
                    vChain[h] == if p != null && h <= p.nHeight then resized[h] else path[h]
        decreases if p == null then 0 else p.nHeight + 1
      {
        PathPrefix(tip, p.nHeight);
        Parent(p);
        vChain := vChain[p.nHeight := p];
        p := p.pprev;
      }
      if p != null {
        SamePrefix(tip, was, p);
      }
      assert vChain == path;
    }

    /** The hashes at the locator heights of the path of `b`, or of the tip when no block is given. */
    method GetLocator(b: Block?) returns (have: seq<int>)
      requires Valid() && (b != null ==> Linked(b) && SkipsOk(b))
      ensures have == Locator(if b == null then Tip() else b)
    {
      hide Linked, Step, LocatorHeights, HashesAt;
      var step := 1;
      have := [];
      var p := b;
      if p == null {
        p := Tip();
      }
      if p == null {
        return;
      }
      ghost var start := p;
      ghost var all := LocatorHeights(start.nHeight, 1, 0);
      ghost var named: seq<nat> := [];
      LinkedHeight(start);
      HashesGrow(start, named, 0);
      while true
        invariant step > 0
        invariant p != null && p.nHeight <= start.nHeight && p == Path(start)[p.nHeight]
        invariant have == HashesAt(start, named)
        invariant |named| <= |all| && all[|named|..] == LocatorHeights(p.nHeight, step, |named|)
        invariant named == all[..|named|]
        decreases p.nHeight
      {
        LocatorNext(all, |named|, p.nHeight, step);
        HashesGrow(start, named, p.nHeight);
        have := have + [p.hash];
        named := named + [p.nHeight];
        if p.nHeight == 0 {
          assert named == all;
          break;
        }
        var height := if p.nHeight - step > 0 then p.nHeight - step else 0;
        if Contains(p) {
          SamePrefix(start, vChain, p);
          p := At(height);
        } else {
          PathPrefix(start, p.nHeight);
          var ancestor, _ := p.GetAncestor(height);
          p := ancestor;
        }
        PathPrefix(start, height);
        if |have| > 10 {
          step := step * 2;
        }
      }
    }

    /** The last block that the chain and the path of `b` share. */
    method FindFork(b: Block) returns (r: Block?)
      requires Valid() && Linked(b) && SkipsOk(b)
      ensures IsFork(vChain, Path(b), r)
    {
      hide Linked, Step;
      LinkedHeight(b);
      r := b;
      if r.nHeight > Height() {
        var ancestor, _ := r.GetAncestor(Height());
        r := ancestor;
        if Height() >= 0 {
          PathPrefix(b, Height());
        }
      }
      ghost var common := if |vChain| < |Path(b)| then |vChain| else |Path(b)|;
      while r != null && !Contains(r)
        invariant r == null || (r.nHeight < common && r == Path(b)[r.nHeight])
        invariant forall h :: 0 <= h < common && (r == null || h > r.nHeight) ==> vChain[h] != Path(b)[h]
        decreases if r == null then 0 else r.nHeight + 1
      {
        PathPrefix(b, r.nHeight);
        Parent(r);
        r := r.pprev;
      }
      if r != null {
        SamePrefix(b, vChain, r);
      }
    }
  }

  // ---------------------------------------------------------------- locators

  /** The heights a locator names once `n` blocks are in it and the next step back is `step`. */
  function LocatorHeights(h: nat, step: nat, n: nat): (r: seq<nat>)
    requires step > 0
    decreases h
  {
    if h == 0 then [0]
    else [h] + LocatorHeights(if h > step then h - step else 0, if n >= 10 then 2 * step else step, n + 1)
  }

  lemma LocatorNext(all: seq<nat>, n: nat, h: nat, step: nat)
    requires step > 0 && n <= |all| && all[n..] == LocatorHeights(h, step, n)
    ensures n < |all| && all[..n + 1] == all[..n] + [h]
    ensures h == 0 ==> n + 1 == |all|
    ensures h > 0 ==> all[n + 1..] ==
                      LocatorHeights(if h > step then h - step else 0, if n >= 10 then 2 * step else step, n + 1)
  {
    assert all[n] == all[n..][0];
    assert all[n + 1..] == all[n..][1..];
  }

  lemma HashesGrow(b: Block, heights: seq<nat>, h: nat)
    requires Linked(b) && h <= b.nHeight
    ensures |HashesAt(b, heights)| == |heights|
    ensures HashesAt(b, heights + [h]) == HashesAt(b, heights) + [Path(b)[h].hash]
    ensures HashesAt(b, []) == []
  {
  }

  ghost function HashesAt(b: Block, heights: seq<nat>): seq<int>
    requires Linked(b)
  {
    seq(|heights|, i requires 0 <= i < |heights| => HashAt(b, heights[i]))
  }

  ghost function HashAt(b: Block, h: nat): int
    requires Linked(b)
  {
    LinkedHeight(b);
    if h <= b.nHeight then Path(b)[h].hash else 0
  }

  ghost function Locator(b: Block?): seq<int>
    requires b != null ==> Linked(b)
  {
    if b == null then [] else HashesAt(b, LocatorHeights(b.nHeight, 1, 0))
  }

  /** A locator starts at the given block, goes strictly back and ends at the first block. */
  lemma {:induction false} LocatorDescends(h: nat, step: nat, n: nat)
    requires step > 0
    ensures var r := LocatorHeights(h, step, n);
            && r != [] && r[0] == h && r[|r| - 1] == 0
            && forall i :: 0 <= i < |r| - 1 ==> r[i] > r[i + 1]
    decreases h
  {
    if h > 0 {
      LocatorDescends(if h > step then h - step else 0, if n >= 10 then 2 * step else step, n + 1);
    }
  }

  /** Once steps double, a locator from height `h` is logarithmic in `h`. */
  lemma {:induction false} DoublingIsShort(h: nat, step: nat, n: nat)
    requires step > 0 && n >= 10 && h > 0
    ensures |LocatorHeights(h, step, n)| >= 2
    ensures step * (Pow2(|LocatorHeights(h, step, n)| - 2) - 1) < h
    decreases h
  {
    if h > step {
      var rest := |LocatorHeights(h - step, 2 * step, n + 1)|;
      DoublingIsShort(h - step, 2 * step, n + 1);
      assert 2 * step * (Pow2(rest - 2) - 1) == step * (Pow2(rest - 1) - 1) - step;
    }
  }

  /** `k` heights downwards from `h`. */
  function Down(h: nat, k: nat): (r: seq<nat>)
    requires k <= h + 1
    ensures |r| == k && forall i :: 0 <= i < k ==> r[i] == h - i
  {
    seq(k, i requires 0 <= i < k => h - i)
  }

  /** Until steps double, heights are consecutive. */
  lemma {:induction false} LocatorDense(h: nat, n: nat)
    requires n <= 10
    ensures LocatorHeights(h, 1, n) ==
            if h <= 11 - n then Down(h, h + 1) else Down(h, 11 - n) + LocatorHeights(h - (11 - n), 2, 11)
    decreases h
  {
    hide LocatorHeights, Down;
    if h == 0 {
      LocatorLast(n);
      assert Down(0, 1) == [0];
    } else {
      LocatorFirst(h, n);
      if n < 10 {
        LocatorDense(h - 1, n + 1);
      } else {
        LocatorLast(n);
        assert Down(0, 1) == [0] && Down(h - 1, 0) == [];
      }
      DownNext(h, h + 1);
      if h > 11 - n {
        DownNext(h, 11 - n);
        var rest := LocatorHeights(h - (11 - n), 2, 11);
        assert [h] + (Down(h - 1, 10 - n) + rest) == [h] + Down(h - 1, 10 - n) + rest;
      }
    }
  }

  lemma DownNext(h: nat, k: nat)
    requires h > 0 && 0 < k <= h + 1
    ensures Down(h, k) == [h] + Down(h - 1, k - 1)
  {
  }

  lemma {:induction false} LocatorLast(n: nat)
    ensures LocatorHeights(0, 1, n) == LocatorHeights(0, 2, 11) == [0]
  {
  }

  lemma {:induction false} LocatorFirst(h: nat, n: nat)
    requires h > 0 && n <= 10
    ensures LocatorHeights(h, 1, n) == [h] + LocatorHeights(h - 1, if n == 10 then 2 else 1, n + 1)
  {
  }

  /** With the step doubled every time, the distances are one less than the powers of two. */
  lemma {:induction false} SparseAt(h: nat, step: nat, n: nat, i: nat)
    requires step > 0 && n >= 10 && i < |LocatorHeights(h, step, n)|
    ensures var below := step * (Pow2(i) - 1); LocatorHeights(h, step, n)[i] == if h > below then h - below else 0
    decreases i
  {
    if i == 0 {
      assert Pow2(0) == 1;
    } else {
      SparseAt(if h > step then h - step else 0, 2 * step, n + 1, i - 1);
      DoubleReach(step, Pow2(i - 1));
      assert Pow2(i) == 2 * Pow2(i - 1);
    }
  }

  lemma DoubleReach(step: nat, p: nat)
    requires p > 0
    ensures step + 2 * step * (p - 1) == step * (2 * p - 1) && 2 * step * (p - 1) >= 0
  {
    Distribute(step, 2 * p - 2, 1);
    Associate(step, 2, p - 1);
  }

  /** Exactly which heights a locator names: twelve in a row, and then at twice the distance each time, down to zero. */
  lemma {:induction false} LocatorExactly(h: nat, i: nat)
    requires i < |LocatorHeights(h, 1, 0)|
    ensures var below := if i <= 11 then i else 11 + 2 * (Pow2(i - 11) - 1);
      LocatorHeights(h, 1, 0)[i] == if h > below then h - below else 0
  {
    hide LocatorHeights;
    LocatorDense(h, 0);
    if h > 11 && i >= 11 {
      SparseAt(h - 11, 2, 11, i - 11);
      assert Pow2(0) == 1;
    }
  }

  /** A locator names twelve consecutive blocks and then logarithmically many. */
  lemma {:induction false} LocatorIsShort(h: nat)
    ensures var r := LocatorHeights(h, 1, 0);
            && (h <= 11 ==> |r| == h + 1)
            && (h > 11 ==> |r| > 12 && Pow2(|r| - 12) <= h - 10)
            && forall i :: 0 <= i < 12 && i <= h ==> r[i] == h - i
  {
    LocatorDense(h, 0);
    if h > 11 {
      DoublingIsShort(h - 11, 2, 11);
      LocatorDescends(h - 11, 2, 11);
    }
  }

  ghost predicate IsPath(chain: seq<Block?>)
    requires chain != []
  {
    var tip := chain[|chain| - 1];
    tip != null && Linked(tip) && chain == Path(tip)
  }

  function Resized(chain: seq<Block?>, n: nat): (r: seq<Block?>)
    ensures |r| == n
    ensures forall h :: 0 <= h < n ==> r[h] == if h < |chain| then chain[h] else null
  {
    if n <= |chain| then chain[..n] else chain + seq(n - |chain|, _ => null)
  }

  lemma LinkedHeight(b: Block)
    requires Linked(b)
    ensures |Path(b)| == b.nHeight + 1
  {
  }

  lemma Parent(b: Block)
    requires Linked(b)
    ensures b.pprev == AncestorAt(b, b.nHeight - 1)
    ensures b.pprev != null ==> b.nHeight > 0 && b.pprev.nHeight == b.nHeight - 1
    ensures b.pprev == null ==> b.nHeight == 0
  {
    if b.nHeight > 0 {
      StepBack(b);
      ParentLinked(b);
    }
  }

  /** Two paths that share a block share everything below it. */
  lemma SamePrefix(tip: Block, chain: seq<Block?>, b: Block)
    requires Linked(tip) && (chain == [] || IsPath(chain))
    requires b.nHeight <= tip.nHeight && b == Path(tip)[b.nHeight]
    requires b.nHeight < |chain| && chain[b.nHeight] == b
    ensures forall h :: 0 <= h <= b.nHeight ==> chain[h] == Path(tip)[h]
  {
    PathPrefix(tip, b.nHeight);
    PathPrefix(chain[|chain| - 1], b.nHeight);
    assert forall h :: 0 <= h <= b.nHeight ==> Path(b)[h] == Path(tip)[h];
  }

  /** The paths agree up to `r` and differ at every height above it. */
  ghost predicate IsFork(chain: seq<Block?>, path: seq<Block?>, r: Block?) {
    && (r != null ==> r.nHeight < |chain| && r.nHeight < |path| && r == chain[r.nHeight])
    && forall h :: 0 <= h < |chain| && h < |path| ==> (chain[h] == path[h] <==> r != null && h <= r.nHeight)
  }
}
