/**
 The cache itself: a chain of layers over a flat view, whose maps even a read fills in.
 Every method is proved to do to what the layer shows what the operation does to a flat
 view, whatever the depth of the chain.
 */
module CoinsCache {
  import opened CoinRecord
  import opened CoinsSpec
  import opened Options
  import opened CoinsLayers
  import opened CoinsLean

  datatype Kind = Sprout | Sapling

  function PoolIn(v: View, k: Kind): PoolView {
    if k.Sprout? then v.sprout else v.sapling
  }

  function OpFor(k: Kind, op: PoolOp): Op {
    if k.Sprout? then SproutOp(op) else SaplingOp(op)
  }

  class CoinsViewCache {
    const root: Tree -> Hash
    /** The layer beneath, or null over the flat view `db`. */
    const base: CoinsViewCache?
    const db: View
    var coins: CoinsMap
    var sprout: PoolCache
    var sapling: PoolCache
    var block: Hash
    var hasModifier: bool
    ghost const repr: set<CoinsViewCache>

    ghost predicate Valid()
      reads this, repr
      decreases repr
    {
      && this in repr
      && (base != null ==> base in repr && base.repr < repr && this !in base.repr && base.root == root && base.Valid())
    }

    function Value(): Cache
      reads this
    {
      Cache(coins, sprout, sapling, block)
    }

    /** What the layer beneath shows. */
    ghost function Beneath(): View
      requires Valid()
      reads this, repr
      decreases repr, 0
    {
      if base == null then db else base.Seen()
    }

    /** What this layer shows. */
    ghost function Seen(): View
      requires Valid()
      reads this, repr
      decreases repr, 1
    {
      Shown(Value(), Beneath())
    }

    /**
     The flags of every layer down the chain are truthful and lean, and entries read through a layer are still in it.
     */
    ghost predicate Good()
      reads this, repr
      decreases repr
    {
      && Valid()
      && Truthful(root, Value(), Beneath()) && Lean(coins, Beneath().coins)
      && Rooted(root, Beneath().sprout.anchors) && Rooted(root, Beneath().sapling.anchors) && Unpruned(Beneath().coins)
      && (base != null ==> base.Good() && ReadThrough(coins, base.coins))
    }

    constructor OverFlat(root: Tree -> Hash, db: View)
      requires Rooted(root, db.sprout.anchors) && Rooted(root, db.sapling.anchors) && Unpruned(db.coins)
      ensures Good() && repr == {this} && base == null && Seen() == db && !hasModifier
    {
      this.root, this.base, this.db := root, null, db;
      coins, sprout, sapling, block, hasModifier := map[], EMPTY_POOL, EMPTY_POOL, 0, false;
      repr := {this};
      new;
      EmptyShows(root, db);
      assert Value() == EMPTY;
    }

    constructor Over(under: CoinsViewCache)
      requires under.Good()
      ensures Good() && repr == under.repr + {this} && base == under && Seen() == under.Seen() && !hasModifier
    {
      root, base, db := under.root, under, under.db;
      coins, sprout, sapling, block, hasModifier := map[], EMPTY_POOL, EMPTY_POOL, 0, false;
      repr := under.repr + {this};
      new;
      EmptyShows(root, under.Seen());
      assert Value() == EMPTY;
      SeenRooted(under);
    }

    /** The entry for `t`, pulled in from beneath if need be; None where no layer has one. */
    method FetchCoins(t: Hash) returns (found: Option<Coins>)
      requires Good()
      modifies repr
      ensures Good() && Beneath() == old(Beneath()) && Seen() == old(Seen())
      ensures found == AnswerOf(coins, t) && Answers(found, t, Seen().coins)
      ensures (forall h :: h in old(coins) ==> h in coins && coins[h] == old(coins)[h])
      ensures sprout == old(sprout) && sapling == old(sapling) && block == old(block) && hasModifier == old(hasModifier)
      decreases repr
    {
      hide CoinsTruthful, Lean, PoolTruthful, CoinsShown, PoolShown, Rooted, Unpruned, Answers, ReadThrough;
      ghost var v := Beneath();
      if t in coins {
        FetchAnswers(coins, t, v.coins, None);
        return Some(coins[t].coins);
      }
      var r := BaseCoins(t);
      FetchKeeps(coins, t, r, v.coins);
      FetchLean(coins, t, r, v.coins);
      if r.None? {
        FetchAnswers(coins, t, v.coins, r);
        return None;
      }
      if base != null {
        PulledThrough(coins, base.coins, t, r.value);
      }
      coins := coins[t := Pulled(r.value)];
      FetchAnswers(coins, t, v.coins, r);
      found := Some(coins[t].coins);
    }

    /** What the view beneath answers to GetCoins. */
    method BaseCoins(t: Hash) returns (r: Option<Coins>)
      requires Good()
      modifies repr - {this}
      ensures Good() && Beneath() == old(Beneath())
      ensures Answers(r, t, Beneath().coins)
      ensures base != null && r.Some? ==> t in base.coins
      decreases repr, 0
    {
      hide CoinsTruthful, Lean, PoolTruthful, CoinsShown, PoolShown, Rooted;
      if base == null {
        r := Found(db.coins, t);
      } else {
        r := base.FetchCoins(t);
      }
    }

    function Pool(k: Kind): PoolCache
      reads this
    {
      if k.Sprout? then sprout else sapling
    }

    method SetPool(k: Kind, p: PoolCache)
      modifies this`sprout, this`sapling
      ensures Value() == if k.Sprout? then old(Value()).(sprout := p) else old(Value()).(sapling := p)
    {
      if k.Sprout? {
        sprout := p;
      } else {
        sapling := p;
      }
    }

    /** The tree anchored at `r`, remembered if it was found beneath. */
    method GetAnchorAt(k: Kind, r: Hash) returns (tree: Option<Tree>)
      requires Good()
      modifies repr
      ensures Good() && Beneath() == old(Beneath()) && Seen() == old(Seen())
      ensures tree == Found(PoolIn(Seen(), k).anchors, r) && (tree.Some? ==> r in Pool(k).anchors)
      ensures coins == old(coins) && block == old(block) && hasModifier == old(hasModifier)
      ensures Pool(k) == old(Pool(k)).(anchors := Pool(k).anchors)
      decreases repr
    {
      hide CoinsTruthful, Lean, NullifiersTruthful, CoinsShown, NullifiersShown, Rooted, Unpruned, ReadThrough;
      hide AnchorsTruthful, AnchorsShown;
      AnchorLook(Pool(k).anchors, PoolIn(Beneath(), k).anchors, r);
      if r in Pool(k).anchors {
        return if Pool(k).anchors[r].entered then Some(Pool(k).anchors[r].tree) else None;
      }
      var found := BaseAnchor(k, r);
      AnchorFetchKeeps(root, Pool(k).anchors, r, PoolIn(Beneath(), k).anchors);
      if found.None? {
        return None;
      }
      SetPool(k, Pool(k).(anchors := Pool(k).anchors[r := AnchorEntry(true, found.value, false)]));
      tree := found;
    }

    method BaseAnchor(k: Kind, r: Hash) returns (found: Option<Tree>)
      requires Good()
      modifies repr - {this}
      ensures Good() && Beneath() == old(Beneath())
      ensures found == Found(PoolIn(Beneath(), k).anchors, r)
      decreases repr, 0
    {
      hide CoinsTruthful, Lean, PoolTruthful, CoinsShown, PoolShown, Rooted, Unpruned, ReadThrough;
      if base == null {
        found := Found(PoolIn(db, k).anchors, r);
      } else {
        found := base.GetAnchorAt(k, r);
      }
    }

    method GetNullifier(k: Kind, n: Hash) returns (spent: bool)
      requires Good()
      modifies repr
      ensures Good() && Beneath() == old(Beneath()) && Seen() == old(Seen())
      ensures spent <==> n in PoolIn(Seen(), k).nullifiers
      ensures coins == old(coins) && block == old(block) && hasModifier == old(hasModifier)
      ensures Pool(k) == old(Pool(k)).(nullifiers := Pool(k).nullifiers)
      decreases repr
    {
      hide CoinsTruthful, Lean, AnchorsTruthful, CoinsShown, AnchorsShown, Rooted, Unpruned, ReadThrough;
      hide NullifiersTruthful;
      hide NullifiersShown;
      NullifierFetchKeeps(Pool(k).nullifiers, n, PoolIn(Beneath(), k).nullifiers);
      if n in Pool(k).nullifiers {
        return Pool(k).nullifiers[n].entered;
      }
      if base == null {
        spent := n in PoolIn(db, k).nullifiers;
      } else {
        spent := base.GetNullifier(k, n);
      }
      SetPool(k, Pool(k).(nullifiers := Pool(k).nullifiers[n := NullifierEntry(spent, false)]));
    }

    method GetBestAnchor(k: Kind) returns (best: Hash)
      requires Good()
      modifies repr
      ensures Good() && Beneath() == old(Beneath()) && Seen() == old(Seen())
      ensures best == PoolIn(Seen(), k).best == Pool(k).best
      ensures coins == old(coins) && block == old(block) && hasModifier == old(hasModifier)
      ensures Pool(k) == old(Pool(k)).(best := Pool(k).best)
      decreases repr
    {
      hide CoinsTruthful, Lean, PoolTruthful, CoinsShown, AnchorsShown, NullifiersShown, Rooted, Unpruned, ReadThrough;
      if Pool(k).best == 0 {
        if base == null {
          best := PoolIn(db, k).best;
        } else {
          best := base.GetBestAnchor(k);
        }
        BestKeeps(root, Pool(k), PoolIn(Beneath(), k), best);
        SetPool(k, Pool(k).(best := best));
      }
      best := Pool(k).best;
    }

    method GetBestBlock() returns (best: Hash)
      requires Good()
      modifies repr
      ensures Good() && Beneath() == old(Beneath()) && Seen() == old(Seen())
      ensures best == Seen().block == block
      ensures coins == old(coins) && sprout == old(sprout) && sapling == old(sapling) && hasModifier == old(hasModifier)
      decreases repr
    {
      hide CoinsTruthful, Lean, PoolTruthful, CoinsShown, PoolShown, Rooted, Unpruned, ReadThrough;
      if block == 0 {
        if base == null {
          block := db.block;
        } else {
          var b := base.GetBestBlock();
          block := b;
        }
      }
      best := block;
    }

    method PushAnchor(k: Kind, tree: Tree)
      requires Good() && root(tree) != 0
      modifies repr
      ensures Good() && Beneath() == old(Beneath()) && Seen() == Flat(root, old(Seen()), OpFor(k, Push(tree)))
    {
      hide CoinsTruthful, Lean, NullifiersTruthful, AnchorsTruthful, CoinsShown, AnchorsShown, NullifiersShown, Rooted;
      hide Unpruned, ReadThrough;
      var newRoot := root(tree);
      var current := GetBestAnchor(k);
      if current != newRoot {
        PushKeeps(root, Pool(k).anchors, tree, PoolIn(Beneath(), k).anchors);
        SetPool(k, Pool(k).(anchors := Pushed(Pool(k).anchors, newRoot, tree), best := newRoot));
      }
    }

    method PopAnchor(k: Kind, r: Hash)
      requires Good() && PoolAdmits(root, PoolIn(Seen(), k), Pop(r))
      modifies repr
      ensures Good() && Beneath() == old(Beneath()) && Seen() == Flat(root, old(Seen()), OpFor(k, Pop(r)))
    {
      hide CoinsTruthful, Lean, NullifiersTruthful, AnchorsTruthful, CoinsShown, AnchorsShown, NullifiersShown, Rooted;
      hide Unpruned, ReadThrough;
      var current := GetBestAnchor(k);
      if current != r {
        var tree := GetAnchorAt(k, current);
        assert tree.Some?;
        PopKeeps(root, Pool(k).anchors, current, PoolIn(Beneath(), k).anchors);
        SetPool(k, Pool(k).(anchors := Popped(Pool(k).anchors, current), best := r));
      }
    }

    method SetNullifiers(k: Kind, ns: seq<Hash>, spent: bool)
      requires Good()
      modifies this`sprout, this`sapling
      ensures Good() && Beneath() == old(Beneath())
      ensures Seen() == Flat(root, old(Seen()), OpFor(k, PoolOp.SetNullifiers(ns, spent)))
    {
      hide CoinsTruthful, Lean, NullifiersTruthful, AnchorsTruthful, CoinsShown, AnchorsShown, NullifiersShown, Rooted;
      hide Unpruned, ReadThrough;
      ghost var c := Pool(k).nullifiers;
      MarkKeeps(c, PoolIn(Beneath(), k).nullifiers, ns, spent);
      var m: NullifierMap := Pool(k).nullifiers;
      for i := 0 to |ns|
        invariant MarkedEntries(m, ns[i..], spent) == MarkedEntries(c, ns, spent)
      {
        assert ns[i..][0] == ns[i] && ns[i..][1..] == ns[i + 1..];
        m := m[ns[i] := NullifierEntry(spent, true)];
      }
      assert m == MarkedEntries(c, ns, spent);
      SetPool(k, Pool(k).(nullifiers := m));
    }

    method SetBestBlock(h: Hash)
      requires Good() && h != 0
      modifies this`block
      ensures Good() && Beneath() == old(Beneath()) && Seen() == Flat(root, old(Seen()), SetBlock(h))
    {
      hide CoinsTruthful, Lean, PoolTruthful, CoinsShown, PoolShown, Rooted, Unpruned, ReadThrough;
      block := h;
    }

    /**
     ModifyCoins, the caller's change and the modifier's destructor. `given` is the record the caller was handed:
     what the layer shows for `t`, or a spent record.
     */
    method ModifyCoins(t: Hash, change: Coins -> Coins) returns (given: Coins)
      requires Good() && !hasModifier
      modifies repr
      ensures Good() && !hasModifier && Beneath() == old(Beneath())
      ensures var shown := old(Seen()).coins; if t in shown then given == shown[t] else IsPruned(given)
      ensures Seen() == Flat(root, old(Seen()), Modify(t, change(given)))
    {
      hide CoinsTruthful, Lean, PoolTruthful, CoinsShown, PoolShown, Rooted, Unpruned, ReadThrough, Answers, IsPruned;
      var found: Option<Coins> := None;
      if t !in coins {
        found := BaseCoins(t);
      }
      given := Change(t, found, change);
    }

    /** The modifier's life: the entry is opened, changed through it, and closed. */
    method Change(t: Hash, found: Option<Coins>, change: Coins -> Coins) returns (given: Coins)
      requires Good() && !hasModifier && (t !in coins ==> Answers(found, t, Beneath().coins))
      requires base != null && found.Some? ==> t in base.coins
      modifies this`coins, this`hasModifier
      ensures Good() && !hasModifier && Beneath() == old(Beneath())
      ensures var shown := old(Seen()).coins; if t in shown then given == shown[t] else IsPruned(given)
      ensures Seen() == Flat(root, old(Seen()), Modify(t, change(given)))
    {
      hide CoinsTruthful, Lean, PoolTruthful, CoinsShown, PoolShown, Rooted, Unpruned, ReadThrough, Answers, IsPruned;
      hide Opened, Closed, Put;
      ghost var c := coins;
      OpenedShows(c, t, found, Beneath().coins);
      OpenedLean(c, t, found, Beneath().coins);
      var e := Opened(coins, t, found);
      if base != null {
        OpenedThrough(c, base.coins, t, found);
      }
      coins := coins[t := e];
      hasModifier := true;
      given := coins[t].coins;
      ghost var x := change(given);
      ModifyKeeps(c, t, found, Beneath().coins, x);
      ClosedLean(c, t, e.(coins := x), Beneath().coins);
      if base != null {
        ReadThroughClosed(c, base.coins, t, e.(coins := x));
      }
      coins := coins[t := coins[t].(coins := change(given))];
      CloseModifier(t, c);
    }

    /** The destructor of a modifier: clean up, and drop an entry that is fresh and spent. */
    method CloseModifier(t: Hash, ghost c: CoinsMap)
      requires hasModifier && t in coins && coins == c[t := coins[t]]
      modifies this`coins, this`hasModifier
      ensures !hasModifier && coins == Closed(c, t, old(coins[t]))
    {
      hasModifier := false;
      var e := coins[t];
      var vout := CleanupOutputs(e.coins.vout);
      e := e.(coins := e.coins.(vout := vout));
      if e.isFresh && IsPruned(e.coins) {
        coins := coins - {t};
      } else {
        coins := coins[t := e];
      }
    }

    /** As ModifyCoins, but without asking beneath: right only where the view beneath holds no such coins. */
    method ModifyNewCoins(t: Hash, x: Coins)
      requires Good() && !hasModifier && t !in Beneath().coins
      modifies this
      ensures Good() && !hasModifier && Beneath() == old(Beneath())
      ensures Seen() == Flat(root, old(Seen()), ModifyNew(t, x))
    {
      hide CoinsTruthful, Lean, PoolTruthful, CoinsShown, PoolShown, Rooted, Unpruned, ReadThrough, IsPruned, Closed;
      ghost var c := coins;
      ModifyNewKeeps(c, t, Beneath().coins, x);
      ClosedLean(c, t, Entry(x, true, true), Beneath().coins);
      if base != null {
        ReadThroughClosed(c, base.coins, t, Entry(x, true, true));
      }
      coins := coins[t := Entry(x, true, true)];
      hasModifier := true;
      CloseModifier(t, c);
    }

    /** Write the entries of a child into this layer. */
    method BatchWrite(childCoins: CoinsMap, childSprout: PoolCache, childSapling: PoolCache, childBlock: Hash)
      requires !hasModifier
      requires forall t :: t in childCoins && childCoins[t].dirty && t !in coins && !IsPruned(childCoins[t].coins) ==>
        childCoins[t].isFresh
      modifies this
      ensures Value() == Flushed(Pair(Cache(childCoins, childSprout, childSapling, childBlock), old(Value())))
      ensures !hasModifier
    {
      hide MergedCoins, MergedAnchors, MergedNullifiers;
      coins := WriteCoins(coins, childCoins);
      var a := WriteAnchors(sprout.anchors, childSprout.anchors);
      var b := WriteAnchors(sapling.anchors, childSapling.anchors);
      var c := WriteNullifiers(sprout.nullifiers, childSprout.nullifiers);
      var d := WriteNullifiers(sapling.nullifiers, childSapling.nullifiers);
      sprout := PoolCache(a, c, childSprout.best);
      sapling := PoolCache(b, d, childSapling.best);
      block := childBlock;
    }

    /** The writes of Flush: the merge into the layer beneath, then the empty maps. */
    method WriteDown()
      requires Valid() && base != null && !base.hasModifier
      requires forall t :: t in coins && coins[t].dirty && t !in base.coins && !IsPruned(coins[t].coins) ==>
        coins[t].isFresh
      modifies this, base
      ensures Valid() && base.Beneath() == old(base.Beneath())
      ensures base.base != null ==> base.base.Good() == old(base.base.Good())
      ensures base.Value() == Flushed(Pair(old(Value()), old(base.Value())))
      ensures Value() == Emptied(old(Value()))
      ensures base.base != null ==> base.base.coins == old(base.base.coins)
    {
      hide Flushed, IsPruned;
      base.BatchWrite(coins, sprout, sapling, block);
      coins := map[];
      sprout := sprout.(anchors := map[], nullifiers := map[]);
      sapling := sapling.(anchors := map[], nullifiers := map[]);
    }

    /**
     Push everything into the layer beneath, which then shows the coins, anchors and nullifiers this one showed, with
     flags truthful about its own base; the best block and anchors too, unless a null hash was handed over.
     */
    method Flush()
      requires Good() && base != null && !base.hasModifier && RootsDiffer(root)
      modifies this, base
      ensures Good() && base.Beneath() == old(base.Beneath())
      ensures var r, t := base.Seen(), old(Seen());
        && r.coins == t.coins
        && r.sprout.anchors == t.sprout.anchors && r.sprout.nullifiers == t.sprout.nullifiers
        && r.sapling.anchors == t.sapling.anchors && r.sapling.nullifiers == t.sapling.nullifiers
        && (old(block) != 0 && old(sprout.best) != 0 && old(sapling.best) != 0 ==> r == t)
      ensures coins == map[] && Seen().coins == old(Seen()).coins
    {
      ghost var p, v := Pair(Value(), base.Value()), base.Beneath();
      BaseOk(this);
      MergeLean(base.coins, coins, v.coins);
      if base.base != null {
        MergedThrough(p, base.base.coins);
      }
      hide Ok, Truthful, Lean, Rooted, Unpruned, CoinsShown, PoolShown, Flushed, RootsDiffer, IsPruned, ReadThrough;
      FlushKeeps(root, p, v);
      NoFreshFailure(p);
      WriteDown();
      LayerGood(base);
      SeenRooted(base);
      assert base.Seen() == Shown(Flushed(p), v);
      ClearedShows(root, Value(), base.Seen());
      LayerGood(this);
    }
  }

  /** What a good layer shows is a good base for the next one. */
  lemma {:induction false} SeenRooted(c: CoinsViewCache)
    requires c.Good()
    ensures Rooted(c.root, c.Seen().sprout.anchors) && Rooted(c.root, c.Seen().sapling.anchors)
      && Unpruned(c.Seen().coins)
  {
    ShownRooted(c.root, c.sprout.anchors, c.Beneath().sprout.anchors);
    ShownRooted(c.root, c.sapling.anchors, c.Beneath().sapling.anchors);
  }

  lemma FetchAnswers(c: CoinsMap, t: Hash, base: Unspent, found: Option<Coins>)
    requires CoinsTruthful(c, base) && Unpruned(base) && (t !in c ==> found.None? && Answers(found, t, base))
    ensures Answers(AnswerOf(c, t), t, CoinsShown(c, base))
  {
  }

  lemma PulledThrough(c: CoinsMap, parent: CoinsMap, t: Hash, x: Coins)
    requires ReadThrough(c, parent) && t in parent
    ensures ReadThrough(c[t := Pulled(x)], parent)
  {
  }

  lemma BestKeeps(root: Tree -> Hash, c: PoolCache, v: PoolView, best: Hash)
    ensures PoolTruthful(root, c.(best := best), v) <==> PoolTruthful(root, c, v)
    ensures c.best == 0 && best == v.best ==> PoolShown(c.(best := best), v) == PoolShown(c, v)
  {
  }

  lemma OpenedThrough(c: CoinsMap, parent: CoinsMap, t: Hash, found: Option<Coins>)
    requires ReadThrough(c, parent) && (found.Some? ==> t in parent)
    ensures var e := Opened(c, t, found); e.isFresh || t in parent
  {
  }

  lemma {:induction false} BaseOk(c: CoinsViewCache)
    requires c.Good() && c.base != null
    ensures Ok(c.root, Pair(c.Value(), c.base.Value()), c.base.Beneath())
    ensures c.Seen() == TopShown(Pair(c.Value(), c.base.Value()), c.base.Beneath())
    ensures ReadThrough(c.coins, c.base.coins)
    ensures Lean(c.base.coins, c.base.Beneath().coins)
    ensures Lean(c.coins, CoinsShown(c.base.coins, c.base.Beneath().coins))
  {
    hide CoinsTruthful, Lean, PoolTruthful, Rooted, Unpruned, ReadThrough, CoinsShown, PoolShown;
    assert c.Beneath() == c.base.Seen();
    assert c.base.Seen() == Shown(c.base.Value(), c.base.Beneath());
    assert c.base.Good();
  }

  /** A layer whose maps are empty shows what is beneath, but for its own hashes. */
  lemma ClearedShows(root: Tree -> Hash, c: Cache, v: View)
    requires c.coins == map[] && c.sprout.anchors == map[] && c.sprout.nullifiers == map[]
    requires c.sapling.anchors == map[] && c.sapling.nullifiers == map[]
    ensures Truthful(root, c, v) && Shown(c, v).coins == v.coins && forall parent :: ReadThrough(c.coins, parent)
    ensures Lean(c.coins, v.coins)
  {
    assert CoinsShown(c.coins, v.coins) == v.coins;
  }

  lemma AnchorLook(c: AnchorMap, base: map<Hash, Tree>, r: Hash)
    ensures Found(AnchorsShown(c, base), r) ==
      if r in c then (if c[r].entered then Some(c[r].tree) else None) else Found(base, r)
  {
  }

  function Emptied(c: Cache): Cache {
    Cache(map[], c.sprout.(anchors := map[], nullifiers := map[]),
          c.sapling.(anchors := map[], nullifiers := map[]), c.block)
  }

  /** New entries of the parent are fresh, so what its own parent must have kept it still has. */
  lemma MergedThrough(p: Pair, grand: CoinsMap)
    requires ReadThrough(p.parent.coins, grand)
    ensures ReadThrough(Flushed(p).coins, grand)
  {
  }

  lemma NoFreshFailure(p: Pair)
    requires ReadThrough(p.child.coins, p.parent.coins)
    ensures forall t ::
      t in p.child.coins && p.child.coins[t].dirty && t !in p.parent.coins && !IsPruned(p.child.coins[t].coins) ==>
      p.child.coins[t].isFresh
  {
  }

  /** What one layer owes for the chain to be good from it down. */
  lemma {:induction false} LayerGood(c: CoinsViewCache)
    requires c.Valid() && Truthful(c.root, c.Value(), c.Beneath()) && Lean(c.coins, c.Beneath().coins)
    requires Rooted(c.root, c.Beneath().sprout.anchors) && Rooted(c.root, c.Beneath().sapling.anchors)
      && Unpruned(c.Beneath().coins)
    requires c.base != null ==> c.base.Good() && ReadThrough(c.coins, c.base.coins)
    ensures c.Good()
  {
  }

  // ---------------------------------------------------------------- the loops of BatchWrite

  /** The entries of the child that are no longer in `rest` have been merged. */
  ghost predicate Progress<V(!new)>(r: map<Hash, V>, parent: map<Hash, V>, merged: Hash -> Option<V>,
      child: set<Hash>, rest: set<Hash>)
  {
    && rest <= child
    && forall t :: Found(r, t) == if t in child && t !in rest then merged(t) else Found(parent, t)
  }

  lemma ProgressStarts<V(!new)>(parent: map<Hash, V>, merged: Hash -> Option<V>, child: set<Hash>)
    ensures Progress(parent, parent, merged, child, child)
  {
  }

  lemma ProgressStep<V(!new)>(was: map<Hash, V>, now: map<Hash, V>, parent: map<Hash, V>, merged: Hash -> Option<V>,
                              child: set<Hash>, rest: set<Hash>, t: Hash)
    requires Progress(was, parent, merged, child, rest) && t in rest
    requires Found(now, t) == merged(t) && forall u :: u != t ==> Found(now, u) == Found(was, u)
    ensures Progress(now, parent, merged, child, rest - {t})
  {
    forall u
      ensures Found(now, u) == if u in child && u !in rest - {t} then merged(u) else Found(parent, u)
    {
      assert Found(was, u) == if u in child && u !in rest then merged(u) else Found(parent, u);
    }
  }

  lemma ProgressAt<V(!new)>(r: map<Hash, V>, parent: map<Hash, V>, merged: Hash -> Option<V>, child: set<Hash>,
      rest: set<Hash>, t: Hash)
    requires Progress(r, parent, merged, child, rest) && t in rest
    ensures t in child && Found(r, t) == Found(parent, t)
  {
  }

  lemma Written<V>(r: map<Hash, V>, t: Hash, e: V)
    ensures Found(r[t := e], t) == Some(e) && forall u :: u != t ==> Found(r[t := e], u) == Found(r, u)
    ensures Found(r - {t}, t) == None && forall u :: u != t ==> Found(r - {t}, u) == Found(r, u)
  {
  }

  lemma Extensional<V>(a: map<Hash, V>, b: map<Hash, V>)
    requires forall t :: Found(a, t) == Found(b, t)
    ensures a == b
  {
    forall t
      ensures t in a <==> t in b
    {
      assert Found(a, t) == Found(b, t);
    }
    forall t | t in a
      ensures a[t] == b[t]
    {
      assert Found(a, t) == Found(b, t);
    }
  }

  /** The map is walked in no particular order. */
  method WriteCoins(parent: CoinsMap, child: CoinsMap) returns (r: CoinsMap)
    requires forall t :: t in child && child[t].dirty && t !in parent && !IsPruned(child[t].coins) ==> child[t].isFresh
    ensures r == MergedCoins(parent, child)
  {
    hide IsPruned, Progress, MergedCoins;
    r := parent;
    var rest := child.Keys;
    ghost var merged := (t: Hash) => MergedEntry(parent, child, t);
    ProgressStarts(parent, merged, child.Keys);
    while rest != {}
      invariant rest <= child.Keys && Progress(r, parent, merged, child.Keys, rest)
      decreases |rest|
    {
      var t :| t in rest;
      var e := child[t];
      ghost var was := r;
      ProgressAt(r, parent, merged, child.Keys, rest, t);
      if e.dirty {
        if t !in r {
          if !IsPruned(e.coins) {
            assert e.isFresh;
            Written(r, t, Entry(e.coins, true, true));
            r := r[t := Entry(e.coins, true, true)];
          }
        } else if r[t].isFresh && IsPruned(e.coins) {
          Written(r, t, e);
          r := r - {t};
        } else {
          Written(r, t, Entry(e.coins, true, r[t].isFresh));
          r := r[t := Entry(e.coins, true, r[t].isFresh)];
        }
      }
      ProgressStep(was, r, parent, merged, child.Keys, rest, t);
      rest := rest - {t};
    }
    CoinsEnd(parent, child, merged, r);
  }

  lemma CoinsEnd(parent: CoinsMap, child: CoinsMap, merged: Hash -> Option<Entry>, r: CoinsMap)
    requires Progress(r, parent, merged, child.Keys, {}) && forall t :: merged(t) == MergedEntry(parent, child, t)
    ensures r == MergedCoins(parent, child)
  {
    forall t
      ensures Found(r, t) == Found(MergedCoins(parent, child), t)
    {
      assert Found(r, t) == if t in child then merged(t) else Found(parent, t);
    }
    Extensional(r, MergedCoins(parent, child));
  }

  function MergedAnchorAt(parent: AnchorMap, child: AnchorMap, t: Hash): Option<AnchorEntry> {
    if t in parent || (t in child && child[t].dirty) then Some(MergedAnchor(parent, child, t)) else None
  }

  method WriteAnchors(parent: AnchorMap, child: AnchorMap) returns (r: AnchorMap)
    ensures r == MergedAnchors(parent, child)
  {
    hide MergedAnchors, Progress;
    r := parent;
    var rest := child.Keys;
    ghost var merged := (t: Hash) => MergedAnchorAt(parent, child, t);
    ProgressStarts(parent, merged, child.Keys);
    while rest != {}
      invariant rest <= child.Keys && Progress(r, parent, merged, child.Keys, rest)
      decreases |rest|
    {
      var t :| t in rest;
      var e := child[t];
      ghost var was := r;
      ProgressAt(r, parent, merged, child.Keys, rest, t);
      if e.dirty {
        if t !in r {
          Written(r, t, AnchorEntry(e.entered, e.tree, true));
          r := r[t := AnchorEntry(e.entered, e.tree, true)];
        } else if r[t].entered != e.entered {
          Written(r, t, r[t].(entered := e.entered, dirty := true));
          r := r[t := r[t].(entered := e.entered, dirty := true)];
        }
      }
      ProgressStep(was, r, parent, merged, child.Keys, rest, t);
      rest := rest - {t};
    }
    AnchorsEnd(parent, child, merged, r);
  }

  lemma AnchorsEnd(parent: AnchorMap, child: AnchorMap, merged: Hash -> Option<AnchorEntry>, r: AnchorMap)
    requires Progress(r, parent, merged, child.Keys, {}) && forall t :: merged(t) == MergedAnchorAt(parent, child, t)
    ensures r == MergedAnchors(parent, child)
  {
    forall t
      ensures Found(r, t) == Found(MergedAnchors(parent, child), t)
    {
      assert Found(r, t) == if t in child then merged(t) else Found(parent, t);
    }
    Extensional(r, MergedAnchors(parent, child));
  }

  function MergedNullifierAt(parent: NullifierMap, child: NullifierMap, t: Hash): Option<NullifierEntry> {
    if t in parent || (t in child && child[t].dirty) then Some(MergedNullifier(parent, child, t)) else None
  }

  method WriteNullifiers(parent: NullifierMap, child: NullifierMap) returns (r: NullifierMap)
    ensures r == MergedNullifiers(parent, child)
  {
    hide MergedNullifiers, Progress;
    r := parent;
    var rest := child.Keys;
    ghost var merged := (t: Hash) => MergedNullifierAt(parent, child, t);
    ProgressStarts(parent, merged, child.Keys);
    while rest != {}
      invariant rest <= child.Keys && Progress(r, parent, merged, child.Keys, rest)
      decreases |rest|
    {
      var t :| t in rest;
      var e := child[t];
      ghost var was := r;
      ProgressAt(r, parent, merged, child.Keys, rest, t);
      if e.dirty {
        Written(r, t, NullifierEntry(e.entered, true));
        if t !in r {
          r := r[t := NullifierEntry(e.entered, true)];
        } else if r[t].entered != e.entered {
          r := r[t := NullifierEntry(e.entered, true)];
        }
      }
      ProgressStep(was, r, parent, merged, child.Keys, rest, t);
      rest := rest - {t};
    }
    NullifiersEnd(parent, child, merged, r);
  }

  lemma NullifiersEnd(parent: NullifierMap, child: NullifierMap, merged: Hash -> Option<NullifierEntry>,
      r: NullifierMap)
    requires Progress(r, parent, merged, child.Keys, {}) && forall t :: merged(t) == MergedNullifierAt(parent, child, t)
    ensures r == MergedNullifiers(parent, child)
  {
    forall t
      ensures Found(r, t) == Found(MergedNullifiers(parent, child), t)
    {
      assert Found(r, t) == if t in child then merged(t) else Found(parent, t);
    }
    Extensional(r, MergedNullifiers(parent, child));
  }
}
