/**
 The weighted transaction tree that keeps the mempool within its total cost: transactions
 sit in an implicit binary tree whose nodes remember the weight below them.
 */
module MempoolLimit {
  import opened WeightTree

  type TxId = nat

  datatype Info = Info(txId: TxId, txWeight: TxWeight)

  datatype Dropped = Nothing | Drop(txId: TxId)

  const MIN_TX_COST := 4000
  const LOW_FEE_PENALTY := 16000
  const DEFAULT_FEE := 10000

  /** The weight of a transaction of a given memory footprint and fee. */
  function WeightOf(usage: nat, fee: int): (w: TxWeight)
    ensures Proper(w) && w.cost > 0
    ensures w.cost >= usage && (usage <= MIN_TX_COST ==> w.cost == MIN_TX_COST)
    ensures w.evictionWeight - w.cost == if fee < 10000 then 16000 else 0
    ensures w.evictionWeight <= 5 * w.cost
  {
    var cost := if usage < MIN_TX_COST then MIN_TX_COST else usage;
    TxWeight(cost, if fee < DEFAULT_FEE then cost + LOW_FEE_PENALTY else cost)
  }

  function Weights(items: seq<Info>): (ws: seq<TxWeight>)
    ensures |ws| == |items|
    ensures forall i :: 0 <= i < |ws| ==> ws[i] == items[i].txWeight
  {
    seq(|items|, i requires 0 <= i < |items| => items[i].txWeight)
  }

  /** What the narrowing of a 64-bit value to `int` leaves. */
  function ToInt(x: int): int {
    if -0x8000_0000 <= x < 0x8000_0000 then x else (x + 0x8000_0000) % 0x1_0000_0000 - 0x8000_0000
  }

  // ---------------------------------------------------------------- the invariant

  /** Every node remembers the weight of all its proper descendants. */
  predicate SumsOk(ws: seq<TxWeight>, childWeights: seq<TxWeight>) {
    && |childWeights| == |ws|
    && forall i :: 0 <= i < |ws| ==> childWeights[i] == Below(ws, i)
  }

  function Below(ws: seq<TxWeight>, i: nat): TxWeight {
    Plus(Sub(ws, 2 * i + 1), Sub(ws, 2 * i + 2))
  }

  /** The id map and the vector of transactions are inverses of each other. */
  predicate IndexOk(items: seq<Info>, index: map<TxId, nat>) {
    && (forall t :: t in index ==> index[t] < |items| && items[index[t]].txId == t)
    && (forall i :: 0 <= i < |items| ==> items[i].txId in index && index[items[i].txId] == i)
  }

  /** The transactions held, each with its weight. */
  function Held(items: seq<Info>, index: map<TxId, nat>): map<TxId, TxWeight>
    requires IndexOk(items, index)
  {
    map t | t in index :: items[index[t]].txWeight
  }

  /** `after` is `before` with `delta` added at every ancestor of `k`. */
  predicate Propagated(before: seq<TxWeight>, after: seq<TxWeight>, k: nat, delta: TxWeight) {
    && |after| == |before|
    && forall a :: 0 <= a < |before| ==> after[a] == if Ancestor(a, k) then Plus(before[a], delta) else before[a]
  }

  // ---------------------------------------------------------------- what propagation does to the sums

  lemma BelowUpdate(ws: seq<TxWeight>, k: nat, w: TxWeight, a: nat)
    requires k < |ws|
    ensures Below(ws[k := w], a) == if Ancestor(a, k) then Plus(Below(ws, a), Plus(w, Negate(ws[k]))) else Below(ws, a)
  {
    hide Sub, Under;
    SubUpdate(ws, k, w, 2 * a + 1);
    SubUpdate(ws, k, w, 2 * a + 2);
    UnderSplits(a, k);
  }

  lemma BelowAppend(ws: seq<TxWeight>, w: TxWeight, a: nat)
    ensures Below(ws + [w], a) == if Ancestor(a, |ws|) then Plus(Below(ws, a), w) else Below(ws, a)
  {
    hide Sub, Under;
    SubAppend(ws, w, 2 * a + 1);
    SubAppend(ws, w, 2 * a + 2);
    UnderSplits(a, |ws|);
  }

  lemma PropagateUpdate(ws: seq<TxWeight>, before: seq<TxWeight>, after: seq<TxWeight>, k: nat, w: TxWeight)
    requires k < |ws| && SumsOk(ws, before) && Propagated(before, after, k, Plus(w, Negate(ws[k])))
    ensures SumsOk(ws[k := w], after)
  {
    hide Sub, Under, Ancestor, Below;
    forall a | 0 <= a < |ws|
      ensures after[a] == Below(ws[k := w], a)
    {
      BelowUpdate(ws, k, w, a);
    }
  }

  lemma PropagateAppend(ws: seq<TxWeight>, before: seq<TxWeight>, after: seq<TxWeight>, w: TxWeight)
    requires SumsOk(ws, before) && Propagated(before + [ZERO], after, |ws|, w)
    ensures SumsOk(ws + [w], after)
  {
    hide Sub, Under, Below;
    var k := |ws|;
    forall a | 0 <= a < |ws| + 1
      ensures after[a] == Below(ws + [w], a)
    {
      BelowAppend(ws, w, a);
      if a == k {
        BelowLeaf(ws, a);
      }
    }
  }

  lemma BelowLeaf(ws: seq<TxWeight>, a: nat)
    requires a >= |ws|
    ensures Below(ws, a) == ZERO
  {
    hide Sub, Plus;
    SubUnfolds(ws, 2 * a + 1);
    SubUnfolds(ws, 2 * a + 2);
    PlusZero(ZERO, ZERO);
  }

  /** Taking the last weight away, whose own sum is then dropped. */
  lemma PropagateDrop(ws: seq<TxWeight>, before: seq<TxWeight>, after: seq<TxWeight>)
    requires ws != [] && SumsOk(ws, before)
    requires Propagated(before, after, |ws| - 1, Negate(ws[|ws| - 1]))
    ensures SumsOk(ws[..|ws| - 1], after[..|ws| - 1])
  {
    hide Sub, Under, Below;
    var k := |ws| - 1;
    var front := ws[..k];
    assert front + [ws[k]] == ws;
    forall a | 0 <= a < k
      ensures after[a] == Below(front, a)
    {
      BelowAppend(front, ws[k], a);
    }
  }

  /** The second half of a removal: the last transaction takes the place of the removed one. */
  lemma PropagateMove(ws: seq<TxWeight>, dropped: seq<TxWeight>, after: seq<TxWeight>, i: nat, delta: TxWeight)
    requires i < |ws| - 1 && |dropped| == |ws|
    requires SumsOk(ws[..|ws| - 1], dropped[..|ws| - 1])
    requires delta == Plus(ws[|ws| - 1], Negate(ws[i]))
    requires Propagated(dropped, after, i, delta)
    ensures SumsOk(Removed(ws, i), after[..|ws| - 1])
  {
    hide SumsOk, Ancestor;
    var k := |ws| - 1;
    assert ws[..k][i] == ws[i];
    assert Propagated(dropped[..k], after[..k], i, delta);
    PropagateUpdate(ws[..k], dropped[..k], after[..k], i, ws[k]);
  }

  lemma FrontAndLast<T>(s: seq<T>)
    requires s != []
    ensures s[..|s| - 1] + [s[|s| - 1]] == s
  {
  }

  lemma WeightsRemoved(items: seq<Info>, i: nat)
    requires i < |items|
    ensures Weights(Removed(items, i)) == Removed(Weights(items), i)
  {
  }

  /** What is left when the last element takes the place of the one at `i`. */
  function Removed<T>(ws: seq<T>, i: nat): (r: seq<T>)
    requires i < |ws|
    ensures |r| == |ws| - 1
  {
    var k := |ws| - 1;
    if i < k then ws[..k][i := ws[k]] else ws[..k]
  }

  /** A removal takes exactly the removed weight from the total. */
  lemma {:induction false} RemovedTotal(ws: seq<TxWeight>, i: nat)
    requires i < |ws|
    ensures Total(ws) == Plus(Total(Removed(ws, i)), ws[i])
    ensures AllProper(ws) ==> AllProper(Removed(ws, i))
  {
    hide Sub, Under, Total;
    var k := |ws| - 1;
    var front := ws[..k];
    RootIsTotal(ws);
    RootIsTotal(front);
    RootIsTotal(Removed(ws, i));
    FrontAndLast(ws);
    SubAppend(front, ws[k], 0);
    UnderRoot(k);
    if i < k {
      SubUpdate(front, i, ws[k], 0);
      UnderRoot(i);
    }
  }

  lemma {:induction false} TotalProper(ws: seq<TxWeight>)
    requires AllProper(ws)
    ensures Proper(Total(ws)) && Total(ws) == Sub(ws, 0)
  {
    RootIsTotal(ws);
    SubProper(ws, 0);
  }

  // ---------------------------------------------------------------- the tree

  class WeightedTxTree {
    const capacity: int
    var size: nat
    var txIdAndWeights: seq<Info>
    var childWeights: seq<TxWeight>
    var txIdToIndex: map<TxId, nat>

    ghost predicate Valid()
      reads this
    {
      && capacity >= 0
      && size == |txIdAndWeights|
      && SumsOk(Weights(txIdAndWeights), childWeights)
      && IndexOk(txIdAndWeights, txIdToIndex)
    }

    /** Valid, with non-negative weights whose total a 32-bit integer holds. */
    ghost predicate Bounded()
      reads this
    {
      && Valid()
      && AllProper(Weights(txIdAndWeights))
      && Total(Weights(txIdAndWeights)).evictionWeight < 0x8000_0000
    }

    ghost function Contents(): map<TxId, TxWeight>
      reads this
      requires IndexOk(txIdAndWeights, txIdToIndex)
    {
      Held(txIdAndWeights, txIdToIndex)
    }

    constructor (capacity: int)
      requires capacity >= 0
      ensures Valid() && this.capacity == capacity && Contents() == map[]
    {
      this.capacity := capacity;
      size := 0;
      txIdAndWeights := [];
      childWeights := [];
      txIdToIndex := map[];
    }

    function WeightAt(i: nat): (w: TxWeight)
      reads this
      requires Valid()
      ensures w == Sub(Weights(txIdAndWeights), i)
    {
      SubUnfolds(Weights(txIdAndWeights), i);
      if i < size then Plus(txIdAndWeights[i].txWeight, childWeights[i]) else ZERO
    }

    function TotalWeight(): (w: TxWeight)
      reads this
      requires Valid()
      ensures w == Total(Weights(txIdAndWeights))
    {
      RootIsTotal(Weights(txIdAndWeights));
      WeightAt(0)
    }

    method BackPropagate(k: nat, delta: TxWeight)
      requires k < |childWeights|
      modifies this`childWeights
      ensures Propagated(old(childWeights), childWeights, k, delta)
    {
      var i := k;
      ghost var was := childWeights;
      while i > 0
        invariant 0 <= i <= k
        invariant |childWeights| == |was|
        invariant forall a :: 0 <= a < |was| ==> Caught(was, childWeights, k, i, delta, a)
      {
        var next := (i - 1) / 2;
        ghost var now := childWeights;
        childWeights := childWeights[next := Plus(childWeights[next], delta)];
        forall a | 0 <= a < |was|
          ensures Caught(was, childWeights, k, next, delta, a)
        {
          assert Caught(was, now, k, i, delta, a);
          AncestorStep(a, i);
        }
        i := next;
      }
      forall a | 0 <= a < |was|
        ensures childWeights[a] == if Ancestor(a, k) then Plus(was[a], delta) else was[a]
      {
        assert Caught(was, childWeights, k, 0, delta, a);
        AncestorStep(a, 0);
      }
    }

    method FindByEvictionWeight(i: nat, weightToFind: int) returns (r: nat)
      requires Valid() && AllProper(Weights(txIdAndWeights))
      requires Sub(Weights(txIdAndWeights), i).evictionWeight < 0x8000_0000
      requires 0 <= weightToFind < Sub(Weights(txIdAndWeights), i).evictionWeight
      ensures r == Drawn(Weights(txIdAndWeights), i, weightToFind)
      decreases size - i
    {
      hide Sub, Drawn, AllProper, SumsOk, IndexOk;
      ghost var ws := Weights(txIdAndWeights);
      Bounds(ws, i);
      Narrow(ws, i);
      DrawnUnfolds(ws, i, weightToFind);
      var leftWeight := ToInt(WeightAt(2 * i + 1).evictionWeight);
      var rightWeight := ToInt(WeightAt(i).evictionWeight - WeightAt(2 * i + 2).evictionWeight);
      if weightToFind < leftWeight {
        r := FindByEvictionWeight(2 * i + 1, weightToFind);
      } else if weightToFind < rightWeight {
        r := i;
      } else {
        r := FindByEvictionWeight(2 * i + 2, weightToFind - rightWeight);
      }
    }

    method Add(info: Info)
      requires Valid()
      modifies this
      ensures Valid()
      ensures Contents() == if info.txId in old(Contents()) then old(Contents())
                            else old(Contents())[info.txId := info.txWeight]
      ensures Weights(txIdAndWeights) == if info.txId in old(Contents()) then old(Weights(txIdAndWeights))
                                         else old(Weights(txIdAndWeights)) + [info.txWeight]
      ensures info.txId !in old(Contents()) ==> TotalWeight() == Plus(old(TotalWeight()), info.txWeight)
    {
      hide Sub, SumsOk, IndexOk, Held, Total, Propagated;
      HeldKeys(txIdAndWeights, txIdToIndex);
      if info.txId in txIdToIndex {
        return;
      }
      AddedIndex(txIdAndWeights, txIdToIndex, info);
      ghost var ws, before, items := Weights(txIdAndWeights), childWeights, txIdAndWeights;
      txIdAndWeights := txIdAndWeights + [info];
      childWeights := childWeights + [ZERO];
      txIdToIndex := txIdToIndex[info.txId := size];
      SumsShape(ws, before);
      BackPropagate(size, info.txWeight);
      size := size + 1;
      PropagateAppend(ws, before, childWeights, info.txWeight);
      assert Weights(txIdAndWeights) == ws + [info.txWeight];
      AddedTotal(ws, info.txWeight);
    }

    method Remove(txId: TxId)
      requires Valid()
      modifies this
      ensures Valid()
      ensures Contents() == old(Contents()) - {txId}
      ensures if txId in old(Contents()) then
                && size == old(size) - 1
                && Total(Weights(old(txIdAndWeights))) == Plus(Total(Weights(txIdAndWeights)), old(Contents())[txId])
              else size == old(size) && Weights(txIdAndWeights) == old(Weights(txIdAndWeights))
      ensures old(Bounded()) ==> Bounded()
    {
      hide Sub, SumsOk, Total, AllProper, IndexOk, Propagated, Negate, Held;
      HeldKeys(txIdAndWeights, txIdToIndex);
      if txId !in txIdToIndex {
        return;
      }
      ghost var ws, before, items, index := Weights(txIdAndWeights), childWeights, txIdAndWeights, txIdToIndex;
      SumsShape(ws, before);
      IndexFacts(items, index, txId);
      if AllProper(ws) {
        HeldProper(items, index, txId);
      }
      var removeIndex := txIdToIndex[txId];
      size := size - 1;
      var lastChildWeight := txIdAndWeights[size].txWeight;
      BackPropagate(size, Negate(lastChildWeight));
      PropagateDrop(ws, before, childWeights);
      ghost var dropped := childWeights;
      if removeIndex < size {
        var weightDelta := Plus(lastChildWeight, Negate(txIdAndWeights[removeIndex].txWeight));
        txIdAndWeights := txIdAndWeights[removeIndex := txIdAndWeights[size]];
        txIdToIndex := txIdToIndex[txIdAndWeights[removeIndex].txId := removeIndex];
        BackPropagate(removeIndex, weightDelta);
        PropagateMove(ws, dropped, childWeights, removeIndex, weightDelta);
      }
      txIdToIndex := txIdToIndex - {txId};
      txIdAndWeights := txIdAndWeights[..size];
      childWeights := childWeights[..size];
      WeightsRemoved(items, removeIndex);
      RemovedTotal(ws, removeIndex);
      RemovedIndex(items, index, txIdAndWeights, txIdToIndex, removeIndex);
    }

    /** One eviction: nothing when the cost fits, otherwise the transaction a random draw lands on. */
    method MaybeDropRandom() returns (r: Dropped, ghost draw: int)
      requires Bounded()
      modifies this
      ensures Bounded()
      ensures r.Nothing? <==> old(TotalWeight()).cost <= capacity
      ensures r.Nothing? ==> unchanged(this)
      ensures r.Drop? ==>
                && r.txId in old(Contents()) && Contents() == old(Contents()) - {r.txId}
                && size == old(size) - 1
                && 0 <= draw < old(TotalWeight()).evictionWeight
                && Total(Weights(old(txIdAndWeights))) == Plus(Total(Weights(txIdAndWeights)), old(Contents())[r.txId])
      ensures r.Drop? ==> Lands(old(txIdAndWeights), draw, r.txId)
    {
      hide Sub, SumsOk, Total, AllProper, Drawn;
      ghost var ws, items := Weights(txIdAndWeights), txIdAndWeights;
      draw := 0;
      TotalProper(ws);
      if TotalWeight().cost <= capacity {
        return Nothing, draw;
      }
      var w: int :| 0 <= w < TotalWeight().evictionWeight;
      var i := FindByEvictionWeight(0, w);
      draw := w;
      var id := txIdAndWeights[i].txId;
      Remove(id);
      r := Drop(id);
    }
  }

  /** The cost of all transactions of a pool. */
  ghost function CostOf(m: map<TxId, TxWeight>): int
    decreases |m|
  {
    if m == map[] then 0
    else
      var t :| t in m;
      m[t].cost + CostOf(m - {t})
  }

  lemma {:induction false} CostWithout(m: map<TxId, TxWeight>, t: TxId)
    requires t in m
    ensures CostOf(m) == m[t].cost + CostOf(m - {t})
    decreases |m|
  {
    var u :| u in m && CostOf(m) == m[u].cost + CostOf(m - {u});
    if u != t {
      CostWithout(m - {u}, t);
      CostWithout(m - {t}, u);
      assert m - {u} - {t} == m - {t} - {u};
    }
  }

  lemma {:induction false} HeldCost(items: seq<Info>, index: map<TxId, nat>)
    requires IndexOk(items, index)
    ensures CostOf(Held(items, index)) == Total(Weights(items)).cost
    decreases |items|
  {
    var m := Held(items, index);
    if items == [] {
      assert m == map[];
    } else {
      var n := |items| - 1;
      var last := items[n].txId;
      HeldCost(items[..n], index - {last});
      CostWithout(m, last);
      assert Held(items[..n], index - {last}) == m - {last};
      assert Weights(items)[..n] == Weights(items[..n]);
    }
  }

  /** The evicted transactions and their dependents. */
  ghost function Gone(evicted: seq<TxId>, dependents: TxId -> seq<TxId>): set<TxId> {
    if evicted == [] then {}
    else
      var e := evicted[|evicted| - 1];
      Gone(evicted[..|evicted| - 1], dependents) + {e} + IdSet(dependents(e))
  }

  /** Each eviction was of a transaction that was still there, while the cost was still over the limit. */
  ghost predicate Needed(held: map<TxId, TxWeight>, evicted: seq<TxId>, dependents: TxId -> seq<TxId>, capacity: int) {
    forall k :: 0 <= k < |evicted| ==> Evictable(held - Gone(evicted[..k], dependents), evicted[k], capacity)
  }

  ghost predicate Evictable(held: map<TxId, TxWeight>, t: TxId, capacity: int) {
    t in held && CostOf(held) > capacity
  }

  lemma NeededNext(held: map<TxId, TxWeight>, evicted: seq<TxId>, dependents: TxId -> seq<TxId>, capacity: int, t: TxId)
    requires Needed(held, evicted, dependents, capacity)
    requires Evictable(held - Gone(evicted, dependents), t, capacity)
    ensures Needed(held, evicted + [t], dependents, capacity)
    ensures Gone(evicted + [t], dependents) == Gone(evicted, dependents) + {t} + IdSet(dependents(t))
  {
    hide Evictable, Gone;
    var more := evicted + [t];
    GoneNext(evicted, dependents, t);
    forall k | 0 <= k < |more| ensures Evictable(held - Gone(more[..k], dependents), more[k], capacity) {
      assert more[..k] == evicted[..k];
      assert k == |evicted| ==> evicted[..k] == evicted;
    }
  }

  lemma GoneNext(evicted: seq<TxId>, dependents: TxId -> seq<TxId>, t: TxId)
    ensures Gone(evicted + [t], dependents) == Gone(evicted, dependents) + {t} + IdSet(dependents(t))
  {
    assert (evicted + [t])[..|evicted|] == evicted;
  }

  /**
   Dropping until nothing needs to be dropped: each evicted transaction takes its dependents along, and none is
   evicted once the cost is within the limit.
   */
  method EnsureSizeLimit(tree: WeightedTxTree, dependents: TxId -> seq<TxId>) returns (evicted: seq<TxId>)
    requires tree.Bounded()
    modifies tree
    ensures tree.Bounded() && tree.TotalWeight().cost <= tree.capacity
    ensures tree.Contents() == old(tree.Contents()) - Gone(evicted, dependents)
    ensures Needed(old(tree.Contents()), evicted, dependents, tree.capacity)
    ensures CostOf(tree.Contents()) <= tree.capacity
    ensures evicted == [] <==> old(tree.TotalWeight()).cost <= tree.capacity
    ensures forall t :: t in evicted ==> t in old(tree.Contents()) && t !in tree.Contents()
  {
    hide Total, AllProper, SumsOk, IndexOk, Sub, Drawn, Lands, IdSet, Held, Weights, Gone, Needed, CostOf;
    evicted := [];
    ghost var held := tree.Contents();
    NoneGone(held, dependents, tree.capacity);
    HeldCost(tree.txIdAndWeights, tree.txIdToIndex);
    var r, draw := tree.MaybeDropRandom();
    while r.Drop?
      invariant tree.Bounded()
      invariant evicted == [] && r.Nothing? ==> old(tree.TotalWeight()).cost <= tree.capacity
      invariant r.Nothing? ==> tree.TotalWeight().cost <= tree.capacity
      invariant Needed(held, evicted, dependents, tree.capacity)
      invariant r.Drop? ==> Evictable(held - Gone(evicted, dependents), r.txId, tree.capacity)
      invariant tree.Contents() == held - Gone(evicted, dependents) - (if r.Drop? then {r.txId} else {})
      decreases r.Drop?, tree.size
    {
      NeededNext(held, evicted, dependents, tree.capacity, r.txId);
      evicted := evicted + [r.txId];
      RemoveAll(tree, dependents(r.txId));
      assert tree.Contents() == held - Gone(evicted, dependents);
      HeldCost(tree.txIdAndWeights, tree.txIdToIndex);
      r, draw := tree.MaybeDropRandom();
    }
    HeldCost(tree.txIdAndWeights, tree.txIdToIndex);
    EvictedGone(held, evicted, dependents, tree.capacity);
  }

  lemma {:induction false} EvictedGone(held: map<TxId, TxWeight>, evicted: seq<TxId>, dependents: TxId -> seq<TxId>,
      capacity: int)
    requires Needed(held, evicted, dependents, capacity)
    ensures forall t :: t in evicted ==> t in held && t in Gone(evicted, dependents)
    ensures evicted == [] || CostOf(held) > capacity
    ensures evicted == [] ==> Gone(evicted, dependents) == {}
  {
    hide CostOf, Gone;
    NoneGone(held, dependents, capacity);
    forall k | 0 <= k < |evicted| ensures evicted[k] in held && evicted[k] in Gone(evicted, dependents) {
      assert Evictable(held - Gone(evicted[..k], dependents), evicted[k], capacity);
      GoneHas(evicted, dependents, k);
    }
    if evicted != [] {
      assert evicted[..0] == [];
      assert Evictable(held - Gone(evicted[..0], dependents), evicted[0], capacity);
    }
  }

  lemma {:induction false} GoneHas(evicted: seq<TxId>, dependents: TxId -> seq<TxId>, k: nat)
    requires k < |evicted|
    ensures evicted[k] in Gone(evicted, dependents)
    decreases |evicted|
  {
    if k < |evicted| - 1 {
      GoneHas(evicted[..|evicted| - 1], dependents, k);
    }
  }

  lemma NoneGone(held: map<TxId, TxWeight>, dependents: TxId -> seq<TxId>, capacity: int)
    ensures Needed(held, [], dependents, capacity) && Gone([], dependents) == {} && held - {} == held
  {
  }

  function IdSet(ids: seq<TxId>): set<TxId> {
    set t | t in ids
  }

  method RemoveAll(tree: WeightedTxTree, ids: seq<TxId>)
    requires tree.Bounded()
    modifies tree
    ensures tree.Bounded() && tree.size <= old(tree.size)
    ensures tree.Contents() == old(tree.Contents()) - IdSet(ids)
  {
    hide Total, AllProper, SumsOk, IndexOk, Sub, Held;
    for i := 0 to |ids|
      invariant tree.Bounded() && tree.size <= old(tree.size)
      invariant tree.Contents() == old(tree.Contents()) - IdSet(ids[..i])
    {
      tree.Remove(ids[i]);
      assert IdSet(ids[..i + 1]) == IdSet(ids[..i]) + {ids[i]};
    }
    assert ids[..|ids|] == ids;
  }

  lemma HeldProper(items: seq<Info>, index: map<TxId, nat>, t: TxId)
    requires IndexOk(items, index) && AllProper(Weights(items)) && t in index
    ensures Proper(Held(items, index)[t])
  {
    assert Weights(items)[index[t]] == items[index[t]].txWeight;
  }

  /** The draw lands on the transaction `t`, as sampling by weight has it. */
  ghost predicate Lands(items: seq<Info>, draw: int, t: TxId) {
    var ws := Weights(items);
    && AllProper(ws) && 0 <= draw < Sub(ws, 0).evictionWeight
    && items[Drawn(ws, 0, draw)].txId == t
  }

  lemma IndexFacts(items: seq<Info>, index: map<TxId, nat>, t: TxId)
    requires IndexOk(items, index) && t in index
    ensures index[t] < |items| && items[index[t]].txId == t
    ensures Held(items, index)[t] == items[index[t]].txWeight
  {
  }

  lemma HeldKeys(items: seq<Info>, index: map<TxId, nat>)
    requires IndexOk(items, index)
    ensures Held(items, index).Keys == index.Keys
  {
  }

  lemma AddedIndex(items: seq<Info>, index: map<TxId, nat>, info: Info)
    requires IndexOk(items, index) && info.txId !in index
    ensures IndexOk(items + [info], index[info.txId := |items|])
    ensures Held(items + [info], index[info.txId := |items|]) == Held(items, index)[info.txId := info.txWeight]
  {
  }

  lemma {:induction false} AddedTotal(ws: seq<TxWeight>, w: TxWeight)
    ensures Total(ws + [w]) == Plus(Total(ws), w)
  {
    assert (ws + [w])[..|ws|] == ws;
  }

  /** The id map stays the inverse of the vector when the last transaction takes the place of the one at `i`. */
  lemma RemovedIndex(items: seq<Info>, index: map<TxId, nat>, after: seq<Info>, afterIndex: map<TxId, nat>, i: nat)
    requires IndexOk(items, index) && i < |items|
    requires after == Removed(items, i)
    requires
      var k := |items| - 1;
      if i < k then afterIndex == index[items[k].txId := i] - {items[i].txId}
      else afterIndex == index - {items[i].txId}
    ensures IndexOk(after, afterIndex)
    ensures Held(after, afterIndex) == Held(items, index) - {items[i].txId}
  {
    var k := |items| - 1;
    forall t | t in afterIndex
      ensures t in index && afterIndex[t] < |after| && after[afterIndex[t]] == items[index[t]]
    {
      assert index[t] != i;
    }
    forall j | 0 <= j < |after|
      ensures after[j].txId in afterIndex && afterIndex[after[j].txId] == j
    {
      assert after[j] == if j == i then items[k] else items[j];
    }
  }

  lemma SumsShape(ws: seq<TxWeight>, childWeights: seq<TxWeight>)
    requires SumsOk(ws, childWeights)
    ensures |childWeights| == |ws|
  {
  }

  lemma {:induction false} Narrow(ws: seq<TxWeight>, i: nat)
    requires AllProper(ws) && Sub(ws, i).evictionWeight < 0x8000_0000
    ensures ToInt(OwnFrom(ws, i)) == OwnFrom(ws, i) && ToInt(RightFrom(ws, i)) == RightFrom(ws, i)
    ensures Sub(ws, 2 * i + 1).evictionWeight < 0x8000_0000 && Sub(ws, 2 * i + 2).evictionWeight < 0x8000_0000
  {
    hide Sub, AllProper;
    Bounds(ws, i);
  }

  /** Once the ancestors of `i` are done as well, `now` is `was` with `delta` added at the ancestors of `k`. */
  predicate Caught(was: seq<TxWeight>, now: seq<TxWeight>, k: nat, i: nat, delta: TxWeight, a: nat)
    requires a < |was| == |now|
  {
    && (Ancestor(a, i) ==> Ancestor(a, k))
    && now[a] == if Ancestor(a, k) && !Ancestor(a, i) then Plus(was[a], delta) else was[a]
  }

  // ---------------------------------------------------------------- when narrowing matters

  lemma {:induction false} FiveTimes(ws: seq<TxWeight>)
    requires forall i :: 0 <= i < |ws| ==> ws[i].evictionWeight <= 5 * ws[i].cost
    ensures Total(ws).evictionWeight <= 5 * Total(ws).cost
  {
    if ws != [] {
      FiveTimes(ws[..|ws| - 1]);
    }
  }

  /**
   Weights of transactions that cost less than 429496730 in total, the default limit five times over, fit an integer.
   */
  lemma {:induction false} CostBounds(ws: seq<TxWeight>)
    requires forall i :: 0 <= i < |ws| ==> ws[i].evictionWeight <= 5 * ws[i].cost
    requires Total(ws).cost < 429496730
    ensures Total(ws).evictionWeight < 0x8000_0000
  {
    FiveTimes(ws);
  }
}
