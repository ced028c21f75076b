/**
 The selected block in the numbers of its transactions: in which order they come, when the order changes from
 priority to fee rate, and exactly which transactions get in.
 */
module BlockMeaning {
  import opened BlockSelection
  import opened BlockLimits
  import opened BlockChoice

  /** Whether the queue is ordered by fee rate at turn `i`. */
  function ByFeeAt(env: Env, considered: seq<TxId>, i: nat): bool
    requires i <= |considered|
  {
    Replay(env, considered[..i]).byFee
  }

  /**
   Of two transactions of the block that could both be considered at the turn of the first, the first has the higher
   fee rate and, at the same fee rate, the higher priority; while priorities come first, the other way round.
   */
  lemma {:induction false} BlockInNumbers(env: Env, considered: seq<TxId>, j: nat, k: nat)
    requires Greedy(env, considered) && j < k < |Replay(env, considered).vtx|
    requires var vtx := Replay(env, considered).vtx;
      PoolParents(env, vtx[k]) <= ToSet(vtx[..j]) && !env.rejected(vtx[j]) && !env.rejected(vtx[k])
    ensures var vtx := Replay(env, considered).vtx;
      var a, b := vtx[j], vtx[k];
      if ByFeeAt(env, considered, TurnOf(env, considered, j)) then
        env.feeRate(a) > env.feeRate(b) || (env.feeRate(a) == env.feeRate(b) && env.priority(a) >= env.priority(b))
      else
        env.priority(a) > env.priority(b) || (env.priority(a) == env.priority(b) && env.feeRate(a) >= env.feeRate(b))
  {
    hide Greedy, Replay, PoolParents, ToSet, TurnOf;
    BlockInOrder(env, considered, j, k);
  }

  // ---------------------------------------------------------------- the end of the priority part

  /** Whether a turn ends the priority part, in numbers: `t` fits the block so far, and is too large or too low. */
  predicate EndsIt(env: Env, s: Choice, t: TxId) {
    var size := 1000 + SumOf(env, env.size, s.vtx) + env.size(t);
    && size < env.maxSize
    && (env.kind(t) == OpoiRequest && env.requestCap > 0 ==> CountOf(env, OpoiRequest, s.vtx) < env.requestCap)
    && (env.kind(t) == OpoiResponse && env.responseCap > 0 ==> CountOf(env, OpoiResponse, s.vtx) < env.responseCap)
    && 100 + Sum(s.txSigOps) + env.sigOps(t) < 20000
    && (env.prioritySize <= size || !env.allowFree(if env.rejected(t) then 0.0 else env.priority(t)))
  }

  lemma EndsItExactly(env: Env, s: Choice, t: TxId)
    requires TotalsOk(env, s.vtx, s.txFees, s.txSigOps, s.totals)
    ensures EndsPriority(env, s.totals, EntryOf(env, t)) <==> EndsIt(env, s, t)
  {
    hide SumOf, Sum, CountOf, Balance, Recorded, WithinLimits, TurnstileOk;
  }

  /** The queue is ordered by fee rate exactly from the start without a priority part, or after a turn that ends it. */
  lemma {:induction false} ByFeeExactly(env: Env, considered: seq<TxId>, i: nat)
    requires i <= |considered|
    ensures ByFeeAt(env, considered, i) <==>
      || env.prioritySize == 0
      || exists m :: 0 <= m < i && EndsIt(env, Replay(env, considered[..m]), considered[m])
  {
    hide ByFeeAt, EndsIt, Replay;
    if i == 0 {
      ByFeeFirst(env, considered);
    } else {
      ByFeeExactly(env, considered, i - 1);
      ByFeeNext(env, considered, i - 1);
    }
  }

  lemma {:induction false} ByFeeFirst(env: Env, considered: seq<TxId>)
    ensures ByFeeAt(env, considered, 0) <==> env.prioritySize == 0
  {
    assert considered[..0] == [];
  }

  lemma {:induction false} ByFeeNext(env: Env, considered: seq<TxId>, i: nat)
    requires i < |considered|
    ensures ByFeeAt(env, considered, i + 1) <==>
      ByFeeAt(env, considered, i) || EndsIt(env, Replay(env, considered[..i]), considered[i])
  {
    hide Replay, Takes, EndsPriority, EndsIt, Plus, EntryOf, TotalsOk;
    var s, t := Replay(env, considered[..i]), considered[i];
    assert considered[..i + 1] == considered[..i] + [t];
    ReplayNext(env, considered[..i], t);
    ReplayCounted(env, considered[..i]);
    EndsItExactly(env, s, t);
  }

  // ---------------------------------------------------------------- what gets in

  /** Room for `t` in the block so far, in numbers. */
  predicate HasRoom(env: Env, s: Choice, t: TxId) {
    && 1000 + SumOf(env, env.size, s.vtx) + env.size(t) < env.maxSize
    && (env.kind(t) == OpoiRequest && env.requestCap > 0 ==> CountOf(env, OpoiRequest, s.vtx) < env.requestCap)
    && (env.kind(t) == OpoiResponse && env.responseCap > 0 ==> CountOf(env, OpoiResponse, s.vtx) < env.responseCap)
    && 100 + Sum(s.txSigOps) + env.sigOps(t) + env.p2shSigOps(t, s.vtx) < 20000
    && (env.turnstile && env.sproutStart.Some? && env.saplingStart.Some? ==>
          && Balance(env.sproutStart.value, env.sprout, s.vtx) + env.sprout(t) >= 0
          && Balance(env.saplingStart.value, env.sapling, s.vtx) + env.sapling(t) >= 0)
  }

  /** Whether a transaction pays its way: it was prioritised, meets the relay fee, or the block is still small. */
  predicate PaysItsWay(env: Env, s: Choice, t: TxId) {
    || env.prioritised(t)
    || (if env.rejected(t) then 0 else env.feeRate(t)) >= env.minRelayFee
    || 1000 + SumOf(env, env.size, s.vtx) + env.size(t) < env.minSize
  }

  lemma TakesExactly(env: Env, s: Choice, t: TxId)
    requires TotalsOk(env, s.vtx, s.txFees, s.txSigOps, s.totals)
    ensures Takes(env, s.totals, s.vtx, s.byFee, EntryOf(env, t)) <==>
      HasRoom(env, s, t) && env.acceptable(t, s.vtx) && (s.byFee ==> PaysItsWay(env, s, t))
  {
    hide SumOf, Sum, CountOf, Balance, Recorded, WithinLimits, TurnstileOk;
  }

  /**
   A transaction is in the block exactly if at its turn there was room for it, it was acceptable after those before
   it, and, once fee rates come first, it paid its way.
   */
  lemma {:induction false} InBlockExactly(env: Env, considered: seq<TxId>, i: nat)
    requires Greedy(env, considered) && i < |considered|
    ensures var s, t := Replay(env, considered[..i]), considered[i];
      t in Replay(env, considered).vtx <==>
        HasRoom(env, s, t) && env.acceptable(t, s.vtx) && (ByFeeAt(env, considered, i) ==> PaysItsWay(env, s, t))
  {
    hide Greedy, Replay, Takes, HasRoom, PaysItsWay, TotalsOk, EntryOf;
    GreedyDistinct(env, considered);
    TakenAtTurn(env, considered, i);
    ReplayCounted(env, considered[..i]);
    TakesExactly(env, Replay(env, considered[..i]), considered[i]);
  }

  // ---------------------------------------------------------------- inputs

  /** Whether every input of `t` is in the chain or comes from one of these transactions. */
  predicate Funded(env: Env, t: TxId, before: seq<TxId>) {
    forall p :: p in env.inputs(t) ==> env.inView(p) || p in before
  }

  /** Each transaction of the block takes its inputs from the chain or from transactions before it in the block. */
  lemma {:induction false} InputsFirst(env: Env, considered: seq<TxId>, k: nat)
    requires Greedy(env, considered) && k < |Replay(env, considered).vtx|
    ensures var vtx := Replay(env, considered).vtx; Funded(env, vtx[k], vtx[..k])
  {
    hide Replay, Minable, Less, TurnOf;
    var vtx := Replay(env, considered).vtx;
    var i := TurnOf(env, considered, k);
    assert Leads(env, considered[..i], considered[i]);
    forall p | p in env.inputs(vtx[k]) && !env.inView(p)
      ensures p in vtx[..k]
    {
      assert p in PoolParents(env, vtx[k]);
    }
  }

  /** Every transaction of the mempool that nothing speaks against and that the block can fund was considered. */
  lemma {:induction false} FundedConsidered(env: Env, considered: seq<TxId>, t: TxId)
    requires Finished(env, considered) && t in env.order && !env.skipped(t) && !env.rejected(t)
    requires Funded(env, t, Replay(env, considered).vtx)
    ensures t in considered
  {
    hide Replay;
    var vtx := Replay(env, considered).vtx;
    assert PoolParents(env, t) <= ToSet(vtx);
    assert Eligible(env, vtx, t);
  }
}
