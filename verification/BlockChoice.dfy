/**
 Which transactions a block gets: the selection as a function of the order in which transactions
 are considered, and the greedy orders, which are all that the selection may follow.
 */
module BlockChoice {
  import opened BlockSelection
  import opened BlockLimits
  import opened Sequences

  /** Transactions that can be mined now; one that is rejected only after its inputs were read may wait as an orphan. */
  ghost function Minable(env: Env): set<TxId> {
    set t | t in env.order && !env.skipped(t) && (!env.rejected(t) || PoolParents(env, t) != {})
  }

  /** How a transaction ranks; an orphan that was rejected keeps the rank it was created with. */
  function EntryOf(env: Env, t: TxId): Entry {
    if env.rejected(t) then Entry(0.0, 0, t) else Entry(env.priority(t), env.feeRate(t), t)
  }

  /** The block so far, its running totals, and whether the queue is ordered by fee. */
  datatype Choice = Choice(vtx: seq<TxId>, txFees: seq<int>, txSigOps: seq<nat>, totals: Totals, byFee: bool)

  /** A thousand bytes and a hundred signature operations are set aside for the coinbase. */
  function Start(env: Env): Choice {
    Choice([], [], [],
           Totals(1000, 100, 0, 0, 0,
                  if Monitoring(env) then env.sproutStart.value else 0,
                  if Monitoring(env) then env.saplingStart.value else 0),
           env.prioritySize <= 0)
  }

  /** Past the limits that are tested first, a transaction may end the priority part of the block. */
  predicate EndsPriority(env: Env, c: Totals, e: Entry) {
    && c.blockSize + env.size(e.tx) < env.maxSize
    && !(env.kind(e.tx) == OpoiRequest && env.requestCap > 0 && c.requests >= env.requestCap)
    && !(env.kind(e.tx) == OpoiResponse && env.responseCap > 0 && c.responses >= env.responseCap)
    && c.blockSigOps + env.sigOps(e.tx) < MAX_BLOCK_SIGOPS
    && (c.blockSize + env.size(e.tx) >= env.prioritySize || !env.allowFree(e.priority))
  }

  /** A transaction is considered: it is taken or passed over. */
  function Next(env: Env, s: Choice, t: TxId): Choice {
    var e := EntryOf(env, t);
    var byFee := s.byFee || EndsPriority(env, s.totals, e);
    if Takes(env, s.totals, s.vtx, s.byFee, e) then
      var sigOps := env.sigOps(t) + env.p2shSigOps(t, s.vtx);
      var fee := env.feesOf(t, s.vtx);
      Choice(s.vtx + [t], s.txFees + [fee], s.txSigOps + [sigOps], Plus(env, s.totals, t, sigOps, fee), byFee)
    else
      s.(byFee := byFee)
  }

  /** The block after the transactions were considered in this order. */
  function Replay(env: Env, considered: seq<TxId>): Choice {
    if considered == [] then Start(env)
    else Next(env, Replay(env, considered[..|considered| - 1]), considered[|considered| - 1])
  }

  /** What may be considered next: all its mempool parents are in the block. */
  ghost predicate Eligible(env: Env, vtx: seq<TxId>, t: TxId) {
    t in Minable(env) && PoolParents(env, t) <= ToSet(vtx)
  }

  /** The transaction is one that could be considered and that no other such transaction outranks. */
  ghost predicate Leads(env: Env, before: seq<TxId>, t: TxId) {
    var s := Replay(env, before);
    && Eligible(env, s.vtx, t) && t !in before
    && forall u :: Eligible(env, s.vtx, u) && u !in before ==> !Less(s.byFee, EntryOf(env, t), EntryOf(env, u))
  }

  /** At every turn one of the highest was considered. */
  ghost predicate Greedy(env: Env, considered: seq<TxId>) {
    forall i :: 0 <= i < |considered| ==> Leads(env, considered[..i], considered[i])
  }

  /** Nothing is left to consider. */
  ghost predicate Finished(env: Env, considered: seq<TxId>) {
    forall t :: Eligible(env, Replay(env, considered).vtx, t) ==> t in considered
  }

  // ---------------------------------------------------------------- what every order gives

  lemma {:induction false} ReplayNext(env: Env, considered: seq<TxId>, t: TxId)
    ensures Replay(env, considered + [t]) == Next(env, Replay(env, considered), t)
  {
    Appended(considered, t);
  }

  lemma {:induction false} GreedyNext(env: Env, considered: seq<TxId>, t: TxId)
    requires Greedy(env, considered) && Leads(env, considered, t)
    ensures Greedy(env, considered + [t])
  {
    hide Leads;
    var all := considered + [t];
    forall i | 0 <= i < |all|
      ensures Leads(env, all[..i], all[i])
    {
      assert all[..i] == if i < |considered| then considered[..i] else considered;
    }
  }

  /** Taking or passing over a transaction keeps the totals, the limits and the turnstile. */
  lemma {:induction false} NextCounted(env: Env, s: Choice, t: TxId)
    requires TotalsOk(env, s.vtx, s.txFees, s.txSigOps, s.totals)
    ensures var r := Next(env, s, t); TotalsOk(env, r.vtx, r.txFees, r.txSigOps, r.totals)
  {
    hide TotalsOk, Plus, Free;
    if Takes(env, s.totals, s.vtx, s.byFee, EntryOf(env, t)) {
      AddKeeps(env, s.vtx, s.txFees, s.txSigOps, s.totals, t, env.sigOps(t) + env.p2shSigOps(t, s.vtx),
               env.feesOf(t, s.vtx));
    }
  }

  /** In whatever order transactions are considered, the limits and the turnstile hold. */
  lemma {:induction false} ReplayCounted(env: Env, considered: seq<TxId>)
    ensures var s := Replay(env, considered); TotalsOk(env, s.vtx, s.txFees, s.txSigOps, s.totals)
  {
    hide Next;
    if considered != [] {
      ReplayCounted(env, considered[..|considered| - 1]);
      NextCounted(env, Replay(env, considered[..|considered| - 1]), considered[|considered| - 1]);
    }
  }

  /** What was selected by an earlier turn stays selected, in the same place. */
  lemma {:induction false} ReplayGrows(env: Env, considered: seq<TxId>, i: nat)
    requires i <= |considered|
    ensures Replay(env, considered[..i]).vtx <= Replay(env, considered).vtx
    ensures Replay(env, considered[..i]).byFee ==> Replay(env, considered).byFee
    decreases |considered|
  {
    if i < |considered| {
      var init := considered[..|considered| - 1];
      assert init[..i] == considered[..i];
      ReplayGrows(env, init, i);
    } else {
      assert considered[..i] == considered;
    }
  }

  /** A transaction is in the block exactly if it was taken at its turn. */
  lemma {:induction false} TakenAtTurn(env: Env, considered: seq<TxId>, i: nat)
    requires Distinct(considered) && i < |considered|
    ensures var s := Replay(env, considered[..i]);
            considered[i] in Replay(env, considered).vtx <==>
            Takes(env, s.totals, s.vtx, s.byFee, EntryOf(env, considered[i]))
  {
    hide Takes, EndsPriority, Plus;
    var t := considered[i];
    var s := Replay(env, considered[..i]);
    assert considered[..i + 1] == considered[..i] + [t];
    ReplayNext(env, considered[..i], t);
    ReplayGrows(env, considered, i + 1);
    OnlyConsidered(env, considered[..i]);
    if Takes(env, s.totals, s.vtx, s.byFee, EntryOf(env, t)) {
      assert Replay(env, considered[..i + 1]).vtx == s.vtx + [t];
      assert Replay(env, considered).vtx[|s.vtx|] == t;
    } else {
      NotTakenLater(env, considered, i + 1, t);
    }
  }

  lemma {:induction false} OnlyConsidered(env: Env, considered: seq<TxId>)
    ensures forall t :: t in Replay(env, considered).vtx ==> t in considered
  {
    hide Takes, EndsPriority, Plus;
    if considered != [] {
      OnlyConsidered(env, considered[..|considered| - 1]);
    }
  }

  lemma {:induction false} NotTakenLater(env: Env, considered: seq<TxId>, i: nat, t: TxId)
    requires i <= |considered| && t !in Replay(env, considered[..i]).vtx && t !in considered[i..]
    ensures t !in Replay(env, considered).vtx
    decreases |considered|
  {
    hide Takes, EndsPriority, Plus;
    if i < |considered| {
      var init := considered[..|considered| - 1];
      assert init[..i] == considered[..i];
      NotTakenLater(env, init, i, t);
    } else {
      assert considered[..i] == considered;
    }
  }

  // ---------------------------------------------------------------- what a greedy order gives

  lemma GreedyDistinct(env: Env, considered: seq<TxId>)
    requires Greedy(env, considered)
    ensures Distinct(considered)
  {
    hide Replay, Eligible, Less, EntryOf;
    forall i, j | 0 <= i < j < |considered|
      ensures considered[i] != considered[j]
    {
      assert Leads(env, considered[..j], considered[j]);
      assert considered[i] in considered[..j];
    }
  }

  /**
   A transaction that could be mined and is not in the block either waits for a parent that is not in the block,
   or was refused at its own turn, by what the block held then.
   */
  lemma {:induction false} LeftOutForReason(env: Env, considered: seq<TxId>, t: TxId)
    requires Greedy(env, considered) && Finished(env, considered) && t in Minable(env)
    ensures var vtx := Replay(env, considered).vtx;
      t !in vtx <==>
        || (exists p :: p in PoolParents(env, t) && p !in vtx)
        || exists i :: 0 <= i < |considered| && considered[i] == t && Refused(env, considered, i)
  {
    hide Minable, PoolParents, Replay, Leads, Takes, Less;
    var vtx := Replay(env, considered).vtx;
    GreedyDistinct(env, considered);
    OnlyConsidered(env, considered);
    if t in considered {
      var i :| 0 <= i < |considered| && considered[i] == t;
      TakenAtTurn(env, considered, i);
      EligibleAtTurn(env, considered, i);
    } else {
      assert !Eligible(env, vtx, t);
    }
  }

  ghost predicate Refused(env: Env, considered: seq<TxId>, i: nat)
    requires i < |considered|
  {
    var s := Replay(env, considered[..i]);
    !Takes(env, s.totals, s.vtx, s.byFee, EntryOf(env, considered[i]))
  }

  lemma {:induction false} EligibleAtTurn(env: Env, considered: seq<TxId>, i: nat)
    requires Greedy(env, considered) && i < |considered|
    ensures forall p :: p in PoolParents(env, considered[i]) ==> p in Replay(env, considered).vtx
  {
    hide Minable, PoolParents, Replay, Less;
    assert Leads(env, considered[..i], considered[i]);
    ReplayGrows(env, considered, i);
  }

  /** Where in the order a transaction of the block was considered. */
  ghost function TurnOf(env: Env, considered: seq<TxId>, k: nat): (i: nat)
    requires k < |Replay(env, considered).vtx|
    ensures i < |considered| && considered[i] == Replay(env, considered).vtx[k]
    ensures Replay(env, considered[..i]).vtx == Replay(env, considered).vtx[..k]
  {
    var n := |considered| - 1;
    var init := Replay(env, considered[..n]);
    ReplayGrows(env, considered, n);
    if k < |init.vtx| then
      var i := TurnOf(env, considered[..n], k);
      assert considered[..n][..i] == considered[..i];
      i
    else n
  }

  /** A transaction comes later in the block only if its parents or its rank made it wait. */
  lemma {:induction false} BlockInOrder(env: Env, considered: seq<TxId>, j: nat, k: nat)
    requires Greedy(env, considered) && j < k < |Replay(env, considered).vtx|
    ensures var vtx := Replay(env, considered).vtx;
      var byFee := Replay(env, considered[..TurnOf(env, considered, j)]).byFee;
      PoolParents(env, vtx[k]) <= ToSet(vtx[..j]) ==> !Less(byFee, EntryOf(env, vtx[j]), EntryOf(env, vtx[k]))
  {
    hide Minable, PoolParents, Replay, Less, EntryOf, ToSet, TurnOf;
    var vtx := Replay(env, considered).vtx;
    var i, n := TurnOf(env, considered, j), TurnOf(env, considered, k);
    assert Leads(env, considered[..i], considered[i]) && Leads(env, considered[..n], considered[n]);
    GreedyDistinct(env, considered);
    if n < i {
      assert considered[..i][..n] == considered[..n];
      ReplayGrows(env, considered[..i], n);
      assert false;
    }
  }

  // ---------------------------------------------------------------- the block is determined

  /** No two transactions rank equal, in either order of the queue. */
  ghost predicate NoTies(env: Env) {
    forall t, u :: t in Minable(env) && u in Minable(env) && t != u ==>
      forall byFee :: Less(byFee, EntryOf(env, t), EntryOf(env, u)) || Less(byFee, EntryOf(env, u), EntryOf(env, t))
  }

  lemma {:induction false} LeaderUnique(env: Env, before: seq<TxId>, t: TxId, u: TxId)
    requires NoTies(env) && Leads(env, before, t) && Leads(env, before, u)
    ensures t == u
  {
    hide Minable, Replay, Less, EntryOf;
  }

  /** Without ties there is only one greedy order, however long each of two of them is. */
  lemma {:induction false} SamePrefix(env: Env, a: seq<TxId>, b: seq<TxId>, n: nat)
    requires NoTies(env) && Greedy(env, a) && Greedy(env, b) && n <= |a| && n <= |b|
    ensures a[..n] == b[..n]
  {
    hide Leads, NoTies;
    if n > 0 {
      SamePrefix(env, a, b, n - 1);
      assert Leads(env, a[..n - 1], a[n - 1]) && Leads(env, b[..n - 1], b[n - 1]);
      LeaderUnique(env, a[..n - 1], a[n - 1], b[n - 1]);
      assert a[..n] == a[..n - 1] + [a[n - 1]] && b[..n] == b[..n - 1] + [b[n - 1]];
    }
  }

  lemma {:induction false} NotLonger(env: Env, a: seq<TxId>, b: seq<TxId>)
    requires NoTies(env) && Greedy(env, a) && Greedy(env, b) && Finished(env, a)
    ensures |b| <= |a|
  {
    hide NoTies, Replay, Less, EntryOf, Eligible;
    if |a| < |b| {
      assert a[..|a|] == a;
      assert Leads(env, b[..|a|], b[|a|]);
      SamePrefix(env, a, b, |a|);
      assert false;
    }
  }

  /** When no two transactions rank equal, the mempool and the limits alone determine the block. */
  lemma {:induction false} BlockDetermined(env: Env, a: seq<TxId>, b: seq<TxId>)
    requires NoTies(env)
    requires Greedy(env, a) && Finished(env, a) && Greedy(env, b) && Finished(env, b)
    ensures a == b
  {
    hide NoTies, Greedy, Finished;
    NotLonger(env, a, b);
    NotLonger(env, b, a);
    SamePrefix(env, a, b, |a|);
    assert a[..|a|] == a && b[..|b|] == b;
  }
}
