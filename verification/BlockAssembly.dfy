/** Assembling a block from the mempool: scanning it, and selecting from it by priority and fee. */
module BlockAssembly {
  import opened BlockSelection
  import opened BlockLimits
  import opened Sequences
  import opened BlockChoice

  class Assembly {
    var orphans: map<TxId, Orphan>
    var dependers: map<TxId, seq<TxId>>
    var queue: seq<Entry>
    var byFee: bool
    var vtx: seq<TxId>
    var txFees: seq<int>
    var txSigOps: seq<nat>
    var totals: Totals
    /** The transactions in the order in which they were considered. */
    ghost var considered: seq<TxId>

    ghost predicate Valid(env: Env)
      reads this
    {
      Kept(env, orphans, dependers, queue, vtx)
    }

    ghost function Chosen(): Choice
      reads this
    {
      Choice(vtx, txFees, txSigOps, totals, byFee)
    }

    /** A block without transactions. */
    constructor (env: Env)
      ensures orphans == map[] && dependers == map[] && queue == [] && considered == []
      ensures Valid(env) && Chosen() == Start(env)
    {
      orphans, dependers, queue, byFee, vtx := map[], map[], [], env.prioritySize <= 0, [];
      txFees, txSigOps, considered := [], [], [];
      totals := Totals(1000, 100, 0, 0, 0,
                       if Monitoring(env) then env.sproutStart.value else 0,
                       if Monitoring(env) then env.saplingStart.value else 0);
    }

    // -------------------------------------------------------------- scanning the mempool

    /** Every mempool transaction becomes an orphan or is queued, unless it cannot be mined now. */
    method Scan(env: Env)
      requires Closed(env) && Valid(env) && vtx == [] && orphans == map[] && queue == []
      modifies this`orphans, this`dependers, this`queue
      ensures Valid(env) && Scanned(env, ToSet(env.order), orphans, queue)
    {
      hide Kept, Closed, Distinct, Scanned;
      NothingScanned(env);
      for k := 0 to |env.order|
        invariant Valid(env) && Scanned(env, ToSet(env.order[..k]), orphans, queue)
      {
        FreshNext(env, k);
        ScanTx(env, env.order[k], ToSet(env.order[..k]));
      }
      assert env.order[..|env.order|] == env.order;
    }

    method ScanTx(env: Env, t: TxId, ghost seen: set<TxId>)
      requires Closed(env) && Valid(env) && vtx == []
      requires Scanned(env, seen, orphans, queue) && t in env.order && t !in seen
      modifies this`orphans, this`dependers, this`queue
      ensures Valid(env) && Scanned(env, seen + {t}, orphans, queue)
    {
      hide Kept, Closed, Grew, PoolParents, Scanned;
      ScanSees(env, seen, orphans, queue, t);
      if env.skipped(t) {
        return;
      }
      ghost var wasOrphans, wasDependers := orphans, dependers;
      var isOrphan := ScanInputs(env, t);
      ScanKeeps(env, wasOrphans, wasDependers, dependers, queue, t);
      if env.rejected(t) {
        return;
      }
      if isOrphan {
        orphans := orphans[t := orphans[t].(priority := env.priority(t), feeRate := env.feeRate(t))];
        assert orphans == wasOrphans[t := Orphan(PoolParents(env, t), env.priority(t), env.feeRate(t))];
      } else {
        queue := queue + [Entry(env.priority(t), env.feeRate(t), t)];
      }
    }

    /** Registers a transaction under each mempool transaction it spends from. */
    method ScanInputs(env: Env, t: TxId) returns (isOrphan: bool)
      requires Closed(env) && t in env.order && t !in orphans
      modifies this`orphans, this`dependers
      ensures isOrphan <==> PoolParents(env, t) != {}
      ensures orphans == if isOrphan then old(orphans)[t := Orphan(PoolParents(env, t), 0.0, 0)] else old(orphans)
      ensures Grew(old(dependers), dependers, t, PoolParents(env, t))
    {
      hide Closed, Grew, PoolParents, Found;
      var inputs := env.inputs(t);
      isOrphan := false;
      ghost var wasOrphans, wasDependers := orphans, dependers;
      GrewNone(env, dependers, t);
      for i := 0 to |inputs|
        invariant isOrphan <==> Found(env, t, i) != {}
        invariant orphans == if isOrphan then wasOrphans[t := Orphan(Found(env, t, i), 0.0, 0)] else wasOrphans
        invariant Grew(wasDependers, dependers, t, Found(env, t, i))
      {
        var p := inputs[i];
        FoundGrows(env, t, i);
        if !env.inView(p) {
          MempoolHas(env, t, p);
          assert p in env.order;
          if !isOrphan {
            orphans := orphans[t := Orphan({}, 0.0, 0)];
            isOrphan := true;
          }
          GrewStep(wasDependers, dependers, t, Found(env, t, i), p);
          dependers := dependers[p := (if p in dependers then dependers[p] else []) + [t]];
          orphans := orphans[t := orphans[t].(dependsOn := orphans[t].dependsOn + {p})];
        }
      }
      FoundAll(env, t);
    }

    // -------------------------------------------------------------- selection

    /** Puts the orphans that waited for `h` only into the queue. */
    method Release(h: TxId)
      requires h in dependers && forall o :: o in dependers[h] ==> o in orphans
      modifies this`orphans, this`queue
      ensures Unblocked(old(orphans), orphans, h, dependers[h])
      ensures Released(old(orphans), old(queue), queue, h, dependers[h])
      ensures |queue| + |BlockedSet(orphans)| == |old(queue)| + |old(BlockedSet(orphans))|
    {
      hide Unblocked, Released, BlockedSet;
      var list := dependers[h];
      ghost var was, start := orphans, queue;
      ReleaseStarts(was, start, h);
      for i := 0 to |list|
        invariant orphans.Keys == was.Keys
        invariant Unblocked(was, orphans, h, list[..i])
        invariant Released(was, start, queue, h, list[..i])
        invariant |queue| + |BlockedSet(orphans)| == |start| + |BlockedSet(was)|
      {
        var o := list[i];
        assert list[..i + 1] == list[..i] + [o];
        UnblockStep(was, orphans, h, list[..i], o);
        ReleaseStep(was, orphans, start, queue, h, list[..i], o);
        BlockedChange(orphans, h, o);
        ghost var erased := Erased(orphans, h, o);
        NothingErased(orphans, h, o);
        if orphans[o].dependsOn != {} {
          orphans := orphans[o := orphans[o].(dependsOn := orphans[o].dependsOn - {h})];
          if orphans[o].dependsOn == {} {
            queue := queue + [Entry(orphans[o].priority, orphans[o].feeRate, o)];
          }
        }
        assert orphans == erased;
      }
      assert list[..|list|] == list;
    }

    /** Takes some entry that no other one outranks off the queue. */
    method PopHighest(env: Env) returns (e: Entry)
      requires Valid(env) && queue != []
      modifies this`queue
      ensures Valid(env) && |queue| == |old(queue)| - 1
      ensures e in old(queue) && forall f :: f in old(queue) ==> !Less(byFee, e, f)
      ensures forall f :: f in old(queue) <==> f == e || f in queue
      ensures Ready(env, orphans, ToSet(vtx), e.tx) && e.tx !in Ids(queue)
    {
      hide QueueOk, OrphansOk, DependersOk, OrderOk, NoneBlocked, Ready, Less;
      ghost var k := HighestExists(byFee, queue);
      var i: nat :| i < |queue| && Highest(byFee, queue, i);
      e := queue[i];
      HighestIs(byFee, queue, i);
      PopKeeps(env, orphans, queue, ToSet(vtx), i);
      PopLoses(queue, i);
      queue := queue[..i] + queue[i + 1..];
    }

    /** The checks on a transaction; once past the priority part of the block, the queue is ordered by fee. */
    method Passes(env: Env, e: Entry) returns (take: bool, sigOps: nat)
      modifies this`byFee
      ensures take ==> sigOps == env.sigOps(e.tx) + env.p2shSigOps(e.tx, vtx)
      ensures take <==> Takes(env, totals, vtx, old(byFee), e)
      ensures byFee <==> old(byFee) || EndsPriority(env, totals, e)
    {
      take := false;
      var t := e.tx;
      var size := env.size(t);
      sigOps := env.sigOps(t);
      if totals.blockSize + size >= env.maxSize {
        return;
      }
      if env.kind(t) == OpoiRequest && env.requestCap > 0 && totals.requests >= env.requestCap {
        return;
      }
      if env.kind(t) == OpoiResponse && env.responseCap > 0 && totals.responses >= env.responseCap {
        return;
      }
      if totals.blockSigOps + sigOps >= MAX_BLOCK_SIGOPS {
        return;
      }
      if byFee && Free(env, totals, e) {
        return;
      }
      if !byFee && (totals.blockSize + size >= env.prioritySize || !env.allowFree(e.priority)) {
        byFee := true;
      }
      if !env.acceptable(t, vtx) {
        return;
      }
      sigOps := sigOps + env.p2shSigOps(t, vtx);
      if totals.blockSigOps + sigOps >= MAX_BLOCK_SIGOPS {
        return;
      }
      if Monitoring(env) {
        if totals.sproutValue + env.sprout(t) < 0 || totals.saplingValue + env.sapling(t) < 0 {
          return;
        }
      }
      take := true;
    }

    /** Adds a transaction to the block and queues what waited for it only. */
    method Take(env: Env, t: TxId, sigOps: nat)
      requires Valid(env) && Ready(env, orphans, ToSet(vtx), t) && t !in Ids(queue)
      requires Ranked(env, orphans, queue) && Outstanding(env, orphans, queue, considered)
      modifies this`orphans, this`queue, this`vtx, this`txFees, this`txSigOps, this`totals
      ensures Valid(env) && Ranked(env, orphans, queue) && Outstanding(env, orphans, queue, considered)
      ensures vtx == old(vtx) + [t] && txSigOps == old(txSigOps) + [sigOps]
      ensures txFees == old(txFees) + [env.feesOf(t, old(vtx))]
      ensures totals == Plus(env, old(totals), t, sigOps, env.feesOf(t, old(vtx)))
      ensures |queue| + |BlockedSet(orphans)| == |old(queue)| + |old(BlockedSet(orphans))|
    {
      hide Kept, Plus, Ready, BlockedSet, Unblocked, Released, Ids, ToSet, Ranked, Outstanding;
      var fee := env.feesOf(t, vtx);
      ghost var wasOrphans, wasQueue, wasVtx := orphans, queue, vtx;
      vtx, txFees, txSigOps := vtx + [t], txFees + [fee], txSigOps + [sigOps];
      totals := Plus(env, totals, t, sigOps, fee);
      ReleaseStarts(orphans, queue, t);
      if t in dependers {
        ListedAreOrphans(env, orphans, dependers, queue, wasVtx, t);
        Release(t);
      }
      SelectKeeps(env, wasOrphans, orphans, dependers, wasQueue, queue, wasVtx, t);
      SelectRanks(env, wasOrphans, orphans, wasQueue, queue, t, Waiting(dependers, t));
      SelectFinds(env, wasOrphans, orphans, dependers, wasQueue, queue, wasVtx, considered, t);
    }

    /** Takes a transaction that passes the checks, and passes over any other. */
    method Consider(env: Env, e: Entry)
      requires Valid(env) && e == EntryOf(env, e.tx)
      requires Ready(env, orphans, ToSet(vtx), e.tx) && e.tx !in Ids(queue)
      requires Ranked(env, orphans, queue) && Outstanding(env, orphans, queue, considered + [e.tx])
      modifies this
      ensures Valid(env)
      ensures considered == old(considered) + [e.tx] && Chosen() == Next(env, old(Chosen()), e.tx)
      ensures Ranked(env, orphans, queue) && Outstanding(env, orphans, queue, considered)
      ensures |queue| + |BlockedSet(orphans)| == |old(queue)| + |old(BlockedSet(orphans))|
    {
      hide Kept, Plus, Ready, BlockedSet, Ids, ToSet, Takes, EndsPriority, Ranked, Outstanding, EntryOf;
      var take, sigOps := Passes(env, e);
      considered := considered + [e.tx];
      if take {
        Take(env, e.tx, sigOps);
      }
    }

    /** Considers transactions, highest first, until none is queued. */
    method Select(env: Env)
      requires Valid(env) && Chosen() == Start(env) && considered == []
      requires Ranked(env, orphans, queue) && Outstanding(env, orphans, queue, [])
      modifies this
      ensures Valid(env) && Chosen() == Replay(env, considered)
      ensures Greedy(env, considered) && Finished(env, considered)
    {
      hide Kept, Ready, BlockedSet, Ids, ToSet, Takes, Ranked, Outstanding, EntryOf, Next, Leads, Greedy, Finished;
      hide Less, Replay;
      GreedyStarts(env);
      while queue != []
        invariant Valid(env) && Chosen() == Replay(env, considered) && Greedy(env, considered)
        invariant Ranked(env, orphans, queue) && Outstanding(env, orphans, queue, considered)
        decreases |queue| + |BlockedSet(orphans)|
      {
        ghost var was := queue;
        var e := PopHighest(env);
        HighestLeads(env, orphans, dependers, was, queue, vtx, considered, e);
        GreedyNext(env, considered, e.tx);
        ReplayNext(env, considered, e.tx);
        Consider(env, e);
      }
      AllSettled(env, orphans, dependers, vtx, considered);
    }
  }

  lemma HighestIs(byFee: bool, queue: seq<Entry>, i: nat)
    requires i < |queue| && Highest(byFee, queue, i)
    ensures forall f :: f in queue ==> !Less(byFee, queue[i], f)
  {
    hide Less;
  }

  lemma ListedAreOrphans(env: Env, orphans: map<TxId, Orphan>, dependers: map<TxId, seq<TxId>>, queue: seq<Entry>,
                         vtx: seq<TxId>, t: TxId)
    requires Kept(env, orphans, dependers, queue, vtx) && t in dependers
    ensures forall o :: o in dependers[t] ==> o in orphans
  {
  }

  /**
   Selecting transactions for a block from any mempool that is closed under parents: the block is that of
   a greedy order of all the transactions that could be considered.
   */
  method SelectTransactions(env: Env)
    returns (vtx: seq<TxId>, txFees: seq<int>, txSigOps: seq<nat>, fees: int, ghost considered: seq<TxId>)
    requires Closed(env)
    ensures Greedy(env, considered) && Finished(env, considered)
    ensures var s := Replay(env, considered); vtx == s.vtx && txFees == s.txFees && txSigOps == s.txSigOps
    ensures OrderOk(env, vtx)
    ensures WithinLimits(env, vtx, txSigOps) && TurnstileOk(env, vtx)
    ensures Recorded(env, vtx, txFees, txSigOps) && fees == Sum(txFees)
  {
    hide Scanned, OrderOk, WithinLimits, TurnstileOk, Recorded, Sum, Replay, Greedy, Finished, Outstanding, Ranked;
    hide Next;
    var a := new Assembly(env);
    a.Scan(env);
    AllScanned(env, a.orphans, a.queue);
    a.Select(env);
    ReplayCounted(env, a.considered);
    return a.vtx, a.txFees, a.txSigOps, a.totals.fees, a.considered;
  }

  /** The orphan no longer waits for `h`. */
  ghost function Erased(orphans: map<TxId, Orphan>, h: TxId, o: TxId): map<TxId, Orphan>
    requires o in orphans
  {
    orphans[o := orphans[o].(dependsOn := orphans[o].dependsOn - {h})]
  }

  ghost predicate Fires(orphans: map<TxId, Orphan>, h: TxId, o: TxId)
    requires o in orphans
  {
    orphans[o].dependsOn != {} && orphans[o].dependsOn - {h} == {}
  }

  lemma NothingErased(orphans: map<TxId, Orphan>, h: TxId, o: TxId)
    requires o in orphans
    ensures orphans[o].dependsOn == {} ==> Erased(orphans, h, o) == orphans
  {
    if orphans[o].dependsOn == {} {
      assert orphans[o].(dependsOn := {}) == orphans[o];
      assert orphans[o].dependsOn - {h} == {};
    }
  }

  lemma ReleaseStarts(was: map<TxId, Orphan>, start: seq<Entry>, h: TxId)
    ensures Unblocked(was, was, h, []) && Released(was, start, start, h, [])
  {
  }

  lemma UnblockStep(was: map<TxId, Orphan>, now: map<TxId, Orphan>, h: TxId, list: seq<TxId>, o: TxId)
    requires Unblocked(was, now, h, list) && o in now
    ensures Unblocked(was, Erased(now, h, o), h, list + [o])
  {
    var next := Erased(now, h, o);
    forall x | x in next
      ensures next[x] == if x in list + [o] then was[x].(dependsOn := was[x].dependsOn - {h}) else was[x]
    {
      if x == o && o in list {
        assert was[x].dependsOn - {h} - {h} == was[x].dependsOn - {h};
      }
    }
  }

  lemma OnlyOne<T>(s: set<T>, h: T)
    ensures s != {} && s - {h} == {} <==> s == {h}
    ensures s - {h} - {h} == s - {h}
  {
    if s != {} && s - {h} == {} {
      assert forall x :: x in s ==> x == h || x in s - {h};
      assert s == {h};
    }
  }

  lemma ReleaseStep(was: map<TxId, Orphan>, now: map<TxId, Orphan>, start: seq<Entry>, queue: seq<Entry>,
                    h: TxId, list: seq<TxId>, o: TxId)
    requires Unblocked(was, now, h, list) && o in now && Released(was, start, queue, h, list)
    ensures Fires(now, h, o) ==>
              Released(was, start, queue + [Entry(now[o].priority, now[o].feeRate, o)], h, list + [o])
    ensures !Fires(now, h, o) ==> Released(was, start, queue, h, list + [o])
  {
    var k := |start|;
    assert Fires(now, h, o) <==> o !in list && was[o].dependsOn == {h} by {
      OnlyOne(was[o].dependsOn, h);
    }
    if Fires(now, h, o) {
      var e := Entry(now[o].priority, now[o].feeRate, o);
      var next := queue + [e];
      assert next[k..] == queue[k..] + [e];
      assert Ids(next[k..]) == Ids(queue[k..]) + [o];
      AppendDistinct(Ids(queue[k..]), o);
    }
  }

  lemma BlockedChange(orphans: map<TxId, Orphan>, h: TxId, o: TxId)
    requires o in orphans
    ensures |BlockedSet(Erased(orphans, h, o))| == |BlockedSet(orphans)| - if Fires(orphans, h, o) then 1 else 0
  {
    var after := Erased(orphans, h, o);
    if Fires(orphans, h, o) {
      assert BlockedSet(orphans) == BlockedSet(after) + {o};
    } else {
      assert BlockedSet(orphans) == BlockedSet(after);
    }
  }

  /** The listed orphans no longer wait for `h`. */
  ghost predicate Unblocked(was: map<TxId, Orphan>, now: map<TxId, Orphan>, h: TxId, list: seq<TxId>) {
    && now.Keys == was.Keys
    && forall o :: o in now ==> now[o] == if o in list then was[o].(dependsOn := was[o].dependsOn - {h}) else was[o]
  }

  /** The listed orphans that waited for `h` only are queued, once each. */
  ghost predicate Released(was: map<TxId, Orphan>, start: seq<Entry>, now: seq<Entry>, h: TxId, list: seq<TxId>) {
    && start <= now && Distinct(Ids(now[|start|..]))
    && (forall e :: e in now[|start|..] ==> e.tx in was && e == Entry(was[e.tx].priority, was[e.tx].feeRate, e.tx))
    && forall t :: t in Ids(now[|start|..]) <==> t in list && t in was && was[t].dependsOn == {h}
  }

  // ---------------------------------------------------------------- steps keep the invariant

  ghost predicate Kept(env: Env, orphans: map<TxId, Orphan>, dependers: map<TxId, seq<TxId>>, queue: seq<Entry>,
                       vtx: seq<TxId>)
  {
    && OrphansOk(env, orphans, ToSet(vtx))
    && DependersOk(orphans, dependers)
    && QueueOk(env, orphans, queue, ToSet(vtx))
    && OrderOk(env, vtx)
    && NoneBlocked(orphans, ToSet(vtx))
  }

  lemma PopKeeps(env: Env, orphans: map<TxId, Orphan>, queue: seq<Entry>, selected: set<TxId>, i: nat)
    requires QueueOk(env, orphans, queue, selected) && i < |queue|
    ensures var rest := queue[..i] + queue[i + 1..];
            && QueueOk(env, orphans, rest, selected) && Ready(env, orphans, selected, queue[i].tx)
            && queue[i].tx !in Ids(rest)
  {
    hide Ready;
    var rest := queue[..i] + queue[i + 1..];
    DropIndex(Ids(queue), i);
    assert Ids(rest) == Ids(queue)[..i] + Ids(queue)[i + 1..];
    assert Ids(queue)[i] == queue[i].tx;
  }

  function Waiting(dependers: map<TxId, seq<TxId>>, t: TxId): seq<TxId> {
    if t in dependers then dependers[t] else []
  }

  lemma SelectOrphans(env: Env, was: map<TxId, Orphan>, now: map<TxId, Orphan>, dependers: map<TxId, seq<TxId>>,
                      selected: set<TxId>, t: TxId)
    requires OrphansOk(env, was, selected) && DependersOk(was, dependers)
    requires Unblocked(was, now, t, Waiting(dependers, t))
    ensures OrphansOk(env, now, selected + {t}) && DependersOk(now, dependers)
    ensures forall x :: x in now ==> now[x].dependsOn == was[x].dependsOn - {t}
  {
    forall x | x in now
      ensures now[x].dependsOn == was[x].dependsOn - {t}
      ensures now[x].dependsOn == PoolParents(env, x) - (selected + {t})
    {
      if x !in Waiting(dependers, t) {
        assert t !in was[x].dependsOn;
      }
    }
  }

  lemma SelectQueue(env: Env, was: map<TxId, Orphan>, now: map<TxId, Orphan>, queue: seq<Entry>, next: seq<Entry>,
                    list: seq<TxId>, selected: set<TxId>, t: TxId)
    requires QueueOk(env, was, queue, selected) && NoneBlocked(was, selected)
    requires Ready(env, was, selected, t) && t !in Ids(queue)
    requires OrphansOk(env, now, selected + {t}) && now.Keys == was.Keys
    requires forall x :: x in now ==> now[x].dependsOn == was[x].dependsOn - {t}
    requires Released(was, queue, next, t, list)
    ensures QueueOk(env, now, next, selected + {t}) && NoneBlocked(now, selected + {t})
  {
    var k := |queue|;
    var added := Ids(next[k..]);
    assert next == queue + next[k..];
    assert Ids(next) == Ids(queue) + added;
    forall x | x in Ids(queue)
      ensures Ready(env, now, selected + {t}, x) && x !in added
    {
      assert Ready(env, was, selected, x);
    }
    forall x | x in added
      ensures Ready(env, now, selected + {t}, x)
    {
      assert x in was && was[x].dependsOn == {t};
      assert Blocked(was, x);
    }
    ConcatDistinct(Ids(queue), added);
  }

  lemma ConcatDistinct<T>(a: seq<T>, b: seq<T>)
    requires Distinct(a) && Distinct(b) && forall x :: x in a ==> x !in b
    ensures Distinct(a + b)
  {
    var s := a + b;
    forall i, j | 0 <= i < j < |s|
      ensures s[i] != s[j]
    {
      if i < |a| <= j {
        assert a[i] in a && b[j - |a|] in b;
      }
    }
  }

  lemma SelectOrder(env: Env, vtx: seq<TxId>, t: TxId)
    requires OrderOk(env, vtx) && t in env.order && t !in ToSet(vtx) && PoolParents(env, t) <= ToSet(vtx)
    ensures OrderOk(env, vtx + [t]) && ToSet(vtx + [t]) == ToSet(vtx) + {t}
  {
    hide PoolParents;
    var all := vtx + [t];
    AppendDistinct(vtx, t);
    forall i | 0 <= i < |all|
      ensures all[i] in env.order && PoolParents(env, all[i]) <= ToSet(all[..i])
    {
      if i < |vtx| {
        assert all[..i] == vtx[..i] && all[i] == vtx[i];
      } else {
        assert all[..i] == vtx;
      }
    }
  }

  /** Selecting a ready transaction and releasing what waited for it keeps everything in order. */
  lemma SelectKeeps(env: Env, was: map<TxId, Orphan>, now: map<TxId, Orphan>, dependers: map<TxId, seq<TxId>>,
                    queue: seq<Entry>, next: seq<Entry>, vtx: seq<TxId>, t: TxId)
    requires Kept(env, was, dependers, queue, vtx)
    requires Ready(env, was, ToSet(vtx), t) && t !in Ids(queue)
    requires Unblocked(was, now, t, Waiting(dependers, t)) && Released(was, queue, next, t, Waiting(dependers, t))
    ensures Kept(env, now, dependers, next, vtx + [t])
  {
    var keys := now.Keys;
    assert keys == was.Keys;
    hide OrphansOk, DependersOk, QueueOk, OrderOk, NoneBlocked, Unblocked, Released, ToSet, Blocked;
    SelectOrphans(env, was, now, dependers, ToSet(vtx), t);
    SelectQueue(env, was, now, queue, next, Waiting(dependers, t), ToSet(vtx), t);
    SelectOrder(env, vtx, t);
  }

  // ---------------------------------------------------------------- nothing is forgotten

  /** Queued transactions and orphans carry their rank. */
  ghost predicate Ranked(env: Env, orphans: map<TxId, Orphan>, queue: seq<Entry>) {
    && (forall e :: e in queue ==> e == EntryOf(env, e.tx))
    && forall o :: o in orphans ==> Entry(orphans[o].priority, orphans[o].feeRate, o) == EntryOf(env, o)
  }

  /** Every transaction that can be mined was considered, is queued or waits for a parent, and no two of these. */
  ghost predicate Outstanding(env: Env, orphans: map<TxId, Orphan>, queue: seq<Entry>, considered: seq<TxId>) {
    && (forall t :: t in Minable(env) ==> t in Ids(queue) || t in considered || Blocked(orphans, t))
    && (forall t :: t in Ids(queue) ==> t in Minable(env) && t !in considered)
    && (forall t :: t in orphans ==> t in Minable(env))
    && (forall t :: t in considered ==> !Blocked(orphans, t))
  }

  /** What is in the orphan table and in the queue once the transactions in `seen` have been scanned. */
  ghost predicate Scanned(env: Env, seen: set<TxId>, orphans: map<TxId, Orphan>, queue: seq<Entry>) {
    && (forall t :: t in orphans <==> t in seen && !env.skipped(t) && PoolParents(env, t) != {})
    && (forall t :: t in Ids(queue) <==> t in seen && !env.skipped(t) && !env.rejected(t) && PoolParents(env, t) == {})
    && (forall e :: e in queue ==> e == Entry(env.priority(e.tx), env.feeRate(e.tx), e.tx))
    && forall t :: t in orphans ==>
         && orphans[t].priority == (if env.rejected(t) then 0.0 else env.priority(t))
         && orphans[t].feeRate == if env.rejected(t) then 0 else env.feeRate(t)
  }

  lemma NothingScanned(env: Env)
    ensures Scanned(env, ToSet(env.order[..0]), map[], [])
  {
  }

  /** One more transaction scanned, by what becomes of it. */
  lemma ScanSees(env: Env, seen: set<TxId>, orphans: map<TxId, Orphan>, queue: seq<Entry>, t: TxId)
    requires Scanned(env, seen, orphans, queue) && t !in seen
    ensures t !in orphans && t !in Ids(queue)
    ensures env.skipped(t) || (env.rejected(t) && PoolParents(env, t) == {}) ==>
      Scanned(env, seen + {t}, orphans, queue)
    ensures !env.skipped(t) && PoolParents(env, t) != {} ==>
              var x := if env.rejected(t) then Orphan(PoolParents(env, t), 0.0, 0)
                       else Orphan(PoolParents(env, t), env.priority(t), env.feeRate(t));
              Scanned(env, seen + {t}, orphans[t := x], queue)
    ensures !env.skipped(t) && !env.rejected(t) && PoolParents(env, t) == {} ==>
              Scanned(env, seen + {t}, orphans, queue + [Entry(env.priority(t), env.feeRate(t), t)])
  {
    hide PoolParents;
    var e := Entry(env.priority(t), env.feeRate(t), t);
    assert Ids(queue + [e]) == Ids(queue) + [t];
  }

  lemma AllScanned(env: Env, orphans: map<TxId, Orphan>, queue: seq<Entry>)
    requires Scanned(env, ToSet(env.order), orphans, queue) && OrphansOk(env, orphans, {})
    ensures Ranked(env, orphans, queue) && Outstanding(env, orphans, queue, [])
  {
    hide PoolParents;
    forall e | e in queue
      ensures e == EntryOf(env, e.tx)
    {
      var i :| 0 <= i < |queue| && queue[i] == e;
      assert Ids(queue)[i] == e.tx;
    }
  }

  lemma PopLoses(queue: seq<Entry>, i: nat)
    requires i < |queue|
    ensures forall f :: f in queue <==> f == queue[i] || f in queue[..i] + queue[i + 1..]
  {
    var rest := queue[..i] + queue[i + 1..];
    forall f | f in queue && f != queue[i]
      ensures f in rest
    {
      var j :| 0 <= j < |queue| && queue[j] == f;
      assert rest[if j < i then j else j - 1] == f;
    }
  }

  lemma SameIds(queue: seq<Entry>)
    ensures forall t :: t in Ids(queue) <==> exists f :: f in queue && f.tx == t
  {
    forall t | t in Ids(queue)
      ensures exists f :: f in queue && f.tx == t
    {
      var j :| 0 <= j < |queue| && Ids(queue)[j] == t;
      assert queue[j] in queue;
    }
    forall f | f in queue
      ensures f.tx in Ids(queue)
    {
      var j :| 0 <= j < |queue| && queue[j] == f;
      assert Ids(queue)[j] == f.tx;
    }
  }

  lemma GreedyStarts(env: Env)
    ensures Greedy(env, []) && Replay(env, []) == Start(env)
  {
  }

  /** What could be considered and was not is queued, so the highest entry of the queue leads. */
  lemma {:induction false} HighestLeads(env: Env, orphans: map<TxId, Orphan>, dependers: map<TxId, seq<TxId>>,
      queue: seq<Entry>, rest: seq<Entry>, vtx: seq<TxId>, considered: seq<TxId>, e: Entry)
    requires Kept(env, orphans, dependers, rest, vtx) && Ready(env, orphans, ToSet(vtx), e.tx)
    requires Ranked(env, orphans, queue) && Outstanding(env, orphans, queue, considered)
    requires vtx == Replay(env, considered).vtx
    requires forall f :: f in queue ==> !Less(Replay(env, considered).byFee, e, f)
    requires forall f :: f in queue <==> f == e || f in rest
    requires e.tx !in Ids(rest)
    ensures Leads(env, considered, e.tx) && e == EntryOf(env, e.tx)
    ensures Ranked(env, orphans, rest) && Outstanding(env, orphans, rest, considered + [e.tx])
  {
    hide Replay, Less, EntryOf, Minable, PoolParents, Kept;
    SameIds(queue);
    SameIds(rest);
    var s := Replay(env, considered);
    assert e in queue;
    forall u | Eligible(env, s.vtx, u) && u !in considered
      ensures !Less(s.byFee, e, EntryOf(env, u))
    {
      KeptOrphans(env, orphans, dependers, rest, vtx);
      assert u in Ids(queue);
      var f :| f in queue && f.tx == u;
    }
  }

  lemma KeptOrphans(env: Env, orphans: map<TxId, Orphan>, dependers: map<TxId, seq<TxId>>, queue: seq<Entry>,
      vtx: seq<TxId>)
    requires Kept(env, orphans, dependers, queue, vtx)
    ensures forall t :: Blocked(orphans, t) ==> !(PoolParents(env, t) <= ToSet(vtx))
  {
    hide PoolParents, DependersOk, QueueOk, OrderOk, NoneBlocked;
    forall t | Blocked(orphans, t)
      ensures !(PoolParents(env, t) <= ToSet(vtx))
    {
      assert orphans[t].dependsOn == PoolParents(env, t) - ToSet(vtx);
    }
  }

  lemma SelectRanks(env: Env, was: map<TxId, Orphan>, now: map<TxId, Orphan>, queue: seq<Entry>, next: seq<Entry>,
                    t: TxId, list: seq<TxId>)
    requires Ranked(env, was, queue) && Unblocked(was, now, t, list) && Released(was, queue, next, t, list)
    ensures Ranked(env, now, next)
  {
    hide EntryOf;
    assert next == queue + next[|queue|..];
    assert forall e :: e in next ==> e in queue || e in next[|queue|..];
  }

  /** After a selection every transaction is still queued, waiting, or now queued. */
  lemma SelectFinds(env: Env, was: map<TxId, Orphan>, now: map<TxId, Orphan>, dependers: map<TxId, seq<TxId>>,
                    queue: seq<Entry>, next: seq<Entry>, vtx: seq<TxId>, considered: seq<TxId>, t: TxId)
    requires Kept(env, was, dependers, queue, vtx) && Outstanding(env, was, queue, considered)
    requires Unblocked(was, now, t, Waiting(dependers, t)) && Released(was, queue, next, t, Waiting(dependers, t))
    ensures Outstanding(env, now, next, considered)
  {
    hide OrphansOk, QueueOk, OrderOk, NoneBlocked, Minable, Unblocked, Released, Ids;
    StillWaiting(was, now, dependers, queue, next, t);
    NowQueued(was, queue, next, t, Waiting(dependers, t));
    FewerBlocked(was, now, t, Waiting(dependers, t));
  }

  lemma IdsSplit(queue: seq<Entry>, next: seq<Entry>)
    requires queue <= next
    ensures forall u :: u in Ids(next) <==> u in Ids(queue) || u in Ids(next[|queue|..])
  {
    assert next == queue + next[|queue|..];
    assert Ids(next) == Ids(queue) + Ids(next[|queue|..]);
  }

  lemma StillWaiting(was: map<TxId, Orphan>, now: map<TxId, Orphan>, dependers: map<TxId, seq<TxId>>, queue: seq<Entry>,
                     next: seq<Entry>, t: TxId)
    requires Unblocked(was, now, t, Waiting(dependers, t)) && Released(was, queue, next, t, Waiting(dependers, t))
    ensures forall u :: Blocked(was, u) ==> Blocked(now, u) || u in Ids(next)
  {
    hide Ids;
    IdsSplit(queue, next);
    forall u | Blocked(was, u)
      ensures Blocked(now, u) || u in Ids(next)
    {
      if u in Waiting(dependers, t) && was[u].dependsOn - {t} == {} {
        assert forall x :: x in was[u].dependsOn ==> x == t;
        assert was[u].dependsOn == {t};
        assert u in Ids(next[|queue|..]);
      }
    }
  }

  lemma NowQueued(was: map<TxId, Orphan>, queue: seq<Entry>, next: seq<Entry>, t: TxId, list: seq<TxId>)
    requires Released(was, queue, next, t, list)
    ensures forall u :: u in Ids(queue) ==> u in Ids(next)
    ensures forall u :: u in Ids(next) && u !in Ids(queue) ==> Blocked(was, u)
  {
    hide Ids;
    IdsSplit(queue, next);
    forall u | u in Ids(next) && u !in Ids(queue)
      ensures Blocked(was, u)
    {
      assert u in was && was[u].dependsOn == {t};
    }
  }

  lemma FewerBlocked(was: map<TxId, Orphan>, now: map<TxId, Orphan>, t: TxId, list: seq<TxId>)
    requires Unblocked(was, now, t, list)
    ensures now.Keys == was.Keys && forall u :: Blocked(now, u) ==> Blocked(was, u)
  {
  }

  /** With nothing queued, what was not considered waits for a parent that was not selected. */
  lemma {:induction false} AllSettled(env: Env, orphans: map<TxId, Orphan>, dependers: map<TxId, seq<TxId>>,
      vtx: seq<TxId>, considered: seq<TxId>)
    requires Kept(env, orphans, dependers, [], vtx) && Outstanding(env, orphans, [], considered)
    requires vtx == Replay(env, considered).vtx
    ensures Finished(env, considered)
  {
    hide PoolParents, Minable, Kept, Replay;
    KeptOrphans(env, orphans, dependers, [], vtx);
  }

  // ---------------------------------------------------------------- scanning

  /** The mempool parents among the first `i` inputs. */
  function Found(env: Env, t: TxId, i: nat): set<TxId>
    requires i <= |env.inputs(t)|
  {
    set p | p in env.inputs(t)[..i] && !env.inView(p)
  }

  lemma FoundGrows(env: Env, t: TxId, i: nat)
    requires i < |env.inputs(t)|
    ensures var p := env.inputs(t)[i];
      Found(env, t, i + 1) == if env.inView(p) then Found(env, t, i) else Found(env, t, i) + {p}
  {
    assert env.inputs(t)[..i + 1] == env.inputs(t)[..i] + [env.inputs(t)[i]];
  }

  lemma FoundAll(env: Env, t: TxId)
    ensures Found(env, t, |env.inputs(t)|) == PoolParents(env, t)
  {
    assert env.inputs(t)[..|env.inputs(t)|] == env.inputs(t);
  }

  lemma MempoolHas(env: Env, t: TxId, p: TxId)
    requires Closed(env) && t in env.order && p in env.inputs(t) && !env.inView(p)
    ensures p in env.order
  {
    assert p in PoolParents(env, t);
  }

  lemma FreshNext(env: Env, k: nat)
    requires Closed(env) && k < |env.order|
    ensures env.order[k] !in ToSet(env.order[..k])
    ensures ToSet(env.order[..k + 1]) == ToSet(env.order[..k]) + {env.order[k]}
  {
    assert env.order[..k + 1] == env.order[..k] + [env.order[k]];
  }

  /** The orphan was added to the list of each transaction it depends on. */
  ghost predicate Grew(was: map<TxId, seq<TxId>>, now: map<TxId, seq<TxId>>, t: TxId, parents: set<TxId>) {
    && now.Keys == was.Keys + parents
    && (forall p, o :: p in now && o in now[p] ==> (o == t && p in parents) || (p in was && o in was[p]))
    && (forall p, o :: p in was && o in was[p] ==> o in now[p])
    && (forall p :: p in parents ==> t in now[p])
  }

  lemma GrewNone(env: Env, was: map<TxId, seq<TxId>>, t: TxId)
    ensures Found(env, t, 0) == {} && Grew(was, was, t, Found(env, t, 0))
  {
  }

  lemma GrewStep(was: map<TxId, seq<TxId>>, now: map<TxId, seq<TxId>>, t: TxId, parents: set<TxId>, p: TxId)
    requires Grew(was, now, t, parents)
    ensures Grew(was, now[p := (if p in now then now[p] else []) + [t]], t, parents + {p})
  {
  }

  lemma ScanOrphan(env: Env, orphans: map<TxId, Orphan>, was: map<TxId, seq<TxId>>, now: map<TxId, seq<TxId>>,
                   queue: seq<Entry>, t: TxId, x: Orphan)
    requires Kept(env, orphans, was, queue, []) && t in env.order && t !in orphans && t !in Ids(queue)
    requires Grew(was, now, t, PoolParents(env, t)) && x.dependsOn == PoolParents(env, t)
    ensures Kept(env, orphans[t := x], now, queue, [])
  {
    hide PoolParents;
    var next := orphans[t := x];
    assert forall o :: o in next && o != t ==> o in orphans && next[o] == orphans[o];
    forall o, p | o in next && p in next[o].dependsOn
      ensures p in now && o in now[p]
    {
      if o != t {
        assert p in was && o in was[p];
      }
    }
    forall q | q in Ids(queue)
      ensures Ready(env, next, ToSet([]), q)
    {
      assert Ready(env, orphans, ToSet([]), q);
    }
  }

  lemma ScanNone(env: Env, orphans: map<TxId, Orphan>, was: map<TxId, seq<TxId>>, now: map<TxId, seq<TxId>>,
                 queue: seq<Entry>, t: TxId)
    requires Kept(env, orphans, was, queue, []) && Grew(was, now, t, {})
    ensures Kept(env, orphans, now, queue, [])
  {
    hide PoolParents, OrphansOk, QueueOk, OrderOk, NoneBlocked;
  }

  lemma ScanQueued(env: Env, orphans: map<TxId, Orphan>, dependers: map<TxId, seq<TxId>>, queue: seq<Entry>, e: Entry)
    requires Kept(env, orphans, dependers, queue, []) && e.tx in env.order && e.tx !in orphans && e.tx !in Ids(queue)
    requires PoolParents(env, e.tx) == {}
    ensures Kept(env, orphans, dependers, queue + [e], [])
  {
    hide PoolParents, OrphansOk, DependersOk, OrderOk, NoneBlocked;
    assert Ids(queue + [e]) == Ids(queue) + [e.tx];
    AppendDistinct(Ids(queue), e.tx);
    assert Ready(env, orphans, ToSet([]), e.tx);
    assert forall q :: q in Ids(queue) ==> Ready(env, orphans, ToSet([]), q);
  }

  /** Registering an orphan, with whatever priority, or queueing a transaction that has no mempool parents. */
  lemma ScanKeeps(env: Env, orphans: map<TxId, Orphan>, was: map<TxId, seq<TxId>>, now: map<TxId, seq<TxId>>,
                  queue: seq<Entry>, t: TxId)
    requires Kept(env, orphans, was, queue, []) && t in env.order && t !in orphans && t !in Ids(queue)
    requires Grew(was, now, t, PoolParents(env, t))
    ensures PoolParents(env, t) != {} ==>
              forall p, f :: Kept(env, orphans[t := Orphan(PoolParents(env, t), p, f)], now, queue, [])
    ensures PoolParents(env, t) == {} ==> Kept(env, orphans, now, queue, [])
    ensures PoolParents(env, t) == {} ==> forall p, f :: Kept(env, orphans, now, queue + [Entry(p, f, t)], [])
  {
    hide Kept, PoolParents;
    if PoolParents(env, t) != {} {
      forall p, f
        ensures Kept(env, orphans[t := Orphan(PoolParents(env, t), p, f)], now, queue, [])
      {
        ScanOrphan(env, orphans, was, now, queue, t, Orphan(PoolParents(env, t), p, f));
      }
    } else {
      ScanNone(env, orphans, was, now, queue, t);
      forall p, f
        ensures Kept(env, orphans, now, queue + [Entry(p, f, t)], [])
      {
        ScanQueued(env, orphans, now, queue, Entry(p, f, t));
      }
    }
  }
}
