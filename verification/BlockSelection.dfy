/**
 Choosing mempool transactions for a new block: what every step of the selection keeps,
 as predicates over the orphan table, the queue and the transactions selected so far.
 */
module BlockSelection {
  import opened Options
  import opened Sequences

  type TxId = nat

  datatype Kind = Plain | OpoiRequest | OpoiResponse

  /** The mempool in iteration order and all that is known of its transactions and the limits of a block. */
  datatype Env = Env(
    order: seq<TxId>,
    inputs: TxId -> seq<TxId>,
    inView: TxId -> bool,
    skipped: TxId -> bool,
    rejected: TxId -> bool,
    priority: TxId -> real,
    feeRate: TxId -> int,
    size: TxId -> nat,
    sigOps: TxId -> nat,
    kind: TxId -> Kind,
    sprout: TxId -> int,
    sapling: TxId -> int,
    prioritised: TxId -> bool,
    allowFree: real -> bool,
    // what depends on the transactions selected before
    acceptable: (TxId, seq<TxId>) -> bool,
    p2shSigOps: (TxId, seq<TxId>) -> nat,
    feesOf: (TxId, seq<TxId>) -> int,
    // limits
    maxSize: nat,
    prioritySize: nat,
    minSize: nat,
    minRelayFee: int,
    requestCap: int,
    responseCap: int,
    turnstile: bool,
    sproutStart: Option<int>,
    saplingStart: Option<int>)

  datatype Entry = Entry(priority: real, feeRate: int, tx: TxId)

  datatype Orphan = Orphan(dependsOn: set<TxId>, priority: real, feeRate: int)

  const MAX_BLOCK_SIGOPS: nat := 20000

  function ToSet<T>(s: seq<T>): set<T> {
    set x | x in s
  }

  function Ids(queue: seq<Entry>): (r: seq<TxId>)
    ensures |r| == |queue| && forall i :: 0 <= i < |r| ==> r[i] == queue[i].tx
  {
    seq(|queue|, i requires 0 <= i < |queue| => queue[i].tx)
  }

  /** The inputs of a transaction that only other mempool transactions provide. */
  function PoolParents(env: Env, t: TxId): set<TxId> {
    set p | p in env.inputs(t) && !env.inView(p)
  }

  /** Every input comes from the chain or from the mempool. */
  ghost predicate Closed(env: Env) {
    && Distinct(env.order)
    && forall t, p :: t in env.order && p in PoolParents(env, t) ==> p in env.order
  }

  // ---------------------------------------------------------------- what is kept

  predicate Blocked(orphans: map<TxId, Orphan>, o: TxId) {
    o in orphans && orphans[o].dependsOn != {}
  }

  /** Orphans wait for exactly their mempool parents that are not selected yet. */
  ghost predicate OrphansOk(env: Env, orphans: map<TxId, Orphan>, selected: set<TxId>) {
    forall o :: o in orphans ==> o in env.order && orphans[o].dependsOn == PoolParents(env, o) - selected
  }

  /** Every orphan is listed under each transaction it waits for. */
  ghost predicate DependersOk(orphans: map<TxId, Orphan>, dependers: map<TxId, seq<TxId>>) {
    && (forall o, p :: o in orphans && p in orphans[o].dependsOn ==> p in dependers && o in dependers[p])
    && (forall p, o :: p in dependers && o in dependers[p] ==> o in orphans)
  }

  /** Queued transactions are queued once, are not selected or waiting, and have all their parents selected. */
  ghost predicate QueueOk(env: Env, orphans: map<TxId, Orphan>, queue: seq<Entry>, selected: set<TxId>) {
    && Distinct(Ids(queue))
    && forall t :: t in Ids(queue) ==> Ready(env, orphans, selected, t)
  }

  ghost predicate Ready(env: Env, orphans: map<TxId, Orphan>, selected: set<TxId>, t: TxId) {
    t in env.order && t !in selected && !Blocked(orphans, t) && PoolParents(env, t) <= selected
  }

  /** Selected transactions are selected once, each after all its mempool parents. */
  ghost predicate OrderOk(env: Env, vtx: seq<TxId>) {
    && Distinct(vtx)
    && (forall i :: 0 <= i < |vtx| ==> vtx[i] in env.order)
    && forall i :: 0 <= i < |vtx| ==> PoolParents(env, vtx[i]) <= ToSet(vtx[..i])
  }

  ghost predicate NoneBlocked(orphans: map<TxId, Orphan>, selected: set<TxId>) {
    forall t :: t in selected ==> !Blocked(orphans, t)
  }

  // ---------------------------------------------------------------- counting orphans

  ghost function BlockedSet(orphans: map<TxId, Orphan>): set<TxId> {
    set o | o in orphans && orphans[o].dependsOn != {}
  }

  // ---------------------------------------------------------------- the queue

  predicate Less(byFee: bool, a: Entry, b: Entry) {
    if byFee then (if a.feeRate == b.feeRate then a.priority < b.priority else a.feeRate < b.feeRate)
    else if a.priority == b.priority then a.feeRate < b.feeRate
    else a.priority < b.priority
  }

  predicate Highest(byFee: bool, queue: seq<Entry>, i: nat)
    requires i < |queue|
  {
    forall j :: 0 <= j < |queue| ==> !Less(byFee, queue[i], queue[j])
  }

  lemma {:induction false} HighestExists(byFee: bool, queue: seq<Entry>) returns (i: nat)
    requires queue != []
    ensures i < |queue| && Highest(byFee, queue, i)
  {
    if |queue| == 1 {
      i := 0;
    } else {
      var n := |queue| - 1;
      i := HighestExists(byFee, queue[..n]);
      assert forall j :: 0 <= j < n ==> !Less(byFee, queue[i], queue[..n][j]);
      if Less(byFee, queue[i], queue[n]) {
        i := n;
      }
    }
  }

  lemma DropIndex<T>(s: seq<T>, i: nat)
    requires i < |s| && Distinct(s)
    ensures Distinct(s[..i] + s[i + 1..]) && s[i] !in s[..i] + s[i + 1..]
    ensures forall x :: x in s[..i] + s[i + 1..] ==> x in s
  {
    var r := s[..i] + s[i + 1..];
    assert forall j :: 0 <= j < |r| ==> r[j] == if j < i then s[j] else s[j + 1];
  }

  lemma AppendDistinct<T>(s: seq<T>, x: T)
    requires Distinct(s) && x !in s
    ensures Distinct(s + [x]) && ToSet(s + [x]) == ToSet(s) + {x}
  {
  }
}
