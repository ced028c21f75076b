/** The limits of a block, its running totals, and the checks on a transaction before it is taken. */
module BlockLimits {
  import opened BlockSelection

  function SumOf(env: Env, f: TxId -> nat, s: seq<TxId>): nat {
    if s == [] then 0 else SumOf(env, f, s[..|s| - 1]) + f(s[|s| - 1])
  }

  function Sum(s: seq<int>): int {
    if s == [] then 0 else Sum(s[..|s| - 1]) + s[|s| - 1]
  }

  function CountOf(env: Env, k: Kind, s: seq<TxId>): nat {
    if s == [] then 0 else CountOf(env, k, s[..|s| - 1]) + if env.kind(s[|s| - 1]) == k then 1 else 0
  }

  /** A shielded pool's balance after the transactions. */
  function Balance(start: int, delta: TxId -> int, s: seq<TxId>): int {
    if s == [] then start else Balance(start, delta, s[..|s| - 1]) + delta(s[|s| - 1])
  }

  /** The turnstile applies when it is enabled and both balances are known. */
  predicate Monitoring(env: Env) {
    env.turnstile && env.sproutStart.Some? && env.saplingStart.Some?
  }

  /** Both balances stay non-negative after every transaction. */
  ghost predicate TurnstileOk(env: Env, vtx: seq<TxId>) {
    Monitoring(env) ==>
      forall n {:trigger vtx[..n]} :: 0 < n <= |vtx| ==>
        && Balance(env.sproutStart.value, env.sprout, vtx[..n]) >= 0
        && Balance(env.saplingStart.value, env.sapling, vtx[..n]) >= 0
  }

  /** The limits of a block, by what its transactions add up to. */
  ghost predicate WithinLimits(env: Env, vtx: seq<TxId>, sigOps: seq<nat>) {
    && (vtx != [] ==> 1000 + SumOf(env, env.size, vtx) < env.maxSize)
    && 100 + Sum(sigOps) < MAX_BLOCK_SIGOPS
    && (env.requestCap > 0 ==> CountOf(env, OpoiRequest, vtx) <= env.requestCap)
    && (env.responseCap > 0 ==> CountOf(env, OpoiResponse, vtx) <= env.responseCap)
  }

  datatype Totals = Totals(blockSize: nat, blockSigOps: nat, requests: nat, responses: nat, fees: int,
                           sproutValue: int, saplingValue: int)

  /** Each selected transaction was acceptable after those before it, and its own fee and operations are recorded. */
  ghost predicate Recorded(env: Env, vtx: seq<TxId>, txFees: seq<int>, txSigOps: seq<nat>) {
    && |txFees| == |txSigOps| == |vtx|
    && forall i :: 0 <= i < |vtx| ==> RecordOf(env, vtx[i], vtx[..i], txFees[i], txSigOps[i])
  }

  predicate RecordOf(env: Env, t: TxId, before: seq<TxId>, fee: int, sigOps: nat) {
    env.acceptable(t, before) && fee == env.feesOf(t, before) && sigOps == env.sigOps(t) + env.p2shSigOps(t, before)
  }

  lemma RecordKeeps(env: Env, vtx: seq<TxId>, txFees: seq<int>, txSigOps: seq<nat>, t: TxId, sigOps: nat, fee: int)
    requires Recorded(env, vtx, txFees, txSigOps) && RecordOf(env, t, vtx, fee, sigOps)
    ensures Recorded(env, vtx + [t], txFees + [fee], txSigOps + [sigOps])
  {
    hide RecordOf;
    var all := vtx + [t];
    forall i | 0 <= i < |all|
      ensures RecordOf(env, all[i], all[..i], (txFees + [fee])[i], (txSigOps + [sigOps])[i])
    {
      if i < |vtx| {
        assert all[..i] == vtx[..i];
      } else {
        assert all[..i] == vtx;
      }
    }
  }

  /** The running totals are those of the selected transactions, and the limits and the turnstile hold. */
  ghost predicate TotalsOk(env: Env, vtx: seq<TxId>, txFees: seq<int>, txSigOps: seq<nat>, c: Totals) {
    && Recorded(env, vtx, txFees, txSigOps)
    && c.blockSize == 1000 + SumOf(env, env.size, vtx)
    && c.blockSigOps == 100 + Sum(txSigOps)
    && c.requests == CountOf(env, OpoiRequest, vtx)
    && c.responses == CountOf(env, OpoiResponse, vtx)
    && c.fees == Sum(txFees)
    && (Monitoring(env) ==>
          && c.sproutValue == Balance(env.sproutStart.value, env.sprout, vtx)
          && c.saplingValue == Balance(env.saplingStart.value, env.sapling, vtx))
    && WithinLimits(env, vtx, txSigOps)
    && TurnstileOk(env, vtx)
  }

  /** The checks that keep a transaction from going over a limit of the block. */
  predicate Fits(env: Env, c: Totals, t: TxId, sigOps: nat) {
    && c.blockSize + env.size(t) < env.maxSize
    && !(env.kind(t) == OpoiRequest && env.requestCap > 0 && c.requests >= env.requestCap)
    && !(env.kind(t) == OpoiResponse && env.responseCap > 0 && c.responses >= env.responseCap)
    && c.blockSigOps + sigOps < MAX_BLOCK_SIGOPS
    && (Monitoring(env) ==> c.sproutValue + env.sprout(t) >= 0 && c.saplingValue + env.sapling(t) >= 0)
  }

  /** Free transactions are passed over once the block has its minimum size. */
  predicate Free(env: Env, c: Totals, e: Entry) {
    !env.prioritised(e.tx) && e.feeRate < env.minRelayFee && c.blockSize + env.size(e.tx) >= env.minSize
  }

  /** What a transaction must meet to be taken, given what was selected before. */
  predicate Takes(env: Env, c: Totals, vtx: seq<TxId>, byFee: bool, e: Entry) {
    && Fits(env, c, e.tx, env.sigOps(e.tx) + env.p2shSigOps(e.tx, vtx))
    && env.acceptable(e.tx, vtx)
    && !(byFee && Free(env, c, e))
  }

  function Plus(env: Env, c: Totals, t: TxId, sigOps: nat, fee: int): Totals {
    Totals(c.blockSize + env.size(t), c.blockSigOps + sigOps,
           c.requests + (if env.kind(t) == OpoiRequest then 1 else 0),
           c.responses + (if env.kind(t) == OpoiResponse then 1 else 0),
           c.fees + fee,
           if Monitoring(env) then c.sproutValue + env.sprout(t) else c.sproutValue,
           if Monitoring(env) then c.saplingValue + env.sapling(t) else c.saplingValue)
  }

  lemma Appended<T>(s: seq<T>, x: T)
    ensures (s + [x])[..|s + [x]| - 1] == s && (s + [x])[|s|] == x
  {
  }

  lemma {:induction false} AddCounts(env: Env, vtx: seq<TxId>, txFees: seq<int>, txSigOps: seq<nat>, t: TxId,
      sigOps: nat, fee: int)
    ensures SumOf(env, env.size, vtx + [t]) == SumOf(env, env.size, vtx) + env.size(t)
    ensures Sum(txSigOps + [sigOps]) == Sum(txSigOps) + sigOps && Sum(txFees + [fee]) == Sum(txFees) + fee
    ensures forall k :: CountOf(env, k, vtx + [t]) == CountOf(env, k, vtx) + if env.kind(t) == k then 1 else 0
  {
    Appended(vtx, t);
    Appended(txFees, fee);
    Appended(txSigOps, sigOps);
  }

  lemma {:induction false} AddBalance(start: int, delta: TxId -> int, vtx: seq<TxId>, t: TxId)
    ensures Balance(start, delta, vtx + [t]) == Balance(start, delta, vtx) + delta(t)
  {
    Appended(vtx, t);
  }

  lemma {:induction false} AddTurnstile(env: Env, vtx: seq<TxId>, t: TxId)
    requires TurnstileOk(env, vtx)
    requires Monitoring(env) ==>
               && Balance(env.sproutStart.value, env.sprout, vtx + [t]) >= 0
               && Balance(env.saplingStart.value, env.sapling, vtx + [t]) >= 0
    ensures TurnstileOk(env, vtx + [t])
  {
    hide Balance;
    if Monitoring(env) {
      var all := vtx + [t];
      forall n | 0 < n <= |all|
        ensures Balance(env.sproutStart.value, env.sprout, all[..n]) >= 0
        ensures Balance(env.saplingStart.value, env.sapling, all[..n]) >= 0
      {
        if n == |all| {
          assert all[..n] == all;
        } else {
          assert all[..n] == vtx[..n];
        }
      }
    }
  }

  /** Adding a transaction that fits keeps the totals, the limits and the turnstile. */
  lemma AddKeeps(env: Env, vtx: seq<TxId>, txFees: seq<int>, txSigOps: seq<nat>, c: Totals, t: TxId, sigOps: nat,
      fee: int)
    requires TotalsOk(env, vtx, txFees, txSigOps, c) && Fits(env, c, t, sigOps)
    requires RecordOf(env, t, vtx, fee, sigOps)
    ensures TotalsOk(env, vtx + [t], txFees + [fee], txSigOps + [sigOps], Plus(env, c, t, sigOps, fee))
  {
    hide SumOf, Sum, CountOf, Balance, TurnstileOk, Recorded, RecordOf;
    RecordKeeps(env, vtx, txFees, txSigOps, t, sigOps, fee);
    AddCounts(env, vtx, txFees, txSigOps, t, sigOps, fee);
    if Monitoring(env) {
      AddBalance(env.sproutStart.value, env.sprout, vtx, t);
      AddBalance(env.saplingStart.value, env.sapling, vtx, t);
    }
    AddTurnstile(env, vtx, t);
  }
}
