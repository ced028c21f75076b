/**
 The OPoI section of a new block's coinbase: payments for responses, shards and audits
 within a budget, challenger rewards and the treasury share, all taken from the first output.
 */
module CoinbaseSplit {
  import opened Options
  import opened FiniteSets
  import opened Numbers

  type Script = seq<nat>
  /** Addresses, numbered in the order of their text. */
  type Address = nat

  datatype Out = Out(value: int, script: Script)

  /** An amount for an address, whose script is known when the address is valid. */
  datatype Payment = Payment(script: Option<Script>, amount: int)

  /** A response transaction in the block, with what the request cache and the audit sample say of it. */
  datatype Response = Response(isReveal: bool, known: bool, payment: int, feePerToken: int, tokenCount: int,
                               verifiable: bool, sampled: bool, script: Option<Script>)

  datatype Shard = Shard(address: Address, amount: int)

  datatype Reward = Reward(script: Option<Script>, amount: int, treasury: int)

  function Total(s: seq<Out>): int {
    if s == [] then 0 else Total(s[..|s| - 1]) + s[|s| - 1].value
  }

  lemma {:induction false} TotalConcat(a: seq<Out>, b: seq<Out>)
    ensures Total(a + b) == Total(a) + Total(b)
    decreases |b|
  {
    if b == [] {
      assert a + b == a;
    } else {
      TotalConcat(a, b[..|b| - 1]);
      assert (a + b)[..|a + b| - 1] == a + b[..|b| - 1];
    }
  }

  lemma TotalFirst(s: seq<Out>, value: int)
    requires s != []
    ensures Total(s[0 := s[0].(value := value)]) == Total(s) - s[0].value + value
  {
    var t := s[0 := s[0].(value := value)];
    TotalConcat([s[0]], s[1..]);
    TotalConcat([t[0]], s[1..]);
    assert s == [s[0]] + s[1..] && t == [t[0]] + s[1..];
    assert Total([s[0]]) == Total([]) + s[0].value && Total([t[0]]) == Total([]) + t[0].value;
  }

  // ---------------------------------------------------------------- greedy payment

  /** Payments in order, each made when its address is valid and the limit still holds with it. */
  function Paid(list: seq<Payment>, limit: int, before: int): seq<Out> {
    if list == [] then []
    else
      var rest := Paid(list[..|list| - 1], limit, before);
      var p := list[|list| - 1];
      if p.script.Some? && before + Total(rest) + p.amount <= limit
      then rest + [Out(p.amount, p.script.value)]
      else rest
  }

  predicate NonNegative(list: seq<Payment>) {
    forall i :: 0 <= i < |list| ==> list[i].amount >= 0
  }

  /** Payments never take the total paid over the limit, and never reduce it. */
  lemma {:induction false} PaidWithin(list: seq<Payment>, limit: int, before: int)
    requires NonNegative(list)
    ensures Total(Paid(list, limit, before)) >= 0
    ensures before <= limit ==> before + Total(Paid(list, limit, before)) <= limit
    ensures before > limit ==> Paid(list, limit, before) == []
  {
    if list != [] {
      var front, p := list[..|list| - 1], list[|list| - 1];
      PaidWithin(front, limit, before);
      var rest := Paid(front, limit, before);
      if p.script.Some? {
        TotalConcat(rest, [Out(p.amount, p.script.value)]);
        assert Total([Out(p.amount, p.script.value)]) == Total([]) + p.amount;
      }
    }
  }

  /** A payment is left out only when its address is invalid or what was paid before leaves no room for it. */
  lemma {:induction false} PaidGreedily(list: seq<Payment>, limit: int, before: int, i: nat)
    requires i < |list|
    ensures Paid(list[..i], limit, before) <= Paid(list[..i + 1], limit, before) <= Paid(list, limit, before)
    ensures |Paid(list[..i + 1], limit, before)| > |Paid(list[..i], limit, before)| <==>
            && list[i].script.Some?
            && before + Total(Paid(list[..i], limit, before)) + list[i].amount <= limit
    decreases |list|
  {
    assert list[..i + 1][..i] == list[..i] && list[..i + 1][i] == list[i];
    if i < |list| - 1 {
      var front := list[..|list| - 1];
      PaidGreedily(front, limit, before, i);
      assert front[..i] == list[..i] && front[..i + 1] == list[..i + 1];
    } else {
      assert list[..i + 1] == list;
    }
  }

  // ---------------------------------------------------------------- the payments

  /** Responses that are paid in this block: reveals of known, paid requests that no audit defers. */
  predicate Payable(r: Response) {
    r.isReveal && r.known && r.payment > 0 && !r.verifiable && !r.sampled
  }

  function AmountFor(r: Response): int {
    r.payment + if r.feePerToken > 0 && r.tokenCount > 0 then r.tokenCount * r.feePerToken else 0
  }

  function ResponsePayments(rs: seq<Response>): (list: seq<Payment>) {
    if rs == [] then []
    else
      var rest := ResponsePayments(rs[..|rs| - 1]);
      var r := rs[|rs| - 1];
      if Payable(r) then rest + [Payment(r.script, AmountFor(r))] else rest
  }

  lemma {:induction false} ResponsesNonNegative(rs: seq<Response>)
    ensures NonNegative(ResponsePayments(rs))
  {
    if rs != [] {
      ResponsesNonNegative(rs[..|rs| - 1]);
    }
  }

  /** Shard payments added up per address. */
  function Aggregated(shards: seq<Shard>): map<Address, int> {
    if shards == [] then map[]
    else
      var rest, s := Aggregated(shards[..|shards| - 1]), shards[|shards| - 1];
      rest[s.address := (if s.address in rest then rest[s.address] else 0) + s.amount]
  }

  function AmountTo(shards: seq<Shard>, a: Address): int {
    if shards == [] then 0
    else
      var last := shards[|shards| - 1];
      AmountTo(shards[..|shards| - 1], a) + if last.address == a then last.amount else 0
  }

  /** Every address with a shard payment is there, with all of its payments and nothing else. */
  lemma {:induction false} AggregatedIs(shards: seq<Shard>, a: Address)
    ensures a in Aggregated(shards) <==> exists i :: 0 <= i < |shards| && shards[i].address == a
    ensures AmountTo(shards, a) == if a in Aggregated(shards) then Aggregated(shards)[a] else 0
  {
    if shards != [] {
      var front := shards[..|shards| - 1];
      AggregatedIs(front, a);
      if i :| 0 <= i < |front| && front[i].address == a {
        assert shards[i].address == a;
      }
    }
  }

  lemma {:induction false} AmountsNonNegative(shards: seq<Shard>, a: Address)
    requires forall i :: 0 <= i < |shards| ==> shards[i].amount >= 0
    ensures AmountTo(shards, a) >= 0
  {
    if shards != [] {
      AmountsNonNegative(shards[..|shards| - 1], a);
    }
  }

  /** The aggregated payments, address by address in ascending order. */
  ghost predicate Lists(agg: map<Address, int>, scripts: Address -> Option<Script>,
      order: seq<Address>, list: seq<Payment>)
  {
    && |order| == |list| && (forall i, j :: 0 <= i < j < |order| ==> order[i] < order[j])
    && (forall a :: a in order <==> a in agg)
    && forall i :: 0 <= i < |list| ==> order[i] in agg && list[i] == Payment(scripts(order[i]), agg[order[i]])
  }

  function TreasuryTotal(rewards: seq<Reward>): int {
    if rewards == [] then 0 else TreasuryTotal(rewards[..|rewards| - 1]) + rewards[|rewards| - 1].treasury
  }

  function RewardPayments(rewards: seq<Reward>): (list: seq<Payment>)
    ensures |list| == |rewards| && forall i :: 0 <= i < |list| ==>
      list[i] == Payment(rewards[i].script, rewards[i].amount)
  {
    seq(|rewards|, i requires 0 <= i < |rewards| => Payment(rewards[i].script, rewards[i].amount))
  }

  // ---------------------------------------------------------------- the code

  class Coinbase {
    var vout: seq<Out>

    constructor (vout: seq<Out>)
      ensures this.vout == vout
    {
      this.vout := vout;
    }

    /** One payment: made when the address is valid and neither the budget nor the first output is exceeded. */
    method Pay(p: Payment, budget: int, paid: int, ghost base: seq<Out>, ghost list: seq<Payment>, ghost before: int)
      returns (now: int)
      requires Progress(base, vout, list, budget, before, paid)
      modifies this
      ensures Progress(base, vout, list + [p], budget, before, now)
    {
      hide Paid, Total;
      PaidNext(list, p, Min(budget, base[0].value), before);
      now := paid;
      if p.script.None? {
        return;
      }
      if paid + p.amount > budget {
        return;
      }
      if paid + p.amount > vout[0].value {
        return;
      }
      vout := vout + [Out(p.amount, p.script.value)];
      now := paid + p.amount;
    }

    method PayAll(list: seq<Payment>, budget: int, paid: int) returns (now: int)
      requires vout != []
      modifies this
      ensures Progress(old(vout), vout, list, budget, paid, now)
    {
      hide Progress;
      now := paid;
      ProgressStarts(vout, budget, paid);
      for i := 0 to |list|
        invariant Progress(old(vout), vout, list[..i], budget, paid, now)
      {
        now := Pay(list[i], budget, now, old(vout), list[..i], paid);
        assert list[..i + 1] == list[..i] + [list[i]];
      }
      assert list[..|list|] == list;
    }

    /** Responses are filtered and paid one after the other. */
    method PayResponses(rs: seq<Response>, budget: int, paid: int) returns (now: int)
      requires vout != []
      modifies this
      ensures Progress(old(vout), vout, ResponsePayments(rs), budget, paid, now)
    {
      hide Progress;
      now := paid;
      ProgressStarts(vout, budget, paid);
      for i := 0 to |rs|
        invariant Progress(old(vout), vout, ResponsePayments(rs[..i]), budget, paid, now)
      {
        var r := rs[i];
        assert rs[..i + 1][..i] == rs[..i];
        if r.isReveal && r.known && r.payment > 0 && !r.verifiable && !r.sampled {
          var amount := r.payment;
          if r.feePerToken > 0 && r.tokenCount > 0 {
            amount := amount + r.tokenCount * r.feePerToken;
          }
          now := Pay(Payment(r.script, amount), budget, now, old(vout), ResponsePayments(rs[..i]), paid);
        }
      }
      assert rs[..|rs|] == rs;
    }

    /** Shard payments are added up per address and then paid. */
    method PayShards(shards: seq<Shard>, scripts: Address -> Option<Script>, budget: int, paid: int)
      returns (now: int, ghost order: seq<Address>, ghost list: seq<Payment>)
      requires vout != []
      modifies this
      ensures Lists(Aggregated(shards), scripts, order, list)
      ensures Progress(old(vout), vout, list, budget, paid, now)
    {
      hide Progress, Lists, Ahead, Without;
      var agg := Aggregate(shards);
      now, order, list := paid, [], [];
      ProgressStarts(vout, budget, paid);
      var left := agg.Keys;
      ListsNone(agg, scripts);
      while left != {}
        invariant left <= agg.Keys && Lists(Without(agg, left), scripts, order, list) && Ahead(agg.Keys, left)
        invariant Progress(old(vout), vout, list, budget, paid, now)
        decreases left
      {
        var a := First(left);
        var p := Payment(scripts(a), agg[a]);
        ListsNext(agg, left, scripts, order, list, a);
        now := Pay(p, budget, now, old(vout), list, paid);
        left := left - {a};
        order, list := order + [a], list + [p];
      }
      WithoutNone(agg);
    }

    /** The four payment passes share one budget. */
    method PayPasses(work: Work) returns (paid: int, ghost order: seq<Address>, ghost list: seq<Payment>)
      requires vout != []
      modifies this
      ensures Lists(Aggregated(work.shards), work.scripts, order, list)
      ensures vout == old(vout) + Passes(old(vout), work, list) && paid == Total(Passes(old(vout), work, list))
    {
      hide Progress, Lists, Paid, Total, ResponsePayments, Aggregated;
      ghost var base, limit := vout, Min(work.budget, vout[0].value);
      paid := PayResponses(work.responses, work.budget, 0);
      FirstPass(base, vout, ResponsePayments(work.responses), work.budget, paid);
      ghost var p1 := Paid(ResponsePayments(work.responses), limit, 0);
      paid, order, list := PayShards(work.shards, work.scripts, work.budget, paid);
      NextPass(base, p1, vout, list, work.budget, paid);
      ghost var p2 := p1 + Paid(list, limit, Total(p1));
      paid := PayAll(work.verifiable, work.budget, paid);
      NextPass(base, p2, vout, work.verifiable, work.budget, paid);
      ghost var p3 := p2 + Paid(work.verifiable, limit, Total(p2));
      paid := PayAll(work.audited, work.budget, paid);
      NextPass(base, p3, vout, work.audited, work.budget, paid);
    }

    /** The payments, then challenger rewards and the treasury, each taken from the first output. */
    method Split(work: Work, treasury: Option<Script>) returns (ghost order: seq<Address>, ghost list: seq<Payment>)
      requires vout != []
      modifies this
      ensures Lists(Aggregated(work.shards), work.scripts, order, list)
      ensures vout == Finished(Deducted(old(vout), Passes(old(vout), work, list)), work.rewards, treasury)
    {
      hide Lists, Passes, Finished, Total;
      var paid;
      paid, order, list := PayPasses(work);
      vout := vout[0 := vout[0].(value := vout[0].value - paid)];
      PayRewards(work.rewards, treasury);
    }

    method PayRewards(rewards: seq<Reward>, treasury: Option<Script>)
      requires vout != []
      modifies this
      ensures vout == Finished(old(vout), rewards, treasury)
    {
      hide Paid;
      ghost var base := vout;
      var limit := vout[0].value;
      var given := PayAll(RewardPayments(rewards), limit, 0);
      vout := vout[0 := vout[0].(value := vout[0].value - given)];
      var share := TreasuryShare(rewards);
      if share > 0 && share <= vout[0].value && treasury.Some? {
        OneTotal(Out(share, treasury.value));
        vout := vout + [Out(share, treasury.value)];
        vout := vout[0 := vout[0].(value := vout[0].value - share)];
      }
    }
  }

  // ---------------------------------------------------------------- what the section leaves

  /** The outputs with some more, whose worth is taken from the first one. */
  function Deducted(vout: seq<Out>, made: seq<Out>): (r: seq<Out>)
    requires vout != []
  {
    (vout + made)[0 := vout[0].(value := vout[0].value - Total(made))]
  }

  /** Everything the four passes pay, within the budget and the first output as it was. */
  function Passes(base: seq<Out>, work: Work, list: seq<Payment>): seq<Out>
    requires base != []
  {
    var limit := Min(work.budget, base[0].value);
    var p1 := Paid(ResponsePayments(work.responses), limit, 0);
    var p2 := p1 + Paid(list, limit, Total(p1));
    var p3 := p2 + Paid(work.verifiable, limit, Total(p2));
    p3 + Paid(work.audited, limit, Total(p3))
  }

  /** Challenger rewards as far as the first output goes, then the treasury share if it still fits. */
  function Finished(vout: seq<Out>, rewards: seq<Reward>, treasury: Option<Script>): seq<Out>
    requires vout != []
  {
    var v := Deducted(vout, Paid(RewardPayments(rewards), vout[0].value, 0));
    var share := TreasuryTotal(rewards);
    if share > 0 && share <= v[0].value && treasury.Some? then Deducted(v, [Out(share, treasury.value)]) else v
  }

  /** What the block and the caches say there is to pay. */
  datatype Work = Work(budget: int, responses: seq<Response>, shards: seq<Shard>, scripts: Address -> Option<Script>,
                       verifiable: seq<Payment>, audited: seq<Payment>, rewards: seq<Reward>)

  ghost predicate WorkOk(work: Work) {
    && work.budget >= 0
    && (forall i :: 0 <= i < |work.shards| ==> work.shards[i].amount >= 0)
    && NonNegative(work.verifiable) && NonNegative(work.audited)
    && NonNegative(RewardPayments(work.rewards))
  }

  method TreasuryShare(rewards: seq<Reward>) returns (share: int)
    ensures share == TreasuryTotal(rewards)
  {
    share := 0;
    for i := 0 to |rewards|
      invariant share == TreasuryTotal(rewards[..i])
    {
      assert rewards[..i + 1][..i] == rewards[..i];
      share := share + rewards[i].treasury;
    }
    assert rewards[..|rewards|] == rewards;
  }

  lemma OneTotal(o: Out)
    ensures Total([o]) == o.value
  {
    assert Total([o]) == Total([]) + o.value;
  }

  lemma {:induction false} FirstPass(base: seq<Out>, vout: seq<Out>, list: seq<Payment>, budget: int, now: int)
    requires Progress(base, vout, list, budget, 0, now)
    ensures var made := Paid(list, Min(budget, base[0].value), 0);
            vout == base + made && now == Total(made)
  {
  }

  /** One more pass: its payments follow those made before, and the running sum is what was paid in all. */
  lemma {:induction false} NextPass(base: seq<Out>, before: seq<Out>, vout: seq<Out>, list: seq<Payment>, budget: int,
      now: int)
    requires base != [] && Progress(base + before, vout, list, budget, Total(before), now)
    ensures var made := before + Paid(list, Min(budget, base[0].value), Total(before));
            vout == base + made && now == Total(made)
  {
    hide Paid, Total;
    var made := Paid(list, Min(budget, base[0].value), Total(before));
    assert base + before + made == base + (before + made);
    TotalConcat(before, made);
  }

  lemma {:induction false} DeductedTotal(vout: seq<Out>, made: seq<Out>)
    requires vout != []
    ensures Total(Deducted(vout, made)) == Total(vout)
  {
    hide Total;
    var all := vout + made;
    TotalConcat(vout, made);
    TotalFirst(all, all[0].value - Total(made));
    assert all[0] == vout[0];
  }

  lemma {:induction false} DeductedShape(vout: seq<Out>, made: seq<Out>)
    requires vout != []
    ensures var r := Deducted(vout, made);
            && |r| == |vout| + |made| && r[1..|vout|] == vout[1..]
            && r[0] == Out(vout[0].value - Total(made), vout[0].script)
  {
    hide Total;
  }

  lemma {:induction false} MorePaid(made: seq<Out>, list: seq<Payment>, limit: int)
    requires NonNegative(list) && 0 <= Total(made) <= limit
    ensures 0 <= Total(made + Paid(list, limit, Total(made))) <= limit
  {
    hide Total, Paid;
    PaidWithin(list, limit, Total(made));
    TotalConcat(made, Paid(list, limit, Total(made)));
  }

  /** The four passes together stay within the budget and within the first output. */
  lemma PassesWithin(base: seq<Out>, work: Work, list: seq<Payment>)
    requires base != [] && base[0].value >= 0 && WorkOk(work) && NonNegative(list)
    ensures 0 <= Total(Passes(base, work, list)) <= Min(work.budget, base[0].value)
  {
    hide Total, Paid, NonNegative;
    var limit := Min(work.budget, base[0].value);
    ResponsesNonNegative(work.responses);
    var p1 := Paid(ResponsePayments(work.responses), limit, 0);
    PaidWithin(ResponsePayments(work.responses), limit, 0);
    MorePaid(p1, list, limit);
    var p2 := p1 + Paid(list, limit, Total(p1));
    MorePaid(p2, work.verifiable, limit);
    var p3 := p2 + Paid(work.verifiable, limit, Total(p2));
    MorePaid(p3, work.audited, limit);
  }

  lemma TailKept(base: seq<Out>, v: seq<Out>, r: seq<Out>)
    requires 0 < |base| <= |v| <= |r| && v[1..|base|] == base[1..] && r[1..|v|] == v[1..]
    ensures r[1..|base|] == base[1..]
  {
    forall i | 1 <= i < |base|
      ensures r[i] == base[i]
    {
      assert r[i] == r[1..|v|][i - 1] && v[1..][i - 1] == v[i];
      assert v[i] == v[1..|base|][i - 1] && base[1..][i - 1] == base[i];
    }
  }

  /** Rewards and treasury leave the total as it is and the first output non-negative. */
  lemma {:induction false} FinishedConserves(vout: seq<Out>, rewards: seq<Reward>, treasury: Option<Script>)
    requires vout != [] && vout[0].value >= 0 && NonNegative(RewardPayments(rewards))
    ensures var r := Finished(vout, rewards, treasury);
            && |r| >= |vout| && r[1..|vout|] == vout[1..] && r[0].script == vout[0].script
            && Total(r) == Total(vout) && r[0].value >= 0
  {
    hide Total, Paid, NonNegative, Deducted;
    var list := RewardPayments(rewards);
    var made := Paid(list, vout[0].value, 0);
    PaidWithin(list, vout[0].value, 0);
    var v := Deducted(vout, made);
    DeductedTotal(vout, made);
    DeductedShape(vout, made);
    var share := TreasuryTotal(rewards);
    if share > 0 && share <= v[0].value && treasury.Some? {
      var o := Out(share, treasury.value);
      OneTotal(o);
      DeductedTotal(v, [o]);
      DeductedShape(v, [o]);
      TailKept(vout, v, Deducted(v, [o]));
    }
  }

  /** The section leaves the sum of the outputs and all earlier outputs as they are, and the first one non-negative. */
  lemma {:induction false} SplitConserves(base: seq<Out>, work: Work, order: seq<Address>, list: seq<Payment>,
      treasury: Option<Script>)
    requires base != [] && base[0].value >= 0 && WorkOk(work)
    requires Lists(Aggregated(work.shards), work.scripts, order, list)
    ensures 0 <= Total(Passes(base, work, list)) <= work.budget
    ensures var r := Finished(Deducted(base, Passes(base, work, list)), work.rewards, treasury);
            && |r| >= |base| && r[1..|base|] == base[1..] && r[0].script == base[0].script
            && Total(r) == Total(base) && r[0].value >= 0
  {
    hide Total, Passes, NonNegative, Finished, Lists, Deducted;
    ListsNonNegative(work.shards, work.scripts, order, list);
    PassesWithin(base, work, list);
    var made := Passes(base, work, list);
    var v := Deducted(base, made);
    DeductedTotal(base, made);
    DeductedShape(base, made);
    FinishedConserves(v, work.rewards, treasury);
    TailKept(base, v, Finished(v, work.rewards, treasury));
  }

  lemma {:induction false} ListsNonNegative(shards: seq<Shard>, scripts: Address -> Option<Script>,
      order: seq<Address>, list: seq<Payment>)
    requires Lists(Aggregated(shards), scripts, order, list)
    requires forall i :: 0 <= i < |shards| ==> shards[i].amount >= 0
    ensures NonNegative(list)
  {
    hide Aggregated;
    forall i | 0 <= i < |list|
      ensures list[i].amount >= 0
    {
      AggregatedIs(shards, order[i]);
      AmountsNonNegative(shards, order[i]);
    }
  }

  /** The first output gets the fees. */
  function WithFees(vout: seq<Out>, fees: int): seq<Out>
    requires vout != []
  {
    vout[0 := vout[0].(value := vout[0].value + fees)]
  }

  /** The whole end of the coinbase: the section when the upgrade is active, and then the fees for the miner. */
  method FinishCoinbase(cb: Coinbase, active: bool, work: Work, treasury: Option<Script>, fees: int)
    returns (ghost order: seq<Address>, ghost list: seq<Payment>)
    requires cb.vout != [] && cb.vout[0].value >= 0 && WorkOk(work)
    modifies cb
    ensures !active ==> cb.vout == WithFees(old(cb.vout), fees)
    ensures active ==> Lists(Aggregated(work.shards), work.scripts, order, list)
    ensures active ==>
      var done := Finished(Deducted(old(cb.vout), Passes(old(cb.vout), work, list)), work.rewards, treasury);
      done != [] && cb.vout == WithFees(done, fees)
    ensures Total(cb.vout) == Total(old(cb.vout)) + fees
    ensures |cb.vout| >= |old(cb.vout)| && cb.vout[1..|old(cb.vout)|] == old(cb.vout)[1..]
    ensures cb.vout[0].value >= fees
  {
    hide Total, Lists, Finished, Passes;
    ghost var base := cb.vout;
    order, list := [], [];
    if active {
      order, list := cb.Split(work, treasury);
      SplitConserves(base, work, order, list, treasury);
    }
    TotalFirst(cb.vout, cb.vout[0].value + fees);
    cb.vout := cb.vout[0 := cb.vout[0].(value := cb.vout[0].value + fees)];
  }

  method Aggregate(shards: seq<Shard>) returns (agg: map<Address, int>)
    ensures agg == Aggregated(shards)
  {
    agg := map[];
    for i := 0 to |shards|
      invariant agg == Aggregated(shards[..i])
    {
      assert shards[..i + 1][..i] == shards[..i];
      var s := shards[i];
      agg := agg[s.address := (if s.address in agg then agg[s.address] else 0) + s.amount];
    }
    assert shards[..|shards|] == shards;
  }

  /** After the payments of `list` on top of `base`, when `before` was paid before. */
  ghost predicate Progress(base: seq<Out>, vout: seq<Out>, list: seq<Payment>, budget: int, before: int, now: int) {
    base != []
    && var made := Paid(list, Min(budget, base[0].value), before);
       vout == base + made && now == before + Total(made)
  }

  lemma ProgressStarts(base: seq<Out>, budget: int, before: int)
    requires base != []
    ensures Progress(base, base, [], budget, before, before)
  {
  }

  ghost function Without(agg: map<Address, int>, left: set<Address>): map<Address, int> {
    map a | a in agg && a !in left :: agg[a]
  }

  lemma WithoutNone(agg: map<Address, int>)
    ensures Without(agg, {}) == agg
  {
  }

  /** What has been paid comes before what is left. */
  ghost predicate Ahead(all: set<Address>, left: set<Address>) {
    forall a, b :: a in all && a !in left && b in left ==> a < b
  }

  lemma ListsNone(agg: map<Address, int>, scripts: Address -> Option<Script>)
    ensures Lists(Without(agg, agg.Keys), scripts, [], []) && Ahead(agg.Keys, agg.Keys)
  {
  }

  lemma ListsNext(agg: map<Address, int>, left: set<Address>, scripts: Address -> Option<Script>,
                  order: seq<Address>, list: seq<Payment>, a: Address)
    requires left <= agg.Keys && a in left && (forall b :: b in left ==> a <= b) && Ahead(agg.Keys, left)
    requires Lists(Without(agg, left), scripts, order, list)
    ensures Lists(Without(agg, left - {a}), scripts, order + [a], list + [Payment(scripts(a), agg[a])])
    ensures Ahead(agg.Keys, left - {a})
  {
    assert a !in Without(agg, left) && a !in order;
    assert forall x :: x in Without(agg, left - {a}) <==> x == a || x in Without(agg, left);
  }

  lemma {:induction false} PaidNext(list: seq<Payment>, p: Payment, limit: int, before: int)
    ensures var rest, made := Paid(list, limit, before), Paid(list + [p], limit, before);
            if p.script.Some? && before + Total(rest) + p.amount <= limit then
              made == rest + [Out(p.amount, p.script.value)] && Total(made) == Total(rest) + p.amount
            else made == rest
  {
    assert (list + [p])[..|list|] == list;
    var rest := Paid(list, limit, before);
    if p.script.Some? {
      TotalConcat(rest, [Out(p.amount, p.script.value)]);
      assert Total([Out(p.amount, p.script.value)]) == Total([]) + p.amount;
    }
  }
}
