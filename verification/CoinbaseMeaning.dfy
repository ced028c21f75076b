/**
 The outputs of the coinbase, section by section: which responses, shards, audits and rewards are paid, how much each,
 and in which order, in the fields of what there is to pay.
 */
module CoinbaseMeaning {
  import opened Options
  import opened Numbers
  import opened CoinbaseSplit

  /**
   What is owed is paid in order, each time the limit still holds with it: `n[i]` outputs are there when the turn of
   `owed[i]` comes, and what is not owed to a valid address adds none.
   */
  predicate PaidAlong(owed: seq<Option<Out>>, limit: int, before: int, outs: seq<Out>, n: seq<nat>) {
    && |n| == |owed| + 1 && n[0] == 0 && n[|owed|] == |outs|
    && forall i :: 0 <= i < |owed| ==> Turn(owed[i], limit, before, outs, n[i], n[i + 1])
  }

  /** One turn: with `k` outputs there, `o` is paid if it is owed and the limit holds with it. */
  predicate Turn(o: Option<Out>, limit: int, before: int, outs: seq<Out>, k: nat, next: nat) {
    && k <= |outs|
    && if o.Some? && before + Total(outs[..k]) + o.value.value <= limit
       then next == k + 1 && k < |outs| && outs[k] == o.value
       else next == k
  }

  lemma TurnStays(o: Option<Out>, limit: int, before: int, outs: seq<Out>, more: seq<Out>, k: nat, next: nat)
    requires Turn(o, limit, before, outs, k, next)
    ensures Turn(o, limit, before, outs + more, k, next)
  {
    hide Total;
    assert (outs + more)[..k] == outs[..k];
  }

  ghost predicate PaidInOrder(owed: seq<Option<Out>>, limit: int, before: int, outs: seq<Out>) {
    exists n: seq<nat> :: PaidAlong(owed, limit, before, outs, n)
  }

  /** The payments that a valid address can get. */
  function Owed(list: seq<Payment>): seq<Option<Out>> {
    seq(|list|, i requires 0 <= i < |list| =>
      if list[i].script.Some? then Some(Out(list[i].amount, list[i].script.value)) else None)
  }

  /**
   What is owed for a response: for the reveal of a known request with a positive payment that is neither verifiable
   nor sampled for an audit, the payment and, where both are positive, the fee for every token.
   */
  function OwedFor(r: Response): Option<Out> {
    if !r.isReveal || !r.known || r.payment <= 0 || r.verifiable || r.sampled || r.script.None? then None
    else if r.feePerToken <= 0 || r.tokenCount <= 0 then Some(Out(r.payment, r.script.value))
    else Some(Out(r.payment + r.tokenCount * r.feePerToken, r.script.value))
  }

  function OwedForAll(rs: seq<Response>): seq<Option<Out>> {
    seq(|rs|, i requires 0 <= i < |rs| => OwedFor(rs[i]))
  }

  // ---------------------------------------------------------------- each pass

  lemma PaidNone(limit: int, before: int)
    ensures PaidInOrder([], limit, before, [])
  {
    assert PaidAlong([], limit, before, [], [0]);
  }

  /** One more turn. */
  lemma PaidOneMore(owed: seq<Option<Out>>, limit: int, before: int, outs: seq<Out>, o: Option<Out>)
    requires PaidInOrder(owed, limit, before, outs)
    ensures PaidInOrder(owed + [o], limit, before,
      if o.Some? && before + Total(outs) + o.value.value <= limit then outs + [o.value] else outs)
  {
    hide Total, Turn;
    var n: seq<nat> :| PaidAlong(owed, limit, before, outs, n);
    var more := if o.Some? && before + Total(outs) + o.value.value <= limit then [o.value] else [];
    var all, n' := owed + [o], n + [|outs + more|];
    forall i | 0 <= i < |all|
      ensures Turn(all[i], limit, before, outs + more, n'[i], n'[i + 1])
    {
      if i < |owed| {
        TurnStays(owed[i], limit, before, outs, more, n[i], n[i + 1]);
      } else {
        LastTurn(o, limit, before, outs);
      }
    }
    assert PaidAlong(all, limit, before, outs + more, n');
    assert outs + [] == outs;
  }

  lemma LastTurn(o: Option<Out>, limit: int, before: int, outs: seq<Out>)
    ensures var more := if o.Some? && before + Total(outs) + o.value.value <= limit then [o.value] else [];
      Turn(o, limit, before, outs + more, |outs|, |outs + more|)
  {
    hide Total;
    assert outs[..|outs|] == outs;
    assert o.Some? ==> (outs + [o.value])[..|outs|] == outs;
    assert outs + [] == outs;
  }

  /** There is only one way to pay in order. */
  lemma PaidOneWay(owed: seq<Option<Out>>, limit: int, before: int, x: seq<Out>, y: seq<Out>)
    requires PaidInOrder(owed, limit, before, x) && PaidInOrder(owed, limit, before, y)
    ensures x == y
  {
    hide Turn;
    var n: seq<nat> :| PaidAlong(owed, limit, before, x, n);
    var m: seq<nat> :| PaidAlong(owed, limit, before, y, m);
    SameTurns(owed, limit, before, x, y, n, m, |owed|);
    assert x[..|x|] == x && y[..|y|] == y;
  }

  lemma {:induction false} SameTurns(owed: seq<Option<Out>>, limit: int, before: int, x: seq<Out>, y: seq<Out>,
      n: seq<nat>, m: seq<nat>, i: nat)
    requires PaidAlong(owed, limit, before, x, n) && PaidAlong(owed, limit, before, y, m) && i <= |owed|
    ensures n[i] == m[i] <= |x| && m[i] <= |y| && x[..n[i]] == y[..m[i]]
    decreases i
  {
    hide Total;
    if i > 0 {
      SameTurns(owed, limit, before, x, y, n, m, i - 1);
      var k := n[i - 1];
      assert Turn(owed[i - 1], limit, before, x, k, n[i]) && Turn(owed[i - 1], limit, before, y, k, m[i]);
      if n[i] > k {
        assert x[..k + 1] == x[..k] + [x[k]] && y[..k + 1] == y[..k] + [y[k]];
      }
    }
  }

  /** The greedy payment of a list pays what it owes in order. */
  lemma {:induction false} ListPaid(list: seq<Payment>, limit: int, before: int)
    ensures PaidInOrder(Owed(list), limit, before, Paid(list, limit, before))
  {
    hide PaidInOrder;
    if list == [] {
      PaidNone(limit, before);
      assert Owed(list) == [];
    } else {
      var front, p := list[..|list| - 1], list[|list| - 1];
      ListPaid(front, limit, before);
      var o := if p.script.Some? then Some(Out(p.amount, p.script.value)) else None;
      PaidOneMore(Owed(front), limit, before, Paid(front, limit, before), o);
      assert Owed(list) == Owed(front) + [o];
    }
  }

  /** The first pass pays what is owed for the responses, and nothing for any other. */
  lemma {:induction false} ResponsesPaid(rs: seq<Response>, limit: int, before: int)
    ensures PaidInOrder(OwedForAll(rs), limit, before, Paid(ResponsePayments(rs), limit, before))
  {
    hide PaidInOrder, Paid, Total;
    if rs == [] {
      PaidNone(limit, before);
      NonePaid(limit, before);
      assert OwedForAll(rs) == [];
    } else {
      var front, r := rs[..|rs| - 1], rs[|rs| - 1];
      ResponsesPaid(front, limit, before);
      var o := OwedFor(r);
      PaidOneMore(OwedForAll(front), limit, before, Paid(ResponsePayments(front), limit, before), o);
      assert OwedForAll(rs) == OwedForAll(front) + [o];
      PaidNext(ResponsePayments(front), Payment(r.script, AmountFor(r)), limit, before);
    }
  }

  lemma {:induction false} NonePaid(limit: int, before: int)
    ensures Paid([], limit, before) == []
  {
  }

  // ---------------------------------------------------------------- the whole section

  function Sum(s: seq<int>): int {
    if s == [] then 0 else s[0] + Sum(s[1..])
  }

  function Treasuries(rewards: seq<Reward>): seq<int> {
    seq(|rewards|, i requires 0 <= i < |rewards| => rewards[i].treasury)
  }

  lemma {:induction false} SumLast(s: seq<int>, x: int)
    ensures Sum(s + [x]) == Sum(s) + x
  {
    if s != [] {
      SumLast(s[1..], x);
      assert (s + [x])[1..] == s[1..] + [x];
    }
  }

  lemma {:induction false} TreasuryIsSum(rewards: seq<Reward>)
    ensures TreasuryTotal(rewards) == Sum(Treasuries(rewards))
  {
    if rewards != [] {
      var front := rewards[..|rewards| - 1];
      TreasuryIsSum(front);
      SumLast(Treasuries(front), rewards[|rewards| - 1].treasury);
      assert Treasuries(rewards) == Treasuries(front) + [rewards[|rewards| - 1].treasury];
    }
  }

  /**
   The section's outputs: the first one less all the others, those that were there, and in this order what the
   responses, the shards address by address, the verified responses and the audited ones are owed within the budget
   and the first output, the rewards within what is left of it, and the sum of the treasury's shares if that still fits.
   */
  lemma {:induction false} SplitSections(base: seq<Out>, work: Work, list: seq<Payment>, treasury: Option<Script>)
    returns (a: seq<Out>, b: seq<Out>, c: seq<Out>, d: seq<Out>, e: seq<Out>, g: seq<Out>)
    requires base != []
    ensures Finished(Deducted(base, Passes(base, work, list)), work.rewards, treasury) ==
      [Out(base[0].value - Total(a) - Total(b) - Total(c) - Total(d) - Total(e) - Total(g), base[0].script)]
      + base[1..] + a + b + c + d + e + g
    ensures var limit := if work.budget <= base[0].value then work.budget else base[0].value;
      && PaidInOrder(OwedForAll(work.responses), limit, 0, a)
      && PaidInOrder(Owed(list), limit, Total(a), b)
      && PaidInOrder(Owed(work.verifiable), limit, Total(a) + Total(b), c)
      && PaidInOrder(Owed(work.audited), limit, Total(a) + Total(b) + Total(c), d)
    ensures var left := base[0].value - Total(a) - Total(b) - Total(c) - Total(d);
      var share := Sum(Treasuries(work.rewards));
      && PaidInOrder(Owed(RewardPayments(work.rewards)), left, 0, e)
      && g == if 0 < share <= left - Total(e) && treasury.Some? then [Out(share, treasury.value)] else []
  {
    hide Total, Paid, PaidInOrder, ResponsePayments, Deducted, Sum, TreasuryTotal, RewardPayments;
    var limit := Min(work.budget, base[0].value);
    a := Paid(ResponsePayments(work.responses), limit, 0);
    ResponsesPaid(work.responses, limit, 0);
    b := Paid(list, limit, Total(a));
    ListPaid(list, limit, Total(a));
    TotalConcat(a, b);
    c := Paid(work.verifiable, limit, Total(a + b));
    ListPaid(work.verifiable, limit, Total(a + b));
    TotalConcat(a + b, c);
    d := Paid(work.audited, limit, Total(a + b + c));
    ListPaid(work.audited, limit, Total(a + b + c));
    TotalConcat(a + b + c, d);
    var made := a + b + c + d;
    var v := Deducted(base, made);
    DeductedIs(base, made);
    e := Paid(RewardPayments(work.rewards), v[0].value, 0);
    ListPaid(RewardPayments(work.rewards), v[0].value, 0);
    var w := Deducted(v, e);
    DeductedIs(v, e);
    TreasuryIsSum(work.rewards);
    var share := TreasuryTotal(work.rewards);
    if share > 0 && share <= w[0].value && treasury.Some? {
      g := [Out(share, treasury.value)];
      DeductedIs(w, g);
    } else {
      g := [];
      NoTotal();
    }
    Regrouped(base[1..], a, b, c, d, e, g);
  }

  lemma {:induction false} DeductedIs(vout: seq<Out>, made: seq<Out>)
    requires vout != []
    ensures var r := Deducted(vout, made);
      && r == [Out(vout[0].value - Total(made), vout[0].script)] + (vout[1..] + made)
      && r[0] == Out(vout[0].value - Total(made), vout[0].script) && r[1..] == vout[1..] + made
  {
    hide Total;
    var r := Deducted(vout, made);
    assert vout == [vout[0]] + vout[1..];
    assert r == [r[0]] + (vout[1..] + made);
  }

  lemma NoTotal()
    ensures Total([]) == 0
  {
  }

  lemma Regrouped(x: seq<Out>, a: seq<Out>, b: seq<Out>, c: seq<Out>, d: seq<Out>, e: seq<Out>, g: seq<Out>)
    ensures x + (a + b + c + d) + e + g == x + a + b + c + d + e + g
    ensures x + (a + b + c + d) + e == x + a + b + c + d + e
  {
  }
}
