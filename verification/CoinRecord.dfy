/** A pruned transaction: its metadata and the outputs not yet spent. */
module CoinRecord {

  type Byte = b: int | 0 <= b < 256

  datatype TxOut = TxOut(value: int, script: seq<Byte>)

  const NULL_OUT := TxOut(-1, [])

  datatype Coins = Coins(coinBase: bool, vout: seq<TxOut>, height: int, version: int)

  const NO_COINS := Coins(false, [], 0, 0)

  predicate IsNull(o: TxOut) {
    o.value == -1
  }

  predicate IsAvailable(c: Coins, n: nat) {
    n < |c.vout| && !IsNull(c.vout[n])
  }

  /** Whether every output is spent. */
  predicate IsPruned(c: Coins) {
    forall i :: 0 <= i < |c.vout| ==> IsNull(c.vout[i])
  }

  /** The outputs without the spent ones at the end. */
  function Trim(vout: seq<TxOut>): (r: seq<TxOut>)
    ensures r <= vout
    ensures r == [] || !IsNull(r[|r| - 1])
    ensures forall i :: |r| <= i < |vout| ==> IsNull(vout[i])
  {
    if vout == [] || !IsNull(vout[|vout| - 1]) then vout else Trim(vout[..|vout| - 1])
  }

  function Cleanup(c: Coins): Coins {
    c.(vout := Trim(c.vout))
  }

  lemma CleanupPrunes(c: Coins)
    ensures IsPruned(Cleanup(c)) <==> IsPruned(c)
    ensures IsPruned(c) ==> Cleanup(c).vout == []
    ensures forall n: nat :: IsAvailable(Cleanup(c), n) <==> IsAvailable(c, n)
  {
  }

  method CleanupOutputs(vout: seq<TxOut>) returns (r: seq<TxOut>)
    ensures r == Trim(vout)
  {
    r := vout;
    while |r| > 0 && IsNull(r[|r| - 1])
      invariant Trim(r) == Trim(vout)
    {
      r := r[..|r| - 1];
    }
  }

  /** Spending an output that is there makes it, and nothing else, unavailable. */
  method Spend(c: Coins, pos: nat) returns (spent: bool, r: Coins)
    ensures spent <==> IsAvailable(c, pos)
    ensures !spent ==> r == c
    ensures spent ==> (forall n: nat :: IsAvailable(r, n) <==> n != pos && IsAvailable(c, n))
    ensures spent ==> (forall n: nat :: IsAvailable(r, n) ==> n < |c.vout| && r.vout[n] == c.vout[n])
    ensures spent ==> r == Cleanup(c.(vout := c.vout[pos := NULL_OUT]))
  {
    if pos >= |c.vout| || IsNull(c.vout[pos]) {
      return false, c;
    }
    var d := c.(vout := c.vout[pos := NULL_OUT]);
    CleanupPrunes(d);
    var vout := CleanupOutputs(d.vout);
    return true, d.(vout := vout);
  }
}
