/**
 Drawing a transaction by weight when draws and weights are narrowed to 32 bits: the search as the code runs
 it, call by call, and exactly how much total weight it can stand.
 */
module WeightNarrowing {
  import opened Options
  import opened WeightTree
  import opened MempoolLimit

  datatype Turn = Here | Go(next: nat, weight: int)

  /** What one call of the search does. */
  function SearchTurn(ws: seq<TxWeight>, i: nat, w: int): Turn {
    var left := ToInt(OwnFrom(ws, i));
    var right := ToInt(RightFrom(ws, i));
    if w < left then Go(2 * i + 1, w) else if w < right then Here else Go(2 * i + 2, w - right)
  }

  /** Where the search ends within `n` calls, if it does. */
  function Search(ws: seq<TxWeight>, i: nat, w: int, n: nat): Option<nat>
    decreases n
  {
    if n == 0 then None
    else
      match SearchTurn(ws, i, w)
      case Here => Some(i)
      case Go(next, weight) => Search(ws, next, weight, n - 1)
  }

  /** The draw, narrowed to an integer, leads the search to the transaction it stands for. */
  ghost predicate Succeeds(ws: seq<TxWeight>, w: int)
    requires AllProper(ws) && 0 <= w < Sub(ws, 0).evictionWeight
  {
    exists n :: Search(ws, 0, ToInt(w), n) == Some(Drawn(ws, 0, w))
  }

  predicate AllPositive(ws: seq<TxWeight>) {
    AllProper(ws) && forall i :: 0 <= i < |ws| ==> ws[i].evictionWeight > 0
  }

  // ---------------------------------------------------------------- where a search can end

  lemma {:induction false} UnderChild(i: nat, r: nat)
    ensures Under(2 * i + 1, r) || Under(2 * i + 2, r) ==> Under(i, r)
  {
    hide Under;
    UnderSplits(i, r);
  }

  lemma {:induction false} EndsUnder(ws: seq<TxWeight>, i: nat, w: int, n: nat)
    ensures var r := Search(ws, i, w, n); r.Some? ==> Under(i, r.value)
    decreases n
  {
    hide SearchTurn, Under;
    if n > 0 {
      match SearchTurn(ws, i, w)
      case Here => SelfUnder(i);
      case Go(next, weight) =>
        NextIsChild(ws, i, w);
        EndsUnder(ws, next, weight, n - 1);
        var r := Search(ws, next, weight, n - 1);
        if r.Some? {
          UnderChild(i, r.value);
        }
    }
  }

  lemma SelfUnder(i: nat)
    ensures Under(i, i)
  {
  }

  lemma NextIsChild(ws: seq<TxWeight>, i: nat, w: int)
    ensures var t := SearchTurn(ws, i, w); t.Go? ==> t.next == 2 * i + 1 || t.next == 2 * i + 2
  {
  }

  lemma {:induction false} DrawnUnder(ws: seq<TxWeight>, a: nat, w: int)
    requires AllProper(ws) && 0 <= w < Sub(ws, a).evictionWeight
    ensures Under(a, Drawn(ws, a, w))
  {
    hide Sub, Under, First, Drawn;
    DrawnExactly(ws, a, w, Drawn(ws, a, w));
  }

  /** A search that turns into the wrong subtree does not succeed. */
  lemma {:induction false} WrongTurn(ws: seq<TxWeight>, w: int, next: nat, weight: int)
    requires AllProper(ws) && 0 <= w < Sub(ws, 0).evictionWeight
    requires SearchTurn(ws, 0, ToInt(w)) == Go(next, weight) && !Under(next, Drawn(ws, 0, w))
    ensures !Succeeds(ws, w)
  {
    hide SearchTurn, Under, Drawn, Sub;
    forall n: nat
      ensures Search(ws, 0, ToInt(w), n) != Some(Drawn(ws, 0, w))
    {
      if n > 0 {
        EndsUnder(ws, next, weight, n - 1);
      }
    }
  }

  // ---------------------------------------------------------------- too much weight

  lemma ToIntRange(x: int)
    ensures -0x8000_0000 <= ToInt(x) < 0x8000_0000
  {
  }

  lemma Apart(r: nat)
    ensures !(Under(1, r) && Under(2, r)) && !Under(1, 0) && !Under(2, 0)
  {
    UnderSplits(0, r);
  }

  /** The largest integer is drawn: the search turns right, wherever that draw belongs. */
  lemma {:induction false} LargestTurnsRight(ws: seq<TxWeight>)
    requires AllProper(ws) && Sub(ws, 0).evictionWeight >= 0x8000_0000
    requires RightFrom(ws, 0) >= 0x8000_0000
    ensures !Succeeds(ws, 0x7FFF_FFFF)
  {
    hide Sub, Under, Drawn, Succeeds;
    var w := 0x7FFF_FFFF;
    ToIntRange(OwnFrom(ws, 0));
    ToIntRange(RightFrom(ws, 0));
    DrawnUnfolds(ws, 0, w);
    if w < OwnFrom(ws, 0) {
      DrawnUnder(ws, 1, w);
    }
    Apart(Drawn(ws, 0, w));
    WrongTurn(ws, w, 2, w - ToInt(RightFrom(ws, 0)));
  }

  /** The number after the largest integer is drawn: narrowed it is negative, and the search turns left. */
  lemma {:induction false} WrappedTurnsLeft(ws: seq<TxWeight>)
    requires AllProper(ws) && Sub(ws, 0).evictionWeight > 0x8000_0000
    requires RightFrom(ws, 0) < 0x8000_0000
    ensures !Succeeds(ws, 0x8000_0000)
  {
    hide Sub, Under, Drawn, Succeeds;
    var w := 0x8000_0000;
    Bounds(ws, 0);
    assert ToInt(w) == -0x8000_0000 && ToInt(OwnFrom(ws, 0)) == OwnFrom(ws, 0);
    DrawnUnfolds(ws, 0, w);
    DrawnUnder(ws, 2, w - RightFrom(ws, 0));
    Apart(Drawn(ws, 0, w));
    WrongTurn(ws, w, 1, ToInt(w));
  }

  // ---------------------------------------------------------------- not too much

  /** Within a subtree whose weight fits, the search ends where the draw lands. */
  lemma {:induction false} SearchFinds(ws: seq<TxWeight>, i: nat, w: int) returns (n: nat)
    requires AllProper(ws) && 0 <= w < Sub(ws, i).evictionWeight < 0x8000_0000
    ensures Search(ws, i, w, n) == Some(Drawn(ws, i, w))
    decreases |ws| - i
  {
    hide Sub, Drawn;
    Bounds(ws, i);
    Narrow(ws, i);
    DrawnUnfolds(ws, i, w);
    var m := 0;
    if w < OwnFrom(ws, i) {
      m := SearchFinds(ws, 2 * i + 1, w);
    } else if w >= RightFrom(ws, i) {
      m := SearchFinds(ws, 2 * i + 2, w - RightFrom(ws, i));
    }
    n := m + 1;
  }

  /** With a total of exactly 2^31 the root's own call still fits if something is on its right. */
  lemma {:induction false} LastFits(ws: seq<TxWeight>, w: int)
    requires AllPositive(ws) && Sub(ws, 0).evictionWeight == 0x8000_0000 && Sub(ws, 2).evictionWeight > 0
    requires 0 <= w < 0x8000_0000
    ensures Succeeds(ws, w)
  {
    hide Sub, Drawn;
    Bounds(ws, 0);
    DrawnUnfolds(ws, 0, w);
    var m := 0;
    if w < OwnFrom(ws, 0) {
      m := SearchFinds(ws, 1, w);
    } else if w >= RightFrom(ws, 0) {
      m := SearchFinds(ws, 2, w - RightFrom(ws, 0));
    }
    assert Search(ws, 0, ToInt(w), m + 1) == Some(Drawn(ws, 0, w));
  }

  lemma {:induction false} SmallFits(ws: seq<TxWeight>, w: int)
    requires AllProper(ws) && 0 <= w < Sub(ws, 0).evictionWeight < 0x8000_0000
    ensures Succeeds(ws, w)
  {
    hide Sub, Drawn;
    var n := SearchFinds(ws, 0, w);
    assert Search(ws, 0, ToInt(w), n) == Some(Drawn(ws, 0, w));
  }

  /**
   Every draw leads to the transaction it stands for exactly if the total eviction weight is below 2^31, or is 2^31
   and the root has a right child.
   */
  lemma {:induction false} NarrowExactly(ws: seq<TxWeight>)
    requires AllPositive(ws)
    ensures (forall w :: 0 <= w < Sub(ws, 0).evictionWeight ==> Succeeds(ws, w)) <==>
            Sub(ws, 0).evictionWeight < 0x8000_0000
            || (Sub(ws, 0).evictionWeight == 0x8000_0000 && Sub(ws, 2).evictionWeight > 0)
  {
    hide Sub, Succeeds;
    var total := Sub(ws, 0).evictionWeight;
    Bounds(ws, 0);
    if total < 0x8000_0000 {
      forall w | 0 <= w < total ensures Succeeds(ws, w) {
        SmallFits(ws, w);
      }
    } else if RightFrom(ws, 0) >= 0x8000_0000 {
      LargestTurnsRight(ws);
      Bounds(ws, 2);
    } else if total > 0x8000_0000 {
      WrappedTurnsLeft(ws);
    } else {
      forall w | 0 <= w < total ensures Succeeds(ws, w) {
        LastFits(ws, w);
      }
    }
  }
}
