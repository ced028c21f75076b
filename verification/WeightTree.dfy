/**
 The implicit binary tree of subtree weights behind the mempool limit (ZIP 401,
 "Specification"): which nodes lie under which, how a change of one weight moves the
 sums, and what drawing a node by weight amounts to.
 */
module WeightTree {

  datatype TxWeight = TxWeight(cost: int, evictionWeight: int)

  const ZERO := TxWeight(0, 0)

  function Plus(a: TxWeight, b: TxWeight): TxWeight {
    TxWeight(a.cost + b.cost, a.evictionWeight + b.evictionWeight)
  }

  function Negate(a: TxWeight): TxWeight {
    TxWeight(-a.cost, -a.evictionWeight)
  }

  /** The weight of a node and everything below it. */
  function Sub(ws: seq<TxWeight>, i: nat): TxWeight
    decreases |ws| - i
  {
    if i >= |ws| then ZERO else Plus(ws[i], Plus(Sub(ws, 2 * i + 1), Sub(ws, 2 * i + 2)))
  }

  // ---------------------------------------------------------------- who is under whom

  function Parent(k: nat): nat
    requires k > 0
  {
    (k - 1) / 2
  }

  /** `k` is `a` or below it. */
  predicate Under(a: nat, k: nat)
    decreases k
  {
    k == a || (k > a && Under(a, Parent(k)))
  }

  predicate Ancestor(a: nat, k: nat) {
    a != k && Under(a, k)
  }

  lemma {:induction false} UnderRoot(k: nat)
    ensures Under(0, k)
  {
    if k > 0 {
      UnderRoot(Parent(k));
    }
  }

  /** What is under a node is the node itself or under exactly one of its children. */
  lemma {:induction false} UnderSplits(a: nat, k: nat)
    ensures Under(a, k) <==> k == a || Under(2 * a + 1, k) || Under(2 * a + 2, k)
    ensures !(Under(2 * a + 1, k) && Under(2 * a + 2, k))
    ensures Under(2 * a + 1, k) || Under(2 * a + 2, k) ==> k > a
    decreases k
  {
    if k > a {
      UnderSplits(a, Parent(k));
    }
  }

  lemma AncestorStep(a: nat, k: nat)
    ensures Ancestor(a, k) <==> k > 0 && (a == Parent(k) || Ancestor(a, Parent(k)))
    ensures k > 0 ==> !Ancestor(Parent(k), Parent(k))
  {
    UnderBelow(a, k);
    if k > 0 {
      assert Under(Parent(k), Parent(k));
      UnderBelow(a, Parent(k));
    }
  }

  lemma {:induction false} UnderBelow(a: nat, k: nat)
    ensures Under(a, k) ==> a <= k
  {
  }

  // ---------------------------------------------------------------- how a change moves the sums

  lemma {:induction false} SubUpdate(ws: seq<TxWeight>, k: nat, w: TxWeight, a: nat)
    requires k < |ws|
    ensures Sub(ws[k := w], a) == if Under(a, k) then Plus(Sub(ws, a), Plus(w, Negate(ws[k]))) else Sub(ws, a)
    decreases |ws| - a
  {
    if a < |ws| {
      UnderSplits(a, k);
      SubUpdate(ws, k, w, 2 * a + 1);
      SubUpdate(ws, k, w, 2 * a + 2);
    } else {
      UnderBelow(a, k);
    }
  }

  lemma {:induction false} SubAppend(ws: seq<TxWeight>, w: TxWeight, a: nat)
    ensures Sub(ws + [w], a) == if Under(a, |ws|) then Plus(Sub(ws, a), w) else Sub(ws, a)
    decreases |ws| + 1 - a
  {
    hide Sub, Under, Plus;
    var k, left, right := |ws|, 2 * a + 1, 2 * a + 2;
    var us := ws + [w];
    UnderBelow(a, k);
    SubUnfolds(us, a);
    SubUnfolds(ws, a);
    UnderSplits(a, k);
    if a < k {
      SubAppend(ws, w, left);
      SubAppend(ws, w, right);
      assert us[a] == ws[a];
      PlusShuffles(ws[a], Sub(ws, left), Sub(ws, right), w);
    } else if a == k {
      assert us[a] == w;
      SubUnfolds(us, left);
      SubUnfolds(us, right);
      PlusZero(w, ZERO);
    }
  }

  lemma PlusShuffles(a: TxWeight, b: TxWeight, c: TxWeight, w: TxWeight)
    ensures Plus(a, Plus(Plus(b, w), c)) == Plus(Plus(a, Plus(b, c)), w)
    ensures Plus(a, Plus(b, Plus(c, w))) == Plus(Plus(a, Plus(b, c)), w)
  {
  }

  lemma PlusZero(a: TxWeight, z: TxWeight)
    requires z == ZERO
    ensures Plus(a, Plus(z, z)) == a == Plus(z, a)
  {
  }

  lemma SubUnfolds(ws: seq<TxWeight>, a: nat)
    ensures a < |ws| ==> Sub(ws, a) == Plus(ws[a], Plus(Sub(ws, 2 * a + 1), Sub(ws, 2 * a + 2)))
    ensures a >= |ws| ==> Sub(ws, a) == ZERO
  {
  }

  function Total(ws: seq<TxWeight>): TxWeight {
    if ws == [] then ZERO else Plus(Total(ws[..|ws| - 1]), ws[|ws| - 1])
  }

  /** The root's sum is the sum of all weights. */
  lemma {:induction false} RootIsTotal(ws: seq<TxWeight>)
    ensures Sub(ws, 0) == Total(ws)
  {
    if ws != [] {
      var front := ws[..|ws| - 1];
      RootIsTotal(front);
      SubAppend(front, ws[|ws| - 1], 0);
      UnderRoot(|front|);
      assert front + [ws[|ws| - 1]] == ws;
    }
  }

  // ---------------------------------------------------------------- drawing by weight

  /** Weights are never negative, and a transaction's eviction weight is at least its cost. */
  predicate Proper(w: TxWeight) {
    0 <= w.cost <= w.evictionWeight
  }

  predicate AllProper(ws: seq<TxWeight>) {
    forall i :: 0 <= i < |ws| ==> Proper(ws[i])
  }

  lemma {:induction false} SubProper(ws: seq<TxWeight>, a: nat)
    requires AllProper(ws)
    ensures Proper(Sub(ws, a))
    decreases |ws| - a
  {
    if a < |ws| {
      SubProper(ws, 2 * a + 1);
      SubProper(ws, 2 * a + 2);
    }
  }

  /** Where the draws of the node itself begin within its subtree, and where those of its right child do. */
  function OwnFrom(ws: seq<TxWeight>, a: nat): int {
    Sub(ws, 2 * a + 1).evictionWeight
  }

  function RightFrom(ws: seq<TxWeight>, a: nat): int {
    Sub(ws, a).evictionWeight - Sub(ws, 2 * a + 2).evictionWeight
  }

  lemma Bounds(ws: seq<TxWeight>, a: nat)
    requires AllProper(ws)
    ensures 0 <= OwnFrom(ws, a) <= RightFrom(ws, a) <= Sub(ws, a).evictionWeight
    ensures a < |ws| ==> RightFrom(ws, a) == OwnFrom(ws, a) + ws[a].evictionWeight
    ensures a >= |ws| ==> Sub(ws, a) == Sub(ws, 2 * a + 1) == Sub(ws, 2 * a + 2) == ZERO
  {
    hide Sub;
    SubUnfolds(ws, a);
    SubUnfolds(ws, 2 * a + 1);
    SubUnfolds(ws, 2 * a + 2);
    SubProper(ws, 2 * a + 1);
    SubProper(ws, 2 * a + 2);
  }

  /** The node that the draw `w` from the subtree of `a` lands on. */
  function Drawn(ws: seq<TxWeight>, a: nat, w: int): (i: nat)
    requires AllProper(ws)
    requires 0 <= w < Sub(ws, a).evictionWeight
    ensures i < |ws|
    decreases |ws| - a
  {
    Bounds(ws, a);
    if w < OwnFrom(ws, a) then Drawn(ws, 2 * a + 1, w)
    else if w < RightFrom(ws, a) then a
    else Drawn(ws, 2 * a + 2, w - RightFrom(ws, a))
  }

  lemma DrawnUnfolds(ws: seq<TxWeight>, a: nat, w: int)
    requires AllProper(ws) && 0 <= w < Sub(ws, a).evictionWeight
    ensures a < |ws|
    ensures w < OwnFrom(ws, a) ==> Drawn(ws, a, w) == Drawn(ws, 2 * a + 1, w)
    ensures OwnFrom(ws, a) <= w < RightFrom(ws, a) ==> Drawn(ws, a, w) == a
    ensures RightFrom(ws, a) <= w ==> Drawn(ws, a, w) == Drawn(ws, 2 * a + 2, w - RightFrom(ws, a))
  {
  }

  /** Where the draws of `i` begin among the draws from the subtree of `a`. */
  function First(ws: seq<TxWeight>, a: nat, i: nat): int
    requires Under(a, i)
    decreases i - a
  {
    UnderSplits(a, i);
    if i == a then OwnFrom(ws, a)
    else if Under(2 * a + 1, i) then UnderBelow(2 * a + 1, i); First(ws, 2 * a + 1, i)
    else UnderBelow(2 * a + 2, i); RightFrom(ws, a) + First(ws, 2 * a + 2, i)
  }

  lemma {:induction false} FirstInRange(ws: seq<TxWeight>, a: nat, i: nat)
    requires AllProper(ws) && Under(a, i) && i < |ws|
    ensures 0 <= First(ws, a, i) <= First(ws, a, i) + ws[i].evictionWeight <= Sub(ws, a).evictionWeight
    decreases i - a
  {
    UnderSplits(a, i);
    Bounds(ws, a);
    if i != a {
      if Under(2 * a + 1, i) {
        UnderBelow(2 * a + 1, i);
        FirstInRange(ws, 2 * a + 1, i);
      } else {
        UnderBelow(2 * a + 2, i);
        FirstInRange(ws, 2 * a + 2, i);
      }
    }
  }

  /** A draw lands on `i` exactly when it lies in the interval of length the weight of `i` that starts at `First`. */
  lemma {:induction false} DrawnExactly(ws: seq<TxWeight>, a: nat, w: int, i: nat)
    requires AllProper(ws)
    requires 0 <= w < Sub(ws, a).evictionWeight
    requires i < |ws|
    ensures Drawn(ws, a, w) == i <==> Under(a, i) && First(ws, a, i) <= w < First(ws, a, i) + ws[i].evictionWeight
    decreases |ws| - a
  {
    hide Drawn, First, Sub, Under;
    var left, right := 2 * a + 1, 2 * a + 2;
    Bounds(ws, a);
    UnderSplits(a, i);
    DrawnUnfolds(ws, a, w);
    if Under(a, i) {
      FirstUnfolds(ws, a, i);
    }
    if Under(left, i) {
      FirstInRange(ws, left, i);
    }
    if Under(right, i) {
      FirstInRange(ws, right, i);
    }
    if w < OwnFrom(ws, a) {
      DrawnExactly(ws, left, w, i);
    } else if w >= RightFrom(ws, a) {
      DrawnExactly(ws, right, w - RightFrom(ws, a), i);
    }
  }

  lemma FirstUnfolds(ws: seq<TxWeight>, a: nat, i: nat)
    requires Under(a, i)
    ensures i == a ==> First(ws, a, i) == OwnFrom(ws, a)
    ensures Under(2 * a + 1, i) ==> First(ws, a, i) == First(ws, 2 * a + 1, i)
    ensures Under(2 * a + 2, i) ==> First(ws, a, i) == RightFrom(ws, a) + First(ws, 2 * a + 2, i)
  {
    UnderSplits(a, i);
    UnderBelow(2 * a + 1, i);
    UnderBelow(2 * a + 2, i);
  }

  function Interval(lo: int, hi: int): (r: set<int>)
    ensures forall w :: w in r <==> lo <= w < hi
    ensures lo <= hi ==> |r| == hi - lo
    decreases hi - lo
  {
    if hi <= lo then {} else Interval(lo, hi - 1) + {hi - 1}
  }

  /** The draws from the whole tree that land on `i`. */
  function DrawsOf(ws: seq<TxWeight>, i: nat): set<int>
    requires AllProper(ws)
  {
    set w | 0 <= w < Sub(ws, 0).evictionWeight && Drawn(ws, 0, w) == i
  }

  /** Sampling is by weight: of all draws, exactly the eviction weight of `i` many land on `i`. */
  lemma DrawnByWeight(ws: seq<TxWeight>, i: nat)
    requires AllProper(ws) && i < |ws|
    ensures |DrawsOf(ws, i)| == ws[i].evictionWeight
  {
    UnderRoot(i);
    FirstInRange(ws, 0, i);
    var lo := First(ws, 0, i);
    var hi := lo + ws[i].evictionWeight;
    forall w | 0 <= w < Sub(ws, 0).evictionWeight
      ensures w in DrawsOf(ws, i) <==> lo <= w < hi
    {
      DrawnExactly(ws, 0, w, i);
    }
    assert DrawsOf(ws, i) == Interval(lo, hi);
  }
}
