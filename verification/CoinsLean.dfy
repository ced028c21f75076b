/**
 What the flags of a cache are for: a record that was created and spent within a cache leaves no trace in it, and
 nothing is ever written beneath to erase what is not there.
 */
module CoinsLean {
  import opened Options
  import opened CoinRecord
  import opened CoinsSpec
  import opened CoinsLayers

  /**
   FRESH says exactly that the view beneath lacks the coins, and a changed entry of a spent record is kept only for
   coins that the view beneath has.
   */
  ghost predicate EntryLean(e: Entry, t: Hash, base: Unspent) {
    (e.isFresh <==> t !in base) && (e.dirty && IsPruned(e.coins) ==> t in base)
  }

  ghost predicate Lean(c: CoinsMap, base: Unspent) {
    forall t :: t in c ==> EntryLean(c[t], t, base)
  }

  lemma FetchLean(c: CoinsMap, t: Hash, found: Option<Coins>, base: Unspent)
    requires Lean(c, base) && (t !in c ==> Answers(found, t, base))
    ensures Lean(Fetched(c, t, found), base)
  {
  }

  lemma OpenedLean(c: CoinsMap, t: Hash, found: Option<Coins>, base: Unspent)
    requires Lean(c, base) && (t !in c ==> Answers(found, t, base))
    ensures Opened(c, t, found).isFresh <==> t !in base
  {
  }

  lemma ClosedLean(c: CoinsMap, t: Hash, e: Entry, base: Unspent)
    requires Lean(c, base) && (e.isFresh <==> t !in base)
    ensures Lean(Closed(c, t, e), base)
  {
    hide IsPruned, Cleanup;
  }

  /** A merge keeps the parent lean. */
  lemma {:induction false} MergeLean(parent: CoinsMap, child: CoinsMap, base: Unspent)
    requires Lean(parent, base) && Lean(child, CoinsShown(parent, base)) && ReadThrough(child, parent)
    ensures Lean(MergedCoins(parent, child), base)
  {
    hide IsPruned, CoinsShown;
    var r := MergedCoins(parent, child);
    forall t | t in r ensures EntryLean(r[t], t, base) {
      ShownAt(parent, base, t);
      if t in child {
        assert EntryLean(child[t], t, CoinsShown(parent, base));
      }
    }
  }

  ghost predicate BothLean(p: Pair, v: View) {
    Lean(p.parent.coins, v.coins) && Lean(p.child.coins, CoinsShown(p.parent.coins, v.coins))
  }

  lemma {:induction false} AskLean(root: Tree -> Hash, p: Pair, v: View, t: Hash)
    requires Ok(root, p, v) && BothLean(p, v)
    ensures var parent := AskParent(p, v, t);
      && Lean(parent, v.coins) && CoinsShown(parent, v.coins) == CoinsShown(p.parent.coins, v.coins)
      && (t !in p.child.coins ==> Answers(AnswerOf(parent, t), t, CoinsShown(parent, v.coins)))
  {
    hide CoinsShown, Lean, PoolTruthful, Rooted, Answers;
    AskKeeps(p, v, t);
    FoundAnswers(v.coins, t);
    FetchLean(p.parent.coins, t, Found(v.coins, t), v.coins);
  }

  lemma FoundAnswers(base: Unspent, t: Hash)
    requires Unpruned(base)
    ensures Answers(Found(base, t), t, base)
  {
  }

  /** Every admissible operation keeps both layers lean. */
  lemma {:induction false} StepLean(root: Tree -> Hash, p: Pair, v: View, op: Op)
    requires Ok(root, p, v) && BothLean(p, v) && Admits(root, TopShown(p, v), Shown(p.parent, v), op)
    ensures BothLean(Step(root, p, v, op), v)
  {
    hide CoinsShown, Lean, Ok, AskParent, Answers, PoolStep;
    var beneath := CoinsShown(p.parent.coins, v.coins);
    match op
    case Read(t) =>
      AskLean(root, p, v, t);
      FetchLean(p.child.coins, t, AnswerOf(AskParent(p, v, t), t), beneath);
    case Modify(t, x) =>
      AskLean(root, p, v, t);
      var found := AnswerOf(AskParent(p, v, t), t);
      OpenedLean(p.child.coins, t, found, beneath);
      ClosedLean(p.child.coins, t, Opened(p.child.coins, t, found).(coins := x), beneath);
    case ModifyNew(t, x) => ClosedLean(p.child.coins, t, Entry(x, true, true), beneath);
    case _ =>
  }

  lemma {:induction false} RunLean(root: Tree -> Hash, p: Pair, v: View, ops: seq<Op>)
    requires Ok(root, p, v) && BothLean(p, v) && AdmitsRun(root, TopShown(p, v), Shown(p.parent, v), ops)
    ensures BothLean(Run(root, p, v, ops), v)
    decreases |ops|
  {
    hide Ok, BothLean, Shown, TopShown, Step, Flat, Admits;
    if ops != [] {
      StepLean(root, p, v, ops[0]);
      StepKeeps(root, p, v, ops[0]);
      RunLean(root, Step(root, p, v, ops[0]), v, ops[1..]);
    }
  }

  /**
   After any admissible run on a new child of a lean parent and its flush: the parent marks FRESH exactly what its own
   base lacks, and holds a changed, spent record only of coins that its base has to erase.
   */
  lemma {:induction false} FlushLean(root: Tree -> Hash, parent: Cache, v: View, ops: seq<Op>)
    requires Truthful(root, parent, v) && Lean(parent.coins, v.coins)
    requires Rooted(root, v.sprout.anchors) && Rooted(root, v.sapling.anchors) && Unpruned(v.coins)
    requires AdmitsRun(root, Shown(parent, v), Shown(parent, v), ops)
    ensures var c := Flushed(Run(root, Pair(EMPTY, parent), v, ops)).coins;
      forall t :: t in c ==>
        (c[t].isFresh <==> t !in v.coins) && (c[t].dirty && IsPruned(c[t].coins) ==> t in v.coins)
  {
    var p := Pair(EMPTY, parent);
    EmptyShows(root, Shown(parent, v));
    assert Ok(root, p, v) && BothLean(p, v);
    hide Shown, Truthful, AdmitsRun;
    RunKeeps(root, p, v, ops);
    RunLean(root, p, v, ops);
    var q := Run(root, p, v, ops);
    hide Run;
    MergeLean(q.parent.coins, q.child.coins, v.coins);
  }
}
