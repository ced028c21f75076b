/**
 A child cache over a parent cache over a flat view: every sequence of operations on the
 child shows what a flat view would, and a flush makes the parent show it.
 */
module CoinsLayers {
  import opened CoinRecord
  import opened CoinsSpec
  import opened Options

  // ---------------------------------------------------------------- one shielded pool

  /** The state of one shielded pool in a flat view. */
  datatype PoolView = PoolView(anchors: map<Hash, Tree>, nullifiers: set<Hash>, best: Hash)

  datatype PoolCache = PoolCache(anchors: AnchorMap, nullifiers: NullifierMap, best: Hash)

  ghost function PoolShown(c: PoolCache, v: PoolView): PoolView {
    PoolView(AnchorsShown(c.anchors, v.anchors), NullifiersShown(c.nullifiers, v.nullifiers), BestShown(c.best, v.best))
  }

  ghost predicate PoolTruthful(root: Tree -> Hash, c: PoolCache, v: PoolView) {
    AnchorsTruthful(root, c.anchors, v.anchors) && NullifiersTruthful(c.nullifiers, v.nullifiers)
  }

  datatype PoolOp =
    | GetAnchor(r: Hash)
    | GetNullifier(n: Hash)
    | GetBest
    | Push(tree: Tree)
    | Pop(r: Hash)
    | SetNullifiers(ns: seq<Hash>, spent: bool)

  function Marked(s: set<Hash>, ns: seq<Hash>, spent: bool): set<Hash>
    decreases |ns|
  {
    if ns == [] then s else Marked(if spent then s + {ns[0]} else s - {ns[0]}, ns[1..], spent)
  }

  /** The operation on a flat view. */
  function FlatPool(root: Tree -> Hash, v: PoolView, op: PoolOp): PoolView {
    match op
    case Push(tree) =>
      if v.best == root(tree) then v
      else v.(anchors := v.anchors[root(tree) := tree], best := root(tree))
    case Pop(r) => if v.best == r then v else v.(anchors := v.anchors - {v.best}, best := r)
    case SetNullifiers(ns, spent) => v.(nullifiers := Marked(v.nullifiers, ns, spent))
    case _ => v
  }

  /**
   A pop needs the best anchor's tree, as the original asserts, and no root is the null hash, which stands for none.
   */
  predicate PoolAdmits(root: Tree -> Hash, v: PoolView, op: PoolOp) {
    && (op.Pop? ==> op.r != 0 && (v.best != op.r ==> v.best in v.anchors))
    && (op.Push? ==> root(op.tree) != 0)
  }

  /** Two layers over a flat view. */
  datatype PoolPair = PoolPair(child: PoolCache, parent: PoolCache)

  ghost predicate PoolOk(root: Tree -> Hash, p: PoolPair, v: PoolView) {
    && Rooted(root, v.anchors)
    && PoolTruthful(root, p.parent, v) && PoolTruthful(root, p.child, PoolShown(p.parent, v))
  }

  ghost function ChildShown(p: PoolPair, v: PoolView): PoolView {
    PoolShown(p.child, PoolShown(p.parent, v))
  }

  /** Reading an anchor through both layers; a miss in the child is a read of the parent. */
  ghost function ReadAnchor(p: PoolPair, v: PoolView, r: Hash): PoolPair {
    if r in p.child.anchors then p else
    var parent := AnchorFetched(p.parent.anchors, r, Found(v.anchors, r));
    var found := if r in parent then (if parent[r].entered then Some(parent[r].tree) else None) else None;
    PoolPair(p.child.(anchors := AnchorFetched(p.child.anchors, r, found)), p.parent.(anchors := parent))
  }

  ghost function ReadNullifier(p: PoolPair, v: PoolView, n: Hash): PoolPair {
    if n in p.child.nullifiers then p else
    var parent := NullifierFetched(p.parent.nullifiers, n, n in v.nullifiers);
    PoolPair(p.child.(nullifiers := NullifierFetched(p.child.nullifiers, n, parent[n].entered)),
             p.parent.(nullifiers := parent))
  }

  /** GetBestAnchor remembers what it finds beneath. */
  ghost function ReadBest(p: PoolPair, v: PoolView): PoolPair {
    if p.child.best != 0 then p else
    var best := BestShown(p.parent.best, v.best);
    PoolPair(p.child.(best := best), p.parent.(best := best))
  }

  function MarkedEntries(c: NullifierMap, ns: seq<Hash>, spent: bool): NullifierMap
    decreases |ns|
  {
    if ns == [] then c else MarkedEntries(NullifierSet(c, ns[0], spent), ns[1..], spent)
  }

  ghost function PoolStep(root: Tree -> Hash, p: PoolPair, v: PoolView, op: PoolOp): PoolPair {
    match op
    case GetAnchor(r) => ReadAnchor(p, v, r)
    case GetNullifier(n) => ReadNullifier(p, v, n)
    case GetBest => ReadBest(p, v)
    case Push(tree) =>
      var q := ReadBest(p, v);
      if q.child.best == root(tree) then q
      else q.(child := q.child.(anchors := Pushed(q.child.anchors, root(tree), tree), best := root(tree)))
    case Pop(r) =>
      var q := ReadBest(p, v);
      if q.child.best == r then q
      else
        var u := ReadAnchor(q, v, q.child.best);
        if u.child.best in u.child.anchors
        then u.(child := u.child.(anchors := Popped(u.child.anchors, u.child.best), best := r))
        else u
    case SetNullifiers(ns, spent) => p.(child := p.child.(nullifiers := MarkedEntries(p.child.nullifiers, ns, spent)))
  }

  lemma ShownRooted(root: Tree -> Hash, c: AnchorMap, base: map<Hash, Tree>)
    requires AnchorsTruthful(root, c, base) && Rooted(root, base)
    ensures Rooted(root, AnchorsShown(c, base))
  {
  }

  lemma ReadAnchorKeeps(root: Tree -> Hash, p: PoolPair, v: PoolView, r: Hash)
    requires PoolOk(root, p, v)
    ensures var q := ReadAnchor(p, v, r);
      && PoolOk(root, q, v) && PoolShown(q.parent, v) == PoolShown(p.parent, v) && ChildShown(q, v) == ChildShown(p, v)
      && (r in ChildShown(p, v).anchors ==> r in q.child.anchors) && q.child.best == p.child.best
  {
    hide AnchorsTruthful;
    AnchorFetchKeeps(root, p.parent.anchors, r, v.anchors);
    ShownRooted(root, p.parent.anchors, v.anchors);
    AnchorFetchKeeps(root, p.child.anchors, r, AnchorsShown(p.parent.anchors, v.anchors));
  }

  lemma ReadNullifierKeeps(root: Tree -> Hash, p: PoolPair, v: PoolView, n: Hash)
    requires PoolOk(root, p, v)
    ensures var q := ReadNullifier(p, v, n);
      && PoolOk(root, q, v) && PoolShown(q.parent, v) == PoolShown(p.parent, v) && ChildShown(q, v) == ChildShown(p, v)
      && n in q.child.nullifiers && (q.child.nullifiers[n].entered <==> n in ChildShown(p, v).nullifiers)
  {
    hide AnchorsTruthful, NullifiersTruthful;
    NullifierFetchKeeps(p.parent.nullifiers, n, v.nullifiers);
    NullifierFetchKeeps(p.child.nullifiers, n, NullifiersShown(p.parent.nullifiers, v.nullifiers));
  }

  lemma ReadBestKeeps(root: Tree -> Hash, p: PoolPair, v: PoolView)
    requires PoolOk(root, p, v)
    ensures var q := ReadBest(p, v);
      && PoolOk(root, q, v) && PoolShown(q.parent, v) == PoolShown(p.parent, v) && ChildShown(q, v) == ChildShown(p, v)
      && q.child.best == ChildShown(p, v).best
  {
  }

  lemma {:induction false} MarkKeeps(c: NullifierMap, base: set<Hash>, ns: seq<Hash>, spent: bool)
    requires NullifiersTruthful(c, base)
    ensures NullifiersTruthful(MarkedEntries(c, ns, spent), base)
    ensures NullifiersShown(MarkedEntries(c, ns, spent), base) == Marked(NullifiersShown(c, base), ns, spent)
    decreases |ns|
  {
    hide NullifiersTruthful, NullifiersShown;
    if ns != [] {
      NullifierSetKeeps(c, ns[0], spent, base);
      MarkKeeps(NullifierSet(c, ns[0], spent), base, ns[1..], spent);
    }
  }

  /**
   Every operation on the child does to what it shows what it would do to a flat view, and the parent shows the same.
   */
  lemma PoolStepKeeps(root: Tree -> Hash, p: PoolPair, v: PoolView, op: PoolOp)
    requires PoolOk(root, p, v) && PoolAdmits(root, ChildShown(p, v), op)
    ensures var q := PoolStep(root, p, v, op);
      && PoolOk(root, q, v) && PoolShown(q.parent, v) == PoolShown(p.parent, v)
      && ChildShown(q, v) == FlatPool(root, ChildShown(p, v), op)
  {
    hide AnchorsTruthful, NullifiersTruthful, AnchorsShown, NullifiersShown, Rooted;
    match op
    case GetAnchor(r) => ReadAnchorKeeps(root, p, v, r);
    case GetNullifier(n) => ReadNullifierKeeps(root, p, v, n);
    case GetBest => ReadBestKeeps(root, p, v);
    case Push(tree) =>
      ReadBestKeeps(root, p, v);
      var q := ReadBest(p, v);
      hide ReadBest;
      PushKeeps(root, q.child.anchors, tree, PoolShown(q.parent, v).anchors);
    case Pop(r) =>
      ReadBestKeeps(root, p, v);
      var q := ReadBest(p, v);
      hide ReadBest;
      if q.child.best != r {
        ReadAnchorKeeps(root, q, v, q.child.best);
        var u := ReadAnchor(q, v, q.child.best);
        hide ReadAnchor;
        PopKeeps(root, u.child.anchors, u.child.best, PoolShown(u.parent, v).anchors);
      }
    case SetNullifiers(ns, spent) =>
      MarkKeeps(p.child.nullifiers, PoolShown(p.parent, v).nullifiers, ns, spent);
  }

  /** The parent after the child's pool was written into it. */
  ghost function PoolMerged(p: PoolPair): PoolCache {
    PoolCache(MergedAnchors(p.parent.anchors, p.child.anchors),
              MergedNullifiers(p.parent.nullifiers, p.child.nullifiers), p.child.best)
  }

  lemma PoolFlush(root: Tree -> Hash, p: PoolPair, v: PoolView)
    requires PoolOk(root, p, v) && RootsDiffer(root)
    ensures PoolTruthful(root, PoolMerged(p), v)
    ensures PoolShown(PoolMerged(p), v).anchors == ChildShown(p, v).anchors
    ensures PoolShown(PoolMerged(p), v).nullifiers == ChildShown(p, v).nullifiers
    ensures PoolShown(PoolMerged(p), v).best == ChildShown(p, v).best <==>
      p.child.best != 0 || p.parent.best == 0 || p.parent.best == v.best
  {
    hide AnchorsTruthful, NullifiersTruthful, AnchorsShown, NullifiersShown, Rooted;
    MergeAnchors(root, p.parent.anchors, p.child.anchors, v.anchors);
    MergeNullifiers(p.parent.nullifiers, p.child.nullifiers, v.nullifiers);
    FlushBest(p.child.best, p.parent.best, v.best);
  }

  // ---------------------------------------------------------------- the whole chain state

  datatype View = View(coins: Unspent, sprout: PoolView, sapling: PoolView, block: Hash)

  datatype Cache = Cache(coins: CoinsMap, sprout: PoolCache, sapling: PoolCache, block: Hash)

  const EMPTY_POOL := PoolCache(map[], map[], 0)

  const EMPTY := Cache(map[], EMPTY_POOL, EMPTY_POOL, 0)

  ghost function Shown(c: Cache, v: View): View {
    View(CoinsShown(c.coins, v.coins), PoolShown(c.sprout, v.sprout), PoolShown(c.sapling, v.sapling),
         BestShown(c.block, v.block))
  }

  ghost predicate Truthful(root: Tree -> Hash, c: Cache, v: View) {
    CoinsTruthful(c.coins, v.coins) && PoolTruthful(root, c.sprout, v.sprout)
      && PoolTruthful(root, c.sapling, v.sapling)
  }

  /** An operation on the child; a modification is named by the record it leaves. */
  datatype Op =
    | Read(t: Hash)
    | Modify(t: Hash, x: Coins)
    | ModifyNew(t: Hash, x: Coins)
    | SproutOp(op: PoolOp)
    | SaplingOp(op: PoolOp)
    | GetBlock
    | SetBlock(h: Hash)

  /** The operation on a flat view. */
  function Flat(root: Tree -> Hash, v: View, op: Op): View {
    match op
    case Modify(t, x) => v.(coins := Put(v.coins, t, x))
    case ModifyNew(t, x) => v.(coins := Put(v.coins, t, x))
    case SproutOp(pop) => v.(sprout := FlatPool(root, v.sprout, pop))
    case SaplingOp(pop) => v.(sapling := FlatPool(root, v.sapling, pop))
    case SetBlock(h) => v.(block := h)
    case _ => v
  }

  /** What callers owe: new coins only where the view beneath holds none unspent, and no null hash as best block. */
  ghost predicate Admits(root: Tree -> Hash, v: View, beneath: View, op: Op) {
    match op
    case ModifyNew(t, _) => t !in beneath.coins
    case SproutOp(pop) => PoolAdmits(root, v.sprout, pop)
    case SaplingOp(pop) => PoolAdmits(root, v.sapling, pop)
    case SetBlock(h) => h != 0
    case _ => true
  }

  datatype Pair = Pair(child: Cache, parent: Cache)

  ghost predicate Ok(root: Tree -> Hash, p: Pair, v: View) {
    && Truthful(root, p.parent, v) && Truthful(root, p.child, Shown(p.parent, v))
    && ReadThrough(p.child.coins, p.parent.coins)
    && Rooted(root, v.sprout.anchors) && Rooted(root, v.sapling.anchors) && Unpruned(v.coins)
  }

  /** A flat view holds no spent record. */
  ghost predicate Unpruned(v: Unspent) {
    forall t :: t in v ==> !IsPruned(v[t])
  }

  ghost function TopShown(p: Pair, v: View): View {
    Shown(p.child, Shown(p.parent, v))
  }

  /** What the parent answers to GetCoins, after looking beneath if it has to. */
  function AnswerOf(parent: CoinsMap, t: Hash): Option<Coins> {
    if t in parent then Some(parent[t].coins) else None
  }

  ghost function AskParent(p: Pair, v: View, t: Hash): CoinsMap {
    if t in p.child.coins then p.parent.coins else Fetched(p.parent.coins, t, Found(v.coins, t))
  }

  ghost function SproutPair(p: Pair): PoolPair { PoolPair(p.child.sprout, p.parent.sprout) }

  ghost function SaplingPair(p: Pair): PoolPair { PoolPair(p.child.sapling, p.parent.sapling) }

  ghost function Step(root: Tree -> Hash, p: Pair, v: View, op: Op): Pair {
    match op
    case Read(t) =>
      var parent := AskParent(p, v, t);
      Pair(p.child.(coins := Fetched(p.child.coins, t, AnswerOf(parent, t))), p.parent.(coins := parent))
    case Modify(t, x) =>
      var parent := AskParent(p, v, t);
      var e := Opened(p.child.coins, t, AnswerOf(parent, t));
      Pair(p.child.(coins := Closed(p.child.coins, t, e.(coins := x))), p.parent.(coins := parent))
    case ModifyNew(t, x) => p.(child := p.child.(coins := Closed(p.child.coins, t, Entry(x, true, true))))
    case SproutOp(pop) =>
      var q := PoolStep(root, SproutPair(p), v.sprout, pop);
      Pair(p.child.(sprout := q.child), p.parent.(sprout := q.parent))
    case SaplingOp(pop) =>
      var q := PoolStep(root, SaplingPair(p), v.sapling, pop);
      Pair(p.child.(sapling := q.child), p.parent.(sapling := q.parent))
    case GetBlock =>
      if p.child.block != 0 then p else
      var block := BestShown(p.parent.block, v.block);
      Pair(p.child.(block := block), p.parent.(block := block))
    case SetBlock(h) => p.(child := p.child.(block := h))
  }

  lemma AskKeeps(p: Pair, v: View, t: Hash)
    requires CoinsTruthful(p.parent.coins, v.coins) && CoinsTruthful(p.child.coins, CoinsShown(p.parent.coins, v.coins))
    requires ReadThrough(p.child.coins, p.parent.coins) && Unpruned(v.coins)
    ensures var parent := AskParent(p, v, t);
      && CoinsTruthful(parent, v.coins) && CoinsShown(parent, v.coins) == CoinsShown(p.parent.coins, v.coins)
      && ReadThrough(p.child.coins, parent)
      && (t !in p.child.coins ==> Answers(AnswerOf(parent, t), t, CoinsShown(parent, v.coins)))
  {
    FetchKeeps(p.parent.coins, t, Found(v.coins, t), v.coins);
  }

  lemma ReadThroughFetched(c: CoinsMap, parent: CoinsMap, t: Hash)
    requires ReadThrough(c, parent)
    ensures ReadThrough(Fetched(c, t, AnswerOf(parent, t)), parent)
  {
  }

  lemma ReadThroughClosed(c: CoinsMap, parent: CoinsMap, t: Hash, e: Entry)
    requires ReadThrough(c, parent) && (e.isFresh || t in parent)
    ensures ReadThrough(Closed(c, t, e), parent)
  {
  }

  lemma ReadStep(root: Tree -> Hash, p: Pair, v: View, t: Hash)
    requires Ok(root, p, v)
    ensures var q := Step(root, p, v, Read(t));
      Ok(root, q, v) && Shown(q.parent, v) == Shown(p.parent, v) && TopShown(q, v) == TopShown(p, v)
  {
    hide CoinsTruthful, PoolTruthful, ReadThrough, Rooted, CoinsShown, PoolShown, Answers, Unpruned;
    AskKeeps(p, v, t);
    var parent := AskParent(p, v, t);
    hide AskParent;
    ReadThroughFetched(p.child.coins, parent, t);
    FetchKeeps(p.child.coins, t, AnswerOf(parent, t), CoinsShown(p.parent.coins, v.coins));
  }

  /** The entry handed out holds what the view shows, up to the metadata of a record that is spent. */
  lemma OpenedShows(c: CoinsMap, t: Hash, found: Option<Coins>, base: Unspent)
    requires CoinsTruthful(c, base) && (t !in c ==> Answers(found, t, base))
    ensures var e := Opened(c, t, found);
      var shown := CoinsShown(c, base);
      if t in shown then e.coins == shown[t] else IsPruned(e.coins)
  {
  }

  lemma ModifyStep(root: Tree -> Hash, p: Pair, v: View, t: Hash, x: Coins)
    requires Ok(root, p, v)
    ensures var q := Step(root, p, v, Modify(t, x));
      && Ok(root, q, v) && Shown(q.parent, v) == Shown(p.parent, v)
      && TopShown(q, v) == Flat(root, TopShown(p, v), Modify(t, x))
  {
    hide CoinsTruthful, PoolTruthful, ReadThrough, Rooted, CoinsShown, PoolShown, Answers, Unpruned, IsPruned;
    AskKeeps(p, v, t);
    var parent := AskParent(p, v, t);
    hide AskParent;
    OpenedFresh(p.child.coins, parent, t);
    var e := Opened(p.child.coins, t, AnswerOf(parent, t));
    ModifyKeeps(p.child.coins, t, AnswerOf(parent, t), CoinsShown(p.parent.coins, v.coins), x);
    hide Opened;
    ReadThroughClosed(p.child.coins, parent, t, e.(coins := x));
  }

  lemma OpenedFresh(c: CoinsMap, parent: CoinsMap, t: Hash)
    requires ReadThrough(c, parent)
    ensures var e := Opened(c, t, AnswerOf(parent, t)); e.isFresh || t in parent
  {
  }

  lemma ModifyNewStep(root: Tree -> Hash, p: Pair, v: View, t: Hash, x: Coins)
    requires Ok(root, p, v) && t !in Shown(p.parent, v).coins
    ensures var q := Step(root, p, v, ModifyNew(t, x));
      && Ok(root, q, v) && TopShown(q, v) == Flat(root, TopShown(p, v), ModifyNew(t, x))
  {
    hide CoinsTruthful, PoolTruthful, ReadThrough, Rooted, CoinsShown, PoolShown;
    ModifyNewKeeps(p.child.coins, t, CoinsShown(p.parent.coins, v.coins), x);
    ReadThroughClosed(p.child.coins, p.parent.coins, t, Entry(x, true, true));
  }

  /** Every operation does to what the child shows what it does to a flat view; the parent shows the same throughout. */
  lemma StepKeeps(root: Tree -> Hash, p: Pair, v: View, op: Op)
    requires Ok(root, p, v) && Admits(root, TopShown(p, v), Shown(p.parent, v), op)
    ensures var q := Step(root, p, v, op);
      && Ok(root, q, v) && Shown(q.parent, v) == Shown(p.parent, v)
      && TopShown(q, v) == Flat(root, TopShown(p, v), op)
  {
    hide CoinsTruthful, PoolTruthful, ReadThrough, Rooted, CoinsShown, PoolShown, PoolStep, FlatPool;
    match op
    case Read(t) => ReadStep(root, p, v, t);
    case Modify(t, x) => ModifyStep(root, p, v, t, x);
    case ModifyNew(t, x) => ModifyNewStep(root, p, v, t, x);
    case SproutOp(pop) => PoolStepKeeps(root, SproutPair(p), v.sprout, pop);
    case SaplingOp(pop) => PoolStepKeeps(root, SaplingPair(p), v.sapling, pop);
    case GetBlock =>
    case SetBlock(h) =>
  }

  // ---------------------------------------------------------------- runs and the flush

  function FlatRun(root: Tree -> Hash, v: View, ops: seq<Op>): View
    decreases |ops|
  {
    if ops == [] then v else FlatRun(root, Flat(root, v, ops[0]), ops[1..])
  }

  ghost function Run(root: Tree -> Hash, p: Pair, v: View, ops: seq<Op>): Pair
    decreases |ops|
  {
    if ops == [] then p else Run(root, Step(root, p, v, ops[0]), v, ops[1..])
  }

  /** Every operation of the run is admissible when its turn comes. */
  ghost predicate AdmitsRun(root: Tree -> Hash, v: View, beneath: View, ops: seq<Op>)
    decreases |ops|
  {
    ops == [] || (Admits(root, v, beneath, ops[0]) && AdmitsRun(root, Flat(root, v, ops[0]), beneath, ops[1..]))
  }

  lemma {:induction false} RunKeeps(root: Tree -> Hash, p: Pair, v: View, ops: seq<Op>)
    requires Ok(root, p, v) && AdmitsRun(root, TopShown(p, v), Shown(p.parent, v), ops)
    ensures var q := Run(root, p, v, ops);
      && Ok(root, q, v) && Shown(q.parent, v) == Shown(p.parent, v)
      && TopShown(q, v) == FlatRun(root, TopShown(p, v), ops)
    decreases |ops|
  {
    hide Ok, Shown, TopShown, Step, Flat, Admits;
    if ops != [] {
      StepKeeps(root, p, v, ops[0]);
      RunKeeps(root, Step(root, p, v, ops[0]), v, ops[1..]);
    }
  }

  /** The parent after Flush. */
  ghost function Flushed(p: Pair): Cache {
    Cache(MergedCoins(p.parent.coins, p.child.coins), PoolMerged(SproutPair(p)), PoolMerged(SaplingPair(p)),
          p.child.block)
  }

  lemma FlushKeeps(root: Tree -> Hash, p: Pair, v: View)
    requires Ok(root, p, v) && RootsDiffer(root)
    ensures Truthful(root, Flushed(p), v)
    ensures var r, t := Shown(Flushed(p), v), TopShown(p, v);
      && r.coins == t.coins
      && r.sprout.anchors == t.sprout.anchors && r.sprout.nullifiers == t.sprout.nullifiers
      && r.sapling.anchors == t.sapling.anchors && r.sapling.nullifiers == t.sapling.nullifiers
      && (r == t <==>
            && (p.child.block != 0 || p.parent.block == 0 || p.parent.block == v.block)
            && (p.child.sprout.best != 0 || p.parent.sprout.best == 0 || p.parent.sprout.best == v.sprout.best)
            && (p.child.sapling.best != 0 || p.parent.sapling.best == 0 || p.parent.sapling.best == v.sapling.best))
  {
    hide CoinsTruthful, PoolTruthful, ReadThrough, Rooted, CoinsShown, AnchorsShown, NullifiersShown, RootsDiffer;
    MergeCoins(p.parent.coins, p.child.coins, v.coins);
    PoolFlush(root, SproutPair(p), v.sprout);
    PoolFlush(root, SaplingPair(p), v.sapling);
    FlushBest(p.child.block, p.parent.block, v.block);
  }

  /** An empty child shows what is beneath. */
  lemma EmptyShows(root: Tree -> Hash, v: View)
    ensures Shown(EMPTY, v) == v && Truthful(root, EMPTY, v)
  {
    assert CoinsShown(map[], v.coins) == v.coins;
    assert AnchorsShown(map[], v.sprout.anchors) == v.sprout.anchors;
    assert AnchorsShown(map[], v.sapling.anchors) == v.sapling.anchors;
    assert NullifiersShown(map[], v.sprout.nullifiers) == v.sprout.nullifiers;
    assert NullifiersShown(map[], v.sapling.nullifiers) == v.sapling.nullifiers;
  }

  /**
   Any admissible sequence of operations on a new child, then a flush: the parent shows coins, anchors and nullifiers
   as if the operations had been done to one flat view, its flags are truthful about its own base, and the assertion
   inside BatchWrite held.
   */
  lemma {:induction false} RunThenFlush(root: Tree -> Hash, parent: Cache, v: View, ops: seq<Op>)
    requires RootsDiffer(root) && Truthful(root, parent, v)
    requires Rooted(root, v.sprout.anchors) && Rooted(root, v.sapling.anchors) && Unpruned(v.coins)
    requires AdmitsRun(root, Shown(parent, v), Shown(parent, v), ops)
    ensures var q := Run(root, Pair(EMPTY, parent), v, ops);
      var r, t := Shown(Flushed(q), v), FlatRun(root, Shown(parent, v), ops);
      && Truthful(root, Flushed(q), v)
      && r.coins == t.coins
      && r.sprout.anchors == t.sprout.anchors && r.sprout.nullifiers == t.sprout.nullifiers
      && r.sapling.anchors == t.sapling.anchors && r.sapling.nullifiers == t.sapling.nullifiers
      && (forall h :: h in q.child.coins && q.child.coins[h].dirty && h !in q.parent.coins ==>
            IsPruned(q.child.coins[h].coins) || q.child.coins[h].isFresh)
      && (q.child.block != 0 && q.child.sprout.best != 0 && q.child.sapling.best != 0 ==> r == t)
  {
    var p := Pair(EMPTY, parent);
    EmptyShows(root, Shown(parent, v));
    assert Ok(root, p, v);
    hide Shown, Truthful, FlatRun, AdmitsRun;
    RunKeeps(root, p, v, ops);
    FlushKeeps(root, Run(root, p, v, ops), v);
  }
}
