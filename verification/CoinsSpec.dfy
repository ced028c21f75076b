/**
 One layer of cache over a view of the chain state, as a value: what it shows, what its
 flags promise about the view beneath, and what every operation and the merge into a
 parent do to it.
 */
module CoinsSpec {
  import opened Options
  import opened CoinRecord

  type Hash = nat
  type Tree = nat

  /** A commitment tree's root. Different trees have different roots. */
  ghost predicate RootsDiffer(root: Tree -> Hash) {
    forall a, b :: root(a) == root(b) ==> a == b
  }

  // ---------------------------------------------------------------- coins

  datatype Entry = Entry(coins: Coins, dirty: bool, isFresh: bool)

  type CoinsMap = map<Hash, Entry>

  /** The unspent coins of a flat view; a pruned record counts as absent. */
  type Unspent = map<Hash, Coins>

  ghost function CoinsShown(c: CoinsMap, base: Unspent): Unspent {
    map t | t in c.Keys + base.Keys && (t in c ==> !IsPruned(c[t].coins)) :: if t in c then c[t].coins else base[t]
  }

  /** FRESH: the view beneath does not hold the coins. Not DIRTY: it holds the same. */
  ghost predicate EntryTruthful(e: Entry, t: Hash, base: Unspent) {
    && (e.isFresh ==> t !in base)
    && (!e.dirty ==> (if IsPruned(e.coins) then t !in base else t in base && base[t] == e.coins))
  }

  ghost predicate CoinsTruthful(c: CoinsMap, base: Unspent) {
    forall t :: t in c ==> EntryTruthful(c[t], t, base)
  }

  /** What a base view may answer for `t`: nothing, or a record that is pruned exactly when the view lacks it. */
  ghost predicate Answers(found: Option<Coins>, t: Hash, base: Unspent) {
    match found
    case None => t !in base
    case Some(x) => if IsPruned(x) then t !in base else t in base && base[t] == x
  }

  /** The entry a miss creates from the base's answer. */
  function Pulled(x: Coins): Entry {
    Entry(x, false, IsPruned(x))
  }

  function Fetched(c: CoinsMap, t: Hash, found: Option<Coins>): CoinsMap {
    if t in c || found.None? then c else c[t := Pulled(found.value)]
  }

  /** The entry ModifyCoins hands out. */
  function Opened(c: CoinsMap, t: Hash, found: Option<Coins>): Entry {
    var e := if t in c then c[t] else if found.None? then Entry(NO_COINS, false, true) else Pulled(found.value);
    e.(dirty := true)
  }

  /** What the modifier's destructor leaves of an entry. */
  function Closed(c: CoinsMap, t: Hash, e: Entry): CoinsMap {
    var e' := e.(coins := Cleanup(e.coins));
    if e'.isFresh && IsPruned(e'.coins) then c - {t} else c[t := e']
  }

  /** Setting `t` to `x` in a flat view. */
  function Put(base: Unspent, t: Hash, x: Coins): Unspent {
    if IsPruned(x) then base - {t} else base[t := Cleanup(x)]
  }

  lemma FetchKeeps(c: CoinsMap, t: Hash, found: Option<Coins>, base: Unspent)
    requires CoinsTruthful(c, base) && (t !in c ==> Answers(found, t, base))
    ensures CoinsTruthful(Fetched(c, t, found), base)
    ensures CoinsShown(Fetched(c, t, found), base) == CoinsShown(c, base)
  {
  }

  lemma ClosedTruthful(c: CoinsMap, t: Hash, e: Entry, base: Unspent)
    requires CoinsTruthful(c, base) && EntryTruthful(e.(coins := Cleanup(e.coins)), t, base)
    ensures CoinsTruthful(Closed(c, t, e), base)
  {
    hide EntryTruthful, IsPruned, Cleanup;
  }

  /** What closing an entry leaves is seen as the record it was closed with, unless a fresh entry hid the base's. */
  lemma ClosedShows(c: CoinsMap, t: Hash, e: Entry, base: Unspent)
    requires e.isFresh && IsPruned(e.coins) ==> t !in base
    ensures CoinsShown(Closed(c, t, e), base) == Put(CoinsShown(c, base), t, e.coins)
  {
    hide IsPruned, Cleanup, CoinsShown;
    CleanupPrunes(e.coins);
    var r := Closed(c, t, e);
    var x, y := CoinsShown(r, base), Put(CoinsShown(c, base), t, e.coins);
    forall u
      ensures (u in x <==> u in y) && (u in x ==> x[u] == y[u])
    {
      ShownAt(r, base, u);
      ShownAt(c, base, u);
    }
  }

  lemma ShownAt(c: CoinsMap, base: Unspent, u: Hash)
    ensures u in CoinsShown(c, base) <==> if u in c then !IsPruned(c[u].coins) else u in base
    ensures u in CoinsShown(c, base) ==> CoinsShown(c, base)[u] == if u in c then c[u].coins else base[u]
  {
    hide IsPruned;
  }

  /** Modifying coins through the cache is setting them in the flat view. */
  lemma ModifyKeeps(c: CoinsMap, t: Hash, found: Option<Coins>, base: Unspent, x: Coins)
    requires CoinsTruthful(c, base) && (t !in c ==> Answers(found, t, base))
    ensures var r := Closed(c, t, Opened(c, t, found).(coins := x));
      CoinsTruthful(r, base) && CoinsShown(r, base) == Put(CoinsShown(c, base), t, x)
  {
    CleanupPrunes(x);
    var e := Opened(c, t, found).(coins := x);
    assert EntryTruthful(e.(coins := Cleanup(x)), t, base);
    assert e.isFresh ==> t !in base;
    hide CoinsTruthful, CoinsShown, Closed, Put, IsPruned, EntryTruthful, Cleanup;
    ClosedTruthful(c, t, e, base);
    ClosedShows(c, t, e, base);
  }

  /**
   ModifyNewCoins keeps the flags truthful exactly when the view beneath does not hold the coins, or
   when the new record is pruned and so leaves no entry.
   */
  lemma ModifyNewKeeps(c: CoinsMap, t: Hash, base: Unspent, x: Coins)
    requires CoinsTruthful(c, base)
    ensures var r := Closed(c, t, Entry(x, true, true));
      && (CoinsTruthful(r, base) <==> t !in base || IsPruned(x))
      && (CoinsShown(r, base) == Put(CoinsShown(c, base), t, x) <==> t !in base || !IsPruned(x))
  {
    hide IsPruned;
    CleanupPrunes(x);
    var e := Entry(x, true, true);
    var r := Closed(c, t, e);
    if t !in base || !IsPruned(x) {
      ClosedShows(c, t, e, base);
    } else {
      assert t !in r;
      assert t in CoinsShown(r, base) && t !in Put(CoinsShown(c, base), t, x);
    }
    if t !in base {
      ClosedTruthful(c, t, e, base);
    } else if !IsPruned(x) {
      assert r[t] == Entry(Cleanup(x), true, true);
      assert !EntryTruthful(r[t], t, base);
    }
  }

  // ---------------------------------------------------------------- merging coins into a parent

  /** What BatchWrite makes of one entry; None where it leaves no entry. */
  function MergedEntry(parent: CoinsMap, child: CoinsMap, t: Hash): Option<Entry> {
    if t in child && child[t].dirty then
      var pruned := IsPruned(child[t].coins);
      if t !in parent then (if pruned then None else Some(Entry(child[t].coins, true, true)))
      else if parent[t].isFresh && pruned then None
      else Some(Entry(child[t].coins, true, parent[t].isFresh))
    else if t in parent then Some(parent[t])
    else None
  }

  ghost function MergedCoins(parent: CoinsMap, child: CoinsMap): CoinsMap {
    map t | t in parent.Keys + child.Keys && MergedEntry(parent, child, t).Some? :: MergedEntry(parent, child, t).value
  }

  /** A child entry that is not FRESH was read through the parent, which has kept it. */
  ghost predicate ReadThrough(child: CoinsMap, parent: CoinsMap) {
    forall t :: t in child && !child[t].isFresh ==> t in parent
  }

  /** Flushing makes the parent show what the child showed, with flags that are truthful about its own base. */
  lemma MergeCoins(parent: CoinsMap, child: CoinsMap, base: Unspent)
    requires CoinsTruthful(parent, base) && CoinsTruthful(child, CoinsShown(parent, base)) && ReadThrough(child, parent)
    ensures CoinsShown(MergedCoins(parent, child), base) == CoinsShown(child, CoinsShown(parent, base))
    ensures CoinsTruthful(MergedCoins(parent, child), base)
  {
    var r := MergedCoins(parent, child);
    var shown := CoinsShown(parent, base);
    forall t ensures
      && (t in CoinsShown(r, base) <==> t in CoinsShown(child, shown))
      && (t in CoinsShown(r, base) ==> CoinsShown(r, base)[t] == CoinsShown(child, shown)[t])
      && (t in r ==> EntryTruthful(r[t], t, base))
    {
      MergeOne(parent, child, base, t);
    }
  }

  lemma MergeOne(parent: CoinsMap, child: CoinsMap, base: Unspent, t: Hash)
    requires t in parent ==> EntryTruthful(parent[t], t, base)
    requires t in child ==> EntryTruthful(child[t], t, CoinsShown(parent, base))
    requires t in child && !child[t].isFresh ==> t in parent
    ensures var r := MergedCoins(parent, child);
      var shown := CoinsShown(parent, base);
      && (t in CoinsShown(r, base) <==> t in CoinsShown(child, shown))
      && (t in CoinsShown(r, base) ==> CoinsShown(r, base)[t] == CoinsShown(child, shown)[t])
      && (t in r ==> EntryTruthful(r[t], t, base))
  {
  }

  // ---------------------------------------------------------------- anchors

  datatype AnchorEntry = AnchorEntry(entered: bool, tree: Tree, dirty: bool)

  type AnchorMap = map<Hash, AnchorEntry>

  ghost function AnchorsShown(c: AnchorMap, base: map<Hash, Tree>): map<Hash, Tree> {
    map r | r in c.Keys + base.Keys && (r in c ==> c[r].entered) :: if r in c then c[r].tree else base[r]
  }

  /** The tree is filed under its own root, and an entry that is not DIRTY agrees with the view beneath. */
  ghost predicate AnchorTruthful(root: Tree -> Hash, e: AnchorEntry, r: Hash, base: map<Hash, Tree>) {
    && root(e.tree) == r
    && (!e.dirty ==> (e.entered <==> r in base) && (e.entered ==> base[r] == e.tree))
  }

  ghost predicate AnchorsTruthful(root: Tree -> Hash, c: AnchorMap, base: map<Hash, Tree>) {
    forall r :: r in c ==> AnchorTruthful(root, c[r], r, base)
  }

  ghost predicate Rooted(root: Tree -> Hash, base: map<Hash, Tree>) {
    forall r :: r in base ==> root(base[r]) == r
  }

  function AnchorFetched(c: AnchorMap, r: Hash, found: Option<Tree>): AnchorMap {
    if r in c || found.None? then c else c[r := AnchorEntry(true, found.value, false)]
  }

  function Found<V>(m: map<Hash, V>, r: Hash): Option<V> {
    if r in m then Some(m[r]) else None
  }

  lemma AnchorFetchKeeps(root: Tree -> Hash, c: AnchorMap, r: Hash, base: map<Hash, Tree>)
    requires AnchorsTruthful(root, c, base) && Rooted(root, base)
    ensures AnchorsTruthful(root, AnchorFetched(c, r, Found(base, r)), base)
    ensures AnchorsShown(AnchorFetched(c, r, Found(base, r)), base) == AnchorsShown(c, base)
    ensures r in AnchorsShown(c, base) ==> r in AnchorFetched(c, r, Found(base, r))
  {
  }

  function Pushed(c: AnchorMap, r: Hash, tree: Tree): AnchorMap {
    c[r := AnchorEntry(true, tree, true)]
  }

  lemma PushKeeps(root: Tree -> Hash, c: AnchorMap, tree: Tree, base: map<Hash, Tree>)
    requires AnchorsTruthful(root, c, base)
    ensures AnchorsTruthful(root, Pushed(c, root(tree), tree), base)
    ensures AnchorsShown(Pushed(c, root(tree), tree), base) == AnchorsShown(c, base)[root(tree) := tree]
  {
  }

  /** Unenter the anchor `r`, which has been brought into the cache. */
  function Popped(c: AnchorMap, r: Hash): AnchorMap
    requires r in c
  {
    c[r := c[r].(entered := false, dirty := true)]
  }

  lemma PopKeeps(root: Tree -> Hash, c: AnchorMap, r: Hash, base: map<Hash, Tree>)
    requires AnchorsTruthful(root, c, base) && r in c
    ensures AnchorsTruthful(root, Popped(c, r), base)
    ensures AnchorsShown(Popped(c, r), base) == AnchorsShown(c, base) - {r}
  {
  }

  function MergedAnchor(parent: AnchorMap, child: AnchorMap, r: Hash): AnchorEntry
    requires r in parent || (r in child && child[r].dirty)
  {
    if r in child && child[r].dirty then
      if r !in parent then AnchorEntry(child[r].entered, child[r].tree, true)
      else if parent[r].entered != child[r].entered then parent[r].(entered := child[r].entered, dirty := true)
      else parent[r]
    else parent[r]
  }

  ghost function MergedAnchors(parent: AnchorMap, child: AnchorMap): AnchorMap {
    map r | r in parent.Keys + child.Keys && (r in parent || child[r].dirty) :: MergedAnchor(parent, child, r)
  }

  /** The parent keeps its own copy of a tree, which is the child's, since both have the same root. */
  lemma MergeAnchors(root: Tree -> Hash, parent: AnchorMap, child: AnchorMap, base: map<Hash, Tree>)
    requires RootsDiffer(root)
    requires AnchorsTruthful(root, parent, base) && AnchorsTruthful(root, child, AnchorsShown(parent, base))
    ensures AnchorsShown(MergedAnchors(parent, child), base) == AnchorsShown(child, AnchorsShown(parent, base))
    ensures AnchorsTruthful(root, MergedAnchors(parent, child), base)
  {
    var m := MergedAnchors(parent, child);
    var shown := AnchorsShown(parent, base);
    forall r ensures
      && (r in AnchorsShown(m, base) <==> r in AnchorsShown(child, shown))
      && (r in AnchorsShown(m, base) ==> AnchorsShown(m, base)[r] == AnchorsShown(child, shown)[r])
      && (r in m ==> AnchorTruthful(root, m[r], r, base))
    {
      MergeOneAnchor(root, parent, child, base, r);
    }
  }

  lemma MergeOneAnchor(root: Tree -> Hash, parent: AnchorMap, child: AnchorMap, base: map<Hash, Tree>, r: Hash)
    requires RootsDiffer(root)
    requires r in parent ==> AnchorTruthful(root, parent[r], r, base)
    requires r in child ==> AnchorTruthful(root, child[r], r, AnchorsShown(parent, base))
    ensures var m := MergedAnchors(parent, child);
      var shown := AnchorsShown(parent, base);
      && (r in AnchorsShown(m, base) <==> r in AnchorsShown(child, shown))
      && (r in AnchorsShown(m, base) ==> AnchorsShown(m, base)[r] == AnchorsShown(child, shown)[r])
      && (r in m ==> AnchorTruthful(root, m[r], r, base))
  {
    if r in parent && r in child {
      assert root(parent[r].tree) == root(child[r].tree);
    }
  }

  // ---------------------------------------------------------------- nullifiers

  datatype NullifierEntry = NullifierEntry(entered: bool, dirty: bool)

  type NullifierMap = map<Hash, NullifierEntry>

  ghost function NullifiersShown(c: NullifierMap, base: set<Hash>): set<Hash> {
    set n | n in c.Keys + base && (n in c ==> c[n].entered)
  }

  ghost predicate NullifiersTruthful(c: NullifierMap, base: set<Hash>) {
    forall n :: n in c ==> !c[n].dirty ==> (c[n].entered <==> n in base)
  }

  function NullifierFetched(c: NullifierMap, n: Hash, found: bool): NullifierMap {
    if n in c then c else c[n := NullifierEntry(found, false)]
  }

  lemma NullifierFetchKeeps(c: NullifierMap, n: Hash, base: set<Hash>)
    requires NullifiersTruthful(c, base)
    ensures NullifiersTruthful(NullifierFetched(c, n, n in base), base)
    ensures NullifiersShown(NullifierFetched(c, n, n in base), base) == NullifiersShown(c, base)
    ensures NullifierFetched(c, n, n in base)[n].entered <==> n in NullifiersShown(c, base)
  {
  }

  function NullifierSet(c: NullifierMap, n: Hash, spent: bool): NullifierMap {
    c[n := NullifierEntry(spent, true)]
  }

  lemma NullifierSetKeeps(c: NullifierMap, n: Hash, spent: bool, base: set<Hash>)
    requires NullifiersTruthful(c, base)
    ensures NullifiersTruthful(NullifierSet(c, n, spent), base)
    ensures NullifiersShown(NullifierSet(c, n, spent), base) ==
      if spent then NullifiersShown(c, base) + {n} else NullifiersShown(c, base) - {n}
  {
  }

  function MergedNullifier(parent: NullifierMap, child: NullifierMap, n: Hash): NullifierEntry
    requires n in parent || (n in child && child[n].dirty)
  {
    if n in child && child[n].dirty then
      if n !in parent then NullifierEntry(child[n].entered, true)
      else if parent[n].entered != child[n].entered then NullifierEntry(child[n].entered, true)
      else parent[n]
    else parent[n]
  }

  ghost function MergedNullifiers(parent: NullifierMap, child: NullifierMap): NullifierMap {
    map n | n in parent.Keys + child.Keys && (n in parent || child[n].dirty) :: MergedNullifier(parent, child, n)
  }

  lemma MergeNullifiers(parent: NullifierMap, child: NullifierMap, base: set<Hash>)
    requires NullifiersTruthful(parent, base) && NullifiersTruthful(child, NullifiersShown(parent, base))
    ensures NullifiersShown(MergedNullifiers(parent, child), base) ==
      NullifiersShown(child, NullifiersShown(parent, base))
    ensures NullifiersTruthful(MergedNullifiers(parent, child), base)
  {
  }

  // ---------------------------------------------------------------- the best block and anchors

  /** A null hash falls through to the view beneath. */
  function BestShown(hash: Hash, base: Hash): Hash {
    if hash == 0 then base else hash
  }

  /**
   Flush hands the child's hash over as it stands. The parent then shows what the child showed exactly when that
   hash is not null, or the parent had none of its own that differs from its base.
   */
  lemma FlushBest(child: Hash, parent: Hash, base: Hash)
    ensures BestShown(child, base) == BestShown(child, BestShown(parent, base)) <==>
      child != 0 || parent == 0 || parent == base
  {
  }
}
