/**
 Saving and loading is the identity up to the numbering of the entries: every entry is
 kept, both bucket tables, the counts and the reference counts are restored.
 */
module AddrManReload {
  import opened AddrManSpec
  import opened AddrManOps
  import opened AddrManDisk
  import opened FiniteSets
  import opened Options

  // ---------------------------------------------------------------- stages of a load

  ghost function NewList(s: State): seq<int>
    requires s.idCount >= 0
  {
    Ids(s.info, s.idCount, false)
  }

  ghost function TriedList(s: State): seq<int>
    requires s.idCount >= 0
  {
    Ids(s.info, s.idCount, true)
  }

  /** What a load needs to know of the saved manager. */
  ghost predicate Savable(s: State) {
    && s.idCount >= 0
    && (forall id :: id in s.info ==> 0 <= id < s.idCount && (s.info[id].inTried <==> s.info[id].refCount == 0))
    && s.nNew == |NewList(s)| && s.nTried == |TriedList(s)|
    && (forall k :: k in s.newTab ==> s.newTab[k] in s.info && !s.info[s.newTab[k]].inTried)
    && (forall k :: k in s.triedTab ==> s.triedTab[k] in s.info && s.info[s.triedTab[k]].inTried)
    && (forall a :: a in s.addr ==> s.addr[a] in s.info)
  }

  lemma InvSavable(h: Hasher, s: State)
    requires Inv(h, s)
    ensures Savable(s)
  {
    hide Inv, Ids;
    InvShape(h, s);
    InvCounts(h, s);
  }

  lemma InvCounts(h: Hasher, s: State)
    requires Inv(h, s) && s.idCount >= 0
    requires forall id :: id in s.info ==> 0 <= id < s.idCount && (s.info[id].inTried <==> s.info[id].refCount == 0)
    ensures s.nNew == |NewList(s)| && s.nTried == |TriedList(s)|
  {
    hide IdsOk, IndexOk, TriedOk, NewOk, Ids;
    IdsCount(s.info, s.idCount, false);
    IdsCount(s.info, s.idCount, true);
    assert ListedSet(s.info, s.idCount, false) == NewIds(s.info, {});
    assert ListedSet(s.info, s.idCount, true) == TriedIds(s.info);
  }

  lemma Sizes(s: State)
    requires Savable(s)
    ensures s.idCount >= 0 && s.nNew == |NewList(s)| && s.nTried == |TriedList(s)|
  {
  }

  lemma InvShape(h: Hasher, s: State)
    requires Inv(h, s)
    ensures s.idCount >= 0
    ensures forall id :: id in s.info ==> 0 <= id < s.idCount && (s.info[id].inTried <==> s.info[id].refCount == 0)
    ensures forall k :: k in s.newTab ==> s.newTab[k] in s.info && !s.info[s.newTab[k]].inTried
    ensures forall k :: k in s.triedTab ==> s.triedTab[k] in s.info && s.info[s.triedTab[k]].inTried
    ensures forall a :: a in s.addr ==> s.addr[a] in s.info
  {
    hide RandomOk, CountsOk;
  }

  /** The id an entry has after the load. */
  ghost function Renumbered(s: State, id: int): nat
    requires id in s.info && 0 <= id && s.nNew >= 0
  {
    if s.info[id].inTried then s.nNew + Rank(s.info, id, true) else Rank(s.info, id, false)
  }

  /** An entry as it comes back, under its new id `j`. */
  function Kept(i: Info, j: nat, refs: nat): Info {
    ReadBack(Written(i)).(randomPos := j, refCount := refs, inTried := i.inTried)
  }

  ghost function StageInfo(s: State, n: nat, t: nat, b: nat, p: nat): map<int, Info>
    requires Savable(s) && n <= |NewList(s)| && t <= |TriedList(s)|
  {
    IdsKnown(s.info, s.idCount, false);
    IdsKnown(s.info, s.idCount, true);
    map j: int | 0 <= j < n + t ::
      if j < n then Kept(s.info[NewList(s)[j]], j, |SlotsBefore(s.newTab, NewList(s)[j], b, p)|)
      else Kept(s.info[TriedList(s)[j - n]], j, 0)
  }

  ghost function StageAddr(s: State, m: nat): map<NetAddr, int>
    requires Savable(s)
  {
    map a | a in s.addr && Renumbered(s, s.addr[a]) < m :: Renumbered(s, s.addr[a])
  }

  ghost function StageTried(s: State, t: nat): Table
    requires Savable(s)
  {
    map k | k in s.triedTab && Rank(s.info, s.triedTab[k], true) < t :: s.nNew + Rank(s.info, s.triedTab[k], true)
  }

  ghost function StageNew(s: State, b: nat, p: nat): Table
    requires Savable(s)
  {
    map k | k in s.newTab && Before(k, b, p) :: Rank(s.info, s.newTab[k], false)
  }

  function Count(m: nat): seq<int> {
    seq(m, j => j)
  }

  /** The tables when `n` new and `t` tried entries and the slots before (b, p) have been read. */
  ghost function Stage(s: State, n: nat, t: nat, b: nat, p: nat): State
    requires Savable(s) && n <= |NewList(s)| && t <= |TriedList(s)|
  {
    State(s.key, s.nNew + t, StageInfo(s, n, t, b, p), StageAddr(s, n + t), Count(n + t),
          s.nTried, StageTried(s, t), s.nNew, StageNew(s, b, p))
  }

  // ---------------------------------------------------------------- the entries

  ghost function List(s: State, tried: bool): seq<int>
    requires s.idCount >= 0
  {
    if tried then TriedList(s) else NewList(s)
  }

  lemma RankOf(s: State, id: int)
    requires Savable(s) && id in s.info
    ensures var tried := s.info[id].inTried;
      Rank(s.info, id, tried) < |List(s, tried)| && List(s, tried)[Rank(s.info, id, tried)] == id
  {
    RankIndex(s.info, s.idCount, s.info[id].inTried, id);
  }

  lemma ListAt(s: State, tried: bool, j: nat)
    requires Savable(s) && j < |List(s, tried)|
    ensures var id := List(s, tried)[j];
      id in s.info && s.info[id].inTried == tried && id >= 0 && Rank(s.info, id, tried) == j
  {
    IndexRank(s.info, s.idCount, tried, j);
  }

  lemma RenumberedInjective(s: State, i: int, j: int)
    requires Savable(s) && i in s.info && j in s.info
    ensures Renumbered(s, i) == Renumbered(s, j) ==> i == j
    ensures Renumbered(s, i) < s.nNew <==> !s.info[i].inTried
    ensures Renumbered(s, i) < s.nNew + s.nTried
  {
    RankOf(s, i);
    RankOf(s, j);
  }

  lemma NoSlotsYet(s: State, id: int)
    ensures SlotsBefore(s.newTab, id, 0, 0) == {}
  {
  }

  lemma StageInfoNext(s: State, n: nat, t: nat)
    requires Savable(s)
    ensures n < |NewList(s)| && t == 0 ==>
      NewList(s)[n] in s.info &&
      StageInfo(s, n + 1, 0, 0, 0) == StageInfo(s, n, 0, 0, 0)[n as int := Kept(s.info[NewList(s)[n]], n, 0)]
    ensures n == |NewList(s)| && t < |TriedList(s)| ==>
      TriedList(s)[t] in s.info &&
      StageInfo(s, n, t + 1, 0, 0) ==
      StageInfo(s, n, t, 0, 0)[(n + t) as int := Kept(s.info[TriedList(s)[t]], n + t, 0)]
  {
    hide Ids, Kept, Rank;
    IdsKnown(s.info, s.idCount, false);
    IdsKnown(s.info, s.idCount, true);
    if n < |NewList(s)| {
      NoSlotsYet(s, NewList(s)[n]);
    }
  }

  /** Exactly one address gets the next number. */
  lemma StageAddrNext(s: State, m: nat, id: int)
    requires Savable(s) && AddrOk(s.info, s.addr) && id in s.info && Renumbered(s, id) == m
    ensures StageAddr(s, m + 1) == StageAddr(s, m)[s.info[id].addr.service.ip := m]
  {
    forall a | a in s.addr && Renumbered(s, s.addr[a]) == m ensures s.addr[a] == id {
      RenumberedInjective(s, s.addr[a], id);
    }
    hide Ids, Renumbered;
  }

  /** Reading the next new entry. */
  lemma EnterNewStep(s: State, n: nat)
    requires Savable(s) && n < |NewList(s)| && AddrOk(s.info, s.addr)
    ensures NewList(s)[n] in s.info
    ensures Enter(Stage(s, n, 0, 0, 0).(idCount := 0), n, ReadBack(Written(s.info[NewList(s)[n]])))
         == Stage(s, n + 1, 0, 0, 0).(idCount := 0)
  {
    ListAt(s, false, n);
    hide Ids, AddrOk;
    StageInfoNext(s, n, 0);
    StageAddrNext(s, n, NewList(s)[n]);
    hide StageInfo, StageAddr, StageTried, StageNew;
    assert Count(n + 1) == Count(n) + [n];
  }

  /** Exactly one tried slot holds the entry with rank `t`. */
  lemma TriedSlotOfRank(h: Hasher, s: State, t: nat)
    requires Savable(s) && TriedOk(h, s.key, s.info, s.triedTab) && t < |TriedList(s)| && TriedList(s)[t] in s.info
    ensures var k := TriedSlot(h, s.key, s.info[TriedList(s)[t]]);
      forall j :: j in s.triedTab ==> (Rank(s.info, s.triedTab[j], true) == t <==> j == k)
    ensures TriedSlot(h, s.key, s.info[TriedList(s)[t]]) in s.triedTab
  {
    hide Ids, Rank, TriedSlot;
    var id := TriedList(s)[t];
    ListAt(s, true, t);
    var k := TriedSlot(h, s.key, s.info[id]);
    assert k in s.triedTab && s.triedTab[k] == id;
    forall j | j in s.triedTab && Rank(s.info, s.triedTab[j], true) == t ensures j == k {
      RankOf(s, s.triedTab[j]);
      assert s.triedTab[j] == id;
    }
  }

  lemma StageTriedNext(h: Hasher, s: State, t: nat)
    requires Savable(s) && TriedOk(h, s.key, s.info, s.triedTab) && t < |TriedList(s)| && TriedList(s)[t] in s.info
    ensures var k := TriedSlot(h, s.key, s.info[TriedList(s)[t]]);
      k !in StageTried(s, t) && StageTried(s, t + 1) == StageTried(s, t)[k := s.nNew + t]
  {
    hide TriedOk, Rank, TriedSlot, Ids;
    TriedSlotOfRank(h, s, t);
  }

  lemma TriedParts(h: Hasher, s: State, t: nat)
    requires Savable(s) && AddrOk(s.info, s.addr) && TriedOk(h, s.key, s.info, s.triedTab) && t < |TriedList(s)|
    ensures TriedList(s)[t] in s.info && s.info[TriedList(s)[t]].inTried
    ensures var n := |NewList(s)|;
      var i := s.info[TriedList(s)[t]];
      var k := TriedSlot(h, s.key, i);
      && s.nNew == n
      && StageInfo(s, n, t + 1, 0, 0) == StageInfo(s, n, t, 0, 0)[(n + t) as int := Kept(i, n + t, 0)]
      && StageAddr(s, n + t + 1) == StageAddr(s, n + t)[i.addr.service.ip := n + t]
      && k !in StageTried(s, t) && StageTried(s, t + 1) == StageTried(s, t)[k := n + t]
      && Count(n + t + 1) == Count(n + t) + [n + t]
  {
    hide Ids, AddrOk, TriedOk, Savable, StageInfo, StageAddr, StageTried, TriedSlot, Kept;
    Sizes(s);
    ListAt(s, true, t);
    var n := |NewList(s)|;
    StageInfoNext(s, n, t);
    StageAddrNext(s, n + t, TriedList(s)[t]);
    StageTriedNext(h, s, t);
  }

  /** Reading the next tried entry: its slot is free, so it is not lost. */
  lemma EnterTriedStep(h: Hasher, s: State, t: nat)
    requires Savable(s) && AddrOk(s.info, s.addr) && TriedOk(h, s.key, s.info, s.triedTab) && t < |TriedList(s)|
    ensures TriedList(s)[t] in s.info
    ensures var i := ReadBack(Written(s.info[TriedList(s)[t]]));
      var n := |NewList(s)|;
      var k := TriedSlot(h, s.key, i);
      k !in Stage(s, n, t, 0, 0).triedTab && EnterTried(Stage(s, n, t, 0, 0), i, k) == Stage(s, n, t + 1, 0, 0)
  {
    hide Ids, AddrOk, TriedOk, Savable, StageInfo, StageAddr, StageTried, StageNew, Count;
    Sizes(s);
    TriedParts(h, s, t);
    CountSize(|NewList(s)| + t);
  }

  lemma CountSize(m: nat)
    ensures |Count(m)| == m
  {
  }

  lemma {:induction false} LoadNewEntries(h: Hasher, s: State, n: nat, rest: seq<Token>)
    requires Savable(s) && AddrOk(s.info, s.addr) && n <= |NewList(s)|
    requires forall j :: 0 <= j < |NewList(s)| ==> NewList(s)[j] in s.info
    ensures LoadNew(h, Stage(s, n, 0, 0, 0).(idCount := 0), n, EntryToks(s.info, NewList(s)[n..]) + rest, true)
         == Some((Stage(s, |NewList(s)|, 0, 0, 0).(idCount := 0), rest))
    decreases |NewList(s)| - n
  {
    hide Ids, AddrOk, Savable, Stage;
    Sizes(s);
    StageCounts(s, n, 0, 0, 0);
    var ids := NewList(s)[n..];
    if n == |NewList(s)| {
      assert EntryToks(s.info, ids) + rest == rest;
    } else {
      EnterNewStep(s, n);
      assert ids[1..] == NewList(s)[n + 1..];
      var toks := EntryToks(s.info, ids) + rest;
      assert toks[0] == EntryTok(Written(s.info[NewList(s)[n]]));
      assert toks[1..] == EntryToks(s.info, ids[1..]) + rest;
      LoadNewEntries(h, s, n + 1, rest);
    }
  }

  lemma StageCounts(s: State, n: nat, t: nat, b: nat, p: nat)
    requires Savable(s) && n <= |NewList(s)| && t <= |TriedList(s)|
    ensures var r := Stage(s, n, t, b, p); r.nNew == s.nNew && r.nTried == s.nTried && r.key == s.key
  {
  }

  lemma {:induction false} LoadTriedEntries(h: Hasher, s: State, t: nat, rest: seq<Token>)
    requires Savable(s) && AddrOk(s.info, s.addr) && TriedOk(h, s.key, s.info, s.triedTab) && t <= |TriedList(s)|
    requires forall j :: 0 <= j < |TriedList(s)| ==> TriedList(s)[j] in s.info
    ensures LoadTried(h, Stage(s, |NewList(s)|, t, 0, 0), t, 0, EntryToks(s.info, TriedList(s)[t..]) + rest)
         == Some((Stage(s, |NewList(s)|, |TriedList(s)|, 0, 0), rest))
    decreases |TriedList(s)| - t
  {
    hide Ids, AddrOk, Savable, Stage, TriedOk;
    Sizes(s);
    StageCounts(s, |NewList(s)|, t, 0, 0);
    var ids := TriedList(s)[t..];
    if t == |TriedList(s)| {
      assert EntryToks(s.info, ids) + rest == rest;
    } else {
      EnterTriedStep(h, s, t);
      assert ids[1..] == TriedList(s)[t + 1..];
      var toks := EntryToks(s.info, ids) + rest;
      assert toks[0] == EntryTok(Written(s.info[TriedList(s)[t]]));
      assert toks[1..] == EntryToks(s.info, ids[1..]) + rest;
      LoadTriedEntries(h, s, t + 1, rest);
    }
  }

  // ---------------------------------------------------------------- the new buckets

  /** Every slot of the new table is in range and where its holder's hash puts it. */
  ghost predicate SlotsHashed(h: Hasher, s: State) {
    forall k :: k in s.newTab ==>
      && s.newTab[k] in s.info
      && k.bucket < NEW_BUCKET_COUNT && k.pos < BUCKET_SIZE
      && k == NewSlot(h, s.key, s.info[s.newTab[k]], k.bucket)
      && |SlotsOf(s.newTab, s.newTab[k])| <= NEW_BUCKETS_PER_ADDRESS
  }

  lemma InvSlotsHashed(h: Hasher, s: State)
    requires Inv(h, s)
    ensures SlotsHashed(h, s)
  {
    hide AddrOk, RandomOk, TriedOk, CountsOk;
    assert forall k :: k in s.newTab ==> k == NewSlot(h, s.key, s.info[s.newTab[k]], k.bucket);
  }

  lemma SlotsBeforeBound(s: State, b: nat, p: nat)
    requires Slot(b, p) in s.newTab
    ensures |SlotsBefore(s.newTab, s.newTab[Slot(b, p)], b, p)| < |SlotsOf(s.newTab, s.newTab[Slot(b, p)])|
  {
    var id := s.newTab[Slot(b, p)];
    SlotsBeforeNext(s.newTab, id, b, p);
    var more := SlotsBefore(s.newTab, id, b, p) + {Slot(b, p)};
    SubsetSize(more, SlotsOf(s.newTab, id));
  }

  lemma {:induction false} SubsetSize<T>(a: set<T>, b: set<T>)
    requires a <= b
    ensures |a| <= |b|
    decreases |a|
  {
    if a != {} {
      var x :| x in a;
      SubsetSize(a - {x}, b - {x});
    }
  }

  lemma StageNewNext(s: State, b: nat, p: nat)
    requires Savable(s)
    ensures StageNew(s, b, p + 1) ==
      if Slot(b, p) in s.newTab then StageNew(s, b, p)[Slot(b, p) := Rank(s.info, s.newTab[Slot(b, p)], false)]
      else StageNew(s, b, p)
    ensures Slot(b, p) !in StageNew(s, b, p)
  {
    hide Rank;
  }

  /** Reading a slot gives one more reference to its holder and to nobody else. */
  lemma StageRefsNext(s: State, b: nat, p: nat)
    requires Savable(s)
    ensures var n, t := |NewList(s)|, |TriedList(s)|;
      var r := StageInfo(s, n, t, b, p);
      if Slot(b, p) in s.newTab then
        var id := s.newTab[Slot(b, p)];
        var j := Rank(s.info, id, false);
        && j < n && j in r && r[j] == Kept(s.info[id], j, |SlotsBefore(s.newTab, id, b, p)|)
        && StageInfo(s, n, t, b, p + 1) == r[j as int := r[j].(refCount := r[j].refCount + 1)]
      else StageInfo(s, n, t, b, p + 1) == r
  {
    Sizes(s);
    hide StageInfo, SlotsBefore, Ids, Rank, Savable;
    var n, t := |NewList(s)|, |TriedList(s)|;
    var r, r' := StageInfo(s, n, t, b, p), StageInfo(s, n, t, b, p + 1);
    var k := Slot(b, p);
    if k in s.newTab {
      SlotRank(s, k);
      StageInfoAt(s, b, p, Rank(s.info, s.newTab[k], false));
    }
    forall i | 0 <= i < n + t
      ensures i in r && i in r'
      ensures r'[i] == if k in s.newTab && i == Rank(s.info, s.newTab[k], false)
                       then r[i].(refCount := r[i].refCount + 1) else r[i]
    {
      StageInfoAt(s, b, p, i);
      StageInfoAt(s, b, p + 1, i);
      if i < n {
        SlotsBeforeNext(s.newTab, NewList(s)[i], b, p);
        ListAt(s, false, i);
      }
    }
    StageInfoKeys(s, b, p);
    StageInfoKeys(s, b, p + 1);
  }

  lemma StageInfoKeys(s: State, b: nat, p: nat)
    requires Savable(s)
    ensures var n, t := |NewList(s)|, |TriedList(s)|; forall j :: j in StageInfo(s, n, t, b, p) <==> 0 <= j < n + t
  {
    hide Ids, Rank;
  }

  lemma StageInfoAt(s: State, b: nat, p: nat, j: nat)
    requires Savable(s) && j < |NewList(s)| + |TriedList(s)|
    ensures var n, t := |NewList(s)|, |TriedList(s)|;
      var r := StageInfo(s, n, t, b, p);
      && j in r
      && (j < n ==> NewList(s)[j] in s.info
                    && r[j] == Kept(s.info[NewList(s)[j]], j, |SlotsBefore(s.newTab, NewList(s)[j], b, p)|))
      && (j >= n ==> TriedList(s)[j - n] in s.info && r[j] == Kept(s.info[TriedList(s)[j - n]], j, 0))
  {
    hide Ids, Rank, Kept, SlotsBefore;
    IdsKnown(s.info, s.idCount, false);
    IdsKnown(s.info, s.idCount, true);
  }

  /** The entry a slot refers to is at its rank in the list. */
  lemma SlotRank(s: State, k: Slot)
    requires Savable(s) && k in s.newTab
    ensures s.newTab[k] >= 0 && s.newTab[k] in s.info
    ensures var j := Rank(s.info, s.newTab[k], false); j < |NewList(s)| && NewList(s)[j] == s.newTab[k]
  {
    RankOf(s, s.newTab[k]);
  }

  /** All entries and the slots before (b, p). */
  ghost function Slotted(s: State, b: nat, p: nat): State
    requires Savable(s)
  {
    Stage(s, |NewList(s)|, |TriedList(s)|, b, p)
  }

  lemma SlotFacts(h: Hasher, s: State, b: nat, p: nat)
    requires Savable(s) && SlotsHashed(h, s) && Slot(b, p) in s.newTab
    ensures var id := s.newTab[Slot(b, p)];
      && id in s.info && id >= 0 && Slot(b, p) == NewSlot(h, s.key, s.info[id], b)
      && |SlotsOf(s.newTab, id)| <= NEW_BUCKETS_PER_ADDRESS
  {
  }

  lemma LoadIndexStep(h: Hasher, s: State, b: nat, p: nat)
    requires Savable(s) && SlotsHashed(h, s)
    ensures if Slot(b, p) in s.newTab
      then LoadIndex(h, Slotted(s, b, p), b, Rank(s.info, s.newTab[Slot(b, p)], false), true) == Slotted(s, b, p + 1)
      else Slotted(s, b, p + 1) == Slotted(s, b, p)
  {
    hide Savable, SlotsHashed, StageInfo, StageNew, StageAddr, StageTried, Rank, SlotsBefore, SlotsOf, Ids;
    Sizes(s);
    StageNewNext(s, b, p);
    StageRefsNext(s, b, p);
    if Slot(b, p) in s.newTab {
      var id := s.newTab[Slot(b, p)];
      SlotsBeforeBound(s, b, p);
      SlotFacts(h, s, b, p);
      var j := Rank(s.info, id, false);
      assert NewSlot(h, s.key, Slotted(s, b, p).info[j], b) == Slot(b, p);
    }
  }

  lemma {:induction false} LoadBucketFrom(h: Hasher, s: State, b: nat, p: nat, rest: seq<Token>)
    requires Savable(s) && SlotsHashed(h, s) && p <= BUCKET_SIZE
    requires forall k :: k in s.newTab ==> s.newTab[k] >= 0
    ensures LoadBucket(h, Slotted(s, b, p), b, |BucketToks(s, b, p)|, BucketToks(s, b, p) + rest, true)
         == Some((Slotted(s, b, BUCKET_SIZE), rest))
    decreases BUCKET_SIZE - p
  {
    hide Savable, SlotsHashed, Slotted, LoadIndex, LoadBucket, BucketToks, Rank;
    var toks := BucketToks(s, b, p);
    BucketNext(s, b, p);
    if p == BUCKET_SIZE {
      assert toks + rest == rest;
      BucketDone(h, Slotted(s, b, p), b, rest);
    } else {
      LoadIndexStep(h, s, b, p);
      LoadBucketFrom(h, s, b, p + 1, rest);
      if Slot(b, p) in s.newTab {
        BucketFirst(h, Slotted(s, b, p), b, toks[0].i, BucketToks(s, b, p + 1), rest);
      }
    }
  }

  lemma {:induction false} BucketNext(s: State, b: nat, p: nat)
    requires forall k :: k in s.newTab ==> s.newTab[k] >= 0
    ensures p >= BUCKET_SIZE ==> BucketToks(s, b, p) == []
    ensures p < BUCKET_SIZE && Slot(b, p) in s.newTab ==>
      BucketToks(s, b, p) == [IntTok(Rank(s.info, s.newTab[Slot(b, p)], false))] + BucketToks(s, b, p + 1)
    ensures p < BUCKET_SIZE && Slot(b, p) !in s.newTab ==> BucketToks(s, b, p) == BucketToks(s, b, p + 1)
  {
    hide Rank;
    if p < BUCKET_SIZE && Slot(b, p) !in s.newTab {
      assert [] + BucketToks(s, b, p + 1) == BucketToks(s, b, p + 1);
    }
  }

  lemma {:induction false} BucketDone(h: Hasher, s: State, b: nat, rest: seq<Token>)
    ensures LoadBucket(h, s, b, 0, rest, true) == Some((s, rest))
  {
  }

  lemma {:induction false} BucketFirst(h: Hasher, s: State, b: nat, i: int, toks: seq<Token>, rest: seq<Token>)
    ensures var all := [IntTok(i)] + toks;
      LoadBucket(h, s, b, |all|, all + rest, true) ==
      LoadBucket(h, LoadIndex(h, s, b, i, true), b, |toks|, toks + rest, true)
  {
    hide LoadIndex;
    var all := [IntTok(i)] + toks;
    assert (all + rest)[0] == IntTok(i) && (all + rest)[1..] == toks + rest;
  }

  lemma BucketEnd(h: Hasher, s: State, b: nat)
    requires Savable(s) && SlotsHashed(h, s)
    ensures Slotted(s, b, BUCKET_SIZE) == Slotted(s, b + 1, 0)
  {
    hide Rank, Ids;
    assert forall k :: k in s.newTab ==> (Before(k, b, BUCKET_SIZE) <==> Before(k, b + 1, 0));
    assert StageNew(s, b, BUCKET_SIZE) == StageNew(s, b + 1, 0);
    forall id ensures SlotsBefore(s.newTab, id, b, BUCKET_SIZE) == SlotsBefore(s.newTab, id, b + 1, 0) {}
    var n, t := |NewList(s)|, |TriedList(s)|;
    assert StageInfo(s, n, t, b, BUCKET_SIZE) == StageInfo(s, n, t, b + 1, 0);
  }

  lemma {:induction false} LoadBucketsFrom(h: Hasher, s: State, b: nat)
    requires Savable(s) && SlotsHashed(h, s) && b <= NEW_BUCKET_COUNT
    requires forall k :: k in s.newTab ==> s.newTab[k] >= 0
    ensures LoadBuckets(h, Slotted(s, b, 0), b, NEW_BUCKET_COUNT, BucketsToks(s, b), true)
         == Some((Slotted(s, NEW_BUCKET_COUNT, 0), []))
    decreases NEW_BUCKET_COUNT - b
  {
    hide Savable, SlotsHashed, Slotted, LoadBucket, BucketToks;
    if b < NEW_BUCKET_COUNT {
      var toks := BucketsToks(s, b);
      LoadBucketFrom(h, s, b, 0, BucketsToks(s, b + 1));
      assert toks[1..] == BucketToks(s, b, 0) + BucketsToks(s, b + 1);
      BucketEnd(h, s, b);
      LoadBucketsFrom(h, s, b + 1);
    }
  }

  // ---------------------------------------------------------------- the whole load

  /** The manager a load gives back. */
  ghost function Reloaded(s: State): (r: State)
    requires Savable(s)
  {
    Slotted(s, NEW_BUCKET_COUNT, 0)
  }

  /** The references of every entry are complete in the end. */
  lemma ReloadedRefs(h: Hasher, s: State, id: int)
    requires Inv(h, s) && Savable(s) && SlotsHashed(h, s) && id in s.info && !s.info[id].inTried
    ensures |SlotsBefore(s.newTab, id, NEW_BUCKET_COUNT, 0)| == s.info[id].refCount > 0
  {
    assert SlotsBefore(s.newTab, id, NEW_BUCKET_COUNT, 0) == SlotsOf(s.newTab, id);
    NewEntryRefs(h, s, id);
  }

  lemma {:induction false} PruneNothing(s: State, n: nat, upTo: nat)
    requires RandomOk(s.info, s.random) && n <= upTo
    requires forall id :: id in s.info && n <= id < upTo ==> s.info[id].inTried || s.info[id].refCount != 0
    ensures Prune(s, n, upTo) == s
    decreases upTo - n
  {
    hide RandomOk, Delete;
    if n < upTo {
      PruneNothing(s, n + 1, upTo);
    }
  }

  /** What an entry becomes: only the time of the last try, which is never written, is gone. */
  ghost predicate Returns(s: State, r: State, id: int)
    requires Savable(s) && id in s.info
  {
    var j := Renumbered(s, id);
    j in r.info && r.info[j] == s.info[id].(lastTry := 0, randomPos := j)
  }

  lemma ReloadedEntry(h: Hasher, s: State, id: int)
    requires Inv(h, s) && Savable(s) && SlotsHashed(h, s) && id in s.info
    ensures Returns(s, Reloaded(s), id)
  {
    hide InvBut;
    Sizes(s);
    RankOf(s, id);
    RenumberedInjective(s, id, id);
    if !s.info[id].inTried {
      ReloadedRefs(h, s, id);
      assert Reloaded(s).info[Renumbered(s, id)] == Kept(s.info[id], Renumbered(s, id), s.info[id].refCount);
    } else {
      assert Reloaded(s).info[Renumbered(s, id)] == Kept(s.info[id], Renumbered(s, id), 0);
    }
  }

  /** Every number is taken. */
  lemma Surjective(s: State, j: int) returns (id: int)
    requires Savable(s) && 0 <= j < s.nNew + s.nTried
    ensures id in s.info && Renumbered(s, id) == j
  {
    if j < s.nNew {
      ListAt(s, false, j);
      id := NewList(s)[j];
    } else {
      ListAt(s, true, j - s.nNew);
      id := TriedList(s)[j - s.nNew];
    }
  }

  /** `r` is `s` with its entries renumbered. */
  ghost predicate IsRenumbering(s: State, r: State)
    requires Savable(s)
  {
    && r.key == s.key && r.nNew == s.nNew && r.nTried == s.nTried && r.idCount == s.nNew + s.nTried
    && (forall j :: j in r.info <==> 0 <= j < s.nNew + s.nTried)
    && r.random == Count(s.nNew + s.nTried)
    && (forall id :: id in s.info ==> Returns(s, r, id))
    && (forall a :: a in r.addr <==> a in s.addr)
    && (forall a :: a in s.addr ==> r.addr[a] == Renumbered(s, s.addr[a]))
    && (forall k :: k in r.triedTab <==> k in s.triedTab)
    && (forall k :: k in s.triedTab ==> r.triedTab[k] == Renumbered(s, s.triedTab[k]))
    && (forall k :: k in r.newTab <==> k in s.newTab)
    && (forall k :: k in s.newTab ==> r.newTab[k] == Renumbered(s, s.newTab[k]))
  }

  lemma ReloadedTables(h: Hasher, s: State)
    requires Savable(s) && SlotsHashed(h, s)
    ensures var r := Reloaded(s);
      && (forall k :: k in r.triedTab <==> k in s.triedTab)
      && (forall k :: k in s.triedTab ==> r.triedTab[k] == Renumbered(s, s.triedTab[k]))
      && (forall k :: k in r.newTab <==> k in s.newTab)
      && (forall k :: k in s.newTab ==> r.newTab[k] == Renumbered(s, s.newTab[k]))
  {
    Sizes(s);
    forall k | k in s.triedTab ensures Rank(s.info, s.triedTab[k], true) < s.nTried {
      RankOf(s, s.triedTab[k]);
    }
    hide Ids, Rank, StageInfo, StageAddr;
    assert forall k :: k in s.newTab ==> Before(k, NEW_BUCKET_COUNT, 0);
  }

  lemma ReloadedAddr(s: State)
    requires Savable(s)
    ensures var r := Reloaded(s);
      && (forall a :: a in r.addr <==> a in s.addr)
      && (forall a :: a in s.addr ==> r.addr[a] == Renumbered(s, s.addr[a]))
  {
    Sizes(s);
    forall a | a in s.addr ensures Renumbered(s, s.addr[a]) < s.nNew + s.nTried {
      RenumberedInjective(s, s.addr[a], s.addr[a]);
    }
    hide Ids, Rank, StageInfo, StageTried, StageNew, Renumbered;
  }

  lemma ReloadedIsRenumbering(h: Hasher, s: State)
    requires Inv(h, s) && Savable(s) && SlotsHashed(h, s)
    ensures IsRenumbering(s, Reloaded(s))
  {
    hide InvBut, Savable, Ids, Rank, Returns, StageAddr, StageTried, StageNew, Renumbered, SlotsHashed;
    Sizes(s);
    var r := Reloaded(s);
    assert forall j :: j in r.info <==> 0 <= j < s.nNew + s.nTried;
    hide StageInfo;
    forall id | id in s.info ensures Returns(s, r, id) {
      ReloadedEntry(h, s, id);
    }
    ReloadedTables(h, s);
    ReloadedAddr(s);
  }

  lemma {:induction false} Pigeonhole<T>(ids: set<T>, code: map<T, nat>, m: nat)
    requires forall id :: id in ids ==> id in code && code[id] < m
    requires forall i, j :: i in ids && j in ids && code[i] == code[j] ==> i == j
    ensures |ids| <= m
  {
    if ids != {} {
      var y :| y in ids;
      assert m > 0;
      if x :| x in ids && code[x] == m - 1 {
        Pigeonhole(ids - {x}, code, m - 1);
      } else {
        Pigeonhole(ids, code, m - 1);
      }
    }
  }

  function SlotCode(k: Slot): nat {
    k.bucket * BUCKET_SIZE + k.pos
  }

  lemma SlotCodeInjective(k: Slot, l: Slot)
    requires k.pos < BUCKET_SIZE && l.pos < BUCKET_SIZE && SlotCode(k) == SlotCode(l)
    ensures k == l
  {
  }

  ghost function SomeSlot(s: State, id: int): (k: Slot)
    requires SlotsOf(s.newTab, id) != {}
    ensures k in s.newTab && s.newTab[k] == id
  {
    var k :| k in SlotsOf(s.newTab, id);
    k
  }

  lemma NewFits(h: Hasher, s: State)
    requires NewOk(h, s.key, s.info, s.newTab, {}) && SlotsHashed(h, s)
    ensures |NewIds(s.info, {})| <= NEW_BUCKET_COUNT * BUCKET_SIZE
  {
    var ids := NewIds(s.info, {});
    forall id | id in ids ensures SlotsOf(s.newTab, id) != {} {
      assert |SlotsOf(s.newTab, id)| >= 1;
    }
    hide NewOk;
    var code := map id | id in ids :: SlotCode(SomeSlot(s, id));
    forall i, j | i in ids && j in ids && code[i] == code[j] ensures i == j {
      SlotCodeInjective(SomeSlot(s, i), SomeSlot(s, j));
    }
    Pigeonhole(ids, code, NEW_BUCKET_COUNT * BUCKET_SIZE);
  }

  lemma TriedFits(h: Hasher, s: State)
    requires TriedOk(h, s.key, s.info, s.triedTab)
    ensures |TriedIds(s.info)| <= TRIED_BUCKET_COUNT * BUCKET_SIZE
  {
    var ids := TriedIds(s.info);
    var code := map id | id in ids :: SlotCode(TriedSlot(h, s.key, s.info[id]));
    forall i, j | i in ids && j in ids && code[i] == code[j] ensures i == j {
      SlotCodeInjective(TriedSlot(h, s.key, s.info[i]), TriedSlot(h, s.key, s.info[j]));
    }
    Pigeonhole(ids, code, TRIED_BUCKET_COUNT * BUCKET_SIZE);
  }

  lemma CountsFit(h: Hasher, s: State)
    requires Inv(h, s) && SlotsHashed(h, s)
    ensures s.nNew <= NEW_BUCKET_COUNT * BUCKET_SIZE && s.nTried <= TRIED_BUCKET_COUNT * BUCKET_SIZE
  {
    hide IndexOk, TriedOk, NewOk, SlotsHashed;
    NewFits(h, s);
    TriedFits(h, s);
  }

  lemma StageZero(s: State)
    requires Savable(s)
    ensures Stage(s, 0, 0, 0, 0).(idCount := 0) == Empty(s.key).(nNew := s.nNew, nTried := s.nTried)
  {
    hide Rank, Ids;
    assert StageInfo(s, 0, 0, 0, 0) == map[];
    assert StageAddr(s, 0) == map[];
    assert StageTried(s, 0) == map[];
    assert StageNew(s, 0, 0) == map[];
    assert Count(0) == [];
  }

  lemma ReloadedRandom(h: Hasher, s: State)
    requires Savable(s)
    ensures RandomOk(Reloaded(s).info, Reloaded(s).random)
  {
    hide Ids, Rank, SlotsBefore;
    var r := Reloaded(s);
    var n, t := |NewList(s)|, |TriedList(s)|;
    CountSize(n + t);
    assert r.info == StageInfo(s, n, t, NEW_BUCKET_COUNT, 0);
    IdsKnown(s.info, s.idCount, false);
    IdsKnown(s.info, s.idCount, true);
    forall j | j in r.info ensures 0 <= j < n + t && r.info[j].randomPos == j {
      if j < n {
        assert r.info[j] == Kept(s.info[NewList(s)[j]], j, |SlotsBefore(s.newTab, NewList(s)[j], NEW_BUCKET_COUNT, 0)|);
      } else {
        assert r.info[j] == Kept(s.info[TriedList(s)[j - n]], j, 0);
      }
    }
  }

  lemma ReloadedPrunes(h: Hasher, s: State)
    requires Inv(h, s) && Savable(s) && SlotsHashed(h, s) && RandomOk(Reloaded(s).info, Reloaded(s).random)
    ensures s.nNew >= 0 && Prune(Reloaded(s), 0, s.nNew) == Reloaded(s)
  {
    hide InvBut, RandomOk, SlotsHashed;
    Sizes(s);
    var r := Reloaded(s);
    forall j | j in r.info && 0 <= j < s.nNew ensures r.info[j].inTried || r.info[j].refCount != 0 {
      ListAt(s, false, j);
      ReloadedRefs(h, s, NewList(s)[j]);
    }
    hide Reloaded;
    PruneNothing(r, 0, s.nNew);
  }

  /** The stages of a load, composed. */
  lemma {:induction false} LoadTablesBy(h: Hasher, s: State, count: int, usable: bool, toks: seq<Token>,
                     t: State, toks1: seq<Token>, u: State, toks2: seq<Token>, v: State)
    requires s.info == map[] && s.random == [] && s.nNew >= 0
    requires LoadNew(h, s, 0, toks, usable) == Some((t, toks1))
    requires LoadTried(h, t.(idCount := s.nNew), 0, 0, toks1) == Some((u, toks2))
    requires LoadBuckets(h, u, 0, count, toks2, usable) == Some((v, []))
    requires RandomOk(v.info, v.random)
    ensures LoadTables(h, s, count, usable, toks) == Some(Prune(v, 0, s.nNew))
  {
    hide LoadNew, LoadTried, LoadBuckets, RandomOk, Prune, Growing;
    assert LoadEntries(h, s, usable, toks) == Some((u, toks2));
  }

  /** What follows the header. */
  ghost function TableToks(s: State): seq<Token>
    requires s.idCount >= 0 && forall k :: k in s.newTab ==> s.newTab[k] >= 0
  {
    IdsKnown(s.info, s.idCount, false);
    IdsKnown(s.info, s.idCount, true);
    EntryToks(s.info, NewList(s)) + (EntryToks(s.info, TriedList(s)) + BucketsToks(s, 0))
  }

  lemma {:induction false} LoadSavedTables(h: Hasher, s: State)
    requires Inv(h, s) && Savable(s) && SlotsHashed(h, s)
    requires forall k :: k in s.newTab ==> s.newTab[k] >= 0
    ensures LoadTables(h, Empty(s.key).(nNew := s.nNew, nTried := s.nTried), NEW_BUCKET_COUNT, true, TableToks(s))
         == Some(Reloaded(s))
  {
    hide InvBut, AddrOk, TriedOk, Savable, SlotsHashed, RandomOk, Ids, StageInfo, StageAddr, StageTried, StageNew;
    hide LoadNew, LoadTried, LoadBuckets, BucketsToks, EntryToks, Prune, LoadTables;
    InvParts(h, s);
    Sizes(s);
    IdsKnown(s.info, s.idCount, false);
    IdsKnown(s.info, s.idCount, true);
    StageZero(s);
    var n, t := |NewList(s)|, |TriedList(s)|;
    var rest2 := BucketsToks(s, 0);
    var rest1 := EntryToks(s.info, TriedList(s)) + rest2;
    assert NewList(s)[0..] == NewList(s) && TriedList(s)[0..] == TriedList(s);
    LoadNewEntries(h, s, 0, rest1);
    LoadTriedEntries(h, s, 0, rest2);
    LoadBucketsFrom(h, s, 0);
    ReloadedRandom(h, s);
    ReloadedPrunes(h, s);
    LoadTablesBy(h, Empty(s.key).(nNew := s.nNew, nTried := s.nTried), NEW_BUCKET_COUNT, true,
                 EntryToks(s.info, NewList(s)) + rest1,
                 Stage(s, n, 0, 0, 0).(idCount := 0), rest1, Stage(s, n, t, 0, 0), rest2, Reloaded(s));
  }

  lemma LoadSaved(h: Hasher, s: State)
    requires Inv(h, s) && Savable(s) && SlotsHashed(h, s)
    requires forall k :: k in s.newTab ==> s.newTab[k] >= 0
    ensures Load(h, Saved(s)) == Some(Reloaded(s))
  {
    hide InvBut, Savable, SlotsHashed, LoadTables, EntryToks, BucketsToks, Ids, Reloaded;
    CountsFit(h, s);
    Sizes(s);
    IdsKnown(s.info, s.idCount, false);
    IdsKnown(s.info, s.idCount, true);
    LoadSavedTables(h, s);
    assert Saved(s)[6..] == TableToks(s);
  }

  lemma {:induction false} EntryTokAt(info: map<int, Info>, ids: seq<int>, j: nat)
    requires (forall i :: 0 <= i < |ids| ==> ids[i] in info) && j < |ids|
    ensures |EntryToks(info, ids)| == |ids| && EntryToks(info, ids)[j] == EntryTok(Written(info[ids[j]]))
  {
    if |ids| > 1 {
      EntryTokAt(info, ids[1..], if j > 0 then j - 1 else 0);
    }
  }

  lemma EntryToksCount(info: map<int, Info>, ids: seq<int>)
    requires forall i :: 0 <= i < |ids| ==> ids[i] in info
    ensures |EntryToks(info, ids)| == |ids|
  {
    if ids != [] {
      EntryTokAt(info, ids, 0);
    }
  }

  /** The entries of the same kind with smaller ids. */
  ghost function Earlier(s: State, id: int): set<int>
    requires id in s.info
  {
    set i | i in s.info && i < id && s.info[i].inTried == s.info[id].inTried
  }

  lemma {:induction false} RankIsEarlier(s: State, id: int)
    requires Savable(s) && id in s.info
    ensures Rank(s.info, id, s.info[id].inTried) == |Earlier(s, id)|
  {
    hide Ids;
    IdsCount(s.info, id, s.info[id].inTried);
    assert ListedSet(s.info, id, s.info[id].inTried) == Earlier(s, id);
  }

  /**
   The file opens with the format version 1, the key size 32, the key, both counts and 1024 with bit 30 toggled. Then
   come the new and then the tried entries, each in the order of their ids, with address, source, last success and
   attempts.
   */
  lemma {:induction false} SavedLayout(h: Hasher, s: State, id: int)
    requires Inv(h, s) && id in s.info
    ensures s.idCount >= 0 && forall k :: k in s.newTab ==> s.newTab[k] >= 0
    ensures |Saved(s)| >= 6 + s.nNew + s.nTried
    ensures Saved(s)[..6] ==
      [ByteTok(1), ByteTok(32), KeyTok(s.key), IntTok(s.nNew), IntTok(s.nTried), IntTok(1073742848)]
    ensures var at := 6 + (if s.info[id].inTried then s.nNew else 0) + |Earlier(s, id)|;
      at < |Saved(s)|
      && Saved(s)[at] ==
         EntryTok(Record(s.info[id].addr, s.info[id].source, s.info[id].lastSuccess, s.info[id].attempts))
  {
    hide InvBut, Ids, Rank, EntryToks, BucketsToks;
    InvSavable(h, s);
    var tried := s.info[id].inTried;
    RankIndex(s.info, s.idCount, tried, id);
    RankIsEarlier(s, id);
    IdsKnown(s.info, s.idCount, false);
    IdsKnown(s.info, s.idCount, true);
    EntryToksCount(s.info, NewList(s));
    EntryToksCount(s.info, TriedList(s));
    EntryTokAt(s.info, Ids(s.info, s.idCount, tried), Rank(s.info, id, tried));
  }

  // ---------------------------------------------------------------- the invariant after a load

  lemma RenumberedIndex(h: Hasher, s: State, r: State)
    requires Savable(s) && IsRenumbering(s, r) && AddrOk(s.info, s.addr) && RandomOk(r.info, r.random)
    ensures IndexOk(r)
  {
    hide Ids, Rank, Renumbered, RandomOk, Savable;
    Sizes(s);
    forall j | j in r.info ensures var a := r.info[j].addr.service.ip; a in r.addr && r.addr[a] == j {
      var id := Surjective(s, j);
      assert Returns(s, r, id);
    }
    forall a | a in r.addr ensures r.addr[a] in r.info && r.info[r.addr[a]].addr.service.ip == a {
      assert Returns(s, r, s.addr[a]);
    }
  }

  lemma RenumberedTried(h: Hasher, s: State, r: State)
    requires Savable(s) && IsRenumbering(s, r) && TriedOk(h, s.key, s.info, s.triedTab)
    ensures TriedOk(h, r.key, r.info, r.triedTab)
  {
    hide Ids, Rank, Renumbered;
    forall k | k in r.triedTab ensures
      r.triedTab[k] in r.info && r.info[r.triedTab[k]].inTried && k == TriedSlot(h, r.key, r.info[r.triedTab[k]])
    {
      assert Returns(s, r, s.triedTab[k]);
    }
    forall j | j in r.info && r.info[j].inTried ensures
      && r.info[j].refCount == 0 && TriedSlot(h, r.key, r.info[j]) in r.triedTab
      && r.triedTab[TriedSlot(h, r.key, r.info[j])] == j
    {
      var id := Surjective(s, j);
      assert Returns(s, r, id);
    }
  }

  lemma SlotsRenumbered(s: State, r: State, id: int)
    requires Savable(s) && IsRenumbering(s, r) && id in s.info
    ensures SlotsOf(r.newTab, Renumbered(s, id)) == SlotsOf(s.newTab, id)
  {
    forall k | k in s.newTab && Renumbered(s, s.newTab[k]) == Renumbered(s, id) ensures s.newTab[k] == id {
      RenumberedInjective(s, s.newTab[k], id);
    }
    hide Ids, Rank, Renumbered, Returns;
  }

  lemma RenumberedNew(h: Hasher, s: State, r: State)
    requires Savable(s) && IsRenumbering(s, r) && NewOk(h, s.key, s.info, s.newTab, {})
    ensures NewOk(h, r.key, r.info, r.newTab, {})
  {
    hide NewSlotsOk, RefsOk, IsRenumbering, Savable;
    RenumberedSlots(h, s, r);
    RenumberedRefs(s, r);
  }

  lemma RenumberedSlots(h: Hasher, s: State, r: State)
    requires Savable(s) && IsRenumbering(s, r) && NewSlotsOk(h, s.key, s.info, s.newTab, {})
    ensures NewSlotsOk(h, r.key, r.info, r.newTab, {})
  {
    hide Ids, Rank, Renumbered, Savable;
    forall k | k in r.newTab ensures
      r.newTab[k] in r.info && !r.info[r.newTab[k]].inTried && k.bucket < NEW_BUCKET_COUNT
      && k == NewSlot(h, r.key, r.info[r.newTab[k]], k.bucket)
    {
      assert Returns(s, r, s.newTab[k]);
    }
  }

  lemma RenumberedRefs(s: State, r: State)
    requires Savable(s) && IsRenumbering(s, r) && RefsOk(s.info, s.newTab, {})
    ensures RefsOk(r.info, r.newTab, {})
  {
    hide Ids, Rank, Renumbered, Savable, SlotsOf;
    Sizes(s);
    forall j | j in r.info && !r.info[j].inTried ensures
      1 <= r.info[j].refCount <= NEW_BUCKETS_PER_ADDRESS && r.info[j].refCount == |SlotsOf(r.newTab, j)|
    {
      var id := Surjective(s, j);
      assert Returns(s, r, id);
      SlotsRenumbered(s, r, id);
    }
  }

  lemma RenumberedCounts(s: State, r: State)
    requires Savable(s) && IsRenumbering(s, r)
    ensures CountsOk(r, {}, 0)
  {
    Sizes(s);
    forall j | j in r.info ensures r.info[j].inTried <==> s.nNew <= j {
      var id := Surjective(s, j);
      assert Returns(s, r, id);
      RenumberedInjective(s, id, id);
    }
    hide Ids, Rank, Renumbered, Returns, Savable;
    hide Below;
    assert NewIds(r.info, {}) == Below(s.nNew);
    assert TriedIds(r.info) == Below(s.nNew + s.nTried) - Below(s.nNew);
  }

  /**
   Saving any manager that satisfies the invariant and loading it into a fresh one loses no entry and restores both
   tables, the counts and the reference counts under the new numbering. The invariant holds again, and so do the times
   that `Check_` demands if they held before.
   */
  lemma SaveLoad(h: Hasher, s: State)
    requires Inv(h, s)
    ensures Savable(s) && s.idCount >= 0 && (forall k :: k in s.newTab ==> s.newTab[k] >= 0)
    ensures Load(h, Saved(s)) == Some(Reloaded(s))
    ensures IsRenumbering(s, Reloaded(s))
    ensures Inv(h, Reloaded(s)) && (TimesOk(s.info) ==> CheckOk(h, Reloaded(s)))
  {
    InvSavable(h, s);
    InvSlotsHashed(h, s);
    SlotsKnown(s);
    hide Savable, SlotsHashed, IsRenumbering, Reloaded, Ids, AddrOk, TriedOk, NewOk, IdsOk;
    LoadSaved(h, s);
    ReloadedIsRenumbering(h, s);
    ReloadedRandom(h, s);
    var r := Reloaded(s);
    RenumberedIndex(h, s, r);
    RenumberedTried(h, s, r);
    RenumberedNew(h, s, r);
    RenumberedCounts(s, r);
    if TimesOk(s.info) {
      RenumberedTimes(s, r);
    }
  }

  lemma SlotsKnown(s: State)
    requires Savable(s)
    ensures s.idCount >= 0 && forall k :: k in s.newTab ==> s.newTab[k] >= 0
  {
  }

  lemma RenumberedTimes(s: State, r: State)
    requires Savable(s) && IsRenumbering(s, r) && TimesOk(s.info)
    ensures TimesOk(r.info)
  {
    hide Ids, Rank, Renumbered;
    forall j | j in r.info ensures
      r.info[j].lastTry >= 0 && r.info[j].lastSuccess >= 0 && (r.info[j].inTried ==> r.info[j].lastSuccess != 0)
    {
      var id := Surjective(s, j);
      assert Returns(s, r, id);
    }
  }
}
