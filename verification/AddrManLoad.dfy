/**
 Loading any stream whatever: exactly which ones leave a manager that meets the invariant,
 and which ones leave one that passes `Check_` as well.
 */
module AddrManLoad {
  import opened AddrManSpec
  import opened AddrManOps
  import opened AddrManDisk
  import opened Options
  import opened FiniteSets

  // ---------------------------------------------------------------- while loading

  ghost predicate RefsCounted(info: map<int, Info>, newTab: Table) {
    forall id :: id in info && !info[id].inTried ==>
      0 <= info[id].refCount <= NEW_BUCKETS_PER_ADDRESS && info[id].refCount == |SlotsOf(newTab, id)|
  }

  /** Every entry's address is on record, for one of the entries that have it. */
  ghost predicate AddrsRead(info: map<int, Info>, addr: map<NetAddr, int>) {
    && (forall a :: a in addr ==> addr[a] in info && info[addr[a]].addr.service.ip == a)
    && forall id :: id in info ==> info[id].addr.service.ip in addr
  }

  /** The first `n` ids are given out, those below `k` to new entries and the others to tried ones. */
  ghost predicate IdsGiven(info: map<int, Info>, k: nat, n: nat) {
    && (forall id :: id in info <==> 0 <= id < n)
    && forall id :: id in info ==> (info[id].inTried <==> id >= k) && info[id].lastTry == 0
  }

  ghost predicate Loading(h: Hasher, s: State, k: nat, n: nat) {
    && IdsGiven(s.info, k, n)
    && RandomOk(s.info, s.random)
    && TriedOk(h, s.key, s.info, s.triedTab)
    && NewSlotsOk(h, s.key, s.info, s.newTab, {})
    && RefsCounted(s.info, s.newTab)
    && AddrsRead(s.info, s.addr)
  }

  /** The counts and the key stay as the header gave them. */
  predicate SameHeader(s: State, t: State) {
    t.nNew == s.nNew && t.nTried == s.nTried && t.key == s.key
  }

  lemma EnterLoads(h: Hasher, s: State, n: nat, i: Info)
    requires Loading(h, s, n, n) && !i.inTried && i.refCount == 0 && i.lastTry == 0
    ensures Loading(h, Enter(s, n, i), n + 1, n + 1)
  {
    hide TriedOk, NewSlotsOk, RefsCounted, RandomOk;
    EnterRandom(s.info, s.random, n, i);
    EnterTables(h, s, n, i);
  }

  lemma EnterTables(h: Hasher, s: State, n: nat, i: Info)
    requires TriedOk(h, s.key, s.info, s.triedTab) && NewSlotsOk(h, s.key, s.info, s.newTab, {})
    requires RefsCounted(s.info, s.newTab) && n !in s.info && !i.inTried && i.refCount == 0
    ensures var t := Enter(s, n, i);
      && TriedOk(h, s.key, t.info, s.triedTab) && NewSlotsOk(h, s.key, t.info, s.newTab, {})
      && RefsCounted(t.info, s.newTab)
  {
    hide TriedSlot, NewSlot;
    assert forall k :: k in s.newTab ==> s.newTab[k] in s.info;
    assert SlotsOf(s.newTab, n) == {};
  }

  lemma InsertRefs(info: map<int, Info>, newTab: Table, id: int, u: Slot)
    requires RefsCounted(info, newTab) && id in info && !info[id].inTried && u !in newTab
    requires info[id].refCount < NEW_BUCKETS_PER_ADDRESS
    ensures RefsCounted(info[id := info[id].(refCount := info[id].refCount + 1)], newTab[u := id])
  {
    var next := newTab[u := id];
    assert SlotsOf(next, id) == SlotsOf(newTab, id) + {u};
    assert u !in SlotsOf(newTab, id);
    forall j | j != id
      ensures SlotsOf(next, j) == SlotsOf(newTab, j)
    {
    }
  }

  lemma InsertLoads(h: Hasher, s: State, id: int, b: nat, k: nat, n: nat)
    requires Loading(h, s, k, n) && id in s.info && !s.info[id].inTried && b < NEW_BUCKET_COUNT
    requires s.info[id].refCount < NEW_BUCKETS_PER_ADDRESS
    requires NewSlot(h, s.key, s.info[id], b) !in s.newTab
    ensures Loading(h, Insert(s, id, NewSlot(h, s.key, s.info[id], b)), k, n)
  {
    hide RefsCounted, TriedOk, NewSlotsOk, IdsGiven, RandomOk, AddrsRead, NewSlot;
    var u := NewSlot(h, s.key, s.info[id], b);
    InsertRefs(s.info, s.newTab, id, u);
    InsertIndex(s, id, u, k, n);
    InsertTried(h, s, id, u);
    InsertNew(h, s, id, b);
  }

  lemma InsertIndex(s: State, id: int, u: Slot, k: nat, n: nat)
    requires IdsGiven(s.info, k, n) && RandomOk(s.info, s.random) && AddrsRead(s.info, s.addr) && id in s.info
    ensures var r := Insert(s, id, u);
      IdsGiven(r.info, k, n) && RandomOk(r.info, r.random) && AddrsRead(r.info, r.addr)
  {
  }

  lemma InsertTried(h: Hasher, s: State, id: int, u: Slot)
    requires TriedOk(h, s.key, s.info, s.triedTab) && id in s.info && !s.info[id].inTried
    ensures TriedOk(h, s.key, Insert(s, id, u).info, s.triedTab)
  {
    hide TriedSlot;
  }

  lemma InsertNew(h: Hasher, s: State, id: int, b: nat)
    requires NewSlotsOk(h, s.key, s.info, s.newTab, {}) && id in s.info && !s.info[id].inTried && b < NEW_BUCKET_COUNT
    ensures var r := Insert(s, id, NewSlot(h, s.key, s.info[id], b)); NewSlotsOk(h, s.key, r.info, r.newTab, {})
  {
  }

  lemma EnterTriedLoads(h: Hasher, s: State, i: Info, k: nat)
    requires s.idCount >= k && Loading(h, s, k, s.idCount) && i.refCount == 0 && i.lastTry == 0
    requires TriedSlot(h, s.key, i) !in s.triedTab
    ensures Loading(h, EnterTried(s, i, TriedSlot(h, s.key, i)), k, s.idCount + 1)
  {
    hide NewSlot, RefsCounted, RandomOk, TriedOk;
    var t := EnterTried(s, i, TriedSlot(h, s.key, i));
    assert forall j :: j in s.newTab ==> s.newTab[j] in s.info && s.newTab[j] != s.idCount;
    TriedRefs(s.info, s.newTab, s.idCount, t.info[s.idCount]);
    EnterTriedTable(h, s, i);
    EnterRandom(s.info, s.random, s.idCount, i.(inTried := true));
  }

  lemma EnterRandom(info: map<int, Info>, random: seq<int>, id: int, i: Info)
    requires RandomOk(info, random) && id !in info
    ensures RandomOk(info[id := i.(randomPos := |random|)], random + [id])
  {
  }

  lemma EnterTriedTable(h: Hasher, s: State, i: Info)
    requires TriedOk(h, s.key, s.info, s.triedTab) && s.idCount !in s.info && s.idCount >= 0
    requires i.refCount == 0 && TriedSlot(h, s.key, i) !in s.triedTab
    ensures var t := EnterTried(s, i, TriedSlot(h, s.key, i)); TriedOk(h, t.key, t.info, t.triedTab)
  {
    var t := EnterTried(s, i, TriedSlot(h, s.key, i));
    var j := t.info[s.idCount];
    assert TriedSlot(h, s.key, j) == TriedSlot(h, s.key, i);
    hide TriedSlot;
    assert forall id :: id in s.info ==> t.info[id] == s.info[id];
  }

  lemma TriedRefs(info: map<int, Info>, newTab: Table, id: int, i: Info)
    requires RefsCounted(info, newTab) && id !in info && i.inTried
    ensures RefsCounted(info[id := i], newTab)
  {
  }

  // ---------------------------------------------------------------- the stages

  lemma {:induction false} LoadNewLoads(h: Hasher, s: State, n: nat, toks: seq<Token>, usable: bool)
    requires Loading(h, s, n, n) && n <= s.nNew
    ensures var r := LoadNew(h, s, n, toks, usable);
      r.Some? ==> Loading(h, r.value.0, s.nNew, s.nNew) && SameHeader(s, r.value.0)
    decreases s.nNew - n
  {
    hide Loading;
    if n < s.nNew && toks != [] && toks[0].EntryTok? {
      var i := ReadBack(toks[0].e);
      var t := Enter(s, n, i);
      EnterLoads(h, s, n, i);
      if OwnNewSlot(h, t.key, t.info[n]) !in t.newTab {
        InsertLoads(h, t, n, NewBucket(h, t.key, t.info[n], t.info[n].source), n + 1, n + 1);
      }
      LoadNewLoads(h, if usable then t else Reference(h, t, n), n + 1, toks[1..], usable);
    }
  }

  lemma {:induction false} LoadTriedLoads(h: Hasher, s: State, k: nat, n: nat, lost: nat, toks: seq<Token>)
    requires s.idCount >= k && Loading(h, s, k, s.idCount)
    requires n <= s.nTried && s.idCount - k + lost == n
    ensures var r := LoadTried(h, s, n, lost, toks);
      r.Some? ==>
        var t := r.value.0;
        t.idCount >= k && Loading(h, t, k, t.idCount) && t.nTried == t.idCount - k && t.nNew == s.nNew && t.key == s.key
    decreases s.nTried - n
  {
    hide Loading;
    if n >= s.nTried {
      RecountLoads(h, s, k, s.idCount, s.nTried - lost);
    } else if toks != [] && toks[0].EntryTok? {
      var i := ReadBack(toks[0].e);
      var u := TriedSlot(h, s.key, i);
      if u in s.triedTab {
        LoadTriedLoads(h, s, k, n + 1, lost + 1, toks[1..]);
      } else {
        EnterTriedLoads(h, s, i, k);
        LoadTriedLoads(h, EnterTried(s, i, u), k, n + 1, lost, toks[1..]);
      }
    }
  }

  lemma RecountLoads(h: Hasher, s: State, k: nat, n: nat, nTried: int)
    requires Loading(h, s, k, n)
    ensures Loading(h, s.(nTried := nTried), k, n)
  {
  }

  lemma LoadIndexLoads(h: Hasher, s: State, b: nat, index: int, usable: bool, n: nat)
    requires s.nNew >= 0 && Loading(h, s, s.nNew, n) && (usable ==> b < NEW_BUCKET_COUNT)
    ensures var r := LoadIndex(h, s, b, index, usable);
      Loading(h, r, s.nNew, n) && SameHeader(s, r) && r.idCount == s.idCount
  {
    if 0 <= index < s.nNew && index in s.info && usable {
      assert !s.info[index].inTried;
      hide Loading;
      var u := NewSlot(h, s.key, s.info[index], b);
      if u !in s.newTab && s.info[index].refCount < NEW_BUCKETS_PER_ADDRESS {
        InsertLoads(h, s, index, b, s.nNew, n);
      }
    }
  }

  lemma {:induction false} LoadBucketLoads(h: Hasher, s: State, b: nat, left: int, toks: seq<Token>, usable: bool,
      n: nat)
    requires s.nNew >= 0 && Loading(h, s, s.nNew, n) && (usable ==> b < NEW_BUCKET_COUNT)
    ensures var r := LoadBucket(h, s, b, left, toks, usable);
      r.Some? ==> Loading(h, r.value.0, s.nNew, n) && SameHeader(s, r.value.0) && r.value.0.idCount == s.idCount
    decreases left
  {
    hide Loading, LoadIndex;
    if left > 0 && toks != [] && toks[0].IntTok? {
      LoadIndexLoads(h, s, b, toks[0].i, usable, n);
      LoadBucketLoads(h, LoadIndex(h, s, b, toks[0].i, usable), b, left - 1, toks[1..], usable, n);
    }
  }

  lemma {:induction false} LoadBucketsLoads(h: Hasher, s: State, b: nat, count: int, toks: seq<Token>, usable: bool,
      n: nat)
    requires s.nNew >= 0 && Loading(h, s, s.nNew, n) && (usable ==> count == NEW_BUCKET_COUNT)
    ensures var r := LoadBuckets(h, s, b, count, toks, usable);
      r.Some? ==> Loading(h, r.value.0, s.nNew, n) && SameHeader(s, r.value.0) && r.value.0.idCount == s.idCount
    decreases count - b
  {
    hide Loading, LoadBucket;
    if b < count && toks != [] && toks[0].IntTok? {
      LoadBucketLoads(h, s, b, toks[0].i, toks[1..], usable, n);
      var r := LoadBucket(h, s, b, toks[0].i, toks[1..], usable);
      if r.Some? {
        LoadBucketsLoads(h, r.value.0, b + 1, count, r.value.1, usable, n);
      }
    }
  }

  // ---------------------------------------------------------------- pruning

  predicate Unreferenced(i: Info) {
    !i.inTried && i.refCount == 0
  }

  ghost function Doomed(info: map<int, Info>, n: nat, upTo: nat): set<int> {
    set id | id in info && n <= id < upTo && Unreferenced(info[id])
  }

  ghost function AddrsOf(info: map<int, Info>, ids: set<int>): set<NetAddr>
    requires ids <= info.Keys
  {
    set id | id in ids :: info[id].addr.service.ip
  }

  /** Pruning deletes the entries without a reference, and whatever is on record for their addresses. */
  ghost predicate Pruned(s: State, r: State, gone: set<int>)
    requires gone <= s.info.Keys
  {
    && r.info.Keys == s.info.Keys - gone
    && (forall id :: id in r.info ==> EqualButPos(r.info[id], s.info[id]))
    && r.addr == s.addr - AddrsOf(s.info, gone)
    && r.nNew == s.nNew - |gone|
    && r.newTab == s.newTab && r.triedTab == s.triedTab && r.nTried == s.nTried
    && r.idCount == s.idCount && r.key == s.key
    && RandomOk(r.info, r.random)
  }

  lemma DeletePrunes(s: State, id: int)
    requires RandomOk(s.info, s.random) && id in s.info
    ensures Pruned(s, Delete(s, id), {id})
  {
    DeleteEntries(s, id);
    DeleteRandom(s, id);
    hide RandomOk;
    assert AddrsOf(s.info, {id}) == {s.info[id].addr.service.ip};
  }

  lemma PrunedTwice(s: State, t: State, r: State, a: set<int>, b: set<int>)
    requires a <= s.info.Keys && Pruned(s, t, a) && b <= t.info.Keys && Pruned(t, r, b)
    ensures a + b <= s.info.Keys && Pruned(s, r, a + b)
  {
    hide RandomOk, AddrsOf;
    assert a * b == {};
    PrunedAddrs(s, t, a, b);
    assert r.addr == s.addr - AddrsOf(s.info, a + b);
  }

  lemma PrunedAddrs(s: State, t: State, a: set<int>, b: set<int>)
    requires a <= s.info.Keys && Pruned(s, t, a) && b <= t.info.Keys
    ensures a + b <= s.info.Keys && AddrsOf(s.info, a + b) == AddrsOf(s.info, a) + AddrsOf(t.info, b)
  {
    hide RandomOk;
    assert forall id :: id in b ==> EqualButPos(t.info[id], s.info[id]);
  }

  lemma PrunedNone(s: State)
    requires RandomOk(s.info, s.random)
    ensures Pruned(s, s, {})
  {
    hide RandomOk;
    assert AddrsOf(s.info, {}) == {};
    assert s.addr - {} == s.addr;
  }

  lemma {:induction false} PruneMeaning(s: State, n: nat, upTo: nat)
    requires RandomOk(s.info, s.random) && n <= upTo
    ensures Pruned(s, Prune(s, n, upTo), Doomed(s.info, n, upTo))
    decreases upTo - n
  {
    hide RandomOk, Delete, Pruned;
    if n == upTo {
      assert Doomed(s.info, n, upTo) == {};
      PrunedNone(s);
    } else if n in s.info && Unreferenced(s.info[n]) {
      DeletePrunes(s, n);
      DeleteRandom(s, n);
      var t := Delete(s, n);
      DoomedNext(s, t, n, upTo);
      PruneMeaning(t, n + 1, upTo);
      PrunedTwice(s, t, Prune(t, n + 1, upTo), {n}, Doomed(t.info, n + 1, upTo));
    } else {
      PruneMeaning(s, n + 1, upTo);
      assert Doomed(s.info, n, upTo) == Doomed(s.info, n + 1, upTo);
    }
  }

  lemma DoomedNext(s: State, t: State, n: nat, upTo: nat)
    requires n in s.info && n < upTo && Unreferenced(s.info[n]) && Pruned(s, t, {n})
    ensures Doomed(s.info, n, upTo) == {n} + Doomed(t.info, n + 1, upTo)
  {
    hide RandomOk;
  }

  // ---------------------------------------------------------------- which streams are good

  /** The manager as the stream gives it, before the pruning. */
  ghost function Unpruned(h: Hasher, s: State, count: int, usable: bool, toks: seq<Token>): Option<State> {
    match LoadEntries(h, s, usable, toks)
    case None => None
    case Some((u, toks')) =>
      match LoadBuckets(h, u, 0, count, toks', usable)
      case None => None
      case Some((v, _)) => Some(v)
  }

  /** Two entries with the same address are there only if neither has a slot in either table. */
  ghost predicate NoTwins(info: map<int, Info>) {
    forall i, j :: i in info && j in info && i != j && info[i].addr.service.ip == info[j].addr.service.ip ==>
      Unreferenced(info[i]) && Unreferenced(info[j])
  }

  /** A success is on record for every tried entry, and no negative time for one that has a slot. */
  ghost predicate TimesRead(info: map<int, Info>) {
    forall id :: id in info && !Unreferenced(info[id]) ==>
      info[id].lastSuccess >= 0 && (info[id].inTried ==> info[id].lastSuccess != 0)
  }

  lemma PrunedAddr(s: State, r: State, gone: set<int>)
    requires gone == (set id | id in s.info && Unreferenced(s.info[id])) && Pruned(s, r, gone)
      && AddrsRead(s.info, s.addr)
    ensures AddrOk(r.info, r.addr) <==> NoTwins(s.info)
  {
    hide RandomOk;
    var away := AddrsOf(s.info, gone);
    assert forall id :: id in r.info ==> r.info[id].addr == s.info[id].addr;
    if NoTwins(s.info) {
      forall id | id in r.info
        ensures var a := r.info[id].addr.service.ip; a in r.addr && r.addr[a] == id
      {
        var a := s.info[id].addr.service.ip;
        assert s.addr[a] == id;
        assert forall j :: j in gone ==> s.info[j].addr.service.ip != a;
      }
      forall a | a in r.addr
        ensures r.addr[a] in r.info && r.info[r.addr[a]].addr.service.ip == a
      {
        assert s.info[s.addr[a]].addr.service.ip == a;
        if s.addr[a] in gone {
          AddrOfMember(s.info, gone, s.addr[a]);
        }
      }
    } else {
      var i, j :| i in s.info && j in s.info && i != j && s.info[i].addr.service.ip == s.info[j].addr.service.ip
        && !(Unreferenced(s.info[i]) && Unreferenced(s.info[j]));
      TwinsClash(s, r, gone, i, j);
      TwinsClash(s, r, gone, j, i);
    }
  }

  lemma AddrOfMember(info: map<int, Info>, ids: set<int>, id: int)
    requires ids <= info.Keys && id in ids
    ensures info[id].addr.service.ip in AddrsOf(info, ids)
  {
  }

  lemma TwinsClash(s: State, r: State, gone: set<int>, i: int, j: int)
    requires gone == (set id | id in s.info && Unreferenced(s.info[id])) && Pruned(s, r, gone)
    requires i in s.info && j in s.info && i != j && s.info[i].addr.service.ip == s.info[j].addr.service.ip
    ensures !Unreferenced(s.info[i]) ==> !AddrOk(r.info, r.addr)
  {
    hide RandomOk;
    if !Unreferenced(s.info[i]) {
      assert i in r.info && EqualButPos(r.info[i], s.info[i]);
      if Unreferenced(s.info[j]) {
        assert j in gone && s.info[j].addr.service.ip in AddrsOf(s.info, gone);
      } else {
        assert j in r.info && EqualButPos(r.info[j], s.info[j]);
      }
    }
  }

  lemma {:induction false} GivenSizes(info: map<int, Info>, k: nat, n: nat)
    requires IdsGiven(info, k, n) && k <= n
    ensures |TriedIds(info)| == n - k && |NewIds(info, {})| == k
  {
    hide Below;
    assert NewIds(info, {}) == Below(k);
    assert info.Keys == Below(n);
    assert info.Keys == TriedIds(info) + NewIds(info, {});
  }

  lemma PrunedTried(h: Hasher, s: State, r: State, gone: set<int>)
    requires gone == (set id | id in s.info && Unreferenced(s.info[id])) && Pruned(s, r, gone)
    requires TriedOk(h, s.key, s.info, s.triedTab)
    ensures TriedOk(h, r.key, r.info, r.triedTab)
  {
    assert forall id :: id in r.info ==> EqualButPos(r.info[id], s.info[id]);
    assert forall id :: id in r.info ==> TriedSlot(h, r.key, r.info[id]) == TriedSlot(h, s.key, s.info[id]);
    hide RandomOk, TriedSlot, AddrsOf;
    assert forall id :: id in s.info && s.info[id].inTried ==> id in r.info;
  }

  lemma HoldersStay(s: State, r: State, gone: set<int>)
    requires gone == (set id | id in s.info && Unreferenced(s.info[id])) && Pruned(s, r, gone)
    requires RefsCounted(s.info, s.newTab) && forall u :: u in s.newTab ==> s.newTab[u] in s.info
    ensures forall u :: u in s.newTab ==> s.newTab[u] in r.info
  {
    hide RandomOk, AddrsOf;
    forall u | u in s.newTab
      ensures s.newTab[u] in r.info
    {
      assert u in SlotsOf(s.newTab, s.newTab[u]);
    }
  }

  lemma PrunedNew(h: Hasher, s: State, r: State, gone: set<int>)
    requires gone == (set id | id in s.info && Unreferenced(s.info[id])) && Pruned(s, r, gone)
    requires NewSlotsOk(h, s.key, s.info, s.newTab, {}) && RefsCounted(s.info, s.newTab)
    ensures NewOk(h, r.key, r.info, r.newTab, {})
  {
    HoldersStay(s, r, gone);
    assert forall id :: id in r.info ==> EqualButPos(r.info[id], s.info[id]);
    assert forall id, b: nat :: id in r.info ==> NewSlot(h, r.key, r.info[id], b) == NewSlot(h, s.key, s.info[id], b);
    hide RandomOk, NewSlot, AddrsOf, SlotsOf;
  }

  lemma PrunedCounts(s: State, r: State, gone: set<int>)
    requires gone == (set id | id in s.info && Unreferenced(s.info[id])) && Pruned(s, r, gone)
    ensures |TriedIds(r.info)| == |TriedIds(s.info)| && |NewIds(r.info, {})| == |NewIds(s.info, {})| - |gone|
  {
    hide RandomOk;
    assert forall id :: id in r.info ==> EqualButPos(r.info[id], s.info[id]);
    assert TriedIds(r.info) == TriedIds(s.info);
    assert NewIds(s.info, {}) == NewIds(r.info, {}) + gone;
  }

  lemma PrunedTimes(s: State, r: State, gone: set<int>)
    requires gone == (set id | id in s.info && Unreferenced(s.info[id])) && Pruned(s, r, gone)
    requires forall id :: id in s.info ==> s.info[id].lastTry == 0
    ensures TimesOk(r.info) <==> TimesRead(s.info)
  {
    hide RandomOk;
    assert forall id :: id in r.info ==> EqualButPos(r.info[id], s.info[id]);
    assert forall id :: id in s.info ==> (id in r.info <==> !Unreferenced(s.info[id]));
  }

  lemma LoadedInv(h: Hasher, v: State, r: State, k: nat, gone: set<int>)
    requires v.idCount >= k && Loading(h, v, k, v.idCount) && v.nNew == k && v.nTried == v.idCount - k
    requires gone == (set id | id in v.info && Unreferenced(v.info[id])) && Pruned(v, r, gone)
    ensures Inv(h, r) <==> NoTwins(v.info)
  {
    hide RandomOk, TriedOk, NewSlotsOk, RefsCounted, NoTwins;
    GivenSizes(v.info, k, v.idCount);
    PrunedTried(h, v, r, gone);
    PrunedNew(h, v, r, gone);
    PrunedCounts(v, r, gone);
    PrunedAddr(v, r, gone);
    hide NewOk, AddrOk, AddrsRead;
  }

  /** What was loaded under a header without negative counts. */
  lemma LoadedChecks(h: Hasher, v: State, k: nat)
    requires v.idCount >= k && Loading(h, v, k, v.idCount) && v.nNew == k && v.nTried == v.idCount - k
    requires RandomOk(v.info, v.random)
    ensures var r := Prune(v, 0, k);
      && (Inv(h, r) <==> NoTwins(v.info))
      && (CheckOk(h, r) <==> NoTwins(v.info) && TimesRead(v.info))
  {
    hide RandomOk, TriedOk, NewSlotsOk, RefsCounted, NoTwins, TimesRead, TimesOk, Prune, InvBut, Pruned, AddrsRead;
    PruneMeaning(v, 0, k);
    var r := Prune(v, 0, k);
    var gone := Doomed(v.info, 0, k);
    assert gone == set id | id in v.info && Unreferenced(v.info[id]);
    LoadedInv(h, v, r, k, gone);
    PrunedTimes(v, r, gone);
  }

  // ---------------------------------------------------------------- negative counts

  lemma {:induction false} LoadNewNothing(h: Hasher, s: State, toks: seq<Token>, usable: bool)
    requires s.nNew <= 0
    ensures LoadNew(h, s, 0, toks, usable) == Some((s, toks))
  {
  }

  /** Tried entries are numbered from the first id on. */
  lemma {:induction false} LoadTriedNumbers(h: Hasher, s: State, n: nat, lost: nat, toks: seq<Token>, first: int)
    requires s.idCount == first || (first < s.idCount && first in s.info)
    ensures var r := LoadTried(h, s, n, lost, toks);
      r.Some? ==> r.value.0.nNew == s.nNew && (r.value.0.idCount == first || first in r.value.0.info)
    decreases s.nTried - n
  {
    if n < s.nTried && toks != [] && toks[0].EntryTok? {
      var i := ReadBack(toks[0].e);
      var k := TriedSlot(h, s.key, i);
      hide TriedSlot;
      if k in s.triedTab {
        LoadTriedNumbers(h, s, n + 1, lost + 1, toks[1..], first);
      } else {
        LoadTriedNumbers(h, EnterTried(s, i, k), n + 1, lost, toks[1..], first);
      }
    }
  }

  lemma {:induction false} LoadBucketKeeps(h: Hasher, s: State, b: nat, left: int, toks: seq<Token>, usable: bool)
    ensures var r := LoadBucket(h, s, b, left, toks, usable);
      r.Some? ==> SameHeader(s, r.value.0) && r.value.0.idCount == s.idCount && r.value.0.info.Keys == s.info.Keys
    decreases left
  {
    if left > 0 && toks != [] && toks[0].IntTok? {
      var t := LoadIndex(h, s, b, toks[0].i, usable);
      hide LoadIndex, NewSlot;
      assert SameHeader(s, t) && t.idCount == s.idCount && t.info.Keys == s.info.Keys by {
        LoadIndexKeeps(h, s, b, toks[0].i, usable);
      }
      LoadBucketKeeps(h, t, b, left - 1, toks[1..], usable);
    }
  }

  lemma LoadIndexKeeps(h: Hasher, s: State, b: nat, index: int, usable: bool)
    ensures var t := LoadIndex(h, s, b, index, usable);
      SameHeader(s, t) && t.idCount == s.idCount && t.info.Keys == s.info.Keys
  {
    hide NewSlot;
  }

  lemma {:induction false} LoadBucketsKeeps(h: Hasher, s: State, b: nat, count: int, toks: seq<Token>, usable: bool)
    ensures var r := LoadBuckets(h, s, b, count, toks, usable);
      r.Some? ==> SameHeader(s, r.value.0) && r.value.0.idCount == s.idCount && r.value.0.info.Keys == s.info.Keys
    decreases count - b
  {
    hide LoadBucket;
    if b < count && toks != [] && toks[0].IntTok? {
      LoadBucketKeeps(h, s, b, toks[0].i, toks[1..], usable);
      var r := LoadBucket(h, s, b, toks[0].i, toks[1..], usable);
      if r.Some? {
        LoadBucketsKeeps(h, r.value.0, b + 1, count, r.value.1, usable);
      }
    }
  }

  lemma BadIds(h: Hasher, r: State, id: int)
    requires id < 0 && (id in r.info || r.idCount == id)
    ensures !Inv(h, r)
  {
  }

  lemma BadCount(h: Hasher, r: State)
    requires r.nTried < 0
    ensures !Inv(h, r)
  {
  }

  /** With a negative number of new entries, ids start below zero. */
  lemma {:induction false} NegativeNew(h: Hasher, s: State, count: int, usable: bool, toks: seq<Token>)
    requires s.info == map[] && s.random == [] && s.nNew < 0
    ensures var r := LoadTables(h, s, count, usable, toks); r.Some? ==> !Inv(h, r.value)
  {
    hide LoadTried, LoadBuckets, LoadNew, InvBut, RandomOk;
    LoadNewNothing(h, s, toks, usable);
    var t := s.(idCount := s.nNew);
    LoadTriedNumbers(h, t, 0, 0, toks, s.nNew);
    var e := LoadEntries(h, s, usable, toks);
    if e.Some? {
      LoadBucketsKeeps(h, e.value.0, 0, count, e.value.1, usable);
      var r := LoadTables(h, s, count, usable, toks);
      if r.Some? {
        BadIds(h, r.value, s.nNew);
      }
    }
  }

  /** A manager as `Clear` and the header leave it. */
  function Cleared(key: Key, nNew: int, nTried: int): State {
    Empty(key).(nNew := nNew, nTried := nTried)
  }

  lemma ClearedLoads(h: Hasher, key: Key, nNew: int, nTried: int)
    ensures Loading(h, Cleared(key, nNew, nTried), 0, 0)
  {
  }

  lemma {:induction false} NegativeTried(h: Hasher, key: Key, nNew: nat, nTried: int, count: int, usable: bool,
      toks: seq<Token>)
    requires nTried < 0
    ensures var r := LoadTables(h, Cleared(key, nNew, nTried), count, usable, toks); r.Some? ==> !Inv(h, r.value)
  {
    var s := Cleared(key, nNew, nTried);
    hide LoadBuckets, LoadNew, InvBut, RandomOk, Loading, Pruned;
    ClearedLoads(h, key, nNew, nTried);
    LoadNewLoads(h, s, 0, toks, usable);
    var e := LoadEntries(h, s, usable, toks);
    LoadEntriesGrows(h, s, usable, toks);
    if e.Some? {
      assert e.value.0.nTried == nTried;
      hide LoadTried, LoadEntries;
      LoadBucketsKeeps(h, e.value.0, 0, count, e.value.1, usable);
      LoadBucketsGrows(h, e.value.0, 0, count, e.value.1, usable, e.value.0.idCount);
      var b := LoadBuckets(h, e.value.0, 0, count, e.value.1, usable);
      if b.Some? {
        PruneCount(b.value.0, nNew);
        BadCount(h, Prune(b.value.0, 0, nNew));
      }
    }
  }

  lemma {:induction false} PruneCount(s: State, upTo: nat)
    requires RandomOk(s.info, s.random)
    ensures Prune(s, 0, upTo).nTried == s.nTried
  {
    hide RandomOk;
    PruneMeaning(s, 0, upTo);
  }

  lemma LoadingRandom(h: Hasher, s: State, k: nat, n: nat)
    requires Loading(h, s, k, n)
    ensures RandomOk(s.info, s.random)
  {
  }

  /** A stream whose counts are not negative. */
  lemma {:induction false} GoodCounts(h: Hasher, key: Key, nNew: nat, nTried: nat, count: int, usable: bool,
      toks: seq<Token>)
    requires usable ==> count == NEW_BUCKET_COUNT
    ensures var s := Cleared(key, nNew, nTried);
      var r := LoadTables(h, s, count, usable, toks);
      r.Some? ==>
        && Unpruned(h, s, count, usable, toks).Some?
        && var v := Unpruned(h, s, count, usable, toks).value;
           && (Inv(h, r.value) <==> NoTwins(v.info))
           && (CheckOk(h, r.value) <==> NoTwins(v.info) && TimesRead(v.info))
  {
    hide LoadBuckets, LoadNew, LoadTried, InvBut, RandomOk, Loading, NoTwins, TimesRead, TimesOk;
    var s := Cleared(key, nNew, nTried);
    ClearedLoads(h, key, nNew, nTried);
    LoadNewLoads(h, s, 0, toks, usable);
    var a := LoadNew(h, s, 0, toks, usable);
    if a.Some? {
      var t := a.value.0.(idCount := nNew);
      Renumber(h, a.value.0, nNew, nNew, nNew);
      LoadTriedLoads(h, t, nNew, 0, 0, a.value.1);
      var e := LoadTried(h, t, 0, 0, a.value.1);
      if e.Some? {
        LoadBucketsLoads(h, e.value.0, 0, count, e.value.1, usable, e.value.0.idCount);
        var b := LoadBuckets(h, e.value.0, 0, count, e.value.1, usable);
        if b.Some? {
          LoadingRandom(h, b.value.0, nNew, b.value.0.idCount);
          LoadedChecks(h, b.value.0, nNew);
        }
      }
    }
  }

  lemma Renumber(h: Hasher, s: State, k: nat, n: nat, idCount: int)
    requires Loading(h, s, k, n)
    ensures Loading(h, s.(idCount := idCount), k, n)
  {
  }

  /** The number of buckets a header announces. */
  function BucketCount(toks: seq<Token>): int
    requires |toks| >= 6 && toks[0].ByteTok? && toks[5].IntTok?
  {
    if toks[0].b != 0 then Xor30(toks[5].i) else toks[5].i
  }

  /** What a stream that loads gives before the pruning. */
  ghost function Contents(h: Hasher, toks: seq<Token>): Option<State>
    requires Load(h, toks).Some?
  {
    var count := BucketCount(toks);
    Unpruned(h, Cleared(toks[2].k, toks[3].i, toks[4].i), count, toks[0].b == 1 && count == NEW_BUCKET_COUNT, toks[6..])
  }

  /**
   A stream that loads leaves a manager that meets the invariant exactly if neither count is negative and no entry
   that has a slot shares its address with another one, and one that has the times `Check_` demands exactly if the
   stream has.
   */
  lemma {:induction false} LoadChecks(h: Hasher, toks: seq<Token>)
    requires Load(h, toks).Some?
    ensures var r := Load(h, toks).value;
      && (toks[3].i < 0 || toks[4].i < 0 ==> !Inv(h, r))
      && (toks[3].i >= 0 && toks[4].i >= 0 ==>
            && Contents(h, toks).Some?
            && var v := Contents(h, toks).value;
               && (Inv(h, r) <==> NoTwins(v.info))
               && (CheckOk(h, r) <==> NoTwins(v.info) && TimesRead(v.info)))
  {
    hide LoadTables, Unpruned, InvBut, NoTwins, TimesRead, TimesOk;
    var count := BucketCount(toks);
    var usable := toks[0].b == 1 && count == NEW_BUCKET_COUNT;
    if toks[3].i < 0 {
      NegativeNew(h, Cleared(toks[2].k, toks[3].i, toks[4].i), count, usable, toks[6..]);
    } else if toks[4].i < 0 {
      NegativeTried(h, toks[2].k, toks[3].i, toks[4].i, count, usable, toks[6..]);
    } else {
      GoodCounts(h, toks[2].k, toks[3].i, toks[4].i, count, usable, toks[6..]);
    }
  }

  // ---------------------------------------------------------------- conditions on the stream itself

  /** Each entry is as one of the first `m` tokens has it, and no two come from the same one. */
  ghost predicate Sourced(info: map<int, Info>, toks: seq<Token>, src: map<int, nat>, m: nat) {
    && m <= |toks| && src.Keys == info.Keys
    && (forall id :: id in info ==> src[id] < m && toks[src[id]].EntryTok? && As(info[id], toks[src[id]].e))
    && (forall i, j :: i in info && j in info && src[i] == src[j] ==> i == j)
  }

  predicate As(i: Info, e: Record) {
    i.addr == e.addr && i.lastSuccess == e.lastSuccess
  }

  lemma SourcedNext(info: map<int, Info>, toks: seq<Token>, src: map<int, nat>, m: nat, id: int, i: Info)
    requires Sourced(info, toks, src, m) && m < |toks| && toks[m].EntryTok? && As(i, toks[m].e) && id !in info
    ensures Sourced(info[id := i], toks, src[id := m], m + 1)
  {
    hide As;
  }

  lemma SourcedMore(info: map<int, Info>, toks: seq<Token>, src: map<int, nat>, m: nat)
    requires Sourced(info, toks, src, m) && m < |toks|
    ensures Sourced(info, toks, src, m + 1)
  {
    hide As;
  }

  lemma SourcedSame(info: map<int, Info>, toks: seq<Token>, src: map<int, nat>, m: nat, id: int, refs: int)
    requires Sourced(info, toks, src, m) && id in info
    ensures Sourced(info[id := info[id].(refCount := refs)], toks, src, m)
  {
  }

  lemma {:induction false} LoadNewSourced(
      h: Hasher, s: State, n: nat, toks: seq<Token>, usable: bool, src: map<int, nat>)
    returns (out: map<int, nat>)
    requires n <= s.nNew && Sourced(s.info, toks, src, n) && forall id :: id in s.info ==> id < n
    ensures var r := LoadNew(h, s, n, toks[n..], usable);
      r.Some? ==> s.nNew <= |toks| && r.value.1 == toks[s.nNew..] && Sourced(r.value.0.info, toks, out, s.nNew)
    decreases s.nNew - n
  {
    hide Sourced, NewSlot, NewBucket;
    out := src;
    SourcedFits(s.info, toks, src, n);
    if n < s.nNew && toks[n..] != [] && toks[n].EntryTok? {
      var i := ReadBack(toks[n].e);
      var t := Enter(s, n, i);
      SourcedNext(s.info, toks, src, n, n, t.info[n]);
      SourcedSame(t.info, toks, src[n := n], n + 1, n, t.info[n].refCount + 1);
      assert toks[n..][0] == toks[n] && toks[n..][1..] == toks[n + 1..];
      out := LoadNewSourced(h, if usable then t else Reference(h, t, n), n + 1, toks, usable, src[n := n]);
    }
  }

  lemma SourcedFits(info: map<int, Info>, toks: seq<Token>, src: map<int, nat>, m: nat)
    requires Sourced(info, toks, src, m)
    ensures m <= |toks|
  {
  }

  lemma {:induction false} LoadTriedSourced(
      h: Hasher, s: State, k: nat, n: nat, lost: nat, toks: seq<Token>, src: map<int, nat>)
    returns (out: map<int, nat>)
    requires n <= s.nTried && Sourced(s.info, toks, src, k + n) && forall id :: id in s.info ==> id < s.idCount
    ensures var r := LoadTried(h, s, n, lost, toks[k + n..]);
      r.Some? ==> k + s.nTried <= |toks| && Sourced(r.value.0.info, toks, out, k + s.nTried)
    decreases s.nTried - n
  {
    hide Sourced, TriedSlot;
    out := src;
    SourcedFits(s.info, toks, src, k + n);
    if n < s.nTried && toks[k + n..] != [] && toks[k + n].EntryTok? {
      var i := ReadBack(toks[k + n].e);
      var u := TriedSlot(h, s.key, i);
      assert toks[k + n..][0] == toks[k + n] && toks[k + n..][1..] == toks[k + n + 1..];
      if u in s.triedTab {
        SourcedMore(s.info, toks, src, k + n);
        out := LoadTriedSourced(h, s, k, n + 1, lost + 1, toks, src);
      } else {
        var t := EnterTried(s, i, u);
        SourcedNext(s.info, toks, src, k + n, s.idCount, t.info[s.idCount]);
        out := LoadTriedSourced(h, t, k, n + 1, lost, toks, src[s.idCount := k + n]);
      }
    }
  }

  lemma {:induction false} LoadBucketSourced(
      h: Hasher, s: State, b: nat, left: int, rest: seq<Token>, usable: bool,
      toks: seq<Token>, src: map<int, nat>, m: nat)
    requires Sourced(s.info, toks, src, m)
    ensures var r := LoadBucket(h, s, b, left, rest, usable); r.Some? ==> Sourced(r.value.0.info, toks, src, m)
    decreases left
  {
    hide Sourced, NewSlot;
    if left > 0 && rest != [] && rest[0].IntTok? {
      var i := rest[0].i;
      if i in s.info {
        SourcedSame(s.info, toks, src, m, i, s.info[i].refCount + 1);
      }
      LoadBucketSourced(h, LoadIndex(h, s, b, i, usable), b, left - 1, rest[1..], usable, toks, src, m);
    }
  }

  lemma {:induction false} LoadBucketsSourced(
      h: Hasher, s: State, b: nat, count: int, rest: seq<Token>, usable: bool,
      toks: seq<Token>, src: map<int, nat>, m: nat)
    requires Sourced(s.info, toks, src, m)
    ensures var r := LoadBuckets(h, s, b, count, rest, usable); r.Some? ==> Sourced(r.value.0.info, toks, src, m)
    decreases count - b
  {
    hide Sourced, LoadBucket;
    if b < count && rest != [] && rest[0].IntTok? {
      LoadBucketSourced(h, s, b, rest[0].i, rest[1..], usable, toks, src, m);
      var r := LoadBucket(h, s, b, rest[0].i, rest[1..], usable);
      if r.Some? {
        LoadBucketsSourced(h, r.value.0, b + 1, count, r.value.1, usable, toks, src, m);
      }
    }
  }

  lemma {:induction false} UnprunedSourced(h: Hasher, key: Key, nNew: nat, nTried: nat, count: int, usable: bool,
      toks: seq<Token>)
    returns (src: map<int, nat>)
    ensures var v := Unpruned(h, Cleared(key, nNew, nTried), count, usable, toks);
      v.Some? ==> Sourced(v.value.info, toks, src, nNew + nTried)
  {
    hide LoadBuckets, LoadNew, LoadTried, Loading;
    var s := Cleared(key, nNew, nTried);
    assert Sourced(s.info, toks, map[], 0);
    hide Sourced;
    assert toks[0..] == toks;
    src := LoadNewSourced(h, s, 0, toks, usable, map[]);
    ClearedLoads(h, key, nNew, nTried);
    LoadNewLoads(h, s, 0, toks, usable);
    var a := LoadNew(h, s, 0, toks, usable);
    if a.Some? {
      var t := a.value.0.(idCount := nNew);
      LoadingBelow(h, a.value.0, nNew, nNew);
      src := LoadTriedSourced(h, t, nNew, 0, 0, toks, src);
      var e := LoadTried(h, t, 0, 0, a.value.1);
      if e.Some? {
        LoadBucketsSourced(h, e.value.0, 0, count, e.value.1, usable, toks, src, nNew + nTried);
      }
    }
  }

  lemma LoadingBelow(h: Hasher, s: State, k: nat, n: nat)
    requires Loading(h, s, k, n)
    ensures forall id :: id in s.info ==> id < n
  {
  }

  /** No two of the first `m` entries of a stream have the same address. */
  ghost predicate DistinctAddresses(toks: seq<Token>, m: int) {
    forall i, j :: 0 <= i < j < m && j < |toks| && toks[i].EntryTok? && toks[j].EntryTok? ==>
      toks[i].e.addr.service.ip != toks[j].e.addr.service.ip
  }

  lemma SourcedNoTwins(info: map<int, Info>, toks: seq<Token>, src: map<int, nat>, m: nat)
    requires Sourced(info, toks, src, m) && DistinctAddresses(toks, m)
    ensures NoTwins(info)
  {
    forall i, j | i in info && j in info && i != j
      ensures info[i].addr.service.ip != info[j].addr.service.ip
    {
      assert src[i] != src[j];
    }
  }

  /**
   What can be told from the stream alone: counts that are not negative and different addresses suffice for the
   invariant, and with a success on record in every entry for all that `Check_` tests but the key.
   */
  lemma {:induction false} DistinctLoads(h: Hasher, toks: seq<Token>)
    requires Load(h, toks).Some? && toks[3].i >= 0 && toks[4].i >= 0
    requires DistinctAddresses(toks[6..], toks[3].i + toks[4].i)
    ensures Inv(h, Load(h, toks).value)
    ensures (forall t :: t in toks[6..] && t.EntryTok? ==> t.e.lastSuccess > 0) ==> CheckOk(h, Load(h, toks).value)
  {
    hide Load, Unpruned, InvBut, NoTwins, TimesRead, TimesOk, Sourced, DistinctAddresses;
    LoadChecks(h, toks);
    LoadHeader(h, toks);
    var count := BucketCount(toks);
    var usable := toks[0].b == 1 && count == NEW_BUCKET_COUNT;
    var src := UnprunedSourced(h, toks[2].k, toks[3].i, toks[4].i, count, usable, toks[6..]);
    var v := Contents(h, toks).value;
    SourcedNoTwins(v.info, toks[6..], src, toks[3].i + toks[4].i);
    if forall t :: t in toks[6..] && t.EntryTok? ==> t.e.lastSuccess > 0 {
      SourcedTimes(v.info, toks[6..], src, toks[3].i + toks[4].i);
    }
  }

  lemma SourcedTimes(info: map<int, Info>, toks: seq<Token>, src: map<int, nat>, m: nat)
    requires Sourced(info, toks, src, m) && forall t :: t in toks && t.EntryTok? ==> t.e.lastSuccess > 0
    ensures TimesRead(info)
  {
    forall id | id in info
      ensures info[id].lastSuccess > 0
    {
      assert toks[src[id]] in toks;
    }
  }

  lemma LoadHeader(h: Hasher, toks: seq<Token>)
    requires Load(h, toks).Some?
    ensures |toks| >= 6 && toks[0].ByteTok? && toks[2].KeyTok? && toks[3].IntTok? && toks[4].IntTok? && toks[5].IntTok?
  {
    hide LoadTables;
  }

  // ---------------------------------------------------------------- streams that are not good

  /** Streams that load and are not good exist: a header with a negative count and nothing after it. */
  lemma {:induction false} BadStreamLoads(h: Hasher, key: Key)
    ensures var toks := [ByteTok(0), ByteTok(32), KeyTok(key), IntTok(0), IntTok(-1), IntTok(0)];
            Load(h, toks).Some? && !Inv(h, Load(h, toks).value)
  {
    hide InvBut, RandomOk;
    var toks := [ByteTok(0), ByteTok(32), KeyTok(key), IntTok(0), IntTok(-1), IntTok(0)];
    assert toks[6..] == [];
    LoadChecks(h, toks);
  }

  lemma {:induction false} TwoNew(h: Hasher, key: Key, e: Record)
    ensures var a := LoadNew(h, Cleared(key, 2, 0), 0, [EntryTok(e), EntryTok(e)], false);
      && a.Some? && a.value.1 == [] && a.value.0.nTried == 0 && 0 in a.value.0.info && 1 in a.value.0.info
      && a.value.0.info[0].refCount == 1 && a.value.0.info[0].addr == a.value.0.info[1].addr
  {
    hide NewSlot, NewBucket;
    var s := Cleared(key, 2, 0);
    var t := Reference(h, Enter(s, 0, ReadBack(e)), 0);
    assert t.nNew == 2 && t.nTried == 0 && t.info.Keys == {0} && t.info[0].refCount == 1 && t.info[0].addr == e.addr;
    var u := Reference(h, Enter(t, 1, ReadBack(e)), 1);
    assert u.nNew == 2 && u.nTried == 0 && u.info[0] == t.info[0] && 1 in u.info && u.info[1].addr == e.addr;
    assert [EntryTok(e), EntryTok(e)][1..] == [EntryTok(e)];
    assert LoadNew(h, t, 1, [EntryTok(e)], false) == LoadNew(h, u, 2, [], false);
  }

  lemma {:induction false} OneTried(h: Hasher, key: Key, e: Record)
    ensures var s := Cleared(key, 0, 1);
      var i := ReadBack(e);
      LoadTried(h, s, 0, 0, [EntryTok(e)]) == Some((EnterTried(s, i, TriedSlot(h, key, i)), []))
  {
    hide TriedSlot;
    var s := Cleared(key, 0, 1);
    var t := EnterTried(s, ReadBack(e), TriedSlot(h, key, ReadBack(e)));
    assert [EntryTok(e)][1..] == [] && t.nTried == 1 && t == t.(nTried := 1);
    assert LoadTried(h, s, 0, 0, [EntryTok(e)]) == LoadTried(h, t, 1, 0, []);
  }

  /** Two equal entries in a row: the second finds its slot taken, and stays beside the first until it is pruned. */
  lemma {:induction false} TwinsLoad(h: Hasher, key: Key, e: Record)
    ensures var header := [ByteTok(0), ByteTok(32), KeyTok(key), IntTok(2), IntTok(0), IntTok(0)];
            var toks := header + [EntryTok(e), EntryTok(e)];
            Load(h, toks).Some? && !Inv(h, Load(h, toks).value)
  {
    hide InvBut, RandomOk, Inv, LoadNew;
    var header := [ByteTok(0), ByteTok(32), KeyTok(key), IntTok(2), IntTok(0), IntTok(0)];
    var toks := header + [EntryTok(e), EntryTok(e)];
    assert toks[6..] == [EntryTok(e), EntryTok(e)];
    TwoNew(h, key, e);
    LoadChecks(h, toks);
  }

  /** One tried entry without a recorded success: the invariant holds, and `Check_` finds a fault. */
  lemma {:induction false} NoSuccessLoads(h: Hasher, key: Key, e: Record)
    requires e.lastSuccess == 0
    ensures var toks := [ByteTok(0), ByteTok(32), KeyTok(key), IntTok(0), IntTok(1), IntTok(0), EntryTok(e)];
            Load(h, toks).Some? && Inv(h, Load(h, toks).value) && !CheckOk(h, Load(h, toks).value)
  {
    hide InvBut, RandomOk, Inv, CheckOk, LoadTried, TriedSlot;
    var toks := [ByteTok(0), ByteTok(32), KeyTok(key), IntTok(0), IntTok(1), IntTok(0), EntryTok(e)];
    assert toks[6..] == [EntryTok(e)];
    OneTried(h, key, e);
    LoadChecks(h, toks);
    assert 0 in Contents(h, toks).value.info && !Unreferenced(Contents(h, toks).value.info[0]);
  }
}
