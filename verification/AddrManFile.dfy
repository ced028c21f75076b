/**
 Serialize and Unserialize as the loops they are, over a stream of tokens: the first
 writes exactly the saved form, the second leaves exactly the loaded manager.
 */
module AddrManFile {
  import opened AddrManSpec
  import opened AddrManOps
  import opened AddrManDisk
  import opened Options
  import opened AddrMan
  import Reload = AddrManReload

  // ---------------------------------------------------------------- saving

  lemma {:induction false} EntryToksAppend(info: map<int, Info>, ids: seq<int>, id: int)
    requires forall j :: 0 <= j < |ids| ==> ids[j] in info
    requires id in info
    ensures EntryToks(info, ids + [id]) == EntryToks(info, ids) + [EntryTok(Written(info[id]))]
  {
    if ids != [] {
      EntryToksAppend(info, ids[1..], id);
      assert (ids + [id])[1..] == ids[1..] + [id];
    }
  }

  lemma IdsNext(info: map<int, Info>, id: nat, tried: bool)
    ensures Ids(info, id + 1, tried) ==
      if id in info && Listed(info[id], tried) then Ids(info, id, tried) + [id] else Ids(info, id, tried)
  {
  }

  /** The entries written so far. */
  ghost function EntriesBelow(info: map<int, Info>, id: nat, tried: bool): seq<Token> {
    IdsKnown(info, id, tried);
    EntryToks(info, Ids(info, id, tried))
  }

  lemma EntriesNext(info: map<int, Info>, id: nat, tried: bool)
    ensures EntriesBelow(info, id + 1, tried) ==
      if id in info && Listed(info[id], tried) then EntriesBelow(info, id, tried) + [EntryTok(Written(info[id]))]
      else EntriesBelow(info, id, tried)
  {
    hide Ids, Written, EntryToks;
    IdsNext(info, id, tried);
    IdsKnown(info, id, tried);
    if id in info {
      EntryToksAppend(info, Ids(info, id, tried), id);
    }
  }

  ghost predicate IndexedBelow(info: map<int, Info>, index: map<int, nat>, id: nat, tried: bool) {
    forall j :: j in info && 0 <= j < id ==> j in index && index[j] == Rank(info, j, tried)
  }

  lemma IndexedNext(info: map<int, Info>, index: map<int, nat>, id: nat, tried: bool)
    requires IndexedBelow(info, index, id, tried)
    ensures IndexedBelow(info, if id in info then index[id := Rank(info, id, tried)] else index, id + 1, tried)
  {
    hide Rank;
  }

  /** Write the tried (or the new) entries, and give each new one its index. */
  method WriteEntries(info: map<int, Info>, idCount: nat, tried: bool, limit: int)
    returns (out: seq<Token>, index: map<int, nat>)
    requires limit == |Ids(info, idCount, tried)|
    ensures out == EntriesBelow(info, idCount, tried)
    ensures IndexedBelow(info, index, idCount, tried)
  {
    out, index := [], map[];
    var nIds := 0;
    IdsZero(info, tried);
    assert IndexedBelow(info, index, 0, tried);
    hide Ids, Written, EntryToks, IndexedBelow, EntriesBelow;
    for id := 0 to idCount
      invariant nIds == Rank(info, id, tried)
      invariant out == EntriesBelow(info, id, tried)
      invariant IndexedBelow(info, index, id, tried)
    {
      IdsNext(info, id, tried);
      EntriesNext(info, id, tried);
      IndexedNext(info, index, id, tried);
      if id in info {
        index := index[id := nIds];
        if Listed(info[id], tried) {
          RankIndex(info, idCount, tried, id);
          assert nIds != limit;
          out := out + [EntryTok(Written(info[id]))];
          nIds := nIds + 1;
        }
      }
    }
  }

  lemma {:induction false} IdsZero(info: map<int, Info>, tried: bool)
    ensures Ids(info, 0, tried) == [] && EntriesBelow(info, 0, tried) == []
  {
  }

  /** Each holder of a slot has its index in the list of new entries. */
  ghost predicate Indexed(s: State, index: map<int, nat>) {
    forall k :: k in s.newTab ==>
      s.newTab[k] >= 0 && s.newTab[k] in index && index[s.newTab[k]] == Rank(s.info, s.newTab[k], false)
  }

  lemma BucketToksFrom(s: State, b: nat, p: nat)
    requires (forall k :: k in s.newTab ==> s.newTab[k] >= 0) && p < BUCKET_SIZE
    ensures BucketToks(s, b, p) ==
      if Slot(b, p) in s.newTab then [IntTok(Rank(s.info, s.newTab[Slot(b, p)], false))] + BucketToks(s, b, p + 1)
      else BucketToks(s, b, p + 1)
  {
  }

  method CountBucket(m: AddrManager, b: nat) returns (nSize: nat)
    requires m.Shaped() && b < NEW_BUCKET_COUNT
    requires forall k :: k in m.Value().newTab ==> m.Value().newTab[k] >= 0
    ensures nSize == |BucketToks(m.Value(), b, 0)|
  {
    hide Occupied, Rank, BucketToks;
    ghost var s := m.Value();
    nSize := 0;
    for i := 0 to BUCKET_SIZE
      invariant nSize + |BucketToks(s, b, i)| == |BucketToks(s, b, 0)|
    {
      BucketToksFrom(s, b, i);
      var id := Look(m.newTab, Slot(b, i));
      if id != -1 {
        nSize := nSize + 1;
      }
    }
    BucketToksEnd(s, b);
  }

  lemma {:induction false} BucketToksEnd(s: State, b: nat)
    requires forall k :: k in s.newTab ==> s.newTab[k] >= 0
    ensures BucketToks(s, b, BUCKET_SIZE) == []
  {
  }

  method WriteIndices(m: AddrManager, b: nat, index: map<int, nat>) returns (out: seq<Token>)
    requires m.Shaped() && b < NEW_BUCKET_COUNT && Indexed(m.Value(), index)
    ensures out == BucketToks(m.Value(), b, 0)
  {
    hide Occupied, Rank, BucketToks;
    ghost var s := m.Value();
    out := [];
    for i := 0 to BUCKET_SIZE
      invariant out + BucketToks(s, b, i) == BucketToks(s, b, 0)
    {
      BucketToksFrom(s, b, i);
      var id := Look(m.newTab, Slot(b, i));
      if id != -1 {
        assert s.newTab[Slot(b, i)] == id;
        out := out + [IntTok(index[id])];
      }
    }
    BucketToksEnd(s, b);
  }

  method WriteBuckets(m: AddrManager, index: map<int, nat>) returns (out: seq<Token>)
    requires m.Shaped() && Indexed(m.Value(), index)
    ensures out == BucketsToks(m.Value(), 0)
  {
    hide Occupied, BucketToks;
    ghost var s := m.Value();
    out := [];
    for bucket := 0 to NEW_BUCKET_COUNT
      invariant out + BucketsToks(s, bucket) == BucketsToks(s, 0)
    {
      var nSize := CountBucket(m, bucket);
      var indices := WriteIndices(m, bucket, index);
      out := out + ([IntTok(nSize)] + indices);
    }
  }

  method Serialize(m: AddrManager) returns (out: seq<Token>)
    requires m.Shaped() && Inv(m.h, m.Value())
    ensures m.idCount >= 0 && (forall k :: k in m.Value().newTab ==> m.Value().newTab[k] >= 0)
    ensures out == Saved(m.Value())
  {
    hide InvBut, Occupied, Ids, BucketsToks;
    SavableParts(m.h, m.Value());
    out := [ByteTok(1), ByteTok(32), KeyTok(m.key), IntTok(m.nNew), IntTok(m.nTried), IntTok(Xor30(NEW_BUCKET_COUNT))];
    var news, index := WriteEntries(m.info, m.idCount, false, m.nNew);
    var trieds, _ := WriteEntries(m.info, m.idCount, true, m.nTried);
    assert Indexed(m.Value(), index);
    var buckets := WriteBuckets(m, index);
    out := out + news + trieds + buckets;
  }

  lemma SavableParts(h: Hasher, s: State)
    requires Inv(h, s)
    ensures s.idCount >= 0 && s.nNew == |Ids(s.info, s.idCount, false)| && s.nTried == |Ids(s.info, s.idCount, true)|
    ensures forall k :: k in s.newTab ==> 0 <= s.newTab[k] < s.idCount && s.newTab[k] in s.info
  {
    Reload.InvSavable(h, s);
  }

  // ---------------------------------------------------------------- loading

  method ClearTable(t: array2<int>)
    modifies t
    ensures Occupied(t) == map[]
  {
    for b := 0 to t.Length0
      invariant forall i, j :: 0 <= i < b && 0 <= j < t.Length1 ==> t[i, j] == -1
    {
      for p := 0 to t.Length1
        invariant forall i, j :: 0 <= i < b && 0 <= j < t.Length1 ==> t[i, j] == -1
        invariant forall j :: 0 <= j < p ==> t[b, j] == -1
      {
        t[b, p] := -1;
      }
    }
  }

  /** Clear empties everything but the two maps, so a fresh manager is needed for an empty one. */
  method Clear(m: AddrManager, key: Key)
    requires m.Shaped()
    modifies m, m.newTab, m.triedTab
    ensures m.Value() == Empty(key).(info := old(m.info), addr := old(m.addr))
  {
    hide Occupied;
    m.random := [];
    m.key := key;
    ClearTable(m.newTab);
    ClearTable(m.triedTab);
    m.idCount := 0;
    m.nTried := 0;
    m.nNew := 0;
  }

  method ReadNewEntry(m: AddrManager, n: nat, e: Record, usable: bool)
    requires m.Shaped()
    modifies m, m.newTab
    ensures m.Value() == var t := Enter(old(m.Value()), n, ReadBack(e)); if usable then t else Reference(m.h, t, n)
  {
    hide Occupied, Reference;
    m.info := m.info[n := ReadBack(e)];
    m.addr := m.addr[m.info[n].addr.service.ip := n];
    m.info := m.info[n := m.info[n].(randomPos := |m.random|)];
    m.random := m.random + [n];
    assert m.Value() == Enter(old(m.Value()), n, ReadBack(e));
    if !usable {
      AddReference(m, n);
    }
  }

  /** Where the table cannot be used, an entry gets one reference in its own slot if that is free. */
  method AddReference(m: AddrManager, n: nat)
    requires m.Shaped() && n in m.info
    modifies m`info, m.newTab
    ensures m.Value() == Reference(m.h, old(m.Value()), n)
  {
    hide Occupied;
    var u := OwnNewSlot(m.h, m.key, m.info[n]);
    var free := IsFree(m.newTab, u);
    if free {
      Put(m.newTab, u, n);
      m.info := m.info[n := m.info[n].(refCount := m.info[n].refCount + 1)];
    }
  }

  method IsFree(t: array2<int>, k: Slot) returns (free: bool)
    requires k.bucket < t.Length0 && k.pos < t.Length1
    ensures free <==> k !in Occupied(t)
  {
    free := t[k.bucket, k.pos] == -1;
  }

  method StoreAt(t: array2<int>, k: Slot, id: int)
    requires k.bucket < t.Length0 && k.pos < t.Length1
    modifies t
    ensures Occupied(t) == Store(old(Occupied(t)), k, id)
  {
    t[k.bucket, k.pos] := id;
  }

  method ReadTriedEntry(m: AddrManager, e: Record) returns (lost: bool)
    requires m.Shaped()
    modifies m, m.triedTab
    ensures var s := old(m.Value()); var k := TriedSlot(m.h, s.key, ReadBack(e));
      && (lost <==> k in s.triedTab)
      && m.Value() == if lost then s else EnterTried(s, ReadBack(e), k)
  {
    hide Occupied;
    var i := ReadBack(e);
    var k := TriedSlot(m.h, m.key, i);
    var free := IsFree(m.triedTab, k);
    if !free {
      return true;
    }
    i := i.(randomPos := |m.random|, inTried := true);
    m.random := m.random + [m.idCount];
    m.info := m.info[m.idCount := i];
    m.addr := m.addr[i.addr.service.ip := m.idCount];
    StoreAt(m.triedTab, k, m.idCount);
    m.idCount := m.idCount + 1;
    lost := false;
  }

  method ReadIndex(m: AddrManager, b: nat, index: int, usable: bool)
    requires m.Shaped() && (usable ==> b < NEW_BUCKET_COUNT)
    modifies m, m.newTab
    ensures m.Value() == LoadIndex(m.h, old(m.Value()), b, index, usable)
  {
    hide Occupied;
    if 0 <= index < m.nNew && index in m.info {
      var k := NewSlot(m.h, m.key, m.info[index], b);
      if usable {
        var free := IsFree(m.newTab, k);
        if free && m.info[index].refCount < NEW_BUCKETS_PER_ADDRESS {
          m.info := m.info[index := m.info[index].(refCount := m.info[index].refCount + 1)];
          Put(m.newTab, k, index);
        }
      }
    }
  }

  /** The next token, if it is an entry. */
  method TakeEntry(toks: seq<Token>) returns (e: Option<Record>, rest: seq<Token>)
    ensures e == if toks == [] || !toks[0].EntryTok? then None else Some(toks[0].e)
    ensures e.Some? ==> rest == toks[1..]
  {
    if toks == [] || !toks[0].EntryTok? {
      return None, toks;
    }
    return Some(toks[0].e), toks[1..];
  }

  method TakeInt(toks: seq<Token>) returns (i: Option<int>, rest: seq<Token>)
    ensures i == if toks == [] || !toks[0].IntTok? then None else Some(toks[0].i)
    ensures i.Some? ==> rest == toks[1..]
  {
    if toks == [] || !toks[0].IntTok? {
      return None, toks;
    }
    return Some(toks[0].i), toks[1..];
  }

  method ReadNew(m: AddrManager, toks: seq<Token>, usable: bool) returns (ok: bool, rest: seq<Token>)
    requires m.Shaped()
    modifies m, m.newTab
    ensures LoadNew(m.h, old(m.Value()), 0, toks, usable) == if ok then Some((m.Value(), rest)) else None
  {
    hide Occupied, Enter, Reference, ReadBack;
    rest := toks;
    var n := 0;
    while n < m.nNew
      invariant n >= 0 && LoadNew(m.h, m.Value(), n, rest, usable) == LoadNew(m.h, old(m.Value()), 0, toks, usable)
      invariant m.nNew == old(m.nNew)
      decreases m.nNew - n
    {
      var e, rest' := TakeEntry(rest);
      if e.None? {
        return false, rest;
      }
      ReadNewEntryCounts(m.h, m.Value(), n, e.value, usable);
      ReadNewEntry(m, n, e.value, usable);
      n, rest := n + 1, rest';
    }
    ok := true;
  }

  lemma ReadNewEntryCounts(h: Hasher, s: State, n: nat, e: Record, usable: bool)
    ensures var t := Enter(s, n, ReadBack(e)); n in t.info && t.nNew == s.nNew && Reference(h, t, n).nNew == s.nNew
  {
  }

  method ReadTried(m: AddrManager, toks: seq<Token>) returns (ok: bool, rest: seq<Token>)
    requires m.Shaped()
    modifies m, m.triedTab
    ensures LoadTried(m.h, old(m.Value()), 0, 0, toks) == if ok then Some((m.Value(), rest)) else None
  {
    hide Occupied, ReadBack, TriedSlot;
    rest := toks;
    var n, nLost := 0, 0;
    while n < m.nTried
      invariant n >= 0 && nLost >= 0
      invariant LoadTried(m.h, m.Value(), n, nLost, rest) == LoadTried(m.h, old(m.Value()), 0, 0, toks)
      invariant m.nTried == old(m.nTried)
      decreases m.nTried - n
    {
      var e, rest' := TakeEntry(rest);
      if e.None? {
        return false, rest;
      }
      var lost := ReadTriedEntry(m, e.value);
      if lost {
        nLost := nLost + 1;
      }
      n, rest := n + 1, rest';
    }
    m.nTried := m.nTried - nLost;
    ok := true;
  }

  method ReadBucket(m: AddrManager, b: nat, nSize: int, toks: seq<Token>, usable: bool)
    returns (ok: bool, rest: seq<Token>)
    requires m.Shaped() && (usable ==> b < NEW_BUCKET_COUNT)
    modifies m, m.newTab
    ensures LoadBucket(m.h, old(m.Value()), b, nSize, toks, usable) == if ok then Some((m.Value(), rest)) else None
  {
    hide Occupied, LoadIndex;
    rest := toks;
    var n := 0;
    while n < nSize
      invariant n >= 0 && LoadBucket(m.h, m.Value(), b, nSize - n, rest, usable) ==
        LoadBucket(m.h, old(m.Value()), b, nSize, toks, usable)
    {
      var i, rest' := TakeInt(rest);
      if i.None? {
        return false, rest;
      }
      ReadIndex(m, b, i.value, usable);
      n, rest := n + 1, rest';
    }
    ok := true;
  }

  method ReadBuckets(m: AddrManager, count: int, toks: seq<Token>, usable: bool) returns (ok: bool, rest: seq<Token>)
    requires m.Shaped() && (usable ==> count == NEW_BUCKET_COUNT)
    modifies m, m.newTab
    ensures LoadBuckets(m.h, old(m.Value()), 0, count, toks, usable) == if ok then Some((m.Value(), rest)) else None
  {
    hide Occupied, LoadBucket;
    rest := toks;
    var b := 0;
    while b < count
      invariant b >= 0 && LoadBuckets(m.h, m.Value(), b, count, rest, usable) ==
        LoadBuckets(m.h, old(m.Value()), 0, count, toks, usable)
    {
      var i, rest' := TakeInt(rest);
      if i.None? {
        return false, rest;
      }
      ok, rest' := ReadBucket(m, b, i.value, rest', usable);
      if !ok {
        return false, rest;
      }
      b, rest := b + 1, rest';
    }
    ok := true;
  }

  /** Only new entries can be without a reference, and their ids are below `upTo`. */
  method PruneEntries(m: AddrManager, upTo: nat)
    requires RandomOk(m.info, m.random)
    modifies m
    ensures m.Value() == Prune(old(m.Value()), 0, upTo)
  {
    hide Occupied, RandomOk, Delete;
    for n := 0 to upTo
      invariant RandomOk(m.info, m.random) && Prune(m.Value(), n, upTo) == Prune(old(m.Value()), 0, upTo)
    {
      if n in m.info && !m.info[n].inTried && m.info[n].refCount == 0 {
        DeleteRandom(m.Value(), n);
        m.DeleteEntry(n);
      }
    }
  }

  method ReadEntries(m: AddrManager, usable: bool, toks: seq<Token>) returns (ok: bool, rest: seq<Token>)
    requires m.Shaped()
    modifies m, m.newTab, m.triedTab
    ensures LoadEntries(m.h, old(m.Value()), usable, toks) == if ok then Some((m.Value(), rest)) else None
  {
    hide Occupied, LoadNew, LoadTried;
    var nNew := m.nNew;
    ok, rest := ReadNew(m, toks, usable);
    if !ok {
      return;
    }
    m.idCount := nNew;
    ok, rest := ReadTried(m, rest);
  }

  /** The tables after the header, in the order of the stream. */
  method ReadTables(m: AddrManager, count: int, usable: bool, toks: seq<Token>) returns (ok: bool)
    requires m.Shaped() && m.info == map[] && m.random == [] && (usable ==> count == NEW_BUCKET_COUNT)
    modifies m, m.newTab, m.triedTab
    ensures LoadTables(m.h, old(m.Value()), count, usable, toks) == if ok then Some(m.Value()) else None
  {
    hide Occupied, LoadEntries, LoadBuckets, RandomOk, Prune, Growing;
    LoadEntriesGrows(m.h, m.Value(), usable, toks);
    var nNew := m.nNew;
    var rest: seq<Token>;
    ok, rest := ReadEntries(m, usable, toks);
    if !ok {
      return false;
    }
    ghost var next := m.idCount;
    LoadBucketsGrows(m.h, m.Value(), 0, count, rest, usable, next);
    ok, rest := ReadBuckets(m, count, rest, usable);
    if !ok {
      return false;
    }
    GrowingRandom(m.Value(), next);
    PruneEntries(m, if nNew < 0 then 0 else nNew);
  }

  lemma GrowingRandom(s: State, next: int)
    requires Growing(s, next)
    ensures RandomOk(s.info, s.random)
  {
  }

  method Unserialize(m: AddrManager, toks: seq<Token>, anyKey: Key) returns (ok: bool)
    requires m.Shaped() && m.info == map[] && m.addr == map[]
    modifies m, m.newTab, m.triedTab
    ensures Load(m.h, toks) == if ok then Some(m.Value()) else None
  {
    hide Occupied, LoadTables;
    Clear(m, anyKey);
    if |toks| < 6 || !toks[0].ByteTok? || !toks[1].ByteTok? {
      return false;
    }
    var version := toks[0].b;
    if toks[1].b != 32 || !toks[2].KeyTok? || !toks[3].IntTok? || !toks[4].IntTok? || !toks[5].IntTok? {
      return false;
    }
    m.key, m.nNew, m.nTried := toks[2].k, toks[3].i, toks[4].i;
    var count := toks[5].i;
    if version != 0 {
      count := Xor30(count);
    }
    if m.nNew > NEW_BUCKET_COUNT * BUCKET_SIZE {
      return false;
    }
    if m.nTried > TRIED_BUCKET_COUNT * BUCKET_SIZE {
      return false;
    }
    ok := ReadTables(m, count, version == 1 && count == NEW_BUCKET_COUNT, toks[6..]);
  }

  /** Written out and read into a fresh manager, the tables come back under the new numbering, invariant and all. */
  method SaveAndLoad(m: AddrManager, fresh': AddrManager) returns (ok: bool)
    requires m.Shaped() && fresh'.Shaped() && fresh'.h == m.h && Inv(m.h, m.Value())
    requires fresh'.info == map[] && fresh'.addr == map[]
    requires {m, m.newTab, m.triedTab} !! {fresh', fresh'.newTab, fresh'.triedTab}
    modifies fresh', fresh'.newTab, fresh'.triedTab
    ensures ok && m.Value() == old(m.Value())
    ensures Reload.Savable(m.Value()) && Reload.IsRenumbering(m.Value(), fresh'.Value())
    ensures Inv(m.h, fresh'.Value()) && (TimesOk(m.info) ==> CheckOk(m.h, fresh'.Value()))
  {
    hide InvBut, TimesOk, Occupied, Reload.Savable, Reload.IsRenumbering, Load, Saved;
    ghost var s := m.Value();
    Reload.SaveLoad(m.h, s);
    var toks := Serialize(m);
    ok := Unserialize(fresh', toks, 0);
    assert m.Value() == s;
  }
}
