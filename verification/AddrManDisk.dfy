/**
 The on-disk form of the address manager as a stream of tokens: what saving writes, in which order, and what
 loading makes of any stream.
 */
module AddrManDisk {
  import opened AddrManSpec
  import opened AddrManOps
  import opened Options

  /** The part of an entry that is written out. */
  datatype Record = Record(addr: Address, source: NetAddr, lastSuccess: int, attempts: int)

  datatype Token = ByteTok(b: nat) | KeyTok(k: Key) | IntTok(i: int) | EntryTok(e: Record)

  function Written(i: Info): Record {
    Record(i.addr, i.source, i.lastSuccess, i.attempts)
  }

  function ReadBack(e: Record): Info {
    Info(e.addr, e.source, 0, e.lastSuccess, e.attempts, 0, false, -1)
  }

  /** Toggle bit 30 of a two's complement integer. */
  function Xor30(x: int): int {
    if (x / 0x4000_0000) % 2 == 0 then x + 0x4000_0000 else x - 0x4000_0000
  }

  // ---------------------------------------------------------------- the two lists of ids

  predicate Listed(i: Info, tried: bool) {
    if tried then i.inTried else i.refCount != 0
  }

  /** The ids below `n` of the tried (or the new) entries, in the order of the map. */
  function Ids(info: map<int, Info>, n: nat, tried: bool): seq<int> {
    if n == 0 then []
    else Ids(info, n - 1, tried) + if n - 1 in info && Listed(info[n - 1], tried) then [n - 1] else []
  }

  /** The number of listed entries before `id`: its index in the list. */
  function Rank(info: map<int, Info>, id: nat, tried: bool): nat {
    |Ids(info, id, tried)|
  }

  lemma {:induction false} RankIndex(info: map<int, Info>, n: nat, tried: bool, id: nat)
    requires id < n && id in info && Listed(info[id], tried)
    ensures Rank(info, id, tried) < |Ids(info, n, tried)|
    ensures Ids(info, n, tried)[Rank(info, id, tried)] == id
  {
    if id < n - 1 {
      RankIndex(info, n - 1, tried, id);
    }
  }

  lemma {:induction false} IndexRank(info: map<int, Info>, n: nat, tried: bool, j: nat)
    requires j < |Ids(info, n, tried)|
    ensures var id := Ids(info, n, tried)[j];
      0 <= id < n && id in info && Listed(info[id], tried) && Rank(info, id, tried) == j
  {
    if j < |Ids(info, n - 1, tried)| {
      IndexRank(info, n - 1, tried, j);
    }
  }

  ghost function ListedSet(info: map<int, Info>, n: nat, tried: bool): set<int> {
    set id | id in info && 0 <= id < n && Listed(info[id], tried)
  }

  lemma {:induction false} IdsCount(info: map<int, Info>, n: nat, tried: bool)
    ensures |Ids(info, n, tried)| == |ListedSet(info, n, tried)|
  {
    hide Listed;
    if n == 0 {
      assert ListedSet(info, n, tried) == {};
    } else {
      IdsCount(info, n - 1, tried);
      var before := ListedSet(info, n - 1, tried);
      if n - 1 in info && Listed(info[n - 1], tried) {
        assert ListedSet(info, n, tried) == before + {n - 1};
      } else {
        assert ListedSet(info, n, tried) == before;
      }
    }
  }

  lemma {:induction false} IdsKnown(info: map<int, Info>, n: nat, tried: bool)
    ensures forall j :: 0 <= j < |Ids(info, n, tried)| ==> Ids(info, n, tried)[j] in info
  {
    forall j | 0 <= j < |Ids(info, n, tried)| ensures Ids(info, n, tried)[j] in info {
      IndexRank(info, n, tried, j);
    }
  }

  // ---------------------------------------------------------------- saving

  function EntryToks(info: map<int, Info>, ids: seq<int>): seq<Token>
    requires forall j :: 0 <= j < |ids| ==> ids[j] in info
  {
    if ids == [] then [] else [EntryTok(Written(info[ids[0]]))] + EntryToks(info, ids[1..])
  }

  /** The indices of one new bucket, from position `p` on. */
  function BucketToks(s: State, b: nat, p: nat): seq<Token>
    requires forall k :: k in s.newTab ==> s.newTab[k] >= 0
    decreases BUCKET_SIZE - p
  {
    if p >= BUCKET_SIZE then []
    else
      (if Slot(b, p) in s.newTab then [IntTok(Rank(s.info, s.newTab[Slot(b, p)], false))] else [])
      + BucketToks(s, b, p + 1)
  }

  function BucketsToks(s: State, b: nat): seq<Token>
    requires forall k :: k in s.newTab ==> s.newTab[k] >= 0
    decreases NEW_BUCKET_COUNT - b
  {
    if b >= NEW_BUCKET_COUNT then []
    else [IntTok(|BucketToks(s, b, 0)|)] + BucketToks(s, b, 0) + BucketsToks(s, b + 1)
  }

  function Header(s: State): seq<Token> {
    [ByteTok(1), ByteTok(32), KeyTok(s.key), IntTok(s.nNew), IntTok(s.nTried), IntTok(Xor30(NEW_BUCKET_COUNT))]
  }

  ghost function Saved(s: State): seq<Token>
    requires s.idCount >= 0 && forall k :: k in s.newTab ==> s.newTab[k] >= 0
  {
    IdsKnown(s.info, s.idCount, false);
    IdsKnown(s.info, s.idCount, true);
    Header(s)
    + EntryToks(s.info, Ids(s.info, s.idCount, false))
    + EntryToks(s.info, Ids(s.info, s.idCount, true))
    + BucketsToks(s, 0)
  }

  // ---------------------------------------------------------------- loading

  /** Enter `n` in the slot of its own source, if that is free. */
  function Reference(h: Hasher, s: State, n: int): State
    requires n in s.info
  {
    var u := OwnNewSlot(h, s.key, s.info[n]);
    if u in s.newTab then s else Insert(s, n, u)
  }

  /** Append an entry read from the stream under the id `n`. */
  function Enter(s: State, n: int, i: Info): State {
    s.(info := s.info[n := i.(randomPos := |s.random|)],
       addr := s.addr[i.addr.service.ip := n],
       random := s.random + [n])
  }

  function LoadNew(h: Hasher, s: State, n: nat, toks: seq<Token>, usable: bool): Option<(State, seq<Token>)>
    decreases s.nNew - n
  {
    if n >= s.nNew then Some((s, toks))
    else if toks == [] || !toks[0].EntryTok? then None
    else
      var t := Enter(s, n, ReadBack(toks[0].e));
      LoadNew(h, if usable then t else Reference(h, t, n), n + 1, toks[1..], usable)
  }

  /** Writing -1, the mark of a free slot, frees it. */
  function Store(t: Table, k: Slot, id: int): Table {
    if id == -1 then t - {k} else t[k := id]
  }

  function EnterTried(s: State, i: Info, k: Slot): State {
    var t := Enter(s, s.idCount, i.(inTried := true));
    t.(triedTab := Store(t.triedTab, k, s.idCount), idCount := s.idCount + 1)
  }

  /** `lost` counts the entries dropped because their slot was taken. */
  function LoadTried(h: Hasher, s: State, n: nat, lost: nat, toks: seq<Token>): Option<(State, seq<Token>)>
    decreases s.nTried - n
  {
    if n >= s.nTried then Some((s.(nTried := s.nTried - lost), toks))
    else if toks == [] || !toks[0].EntryTok? then None
    else
      var i := ReadBack(toks[0].e);
      var k := TriedSlot(h, s.key, i);
      if k in s.triedTab then LoadTried(h, s, n + 1, lost + 1, toks[1..])
      else LoadTried(h, EnterTried(s, i, k), n + 1, lost, toks[1..])
  }

  /** One index of bucket `b` as the loader treats it. */
  function LoadIndex(h: Hasher, s: State, b: nat, index: int, usable: bool): State {
    if 0 <= index < s.nNew && index in s.info then
      var k := NewSlot(h, s.key, s.info[index], b);
      if usable && k !in s.newTab && s.info[index].refCount < NEW_BUCKETS_PER_ADDRESS then Insert(s, index, k) else s
    else s
  }

  function LoadBucket(h: Hasher, s: State, b: nat, left: int, toks: seq<Token>, usable: bool)
    : Option<(State, seq<Token>)>
    decreases left
  {
    if left <= 0 then Some((s, toks))
    else if toks == [] || !toks[0].IntTok? then None
    else LoadBucket(h, LoadIndex(h, s, b, toks[0].i, usable), b, left - 1, toks[1..], usable)
  }

  function LoadBuckets(h: Hasher, s: State, b: nat, count: int, toks: seq<Token>, usable: bool)
    : Option<(State, seq<Token>)>
    decreases count - b
  {
    if b >= count then Some((s, toks))
    else if toks == [] || !toks[0].IntTok? then None
    else
      match LoadBucket(h, s, b, toks[0].i, toks[1..], usable)
      case None => None
      case Some((t, rest)) => LoadBuckets(h, t, b + 1, count, rest, usable)
  }

  /** Delete the entries below `n` that neither table refers to, in the order of the map. */
  ghost function Prune(s: State, n: nat, upTo: nat): State
    requires RandomOk(s.info, s.random) && n <= upTo
    decreases upTo - n
  {
    if n == upTo then s
    else if n in s.info && !s.info[n].inTried && s.info[n].refCount == 0 then
      DeleteRandom(s, n);
      Prune(Delete(s, n), n + 1, upTo)
    else Prune(s, n + 1, upTo)
  }

  lemma DeleteRandom(s: State, id: int)
    requires RandomOk(s.info, s.random) && id in s.info
    ensures RandomOk(Delete(s, id).info, Delete(s, id).random)
  {
    SwapKeepsRandom(s, s.info[id].randomPos, |s.random| - 1);
    SwapMoves(s, id);
    var t := SwapRandom(s, s.info[id].randomPos, |s.random| - 1);
    hide SwapRandom, Delete, RandomOk;
    DropRandom(t, id);
  }

  lemma DropRandom(t: State, id: int)
    requires RandomOk(t.info, t.random) && id in t.info && t.info[id].randomPos == |t.random| - 1
    ensures var r := DropLast(t, id); RandomOk(r.info, r.random)
  {
    var r := DropLast(t, id);
    assert forall i :: 0 <= i < |r.random| ==> r.random[i] == t.random[i] && t.random[i] != id;
  }

  /** A manager loaded from a stream into a fresh one; None where the stream fails or is refused. */
  ghost function Load(h: Hasher, toks: seq<Token>): Option<State> {
    if |toks| < 6 || !toks[0].ByteTok? || !toks[1].ByteTok? || toks[1].b != 32 || !toks[2].KeyTok?
       || !toks[3].IntTok? || !toks[4].IntTok? || !toks[5].IntTok? then None
    else
      var version, nNew, nTried := toks[0].b, toks[3].i, toks[4].i;
      var count := if version != 0 then Xor30(toks[5].i) else toks[5].i;
      var usable := version == 1 && count == NEW_BUCKET_COUNT;
      if nNew > NEW_BUCKET_COUNT * BUCKET_SIZE || nTried > TRIED_BUCKET_COUNT * BUCKET_SIZE then None
      else LoadTables(h, Empty(toks[2].k).(nNew := nNew, nTried := nTried), count, usable, toks[6..])
  }

  /** The random order is intact and every id is below `next`. */
  ghost predicate Growing(s: State, next: int) {
    RandomOk(s.info, s.random) && forall id :: id in s.info ==> id < next
  }

  lemma EnterGrows(s: State, n: int, i: Info)
    requires Growing(s, n)
    ensures Growing(Enter(s, n, i), n + 1)
  {
  }

  lemma InsertGrows(s: State, id: int, k: Slot, next: int)
    requires Growing(s, next) && id in s.info
    ensures Growing(Insert(s, id, k), next)
  {
  }

  lemma {:induction false} LoadNewGrows(h: Hasher, s: State, n: nat, toks: seq<Token>, usable: bool)
    requires Growing(s, n)
    ensures var r := LoadNew(h, s, n, toks, usable);
      r.Some? ==> Growing(r.value.0, if n < s.nNew then s.nNew else n)
    decreases s.nNew - n
  {
    hide Growing;
    if n < s.nNew && toks != [] && toks[0].EntryTok? {
      var t := Enter(s, n, ReadBack(toks[0].e));
      EnterGrows(s, n, ReadBack(toks[0].e));
      InsertGrows(t, n, OwnNewSlot(h, t.key, t.info[n]), n + 1);
      LoadNewGrows(h, if usable then t else Reference(h, t, n), n + 1, toks[1..], usable);
    }
  }

  lemma {:induction false} LoadTriedGrows(h: Hasher, s: State, n: nat, lost: nat, toks: seq<Token>)
    requires Growing(s, s.idCount)
    ensures var r := LoadTried(h, s, n, lost, toks); r.Some? ==> Growing(r.value.0, r.value.0.idCount)
    decreases s.nTried - n
  {
    hide Growing;
    if n >= s.nTried {
      GrowingSame(s, s.(nTried := s.nTried - lost), s.idCount);
    } else if toks != [] && toks[0].EntryTok? {
      var i := ReadBack(toks[0].e);
      var k := TriedSlot(h, s.key, i);
      if k in s.triedTab {
        LoadTriedGrows(h, s, n + 1, lost + 1, toks[1..]);
      } else {
        EnterGrows(s, s.idCount, i.(inTried := true));
        GrowingSame(Enter(s, s.idCount, i.(inTried := true)), EnterTried(s, i, k), s.idCount + 1);
        LoadTriedGrows(h, EnterTried(s, i, k), n + 1, lost, toks[1..]);
      }
    }
  }

  lemma GrowingSame(s: State, t: State, next: int)
    requires Growing(s, next) && t.info == s.info && t.random == s.random
    ensures Growing(t, next)
  {
  }

  lemma {:induction false} LoadBucketGrows(
    h: Hasher, s: State, b: nat, left: int, toks: seq<Token>, usable: bool, next: int)
    requires Growing(s, next)
    ensures var r := LoadBucket(h, s, b, left, toks, usable); r.Some? ==> Growing(r.value.0, next)
    decreases left
  {
    hide Growing;
    if left > 0 && toks != [] && toks[0].IntTok? {
      if 0 <= toks[0].i < s.nNew && toks[0].i in s.info {
        InsertGrows(s, toks[0].i, NewSlot(h, s.key, s.info[toks[0].i], b), next);
      }
      LoadBucketGrows(h, LoadIndex(h, s, b, toks[0].i, usable), b, left - 1, toks[1..], usable, next);
    }
  }

  lemma {:induction false} LoadBucketsGrows(
    h: Hasher, s: State, b: nat, count: int, toks: seq<Token>, usable: bool, next: int)
    requires Growing(s, next)
    ensures var r := LoadBuckets(h, s, b, count, toks, usable); r.Some? ==> Growing(r.value.0, next)
    decreases count - b
  {
    hide Growing, LoadBucket;
    if b < count && toks != [] && toks[0].IntTok? {
      LoadBucketGrows(h, s, b, toks[0].i, toks[1..], usable, next);
      var r := LoadBucket(h, s, b, toks[0].i, toks[1..], usable);
      if r.Some? {
        LoadBucketsGrows(h, r.value.0, b + 1, count, r.value.1, usable, next);
      }
    }
  }

  /** The new entries, then the tried ones. */
  ghost function LoadEntries(h: Hasher, s: State, usable: bool, toks: seq<Token>): Option<(State, seq<Token>)> {
    match LoadNew(h, s, 0, toks, usable)
    case None => None
    case Some((t, toks')) => LoadTried(h, t.(idCount := s.nNew), 0, 0, toks')
  }

  lemma LoadEntriesGrows(h: Hasher, s: State, usable: bool, toks: seq<Token>)
    requires s.info == map[] && s.random == []
    ensures var r := LoadEntries(h, s, usable, toks); r.Some? ==> Growing(r.value.0, r.value.0.idCount)
  {
    LoadNewGrows(h, s, 0, toks, usable);
    var r := LoadNew(h, s, 0, toks, usable);
    if r.Some? {
      LoadTriedGrows(h, r.value.0.(idCount := s.nNew), 0, 0, r.value.1);
    }
  }

  /** What follows the header: the entries, the buckets, and the pruning. */
  ghost function LoadTables(h: Hasher, s: State, count: int, usable: bool, toks: seq<Token>): Option<State>
    requires s.info == map[] && s.random == []
  {
    LoadEntriesGrows(h, s, usable, toks);
    match LoadEntries(h, s, usable, toks)
    case None => None
    case Some((u, toks')) =>
      LoadBucketsGrows(h, u, 0, count, toks', usable, u.idCount);
      match LoadBuckets(h, u, 0, count, toks', usable)
      case None => None
      case Some((v, _)) => Some(Prune(v, 0, if s.nNew < 0 then 0 else s.nNew))
  }
}
