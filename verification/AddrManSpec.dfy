/**
 The address manager's tables as one value, each of its internal operations as a
 function on that value, and the consistency invariant that `CAddrMan::Check_`
 tests in debug builds, strengthened so that it is inductive.
 */
module AddrManSpec {

  const TRIED_BUCKET_COUNT := 256
  const NEW_BUCKET_COUNT := 1024
  const BUCKET_SIZE := 64
  const NEW_BUCKETS_PER_ADDRESS := 8

  type NetAddr = nat
  type Key = nat

  /** A network address with its port; the tables are keyed by the address alone. */
  datatype Service = Service(ip: NetAddr, port: nat)

  /** A service as announced on the network: its service bits and its time, an unsigned 32-bit field. */
  datatype Address = Address(service: Service, services: set<nat>, time: nat)

  datatype Info = Info(
    addr: Address,
    source: NetAddr,
    lastTry: int,
    lastSuccess: int,
    attempts: int,
    refCount: int,
    inTried: bool,
    randomPos: int)

  datatype Slot = Slot(bucket: nat, pos: nat)

  /** A bucket table, holding the occupied slots only. */
  type Table = map<Slot, int>

  /** The keyed hashes and the routability test; nothing about them is assumed. */
  datatype Hasher = Hasher(
    tried: (Key, Service) -> nat,
    unproven: (Key, Service, NetAddr) -> nat,
    position: (Key, bool, nat, Service) -> nat,
    routable: NetAddr -> bool)

  datatype State = State(
    key: Key,
    idCount: int,
    info: map<int, Info>,
    addr: map<NetAddr, int>,
    random: seq<int>,
    nTried: int,
    triedTab: Table,
    nNew: int,
    newTab: Table)

  function Empty(key: Key): State {
    State(key, 0, map[], map[], [], 0, map[], 0, map[])
  }

  function ToUint32(x: int): nat {
    x % 0x1_0000_0000
  }

  // ---------------------------------------------------------------- slots

  function TriedSlot(h: Hasher, key: Key, i: Info): Slot {
    var b := h.tried(key, i.addr.service) % TRIED_BUCKET_COUNT;
    Slot(b, h.position(key, false, b, i.addr.service) % BUCKET_SIZE)
  }

  function NewBucket(h: Hasher, key: Key, i: Info, source: NetAddr): nat {
    h.unproven(key, i.addr.service, source) % NEW_BUCKET_COUNT
  }

  /** The one position an entry may take in "new" bucket `b`. */
  function NewSlot(h: Hasher, key: Key, i: Info, b: nat): Slot {
    Slot(b, h.position(key, true, b, i.addr.service) % BUCKET_SIZE)
  }

  function SlotsOf(t: Table, id: int): set<Slot> {
    set k | k in t && t[k] == id
  }

  /** The slots that loops over a table have passed when they are at position `p` of bucket `b`. */
  predicate Before(k: Slot, b: nat, p: nat) {
    k.bucket < b || (k.bucket == b && k.pos < p)
  }

  ghost function SlotsBefore(t: Table, id: int, b: nat, p: nat): set<Slot> {
    set k | k in t && t[k] == id && Before(k, b, p)
  }

  lemma SlotsBeforeNext(t: Table, id: int, b: nat, p: nat)
    ensures var k := Slot(b, p);
      SlotsBefore(t, id, b, p + 1) == SlotsBefore(t, id, b, p) + if k in t && t[k] == id then {k} else {}
    ensures Slot(b, p) !in SlotsBefore(t, id, b, p)
  {
  }

  predicate IsTerrible(i: Info, now: int) {
    if i.lastTry != 0 && i.lastTry >= now - 60 then false
    else
      || i.addr.time > now + 10 * 60
      || i.addr.time == 0
      || now - i.addr.time > 30 * 24 * 60 * 60
      || (i.lastSuccess == 0 && i.attempts >= 3)
      || (now - i.lastSuccess > 7 * 24 * 60 * 60 && i.attempts >= 10)
  }

  // ---------------------------------------------------------------- the invariant

  ghost predicate IdsOk(info: map<int, Info>, idCount: int) {
    0 <= idCount && forall id :: id in info ==> 0 <= id < idCount
  }

  /** `mapAddr` and `mapInfo` are exact inverses. */
  ghost predicate AddrOk(info: map<int, Info>, addr: map<NetAddr, int>) {
    && (forall a :: a in addr ==> addr[a] in info && info[addr[a]].addr.service.ip == a)
    && (forall id :: id in info ==>
          var a := info[id].addr.service.ip; a in addr && addr[a] == id)
  }

  /** `vRandom` and `nRandomPos` are exact inverses. */
  ghost predicate RandomOk(info: map<int, Info>, random: seq<int>) {
    && (forall i :: 0 <= i < |random| ==> random[i] in info && info[random[i]].randomPos == i)
    && (forall id :: id in info ==>
          0 <= info[id].randomPos < |random| && random[info[id].randomPos] == id)
  }

  /** The times `Check_` demands: none negative, and a success on record for every tried entry. */
  ghost predicate TimesOk(info: map<int, Info>) {
    forall id :: id in info ==>
      && info[id].lastTry >= 0
      && info[id].lastSuccess >= 0
      && (info[id].inTried ==> info[id].lastSuccess != 0)
  }

  ghost predicate IndexOk(s: State) {
    IdsOk(s.info, s.idCount) && AddrOk(s.info, s.addr) && RandomOk(s.info, s.random)
  }

  /** The tried table holds exactly the tried entries, each in its hashed slot. */
  ghost predicate TriedOk(h: Hasher, key: Key, info: map<int, Info>, triedTab: Table) {
    && (forall k :: k in triedTab ==>
          && triedTab[k] in info
          && info[triedTab[k]].inTried
          && k == TriedSlot(h, key, info[triedTab[k]]))
    && (forall id :: id in info && info[id].inTried ==>
          && info[id].refCount == 0
          && TriedSlot(h, key, info[id]) in triedTab
          && triedTab[TriedSlot(h, key, info[id])] == id)
  }

  /** Every occupied slot of the new table holds an untried entry outside `limbo`, at its hashed position. */
  ghost predicate NewSlotsOk(h: Hasher, key: Key, info: map<int, Info>, newTab: Table, limbo: set<int>) {
    forall k :: k in newTab ==>
      && newTab[k] in info
      && newTab[k] !in limbo
      && !info[newTab[k]].inTried
      && k.bucket < NEW_BUCKET_COUNT
      && k == NewSlot(h, key, info[newTab[k]], k.bucket)
  }

  /** An untried entry's reference count is the number of its slots, one to eight. */
  ghost predicate RefsOk(info: map<int, Info>, newTab: Table, limbo: set<int>) {
    && (forall id :: id in info && !info[id].inTried && id !in limbo ==>
          && 1 <= info[id].refCount <= NEW_BUCKETS_PER_ADDRESS
          && info[id].refCount == |SlotsOf(newTab, id)|)
    && (forall id :: id in limbo ==>
          id in info && !info[id].inTried && info[id].refCount == 0)
  }

  ghost predicate NewOk(h: Hasher, key: Key, info: map<int, Info>, newTab: Table, limbo: set<int>) {
    NewSlotsOk(h, key, info, newTab, limbo) && RefsOk(info, newTab, limbo)
  }

  function TriedIds(info: map<int, Info>): set<int> {
    set id | id in info && info[id].inTried
  }

  function NewIds(info: map<int, Info>, limbo: set<int>): set<int> {
    set id | id in info && !info[id].inTried && id !in limbo
  }

  ghost predicate CountsOk(s: State, limbo: set<int>, extra: int) {
    s.nTried == |TriedIds(s.info)| && s.nNew == |NewIds(s.info, limbo)| + extra
  }

  /**
   The invariant between two steps of one operation. The entries in `limbo` are in
   neither table for the moment, and `extra` of them are already (or still) counted in nNew.
   */
  ghost predicate InvBut(h: Hasher, s: State, limbo: set<int>, extra: int) {
    && IndexOk(s) && TriedOk(h, s.key, s.info, s.triedTab)
    && NewOk(h, s.key, s.info, s.newTab, limbo) && CountsOk(s, limbo, extra)
  }

  /** The structural part of the invariant, between operations. */
  ghost predicate Inv(h: Hasher, s: State) {
    InvBut(h, s, {}, 0)
  }

  lemma InvParts(h: Hasher, s: State)
    requires Inv(h, s)
    ensures IdsOk(s.info, s.idCount) && AddrOk(s.info, s.addr) && RandomOk(s.info, s.random)
    ensures TriedOk(h, s.key, s.info, s.triedTab) && NewOk(h, s.key, s.info, s.newTab, {}) && CountsOk(s, {}, 0)
  {
  }

  /** Everything `Check_` tests but the key. */
  ghost predicate CheckOk(h: Hasher, s: State) {
    Inv(h, s) && TimesOk(s.info)
  }

  // ---------------------------------------------------------------- internal operations

  function Create(s: State, a: Address, source: NetAddr): (r: State) {
    var i := Info(a, source, 0, 0, 0, 0, false, |s.random|);
    s.(idCount := s.idCount + 1,
       info := s.info[s.idCount := i],
       addr := s.addr[a.service.ip := s.idCount],
       random := s.random + [s.idCount])
  }

  function SwapRandom(s: State, p: nat, q: nat): (r: State)
    requires p < |s.random| && q < |s.random|
    requires s.random[p] in s.info && s.random[q] in s.info
  {
    if p == q then s else
    var id1, id2 := s.random[p], s.random[q];
    var info1 := s.info[id1 := s.info[id1].(randomPos := q)];
    s.(info := info1[id2 := info1[id2].(randomPos := p)],
       random := s.random[p := id2][q := id1])
  }

  function Delete(s: State, id: int): (r: State)
    requires RandomOk(s.info, s.random) && id in s.info
  {
    var t := SwapRandom(s, s.info[id].randomPos, |s.random| - 1);
    t.(random := t.random[..|t.random| - 1],
       addr := t.addr - {s.info[id].addr.service.ip},
       info := t.info - {id},
       nNew := t.nNew - 1)
  }

  /** Take `slot` away from its holder, which loses one reference. */
  function Unref(s: State, slot: Slot): (r: State)
    requires slot in s.newTab && s.newTab[slot] in s.info
  {
    var id := s.newTab[slot];
    s.(info := s.info[id := s.info[id].(refCount := s.info[id].refCount - 1)],
       newTab := s.newTab - {slot})
  }

  function ClearNew(s: State, slot: Slot): (r: State)
    requires RandomOk(s.info, s.random)
    requires slot in s.newTab ==> s.newTab[slot] in s.info
  {
    if slot !in s.newTab then s else
    var id := s.newTab[slot];
    var t := Unref(s, slot);
    if t.info[id].refCount == 0 then Delete(t, id) else t
  }

  /** Give `id` the slot, and one reference with it. */
  function Insert(s: State, id: int, slot: Slot): (r: State)
    requires id in s.info
  {
    s.(info := s.info[id := s.info[id].(refCount := s.info[id].refCount + 1)],
       newTab := s.newTab[slot := id])
  }

  /** The slots the sweep over the first `upTo` new buckets takes from `id`. */
  function SweptSlots(h: Hasher, s: State, id: int, upTo: nat): set<Slot>
    requires id in s.info
  {
    set k | k in s.newTab && s.newTab[k] == id && k.bucket < upTo
            && k == NewSlot(h, s.key, s.info[id], k.bucket)
  }

  function Sweep(h: Hasher, s: State, id: int, upTo: nat): (r: State)
    requires id in s.info
  {
    Without(s, id, SweptSlots(h, s, id, upTo))
  }

  /** The slots `gone` of `id` freed, and its references counted down. */
  function Without(s: State, id: int, gone: set<Slot>): (r: State)
    requires id in s.info
  {
    s.(info := s.info[id := s.info[id].(refCount := s.info[id].refCount - |gone|)],
       newTab := s.newTab - gone)
  }

  /** Take the holder of tried slot `k` out of the tried table. */
  function Evict(s: State, k: Slot): (r: State)
    requires k in s.triedTab && s.triedTab[k] in s.info
  {
    var id := s.triedTab[k];
    s.(info := s.info[id := s.info[id].(inTried := false)],
       triedTab := s.triedTab - {k},
       nTried := s.nTried - 1)
  }

  function PlaceTried(s: State, id: int, k: Slot): (r: State)
    requires id in s.info
  {
    s.(info := s.info[id := s.info[id].(inTried := true)],
       triedTab := s.triedTab[k := id],
       nTried := s.nTried + 1)
  }

  // ---------------------------------------------------------------- what each step keeps

  /** The two states index the same entries and agree on every address and position. */
  ghost predicate SameIndex(s: State, r: State) {
    && r.idCount == s.idCount && r.addr == s.addr && r.random == s.random && r.key == s.key
    && r.info.Keys == s.info.Keys
    && forall id :: id in s.info ==>
         && r.info[id].addr == s.info[id].addr
         && r.info[id].randomPos == s.info[id].randomPos
  }

  lemma SameIndexKeeps(s: State, r: State)
    requires IndexOk(s) && SameIndex(s, r)
    ensures IndexOk(r)
  {
    assert AddrOk(r.info, r.addr) by { SameIndexKeepsAddr(s, r); }
    assert RandomOk(r.info, r.random) by { SameIndexKeepsRandom(s, r); }
  }

  lemma SameIndexKeepsAddr(s: State, r: State)
    requires AddrOk(s.info, s.addr) && SameIndex(s, r)
    ensures AddrOk(r.info, r.addr)
  {
    assert forall id :: id in s.info ==> r.info[id].addr == s.info[id].addr;
  }

  lemma SameIndexKeepsRandom(s: State, r: State)
    requires RandomOk(s.info, s.random) && SameIndex(s, r)
    ensures RandomOk(r.info, r.random)
  {
    assert forall id :: id in s.info ==> r.info[id].randomPos == s.info[id].randomPos;
  }

  lemma CreateKeeps(h: Hasher, s: State, a: Address, source: NetAddr)
    requires Inv(h, s) && a.service.ip !in s.addr
    ensures InvBut(h, Create(s, a, source), {s.idCount}, 0)
  {
    CreateKeepsIndex(s, a, source);
    CreateKeepsTables(h, s, a, source);
    hide IdsOk, AddrOk, RandomOk, TriedOk, NewSlotsOk, RefsOk;
    var r := Create(s, a, source);
    assert TriedIds(r.info) == TriedIds(s.info);
    assert NewIds(r.info, {s.idCount}) == NewIds(s.info, {});
  }

  lemma CreateKeepsIndex(s: State, a: Address, source: NetAddr)
    requires IndexOk(s) && a.service.ip !in s.addr
    ensures IndexOk(Create(s, a, source)) && s.idCount !in s.info
  {
  }

  lemma CreateKeepsTables(h: Hasher, s: State, a: Address, source: NetAddr)
    requires TriedOk(h, s.key, s.info, s.triedTab) && NewOk(h, s.key, s.info, s.newTab, {}) && s.idCount !in s.info
    ensures var r := Create(s, a, source);
      TriedOk(h, r.key, r.info, r.triedTab) && NewOk(h, r.key, r.info, r.newTab, {s.idCount})
  {
  }

  lemma SwapKeepsRandom(s: State, p: nat, q: nat)
    requires RandomOk(s.info, s.random) && p < |s.random| && q < |s.random|
    ensures RandomOk(SwapRandom(s, p, q).info, SwapRandom(s, p, q).random)
    ensures p != q ==> s.random[p] != s.random[q]
  {
  }

  /** A swap moves nothing but positions in the random order. */
  lemma SwapKeepsEntries(s: State, p: nat, q: nat)
    requires RandomOk(s.info, s.random) && p < |s.random| && q < |s.random|
    ensures SwapRandom(s, p, q).info.Keys == s.info.Keys
    ensures forall id :: id in s.info ==> EqualButPos(SwapRandom(s, p, q).info[id], s.info[id])
  {
  }

  ghost predicate EqualButPos(i: Info, j: Info) {
    && i.addr == j.addr && i.source == j.source && i.lastTry == j.lastTry && i.lastSuccess == j.lastSuccess
    && i.attempts == j.attempts && i.refCount == j.refCount && i.inTried == j.inTried
  }

  /** The two states hold the same entries up to their place in the random order. */
  ghost predicate SameEntries(s: State, r: State) {
    && r.(random := s.random, info := s.info) == s
    && r.info.Keys == s.info.Keys
    && forall id :: id in s.info ==> EqualButPos(r.info[id], s.info[id])
  }

  lemma SameEntriesKeeps(h: Hasher, s: State, r: State, limbo: set<int>, extra: int)
    requires InvBut(h, s, limbo, extra) && SameEntries(s, r) && RandomOk(r.info, r.random)
    ensures InvBut(h, r, limbo, extra)
  {
    assert AddrOk(r.info, r.addr) by { SameEntriesKeepsAddr(s, r); }
    assert TriedOk(h, r.key, r.info, r.triedTab) by { SameEntriesKeepsTried(h, s, r); }
    assert NewOk(h, r.key, r.info, r.newTab, limbo) by { SameEntriesKeepsNew(h, s, r, limbo); }
    SameEntriesCount(s, r, limbo);
  }

  lemma SameEntriesKeepsAddr(s: State, r: State)
    requires AddrOk(s.info, s.addr) && SameEntries(s, r)
    ensures AddrOk(r.info, r.addr)
  {
    assert forall id :: id in s.info ==> r.info[id].addr == s.info[id].addr;
  }

  lemma SameEntriesKeepsTried(h: Hasher, s: State, r: State)
    requires TriedOk(h, s.key, s.info, s.triedTab) && SameEntries(s, r)
    ensures TriedOk(h, r.key, r.info, r.triedTab)
  {
    assert forall id :: id in s.info ==> EqualButPos(r.info[id], s.info[id]);
  }

  lemma SameEntriesKeepsNew(h: Hasher, s: State, r: State, limbo: set<int>)
    requires NewOk(h, s.key, s.info, s.newTab, limbo) && SameEntries(s, r)
    ensures NewOk(h, r.key, r.info, r.newTab, limbo)
  {
    assert forall id :: id in s.info ==> EqualButPos(r.info[id], s.info[id]);
  }

  lemma SameEntriesCount(s: State, r: State, limbo: set<int>)
    requires SameEntries(s, r)
    ensures TriedIds(r.info) == TriedIds(s.info) && NewIds(r.info, limbo) == NewIds(s.info, limbo)
  {
    assert forall id :: id in s.info ==> EqualButPos(r.info[id], s.info[id]);
  }

  lemma SwapKeeps(h: Hasher, s: State, p: nat, q: nat, limbo: set<int>, extra: int)
    requires InvBut(h, s, limbo, extra) && p < |s.random| && q < |s.random|
    ensures InvBut(h, SwapRandom(s, p, q), limbo, extra)
    ensures SameEntries(s, SwapRandom(s, p, q))
  {
    SwapKeepsRandom(s, p, q);
    SwapKeepsEntries(s, p, q);
    hide AddrOk, TriedOk, NewSlotsOk, RefsOk, RandomOk;
    SameEntriesKeeps(h, s, SwapRandom(s, p, q), limbo, extra);
  }

  /** What Delete does once the doomed entry is last in the random order. */
  function DropLast(t: State, id: int): State
    requires id in t.info && |t.random| > 0
  {
    t.(random := t.random[..|t.random| - 1],
       addr := t.addr - {t.info[id].addr.service.ip},
       info := t.info - {id},
       nNew := t.nNew - 1)
  }

  lemma DropLastKeeps(h: Hasher, t: State, id: int, limbo: set<int>, extra: int)
    requires InvBut(h, t, limbo, extra) && id in limbo && id in t.info && |t.random| > 0
    requires t.info[id].randomPos == |t.random| - 1
    ensures InvBut(h, DropLast(t, id), limbo - {id}, extra - 1)
  {
    hide IdsOk, AddrOk, RandomOk, TriedOk, NewOk;
    var r := DropLast(t, id);
    DropLastKeepsIndex(t, id);
    DropLastKeepsTables(h, t, id, limbo);
    assert TriedIds(r.info) == TriedIds(t.info);
    assert NewIds(r.info, limbo - {id}) == NewIds(t.info, limbo);
  }

  lemma DropLastKeepsTables(h: Hasher, t: State, id: int, limbo: set<int>)
    requires TriedOk(h, t.key, t.info, t.triedTab) && NewOk(h, t.key, t.info, t.newTab, limbo) && id in limbo
    ensures TriedOk(h, t.key, t.info - {id}, t.triedTab) && NewOk(h, t.key, t.info - {id}, t.newTab, limbo - {id})
    ensures !t.info[id].inTried
  {
  }

  lemma DropLastKeepsIndex(t: State, id: int)
    requires IndexOk(t) && id in t.info && |t.random| > 0
    requires t.info[id].randomPos == |t.random| - 1
    ensures IndexOk(DropLast(t, id))
  {
    var r := DropLast(t, id);
    assert RandomOk(r.info, r.random);
    assert AddrOk(r.info, r.addr);
  }

  /** Deleting an entry leaves every other one as it was, up to its place in the random order. */
  lemma DeleteEntries(s: State, id: int)
    requires RandomOk(s.info, s.random) && id in s.info
    ensures Delete(s, id).info.Keys == s.info.Keys - {id}
    ensures forall j :: j in s.info && j != id ==> EqualButPos(Delete(s, id).info[j], s.info[j])
  {
    SwapKeepsEntries(s, s.info[id].randomPos, |s.random| - 1);
  }

  lemma DeleteKeeps(h: Hasher, s: State, id: int, limbo: set<int>, extra: int)
    requires InvBut(h, s, limbo, extra) && id in limbo && id in s.info && RandomOk(s.info, s.random)
    ensures InvBut(h, Delete(s, id), limbo - {id}, extra - 1)
  {
    hide InvBut;
    var p, last := s.info[id].randomPos, |s.random| - 1;
    SwapKeeps(h, s, p, last, limbo, extra);
    SwapMoves(s, id);
    hide RandomOk, SwapRandom;
    DropLastKeeps(h, SwapRandom(s, p, last), id, limbo, extra);
  }

  lemma SwapMoves(s: State, id: int)
    requires RandomOk(s.info, s.random) && id in s.info
    ensures var t := SwapRandom(s, s.info[id].randomPos, |s.random| - 1);
      && id in t.info && t.info[id].randomPos == |s.random| - 1 && t.info[id].addr == s.info[id].addr
      && |t.random| == |s.random| > 0 && Delete(s, id) == DropLast(t, id)
  {
    hide RandomOk, SwapRandom;
    Placed(s, id);
    MovesTo(s, s.info[id].randomPos, |s.random| - 1);
  }

  lemma Placed(s: State, id: int)
    requires RandomOk(s.info, s.random) && id in s.info
    ensures 0 <= s.info[id].randomPos < |s.random| && s.random[s.info[id].randomPos] == id
    ensures s.random[|s.random| - 1] in s.info && s.info[s.random[|s.random| - 1]].randomPos == |s.random| - 1
  {
  }

  lemma MovesTo(s: State, p: nat, q: nat)
    requires p < |s.random| && q < |s.random| && s.random[p] in s.info && s.random[q] in s.info
    requires s.info[s.random[p]].randomPos == p && (p != q ==> s.random[p] != s.random[q])
    ensures var t := SwapRandom(s, p, q);
      && |t.random| == |s.random| && s.random[p] in t.info
      && t.info[s.random[p]].randomPos == q && t.info[s.random[p]].addr == s.info[s.random[p]].addr
  {
  }

  lemma SlotsWithout(t: Table, slot: Slot, id: int)
    requires slot in t
    ensures |SlotsOf(t - {slot}, id)| == |SlotsOf(t, id)| - if t[slot] == id then 1 else 0
  {
    assert SlotsOf(t - {slot}, id) == SlotsOf(t, id) - {slot};
    if t[slot] == id {
      assert slot in SlotsOf(t, id);
    } else {
      assert slot !in SlotsOf(t, id);
    }
  }

  /** The reference count of an untried entry is no concern of the tried table. */
  lemma RefChangeKeepsTried(h: Hasher, s: State, id: int, n: int)
    requires TriedOk(h, s.key, s.info, s.triedTab) && id in s.info && !s.info[id].inTried
    ensures TriedOk(h, s.key, s.info[id := s.info[id].(refCount := n)], s.triedTab)
    ensures TriedIds(s.info[id := s.info[id].(refCount := n)]) == TriedIds(s.info)
  {
  }

  lemma HolderFacts(h: Hasher, s: State, slot: Slot, limbo: set<int>)
    requires NewOk(h, s.key, s.info, s.newTab, limbo) && slot in s.newTab
    ensures var id := s.newTab[slot]; id in s.info && !s.info[id].inTried && id !in limbo && s.info[id].refCount >= 1
  {
  }

  /** Losing the last reference puts the holder in limbo, still counted in nNew. */
  lemma UnrefKeeps(h: Hasher, s: State, slot: Slot, limbo: set<int>, extra: int)
    requires InvBut(h, s, limbo, extra) && slot in s.newTab && s.newTab[slot] in s.info
    ensures var id := s.newTab[slot];
      if s.info[id].refCount == 1
      then InvBut(h, Unref(s, slot), limbo + {id}, extra + 1)
      else InvBut(h, Unref(s, slot), limbo, extra)
  {
    hide IdsOk, AddrOk, RandomOk, TriedOk, NewOk;
    var id := s.newTab[slot];
    var r := Unref(s, slot);
    HolderFacts(h, s, slot, limbo);
    SameIndexKeeps(s, r);
    RefChangeKeepsTried(h, s, id, s.info[id].refCount - 1);
    UnrefKeepsNew(h, s, slot, limbo);
    if s.info[id].refCount == 1 {
      assert NewIds(s.info, limbo) == NewIds(r.info, limbo + {id}) + {id};
    } else {
      assert NewIds(r.info, limbo) == NewIds(s.info, limbo);
    }
  }

  lemma UnrefCounts(s: State, slot: Slot)
    requires slot in s.newTab && s.newTab[slot] in s.info
    ensures forall j :: j in s.info ==>
      |SlotsOf(s.newTab - {slot}, j)| == |SlotsOf(s.newTab, j)| - if j == s.newTab[slot] then 1 else 0
  {
    forall j | j in s.info
      ensures |SlotsOf(s.newTab - {slot}, j)| == |SlotsOf(s.newTab, j)| - if j == s.newTab[slot] then 1 else 0
    {
      SlotsWithout(s.newTab, slot, j);
    }
  }

  lemma UnrefKeepsRefs(s: State, slot: Slot, limbo: set<int>)
    requires RefsOk(s.info, s.newTab, limbo) && slot in s.newTab && s.newTab[slot] in s.info
    requires !s.info[s.newTab[slot]].inTried && s.newTab[slot] !in limbo
    ensures RefsOk(Unref(s, slot).info, s.newTab - {slot},
                   if s.info[s.newTab[slot]].refCount == 1 then limbo + {s.newTab[slot]} else limbo)
    ensures s.info[s.newTab[slot]].refCount == 1 ==> SlotsOf(s.newTab - {slot}, s.newTab[slot]) == {}
  {
    UnrefCounts(s, slot);
  }

  lemma UnrefKeepsNew(h: Hasher, s: State, slot: Slot, limbo: set<int>)
    requires NewOk(h, s.key, s.info, s.newTab, limbo) && slot in s.newTab && s.newTab[slot] in s.info
    ensures NewOk(h, s.key, Unref(s, slot).info, s.newTab - {slot},
                  if s.info[s.newTab[slot]].refCount == 1 then limbo + {s.newTab[slot]} else limbo)
  {
    hide RefsOk;
    var id := s.newTab[slot];
    UnrefKeepsRefs(s, slot, limbo);
    assert forall k :: k in s.newTab - {slot} && s.newTab[k] == id ==> k in SlotsOf(s.newTab - {slot}, id);
  }

  lemma ClearNewKeeps(h: Hasher, s: State, slot: Slot, limbo: set<int>, extra: int)
    requires InvBut(h, s, limbo, extra)
    ensures InvBut(h, ClearNew(s, slot), limbo, extra)
  {
    if slot in s.newTab {
      var id := s.newTab[slot];
      HolderFacts(h, s, slot, limbo);
      hide InvBut, RandomOk;
      UnrefKeeps(h, s, slot, limbo, extra);
      if s.info[id].refCount == 1 {
        DeleteKeeps(h, Unref(s, slot), id, limbo + {id}, extra + 1);
        assert limbo + {id} - {id} == limbo;
      }
    }
  }

  /** Only the holder of the cleared slot changes, and it goes only with its last reference. */
  lemma ClearNewEntries(s: State, slot: Slot)
    requires RandomOk(s.info, s.random) && (slot in s.newTab ==> s.newTab[slot] in s.info)
    ensures var r := ClearNew(s, slot);
      && r == s.(info := r.info, addr := r.addr, random := r.random, nNew := r.nNew, newTab := s.newTab - {slot})
      && r.info.Keys == (if slot in s.newTab && s.info[s.newTab[slot]].refCount == 1
                         then s.info.Keys - {s.newTab[slot]} else s.info.Keys)
      && forall j :: j in s.info && (slot in s.newTab ==> j != s.newTab[slot]) ==> EqualButPos(r.info[j], s.info[j])
  {
    if slot in s.newTab {
      var t := Unref(s, slot);
      assert RandomOk(t.info, t.random);
      DeleteEntries(t, s.newTab[slot]);
    } else {
      assert s.newTab - {slot} == s.newTab;
    }
  }

  lemma SlotsWith(t: Table, slot: Slot, who: int, id: int)
    requires slot !in t
    ensures |SlotsOf(t[slot := who], id)| == |SlotsOf(t, id)| + if who == id then 1 else 0
  {
    if who == id {
      assert SlotsOf(t[slot := who], id) == SlotsOf(t, id) + {slot};
    } else {
      assert SlotsOf(t[slot := who], id) == SlotsOf(t, id);
    }
  }

  /** Taking a free slot moves an entry out of limbo, or adds a reference below the maximum of eight. */
  lemma InsertKeeps(h: Hasher, s: State, id: int, slot: Slot, limbo: set<int>, extra: int)
    requires InvBut(h, s, limbo, extra) && id in s.info && !s.info[id].inTried
    requires slot !in s.newTab && slot.bucket < NEW_BUCKET_COUNT
    requires slot == NewSlot(h, s.key, s.info[id], slot.bucket)
    requires id in limbo || s.info[id].refCount < NEW_BUCKETS_PER_ADDRESS
    ensures InvBut(h, Insert(s, id, slot), limbo - {id}, if id in limbo then extra - 1 else extra)
  {
    hide IdsOk, AddrOk, RandomOk, TriedOk, NewOk;
    var r := Insert(s, id, slot);
    SameIndexKeeps(s, r);
    InsertKeepsNew(h, s, id, slot, limbo);
    RefChangeKeepsTried(h, s, id, s.info[id].refCount + 1);
    InsertIds(s, id, slot, limbo);
    hide TriedIds, NewIds, Insert;
  }

  lemma InsertIds(s: State, id: int, slot: Slot, limbo: set<int>)
    requires id in s.info && !s.info[id].inTried
    ensures var r := Insert(s, id, slot);
      && TriedIds(r.info) == TriedIds(s.info)
      && NewIds(r.info, limbo - {id}) == NewIds(s.info, limbo) + (if id in limbo then {id} else {})
      && (id in limbo ==> id !in NewIds(s.info, limbo)) && NewIds(s.info, limbo) + {} == NewIds(s.info, limbo)
  {
  }

  lemma InsertKeepsNew(h: Hasher, s: State, id: int, slot: Slot, limbo: set<int>)
    requires NewOk(h, s.key, s.info, s.newTab, limbo) && id in s.info && !s.info[id].inTried
    requires slot !in s.newTab && slot.bucket < NEW_BUCKET_COUNT
    requires slot == NewSlot(h, s.key, s.info[id], slot.bucket)
    requires id in limbo || s.info[id].refCount < NEW_BUCKETS_PER_ADDRESS
    ensures NewOk(h, Insert(s, id, slot).key, Insert(s, id, slot).info, Insert(s, id, slot).newTab, limbo - {id})
  {
    var r := Insert(s, id, slot);
    forall j | j in s.info
      ensures |SlotsOf(r.newTab, j)| == |SlotsOf(s.newTab, j)| + if j == id then 1 else 0
    {
      SlotsWith(s.newTab, slot, id, j);
    }
    if id in limbo {
      assert SlotsOf(s.newTab, id) == {};
    }
  }

  /** The sweep over all new buckets finds every slot of the entry, so no reference is left. */
  lemma SweepKeeps(h: Hasher, s: State, id: int)
    requires Inv(h, s) && id in s.info && !s.info[id].inTried
    ensures InvBut(h, Sweep(h, s, id, NEW_BUCKET_COUNT), {id}, 1)
  {
    hide IdsOk, AddrOk, RandomOk, TriedOk, NewOk;
    var r := Sweep(h, s, id, NEW_BUCKET_COUNT);
    SweepKeepsNew(h, s, id);
    SameIndexKeeps(s, r);
    RefChangeKeepsTried(h, s, id, r.info[id].refCount);
    assert NewIds(s.info, {}) == NewIds(r.info, {id}) + {id};
  }

  lemma SweepKeepsNew(h: Hasher, s: State, id: int)
    requires NewOk(h, s.key, s.info, s.newTab, {}) && id in s.info && !s.info[id].inTried
    ensures var r := Sweep(h, s, id, NEW_BUCKET_COUNT); NewOk(h, r.key, r.info, r.newTab, {id})
  {
    var r := Sweep(h, s, id, NEW_BUCKET_COUNT);
    assert SweptSlots(h, s, id, NEW_BUCKET_COUNT) == SlotsOf(s.newTab, id);
    forall j | j in s.info && j != id ensures SlotsOf(r.newTab, j) == SlotsOf(s.newTab, j) {}
  }

  lemma EvictKeepsTables(h: Hasher, s: State, k: Slot, limbo: set<int>)
    requires TriedOk(h, s.key, s.info, s.triedTab) && NewOk(h, s.key, s.info, s.newTab, limbo)
    requires k in s.triedTab && s.triedTab[k] in s.info
    ensures TriedOk(h, s.key, Evict(s, k).info, Evict(s, k).triedTab)
    ensures NewOk(h, s.key, Evict(s, k).info, s.newTab, limbo + {s.triedTab[k]})
    ensures s.info[s.triedTab[k]].inTried && s.triedTab[k] !in limbo
  {
  }

  lemma EvictKeeps(h: Hasher, s: State, k: Slot, limbo: set<int>, extra: int)
    requires InvBut(h, s, limbo, extra) && k in s.triedTab && s.triedTab[k] in s.info
    ensures InvBut(h, Evict(s, k), limbo + {s.triedTab[k]}, extra)
  {
    hide IdsOk, AddrOk, RandomOk, TriedOk, NewOk;
    var id := s.triedTab[k];
    var r := Evict(s, k);
    SameIndexKeeps(s, r);
    EvictKeepsTables(h, s, k, limbo);
    assert TriedIds(s.info) == TriedIds(r.info) + {id};
    assert NewIds(r.info, limbo + {id}) == NewIds(s.info, limbo);
  }

  lemma PlaceTriedKeepsTables(h: Hasher, s: State, id: int, limbo: set<int>)
    requires TriedOk(h, s.key, s.info, s.triedTab) && NewOk(h, s.key, s.info, s.newTab, limbo)
    requires id in limbo && id in s.info && TriedSlot(h, s.key, s.info[id]) !in s.triedTab
    ensures var r := PlaceTried(s, id, TriedSlot(h, s.key, s.info[id]));
      TriedOk(h, s.key, r.info, r.triedTab) && NewOk(h, s.key, r.info, s.newTab, limbo - {id})
    ensures !s.info[id].inTried
  {
    hide TriedOk, NewOk;
    PlaceTriedKeepsTried(h, s, id, limbo);
    PlaceTriedKeepsNew(h, s, id, limbo);
  }

  lemma PlaceTriedKeepsTried(h: Hasher, s: State, id: int, limbo: set<int>)
    requires TriedOk(h, s.key, s.info, s.triedTab) && NewOk(h, s.key, s.info, s.newTab, limbo)
    requires id in limbo && id in s.info && TriedSlot(h, s.key, s.info[id]) !in s.triedTab
    ensures var r := PlaceTried(s, id, TriedSlot(h, s.key, s.info[id])); TriedOk(h, s.key, r.info, r.triedTab)
    ensures !s.info[id].inTried
  {
    hide NewSlotsOk;
  }

  lemma PlaceTriedKeepsNew(h: Hasher, s: State, id: int, limbo: set<int>)
    requires NewOk(h, s.key, s.info, s.newTab, limbo) && id in limbo && id in s.info
    ensures var r := PlaceTried(s, id, TriedSlot(h, s.key, s.info[id]));
      NewOk(h, s.key, r.info, s.newTab, limbo - {id})
  {
    hide TriedSlot;
  }

  lemma PlaceTriedIds(s: State, id: int, k: Slot, limbo: set<int>)
    requires id in s.info && id in limbo && !s.info[id].inTried
    ensures var r := PlaceTried(s, id, k);
      && TriedIds(r.info) == TriedIds(s.info) + {id} && id !in TriedIds(s.info)
      && NewIds(r.info, limbo - {id}) == NewIds(s.info, limbo)
  {
  }

  lemma PlaceTriedKeeps(h: Hasher, s: State, id: int, limbo: set<int>, extra: int)
    requires InvBut(h, s, limbo, extra) && id in limbo && id in s.info
    requires TriedSlot(h, s.key, s.info[id]) !in s.triedTab
    ensures InvBut(h, PlaceTried(s, id, TriedSlot(h, s.key, s.info[id])), limbo - {id}, extra)
  {
    hide IdsOk, AddrOk, RandomOk, TriedOk, NewOk;
    var r := PlaceTried(s, id, TriedSlot(h, s.key, s.info[id]));
    SameIndexKeeps(s, r);
    PlaceTriedKeepsTables(h, s, id, limbo);
    PlaceTriedIds(s, id, TriedSlot(h, s.key, s.info[id]), limbo);
    hide TriedIds, NewIds, PlaceTried;
  }
}
