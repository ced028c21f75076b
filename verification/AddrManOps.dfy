/**
 The public operations of the address manager as functions on its tables, with every
 random draw and clock reading a parameter, and that each of them keeps the invariant.
 */
module AddrManOps {
  import opened AddrManSpec
  import opened Positional

  /** Enough of the invariant for the operations to be defined. */
  ghost predicate Linked(s: State) {
    && RandomOk(s.info, s.random)
    && (forall a :: a in s.addr ==> s.addr[a] in s.info)
    && (forall k :: k in s.newTab ==> s.newTab[k] in s.info)
    && (forall k :: k in s.triedTab ==> s.triedTab[k] in s.info)
  }

  lemma InvLinked(h: Hasher, s: State, limbo: set<int>, extra: int)
    requires InvBut(h, s, limbo, extra)
    ensures Linked(s)
  {
  }

  lemma RecountKeeps(h: Hasher, s: State, limbo: set<int>, extra: int, d: int)
    requires InvBut(h, s, limbo, extra)
    ensures InvBut(h, s.(nNew := s.nNew + d), limbo, extra + d)
  {
    hide IdsOk, AddrOk, RandomOk, TriedOk, NewOk;
  }

  /** What an entry in limbo looks like. */
  lemma LimboFacts(h: Hasher, s: State, limbo: set<int>, extra: int, id: int)
    requires InvBut(h, s, limbo, extra) && id in limbo
    ensures id in s.info && s.info[id].refCount == 0 && !s.info[id].inTried
    ensures forall k :: k in s.newTab ==> s.newTab[k] != id
  {
  }

  // ---------------------------------------------------------------- moving to the tried table

  function OwnNewSlot(h: Hasher, key: Key, i: Info): Slot {
    NewSlot(h, key, i, NewBucket(h, key, i, i.source))
  }

  /** Move the evicted entry back into the slot of the new table that its own source selects. */
  ghost function Readmit(h: Hasher, s: State, id: int): (r: State)
    requires Linked(s) && id in s.info
    requires forall k :: k in s.newTab ==> s.newTab[k] != id
  {
    var u := OwnNewSlot(h, s.key, s.info[id]);
    ClearNewEntries(s, u);
    var t := ClearNew(s, u);
    t.(info := t.info[id := t.info[id].(refCount := 1)], newTab := t.newTab[u := id], nNew := t.nNew + 1)
  }

  lemma ReadmitKeeps(h: Hasher, s: State, id: int, limbo: set<int>)
    requires InvBut(h, s, limbo, 0) && id in limbo
    requires Linked(s) && id in s.info && forall k :: k in s.newTab ==> s.newTab[k] != id
    ensures InvBut(h, Readmit(h, s, id), limbo - {id}, 0)
    ensures Readmit(h, s, id).triedTab == s.triedTab && Readmit(h, s, id).key == s.key
  {
    hide InvBut, RandomOk;
    var u := OwnNewSlot(h, s.key, s.info[id]);
    ClearNewKeeps(h, s, u, limbo, 0);
    ClearNewEntries(s, u);
    var t := ClearNew(s, u);
    LimboFacts(h, t, limbo, 0, id);
    assert EqualButPos(t.info[id], s.info[id]);
    InsertKeeps(h, t, id, u, limbo, 0);
    RecountKeeps(h, Insert(t, id, u), limbo - {id}, -1, 1);
  }

  /** The tried slot of `id`, emptied: whoever held it goes back to the new table. */
  ghost function FreeTriedSlot(h: Hasher, s: State, id: int): (r: State)
    requires Linked(s) && id in s.info
    requires forall k :: k in s.triedTab ==>
      forall j :: j in s.newTab ==> s.newTab[j] != s.triedTab[k]
  {
    var k := TriedSlot(h, s.key, s.info[id]);
    if k !in s.triedTab then s else
    var t := Evict(s, k);
    assert RandomOk(t.info, t.random);
    Readmit(h, t, s.triedTab[k])
  }

  /** Move `id` from the new table to the tried table. */
  ghost function MakeTried(h: Hasher, s: State, id: int): (r: State)
    requires Inv(h, s) && id in s.info && !s.info[id].inTried
  {
    SweepKeeps(h, s, id);
    var t := Sweep(h, s, id, NEW_BUCKET_COUNT);
    RecountKeeps(h, t, {id}, 1, -1);
    var t1 := t.(nNew := t.nNew - 1);
    FreeTriedSlotKeeps(h, t1, id);
    PlaceTried(FreeTriedSlot(h, t1, id), id, TriedSlot(h, s.key, s.info[id]))
  }

  lemma TriedNotNew(h: Hasher, s: State, limbo: set<int>, extra: int)
    requires InvBut(h, s, limbo, extra)
    ensures forall k :: k in s.triedTab ==>
      s.triedTab[k] !in limbo && forall j :: j in s.newTab ==> s.newTab[j] != s.triedTab[k]
  {
    assert forall k :: k in s.triedTab ==> s.info[s.triedTab[k]].inTried;
    assert forall j :: j in s.newTab ==> !s.info[s.newTab[j]].inTried;
    assert forall id :: id in limbo ==> !s.info[id].inTried;
  }

  lemma FreeTriedSlotKeeps(h: Hasher, s: State, id: int)
    requires InvBut(h, s, {id}, 0)
    ensures Linked(s) && id in s.info
    ensures forall k :: k in s.triedTab ==>
      s.triedTab[k] != id && forall j :: j in s.newTab ==> s.newTab[j] != s.triedTab[k]
    ensures InvBut(h, FreeTriedSlot(h, s, id), {id}, 0)
    ensures id in FreeTriedSlot(h, s, id).info
    ensures FreeTriedSlot(h, s, id).triedTab == s.triedTab - {TriedSlot(h, s.key, s.info[id])}
    ensures FreeTriedSlot(h, s, id).key == s.key
  {
    hide InvBut, RandomOk;
    InvLinked(h, s, {id}, 0);
    TriedNotNew(h, s, {id}, 0);
    LimboFacts(h, s, {id}, 0, id);
    var k := TriedSlot(h, s.key, s.info[id]);
    if k in s.triedTab {
      var out := s.triedTab[k];
      EvictKeeps(h, s, k, {id}, 0);
      var t := Evict(s, k);
      InvLinked(h, t, {id} + {out}, 0);
      LimboFacts(h, t, {id} + {out}, 0, out);
      ReadmitKeeps(h, t, out, {id} + {out});
      assert {id} + {out} - {out} == {id};
      assert FreeTriedSlot(h, s, id) == Readmit(h, t, out);
    } else {
      assert s.triedTab - {k} == s.triedTab;
    }
    LimboFacts(h, FreeTriedSlot(h, s, id), {id}, 0, id);
  }

  lemma MakeTriedKeeps(h: Hasher, s: State, id: int)
    requires Inv(h, s) && id in s.info && !s.info[id].inTried
    ensures Inv(h, MakeTried(h, s, id))
  {
    hide InvBut, RandomOk, FreeTriedSlot;
    SweepKeeps(h, s, id);
    var t := Sweep(h, s, id, NEW_BUCKET_COUNT);
    RecountKeeps(h, t, {id}, 1, -1);
    var t1 := t.(nNew := t.nNew - 1);
    FreeTriedSlotKeeps(h, t1, id);
    var f := FreeTriedSlot(h, t1, id);
    FreeTriedSlotService(h, t1, id);
    PlaceTriedKeeps(h, f, id, {id}, 0);
    assert {id} - {id} == {};
  }

  /** Emptying its tried slot changes nothing about `id` but its place in the random order. */
  lemma FreeTriedSlotService(h: Hasher, s: State, id: int)
    requires InvBut(h, s, {id}, 0)
    requires Linked(s) && id in s.info
    requires forall k :: k in s.triedTab ==>
      s.triedTab[k] != id && forall j :: j in s.newTab ==> s.newTab[j] != s.triedTab[k]
    ensures var r := FreeTriedSlot(h, s, id); id in r.info && EqualButPos(r.info[id], s.info[id])
  {
    hide InvBut;
    LimboFacts(h, s, {id}, 0, id);
    var k := TriedSlot(h, s.key, s.info[id]);
    if k in s.triedTab {
      var t := Evict(s, k);
      assert RandomOk(t.info, t.random);
      hide RandomOk, Readmit;
      ReadmitOthers(h, t, s.triedTab[k], id);
    }
  }

  lemma ReadmitOthers(h: Hasher, s: State, id: int, j: int)
    requires Linked(s) && id in s.info && (forall k :: k in s.newTab ==> s.newTab[k] != id)
    requires j in s.info && j != id && forall k :: k in s.newTab ==> s.newTab[k] != j
    ensures var r := Readmit(h, s, id); j in r.info && EqualButPos(r.info[j], s.info[j])
  {
    hide RandomOk, ClearNew;
    ClearNewEntries(s, OwnNewSlot(h, s.key, s.info[id]));
  }

  // ---------------------------------------------------------------- Good_, Attempt_, Connected_

  ghost predicate IsKnown(s: State, a: Service)
    requires Linked(s)
  {
    a.ip in s.addr && s.info[s.addr[a.ip]].addr.service == a
  }

  ghost function MarkGood(s: State, id: int, time: int): (r: State)
    requires id in s.info
  {
    s.(info := s.info[id := s.info[id].(lastSuccess := time, lastTry := time, attempts := 0)])
  }

  ghost predicate HasNewSlot(h: Hasher, s: State, id: int)
    requires id in s.info
  {
    exists b: nat :: b < NEW_BUCKET_COUNT && NewSlot(h, s.key, s.info[id], b) in SlotsOf(s.newTab, id)
  }

  /** The entries agree on everything the structure depends on. */
  predicate SameStructure(i: Info, j: Info) {
    i.addr.service == j.addr.service && i.randomPos == j.randomPos && i.refCount == j.refCount && i.inTried == j.inTried
  }

  lemma StatsKeepIndex(s: State, id: int, i: Info)
    requires IndexOk(s) && id in s.info && SameStructure(i, s.info[id])
    ensures IndexOk(s.(info := s.info[id := i]))
  {
  }

  lemma StatsKeepTables(h: Hasher, s: State, id: int, i: Info)
    requires TriedOk(h, s.key, s.info, s.triedTab) && NewOk(h, s.key, s.info, s.newTab, {})
    requires id in s.info && SameStructure(i, s.info[id])
    ensures TriedOk(h, s.key, s.info[id := i], s.triedTab) && NewOk(h, s.key, s.info[id := i], s.newTab, {})
  {
  }

  /** Changing an entry's statistics keeps the structure. */
  lemma StatsKeep(h: Hasher, s: State, id: int, i: Info)
    requires Inv(h, s) && id in s.info && SameStructure(i, s.info[id])
    ensures Inv(h, s.(info := s.info[id := i]))
  {
    hide IdsOk, AddrOk, RandomOk, TriedOk, NewOk;
    StatsKeepIndex(s, id, i);
    StatsKeepTables(h, s, id, i);
    var r := s.(info := s.info[id := i]);
    assert TriedIds(r.info) == TriedIds(s.info);
    assert NewIds(r.info, {}) == NewIds(s.info, {});
  }

  ghost function Good(h: Hasher, s: State, a: Service, time: int): (r: State)
    requires Inv(h, s) && Linked(s)
  {
    if !IsKnown(s, a) then s else
    var id := s.addr[a.ip];
    var t := MarkGood(s, id, time);
    if t.info[id].inTried || !HasNewSlot(h, t, id) then t else
    StatsKeep(h, s, id, t.info[id]);
    MakeTried(h, t, id)
  }

  ghost function Attempt(s: State, a: Service, time: int): (r: State)
    requires Linked(s)
  {
    if !IsKnown(s, a) then s else
    var id := s.addr[a.ip];
    s.(info := s.info[id := s.info[id].(lastTry := time, attempts := s.info[id].attempts + 1)])
  }

  ghost function Connected(s: State, a: Service, time: int): (r: State)
    requires Linked(s)
  {
    if !IsKnown(s, a) then s else
    var id := s.addr[a.ip];
    var i := s.info[id];
    if time - i.addr.time > 20 * 60
    then s.(info := s.info[id := i.(addr := i.addr.(time := ToUint32(time)))])
    else s
  }

  /** The structure survives Good_ whatever time it is given. */
  lemma GoodKeeps(h: Hasher, s: State, a: Service, time: int)
    requires Inv(h, s) && Linked(s)
    ensures Inv(h, Good(h, s, a, time))
  {
    hide InvBut, RandomOk;
    if IsKnown(s, a) {
      var id := s.addr[a.ip];
      var t := MarkGood(s, id, time);
      StatsKeep(h, s, id, t.info[id]);
      if !t.info[id].inTried && HasNewSlot(h, t, id) {
        MakeTriedKeeps(h, t, id);
      }
    }
  }

  lemma {:induction false} AttemptKeeps(h: Hasher, s: State, a: Service, time: int)
    requires Inv(h, s) && Linked(s)
    ensures Inv(h, Attempt(s, a, time)) && Inv(h, Connected(s, a, time))
  {
    hide InvBut, RandomOk;
    if IsKnown(s, a) {
      var id := s.addr[a.ip];
      StatsKeep(h, s, id, Attempt(s, a, time).info[id]);
      StatsKeep(h, s, id, Connected(s, a, time).info[id]);
      assert s.info[id := s.info[id]] == s.info;
    }
  }

  // ---------------------------------------------------------------- Add_

  /** Whether the entry `i` may take the slot that `holder` occupies. */
  predicate MayOverwrite(holder: Info, i: Info, now: int) {
    IsTerrible(holder, now) || (holder.refCount > 1 && i.refCount == 0)
  }

  /** Enter `id` in the new bucket its source selects; without any reference in the end it is deleted. */
  ghost function Place(h: Hasher, s: State, id: int, source: NetAddr, now: int): (r: State)
    requires Linked(s) && id in s.info
  {
    var u := NewSlot(h, s.key, s.info[id], NewBucket(h, s.key, s.info[id], source));
    if u in s.newTab && s.newTab[u] == id then s
    else if u !in s.newTab || MayOverwrite(s.info[s.newTab[u]], s.info[id], now) then
      ClearNewEntries(s, u);
      Insert(ClearNew(s, u), id, u)
    else if s.info[id].refCount == 0 then Delete(s, id)
    else s
  }

  lemma PlaceKeeps(h: Hasher, s: State, id: int, source: NetAddr, now: int, limbo: set<int>)
    requires Linked(s) && id in s.info && !s.info[id].inTried
    requires limbo == {id} || (limbo == {} && 0 < s.info[id].refCount < NEW_BUCKETS_PER_ADDRESS)
    requires InvBut(h, s, limbo, |limbo|)
    ensures Inv(h, Place(h, s, id, source, now))
  {
    hide InvBut, RandomOk;
    var u := NewSlot(h, s.key, s.info[id], NewBucket(h, s.key, s.info[id], source));
    if limbo == {id} { LimboFacts(h, s, limbo, |limbo|, id); }
    if u in s.newTab && s.newTab[u] == id {
    } else if u !in s.newTab || MayOverwrite(s.info[s.newTab[u]], s.info[id], now) {
      ClearNewKeeps(h, s, u, limbo, |limbo|);
      ClearNewEntries(s, u);
      var t := ClearNew(s, u);
      assert id in t.info && EqualButPos(t.info[id], s.info[id]);
      InsertKeeps(h, t, id, u, limbo, |limbo|);
      assert limbo - {id} == {};
    } else if s.info[id].refCount == 0 {
      DeleteKeeps(h, s, id, limbo, |limbo|);
      assert limbo - {id} == {};
    }
  }

  /** The new time and services a repeated announcement gives a known entry. */
  function Refreshed(i: Info, a: Address, penalty: int, now: int): (r: Info)
    ensures SameStructure(r, i)
  {
    var interval := if now - a.time < 24 * 60 * 60 then 60 * 60 else 24 * 60 * 60;
    var time :=
      if a.time != 0 && (i.addr.time == 0 || i.addr.time < a.time - interval - penalty)
      then ToUint32(if a.time - penalty > 0 then a.time - penalty else 0)
      else i.addr.time;
    i.(addr := i.addr.(time := time, services := i.addr.services + a.services))
  }

  /** Whether a repeated announcement earns a known entry another reference. */
  predicate WantsReference(i: Info, a: Address, rnd: nat) {
    && !(a.time == 0 || (i.addr.time != 0 && a.time <= i.addr.time))
    && !i.inTried
    && i.refCount != NEW_BUCKETS_PER_ADDRESS
    && (i.refCount >= 0 ==> Pow2(i.refCount) > 1 ==> rnd % Pow2(i.refCount) == 0)
  }

  ghost function CreateNew(s: State, a: Address, source: NetAddr, penalty: int): (r: State) {
    var time := if a.time - penalty > 0 then a.time - penalty else 0;
    var t := Create(s, a.(time := ToUint32(time)), source);
    t.(nNew := t.nNew + 1)
  }

  ghost function Add(h: Hasher, s: State, a: Address, source: NetAddr, penalty: int, now: int, rnd: nat): (r: State)
    requires Inv(h, s) && Linked(s)
  {
    var ip := a.service.ip;
    if !h.routable(ip) then s
    else if ip in s.addr then
      var id := s.addr[ip];
      var i := Refreshed(s.info[id], a, penalty, now);
      var t := s.(info := s.info[id := i]);
      StatsKeep(h, s, id, i);
      InvLinked(h, t, {}, 0);
      if WantsReference(i, a, rnd) then Place(h, t, id, source, now) else t
    else
      CreateNewKeeps(h, s, a, source, penalty);
      Place(h, CreateNew(s, a, source, penalty), s.idCount, source, now)
  }

  lemma {:induction false} CreateNewKeeps(h: Hasher, s: State, a: Address, source: NetAddr, penalty: int)
    requires Inv(h, s) && a.service.ip !in s.addr
    ensures InvBut(h, CreateNew(s, a, source, penalty), {s.idCount}, 1)
    ensures Linked(CreateNew(s, a, source, penalty))
  {
    hide InvBut;
    var time := if a.time - penalty > 0 then a.time - penalty else 0;
    CreateKeeps(h, s, a.(time := ToUint32(time)), source);
    RecountKeeps(h, Create(s, a.(time := ToUint32(time)), source), {s.idCount}, 0, 1);
    InvLinked(h, CreateNew(s, a, source, penalty), {s.idCount}, 1);
  }

  lemma NewEntryRefs(h: Hasher, s: State, id: int)
    requires Inv(h, s) && id in s.info && !s.info[id].inTried
    ensures 1 <= s.info[id].refCount <= NEW_BUCKETS_PER_ADDRESS
  {
  }

  lemma {:induction false} AddKeeps(h: Hasher, s: State, a: Address, source: NetAddr, penalty: int, now: int, rnd: nat)
    requires Inv(h, s) && Linked(s)
    ensures Inv(h, Add(h, s, a, source, penalty, now, rnd))
  {
    hide InvBut, RandomOk;
    var ip := a.service.ip;
    if h.routable(ip) {
      if ip in s.addr {
        var id := s.addr[ip];
        var i := Refreshed(s.info[id], a, penalty, now);
        var t := s.(info := s.info[id := i]);
        StatsKeep(h, s, id, i);
        InvLinked(h, t, {}, 0);
        if WantsReference(i, a, rnd) {
          NewEntryRefs(h, t, id);
          PlaceKeeps(h, t, id, source, now, {});
        }
      } else {
        CreateNewKeeps(h, s, a, source, penalty);
        PlaceKeeps(h, CreateNew(s, a, source, penalty), s.idCount, source, now, {s.idCount});
      }
    }
  }
}
