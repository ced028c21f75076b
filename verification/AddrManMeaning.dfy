/**
 What the address manager's operations do, in numbers: what a repeated announcement does to a known address, what a
 first one leaves on record, what attempts and connections record, and which entries are too bad to keep.
 */
module AddrManMeaning {
  import opened Positional
  import opened AddrManSpec
  import opened AddrManOps
  import opened AddrManRuns

  // ---------------------------------------------------------------- entries that are kept

  /**
   An entry is worth keeping exactly if it was tried within the last minute, or if it was seen within 30 days and not
   more than ten minutes ahead of the clock, succeeded once or failed less than three times, and succeeded within a
   week or failed less than ten times.
   */
  lemma WorthKeeping(i: Info, now: int)
    ensures !IsTerrible(i, now) <==>
      || (i.lastTry != 0 && now - i.lastTry <= 60)
      || (&& 0 < i.addr.time <= now + 600 && now - i.addr.time <= 2592000
          && (i.attempts < 3 || i.lastSuccess != 0)
          && (i.attempts < 10 || now - i.lastSuccess <= 604800))
  {
  }

  // ---------------------------------------------------------------- a known address announced again

  /** The slot that an announcement by `source` selects. */
  function SlotFor(h: Hasher, key: Key, service: Service, source: NetAddr): Slot {
    var b := h.unproven(key, service, source) % 1024;
    Slot(b, h.position(key, true, b, service) % 64)
  }

  /**
   The time on record after an announcement: unchanged unless the announced one is set and is newer by more than the
   penalty and an hour, or a day if it is itself a day old.
   */
  function SeenTime(time: nat, announced: nat, penalty: int, now: int): nat {
    var interval := if now < announced + 86400 then 3600 else 86400;
    if announced == 0 || (time != 0 && announced - time <= interval + penalty) then time
    else if announced <= penalty then 0
    else (announced - penalty) % 0x1_0000_0000
  }

  /** Whether a repeated announcement enters the known entry `i` in one more slot, `u`. */
  ghost predicate Gains(i: Info, id: int, a: Address, penalty: int, now: int, rnd: nat, s: State, u: Slot)
    requires u in s.newTab ==> s.newTab[u] in s.info
  {
    && a.time > SeenTime(i.addr.time, a.time, penalty, now)
    && !i.inTried && 0 <= i.refCount < 8
    && (exists m: nat :: rnd == m * Pow2(i.refCount))
    && (u !in s.newTab || (s.newTab[u] != id && IsTerrible(s.info[s.newTab[u]], now)))
  }

  lemma Divides(rnd: nat, d: nat)
    requires d > 0
    ensures rnd % d == 0 <==> exists m: nat :: rnd == m * d
  {
    if rnd % d == 0 {
      assert rnd == (rnd / d) * d;
    }
    if m: nat :| rnd == m * d {
      DivisionIs(rnd, d, m, 0);
    }
  }

  lemma RefreshedIs(i: Info, a: Address, penalty: int, now: int)
    ensures Refreshed(i, a, penalty, now) ==
      i.(addr := i.addr.(time := SeenTime(i.addr.time, a.time, penalty, now), services := i.addr.services + a.services))
  {
  }

  lemma SlotForIs(h: Hasher, key: Key, i: Info, source: NetAddr)
    ensures NewSlot(h, key, i, NewBucket(h, key, i, source)) == SlotFor(h, key, i.addr.service, source)
  {
  }

  lemma WantsIs(i: Info, a: Address, rnd: nat)
    requires i.inTried || 1 <= i.refCount <= 8
    ensures WantsReference(i, a, rnd) <==>
      a.time > i.addr.time && !i.inTried && 0 <= i.refCount < 8 && exists m: nat :: rnd == m * Pow2(i.refCount)
  {
    if 1 <= i.refCount <= 8 {
      Divides(rnd, Pow2(i.refCount));
      PowMore(i.refCount);
    }
    hide Pow2;
  }

  lemma {:induction false} PowMore(n: nat)
    requires n > 0
    ensures Pow2(n) > 1
  {
    PowPositive(2, n - 1);
    PowNext(2, n - 1);
  }

  /**
   A repeated announcement of a known, routable address. It loses nothing but a slot of a terrible entry: the entry's
   time and services are as `SeenTime` and the union say, it gains a reference exactly if the announced time is later
   than its time then, it is untried with n < 8 references, 2^n divides the draw, and the slot of the source is free
   or held by another, terrible entry; and every other entry but that one is as before.
   */
  lemma {:induction false} AddKnownMeaning(h: Hasher, s: State, a: Address, source: NetAddr, penalty: int, now: int,
      rnd: nat)
    requires Inv(h, s) && Linked(s) && h.routable(a.service.ip) && a.service.ip in s.addr
    ensures var id := s.addr[a.service.ip];
      var i := s.info[id];
      var u := SlotFor(h, s.key, i.addr.service, source);
      var gains := Gains(i, id, a, penalty, now, rnd, s, u);
      var r := Add(h, s, a, source, penalty, now, rnd);
      && id in r.info
      && r.info[id].addr ==
         Address(i.addr.service, i.addr.services + a.services, SeenTime(i.addr.time, a.time, penalty, now))
      && r.info[id].refCount == i.refCount + (if gains then 1 else 0)
      && r.info[id].source == i.source && r.info[id].lastTry == i.lastTry && r.info[id].lastSuccess == i.lastSuccess
      && r.info[id].attempts == i.attempts && r.info[id].inTried == i.inTried
      && r.newTab == (if gains then s.newTab[u := id] else s.newTab)
      && r.info.Keys <= s.info.Keys
      && if gains then SlotLost(s, r, u, id) else r == s.(info := s.info[id := r.info[id]])
  {
    hide InvBut, RandomOk, NewSlot, NewBucket, IsTerrible, Refreshed, WantsReference, SeenTime, SlotFor;
    var id := s.addr[a.service.ip];
    var i := Refreshed(s.info[id], a, penalty, now);
    RefreshedIs(s.info[id], a, penalty, now);
    var t := s.(info := s.info[id := i]);
    StatsKeep(h, s, id, i);
    InvLinked(h, t, {}, 0);
    if !i.inTried {
      NewEntryRefs(h, t, id);
    }
    WantsIs(i, a, rnd);
    SlotForIs(h, s.key, i, source);
    var u := SlotFor(h, s.key, i.addr.service, source);
    if WantsReference(i, a, rnd) {
      PlaceKnown(h, t, id, source, now);
    }
  }

  /** Everything but the slot `u` and its holder stays; the holder loses a reference, or is deleted with its last. */
  ghost predicate SlotLost(s: State, r: State, u: Slot, id: int) {
    && r.triedTab == s.triedTab
    && forall j :: j in s.info && j != id ==>
         if u in s.newTab && j == s.newTab[u]
         then (if s.info[j].refCount == 1 then j !in r.info
               else j in r.info && r.info[j].refCount == s.info[j].refCount - 1)
         else j in r.info && EqualButPos(r.info[j], s.info[j])
  }

  lemma ClearLoses(s: State, u: Slot, id: int)
    requires RandomOk(s.info, s.random) && (u in s.newTab ==> s.newTab[u] in s.info)
    ensures SlotLost(s, ClearNew(s, u), u, id)
  {
    hide RandomOk, Delete;
    ClearNewEntries(s, u);
  }

  lemma InsertLoses(s: State, t: State, u: Slot, id: int)
    requires SlotLost(s, t, u, id) && id in t.info
    ensures SlotLost(s, Insert(t, id, u), u, id)
  {
  }

  /** The second half of Add_ on an entry that has a reference. */
  lemma PlaceKnown(h: Hasher, s: State, id: int, source: NetAddr, now: int)
    requires Linked(s) && id in s.info && s.info[id].refCount > 0
    ensures var u := NewSlot(h, s.key, s.info[id], NewBucket(h, s.key, s.info[id], source));
      var enters := u !in s.newTab || (s.newTab[u] != id && IsTerrible(s.info[s.newTab[u]], now));
      var r := Place(h, s, id, source, now);
      && id in r.info
      && EqualButPos(r.info[id], s.info[id].(refCount := s.info[id].refCount + if enters then 1 else 0))
      && r.newTab == (if enters then s.newTab[u := id] else s.newTab)
      && r.info.Keys <= s.info.Keys
      && if enters then SlotLost(s, r, u, id) else r == s
  {
    hide RandomOk, NewSlot, NewBucket, IsTerrible, ClearNew, SlotLost;
    var u := NewSlot(h, s.key, s.info[id], NewBucket(h, s.key, s.info[id], source));
    ClearNewEntries(s, u);
    ClearLoses(s, u, id);
    if u !in s.newTab || s.newTab[u] != id {
      InsertLoses(s, ClearNew(s, u), u, id);
    }
    assert (s.newTab - {u})[u := id] == s.newTab[u := id];
  }

  // ---------------------------------------------------------------- an address announced first

  /** What the first announcement of an address puts on record. */
  function FirstRecord(a: Address, source: NetAddr, penalty: int): Info {
    var time := if a.time <= penalty then 0 else (a.time - penalty) % 0x1_0000_0000;
    Info(Address(a.service, a.services, time), source, 0, 0, 0, 1, false, 0)
  }

  /**
   The first announcement of a routable address is recorded exactly if the slot of the source is free or its holder is
   terrible or has another slot; then the record is `FirstRecord` in that slot. Otherwise nothing changes but the
   number of the next entry.
   */
  lemma {:induction false} AddFirstMeaning(h: Hasher, s: State, a: Address, source: NetAddr, penalty: int, now: int,
      rnd: nat)
    requires Inv(h, s) && Linked(s) && h.routable(a.service.ip) && a.service.ip !in s.addr
    ensures var u := SlotFor(h, s.key, a.service, source);
      var enters := u !in s.newTab || IsTerrible(s.info[s.newTab[u]], now) || s.info[s.newTab[u]].refCount > 1;
      var r := Add(h, s, a, source, penalty, now, rnd);
      && s.idCount !in s.info
      && (s.idCount in r.info <==> enters)
      && r.newTab == (if enters then s.newTab[u := s.idCount] else s.newTab)
      && r.info.Keys <= s.info.Keys + {s.idCount}
      && if enters
         then EqualButPos(r.info[s.idCount], FirstRecord(a, source, penalty)) && SlotLost(s, r, u, s.idCount)
         else r.triedTab == s.triedTab && r.nNew == s.nNew && r.nTried == s.nTried
              && forall j :: j in s.info ==> j in r.info && EqualButPos(r.info[j], s.info[j])
  {
    hide InvBut, RandomOk, NewSlot, NewBucket, IsTerrible, SlotFor, Place;
    IdsBelow(h, s);
    CreateNewKeeps(h, s, a, source, penalty);
    var t := CreateNew(s, a, source, penalty);
    SlotForIs(h, s.key, t.info[s.idCount], source);
    PlaceFirst(h, t, s.idCount, source, now);
  }

  /** The second half of Add_ on an entry without references. */
  lemma PlaceFirst(h: Hasher, s: State, id: int, source: NetAddr, now: int)
    requires Linked(s) && id in s.info && s.info[id].refCount == 0 && forall k :: k in s.newTab ==> s.newTab[k] != id
    ensures var u := NewSlot(h, s.key, s.info[id], NewBucket(h, s.key, s.info[id], source));
      var holder := if u in s.newTab then s.info[s.newTab[u]] else s.info[id];
      var enters := u !in s.newTab || IsTerrible(holder, now) || holder.refCount > 1;
      var r := Place(h, s, id, source, now);
      && (id in r.info <==> enters)
      && r.newTab == (if enters then s.newTab[u := id] else s.newTab)
      && r.info.Keys <= s.info.Keys
      && if enters
         then EqualButPos(r.info[id], s.info[id].(refCount := 1)) && SlotLost(s, r, u, id)
         else r.triedTab == s.triedTab && r.nNew == s.nNew - 1 && r.nTried == s.nTried
              && forall j :: j in s.info && j != id ==> j in r.info && EqualButPos(r.info[j], s.info[j])
  {
    hide RandomOk, NewSlot, NewBucket, IsTerrible, ClearNew, Delete, SlotLost;
    var u := NewSlot(h, s.key, s.info[id], NewBucket(h, s.key, s.info[id], source));
    ClearNewEntries(s, u);
    ClearLoses(s, u, id);
    DeleteEntries(s, id);
    DeleteCounts(s, id);
    InsertLoses(s, ClearNew(s, u), u, id);
    assert (s.newTab - {u})[u := id] == s.newTab[u := id];
  }

  lemma DeleteCounts(s: State, id: int)
    requires RandomOk(s.info, s.random) && id in s.info
    ensures var r := Delete(s, id);
      r.nNew == s.nNew - 1 && r.nTried == s.nTried && r.newTab == s.newTab && r.triedTab == s.triedTab
  {
  }

  // ---------------------------------------------------------------- attempts, connections and successes

  /** The address with this very port is on record as the entry `id`. */
  ghost predicate OnRecord(s: State, a: Service, id: int) {
    id in s.info && s.info[id].addr.service == a
  }

  lemma {:induction false} RecordIsKnown(h: Hasher, s: State, a: Service, id: int)
    requires Inv(h, s) && Linked(s)
    ensures OnRecord(s, a, id) ==> IsKnown(s, a) && s.addr[a.ip] == id
    ensures IsKnown(s, a) ==> OnRecord(s, a, s.addr[a.ip])
  {
    hide RandomOk, TriedOk, NewOk, CountsOk;
  }

  /** An attempt is counted and timed for the entry with this very port, and touches nothing else. */
  lemma {:induction false} AttemptMeaning(h: Hasher, s: State, a: Service, time: int, id: int)
    requires Inv(h, s) && Linked(s) && id in s.info
    ensures var r := Attempt(s, a, time);
      && r == s.(info := r.info) && r.info.Keys == s.info.Keys
      && r.info[id].attempts == s.info[id].attempts + (if OnRecord(s, a, id) then 1 else 0)
      && r.info[id].lastTry == (if OnRecord(s, a, id) then time else s.info[id].lastTry)
      && r.info[id] == s.info[id].(attempts := r.info[id].attempts, lastTry := r.info[id].lastTry)
  {
    hide InvBut, RandomOk;
    RecordIsKnown(h, s, a, id);
  }

  /**
   A connection moves the time on record exactly if it is more than twenty minutes newer, and touches nothing else.
   */
  lemma {:induction false} ConnectedMeaning(h: Hasher, s: State, a: Service, time: int, id: int)
    requires Inv(h, s) && Linked(s) && id in s.info
    ensures var r := Connected(s, a, time);
      var i := s.info[id];
      && r == s.(info := r.info) && r.info.Keys == s.info.Keys
      && r.info[id] == i.(addr := i.addr.(time :=
           if OnRecord(s, a, id) && i.addr.time + 1200 < time then time % 0x1_0000_0000 else i.addr.time))
  {
    hide InvBut, RandomOk;
    RecordIsKnown(h, s, a, id);
    assert s.info[id].(addr := s.info[id].addr.(time := s.info[id].addr.time)) == s.info[id];
  }

  /** A success of an entry that is tried already is timed, and its failures are forgotten. */
  lemma {:induction false} GoodAgainMeaning(h: Hasher, s: State, a: Service, time: int)
    requires Inv(h, s) && Linked(s) && forall id :: OnRecord(s, a, id) ==> s.info[id].inTried
    ensures var r := Good(h, s, a, time);
      && r == s.(info := r.info) && r.info.Keys == s.info.Keys
      && forall id :: id in s.info ==>
           r.info[id] == if OnRecord(s, a, id)
                         then s.info[id].(lastSuccess := time, lastTry := time, attempts := 0)
                         else s.info[id]
  {
    hide InvBut, RandomOk;
    forall id | id in s.info
      ensures OnRecord(s, a, id) ==> IsKnown(s, a) && s.addr[a.ip] == id
      ensures IsKnown(s, a) ==> OnRecord(s, a, s.addr[a.ip])
    {
      RecordIsKnown(h, s, a, id);
    }
    if IsKnown(s, a) {
      RecordIsKnown(h, s, a, s.addr[a.ip]);
    }
  }

  /** A success of an address that is not on record with this very port is ignored. */
  lemma {:induction false} GoodUnknownMeaning(h: Hasher, s: State, a: Service, time: int)
    requires Inv(h, s) && Linked(s) && forall id :: !OnRecord(s, a, id)
    ensures Good(h, s, a, time) == s
  {
    hide InvBut, RandomOk, MakeTried;
    if a.ip in s.addr {
      assert !OnRecord(s, a, s.addr[a.ip]);
    }
  }

  /** The slot of a service in the tried table. */
  function TriedSlotFor(h: Hasher, key: Key, service: Service): Slot {
    var b := h.tried(key, service) % 256;
    Slot(b, h.position(key, false, b, service) % 64)
  }

  lemma TriedSlotForIs(h: Hasher, key: Key, i: Info)
    ensures TriedSlot(h, key, i) == TriedSlotFor(h, key, i.addr.service)
    ensures OwnNewSlot(h, key, i) == SlotFor(h, key, i.addr.service, i.source)
  {
  }

  /** An entry evicted from its tried slot goes to the new slot of its own source. */
  lemma {:induction false} EvictedGoesBack(h: Hasher, s: State, id: int)
    requires Inv(h, s) && id in s.info && !s.info[id].inTried
    ensures var k := TriedSlot(h, s.key, s.info[id]);
      k in s.triedTab ==>
        && s.triedTab[k] in s.info
        && var u := OwnNewSlot(h, s.key, s.info[s.triedTab[k]]);
           u in MakeTried(h, s, id).newTab && MakeTried(h, s, id).newTab[u] == s.triedTab[k]
  {
    hide InvBut, RandomOk, NewSlot, NewBucket, ClearNew, SweptSlots, TriedSlot;
    TriedAreTried(h, s);
    SweepKeeps(h, s, id);
    var t := Sweep(h, s, id, NEW_BUCKET_COUNT);
    RecountKeeps(h, t, {id}, 1, -1);
    var t1 := t.(nNew := t.nNew - 1);
    FreeTriedSlotKeeps(h, t1, id);
    SameSlot(h, s.key, t1.info[id], s.info[id]);
    var k := TriedSlot(h, s.key, s.info[id]);
    if k in s.triedTab {
      var e := s.triedTab[k];
      assert e != id && t1.info[e] == s.info[e];
      SameOwnSlot(h, s.key, Evict(t1, k).info[e], s.info[e]);
    }
  }

  lemma SameSlot(h: Hasher, key: Key, i: Info, j: Info)
    requires i.addr.service == j.addr.service
    ensures TriedSlot(h, key, i) == TriedSlot(h, key, j)
  {
  }

  lemma SameOwnSlot(h: Hasher, key: Key, i: Info, j: Info)
    requires i.addr.service == j.addr.service && i.source == j.source
    ensures OwnNewSlot(h, key, i) == OwnNewSlot(h, key, j)
  {
  }

  /**
   A success of an untried entry moves it to its tried slot, timed and without failures on record; the entry that was
   there goes to the new slot of its own source.
   */
  lemma {:induction false} GoodFirstMeaning(h: Hasher, s: State, a: Service, time: int, id: int)
    requires Inv(h, s) && Linked(s) && OnRecord(s, a, id) && !s.info[id].inTried
    ensures var i := s.info[id];
      var k := TriedSlotFor(h, s.key, a);
      var r := Good(h, s, a, time);
      && id in r.info && k in r.triedTab && r.triedTab[k] == id
      && r.info[id] == Info(i.addr, i.source, time, time, 0, 0, true, r.info[id].randomPos)
      && (k in s.triedTab ==>
            && s.triedTab[k] in s.info
            && var e := s.info[s.triedTab[k]];
               var u := SlotFor(h, s.key, e.addr.service, e.source);
               && u in r.newTab && r.newTab[u] == s.triedTab[k]
               && s.triedTab[k] in r.info && !r.info[s.triedTab[k]].inTried && r.info[s.triedTab[k]].refCount == 1)
  {
    hide InvBut, RandomOk, NewSlot, NewBucket, MakeTried, TriedSlot, TriedSlotFor, SlotFor;
    RecordIsKnown(h, s, a, id);
    GoodMeaning(h, s, a, time);
    GoodKeeps(h, s, a, time);
    TriedSlotForIs(h, s.key, s.info[id]);
    var m := MarkGood(s, id, time);
    StatsKeep(h, s, id, m.info[id]);
    NewEntryHasSlot(h, m, id);
    MakeTriedMeaning(h, m, id);
    EvictedGoesBack(h, m, id);
    SameSlot(h, s.key, m.info[id], s.info[id]);
    TriedHasNoRefs(h, Good(h, s, a, time), id);
    TriedAreTried(h, s);
    var k := TriedSlotFor(h, s.key, a);
    if k in s.triedTab {
      TriedSlotForIs(h, s.key, s.info[s.triedTab[k]]);
    }
  }

  lemma TriedHasNoRefs(h: Hasher, s: State, id: int)
    requires Inv(h, s)
    ensures id in s.info && s.info[id].inTried ==> s.info[id].refCount == 0
  {
  }

  /** Any number of attempts, one after the other. */
  ghost function Attempts(h: Hasher, s: State, a: Service, times: seq<int>): (r: State)
    requires Inv(h, s) && Linked(s)
    ensures Inv(h, r) && Linked(r)
    decreases |times|
  {
    if times == [] then s
    else
      AttemptKeeps(h, s, a, times[0]);
      InvLinked(h, Attempt(s, a, times[0]), {}, 0);
      Attempts(h, Attempt(s, a, times[0]), a, times[1..])
  }

  lemma {:induction false} AttemptsCounted(h: Hasher, s: State, a: Service, times: seq<int>, id: int)
    requires Inv(h, s) && Linked(s) && OnRecord(s, a, id)
    ensures var r := Attempts(h, s, a, times);
      && OnRecord(r, a, id)
      && r.info[id].attempts == s.info[id].attempts + |times|
      && r.info[id].lastTry == (if times == [] then s.info[id].lastTry else times[|times| - 1])
      && r.info[id].lastSuccess == s.info[id].lastSuccess
    decreases |times|
  {
    hide InvBut, RandomOk, Attempt;
    if times != [] {
      AttemptMeaning(h, s, a, times[0], id);
      AttemptKeeps(h, s, a, times[0]);
      InvLinked(h, Attempt(s, a, times[0]), {}, 0);
      AttemptsCounted(h, Attempt(s, a, times[0]), a, times[1..], id);
    }
  }

  /** Three attempts without any success make an entry terrible a minute after the last of them. */
  lemma {:induction false} ThreeFailures(h: Hasher, s: State, a: Service, times: seq<int>, id: int, now: int)
    requires Inv(h, s) && Linked(s) && OnRecord(s, a, id) && s.info[id].attempts >= 0 && s.info[id].lastSuccess == 0
    requires |times| >= 3 && now > times[|times| - 1] + 60
    ensures var r := Attempts(h, s, a, times); id in r.info && IsTerrible(r.info[id], now)
  {
    hide InvBut, RandomOk, Attempts;
    AttemptsCounted(h, s, a, times, id);
    WorthKeeping(Attempts(h, s, a, times).info[id], now);
  }
}
