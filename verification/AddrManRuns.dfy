/**
 Whole runs of the address manager: which calls keep everything `Check_` tests, what an
 operation does to the entries it is not about, and the theorem over every run.
 */
module AddrManRuns {
  import opened AddrManSpec
  import opened AddrManOps

  // ---------------------------------------------------------------- what stays unchanged

  /** The same entry up to its references and its place in the random order. */
  predicate Kin(i: Info, j: Info) {
    && i.addr == j.addr && i.source == j.source && i.lastTry == j.lastTry && i.lastSuccess == j.lastSuccess
    && i.attempts == j.attempts && i.inTried == j.inTried
  }

  /** No entry of `r` is news: each was in `s`, with the same statistics. */
  ghost predicate Inherits(s: State, r: State) {
    forall j :: j in r.info ==> j in s.info && Kin(r.info[j], s.info[j])
  }

  lemma ClearNewInherits(s: State, u: Slot)
    requires RandomOk(s.info, s.random) && (u in s.newTab ==> s.newTab[u] in s.info)
    ensures Inherits(s, ClearNew(s, u))
  {
    if u in s.newTab {
      var t := Unref(s, u);
      assert RandomOk(t.info, t.random);
      DeleteEntries(t, s.newTab[u]);
    }
  }

  lemma PlaceInherits(h: Hasher, s: State, id: int, source: NetAddr, now: int)
    requires Linked(s) && id in s.info
    ensures Inherits(s, Place(h, s, id, source, now))
  {
    hide RandomOk, ClearNew, Delete, MayOverwrite, NewSlot, NewBucket, Kin;
    var u := NewSlot(h, s.key, s.info[id], NewBucket(h, s.key, s.info[id], source));
    ClearNewInherits(s, u);
    ClearNewEntries(s, u);
    DeleteInherits(s, id);
    InheritsSelf(s);
    if u !in s.newTab || s.newTab[u] != id {
      InsertInherits(s, ClearNew(s, u), id, u);
    }
  }

  lemma InheritsSelf(s: State)
    ensures Inherits(s, s)
  {
  }

  lemma DeleteInherits(s: State, id: int)
    requires RandomOk(s.info, s.random) && id in s.info
    ensures Inherits(s, Delete(s, id))
  {
    hide RandomOk, Delete;
    DeleteEntries(s, id);
  }

  lemma InsertInherits(s: State, t: State, id: int, u: Slot)
    requires Inherits(s, t) && id in t.info
    ensures Inherits(s, Insert(t, id, u))
  {
  }

  lemma InheritsTimes(s: State, r: State)
    requires TimesOk(s.info) && Inherits(s, r)
    ensures TimesOk(r.info)
  {
  }

  lemma {:induction false} AddKeepsTimes(h: Hasher, s: State, a: Address, source: NetAddr, penalty: int, now: int,
      rnd: nat)
    requires Inv(h, s) && Linked(s) && TimesOk(s.info)
    ensures TimesOk(Add(h, s, a, source, penalty, now, rnd).info)
  {
    hide InvBut, RandomOk;
    var ip := a.service.ip;
    if h.routable(ip) {
      if ip in s.addr {
        var id := s.addr[ip];
        var i := Refreshed(s.info[id], a, penalty, now);
        var t := s.(info := s.info[id := i]);
        assert TimesOk(t.info);
        StatsKeep(h, s, id, i);
        InvLinked(h, t, {}, 0);
        PlaceInherits(h, t, id, source, now);
        if WantsReference(i, a, rnd) { InheritsTimes(t, Place(h, t, id, source, now)); }
      } else {
        CreateNewKeeps(h, s, a, source, penalty);
        var t := CreateNew(s, a, source, penalty);
        assert TimesOk(t.info);
        PlaceInherits(h, t, s.idCount, source, now);
        InheritsTimes(t, Place(h, t, s.idCount, source, now));
      }
    }
  }

  /** The same statistics; table membership may differ. */
  predicate SameStats(i: Info, j: Info) {
    && i.addr == j.addr && i.source == j.source && i.lastTry == j.lastTry && i.lastSuccess == j.lastSuccess
    && i.attempts == j.attempts
  }

  lemma FreeTriedSlotStats(h: Hasher, s: State, id: int)
    requires InvBut(h, s, {id}, 0)
    requires Linked(s) && id in s.info
    requires forall k :: k in s.triedTab ==>
      s.triedTab[k] != id && forall j :: j in s.newTab ==> s.newTab[j] != s.triedTab[k]
    ensures var r := FreeTriedSlot(h, s, id);
      forall j :: j in r.info ==>
        j in s.info && SameStats(r.info[j], s.info[j]) && (r.info[j].inTried ==> s.info[j].inTried)
  {
    hide InvBut;
    var k := TriedSlot(h, s.key, s.info[id]);
    if k in s.triedTab {
      var t := Evict(s, k);
      assert RandomOk(t.info, t.random);
      hide RandomOk, Readmit;
      ReadmitStats(h, t, s.triedTab[k]);
    }
  }

  lemma ReadmitStats(h: Hasher, s: State, id: int)
    requires Linked(s) && id in s.info && forall k :: k in s.newTab ==> s.newTab[k] != id
    ensures var r := Readmit(h, s, id);
      forall j :: j in r.info ==>
        j in s.info && SameStats(r.info[j], s.info[j]) && (r.info[j].inTried ==> s.info[j].inTried)
  {
    hide RandomOk, ClearNew;
    var u := OwnNewSlot(h, s.key, s.info[id]);
    ClearNewInherits(s, u);
    ClearNewEntries(s, u);
  }

  /**
   After MakeTried the entry sits in its tried slot; every other entry keeps its statistics, and none becomes tried.
   */
  lemma MakeTriedMeaning(h: Hasher, s: State, id: int)
    requires Inv(h, s) && id in s.info && !s.info[id].inTried
    ensures var r := MakeTried(h, s, id);
      && id in r.info && r.info[id].inTried && SameStats(r.info[id], s.info[id])
      && TriedSlot(h, s.key, s.info[id]) in r.triedTab && r.triedTab[TriedSlot(h, s.key, s.info[id])] == id
      && forall j :: j in r.info && j != id ==>
           j in s.info && SameStats(r.info[j], s.info[j]) && (r.info[j].inTried ==> s.info[j].inTried)
  {
    hide InvBut, RandomOk, FreeTriedSlot;
    SweepKeeps(h, s, id);
    var t := Sweep(h, s, id, NEW_BUCKET_COUNT);
    RecountKeeps(h, t, {id}, 1, -1);
    var t1 := t.(nNew := t.nNew - 1);
    FreeTriedSlotKeeps(h, t1, id);
    FreeTriedSlotService(h, t1, id);
    FreeTriedSlotStats(h, t1, id);
  }

  /** Under the invariant the bucket search of Good_ always finds the entry. */
  lemma NewEntryHasSlot(h: Hasher, s: State, id: int)
    requires Inv(h, s) && id in s.info && !s.info[id].inTried
    ensures HasNewSlot(h, s, id)
  {
    NewEntryRefs(h, s, id);
    assert |SlotsOf(s.newTab, id)| >= 1;
    var k :| k in SlotsOf(s.newTab, id);
    assert k == NewSlot(h, s.key, s.info[id], k.bucket);
  }

  /** Good_ keeps what `Check_` tests exactly when it finds nothing to update or is given a positive time. */
  lemma GoodKeepsCheck(h: Hasher, s: State, a: Service, time: int)
    requires CheckOk(h, s) && Linked(s)
    ensures CheckOk(h, Good(h, s, a, time)) <==> !IsKnown(s, a) || time > 0
  {
    hide InvBut, RandomOk;
    GoodKeeps(h, s, a, time);
    if IsKnown(s, a) {
      var id := s.addr[a.ip];
      var t := MarkGood(s, id, time);
      StatsKeep(h, s, id, t.info[id]);
      if !t.info[id].inTried {
        NewEntryHasSlot(h, t, id);
        MakeTriedMeaning(h, t, id);
      }
    }
  }

  /** Attempt_ keeps what `Check_` tests exactly when it finds nothing to update or the time is not negative. */
  lemma {:induction false} AttemptKeepsCheck(h: Hasher, s: State, a: Service, time: int)
    requires CheckOk(h, s) && Linked(s)
    ensures CheckOk(h, Attempt(s, a, time)) <==> !IsKnown(s, a) || time >= 0
    ensures CheckOk(h, Connected(s, a, time))
  {
    hide InvBut, RandomOk;
    AttemptKeeps(h, s, a, time);
    if IsKnown(s, a) {
      assert s.addr[a.ip] in Attempt(s, a, time).info;
    }
  }

  // ---------------------------------------------------------------- GetAddr_

  /** At most 2500 addresses, and at most 23 of a hundred. */
  function GetAddrLimit(n: nat): (r: nat)
    ensures r <= 2500 && 100 * r <= 23 * n && (r == 2500 || 23 * n < 100 * (r + 1))
  {
    if 23 * n / 100 > 2500 then 2500 else 23 * n / 100
  }

  /**
   The shuffle from position `n` on. `draws` holds the random numbers in the order they are drawn;
   position n takes number n.
   */
  /** The place at or after `n` that a draw picks. */
  function Picked(draw: nat, n: nat, size: nat): (p: nat)
    requires n < size
    ensures n <= p < size
  {
    draw % (size - n) + n
  }

  ghost function GetAddrFrom(s: State, now: int, draws: nat -> nat, n: nat, out: seq<Address>, limit: nat)
    : (r: (State, seq<Address>))
    requires RandomOk(s.info, s.random) && n <= |s.random|
    decreases |s.random| - n
  {
    if n == |s.random| || |out| >= limit then (s, out) else
    var p := Picked(draws(n), n, |s.random|);
    SwapKeepsRandom(s, n, p);
    var t := SwapRandom(s, n, p);
    var i := t.info[t.random[n]];
    GetAddrFrom(t, now, draws, n + 1, if IsTerrible(i, now) then out else out + [i.addr], limit)
  }

  /** One round of the shuffle. */
  lemma GetAddrRound(s: State, now: int, draws: nat -> nat, n: nat, out: seq<Address>, limit: nat, p: nat)
    requires RandomOk(s.info, s.random) && n < |s.random| && |out| < limit
    requires p == Picked(draws(n), n, |s.random|)
    requires s.random[n] in s.info && s.random[p] in s.info
    requires var t := SwapRandom(s, n, p);
      RandomOk(t.info, t.random) && |t.random| == |s.random| && t.random[n] in t.info
    ensures var t := SwapRandom(s, n, p);
      GetAddrFrom(s, now, draws, n, out, limit) ==
      GetAddrFrom(t, now, draws, n + 1,
                  if IsTerrible(t.info[t.random[n]], now) then out else out + [t.info[t.random[n]].addr], limit)
  {
    hide RandomOk, SwapRandom, IsTerrible, Picked;
  }

  ghost function GetAddr(s: State, now: int, draws: nat -> nat): (r: (State, seq<Address>))
    requires RandomOk(s.info, s.random)
  {
    GetAddrFrom(s, now, draws, 0, [], GetAddrLimit(|s.random|))
  }

  lemma ShuffleStep(h: Hasher, s: State, n: nat, p: nat)
    requires Inv(h, s) && RandomOk(s.info, s.random) && n <= p < |s.random|
    ensures s.random[n] in s.info && s.random[p] in s.info
    ensures var t := SwapRandom(s, n, p);
      Inv(h, t) && RandomOk(t.info, t.random) && SameEntries(s, t) && |t.random| == |s.random| && t.random[n] in t.info
  {
    hide InvBut;
    SwapKeepsRandom(s, n, p);
    SwapKeeps(h, s, n, p, {}, 0);
  }

  lemma {:induction false} GetAddrKeepsFrom(
    h: Hasher, s: State, now: int, draws: nat -> nat, n: nat, out: seq<Address>, limit: nat)
    requires Inv(h, s) && RandomOk(s.info, s.random) && n <= |s.random|
    ensures Inv(h, GetAddrFrom(s, now, draws, n, out, limit).0)
    ensures SameEntries(s, GetAddrFrom(s, now, draws, n, out, limit).0)
    decreases |s.random| - n
  {
    hide InvBut, RandomOk, SwapRandom, IsTerrible, Picked;
    if n == |s.random| || |out| >= limit {
    } else {
      var p := Picked(draws(n), n, |s.random|);
      ShuffleStep(h, s, n, p);
      var t := SwapRandom(s, n, p);
      var i := t.info[t.random[n]];
      var out' := if IsTerrible(i, now) then out else out + [i.addr];
      GetAddrKeepsFrom(h, t, now, draws, n + 1, out', limit);
      SameEntriesTrans(s, t, GetAddrFrom(t, now, draws, n + 1, out', limit).0);
    }
  }

  lemma SameEntriesTrans(s: State, t: State, r: State)
    requires SameEntries(s, t) && SameEntries(t, r)
    ensures SameEntries(s, r)
  {
    assert forall id :: id in s.info ==> EqualButPos(t.info[id], s.info[id]) && EqualButPos(r.info[id], t.info[id]);
  }

  /** The entries of some quality at position `n` of the random order or after it. */
  ghost function Offered(s: State, n: nat, now: int): set<int> {
    set id | id in s.info && s.info[id].randomPos >= n && !IsTerrible(s.info[id], now)
  }

  /** `a` is the address on record of such an entry. */
  ghost predicate IsOffered(s: State, n: nat, now: int, a: Address) {
    && a.service.ip in s.addr
    && s.addr[a.service.ip] in Offered(s, n, now)
    && s.info[s.addr[a.service.ip]].addr == a
  }

  lemma OfferedStep(s: State, n: nat, p: nat, now: int)
    requires RandomOk(s.info, s.random) && n <= p < |s.random|
    ensures var t := SwapRandom(s, n, p);
      && s.random[p] == t.random[n] && t.random[n] in t.info && s.random[p] in s.info
      && Offered(t, n + 1, now) == Offered(s, n, now) - {t.random[n]}
      && (t.random[n] in Offered(s, n, now) <==> !IsTerrible(t.info[t.random[n]], now))
      && t.info[t.random[n]].addr == s.info[s.random[p]].addr && t.addr == s.addr
      && IsTerrible(t.info[t.random[n]], now) == IsTerrible(s.info[s.random[p]], now)
      && |Offered(s, n, now)| == |Offered(t, n + 1, now)| + if IsTerrible(t.info[t.random[n]], now) then 0 else 1
  {
    SwapPlaces(s, n, p);
    SwapKeepsEntries(s, n, p);
    var t := SwapRandom(s, n, p);
    var id := t.random[n];
    assert t.addr == s.addr;
    hide SwapRandom, RandomOk, IsTerrible, Offered;
    OneLess(s, t, n, id, now);
  }

  /** Passing one place takes one entry off the offer, if it is on offer. */
  lemma OneLess(s: State, t: State, n: nat, id: int, now: int)
    requires t.info.Keys == s.info.Keys && id in s.info && s.info[id].randomPos >= n
    requires forall j :: j in s.info ==> EqualButPos(t.info[j], s.info[j])
    requires forall j :: j in s.info ==> (t.info[j].randomPos >= n + 1 <==> s.info[j].randomPos >= n && j != id)
    ensures Offered(t, n + 1, now) == Offered(s, n, now) - {id}
    ensures id in Offered(s, n, now) <==> !IsTerrible(t.info[id], now)
    ensures IsTerrible(t.info[id], now) == IsTerrible(s.info[id], now)
    ensures |Offered(s, n, now)| == |Offered(t, n + 1, now)| + if IsTerrible(t.info[id], now) then 0 else 1
  {
    hide IsTerrible;
    forall j | j in s.info
      ensures j in Offered(t, n + 1, now) <==> j in Offered(s, n, now) && j != id
    {
      SameTerrible(t.info[j], s.info[j], now);
    }
    SameTerrible(t.info[id], s.info[id], now);
    assert Offered(t, n + 1, now) == Offered(s, n, now) - {id};
  }

  lemma SameTerrible(i: Info, j: Info, now: int)
    requires EqualButPos(i, j)
    ensures IsTerrible(i, now) == IsTerrible(j, now)
  {
  }

  lemma SwapPlaces(s: State, n: nat, p: nat)
    requires RandomOk(s.info, s.random) && n <= p < |s.random|
    ensures var t := SwapRandom(s, n, p);
      && s.random[p] == t.random[n] && s.random[p] in s.info && s.info[s.random[p]].randomPos == p
      && forall id :: id in s.info ==>
           id in t.info && (t.info[id].randomPos >= n + 1 <==> s.info[id].randomPos >= n && id != t.random[n])
  {
    SwapKeepsRandom(s, n, p);
  }

  lemma OfferedLifts(s: State, n: nat, p: nat, now: int, a: Address)
    requires RandomOk(s.info, s.random) && AddrOk(s.info, s.addr) && n <= p < |s.random|
    requires s.random[n] in s.info && s.random[p] in s.info
    requires IsOffered(SwapRandom(s, n, p), n + 1, now, a)
    ensures IsOffered(s, n, now, a) && s.addr[a.service.ip] != s.random[p]
  {
    OfferedStep(s, n, p, now);
    SwapKeepsEntries(s, n, p);
    assert EqualButPos(SwapRandom(s, n, p).info[s.addr[a.service.ip]], s.info[s.addr[a.service.ip]]);
  }

  /** The addresses past the first `m` are offered ones, no network address twice. */
  ghost predicate Answers(s: State, n: nat, now: int, r: seq<Address>, m: nat) {
    && (forall k :: m <= k < |r| ==> IsOffered(s, n, now, r[k]))
    && (forall j, k :: m <= j < k < |r| ==> r[j].service.ip != r[k].service.ip)
  }

  lemma {:induction false} GetAddrMeaningFrom(
    h: Hasher, s: State, now: int, draws: nat -> nat, n: nat, out: seq<Address>, limit: nat)
    requires Inv(h, s) && RandomOk(s.info, s.random) && AddrOk(s.info, s.addr) && n <= |s.random| && |out| <= limit
    ensures var r := GetAddrFrom(s, now, draws, n, out, limit).1;
      && out <= r
      && Answers(s, n, now, r, |out|)
      && |r| == (if |out| + |Offered(s, n, now)| < limit then |out| + |Offered(s, n, now)| else limit)
    decreases |s.random| - n
  {
    hide InvBut, SwapRandom, IsTerrible, IsOffered, RandomOk, AddrOk, Answers, Offered;
    NothingOffered(s, n, now, out);
    if n < |s.random| && |out| < limit {
      var p := Picked(draws(n), n, |s.random|);
      ShuffleStep(h, s, n, p);
      OfferedStep(s, n, p, now);
      var t := SwapRandom(s, n, p);
      var id := t.random[n];
      var i := t.info[id];
      var out' := if IsTerrible(i, now) then out else out + [i.addr];
      InvAddr(h, t, {}, 0);
      GetAddrMeaningFrom(h, t, now, draws, n + 1, out', limit);
      var r := GetAddrFrom(t, now, draws, n + 1, out', limit).1;
      AnswersStep(s, n, p, now, out, r);
    }
  }

  lemma NothingOffered(s: State, n: nat, now: int, out: seq<Address>)
    requires RandomOk(s.info, s.random) && n <= |s.random|
    ensures n == |s.random| ==> Offered(s, n, now) == {}
    ensures Answers(s, n, now, out, |out|)
  {
    hide IsTerrible, IsOffered;
    assert forall id :: id in s.info ==> s.info[id].randomPos < |s.random|;
  }

  lemma InvAddr(h: Hasher, s: State, limbo: set<int>, extra: int)
    requires InvBut(h, s, limbo, extra)
    ensures AddrOk(s.info, s.addr)
  {
  }

  lemma AnswersStep(s: State, n: nat, p: nat, now: int, out: seq<Address>, r: seq<Address>)
    requires RandomOk(s.info, s.random) && AddrOk(s.info, s.addr) && n <= p < |s.random|
    requires s.random[n] in s.info && s.random[p] in s.info
    requires var t := SwapRandom(s, n, p);
      var i := s.info[s.random[p]];
      var out' := if IsTerrible(i, now) then out else out + [i.addr];
      out' <= r && Answers(t, n + 1, now, r, |out'|)
    ensures out <= r && Answers(s, n, now, r, |out|)
  {
    var t := SwapRandom(s, n, p);
    var i := s.info[s.random[p]];
    var out' := if IsTerrible(i, now) then out else out + [i.addr];
    OfferedStep(s, n, p, now);
    forall k | |out'| <= k < |r| ensures IsOffered(s, n, now, r[k]) && r[k].service.ip != i.addr.service.ip {
      OfferedLifts(s, n, p, now, r[k]);
    }
    if !IsTerrible(i, now) {
      assert r[|out|] == i.addr;
      assert IsOffered(s, n, now, i.addr);
    }
  }

  /**
   GetAddr_ answers with min(limit, number of entries that are not terrible) addresses on record,
   each of such an entry and none twice.
   */
  lemma GetAddrMeaning(h: Hasher, s: State, now: int, draws: nat -> nat)
    requires Inv(h, s) && RandomOk(s.info, s.random)
    ensures var r := GetAddr(s, now, draws).1;
      var limit := GetAddrLimit(|s.random|);
      var good := set id | id in s.info && !IsTerrible(s.info[id], now);
      && |r| == (if |good| < limit then |good| else limit)
      && (forall k :: 0 <= k < |r| ==>
            && r[k].service.ip in s.addr && s.addr[r[k].service.ip] in good
            && s.info[s.addr[r[k].service.ip]].addr == r[k])
      && (forall j, k :: 0 <= j < k < |r| ==> r[j].service.ip != r[k].service.ip)
  {
    InvAddr(h, s, {}, 0);
    GetAddrMeaningFrom(h, s, now, draws, 0, [], GetAddrLimit(|s.random|));
    assert forall id :: id in s.info ==> s.info[id].randomPos >= 0;
    assert Offered(s, 0, now) == set id | id in s.info && !IsTerrible(s.info[id], now);
    var r := GetAddr(s, now, draws).1;
    assert forall k :: 0 <= k < |r| ==> IsOffered(s, 0, now, r[k]);
  }

  // ---------------------------------------------------------------- what Add_ and Good_ do to the entries

  /** The entry Add_ makes of an unknown address. */
  function FreshInfo(a: Address, source: NetAddr, penalty: int, pos: nat): Info {
    Info(a.(time := ToUint32(if a.time - penalty > 0 then a.time - penalty else 0)), source, 0, 0, 0, 0, false, pos)
  }

  lemma PlaceLoses(h: Hasher, s: State, id: int, source: NetAddr, now: int, limbo: set<int>, extra: int)
    requires Linked(s) && id in s.info && InvBut(h, s, limbo, extra)
    ensures var u := NewSlot(h, s.key, s.info[id], NewBucket(h, s.key, s.info[id], source));
      var r := Place(h, s, id, source, now);
      && (id in r.info <==>
            (u in s.newTab && s.newTab[u] != id && s.info[id].refCount == 0 ==>
              MayOverwrite(s.info[s.newTab[u]], s.info[id], now)))
      && (forall j :: j in s.info && j != id && j !in r.info ==>
            u in s.newTab && j == s.newTab[u] && s.info[j].refCount == 1 && IsTerrible(s.info[j], now))
  {
    hide InvBut, RandomOk, IsTerrible;
    var u := NewSlot(h, s.key, s.info[id], NewBucket(h, s.key, s.info[id], source));
    ClearNewEntries(s, u);
    DeleteEntries(s, id);
  }

  /**
   An unknown routable address is on record after Add_ exactly when the slot its source selects is free or may be
   overwritten, and the only entry that can go is the holder of that slot, if terrible and without another reference.
   */
  lemma {:induction false} AddMeaning(h: Hasher, s: State, a: Address, source: NetAddr, penalty: int, now: int,
      rnd: nat)
    requires Inv(h, s) && Linked(s) && h.routable(a.service.ip) && a.service.ip !in s.addr
    ensures var i := FreshInfo(a, source, penalty, |s.random|);
      var u := NewSlot(h, s.key, i, NewBucket(h, s.key, i, source));
      var r := Add(h, s, a, source, penalty, now, rnd);
      && (a.service.ip in r.addr <==> u !in s.newTab || MayOverwrite(s.info[s.newTab[u]], i, now))
      && (forall j :: j in s.info && j !in r.info ==>
            u in s.newTab && j == s.newTab[u] && s.info[j].refCount == 1 && IsTerrible(s.info[j], now))
      && (forall j :: j in r.info && j in s.info ==> Kin(r.info[j], s.info[j]))
  {
    hide InvBut, RandomOk, IsTerrible, NewSlot, NewBucket, AddrOk;
    IdsBelow(h, s);
    CreateNewKeeps(h, s, a, source, penalty);
    var t := CreateNew(s, a, source, penalty);
    assert t.info[s.idCount] == FreshInfo(a, source, penalty, |s.random|);
    PlaceLoses(h, t, s.idCount, source, now, {s.idCount}, 1);
    PlaceInherits(h, t, s.idCount, source, now);
    AddKeeps(h, s, a, source, penalty, now, rnd);
    var r := Add(h, s, a, source, penalty, now, rnd);
    assert r == Place(h, t, s.idCount, source, now);
    LookupById(h, r, s.idCount, a.service.ip);
    InvAddr(h, t, {s.idCount}, 1);
    LookupByAddr(h, r, t, a.service.ip);
  }

  lemma IdsBelow(h: Hasher, s: State)
    requires Inv(h, s)
    ensures s.idCount !in s.info
  {
  }

  lemma LookupById(h: Hasher, r: State, id: int, ip: NetAddr)
    requires Inv(h, r)
    ensures id in r.info && r.info[id].addr.service.ip == ip ==> ip in r.addr
  {
  }

  lemma LookupByAddr(h: Hasher, r: State, t: State, ip: NetAddr)
    requires Inv(h, r) && Inherits(t, r) && AddrOk(t.info, t.addr)
    ensures ip in r.addr ==> ip in t.addr && t.addr[ip] == r.addr[ip] && r.addr[ip] in r.info
  {
    if ip in r.addr {
      var id := r.addr[ip];
      assert id in r.info && r.info[id].addr.service.ip == ip;
      assert Kin(r.info[id], t.info[id]);
    }
  }

  lemma FreeTriedSlotLoses(h: Hasher, s: State, id: int)
    requires InvBut(h, s, {id}, 0)
    requires Linked(s) && id in s.info
    requires forall k :: k in s.triedTab ==>
      s.triedTab[k] != id && forall j :: j in s.newTab ==> s.newTab[j] != s.triedTab[k]
    ensures var r := FreeTriedSlot(h, s, id);
      var k := TriedSlot(h, s.key, s.info[id]);
      && (k in s.triedTab ==>
            s.triedTab[k] in r.info && !r.info[s.triedTab[k]].inTried && r.info[s.triedTab[k]].refCount == 1)
      && forall j :: j in s.info && j !in r.info ==>
           && k in s.triedTab
           && var u := OwnNewSlot(h, s.key, s.info[s.triedTab[k]]);
              u in s.newTab && j == s.newTab[u] && s.info[j].refCount == 1
  {
    hide InvBut;
    var k := TriedSlot(h, s.key, s.info[id]);
    if k in s.triedTab {
      var t := Evict(s, k);
      assert RandomOk(t.info, t.random);
      hide RandomOk, NewSlot, NewBucket, ClearNew;
      ClearNewEntries(t, OwnNewSlot(h, t.key, t.info[s.triedTab[k]]));
    }
  }

  lemma MakeTriedLoses(h: Hasher, s: State, id: int)
    requires Inv(h, s) && id in s.info && !s.info[id].inTried
    requires forall k :: k in s.triedTab ==> s.triedTab[k] in s.info && s.triedTab[k] != id
    ensures var k := TriedSlot(h, s.key, s.info[id]);
      var r := MakeTried(h, s, id);
      && (k in s.triedTab ==>
            s.triedTab[k] in r.info && !r.info[s.triedTab[k]].inTried && r.info[s.triedTab[k]].refCount == 1)
      && forall j :: j in s.info && j !in r.info ==>
           && k in s.triedTab
           && var u := OwnNewSlot(h, s.key, s.info[s.triedTab[k]]);
              u in s.newTab && j == s.newTab[u] && s.info[j].refCount == 1
  {
    hide InvBut, RandomOk, FreeTriedSlot, NewSlot, NewBucket;
    SweepKeeps(h, s, id);
    var t := Sweep(h, s, id, NEW_BUCKET_COUNT);
    RecountKeeps(h, t, {id}, 1, -1);
    var t1 := t.(nNew := t.nNew - 1);
    FreeTriedSlotKeeps(h, t1, id);
    FreeTriedSlotLoses(h, t1, id);
  }

  /**
   Good_ on an untried entry moves it to its tried slot. Whoever held that slot is back in the new table with one
   reference, and the only entry that can go is the one it displaces there, if that was its only reference.
   */
  lemma GoodMeaning(h: Hasher, s: State, a: Service, time: int)
    requires Inv(h, s) && Linked(s) && IsKnown(s, a) && !s.info[s.addr[a.ip]].inTried
    ensures var id := s.addr[a.ip];
      var k := TriedSlot(h, s.key, s.info[id]);
      var r := Good(h, s, a, time);
      && id in r.info && r.info[id].inTried && k in r.triedTab && r.triedTab[k] == id
      && r.info[id].lastSuccess == time && r.info[id].attempts == 0
      && (k in s.triedTab ==>
            s.triedTab[k] in r.info && !r.info[s.triedTab[k]].inTried && r.info[s.triedTab[k]].refCount == 1)
      && forall j :: j in s.info && j !in r.info ==>
           && k in s.triedTab
           && var u := OwnNewSlot(h, s.key, s.info[s.triedTab[k]]);
              u in s.newTab && j == s.newTab[u] && s.info[j].refCount == 1
  {
    hide InvBut, RandomOk, NewSlot, MakeTried;
    var id := s.addr[a.ip];
    var m := MarkGood(s, id, time);
    StatsKeep(h, s, id, m.info[id]);
    TriedAreTried(h, m);
    NewEntryHasSlot(h, m, id);
    MakeTriedMeaning(h, m, id);
    MakeTriedLoses(h, m, id);
    assert Good(h, s, a, time) == MakeTried(h, m, id);
  }

  lemma TriedAreTried(h: Hasher, s: State)
    requires Inv(h, s)
    ensures forall k :: k in s.triedTab ==> s.triedTab[k] in s.info && s.info[s.triedTab[k]].inTried
  {
  }

  // ---------------------------------------------------------------- runs

  datatype Op =
    | AddOp(a: Address, source: NetAddr, penalty: int, now: int, rnd: nat)
    | GoodOp(service: Service, time: int)
    | AttemptOp(service: Service, time: int)
    | ConnectedOp(service: Service, time: int)
    | GetAddrOp(now: int, draws: nat -> nat)

  /** The clock never runs before the epoch. */
  predicate Timely(op: Op) {
    match op
    case GoodOp(_, time) => time > 0
    case AttemptOp(_, time) => time >= 0
    case _ => true
  }

  ghost function Step(h: Hasher, s: State, op: Op): (r: State)
    requires Inv(h, s)
  {
    InvLinked(h, s, {}, 0);
    match op
    case AddOp(a, source, penalty, now, rnd) => Add(h, s, a, source, penalty, now, rnd)
    case GoodOp(service, time) => Good(h, s, service, time)
    case AttemptOp(service, time) => Attempt(s, service, time)
    case ConnectedOp(service, time) => Connected(s, service, time)
    case GetAddrOp(now, draws) => GetAddr(s, now, draws).0
  }

  lemma {:induction false} StepKeeps(h: Hasher, s: State, op: Op)
    requires Inv(h, s)
    ensures Inv(h, Step(h, s, op))
    ensures CheckOk(h, s) && Timely(op) ==> CheckOk(h, Step(h, s, op))
  {
    hide InvBut, RandomOk;
    InvLinked(h, s, {}, 0);
    match op
    case AddOp(a, source, penalty, now, rnd) =>
      AddKeeps(h, s, a, source, penalty, now, rnd);
      if TimesOk(s.info) { AddKeepsTimes(h, s, a, source, penalty, now, rnd); }
    case GoodOp(service, time) =>
      GoodKeeps(h, s, service, time);
      if TimesOk(s.info) { GoodKeepsCheck(h, s, service, time); }
    case AttemptOp(service, time) =>
      AttemptKeeps(h, s, service, time);
      if TimesOk(s.info) { AttemptKeepsCheck(h, s, service, time); }
    case ConnectedOp(service, time) =>
      AttemptKeeps(h, s, service, time);
      if TimesOk(s.info) { AttemptKeepsCheck(h, s, service, time); }
    case GetAddrOp(now, draws) =>
      GetAddrKeepsFrom(h, s, now, draws, 0, [], GetAddrLimit(|s.random|));
      var r := Step(h, s, op);
      assert forall id :: id in s.info ==> EqualButPos(r.info[id], s.info[id]);
  }

  /** The state after a run, the first operation first. */
  ghost function Run(h: Hasher, s: State, ops: seq<Op>): (r: State)
    requires Inv(h, s)
    ensures Inv(h, r)
    decreases |ops|
  {
    if ops == [] then s else
    StepKeeps(h, s, ops[0]);
    Run(h, Step(h, s, ops[0]), ops[1..])
  }

  lemma EmptyChecks(h: Hasher, key: Key)
    ensures CheckOk(h, Empty(key))
  {
    assert TriedIds(Empty(key).info) == {} && NewIds(Empty(key).info, {}) == {};
  }

  lemma {:induction false} RunKeepsCheck(h: Hasher, s: State, ops: seq<Op>)
    requires CheckOk(h, s) && forall op :: op in ops ==> Timely(op)
    ensures CheckOk(h, Run(h, s, ops))
    decreases |ops|
  {
    hide InvBut, TimesOk;
    if ops != [] {
      StepKeeps(h, s, ops[0]);
      assert ops[0] in ops;
      RunKeepsCheck(h, Step(h, s, ops[0]), ops[1..]);
    }
  }

  /**
   Every run from an empty manager, whatever the hashes, draws and (timely) clock readings, keeps what `Check_` tests.
   */
  lemma {:induction false} EveryRunChecks(h: Hasher, key: Key, ops: seq<Op>)
    requires forall op :: op in ops ==> Timely(op)
    ensures CheckOk(h, Empty(key)) && CheckOk(h, Run(h, Empty(key), ops))
  {
    EmptyChecks(h, key);
    RunKeepsCheck(h, Empty(key), ops);
  }

  lemma ClearNewKey(s: State, u: Slot)
    requires RandomOk(s.info, s.random) && (u in s.newTab ==> s.newTab[u] in s.info)
    ensures ClearNew(s, u).key == s.key
  {
    hide RandomOk;
  }

  lemma PlaceKey(h: Hasher, s: State, id: int, source: NetAddr, now: int)
    requires Linked(s) && id in s.info
    ensures Place(h, s, id, source, now).key == s.key
  {
    hide RandomOk, ClearNew, MayOverwrite, NewSlot, NewBucket;
    ClearNewKey(s, NewSlot(h, s.key, s.info[id], NewBucket(h, s.key, s.info[id], source)));
  }

  lemma FreeTriedSlotKey(h: Hasher, s: State, id: int)
    requires Linked(s) && id in s.info
    requires forall k :: k in s.triedTab ==> forall j :: j in s.newTab ==> s.newTab[j] != s.triedTab[k]
    ensures FreeTriedSlot(h, s, id).key == s.key
  {
    var k := TriedSlot(h, s.key, s.info[id]);
    if k in s.triedTab {
      var t := Evict(s, k);
      assert RandomOk(t.info, t.random);
      hide RandomOk, ClearNew, NewSlot, NewBucket;
      ClearNewKey(t, OwnNewSlot(h, t.key, t.info[s.triedTab[k]]));
    }
  }

  lemma MakeTriedKey(h: Hasher, s: State, id: int)
    requires Inv(h, s) && id in s.info && !s.info[id].inTried
    ensures MakeTried(h, s, id).key == s.key
  {
    hide InvBut, RandomOk, FreeTriedSlot;
    SweepKeeps(h, s, id);
    var t := Sweep(h, s, id, NEW_BUCKET_COUNT);
    RecountKeeps(h, t, {id}, 1, -1);
    var t1 := t.(nNew := t.nNew - 1);
    FreeTriedSlotKeeps(h, t1, id);
    FreeTriedSlotKey(h, t1, id);
  }

  lemma SwapKey(s: State, p: nat, q: nat)
    requires p < |s.random| && q < |s.random| && s.random[p] in s.info && s.random[q] in s.info
    ensures SwapRandom(s, p, q).key == s.key
  {
  }

  lemma {:induction false} GetAddrKey(
    h: Hasher, s: State, now: int, draws: nat -> nat, n: nat, out: seq<Address>, limit: nat)
    requires Inv(h, s) && RandomOk(s.info, s.random) && n <= |s.random|
    ensures GetAddrFrom(s, now, draws, n, out, limit).0.key == s.key
    decreases |s.random| - n
  {
    hide InvBut, RandomOk, SwapRandom, IsTerrible;
    if n < |s.random| && |out| < limit {
      var p := Picked(draws(n), n, |s.random|);
      ShuffleStep(h, s, n, p);
      SwapKey(s, n, p);
      var t := SwapRandom(s, n, p);
      var i := t.info[t.random[n]];
      GetAddrKey(h, t, now, draws, n + 1, if IsTerrible(i, now) then out else out + [i.addr], limit);
    }
  }

  lemma {:induction false} StepKeepsKey(h: Hasher, s: State, op: Op)
    requires Inv(h, s)
    ensures Step(h, s, op).key == s.key
  {
    hide InvBut, RandomOk, Place, MakeTried, GetAddrFrom, WantsReference, Refreshed;
    InvLinked(h, s, {}, 0);
    match op
    case AddOp(a, source, penalty, now, rnd) =>
      if h.routable(a.service.ip) {
        if a.service.ip in s.addr {
          var id := s.addr[a.service.ip];
          var i := Refreshed(s.info[id], a, penalty, now);
          StatsKeep(h, s, id, i);
          InvLinked(h, s.(info := s.info[id := i]), {}, 0);
          PlaceKey(h, s.(info := s.info[id := i]), id, source, now);
        } else {
          CreateNewKeeps(h, s, a, source, penalty);
          PlaceKey(h, CreateNew(s, a, source, penalty), s.idCount, source, now);
        }
      }
    case GoodOp(service, time) =>
      if IsKnown(s, service) {
        var id := s.addr[service.ip];
        var t := MarkGood(s, id, time);
        StatsKeep(h, s, id, t.info[id]);
        if !t.info[id].inTried { MakeTriedKey(h, t, id); }
      }
    case AttemptOp(service, time) =>
    case ConnectedOp(service, time) =>
    case GetAddrOp(now, draws) => GetAddrKey(h, s, now, draws, 0, [], GetAddrLimit(|s.random|));
  }

  lemma {:induction false} RunKeepsKey(h: Hasher, s: State, ops: seq<Op>)
    requires Inv(h, s)
    ensures Run(h, s, ops).key == s.key
    decreases |ops|
  {
    hide InvBut, Step;
    if ops != [] {
      StepKeeps(h, s, ops[0]);
      StepKeepsKey(h, s, ops[0]);
      RunKeepsKey(h, Step(h, s, ops[0]), ops[1..]);
    }
  }

  // ---------------------------------------------------------------- times the code does not check

  /** The first routable address announced to an empty manager is known afterwards, under its own service. */
  lemma {:induction false} FirstIsKnown(h: Hasher, key: Key, a: Address, source: NetAddr, penalty: int, now: int,
      rnd: nat)
    requires h.routable(a.service.ip) && Inv(h, Empty(key)) && Linked(Empty(key))
    ensures var r := Add(h, Empty(key), a, source, penalty, now, rnd); Linked(r) && IsKnown(r, a.service)
  {
    hide InvBut, RandomOk, NewSlot, NewBucket;
    var s := Empty(key);
    AddKeeps(h, s, a, source, penalty, now, rnd);
    InvLinked(h, Add(h, s, a, source, penalty, now, rnd), {}, 0);
  }

  lemma {:induction false} RunTwo(h: Hasher, s: State, first: Op, second: Op)
    requires Inv(h, s) && Inv(h, Step(h, s, first))
    ensures Run(h, s, [first, second]) == Step(h, Step(h, s, first), second)
  {
    hide InvBut, Step;
    var ops := [first, second];
    assert ops[1..] == [second] && [second][1..] == [];
    var t := Step(h, s, first);
    StepKeeps(h, t, second);
    assert Run(h, s, ops) == Run(h, t, [second]);
    assert Run(h, t, [second]) == Run(h, Step(h, t, second), []);
  }

  /** Whatever the hashes, an announcement and a good connection at time zero end in a state that `Check_` refuses. */
  lemma {:induction false} GoodBreaksCheck(h: Hasher, key: Key, a: Address, source: NetAddr, penalty: int, now: int,
      rnd: nat)
    requires h.routable(a.service.ip)
    ensures Inv(h, Empty(key))
    ensures !CheckOk(h, Run(h, Empty(key), [AddOp(a, source, penalty, now, rnd), GoodOp(a.service, 0)]))
  {
    hide InvBut, RandomOk, TimesOk, Add, Good;
    EmptyChecks(h, key);
    var s := Empty(key);
    InvLinked(h, s, {}, 0);
    var first := AddOp(a, source, penalty, now, rnd);
    FirstIsKnown(h, key, a, source, penalty, now, rnd);
    StepKeeps(h, s, first);
    RunTwo(h, s, first, GoodOp(a.service, 0));
    GoodKeepsCheck(h, Step(h, s, first), a.service, 0);
  }

  /** The same of an attempt before the epoch. */
  lemma {:induction false} AttemptBreaksCheck(h: Hasher, key: Key, a: Address, source: NetAddr, penalty: int,
      now: int, rnd: nat)
    requires h.routable(a.service.ip)
    ensures Inv(h, Empty(key))
    ensures !CheckOk(h, Run(h, Empty(key), [AddOp(a, source, penalty, now, rnd), AttemptOp(a.service, -1)]))
  {
    hide InvBut, RandomOk, TimesOk, Add, Attempt;
    EmptyChecks(h, key);
    var s := Empty(key);
    InvLinked(h, s, {}, 0);
    var first := AddOp(a, source, penalty, now, rnd);
    FirstIsKnown(h, key, a, source, penalty, now, rnd);
    StepKeeps(h, s, first);
    RunTwo(h, s, first, AttemptOp(a.service, -1));
    AttemptKeepsCheck(h, Step(h, s, first), a.service, -1);
  }
}
