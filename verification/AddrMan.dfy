/**
 The address manager itself: tables updated in place, each method proved to do to them
 what the function of the same name does to their value. An `assert` stands where the
 original has one.
 */
module AddrMan {
  import opened AddrManSpec
  import opened AddrManOps
  import opened Positional
  import Runs = AddrManRuns

  /** The occupied slots of a bucket array; -1 marks a free one. */
  ghost function Occupied(t: array2<int>): (m: Table)
    reads t
  {
    map b: nat, p: nat | b < t.Length0 && p < t.Length1 && t[b, p] != -1 :: Slot(b, p) := t[b, p]
  }

  method Put(t: array2<int>, k: Slot, id: int)
    requires k.bucket < t.Length0 && k.pos < t.Length1 && id != -1
    modifies t
    ensures Occupied(t) == old(Occupied(t))[k := id]
  {
    t[k.bucket, k.pos] := id;
  }

  method Free(t: array2<int>, k: Slot)
    requires k.bucket < t.Length0 && k.pos < t.Length1
    modifies t
    ensures Occupied(t) == old(Occupied(t)) - {k}
  {
    t[k.bucket, k.pos] := -1;
  }

  method Look(t: array2<int>, k: Slot) returns (id: int)
    requires k.bucket < t.Length0 && k.pos < t.Length1
    ensures id == if k in Occupied(t) then Occupied(t)[k] else -1
    ensures id == -1 <==> k !in Occupied(t)
  {
    id := t[k.bucket, k.pos];
  }

  /** The n-th bucket of a search that starts at bucket `rnd`. */
  function Wrap(n: nat, rnd: nat): nat {
    (n + rnd) % NEW_BUCKET_COUNT
  }

  lemma WrapReaches(b: nat, rnd: nat)
    requires b < NEW_BUCKET_COUNT
    ensures exists m: nat :: m < NEW_BUCKET_COUNT && Wrap(m, rnd) == b
  {
    assert Wrap((b - rnd) % NEW_BUCKET_COUNT, rnd) == b;
  }

  class AddrManager {
    const h: Hasher
    var key: Key
    var idCount: int
    var info: map<int, Info>
    var addr: map<NetAddr, int>
    var random: seq<int>
    var nTried: int
    const triedTab: array2<int>
    var nNew: int
    const newTab: array2<int>

    ghost predicate Shaped()
    {
      && triedTab.Length0 == TRIED_BUCKET_COUNT && triedTab.Length1 == BUCKET_SIZE
      && newTab.Length0 == NEW_BUCKET_COUNT && newTab.Length1 == BUCKET_SIZE
      && triedTab != newTab
    }

    /** The tables as one value. */
    ghost function Value(): (s: State)
      reads this, triedTab, newTab
    {
      State(key, idCount, info, addr, random, nTried, Occupied(triedTab), nNew, Occupied(newTab))
    }

    constructor (h: Hasher, key: Key)
      ensures this.h == h && fresh(triedTab) && fresh(newTab)
      ensures Shaped() && Value() == Empty(key) && Inv(h, Value())
    {
      this.h, this.key := h, key;
      idCount, info, addr, random, nTried, nNew := 0, map[], map[], [], 0, 0;
      triedTab := new int[TRIED_BUCKET_COUNT, BUCKET_SIZE]((i, j) => -1);
      newTab := new int[NEW_BUCKET_COUNT, BUCKET_SIZE]((i, j) => -1);
      new;
      Runs.EmptyChecks(h, key);
    }

    method CreateEntry(a: Address, source: NetAddr) returns (id: int)
      modifies this
      ensures Value() == Create(old(Value()), a, source) && id == old(idCount)
    {
      id := idCount;
      idCount := idCount + 1;
      info := info[id := Info(a, source, 0, 0, 0, 0, false, -1)];
      addr := addr[a.service.ip := id];
      info := info[id := info[id].(randomPos := |random|)];
      random := random + [id];
    }

    method SwapPositions(p: nat, q: nat)
      requires p < |random| && q < |random| && random[p] in info && random[q] in info
      modifies this`info, this`random
      ensures Value() == SwapRandom(old(Value()), p, q)
    {
      if p == q {
        return;
      }
      var id1, id2 := random[p], random[q];
      info := info[id1 := info[id1].(randomPos := q)];
      info := info[id2 := info[id2].(randomPos := p)];
      random := random[p := id2];
      random := random[q := id1];
    }

    method DeleteEntry(id: int)
      requires RandomOk(info, random) && id in info && !info[id].inTried && info[id].refCount == 0
      modifies this`info, this`random, this`addr, this`nNew
      ensures Value() == Delete(old(Value()), id)
    {
      hide Occupied;
      var ip := info[id].addr.service.ip;
      SwapPositions(info[id].randomPos, |random| - 1);
      random := random[..|random| - 1];
      addr := addr - {ip};
      info := info - {id};
      nNew := nNew - 1;
    }

    method ClearNewSlot(k: Slot, ghost limbo: set<int>, ghost extra: int)
      requires Shaped() && k.bucket < NEW_BUCKET_COUNT && k.pos < BUCKET_SIZE
      requires InvBut(h, Value(), limbo, extra) && Linked(Value())
      modifies this`info, this`random, this`addr, this`nNew, newTab
      ensures Value() == ClearNew(old(Value()), k)
    {
      hide InvBut, RandomOk, Occupied;
      ghost var s := Value();
      SlotHolder(h, s, k, limbo, extra);
      var id := Look(newTab, k);
      if id != -1 {
        assert info[id].refCount > 0;
        info := info[id := info[id].(refCount := info[id].refCount - 1)];
        Free(newTab, k);
        assert Value() == Unref(s, k);
        if info[id].refCount == 0 {
          UnrefRandom(s, k);
          DeleteEntry(id);
        }
      } else {
        assert k !in s.newTab;
      }
    }

    /** One round of the sweep. */
    method SweepBucket(id: int, bucket: nat, ghost s: State)
      requires Shaped() && id in s.info && id >= 0 && bucket < NEW_BUCKET_COUNT
      requires Value() == Sweep(h, s, id, bucket)
      modifies this`info, newTab
      ensures Value() == Sweep(h, s, id, bucket + 1)
    {
      hide Occupied;
      var k := NewSlot(h, key, info[id], bucket);
      SweepOne(h, s, id, bucket);
      hide Sweep;
      var holder := Look(newTab, k);
      if holder == id {
        Free(newTab, k);
        info := info[id := info[id].(refCount := info[id].refCount - 1)];
      }
    }

    /** The sweep of MakeTried: take the entry out of every new bucket. */
    method SweepNew(id: int)
      requires Shaped() && id in info && id >= 0
      modifies this`info, newTab
      ensures Value() == Sweep(h, old(Value()), id, NEW_BUCKET_COUNT)
    {
      hide Occupied, Sweep;
      ghost var s := Value();
      SweepNothing(h, s, id);
      for bucket := 0 to NEW_BUCKET_COUNT
        invariant Value() == Sweep(h, s, id, bucket)
      {
        SweepBucket(id, bucket, s);
      }
    }

    /** Empty the tried slot `k`; its holder goes back to the new table. */
    method EvictFrom(id: int)
      requires Shaped() && InvBut(h, Value(), {id}, 0) && Linked(Value()) && id in info
      requires forall j :: j in Value().triedTab ==>
        Value().triedTab[j] != id && forall i :: i in Value().newTab ==> Value().newTab[i] != Value().triedTab[j]
      modifies this, newTab, triedTab
      ensures Value() == FreeTriedSlot(h, old(Value()), id)
    {
      hide InvBut, RandomOk, Occupied;
      ghost var s := Value();
      var k := TriedSlot(h, key, info[id]);
      var out := Look(triedTab, k);
      TriedNonneg(h, s, {id}, 0);
      if out != -1 {
        assert out in info;
        info := info[out := info[out].(inTried := false)];
        Free(triedTab, k);
        nTried := nTried - 1;
        ghost var t := Evict(s, k);
        assert Value() == t;
        EvictKeeps(h, s, k, {id}, 0);
        InvLinked(h, t, {id} + {out}, 0);
        ReadmitEntry(out, {id} + {out});
      }
    }

    /** Put an entry that is in neither table back into its own new slot. */
    method ReadmitEntry(id: int, ghost limbo: set<int>)
      requires Shaped() && InvBut(h, Value(), limbo, 0) && Linked(Value()) && id in limbo && id in info && id >= 0
      requires forall k :: k in Value().newTab ==> Value().newTab[k] != id
      modifies this`info, this`random, this`addr, this`nNew, newTab
      ensures Value() == Readmit(h, old(Value()), id)
    {
      hide InvBut, RandomOk, Occupied;
      ghost var s := Value();
      LimboFacts(h, s, limbo, 0, id);
      var u := OwnNewSlot(h, key, info[id]);
      ClearNewSlot(u, limbo, 0);
      ClearNewEntries(s, u);
      info := info[id := info[id].(refCount := 1)];
      Put(newTab, u, id);
      nNew := nNew + 1;
    }

    method MoveToTried(id: int)
      requires Shaped() && Inv(h, Value()) && id in info && !info[id].inTried && id >= 0
      modifies this, newTab, triedTab
      ensures Value() == MakeTried(h, old(Value()), id)
    {
      hide InvBut, RandomOk, Occupied;
      ghost var s := Value();
      SweepKeeps(h, s, id);
      SweepNew(id);
      LimboFacts(h, Value(), {id}, 1, id);
      nNew := nNew - 1;
      RecountKeeps(h, Sweep(h, s, id, NEW_BUCKET_COUNT), {id}, 1, -1);
      assert info[id].refCount == 0;
      ghost var t := Value();
      FreeTriedSlotKeeps(h, t, id);
      FreeTriedSlotService(h, t, id);
      var k := TriedSlot(h, key, info[id]);
      EvictFrom(id);
      assert k !in Value().triedTab;
      Put(triedTab, k, id);
      nTried := nTried + 1;
      info := info[id := info[id].(inTried := true)];
    }

    /** The bucket search of Good_, starting at a random bucket and wrapping around. */
    method FindNewBucket(id: int, rnd: nat) returns (found: bool)
      requires Shaped() && id in info && id >= 0
      ensures found <==> HasNewSlot(h, Value(), id)
    {
      hide Occupied;
      ghost var s := Value();
      found := false;
      var n := 0;
      while n < NEW_BUCKET_COUNT
        invariant 0 <= n <= NEW_BUCKET_COUNT
        invariant forall m: nat :: m < n ==> NewSlot(h, key, info[id], Wrap(m, rnd)) !in SlotsOf(s.newTab, id)
      {
        var b := Wrap(n, rnd);
        var holder := Look(newTab, NewSlot(h, key, info[id], b));
        if holder == id {
          assert NewSlot(h, key, info[id], b) in SlotsOf(s.newTab, id);
          return true;
        }
        n := n + 1;
      }
      forall b: nat | b < NEW_BUCKET_COUNT
        ensures NewSlot(h, key, info[id], b) !in SlotsOf(s.newTab, id)
      {
        WrapReaches(b, rnd);
      }
    }

    method GoodAddress(a: Service, time: int, rnd: nat)
      requires Shaped() && Inv(h, Value()) && Linked(Value())
      modifies this, newTab, triedTab
      ensures Value() == Good(h, old(Value()), a, time) && Inv(h, Value())
    {
      hide InvBut, RandomOk, Occupied, MakeTried;
      ghost var s := Value();
      GoodKeeps(h, s, a, time);
      if a.ip !in addr {
        return;
      }
      var id := addr[a.ip];
      if info[id].addr.service != a {
        return;
      }
      IdsNonneg(h, s);
      info := info[id := info[id].(lastSuccess := time, lastTry := time, attempts := 0)];
      if info[id].inTried {
        return;
      }
      var found := FindNewBucket(id, rnd);
      if !found {
        return;
      }
      StatsKeep(h, s, id, info[id]);
      MoveToTried(id);
    }

    method AttemptAddress(a: Service, time: int)
      requires Linked(Value()) && Inv(h, Value())
      modifies this`info
      ensures Value() == Attempt(old(Value()), a, time) && Inv(h, Value())
    {
      hide InvBut, RandomOk, Occupied;
      AttemptKeeps(h, Value(), a, time);
      if a.ip !in addr {
        return;
      }
      var id := addr[a.ip];
      if info[id].addr.service != a {
        return;
      }
      info := info[id := info[id].(lastTry := time)];
      info := info[id := info[id].(attempts := info[id].attempts + 1)];
    }

    method ConnectedAddress(a: Service, time: int)
      requires Linked(Value()) && Inv(h, Value())
      modifies this`info
      ensures Value() == Connected(old(Value()), a, time) && Inv(h, Value())
    {
      hide InvBut, RandomOk, Occupied;
      AttemptKeeps(h, Value(), a, time);
      if a.ip !in addr {
        return;
      }
      var id := addr[a.ip];
      if info[id].addr.service != a {
        return;
      }
      if time - info[id].addr.time > 20 * 60 {
        info := info[id := info[id].(addr := info[id].addr.(time := ToUint32(time)))];
      }
    }

    /** Whether `id` may take slot `u`, which it does not hold. */
    method MayTake(id: int, u: Slot, now: int) returns (insert: bool)
      requires Shaped() && id in info && u.bucket < NEW_BUCKET_COUNT && u.pos < BUCKET_SIZE
      requires forall k :: k in Value().newTab ==> Value().newTab[k] in info && Value().newTab[k] >= 0
      ensures insert <==> u !in Value().newTab || MayOverwrite(info[Value().newTab[u]], info[id], now)
    {
      hide Occupied, IsTerrible;
      var holder := Look(newTab, u);
      insert := holder == -1;
      if !insert {
        assert u in Value().newTab && Value().newTab[u] == holder;
        if IsTerrible(info[holder], now) || (info[holder].refCount > 1 && info[id].refCount == 0) {
          insert := true;
        }
      }
    }

    method EnterSlot(id: int, u: Slot)
      requires Shaped() && id in info && id != -1 && u.bucket < NEW_BUCKET_COUNT && u.pos < BUCKET_SIZE
      modifies this`info, newTab
      ensures Value() == Insert(old(Value()), id, u)
    {
      hide Occupied;
      info := info[id := info[id].(refCount := info[id].refCount + 1)];
      Put(newTab, u, id);
    }

    /** The second half of Add_: enter `id` in the new bucket that `source` selects. */
    method PlaceEntry(id: int, source: NetAddr, now: int, ghost limbo: set<int>)
      requires Shaped() && Linked(Value()) && id in info && !info[id].inTried && id >= 0
      requires limbo == {id} || (limbo == {} && 0 < info[id].refCount < NEW_BUCKETS_PER_ADDRESS)
      requires InvBut(h, Value(), limbo, |limbo|)
      modifies this, newTab
      ensures Value() == Place(h, old(Value()), id, source, now)
    {
      hide InvBut, RandomOk, Occupied, MayOverwrite;
      ghost var s := Value();
      var u := NewSlot(h, key, info[id], NewBucket(h, key, info[id], source));
      var holder := Look(newTab, u);
      SlotHolder(h, s, u, limbo, |limbo|);
      if holder == id {
        return;
      }
      assert u.bucket < NEW_BUCKET_COUNT && u.pos < BUCKET_SIZE;
      var insert := MayTake(id, u, now);
      if insert {
        ClearNewEntries(s, u);
        hide ClearNew, Insert;
        ClearNewSlot(u, limbo, |limbo|);
        EnterSlot(id, u);
      } else if info[id].refCount == 0 {
        hide Delete;
        DeleteEntry(id);
      }
    }

    /** The stochastic test's factor, doubled once per reference. */
    method Factor(refCount: int) returns (f: nat)
      requires refCount >= 0
      ensures f == Pow2(refCount)
    {
      f := 1;
      for n := 0 to refCount
        invariant f == Pow2(n)
      {
        f := f * 2;
      }
    }

    /** What a repeated announcement updates in a known entry. */
    method Refresh(id: int, a: Address, penalty: int, now: int)
      requires id in info
      modifies this`info
      ensures info == old(info)[id := Refreshed(old(info[id]), a, penalty, now)]
    {
      var i := info[id];
      var interval := if now - a.time < 24 * 60 * 60 then 60 * 60 else 24 * 60 * 60;
      if a.time != 0 && (i.addr.time == 0 || i.addr.time < a.time - interval - penalty) {
        i := i.(addr := i.addr.(time := ToUint32(if a.time - penalty > 0 then a.time - penalty else 0)));
      }
      i := i.(addr := i.addr.(services := i.addr.services + a.services));
      info := info[id := i];
    }

    /** The tests a known entry must pass to gain a reference. */
    /** Create an entry with the time that the penalty leaves, and count it as new. */
    method CreateNewEntry(a: Address, source: NetAddr, penalty: int) returns (id: int)
      modifies this
      ensures Value() == CreateNew(old(Value()), a, source, penalty) && id == old(idCount)
    {
      hide Occupied;
      id := CreateEntry(a, source);
      info := info[id := info[id].(addr := info[id].addr.(
        time := ToUint32(if a.time - penalty > 0 then a.time - penalty else 0)))];
      nNew := nNew + 1;
      assert info == old(info)[id := info[id]];
      assert addr == old(addr)[a.service.ip := id];
    }

    method Wants(i: Info, a: Address, rnd: nat) returns (more: bool)
      requires !i.inTried ==> i.refCount >= 0
      ensures more <==> WantsReference(i, a, rnd)
    {
      if a.time == 0 || (i.addr.time != 0 && a.time <= i.addr.time) {
        return false;
      }
      if i.inTried {
        return false;
      }
      if i.refCount == NEW_BUCKETS_PER_ADDRESS {
        return false;
      }
      var f := Factor(i.refCount);
      if f > 1 && rnd % f != 0 {
        return false;
      }
      return true;
    }

    method AddAddress(a: Address, source: NetAddr, penalty: int, now: int, rnd: nat) returns (isNew: bool)
      requires Shaped() && Inv(h, Value()) && Linked(Value())
      modifies this, newTab
      ensures Value() == Add(h, old(Value()), a, source, penalty, now, rnd) && Inv(h, Value())
      ensures isNew <==> h.routable(a.service.ip) && a.service.ip !in old(addr)
    {
      hide InvBut, RandomOk, Occupied, Place, Refreshed, WantsReference;
      ghost var s := Value();
      AddKeeps(h, s, a, source, penalty, now, rnd);
      if !h.routable(a.service.ip) {
        return false;
      }
      isNew := false;
      if a.service.ip in addr {
        var id := addr[a.service.ip];
        IdsNonneg(h, s);
        ghost var i := Refreshed(info[id], a, penalty, now);
        StatsKeep(h, s, id, i);
        Refresh(id, a, penalty, now);
        ghost var t := s.(info := s.info[id := i]);
        assert Value() == t;
        InvLinked(h, t, {}, 0);
        if !info[id].inTried {
          NewEntryRefs(h, t, id);
        }
        var more := Wants(info[id], a, rnd);
        if more {
          WantsMeans(info[id], a, rnd);
          PlaceEntry(id, source, now, {});
        }
      } else {
        IdsNonneg(h, s);
        CreateNewKeeps(h, s, a, source, penalty);
        hide CreateNew;
        var id := CreateNewEntry(a, source, penalty);
        isNew := true;
        PlaceEntry(id, source, now, {id});
      }
    }

    method GetAddresses(now: int, draws: nat -> nat) returns (out: seq<Address>)
      requires Inv(h, Value()) && RandomOk(info, random)
      modifies this`info, this`random
      ensures (Value(), out) == Runs.GetAddr(old(Value()), now, draws) && Inv(h, Value())
    {
      ghost var s := Value();
      var limit := 23 * |random| / 100;
      if limit > 2500 {
        limit := 2500;
      }
      out := [];
      var n := 0;
      hide InvBut, RandomOk, Occupied, IsTerrible, SwapRandom;
      while n < |random|
        invariant 0 <= n <= |random| && Inv(h, Value()) && RandomOk(info, random)
        invariant Runs.GetAddrFrom(Value(), now, draws, n, out, limit) == Runs.GetAddr(s, now, draws)
        decreases |random| - n
      {
        if |out| >= limit {
          break;
        }
        n, out := Shuffle(now, draws, n, out, limit);
      }
    }

    /** One round of GetAddr_: draw an entry into place `n` and offer it unless it is terrible. */
    method Shuffle(now: int, draws: nat -> nat, n: nat, out: seq<Address>, limit: nat)
      returns (n': nat, out': seq<Address>)
      requires Inv(h, Value()) && RandomOk(info, random) && n < |random| && |out| < limit
      modifies this`info, this`random
      ensures Inv(h, Value()) && RandomOk(info, random) && n' == n + 1 && |random| == |old(random)|
      ensures Runs.GetAddrFrom(Value(), now, draws, n', out', limit) ==
        Runs.GetAddrFrom(old(Value()), now, draws, n, out, limit)
    {
      hide InvBut, RandomOk, Occupied, IsTerrible, SwapRandom, Runs.GetAddrFrom;
      var p := Runs.Picked(draws(n), n, |random|);
      Runs.ShuffleStep(h, Value(), n, p);
      Runs.GetAddrRound(Value(), now, draws, n, out, limit, p);
      SwapPositions(n, p);
      assert random[n] in info;
      var i := info[random[n]];
      out' := out;
      if !IsTerrible(i, now) {
        out' := out + [i.addr];
      }
      n' := n + 1;
    }
  }

  lemma SlotHolder(h: Hasher, s: State, k: Slot, limbo: set<int>, extra: int)
    requires InvBut(h, s, limbo, extra)
    ensures forall j :: j in s.newTab ==> s.newTab[j] >= 0
    ensures k in s.newTab ==> s.newTab[k] in s.info && !s.info[s.newTab[k]].inTried && s.info[s.newTab[k]].refCount >= 1
  {
  }

  lemma UnrefRandom(s: State, k: Slot)
    requires RandomOk(s.info, s.random) && k in s.newTab && s.newTab[k] in s.info
    ensures RandomOk(Unref(s, k).info, s.random)
  {
  }

  lemma TriedNonneg(h: Hasher, s: State, limbo: set<int>, extra: int)
    requires InvBut(h, s, limbo, extra)
    ensures forall k :: k in s.triedTab ==> s.triedTab[k] >= 0
  {
  }

  lemma SweepNothing(h: Hasher, s: State, id: int)
    requires id in s.info
    ensures Sweep(h, s, id, 0) == s
  {
    assert SweptSlots(h, s, id, 0) == {};
    assert s.newTab - {} == s.newTab;
    assert s.info[id := s.info[id]] == s.info;
  }

  lemma SweptOne(h: Hasher, s: State, id: int, b: nat)
    requires id in s.info
    ensures var k := NewSlot(h, s.key, s.info[id], b);
      k !in SweptSlots(h, s, id, b) &&
      SweptSlots(h, s, id, b + 1) ==
      SweptSlots(h, s, id, b) + if k in s.newTab && s.newTab[k] == id then {k} else {}
  {
  }

  /** One more bucket of the sweep: at most the one slot the entry may hold in it. */
  lemma SweepOne(h: Hasher, s: State, id: int, b: nat)
    requires id in s.info
    ensures var k := NewSlot(h, s.key, s.info[id], b);
      var r, r' := Sweep(h, s, id, b), Sweep(h, s, id, b + 1);
      var hit := k in r.newTab && r.newTab[k] == id;
      && r' == r.(info := r'.info, newTab := r'.newTab)
      && r'.newTab == (if hit then r.newTab - {k} else r.newTab)
      && r'.info == (if hit then r.info[id := r.info[id].(refCount := r.info[id].refCount - 1)] else r.info)
  {
    SweptOne(h, s, id, b);
    hide SweptSlots, NewSlot, Without;
    WithoutOne(s, id, SweptSlots(h, s, id, b), NewSlot(h, s.key, s.info[id], b));
  }

  lemma WithoutOne(s: State, id: int, gone: set<Slot>, k: Slot)
    requires id in s.info && k !in gone
    ensures var hit := k in s.newTab && s.newTab[k] == id;
      var r, r' := Without(s, id, gone), Without(s, id, gone + if hit then {k} else {});
      && r' == r.(info := r'.info, newTab := r'.newTab)
      && (hit <==> k in r.newTab && r.newTab[k] == id) && id in r.info
      && r'.newTab == (if hit then r.newTab - {k} else r.newTab)
      && r'.info == (if hit then r.info[id := r.info[id].(refCount := r.info[id].refCount - 1)] else r.info)
  {
    if k in s.newTab && s.newTab[k] == id {
      var r, r' := Without(s, id, gone), Without(s, id, gone + {k});
      assert r'.newTab == r.newTab - {k};
      assert r'.info == r.info[id := r.info[id].(refCount := r.info[id].refCount - 1)];
    } else {
      assert gone + {} == gone;
    }
  }

  lemma IdsNonneg(h: Hasher, s: State)
    requires Inv(h, s)
    ensures s.idCount >= 0 && forall id :: id in s.info ==> id >= 0
  {
  }

  lemma WantsMeans(i: Info, a: Address, rnd: nat)
    requires WantsReference(i, a, rnd)
    ensures !i.inTried && i.refCount != NEW_BUCKETS_PER_ADDRESS
  {
  }
}
