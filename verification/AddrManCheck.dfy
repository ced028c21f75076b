/**
 `Check_` as the loops it is, over any manager whatever, and what its passing means:
 exactly the invariant, the times and a key.
 */
module AddrManCheck {
  import opened AddrManSpec
  import opened AddrMan
  import opened FiniteSets
  import Runs = AddrManRuns

  // ---------------------------------------------------------------- what each part of Check_ demands

  /** An entry as the first loop demands it, once its address has been looked up. */
  predicate EntryPasses(s: State, id: int)
    requires id in s.info
  {
    var i := s.info[id];
    && (if i.inTried then i.lastSuccess != 0 && i.refCount == 0 else 1 <= i.refCount <= NEW_BUCKETS_PER_ADDRESS)
    && i.addr.service.ip in s.addr && s.addr[i.addr.service.ip] == id
    && 0 <= i.randomPos < |s.random| && s.random[i.randomPos] == id
    && i.lastTry >= 0
    && i.lastSuccess >= 0
  }

  ghost predicate EntriesPass(s: State) {
    forall id :: id in s.info ==> EntryPasses(s, id)
  }

  ghost predicate TriedSlotPasses(h: Hasher, s: State, k: Slot)
    requires k in s.triedTab
  {
    var id := s.triedTab[k];
    id in TriedIds(s.info) && k == TriedSlot(h, s.key, s.info[id])
  }

  /** The tried slots hold tried entries in their own places, and every one of these. */
  ghost predicate TriedPasses(h: Hasher, s: State) {
    && (forall k :: k in s.triedTab ==> TriedSlotPasses(h, s, k))
    && forall id :: id in TriedIds(s.info) ==> SlotsOf(s.triedTab, id) != {}
  }

  ghost predicate NewSlotPasses(h: Hasher, s: State, k: Slot)
    requires k in s.newTab
  {
    var id := s.newTab[k];
    id in NewIds(s.info, {}) && k == NewSlot(h, s.key, s.info[id], k.bucket)
  }

  /** The new slots hold new entries in their own places, each as often as it is referred to. */
  ghost predicate NewPasses(h: Hasher, s: State) {
    && (forall k :: k in s.newTab ==> NewSlotPasses(h, s, k))
    && forall id :: id in NewIds(s.info, {}) ==> s.info[id].refCount == |SlotsOf(s.newTab, id)|
  }

  /** Everything `Check_` tests. */
  ghost predicate Passes(h: Hasher, s: State) {
    && |s.random| == s.nTried + s.nNew
    && EntriesPass(s) && CountsOk(s, {}, 0) && TriedPasses(h, s) && NewPasses(h, s)
    && s.key != 0
  }

  // ---------------------------------------------------------------- passing is the invariant

  /** Ids are handed out from below and no address is recorded for an entry that does not exist. */
  ghost predicate NoStrays(s: State) {
    && IdsOk(s.info, s.idCount)
    && (forall a :: a in s.addr ==> s.addr[a] in s.info && s.info[s.addr[a]].addr.service.ip == a)
    && forall k :: k in s.newTab ==> k.bucket < NEW_BUCKET_COUNT
  }

  function PlaceOf(info: map<int, Info>): int -> int {
    (id: int) => if id in info then info[id].randomPos else 0
  }

  /** When the random order is as long as there are entries and each entry is where it says, nothing else is in it. */
  lemma {:induction false} RandomFilled(info: map<int, Info>, random: seq<int>)
    requires |random| == |info.Keys|
    requires forall id :: id in info ==> 0 <= info[id].randomPos < |random| && random[info[id].randomPos] == id
    ensures RandomOk(info, random)
  {
    var f := PlaceOf(info);
    InjectiveImage(info.Keys, f);
    SubsetOfSameSize(Image(info.Keys, f), Below(|random|));
    forall i | 0 <= i < |random|
      ensures random[i] in info && info[random[i]].randomPos == i
    {
      assert i in Image(info.Keys, f);
      var id :| id in info.Keys && f(id) == i;
    }
  }

  lemma {:induction false} RandomLength(info: map<int, Info>, random: seq<int>)
    requires RandomOk(info, random)
    ensures |random| == |info.Keys|
  {
    var f := PlaceOf(info);
    InjectiveImage(info.Keys, f);
    forall i | i in Below(|random|)
      ensures i in Image(info.Keys, f)
    {
      assert random[i] in info.Keys && f(random[i]) == i;
    }
    assert Image(info.Keys, f) == Below(|random|);
  }

  lemma Partition(info: map<int, Info>)
    ensures |info.Keys| == |TriedIds(info)| + |NewIds(info, {})|
  {
    assert info.Keys == TriedIds(info) + NewIds(info, {});
  }

  lemma PassingTried(h: Hasher, s: State)
    requires EntriesPass(s)
    ensures TriedPasses(h, s) <==> TriedOk(h, s.key, s.info, s.triedTab)
  {
    hide TriedSlot;
    if TriedPasses(h, s) {
      forall id | id in s.info && s.info[id].inTried
        ensures TriedSlot(h, s.key, s.info[id]) in s.triedTab && s.triedTab[TriedSlot(h, s.key, s.info[id])] == id
      {
        assert id in TriedIds(s.info);
        var k :| k in SlotsOf(s.triedTab, id);
        assert TriedSlotPasses(h, s, k);
      }
      assert forall k :: k in s.triedTab ==> TriedSlotPasses(h, s, k);
    }
    if TriedOk(h, s.key, s.info, s.triedTab) {
      forall id | id in TriedIds(s.info)
        ensures SlotsOf(s.triedTab, id) != {}
      {
        assert TriedSlot(h, s.key, s.info[id]) in SlotsOf(s.triedTab, id);
      }
    }
  }

  lemma PassingNew(h: Hasher, s: State)
    requires NoStrays(s) && EntriesPass(s)
    ensures NewPasses(h, s) <==> NewOk(h, s.key, s.info, s.newTab, {})
  {
    hide IdsOk, NewSlot, SlotsOf;
    assert NewPasses(h, s) ==> forall k :: k in s.newTab ==> NewSlotPasses(h, s, k);
    assert NewPasses(h, s) ==> forall id :: id in s.info && !s.info[id].inTried ==> id in NewIds(s.info, {});
  }

  lemma PassingEntries(h: Hasher, s: State)
    requires Inv(h, s) && TimesOk(s.info)
    ensures EntriesPass(s)
  {
    hide NewSlotsOk, TriedSlot, SlotsOf, IdsOk;
  }

  lemma PassingIndex(s: State)
    requires NoStrays(s) && EntriesPass(s) && |s.random| == |s.info.Keys|
    ensures IndexOk(s) && TimesOk(s.info)
  {
    hide IdsOk, RandomOk;
    RandomFilled(s.info, s.random);
  }

  /** On a manager without strays, `Check_` passes exactly if the invariant, the times and the key are in order. */
  lemma PassesExactly(h: Hasher, s: State)
    requires NoStrays(s)
    ensures Passes(h, s) <==> Inv(h, s) && TimesOk(s.info) && s.key != 0
  {
    hide NoStrays, EntriesPass, TriedPasses, NewPasses, TriedOk, NewOk, IndexOk, TimesOk, RandomOk, TriedIds, NewIds;
    Partition(s.info);
    if Passes(h, s) {
      PassingTried(h, s);
      PassingNew(h, s);
      PassingIndex(s);
    }
    if Inv(h, s) && TimesOk(s.info) {
      PassingEntries(h, s);
      InvParts(h, s);
      PassingTried(h, s);
      PassingNew(h, s);
      RandomLength(s.info, s.random);
    }
  }

  lemma InvNoStrays(h: Hasher, s: State)
    requires Inv(h, s)
    ensures NoStrays(s) && Addressed(s)
  {
  }

  /** Every entry's address is on record, for this entry or for another. */
  ghost predicate Addressed(s: State) {
    forall id :: id in s.info ==> s.info[id].addr.service.ip in s.addr
  }

  // ---------------------------------------------------------------- the entries

  /** The references an untried entry still has to account for. */
  function RefCounts(info: map<int, Info>): map<int, int> {
    map id | id in info && !info[id].inTried :: info[id].refCount
  }

  /** One entry. Looking up an address that is not on record enters it, for the entry with id 0. */
  method CheckEntry(m: AddrManager, id: int) returns (code: int)
    requires id in m.info
    modifies m`addr
    ensures code == 0 <==> EntryPasses(m.Value(), id)
    ensures forall a :: a in old(m.addr) ==> a in m.addr && m.addr[a] == old(m.addr)[a]
    ensures m.info[id].addr.service.ip in old(m.addr) ==> m.addr == old(m.addr)
  {
    hide Occupied;
    var i := m.info[id];
    if i.inTried {
      if i.lastSuccess == 0 {
        return -1;
      }
      if i.refCount != 0 {
        return -2;
      }
    } else {
      if i.refCount < 0 || i.refCount > NEW_BUCKETS_PER_ADDRESS {
        return -3;
      }
      if i.refCount == 0 {
        return -4;
      }
    }
    if i.addr.service.ip !in m.addr {
      m.addr := m.addr[i.addr.service.ip := 0];
    }
    if m.addr[i.addr.service.ip] != id {
      return -5;
    }
    if i.randomPos < 0 || i.randomPos >= |m.random| || m.random[i.randomPos] != id {
      return -14;
    }
    if i.lastTry < 0 {
      return -6;
    }
    if i.lastSuccess < 0 {
      return -8;
    }
    return 0;
  }

  lemma StillPasses(s: State, t: State, id: int)
    requires id in s.info && EntryPasses(s, id) && t == s.(addr := t.addr)
    requires forall a :: a in s.addr ==> a in t.addr && t.addr[a] == s.addr[a]
    ensures EntryPasses(t, id)
  {
  }

  ghost predicate PassSoFar(s: State, rest: set<int>) {
    forall id :: id in s.info && id !in rest ==> EntryPasses(s, id)
  }

  lemma PassedNext(s: State, t: State, rest: set<int>, id: int)
    requires PassSoFar(s, rest) && t == s.(addr := t.addr) && id in t.info && EntryPasses(t, id)
    requires forall a :: a in s.addr ==> a in t.addr && t.addr[a] == s.addr[a]
    ensures PassSoFar(t, rest - {id})
  {
    hide EntryPasses;
    forall j | j in t.info && j !in rest - {id}
      ensures EntryPasses(t, j)
    {
      if j != id {
        StillPasses(s, t, j);
      }
    }
  }

  lemma PassedAll(s: State)
    ensures PassSoFar(s, s.info.Keys) && TriedIds(s.info) - s.info.Keys == {}
    ensures RefCounts(s.info) - s.info.Keys == map[]
  {
  }

  lemma ListsNext(info: map<int, Info>, rest: set<int>, id: int)
    requires id in rest && id in info
    ensures info[id].inTried ==>
              && TriedIds(info) - (rest - {id}) == TriedIds(info) - rest + {id}
              && RefCounts(info) - (rest - {id}) == RefCounts(info) - rest
    ensures !info[id].inTried ==>
              && TriedIds(info) - (rest - {id}) == TriedIds(info) - rest
              && RefCounts(info) - (rest - {id}) == (RefCounts(info) - rest)[id := info[id].refCount]
  {
  }

  lemma ListsEnd(info: map<int, Info>)
    ensures TriedIds(info) - {} == TriedIds(info) && RefCounts(info) - {} == RefCounts(info)
  {
  }

  lemma AddressedAt(s: State, id: int)
    ensures Addressed(s) && id in s.info ==> s.info[id].addr.service.ip in s.addr
  {
  }

  method CheckEntries(m: AddrManager) returns (code: int, tried: set<int>, left: map<int, int>)
    modifies m`addr
    ensures code == 0 <==> EntriesPass(m.Value())
    ensures code == 0 ==> tried == TriedIds(m.info) && left == RefCounts(m.info)
    ensures old(Addressed(m.Value())) ==> m.addr == old(m.addr)
  {
    hide Occupied, EntryPasses, EntriesPass, PassSoFar, TriedIds, RefCounts, Addressed;
    PassedAll(m.Value());
    tried, left := {}, map[];
    var rest := m.info.Keys;
    while rest != {}
      invariant rest <= m.info.Keys
      invariant PassSoFar(m.Value(), rest)
      invariant tried == TriedIds(m.info) - rest && left == RefCounts(m.info) - rest
      invariant old(Addressed(m.Value())) ==> m.addr == old(m.addr)
      decreases |rest|
    {
      var id := First(rest);
      ghost var s := m.Value();
      code := CheckEntry(m, id);
      AddressedAt(s, id);
      if code != 0 {
        PassedEach(m.Value());
        return;
      }
      PassedNext(s, m.Value(), rest, id);
      ListsNext(m.info, rest, id);
      if m.info[id].inTried {
        tried := tried + {id};
      } else {
        left := left[id := m.info[id].refCount];
      }
      rest := rest - {id};
    }
    code := 0;
    PassedEach(m.Value());
    ListsEnd(m.info);
  }

  lemma PassedEach(s: State)
    ensures PassSoFar(s, {}) ==> EntriesPass(s)
    ensures forall id :: id in s.info && !EntryPasses(s, id) ==> !EntriesPass(s)
  {
  }

  // ---------------------------------------------------------------- the tables

  ghost predicate TriedSoFar(h: Hasher, s: State, left: set<int>, b: nat, p: nat) {
    && (forall k :: k in s.triedTab && Before(k, b, p) ==> TriedSlotPasses(h, s, k) && s.triedTab[k] !in left)
    && left <= TriedIds(s.info)
    && forall id :: id in TriedIds(s.info) && id !in left ==>
         exists k :: k in SlotsOf(s.triedTab, id) && Before(k, b, p)
  }

  method CheckTriedSlot(m: AddrManager, before: set<int>, b: nat, p: nat) returns (code: int, left: set<int>)
    requires m.Shaped() && b < TRIED_BUCKET_COUNT && p < BUCKET_SIZE
    requires TriedSoFar(m.h, m.Value(), before, b, p)
    ensures code == 0 ==> TriedSoFar(m.h, m.Value(), left, b, p + 1)
    ensures code != 0 ==> !TriedPasses(m.h, m.Value())
  {
    hide Occupied;
    ghost var s, k := m.Value(), Slot(b, p);
    left := before;
    var id := Look(m.triedTab, Slot(b, p));
    assert forall j :: Before(j, b, p + 1) <==> Before(j, b, p) || j == k;
    if id == -1 {
      assert k !in s.triedTab;
      return 0, left;
    }
    assert k in s.triedTab && s.triedTab[k] == id;
    if id !in left {
      TakenTwice(m.h, s, before, b, p);
      return -11, left;
    }
    if m.h.tried(m.key, m.info[id].addr.service) % TRIED_BUCKET_COUNT != b {
      return -17, left;
    }
    if m.h.position(m.key, false, b, m.info[id].addr.service) % BUCKET_SIZE != p {
      return -18, left;
    }
    left := left - {id};
    assert k in SlotsOf(s.triedTab, id);
    return 0, left;
  }

  /** A holder that is no longer expected is not tried, or is in two slots. */
  lemma TakenTwice(h: Hasher, s: State, left: set<int>, b: nat, p: nat)
    requires TriedSoFar(h, s, left, b, p) && Slot(b, p) in s.triedTab && s.triedTab[Slot(b, p)] !in left
    ensures !TriedPasses(h, s)
  {
  }

  ghost predicate InRange(t: Table, buckets: nat) {
    forall k :: k in t ==> k.bucket < buckets && k.pos < BUCKET_SIZE
  }

  lemma ShapedInRange(m: AddrManager)
    requires m.Shaped()
    ensures InRange(m.Value().triedTab, TRIED_BUCKET_COUNT) && InRange(m.Value().newTab, NEW_BUCKET_COUNT)
  {
  }

  lemma NextBucket(h: Hasher, s: State, left: set<int>, b: nat)
    requires TriedSoFar(h, s, left, b, BUCKET_SIZE) && InRange(s.triedTab, TRIED_BUCKET_COUNT)
    ensures TriedSoFar(h, s, left, b + 1, 0)
  {
    hide TriedSlotPasses;
    assert forall k :: k in s.triedTab ==> (Before(k, b, BUCKET_SIZE) <==> Before(k, b + 1, 0));
  }

  lemma TriedEnds(h: Hasher, s: State, left: set<int>)
    requires TriedSoFar(h, s, left, TRIED_BUCKET_COUNT, 0) && InRange(s.triedTab, TRIED_BUCKET_COUNT)
    ensures TriedPasses(h, s) <==> left == {}
  {
    hide TriedSlotPasses;
    assert forall k :: k in s.triedTab ==> Before(k, TRIED_BUCKET_COUNT, 0);
    if left != {} {
      var id := Member(left);
      assert id in TriedIds(s.info) && SlotsOf(s.triedTab, id) == {};
    }
  }

  method CheckTried(m: AddrManager, tried: set<int>) returns (code: int, left: set<int>)
    requires m.Shaped() && tried == TriedIds(m.info)
    ensures code == 0 && left == {} <==> TriedPasses(m.h, m.Value())
  {
    hide Occupied, TriedSoFar, TriedPasses, InRange;
    left := tried;
    TriedStarts(m.h, m.Value());
    ShapedInRange(m);
    for b := 0 to TRIED_BUCKET_COUNT
      invariant TriedSoFar(m.h, m.Value(), left, b, 0)
    {
      for p := 0 to BUCKET_SIZE
        invariant TriedSoFar(m.h, m.Value(), left, b, p)
      {
        code, left := CheckTriedSlot(m, left, b, p);
        if code != 0 {
          return;
        }
      }
      NextBucket(m.h, m.Value(), left, b);
    }
    code := 0;
    TriedEnds(m.h, m.Value(), left);
  }

  lemma TriedStarts(h: Hasher, s: State)
    ensures TriedSoFar(h, s, TriedIds(s.info), 0, 0)
  {
  }

  ghost predicate LeftOf(s: State, left: map<int, int>, id: int, b: nat, p: nat)
    requires id in s.info
  {
    var n := |SlotsBefore(s.newTab, id, b, p)|;
    && n <= s.info[id].refCount
    && (id in left <==> n < s.info[id].refCount)
    && (id in left ==> left[id] == s.info[id].refCount - n)
  }

  ghost predicate NewSoFar(h: Hasher, s: State, left: map<int, int>, b: nat, p: nat) {
    && (forall k :: k in s.newTab && Before(k, b, p) ==> NewSlotPasses(h, s, k))
    && left.Keys <= NewIds(s.info, {})
    && forall id :: id in NewIds(s.info, {}) ==> LeftOf(s, left, id, b, p)
  }

  /** What remains after one more slot, by its holder. */
  function Counted(left: map<int, int>, id: int): map<int, int>
    requires id in left
  {
    if left[id] == 1 then left - {id} else left[id := left[id] - 1]
  }

  lemma BeforeNext(b: nat, p: nat)
    ensures forall k :: Before(k, b, p + 1) <==> Before(k, b, p) || k == Slot(b, p)
  {
  }

  lemma LeftNext(s: State, left: map<int, int>, id: int, b: nat, p: nat)
    requires id in s.info && LeftOf(s, left, id, b, p)
    ensures Slot(b, p) !in s.newTab || s.newTab[Slot(b, p)] != id ==> LeftOf(s, left, id, b, p + 1)
    ensures Slot(b, p) in s.newTab && s.newTab[Slot(b, p)] == id && id in left ==>
              LeftOf(s, Counted(left, id), id, b, p + 1)
    ensures Slot(b, p) in s.newTab && s.newTab[Slot(b, p)] == id && id !in left ==>
              s.info[id].refCount < |SlotsOf(s.newTab, id)|
  {
    var seen, next := SlotsBefore(s.newTab, id, b, p), SlotsBefore(s.newTab, id, b, p + 1);
    SlotsBeforeNext(s.newTab, id, b, p);
    hide SlotsBefore;
    if Slot(b, p) in s.newTab && s.newTab[Slot(b, p)] == id {
      assert next == seen + {Slot(b, p)};
      SeenAreSlots(s.newTab, id, b, p + 1);
    } else {
      assert next == seen;
    }
  }

  lemma SeenAreSlots(t: Table, id: int, b: nat, p: nat)
    ensures |SlotsBefore(t, id, b, p)| <= |SlotsOf(t, id)|
  {
    var rest := SlotsOf(t, id) - SlotsBefore(t, id, b, p);
    assert SlotsOf(t, id) == SlotsBefore(t, id, b, p) + rest;
  }

  lemma LeftOthers(s: State, left: map<int, int>, x: int, id: int, b: nat, p: nat)
    requires id in s.info && x in left && x != id && LeftOf(s, left, id, b, p)
    ensures LeftOf(s, Counted(left, x), id, b, p)
  {
  }

  /** A slot that is free, or whose holder is expected and in place. */
  lemma NewNext(h: Hasher, s: State, left: map<int, int>, b: nat, p: nat)
    requires NewSoFar(h, s, left, b, p)
    ensures Slot(b, p) !in s.newTab ==> NewSoFar(h, s, left, b, p + 1)
    ensures Slot(b, p) in s.newTab && s.newTab[Slot(b, p)] in left && NewSlotPasses(h, s, Slot(b, p)) ==>
              NewSoFar(h, s, Counted(left, s.newTab[Slot(b, p)]), b, p + 1)
  {
    hide LeftOf, NewSlotPasses, Before;
    BeforeNext(b, p);
    var k := Slot(b, p);
    if k !in s.newTab {
      forall id | id in NewIds(s.info, {}) ensures LeftOf(s, left, id, b, p + 1) {
        LeftNext(s, left, id, b, p);
      }
    } else if s.newTab[k] in left && NewSlotPasses(h, s, k) {
      var x := s.newTab[k];
      forall id | id in NewIds(s.info, {}) ensures LeftOf(s, Counted(left, x), id, b, p + 1) {
        LeftNext(s, left, id, b, p);
        if id != x {
          LeftOthers(s, left, x, id, b, p + 1);
        }
      }
    }
  }

  /** A holder that is no longer expected is not new, or is in more slots than it is referred to. */
  lemma TakenTooOften(h: Hasher, s: State, left: map<int, int>, b: nat, p: nat)
    requires NewSoFar(h, s, left, b, p) && Slot(b, p) in s.newTab && s.newTab[Slot(b, p)] !in left
    ensures !NewPasses(h, s)
  {
    hide LeftOf, Before, SlotsOf;
    var id := s.newTab[Slot(b, p)];
    if id in NewIds(s.info, {}) {
      LeftNext(s, left, id, b, p);
    } else {
      assert !NewSlotPasses(h, s, Slot(b, p));
    }
  }

  method CheckNewSlot(m: AddrManager, before: map<int, int>, b: nat, p: nat) returns (code: int, left: map<int, int>)
    requires m.Shaped() && b < NEW_BUCKET_COUNT && p < BUCKET_SIZE
    requires NewSoFar(m.h, m.Value(), before, b, p)
    ensures code == 0 ==> NewSoFar(m.h, m.Value(), left, b, p + 1)
    ensures code != 0 ==> !NewPasses(m.h, m.Value())
  {
    hide Occupied, NewSoFar;
    ghost var s, k := m.Value(), Slot(b, p);
    left := before;
    NewNext(m.h, s, left, b, p);
    LeftAreNew(m.h, s, left, b, p);
    var id := Look(m.newTab, Slot(b, p));
    if id == -1 {
      return 0, left;
    }
    assert k in s.newTab && s.newTab[k] == id;
    if id !in left {
      TakenTooOften(m.h, s, left, b, p);
      return -12, left;
    }
    if m.h.position(m.key, true, b, m.info[id].addr.service) % BUCKET_SIZE != p {
      assert !NewSlotPasses(m.h, s, k);
      return -19, left;
    }
    assert NewSlotPasses(m.h, s, k);
    left := left[id := left[id] - 1];
    if left[id] == 0 {
      left := left - {id};
    }
    assert left == Counted(before, id);
    return 0, left;
  }

  lemma LeftAreNew(h: Hasher, s: State, left: map<int, int>, b: nat, p: nat)
    requires NewSoFar(h, s, left, b, p)
    ensures forall id :: id in left ==> id in s.info && !s.info[id].inTried
  {
  }

  lemma NewStarts(h: Hasher, s: State)
    requires EntriesPass(s)
    ensures NewSoFar(h, s, RefCounts(s.info), 0, 0)
  {
    forall id | id in NewIds(s.info, {}) ensures LeftOf(s, RefCounts(s.info), id, 0, 0) {
      assert SlotsBefore(s.newTab, id, 0, 0) == {};
      assert EntryPasses(s, id);
    }
  }

  lemma NextNewBucket(h: Hasher, s: State, left: map<int, int>, b: nat)
    requires NewSoFar(h, s, left, b, BUCKET_SIZE) && InRange(s.newTab, NEW_BUCKET_COUNT)
    ensures NewSoFar(h, s, left, b + 1, 0)
  {
    hide NewSlotPasses;
    assert forall k :: k in s.newTab ==> (Before(k, b, BUCKET_SIZE) <==> Before(k, b + 1, 0));
    forall id | id in NewIds(s.info, {}) ensures LeftOf(s, left, id, b + 1, 0) {
      assert SlotsBefore(s.newTab, id, b, BUCKET_SIZE) == SlotsBefore(s.newTab, id, b + 1, 0);
    }
  }

  lemma NewEnds(h: Hasher, s: State, left: map<int, int>)
    requires NewSoFar(h, s, left, NEW_BUCKET_COUNT, 0) && InRange(s.newTab, NEW_BUCKET_COUNT)
    ensures NewPasses(h, s) <==> left == map[]
  {
    hide NewSlotPasses;
    assert forall k :: k in s.newTab ==> Before(k, NEW_BUCKET_COUNT, 0);
    forall id | id in NewIds(s.info, {}) ensures s.info[id].refCount == |SlotsOf(s.newTab, id)| <==> id !in left {
      assert SlotsBefore(s.newTab, id, NEW_BUCKET_COUNT, 0) == SlotsOf(s.newTab, id);
      assert LeftOf(s, left, id, NEW_BUCKET_COUNT, 0);
    }
    if left != map[] {
      assert left.Keys != {};
      var id := Member(left.Keys);
      assert id in NewIds(s.info, {});
    }
  }

  method CheckNew(m: AddrManager, counts: map<int, int>) returns (code: int, left: map<int, int>)
    requires m.Shaped() && EntriesPass(m.Value()) && counts == RefCounts(m.info)
    ensures code == 0 && left == map[] <==> NewPasses(m.h, m.Value())
  {
    hide Occupied, NewSoFar, NewPasses, InRange, EntriesPass;
    left := counts;
    NewStarts(m.h, m.Value());
    ShapedInRange(m);
    for b := 0 to NEW_BUCKET_COUNT
      invariant NewSoFar(m.h, m.Value(), left, b, 0)
    {
      for p := 0 to BUCKET_SIZE
        invariant NewSoFar(m.h, m.Value(), left, b, p)
      {
        code, left := CheckNewSlot(m, left, b, p);
        if code != 0 {
          return;
        }
      }
      NextNewBucket(m.h, m.Value(), left, b);
    }
    code := 0;
    NewEnds(m.h, m.Value(), left);
  }

  lemma SameCount(info: map<int, Info>)
    ensures |RefCounts(info)| == |NewIds(info, {})|
  {
    assert RefCounts(info).Keys == NewIds(info, {});
  }

  /**
   `Check_` on any manager. Where the invariant holds it changes nothing, and returns 0 exactly if
   the times and the key are in order.
   */
  method Check(m: AddrManager) returns (code: int)
    requires m.Shaped()
    modifies m`addr
    ensures code == 0 <==> Passes(m.h, m.Value())
    ensures old(Addressed(m.Value())) ==> m.Value() == old(m.Value())
    ensures old(Inv(m.h, m.Value())) ==> (code == 0 <==> TimesOk(m.info) && m.key != 0)
  {
    hide Occupied, EntriesPass, TriedPasses, NewPasses, TriedIds, NewIds, RefCounts, Addressed, InvBut, TimesOk;
    if Inv(m.h, m.Value()) {
      InvNoStrays(m.h, m.Value());
      PassesExactly(m.h, m.Value());
    }
    SameCount(m.info);
    if |m.random| != m.nTried + m.nNew {
      return -7;
    }
    var tried, left;
    code, tried, left := CheckEntries(m);
    if code != 0 {
      return;
    }
    if |tried| != m.nTried {
      return -9;
    }
    if |left| != m.nNew {
      return -10;
    }
    code, tried := CheckTried(m, tried);
    if code != 0 {
      return;
    }
    code, left := CheckNew(m, left);
    if code != 0 {
      return;
    }
    if tried != {} {
      return -13;
    }
    if left != map[] {
      return -15;
    }
    if m.key == 0 {
      return -16;
    }
    return 0;
  }

  /** Every run from an empty manager with a key, whatever the hashes, draws and (timely) clock readings, passes. */
  lemma {:induction false} EveryRunPasses(h: Hasher, key: Key, ops: seq<Runs.Op>)
    requires key != 0 && forall op :: op in ops ==> Runs.Timely(op)
    ensures Inv(h, Empty(key)) && Passes(h, Runs.Run(h, Empty(key), ops))
  {
    hide InvBut, TimesOk, Passes;
    Runs.EveryRunChecks(h, key, ops);
    var r := Runs.Run(h, Empty(key), ops);
    Runs.RunKeepsKey(h, Empty(key), ops);
    InvNoStrays(h, r);
    PassesExactly(h, r);
  }
}
