/**
 Loading a file that was written for another format or another number of new buckets: its bucket table is of no use,
 so every new entry gets the slot of its own source, first come, first served.
 */
module AddrManForeign {
  import opened Options
  import opened AddrManSpec
  import opened AddrManOps
  import opened AddrManDisk
  import opened AddrManMeaning
  import Loaded = AddrManLoad

  /** The header of a stream: counts that are not negative, and another format version or bucket count than ours. */
  predicate ForeignHeader(toks: seq<Token>) {
    && |toks| >= 6 && toks[0].ByteTok? && toks[1].ByteTok? && toks[2].KeyTok? && toks[3].IntTok? && toks[4].IntTok?
    && toks[5].IntTok? && toks[3].i >= 0 && toks[4].i >= 0
    && (toks[0].b != 1 || toks[5].i != 1073742848)
  }

  function NewSlots(h: Hasher, key: Key, es: seq<Record>): (r: seq<Slot>)
    ensures |r| == |es|
  {
    seq(|es|, j requires 0 <= j < |es| => SlotFor(h, key, es[j].addr.service, es[j].source))
  }

  function TriedSlots(h: Hasher, key: Key, es: seq<Record>): (r: seq<Slot>)
    ensures |r| == |es|
  {
    seq(|es|, j requires 0 <= j < |es| => TriedSlotFor(h, key, es[j].addr.service))
  }

  /** Of the slots equal to the `j`th, the `i`th is the first. */
  predicate IsFirst(slots: seq<Slot>, i: int, j: nat)
    requires j < |slots|
  {
    0 <= i <= j && slots[i] == slots[j] && forall l :: 0 <= l < i ==> slots[l] != slots[j]
  }

  /** The token is this entry. */
  predicate Holds(toks: seq<Token>, at: nat, es: seq<Record>) {
    at + |es| <= |toks| && forall j :: 0 <= j < |es| ==> toks[at + j] == EntryTok(es[j])
  }

  /** What is on record of an entry just read. */
  predicate IsRecord(i: Info, e: Record) {
    i.addr == e.addr && i.source == e.source && i.lastSuccess == e.lastSuccess && i.attempts == e.attempts
    && i.lastTry == 0
  }

  // ---------------------------------------------------------------- new entries

  /** Each slot has gone to the first entry that asked for it. */
  ghost predicate Given(info: map<int, Info>, newTab: Table, slots: seq<Slot>, es: seq<Record>) {
    && |slots| == |es|
    && (forall j :: 0 <= j < |es| ==> HasSlot(newTab, slots, j) && IsRead(info, newTab, slots, es, j))
    && (forall k :: k in newTab ==> 0 <= newTab[k] < |es| && slots[newTab[k]] == k)
  }

  predicate HasSlot(newTab: Table, slots: seq<Slot>, j: nat)
    requires j < |slots|
  {
    slots[j] in newTab && IsFirst(slots, newTab[slots[j]], j)
  }

  predicate IsRead(info: map<int, Info>, newTab: Table, slots: seq<Slot>, es: seq<Record>, j: nat)
    requires j < |slots| == |es| && slots[j] in newTab
  {
    && j in info && IsRecord(info[j], es[j]) && !info[j].inTried
    && info[j].refCount == if newTab[slots[j]] == j then 1 else 0
  }

  lemma FirstStays(slots: seq<Slot>, k: Slot, i: int, j: nat)
    requires j < |slots|
    ensures IsFirst(slots + [k], i, j) <==> IsFirst(slots, i, j)
  {
    assert forall l :: 0 <= l < |slots| ==> slots[l] == (slots + [k])[l];
  }

  /** Among one more slot, it is the first, or the first of its kind is among those before. */
  lemma FirstOfLast(newTab: Table, slots: seq<Slot>, k: Slot)
    requires forall j :: 0 <= j < |slots| ==> HasSlot(newTab, slots, j)
    requires forall l :: l in newTab ==> 0 <= newTab[l] < |slots| && slots[newTab[l]] == l
    ensures IsFirst(slots + [k], if k in newTab then newTab[k] else |slots|, |slots|)
  {
    if k in newTab {
      assert HasSlot(newTab, slots, newTab[k]);
    } else {
      forall j | 0 <= j < |slots| ensures slots[j] != k {
        assert HasSlot(newTab, slots, j);
      }
    }
  }

  lemma {:induction false} OneMoreGiven(info: map<int, Info>, newTab: Table, slots: seq<Slot>, es: seq<Record>, k: Slot,
      e: Record, i: Info)
    requires Given(info, newTab, slots, es) && IsRecord(i, e) && !i.inTried
    requires i.refCount == if k in newTab then 0 else 1
    ensures Given(info[|es| := i], if k in newTab then newTab else newTab[k := |es|], slots + [k], es + [e])
  {
    hide IsFirst, IsRecord;
    var n := |es|;
    var info', r := info[n := i], if k in newTab then newTab else newTab[k := n];
    FirstOfLast(newTab, slots, k);
    var slots', es' := slots + [k], es + [e];
    forall j | 0 <= j < |es'| ensures HasSlot(r, slots', j) && IsRead(info', r, slots', es', j) {
      if j < n {
        assert HasSlot(newTab, slots, j) && IsRead(info, newTab, slots, es, j);
        FirstStays(slots, k, newTab[slots[j]], j);
      }
    }
    forall l | l in r ensures 0 <= r[l] < |es'| && slots'[r[l]] == l {
      assert l != k ==> l in newTab && slots[newTab[l]] == l;
    }
    hide HasSlot, IsRead;
    assert Given(info', r, slots', es');
  }

  /** The new entries `es` are read. */
  ghost predicate NewRead(h: Hasher, s: State, es: seq<Record>) {
    Given(s.info, s.newTab, NewSlots(h, s.key, es), es)
  }

  lemma {:induction false} OneMoreNew(h: Hasher, s: State, es: seq<Record>, e: Record)
    requires NewRead(h, s, es)
    ensures NewRead(h, Reference(h, Enter(s, |es|, ReadBack(e)), |es|), es + [e])
  {
    hide Given, SlotFor;
    var n := |es|;
    var t := Enter(s, n, ReadBack(e));
    SlotForIs(h, s.key, t.info[n], e.source);
    var r := Reference(h, t, n);
    var k := SlotFor(h, s.key, e.addr.service, e.source);
    assert NewSlots(h, s.key, es + [e]) == NewSlots(h, s.key, es) + [k];
    OneMoreGiven(s.info, s.newTab, NewSlots(h, s.key, es), es, k, e, r.info[n]);
    assert r.info == s.info[n := r.info[n]];
  }

  lemma {:induction false} NewEntriesRead(h: Hasher, s: State, es: seq<Record>, toks: seq<Token>)
    returns (more: seq<Record>)
    requires NewRead(h, s, es) && |es| <= s.nNew && LoadNew(h, s, |es|, toks, false).Some?
    ensures |es + more| == s.nNew && Holds(toks, 0, more)
    ensures var (r, rest) := LoadNew(h, s, |es|, toks, false).value;
      && NewRead(h, r, es + more) && rest == toks[|more|..]
      && r.nNew == s.nNew && r.nTried == s.nTried && r.key == s.key && r.triedTab == s.triedTab
      && (forall id :: id in r.info ==> id in s.info || id < s.nNew)
    decreases s.nNew - |es|
  {
    hide NewRead, Reference, ReadBack, Enter;
    if |es| == s.nNew {
      more := [];
      assert es + [] == es;
    } else {
      var e := toks[0].e;
      OneMoreNew(h, s, es, e);
      ReferenceStays(h, s, |es|, ReadBack(e));
      var t := Reference(h, Enter(s, |es|, ReadBack(e)), |es|);
      var rest := NewEntriesRead(h, t, es + [e], toks[1..]);
      more := [e] + rest;
      assert es + [e] + rest == es + more;
      assert toks[1..][|rest|..] == toks[|more|..];
      assert forall j :: 0 < j < |more| ==> toks[j] == toks[1..][j - 1];
    }
  }

  lemma ReferenceStays(h: Hasher, s: State, n: int, i: Info)
    ensures n in Enter(s, n, i).info
    ensures var r := Reference(h, Enter(s, n, i), n);
      && r.nNew == s.nNew && r.nTried == s.nTried && r.key == s.key && r.triedTab == s.triedTab
      && r.info.Keys == s.info.Keys + {n}
  {
  }

  // ---------------------------------------------------------------- tried entries

  /** The tried entries `es` are read: each tried slot has gone to the first of them, with an id from `n` on. */
  ghost predicate TriedRead(h: Hasher, s: State, n: nat, es: seq<Record>) {
    var slots := TriedSlots(h, s.key, es);
    && s.idCount >= n && (forall id :: id in s.info ==> id < s.idCount)
    && (forall k :: k in s.triedTab ==> s.triedTab[k] in s.info)
    && forall j :: 0 <= j < |es| ==> HoldsTried(s, n, slots, es, j)
  }

  ghost predicate HoldsTried(s: State, n: nat, slots: seq<Slot>, es: seq<Record>, j: nat)
    requires j < |slots| == |es|
  {
    && slots[j] in s.triedTab && s.triedTab[slots[j]] in s.info
    && exists i {:trigger IsFirst(slots, i, j)} ::
         IsFirst(slots, i, j) && IsTried(s.info, n, s.triedTab[slots[j]], es[i])
  }

  predicate IsTried(info: map<int, Info>, n: nat, id: int, e: Record)
    requires id in info
  {
    id >= n && IsRecord(info[id], e) && info[id].inTried && info[id].refCount == 0
  }

  /** An entry whose slot is taken is dropped. */
  lemma {:induction false} OneMoreLost(h: Hasher, s: State, n: nat, es: seq<Record>, e: Record)
    requires TriedRead(h, s, n, es) && TriedSlotFor(h, s.key, e.addr.service) in s.triedTab
    requires forall k :: k in s.triedTab ==> k in TriedSlots(h, s.key, es)
    ensures TriedRead(h, s, n, es + [e])
    ensures forall k :: k in s.triedTab ==> k in TriedSlots(h, s.key, es + [e])
  {
    hide IsFirst, IsTried, TriedSlotFor;
    var k, m := TriedSlotFor(h, s.key, e.addr.service), |es|;
    var slots := TriedSlots(h, s.key, es);
    assert TriedSlots(h, s.key, es + [e]) == slots + [k];
    forall j | 0 <= j < m ensures HoldsTried(s, n, slots + [k], es + [e], j) {
      StillHolds(s, s, n, slots, k, es, e, j);
    }
    var j :| 0 <= j < m && slots[j] == k;
    SameHolds(s, n, slots, k, es, e, j);
  }

  lemma SameHolds(s: State, n: nat, slots: seq<Slot>, k: Slot, es: seq<Record>, e: Record, j: nat)
    requires |slots| == |es| && j < |es| && slots[j] == k && HoldsTried(s, n, slots, es, j)
    ensures HoldsTried(s, n, slots + [k], es + [e], |es|)
  {
    hide IsTried;
    var i :| IsFirst(slots, i, j) && IsTried(s.info, n, s.triedTab[slots[j]], es[i]);
    assert IsFirst(slots + [k], i, |es|);
  }

  lemma {:induction false} StillHolds(s: State, t: State, n: nat, slots: seq<Slot>, k: Slot, es: seq<Record>, e: Record,
      j: nat)
    requires |slots| == |es| && j < |es| && HoldsTried(s, n, slots, es, j)
    requires slots[j] in t.triedTab && t.triedTab[slots[j]] == s.triedTab[slots[j]]
    requires t.triedTab[slots[j]] in t.info && t.info[t.triedTab[slots[j]]] == s.info[t.triedTab[slots[j]]]
    ensures HoldsTried(t, n, slots + [k], es + [e], j)
  {
    hide IsTried;
    var i :| IsFirst(slots, i, j) && IsTried(s.info, n, s.triedTab[slots[j]], es[i]);
    FirstStays(slots, k, i, j);
    TriedStays(s.info, t.info, n, t.triedTab[slots[j]], es[i]);
  }

  lemma TriedStays(info: map<int, Info>, later: map<int, Info>, n: nat, id: int, e: Record)
    requires id in info && id in later && later[id] == info[id] && IsTried(info, n, id, e)
    ensures IsTried(later, n, id, e)
  {
  }

  /** An entry whose slot is free gets it, and the next id. */
  lemma {:induction false} OneMoreTried(h: Hasher, s: State, n: nat, es: seq<Record>, e: Record)
    requires TriedRead(h, s, n, es) && TriedSlotFor(h, s.key, e.addr.service) !in s.triedTab
    requires forall k :: k in s.triedTab ==> k in TriedSlots(h, s.key, es)
    ensures var r := EnterTried(s, ReadBack(e), TriedSlotFor(h, s.key, e.addr.service));
      TriedRead(h, r, n, es + [e]) && forall k :: k in r.triedTab ==> k in TriedSlots(h, s.key, es + [e])
  {
    hide TriedSlotFor;
    var k, m := TriedSlotFor(h, s.key, e.addr.service), |es|;
    var r := EnterTried(s, ReadBack(e), k);
    var slots := TriedSlots(h, s.key, es);
    assert TriedSlots(h, s.key, es + [e]) == slots + [k];
    hide IsFirst, IsTried, EnterTried;
    EnterStays(s, ReadBack(e), k);
    forall j | 0 <= j < m ensures slots[j] != k {
      assert HoldsTried(s, n, slots, es, j);
    }
    EnteredHolds(s, n, slots, k, es, e);
    forall j | 0 <= j < m ensures HoldsTried(r, n, slots + [k], es + [e], j) {
      StillHolds(s, r, n, slots, k, es, e, j);
    }
  }

  lemma EnteredHolds(s: State, n: nat, slots: seq<Slot>, k: Slot, es: seq<Record>, e: Record)
    requires |slots| == |es| && s.idCount >= n && k !in slots
    ensures HoldsTried(EnterTried(s, ReadBack(e), k), n, slots + [k], es + [e], |es|)
  {
    var r := EnterTried(s, ReadBack(e), k);
    assert IsFirst(slots + [k], |es|, |es|);
    assert IsTried(r.info, n, s.idCount, e);
  }

  /** Only slots of entries read are taken. */
  ghost predicate OnlyTheirs(h: Hasher, s: State, es: seq<Record>) {
    forall k :: k in s.triedTab ==> k in TriedSlots(h, s.key, es)
  }

  lemma {:induction false} TriedEntriesRead(h: Hasher, s: State, n: nat, lost: nat, es: seq<Record>, toks: seq<Token>)
    returns (more: seq<Record>)
    requires TriedRead(h, s, n, es) && OnlyTheirs(h, s, es) && |es| <= s.nTried
    requires LoadTried(h, s, |es|, lost, toks).Some?
    ensures |es + more| == s.nTried && Holds(toks, 0, more)
    ensures var (r, rest) := LoadTried(h, s, |es|, lost, toks).value;
      && TriedRead(h, r, n, es + more) && OnlyTheirs(h, r, es + more) && rest == toks[|more|..]
      && r.nNew == s.nNew && r.key == s.key && r.newTab == s.newTab
      && (forall id :: id in s.info && id < n ==> id in r.info && r.info[id] == s.info[id])
      && (forall id :: id in r.info && id < n ==> id in s.info)
    decreases s.nTried - |es|
  {
    hide TriedRead, OnlyTheirs, TriedSlotFor, EnterTried;
    if |es| == s.nTried {
      more := [];
      assert es + [] == es;
      RecountRead(h, s, n, es, s.nTried - lost);
    } else {
      var e := toks[0].e;
      var k := TriedSlotFor(h, s.key, e.addr.service);
      TriedSlotForIs(h, s.key, ReadBack(e));
      var rest;
      NextRead(h, s, n, es, e);
      if k in s.triedTab {
        rest := TriedEntriesRead(h, s, n, lost + 1, es + [e], toks[1..]);
      } else {
        var t := EnterTried(s, ReadBack(e), k);
        EnterStays(s, ReadBack(e), k);
        rest := TriedEntriesRead(h, t, n, lost, es + [e], toks[1..]);
      }
      more := [e] + rest;
      assert es + [e] + rest == es + more;
      assert toks[1..][|rest|..] == toks[|more|..];
      assert forall j :: 0 < j < |more| ==> toks[j] == toks[1..][j - 1];
    }
  }

  lemma EnterStays(s: State, i: Info, k: Slot)
    ensures var t := EnterTried(s, i, k);
      && t.nNew == s.nNew && t.nTried == s.nTried && t.key == s.key && t.newTab == s.newTab
      && t.info.Keys == s.info.Keys + {s.idCount} && t.idCount == s.idCount + 1
      && (forall id :: id in s.info && id != s.idCount ==> t.info[id] == s.info[id])
      && (s.idCount != -1 ==> t.triedTab == s.triedTab[k := s.idCount])
  {
  }

  lemma RecountRead(h: Hasher, s: State, n: nat, es: seq<Record>, nTried: int)
    requires TriedRead(h, s, n, es) && OnlyTheirs(h, s, es)
    ensures TriedRead(h, s.(nTried := nTried), n, es) && OnlyTheirs(h, s.(nTried := nTried), es)
  {
    var slots := TriedSlots(h, s.key, es);
    forall j | 0 <= j < |es| ensures HoldsTried(s.(nTried := nTried), n, slots, es, j) {
      assert HoldsTried(s, n, slots, es, j);
    }
  }

  lemma {:induction false} NextRead(h: Hasher, s: State, n: nat, es: seq<Record>, e: Record)
    requires TriedRead(h, s, n, es) && OnlyTheirs(h, s, es)
    ensures var k := TriedSlotFor(h, s.key, e.addr.service);
      var t := if k in s.triedTab then s else EnterTried(s, ReadBack(e), k);
      TriedRead(h, t, n, es + [e]) && OnlyTheirs(h, t, es + [e]) && s.idCount >= n && s.idCount !in s.info
  {
    hide HoldsTried, TriedSlotFor;
    if TriedSlotFor(h, s.key, e.addr.service) in s.triedTab {
      OneMoreLost(h, s, n, es, e);
    } else {
      OneMoreTried(h, s, n, es, e);
    }
  }

  // ---------------------------------------------------------------- the rest of the stream

  lemma {:induction false} BucketIgnored(h: Hasher, s: State, b: nat, left: int, toks: seq<Token>)
    ensures var r := LoadBucket(h, s, b, left, toks, false); r.Some? ==> r.value.0 == s
    decreases left
  {
    if left > 0 && toks != [] && toks[0].IntTok? {
      BucketIgnored(h, s, b, left - 1, toks[1..]);
    }
  }

  lemma {:induction false} BucketsIgnored(h: Hasher, s: State, b: nat, count: int, toks: seq<Token>)
    ensures var r := LoadBuckets(h, s, b, count, toks, false); r.Some? ==> r.value.0 == s
    decreases count - b
  {
    if b < count && toks != [] && toks[0].IntTok? {
      BucketIgnored(h, s, b, toks[0].i, toks[1..]);
      var r := LoadBucket(h, s, b, toks[0].i, toks[1..], false);
      if r.Some? {
        BucketsIgnored(h, s, b + 1, count, r.value.1);
      }
    }
  }

  lemma NewStays(h: Hasher, s: State, t: State, es: seq<Record>)
    requires NewRead(h, s, es) && t.newTab == s.newTab && t.key == s.key
    requires forall id :: id in s.info && id < |es| ==> id in t.info && t.info[id] == s.info[id]
    ensures NewRead(h, t, es)
  {
    hide IsFirst, IsRecord;
    var slots := NewSlots(h, s.key, es);
    forall j | 0 <= j < |es| ensures HasSlot(t.newTab, slots, j) && IsRead(t.info, t.newTab, slots, es, j) {
      assert HasSlot(s.newTab, slots, j) && IsRead(s.info, s.newTab, slots, es, j);
    }
  }

  /** Where the `j`th new entry of the stream is afterwards: it is kept if it was the first to ask for its slot. */
  ghost predicate NewKept(r: State, slots: seq<Slot>, es: seq<Record>, j: nat)
    requires j < |slots| == |es|
  {
    && slots[j] in r.newTab && IsFirst(slots, r.newTab[slots[j]], j)
    && (j in r.info <==> r.newTab[slots[j]] == j)
    && (j in r.info ==> IsRecord(r.info[j], es[j]) && !r.info[j].inTried && r.info[j].refCount == 1)
  }

  lemma {:induction false} PruneKeeps(h: Hasher, s: State, es: seq<Record>, j: nat)
    requires NewRead(h, s, es) && RandomOk(s.info, s.random) && j < |es|
    ensures NewKept(Prune(s, 0, |es|), NewSlots(h, s.key, es), es, j)
  {
    hide RandomOk, Prune, IsFirst, Loaded.AddrsOf;
    var slots := NewSlots(h, s.key, es);
    assert HasSlot(s.newTab, slots, j) && IsRead(s.info, s.newTab, slots, es, j);
    Loaded.PruneMeaning(s, 0, |es|);
    var r := Prune(s, 0, |es|);
    assert j in r.info ==> EqualButPos(r.info[j], s.info[j]);
  }

  lemma {:induction false} PruneHolds(h: Hasher, s: State, n: nat, slots: seq<Slot>, es: seq<Record>, j: nat)
    requires RandomOk(s.info, s.random) && |slots| == |es| && j < |es| && HoldsTried(s, n, slots, es, j)
    ensures HoldsTried(Prune(s, 0, n), n, slots, es, j)
  {
    hide RandomOk, Prune, IsFirst, Loaded.AddrsOf;
    var id := s.triedTab[slots[j]];
    Loaded.PruneMeaning(s, 0, n);
    var r := Prune(s, 0, n);
    assert id in r.info ==> EqualButPos(r.info[id], s.info[id]);
  }

  /** Both kinds of entries, as a manager without entries reads them. */
  lemma {:induction false} EntriesRead(h: Hasher, s: State, toks: seq<Token>)
    returns (untried: seq<Record>, tried: seq<Record>)
    requires s == Empty(s.key).(nNew := s.nNew, nTried := s.nTried) && s.nNew >= 0 && s.nTried >= 0
    requires LoadEntries(h, s, false, toks).Some?
    ensures |untried| == s.nNew && |tried| == s.nTried && Holds(toks, 0, untried) && Holds(toks, |untried|, tried)
    ensures var u := LoadEntries(h, s, false, toks).value.0;
      && u.key == s.key && RandomOk(u.info, u.random)
      && NewRead(h, u, untried) && TriedRead(h, u, |untried|, tried) && OnlyTheirs(h, u, tried)
  {
    hide NewRead, TriedRead, OnlyTheirs, LoadNew, LoadTried, RandomOk;
    LoadEntriesGrows(h, s, false, toks);
    NoneRead(h, s);
    untried := NewEntriesRead(h, s, [], toks);
    assert [] + untried == untried;
    var (t, rest) := LoadNew(h, s, 0, toks, false).value;
    var t' := t.(idCount := s.nNew);
    NoneTried(h, t', |untried|);
    tried := TriedEntriesRead(h, t', |untried|, 0, [], rest);
    assert [] + tried == tried;
    assert Holds(toks, |untried|, tried) by {
      assert forall j :: 0 <= j < |tried| ==> toks[|untried| + j] == rest[j];
    }
    NewStays(h, t, LoadEntries(h, s, false, toks).value.0, untried);
  }

  lemma NoneRead(h: Hasher, s: State)
    requires s.newTab == map[]
    ensures NewRead(h, s, [])
  {
  }

  lemma NoneTried(h: Hasher, s: State, n: nat)
    requires s.triedTab == map[] && s.idCount == n && forall id :: id in s.info ==> id < n
    ensures TriedRead(h, s, n, []) && OnlyTheirs(h, s, [])
  {
  }

  lemma {:induction false} HeaderRead(h: Hasher, toks: seq<Token>)
    requires ForeignHeader(toks) && Load(h, toks).Some?
    ensures toks[3].i <= 65536 && toks[4].i <= 16384 && toks[1] == ByteTok(32)
    ensures var s := Empty(toks[2].k).(nNew := toks[3].i, nTried := toks[4].i);
      exists count {:trigger LoadTables(h, s, count, false, toks[6..])} ::
        Load(h, toks) == LoadTables(h, s, count, false, toks[6..])
  {
    hide LoadTables;
  }

  /**
   A file of another version or bucket count loads into a manager where each new slot belongs to the first new entry
   that asks for it, as its only one, and each tried slot to the first tried entry that asks for it; no other entry
   is kept, and the stored bucket table does not matter.
   */
  lemma {:induction false} ForeignLoads(h: Hasher, toks: seq<Token>) returns (untried: seq<Record>, tried: seq<Record>)
    requires ForeignHeader(toks) && Load(h, toks).Some?
    ensures toks[3].i <= 65536 && toks[4].i <= 16384 && toks[1] == ByteTok(32)
    ensures |untried| == toks[3].i && |tried| == toks[4].i
    ensures Holds(toks, 6, untried) && Holds(toks, 6 + |untried|, tried)
    ensures var r := Load(h, toks).value;
      && r.key == toks[2].k
      && (forall j :: 0 <= j < |untried| ==> NewKept(r, NewSlots(h, r.key, untried), untried, j))
      && (forall k :: k in r.newTab ==> k in NewSlots(h, r.key, untried))
      && (forall j :: 0 <= j < |tried| ==> HoldsTried(r, |untried|, TriedSlots(h, r.key, tried), tried, j))
      && (forall k :: k in r.triedTab ==> k in TriedSlots(h, r.key, tried))
  {
    hide NewKept, HoldsTried, Load, LoadEntries, LoadBuckets, Prune, RandomOk, Holds;
    HeaderRead(h, toks);
    var s := Empty(toks[2].k).(nNew := toks[3].i, nTried := toks[4].i);
    var count :| Load(h, toks) == LoadTables(h, s, count, false, toks[6..]);
    untried, tried := EntriesRead(h, s, toks[6..]);
    HoldsLater(toks, 6, 0, untried);
    HoldsLater(toks, 6, |untried|, tried);
    var (u, rest) := LoadEntries(h, s, false, toks[6..]).value;
    BucketsIgnored(h, u, 0, count, rest);
    var r := Prune(u, 0, |untried|);
    Loaded.PruneMeaning(u, 0, |untried|);
    forall j | 0 <= j < |untried| ensures NewKept(r, NewSlots(h, r.key, untried), untried, j) {
      PruneKeeps(h, u, untried, j);
    }
    forall j | 0 <= j < |tried| ensures HoldsTried(r, |untried|, TriedSlots(h, r.key, tried), tried, j) {
      PruneHolds(h, u, |untried|, TriedSlots(h, r.key, tried), tried, j);
    }
  }

  lemma HoldsLater(toks: seq<Token>, skip: nat, at: nat, es: seq<Record>)
    requires skip <= |toks| && Holds(toks[skip..], at, es)
    ensures Holds(toks, skip + at, es)
  {
    forall j | 0 <= j < |es| ensures toks[skip + at + j] == EntryTok(es[j]) {
      assert toks[skip..][at + j] == EntryTok(es[j]);
    }
  }
}
