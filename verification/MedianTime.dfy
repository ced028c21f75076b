/**
 Median time past: the median of the last eleven block times, and why it never goes back
 along a chain whose block times are set by `UpdateTime`.
 */
module MedianTime {
  import opened BlockIndex

  const MEDIAN_TIME_SPAN := 11

  // ---------------------------------------------------------------- sorting

  function Insert(x: int, s: seq<int>): seq<int> {
    if s == [] then [x] else if x <= s[0] then [x] + s else [s[0]] + Insert(x, s[1..])
  }

  function Sort(s: seq<int>): (r: seq<int>) {
    if s == [] then [] else Insert(s[0], Sort(s[1..]))
  }

  predicate Sorted(s: seq<int>) {
    forall i, j :: 0 <= i < j < |s| ==> s[i] <= s[j]
  }

  lemma {:induction false} InsertBounded(x: int, s: seq<int>, lo: int)
    requires lo <= x && forall i :: 0 <= i < |s| ==> lo <= s[i]
    ensures forall i :: 0 <= i < |Insert(x, s)| ==> lo <= Insert(x, s)[i]
  {
    if s != [] {
      InsertBounded(x, s[1..], lo);
    }
  }

  lemma {:induction false} InsertMultiset(x: int, s: seq<int>)
    ensures multiset(Insert(x, s)) == multiset(s) + multiset{x} && |Insert(x, s)| == |s| + 1
  {
    if s != [] && x > s[0] {
      InsertMultiset(x, s[1..]);
      assert s == [s[0]] + s[1..];
    }
  }

  lemma {:induction false} InsertSorted(x: int, s: seq<int>)
    requires Sorted(s)
    ensures Sorted(Insert(x, s))
  {
    if s != [] && x > s[0] {
      InsertSorted(x, s[1..]);
      InsertBounded(x, s[1..], s[0]);
    }
  }

  lemma NoneSorted()
    ensures Sorted([])
  {
  }

  lemma {:induction false} SortIs(s: seq<int>)
    ensures Sorted(Sort(s)) && multiset(Sort(s)) == multiset(s) && |Sort(s)| == |s|
  {
    hide Sorted, Insert;
    if s == [] {
      assert Sorted([]) by { NoneSorted(); }
    } else {
      SortIs(s[1..]);
      InsertSorted(s[0], Sort(s[1..]));
      InsertMultiset(s[0], Sort(s[1..]));
      assert s == [s[0]] + s[1..];
    }
  }

  // ---------------------------------------------------------------- counting

  /** How many elements are below `m`. */
  function Below(s: seq<int>, m: int): nat {
    if s == [] then 0 else Below(s[1..], m) + if s[0] < m then 1 else 0
  }

  function Above(s: seq<int>, m: int): nat {
    if s == [] then 0 else Above(s[1..], m) + if s[0] > m then 1 else 0
  }

  lemma {:induction false} InsertCounts(x: int, s: seq<int>, m: int)
    ensures Below(Insert(x, s), m) == Below(s, m) + if x < m then 1 else 0
    ensures Above(Insert(x, s), m) == Above(s, m) + if x > m then 1 else 0
  {
    if s != [] && x > s[0] {
      InsertCounts(x, s[1..], m);
    } else {
      assert ([x] + s)[1..] == s;
    }
  }

  lemma {:induction false} SortCounts(s: seq<int>, m: int)
    ensures Below(Sort(s), m) == Below(s, m) && Above(Sort(s), m) == Above(s, m)
  {
    if s != [] {
      SortCounts(s[1..], m);
      InsertCounts(s[0], Sort(s[1..]), m);
    }
  }

  lemma {:induction false} BelowAppend(s: seq<int>, x: int, m: int)
    ensures Below(s + [x], m) == Below(s, m) + if x < m then 1 else 0
  {
    if s != [] {
      BelowAppend(s[1..], x, m);
      assert (s + [x])[1..] == s[1..] + [x];
    }
  }

  /** In a sorted list at most `k` elements are below the one at `k`, and at least `k + 1` below anything larger. */
  lemma {:induction false} SortedBelow(s: seq<int>, k: nat, m: int)
    requires Sorted(s) && k < |s|
    ensures s[k] >= m ==> Below(s, m) <= k
    ensures s[k] < m ==> Below(s, m) > k
  {
    if k > 0 {
      SortedBelow(s[1..], k - 1, m);
    } else if s[0] >= m {
      NoneBelow(s, m);
    }
  }

  lemma {:induction false} NoneBelow(s: seq<int>, m: int)
    requires forall i :: 0 <= i < |s| ==> s[i] >= m
    ensures Below(s, m) == 0
  {
    if s != [] {
      NoneBelow(s[1..], m);
    }
  }

  lemma {:induction false} SortedAbove(s: seq<int>, k: nat, m: int)
    requires Sorted(s) && k < |s| && s[k] <= m
    ensures Above(s, m) <= |s| - 1 - k
    decreases |s|
  {
    if k > 0 {
      SortedAbove(s[1..], k - 1, m);
    } else {
      AboveAtMost(s[1..], m);
    }
  }

  lemma {:induction false} AboveAtMost(s: seq<int>, m: int)
    ensures Above(s, m) <= |s|
  {
    if s != [] {
      AboveAtMost(s[1..], m);
    }
  }

  // ---------------------------------------------------------------- median time past

  /** The last eleven times, or all of them when there are fewer. */
  function Window(times: seq<int>): (w: seq<int>)
    ensures |w| == if |times| < MEDIAN_TIME_SPAN then |times| else MEDIAN_TIME_SPAN
  {
    if |times| < MEDIAN_TIME_SPAN then times else times[|times| - MEDIAN_TIME_SPAN..]
  }

  function MedianTimePast(times: seq<int>): int
    requires times != []
  {
    SortIs(Window(times));
    Sort(Window(times))[|Window(times)| / 2]
  }

  /** The median is one of the times, with at most half of them below it and fewer than half above. */
  lemma MedianMeaning(times: seq<int>)
    requires times != []
    ensures var m, w := MedianTimePast(times), times[if |times| < 11 then 0 else |times| - 11..];
            m in w && Below(w, m) <= |w| / 2 && Above(w, m) <= |w| - 1 - |w| / 2
  {
    var m, w := MedianTimePast(times), Window(times);
    assert w == times[if |times| < 11 then 0 else |times| - 11..];
    SortIs(w);
    SortedBelow(Sort(w), |w| / 2, m);
    SortedAbove(Sort(w), |w| / 2, m);
    SortCounts(w, m);
    assert m in multiset(Sort(w));
  }

  /** The time `UpdateTime` gives a block on top of a chain: past the median, and not before the clock. */
  function UpdatedTime(times: seq<int>, now: int): int
    requires times != []
  {
    var floor := MedianTimePast(times) + 1;
    if floor > now then floor else now
  }

  /** One more block past the median keeps the median from going back, also while the window grows. */
  lemma MedianStep(times: seq<int>, t: int)
    requires times != [] && t >= MedianTimePast(times)
    ensures MedianTimePast(times + [t]) >= MedianTimePast(times)
  {
    var m, w, next := MedianTimePast(times), Window(times), Window(times + [t]);
    MedianMeaning(times);
    SortIs(next);
    SortCounts(next, m);
    SortedBelow(Sort(next), |next| / 2, m);
    BelowAppend(w, t, m);
    if |times| < MEDIAN_TIME_SPAN {
      assert next == w + [t];
    } else {
      assert w + [t] == [w[0]] + next;
      assert (w + [t])[1..] == next;
    }
  }

  /** Every block after the first got its time from `UpdateTime`, at whatever the clock then showed. */
  ghost predicate AllUpdated(times: seq<int>, clock: nat -> int) {
    forall i {:trigger times[i]} :: 1 <= i < |times| ==> times[i] == UpdatedTime(times[..i], clock(i))
  }

  /** Along such a chain the median time past never decreases. */
  lemma {:induction false} MedianNeverDecreases(times: seq<int>, clock: nat -> int, i: nat, j: nat)
    requires AllUpdated(times, clock) && 1 <= i <= j <= |times|
    ensures MedianTimePast(times[..i]) <= MedianTimePast(times[..j])
    decreases j - i
  {
    hide MedianTimePast;
    if i < j {
      MedianNeverDecreases(times, clock, i, j - 1);
      assert times[j - 1] == UpdatedTime(times[..j - 1], clock(j - 1));
      MedianStep(times[..j - 1], times[j - 1]);
      assert times[..j] == times[..j - 1] + [times[j - 1]];
    }
  }

  // ---------------------------------------------------------------- on the block index

  ghost function Times(path: seq<Block>): (r: seq<int>)
    ensures |r| == |path|
    ensures forall i :: 0 <= i < |r| ==> r[i] == path[i].nTime
  {
    seq(|path|, i requires 0 <= i < |path| => path[i].nTime)
  }

  lemma TimesFrom(path: seq<Block>, k: nat)
    requires k < |path|
    ensures Times(path)[k..] == [path[k].nTime] + Times(path)[k + 1..]
  {
  }

  method GetMedianTimePast(b: Block) returns (m: int)
    requires Linked(b)
    ensures m == MedianTimePast(Times(Path(b)))
  {
    hide Linked, Step, Times, Sort, Sorted;
    var pmedian := new int[MEDIAN_TIME_SPAN];
    var begin := MEDIAN_TIME_SPAN;
    var p: Block? := b;
    var i := 0;
    ghost var path := Path(b);
    LinkedHeight(b);
    while i < MEDIAN_TIME_SPAN && p != null
      invariant 0 <= i <= MEDIAN_TIME_SPAN && begin == MEDIAN_TIME_SPAN - i
      invariant i <= |path| && (p == null <==> i == |path|)
      invariant p != null ==> p == path[|path| - 1 - i] && p.nHeight == |path| - 1 - i
      invariant pmedian[begin..] == Times(path)[|path| - i..]
    {
      PathPrefix(b, p.nHeight);
      Parent(p);
      begin := begin - 1;
      pmedian[begin] := p.nTime;
      assert pmedian[begin..] == [p.nTime] + pmedian[begin + 1..];
      TimesFrom(path, |path| - i - 1);
      i, p := i + 1, p.pprev;
    }
    var sorted := Sort(pmedian[begin..]);
    assert pmedian[begin..] == Window(Times(path));
    SortIs(pmedian[begin..]);
    m := sorted[(MEDIAN_TIME_SPAN - begin) / 2];
  }
}
