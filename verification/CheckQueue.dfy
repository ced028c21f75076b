/**
 The queue shared by the master and the workers, one critical section at a time: the
 shared fields as a value, and a class whose methods run the sections in place.
 */
module CheckQueue {
  import opened Numbers

  /** A verification job: `ok` is what running it returns. */
  datatype Check = Check(id: nat, ok: bool)

  /** The fields behind the mutex. */
  datatype Shared = Shared(queue: seq<Check>, nIdle: int, nTotal: int, allOk: bool, nTodo: int)

  /** How a pass through the critical section ends. */
  datatype Outcome = Return(ret: bool) | Sleep | Take(batch: seq<Check>)

  function BatchSize(s: Shared, limit: nat): (n: int)
    requires s.nTotal + s.nIdle + 1 > 0
  {
    Max(1, Min(limit, |s.queue| / (s.nTotal + s.nIdle + 1)))
  }

  /**
   Above one, a batch is as large as the limit and an even share of the queue allow: as many such batches as there
   are threads, idle ones counted twice, and one more are in the queue.
   */
  lemma BatchIsShare(s: Shared, limit: nat)
    requires s.nTotal + s.nIdle + 1 > 0
    ensures var n, d := BatchSize(s, limit), s.nTotal + s.nIdle + 1;
      && (n > 1 ==> n <= limit && n * d <= |s.queue|)
      && (n < limit ==> |s.queue| < (n + 1) * d)
  {
    var q, d := |s.queue|, s.nTotal + s.nIdle + 1;
    var share, rest := q / d, q % d;
    assert q == share * d + rest && rest < d;
    var n := BatchSize(s, limit);
    if n > 1 {
      Scaled(n, share, d);
    }
    if n < limit {
      Scaled(share + 1, n + 1, d);
    }
  }

  lemma Scaled(a: int, b: int, d: int)
    requires a <= b && d > 0
    ensures a * d <= b * d
  {
  }

  /** A batch is never empty and never more than there is. */
  lemma BatchFits(s: Shared, limit: nat)
    requires s.nTotal + s.nIdle + 1 > 0 && s.queue != []
    ensures 1 <= BatchSize(s, limit) <= |s.queue|
  {
    var d := s.nTotal + s.nIdle + 1;
    assert |s.queue| / d <= |s.queue| by {
      DivShrinks(|s.queue|, d);
    }
  }

  lemma DivShrinks(a: nat, d: nat)
    requires d > 0
    ensures a / d <= a
  {
    var q, r := a / d, a % d;
    assert a == d * q + r && r >= 0 && q >= 0;
    assert d * q == q + (d - 1) * q;
    MulNonneg(d - 1, q);
  }

  lemma MulNonneg(a: nat, b: nat)
    ensures a * b >= 0
  {
  }

  /** The last `n` jobs, the last first, as they are popped off the stack. */
  function Popped(queue: seq<Check>, n: nat): seq<Check>
    requires n <= |queue|
  {
    seq(n, i requires 0 <= i < n => queue[|queue| - 1 - i])
  }

  lemma {:induction false} PoppedConserves(queue: seq<Check>, n: nat)
    requires n <= |queue|
    ensures multiset(Popped(queue, n)) + multiset(queue[..|queue| - n]) == multiset(queue)
  {
    if n == 0 {
      assert queue[..|queue|] == queue && Popped(queue, n) == [];
    } else {
      PoppedConserves(queue, n - 1);
      var last := queue[|queue| - n];
      assert Popped(queue, n) == Popped(queue, n - 1) + [last];
      assert queue[..|queue| - (n - 1)] == queue[..|queue| - n] + [last];
    }
  }

  /** From the head of the inner loop to the first wait, return or batch. */
  function Tail(s: Shared, master: bool, limit: nat): (r: (Shared, Outcome))
    requires s.nTotal + s.nIdle + 1 > 0
  {
    if s.queue == [] then
      if master && s.nTodo == 0
      then (s.(nTotal := s.nTotal - 1, allOk := true), Return(s.allOk))
      else (s.(nIdle := s.nIdle + 1), Sleep)
    else
      BatchFits(s, limit);
      var n := BatchSize(s, limit);
      (s.(queue := s.queue[..|s.queue| - n]), Take(Popped(s.queue, n)))
  }

  /** The clean-up of the previous batch. */
  function CleanUp(s: Shared, nNow: nat, ok: bool): Shared {
    s.(allOk := s.allOk && ok, nTodo := s.nTodo - nNow)
  }

  /** Whether the queue is unused, as the control object asserts. */
  predicate IsIdle(s: Shared) {
    s.nTotal == s.nIdle && s.nTodo == 0 && s.allOk
  }

  /** Which of the waiting workers are notified. */
  datatype Notice = Nobody | OneWorker | AllWorkers

  /** One job needs one worker, more may need all of them. */
  function NoticeFor(n: nat): Notice {
    if n == 0 then Nobody else if n == 1 then OneWorker else AllWorkers
  }

  function Added(s: Shared, checks: seq<Check>): Shared {
    s.(queue := s.queue + checks, nTodo := s.nTodo + |checks|)
  }

  class SharedQueue {
    var queue: seq<Check>
    var nIdle: int
    var nTotal: int
    var allOk: bool
    var nTodo: int
    const limit: nat

    function Value(): Shared
      reads this
    {
      Shared(queue, nIdle, nTotal, allOk, nTodo)
    }

    constructor (limit: nat)
      ensures this.limit == limit && Value() == Shared([], 0, 0, true, 0)
    {
      queue, nIdle, nTotal, allOk, nTodo := [], 0, 0, true, 0;
      this.limit := limit;
    }

    /** Hands over jobs; `notify` says which waiting workers are woken. */
    method Add(checks: seq<Check>) returns (notify: Notice)
      modifies this
      ensures Value() == Added(old(Value()), checks)
      ensures notify == NoticeFor(|checks|)
    {
      for i := 0 to |checks|
        invariant queue == old(queue) + checks[..i]
        invariant unchanged(`nIdle) && unchanged(`nTotal) && unchanged(`allOk) && unchanged(`nTodo)
      {
        queue := queue + [checks[i]];
      }
      nTodo := nTodo + |checks|;
      notify := Nobody;
      if |checks| == 1 {
        notify := OneWorker;
      } else if |checks| > 1 {
        notify := AllWorkers;
      }
    }

    /** The inner loop, until it waits, returns or has a batch. */
    method Proceed(master: bool) returns (out: Outcome)
      requires nTotal + nIdle + 1 > 0
      modifies this
      ensures (Value(), out) == Tail(old(Value()), master, limit)
    {
      if queue == [] {
        if master && nTodo == 0 {
          nTotal := nTotal - 1;
          out := Return(allOk);
          if master {
            allOk := true;
          }
          return;
        }
        nIdle := nIdle + 1;
        return Sleep;
      }
      BatchFits(Value(), limit);
      var nNow := Max(1, Min(limit, |queue| / (nTotal + nIdle + 1)));
      var batch := [];
      for i := 0 to nNow
        invariant |old(queue)| - i >= 0 && queue == old(queue)[..|old(queue)| - i]
        invariant batch == Popped(old(queue), i)
        invariant unchanged(`nIdle) && unchanged(`nTotal) && unchanged(`allOk) && unchanged(`nTodo)
      {
        batch := batch + [queue[|queue| - 1]];
        queue := queue[..|queue| - 1];
      }
      out := Take(batch);
    }

    /** The first pass of a thread that enters the loop. */
    method Enter(master: bool) returns (out: Outcome)
      requires nTotal + 1 + nIdle + 1 > 0
      modifies this
      ensures (Value(), out) == Tail(old(Value()).(nTotal := old(nTotal) + 1), master, limit)
    {
      nTotal := nTotal + 1;
      out := Proceed(master);
    }

    /** The pass after a wait. */
    method Resume(master: bool) returns (out: Outcome)
      requires nTotal + nIdle > 0
      modifies this
      ensures (Value(), out) == Tail(old(Value()).(nIdle := old(nIdle) - 1), master, limit)
    {
      nIdle := nIdle - 1;
      out := Proceed(master);
    }

    /** The pass after a batch; `notify` says that the master is to be woken. */
    method Finish(master: bool, nNow: nat, ok: bool) returns (out: Outcome, notify: bool)
      requires nTotal + nIdle + 1 > 0
      modifies this
      ensures (Value(), out) == Tail(CleanUp(old(Value()), nNow, ok), master, limit)
      ensures notify <==> old(nTodo) == nNow && !master
    {
      allOk := allOk && ok;
      nTodo := nTodo - nNow;
      notify := nTodo == 0 && !master;
      out := Proceed(master);
    }
  }

  /** Running a batch outside the lock: once something has failed the rest is skipped. */
  method Execute(batch: seq<Check>, ok: bool) returns (r: bool)
    ensures r <==> ok && forall c :: c in batch ==> c.ok
  {
    r := ok;
    for i := 0 to |batch|
      invariant r <==> ok && forall j :: 0 <= j < i ==> batch[j].ok
    {
      if r {
        r := batch[i].ok;
      }
    }
  }
}
