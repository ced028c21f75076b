/**
 The master and the workers as a state machine. Thread 0 is the master. Each critical
 section is one step, jobs run one at a time outside the lock, a waiting thread may
 wake at any moment, and only the master adds work, while it is outside the loop.
 */
module CheckQueueProtocol {
  import opened CheckQueue

  /**
   Where a thread is. Waiting carries whether a notification has reached it; Working carries
   its batch, how much of it has run, and the local result so far.
   */
  datatype Thread =
    | Outside
    | Waiting(notified: bool)
    | Working(batch: seq<Check>, pos: nat, ok: bool)

  /** The shared fields, the threads, and (for the statements only) what was added and completed since the last Wait. */
  datatype State = State(sh: Shared, threads: seq<Thread>, added: seq<Check>, done: multiset<Check>)

  datatype Act =
    | Add(checks: seq<Check>, who: nat)
    | Enter(t: nat)
    | Wake(t: nat)
    | Exec(t: nat)
    | Finish(t: nat)

  // ---------------------------------------------------------------- sums over the threads

  function InLoop(t: Thread): nat { if t.Outside? then 0 else 1 }

  function Idle(t: Thread): nat { if t.Waiting? then 1 else 0 }

  function Held(t: Thread): nat { if t.Working? then |t.batch| else 0 }

  /** The work left in a thread, in units the measure below explains. */
  function Left(t: Thread): nat {
    match t
    case Outside => 1
    case Waiting(notified) => if notified then 1 else 0
    case Working(batch, pos, _) => 2 + if pos < |batch| then 2 * (|batch| - pos) else 0
  }

  function Sum(f: Thread -> nat, ts: seq<Thread>): nat {
    if ts == [] then 0 else f(ts[0]) + Sum(f, ts[1..])
  }

  lemma {:induction false} SumUpdate(f: Thread -> nat, ts: seq<Thread>, t: nat, x: Thread)
    requires t < |ts|
    ensures Sum(f, ts[t := x]) + f(ts[t]) == Sum(f, ts) + f(x)
  {
    if t == 0 {
      assert ts[t := x][1..] == ts[1..];
    } else {
      assert ts[t := x][1..] == ts[1..][t - 1 := x];
      SumUpdate(f, ts[1..], t - 1, x);
    }
  }

  lemma {:induction false} SumAtLeast(f: Thread -> nat, ts: seq<Thread>, t: nat)
    requires t < |ts|
    ensures Sum(f, ts) >= f(ts[t])
  {
    if t > 0 {
      SumAtLeast(f, ts[1..], t - 1);
    }
  }

  lemma {:induction false} SumWitness(f: Thread -> nat, ts: seq<Thread>) returns (t: nat)
    requires Sum(f, ts) > 0
    ensures t < |ts| && f(ts[t]) > 0
  {
    if f(ts[0]) > 0 {
      t := 0;
    } else {
      t := SumWitness(f, ts[1..]);
      t := t + 1;
    }
  }

  function HeldChecks(t: Thread): multiset<Check> {
    if t.Working? then multiset(t.batch) else multiset{}
  }

  function AllHeld(ts: seq<Thread>): multiset<Check> {
    if ts == [] then multiset{} else HeldChecks(ts[0]) + AllHeld(ts[1..])
  }

  lemma {:induction false} AllHeldUpdate(ts: seq<Thread>, t: nat, x: Thread)
    requires t < |ts|
    ensures AllHeld(ts[t := x]) + HeldChecks(ts[t]) == AllHeld(ts) + HeldChecks(x)
  {
    if t == 0 {
      assert ts[t := x][1..] == ts[1..];
    } else {
      var rest := ts[1..];
      assert ts[t := x][1..] == rest[t - 1 := x];
      AllHeldUpdate(rest, t - 1, x);
      WithMore(HeldChecks(ts[0]), AllHeld(rest[t - 1 := x]), HeldChecks(ts[t]), AllHeld(rest), HeldChecks(x));
    }
  }

  lemma WithMore(h: multiset<Check>, a: multiset<Check>, b: multiset<Check>, c: multiset<Check>, d: multiset<Check>)
    requires a + b == c + d
    ensures (h + a) + b == (h + c) + d
  {
    assert (h + a) + b == h + (a + b);
    assert (h + c) + d == h + (c + d);
  }

  // ---------------------------------------------------------------- steps

  /** The thread after a pass through the critical section; a batch starts from the result so far. */
  function After(out: Outcome, allOk: bool): Thread {
    match out
    case Return(_) => Outside
    case Sleep => Waiting(false)
    case Take(batch) => Working(batch, 0, allOk)
  }

  /** A notification that reaches a waiting thread. */
  function Notified(t: Thread): Thread {
    if t.Waiting? then Waiting(true) else t
  }

  /** condWorker's notifications; one notification reaches a waiting worker of the scheduler's choice. */
  function NotifyWorkers(ts: seq<Thread>, n: Notice, who: nat): (r: seq<Thread>)
    requires |ts| > 0
    ensures |r| == |ts| && r[0] == ts[0]
    ensures forall t :: 0 <= t < |ts| ==> r[t] == ts[t] || (ts[t].Waiting? && r[t] == Waiting(true))
  {
    if n.Nobody? then ts
    else if n.OneWorker? then (if 0 < who < |ts| then ts[who := Notified(ts[who])] else ts)
    else seq(|ts|, t requires 0 <= t < |ts| => if t == 0 then ts[0] else Notified(ts[t]))
  }

  predicate Enabled(s: State, a: Act) {
    && |s.threads| > 0
    && match a
       case Add(_, _) => s.threads[0].Outside?
       case Enter(t) => t < |s.threads| && s.threads[t].Outside?
       case Wake(t) => t < |s.threads| && s.threads[t].Waiting?
       case Exec(t) => t < |s.threads| && s.threads[t].Working? && s.threads[t].pos < |s.threads[t].batch|
       case Finish(t) => t < |s.threads| && s.threads[t].Working? && s.threads[t].pos >= |s.threads[t].batch|
  }

  /** The critical section of thread `t`, entered with the shared fields `sh`. */
  function Section(s: State, sh: Shared, t: nat, limit: nat): (r: (State, Outcome))
    requires t < |s.threads| && sh.nTotal + sh.nIdle + 1 > 0
  {
    var (sh', out) := Tail(sh, t == 0, limit);
    var s' := s.(sh := sh', threads := s.threads[t := After(out, sh'.allOk)]);
    (if out.Return? then s'.(added := [], done := multiset{}) else s', out)
  }

  /** Notify the master, if the last job is done and it was not the master's own. */
  function Signal(ts: seq<Thread>, nTodo: int, t: nat): seq<Thread>
    requires |ts| > 0
  {
    if nTodo == 0 && t != 0 then ts[0 := Notified(ts[0])] else ts
  }

  /** The state after a step, and what Wait returned if the step ended it. */
  function Step(s: State, a: Act, limit: nat): (r: (State, Outcome))
    requires Enabled(s, a) && Inside(s)
  {
    match a
    case Add(checks, who) =>
      (s.(sh := Added(s.sh, checks), threads := NotifyWorkers(s.threads, NoticeFor(|checks|), who),
          added := s.added + checks), Sleep)
    case Enter(t) => Section(s, s.sh.(nTotal := s.sh.nTotal + 1), t, limit)
    case Wake(t) =>
      SumAtLeast(Idle, s.threads, t);
      Section(s, s.sh.(nIdle := s.sh.nIdle - 1), t, limit)
    case Exec(t) =>
      var w := s.threads[t];
      var ok := if w.ok then w.batch[w.pos].ok else w.ok;
      (s.(threads := s.threads[t := Working(w.batch, w.pos + 1, ok)]), Sleep)
    case Finish(t) =>
      var w := s.threads[t];
      var sh := CleanUp(s.sh, |w.batch|, w.ok);
      var s' := s.(threads := Signal(s.threads, sh.nTodo, t), done := s.done + multiset(w.batch));
      Section(s', sh, t, limit)
  }

  /** The counters that keep the divisor of the batch size positive. */
  predicate Inside(s: State) {
    s.sh.nTotal == Sum(InLoop, s.threads) && s.sh.nIdle == Sum(Idle, s.threads)
  }

  // ---------------------------------------------------------------- the invariant

  predicate Failed(checks: seq<Check>) {
    exists c :: c in checks && !c.ok
  }

  predicate ThreadOk(s: State, t: Thread) {
    t.Working? ==>
      && 1 <= |t.batch| && t.pos <= |t.batch|
      && (t.ok ==> forall i :: 0 <= i < t.pos ==> t.batch[i].ok)
      && (!t.ok ==> Failed(s.added))
  }

  /** Every job added since the last Wait is queued, in some thread's batch, or done. */
  predicate Conserved(s: State) {
    && s.sh.nTodo == |s.sh.queue| + Sum(Held, s.threads)
    && multiset(s.added) == multiset(s.sh.queue) + AllHeld(s.threads) + s.done
  }

  /** The shared result speaks for the jobs that are done. */
  predicate ResultOk(s: State) {
    && (s.sh.allOk ==> forall c :: c in s.done ==> c.ok)
    && (!s.sh.allOk ==> Failed(s.added))
  }

  /** A waiting master has nothing left to take, and unless notified it has someone to wait for. */
  predicate MasterOk(s: State) {
    |s.threads| > 0 && (s.threads[0].Waiting? ==> s.sh.queue == [] && (!s.threads[0].notified ==> s.sh.nTodo > 0))
  }

  predicate Inv(s: State) {
    && Inside(s) && Conserved(s) && ResultOk(s) && MasterOk(s)
    && forall t :: 0 <= t < |s.threads| ==> ThreadOk(s, s.threads[t])
  }

  function Init(n: nat): State {
    State(Shared([], 0, 0, true, 0), seq(n + 1, _ => Outside), [], multiset{})
  }

  lemma {:induction false} SumOutside(f: Thread -> nat, n: nat)
    requires f(Outside) == 0
    ensures Sum(f, seq(n, _ => Outside)) == 0 && AllHeld(seq(n, _ => Outside)) == multiset{}
  {
    if n > 0 {
      assert seq(n, _ => Outside)[1..] == seq(n - 1, _ => Outside);
      SumOutside(f, n - 1);
    }
  }

  lemma InitInv(n: nat)
    ensures Inv(Init(n))
  {
    SumOutside(InLoop, n + 1);
    SumOutside(Idle, n + 1);
    SumOutside(Held, n + 1);
  }

  // ---------------------------------------------------------------- the critical section

  lemma {:induction false} NothingHeld(ts: seq<Thread>)
    requires Sum(Held, ts) == 0
    ensures AllHeld(ts) == multiset{}
    ensures forall t :: 0 <= t < |ts| && ts[t].Working? ==> ts[t].batch == []
  {
    if ts != [] {
      NothingHeld(ts[1..]);
      forall t | 0 <= t < |ts| && ts[t].Working? ensures ts[t].batch == [] {
        if t > 0 { assert ts[t] == ts[1..][t - 1]; }
      }
    }
  }

  /** What the sums become when thread `t`, outside so far, becomes `x`. */
  lemma Becomes(ts: seq<Thread>, t: nat, x: Thread)
    requires t < |ts| && ts[t].Outside?
    ensures Sum(InLoop, ts[t := x]) == Sum(InLoop, ts) + InLoop(x)
    ensures Sum(Idle, ts[t := x]) == Sum(Idle, ts) + Idle(x)
    ensures Sum(Held, ts[t := x]) == Sum(Held, ts) + Held(x)
    ensures AllHeld(ts[t := x]) == AllHeld(ts) + HeldChecks(x)
  {
    SumUpdate(InLoop, ts, t, x);
    SumUpdate(Idle, ts, t, x);
    SumUpdate(Held, ts, t, x);
    AllHeldUpdate(ts, t, x);
  }

  /** Only one thread changed, so what the others satisfy they still satisfy. */
  lemma OthersKeep(s: State, r: State, t: nat)
    requires t < |s.threads| && |r.threads| == |s.threads| && r.added == s.added
    requires forall u :: 0 <= u < |s.threads| ==> ThreadOk(s, s.threads[u])
    requires forall u :: 0 <= u < |s.threads| && u != t ==> r.threads[u] == s.threads[u]
    requires ThreadOk(r, r.threads[t])
    ensures forall u :: 0 <= u < |r.threads| ==> ThreadOk(r, r.threads[u])
  {
  }

  lemma SectionReturns(s: State, t: nat, limit: nat)
    requires Inv(s) && t == 0 && s.threads[t].Outside? && s.sh.queue == [] && s.sh.nTodo == 0
    ensures var (r, out) := Section(s, s.sh.(nTotal := s.sh.nTotal + 1), t, limit);
      Inv(r) && out.Return? && (out.ret <==> forall c :: c in s.added ==> c.ok)
  {
    NothingHeld(s.threads);
    assert multiset(s.added) == s.done;
    assert forall c :: c in s.added <==> c in multiset(s.added);
    assert s.threads[t := Outside] == s.threads;
    var (r, out) := Section(s, s.sh.(nTotal := s.sh.nTotal + 1), t, limit);
    assert r.threads == s.threads;
  }

  lemma SectionSleeps(s: State, t: nat, limit: nat)
    requires Inv(s) && t < |s.threads| && s.threads[t].Outside? && s.sh.queue == [] && !(t == 0 && s.sh.nTodo == 0)
    ensures var (r, out) := Section(s, s.sh.(nTotal := s.sh.nTotal + 1), t, limit); Inv(r) && out.Sleep?
  {
    Becomes(s.threads, t, Waiting(false));
    var (r, out) := Section(s, s.sh.(nTotal := s.sh.nTotal + 1), t, limit);
    assert r.threads == s.threads[t := Waiting(false)];
    OthersKeep(s, r, t);
  }

  lemma TakeKeeps(s: State, t: nat, rest: seq<Check>, batch: seq<Check>)
    requires Inv(s) && t < |s.threads| && s.threads[t].Outside? && s.sh.queue != [] && batch != []
    requires multiset(batch) + multiset(rest) == multiset(s.sh.queue) && |batch| + |rest| == |s.sh.queue|
    ensures Inv(s.(sh := s.sh.(nTotal := s.sh.nTotal + 1, queue := rest),
                   threads := s.threads[t := Working(batch, 0, s.sh.allOk)]))
  {
    var w := Working(batch, 0, s.sh.allOk);
    Becomes(s.threads, t, w);
    var r := s.(sh := s.sh.(nTotal := s.sh.nTotal + 1, queue := rest), threads := s.threads[t := w]);
    OthersKeep(s, r, t);
    hide ThreadOk, ResultOk, Sum, AllHeld;
    assert Conserved(r);
    SameResult(s, r);
  }

  lemma SameResult(s: State, r: State)
    requires ResultOk(s) && r.sh.allOk == s.sh.allOk && r.done == s.done && r.added == s.added
    ensures ResultOk(r)
  {
  }

  lemma CountersFit(s: State)
    requires Inv(s)
    ensures s.sh.nTotal + 1 + s.sh.nIdle + 1 > 0
  {
  }

  lemma SectionTakes(s: State, t: nat, limit: nat)
    requires Inv(s) && t < |s.threads| && s.threads[t].Outside? && s.sh.queue != []
    ensures var (r, out) := Section(s, s.sh.(nTotal := s.sh.nTotal + 1), t, limit); Inv(r) && out.Take?
  {
    hide Inv;
    var sh := s.sh.(nTotal := s.sh.nTotal + 1);
    CountersFit(s);
    BatchFits(sh, limit);
    var n := BatchSize(sh, limit);
    PoppedConserves(sh.queue, n);
    TakeKeeps(s, t, sh.queue[..|sh.queue| - n], Popped(sh.queue, n));
  }

  /** The critical section of a thread that was not counted before it. */
  lemma SectionKeeps(s: State, t: nat, limit: nat)
    requires Inv(s) && t < |s.threads| && s.threads[t].Outside?
    ensures var (r, out) := Section(s, s.sh.(nTotal := s.sh.nTotal + 1), t, limit);
      Inv(r) && (out.Return? ==> t == 0 && (out.ret <==> forall c :: c in s.added ==> c.ok))
  {
    if s.sh.queue != [] {
      SectionTakes(s, t, limit);
    } else if t == 0 && s.sh.nTodo == 0 {
      SectionReturns(s, t, limit);
    } else {
      SectionSleeps(s, t, limit);
    }
  }

  // ---------------------------------------------------------------- the other steps

  lemma AddKeeps(s: State, checks: seq<Check>, who: nat)
    requires Inv(s) && s.threads[0].Outside?
    ensures Inv(s.(sh := Added(s.sh, checks), threads := NotifyWorkers(s.threads, NoticeFor(|checks|), who),
                   added := s.added + checks))
  {
    var ts := NotifyWorkers(s.threads, NoticeFor(|checks|), who);
    var r := s.(sh := Added(s.sh, checks), threads := ts, added := s.added + checks);
    NotifiedSums(s.threads, ts);
    assert Failed(s.added) ==> Failed(r.added);
    forall t | 0 <= t < |ts| ensures ThreadOk(r, ts[t]) {
      assert ThreadOk(s, s.threads[t]);
    }
    hide ThreadOk, Failed;
    assert Conserved(r);
  }

  /** Notifications are not counted anywhere. */
  lemma {:induction false} NotifiedSums(ts: seq<Thread>, us: seq<Thread>)
    requires |us| == |ts|
    requires forall t :: 0 <= t < |ts| ==> us[t] == ts[t] || (ts[t].Waiting? && us[t] == Waiting(true))
    ensures Sum(InLoop, us) == Sum(InLoop, ts) && Sum(Idle, us) == Sum(Idle, ts) && Sum(Held, us) == Sum(Held, ts)
    ensures AllHeld(us) == AllHeld(ts)
  {
    if ts != [] {
      assert us[0] == ts[0] || (ts[0].Waiting? && us[0] == Waiting(true));
      NotifiedSums(ts[1..], us[1..]);
    }
  }

  /** What the sums become when thread `t` becomes `x`. */
  lemma Replaced(ts: seq<Thread>, t: nat, x: Thread)
    requires t < |ts|
    ensures Sum(InLoop, ts[t := x]) == Sum(InLoop, ts) + InLoop(x) - InLoop(ts[t])
    ensures Sum(Idle, ts[t := x]) == Sum(Idle, ts) + Idle(x) - Idle(ts[t])
    ensures Sum(Held, ts[t := x]) == Sum(Held, ts) + Held(x) - Held(ts[t])
    ensures AllHeld(ts[t := x]) + HeldChecks(ts[t]) == AllHeld(ts) + HeldChecks(x)
    ensures HeldChecks(x) == HeldChecks(ts[t]) ==> AllHeld(ts[t := x]) == AllHeld(ts)
  {
    SumUpdate(InLoop, ts, t, x);
    SumUpdate(Idle, ts, t, x);
    SumUpdate(Held, ts, t, x);
    AllHeldUpdate(ts, t, x);
    Cancel(AllHeld(ts[t := x]), AllHeld(ts), HeldChecks(x));
  }

  lemma Cancel(a: multiset<Check>, b: multiset<Check>, c: multiset<Check>)
    ensures a + c == b + c ==> a == b
  {
    if a + c == b + c {
      forall x ensures a[x] == b[x] {
        assert (a + c)[x] == (b + c)[x];
      }
    }
  }

  lemma ExecThread(s: State, t: nat)
    requires Conserved(s) && Enabled(s, Exec(t)) && ThreadOk(s, s.threads[t])
    ensures var w := s.threads[t];
      ThreadOk(s, Working(w.batch, w.pos + 1, if w.ok then w.batch[w.pos].ok else w.ok))
  {
    var w := s.threads[t];
    if w.ok && !w.batch[w.pos].ok {
      HeldIsAdded(s, t, w.pos);
    }
  }

  lemma ExecKeeps(s: State, t: nat)
    requires Inv(s) && Enabled(s, Exec(t))
    ensures var w := s.threads[t];
      var ok := if w.ok then w.batch[w.pos].ok else w.ok;
      Inv(s.(threads := s.threads[t := Working(w.batch, w.pos + 1, ok)]))
  {
    hide ThreadOk, Failed, Sum, AllHeld;
    var w := s.threads[t];
    ExecThread(s, t);
    var x := Working(w.batch, w.pos + 1, if w.ok then w.batch[w.pos].ok else w.ok);
    Replaced(s.threads, t, x);
    var r := s.(threads := s.threads[t := x]);
    SameAdded(s, r, x);
    OthersKeep(s, r, t);
  }

  lemma SameAdded(s: State, r: State, t: Thread)
    requires r.added == s.added && ThreadOk(s, t)
    ensures ThreadOk(r, t)
  {
  }

  lemma {:induction false} HeldWithin(ts: seq<Thread>, t: nat)
    requires t < |ts|
    ensures HeldChecks(ts[t]) <= AllHeld(ts)
  {
    if t > 0 {
      HeldWithin(ts[1..], t - 1);
    }
  }

  /** A job in a batch was added since the last Wait. */
  lemma HeldIsAdded(s: State, t: nat, i: nat)
    requires Conserved(s) && t < |s.threads| && s.threads[t].Working? && i < |s.threads[t].batch|
    ensures s.threads[t].batch[i] in s.added
  {
    HeldWithin(s.threads, t);
    assert s.threads[t].batch[i] in multiset(s.threads[t].batch);
    assert s.threads[t].batch[i] in multiset(s.added);
  }

  /** A thread that wakes leaves the idle ones. */
  lemma WakeLeaves(s: State, t: nat)
    requires Inv(s) && t < |s.threads| && s.threads[t].Waiting?
    ensures Inv(s.(sh := s.sh.(nIdle := s.sh.nIdle - 1, nTotal := s.sh.nTotal - 1), threads := s.threads[t := Outside]))
  {
    hide Sum, AllHeld, Failed;
    var r := s.(sh := s.sh.(nIdle := s.sh.nIdle - 1, nTotal := s.sh.nTotal - 1), threads := s.threads[t := Outside]);
    Replaced(s.threads, t, Outside);
    OthersKeep(s, r, t);
  }

  lemma FinishThreads(s: State, r: State, t: nat)
    requires Inv(s) && Enabled(s, Finish(t)) && r.added == s.added
    requires exists n :: r.threads == Signal(s.threads, n, t)[t := Outside]
    ensures forall u :: 0 <= u < |r.threads| ==> ThreadOk(r, r.threads[u])
  {
    forall u | 0 <= u < |r.threads| ensures ThreadOk(r, r.threads[u]) {
      assert ThreadOk(s, s.threads[u]);
    }
  }

  lemma FinishSums(s: State, t: nat, n: int)
    requires Enabled(s, Finish(t))
    ensures var w := s.threads[t];
      var ts := Signal(s.threads, n, t)[t := Outside];
      && Sum(InLoop, ts) == Sum(InLoop, s.threads) - 1 && Sum(Idle, ts) == Sum(Idle, s.threads)
      && Sum(Held, ts) == Sum(Held, s.threads) - |w.batch|
      && AllHeld(ts) + multiset(w.batch) == AllHeld(s.threads)
  {
    var ts := Signal(s.threads, n, t);
    NotifiedSums(s.threads, ts);
    hide Sum, AllHeld;
    Replaced(ts, t, Outside);
  }

  /** A thread that has run its batch hands in the result. */
  lemma FinishLeaves(s: State, t: nat)
    requires Inv(s) && Enabled(s, Finish(t))
    ensures var w := s.threads[t];
      var sh := CleanUp(s.sh, |w.batch|, w.ok);
      Inv(s.(sh := sh.(nTotal := sh.nTotal - 1), threads := Signal(s.threads, sh.nTodo, t)[t := Outside],
             done := s.done + multiset(w.batch)))
  {
    hide Sum, AllHeld, ThreadOk, ResultOk, Failed;
    var w := s.threads[t];
    var sh := CleanUp(s.sh, |w.batch|, w.ok);
    var ts := Signal(s.threads, sh.nTodo, t)[t := Outside];
    var r := s.(sh := sh.(nTotal := sh.nTotal - 1), threads := ts, done := s.done + multiset(w.batch));
    FinishSums(s, t, sh.nTodo);
    FinishThreads(s, r, t);
    assert ThreadOk(s, w);
    FinishedPos(s, t);
    FinishResult(s, r, w);
    assert Conserved(r);
  }

  lemma FinishedPos(s: State, t: nat)
    requires Enabled(s, Finish(t)) && ThreadOk(s, s.threads[t])
    ensures s.threads[t].pos == |s.threads[t].batch|
  {
  }

  lemma FinishResult(s: State, r: State, w: Thread)
    requires ResultOk(s) && ThreadOk(s, w) && w.Working? && w.pos == |w.batch|
    requires r.added == s.added && r.done == s.done + multiset(w.batch) && r.sh.allOk == (s.sh.allOk && w.ok)
    ensures ResultOk(r)
  {
    forall c | c in r.done && r.sh.allOk ensures c.ok {
      if c !in s.done {
        assert c in w.batch;
        var i :| 0 <= i < |w.batch| && w.batch[i] == c;
      }
    }
  }

  /** What a step promises: the invariant, and the result of Wait if it ends one. */
  ghost predicate Promise(s: State, r: State, out: Outcome) {
    Inv(r) && (out.Return? ==> (out.ret <==> forall c :: c in s.added ==> c.ok))
  }

  lemma WakeKeeps(s: State, t: nat, limit: nat)
    requires Inv(s) && Enabled(s, Wake(t)) && Inside(s)
    ensures var (r, out) := Step(s, Wake(t), limit); Promise(s, r, out)
  {
    hide Inv, Section;
    SumAtLeast(Idle, s.threads, t);
    WakeLeaves(s, t);
    hide Sum;
    var l := s.(sh := s.sh.(nIdle := s.sh.nIdle - 1, nTotal := s.sh.nTotal - 1), threads := s.threads[t := Outside]);
    SectionKeeps(l, t, limit);
    SectionOverwrites(s, l, s.sh.(nIdle := s.sh.nIdle - 1), t, limit);
  }

  lemma FinishKeeps(s: State, t: nat, limit: nat)
    requires Inv(s) && Enabled(s, Finish(t)) && Inside(s)
    ensures var (r, out) := Step(s, Finish(t), limit); Promise(s, r, out)
  {
    hide Inv, Section, Sum;
    FinishLeaves(s, t);
    var w := s.threads[t];
    var sh := CleanUp(s.sh, |w.batch|, w.ok);
    var s' := s.(threads := Signal(s.threads, sh.nTodo, t), done := s.done + multiset(w.batch));
    var l := s'.(sh := sh.(nTotal := sh.nTotal - 1), threads := s'.threads[t := Outside]);
    SectionKeeps(l, t, limit);
    SectionOverwrites(s', l, sh, t, limit);
  }

  lemma EnterKeeps(s: State, t: nat, limit: nat)
    requires Inv(s) && Enabled(s, Enter(t)) && Inside(s)
    ensures var (r, out) := Step(s, Enter(t), limit); Promise(s, r, out)
  {
    hide Inv, Section, Sum;
    SectionKeeps(s, t, limit);
  }

  /**
   Every step keeps the invariant, and Wait returns true exactly when every job added since the last Wait succeeds.
   */
  lemma StepKeeps(s: State, a: Act, limit: nat)
    requires Inv(s) && Enabled(s, a)
    ensures var (r, out) := Step(s, a, limit); Promise(s, r, out)
  {
    match a
    case Add(checks, who) => AddKeeps(s, checks, who);
    case Enter(t) => EnterKeeps(s, t, limit);
    case Exec(t) => ExecKeeps(s, t);
    case Wake(t) => WakeKeeps(s, t, limit);
    case Finish(t) => FinishKeeps(s, t, limit);
  }

  /** The section overwrites the thread that runs it, so where that was before does not matter. */
  lemma SectionOverwrites(s: State, l: State, sh: Shared, t: nat, limit: nat)
    requires t < |s.threads| && sh.nTotal + sh.nIdle + 1 > 0
    requires l == s.(sh := l.sh, threads := s.threads[t := Outside])
    ensures Section(s, sh, t, limit) == Section(l, sh, t, limit)
  {
    var (sh', out) := Tail(sh, t == 0, limit);
    assert s.threads[t := Outside][t := After(out, sh'.allOk)] == s.threads[t := After(out, sh'.allOk)];
  }

  // ---------------------------------------------------------------- runs

  ghost predicate IsRun(s: State, acts: seq<Act>, limit: nat)
    requires Inv(s)
    decreases |acts|
  {
    acts == [] ||
    (Enabled(s, acts[0]) &&
     (StepKeeps(s, acts[0], limit); IsRun(Step(s, acts[0], limit).0, acts[1..], limit)))
  }

  ghost function Final(s: State, acts: seq<Act>, limit: nat): (r: State)
    requires Inv(s) && IsRun(s, acts, limit)
    ensures Inv(r)
    decreases |acts|
  {
    if acts == [] then s else
    StepKeeps(s, acts[0], limit);
    Final(Step(s, acts[0], limit).0, acts[1..], limit)
  }

  /** The results of the Waits of a run, each with the jobs that its Adds since the one before handed over. */
  ghost function Waits(s: State, acts: seq<Act>, limit: nat, since: seq<Check>): (r: seq<(bool, seq<Check>)>)
    requires Inv(s) && IsRun(s, acts, limit)
    decreases |acts|
  {
    if acts == [] then [] else
    StepKeeps(s, acts[0], limit);
    var (s', out) := Step(s, acts[0], limit);
    var since' := if acts[0].Add? then since + acts[0].checks else since;
    if out.Return? then [(out.ret, since')] + Waits(s', acts[1..], limit, [])
    else Waits(s', acts[1..], limit, since')
  }

  lemma StepRecords(s: State, a: Act, limit: nat)
    requires Inv(s) && Enabled(s, a)
    ensures var (r, out) := Step(s, a, limit);
      && (a.Add? ==> !out.Return?)
      && r.added == if out.Return? then [] else if a.Add? then s.added + a.checks else s.added
  {
    hide Tail, Sum;
  }

  /** In every interleaving each Wait answers for exactly the jobs added since the Wait before it. */
  lemma {:induction false} WaitsAnswer(s: State, acts: seq<Act>, limit: nat)
    requires Inv(s) && IsRun(s, acts, limit)
    ensures forall w :: w in Waits(s, acts, limit, s.added) ==> (w.0 <==> forall c :: c in w.1 ==> c.ok)
    decreases |acts|
  {
    if acts != [] {
      StepKeeps(s, acts[0], limit);
      StepRecords(s, acts[0], limit);
      var (s', out) := Step(s, acts[0], limit);
      hide Inv, Step;
      WaitsAnswer(s', acts[1..], limit);
    }
  }

  lemma {:induction false} EveryRunAnswers(n: nat, acts: seq<Act>, limit: nat)
    requires (InitInv(n); IsRun(Init(n), acts, limit))
    ensures (InitInv(n); Inv(Final(Init(n), acts, limit)))
    ensures (InitInv(n); forall w :: w in Waits(Init(n), acts, limit, []) ==> (w.0 <==> forall c :: c in w.1 ==> c.ok))
  {
    InitInv(n);
    WaitsAnswer(Init(n), acts, limit);
  }

  // ---------------------------------------------------------------- waiting ends

  /** A blocked master that has not been notified waits for a worker that still holds an unfinished batch. */
  lemma MasterWaitsForWorker(s: State) returns (t: nat)
    requires Inv(s) && s.threads[0] == Waiting(false)
    ensures 0 < t < |s.threads| && s.threads[t].Working? && s.threads[t].batch != []
  {
    t := SumWitness(Held, s.threads);
  }

  lemma {:induction false} AllIdle(ts: seq<Thread>)
    requires forall t :: 0 <= t < |ts| ==> !ts[t].Working?
    ensures Sum(InLoop, ts) == Sum(Idle, ts)
  {
    if ts != [] {
      AllIdle(ts[1..]);
    }
  }

  /** Between two rounds the queue is idle, so the control object's assertion cannot fail. */
  lemma IdleBetweenRounds(s: State)
    requires Inv(s) && s.threads[0].Outside? && s.added == []
    ensures IsIdle(s.sh)
  {
    assert |multiset(s.added)| == 0;
    assert |multiset(s.sh.queue)| == 0;
    forall t | 0 <= t < |s.threads| ensures !s.threads[t].Working? {
      if s.threads[t].Working? {
        assert ThreadOk(s, s.threads[t]);
        HeldIsAdded(s, t, 0);
      }
    }
    AllIdle(s.threads);
    hide Conserved;
    NothingWorking(s.threads);
  }

  lemma {:induction false} NothingWorking(ts: seq<Thread>)
    requires forall t :: 0 <= t < |ts| ==> !ts[t].Working?
    ensures Sum(Held, ts) == 0
  {
    if ts != [] {
      NothingWorking(ts[1..]);
    }
  }

  /** A step that makes progress: not a spurious wakeup, and no new work. */
  predicate Purposeful(s: State, a: Act) {
    Enabled(s, a) && !a.Add? && (a.Wake? ==> s.threads[a.t].notified)
  }

  /** While the master is in Wait, some thread can always make progress. */
  lemma NoDeadlock(s: State) returns (a: Act)
    requires Inv(s) && !s.threads[0].Outside?
    ensures Purposeful(s, a)
  {
    var t := 0;
    if s.threads[0] == Waiting(false) {
      t := MasterWaitsForWorker(s);
    }
    a := if s.threads[t].Waiting? then Wake(t)
         else if s.threads[t].pos < |s.threads[t].batch| then Exec(t) else Finish(t);
  }

  /** What is left to do: a queued job is worth more than one in a batch, and a notification is worth one step. */
  function Measure(s: State): nat {
    4 * |s.sh.queue| + Sum(Left, s.threads)
  }

  lemma SectionMeasure(s: State, sh: Shared, t: nat, limit: nat)
    requires t < |s.threads| && sh.nTotal + sh.nIdle + 1 > 0 && sh.queue == s.sh.queue && Left(s.threads[t]) >= 1
    requires Left(s.threads[t]) > 1 || !s.threads[t].Working?
    ensures var (r, out) := Section(s, sh, t, limit);
      out.Return? || Measure(r) <= Measure(s) - if sh.queue == [] then Left(s.threads[t]) else 1
  {
    var (sh', out) := Tail(sh, t == 0, limit);
    SumUpdate(Left, s.threads, t, After(out, sh'.allOk));
    if out.Take? {
      BatchFits(sh, limit);
    }
    hide Sum;
  }

  /** Every step that makes progress, short of the return of Wait, leaves less to do. */
  lemma ProgressDecreases(s: State, a: Act, limit: nat)
    requires Inv(s) && Purposeful(s, a)
    ensures var (r, out) := Step(s, a, limit); out.Return? || Measure(r) < Measure(s)
  {
    hide Tail, ThreadOk, Conserved, ResultOk;
    match a
    case Enter(t) => SectionMeasure(s, s.sh.(nTotal := s.sh.nTotal + 1), t, limit);
    case Wake(t) =>
      SumAtLeast(Idle, s.threads, t);
      SectionMeasure(s, s.sh.(nIdle := s.sh.nIdle - 1), t, limit);
    case Exec(t) =>
      var w := s.threads[t];
      SumUpdate(Left, s.threads, t, Working(w.batch, w.pos + 1, if w.ok then w.batch[w.pos].ok else w.ok));
    case Finish(t) => FinishDecreases(s, t, limit);
  }

  lemma FinishDecreases(s: State, t: nat, limit: nat)
    requires Inv(s) && Enabled(s, Finish(t)) && Inside(s)
    ensures var (r, out) := Step(s, Finish(t), limit); out.Return? || Measure(r) < Measure(s)
  {
    hide Inv, Sum, Tail;
    var w := s.threads[t];
    var sh := CleanUp(s.sh, |w.batch|, w.ok);
    var s' := s.(threads := Signal(s.threads, sh.nTodo, t), done := s.done + multiset(w.batch));
    SumUpdate(Left, s.threads, 0, Notified(s.threads[0]));
    FinishTodo(s, t);
    SectionMeasure(s', sh, t, limit);
  }

  /** The last job is not done while another is queued. */
  lemma FinishTodo(s: State, t: nat)
    requires Inv(s) && Enabled(s, Finish(t))
    ensures s.sh.queue != [] ==> s.sh.nTodo - |s.threads[t].batch| > 0
  {
    SumAtLeast(Held, s.threads, t);
  }

  /** A wake-up that nobody asked for leaves no more to do than there was, unless Wait returns by it. */
  lemma SpuriousKeeps(s: State, t: nat, limit: nat)
    requires Inv(s) && Enabled(s, Wake(t)) && !s.threads[t].notified
    ensures var (r, out) := Step(s, Wake(t), limit); out.Return? || Measure(r) <= Measure(s)
  {
    SumAtLeast(Idle, s.threads, t);
    var sh := s.sh.(nIdle := s.sh.nIdle - 1);
    var (sh', out) := Tail(sh, t == 0, limit);
    SumUpdate(Left, s.threads, t, After(out, sh'.allOk));
    if out.Take? {
      BatchFits(sh, limit);
    }
    hide Sum, Inv;
  }

  /**
   A run in which the master hands over no more jobs and its Wait has not returned yet; wake-ups of any kind may occur.
   */
  ghost predicate IsWaiting(s: State, acts: seq<Act>, limit: nat)
    requires Inv(s)
    decreases |acts|
  {
    acts == [] ||
    (Enabled(s, acts[0]) && !acts[0].Add? && !Step(s, acts[0], limit).1.Return? &&
     (StepKeeps(s, acts[0], limit); IsWaiting(Step(s, acts[0], limit).0, acts[1..], limit)))
  }

  /** How many of the steps of such a run are no spurious wake-ups. */
  ghost function Purposes(s: State, acts: seq<Act>, limit: nat): nat
    requires Inv(s) && IsWaiting(s, acts, limit)
    decreases |acts|
  {
    if acts == [] then 0 else
    StepKeeps(s, acts[0], limit);
    (if Purposeful(s, acts[0]) then 1 else 0) + Purposes(Step(s, acts[0], limit).0, acts[1..], limit)
  }

  /**
   However the threads are scheduled and woken, Wait returns after a bounded number of steps that are not spurious.
   */
  lemma {:induction false} WaitTerminates(s: State, acts: seq<Act>, limit: nat)
    requires Inv(s) && IsWaiting(s, acts, limit)
    ensures Purposes(s, acts, limit) <= Measure(s)
    decreases |acts|
  {
    hide Step, Measure;
    if acts != [] {
      StepKeeps(s, acts[0], limit);
      if Purposeful(s, acts[0]) {
        ProgressDecreases(s, acts[0], limit);
      } else {
        SpuriousKeeps(s, acts[0].t, limit);
      }
      hide Inv;
      WaitTerminates(Step(s, acts[0], limit).0, acts[1..], limit);
    }
  }

  // ---------------------------------------------------------------- who is woken

  /** A single notification reaches a waiting worker, if there is one that has not been notified yet. */
  predicate Reaches(ts: seq<Thread>, who: nat) {
    (exists t :: 0 < t < |ts| && ts[t] == Waiting(false)) ==> 0 < who < |ts| && ts[who] == Waiting(false)
  }

  /**
   Handing over one job wakes one waiting worker, if there is any; more jobs wake all of them; none wakes nobody. No
   other thread changes.
   */
  lemma {:induction false} AddNotifies(s: State, checks: seq<Check>, who: nat, limit: nat, t: nat)
    requires Enabled(s, Add(checks, who)) && Inside(s) && Reaches(s.threads, who) && 0 < t < |s.threads|
    ensures var r := Step(s, Add(checks, who), limit).0.threads;
      && |r| == |s.threads| && r[0] == s.threads[0]
      && r[t] == (if s.threads[t] == Waiting(false) && (|checks| > 1 || (|checks| == 1 && t == who))
                  then Waiting(true) else s.threads[t])
      && (|checks| == 1 && s.threads[t] == Waiting(false) ==>
            s.threads[who] == Waiting(false) && r[who] == Waiting(true))
  {
  }
}
