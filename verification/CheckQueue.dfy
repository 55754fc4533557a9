/** The parallel check queue of src/checkqueue.h.

    One master and any number of workers share a queue under one mutex.  Each critical
    section is one atomic step; so is the execution of one check.  A check is represented by
    the boolean its operator() returns.  Thread 0 is the master. */
module CheckQueue {
  import opened Options

  /** Where a thread is in CCheckQueue::Loop. */
  datatype Thread =
    | Outside                                          // not in Loop
    | Waiting(notified: bool)                          // inside cond.wait
    | Working(batch: seq<bool>, done: nat, ok: bool)   // nNow == |batch|, `done` of them executed

  /** A value Wait returned, with the checks added since the Wait before it. */
  datatype Verdict = Verdict(ok: bool, checks: seq<bool>)

  datatype State = State(queue: seq<bool>, nIdle: int, nTotal: int, allOk: bool, nTodo: int, nBatchSize: nat,
                         threads: seq<Thread>, added: seq<bool>, verdicts: seq<Verdict>)

  datatype Step =
    | Add(checks: seq<bool>, woken: nat)   // master, outside Wait; `woken` is whom notify_one picks
    | Enter(i: nat)                        // first critical section of Loop
    | Wake(i: nat)                         // cond.wait returns, notified or spuriously
    | Exec(i: nat)                         // run the next check of the batch, unless a failure was seen
    | Commit(i: nat)                       // critical section after a batch

  // ---------- The steps ----------

  function Min(a: int, b: int): int { if a < b then a else b }

  function Reversed(s: seq<bool>): (r: seq<bool>)
    ensures |r| == |s|
    ensures forall b :: b in r <==> b in s
  {
    if s == [] then [] else Reversed(s[1..]) + [s[0]]
  }

  /** Batches shrink as the queue does, so that all threads finish together; each has between
      one element and the whole queue. */
  function BatchSize(s: State): (n: int)
    ensures s.queue != [] ==> 1 <= n <= |s.queue|
  {
    var share := s.nTotal + s.nIdle + 1;   // positive in every reachable state
    Max(1, Min(s.nBatchSize, if share > 0 then ShareOf(|s.queue|, share) else 0))
  }

  function ShareOf(n: nat, share: int): (q: int)
    requires share > 0
    ensures 0 <= q <= n
  {
    QuotientBound(n / share, share);
    n / share
  }

  lemma {:induction false} QuotientBound(q: int, d: int)
    requires d > 0
    ensures q >= 0 ==> q <= q * d
    ensures q < 0 ==> q * d <= q
  {
    if q >= 0 { assert q * (d - 1) >= 0; } else { assert (-q) * (d - 1) >= 0; }
  }

  /** The rest of a critical section, from `while (queue.empty())` on: return, wait or take
      a batch from the back of the queue. */
  function Decide(s: State, i: nat): State
    requires i < |s.threads|
  {
    if s.queue == [] then
      if i == 0 && s.nTodo == 0 then
        s.(nTotal := s.nTotal - 1, allOk := true, threads := s.threads[0 := Outside],
           verdicts := s.verdicts + [Verdict(s.allOk, s.added)], added := [])
      else
        s.(nIdle := s.nIdle + 1, threads := s.threads[i := Waiting(false)])
    else
      var rest := |s.queue| - BatchSize(s);
      s.(queue := s.queue[..rest], threads := s.threads[i := Working(Reversed(s.queue[rest..]), 0, s.allOk)])
  }

  function Notify(t: Thread): Thread {
    if t.Waiting? then Waiting(true) else t
  }

  /** condWorker.notify_one or notify_all; the master does not wait on condWorker. */
  function NotifyWorkers(ts: seq<Thread>, added: nat, woken: nat): (r: seq<Thread>)
    ensures |r| == |ts|
  {
    seq(|ts|, k requires 0 <= k < |ts| => if 0 < k && (added > 1 || (added == 1 && k == woken)) then Notify(ts[k]) else ts[k])
  }

  /** The clean-up after a batch; the last one notifies the master. */
  function Cleanup(s: State, i: nat): State
    requires i < |s.threads| && s.threads[i].Working?
  {
    var t := s.threads[i];
    var nTodo := s.nTodo - |t.batch|;
    s.(allOk := s.allOk && t.ok, nTodo := nTodo,
       threads := if nTodo == 0 && i != 0 then s.threads[0 := Notify(s.threads[0])] else s.threads)
  }

  /** A worker that sleeps on condWorker; one that was notified no longer does. */
  ghost predicate Asleep(ts: seq<Thread>, k: int) {
    0 < k < |ts| && ts[k] == Waiting(false)
  }

  /** notify_one picks a sleeper if there is one. */
  ghost predicate Picks(ts: seq<Thread>, woken: nat) {
    (exists k :: Asleep(ts, k)) ==> Asleep(ts, woken)
  }

  /** What a step needs to be taken: the master adds only outside Wait. */
  ghost predicate Enabled(s: State, step: Step) {
    match step
    case Add(checks, woken) => |s.threads| > 0 && s.threads[0].Outside? && (|checks| == 1 ==> Picks(s.threads, woken))
    case Enter(i) => i < |s.threads| && s.threads[i].Outside?
    case Wake(i) => i < |s.threads| && s.threads[i].Waiting?
    case Exec(i) => i < |s.threads| && s.threads[i].Working? && s.threads[i].done < |s.threads[i].batch|
    case Commit(i) => i < |s.threads| && s.threads[i].Working? && s.threads[i].done == |s.threads[i].batch|
  }

  function Next(s: State, step: Step): State
    requires Enabled(s, step)
  {
    match step
    case Add(checks, woken) =>
      s.(queue := s.queue + checks, nTodo := s.nTodo + |checks|, added := s.added + checks,
         threads := NotifyWorkers(s.threads, |checks|, woken))
    case Enter(i) => Decide(s.(nTotal := s.nTotal + 1), i)
    case Wake(i) => Decide(s.(nIdle := s.nIdle - 1), i)
    case Exec(i) =>
      var t := s.threads[i];
      s.(threads := s.threads[i := Working(t.batch, t.done + 1, t.ok && t.batch[t.done])])
    case Commit(i) => Decide(Cleanup(s, i), i)
  }

  /** A queue before anything was added; no thread is in Loop yet. */
  function Init(threads: nat, nBatchSize: nat): State {
    State([], 0, 0, true, 0, nBatchSize, seq(threads + 1, _ => Outside), [], [])
  }

  predicate IsIdle(s: State) { s.nTotal == s.nIdle && s.nTodo == 0 && s.allOk }

  // ---------- What a batch is and whom an Add wakes ----------

  /** A batch is as large as three bounds allow, but never empty: the batch size, the queue's
      length and an equal share of the queue for each thread in Loop, idle ones counted twice. */
  lemma {:induction false} BatchIsLargest(s: State)
    requires s.queue != [] && s.nTotal >= 0 && s.nIdle >= 0
    ensures var n, share := BatchSize(s), s.nTotal + s.nIdle + 1;
      && n >= 1
      && (n > 1 ==> n <= s.nBatchSize && n * share <= |s.queue|)
      && (n >= s.nBatchSize || (n + 1) * share > |s.queue|)
  {
    var n, share := BatchSize(s), s.nTotal + s.nIdle + 1;
    var q := ShareOf(|s.queue|, share);
    ShareBounds(|s.queue|, share);
    hide ShareOf;
    assert n == Max(1, Min(s.nBatchSize, q));
    TimesMonotone(n, q, share);
    TimesMonotone(q + 1, n + 1, share);
  }

  lemma {:induction false} ShareBounds(n: nat, share: int)
    requires share > 0
    ensures var q := ShareOf(n, share); q * share <= n < (q + 1) * share
  {
  }

  lemma {:induction false} TimesMonotone(a: int, b: int, c: int)
    requires c >= 0
    ensures a <= b ==> a * c <= b * c
  {
    if a <= b { assert (b - a) * c >= 0; }
  }

  lemma {:induction false} ReversedAt(s: seq<bool>, k: nat)
    requires k < |s|
    ensures Reversed(s)[k] == s[|s| - 1 - k]
  {
    if k < |s| - 1 { ReversedAt(s[1..], k); }
  }

  /** The batch is the end of the queue, last check first, and nothing of it stays behind. */
  lemma {:induction false} BatchIsBackOfQueue(s: State, i: nat)
    requires i < |s.threads| && s.queue != []
    ensures var d := Decide(s, i);
      && d.threads[i].Working? && d.threads[i].done == 0 && d.threads[i].ok == s.allOk
      && |d.queue| + |d.threads[i].batch| == |s.queue| && d.queue <= s.queue
      && (forall k | 0 <= k < |d.threads[i].batch| :: d.threads[i].batch[k] == s.queue[|s.queue| - 1 - k])
      && (forall j | 0 <= j < |s.threads| && j != i :: d.threads[j] == s.threads[j])
  {
    var rest := |s.queue| - BatchSize(s);
    var tail := s.queue[rest..];
    forall k | 0 <= k < |tail| ensures Reversed(tail)[k] == s.queue[|s.queue| - 1 - k] {
      ReversedAt(tail, k);
    }
  }

  /** Two or more new checks leave no worker asleep, one wakes a single sleeper, none wakes
      nobody; and no Add touches a thread that was not asleep, or the master. */
  lemma {:induction false} AddWakes(s: State, checks: seq<bool>, woken: nat, k: nat)
    requires Enabled(s, Add(checks, woken)) && k < |s.threads|
    ensures var t := Next(s, Add(checks, woken)).threads[k];
      if Asleep(s.threads, k) && (|checks| >= 2 || (|checks| == 1 && k == woken)) then t == Waiting(true)
      else t == s.threads[k]
    ensures |checks| == 1 && Asleep(s.threads, k) ==> Asleep(s.threads, woken)
  {
  }

  // ---------- Sums over the threads ----------

  function Sum(ts: seq<Thread>, f: Thread -> nat): nat {
    if ts == [] then 0 else f(ts[0]) + Sum(ts[1..], f)
  }

  function Held(t: Thread): nat { if t.Working? then |t.batch| else 0 }
  function IsWaiting(t: Thread): nat { if t.Waiting? then 1 else 0 }
  function InLoop(t: Thread): nat { if t.Outside? then 0 else 1 }

  lemma {:induction false} SumUpdate(ts: seq<Thread>, f: Thread -> nat, i: nat, t: Thread)
    requires i < |ts|
    ensures Sum(ts[i := t], f) == Sum(ts, f) - f(ts[i]) + f(t)
  {
    if i == 0 {
      assert ts[0 := t][1..] == ts[1..];
    } else {
      assert ts[i := t][1..] == ts[1..][i - 1 := t];
      SumUpdate(ts[1..], f, i - 1, t);
    }
  }

  lemma {:induction false} SumSame(ts: seq<Thread>, us: seq<Thread>, f: Thread -> nat)
    requires |ts| == |us| && forall k | 0 <= k < |ts| :: f(ts[k]) == f(us[k])
    ensures Sum(ts, f) == Sum(us, f)
  {
    if ts != [] { SumSame(ts[1..], us[1..], f); }
  }

  lemma {:induction false} SumAtLeast(ts: seq<Thread>, f: Thread -> nat, i: nat)
    requires i < |ts|
    ensures f(ts[i]) <= Sum(ts, f)
  {
    if i > 0 { SumAtLeast(ts[1..], f, i - 1); }
  }

  lemma {:induction false} SumZero(ts: seq<Thread>, f: Thread -> nat)
    requires forall k | 0 <= k < |ts| :: f(ts[k]) == 0
    ensures Sum(ts, f) == 0
  {
    if ts != [] { SumZero(ts[1..], f); }
  }

  // ---------- The invariant ----------

  /** A failed check was seen by this thread or is still ahead of it in its batch. */
  ghost predicate Tainted(t: Thread) {
    t.Working? && (!t.ok || (t.done <= |t.batch| && false in t.batch[t.done..]))
  }

  ghost predicate AnyTainted(ts: seq<Thread>) {
    exists k :: 0 <= k < |ts| && Tainted(ts[k])
  }

  ghost predicate OtherTainted(ts: seq<Thread>, i: nat) {
    exists k :: 0 <= k < |ts| && k != i && Tainted(ts[k])
  }

  /** Some failure is on record, in the queue or in a batch. */
  ghost predicate Suspect(s: State) {
    !s.allOk || false in s.queue || AnyTainted(s.threads)
  }

  ghost predicate ThreadOk(t: Thread) {
    t.Working? ==> |t.batch| >= 1 && t.done <= |t.batch|
  }

  ghost predicate Inv(s: State) {
    && |s.threads| > 0
    && (forall k | 0 <= k < |s.threads| :: ThreadOk(s.threads[k]))
    && s.nTodo == |s.queue| + Sum(s.threads, Held)
    && s.nTodo <= |s.added|
    && s.nIdle == Sum(s.threads, IsWaiting)
    && s.nTotal == Sum(s.threads, InLoop)
    && (false in s.added <==> Suspect(s))
    && (s.threads[0].Waiting? ==> s.queue == [])
    && (s.threads[0] == Waiting(false) ==> s.nTodo > 0)
    && (forall v | v in s.verdicts :: v.ok <==> false !in v.checks)
  }

  lemma {:induction false} InitInv(threads: nat, nBatchSize: nat)
    ensures Inv(Init(threads, nBatchSize))
  {
    var s := Init(threads, nBatchSize);
    SumZero(s.threads, Held);
    SumZero(s.threads, IsWaiting);
    SumZero(s.threads, InLoop);
  }

  lemma {:induction false} TaintUpdate(ts: seq<Thread>, i: nat, t: Thread)
    requires i < |ts|
    ensures AnyTainted(ts[i := t]) <==> Tainted(t) || OtherTainted(ts, i)
    ensures AnyTainted(ts) <==> Tainted(ts[i]) || OtherTainted(ts, i)
  {
    var us := ts[i := t];
    if Tainted(t) { assert Tainted(us[i]); }
    if k :| 0 <= k < |ts| && k != i && Tainted(ts[k]) { assert Tainted(us[k]); }
  }

  /** A thread in the middle of its critical section: it holds nothing and everything it saw
      is recorded in the shared state. */
  ghost predicate Deciding(s: State, i: nat) {
    && i < |s.threads|
    && (forall k | 0 <= k < |s.threads| && k != i :: ThreadOk(s.threads[k]))
    && s.nTodo == |s.queue| + Sum(s.threads[i := Outside], Held)
    && s.nTodo <= |s.added|
    && s.nIdle == Sum(s.threads[i := Outside], IsWaiting)
    && s.nTotal == Sum(s.threads[i := Outside], InLoop) + 1
    && (false in s.added <==> Suspect(s.(threads := s.threads[i := Outside])))
    && (i != 0 && s.threads[0].Waiting? ==> s.queue == [])
    && (i != 0 && s.threads[0] == Waiting(false) ==> s.nTodo > 0)
    && (forall v | v in s.verdicts :: v.ok <==> false !in v.checks)
  }

  lemma {:induction false} DecideReturns(s: State)
    requires Deciding(s, 0) && s.queue == [] && s.nTodo == 0
    ensures Inv(Decide(s, 0))
    ensures s.allOk <==> false !in s.added
  {
    var ts := s.threads[0 := Outside];
    forall k | 0 <= k < |ts| ensures !Tainted(ts[k]) && ThreadOk(ts[k]) {
      SumAtLeast(ts, Held, k);
    }
    assert Decide(s, 0).threads == ts;
  }

  lemma {:induction false} DecideWaits(s: State, i: nat)
    requires Deciding(s, i) && s.queue == [] && !(i == 0 && s.nTodo == 0)
    ensures Inv(Decide(s, i))
  {
    var ts := s.threads[i := Outside];
    var d := Decide(s, i);
    assert d.threads == ts[i := Waiting(false)];
    SumUpdate(ts, Held, i, Waiting(false));
    SumUpdate(ts, IsWaiting, i, Waiting(false));
    SumUpdate(ts, InLoop, i, Waiting(false));
    TaintUpdate(s.threads, i, Waiting(false));
    TaintUpdate(s.threads, i, Outside);
  }

  lemma {:induction false} DecideTakes(s: State, i: nat)
    requires Deciding(s, i) && s.queue != []
    ensures Inv(Decide(s, i))
  {
    var ts := s.threads[i := Outside];
    var d := Decide(s, i);
    var rest := |s.queue| - BatchSize(s);
    var t := d.threads[i];
    assert s.queue == s.queue[..rest] + s.queue[rest..];
    assert t.batch[t.done..] == t.batch;
    assert d.threads == ts[i := t];
    SumUpdate(ts, Held, i, t);
    SumUpdate(ts, IsWaiting, i, t);
    SumUpdate(ts, InLoop, i, t);
    TaintUpdate(s.threads, i, t);
    TaintUpdate(s.threads, i, Outside);
  }

  lemma {:induction false} DecideInv(s: State, i: nat)
    requires Deciding(s, i)
    ensures Inv(Decide(s, i))
  {
    if s.queue != [] {
      DecideTakes(s, i);
    } else if i == 0 && s.nTodo == 0 {
      DecideReturns(s);
    } else {
      DecideWaits(s, i);
    }
  }

  lemma {:induction false} EnterInv(s: State, i: nat)
    requires Inv(s) && Enabled(s, Enter(i))
    ensures Deciding(s.(nTotal := s.nTotal + 1), i)
  {
    assert s.threads[i := Outside] == s.threads;
  }

  lemma {:induction false} WakeInv(s: State, i: nat)
    requires Inv(s) && Enabled(s, Wake(i))
    ensures Deciding(s.(nIdle := s.nIdle - 1), i)
  {
    SumUpdate(s.threads, Held, i, Outside);
    SumUpdate(s.threads, IsWaiting, i, Outside);
    SumUpdate(s.threads, InLoop, i, Outside);
    TaintUpdate(s.threads, i, Outside);
  }

  lemma {:induction false} CommitInv(s: State, i: nat)
    requires Inv(s) && Enabled(s, Commit(i))
    ensures Deciding(Cleanup(s, i), i)
  {
    hide Sum, Tainted;
    var c := Cleanup(s, i);
    var ts := s.threads[i := Outside];
    SumUpdate(s.threads, Held, i, Outside);
    SumUpdate(s.threads, IsWaiting, i, Outside);
    SumUpdate(s.threads, InLoop, i, Outside);
    SumSame(c.threads[i := Outside], ts, Held);
    SumSame(c.threads[i := Outside], ts, IsWaiting);
    SumSame(c.threads[i := Outside], ts, InLoop);
    TaintUpdate(s.threads, i, Outside);
    CommittedTaint(s.threads[i]);
    NotifiedTaint(ts[0]);
    TaintSame(c.threads[i := Outside], ts);
  }

  /** What a thread saw is all there is to say about a finished batch. */
  lemma {:induction false} CommittedTaint(t: Thread)
    requires t.Working? && t.done == |t.batch|
    ensures Tainted(t) <==> !t.ok
    ensures !Tainted(Outside)
  {
  }

  lemma {:induction false} NotifiedTaint(t: Thread)
    ensures Tainted(Notify(t)) <==> Tainted(t)
  {
  }

  lemma {:induction false} TaintSame(ts: seq<Thread>, us: seq<Thread>)
    requires |ts| == |us| && forall k | 0 <= k < |ts| :: Tainted(ts[k]) <==> Tainted(us[k])
    ensures AnyTainted(ts) <==> AnyTainted(us)
  {
    hide Tainted;
    if k :| 0 <= k < |us| && Tainted(us[k]) { assert Tainted(ts[k]); }
  }

  lemma {:induction false} ExecInv(s: State, i: nat)
    requires Inv(s) && Enabled(s, Exec(i))
    ensures Inv(Next(s, Exec(i)))
  {
    var t := s.threads[i];
    var t' := Next(s, Exec(i)).threads[i];
    SumUpdate(s.threads, Held, i, t');
    SumUpdate(s.threads, IsWaiting, i, t');
    SumUpdate(s.threads, InLoop, i, t');
    assert t.batch[t.done..] == [t.batch[t.done]] + t.batch[t.done + 1..];
    TaintUpdate(s.threads, i, t');
  }

  lemma {:induction false} AddInv(s: State, step: Step)
    requires Inv(s) && step.Add? && Enabled(s, step)
    ensures Inv(Next(s, step))
  {
    var s' := Next(s, step);
    SumSame(s.threads, s'.threads, Held);
    SumSame(s.threads, s'.threads, IsWaiting);
    SumSame(s.threads, s'.threads, InLoop);
    assert forall k | 0 <= k < |s.threads| :: Tainted(s'.threads[k]) <==> Tainted(s.threads[k]);
  }

  lemma {:induction false} NextInv(s: State, step: Step)
    requires Inv(s) && Enabled(s, step)
    ensures Inv(Next(s, step))
  {
    hide Inv, Deciding, Decide, Cleanup;
    match step {
      case Add(_, _) => AddInv(s, step);
      case Exec(i) => ExecInv(s, i);
      case Enter(i) =>
        EnterInv(s, i);
        DecideInv(s.(nTotal := s.nTotal + 1), i);
      case Wake(i) =>
        WakeInv(s, i);
        DecideInv(s.(nIdle := s.nIdle - 1), i);
      case Commit(i) =>
        CommitInv(s, i);
        DecideInv(Cleanup(s, i), i);
    }
  }

  // ---------- Every run ----------

  ghost predicate IsRun(run: seq<State>, steps: seq<Step>) {
    && |run| == |steps| + 1
    && forall k | 0 <= k < |steps| :: Enabled(run[k], steps[k]) && run[k + 1] == Next(run[k], steps[k])
  }

  lemma {:induction false} RunInv(run: seq<State>, steps: seq<Step>, k: nat)
    requires IsRun(run, steps) && Inv(run[0]) && k < |run|
    ensures Inv(run[k])
  {
    if k > 0 {
      RunInv(run, steps, k - 1);
      NextInv(run[k - 1], steps[k - 1]);
    }
  }

  /** After a Wait and before the next Add the queue is idle, whatever the workers do. */
  lemma {:induction false} IdleBetweenWaits(s: State)
    requires Inv(s) && s.threads[0].Outside? && s.added == []
    ensures IsIdle(s)
  {
    forall k | 0 <= k < |s.threads| ensures !s.threads[k].Working? {
      SumAtLeast(s.threads, Held, k);
    }
    IdleMeans(s);
  }

  lemma {:induction false} SameSums(ts: seq<Thread>)
    requires forall k | 0 <= k < |ts| :: IsWaiting(ts[k]) == InLoop(ts[k])
    ensures Sum(ts, IsWaiting) == Sum(ts, InLoop)
  {
    if ts != [] { SameSums(ts[1..]); }
  }

  /** Idle means just this: nothing queued, nobody working and no failure on record. */
  lemma {:induction false} IdleMeans(s: State)
    requires Inv(s)
    ensures IsIdle(s) <==> s.queue == [] && s.allOk && forall k | 0 <= k < |s.threads| :: !s.threads[k].Working?
  {
    if IsIdle(s) {
      forall k | 0 <= k < |s.threads| ensures !s.threads[k].Working? {
        SumAtLeast(s.threads, Held, k);
      }
    } else if forall k | 0 <= k < |s.threads| :: !s.threads[k].Working? {
      SumZero(s.threads, Held);
      SameSums(s.threads);
    }
  }

  /** No wake-up is lost: while an un-notified master waits, some worker holds a batch. */
  lemma {:induction false} WaitingMasterHasWorker(s: State)
    requires Inv(s) && s.threads[0] == Waiting(false)
    ensures exists k :: 0 < k < |s.threads| && s.threads[k].Working?
  {
    if forall k | 0 <= k < |s.threads| :: Held(s.threads[k]) == 0 {
      SumZero(s.threads, Held);
    } else {
      var k :| 0 <= k < |s.threads| && Held(s.threads[k]) != 0;
      assert 0 < k && s.threads[k].Working?;
    }
  }

  /** Bound to look at the queue again without being notified. */
  ghost predicate Stirs(t: Thread) { t.Working? || (t.Waiting? && t.notified) }

  /** No work is left to sleepers alone: if checks are queued and a worker sleeps, some thread
      is on its way to the queue. */
  ghost predicate SomeoneStirs(s: State) {
    s.queue != [] && (exists k :: Asleep(s.threads, k)) ==> exists j :: 0 <= j < |s.threads| && Stirs(s.threads[j])
  }

  lemma {:induction false} DecideStirs(s: State, i: nat)
    requires i < |s.threads|
    ensures SomeoneStirs(Decide(s, i))
  {
    hide BatchSize, Reversed;
    var d := Decide(s, i);
    if s.queue != [] { assert Stirs(d.threads[i]); }
  }

  lemma {:induction false} NextStirs(s: State, step: Step)
    requires SomeoneStirs(s) && Enabled(s, step)
    ensures SomeoneStirs(Next(s, step))
  {
    hide BatchSize, Decide;
    var d := Next(s, step);
    match step {
      case Enter(i) => DecideStirs(s.(nTotal := s.nTotal + 1), i);
      case Wake(i) => DecideStirs(s.(nIdle := s.nIdle - 1), i);
      case Commit(i) => DecideStirs(Cleanup(s, i), i);
      case Exec(i) => assert Stirs(d.threads[i]);
      case Add(checks, woken) => AddStirs(s, checks, woken);
    }
  }

  lemma {:induction false} AddStirs(s: State, checks: seq<bool>, woken: nat)
    requires SomeoneStirs(s) && Enabled(s, Add(checks, woken))
    ensures SomeoneStirs(Next(s, Add(checks, woken)))
  {
    var d := Next(s, Add(checks, woken));
    if k :| Asleep(d.threads, k) {
      AddWakes(s, checks, woken, k);
      assert Asleep(s.threads, k);
      if |checks| == 1 {
        AddWakes(s, checks, woken, woken);
        assert Stirs(d.threads[woken]);
      } else if s.queue != [] {
        var j :| 0 <= j < |s.threads| && Stirs(s.threads[j]);
        AddWakes(s, checks, woken, j);
        assert Stirs(d.threads[j]);
      }
    }
  }

  /** In every run no notification of a worker is lost either. */
  lemma {:induction false} EveryRunStirs(run: seq<State>, steps: seq<Step>, k: nat)
    requires IsRun(run, steps) && k < |run|
    requires exists n: nat, b: nat :: run[0] == Init(n, b)
    ensures SomeoneStirs(run[k])
  {
    if k > 0 {
      EveryRunStirs(run, steps, k - 1);
      NextStirs(run[k - 1], steps[k - 1]);
    }
  }

  /** In every interleaving from a new queue: each Wait returned true exactly when every check
      added since the previous Wait evaluates to true; nTodo counts what is queued or held;
      the next controller finds the queue idle; no wake-up of the master is lost. */
  lemma {:induction false} EveryRun(run: seq<State>, steps: seq<Step>, k: nat)
    requires IsRun(run, steps) && k < |run|
    requires exists n: nat, b: nat :: run[0] == Init(n, b)
    ensures forall v | v in run[k].verdicts :: v.ok <==> forall c | c in v.checks :: c
    ensures run[k].nTodo == |run[k].queue| + Sum(run[k].threads, Held)
    ensures |run[k].threads| > 0
    ensures run[k].threads[0].Outside? && run[k].added == [] ==> IsIdle(run[k])
    ensures run[k].threads[0] == Waiting(false) ==> exists j :: 0 < j < |run[k].threads| && run[k].threads[j].Working?
  {
    var n: nat, b: nat :| run[0] == Init(n, b);
    InitInv(n, b);
    RunInv(run, steps, k);
    forall v | v in run[k].verdicts ensures v.ok <==> forall c | c in v.checks :: c {
      if c :| c in v.checks && !c { assert c == false; }
    }
    if run[k].threads[0].Outside? && run[k].added == [] { IdleBetweenWaits(run[k]); }
    if run[k].threads[0] == Waiting(false) { WaitingMasterHasWorker(run[k]); }
  }

  /** The worker that commits the last batch notifies the master. */
  lemma {:induction false} LastCommitNotifies(s: State, i: nat)
    requires Inv(s) && Enabled(s, Commit(i)) && s.threads[0].Waiting? && s.nTodo == |s.threads[i].batch|
    ensures Next(s, Commit(i)).threads[0] == Waiting(true)
  {
  }

  // ---------- Wait terminates ----------

  /** Not a spurious wake-up and not an Add. */
  ghost predicate Proper(s: State, step: Step) {
    && Enabled(s, step) && !step.Add?
    && (step.Wake? ==> s.threads[step.i].notified)
  }

  /** A step that some thread is bound to take, so Wait cannot get stuck. */
  lemma {:induction false} WaitNeverStuck(s: State)
    requires Inv(s) && !s.threads[0].Outside?
    ensures exists step :: Proper(s, step) && !step.Enter?
  {
    var m := s.threads[0];
    if m == Waiting(true) {
      assert Proper(s, Wake(0));
    } else {
      var k := 0;
      if m == Waiting(false) {
        WaitingMasterHasWorker(s);
        k :| 0 < k < |s.threads| && s.threads[k].Working?;
      }
      assert ThreadOk(s.threads[k]);
      assert Proper(s, if s.threads[k].done < |s.threads[k].batch| then Exec(k) else Commit(k));
    }
  }

  function Effort(t: Thread): nat {
    match t
    case Outside => 2
    case Waiting(notified) => if notified then 1 else 0
    case Working(batch, done, _) => 3 + Max(0, |batch| - done)
  }

  /** Work left until Wait returns. */
  function Rank(s: State): nat {
    5 * |s.queue| + Sum(s.threads, Effort)
  }

  lemma {:induction false} DecideRank(s: State, i: nat, t: Thread)
    requires i < |s.threads|
    requires Effort(t) > 0 && Rank(s.(threads := s.threads[i := t])) <= Rank(s)
    requires !(i == 0 && s.nTodo == 0 && s.queue == [])
    ensures Rank(Decide(s, i)) < Rank(s.(threads := s.threads[i := t]))
  {
    var ts := s.threads[i := t];
    var d := Decide(s, i);
    assert d.threads == ts[i := d.threads[i]];
    SumUpdate(ts, Effort, i, d.threads[i]);
  }

  /** While the master stays in Wait, every proper step brings the return nearer. */
  lemma {:induction false} RankDecreases(s: State, step: Step)
    requires Inv(s) && Proper(s, step) && !s.threads[0].Outside?
    ensures Next(s, step).threads[0].Outside? || Rank(Next(s, step)) < Rank(s)
  {
    hide Sum, Suspect;
    var i := step.i;
    var t := s.threads[i];
    assert s.threads[i := t] == s.threads;
    match step {
      case Exec(_) => SumUpdate(s.threads, Effort, i, Next(s, step).threads[i]);
      case Enter(_) =>
        DecideRank(s.(nTotal := s.nTotal + 1), i, t);
      case Wake(_) =>
        var q := s.(nIdle := s.nIdle - 1);
        if !(i == 0 && q.nTodo == 0 && q.queue == []) { DecideRank(q, i, t); }
      case Commit(_) => CommitRank(s, i);
    }
  }

  lemma {:induction false} CommitRank(s: State, i: nat)
    requires Inv(s) && Enabled(s, Commit(i)) && !s.threads[0].Outside?
    ensures Next(s, Commit(i)).threads[0].Outside? || Rank(Next(s, Commit(i))) < Rank(s)
  {
    var c := Cleanup(s, i);
    CommitInv(s, i);
    var d := Decide(c, i);
    if !d.threads[0].Outside? {
      SumUpdate(s.threads, Effort, 0, Notify(s.threads[0]));
      SumUpdate(c.threads, Effort, i, d.threads[i]);
    }
  }

  /** Without spurious wake-ups, a Wait that starts in state run[0] is over after at most
      Rank(run[0]) steps of all threads together, in whatever order they are taken. */
  lemma {:induction false} WaitTerminates(run: seq<State>, steps: seq<Step>)
    requires IsRun(run, steps) && Inv(run[0])
    requires forall k | 0 <= k < |steps| :: Proper(run[k], steps[k])
    requires forall k | 0 <= k < |run| :: |run[k].threads| > 0 && !run[k].threads[0].Outside?
    ensures |steps| + Rank(run[|steps|]) <= Rank(run[0])
  {
    if steps != [] {
      var n := |steps| - 1;
      WaitTerminates(run[..n + 1], steps[..n]);
      RunInv(run, steps, n);
      RankDecreases(run[n], steps[n]);
    }
  }
}
