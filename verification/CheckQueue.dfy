/**
 The parallel check queue (CCheckQueue, src/checkqueue.h).

 One master and any number of workers share a mutex-protected queue. Every critical section, every
 check run outside the mutex and every notification sent outside it is one atomic step, so a run is
 any interleaving of these steps. Waiting threads may also wake without having been notified.
 */
module CheckQueues {
  import opened Options
  import opened Numbers

  /** What a verification reports when it fails. */
  type Failure = int

  /** A verification; running it yields outcome. */
  datatype Check = Check(id: nat, outcome: Option<Failure>)

  /** What a thread does while it does not hold the mutex. */
  datatype Thread =
    | Away                                              // the master, outside Complete
    | Notifying(count: nat)                             // the master in Add, about to notify
    | Top(finished: seq<Check>, local: Option<Failure>)    // about to enter Loop's critical section; nNow == |finished|
    | Working(batch: seq<Check>, next: nat, doWork: bool, local: Option<Failure>)
    | Sleeping(notified: bool, local: Option<Failure>)

  datatype Round = Round(checks: seq<Check>, result: Option<Failure>)

  /** Thread 0 is the master. `round` holds the checks added since Complete last returned. */
  datatype State = State(
    queue: seq<Check>, nIdle: int, nTotal: int, result: Option<Failure>, nTodo: int, batchSize: nat,
    threads: seq<Thread>, round: seq<Check>, returned: seq<Round>)

  const MASTER: nat := 0

  // ---------------------------------------------------------------- steps

  /** How many of the queued checks to take. */
  function BatchLength(s: State): int
    requires s.nTotal + s.nIdle + 1 > 0
  {
    Max(1, Min(s.batchSize, |s.queue| / (s.nTotal + s.nIdle + 1)))
  }

  ghost predicate CanTake(s: State) {
    s.nTotal + s.nIdle + 1 > 0 && BatchLength(s) <= |s.queue|
  }

  /** The rest of the critical section, from the test of the inner while loop. */
  function Proceed(s: State, i: nat, local: Option<Failure>): State
    requires i < |s.threads| && (s.queue != [] ==> CanTake(s))
  {
    if s.queue == [] then
      if i == MASTER && s.nTodo == 0 then
        s.(nTotal := s.nTotal - 1, result := None, threads := s.threads[i := Away], round := [],
           returned := s.returned + [Round(s.round, s.result)])
      else
        s.(nIdle := s.nIdle + 1, threads := s.threads[i := Sleeping(false, local)])
    else
      var left := |s.queue| - BatchLength(s);
      s.(queue := s.queue[..left], threads := s.threads[i := Working(s.queue[left..], 0, s.result.None?, local)])
  }

  function NotifyThread(ts: seq<Thread>, i: nat): seq<Thread>
    requires i < |ts|
  {
    if ts[i].Sleeping? then ts[i := Sleeping(true, ts[i].local)] else ts
  }

  /** Clean up after the previous batch, or join the pool. */
  function CleanUp(s: State, i: nat): State
    requires i < |s.threads| && s.threads[i].Top?
  {
    var t := s.threads[i];
    if t.finished == [] then s.(nTotal := s.nTotal + 1)
    else
      var s1 := if t.local.Some? && s.result.None? then s.(result := t.local, threads := s.threads[i := Top(t.finished, s.result)]) else s;
      var s2 := s1.(nTodo := s1.nTodo - |t.finished|);
      if s2.nTodo == 0 && i != MASTER then s2.(threads := NotifyThread(s2.threads, MASTER)) else s2
  }

  function Enter(s: State, i: nat): State
    requires i < |s.threads| && s.threads[i].Top? && (s.queue != [] ==> CanTake(CleanUp(s, i)))
  {
    Proceed(CleanUp(s, i), i, CleanUp(s, i).threads[i].local)
  }

  function Wake(s: State, i: nat): State
    requires i < |s.threads| && s.threads[i].Sleeping? && (s.queue != [] ==> CanTake(s.(nIdle := s.nIdle - 1)))
  {
    Proceed(s.(nIdle := s.nIdle - 1), i, s.threads[i].local)
  }

  /** Run the next check of the batch, or finish the batch. */
  function Run(s: State, i: nat): State
    requires i < |s.threads| && s.threads[i].Working?
  {
    var t := s.threads[i];
    if !t.doWork || t.next >= |t.batch| then s.(threads := s.threads[i := Top(t.batch, t.local)])
    else
      var local := t.batch[t.next].outcome;
      if local.Some? then s.(threads := s.threads[i := Top(t.batch, local)])
      else s.(threads := s.threads[i := Working(t.batch, t.next + 1, t.doWork, local)])
  }

  /** Add's critical section. */
  function Add(s: State, checks: seq<Check>): State
    requires 0 < |s.threads|
  {
    if checks == [] then s
    else s.(queue := s.queue + checks, nTodo := s.nTodo + |checks|, round := s.round + checks,
            threads := s.threads[MASTER := Notifying(|checks|)])
  }

  function NotifyAll(ts: seq<Thread>): (r: seq<Thread>)
    ensures |r| == |ts|
  {
    seq(|ts|, i requires 0 <= i < |ts| => if ts[i].Sleeping? then Sleeping(true, ts[i].local) else ts[i])
  }

  /** Add's notification: one worker for one check, all workers otherwise. */
  function Notify(s: State, worker: nat): State
    requires worker < |s.threads| && s.threads[MASTER].Notifying?
  {
    var ts := if s.threads[MASTER].count == 1 then NotifyThread(s.threads, worker) else NotifyAll(s.threads);
    s.(threads := ts[MASTER := Away])
  }

  function BeginComplete(s: State): State
    requires 0 < |s.threads|
  {
    s.(threads := s.threads[MASTER := Top([], None)])
  }

  datatype Step =
    | EnterStep(i: nat) | WakeStep(i: nat) | RunStep(i: nat)
    | AddStep(checks: seq<Check>) | NotifyStep(worker: nat) | BeginStep

  ghost predicate Enabled(s: State, step: Step) {
    && 0 < |s.threads|
    && match step
       case EnterStep(i) => i < |s.threads| && s.threads[i].Top? && (s.queue != [] ==> CanTake(CleanUp(s, i)))
       case WakeStep(i) => i < |s.threads| && s.threads[i].Sleeping? && (s.queue != [] ==> CanTake(s.(nIdle := s.nIdle - 1)))
       case RunStep(i) => i < |s.threads| && s.threads[i].Working?
       case AddStep(_) => s.threads[MASTER].Away?
       case NotifyStep(w) =>
         && w < |s.threads| && s.threads[MASTER].Notifying?
         && (s.threads[w].Sleeping? || forall j :: 0 <= j < |s.threads| ==> !s.threads[j].Sleeping?)
       case BeginStep => s.threads[MASTER].Away?
  }

  ghost function Apply(s: State, step: Step): State
    requires Enabled(s, step)
  {
    match step
    case EnterStep(i) => Enter(s, i)
    case WakeStep(i) => Wake(s, i)
    case RunStep(i) => Run(s, i)
    case AddStep(checks) => Add(s, checks)
    case NotifyStep(w) => Notify(s, w)
    case BeginStep => BeginComplete(s)
  }

  function NewWorkers(n: nat): seq<Thread> {
    seq(n, _ => Top([], None))
  }

  /** All threads have been started; no worker has reached the mutex yet. */
  function Initial(workers: nat, batchSize: nat): State {
    State([], 0, 0, None, 0, batchSize, [Away] + NewWorkers(workers), [], [])
  }

  /** Any interleaving of any number of steps. */
  ghost predicate Reachable(s: State, steps: seq<Step>, workers: nat, batchSize: nat)
    decreases |steps|
  {
    if steps == [] then s == Initial(workers, batchSize)
    else
      exists prev: State {:trigger Reachable(prev, steps[..|steps| - 1], workers, batchSize)} ::
        && Reachable(prev, steps[..|steps| - 1], workers, batchSize)
        && Enabled(prev, steps[|steps| - 1]) && s == Apply(prev, steps[|steps| - 1])
  }

  // ---------------------------------------------------------------- totals over threads

  /** The checks a thread has taken and not yet accounted for. */
  function Batch(t: Thread): seq<Check> {
    match t
    case Working(batch, _, _, _) => batch
    case Top(finished, _) => finished
    case _ => []
  }

  /** A thread's contribution to a count, and how much work it still represents. */
  datatype Measure = Idle | Joined | Held | Effort

  function Weight(m: Measure, t: Thread): nat {
    match m
    case Idle => if t.Sleeping? then 1 else 0
    case Joined => if t.Sleeping? || t.Working? || (t.Top? && t.finished != []) then 1 else 0
    case Held => |Batch(t)|
    case Effort =>
      match t
      case Sleeping(notified, _) => if notified then 2 else 0
      case Top(_, _) => 4
      case Working(batch, next, _, _) => 2 * (if next <= |batch| then |batch| - next else 0) + 7
      case _ => 0
  }

  function Total(m: Measure, ts: seq<Thread>): nat {
    if ts == [] then 0 else Weight(m, ts[0]) + Total(m, ts[1..])
  }

  lemma {:induction false} TotalUpdate(m: Measure, ts: seq<Thread>, i: nat, t: Thread)
    requires i < |ts|
    ensures Total(m, ts[i := t]) == Total(m, ts) - Weight(m, ts[i]) + Weight(m, t)
  {
    if i == 0 {
      assert ts[i := t][1..] == ts[1..];
    } else {
      assert ts[i := t][1..] == ts[1..][i - 1 := t];
      TotalUpdate(m, ts[1..], i - 1, t);
    }
  }

  lemma {:induction false} TotalSame(m: Measure, ts: seq<Thread>, us: seq<Thread>)
    requires |ts| == |us| && forall i :: 0 <= i < |ts| ==> Weight(m, ts[i]) == Weight(m, us[i])
    ensures Total(m, ts) == Total(m, us)
  {
    if ts != [] {
      TotalSame(m, ts[1..], us[1..]);
    }
  }

  // ---------------------------------------------------------------- the invariant

  ghost predicate AllPass(checks: seq<Check>) {
    forall i :: 0 <= i < |checks| ==> checks[i].outcome.None?
  }

  /** r is the failure of one of the checks. */
  ghost predicate Blames(checks: seq<Check>, r: Option<Failure>) {
    exists i :: 0 <= i < |checks| && checks[i].outcome == r
  }

  /** nTodo counts exactly the queued checks and those in some thread's batch. */
  ghost predicate Conserved(s: State) {
    s.nTodo == |s.queue| + Total(Held, s.threads)
  }

  /** Whatever is queued or held was added in this round. */
  ghost predicate OwnChecks(s: State) {
    && (forall c :: c in s.queue ==> c in s.round)
    && (forall i, c :: 0 <= i < |s.threads| && c in Batch(s.threads[i]) ==> c in s.round)
  }

  /** c is queued or held by some thread. */
  ghost predicate Pending(queue: seq<Check>, ts: seq<Thread>, c: Check) {
    c in queue || exists i :: 0 <= i < |ts| && c in Batch(ts[i])
  }

  ghost predicate Counted(s: State) {
    s.nIdle == Total(Idle, s.threads) && s.nTotal == Total(Joined, s.threads)
  }

  /** The recorded result tells the truth about what has been completed. */
  ghost predicate Truthful(s: State) {
    && (s.result.Some? ==> Blames(s.round, s.result))
    && (s.result.None? ==> forall c :: c in s.round ==> c.outcome.None? || Pending(s.queue, s.threads, c))
  }

  /**
   What a thread knows about its own batch. A thread that skipped its checks may carry a failure
   from an earlier round, but only while a failure of this round is recorded.
   */
  ghost predicate ThreadOk(result: Option<Failure>, t: Thread) {
    match t
    case Working(batch, next, doWork, local) =>
      && batch != [] && next <= |batch| && (!doWork ==> result.Some?)
      && (doWork && next > 0 ==> local.None? && AllPass(batch[..next]))
    case Top(finished, local) =>
      if finished == [] then local.None?
      else result.Some? || (local.None? && AllPass(finished)) || (local.Some? && Blames(finished, local))
    case _ => true
  }

  ghost predicate ThreadsOk(s: State) {
    && (forall i :: 0 <= i < |s.threads| ==> ThreadOk(s.result, s.threads[i]))
    && (forall i :: 0 < i < |s.threads| ==> !s.threads[i].Away? && !s.threads[i].Notifying?)
  }

  /** A sleeping master has nothing to take, and has been woken if nothing is left to wait for. */
  ghost predicate MasterAwake(s: State) {
    0 < |s.threads| && s.threads[MASTER].Sleeping? ==> s.queue == [] && (s.nTodo > 0 || s.threads[MASTER].notified)
  }

  /** Complete returned nothing exactly when all checks of the round pass, else one of their failures. */
  ghost predicate RoundCorrect(r: Round) {
    && (r.result.None? <==> AllPass(r.checks))
    && (r.result.Some? ==> Blames(r.checks, r.result))
  }

  ghost predicate Inv(s: State) {
    && 0 < |s.threads| && Conserved(s) && OwnChecks(s) && Counted(s) && Truthful(s) && ThreadsOk(s) && MasterAwake(s)
    && forall k :: 0 <= k < |s.returned| ==> RoundCorrect(s.returned[k])
  }

  // ---------------------------------------------------------------- inside the critical section

  /** Thread i holds the mutex; its place among the threads is vacant, but it is counted in nTotal. */
  ghost predicate Locked(s: State, i: nat) {
    && i < |s.threads| && s.threads[i] == Away
    && Conserved(s) && OwnChecks(s) && Truthful(s)
    && s.nIdle == Total(Idle, s.threads) && s.nTotal == Total(Joined, s.threads) + 1
    && (forall j :: 0 <= j < |s.threads| ==> ThreadOk(s.result, s.threads[j]))
    && (forall j :: 0 < j < |s.threads| && j != i ==> !s.threads[j].Away? && !s.threads[j].Notifying?)
    && (i != MASTER ==> MasterAwake(s))
    && forall k :: 0 <= k < |s.returned| ==> RoundCorrect(s.returned[k])
  }

  ghost function Vacated(s: State, i: nat): State
    requires i < |s.threads|
  {
    s.(threads := s.threads[i := Away])
  }

  lemma QuotientBelow(n: nat, d: int)
    requires d > 0
    ensures n / d <= n
  {
    ProductAtLeast(d, n / d);
  }

  lemma ProductAtLeast(d: int, q: int)
    requires d >= 1 && q >= 0
    ensures d * q >= q
  {
  }

  lemma LockedCanTake(s: State, i: nat)
    requires Locked(s, i) && s.queue != []
    ensures CanTake(s) && BatchLength(s) >= 1
  {
    QuotientBelow(|s.queue|, s.nTotal + s.nIdle + 1);
  }

  /** Replacing the thread in one place changes each total by the difference. */
  lemma Replace(ts: seq<Thread>, i: nat, t: Thread)
    requires i < |ts|
    ensures Total(Held, ts[i := t]) == Total(Held, ts) - |Batch(ts[i])| + |Batch(t)|
    ensures Total(Idle, ts[i := t]) == Total(Idle, ts) - Weight(Idle, ts[i]) + Weight(Idle, t)
    ensures Total(Joined, ts[i := t]) == Total(Joined, ts) - Weight(Joined, ts[i]) + Weight(Joined, t)
  {
    TotalUpdate(Held, ts, i, t);
    TotalUpdate(Idle, ts, i, t);
    TotalUpdate(Joined, ts, i, t);
  }

  /** A check that is held stays held as long as its holder's batch stays. */
  lemma StillPending(queue: seq<Check>, ts: seq<Thread>, i: nat, t: Thread, c: Check)
    requires i < |ts| && Pending(queue, ts, c) && (c in Batch(ts[i]) ==> c in Batch(t) || c in queue)
    ensures Pending(queue, ts[i := t], c)
  {
    if c !in queue {
      var j :| 0 <= j < |ts| && c in Batch(ts[j]);
      assert c in Batch(ts[i := t][j]);
    }
  }

  lemma {:induction false} AllEmpty(ts: seq<Thread>)
    requires Total(Held, ts) == 0
    ensures forall j :: 0 <= j < |ts| ==> Batch(ts[j]) == []
  {
    if ts != [] {
      AllEmpty(ts[1..]);
    }
  }

  lemma ReturnInv(s: State, local: Option<Failure>)
    requires Locked(s, MASTER) && s.nTodo == 0
    ensures s.queue == [] && Inv(Proceed(s, MASTER, local))
  {
    AllEmpty(s.threads);
    var s' := Proceed(s, MASTER, local);
    Replace(s.threads, MASTER, Away);
    assert s'.threads == s.threads;
    if s.result.None? {
      forall k | 0 <= k < |s.round| ensures s.round[k].outcome.None? {
        assert s.round[k] in s.round;
      }
    } else {
      var k :| 0 <= k < |s.round| && s.round[k].outcome == s.result;
    }
    assert RoundCorrect(Round(s.round, s.result));
  }

  /** Same queue, round and result, and the same batches. */
  ghost predicate SameWork(s: State, s': State) {
    && s'.queue == s.queue && s'.round == s.round && s'.result == s.result && s'.nTodo == s.nTodo
    && |s'.threads| == |s.threads| && forall j :: 0 <= j < |s.threads| ==> Batch(s'.threads[j]) == Batch(s.threads[j])
  }

  lemma SameWorkKeeps(s: State, s': State)
    requires Conserved(s) && OwnChecks(s) && Truthful(s) && SameWork(s, s')
    ensures Conserved(s') && OwnChecks(s') && Truthful(s')
  {
    TotalSame(Held, s.threads, s'.threads);
    forall i, c | 0 <= i < |s'.threads| && c in Batch(s'.threads[i]) ensures c in s'.round {
      assert c in Batch(s.threads[i]);
    }
    forall c | c in s.round && Pending(s.queue, s.threads, c) ensures Pending(s'.queue, s'.threads, c) {
      if c !in s.queue {
        var j :| 0 <= j < |s.threads| && c in Batch(s.threads[j]);
        assert c in Batch(s'.threads[j]);
      }
    }
  }

  lemma SleepInv(s: State, i: nat, local: Option<Failure>)
    requires Locked(s, i) && s.queue == [] && (i == MASTER ==> s.nTodo != 0)
    ensures Inv(Proceed(s, i, local))
  {
    Replace(s.threads, i, Sleeping(false, local));
    SameWorkKeeps(s, Proceed(s, i, local));
  }

  lemma TakeWork(s: State, i: nat, left: nat, t: Thread)
    requires i < |s.threads| && s.threads[i] == Away && left <= |s.queue| && Batch(t) == s.queue[left..]
    requires Conserved(s) && OwnChecks(s) && Truthful(s)
    ensures var s' := s.(queue := s.queue[..left], threads := s.threads[i := t]);
      Conserved(s') && OwnChecks(s') && Truthful(s')
  {
    var s' := s.(queue := s.queue[..left], threads := s.threads[i := t]);
    Replace(s.threads, i, t);
    assert s.queue == s.queue[..left] + s.queue[left..];
    forall j, c | 0 <= j < |s'.threads| && c in Batch(s'.threads[j]) ensures c in s'.round {
      assert j != i ==> c in Batch(s.threads[j]);
    }
    forall c | c in s.round && Pending(s.queue, s.threads, c) ensures Pending(s'.queue, s'.threads, c) {
      if c in s.queue {
        assert c in s'.queue || c in Batch(s'.threads[i]);
      } else {
        StillPending(s.queue, s.threads, i, t, c);
        var j :| 0 <= j < |s.threads| && c in Batch(s.threads[j]);
        assert c in Batch(s'.threads[j]);
      }
    }
  }

  lemma TakeInv(s: State, i: nat, local: Option<Failure>)
    requires Locked(s, i) && s.queue != []
    ensures CanTake(s) && Inv(Proceed(s, i, local))
  {
    LockedCanTake(s, i);
    var left := |s.queue| - BatchLength(s);
    var t := Working(s.queue[left..], 0, s.result.None?, local);
    Replace(s.threads, i, t);
    TakeWork(s, i, left, t);
  }

  lemma ProceedInv(s: State, i: nat, local: Option<Failure>)
    requires Locked(s, i)
    ensures s.queue != [] ==> CanTake(s)
    ensures Inv(Proceed(s, i, local))
  {
    if s.queue != [] {
      TakeInv(s, i, local);
    } else if i == MASTER && s.nTodo == 0 {
      ReturnInv(s, local);
    } else {
      SleepInv(s, i, local);
    }
  }

  /** The vacant place is filled by Proceed, whatever was there. */
  lemma ProceedVacated(s: State, i: nat, local: Option<Failure>)
    requires i < |s.threads| && (s.queue != [] ==> CanTake(s))
    ensures Proceed(Vacated(s, i), i, local) == Proceed(s, i, local)
  {
    var ts := s.threads;
    assert ts[i := Away][i := Away] == ts[i := Away];
    assert ts[i := Away][i := Sleeping(false, local)] == ts[i := Sleeping(false, local)];
    if s.queue != [] {
      var left := |s.queue| - BatchLength(s);
      var t := Working(s.queue[left..], 0, s.result.None?, local);
      assert ts[i := Away][i := t] == ts[i := t];
    }
  }

  // ---------------------------------------------------------------- every step keeps the invariant

  lemma WakeLocked(s: State, i: nat)
    requires Inv(s) && i < |s.threads| && s.threads[i].Sleeping?
    ensures Locked(Vacated(s.(nIdle := s.nIdle - 1), i), i)
  {
    Replace(s.threads, i, Away);
    SameWorkKeeps(s, Vacated(s.(nIdle := s.nIdle - 1), i));
  }

  lemma WakeInv(s: State, i: nat)
    requires Inv(s) && i < |s.threads| && s.threads[i].Sleeping?
    ensures Enabled(s, WakeStep(i)) && Inv(Wake(s, i))
  {
    var s1 := s.(nIdle := s.nIdle - 1);
    var v := Vacated(s1, i);
    WakeLocked(s, i);
    ProceedInv(v, i, s.threads[i].local);
    ProceedVacated(s1, i, s.threads[i].local);
  }

  /** What becomes of the result when a thread reports its batch. */
  function Reported(result: Option<Failure>, local: Option<Failure>): Option<Failure> {
    if local.Some? && result.None? then local else result
  }

  /** The reporting thread's batch is accounted for. */
  ghost function Report(s: State, i: nat): State
    requires i < |s.threads| && s.threads[i].Top?
  {
    s.(result := Reported(s.result, s.threads[i].local), nTodo := s.nTodo - |s.threads[i].finished|, threads := s.threads[i := Away])
  }

  lemma CleanUpVacated(s: State, i: nat)
    requires i < |s.threads| && s.threads[i].Top? && s.threads[i].finished != []
    ensures var r := Report(s, i);
      Vacated(CleanUp(s, i), i) == if r.nTodo == 0 && i != MASTER then r.(threads := NotifyThread(r.threads, MASTER)) else r
  {
    var t := s.threads[i];
    assert s.threads[i := Top(t.finished, s.result)][i := Away] == s.threads[i := Away];
    if i != MASTER && s.threads[MASTER].Sleeping? {
      var u := Sleeping(true, s.threads[MASTER].local);
      assert s.threads[MASTER := u][i := Away] == s.threads[i := Away][MASTER := u];
      assert s.threads[i := Top(t.finished, s.result)][MASTER := u][i := Away] == s.threads[i := Away][MASTER := u];
    }
  }

  /** Reporting a batch keeps the result truthful. */
  lemma ReportTruthful(s: State, i: nat)
    requires Conserved(s) && OwnChecks(s) && Truthful(s)
    requires i < |s.threads| && s.threads[i].Top? && s.threads[i].finished != [] && ThreadOk(s.result, s.threads[i])
    ensures Conserved(Report(s, i)) && OwnChecks(Report(s, i)) && Truthful(Report(s, i))
  {
    var t, r := s.threads[i], Report(s, i);
    Replace(s.threads, i, Away);
    forall j, c | 0 <= j < |r.threads| && c in Batch(r.threads[j]) ensures c in r.round {
      assert c in Batch(s.threads[j]);
    }
    if r.result.Some? && s.result.None? {
      var k :| 0 <= k < |t.finished| && t.finished[k].outcome == t.local;
      assert t.finished[k] in Batch(s.threads[i]) && t.finished[k] in s.round;
      var j :| 0 <= j < |s.round| && s.round[j] == t.finished[k];
    }
    if r.result.None? {
      forall c | c in r.round ensures c.outcome.None? || Pending(r.queue, r.threads, c) {
        if c in t.finished {
          var k :| 0 <= k < |t.finished| && t.finished[k] == c;
        } else if c.outcome.Some? {
          StillPending(s.queue, s.threads, i, Away, c);
        }
      }
    }
  }

  lemma ReportLocked(s: State, i: nat)
    requires Inv(s) && i < |s.threads| && s.threads[i].Top? && s.threads[i].finished != []
    ensures Locked(Vacated(CleanUp(s, i), i), i)
  {
    var r := Report(s, i);
    ReportTruthful(s, i);
    Replace(s.threads, i, Away);
    CleanUpVacated(s, i);
    forall j | 0 <= j < |r.threads| ensures ThreadOk(r.result, r.threads[j]) {
      if j != i { assert ThreadOk(s.result, s.threads[j]); }
    }
    if r.nTodo == 0 && i != MASTER {
      var v := r.(threads := NotifyThread(r.threads, MASTER));
      if r.threads[MASTER].Sleeping? {
        Replace(r.threads, MASTER, v.threads[MASTER]);
      }
      SameWorkKeeps(r, v);
    }
  }

  lemma JoinLocked(s: State, i: nat)
    requires Inv(s) && i < |s.threads| && s.threads[i].Top? && s.threads[i].finished == []
    ensures Locked(Vacated(CleanUp(s, i), i), i)
  {
    Replace(s.threads, i, Away);
    SameWorkKeeps(s, Vacated(CleanUp(s, i), i));
  }

  lemma EnterInv(s: State, i: nat)
    requires Inv(s) && i < |s.threads| && s.threads[i].Top?
    ensures Enabled(s, EnterStep(i)) && Inv(Enter(s, i))
  {
    var c := CleanUp(s, i);
    var v := Vacated(c, i);
    if s.threads[i].finished == [] {
      JoinLocked(s, i);
    } else {
      ReportLocked(s, i);
    }
    ProceedInv(v, i, c.threads[i].local);
    ProceedVacated(c, i, c.threads[i].local);
  }

  lemma RunThreadOk(s: State, i: nat)
    requires i < |s.threads| && s.threads[i].Working? && ThreadOk(s.result, s.threads[i])
    ensures ThreadOk(s.result, Run(s, i).threads[i])
  {
    var t := s.threads[i];
    assert t.next == |t.batch| ==> t.batch[..t.next] == t.batch;
    if t.doWork && t.next < |t.batch| {
      assert t.batch[..t.next + 1] == t.batch[..t.next] + [t.batch[t.next]];
    }
  }

  lemma RunInv(s: State, i: nat)
    requires Inv(s) && i < |s.threads| && s.threads[i].Working?
    ensures Inv(Run(s, i))
  {
    var t := Run(s, i).threads[i];
    RunShape(s, i);
    Replace(s.threads, i, t);
    RunThreadOk(s, i);
    SameWorkKeeps(s, Run(s, i));
  }

  /** Running a check keeps the batch and the counts. */
  lemma RunShape(s: State, i: nat)
    requires i < |s.threads| && s.threads[i].Working? && ThreadOk(s.result, s.threads[i])
    ensures var t := Run(s, i).threads[i];
      && Run(s, i) == s.(threads := s.threads[i := t]) && Batch(t) == Batch(s.threads[i]) && (t.Working? || t.Top?)
      && Weight(Idle, t) == Weight(Idle, s.threads[i]) && Weight(Joined, t) == Weight(Joined, s.threads[i])
  {
  }

  lemma AddWork(s: State, checks: seq<Check>)
    requires 0 < |s.threads| && s.threads[MASTER].Away? && checks != [] && Conserved(s) && OwnChecks(s) && Truthful(s)
    ensures Conserved(Add(s, checks)) && OwnChecks(Add(s, checks)) && Truthful(Add(s, checks))
  {
    var s' := Add(s, checks);
    Replace(s.threads, MASTER, Notifying(|checks|));
    forall j, c | 0 <= j < |s'.threads| && c in Batch(s'.threads[j]) ensures c in s'.round {
      assert c in Batch(s.threads[j]);
    }
    if s.result.Some? {
      var k :| 0 <= k < |s.round| && s.round[k].outcome == s.result;
      assert s'.round[k] == s.round[k];
    } else {
      forall c | c in s'.round ensures c.outcome.None? || Pending(s'.queue, s'.threads, c) {
        if c in s.round && c.outcome.Some? {
          StillPending(s.queue, s.threads, MASTER, Notifying(|checks|), c);
        }
      }
    }
  }

  lemma AddInv(s: State, checks: seq<Check>)
    requires Inv(s) && s.threads[MASTER].Away?
    ensures Inv(Add(s, checks))
  {
    if checks != [] {
      Replace(s.threads, MASTER, Notifying(|checks|));
      AddWork(s, checks);
    }
  }

  lemma NotifyInv(s: State, worker: nat)
    requires Inv(s) && worker < |s.threads| && s.threads[MASTER].Notifying?
    ensures Inv(Notify(s, worker))
  {
    var s' := Notify(s, worker);
    SameWorkKeeps(s, s');
    TotalSame(Idle, s.threads, s'.threads);
    TotalSame(Joined, s.threads, s'.threads);
  }

  lemma BeginInv(s: State)
    requires Inv(s) && s.threads[MASTER].Away?
    ensures Inv(BeginComplete(s))
  {
    Replace(s.threads, MASTER, Top([], None));
    SameWorkKeeps(s, BeginComplete(s));
  }

  lemma StepInv(s: State, step: Step)
    requires Inv(s) && Enabled(s, step)
    ensures Inv(Apply(s, step))
  {
    match step
    case EnterStep(i) => EnterInv(s, i);
    case WakeStep(i) => WakeInv(s, i);
    case RunStep(i) => RunInv(s, i);
    case AddStep(checks) => AddInv(s, checks);
    case NotifyStep(w) => NotifyInv(s, w);
    case BeginStep => BeginInv(s);
  }

  lemma {:induction false} IdleWorkers(n: nat)
    ensures forall m: Measure :: m != Effort ==> Total(m, NewWorkers(n)) == 0
  {
    if n > 0 {
      IdleWorkers(n - 1);
      assert NewWorkers(n)[1..] == NewWorkers(n - 1);
    }
  }

  lemma InitialInv(workers: nat, batchSize: nat)
    ensures Inv(Initial(workers, batchSize))
  {
    var s := Initial(workers, batchSize);
    IdleWorkers(workers);
    assert s.threads[1..] == NewWorkers(workers);
  }

  /** Safety over all interleavings and all rounds. */
  lemma {:induction false} ReachableInv(s: State, steps: seq<Step>, workers: nat, batchSize: nat)
    requires Reachable(s, steps, workers, batchSize)
    ensures Inv(s)
    decreases |steps|
  {
    if steps == [] {
      InitialInv(workers, batchSize);
    } else {
      var init, step := steps[..|steps| - 1], steps[|steps| - 1];
      var prev: State :| Reachable(prev, init, workers, batchSize) && Enabled(prev, step) && s == Apply(prev, step);
      ReachableInv(prev, init, workers, batchSize);
      StepInv(prev, step);
    }
  }

  // ---------------------------------------------------------------- queued work does not wait for Complete

  predicate Awake(t: Thread) {
    t.Top? || t.Working? || (t.Sleeping? && t.notified)
  }

  ghost predicate AwakeAt(ts: seq<Thread>, i: nat) {
    0 < i < |ts| && Awake(ts[i])
  }

  ghost predicate SomeWorkerAwake(ts: seq<Thread>) {
    exists i: nat {:trigger AwakeAt(ts, i)} :: AwakeAt(ts, i)
  }

  /** While checks are queued, and their notification is not still to come, some worker is awake or about to be. */
  ghost predicate QueueWatched(s: State) {
    s.queue != [] && |s.threads| > 1 && !s.threads[MASTER].Notifying? ==> SomeWorkerAwake(s.threads)
  }

  /** Taking work, going to sleep or returning: the others stay as they are, and nobody sleeps on a filled queue. */
  lemma ProceedWatched(s: State, i: nat, local: Option<Failure>)
    requires i < |s.threads| && (s.queue != [] ==> CanTake(s))
    requires i == MASTER && s.queue != [] && |s.threads| > 1 ==> SomeWorkerAwake(s.threads)
    ensures QueueWatched(Proceed(s, i, local))
  {
    var s' := Proceed(s, i, local);
    if s'.queue != [] && |s.threads| > 1 {
      if i == MASTER {
        var j: nat :| AwakeAt(s.threads, j);
        assert AwakeAt(s'.threads, j);
      } else {
        assert AwakeAt(s'.threads, i);
      }
    }
  }

  lemma CleanUpWatched(s: State)
    requires 0 < |s.threads| && s.threads[MASTER].Top? && SomeWorkerAwake(s.threads)
    ensures SomeWorkerAwake(CleanUp(s, MASTER).threads)
  {
    var j: nat :| AwakeAt(s.threads, j);
    assert AwakeAt(CleanUp(s, MASTER).threads, j);
  }

  lemma NotifyWatched(s: State, worker: nat)
    requires Inv(s) && Enabled(s, NotifyStep(worker))
    ensures QueueWatched(Notify(s, worker))
  {
    var s' := Notify(s, worker);
    if |s.threads| > 1 {
      var j := if s.threads[worker].Sleeping? then worker else 1;
      assert AwakeAt(s'.threads, j);
    }
  }

  lemma StepWatched(s: State, step: Step)
    requires Inv(s) && QueueWatched(s) && Enabled(s, step)
    ensures QueueWatched(Apply(s, step))
  {
    match step
    case EnterStep(i) =>
      if i == MASTER && s.queue != [] && |s.threads| > 1 {
        CleanUpWatched(s);
      }
      ProceedWatched(CleanUp(s, i), i, CleanUp(s, i).threads[i].local);
    case WakeStep(i) =>
      ProceedWatched(s.(nIdle := s.nIdle - 1), i, s.threads[i].local);
    case RunStep(i) =>
      if s.queue != [] && |s.threads| > 1 && !s.threads[MASTER].Notifying? {
        var j: nat :| AwakeAt(s.threads, j);
        assert AwakeAt(Run(s, i).threads, j);
      }
    case AddStep(checks) =>
    case NotifyStep(w) => NotifyWatched(s, w);
    case BeginStep =>
      if s.queue != [] && |s.threads| > 1 {
        var j: nat :| AwakeAt(s.threads, j);
        assert AwakeAt(BeginComplete(s).threads, j);
      }
  }

  /** In every interleaving, queued checks are looked after even if the master never calls Complete. */
  lemma {:induction false} ReachableWatched(s: State, steps: seq<Step>, workers: nat, batchSize: nat)
    requires Reachable(s, steps, workers, batchSize)
    ensures QueueWatched(s)
    decreases |steps|
  {
    if steps != [] {
      var init, step := steps[..|steps| - 1], steps[|steps| - 1];
      var prev: State :| Reachable(prev, init, workers, batchSize) && Enabled(prev, step) && s == Apply(prev, step);
      ReachableInv(prev, init, workers, batchSize);
      ReachableWatched(prev, init, workers, batchSize);
      StepWatched(prev, step);
    }
  }

  /** After several checks were added at once, no worker sleeps on. */
  lemma ManyWakeAll(s: State, checks: seq<Check>, worker: nat)
    requires Inv(s) && s.threads[MASTER].Away? && |checks| > 1 && worker < |s.threads|
    ensures forall j :: 0 < j < |s.threads| ==> Awake(Notify(Add(s, checks), worker).threads[j])
  {
    var ts := Add(s, checks).threads;
    forall j | 0 < j < |s.threads| ensures Awake(Notify(Add(s, checks), worker).threads[j]) {
      assert ts[j] == s.threads[j];
    }
  }

  // ---------------------------------------------------------------- batches and failures

  /** A batch is as large as the limit and a fair share of the queue allow, but at least one check. */
  lemma BatchIsLargest(s: State, m: nat)
    requires s.nTotal + s.nIdle + 1 > 0
    ensures var n, threads := BatchLength(s), s.nTotal + s.nIdle + 1;
      && 1 <= n && (n > 1 ==> n <= s.batchSize && n * threads <= |s.queue|)
      && (1 <= m <= s.batchSize && m * threads <= |s.queue| ==> m <= n)
  {
    var threads := s.nTotal + s.nIdle + 1;
    ShareOf(|s.queue|, threads, BatchLength(s));
    ShareOf(|s.queue|, threads, m);
  }

  lemma ShareOf(q: nat, d: int, n: int)
    requires d > 0
    ensures n <= q / d <==> n * d <= q
  {
    var k := q / d;
    if n <= k {
      ProductMono(n, k, d);
    } else {
      ProductMono(k + 1, n, d);
    }
  }

  lemma ProductMono(a: int, b: int, d: int)
    requires a <= b && d > 0
    ensures a * d <= b * d
  {
  }

  /** The failure that Complete will return is the first one reported, and stays until it has been returned. */
  lemma FirstFailureStays(s: State, step: Step)
    requires Enabled(s, step) && s.result.Some? && |Apply(s, step).returned| == |s.returned|
    ensures Apply(s, step).result == s.result
  {
  }

  /** Once a failure has been reported, no batch taken in the same round is run. */
  lemma NothingRunAfterFailure(s: State, step: Step, i: nat)
    requires Enabled(s, step) && s.result.Some? && i < |s.threads| && !s.threads[i].Working?
    requires Apply(s, step).threads[i].Working?
    ensures !Apply(s, step).threads[i].doWork
  {
  }

  // ---------------------------------------------------------------- Complete returns

  ghost predicate MasterInside(s: State) {
    0 < |s.threads| && !s.threads[MASTER].Away? && !s.threads[MASTER].Notifying?
  }

  /** A step of Loop that is not a wake-up out of nowhere. */
  ghost predicate Busy(s: State, step: Step) {
    && Enabled(s, step)
    && match step
       case EnterStep(_) => true
       case RunStep(_) => true
       case WakeStep(i) => s.threads[i].notified
       case _ => false
  }

  /** A bound on the number of busy steps left. */
  ghost function Remaining(s: State): nat {
    12 * |s.queue| + Total(Effort, s.threads)
  }

  /** As long as the master is in Complete, somebody can make progress: no lost wake-up. */
  lemma NeverStuck(s: State) returns (step: Step)
    requires Inv(s) && MasterInside(s)
    ensures Busy(s, step)
  {
    if s.threads[MASTER].Sleeping? && !s.threads[MASTER].notified {
      assert Total(Held, s.threads) > 0;
      var j := SomeoneHolds(s.threads);
      if s.threads[j].Top? {
        EnterInv(s, j);
        step := EnterStep(j);
      } else {
        step := RunStep(j);
      }
    } else if s.threads[MASTER].Sleeping? {
      WakeInv(s, MASTER);
      step := WakeStep(MASTER);
    } else if s.threads[MASTER].Top? {
      EnterInv(s, MASTER);
      step := EnterStep(MASTER);
    } else {
      step := RunStep(MASTER);
    }
  }

  lemma {:induction false} SomeoneHolds(ts: seq<Thread>) returns (j: nat)
    requires Total(Held, ts) > 0
    ensures j < |ts| && Batch(ts[j]) != []
  {
    if Batch(ts[0]) != [] {
      j := 0;
    } else {
      j := SomeoneHolds(ts[1..]);
      j := j + 1;
    }
  }

  /** Leaving the critical section uses up less than entering it did. */
  lemma ProceedEffort(s: State, i: nat, local: Option<Failure>)
    requires Locked(s, i)
    ensures s.queue != [] ==> CanTake(s)
    ensures Remaining(Proceed(s, i, local)) <= Remaining(s)
  {
    ProceedInv(s, i, local);
    if s.queue != [] {
      LockedCanTake(s, i);
      var left := |s.queue| - BatchLength(s);
      TotalUpdate(Effort, s.threads, i, Working(s.queue[left..], 0, s.result.None?, local));
    } else if i == MASTER && s.nTodo == 0 {
      TotalUpdate(Effort, s.threads, i, Away);
    } else {
      TotalUpdate(Effort, s.threads, i, Sleeping(false, local));
    }
  }

  lemma EnterDecreases(s: State, i: nat)
    requires Inv(s) && Busy(s, EnterStep(i))
    ensures Remaining(Enter(s, i)) < Remaining(s)
  {
    var c := CleanUp(s, i);
    var v := Vacated(c, i);
    EnterInv(s, i);
    TotalUpdate(Effort, s.threads, i, Away);
    if s.threads[i].finished == [] {
      JoinLocked(s, i);
    } else {
      ReportLocked(s, i);
      CleanUpVacated(s, i);
      var r := Report(s, i);
      if r.threads[MASTER].Sleeping? {
        TotalUpdate(Effort, r.threads, MASTER, Sleeping(true, r.threads[MASTER].local));
      }
    }
    ProceedEffort(v, i, c.threads[i].local);
    ProceedVacated(c, i, c.threads[i].local);
  }

  lemma WakeDecreases(s: State, i: nat)
    requires Inv(s) && Busy(s, WakeStep(i))
    ensures Remaining(Wake(s, i)) < Remaining(s)
  {
    var s1 := s.(nIdle := s.nIdle - 1);
    var v := Vacated(s1, i);
    WakeLocked(s, i);
    TotalUpdate(Effort, s.threads, i, Away);
    ProceedEffort(v, i, s.threads[i].local);
    ProceedVacated(s1, i, s.threads[i].local);
  }

  lemma BusyDecreases(s: State, step: Step)
    requires Inv(s) && Busy(s, step)
    ensures Remaining(Apply(s, step)) < Remaining(s)
  {
    match step
    case EnterStep(i) => EnterDecreases(s, i);
    case WakeStep(i) => WakeDecreases(s, i);
    case RunStep(i) => TotalUpdate(Effort, s.threads, i, Run(s, i).threads[i]);
  }

  /** s' is s later in the same round, or right after the master returned that round's result. */
  ghost predicate SameRoundOrReturned(s: State, s': State) {
    && 0 < |s'.threads|
    && if MasterInside(s') then s'.round == s.round && s'.returned == s.returned
       else
         && s'.threads[MASTER].Away? && |s'.returned| == |s.returned| + 1
         && s'.returned[|s.returned|].checks == s.round && RoundCorrect(s'.returned[|s.returned|])
  }

  lemma BusyReturning(s0: State, s: State, step: Step)
    requires Inv(s) && Busy(s, step) && SameRoundOrReturned(s0, s)
    ensures SameRoundOrReturned(s0, Apply(s, step))
  {
    StepInv(s, step);
    match step
    case EnterStep(i) =>
      CleanUpKeepsRound(s, i);
      ProceedReturning(s0, CleanUp(s, i), i, CleanUp(s, i).threads[i].local);
    case WakeStep(i) =>
      ProceedReturning(s0, s.(nIdle := s.nIdle - 1), i, s.threads[i].local);
    case RunStep(i) =>
  }

  lemma CleanUpKeepsRound(s: State, i: nat)
    requires i < |s.threads| && s.threads[i].Top?
    ensures var c := CleanUp(s, i);
      && c.round == s.round && c.returned == s.returned && |c.threads| == |s.threads| && c.threads[i].Top?
      && (MasterInside(c) <==> MasterInside(s)) && (!MasterInside(s) ==> c.threads[MASTER] == s.threads[MASTER])
  {
  }

  /** Leaving the critical section keeps the round, or returns it. */
  lemma ProceedReturning(s0: State, s: State, i: nat, local: Option<Failure>)
    requires i < |s.threads| && (s.queue != [] ==> CanTake(s)) && SameRoundOrReturned(s0, s) && (i == MASTER ==> MasterInside(s))
    requires forall k :: 0 <= k < |Proceed(s, i, local).returned| ==> RoundCorrect(Proceed(s, i, local).returned[k])
    ensures SameRoundOrReturned(s0, Proceed(s, i, local))
  {
  }

  /** A run of busy steps. */
  ghost predicate BusyRun(run: seq<State>, steps: seq<Step>) {
    && |run| == |steps| + 1
    && forall k :: 0 <= k < |steps| ==> Busy(run[k], steps[k]) && run[k + 1] == Apply(run[k], steps[k])
  }

  /** Busy steps run out, and whatever they did, the master's round is intact or correctly returned. */
  lemma {:induction false} BusyRunBounded(run: seq<State>, steps: seq<Step>)
    requires BusyRun(run, steps) && Inv(run[0]) && MasterInside(run[0])
    ensures |steps| + Remaining(run[|steps|]) <= Remaining(run[0]) && Inv(run[|steps|])
    ensures SameRoundOrReturned(run[0], run[|steps|])
    decreases |steps|
  {
    if steps != [] {
      var n := |steps| - 1;
      assert BusyRun(run[..n + 1], steps[..n]);
      BusyRunBounded(run[..n + 1], steps[..n]);
      var s, step := run[n], steps[n];
      StepInv(s, step);
      BusyDecreases(s, step);
      BusyReturning(run[0], s, step);
    }
  }

  /**
   Complete always returns: once no busy step is left, which happens after a bounded number of
   them, the master has returned the correct result of its round.
   */
  lemma CompleteReturns(run: seq<State>, steps: seq<Step>)
    requires BusyRun(run, steps) && Inv(run[0]) && MasterInside(run[0])
    requires forall step: Step :: !Busy(run[|steps|], step)
    ensures |steps| <= Remaining(run[0])
    ensures var s, e := run[0], run[|steps|];
      && 0 < |e.threads| && e.threads[MASTER].Away? && |e.returned| == |s.returned| + 1
      && e.returned[|s.returned|].checks == s.round && RoundCorrect(e.returned[|s.returned|])
  {
    BusyRunBounded(run, steps);
    if MasterInside(run[|steps|]) {
      var step := NeverStuck(run[|steps|]);
    }
  }

  // ---------------------------------------------------------------- the queue object

  /** The shared object, with each thread's local variables in `threads`. */
  class CheckQueue {
    var queue: seq<Check>
    var nIdle: int
    var nTotal: int
    var result: Option<Failure>
    var nTodo: int
    const nBatchSize: nat
    var threads: seq<Thread>
    ghost var round: seq<Check>
    ghost var returned: seq<Round>

    ghost function Value(): State
      reads this
    {
      State(queue, nIdle, nTotal, result, nTodo, nBatchSize, threads, round, returned)
    }

    constructor (batchSize: nat, workerThreads: nat)
      ensures Value() == Initial(workerThreads, batchSize) && Inv(Value())
    {
      queue, nIdle, nTotal, result, nTodo := [], 0, 0, None, 0;
      nBatchSize := batchSize;
      threads := [Away] + NewWorkers(workerThreads);
      round, returned := [], [];
      new;
      InitialInv(workerThreads, batchSize);
    }

    /** From the inner while loop to the end of the critical section. Only the master returns. */
    method LeaveSection(i: nat, local: Option<Failure>) returns (done: bool, toReturn: Option<Failure>)
      requires i < |threads| && (queue != [] ==> CanTake(Value()))
      modifies this
      ensures Value() == Proceed(old(Value()), i, local)
      ensures done <==> old(queue) == [] && i == MASTER && old(nTodo) == 0
      ensures done ==> returned == old(returned) + [Round(old(round), toReturn)]
    {
      done, toReturn := false, None;
      if queue == [] {
        if i == MASTER && nTodo == 0 {
          nTotal := nTotal - 1;
          toReturn := result;
          result := None;
          threads := threads[i := Away];
          returned, round := returned + [Round(round, toReturn)], [];
          done := true;
          return;
        }
        nIdle := nIdle + 1;
        threads := threads[i := Sleeping(false, local)];
        return;
      }
      var nNow := Max(1, Min(nBatchSize, |queue| / (nTotal + nIdle + 1)));
      var start := |queue| - nNow;
      var checks := queue[start..];
      queue := queue[..start];
      threads := threads[i := Working(checks, 0, result.None?, local)];
    }

    /** The critical section at the top of Loop's outer loop. */
    method EnterSection(i: nat) returns (done: bool, toReturn: Option<Failure>)
      requires Inv(Value()) && i < |threads| && threads[i].Top?
      modifies this
      ensures Enabled(old(Value()), EnterStep(i)) && Value() == Enter(old(Value()), i) && Inv(Value())
      ensures done ==> i == MASTER && returned == old(returned) + [Round(old(round), toReturn)]
    {
      EnterInv(Value(), i);
      var local := CleanUpSection(i);
      done, toReturn := LeaveSection(i, local);
    }

    /** First do the clean-up of the previous loop run, or join the pool. */
    method CleanUpSection(i: nat) returns (local: Option<Failure>)
      requires i < |threads| && threads[i].Top?
      modifies this
      ensures Value() == CleanUp(old(Value()), i) && |threads| == old(|threads|)
      ensures threads[i].Top? && local == threads[i].local
    {
      var nNow := |threads[i].finished|;
      local := threads[i].local;
      if nNow == 0 {
        nTotal := nTotal + 1;
        return;
      }
      if local.Some? && result.None? {
        local, result := result, local;
        threads := threads[i := Top(threads[i].finished, local)];
      }
      nTodo := nTodo - nNow;
      if nTodo == 0 && i != MASTER {
        threads := NotifyThread(threads, MASTER);
      }
    }

    /** Return from cond.wait with the mutex held. */
    method WakeSection(i: nat) returns (done: bool, toReturn: Option<Failure>)
      requires Inv(Value()) && i < |threads| && threads[i].Sleeping?
      modifies this
      ensures Enabled(old(Value()), WakeStep(i)) && Value() == Wake(old(Value()), i) && Inv(Value())
      ensures done ==> i == MASTER && returned == old(returned) + [Round(old(round), toReturn)]
    {
      WakeInv(Value(), i);
      nIdle := nIdle - 1;
      done, toReturn := LeaveSection(i, threads[i].local);
    }

    /** One check, or the end of a batch, outside the mutex. */
    method RunCheck(i: nat)
      requires Inv(Value()) && i < |threads| && threads[i].Working?
      modifies this`threads
      ensures Value() == Run(old(Value()), i) && Inv(Value())
    {
      RunInv(Value(), i);
      var t := threads[i];
      if !t.doWork || t.next >= |t.batch| {
        threads := threads[i := Top(t.batch, t.local)];
        return;
      }
      var local := t.batch[t.next].outcome;
      if local.Some? {
        threads := threads[i := Top(t.batch, local)];
      } else {
        threads := threads[i := Working(t.batch, t.next + 1, t.doWork, local)];
      }
    }

    /** Add a batch of checks to the queue; the notification follows outside the mutex. */
    method AddChecks(checks: seq<Check>)
      requires Inv(Value()) && threads[MASTER].Away?
      modifies this
      ensures Value() == Add(old(Value()), checks) && Inv(Value())
    {
      AddInv(Value(), checks);
      if checks == [] {
        return;
      }
      queue := queue + checks;
      nTodo := nTodo + |checks|;
      round := round + checks;
      threads := threads[MASTER := Notifying(|checks|)];
    }
  }
}
