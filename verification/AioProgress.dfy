/** What the workers do by themselves, while the main thread is between calls. */
module AioProgress {
  import opened AioProtocol
  import opened AioProperties
  import opened AioRuns

  /** No request is with the workers or on its way to the main thread, which is between calls: all requests
      that are not finished are in the overflow queue. */
  ghost predicate Quiet(s: State) {
    && s.rq.queue == [] && s.dq.pipe == 0
    && forall i | 0 <= i < |s.workers| :: !Holding(s.workers[i]) && !Signalling(s.workers[i])
  }

  ghost predicate Between(s: State) { s.main == Ready && !s.draining }

  predicate ByWorkers(steps: seq<Step>) { forall i | 0 <= i < |steps| :: steps[i].Work? || steps[i].Spurious? }

  /** No worker can go on. */
  predicate Settled(s: State) { forall i | 0 <= i < |s.workers| :: !WorkEnabled(s, i) }

  lemma StaysQuiet(s: State, step: Step)
    requires Enabled(s, step) && (step.Work? || step.Spurious?) && Quiet(s)
    ensures Quiet(Next(s, step))
  {
  }

  lemma StaysBusy(s: State, step: Step)
    requires Enabled(s, step) && (step.Work? || step.Spurious?) && Inv(s) && Between(s) && !Quiet(s)
    ensures !Quiet(Next(s, step))
  {
    hide Locks, NotStranded, Conserved, Counted, Ordered, Released, WorkNext, WorkEnabled;
    if step.Work? {
      StaysBusyWork(s, step.i);
    } else {
      StaysBusyWoken(s, step.i);
    }
  }

  lemma StaysBusyWoken(s: State, i: nat)
    requires Enabled(s, Spurious(i)) && !Quiet(s)
    ensures !Quiet(Next(s, Spurious(i)))
  {
    var t := Next(s, Spurious(i));
    if s.rq.queue == [] && s.dq.pipe == 0 {
      var j :| 0 <= j < |s.workers| && (Holding(s.workers[j]) || Signalling(s.workers[j]));
      assert t.workers[j] == s.workers[j];
    }
  }

  lemma StaysBusyWork(s: State, i: nat)
    requires WorkEnabled(s, i) && SignalInv(s) && Between(s) && !Quiet(s)
    ensures !Quiet(WorkNext(s, i))
  {
    var t := WorkNext(s, i);
    if s.dq.pipe == 0 {
      if s.rq.queue != [] {
        if s.workers[i] == HoldRq { assert Holding(t.workers[i]); }
      } else {
        var j :| 0 <= j < |s.workers| && (Holding(s.workers[j]) || Signalling(s.workers[j]));
        if j != i {
          assert t.workers[j] == s.workers[j];
        } else if s.workers[i].CheckFlag? && s.dq.signalled {
          assert FlagBacked(s);
          var k :| 0 <= k < |s.workers| && s.workers[k].WriteByte?;
          assert Signalling(t.workers[k]);
        } else if !s.workers[i].WriteByte? {
          assert Holding(t.workers[i]) || Signalling(t.workers[i]);
        }
      }
    }
  }

  /** The workers alone neither end nor begin a quiet time, and do not touch the overflow queue. */
  lemma {:induction false} QuietOverRuns(s: State, steps: seq<Step>, t: State)
    requires Inv(s) && Between(s) && Run(s, steps, t) && ByWorkers(steps)
    ensures Inv(t) && Between(t) && (Quiet(t) <==> Quiet(s)) && t.rq.overflow == s.rq.overflow
    decreases |steps|
  {
    hide Inv, Quiet, Next, Enabled;
    if steps != [] {
      assert steps[0].Work? || steps[0].Spurious?;
      forall i | 0 <= i < |steps[1..]|
        ensures steps[1..][i].Work? || steps[1..][i].Spurious?
      {
        assert steps[1..][i] == steps[i + 1];
      }
      InvKept(s, steps[0]);
      if Quiet(s) { StaysQuiet(s, steps[0]); } else { StaysBusy(s, steps[0]); }
      OverflowStays(s, steps[0]);
      QuietOverRuns(Next(s, steps[0]), steps[1..], t);
    }
  }

  lemma OverflowStays(s: State, step: Step)
    requires Enabled(s, step) && (step.Work? || step.Spurious?) && Between(s)
    ensures Between(Next(s, step)) && Next(s, step).rq.overflow == s.rq.overflow
  {
  }

  /** Where no worker can go on, all of them wait and nothing is queued for them. */
  lemma SettledWaiting(s: State)
    requires Inv(s) && (s.main == Ready || s.main.PollKick?) && Settled(s)
    ensures s.rq.queue == [] && s.rq.lock == Free == s.dq.lock
            && forall i | 0 <= i < |s.workers| :: s.workers[i] == Waiting
  {
    hide Conserved, Counted, Ordered, Released, SignalInv;
    HoldersGoOn(s);
    forall i | 0 <= i < |s.workers| ensures s.workers[i] == Waiting { assert !WorkEnabled(s, i); }
  }

  lemma HoldersGoOn(s: State)
    requires Locks(s)
    ensures s.rq.lock.Worker? ==> s.rq.lock.i < |s.workers| && WorkEnabled(s, s.rq.lock.i)
    ensures s.dq.lock.Worker? ==> s.dq.lock.i < |s.workers| && WorkEnabled(s, s.dq.lock.i)
  {
  }

  /** In a quiet time every request is finished or overflowed. */
  lemma QuietMeans(n: nat, s: State, r: Req)
    requires 1 <= n && Reached(n, s) && Between(s) && Quiet(s)
    ensures s.dq.queue == [] && s.dq.list == []
    ensures r in s.log.submitted ==> Times(s.rq.overflow, r) + Times(s.log.finished, r) == 1
  {
    hide Reached, Locks, NotStranded, Counted, Ordered, Released, Conserved;
    ReachedInv(n, s);
    NoneHeld(s.workers, r);
    ExactlyOnePlace(n, s, r);
  }

  // ===== the workers come to rest =====

  function Rank(pc: WorkerPc): nat {
    match pc
    case Popped(_) => 12
    case Busy(_) => 11
    case WantDq(_) => 10
    case HoldDq(_) => 9
    case Appended => 8
    case CheckFlag => 7
    case SetFlag => 6
    case WriteByte => 5
    case WantRq => 2
    case HoldRq => 1
    case Waiting => 0
  }

  function Ranks(workers: seq<WorkerPc>): nat {
    if workers == [] then 0 else Rank(workers[0]) + Ranks(workers[1..])
  }

  lemma {:induction false} RanksUpdate(workers: seq<WorkerPc>, i: nat, pc: WorkerPc)
    requires i < |workers|
    ensures Ranks(workers[i := pc]) + Rank(workers[i]) == Ranks(workers) + Rank(pc)
  {
    var w := workers[i := pc];
    if i == 0 {
      assert w[1..] == workers[1..];
    } else {
      assert w[1..] == workers[1..][i - 1 := pc];
      RanksUpdate(workers[1..], i - 1, pc);
    }
  }

  function Effort(s: State): nat { 20 * |s.rq.queue| + Ranks(s.workers) }

  /** Every step of a worker brings it nearer to its wait. */
  lemma WorkIsFinite(s: State, i: nat)
    requires WorkEnabled(s, i)
    ensures Effort(WorkNext(s, i)) < Effort(s)
  {
    hide Ranks;
    RanksUpdate(s.workers, i, WorkPc(s, i));
  }

  /** So the workers can always be run until none can go on. */
  lemma {:induction false} Settles(s: State) returns (steps: seq<Step>, t: State)
    ensures Run(s, steps, t) && ByWorkers(steps) && Settled(t)
    decreases Effort(s)
  {
    hide Effort, WorkNext;
    if Settled(s) { return [], s; }
    var i: nat :| i < |s.workers| && WorkEnabled(s, i);
    WorkIsFinite(s, i);
    var rest;
    rest, t := Settles(WorkNext(s, i));
    steps := [Work(i)] + rest;
    assert steps[1..] == rest;
  }

  // ===== what becomes of an overflowed request =====

  /** The main thread is between calls. Whatever the workers do until none can go on, the pipe is readable
      then, so that the main thread will poll the queues and move what overflowed, if and only if the state
      was not quiet. */
  lemma OverflowIsTold(n: nat, s: State, steps: seq<Step>, t: State)
    requires 1 <= n && Reached(n, s) && Between(s) && Run(s, steps, t) && ByWorkers(steps) && Settled(t)
    ensures t.rq.overflow == s.rq.overflow && t.rq.lock == Free
    ensures t.dq.pipe > 0 <==> !Quiet(s)
  {
    hide Inv, Run, Settled;
    ReachedInv(n, s);
    QuietOverRuns(s, steps, t);
    SettledWaiting(t);
  }

  /** The poll then moves it: all of it, behind what is queued. */
  lemma PollMoves(s: State, c: Caller)
    requires s.main == PollKick(c) && s.rq.lock == Free && s.rq.overflow != []
    ensures Enabled(s, Go) && Enabled(Next(s, Go), Go)
    ensures Next(Next(s, Go), Go).rq.queue == s.rq.queue + s.rq.overflow && Next(Next(s, Go), Go).rq.overflow == []
  {
  }

  lemma StartedOne()
    ensures Reached(1, Init(1))
  {
    assert Run(Init(1), [], Init(1));
  }

  lemma ReachOne(t: State, step: Step, u: State)
    requires Reached(1, t) && Enabled(t, step) && u == Next(t, step)
    ensures Reached(1, u)
  {
    hide Next, Enabled, Init, Run;
    var steps :| Run(Init(1), steps, t);
    RunOn(Init(1), steps, t, step);
  }

  /** A submission while the worker has the lock. */
  lemma SubmittedAside(s: State, u: State)
    requires Reached(1, s) && s.main == Ready && s.rq == Requests([], Worker(0), []) && s.log == Log(0, [], [], [])
    requires s.ctl.used == {}
    requires u == s.(rq := Requests([], Worker(0), [0]), log := Log(1, [0], [], []), ctl := s.ctl.(used := {0}))
    ensures Reached(1, u)
  {
    hide Reached, WorkNext, Release;
    var s1 := s.(main := SubmitTry(0), log := u.log);
    ReachOne(s, Submit(0), s1);
    assert s1.rq.overflow + [0] == [0];
    ReachOne(s1, Go, s1.(main := SubmitEnd(0), rq := u.rq));
    ReachOne(s1.(main := SubmitEnd(0), rq := u.rq), Go, u);
  }

  /** Such a quiet state is reached with one worker: the request is submitted while the worker holds the lock
      on its way into the wait. Only another call will move the request. */
  lemma OverflowStrands()
    ensures exists t :: Reached(1, t) && Between(t) && Quiet(t) && Settled(t) && t.rq.overflow == [0]
  {
    hide Reached, MainNext, Release;
    var s := Init(1);
    assert Reached(1, s) by { StartedOne(); }
    assert s.workers == [WantRq];
    var s1 := s.(workers := [HoldRq], rq := Requests([], Worker(0), []));
    ReachOne(s, Work(0), s1);
    var s2 := s1.(rq := Requests([], Worker(0), [0]), log := Log(1, [0], [], []), ctl := s1.ctl.(used := {0}));
    SubmittedAside(s1, s2);
    var t := s2.(workers := [Waiting], rq := Requests([], Free, [0]));
    ReachOne(s2, Work(0), t);
    assert Reached(1, t);
  }
}
