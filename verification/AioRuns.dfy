/** The guarantees of the I/O queue over whole runs, from the start state with any number of workers. */
module AioRuns {
  import opened AioProtocol
  import opened AioProperties

  ghost predicate Inv(s: State) {
    && 1 <= |s.workers|
    && Locks(s) && NotStranded(s) && SignalInv(s)
    && Conserved(s) && Counted(s) && Ordered(s) && Released(s)
  }

  lemma {:induction false} NobodyHolds(n: nat, r: Req)
    ensures Held(seq(n, i => WantRq), r) == 0 && Hands(seq(n, i => WantRq)) == 0
  {
    var w := seq(n, i => WantRq);
    if n > 0 {
      assert w[1..] == seq(n - 1, i => WantRq);
      NobodyHolds(n - 1, r);
    }
  }

  lemma InitInv(n: nat)
    requires 1 <= n
    ensures Inv(Init(n))
  {
    hide Held, Hands;
    var s := Init(n);
    NobodyHolds(n, 0);
    forall r ensures Places(s, r) == 0 { NobodyHolds(n, r); }
  }

  lemma InvKept(s: State, step: Step)
    requires Enabled(s, step) && Inv(s)
    ensures Inv(Next(s, step))
  {
    hide Next, Locks, NotStranded, SignalInv, Conserved, Counted, Ordered, Released;
    LocksKept(s, step);
    NotStrandedKept(s, step);
    SignalKept(s, step);
    ConservedKept(s, step);
    CountedKept(s, step);
    OrderedKept(s, step);
    ReleasedKept(s, step);
    WorkersStay(s, step);
  }

  lemma WorkersStay(s: State, step: Step)
    requires Enabled(s, step)
    ensures |Next(s, step).workers| == |s.workers|
  {
  }

  lemma {:induction false} InvOverRuns(s: State, steps: seq<Step>, t: State)
    requires Inv(s) && Run(s, steps, t)
    ensures Inv(t)
    decreases |steps|
  {
    hide Next, Inv;
    if steps != [] {
      InvKept(s, steps[0]);
      InvOverRuns(Next(s, steps[0]), steps[1..], t);
    }
  }

  ghost predicate Reached(n: nat, t: State) { exists steps :: Run(Init(n), steps, t) }

  lemma ReachedInv(n: nat, t: State)
    requires 1 <= n && Reached(n, t)
    ensures Inv(t)
  {
    hide Inv, Next, Init;
    var steps :| Run(Init(n), steps, t);
    InitInv(n);
    InvOverRuns(Init(n), steps, t);
  }

  // ===== the theorems =====

  /** No lost signal: outside the drain loop, finished work not yet handed out has a byte in the pipe,
      unless a worker is still between taking the done queue's lock and writing one. */
  lemma NoLostSignal(n: nat, t: State)
    requires 1 <= n && Reached(n, t)
    requires !t.draining && (t.dq.queue != [] || t.dq.list != [])
    ensures t.dq.pipe > 0 || exists i :: 0 <= i < |t.workers| && Signalling(t.workers[i])
  {
    ReachedInv(n, t);
  }

  /** No stranded work: with requests queued, some worker is not asleep, or all are and the main thread is at
      its signal, which wakes one. */
  lemma NoStrandedWork(n: nat, t: State)
    requires 1 <= n && Reached(n, t) && t.rq.queue != []
    ensures || SomeoneAwake(t.workers)
            || (t.main.RqSignal? && !GoEnabled(t)
                && forall i: nat | Enabled(t, Wake(i)) :: SomeoneAwake(Next(t, Wake(i)).workers))
  {
    ReachedInv(n, t);
    forall i: nat | Enabled(t, Wake(i)) ensures SomeoneAwake(Next(t, Wake(i)).workers) {
      assert Next(t, Wake(i)).workers[i] == WantRq;
    }
  }

  /** Mutual exclusion on both queues. */
  lemma MutualExclusion(n: nat, t: State, i: nat, j: nat)
    requires 1 <= n && Reached(n, t) && i < |t.workers| && j < |t.workers|
    ensures HasRq(t.workers[i]) && HasRq(t.workers[j]) ==> i == j
    ensures HasDq(t.workers[i]) && HasDq(t.workers[j]) ==> i == j
    ensures t.main.RqAppend? || t.main.RqSignal? || t.main.RqUnlock? ==> !HasRq(t.workers[i])
    ensures t.main.PollTake? || t.main.PollUnlock? ==> !HasDq(t.workers[i])
  {
    ReachedInv(n, t);
  }

  /** Every request submitted is in exactly one place, anything else in none. */
  lemma ExactlyOnePlace(n: nat, t: State, r: Req)
    requires 1 <= n && Reached(n, t)
    ensures Places(t, r) == if r in t.log.submitted then 1 else 0
  {
    hide Places;
    ReachedInv(n, t);
    NotThere(t.log.submitted, r);
    assert Places(t, r) == Times(t.log.submitted, r);
  }

  /** First in, first out: the workers have taken a prefix of what was submitted, in that order. */
  lemma TakenInOrder(n: nat, t: State)
    requires 1 <= n && Reached(n, t)
    ensures t.log.taken <= t.log.submitted
  {
    ReachedInv(n, t);
    var rest := t.rq.queue + RqBatch(t.main) + t.rq.overflow + SubmitHand(t.main);
    assert t.log.submitted == t.log.taken + rest;
  }

  lemma SyncCount(t: State)
    requires Counted(t) && t.log.len <= 0
    ensures t.rq.queue == [] && t.rq.overflow == [] && t.dq.queue == []
    ensures forall i | 0 <= i < |t.workers| :: !Holding(t.workers[i])
  {
    NoHands(t.workers);
  }

  lemma {:induction false} NoneHeld(workers: seq<WorkerPc>, r: Req)
    requires forall i | 0 <= i < |workers| :: !Holding(workers[i])
    ensures Held(workers, r) == 0
  {
    if workers != [] {
      forall i | 0 <= i < |workers[1..]| ensures !Holding(workers[1..][i]) { assert workers[1..][i] == workers[i + 1]; }
      NoneHeld(workers[1..], r);
    }
  }

  /** A finished request was returned to its caller or cancelled, never both; its control block has been
      released exactly once, and its handler called at most once. */
  lemma FinishedOnce(n: nat, t: State, r: Req)
    requires 1 <= n && Reached(n, t) && r in t.log.finished
    ensures (Times(t.ctl.returned, r) == 1) != (r in t.ctl.cancelled)
    ensures Times(t.ctl.written, r) == if r in t.ctl.cancelled then 0 else 1
    ensures Times(t.ctl.released, r) == 1 && Times(t.ctl.handled, r) <= 1
    ensures r !in t.ctl.used
  {
    hide Held;
    ReachedInv(n, t);
    NotThere(t.log.finished, r);
    assert Places(t, r) == Times(t.log.submitted, r);
  }

  /** Before that, an unfinished request owns a block on used_list unless it was cancelled, in which
      case the block is gone and the handler will not be called again. */
  lemma UnfinishedBlock(n: nat, t: State, r: Req)
    requires 1 <= n && Reached(n, t) && r in t.log.submitted && r !in t.log.finished && !Submitting(t.main, r)
    ensures Times(t.ctl.returned, r) == Times(t.ctl.written, r) == 0
    ensures (r in t.ctl.used) != (r in t.ctl.cancelled)
    ensures Times(t.ctl.released, r) == if r in t.ctl.cancelled then 1 else 0
  {
    hide Held;
    ReachedInv(n, t);
    NotThere(t.log.finished, r);
    NotThere(t.log.submitted, r);
    assert Places(t, r) == Times(t.log.submitted, r);
  }

  /** A request that is cancelled stays cancelled, and its result is not written however the run goes on. */
  lemma {:induction false} CancelledUnwritten(s: State, steps: seq<Step>, t: State, r: Req)
    requires Inv(s) && Run(s, steps, t) && r in s.ctl.cancelled
    ensures r in t.ctl.cancelled && r !in t.ctl.written
    decreases |steps|
  {
    hide Next, Enabled, Conserved, Counted, Ordered, SignalInv, Locks, NotStranded;
    if steps == [] {
      NotThere(t.ctl.written, r);
      assert BlockOk(t.ctl, Submitting(t.main, r), Times(t.log.submitted, r), Times(t.log.finished, r), r);
    } else {
      InvKept(s, steps[0]);
      StaysCancelled(s, steps[0], r);
      CancelledUnwritten(Next(s, steps[0]), steps[1..], t, r);
    }
  }

  lemma StaysCancelled(s: State, step: Step, r: Req)
    requires Enabled(s, step) && r in s.ctl.cancelled
    ensures r in Next(s, step).ctl.cancelled
  {
  }

  /** A result is written only while its control block is on used_list. */
  lemma WrittenWhileUsed(n: nat, t: State, step: Step)
    requires 1 <= n && Reached(n, t) && Enabled(t, step) && Next(t, step).ctl.written != t.ctl.written
    ensures exists r :: Next(t, step).ctl.written == t.ctl.written + [r] && r in t.ctl.used
  {
    hide Inv, Held, Reached, WorkNext, Times;
    ReachedInv(n, t);
    WritesAtHead(t, step);
    HeadIsUsed(t);
    assert Next(t, step).ctl.written == t.ctl.written + [t.dq.list[0]];
  }

  lemma WritesAtHead(t: State, step: Step)
    requires Enabled(t, step) && Next(t, step).ctl.written != t.ctl.written
    ensures t.main.DoneHead? && t.dq.list != [] && t.dq.list[0] !in t.ctl.cancelled
    ensures Next(t, step).ctl.written == t.ctl.written + [t.dq.list[0]]
  {
  }

  lemma HeadIsUsed(t: State)
    requires Inv(t) && t.main.DoneHead? && t.dq.list != [] && t.dq.list[0] !in t.ctl.cancelled
    ensures t.dq.list[0] in t.ctl.used
  {
    hide Held;
    var r := t.dq.list[0];
    TimesHead(t.dq.list, r);
    assert Places(t, r) == Times(t.log.submitted, r);
    assert BlockOk(t.ctl, Submitting(t.main, r), Times(t.log.submitted, r), Times(t.log.finished, r), r);
  }

  // ===== the condition of NoLostSignal cannot be weakened =====

  lemma {:induction false} RunOn(s: State, steps: seq<Step>, t: State, step: Step)
    requires Run(s, steps, t) && Enabled(t, step)
    ensures Run(s, steps + [step], Next(t, step))
    decreases |steps|
  {
    hide Next, Enabled;
    if steps == [] {
      assert [step][1..] == [];
      assert Run(Next(s, step), [], Next(t, step));
    } else {
      RunOn(Next(s, steps[0]), steps[1..], t, step);
      assert (steps + [step])[1..] == steps[1..] + [step];
    }
  }

  lemma Reach(t: State, step: Step, u: State)
    requires Reached(2, t) && Enabled(t, step) && u == Next(t, step)
    ensures Reached(2, u)
  {
    hide Next, Enabled, Init, Run;
    var steps :| Run(Init(2), steps, t);
    RunOn(Init(2), steps, t, step);
  }

  lemma Submitted(t: State, r: Req, u: State)
    requires Reached(2, t) && t.main == Ready && t.workers == [WantRq, WantRq] && r !in t.log.submitted
    requires t.rq.lock == Free && t.rq.overflow == []
    requires u == t.(rq := t.rq.(queue := t.rq.queue + [r]),
                     log := t.log.(len := t.log.len + 1, submitted := t.log.submitted + [r]),
                     ctl := t.ctl.(used := t.ctl.used + {r}))
    ensures Reached(2, u)
  {
    hide Reached;
    var k := ToSubmit(r);
    var t1 := t.(main := SubmitTry(r), log := u.log);
    Reach(t, Submit(r), t1);
    var t2 := t1.(main := RqAppend([r], k), rq := t.rq.(lock := Main));
    assert t1.rq.overflow + [r] == [r];
    Reach(t1, Go, t2);
    var t3 := t2.(main := RqSignal(k), rq := u.rq.(lock := Main));
    Reach(t2, Go, t3);
    var t4 := t3.(main := RqUnlock(k));
    Reach(t3, Go, t4);
    var t5 := t4.(main := SubmitEnd(r), rq := u.rq);
    Reach(t4, Go, t5);
    Reach(t5, Go, u);
  }

  /** A worker takes the first request and performs it. */
  lemma Performed(t: State, i: nat, u: State)
    requires Reached(2, t) && |t.workers| == 2 && i < 2 && t.workers[i] == WantRq && t.rq.lock == Free
             && t.rq.queue != []
    requires u == t.(workers := t.workers[i := WantDq(t.rq.queue[0])], rq := t.rq.(queue := t.rq.queue[1..]),
                     log := t.log.(taken := t.log.taken + [t.rq.queue[0]]))
    ensures Reached(2, u)
  {
    hide Reached;
    var r := t.rq.queue[0];
    var t1 := t.(workers := t.workers[i := HoldRq], rq := t.rq.(lock := Worker(i)));
    Reach(t, Work(i), t1);
    var t2 := t.(workers := t.workers[i := Popped(r)], rq := u.rq.(lock := Worker(i)), log := u.log);
    Reach(t1, Work(i), t2);
    var t3 := u.(workers := t.workers[i := Busy(r)]);
    Reach(t2, Work(i), t3);
    Reach(t3, Work(i), u);
  }

  lemma Delivered(t: State, r: Req, u: State)
    requires Reached(2, t) && |t.workers| == 2 && t.workers[0] == WantDq(r) && t.dq == Done([], Free, [], false, 0)
    requires u == t.(workers := t.workers[0 := CheckFlag], dq := Done([r], Free, [], false, 0))
    ensures Reached(2, u)
  {
    hide Reached, ReadPipe, MainLog, MainRq;
    var t1 := t.(workers := t.workers[0 := HoldDq(r)], dq := Done([], Worker(0), [], false, 0));
    Reach(t, Work(0), t1);
    var t2 := t.(workers := t.workers[0 := Appended], dq := Done([r], Worker(0), [], false, 0));
    Reach(t1, Work(0), t2);
    Reach(t2, Work(0), u);
  }

  /** The first worker delivers its result and signals. */
  lemma Signalled(t: State, r: Req, u: State)
    requires Reached(2, t) && |t.workers| == 2 && t.workers[0] == WantDq(r) && t.dq == Done([], Free, [], false, 0)
    requires u == t.(workers := t.workers[0 := WantRq], dq := Done([r], Free, [], true, 1))
    ensures Reached(2, u)
  {
    hide Reached, ReadPipe, MainLog, MainRq;
    var t3 := t.(workers := t.workers[0 := CheckFlag], dq := Done([r], Free, [], false, 0));
    Delivered(t, r, t3);
    var t4 := t3.(workers := t.workers[0 := SetFlag]);
    Reach(t3, Work(0), t4);
    var t5 := t.(workers := t.workers[0 := WriteByte], dq := Done([r], Free, [], true, 0));
    Reach(t4, Work(0), t5);
    Reach(t5, Work(0), u);
  }

  /** The main thread drains while the done queue's lock is taken: it clears the flag ... */
  lemma FlagCleared(t: State, r: Req, u: State)
    requires Reached(2, t) && t.main == Ready && !t.draining
    requires t.dq == Done([r], Worker(1), [], true, 1)
    requires u == t.(main := PollKick(FromDone), draining := true, dq := Done([r], Worker(1), [], false, 0))
    ensures Reached(2, u)
  {
    hide Reached;
    var t1 := t.(draining := true, dq := Done([r], Worker(1), [], true, 0));
    Reach(t, FdHandler, t1);
    Reach(t1, PollDone, t1.(main := DoneHead(false)));
    Reach(t1.(main := DoneHead(false)), Go, t1.(main := DoneCheckFlag));
    Reach(t1.(main := DoneCheckFlag), Go, t1.(main := DoneReadPipe));
    Reach(t1.(main := DoneReadPipe), Go, t1.(main := DoneClearFlag));
    Reach(t1.(main := DoneClearFlag), Go, u);
  }

  /** ... and gets nothing. */
  lemma DrainedInVain(t: State, u: State)
    requires Reached(2, t) && t.main == PollKick(FromDone) && t.rq.overflow == [] && t.dq.lock == Worker(1)
             && t.dq.list == [] && t.dq.queue != []
    requires u == t.(main := Ready, draining := false)
    ensures Reached(2, u)
  {
    hide Reached;
    Reach(t, Go, t.(main := PollDoneQ(FromDone)));
    Reach(t.(main := PollDoneQ(FromDone)), Go, t.(main := PollTryDq(FromDone)));
    Reach(t.(main := PollTryDq(FromDone)), Go, t.(main := PollRet(FromDone)));
    Reach(t.(main := PollRet(FromDone)), Go, t.(main := DoneHead(true)));
    Reach(t.(main := DoneHead(true)), DrainEnds(true), u);
  }

  /** Two requests are submitted, both workers perform one, and the first signals. */
  lemma OneSignalled(u: State)
    requires u == Init(2).(workers := [WantRq, WantDq(1)], rq := Requests([], Free, []),
                           dq := Done([0], Free, [], true, 1), log := Log(2, [0, 1], [0, 1], []),
                             ctl := Blocks({0, 1}, {}, [], [], [], []))
    ensures Reached(2, u)
  {
    hide Reached, Run;
    var s := Init(2);
    assert Reached(2, s) by { Started(); }
    assert s.workers == [WantRq, WantRq];
    var s1 := s.(rq := Requests([0], Free, []), log := Log(1, [0], [], []), ctl := s.ctl.(used := {0}));
    Submitted(s, 0, s1);
    var s2 := s.(rq := Requests([0, 1], Free, []), log := Log(2, [0, 1], [], []), ctl := s.ctl.(used := {0, 1}));
    Submitted(s1, 1, s2);
    var s3 := s2.(workers := [WantDq(0), WantRq], rq := Requests([1], Free, []), log := Log(2, [0, 1], [0], []));
    Performed(s2, 0, s3);
    var s4 := s3.(workers := [WantDq(0), WantDq(1)], rq := Requests([], Free, []), log := Log(2, [0, 1], [0, 1], []));
    Performed(s3, 1, s4);
    Signalled(s4, 0, u);
  }

  lemma Started()
    ensures Reached(2, Init(2))
  {
    assert Run(Init(2), [], Init(2));
  }

  /** A worker that has taken the lock but not yet appended counts: with two workers there is a run to a
      state outside the drain loop where a finished request waits, the pipe is empty, and no worker is
      between its append and its write. */
  lemma LockHolderIsNeeded()
    ensures exists t ::
      && Reached(2, t) && !t.draining && t.dq.queue != [] && t.dq.pipe == 0
      && forall i | 0 <= i < |t.workers| :: Signalling(t.workers[i]) ==> t.workers[i].HoldDq?
  {
    hide Reached;
    var s5 := Init(2).(workers := [WantRq, WantDq(1)], rq := Requests([], Free, []), dq := Done([0], Free, [], true, 1),
                       log := Log(2, [0, 1], [0, 1], []), ctl := Blocks({0, 1}, {}, [], [], [], []));
    OneSignalled(s5);
    var s6 := s5.(workers := [WantRq, HoldDq(1)], dq := Done([0], Worker(1), [], true, 1));
    Reach(s5, Work(1), s6);
    var s7 := s6.(main := PollKick(FromDone), draining := true, dq := Done([0], Worker(1), [], false, 0));
    FlagCleared(s6, 0, s7);
    var t := s7.(main := Ready, draining := false);
    DrainedInVain(s7, t);
    assert Reached(2, t);
  }
}
