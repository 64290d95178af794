/** squidaio_sync returns only when everything is done, and can always return. */
module AioSync {
  import opened AioProtocol
  import opened AioProperties
  import opened AioRuns
  import opened AioProgress

  /** No request is queued or with a worker: all that were submitted wait to be handed out or have been. */
  ghost predicate Drained(s: State) {
    && s.rq.queue == [] && s.rq.overflow == [] && s.dq.queue == []
    && (forall i | 0 <= i < |s.workers| :: !Holding(s.workers[i]))
    && forall r | r in s.log.submitted :: Times(s.dq.list, r) + Times(s.log.finished, r) == 1
  }

  /** squidaio_sync, called by itself or by a submission, is left in one way, and then all is drained. */
  lemma SyncDrains(n: nat, s: State, step: Step)
    requires 1 <= n && Reached(n, s) && Enabled(s, step)
    ensures var t := Next(s, step);
            && (CalledFrom(s.main, FromSync) && !CalledFrom(t.main, FromSync) ==> t.main == Ready && Drained(t))
            && (forall r | CalledFrom(s.main, FromSubmit(r)) && !CalledFrom(t.main, FromSubmit(r)) ::
                  t.main == SubmitEnd(r) && Drained(t))
  {
    hide Inv, Reached, Next, Enabled, Drained;
    ReachedInv(n, s);
    LeftDrained(s, step);
  }

  lemma LeftDrained(s: State, step: Step)
    requires Inv(s) && Enabled(s, step)
    ensures var t := Next(s, step);
            && (CalledFrom(s.main, FromSync) && !CalledFrom(t.main, FromSync) ==> t.main == Ready && Drained(t))
            && (forall r | CalledFrom(s.main, FromSubmit(r)) && !CalledFrom(t.main, FromSubmit(r)) ::
                  t.main == SubmitEnd(r) && Drained(t))
  {
    hide Conserved, Locks, NotStranded, SignalInv, Ordered, Released, WorkNext, Drained;
    if s.main.PollRet? && s.main.c != FromDone && s.log.len <= 0 { AllDone(s); }
    if step == Go && s.main.PollRet? { ReturnKeeps(s); }
    if step.Work? { WorkLeaves(s, step.i); }
  }

  lemma ReturnKeeps(s: State)
    requires s.main.PollRet?
    ensures var t := MainNext(s);
            t.rq == s.rq && t.dq == s.dq && t.workers == s.workers && t.log == s.log && (Drained(s) ==> Drained(t))
  {
  }

  lemma AllDone(s: State)
    requires Inv(s) && s.main.PollRet? && s.log.len <= 0
    ensures Drained(s)
  {
    hide Locks, NotStranded, SignalInv, Ordered, Released;
    SyncCount(s);
    forall r | r in s.log.submitted ensures Times(s.dq.list, r) + Times(s.log.finished, r) == 1 {
      NoneHeld(s.workers, r);
      NotThere(s.log.submitted, r);
      assert Places(s, r) == Times(s.log.submitted, r);
    }
  }

  /** A run to the first state in which the main thread is between calls. */
  ghost predicate Returns(s: State, steps: seq<Step>, t: State)
    decreases |steps|
  {
    if s.main == Ready then steps == [] && t == s
    else steps != [] && Enabled(s, steps[0]) && Returns(Next(s, steps[0]), steps[1..], t)
  }

  lemma {:induction false} ReturnsDrained(s: State, steps: seq<Step>, t: State)
    requires Inv(s) && CalledFrom(s.main, FromSync) && Returns(s, steps, t)
    ensures Drained(t)
    decreases |steps|
  {
    hide Inv, Next, Enabled, Drained;
    var u := Next(s, steps[0]);
    LeftDrained(s, steps[0]);
    InvKept(s, steps[0]);
    if CalledFrom(u.main, FromSync) { ReturnsDrained(u, steps[1..], t); }
  }

  /** Every call of squidaio_sync, in every run: when it returns, nothing is queued and no worker has a request. */
  lemma SyncReturnsDrained(n: nat, s: State, steps: seq<Step>, t: State)
    requires 1 <= n && Reached(n, s) && Enabled(s, Sync) && Returns(Next(s, Sync), steps, t)
    ensures Drained(t)
  {
    hide Inv, Reached, Drained, Returns;
    ReachedInv(n, s);
    InvKept(s, Sync);
    ReturnsDrained(Next(s, Sync), steps, t);
  }

  // ===== it can always return =====

  ghost predicate Leads(s: State, t: State) { exists steps :: Run(s, steps, t) }

  lemma {:induction false} RunCat(s: State, a: seq<Step>, t: State, b: seq<Step>, u: State)
    requires Run(s, a, t) && Run(t, b, u)
    ensures Run(s, a + b, u)
    decreases |a|
  {
    hide Next, Enabled;
    if a == [] {
      assert a + b == b;
    } else {
      RunCat(Next(s, a[0]), a[1..], t, b, u);
      assert (a + b)[1..] == a[1..] + b;
    }
  }

  lemma LeadsOn(s: State, t: State, u: State)
    requires Leads(s, t) && Leads(t, u)
    ensures Leads(s, u)
  {
    hide Run;
    var a :| Run(s, a, t);
    var b :| Run(t, b, u);
    RunCat(s, a, t, b, u);
  }

  lemma LeadsStep(s: State, step: Step, t: State)
    requires Enabled(s, step) && t == Next(s, step)
    ensures Leads(s, t)
  {
    hide Next, Enabled;
    assert [step][1..] == [];
    assert Run(s, [step], t);
  }

  lemma LeadsNowhere(s: State)
    ensures Leads(s, s)
  {
    assert Run(s, [], s);
  }

  lemma LeadsInv(s: State, t: State)
    requires Inv(s) && Leads(s, t)
    ensures Inv(t)
  {
    hide Inv, Run;
    var steps :| Run(s, steps, t);
    InvOverRuns(s, steps, t);
  }

  function Ahead(main: MainPc): nat {
    match main
    case RqAppend(_, _) => 9
    case RqSignal(_) => 8
    case RqUnlock(_) => 7
    case PollDoneQ(_) => 6
    case PollTryDq(_) => 5
    case PollTake(_) => 4
    case PollUnlock(_, _) => 3
    case PollAppend(_, _) => 2
    case PollRet(_) => 1
    case _ => 0
  }

  predicate AtKick(s: State) { s.main == Ready || s.main == PollKick(FromSync) }

  /** The main thread gets to the next turn of the loop by itself. */
  lemma MainToKick(s: State) returns (t: State)
    requires CalledFrom(s.main, FromSync)
    ensures Leads(s, t) && AtKick(t) && (s.rq.overflow == [] ==> t.rq.overflow == [])
    decreases Ahead(s.main)
  {
    hide Leads, Next, Enabled;
    if AtKick(s) {
      LeadsNowhere(s);
      return s;
    }
    var step, u := MainStep(s);
    LeadsStep(s, step, u);
    if AtKick(u) { return u; }
    t := MainToKick(u);
    LeadsOn(s, u, t);
  }

  lemma MainStep(s: State) returns (step: Step, t: State)
    requires CalledFrom(s.main, FromSync) && !AtKick(s)
    ensures Enabled(s, step) && t == Next(s, step) && (s.rq.overflow == [] ==> t.rq.overflow == [])
    ensures AtKick(t) || (CalledFrom(t.main, FromSync) && Ahead(t.main) < Ahead(s.main))
  {
    if s.main.RqSignal? && exists i :: 0 <= i < |s.workers| && s.workers[i] == Waiting {
      var i: nat :| i < |s.workers| && s.workers[i] == Waiting;
      step := Wake(i);
    } else {
      step := Go;
    }
    t := Next(s, step);
  }

  /** At a turn of the loop: the workers rest and nothing is queued for them. */
  ghost predicate Rested(s: State) {
    && s.main == PollKick(FromSync) && s.rq.queue == [] && s.rq.lock == Free == s.dq.lock
    && forall i | 0 <= i < |s.workers| :: s.workers[i] == Waiting
  }

  lemma {:induction false} WorkersOnly(s: State, steps: seq<Step>, t: State)
    requires Run(s, steps, t) && ByWorkers(steps)
    ensures t.main == s.main && t.rq.overflow == s.rq.overflow
    decreases |steps|
  {
    hide Next, Enabled;
    if steps != [] {
      forall i | 0 <= i < |steps[1..]| ensures steps[1..][i].Work? || steps[1..][i].Spurious? {
        assert steps[1..][i] == steps[i + 1];
      }
      WorkerLeavesMain(s, steps[0]);
      WorkersOnly(Next(s, steps[0]), steps[1..], t);
    }
  }

  lemma WorkerLeavesMain(s: State, step: Step)
    requires Enabled(s, step) && (step.Work? || step.Spurious?)
    ensures Next(s, step).main == s.main && Next(s, step).rq.overflow == s.rq.overflow
  {
  }

  lemma LetWork(s: State) returns (t: State)
    requires Inv(s) && s.main == PollKick(FromSync)
    ensures Leads(s, t) && Inv(t) && Rested(t) && t.rq.overflow == s.rq.overflow
  {
    hide Next, Enabled, Conserved, Counted, Ordered, Released, SignalInv, NotStranded;
    var steps;
    steps, t := Settles(s);
    WorkersOnly(s, steps, t);
    InvOverRuns(s, steps, t);
    SettledWaiting(t);
  }

  /** Without an overflow queue one turn is enough. */
  lemma LastTurn(s: State) returns (t: State)
    requires Inv(s) && Rested(s) && s.rq.overflow == []
    ensures Leads(s, t) && t.main == Ready
  {
    hide Leads, Inv;
    AllWithMain(s);
    var c := FromSync;
    var s1 := s.(main := PollDoneQ(c));
    LeadsStep(s, Go, s1);
    if s.dq.queue == [] {
      LeadsStep(s1, Go, s.(main := PollRet(c)));
      LeadsOn(s, s1, s.(main := PollRet(c)));
      t := LastReturn(s, s.(main := PollRet(c)));
    } else {
      var s2 := s.(main := PollTake(c), dq := s.dq.(lock := Main));
      LeadsStep(s1, Go, s.(main := PollTryDq(c)));
      LeadsStep(s.(main := PollTryDq(c)), Go, s2);
      LeadsOn(s, s1, s.(main := PollTryDq(c)));
      LeadsOn(s, s.(main := PollTryDq(c)), s2);
      var s3 := Collected(s2, s);
      LeadsOn(s, s2, s3);
      t := LastReturn(s, s3);
    }
  }

  lemma AllWithMain(s: State)
    requires Inv(s) && Rested(s) && s.rq.overflow == []
    ensures s.log.len == |s.dq.queue|
  {
    hide Conserved, Locks, NotStranded, SignalInv, Ordered, Released;
    NoHandsAsleep(s.workers);
  }

  lemma {:induction false} NoHandsAsleep(workers: seq<WorkerPc>)
    requires forall i | 0 <= i < |workers| :: workers[i] == Waiting
    ensures Hands(workers) == 0
  {
    if workers != [] { NoHandsAsleep(workers[1..]); }
  }

  lemma LastReturn(s: State, u: State) returns (t: State)
    requires Leads(s, u) && u.main == PollRet(FromSync) && u.log.len <= 0
    ensures Leads(s, t) && t.main == Ready
  {
    hide Leads;
    t := u.(main := Ready);
    LeadsStep(u, Go, t);
    LeadsOn(s, u, t);
  }

  /** The done queue, once locked, is collected and counted off. */
  lemma Collected(s: State, before: State) returns (t: State)
    requires s.main == PollTake(FromSync) && s.dq.queue == before.dq.queue && s.log.len == |s.dq.queue|
    ensures Leads(s, t) && t.main == PollRet(FromSync) && t.log.len == 0
  {
    hide Leads;
    var c, batch := FromSync, s.dq.queue;
    var s1 := s.(main := PollUnlock(c, batch), dq := s.dq.(queue := []));
    LeadsStep(s, Go, s1);
    var s2 := s1.(main := PollAppend(c, batch), dq := s1.dq.(lock := Free));
    LeadsStep(s1, Go, s2);
    t := s2.(main := PollRet(c), dq := s2.dq.(list := s2.dq.list + batch), log := s2.log.(len := 0));
    LeadsStep(s2, Go, t);
    LeadsOn(s, s1, s2);
    LeadsOn(s, s2, t);
  }

  /** The overflow queue goes to the workers. */
  lemma Kicked(s: State) returns (t: State)
    requires Rested(s) && s.rq.overflow != [] && 1 <= |s.workers|
    ensures Leads(s, t) && CalledFrom(t.main, FromSync) && t.rq.overflow == []
  {
    hide Leads;
    var k := ToPoll(FromSync);
    var s1 := s.(main := RqAppend(s.rq.overflow, k), rq := Requests([], Main, []));
    LeadsStep(s, Go, s1);
    t := s1.(main := RqSignal(k), rq := Requests([] + s.rq.overflow, Main, []));
    LeadsStep(s1, Go, t);
    LeadsOn(s, s1, t);
  }

  /** With no overflow queue left. */
  lemma WithoutOverflow(s: State) returns (t: State)
    requires Inv(s) && CalledFrom(s.main, FromSync) && s.rq.overflow == []
    ensures Leads(s, t) && t.main == Ready
  {
    hide Leads, Inv, Rested;
    var u := MainToKick(s);
    if u.main == Ready { return u; }
    LeadsInv(s, u);
    var v := LetWork(u);
    t := LastTurn(v);
    LeadsOn(u, v, t);
    LeadsOn(s, u, t);
  }

  /** From every reachable state inside squidaio_sync there is a run to its return. */
  lemma SyncCanReturn(n: nat, s: State) returns (t: State)
    requires 1 <= n && Reached(n, s) && CalledFrom(s.main, FromSync)
    ensures Leads(s, t) && t.main == Ready
  {
    hide Leads, Inv, Reached, Rested;
    ReachedInv(n, s);
    var u := MainToKick(s);
    if u.main == Ready { return u; }
    LeadsInv(s, u);
    var v := LetWork(u);
    LeadsOn(s, u, v);
    if v.rq.overflow == [] {
      t := LastTurn(v);
    } else {
      assert 1 <= |v.workers| by { Somebody(v); }
      var w := Kicked(v);
      LeadsInv(v, w);
      t := WithoutOverflow(w);
      LeadsOn(v, w, t);
    }
    LeadsOn(s, v, t);
  }

  lemma Somebody(s: State)
    requires Inv(s)
    ensures 1 <= |s.workers|
  {
  }

  // ===== handlers =====

  /** How often a run calls the handler of r: when it is handed out or cancelled while its data is valid. */
  ghost function Calls(s: State, steps: seq<Step>, t: State, r: Req): nat
    requires Run(s, steps, t)
    decreases |steps|
  {
    if steps == [] then 0
    else
      var here := match steps[0]
                  case Deliver(runs) => if runs && s.dq.list[0] == r then 1 else 0
                  case Cancel(x, runs) => if runs && x == r then 1 else 0
                  case _ => 0;
      here + Calls(Next(s, steps[0]), steps[1..], t, r)
  }

  /** The log of handlers has just these calls. */
  lemma {:induction false} HandledAsCalled(s: State, steps: seq<Step>, t: State, r: Req)
    requires Run(s, steps, t)
    ensures Times(t.ctl.handled, r) == Times(s.ctl.handled, r) + Calls(s, steps, t, r)
    decreases |steps|
  {
    hide Times, WorkNext;
    if steps != [] {
      var u := Next(s, steps[0]);
      HandledAsCalled(u, steps[1..], t, r);
      HandledStep(s, steps[0], r);
    }
  }

  lemma HandledStep(s: State, step: Step, r: Req)
    requires Enabled(s, step)
    ensures Times(Next(s, step).ctl.handled, r) == Times(s.ctl.handled, r)
              + match step
                case Deliver(runs) => if runs && s.dq.list[0] == r then 1 else 0
                case Cancel(x, runs) => if runs && x == r then 1 else 0
                case _ => 0
  {
    hide Times;
    match step
    case Deliver(_) =>
      TimesAppend(s.ctl.handled, [s.dq.list[0]], r);
      TimesOne(s.dq.list[0], r);
    case Cancel(x, _) =>
      TimesAppend(s.ctl.handled, [x], r);
      TimesOne(x, r);
    case _ =>
  }

  /** A finished request's handler was called exactly once if its data was valid when it ended, and not at all
      otherwise. */
  lemma CalledOnce(n: nat, steps: seq<Step>, t: State, r: Req)
    requires 1 <= n && Run(Init(n), steps, t) && r in t.log.finished
    ensures Calls(Init(n), steps, t, r) == Times(t.ctl.handled, r) <= 1
  {
    hide Run, Calls, Times;
    HandledAsCalled(Init(n), steps, t, r);
    TimesOne(r, r);
    assert Reached(n, t);
    FinishedOnce(n, t, r);
  }
}
