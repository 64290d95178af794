/** Handing out finished requests: what a poll returns and what a drain gets done. */
module AioDone {
  import opened AioProperties
  import opened AioProtocol
  import opened AioRuns
  import opened AioSync

  // ===== runs of the main thread alone =====

  ghost predicate Own(steps: seq<Step>) { forall i | 0 <= i < |steps| :: !steps[i].Work? && !steps[i].Spurious? }

  ghost predicate Alone(s: State, t: State) { exists steps :: Run(s, steps, t) && Own(steps) }

  lemma AloneOn(s: State, t: State, u: State)
    requires Alone(s, t) && Alone(t, u)
    ensures Alone(s, u)
  {
    hide Run;
    var a :| Run(s, a, t) && Own(a);
    var b :| Run(t, b, u) && Own(b);
    RunCat(s, a, t, b, u);
    assert Own(a + b);
  }

  lemma AloneStep(s: State, step: Step)
    requires Enabled(s, step) && !step.Work? && !step.Spurious?
    ensures Alone(s, Next(s, step))
  {
    hide Next, Enabled;
    var one := [step];
    assert one[0] == step && one[1..] == [];
    assert Run(s, one, Next(s, step));
    assert Own(one);
  }

  lemma AloneNowhere(s: State)
    ensures Alone(s, s)
  {
    assert Run(s, [], s) && Own([]);
  }

  // ===== one call of squidaio_poll_done =====

  /** Cancelled requests at the front are dropped on the way. */
  function Dropped(s: State, k: nat): State
    requires k <= |s.dq.list|
  {
    s.(dq := s.dq.(list := s.dq.list[k..]), log := s.log.(finished := s.log.finished + s.dq.list[..k]))
  }

  lemma {:induction false} Drops(s: State, k: nat)
    requires s.main.DoneHead? && k <= |s.dq.list| && forall j | 0 <= j < k :: s.dq.list[j] in s.ctl.cancelled
    ensures Alone(s, Dropped(s, k))
    decreases k
  {
    hide Alone;
    var q := s.dq.list;
    if k == 0 {
      assert q[0..] == q && s.log.finished + q[..0] == s.log.finished;
      AloneNowhere(s);
    } else {
      var u := Next(s, Go);
      AloneStep(s, Go);
      assert u == Dropped(s, 1);
      Drops(u, k - 1);
      AloneOn(s, u, Dropped(u, k - 1));
      assert q[1..][k - 1..] == q[k..];
      assert s.log.finished + q[..1] + q[1..][..k - 1] == s.log.finished + q[..k];
    }
  }

  /** The state after request r, first in the list, is handed out. */
  function HandedOut(s: State, runs: bool): State
    requires s.dq.list != []
  {
    var r := s.dq.list[0];
    var b := s.ctl;
    s.(main := Ready, dq := s.dq.(list := s.dq.list[1..]), log := s.log.(finished := s.log.finished + [r]),
       ctl := Blocks(b.used - {r}, b.cancelled, b.released + [r], b.returned + [r],
                     if runs then b.handled + [r] else b.handled, b.written + [r]))
  }

  /** A call with something done returns the first request that was not cancelled, without a poll: it drops
      those before it, writes its result, calls its handler if its data is valid, and is ready again. */
  lemma PollReturns(s: State, k: nat, runs: bool)
    requires s.main == Ready && s.draining && k < |s.dq.list| && s.dq.list[k] !in s.ctl.cancelled
    requires forall j | 0 <= j < k :: s.dq.list[j] in s.ctl.cancelled
    ensures Alone(s, HandedOut(Dropped(s, k), runs))
  {
    hide Alone;
    AloneStep(s, PollDone);
    var u := Next(s, PollDone);
    Drops(u, k);
    var v := Dropped(u, k);
    AloneOn(s, u, v);
    assert v.dq.list[0] == s.dq.list[k];
    AloneStep(v, Deliver(runs));
    AloneOn(s, v, Next(v, Deliver(runs)));
  }

  /** Between calls any request in use can be cancelled: its block is released at once, and its handler called if
      its data is valid. */
  lemma CancelsAtOnce(s: State, r: Req, runs: bool)
    requires s.main == Ready && r in s.ctl.used
    ensures var b := s.ctl;
            Alone(s, s.(ctl := Blocks(b.used - {r}, b.cancelled + {r}, b.released + [r], b.returned,
                                      if runs then b.handled + [r] else b.handled, b.written)))
  {
    AloneStep(s, Cancel(r, runs));
  }

  // ===== the drain of aioCheckCallbacks =====

  /** The list is handed out; polled is forgotten with the first call that returns. */
  lemma {:induction false} DrainList(s: State) returns (t: State)
    requires s.main.DoneHead? && s.draining
    ensures Alone(s, t) && t.main.DoneHead? && t.draining && t.rq == s.rq && t.dq == s.dq.(list := [])
    ensures t.log.finished == s.log.finished + s.dq.list
    ensures t.main == s.main || t.main == DoneHead(false)
    decreases |s.dq.list|
  {
    hide Alone;
    var q := s.dq.list;
    if q == [] {
      AloneNowhere(s);
      return s;
    }
    var u;
    if q[0] in s.ctl.cancelled {
      AloneStep(s, Go);
      u := Next(s, Go);
    } else {
      AloneStep(s, Deliver(true));
      var v := Next(s, Deliver(true));
      AloneStep(v, PollDone);
      u := Next(v, PollDone);
      AloneOn(s, v, u);
    }
    t := DrainList(u);
    AloneOn(s, u, t);
    assert s.log.finished + [q[0]] + q[1..] == s.log.finished + q;
  }

  function StepsLeft(main: MainPc): nat {
    match main
    case DoneHead(polled) => if polled then 0 else 14
    case DoneCheckFlag => 13
    case DoneReadPipe => 12
    case DoneClearFlag => 11
    case PollKick(_) => 10
    case _ => Ahead(main)
  }

  /** Inside the poll that squidaio_poll_done makes. */
  predicate Polling(main: MainPc) {
    || main.DoneHead? || main.DoneCheckFlag? || main.DoneReadPipe? || main.DoneClearFlag?
    || CalledFrom(main, FromDone)
  }

  /** The requests that are done and not handed out, as far as the main thread can get at them. */
  function InReach(s: State): seq<Req> {
    s.dq.list + match s.main
                case PollTake(_) => s.dq.queue
                case PollUnlock(_, batch) => batch
                case PollAppend(_, batch) => batch
                case PollRet(_) => []
                case DoneHead(polled) => if polled || s.dq.lock != Free then [] else s.dq.queue
                case _ => if s.dq.lock == Free then s.dq.queue else []
  }

  /** What the poll could take, it has taken. */
  ghost predicate Cleared(s: State) {
    match s.main
    case PollUnlock(_, _) => s.dq.queue == []
    case PollAppend(_, _) => s.dq.lock == Free ==> s.dq.queue == []
    case PollRet(_) => s.dq.lock == Free ==> s.dq.queue == []
    case DoneHead(polled) => polled && s.dq.lock == Free ==> s.dq.queue == []
    case _ => true
  }

  /** A poll without a result yet goes on to its end by itself. */
  lemma {:induction false} PollOnce(s: State) returns (t: State)
    requires Polling(s.main) && s.draining && (s.main.DoneHead? ==> s.dq.list == []) && Cleared(s)
    ensures Alone(s, t) && t.main == DoneHead(true) && t.draining && t.dq.list == InReach(s) && Cleared(t)
    ensures t.log.finished == s.log.finished
    decreases StepsLeft(s.main)
  {
    hide Alone, Next, Enabled;
    if s.main == DoneHead(true) {
      AloneNowhere(s);
      return s;
    }
    var step := PollStep(s);
    var u := Next(s, step);
    AloneStep(s, step);
    if u.main.DoneHead? { return u; }
    t := PollOnce(u);
    AloneOn(s, u, t);
  }

  lemma PollStep(s: State) returns (step: Step)
    requires Polling(s.main) && s.main != DoneHead(true) && (s.main.DoneHead? ==> s.dq.list == []) && Cleared(s)
    ensures Enabled(s, step) && !step.Work? && !step.Spurious?
    ensures var u := Next(s, step);
            && Polling(u.main) && StepsLeft(u.main) < StepsLeft(s.main) && InReach(u) == InReach(s)
            && u.log.finished == s.log.finished && u.draining == s.draining && Cleared(u)
            && (u.main.DoneHead? ==> u.main.polled)
  {
    if s.main.RqSignal? && exists i :: 0 <= i < |s.workers| && s.workers[i] == Waiting {
      var i: nat :| i < |s.workers| && s.workers[i] == Waiting;
      step := Wake(i);
    } else {
      step := Go;
    }
  }

  /** aioCheckCallbacks, or the handler of the pipe, which reads it first: between calls it can be run, it comes
      to its end by itself, and then all that was done has been handed out or dropped, but for what is in a
      queue that a worker has locked. */
  lemma HandsOutAll(s: State, first: Step) returns (t: State)
    requires s.main == Ready && !s.draining && (first == CheckCallbacks || first == FdHandler)
    ensures Enabled(s, first) && Alone(Next(s, first), t) && t.main == Ready && !t.draining && t.dq.list == []
    ensures t.log.finished == s.log.finished + s.dq.list + if s.dq.lock == Free then s.dq.queue else []
  {
    hide Alone, InReach, Cleared;
    var a := Next(s, first);
    var b := Next(a, PollDone);
    AloneStep(a, PollDone);
    var c := DrainList(b);
    AloneOn(a, b, c);
    var d := PolledAgain(c);
    AloneOn(a, c, d);
    t := Next(d, DrainEnds(true));
    AloneStep(d, DrainEnds(true));
    AloneOn(a, d, t);
  }

  lemma PolledAgain(c: State) returns (t: State)
    requires c.main == DoneHead(false) && c.draining && c.dq.list == []
    ensures Alone(c, t) && t.main == DoneHead(true) && t.draining && t.dq.list == []
    ensures t.log.finished == c.log.finished + if c.dq.lock == Free then c.dq.queue else []
  {
    hide Alone, Next, Enabled;
    var d := PollOnce(c);
    t := DrainList(d);
    AloneOn(c, d, t);
    if t.main == DoneHead(false) {
      var e := t;
      t := PollOnce(e);
      AloneOn(c, e, t);
    }
  }
}
