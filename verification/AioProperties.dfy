/** What every interleaving of the I/O queue keeps. */
module AioProperties {
  import opened AioProtocol

  // ===== no stranded work among the workers =====

  ghost predicate SomeoneAwake(workers: seq<WorkerPc>) {
    exists i :: 0 <= i < |workers| && workers[i] != Waiting
  }

  /** Work in the request queue: someone is not asleep, or the main thread is about to wake someone. */
  ghost predicate NotStranded(s: State) {
    s.rq.queue != [] ==> s.main.RqSignal? || SomeoneAwake(s.workers)
  }

  lemma NotStrandedKept(s: State, step: Step)
    requires Enabled(s, step) && NotStranded(s) && 1 <= |s.workers|
    ensures NotStranded(Next(s, step))
  {
    var t := Next(s, step);
    match step
    case Work(i) =>
      if t.workers[i] != Waiting { assert SomeoneAwake(t.workers); }
    case Wake(i) => assert t.workers[i] != Waiting;
    case Spurious(i) => assert t.workers[i] != Waiting;
    case Go =>
      if s.main.RqSignal? { assert t.workers[0] != Waiting; }
    case _ =>
  }

  // ===== no lost completion signal =====

  /** Between taking the done queue's lock and writing to the pipe. */
  predicate Signalling(pc: WorkerPc) {
    pc.HoldDq? || pc.Appended? || pc.CheckFlag? || pc.SetFlag? || pc.WriteByte?
  }

  ghost predicate SomeSignalling(workers: seq<WorkerPc>) { exists i :: 0 <= i < |workers| && Signalling(workers[i]) }
  ghost predicate SomeWriting(workers: seq<WorkerPc>) { exists i :: 0 <= i < |workers| && workers[i].WriteByte? }

  /** The main thread will be told of finished requests. */
  ghost predicate Told(s: State) { s.dq.pipe > 0 || SomeSignalling(s.workers) }

  /** A set flag has a byte behind it, in the pipe or on its way. */
  ghost predicate FlagBacked(s: State) { s.dq.signalled ==> s.dq.pipe > 0 || SomeWriting(s.workers) }

  predicate CalledFrom(main: MainPc, c: Caller) {
    match main
    case RqAppend(_, k) => k == ToPoll(c)
    case RqSignal(k) => k == ToPoll(c)
    case RqUnlock(k) => k == ToPoll(c)
    case PollKick(d) => d == c
    case PollDoneQ(d) => d == c
    case PollTryDq(d) => d == c
    case PollTake(d) => d == c
    case PollUnlock(d, _) => d == c
    case PollAppend(d, _) => d == c
    case PollRet(d) => d == c
    case _ => false
  }

  /** Inside squidaio_poll_done. */
  predicate InDone(main: MainPc) {
    main.DoneHead? || main.DoneCheckFlag? || main.DoneReadPipe? || main.DoneClearFlag? || CalledFrom(main, FromDone)
  }

  /** Not draining, or already past the last look at the flag. */
  predicate Past(s: State) { !s.draining || CalledFrom(s.main, FromDone) || s.main == DoneHead(true) }

  /** Past the last look at the done queue. */
  predicate Decided(main: MainPc) {
    || main == DoneHead(true)
    || (CalledFrom(main, FromDone) && (main.PollUnlock? || main.PollAppend? || main.PollRet?))
  }

  function PollHand(main: MainPc): seq<Req> {
    match main
    case PollUnlock(_, batch) => batch
    case PollAppend(_, batch) => batch
    case _ => []
  }

  ghost predicate SignalInv(s: State) {
    && (InDone(s.main) ==> s.draining)
    && (Past(s) ==> FlagBacked(s))
    && (!s.draining && (s.dq.queue != [] || s.dq.list != [] || PollHand(s.main) != []) ==> Told(s))
    && (s.draining && Decided(s.main) && s.dq.queue != [] ==> Told(s))
  }

  lemma FlagBackedWork(s: State, i: nat)
    requires WorkEnabled(s, i) && FlagBacked(s)
    ensures FlagBacked(WorkNext(s, i))
  {
    var t := WorkNext(s, i);
    if t.workers[i].WriteByte? { assert SomeWriting(t.workers); }
    if SomeWriting(s.workers) {
      var j :| 0 <= j < |s.workers| && s.workers[j].WriteByte?;
      if j != i { assert t.workers[j].WriteByte?; }
    }
  }

  lemma ToldWork(s: State, i: nat)
    requires WorkEnabled(s, i) && FlagBacked(s) && (s.workers[i].HoldDq? || Told(s))
    ensures Told(WorkNext(s, i))
  {
    var t := WorkNext(s, i);
    if Signalling(t.workers[i]) {
      assert SomeSignalling(t.workers);
    } else if s.dq.pipe == 0 {
      if s.workers[i].CheckFlag? {
        var j :| 0 <= j < |s.workers| && s.workers[j].WriteByte?;
        assert Signalling(t.workers[j]);
      } else if !s.workers[i].WriteByte? {
        var j :| 0 <= j < |s.workers| && Signalling(s.workers[j]);
        assert Signalling(t.workers[j]);
      }
    }
  }

  lemma SignalWork(s: State, i: nat)
    requires WorkEnabled(s, i) && SignalInv(s)
    ensures SignalInv(WorkNext(s, i))
  {
    hide FlagBacked, Told;
    var t := WorkNext(s, i);
    if Past(s) {
      FlagBackedWork(s, i);
      if s.workers[i].HoldDq? || Told(s) { ToldWork(s, i); }
    }
  }

  lemma SignalGo(s: State)
    requires GoEnabled(s) && SignalInv(s) && Locks(s)
    ensures SignalInv(MainNext(s))
  {
    var t := MainNext(s);
    if s.main == PollTryDq(FromDone) && s.dq.lock.Worker? { assert Signalling(s.workers[s.dq.lock.i]); }
    assert t.workers == s.workers;
  }

  lemma SignalKept(s: State, step: Step)
    requires Enabled(s, step) && SignalInv(s) && Locks(s)
    ensures SignalInv(Next(s, step))
  {
    hide WorkNext, MainNext, Locks;
    match step
    case Work(i) => SignalWork(s, i);
    case Go => SignalGo(s);
    case Wake(i) => AwakenedKeeps(s, i);
    case Spurious(i) => AwakenedKeeps(s, i);
    case _ =>
  }

  lemma AwakenedKeeps(s: State, i: nat)
    requires i < |s.workers| && s.workers[i] == Waiting
    ensures var w := s.workers[i := WantRq];
            (SomeSignalling(s.workers) ==> SomeSignalling(w)) && (SomeWriting(s.workers) ==> SomeWriting(w))
  {
    var w := s.workers[i := WantRq];
    if SomeSignalling(s.workers) { var j :| 0 <= j < |s.workers| && Signalling(s.workers[j]); assert Signalling(w[j]); }
    if SomeWriting(s.workers) { var j :| 0 <= j < |s.workers| && s.workers[j].WriteByte?; assert w[j].WriteByte?; }
  }

  // ===== conservation: every request is in exactly one place =====

  /** How often r occurs in q. */
  function Times(q: seq<Req>, r: Req): nat { multiset(q)[r] }

  lemma TimesAppend(a: seq<Req>, b: seq<Req>, r: Req)
    ensures Times(a + b, r) == Times(a, r) + Times(b, r)
  {
  }

  lemma TimesHead(q: seq<Req>, r: Req)
    requires q != []
    ensures Times(q, r) == (if q[0] == r then 1 else 0) + Times(q[1..], r)
  {
    assert q == [q[0]] + q[1..];
  }

  predicate Holding(pc: WorkerPc) { pc.Popped? || pc.Busy? || pc.WantDq? || pc.HoldDq? }

  function Hand(pc: WorkerPc, r: Req): nat {
    if Holding(pc) && pc.r == r then 1 else 0
  }

  /** How many workers have r in their hands. */
  function Held(workers: seq<WorkerPc>, r: Req): nat {
    if workers == [] then 0 else Hand(workers[0], r) + Held(workers[1..], r)
  }

  lemma {:induction false} HeldUpdate(workers: seq<WorkerPc>, i: nat, pc: WorkerPc, r: Req)
    requires i < |workers|
    ensures Held(workers[i := pc], r) + Hand(workers[i], r) == Held(workers, r) + Hand(pc, r)
  {
    var w := workers[i := pc];
    if i == 0 {
      assert w[1..] == workers[1..];
    } else {
      assert w[1..] == workers[1..][i - 1 := pc];
      HeldUpdate(workers[1..], i - 1, pc, r);
    }
  }

  function RqBatch(main: MainPc): seq<Req> { if main.RqAppend? then main.batch else [] }
  function SubmitHand(main: MainPc): seq<Req> { if main.SubmitTry? then [main.r] else [] }

  function MainHolds(main: MainPc, r: Req): nat {
    Times(RqBatch(main), r) + Times(SubmitHand(main), r) + Times(PollHand(main), r)
  }

  /** In how many places r is: the request queues, a worker's hands, the done queue, the main thread's
      hands, the list of done requests, or finished. */
  function Places(s: State, r: Req): nat {
    Times(s.rq.queue, r) + Times(s.rq.overflow, r) + Held(s.workers, r) + Times(s.dq.queue, r)
    + MainHolds(s.main, r) + Times(s.dq.list, r) + Times(s.log.finished, r)
  }

  ghost predicate Conserved(s: State) {
    && (forall r :: Places(s, r) == Times(s.log.submitted, r))
    && (forall r :: Times(s.log.submitted, r) <= 1)
    && s.log.len == |s.log.submitted| - |s.dq.list| - |s.log.finished|
  }

  lemma PlacesWork(s: State, i: nat, r: Req)
    requires WorkEnabled(s, i)
    ensures Places(WorkNext(s, i), r) == Places(s, r)
  {
    hide Held, Times;
    HeldUpdate(s.workers, i, WorkPc(s, i), r);
    match s.workers[i]
    case HoldRq => if s.rq.queue != [] { TimesHead(s.rq.queue, r); }
    case HoldDq(x) =>
      TimesAppend(s.dq.queue, [x], r);
      TimesOne(x, r);
    case _ =>
  }

  lemma TimesOne(x: Req, r: Req)
    ensures Times([x], r) == if x == r then 1 else 0
    ensures Times([], r) == 0
  {
  }

  lemma PlacesGo(s: State, r: Req)
    requires GoEnabled(s)
    ensures Places(MainNext(s), r) == Places(s, r)
  {
    hide Held, Times;
    TimesOne(r, r);
    match s.main
    case SubmitTry(x) => TimesAppend(s.rq.overflow, [x], r);
    case RqAppend(batch, _) => TimesAppend(s.rq.queue, batch, r);
    case PollAppend(_, batch) => TimesAppend(s.dq.list, batch, r);
    case DoneHead(_) => if s.dq.list != [] { PlacesDone(s, r); }
    case _ =>
  }

  lemma PlacesDone(s: State, r: Req)
    requires s.dq.list != []
    ensures Times(s.dq.list[1..], r) + Times(s.log.finished + [s.dq.list[0]], r)
         == Times(s.dq.list, r) + Times(s.log.finished, r)
  {
    TimesHead(s.dq.list, r);
    TimesAppend(s.log.finished, [s.dq.list[0]], r);
  }

  lemma PlacesKept(s: State, step: Step, r: Req)
    requires Enabled(s, step)
    ensures var t := Next(s, step);
            Places(t, r) - Places(s, r) == Times(t.log.submitted, r) - Times(s.log.submitted, r)
  {
    hide WorkNext, MainNext, Held, Times;
    TimesOne(r, r);
    match step
    case Work(i) => PlacesWork(s, i, r); assert WorkNext(s, i).log.submitted == s.log.submitted by { WorkLogs(s, i); }
    case Go => PlacesGo(s, r); MainLogs(s);
    case Wake(i) => HeldUpdate(s.workers, i, WantRq, r);
    case Spurious(i) => HeldUpdate(s.workers, i, WantRq, r);
    case Deliver(_) => PlacesDone(s, r);
    case Submit(x) => TimesAppend(s.log.submitted, [x], r);
    case _ =>
  }

  lemma WorkLogs(s: State, i: nat)
    requires WorkEnabled(s, i)
    ensures var t := WorkNext(s, i);
            t.log.submitted == s.log.submitted && t.log.len == s.log.len && t.dq.list == s.dq.list
              && t.log.finished == s.log.finished
  {
  }

  lemma MainLogs(s: State)
    requires GoEnabled(s)
    ensures var t := MainNext(s);
            t.log.submitted == s.log.submitted
            && t.log.len + |t.dq.list| + |t.log.finished| == s.log.len + |s.dq.list| + |s.log.finished|
  {
  }

  lemma ConservedKept(s: State, step: Step)
    requires Enabled(s, step) && Conserved(s)
    ensures Conserved(Next(s, step))
  {
    hide WorkNext, MainNext, Places, Times;
    var t := Next(s, step);
    forall r ensures Places(t, r) == Times(t.log.submitted, r) && Times(t.log.submitted, r) <= 1 {
      PlacesKept(s, step, r);
      SubmittedOnce(s, step, r);
    }
    match step
    case Work(i) => WorkLogs(s, i);
    case Go => MainLogs(s);
    case _ =>
  }

  lemma SubmittedOnce(s: State, step: Step, r: Req)
    requires Enabled(s, step) && Times(s.log.submitted, r) <= 1
    ensures Times(Next(s, step).log.submitted, r) <= 1
  {
    hide WorkNext, MainNext;
    match step
    case Work(i) => WorkLogs(s, i);
    case Go => MainLogs(s);
    case Submit(x) =>
      TimesAppend(s.log.submitted, [x], r);
      TimesOne(x, r);
    case _ =>
  }

  // ===== order: workers take requests in submission order =====

  ghost predicate Ordered(s: State) {
    && s.log.taken + s.rq.queue + RqBatch(s.main) + s.rq.overflow + SubmitHand(s.main) == s.log.submitted
    && (s.main.RqAppend? ==> s.rq.overflow == [])
  }

  lemma OrderedWork(s: State, i: nat)
    requires WorkEnabled(s, i) && Ordered(s)
    ensures Ordered(WorkNext(s, i))
  {
    if s.workers[i] == HoldRq && s.rq.queue != [] {
      assert s.log.taken + [s.rq.queue[0]] + s.rq.queue[1..] == s.log.taken + s.rq.queue;
    }
  }

  lemma OrderedGo(s: State)
    requires GoEnabled(s) && Ordered(s)
    ensures Ordered(MainNext(s))
  {
    var t := MainNext(s);
    var l := s.log.taken + s.rq.queue;
    match s.main
    case SubmitTry(r) => assert l + (s.rq.overflow + [r]) == l + [] + s.rq.overflow + [r];
    case RqAppend(batch, _) => assert s.log.taken + (s.rq.queue + batch) == l + batch;
    case _ =>
  }

  lemma OrderedKept(s: State, step: Step)
    requires Enabled(s, step) && Ordered(s)
    ensures Ordered(Next(s, step))
  {
    hide WorkNext, MainNext;
    match step
    case Work(i) => OrderedWork(s, i);
    case Go => OrderedGo(s);
    case _ =>
  }

  // ===== request_queue_len counts what squidaio_sync waits for =====

  /** How many workers have a request in their hands. */
  function Hands(workers: seq<WorkerPc>): nat {
    if workers == [] then 0 else (if Holding(workers[0]) then 1 else 0) + Hands(workers[1..])
  }

  lemma {:induction false} HandsUpdate(workers: seq<WorkerPc>, i: nat, pc: WorkerPc)
    requires i < |workers|
    ensures Hands(workers[i := pc]) + (if Holding(workers[i]) then 1 else 0)
         == Hands(workers) + (if Holding(pc) then 1 else 0)
  {
    var w := workers[i := pc];
    if i == 0 {
      assert w[1..] == workers[1..];
    } else {
      assert w[1..] == workers[1..][i - 1 := pc];
      HandsUpdate(workers[1..], i - 1, pc);
    }
  }

  lemma {:induction false} NoHands(workers: seq<WorkerPc>)
    requires Hands(workers) == 0
    ensures forall i | 0 <= i < |workers| :: !Holding(workers[i])
  {
    if workers != [] {
      NoHands(workers[1..]);
      forall i | 0 <= i < |workers| ensures !Holding(workers[i]) {
        if i > 0 { assert workers[i] == workers[1..][i - 1]; }
      }
    }
  }

  ghost predicate Counted(s: State) {
    s.log.len == |s.rq.queue| + |RqBatch(s.main)| + |s.rq.overflow| + |SubmitHand(s.main)|
                 + Hands(s.workers) + |s.dq.queue| + |PollHand(s.main)|
  }

  lemma CountedKept(s: State, step: Step)
    requires Enabled(s, step) && Counted(s)
    ensures Counted(Next(s, step))
  {
    hide WorkNext, MainNext, Hands;
    match step
    case Work(i) => CountedWork(s, i);
    case Go => CountedGo(s);
    case Wake(i) => HandsUpdate(s.workers, i, WantRq);
    case Spurious(i) => HandsUpdate(s.workers, i, WantRq);
    case _ =>
  }

  lemma CountedWork(s: State, i: nat)
    requires WorkEnabled(s, i) && Counted(s)
    ensures Counted(WorkNext(s, i))
  {
    hide Hands;
    HandsUpdate(s.workers, i, WorkPc(s, i));
  }

  lemma CountedGo(s: State)
    requires GoEnabled(s) && Counted(s)
    ensures Counted(MainNext(s))
  {
    hide Hands;
    assert MainNext(s).workers == s.workers;
  }

  // ===== control blocks =====

  /** The main thread is still inside the submission of r, before its block is on used_list. */
  predicate Submitting(main: MainPc, r: Req) {
    match main
    case SubmitTry(x) => x == r
    case RqAppend(_, k) => k == ToSubmit(r) || k == ToPoll(FromSubmit(r))
    case RqSignal(k) => k == ToSubmit(r) || k == ToPoll(FromSubmit(r))
    case RqUnlock(k) => k == ToSubmit(r) || k == ToPoll(FromSubmit(r))
    case SubmitEnd(x) => x == r
    case _ => CalledFrom(main, FromSubmit(r))
  }

  /** Unless cancelled, a request is returned when it is finished; a block is released by either. */
  ghost predicate BlockOk(b: Blocks, submitting: bool, submitted: nat, finished: nat, r: Req) {
    && (r in b.used <==> submitted == 1 && !submitting && r !in b.cancelled && Times(b.returned, r) == 0)
    && (r in b.cancelled ==> submitted == 1 && !submitting && Times(b.returned, r) == 0)
    && (r !in b.cancelled ==> Times(b.returned, r) == finished)
    && Times(b.released, r) == (if r in b.cancelled then 1 else 0) + Times(b.returned, r)
    && Times(b.handled, r) <= Times(b.released, r)
    && Times(b.written, r) == Times(b.returned, r)
    && (submitting ==> submitted == 1 && finished == 0)
  }

  ghost predicate Released(s: State) {
    forall r :: BlockOk(s.ctl, Submitting(s.main, r), Times(s.log.submitted, r), Times(s.log.finished, r), r)
  }

  lemma ReleasedGo(s: State, r: Req)
    requires GoEnabled(s) && Conserved(s) && Released(s)
    ensures var t := MainNext(s);
            BlockOk(t.ctl, Submitting(t.main, r), Times(t.log.submitted, r), Times(t.log.finished, r), r)
  {
    hide Times, Conserved;
    MainLogs(s);
    if s.main.DoneHead? && s.dq.list != [] {
      TimesAppend(s.log.finished, [s.dq.list[0]], r);
      TimesOne(s.dq.list[0], r);
    }
  }

  lemma ReleasedDeliver(s: State, runs: bool, r: Req)
    requires Enabled(s, Deliver(runs)) && Conserved(s) && Released(s)
    ensures var t := Next(s, Deliver(runs));
            BlockOk(t.ctl, Submitting(t.main, r), Times(t.log.submitted, r), Times(t.log.finished, r), r)
  {
    hide Times, Held;
    var x := s.dq.list[0];
    TimesAppend(s.log.finished, [x], r);
    TimesAppend(s.ctl.returned, [x], r);
    TimesAppend(s.ctl.released, [x], r);
    TimesAppend(s.ctl.handled, [x], r);
    TimesAppend(s.ctl.written, [x], r);
    TimesOne(x, r);
    TimesHead(s.dq.list, x);
    assert Places(s, x) == Times(s.log.submitted, x);
  }

  lemma ReleasedOther(s: State, step: Step, r: Req)
    requires Enabled(s, step) && Conserved(s) && Released(s) && !step.Deliver? && !step.Go?
    ensures var t := Next(s, step);
            BlockOk(t.ctl, Submitting(t.main, r), Times(t.log.submitted, r), Times(t.log.finished, r), r)
  {
    hide Times, Held, WorkNext;
    match step
    case Work(i) =>
      WorkLogs(s, i);
      assert WorkNext(s, i).ctl == s.ctl && WorkNext(s, i).main == s.main by { WorkLeaves(s, i); }
    case Submit(x) =>
      TimesAppend(s.log.submitted, [x], r);
      TimesOne(x, r);
      assert Times(s.log.submitted, x) == 0 by { NotThere(s.log.submitted, x); }
      assert Places(s, x) == Times(s.log.submitted, x);
    case Cancel(x, runs) =>
      TimesAppend(s.ctl.released, [x], r);
      TimesAppend(s.ctl.handled, [x], r);
      TimesOne(x, r);
    case _ =>
  }

  lemma NotThere(q: seq<Req>, r: Req)
    ensures Times(q, r) == 0 <==> r !in q
  {
  }

  lemma WorkLeaves(s: State, i: nat)
    requires WorkEnabled(s, i)
    ensures var t := WorkNext(s, i); t.ctl == s.ctl && t.main == s.main
  {
  }

  lemma ReleasedKept(s: State, step: Step)
    requires Enabled(s, step) && Conserved(s) && Released(s)
    ensures Released(Next(s, step))
  {
    hide BlockOk, Conserved, WorkNext, MainNext, Times, Submitting;
    var t := Next(s, step);
    forall r
      ensures BlockOk(t.ctl, Submitting(t.main, r), Times(t.log.submitted, r), Times(t.log.finished, r), r)
    {
      match step
      case Go => ReleasedGo(s, r);
      case Deliver(runs) => ReleasedDeliver(s, runs, r);
      case _ => ReleasedOther(s, step, r);
    }
  }
}
