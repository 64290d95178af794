/** The threaded I/O queue: one main thread and its workers, as a transition system.
    Every step is one atomic action under sequential consistency: a lock operation, a read or write of
    a shared variable, or a piece of code that only touches variables of one thread or of a held lock. */
module AioProtocol {

  type Req = nat

  datatype Owner = Free | Main | Worker(i: nat)

  /** Where a worker is in squidaio_thread_loop. */
  datatype WorkerPc =
    | WantRq                     // about to lock the request queue, at first or after a wake-up
    | HoldRq                     // holds it, tests for an empty queue
    | Waiting                    // in pthread_cond_wait
    | Popped(r: Req)             // still holds the lock
    | Busy(r: Req)               // runs the request
    | WantDq(r: Req)             // about to lock the done queue
    | HoldDq(r: Req)             // holds it, has not appended yet
    | Appended                   // has appended, still holds it
    | CheckFlag                  // about to read done_signalled
    | SetFlag                    // has seen it clear, about to set it
    | WriteByte                  // has set it, about to write to the pipe

  /** Who called squidaio_poll_queues. */
  datatype Caller = FromSync | FromSubmit(r: Req) | FromDone

  datatype RqReturn = ToSubmit(r: Req) | ToPoll(c: Caller)

  /** Where the main thread is. */
  datatype MainPc =
    | Ready                                     // between calls
    | SubmitTry(r: Req)                         // squidaio_queue_request, at its trylock
    | RqAppend(batch: seq<Req>, k: RqReturn)    // holds the request queue lock
    | RqSignal(k: RqReturn)
    | RqUnlock(k: RqReturn)
    | SubmitEnd(r: Req)
    | PollKick(c: Caller)                       // squidaio_poll_queues
    | PollDoneQ(c: Caller)                      // looks at done_queue.head
    | PollTryDq(c: Caller)                      // at the trylock
    | PollTake(c: Caller)                       // holds the done queue lock
    | PollUnlock(c: Caller, batch: seq<Req>)
    | PollAppend(c: Caller, batch: seq<Req>)
    | PollRet(c: Caller)
    | DoneHead(polled: bool)                    // squidaio_poll_done
    | DoneCheckFlag
    | DoneReadPipe
    | DoneClearFlag

  /** request_queue, and request_queue2, which only the main thread touches. */
  datatype Requests = Requests(queue: seq<Req>, lock: Owner, overflow: seq<Req>)

  /** done_queue, done_requests, done_signalled and the pipe. */
  datatype Done = Done(queue: seq<Req>, lock: Owner, list: seq<Req>, signalled: bool, pipe: nat)

  /** request_queue_len, and the history of requests. */
  datatype Log = Log(len: int, submitted: seq<Req>, taken: seq<Req>, finished: seq<Req>)

  /** The control blocks of async_io: used_list, and what became of the others; written has the requests whose
      result, which lies in the control block, was written. */
  datatype Blocks = Blocks(used: set<Req>, cancelled: set<Req>, released: seq<Req>, returned: seq<Req>,
                           handled: seq<Req>, written: seq<Req>)

  datatype State = State(workers: seq<WorkerPc>, main: MainPc,
                         draining: bool,        // inside aioCheckCallbacks
                         rq: Requests, dq: Done, log: Log, ctl: Blocks)

  const PIPE_CAPACITY := 65536
  const JUNK := 256              // bytes read from the pipe at a time

  function Init(n: nat): State {
    State(seq(n, i => WantRq), Ready, false, Requests([], Free, []), Done([], Free, [], false, 0),
          Log(0, [], [], []), Blocks({}, {}, [], [], [], []))
  }

  function ReadPipe(pipe: nat): nat { if pipe <= JUNK then 0 else pipe - JUNK }
  function WritePipe(pipe: nat): nat { if pipe < PIPE_CAPACITY then pipe + 1 else pipe }

  datatype Step =
    // main thread, free choices
    | Submit(r: Req) | Sync | FdHandler | CheckCallbacks | PollDone | Cancel(r: Req, runs: bool)
    // main thread, going on; the choices are the woken waiter, whether the handler runs,
    // whether a submission syncs, and whether the end of the list ends the outermost drain
    | Go | Wake(i: nat) | SubmitSyncs | Deliver(runs: bool) | DrainEnds(outer: bool)
    // workers
    | Work(i: nat) | Spurious(i: nat)

  // ----- the workers -----

  predicate WorkEnabled(s: State, i: nat) {
    && i < |s.workers|
    && match s.workers[i]
       case WantRq => s.rq.lock == Free
       case WantDq(_) => s.dq.lock == Free
       case Waiting => false
       case _ => true
  }

  /** The worker's next position. */
  function WorkPc(s: State, i: nat): WorkerPc
    requires WorkEnabled(s, i)
  {
    match s.workers[i]
    case WantRq => HoldRq
    case HoldRq => if s.rq.queue == [] then Waiting else Popped(s.rq.queue[0])
    case Popped(r) => Busy(r)
    case Busy(r) => WantDq(r)
    case WantDq(r) => HoldDq(r)
    case HoldDq(r) => Appended
    case Appended => CheckFlag
    case CheckFlag => if s.dq.signalled then WantRq else SetFlag
    case SetFlag => WriteByte
    case WriteByte => WantRq
  }

  function WorkRq(s: State, i: nat): Requests
    requires WorkEnabled(s, i)
  {
    match s.workers[i]
    case WantRq => s.rq.(lock := Worker(i))
    case HoldRq => if s.rq.queue == [] then s.rq.(lock := Free) else s.rq.(queue := s.rq.queue[1..])
    case Popped(r) => s.rq.(lock := Free)
    case _ => s.rq
  }

  function WorkDq(s: State, i: nat): Done
    requires WorkEnabled(s, i)
  {
    match s.workers[i]
    case WantDq(r) => s.dq.(lock := Worker(i))
    case HoldDq(r) => s.dq.(queue := s.dq.queue + [r])
    case Appended => s.dq.(lock := Free)
    case SetFlag => s.dq.(signalled := true)
    case WriteByte => s.dq.(pipe := WritePipe(s.dq.pipe))
    case _ => s.dq
  }

  function WorkLog(s: State, i: nat): Log
    requires WorkEnabled(s, i)
  {
    if s.workers[i] == HoldRq && s.rq.queue != [] then s.log.(taken := s.log.taken + [s.rq.queue[0]]) else s.log
  }

  function WorkNext(s: State, i: nat): State
    requires WorkEnabled(s, i)
  {
    State(s.workers[i := WorkPc(s, i)], s.main, s.draining, WorkRq(s, i), WorkDq(s, i), WorkLog(s, i), s.ctl)
  }

  // ----- the main thread -----

  function AfterRq(k: RqReturn): MainPc {
    match k case ToSubmit(r) => SubmitEnd(r) case ToPoll(c) => PollDoneQ(c)
  }

  predicate GoEnabled(s: State) {
    match s.main
    case Ready => false
    case RqSignal(_) => forall i | 0 <= i < |s.workers| :: s.workers[i] != Waiting
    case DoneHead(polled) => if s.dq.list == [] then !polled else s.dq.list[0] in s.ctl.cancelled
    case _ => true
  }

  function MainPcNext(s: State): MainPc
    requires GoEnabled(s)
  {
    match s.main
    case SubmitTry(r) => if s.rq.lock == Free then RqAppend(s.rq.overflow + [r], ToSubmit(r)) else SubmitEnd(r)
    case RqAppend(batch, k) => RqSignal(k)
    case RqSignal(k) => RqUnlock(k)
    case RqUnlock(k) => AfterRq(k)
    case SubmitEnd(r) => Ready
    case PollKick(c) =>
      if s.rq.overflow != [] && s.rq.lock == Free then RqAppend(s.rq.overflow, ToPoll(c)) else PollDoneQ(c)
    case PollDoneQ(c) => if s.dq.queue != [] then PollTryDq(c) else PollRet(c)
    case PollTryDq(c) => if s.dq.lock == Free then PollTake(c) else PollRet(c)
    case PollTake(c) => PollUnlock(c, s.dq.queue)
    case PollUnlock(c, batch) => PollAppend(c, batch)
    case PollAppend(c, batch) => PollRet(c)
    case PollRet(c) =>
      if c == FromDone then DoneHead(true)
      else if s.log.len > 0 then PollKick(c)
      else if c.FromSubmit? then SubmitEnd(c.r) else Ready
    case DoneHead(polled) => if s.dq.list == [] then DoneCheckFlag else DoneHead(polled)
    case DoneCheckFlag => if s.dq.signalled then DoneReadPipe else PollKick(FromDone)
    case DoneReadPipe => DoneClearFlag
    case DoneClearFlag => PollKick(FromDone)
  }

  function MainRq(s: State): Requests {
    match s.main
    case SubmitTry(r) =>
      if s.rq.lock == Free then s.rq.(overflow := [], lock := Main) else s.rq.(overflow := s.rq.overflow + [r])
    case RqAppend(batch, k) => s.rq.(queue := s.rq.queue + batch)
    case RqUnlock(k) => s.rq.(lock := Free)
    case PollKick(c) => if s.rq.overflow != [] && s.rq.lock == Free then s.rq.(overflow := [], lock := Main) else s.rq
    case _ => s.rq
  }

  function MainDq(s: State): Done {
    match s.main
    case PollTryDq(c) => if s.dq.lock == Free then s.dq.(lock := Main) else s.dq
    case PollTake(c) => s.dq.(queue := [])
    case PollUnlock(c, batch) => s.dq.(lock := Free)
    case PollAppend(c, batch) => s.dq.(list := s.dq.list + batch)
    case DoneHead(polled) => if s.dq.list == [] then s.dq else s.dq.(list := s.dq.list[1..])
    case DoneReadPipe => s.dq.(pipe := ReadPipe(s.dq.pipe))
    case DoneClearFlag => s.dq.(signalled := false)
    case _ => s.dq
  }

  function MainLog(s: State): Log {
    match s.main
    case PollAppend(c, batch) => s.log.(len := s.log.len - |batch|)
    case DoneHead(polled) => if s.dq.list == [] then s.log else s.log.(finished := s.log.finished + [s.dq.list[0]])
    case _ => s.log
  }

  function MainNext(s: State): State
    requires GoEnabled(s)
  {
    State(s.workers, MainPcNext(s), s.draining, MainRq(s), MainDq(s), MainLog(s), MainCtl(s))
  }

  function MainCtl(s: State): Blocks {
    match s.main
    case SubmitEnd(r) => s.ctl.(used := s.ctl.used + {r})
    case DoneHead(_) => if s.dq.list == [] then s.ctl else CleanUp(s.ctl, s.dq.list[0])
    case _ => s.ctl
  }

  /** squidaio_cleanup_request: the result is written unless the request was cancelled. */
  function CleanUp(b: Blocks, r: Req): Blocks {
    if r in b.cancelled then b else b.(written := b.written + [r])
  }

  // ----- all steps -----

  predicate Enabled(s: State, step: Step) {
    match step
    case Submit(r) => s.main == Ready && r !in s.log.submitted
    case Sync => s.main == Ready
    case FdHandler => s.main == Ready && !s.draining
    case CheckCallbacks => s.main == Ready && !s.draining
    case PollDone => s.main == Ready && s.draining
    case Cancel(r, _) => s.main == Ready && r in s.ctl.used
    case Go => GoEnabled(s)
    case Wake(i) => s.main.RqSignal? && i < |s.workers| && s.workers[i] == Waiting
    case SubmitSyncs => s.main.SubmitEnd?
    case Deliver(_) => s.main.DoneHead? && s.dq.list != [] && s.dq.list[0] !in s.ctl.cancelled
    case DrainEnds(_) => s.main == DoneHead(true) && s.dq.list == []
    case Work(i) => WorkEnabled(s, i)
    case Spurious(i) => i < |s.workers| && s.workers[i] == Waiting
  }

  /** A control block leaves used_list; its handler may run. */
  function Release(b: Blocks, r: Req, runs: bool): Blocks {
    b.(used := b.used - {r}, released := b.released + [r], handled := if runs then b.handled + [r] else b.handled)
  }

  function Next(s: State, step: Step): State
    requires Enabled(s, step)
  {
    match step
    case Submit(r) => s.(main := SubmitTry(r), log := s.log.(len := s.log.len + 1, submitted := s.log.submitted + [r]))
    case Sync => s.(main := PollKick(FromSync))
    case FdHandler => s.(draining := true, dq := s.dq.(pipe := ReadPipe(s.dq.pipe)))
    case CheckCallbacks => s.(draining := true)
    case PollDone => s.(main := DoneHead(false))
    case Cancel(r, runs) => s.(ctl := Release(s.ctl, r, runs).(cancelled := s.ctl.cancelled + {r}))
    case Go => MainNext(s)
    case Wake(i) => s.(workers := s.workers[i := WantRq], main := RqUnlock(s.main.k))
    case SubmitSyncs => s.(main := PollKick(FromSubmit(s.main.r)))
    case Deliver(runs) =>
      var r := s.dq.list[0];
      s.(main := Ready, dq := s.dq.(list := s.dq.list[1..]), log := s.log.(finished := s.log.finished + [r]),
         ctl := Release(CleanUp(s.ctl, r), r, runs).(returned := s.ctl.returned + [r]))
    case DrainEnds(outer) => s.(main := Ready, draining := !outer)
    case Work(i) => WorkNext(s, i)
    case Spurious(i) => s.(workers := s.workers[i := WantRq])
  }

  /** A run: every step is enabled where it is taken. */
  ghost predicate Run(s: State, steps: seq<Step>, t: State)
    decreases |steps|
  {
    if steps == [] then s == t else Enabled(s, steps[0]) && Run(Next(s, steps[0]), steps[1..], t)
  }

  // ===== mutual exclusion =====

  predicate HasRq(pc: WorkerPc) { pc.HoldRq? || pc.Popped? }
  predicate HasDq(pc: WorkerPc) { pc.HoldDq? || pc.Appended? }

  /** The owner of a lock is where the code holds it, and nobody else is. */
  ghost predicate RqLocked(workers: seq<WorkerPc>, main: MainPc, lock: Owner) {
    && (forall i | 0 <= i < |workers| :: HasRq(workers[i]) <==> lock == Worker(i))
    && (lock.Worker? ==> lock.i < |workers|)
    && (lock == Main <==> main.RqAppend? || main.RqSignal? || main.RqUnlock?)
  }

  ghost predicate DqLocked(workers: seq<WorkerPc>, main: MainPc, lock: Owner) {
    && (forall i | 0 <= i < |workers| :: HasDq(workers[i]) <==> lock == Worker(i))
    && (lock.Worker? ==> lock.i < |workers|)
    && (lock == Main <==> main.PollTake? || main.PollUnlock?)
  }

  ghost predicate Locks(s: State) {
    RqLocked(s.workers, s.main, s.rq.lock) && DqLocked(s.workers, s.main, s.dq.lock)
  }

  lemma LocksWork(s: State, i: nat)
    requires WorkEnabled(s, i) && Locks(s)
    ensures Locks(WorkNext(s, i))
  {
  }

  lemma LocksGo(s: State)
    requires GoEnabled(s) && Locks(s)
    ensures Locks(MainNext(s))
  {
  }

  lemma LocksKept(s: State, step: Step)
    requires Enabled(s, step) && Locks(s)
    ensures Locks(Next(s, step))
  {
    hide WorkNext, MainNext;
    match step
    case Work(i) => LocksWork(s, i);
    case Go => LocksGo(s);
    case _ =>
  }
}
