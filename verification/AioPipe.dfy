/** The bytes in the pipe: how far the flag done_signalled keeps them down. */
module AioPipe {
  import opened AioProtocol
  import opened AioRuns

  // ===== workers on their way to the pipe =====

  function Ones(workers: seq<WorkerPc>, pc: WorkerPc): nat {
    if workers == [] then 0
    else Ones(workers[..|workers| - 1], pc) + if workers[|workers| - 1] == pc then 1 else 0
  }

  lemma {:induction false} OnesMoved(workers: seq<WorkerPc>, i: nat, to: WorkerPc, pc: WorkerPc)
    requires i < |workers|
    ensures Ones(workers[i := to], pc) + (if workers[i] == pc then 1 else 0)
         == Ones(workers, pc) + if to == pc then 1 else 0
  {
    var n := |workers| - 1;
    if i < n {
      OnesMoved(workers[..n], i, to, pc);
      assert workers[i := to][..n] == workers[..n][i := to];
    } else {
      assert workers[i := to][..n] == workers[..n];
    }
  }

  /** A worker is in one place. */
  lemma {:induction false} OnesAtMost(workers: seq<WorkerPc>)
    ensures Ones(workers, SetFlag) + Ones(workers, WriteByte) <= |workers|
  {
    if workers != [] { OnesAtMost(workers[..|workers| - 1]); }
  }

  lemma {:induction false} NoneAtFirst(n: nat)
    ensures Ones(seq(n, i => WantRq), SetFlag) == Ones(seq(n, i => WantRq), WriteByte) == 0
  {
    if n > 0 {
      NoneAtFirst(n - 1);
      assert seq(n, i => WantRq)[..n - 1] == seq(n - 1, i => WantRq);
    }
  }

  // ===== the invariant =====

  /** Bytes written or sure to be written: a worker that has seen the flag clear writes one, and while the
      flag is set no other worker joins them. */
  ghost predicate Few(s: State, n: nat) {
    var set_, writing := Ones(s.workers, SetFlag), Ones(s.workers, WriteByte);
    && |s.workers| == n
    && (s.dq.signalled ==> s.dq.pipe + set_ + writing <= 2 * n)
    && (!s.dq.signalled ==> s.dq.pipe + writing <= n)
    && (s.main == DoneReadPipe ==> s.dq.signalled)
    && (s.main == DoneClearFlag ==> s.dq.signalled && s.dq.pipe + set_ + writing <= n)
  }

  lemma FewWork(s: State, i: nat, n: nat)
    requires WorkEnabled(s, i) && Few(s, n)
    ensures Few(WorkNext(s, i), n)
  {
    hide Ones;
    OnesMoved(s.workers, i, WorkPc(s, i), SetFlag);
    OnesMoved(s.workers, i, WorkPc(s, i), WriteByte);
    OnesAtMost(s.workers[i := WorkPc(s, i)]);
  }

  lemma FewGo(s: State, n: nat)
    requires GoEnabled(s) && Few(s, n) && 2 * n <= JUNK
    ensures Few(MainNext(s), n)
  {
    hide Ones;
    OnesAtMost(s.workers);
  }

  lemma FewKept(s: State, step: Step, n: nat)
    requires Enabled(s, step) && Few(s, n) && 2 * n <= JUNK
    ensures Few(Next(s, step), n)
  {
    hide Ones, WorkNext, MainNext, WorkPc;
    match step
    case Work(i) => FewWork(s, i, n);
    case Go => FewGo(s, n);
    case Wake(i) =>
      OnesMoved(s.workers, i, WantRq, SetFlag);
      OnesMoved(s.workers, i, WantRq, WriteByte);
    case Spurious(i) =>
      OnesMoved(s.workers, i, WantRq, SetFlag);
      OnesMoved(s.workers, i, WantRq, WriteByte);
    case _ =>
  }

  lemma {:induction false} FewOverRuns(s: State, steps: seq<Step>, t: State, n: nat)
    requires Run(s, steps, t) && Few(s, n) && 2 * n <= JUNK
    ensures Few(t, n)
    decreases |steps|
  {
    hide Few, Next, Enabled;
    if steps != [] {
      FewKept(s, steps[0], n);
      FewOverRuns(Next(s, steps[0]), steps[1..], t, n);
    }
  }

  /** With up to 128 workers, the pipe never holds more than two bytes for each of them, so that it never fills
      and one read always empties it. */
  lemma PipeStaysSmall(n: nat, s: State)
    requires 1 <= n && 2 * n <= JUNK && Reached(n, s)
    ensures s.dq.pipe <= 2 * n < PIPE_CAPACITY && ReadPipe(s.dq.pipe) == 0
  {
    hide Few;
    var steps :| Run(Init(n), steps, s);
    assert Few(Init(n), n) by { FewAtFirst(n); }
    FewOverRuns(Init(n), steps, s, n);
    FewMeans(s, n);
  }

  lemma FewAtFirst(n: nat)
    ensures Few(Init(n), n)
  {
    NoneAtFirst(n);
  }

  lemma FewMeans(s: State, n: nat)
    requires Few(s, n)
    ensures s.dq.pipe <= 2 * n
  {
  }

  /** With any number of workers it never holds more than it can, and a full pipe still tells. */
  lemma PipeFits(n: nat, s: State)
    requires Reached(n, s)
    ensures s.dq.pipe <= PIPE_CAPACITY
  {
    var steps :| Run(Init(n), steps, s);
    FitsOverRuns(Init(n), steps, s);
  }

  lemma {:induction false} FitsOverRuns(s: State, steps: seq<Step>, t: State)
    requires Run(s, steps, t) && s.dq.pipe <= PIPE_CAPACITY
    ensures t.dq.pipe <= PIPE_CAPACITY
    decreases |steps|
  {
    if steps != [] { FitsOverRuns(Next(s, steps[0]), steps[1..], t); }
  }
}
