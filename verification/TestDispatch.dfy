/** The parallel dispatcher of test.py as a step relation: the main thread puts
    jobs and then one break job per worker into a queue, collects one result per
    job, and joins the workers; workers take, decide, run and report; an
    interrupt may set the exit flag at any moment. */
module TestDispatch {
  import opened Options

  /** A job with the exit status its command has when it runs. */
  datatype Job = Job(name: string, isSkip: bool, code: int)

  datatype Config = Config(jobs: seq<Job>, processors: nat)

  datatype Message = Work(id: nat) | Break

  /** A job on its way back; interrupted says that its is_break flag was set. */
  datatype Result = Result(id: nat, interrupted: bool)

  datatype Worker = Idle | Holding(id: nat) | Running(id: nat) | Stopped

  datatype State = State(
    produced: nat,
    breaks: nat,
    input: seq<Message>,
    workers: seq<Worker>,
    output: seq<Result>,
    collected: seq<Result>,
    joined: nat,
    threadExit: bool
  )

  datatype Action =
    | PutJob
    | PutBreak
    | Collect
    | Join
    | Interrupt
    | Take(w: nat)
    | Decide(w: nat)
    | Finish(w: nat)

  // ----- Steps ----------------------------------------------------------------------------

  predicate Enabled(cfg: Config, s: State, a: Action) {
    match a
    case PutJob => s.produced < |cfg.jobs|
    case PutBreak => s.produced == |cfg.jobs| && s.breaks < cfg.processors
    case Collect =>
      s.produced == |cfg.jobs| && s.breaks == cfg.processors && |s.collected| < |cfg.jobs| && s.output != []
    case Join =>
      && s.produced == |cfg.jobs| && s.breaks == cfg.processors && |s.collected| == |cfg.jobs|
      && s.joined < cfg.processors && s.joined < |s.workers| && s.workers[s.joined] == Stopped
    case Interrupt => !s.threadExit
    case Take(w) => w < |s.workers| && s.workers[w] == Idle && s.input != []
    case Decide(w) => w < |s.workers| && s.workers[w].Holding? && s.workers[w].id < |cfg.jobs|
    case Finish(w) => w < |s.workers| && s.workers[w].Running?
  }

  function Apply(cfg: Config, s: State, a: Action): State
    requires Enabled(cfg, s, a)
  {
    match a
    case PutJob => s.(produced := s.produced + 1, input := s.input + [Work(s.produced)])
    case PutBreak => s.(breaks := s.breaks + 1, input := s.input + [Break])
    case Collect => s.(output := s.output[1..], collected := s.collected + [s.output[0]])
    case Join => s.(joined := s.joined + 1)
    case Interrupt => s.(threadExit := true)
    case Take(w) =>
      var next := if s.input[0] == Break then Stopped else Holding(s.input[0].id);
      s.(input := s.input[1..], workers := s.workers[w := next])
    case Decide(w) =>
      var id := s.workers[w].id;
      if s.threadExit then Report(s, w, Result(id, true))
      else if cfg.jobs[id].isSkip then Report(s, w, Result(id, false))
      else s.(workers := s.workers[w := Running(id)])
    case Finish(w) => Report(s, w, Result(s.workers[w].id, false))
  }

  /** Worker w puts a result and goes back to the input queue. */
  function Report(s: State, w: nat, r: Result): State
    requires w < |s.workers|
  {
    s.(output := s.output + [r], workers := s.workers[w := Idle])
  }

  /** The workers are started before the first job is put. */
  function Init(cfg: Config): State {
    State(0, 0, [], seq(cfg.processors, _ => Idle), [], [], 0, false)
  }

  /** All results are in and all workers have been joined. */
  predicate Final(cfg: Config, s: State) {
    && s.produced == |cfg.jobs| && s.breaks == cfg.processors
    && |s.collected| == |cfg.jobs| && s.joined == cfg.processors
  }

  /** The state a schedule leads to, if every action in it is enabled in its turn. */
  function Exec(cfg: Config, run: seq<Action>): Option<State> {
    if run == [] then Some(Init(cfg))
    else
      match Exec(cfg, run[..|run| - 1])
      case None => None
      case Some(s) =>
        var a := run[|run| - 1];
        if Enabled(cfg, s, a) then Some(Apply(cfg, s, a)) else None
  }

  // ----- Where the jobs are ------------------------------------------------------------

  predicate Busy(w: Worker) {
    w.Holding? || w.Running?
  }

  /** How many workers hold job id. */
  function Holders(ws: seq<Worker>, id: nat): nat {
    if ws == [] then 0
    else
      var w := ws[|ws| - 1];
      Holders(ws[..|ws| - 1], id) + if Busy(w) && w.id == id then 1 else 0
  }

  function BusyCount(ws: seq<Worker>): nat {
    if ws == [] then 0 else BusyCount(ws[..|ws| - 1]) + if Busy(ws[|ws| - 1]) then 1 else 0
  }

  function StoppedCount(ws: seq<Worker>): nat {
    if ws == [] then 0 else StoppedCount(ws[..|ws| - 1]) + if ws[|ws| - 1] == Stopped then 1 else 0
  }

  /** How many results are about job id. */
  function Reports(rs: seq<Result>, id: nat): nat {
    if rs == [] then 0 else Reports(rs[..|rs| - 1], id) + if rs[|rs| - 1].id == id then 1 else 0
  }

  function HoldingCount(ws: seq<Worker>): nat {
    if ws == [] then 0 else HoldingCount(ws[..|ws| - 1]) + if ws[|ws| - 1].Holding? then 1 else 0
  }

  lemma {:induction false} WorkerUpdate(ws: seq<Worker>, w: nat, x: Worker)
    requires w < |ws|
    ensures HoldingCount(ws[w := x]) + (if ws[w].Holding? then 1 else 0)
         == HoldingCount(ws) + (if x.Holding? then 1 else 0)
    ensures BusyCount(ws[w := x]) + (if Busy(ws[w]) then 1 else 0) == BusyCount(ws) + (if Busy(x) then 1 else 0)
    ensures StoppedCount(ws[w := x]) + (if ws[w] == Stopped then 1 else 0)
         == StoppedCount(ws) + (if x == Stopped then 1 else 0)
  {
    var n := |ws| - 1;
    if w < n {
      WorkerUpdate(ws[..n], w, x);
      assert ws[w := x][..n] == ws[..n][w := x];
    } else {
      assert ws[w := x][..n] == ws[..n];
    }
  }

  lemma {:induction false} HoldersUpdate(ws: seq<Worker>, w: nat, x: Worker, id: nat)
    requires w < |ws|
    ensures Holders(ws[w := x], id) + (if Busy(ws[w]) && ws[w].id == id then 1 else 0)
         == Holders(ws, id) + (if Busy(x) && x.id == id then 1 else 0)
  {
    var n := |ws| - 1;
    if w < n {
      HoldersUpdate(ws[..n], w, x, id);
      assert ws[w := x][..n] == ws[..n][w := x];
    } else {
      assert ws[w := x][..n] == ws[..n];
    }
  }

  lemma ReportsSnoc(rs: seq<Result>, r: Result, id: nat)
    ensures Reports(rs + [r], id) == Reports(rs, id) + if r.id == id then 1 else 0
  {
    assert (rs + [r])[..|rs|] == rs;
  }

  lemma {:induction false} ReportsTail(rs: seq<Result>, id: nat)
    requires rs != []
    ensures Reports(rs, id) == Reports(rs[1..], id) + if rs[0].id == id then 1 else 0
  {
    if |rs| == 1 {
      assert rs[..0] == [] == rs[1..];
    } else {
      ReportsTail(rs[..|rs| - 1], id);
      assert rs[..|rs| - 1][1..] == rs[1..][..|rs| - 2];
    }
  }

  lemma {:induction false} IdleCounts(ws: seq<Worker>)
    requires forall w :: 0 <= w < |ws| ==> ws[w] == Idle
    ensures BusyCount(ws) == StoppedCount(ws) == HoldingCount(ws) == 0 && forall id: nat :: Holders(ws, id) == 0
  {
    if ws != [] {
      IdleCounts(ws[..|ws| - 1]);
    }
  }

  lemma {:induction false} NobodyBusy(ws: seq<Worker>)
    requires forall w :: 0 <= w < |ws| ==> !Busy(ws[w])
    ensures BusyCount(ws) == 0
  {
    if ws != [] {
      NobodyBusy(ws[..|ws| - 1]);
    }
  }

  lemma {:induction false} HolderCounts(ws: seq<Worker>, w: nat)
    requires w < |ws| && Busy(ws[w])
    ensures Holders(ws, ws[w].id) > 0 && BusyCount(ws) > 0
  {
    if w < |ws| - 1 {
      HolderCounts(ws[..|ws| - 1], w);
    }
  }

  lemma {:induction false} StoppedAll(ws: seq<Worker>)
    ensures StoppedCount(ws) <= |ws|
    ensures StoppedCount(ws) == |ws| <==> forall w :: 0 <= w < |ws| ==> ws[w] == Stopped
  {
    if ws != [] {
      var n := |ws| - 1;
      StoppedAll(ws[..n]);
      assert forall w :: 0 <= w < n ==> ws[..n][w] == ws[w];
    }
  }

  // ----- The invariant ----------------------------------------------------------------

  /** First in, first out: the jobs from number taken on, then the break jobs. */
  predicate Fifo(input: seq<Message>, taken: nat, produced: nat) {
    && taken <= produced && produced - taken <= |input|
    && forall i :: 0 <= i < |input| ==> input[i] == if i < produced - taken then Work(taken + i) else Break
  }

  /** How many copies of job id have left the input queue and where they are. */
  function Copies(s: State, id: nat): nat {
    Holders(s.workers, id) + Reports(s.output, id) + Reports(s.collected, id)
  }

  /** Every job that left the queue is held by one worker, or finished, or collected. */
  ghost predicate Accounted(s: State, taken: nat) {
    && BusyCount(s.workers) + |s.output| + |s.collected| == taken
    && forall id: nat :: Copies(s, id) == if id < taken then 1 else 0
  }

  predicate Reported(cfg: Config, s: State, r: Result) {
    r.id < |cfg.jobs| && (r.interrupted ==> s.threadExit)
  }

  /** The main thread's phases: put the jobs, put the breaks, collect, join. */
  predicate Phases(cfg: Config, s: State) {
    && |s.workers| == cfg.processors
    && s.produced <= |cfg.jobs| && s.breaks <= cfg.processors
    && |s.collected| <= |cfg.jobs| && s.joined <= cfg.processors
    && (s.breaks > 0 ==> s.produced == |cfg.jobs|)
    && (s.collected != [] ==> s.breaks == cfg.processors && s.produced == |cfg.jobs|)
    && (s.joined > 0 ==> s.breaks == cfg.processors && s.produced == |cfg.jobs| && |s.collected| == |cfg.jobs|)
  }

  ghost predicate InvAt(cfg: Config, s: State, taken: nat) {
    && Phases(cfg, s)
    && Fifo(s.input, taken, s.produced)
    && Accounted(s, taken)
    && StoppedCount(s.workers) + (|s.input| - (s.produced - taken)) == s.breaks
    && (StoppedCount(s.workers) > 0 ==> taken == |cfg.jobs|)
    && (forall r :: r in s.output || r in s.collected ==> Reported(cfg, s, r))
    && (forall w :: 0 <= w < s.joined ==> s.workers[w] == Stopped)
  }

  ghost predicate Inv(cfg: Config, s: State) {
    exists taken :: InvAt(cfg, s, taken)
  }

  lemma InitInv(cfg: Config)
    ensures InvAt(cfg, Init(cfg), 0)
  {
    IdleCounts(Init(cfg).workers);
  }

  lemma HeldInRange(cfg: Config, s: State, taken: nat, w: nat)
    requires InvAt(cfg, s, taken) && w < |s.workers| && Busy(s.workers[w])
    ensures s.workers[w].id < taken <= |cfg.jobs|
  {
    HolderCounts(s.workers, w);
    assert Copies(s, s.workers[w].id) > 0;
  }

  lemma ReportAccounted(s: State, taken: nat, w: nat, r: Result)
    requires Accounted(s, taken) && w < |s.workers| && Busy(s.workers[w]) && r.id == s.workers[w].id
    ensures Accounted(Report(s, w, r), taken)
    ensures StoppedCount(Report(s, w, r).workers) == StoppedCount(s.workers)
  {
    WorkerUpdate(s.workers, w, Idle);
    forall id: nat
      ensures Copies(Report(s, w, r), id) == Copies(s, id)
    {
      HoldersUpdate(s.workers, w, Idle, id);
      ReportsSnoc(s.output, r, id);
    }
  }

  lemma ReportKeepsInv(cfg: Config, s: State, taken: nat, w: nat, r: Result)
    requires InvAt(cfg, s, taken) && w < |s.workers| && Busy(s.workers[w])
    requires r.id == s.workers[w].id && (r.interrupted ==> s.threadExit)
    ensures InvAt(cfg, Report(s, w, r), taken)
  {
    HeldInRange(cfg, s, taken, w);
    ReportAccounted(s, taken, w, r);
  }

  lemma StartKeepsInv(cfg: Config, s: State, taken: nat, w: nat)
    requires InvAt(cfg, s, taken) && w < |s.workers| && s.workers[w].Holding?
    ensures InvAt(cfg, s.(workers := s.workers[w := Running(s.workers[w].id)]), taken)
  {
    var next := Running(s.workers[w].id);
    var t := s.(workers := s.workers[w := next]);
    WorkerUpdate(s.workers, w, next);
    forall i: nat
      ensures Copies(t, i) == Copies(s, i)
    {
      HoldersUpdate(s.workers, w, next, i);
    }
    assert Accounted(t, taken);
    assert forall r :: r in t.output || r in t.collected ==> Reported(cfg, t, r);
  }

  lemma TakeWork(cfg: Config, s: State, taken: nat, w: nat)
    requires InvAt(cfg, s, taken) && Enabled(cfg, s, Take(w)) && s.input[0] != Break
    ensures InvAt(cfg, Apply(cfg, s, Take(w)), taken + 1)
  {
    var t := Apply(cfg, s, Take(w));
    var next := Holding(taken);
    assert s.input[0] == Work(taken);
    WorkerUpdate(s.workers, w, next);
    forall i: nat
      ensures Copies(t, i) == if i < taken + 1 then 1 else 0
    {
      HoldersUpdate(s.workers, w, next, i);
      assert Copies(s, i) == if i < taken then 1 else 0;
    }
    assert Accounted(t, taken + 1);
    assert forall r :: r in t.output || r in t.collected ==> Reported(cfg, t, r);
  }

  lemma TakeBreak(cfg: Config, s: State, taken: nat, w: nat)
    requires InvAt(cfg, s, taken) && Enabled(cfg, s, Take(w)) && s.input[0] == Break
    ensures InvAt(cfg, Apply(cfg, s, Take(w)), taken)
  {
    var t := Apply(cfg, s, Take(w));
    WorkerUpdate(s.workers, w, Stopped);
    forall i: nat
      ensures Copies(t, i) == Copies(s, i)
    {
      HoldersUpdate(s.workers, w, Stopped, i);
    }
    assert Accounted(t, taken);
    assert forall r :: r in t.output || r in t.collected ==> Reported(cfg, t, r);
  }

  lemma CollectKeepsInv(cfg: Config, s: State, taken: nat)
    requires InvAt(cfg, s, taken) && Enabled(cfg, s, Collect)
    ensures InvAt(cfg, Apply(cfg, s, Collect), taken)
  {
    var t := Apply(cfg, s, Collect);
    assert forall r :: r in t.output || r in t.collected ==> r in s.output || r in s.collected;
    assert forall r :: r in t.output || r in t.collected ==> Reported(cfg, t, r) by {
      assert forall r :: r in s.output || r in s.collected ==> Reported(cfg, s, r);
    }
    forall id: nat
      ensures Copies(t, id) == Copies(s, id)
    {
      ReportsTail(s.output, id);
      ReportsSnoc(s.collected, s.output[0], id);
    }
  }

  lemma MainKeepsInv(cfg: Config, s: State, taken: nat, a: Action)
    requires InvAt(cfg, s, taken) && Enabled(cfg, s, a)
    requires a.PutJob? || a.PutBreak? || a.Join? || a.Interrupt?
    ensures InvAt(cfg, Apply(cfg, s, a), taken)
  {
    var t := Apply(cfg, s, a);
    assert forall id: nat :: Copies(t, id) == Copies(s, id);
  }

  lemma StepKeepsInv(cfg: Config, s: State, a: Action)
    requires Inv(cfg, s) && Enabled(cfg, s, a)
    ensures Inv(cfg, Apply(cfg, s, a))
  {
    var taken :| InvAt(cfg, s, taken);
    match a {
      case Collect =>
        CollectKeepsInv(cfg, s, taken);
      case Take(w) =>
        if s.input[0] == Break {
          TakeBreak(cfg, s, taken, w);
        } else {
          TakeWork(cfg, s, taken, w);
        }
      case Decide(w) =>
        var id := s.workers[w].id;
        if s.threadExit {
          ReportKeepsInv(cfg, s, taken, w, Result(id, true));
        } else if cfg.jobs[id].isSkip {
          ReportKeepsInv(cfg, s, taken, w, Result(id, false));
        } else {
          StartKeepsInv(cfg, s, taken, w);
        }
      case Finish(w) =>
        ReportKeepsInv(cfg, s, taken, w, Result(s.workers[w].id, false));
      case _ =>
        MainKeepsInv(cfg, s, taken, a);
    }
  }

  lemma {:induction false} ReachableInv(cfg: Config, run: seq<Action>)
    requires Exec(cfg, run).Some?
    ensures Inv(cfg, Exec(cfg, run).value)
  {
    if run == [] {
      InitInv(cfg);
    } else {
      ReachableInv(cfg, run[..|run| - 1]);
      StepKeepsInv(cfg, Exec(cfg, run[..|run| - 1]).value, run[|run| - 1]);
    }
  }

  // ----- Conservation ---------------------------------------------------------------------

  /** How many copies of job id wait in the input queue. */
  function Waiting(input: seq<Message>, id: nat): nat {
    if input == [] then 0 else Waiting(input[..|input| - 1], id) + if input[|input| - 1] == Work(id) then 1 else 0
  }

  function WaitingCount(input: seq<Message>): nat {
    if input == [] then 0 else WaitingCount(input[..|input| - 1]) + if input[|input| - 1].Work? then 1 else 0
  }

  lemma {:induction false} FifoCounts(input: seq<Message>, taken: nat, produced: nat)
    requires Fifo(input, taken, produced)
    ensures WaitingCount(input) == produced - taken
    ensures forall id: nat :: Waiting(input, id) == if taken <= id < produced then 1 else 0
  {
    if input != [] {
      var init := input[..|input| - 1];
      FifoCounts(init, taken, if input[|input| - 1] == Break then produced else produced - 1);
    }
  }

  /** In every reachable state each dispatched job is in exactly one place: queued, with a
      worker, finished, or collected. */
  lemma JobsConserved(cfg: Config, run: seq<Action>, s: State)
    requires Exec(cfg, run) == Some(s)
    ensures forall id: nat :: Waiting(s.input, id) + Copies(s, id) == if id < s.produced then 1 else 0
    ensures WaitingCount(s.input) + BusyCount(s.workers) + |s.output| + |s.collected| == s.produced
  {
    ReachableInv(cfg, run);
    var taken :| InvAt(cfg, s, taken);
    FifoCounts(s.input, taken, s.produced);
    forall id: nat
      ensures Waiting(s.input, id) + Copies(s, id) == if id < s.produced then 1 else 0
    {
      assert Copies(s, id) == if id < taken then 1 else 0;
    }
  }

  /** A worker stops only when every job has been dispatched and none is left in the queue;
      each stopped worker has eaten one break job. */
  lemma StopsOnlyWhenDrained(cfg: Config, run: seq<Action>, s: State, w: nat)
    requires Exec(cfg, run) == Some(s) && w < |s.workers| && s.workers[w] == Stopped
    ensures s.produced == |cfg.jobs| && forall m :: m in s.input ==> m == Break
    ensures StoppedCount(s.workers) + |s.input| == s.breaks
  {
    ReachableInv(cfg, run);
    var taken :| InvAt(cfg, s, taken);
    SomeStopped(s.workers, w);
  }

  lemma {:induction false} SomeStopped(ws: seq<Worker>, w: nat)
    requires w < |ws| && ws[w] == Stopped
    ensures StoppedCount(ws) > 0
  {
    if w < |ws| - 1 {
      SomeStopped(ws[..|ws| - 1], w);
    }
  }

  // ----- No run gets stuck -----------------------------------------------------------------

  /** Something other than an interrupt can happen. */
  ghost predicate CanStep(cfg: Config, s: State) {
    exists a :: a != Interrupt && Enabled(cfg, s, a)
  }

  lemma BusyWorkerSteps(cfg: Config, s: State, w: nat)
    requires Inv(cfg, s) && w < |s.workers| && Busy(s.workers[w])
    ensures CanStep(cfg, s)
  {
    var taken :| InvAt(cfg, s, taken);
    HeldInRange(cfg, s, taken, w);
    assert if s.workers[w].Holding? then Enabled(cfg, s, Decide(w)) else Enabled(cfg, s, Finish(w));
  }

  /** While results are missing, some worker can make progress. */
  lemma CollectingSteps(cfg: Config, s: State)
    requires Inv(cfg, s) && cfg.processors > 0
    requires s.produced == |cfg.jobs| && s.breaks == cfg.processors && |s.collected| < |cfg.jobs|
    ensures CanStep(cfg, s)
  {
    var taken :| InvAt(cfg, s, taken);
    if s.output != [] {
      assert Enabled(cfg, s, Collect);
    } else if w :| 0 <= w < |s.workers| && Busy(s.workers[w]) {
      BusyWorkerSteps(cfg, s, w);
    } else {
      NobodyBusy(s.workers);
      StoppedAll(s.workers);
      var w :| 0 <= w < |s.workers| && s.workers[w] != Stopped;
      assert Enabled(cfg, s, Take(w));
    }
  }

  lemma JoiningSteps(cfg: Config, s: State)
    requires Inv(cfg, s)
    requires s.produced == |cfg.jobs| && s.breaks == cfg.processors && |s.collected| == |cfg.jobs|
    requires s.joined < cfg.processors
    ensures CanStep(cfg, s)
  {
    var taken :| InvAt(cfg, s, taken);
    var w := s.joined;
    if s.workers[w] == Stopped {
      assert Enabled(cfg, s, Join);
    } else if Busy(s.workers[w]) {
      BusyWorkerSteps(cfg, s, w);
    } else {
      StoppedAll(s.workers);
      assert s.input != [];
      assert Enabled(cfg, s, Take(w));
    }
  }

  lemma NoDeadlock(cfg: Config, s: State)
    requires cfg.processors > 0 || cfg.jobs == []
    requires Inv(cfg, s) && !Final(cfg, s)
    ensures CanStep(cfg, s)
  {
    if s.produced < |cfg.jobs| {
      assert Enabled(cfg, s, PutJob);
    } else if s.breaks < cfg.processors {
      assert Enabled(cfg, s, PutBreak);
    } else if |s.collected| < |cfg.jobs| {
      CollectingSteps(cfg, s);
    } else {
      JoiningSteps(cfg, s);
    }
  }

  lemma {:induction false} PutAll(cfg: Config, k: nat)
    requires k <= |cfg.jobs|
    ensures var run := seq(k, _ => PutJob);
            && Exec(cfg, run).Some?
            && Exec(cfg, run).value.produced == k
            && Exec(cfg, run).value.workers == Init(cfg).workers
            && Exec(cfg, run).value.output == []
            && Exec(cfg, run).value.collected == []
  {
    if k > 0 {
      PutAll(cfg, k - 1);
      var run := seq(k, _ => PutJob);
      assert run[..|run| - 1] == seq(k - 1, _ => PutJob);
    }
  }

  /** The program is free of deadlock exactly when there is a worker, or nothing to do. */
  lemma DeadlockFreeIff(cfg: Config)
    ensures (forall run, s :: Exec(cfg, run) == Some(s) && !Final(cfg, s) ==> CanStep(cfg, s))
            <==> cfg.processors > 0 || cfg.jobs == []
  {
    if cfg.processors > 0 || cfg.jobs == [] {
      forall run, s | Exec(cfg, run) == Some(s) && !Final(cfg, s)
        ensures CanStep(cfg, s)
      {
        ReachableInv(cfg, run);
        NoDeadlock(cfg, s);
      }
    } else {
      PutAll(cfg, |cfg.jobs|);
      var run := seq(|cfg.jobs|, _ => PutJob);
      var s := Exec(cfg, run).value;
      assert !Final(cfg, s) && !CanStep(cfg, s);
    }
  }

  // ----- Every run ends ----------------------------------------------------------------------

  /** Steps that are still to come, counted from where each job and each break job is. */
  function Remaining(cfg: Config, s: State): int {
    var taken := BusyCount(s.workers) + |s.output| + |s.collected|;
    var queued := s.produced - taken;
    5 * (|cfg.jobs| - s.produced) + 4 * queued + 2 * BusyCount(s.workers) + HoldingCount(s.workers) + |s.output|
    + 3 * (cfg.processors - s.breaks) + 2 * (|s.input| - queued) + (cfg.processors - s.joined)
    + if s.threadExit then 0 else 1
  }

  lemma TakeRunsOut(cfg: Config, s: State, taken: nat, w: nat)
    requires InvAt(cfg, s, taken) && Enabled(cfg, s, Take(w))
    ensures Remaining(cfg, Apply(cfg, s, Take(w))) < Remaining(cfg, s)
  {
    WorkerUpdate(s.workers, w, if s.input[0] == Break then Stopped else Holding(s.input[0].id));
  }

  lemma ReportRunsOut(cfg: Config, s: State, w: nat, r: Result)
    requires w < |s.workers| && Busy(s.workers[w])
    ensures Remaining(cfg, Report(s, w, r)) < Remaining(cfg, s)
  {
    WorkerUpdate(s.workers, w, Idle);
  }

  lemma MainRunsOut(cfg: Config, s: State, a: Action)
    requires Enabled(cfg, s, a) && (a.PutJob? || a.PutBreak? || a.Collect? || a.Join? || a.Interrupt?)
    ensures Remaining(cfg, Apply(cfg, s, a)) < Remaining(cfg, s)
  {
  }

  lemma StartRunsOut(cfg: Config, s: State, w: nat)
    requires w < |s.workers| && s.workers[w].Holding?
    ensures Remaining(cfg, s.(workers := s.workers[w := Running(s.workers[w].id)])) < Remaining(cfg, s)
  {
    WorkerUpdate(s.workers, w, Running(s.workers[w].id));
  }

  lemma StepsRunOut(cfg: Config, s: State, a: Action)
    requires Inv(cfg, s) && Enabled(cfg, s, a)
    ensures Remaining(cfg, Apply(cfg, s, a)) < Remaining(cfg, s)
  {
    var taken :| InvAt(cfg, s, taken);
    match a {
      case Take(w) =>
        TakeRunsOut(cfg, s, taken, w);
      case Decide(w) =>
        var id := s.workers[w].id;
        if s.threadExit || cfg.jobs[id].isSkip {
          ReportRunsOut(cfg, s, w, Result(id, s.threadExit));
        } else {
          StartRunsOut(cfg, s, w);
        }
      case Finish(w) =>
        ReportRunsOut(cfg, s, w, Result(s.workers[w].id, false));
      case _ =>
        MainRunsOut(cfg, s, a);
    }
  }

  lemma RemainingNonnegative(cfg: Config, s: State)
    requires Inv(cfg, s)
    ensures Remaining(cfg, s) >= 0
  {
  }

  /** No schedule is longer than five steps per job, four per worker, and one interrupt. */
  lemma {:induction false} RunsAreBounded(cfg: Config, run: seq<Action>)
    requires Exec(cfg, run).Some?
    ensures |run| + Remaining(cfg, Exec(cfg, run).value) <= 5 * |cfg.jobs| + 4 * cfg.processors + 1
    ensures |run| <= 5 * |cfg.jobs| + 4 * cfg.processors + 1
  {
    ReachableInv(cfg, run);
    RemainingNonnegative(cfg, Exec(cfg, run).value);
    if run == [] {
      IdleCounts(Init(cfg).workers);
    } else {
      var init := run[..|run| - 1];
      RunsAreBounded(cfg, init);
      ReachableInv(cfg, init);
      StepsRunOut(cfg, Exec(cfg, init).value, run[|run| - 1]);
    }
  }

  lemma ExecSnoc(cfg: Config, run: seq<Action>, s: State, a: Action)
    requires Exec(cfg, run) == Some(s) && Enabled(cfg, s, a)
    ensures Exec(cfg, run + [a]) == Some(Apply(cfg, s, a))
  {
    assert (run + [a])[..|run|] == run;
  }

  lemma SomeStep(cfg: Config, run: seq<Action>, s: State) returns (a: Action, next: State)
    requires cfg.processors > 0 || cfg.jobs == []
    requires Exec(cfg, run) == Some(s) && !Final(cfg, s)
    ensures a != Interrupt && Exec(cfg, run + [a]) == Some(next)
    ensures 0 <= Remaining(cfg, next) < Remaining(cfg, s)
  {
    ReachableInv(cfg, run);
    NoDeadlock(cfg, s);
    a :| a != Interrupt && Enabled(cfg, s, a);
    next := Apply(cfg, s, a);
    ExecSnoc(cfg, run, s, a);
    StepsRunOut(cfg, s, a);
    StepKeepsInv(cfg, s, a);
    RemainingNonnegative(cfg, next);
  }

  /** The schedule continues run, without another interrupt, to the end. */
  ghost predicate Completes(cfg: Config, run: seq<Action>, whole: seq<Action>) {
    && run <= whole && Interrupt !in whole[|run|..]
    && Exec(cfg, whole).Some? && Final(cfg, Exec(cfg, whole).value)
  }

  lemma LongerCompletes(cfg: Config, run: seq<Action>, a: Action, whole: seq<Action>)
    requires a != Interrupt && Completes(cfg, run + [a], whole)
    ensures Completes(cfg, run, whole)
  {
    assert whole[|run|..] == [a] + whole[|run + [a]|..];
  }

  /** With a worker, or nothing to do, every schedule can be completed. */
  lemma {:induction false} EveryRunCanFinish(cfg: Config, run: seq<Action>, s: State) returns (whole: seq<Action>)
    requires cfg.processors > 0 || cfg.jobs == []
    requires Exec(cfg, run) == Some(s)
    ensures Completes(cfg, run, whole)
    decreases Remaining(cfg, s)
  {
    if Final(cfg, s) {
      whole := run;
    } else {
      var a, next := SomeStep(cfg, run, s);
      whole := EveryRunCanFinish(cfg, run + [a], next);
      LongerCompletes(cfg, run, a, whole);
    }
  }

  /** A schedule ends only at the end: where nothing but an interrupt can happen, all is done. */
  lemma EndsOnlyWhenFinal(cfg: Config, run: seq<Action>, s: State)
    requires cfg.processors > 0 || cfg.jobs == []
    requires Exec(cfg, run) == Some(s)
    ensures !CanStep(cfg, s) <==> Final(cfg, s)
  {
    ReachableInv(cfg, run);
    if !Final(cfg, s) {
      NoDeadlock(cfg, s);
    } else {
      FinalState(cfg, run, s);
    }
  }

  // ----- The final state -----------------------------------------------------------------------

  /** At the end the queues are empty, every worker has stopped on its own break job, and
      every job was reported exactly once. */
  lemma FinalState(cfg: Config, run: seq<Action>, s: State)
    requires Exec(cfg, run) == Some(s) && Final(cfg, s)
    ensures s.input == [] && s.output == [] && forall w :: 0 <= w < |s.workers| ==> s.workers[w] == Stopped
    ensures StoppedCount(s.workers) == cfg.processors == s.breaks
    ensures forall id: nat :: Reports(s.collected, id) == if id < |cfg.jobs| then 1 else 0
    ensures forall r :: r in s.collected ==> Reported(cfg, s, r)
  {
    ReachableInv(cfg, run);
    var taken :| InvAt(cfg, s, taken);
    StoppedAll(s.workers);
    forall id: nat
      ensures Reports(s.collected, id) == if id < |cfg.jobs| then 1 else 0
    {
      assert Copies(s, id) == if id < taken then 1 else 0;
      NobodyBusyHolders(s.workers, id);
    }
  }

  lemma {:induction false} NobodyBusyHolders(ws: seq<Worker>, id: nat)
    requires forall w :: 0 <= w < |ws| ==> !Busy(ws[w])
    ensures Holders(ws, id) == 0
  {
    if ws != [] {
      NobodyBusyHolders(ws[..|ws| - 1], id);
    }
  }

  // ----- One report for each job --------------------------------------------------------------

  lemma {:induction false} ReportExists(rs: seq<Result>, id: nat) returns (k: nat)
    requires Reports(rs, id) > 0
    ensures k < |rs| && rs[k].id == id
  {
    if rs[|rs| - 1].id == id {
      k := |rs| - 1;
    } else {
      k := ReportExists(rs[..|rs| - 1], id);
    }
  }

  lemma OnlyOneReport(rs: seq<Result>, k: nat, r: Result)
    requires k < |rs| && r in rs && rs[k].id == r.id && Reports(rs, r.id) == 1
    ensures rs[k] == r
  {
    var j :| 0 <= j < |rs| && rs[j] == r;
    if j < k {
      TwoReports(rs, j, k);
    } else if k < j {
      TwoReports(rs, k, j);
    }
  }

  lemma {:induction false} TwoReports(rs: seq<Result>, j: nat, k: nat)
    requires j < k < |rs| && rs[j].id == rs[k].id
    ensures Reports(rs, rs[j].id) >= 2
  {
    var init := rs[..|rs| - 1];
    if k < |rs| - 1 {
      TwoReports(init, j, k);
    } else {
      OneReport(init, j);
    }
  }

  lemma {:induction false} OneReport(rs: seq<Result>, j: nat)
    requires j < |rs|
    ensures Reports(rs, rs[j].id) >= 1
  {
    if j < |rs| - 1 {
      OneReport(rs[..|rs| - 1], j);
    }
  }
}
