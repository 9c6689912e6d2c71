/** What a command line means, and that the loop of run computes it. */
module ShellMeaning {
  import opened Options
  import opened Sequences
  import opened ShellNodes
  import opened ShellRun

  // ----- The meaning of a tree -------------------------------------------------------------

  function JoinAll(cwd: string, dirs: seq<string>): string
    decreases dirs
  {
    if dirs == [] then cwd else JoinAll(JoinPath(cwd, dirs[0]), dirs[1..])
  }

  /** Start the stages one after another, each reading from the one before it. */
  function StartStages(l: Loop, stages: seq<Stage>): Loop
    requires l.inPipe ==> l.piped != []
    decreases stages
  {
    if stages == [] then l
    else
      var s := stages[0];
      StartStages(Started(l.(cwd := JoinAll(l.cwd, s.dirs)), s.cmd).(inPipe := true), stages[1..])
  }

  /** A whole pipeline: all stages run, all are waited for, and the last one's status counts. */
  function RunPipeline(stages: seq<Stage>, m: Machine, cwd: string, exits: Exits): (Machine, int, string) {
    var l := StartStages(Loop(m, false, cwd, [], []), stages);
    (Finished(l), PipelineStatus(l.piped, exits), l.cwd)
  }

  predicate GoesOn(op: Connective, status: int) {
    if op == AndThen then status == 0 else status != 0
  }

  /** P1 op (P2 op (...)): the rest is skipped as a whole when a connective stops. */
  function Meaning(t: Tree, m: Machine, cwd: string, exits: Exits): (Machine, int)
    decreases t
  {
    var (m1, status, cwd1) := RunPipeline(t.stages, m, cwd, exits);
    if t.Joined? && GoesOn(t.op, status) then Meaning(t.rest, m1, cwd1, exits) else (m1, status)
  }

  // ----- The loop computes the meaning -----------------------------------------------------

  lemma CdRuns(dir: string, rest: seq<Node>, l: Loop, exits: Exits)
    ensures RunFrom([Chdir(Some(dir)), And] + rest, l, exits) == RunFrom(rest, l.(cwd := JoinPath(l.cwd, dir)), exits)
  {
    assert ([Chdir(Some(dir)), And] + rest)[2..] == rest;
  }

  lemma {:induction false} DirsRun(dirs: seq<string>, tail: seq<Node>, l: Loop, exits: Exits)
    ensures RunFrom(FlattenDirs(dirs) + tail, l, exits) == RunFrom(tail, l.(cwd := JoinAll(l.cwd, dirs)), exits)
    decreases dirs
  {
    if dirs == [] {
      assert FlattenDirs(dirs) + tail == tail;
      assert l.(cwd := JoinAll(l.cwd, dirs)) == l;
    } else {
      var rest := FlattenDirs(dirs[1..]) + tail;
      Regroup([Chdir(Some(dirs[0])), And], FlattenDirs(dirs[1..]), tail);
      CdRuns(dirs[0], rest, l, exits);
      DirsRun(dirs[1..], tail, l.(cwd := JoinPath(l.cwd, dirs[0])), exits);
    }
  }

  lemma StageRuns(s: Stage, tail: seq<Node>, l: Loop, exits: Exits)
    requires l.inPipe ==> l.piped != []
    ensures RunFrom(FlattenStage(s) + tail, l, exits)
         == AfterStart(tail, Started(l.(cwd := JoinAll(l.cwd, s.dirs)), s.cmd), exits)
  {
    assert FlattenStage(s) + tail == FlattenDirs(s.dirs) + ([Cmd(s.cmd)] + tail);
    DirsRun(s.dirs, [Cmd(s.cmd)] + tail, l, exits);
    assert ([Cmd(s.cmd)] + tail)[1..] == tail;
  }

  /** What follows the last start does not look at the pipe flag unless it sets it. */
  predicate AtPipelineEnd(tail: seq<Node>) {
    tail == [] || tail[0] == And || tail[0] == Or
  }

  lemma OneStageRuns(s: Stage, tail: seq<Node>, l: Loop, exits: Exits)
    requires AtPipelineEnd(tail) && (l.inPipe ==> l.piped != [])
    ensures RunFrom(FlattenStages([s]) + tail, l, exits) == AfterStart(tail, StartStages(l, [s]), exits)
  {
    var l1 := Started(l.(cwd := JoinAll(l.cwd, s.dirs)), s.cmd);
    StageRuns(s, tail, l, exits);
    assert StartStages(l, [s]) == l1.(inPipe := true);
    assert AfterStart(tail, l1, exits) == AfterStart(tail, l1.(inPipe := true), exits);
  }

  lemma StageThenPipeRuns(s: Stage, rest: seq<Node>, l: Loop, exits: Exits)
    requires l.inPipe ==> l.piped != []
    ensures var l1 := Started(l.(cwd := JoinAll(l.cwd, s.dirs)), s.cmd);
            RunFrom(FlattenStage(s) + [Pipe] + rest, l, exits) == RunFrom(rest, l1.(inPipe := true), exits)
  {
    assert FlattenStage(s) + [Pipe] + rest == FlattenStage(s) + ([Pipe] + rest);
    StageRuns(s, [Pipe] + rest, l, exits);
    assert ([Pipe] + rest)[1..] == rest;
  }

  lemma {:induction false} StagesRun(stages: seq<Stage>, tail: seq<Node>, l: Loop, exits: Exits)
    requires stages != [] && AtPipelineEnd(tail)
    requires l.inPipe ==> l.piped != []
    ensures RunFrom(FlattenStages(stages) + tail, l, exits) == AfterStart(tail, StartStages(l, stages), exits)
    decreases |stages|
  {
    var s := stages[0];
    if |stages| == 1 {
      assert stages == [s];
      OneStageRuns(s, tail, l, exits);
    } else {
      var rest := FlattenStages(stages[1..]) + tail;
      Regroup(FlattenStage(s) + [Pipe], FlattenStages(stages[1..]), tail);
      StageThenPipeRuns(s, rest, l, exits);
      StagesRun(stages[1..], tail, Started(l.(cwd := JoinAll(l.cwd, s.dirs)), s.cmd).(inPipe := true), exits);
    }
  }

  lemma PipelineRuns(stages: seq<Stage>, op: Connective, rest: seq<Node>, l: Loop, exits: Exits)
    requires stages != [] && !l.inPipe
    ensures var l1 := StartStages(l, stages);
            var status := PipelineStatus(l1.piped, exits);
            RunFrom(FlattenStages(stages) + [OpNode(op)] + rest, l, exits)
            == if GoesOn(op, status) then RunFrom(rest, Restart(l1), exits) else (Finished(l1), Exit(status))
  {
    var tail := [OpNode(op)] + rest;
    Regroup(FlattenStages(stages), [OpNode(op)], rest);
    StagesRun(stages, tail, l, exits);
    assert tail[1..] == rest;
  }

  lemma LastPipelineRuns(stages: seq<Stage>, l: Loop, exits: Exits)
    requires stages != [] && !l.inPipe
    ensures var l1 := StartStages(l, stages);
            RunFrom(FlattenStages(stages), l, exits) == (Finished(l1), Exit(PipelineStatus(l1.piped, exits)))
  {
    assert FlattenStages(stages) + [] == FlattenStages(stages);
    StagesRun(stages, [], l, exits);
  }

  /** run on a tree's nodes does what the tree means, and returns its status. */
  lemma {:induction false} RunIsMeaning(t: Tree, m: Machine, cwd: string, exits: Exits)
    requires WellFormed(t)
    ensures var (m', status) := Meaning(t, m, cwd, exits);
            RunFrom(Flatten(t), Loop(m, false, cwd, [], []), exits) == (m', Exit(status))
    decreases t
  {
    var l := Loop(m, false, cwd, [], []);
    match t {
      case Single(stages) =>
        LastPipelineRuns(stages, l, exits);
      case Joined(stages, op, rest) =>
        PipelineRuns(stages, op, Flatten(rest), l, exits);
        var l1 := StartStages(l, stages);
        RunIsMeaning(rest, Finished(l1), l1.cwd, exits);
    }
  }

  // ----- Processes are only added by starting commands ------------------------------------

  lemma StartedMore(l: Loop, c: Command)
    requires l.inPipe ==> l.piped != []
    ensures Started(l, c).m.procs == l.m.procs + 1
  {
  }

  lemma {:induction false} WaitKeepsProcs(m: Machine, procs: seq<Proc>)
    ensures WaitAll(m, procs).procs == m.procs
    decreases procs
  {
    if procs != [] {
      WaitKeepsProcs(m.(trace := m.trace + [Wait(procs[0].pid)]), procs[1..]);
    }
  }

  lemma {:induction false} CloseKeepsProcs(m: Machine, handles: seq<Handle>)
    ensures CloseAll(m, handles).procs == m.procs
    decreases handles
  {
    if handles != [] {
      CloseKeepsProcs(if handles[0] == DevNull then m else m.(trace := m.trace + [Close(handles[0])]), handles[1..]);
    }
  }

  lemma FinishedKeepsProcs(l: Loop)
    ensures Finished(l).procs == l.m.procs
  {
    WaitKeepsProcs(l.m, l.piped);
    CloseKeepsProcs(WaitAll(l.m, l.piped), l.toClose);
  }

  // ----- Stages are connected ------------------------------------------------------------

  /** The last thing that happened was the start of process pid, reading from source. */
  predicate JustStarted(m: Machine, pid: nat, stdin: Source) {
    m.trace != [] &&
    var e := m.trace[|m.trace| - 1];
    e.Start? && e.pid == pid && e.stdin == stdin
  }

  lemma StartReadsPipe(l: Loop, c: Command)
    requires l.inPipe && l.piped != [] && l.piped[|l.piped| - 1].piped
    ensures JustStarted(Started(l, c).m, l.m.procs, FromPipe(l.piped[|l.piped| - 1].pid))
  {
  }

  lemma StartIsPiped(l: Loop, c: Command)
    requires l.inPipe ==> l.piped != []
    ensures var procs := Started(l, c).piped;
            procs != [] && procs[|procs| - 1] == Proc(l.m.procs, c.stdout == OutPipe)
  {
  }

  /** From l on, every stage that follows another reads from that one's pipe. */
  ghost predicate Connected(l: Loop, stages: seq<Stage>)
    requires l.inPipe ==> l.piped != []
    decreases stages
  {
    stages != [] ==>
      var l1 := Started(l.(cwd := JoinAll(l.cwd, stages[0].dirs)), stages[0].cmd);
      && (l.inPipe ==> JustStarted(l1.m, l.m.procs, FromPipe(l.piped[|l.piped| - 1].pid)))
      && Connected(l1.(inPipe := true), stages[1..])
  }

  lemma {:induction false} StagesConnected(l: Loop, stages: seq<Stage>)
    requires WellPiped(stages) && (l.inPipe ==> l.piped != [] && l.piped[|l.piped| - 1].piped)
    ensures Connected(l, stages)
    decreases stages
  {
    var l0 := l.(cwd := JoinAll(l.cwd, stages[0].dirs));
    if l.inPipe {
      StartReadsPipe(l0, stages[0].cmd);
    }
    StartIsPiped(l0, stages[0].cmd);
    if |stages| > 1 {
      StagesConnected(Started(l0, stages[0].cmd).(inPipe := true), stages[1..]);
    }
  }
}
