/** The AND-OR list of sections 2.9.2 and 2.9.3 of the POSIX.1-2017 Shell Command Language, in which
    a cd is a command of its own that succeeds, and exactly when run agrees with it. Redirections are
    taken as they were parsed, without their order. */
module ShellAndOr {
  import opened Options
  import opened ShellNodes
  import opened ShellRun
  import opened ShellMeaning
  import opened ShellSafety

  // ----- Reading from left to right -------------------------------------------------------

  predicate IsConnective(n: Node) {
    n.And? || n.Or?
  }

  predicate Continues(op: Node, status: int) {
    if op.Or? then status != 0 else status == 0
  }

  /** The connective after the first pipeline, and all that follows it. */
  function AfterPipeline(nodes: seq<Node>): (r: seq<Node>)
    ensures |r| <= |nodes|
  {
    if |nodes| < 2 then []
    else if IsConnective(nodes[1]) then nodes[1..]
    else AfterPipeline(nodes[2..])
  }

  /** A shell that has changed its directory opens files from there. */
  function InPath(cwd: string, name: string): string {
    if cwd == "." then name else JoinPath(cwd, name)
  }

  /** To a shell NUL: is the name of a file like any other. */
  function OutPath(cwd: string, name: string): string {
    if cwd == "." && name != "NUL:" then name else JoinPath(cwd, name)
  }

  function InShell(c: Command, cwd: string): Command {
    c.(stdin := match c.stdin case None => None case Some(f) => Some(InPath(cwd, f)),
       stdout := match c.stdout case OutFile(f) => OutFile(OutPath(cwd, f)) case _ => c.stdout,
       stderr := match c.stderr case ErrFile(f) => ErrFile(OutPath(cwd, f)) case _ => c.stderr)
  }

  /** A command of the list: the pipe is assigned first, and its own < replaces it. */
  function ListStarted(l: Loop, c: Command): Loop
    requires l.inPipe ==> l.piped != []
  {
    Started(if c.stdin.Some? then l.(inPipe := false) else l, InShell(c, l.cwd))
  }

  /** The next command of a pipeline. A cd always succeeds; it changes the directory of the commands
      that follow, except in a pipe, where it has a subshell to itself. */
  function ListFrom(nodes: seq<Node>, l: Loop, exits: Exits): (Machine, Outcome)
    decreases |nodes|, 1
  {
    if nodes == [] then (l.m, NoStatus)
    else
      match nodes[0]
      case Chdir(Some(dir)) =>
        ListAfter(nodes[1..], if l.inPipe then l else l.(cwd := JoinPath(l.cwd, dir)), 0, exits)
      case Cmd(c) =>
        if l.inPipe && l.piped == [] then (l.m, NoStatus)
        else
          var l1 := ListStarted(l, c);
          ListAfter(nodes[1..], l1, PipelineStatus(l1.piped, exits), exits)
      case _ => (l.m, NoStatus)
  }

  /** After a command: status is that of the pipeline, if it ends here. */
  function ListAfter(nodes: seq<Node>, l: Loop, status: int, exits: Exits): (Machine, Outcome)
    decreases |nodes|, 2
  {
    if nodes == [] then (Finished(l), Exit(status))
    else if nodes[0].Pipe? then ListFrom(nodes[1..], l.(inPipe := true), exits)
    else Connect(nodes[0], nodes[1..], Finished(l), status, l.cwd, exits)
  }

  /** Left-associative: a pipeline that is skipped leaves the status as it was, and the connective
      after it gets its say. */
  function Connect(op: Node, nodes: seq<Node>, m: Machine, status: int, cwd: string, exits: Exits): (Machine, Outcome)
    decreases |nodes|, 3
  {
    if Continues(op, status) then ListFrom(nodes, Loop(m, false, cwd, [], []), exits)
    else
      var rest := AfterPipeline(nodes);
      if rest == [] then (m, Exit(status))
      else Connect(rest[0], rest[1..], m, status, cwd, exits)
  }

  // ----- When the two agree ---------------------------------------------------------------

  /** Node i is a connective that follows a command. */
  predicate ConnectiveAt(nodes: seq<Node>, i: nat) {
    0 < i < |nodes| && nodes[i - 1].Cmd? && IsConnective(nodes[i])
  }

  /** The line does not mix the connectives. */
  ghost predicate OneConnective(nodes: seq<Node>) {
    forall i: nat, j: nat :: ConnectiveAt(nodes, i) && ConnectiveAt(nodes, j) ==> nodes[i] == nodes[j]
  }

  /** Node i is a cd that comes right after an ||. */
  predicate CdAfterOr(nodes: seq<Node>, i: nat) {
    0 < i < |nodes| && nodes[i - 1].Or? && nodes[i].Chdir?
  }

  ghost predicate NoCdAfterOr(nodes: seq<Node>) {
    forall i: nat :: !CdAfterOr(nodes, i)
  }

  /** The node does not read the pipe it stands in. */
  predicate IgnoresPipe(n: Node) {
    n.Chdir? || (n.Cmd? && n.cmd.stdin.Some?)
  }

  predicate PipeIgnoredAt(nodes: seq<Node>, i: nat) {
    0 < i < |nodes| && nodes[i - 1].Pipe? && IgnoresPipe(nodes[i])
  }

  /** What comes right after a pipe is a command without a < of its own. */
  ghost predicate PipesRead(nodes: seq<Node>) {
    forall i: nat :: !PipeIgnoredAt(nodes, i)
  }

  predicate Relative(name: string) {
    name == [] || name[0] != '/'
  }

  /** The files of the command are the same for run as for a shell; moved says that there was a cd. */
  predicate SameFiles(c: Command, moved: bool) {
    && (c.stdin.Some? && moved ==> !Relative(c.stdin.value))
    && (c.stdout.OutFile? ==> c.stdout.name != "NUL:" && (moved ==> !Relative(c.stdout.name)))
    && (c.stderr.ErrFile? ==> c.stderr.name != "NUL:" && (moved ==> !Relative(c.stderr.name)))
  }

  /** After a cd all files have absolute names, and nothing is written to NUL: . */
  predicate FilesKept(nodes: seq<Node>, moved: bool) {
    nodes == [] ||
    ((nodes[0].Cmd? ==> SameFiles(nodes[0].cmd, moved)) && FilesKept(nodes[1..], moved || nodes[0].Chdir?))
  }

  ghost predicate PlainLine(nodes: seq<Node>) {
    OneConnective(nodes) && NoCdAfterOr(nodes) && PipesRead(nodes) && FilesKept(nodes, false)
  }

  /** Connectives only: no reading stops where the other goes on. */
  ghost predicate Steady(nodes: seq<Node>) {
    OneConnective(nodes) && NoCdAfterOr(nodes)
  }

  /** At node n the two readings do not do the same. */
  predicate Diverges(n: Node, l: Loop) {
    (l.inPipe && IgnoresPipe(n)) || (n.Cmd? && !SameFiles(n.cmd, l.cwd != "."))
  }

  /** At the head of the loop: in a pipe, or between two pipelines. */
  predicate Tidy(l: Loop) {
    l.cwd != "" && if l.inPipe then l.piped != [] else l.piped == [] && l.toClose == []
  }

  lemma Moved(cwd: string, d: string)
    requires cwd != ""
    ensures JoinPath(cwd, d) != "" && JoinPath(cwd, d) != "."
  {
    var r := JoinPath(cwd, d);
    assert r[0] == '/' || r[|cwd| - 1] == '/' || (|r| > |cwd| && r[|cwd|] == '/');
    assert "."[0] == '.';
  }

  lemma FilesTail(nodes: seq<Node>, moved: bool)
    requires |nodes| > 2 && IsOp(nodes[1])
    ensures FilesKept(nodes, moved) <==> (nodes[0].Cmd? ==> SameFiles(nodes[0].cmd, moved))
                                         && FilesKept(nodes[2..], moved || nodes[0].Chdir?)
  {
    assert nodes[1..][0] == nodes[1] && nodes[1..][1..] == nodes[2..];
  }

  lemma SteadyTail(nodes: seq<Node>)
    requires Steady(nodes) && |nodes| > 2
    ensures Steady(nodes[2..])
  {
    var tail := nodes[2..];
    assert forall i: nat :: ConnectiveAt(tail, i) ==> ConnectiveAt(nodes, i + 2) && tail[i] == nodes[i + 2];
    assert forall i: nat :: CdAfterOr(tail, i) ==> CdAfterOr(nodes, i + 2);
  }

  lemma PipesTail(nodes: seq<Node>)
    requires PipesRead(nodes) && |nodes| > 2
    ensures PipesRead(nodes[2..])
  {
    assert forall i: nat :: PipeIgnoredAt(nodes[2..], i) ==> PipeIgnoredAt(nodes, i + 2);
  }

  ghost predicate EveryConnectiveIs(nodes: seq<Node>, op: Node) {
    forall n :: n in nodes && IsConnective(n) ==> n == op
  }

  /** What follows a connective on a plain line is more of the same. */
  lemma {:induction false} MoreOfTheSame(nodes: seq<Node>, op: Node)
    requires Grammatical(nodes) && Steady(nodes) && PipesRead(nodes) && (nodes[0].Chdir? ==> op == And)
    requires forall i: nat :: ConnectiveAt(nodes, i) ==> nodes[i] == op
    ensures EveryConnectiveIs(nodes, op)
    decreases |nodes|
  {
    if |nodes| > 1 {
      var tail := nodes[2..];
      GrammaticalTail(nodes);
      assert !PipeIgnoredAt(nodes, 2) && !CdAfterOr(nodes, 2);
      FirstTwo(nodes, op);
      SteadyTail(nodes);
      PipesTail(nodes);
      assert forall i: nat :: ConnectiveAt(tail, i) ==> ConnectiveAt(nodes, i + 2) && tail[i] == nodes[i + 2];
      MoreOfTheSame(tail, op);
      TwoMore(nodes, op);
    } else {
      assert nodes == [nodes[0]];
    }
  }

  lemma TwoMore(nodes: seq<Node>, op: Node)
    requires |nodes| > 2 && EveryConnectiveIs(nodes[2..], op)
    requires !IsConnective(nodes[0]) && (IsConnective(nodes[1]) ==> nodes[1] == op)
    ensures EveryConnectiveIs(nodes, op)
  {
    assert nodes == [nodes[0], nodes[1]] + nodes[2..];
  }

  lemma FirstTwo(nodes: seq<Node>, op: Node)
    requires Grammatical(nodes) && |nodes| > 2 && (nodes[0].Chdir? ==> op == And)
    requires ConnectiveAt(nodes, 1) ==> nodes[1] == op
    requires !CdAfterOr(nodes, 2) && !(nodes[1].Pipe? && nodes[2].Chdir?)
    ensures !IsConnective(nodes[0]) && (IsConnective(nodes[1]) ==> nodes[1] == op)
    ensures nodes[2].Chdir? ==> op == And
  {
    assert MayFollow(nodes[0], NextOf(nodes, 0));
    assert MayFollow(nodes[1], NextOf(nodes, 1));
  }

  lemma {:induction false} SkipsToTheEnd(op: Node, nodes: seq<Node>, m: Machine, status: int, cwd: string, exits: Exits)
    requires !Continues(op, status)
    requires forall n :: n in nodes && IsConnective(n) ==> !Continues(n, status)
    ensures Connect(op, nodes, m, status, cwd, exits) == (m, Exit(status))
    decreases |nodes|
  {
    var rest := AfterPipeline(nodes);
    PipelineSkipped(nodes);
    if rest != [] {
      SkipsToTheEnd(rest[0], rest[1..], m, status, cwd, exits);
    }
  }

  lemma {:induction false} PipelineSkipped(nodes: seq<Node>)
    ensures forall n :: n in AfterPipeline(nodes) ==> n in nodes
    ensures AfterPipeline(nodes) != [] ==> IsConnective(AfterPipeline(nodes)[0])
    decreases |nodes|
  {
    if |nodes| >= 2 && !IsConnective(nodes[1]) {
      PipelineSkipped(nodes[2..]);
    }
  }

  // ----- Single steps of the two readings -----------------------------------------------------

  /** A cd of its own succeeds; in a pipe it ends the pipeline. */
  lemma CdStep(nodes: seq<Node>, l: Loop, exits: Exits)
    requires |nodes| > 1 && nodes[0].Chdir? && nodes[0].dir.Some? && nodes[1] == And && Tidy(l)
    ensures var next := if l.inPipe then Restart(l) else l.(cwd := JoinPath(l.cwd, nodes[0].dir.value));
            ListFrom(nodes, l, exits) == ListFrom(nodes[2..], next, exits)
  {
    var l1 := if l.inPipe then l else l.(cwd := JoinPath(l.cwd, nodes[0].dir.value));
    assert nodes[1..][0] == nodes[1] && nodes[1..][1..] == nodes[2..];
    assert ListFrom(nodes, l, exits) == ListAfter(nodes[1..], l1, 0, exits);
    assert ListAfter(nodes[1..], l1, 0, exits) == Connect(And, nodes[2..], Finished(l1), 0, l1.cwd, exits);
  }

  lemma CommandStep(nodes: seq<Node>, l: Loop, exits: Exits)
    requires |nodes| > 1 && nodes[0].Cmd? && IsOp(nodes[1]) && Tidy(l)
    ensures var l1 := ListStarted(l, nodes[0].cmd);
            ListFrom(nodes, l, exits)
            == if nodes[1].Pipe? then ListFrom(nodes[2..], l1.(inPipe := true), exits)
               else Connect(nodes[1], nodes[2..], Finished(l1), PipelineStatus(l1.piped, exits), l1.cwd, exits)
  {
    var l1 := ListStarted(l, nodes[0].cmd);
    assert nodes[1..][0] == nodes[1] && nodes[1..][1..] == nodes[2..];
    assert ListFrom(nodes, l, exits) == ListAfter(nodes[1..], l1, PipelineStatus(l1.piped, exits), exits);
  }

  lemma RunStep(nodes: seq<Node>, l: Loop, exits: Exits)
    requires |nodes| > 1 && nodes[0].Cmd? && IsOp(nodes[1]) && Tidy(l)
    ensures var l1 := Started(l, nodes[0].cmd);
            var status := PipelineStatus(l1.piped, exits);
            RunFrom(nodes, l, exits)
            == if nodes[1].Pipe? then RunFrom(nodes[2..], l1.(inPipe := true), exits)
               else if Continues(nodes[1], status) then RunFrom(nodes[2..], Restart(l1), exits)
               else (Finished(l1), Exit(status))
  {
    assert nodes[1..][0] == nodes[1] && nodes[1..][1..] == nodes[2..];
    assert RunFrom(nodes, l, exits) == AfterStart(nodes[1..], Started(l, nodes[0].cmd), exits);
  }

  /** Where the two do not diverge they start the command in the same way. */
  lemma SameStart(l: Loop, c: Command)
    requires Tidy(l) && !Diverges(Cmd(c), l)
    ensures ListStarted(l, c) == Started(l, c)
  {
    SameCommand(c, l.cwd);
  }

  lemma SameCommand(c: Command, cwd: string)
    requires SameFiles(c, cwd != ".")
    ensures InShell(c, cwd) == c
  {
  }

  lemma LastStep(nodes: seq<Node>, l: Loop, exits: Exits)
    requires |nodes| == 1 && nodes[0].Cmd? && Tidy(l) && !Diverges(nodes[0], l)
    ensures ListFrom(nodes, l, exits) == RunFrom(nodes, l, exits)
  {
    SameStart(l, nodes[0].cmd);
    assert nodes[1..] == [];
  }

  // ----- Plain lines: the two agree -----------------------------------------------------------

  /** Nothing on the line makes the two readings differ, from a loop head that may be in a pipe. */
  ghost predicate PlainFrom(nodes: seq<Node>, l: Loop) {
    && Steady(nodes) && PipesRead(nodes) && FilesKept(nodes, l.cwd != ".")
    && (l.inPipe ==> nodes != [] && !IgnoresPipe(nodes[0]))
  }

  /** After a node that does not diverge, and the operator after it, the rest is still plain. */
  lemma PlainStep(nodes: seq<Node>, l: Loop, next: Loop)
    requires |nodes| > 2 && IsOp(nodes[1]) && PlainFrom(nodes, l)
    requires (next.cwd != ".") == (l.cwd != "." || nodes[0].Chdir?) && (next.inPipe ==> nodes[1].Pipe?)
    ensures !Diverges(nodes[0], l) && PlainFrom(nodes[2..], next)
  {
    SteadyTail(nodes);
    PipesTail(nodes);
    FilesTail(nodes, l.cwd != ".");
    assert !PipeIgnoredAt(nodes, 2);
  }

  lemma {:induction false} PlainAgrees(nodes: seq<Node>, l: Loop, exits: Exits)
    requires Grammatical(nodes) && Complete(nodes) && Tidy(l) && PlainFrom(nodes, l)
    ensures ListFrom(nodes, l, exits) == RunFrom(nodes, l, exits)
    decreases |nodes|
  {
    assert MayFollow(nodes[0], NextOf(nodes, 0));
    if |nodes| == 1 {
      LastStep(nodes, l, exits);
    } else {
      GrammaticalTail(nodes);
      if nodes[0].Chdir? {
        var next := l.(cwd := JoinPath(l.cwd, nodes[0].dir.value));
        Moved(l.cwd, nodes[0].dir.value);
        CdStep(nodes, l, exits);
        DirGoesOn(nodes, l, exits);
        PlainStep(nodes, l, next);
        PlainAgrees(nodes[2..], next, exits);
      } else {
        var l1 := Started(l, nodes[0].cmd);
        PlainStep(nodes, l, if nodes[1].Pipe? then l1.(inPipe := true) else Restart(l1));
        SameStart(l, nodes[0].cmd);
        CommandStep(nodes, l, exits);
        RunStep(nodes, l, exits);
        if nodes[1].Pipe? {
          PlainAgrees(nodes[2..], l1.(inPipe := true), exits);
        } else if Continues(nodes[1], PipelineStatus(l1.piped, exits)) {
          PlainAgrees(nodes[2..], Restart(l1), exits);
        } else {
          PlainStops(nodes, Finished(l1), PipelineStatus(l1.piped, exits), l.cwd, exits);
        }
      }
    }
  }

  /** On a plain line a connective that stops the first pipeline stops everything. */
  lemma PlainStops(nodes: seq<Node>, m: Machine, status: int, cwd: string, exits: Exits)
    requires Grammatical(nodes) && Steady(nodes) && PipesRead(nodes)
    requires |nodes| > 2 && ConnectiveAt(nodes, 1) && !Continues(nodes[1], status)
    ensures Connect(nodes[1], nodes[2..], m, status, cwd, exits) == (m, Exit(status))
  {
    var tail := nodes[2..];
    GrammaticalTail(nodes);
    SteadyTail(nodes);
    PipesTail(nodes);
    assert forall i: nat :: ConnectiveAt(tail, i) ==> ConnectiveAt(nodes, i + 2) && tail[i] == nodes[i + 2];
    assert !CdAfterOr(nodes, 2);
    MoreOfTheSame(tail, nodes[1]);
    SkipsToTheEnd(nodes[1], nodes[2..], m, status, cwd, exits);
  }

  // ----- Where the two diverge, an event differs ---------------------------------------------------

  predicate Extends(m: Machine, m': Machine) {
    m.trace <= m'.trace && m.procs <= m'.procs
  }

  /** Between the two only files were opened. */
  predicate FilesOpened(m: Machine, m': Machine) {
    && m.trace <= m'.trace && m'.files >= m.files && |m'.trace| == |m.trace| + m'.files - m.files
    && forall i :: |m.trace| <= i < |m'.trace| ==> m'.trace[i].Open?
  }

  lemma StdinOpens(m: Machine, c: Command, previous: Option<Proc>)
    ensures FilesOpened(m, Stdin(m, c, previous).0)
  {
  }

  lemma OutputOpens(m: Machine, c: Command)
    ensures FilesOpened(m, OutputTo(m, c).0)
  {
  }

  lemma ErrorsOpen(m: Machine, c: Command)
    ensures FilesOpened(m, ErrorsTo(m, c).0)
  {
  }

  lemma OpenedTwice(m: Machine, m1: Machine, m2: Machine)
    requires FilesOpened(m, m1) && FilesOpened(m1, m2)
    ensures FilesOpened(m, m2)
  {
    assert forall i :: |m.trace| <= i < |m1.trace| ==> m2.trace[i] == m1.trace[i];
  }

  /** How a command is started: its streams are opened one after another, and then the process starts. */
  lemma StartedTrace(l: Loop, c: Command) returns (previous: Option<Proc>, m1: Machine, m2: Machine, m3: Machine)
    requires l.inPipe ==> l.piped != []
    ensures previous == if l.inPipe then Some(l.piped[|l.piped| - 1]) else None
    ensures m1 == Stdin(l.m, c, previous).0 && m2 == OutputTo(m1, c).0 && m3 == ErrorsTo(m2, c).0
    ensures FilesOpened(l.m, m1) && FilesOpened(m1, m2) && FilesOpened(m2, m3)
    ensures Started(l, c).m.trace
         == m3.trace + [Start(m3.procs, c.argv, Stdin(l.m, c, previous).1, OutputTo(m1, c).1, ErrorsTo(m2, c).1,
                              c.env, ProcCwd(l.cwd))]
  {
    previous := if l.inPipe then Some(l.piped[|l.piped| - 1]) else None;
    m1 := Stdin(l.m, c, previous).0;
    m2 := OutputTo(m1, c).0;
    m3 := ErrorsTo(m2, c).0;
    StdinOpens(l.m, c, previous);
    OutputOpens(m1, c);
    ErrorsOpen(m2, c);
  }

  /** The event that starts the command, and the files that were opened before it. */
  predicate StartsAfter(before: seq<Event>, trace: seq<Event>) {
    && before <= trace && |before| < |trace|
    && trace[|trace| - 1].Start?
    && forall i :: |before| <= i < |trace| - 1 ==> trace[i].Open?
  }

  lemma StartsLast(l: Loop, c: Command)
    requires l.inPipe ==> l.piped != []
    ensures StartsAfter(l.m.trace, Started(l, c).m.trace)
  {
    var previous, m1, m2, m3 := StartedTrace(l, c);
    OpenedTwice(l.m, m1, m2);
    OpenedTwice(l.m, m2, m3);
  }

  lemma StartedExtends(l: Loop, c: Command)
    requires l.inPipe ==> l.piped != []
    ensures Extends(l.m, Started(l, c).m)
    ensures |l.m.trace| < |Started(l, c).m.trace| && !Started(l, c).m.trace[|l.m.trace|].Wait?
  {
    StartsLast(l, c);
    StartedMore(l, c);
  }

  lemma {:induction false} WaitExtends(m: Machine, procs: seq<Proc>)
    ensures Extends(m, WaitAll(m, procs))
    ensures procs != [] ==> m.trace + [Wait(procs[0].pid)] <= WaitAll(m, procs).trace
    decreases procs
  {
    if procs != [] {
      WaitExtends(m.(trace := m.trace + [Wait(procs[0].pid)]), procs[1..]);
    }
  }

  lemma {:induction false} CloseExtends(m: Machine, handles: seq<Handle>)
    ensures Extends(m, CloseAll(m, handles))
    decreases handles
  {
    if handles != [] {
      CloseExtends(if handles[0] == DevNull then m else m.(trace := m.trace + [Close(handles[0])]), handles[1..]);
    }
  }

  lemma FinishedExtends(l: Loop)
    ensures Extends(l.m, Finished(l))
    ensures l.piped != [] ==> l.m.trace + [Wait(l.piped[0].pid)] <= Finished(l).trace
  {
    WaitExtends(l.m, l.piped);
    CloseExtends(WaitAll(l.m, l.piped), l.toClose);
  }

  lemma {:induction false} ListExtends(nodes: seq<Node>, l: Loop, exits: Exits)
    ensures Extends(l.m, ListFrom(nodes, l, exits).0)
    decreases |nodes|, 1
  {
    if nodes != [] {
      match nodes[0]
      case Chdir(Some(dir)) =>
        ListAfterExtends(nodes[1..], if l.inPipe then l else l.(cwd := JoinPath(l.cwd, dir)), 0, exits);
      case Cmd(c) =>
        if l.inPipe ==> l.piped != [] {
          var l1 := ListStarted(l, c);
          StartedExtends(if c.stdin.Some? then l.(inPipe := false) else l, InShell(c, l.cwd));
          ListAfterExtends(nodes[1..], l1, PipelineStatus(l1.piped, exits), exits);
        }
      case _ =>
    }
  }

  lemma {:induction false} ListAfterExtends(nodes: seq<Node>, l: Loop, status: int, exits: Exits)
    ensures Extends(l.m, ListAfter(nodes, l, status, exits).0)
    decreases |nodes|, 2
  {
    FinishedExtends(l);
    if nodes != [] {
      if nodes[0].Pipe? {
        ListExtends(nodes[1..], l.(inPipe := true), exits);
      } else {
        ConnectExtends(nodes[0], nodes[1..], Finished(l), status, l.cwd, exits);
      }
    }
  }

  lemma {:induction false} ConnectExtends(op: Node, nodes: seq<Node>, m: Machine, status: int, cwd: string, exits: Exits)
    ensures Extends(m, Connect(op, nodes, m, status, cwd, exits).0)
    decreases |nodes|, 3
  {
    if Continues(op, status) {
      ListExtends(nodes, Loop(m, false, cwd, [], []), exits);
    } else {
      var rest := AfterPipeline(nodes);
      if rest != [] {
        ConnectExtends(rest[0], rest[1..], m, status, cwd, exits);
      }
    }
  }

  lemma {:induction false} RunExtends(nodes: seq<Node>, l: Loop, exits: Exits)
    ensures Extends(l.m, RunFrom(nodes, l, exits).0)
    decreases |nodes|, 1
  {
    if nodes != [] {
      match nodes[0]
      case Chdir(dir) =>
        if |nodes| > 1 && nodes[1] == And && dir.Some? {
          RunExtends(nodes[2..], l.(cwd := JoinPath(l.cwd, dir.value)), exits);
        }
      case Cmd(c) =>
        if l.inPipe ==> l.piped != [] {
          StartedExtends(l, c);
          AfterStartExtends(nodes[1..], Started(l, c), exits);
        }
      case _ =>
    }
  }

  lemma {:induction false} AfterStartExtends(nodes: seq<Node>, l: Loop, exits: Exits)
    ensures Extends(l.m, AfterStart(nodes, l, exits).0)
    decreases |nodes|, 2
  {
    FinishedExtends(l);
    if nodes != [] {
      match nodes[0]
      case Pipe =>
        RunExtends(nodes[1..], l.(inPipe := true), exits);
      case Or =>
        RunExtends(nodes[1..], Restart(l), exits);
      case And =>
        RunExtends(nodes[1..], Restart(l), exits);
      case _ =>
        RunExtends(nodes[1..], l, exits);
    }
  }

  /** run goes past any cd and starts a command before it waits for anything. */
  lemma {:induction false} RunStartsNext(nodes: seq<Node>, l: Loop, exits: Exits)
    requires Grammatical(nodes) && Complete(nodes) && Tidy(l)
    ensures var trace := RunFrom(nodes, l, exits).0.trace;
            l.m.trace <= trace && |l.m.trace| < |trace| && !trace[|l.m.trace|].Wait?
    decreases |nodes|
  {
    assert MayFollow(nodes[0], NextOf(nodes, 0));
    if nodes[0].Chdir? {
      GrammaticalTail(nodes);
      DirGoesOn(nodes, l, exits);
      Moved(l.cwd, nodes[0].dir.value);
      RunStartsNext(nodes[2..], l.(cwd := JoinPath(l.cwd, nodes[0].dir.value)), exits);
    } else {
      var l1 := Started(l, nodes[0].cmd);
      StartedExtends(l, nodes[0].cmd);
      AfterStartExtends(nodes[1..], l1, exits);
      assert RunFrom(nodes, l, exits) == AfterStart(nodes[1..], l1, exits);
    }
  }

  /** The list reading waits for the commands before a cd in a pipe; run starts the next one. */
  lemma PipedCdDiffers(nodes: seq<Node>, l: Loop, exits: Exits)
    requires Grammatical(nodes) && Complete(nodes) && nodes[0].Chdir? && Tidy(l) && l.inPipe
    ensures ListFrom(nodes, l, exits).0.trace != RunFrom(nodes, l, exits).0.trace
  {
    assert MayFollow(nodes[0], NextOf(nodes, 0));
    GrammaticalTail(nodes);
    CdStep(nodes, l, exits);
    FinishedExtends(l);
    ListExtends(nodes[2..], Restart(l), exits);
    RunStartsNext(nodes, l, exits);
    var n := |l.m.trace|;
    assert (l.m.trace + [Wait(l.piped[0].pid)])[n].Wait?;
    assert ListFrom(nodes, l, exits).0.trace[n] == Finished(l).trace[n];
  }

  predicate StandsForNull(name: string) {
    name == "NUL:" || name == "/dev/null"
  }

  /** The trace that grew out of m records that h was opened under this name. */
  predicate RecordsFile(m: Machine, trace: seq<Event>, h: Handle, name: string) {
    && h.Opened? && h.file >= m.files && |m.trace| + h.file - m.files < |trace|
    && trace[|m.trace| + h.file - m.files] == Open(h.file, name)
  }

  predicate RecordsOutput(m: Machine, trace: seq<Event>, sink: Sink, name: string) {
    && sink.ToHandle?
    && if StandsForNull(name) then sink.h == DevNull else RecordsFile(m, trace, sink.h, name)
  }

  lemma FileRecorded(m: Machine, m1: Machine, name: string, trace: seq<Event>)
    requires FilesOpened(m, m1) && OpenFile(m1, name).0.trace <= trace && |m1.trace| + 1 < |trace|
    ensures RecordsFile(m, trace, OpenFile(m1, name).1, name)
  {
    var opening := OpenFile(m1, name).0.trace;
    assert opening[|m1.trace|] == Open(m1.files, name);
    assert trace[|m1.trace|] == opening[|m1.trace|];
  }

  lemma StdinRecorded(l: Loop, c: Command)
    requires !l.inPipe && c.stdin.Some?
    ensures var trace := Started(l, c).m.trace;
            && StartsAfter(l.m.trace, trace) && trace[|trace| - 1].stdin.FromHandle?
            && RecordsFile(l.m, trace, trace[|trace| - 1].stdin.h, c.stdin.value)
  {
    var previous, m1, m2, m3 := StartedTrace(l, c);
    StartsLast(l, c);
    OpenedTwice(m1, m2, m3);
    FileRecorded(l.m, l.m, c.stdin.value, Started(l, c).m.trace);
  }

  lemma StdoutRecorded(l: Loop, c: Command)
    requires (l.inPipe ==> l.piped != []) && c.stdout.OutFile?
    ensures var trace := Started(l, c).m.trace;
            StartsAfter(l.m.trace, trace) && RecordsOutput(l.m, trace, trace[|trace| - 1].stdout, c.stdout.name)
  {
    var previous, m1, m2, m3 := StartedTrace(l, c);
    StartsLast(l, c);
    OutputRecorded(l.m, m1, c.stdout.name, m3, Started(l, c).m.trace);
  }

  lemma OutputRecorded(m: Machine, m1: Machine, name: string, m2: Machine, trace: seq<Event>)
    requires FilesOpened(m, m1) && FilesOpened(OpenOutFile(m1, name).0, m2)
    requires m2.trace <= trace && |m2.trace| < |trace|
    ensures RecordsOutput(m, trace, ToHandle(OpenOutFile(m1, name).1), name)
  {
    if !StandsForNull(name) {
      FileRecorded(m, m1, name, trace);
    }
  }

  lemma StderrRecorded(l: Loop, c: Command)
    requires (l.inPipe ==> l.piped != []) && c.stderr.ErrFile?
    ensures var trace := Started(l, c).m.trace;
            StartsAfter(l.m.trace, trace) && RecordsOutput(l.m, trace, trace[|trace| - 1].stderr, c.stderr.name)
  {
    var previous, m1, m2, m3 := StartedTrace(l, c);
    StartsLast(l, c);
    OpenedTwice(l.m, m1, m2);
    OutputRecorded(l.m, m2, c.stderr.name, m3, Started(l, c).m.trace);
  }

  lemma SameInput(cwd: string, f: string)
    requires cwd != "" && InPath(cwd, f) == f
    ensures cwd == "." || !Relative(f)
  {
  }

  lemma SameOutput(cwd: string, f: string)
    requires cwd != "" && (OutPath(cwd, f) == f || (StandsForNull(f) && StandsForNull(OutPath(cwd, f))))
    ensures f != "NUL:" && (cwd == "." || !Relative(f))
  {
    var r := JoinPath(cwd, f);
    assert f != [] ==> r[|r| - 1] == f[|f| - 1];
    assert f == "NUL:" ==> |r| > 4;
  }

  lemma SameStdin(l: Loop, c: Command)
    requires Tidy(l) && !l.inPipe && c.stdin.Some? && Started(l, c).m.trace == ListStarted(l, c).m.trace
    ensures l.cwd == "." || !Relative(c.stdin.value)
  {
    var d := InShell(c, l.cwd);
    StdinRecorded(l, c);
    StdinRecorded(l, d);
    assert c.stdin.value == d.stdin.value;
    SameInput(l.cwd, c.stdin.value);
  }

  lemma SameStdout(l: Loop, c: Command)
    requires Tidy(l) && !(l.inPipe && c.stdin.Some?) && c.stdout.OutFile?
    requires Started(l, c).m.trace == ListStarted(l, c).m.trace
    ensures c.stdout.name != "NUL:" && (l.cwd == "." || !Relative(c.stdout.name))
  {
    StdoutRecorded(l, c);
    StdoutRecorded(l, InShell(c, l.cwd));
    SameOutput(l.cwd, c.stdout.name);
  }

  lemma SameStderr(l: Loop, c: Command)
    requires Tidy(l) && !(l.inPipe && c.stdin.Some?) && c.stderr.ErrFile?
    requires Started(l, c).m.trace == ListStarted(l, c).m.trace
    ensures c.stderr.name != "NUL:" && (l.cwd == "." || !Relative(c.stderr.name))
  {
    StderrRecorded(l, c);
    StderrRecorded(l, InShell(c, l.cwd));
    SameOutput(l.cwd, c.stderr.name);
  }

  /** If both leave the same trace, they read and write the same files. */
  lemma SameTraceSameFiles(l: Loop, c: Command)
    requires Tidy(l) && !(l.inPipe && c.stdin.Some?)
    requires Started(l, c).m.trace == ListStarted(l, c).m.trace
    ensures SameFiles(c, l.cwd != ".")
  {
    if c.stdin.Some? {
      SameStdin(l, c);
    }
    if c.stdout.OutFile? {
      SameStdout(l, c);
    }
    if c.stderr.ErrFile? {
      SameStderr(l, c);
    }
  }

  /** run takes standard input from the pipe, the list from a file. */
  lemma OwnStdin(l: Loop, c: Command)
    requires l.inPipe && l.piped != [] && c.stdin.Some?
    ensures Started(l, c).m.trace != ListStarted(l, c).m.trace
  {
    var ran := Started(l, c).m.trace;
    StartsLast(l, c);
    StdinRecorded(l.(inPipe := false), InShell(c, l.cwd));
    assert !ran[|ran| - 1].stdin.FromHandle?;
  }

  lemma DivergingCommand(l: Loop, c: Command)
    requires Tidy(l) && Diverges(Cmd(c), l)
    ensures Started(l, c).m.trace != ListStarted(l, c).m.trace
  {
    if l.inPipe && c.stdin.Some? {
      OwnStdin(l, c);
    } else if Started(l, c).m.trace == ListStarted(l, c).m.trace {
      SameTraceSameFiles(l, c);
    }
  }

  /** Two such beginnings that differ do so at some place that both have. */
  lemma DifferSomewhere(before: seq<Event>, a: seq<Event>, b: seq<Event>) returns (n: nat)
    requires StartsAfter(before, a) && StartsAfter(before, b) && a != b
    ensures n < |a| && n < |b| && a[n] != b[n]
  {
    if |a| == |b| {
      n :| n < |a| && a[n] != b[n];
    } else {
      n := if |a| < |b| then |a| - 1 else |b| - 1;
    }
  }

  lemma DifferAt(a: seq<Event>, b: seq<Event>, a0: seq<Event>, b0: seq<Event>, n: nat)
    requires a0 <= a && b0 <= b && n < |a0| && n < |b0| && a0[n] != b0[n]
    ensures a != b
  {
    assert a[n] == a0[n] && b[n] == b0[n];
  }

  lemma CommandDiffers(nodes: seq<Node>, l: Loop, exits: Exits)
    requires nodes != [] && nodes[0].Cmd? && Tidy(l) && Diverges(nodes[0], l)
    ensures ListFrom(nodes, l, exits).0.trace != RunFrom(nodes, l, exits).0.trace
  {
    var c := nodes[0].cmd;
    var ran, listed := Started(l, c), ListStarted(l, c);
    DivergingCommand(l, c);
    StartsLast(l, c);
    StartsLast(if c.stdin.Some? then l.(inPipe := false) else l, InShell(c, l.cwd));
    var n := DifferSomewhere(l.m.trace, ran.m.trace, listed.m.trace);
    AfterStartExtends(nodes[1..], ran, exits);
    ListAfterExtends(nodes[1..], listed, PipelineStatus(listed.piped, exits), exits);
    DifferAt(RunFrom(nodes, l, exits).0.trace, ListFrom(nodes, l, exits).0.trace, ran.m.trace, listed.m.trace, n);
  }

  /** When no command stops the line, both readings get to the first node where they diverge. */
  lemma {:induction false} ReachesDivergence(nodes: seq<Node>, l: Loop, exits: Exits)
    requires Grammatical(nodes) && Complete(nodes) && Tidy(l) && GoesThrough(nodes, l.m.procs, exits)
    requires Diverges(nodes[0], l) || !PipesRead(nodes) || !FilesKept(nodes, l.cwd != ".")
    ensures ListFrom(nodes, l, exits).0.trace != RunFrom(nodes, l, exits).0.trace
    decreases |nodes|
  {
    assert MayFollow(nodes[0], NextOf(nodes, 0));
    if Diverges(nodes[0], l) {
      if nodes[0].Chdir? {
        PipedCdDiffers(nodes, l, exits);
      } else {
        CommandDiffers(nodes, l, exits);
      }
    } else {
      DivergesLater(nodes, l);
      GrammaticalTail(nodes);
      if nodes[0].Chdir? {
        Moved(l.cwd, nodes[0].dir.value);
        GoesThroughTail(nodes, l.m.procs, exits);
        CdStep(nodes, l, exits);
        DirGoesOn(nodes, l, exits);
        ReachesDivergence(nodes[2..], l.(cwd := JoinPath(l.cwd, nodes[0].dir.value)), exits);
      } else {
        CommandGoesOn(nodes, l, exits);
        ListGoesOn(nodes, l, exits);
        ReachesDivergence(nodes[2..], AfterOperator(nodes, l), exits);
      }
    }
  }

  lemma DivergesLater(nodes: seq<Node>, l: Loop)
    requires Grammatical(nodes) && Tidy(l) && !Diverges(nodes[0], l)
    requires !PipesRead(nodes) || !FilesKept(nodes, l.cwd != ".")
    ensures |nodes| > 2 && IsOp(nodes[1])
    ensures || (nodes[1].Pipe? && IgnoresPipe(nodes[2])) || !PipesRead(nodes[2..])
            || !FilesKept(nodes[2..], l.cwd != "." || nodes[0].Chdir?)
  {
    assert MayFollow(nodes[0], NextOf(nodes, 0));
    if |nodes| > 1 {
      GrammaticalTail(nodes);
      FilesTail(nodes, l.cwd != ".");
      if !PipesRead(nodes) {
        LaterPipe(nodes);
      }
    } else {
      OneNode(nodes, l.cwd != ".");
    }
  }

  lemma OneNode(nodes: seq<Node>, moved: bool)
    requires |nodes| == 1
    ensures PipesRead(nodes) && (FilesKept(nodes, moved) <==> (nodes[0].Cmd? ==> SameFiles(nodes[0].cmd, moved)))
  {
    assert nodes[1..] == [];
  }

  lemma LaterPipe(nodes: seq<Node>)
    requires Grammatical(nodes) && !PipesRead(nodes)
    ensures |nodes| > 2 && ((nodes[1].Pipe? && IgnoresPipe(nodes[2])) || !PipesRead(nodes[2..]))
  {
    var i: nat :| PipeIgnoredAt(nodes, i);
    assert MayFollow(nodes[0], NextOf(nodes, 0));
    if i > 2 {
      assert PipeIgnoredAt(nodes[2..], i - 2);
    }
  }

  lemma ListGoesOn(nodes: seq<Node>, l: Loop, exits: Exits)
    requires |nodes| > 1 && nodes[0].Cmd? && IsOp(nodes[1]) && Tidy(l) && !Diverges(nodes[0], l)
    requires GoesThrough(nodes, l.m.procs, exits)
    ensures ListFrom(nodes, l, exits) == ListFrom(nodes[2..], AfterOperator(nodes, l), exits)
    ensures Tidy(AfterOperator(nodes, l)) && AfterOperator(nodes, l).cwd == l.cwd
    ensures AfterOperator(nodes, l).inPipe == nodes[1].Pipe?
  {
    SameStart(l, nodes[0].cmd);
    CommandStep(nodes, l, exits);
    StartIsPiped(l, nodes[0].cmd);
    assert exits(l.m.procs + 0) == GoingOn(nodes, 0);
  }

  // ----- Another connective after the first: one reading stops, the other goes on ---------------

  /** The first connective that follows a command. */
  function FirstConnective(nodes: seq<Node>): nat {
    if |nodes| < 2 then |nodes|
    else if nodes[0].Cmd? && IsConnective(nodes[1]) then 1
    else 2 + FirstConnective(nodes[2..])
  }

  lemma {:induction false} FirstIsFirst(nodes: seq<Node>, i: nat)
    requires Grammatical(nodes) && ConnectiveAt(nodes, i)
    ensures FirstConnective(nodes) <= i && ConnectiveAt(nodes, FirstConnective(nodes))
    decreases |nodes|
  {
    assert MayFollow(nodes[0], NextOf(nodes, 0));
    if !(nodes[0].Cmd? && IsConnective(nodes[1])) {
      GrammaticalTail(nodes);
      assert i > 2 && ConnectiveAt(nodes[2..], i - 2);
      FirstIsFirst(nodes[2..], i - 2);
    }
  }

  lemma {:induction false} ListStarts(nodes: seq<Node>, l: Loop, exits: Exits)
    requires Grammatical(nodes) && Complete(nodes) && Tidy(l)
    ensures ListFrom(nodes, l, exits).0.procs > l.m.procs
    decreases |nodes|
  {
    assert MayFollow(nodes[0], NextOf(nodes, 0));
    if nodes[0].Chdir? {
      GrammaticalTail(nodes);
      CdStep(nodes, l, exits);
      FinishedExtends(l);
      Moved(l.cwd, nodes[0].dir.value);
      ListStarts(nodes[2..], if l.inPipe then Restart(l) else l.(cwd := JoinPath(l.cwd, nodes[0].dir.value)), exits);
    } else {
      var l1 := ListStarted(l, nodes[0].cmd);
      StartedMore(if nodes[0].cmd.stdin.Some? then l.(inPipe := false) else l, InShell(nodes[0].cmd, l.cwd));
      ListAfterExtends(nodes[1..], l1, PipelineStatus(l1.piped, exits), exits);
    }
  }

  lemma {:induction false} SkippedTail(nodes: seq<Node>, n: Node)
    requires Grammatical(nodes) && Complete(nodes) && n in nodes && IsConnective(n)
    ensures var rest := AfterPipeline(nodes);
            && |rest| > 1 && IsConnective(rest[0]) && n in rest
            && Grammatical(rest[1..]) && Complete(rest[1..])
    decreases |nodes|
  {
    assert MayFollow(nodes[0], NextOf(nodes, 0));
    if |nodes| > 1 {
      GrammaticalTail(nodes);
      assert nodes == [nodes[0], nodes[1]] + nodes[2..];
      if IsConnective(nodes[1]) {
        assert nodes[1..][1..] == nodes[2..];
        assert nodes == [nodes[0]] + nodes[1..];
      } else {
        SkippedTail(nodes[2..], n);
      }
    }
  }

  /** A later connective that goes on with the status starts something. */
  lemma {:induction false} Resumes(op: Node, nodes: seq<Node>, m: Machine, status: int, cwd: string, exits: Exits, n: Node)
    requires Grammatical(nodes) && Complete(nodes) && !Continues(op, status)
    requires cwd != "" && n in nodes && IsConnective(n) && Continues(n, status)
    ensures Connect(op, nodes, m, status, cwd, exits).0.procs > m.procs
    decreases |nodes|
  {
    SkippedTail(nodes, n);
    var rest := AfterPipeline(nodes);
    if Continues(rest[0], status) {
      ListStarts(rest[1..], Loop(m, false, cwd, [], []), exits);
    } else {
      assert rest == [rest[0]] + rest[1..];
      Resumes(rest[0], rest[1..], m, status, cwd, exits, n);
    }
  }

  /** The two readings go together up to the first connective, which stops there with this status, and
      the connective at j is a different one. */
  ghost predicate StopsEarly(nodes: seq<Node>, l: Loop, j: nat, status: int) {
    && Grammatical(nodes) && Complete(nodes) && Tidy(l)
    && PipesRead(nodes) && FilesKept(nodes, l.cwd != ".") && (l.inPipe ==> !IgnoresPipe(nodes[0]))
    && FirstConnective(nodes) < j < |nodes| && IsConnective(nodes[j]) && nodes[j] != nodes[FirstConnective(nodes)]
    && !Continues(nodes[FirstConnective(nodes)], status)
  }

  lemma StopsLater(nodes: seq<Node>, l: Loop, next: Loop, j: nat, status: int)
    requires StopsEarly(nodes, l, j, status) && !ConnectiveAt(nodes, 1) && Tidy(next)
    requires |nodes| > 2 && IsOp(nodes[1])
    requires (next.cwd != ".") == (l.cwd != "." || nodes[0].Chdir?) && (next.inPipe ==> nodes[1].Pipe?)
    ensures j > 2 && StopsEarly(nodes[2..], next, j - 2, status)
  {
    GrammaticalTail(nodes);
    PipesTail(nodes);
    FilesTail(nodes, l.cwd != ".");
    assert !PipeIgnoredAt(nodes, 2);
  }

  /** The head of the loop after a cd outside a pipe, or after a command in one. */
  function NextHead(nodes: seq<Node>, l: Loop): Loop
    requires nodes != [] && (nodes[0].Cmd? ==> l.inPipe ==> l.piped != [])
  {
    match nodes[0]
    case Chdir(Some(dir)) => l.(cwd := JoinPath(l.cwd, dir))
    case Cmd(c) => Started(l, c).(inPipe := true)
    case _ => l
  }

  lemma GoTogether(nodes: seq<Node>, l: Loop, exits: Exits)
    requires |nodes| > 2 && Grammatical(nodes) && Complete(nodes) && Tidy(l) && !Diverges(nodes[0], l)
    requires nodes[0].Chdir? || nodes[1].Pipe?
    ensures var next := NextHead(nodes, l);
            && Tidy(next) && (next.inPipe ==> nodes[1].Pipe?)
            && (next.cwd != ".") == (l.cwd != "." || nodes[0].Chdir?)
            && ListFrom(nodes, l, exits) == ListFrom(nodes[2..], next, exits)
            && RunFrom(nodes, l, exits) == RunFrom(nodes[2..], next, exits)
  {
    assert MayFollow(nodes[0], NextOf(nodes, 0));
    if nodes[0].Chdir? {
      Moved(l.cwd, nodes[0].dir.value);
      CdStep(nodes, l, exits);
      DirGoesOn(nodes, l, exits);
    } else {
      SameStart(l, nodes[0].cmd);
      CommandStep(nodes, l, exits);
      RunStep(nodes, l, exits);
    }
  }

  /** Where the first connective stops the line and a different one follows, the list starts more. */
  lemma {:induction false} StopDiffers(nodes: seq<Node>, l: Loop, exits: Exits, j: nat, status: int)
    requires StopsEarly(nodes, l, j, status) && forall pid :: exits(pid) == status
    ensures ListFrom(nodes, l, exits).0.procs > RunFrom(nodes, l, exits).0.procs
    decreases |nodes|
  {
    GrammaticalTail(nodes);
    if ConnectiveAt(nodes, 1) {
      StopsHere(nodes, l, exits, j, status);
    } else {
      OneFurther(nodes, l, exits, j, status);
      StopDiffers(nodes[2..], NextHead(nodes, l), exits, j - 2, status);
    }
  }

  lemma OneFurther(nodes: seq<Node>, l: Loop, exits: Exits, j: nat, status: int)
    requires |nodes| > 2 && IsOp(nodes[1]) && StopsEarly(nodes, l, j, status) && !ConnectiveAt(nodes, 1)
    ensures var next := NextHead(nodes, l);
            && j > 2 && StopsEarly(nodes[2..], next, j - 2, status)
            && ListFrom(nodes, l, exits) == ListFrom(nodes[2..], next, exits)
            && RunFrom(nodes, l, exits) == RunFrom(nodes[2..], next, exits)
  {
    GoTogether(nodes, l, exits);
    StopsLater(nodes, l, NextHead(nodes, l), j, status);
  }

  lemma StopsHere(nodes: seq<Node>, l: Loop, exits: Exits, j: nat, status: int)
    requires StopsEarly(nodes, l, j, status) && ConnectiveAt(nodes, 1) && forall pid :: exits(pid) == status
    ensures ListFrom(nodes, l, exits).0.procs > RunFrom(nodes, l, exits).0.procs
  {
    var l1 := Started(l, nodes[0].cmd);
    GrammaticalTail(nodes);
    SameStart(l, nodes[0].cmd);
    CommandStep(nodes, l, exits);
    RunStep(nodes, l, exits);
    StartIsPiped(l, nodes[0].cmd);
    assert nodes[j] == nodes[2..][j - 2];
    Resumes(nodes[1], nodes[2..], Finished(l1), status, l1.cwd, exits, nodes[j]);
  }

  /** A line that is not steady has a connective unlike its first one. */
  lemma UnlikeFirst(nodes: seq<Node>) returns (j: nat)
    requires Grammatical(nodes) && Complete(nodes) && !Steady(nodes)
    ensures FirstConnective(nodes) < j < |nodes| && IsConnective(nodes[j]) && nodes[j] != nodes[FirstConnective(nodes)]
  {
    var f := FirstConnective(nodes);
    if !OneConnective(nodes) {
      var a: nat, b: nat :| ConnectiveAt(nodes, a) && ConnectiveAt(nodes, b) && nodes[a] != nodes[b];
      FirstIsFirst(nodes, a);
      FirstIsFirst(nodes, b);
      j := if nodes[a] != nodes[f] then a else b;
    } else {
      var i: nat :| CdAfterOr(nodes, i);
      CdIsFollowed(nodes, i);
      FirstIsFirst(nodes, i - 1);
      assert nodes[f] == nodes[i - 1];
      j := i + 1;
    }
  }

  lemma CdIsFollowed(nodes: seq<Node>, i: nat)
    requires Grammatical(nodes) && Complete(nodes) && CdAfterOr(nodes, i)
    ensures i > 1 && ConnectiveAt(nodes, i - 1) && i + 1 < |nodes| && nodes[i + 1] == And
  {
    assert MayFollow(nodes[i], NextOf(nodes, i));
    if i > 1 {
      assert MayFollow(nodes[i - 2], NextOf(nodes, i - 2));
    }
  }

  // ----- The exact condition ---------------------------------------------------------------------

  lemma NotPlainDiffers(nodes: seq<Node>) returns (exits: Exits)
    requires Grammatical(nodes) && Complete(nodes) && !PlainLine(nodes)
    ensures ListFrom(nodes, ENTRY, exits) != RunFrom(nodes, ENTRY, exits)
  {
    if PipesRead(nodes) && FilesKept(nodes, false) {
      var j := UnlikeFirst(nodes);
      var status := if nodes[FirstConnective(nodes)].Or? then 0 else 1;
      exits := _ => status;
      StopDiffers(nodes, ENTRY, exits, j, status);
    } else {
      exits := (k: nat) => GoingOn(nodes, k);
      ReachesDivergence(nodes, ENTRY, exits);
    }
  }

  /** run does what the AND-OR list says, for every outcome of every process, exactly when the line
      does not mix the connectives, no cd comes right after an ||, what comes right after a pipe is
      neither a cd nor a command with a < of its own, all files after a cd have absolute names, and
      nothing is written to NUL: . */
  lemma AgreesIffPlain(nodes: seq<Node>)
    requires Grammatical(nodes) && Complete(nodes)
    ensures (forall exits :: ListFrom(nodes, ENTRY, exits) == RunFrom(nodes, ENTRY, exits)) <==> PlainLine(nodes)
  {
    if PlainLine(nodes) {
      forall exits
        ensures ListFrom(nodes, ENTRY, exits) == RunFrom(nodes, ENTRY, exits)
      {
        PlainAgrees(nodes, ENTRY, exits);
      }
    } else {
      var exits := NotPlainDiffers(nodes);
    }
  }
}
