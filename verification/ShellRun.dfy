/** Pipeline.run: the loop over the node list, with the processes it starts and
    waits for and the files it opens and closes recorded in a trace. */
module ShellRun {
  import opened Options
  import opened ShellNodes

  // ----- What can be observed ---------------------------------------------------------------

  /** The shared dev_null, or a file that this run opened. */
  datatype Handle = DevNull | Opened(file: nat)

  datatype Source = FromParent | FromHandle(h: Handle) | FromPipe(pid: nat)

  datatype Sink = ToParent | ToPipe | ToHandle(h: Handle) | ToStdout

  datatype Event =
    | Open(file: nat, name: string)
    | Start(pid: nat, argv: seq<string>, stdin: Source, stdout: Sink, stderr: Sink,
            env: map<string, string>, cwd: Option<string>)
    | Wait(pid: nat)
    | Close(h: Handle)

  /** Processes and files are numbered in the order in which they appear. */
  datatype Machine = Machine(procs: nat, files: nat, trace: seq<Event>)

  const FRESH := Machine(0, 0, [])

  /** The exit status of each process is left open. */
  type Exits = nat -> int

  datatype Error = AssertionError | IndexError | TypeError

  datatype Outcome = Exit(status: int) | NoStatus | Raised(error: Error)

  datatype Proc = Proc(pid: nat, piped: bool)

  // ----- Starting one command -------------------------------------------------------------

  function JoinPath(a: string, b: string): string {
    if b != [] && b[0] == '/' then b
    else if a == [] || a[|a| - 1] == '/' then a + b
    else a + "/" + b
  }

  function ProcCwd(cwd: string): Option<string> {
    if cwd == "." then None else Some(cwd)
  }

  function OpenFile(m: Machine, name: string): (Machine, Handle) {
    (Machine(m.procs, m.files + 1, m.trace + [Open(m.files, name)]), Opened(m.files))
  }

  function OpenOutFile(m: Machine, name: string): (Machine, Handle) {
    if name == "NUL:" || name == "/dev/null" then (m, DevNull) else OpenFile(m, name)
  }

  /** Standard input: the previous process's pipe, or the file that was named. */
  function Stdin(m: Machine, c: Command, previous: Option<Proc>): (Machine, Source, seq<Handle>) {
    match previous
    case Some(p) => (m, if p.piped then FromPipe(p.pid) else FromParent, [])
    case None =>
      match c.stdin
      case None => (m, FromParent, [])
      case Some(name) =>
        var (m1, h) := OpenFile(m, name);
        (m1, FromHandle(h), [h])
  }

  function OutputTo(m: Machine, c: Command): (Machine, Sink, seq<Handle>) {
    match c.stdout
    case OutInherit => (m, ToParent, [])
    case OutPipe => (m, ToPipe, [])
    case OutFile(name) =>
      var (m1, h) := OpenOutFile(m, name);
      (m1, ToHandle(h), [h])
  }

  function ErrorsTo(m: Machine, c: Command): (Machine, Sink, seq<Handle>) {
    match c.stderr
    case ErrInherit => (m, ToParent, [])
    case ErrStdout => (m, ToStdout, [])
    case ErrFile(name) =>
      var (m1, h) := OpenOutFile(m, name);
      (m1, ToHandle(h), [h])
  }

  datatype Streams = Streams(stdin: Source, stdout: Sink, stderr: Sink, handles: seq<Handle>)

  function OpenStreams(m: Machine, c: Command, previous: Option<Proc>): (Machine, Streams) {
    var (m1, source, h1) := Stdin(m, c, previous);
    var (m2, sink, h2) := OutputTo(m1, c);
    var (m3, errors, h3) := ErrorsTo(m2, c);
    (m3, Streams(source, sink, errors, h1 + h2 + h3))
  }

  function Popen(m: Machine, c: Command, s: Streams, cwd: string): (Machine, Proc) {
    var start := Start(m.procs, c.argv, s.stdin, s.stdout, s.stderr, c.env, ProcCwd(cwd));
    (Machine(m.procs + 1, m.files, m.trace + [start]), Proc(m.procs, s.stdout == ToPipe))
  }

  // ----- Finishing a pipeline ---------------------------------------------------------------

  function WaitAll(m: Machine, procs: seq<Proc>): Machine
    decreases procs
  {
    if procs == [] then m
    else WaitAll(m.(trace := m.trace + [Wait(procs[0].pid)]), procs[1..])
  }

  function CloseAll(m: Machine, handles: seq<Handle>): Machine
    decreases handles
  {
    if handles == [] then m
    else
      CloseAll(if handles[0] == DevNull then m else m.(trace := m.trace + [Close(handles[0])]), handles[1..])
  }

  /** Wait for the processes in order, then close the files. */
  function FinishPipeline(m: Machine, procs: seq<Proc>, handles: seq<Handle>): Machine {
    CloseAll(WaitAll(m, procs), handles)
  }

  /** The status of a pipeline is the status of its last command. */
  function PipelineStatus(procs: seq<Proc>, exits: Exits): int {
    if procs == [] then 0 else exits(procs[|procs| - 1].pid)
  }

  method ExecPipedCommands(m: Machine, procs: seq<Proc>, exits: Exits) returns (m': Machine, retval: int)
    ensures m' == WaitAll(m, procs) && retval == PipelineStatus(procs, exits)
  {
    var retvals := [];
    m' := m;
    for i := 0 to |procs|
      invariant WaitAll(m, procs) == WaitAll(m', procs[i..])
      invariant |retvals| == i && forall k :: 0 <= k < i ==> retvals[k] == exits(procs[k].pid)
    {
      assert procs[i..][0] == procs[i] && procs[i..][1..] == procs[i + 1..];
      m' := m'.(trace := m'.trace + [Wait(procs[i].pid)]);
      retvals := retvals + [exits(procs[i].pid)];
    }
    retval := 0;
    for i := 0 to |retvals|
      invariant forall k :: 0 <= k < i ==> retvals[k] == 0
    {
      if retvals[i] != 0 {
        retval := retvals[|retvals| - 1];
        return;
      }
    }
  }

  // ----- The loop -----------------------------------------------------------------------------

  /** The variables of run at the head of its loop. */
  datatype Loop = Loop(
    m: Machine,
    inPipe: bool,
    cwd: string,
    piped: seq<Proc>,
    toClose: seq<Handle>
  )

  const ENTRY := Loop(FRESH, false, ".", [], [])

  function Finished(l: Loop): Machine {
    FinishPipeline(l.m, l.piped, l.toClose)
  }

  function Restart(l: Loop): Loop {
    Loop(Finished(l), false, l.cwd, [], [])
  }

  function Started(l: Loop, c: Command): Loop
    requires l.inPipe ==> l.piped != []
  {
    var previous := if l.inPipe then Some(l.piped[|l.piped| - 1]) else None;
    var (m, streams) := OpenStreams(l.m, c, previous);
    var (m', proc) := Popen(m, c, streams, l.cwd);
    l.(m := m', piped := l.piped + [proc], toClose := l.toClose + streams.handles)
  }

  /** From the head of the loop on. */
  function RunFrom(nodes: seq<Node>, l: Loop, exits: Exits): (Machine, Outcome)
    decreases |nodes|, 1
  {
    if nodes == [] then (l.m, NoStatus)
    else
      match nodes[0]
      case Chdir(dir) =>
        if |nodes| == 1 then (l.m, Raised(IndexError))
        else if nodes[1] != And then (l.m, Raised(AssertionError))
        else if dir == None then (l.m, Raised(TypeError))
        else RunFrom(nodes[2..], l.(cwd := JoinPath(l.cwd, dir.value)), exits)
      case Cmd(c) =>
        if l.inPipe && l.piped == [] then (l.m, Raised(IndexError))
        else AfterStart(nodes[1..], Started(l, c), exits)
      case _ => (l.m, Raised(AssertionError))
  }

  /** After a process was started: look at the next node. */
  function AfterStart(nodes: seq<Node>, l: Loop, exits: Exits): (Machine, Outcome)
    decreases |nodes|, 2
  {
    var status := PipelineStatus(l.piped, exits);
    if nodes == [] then (Finished(l), Exit(status))
    else
      match nodes[0]
      case Pipe => RunFrom(nodes[1..], l.(inPipe := true), exits)
      case Or => if status == 0 then (Finished(l), Exit(status)) else RunFrom(nodes[1..], Restart(l), exits)
      case And => if status != 0 then (Finished(l), Exit(status)) else RunFrom(nodes[1..], Restart(l), exits)
      case _ => RunFrom(nodes[1..], l, exits)
  }
}
