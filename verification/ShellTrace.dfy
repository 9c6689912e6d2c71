/** Processes and files over a whole run: what was started is waited for, what was
    opened is closed, each exactly once. */
module ShellTrace {
  import opened Sequences
  import opened Options
  import opened ShellNodes
  import opened ShellRun

  datatype Kind = Starts | Waits | Opens | Closes

  predicate Matches(e: Event, kind: Kind, id: nat) {
    match e
    case Open(f, _) => kind == Opens && f == id
    case Start(p, _, _, _, _, _, _) => kind == Starts && p == id
    case Wait(p) => kind == Waits && p == id
    case Close(h) => kind == Closes && h == Opened(id)
  }

  /** How often something happened to a process or a file. */
  function Times(trace: seq<Event>, kind: Kind, id: nat): nat {
    if trace == [] then 0
    else Times(trace[..|trace| - 1], kind, id) + if Matches(trace[|trace| - 1], kind, id) then 1 else 0
  }

  function Running(procs: seq<Proc>, pid: nat): nat {
    if procs == [] then 0 else Running(procs[1..], pid) + if procs[0].pid == pid then 1 else 0
  }

  function StillOpen(handles: seq<Handle>, file: nat): nat {
    if handles == [] then 0 else StillOpen(handles[1..], file) + if handles[0] == Opened(file) then 1 else 0
  }

  lemma TimesSnoc(trace: seq<Event>, e: Event, kind: Kind, id: nat)
    ensures Times(trace + [e], kind, id) == Times(trace, kind, id) + if Matches(e, kind, id) then 1 else 0
  {
    assert (trace + [e])[..|trace|] == trace;
  }

  lemma {:induction false} RunningConcat(s: seq<Proc>, t: seq<Proc>, pid: nat)
    ensures Running(s + t, pid) == Running(s, pid) + Running(t, pid)
  {
    if s == [] {
      assert s + t == t;
    } else {
      assert (s + t)[1..] == s[1..] + t;
      RunningConcat(s[1..], t, pid);
    }
  }

  lemma {:induction false} StillOpenConcat(s: seq<Handle>, t: seq<Handle>, file: nat)
    ensures StillOpen(s + t, file) == StillOpen(s, file) + StillOpen(t, file)
  {
    if s == [] {
      assert s + t == t;
    } else {
      assert (s + t)[1..] == s[1..] + t;
      StillOpenConcat(s[1..], t, file);
    }
  }

  // ----- Bookkeeping at the head of the loop --------------------------------------------------

  /** Process id: started once if it exists; waited for unless it is still in the pipeline. */
  predicate ProcessLedger(m: Machine, piped: seq<Proc>, id: nat) {
    && Times(m.trace, Starts, id) == (if id < m.procs then 1 else 0)
    && Times(m.trace, Waits, id) + Running(piped, id) == Times(m.trace, Starts, id)
  }

  predicate FileLedger(m: Machine, toClose: seq<Handle>, id: nat) {
    && Times(m.trace, Opens, id) == (if id < m.files then 1 else 0)
    && Times(m.trace, Closes, id) + StillOpen(toClose, id) == Times(m.trace, Opens, id)
  }

  predicate Ledger(m: Machine, piped: seq<Proc>, toClose: seq<Handle>, id: nat) {
    ProcessLedger(m, piped, id) && FileLedger(m, toClose, id)
  }

  lemma OpenKeepsLedger(m: Machine, name: string, piped: seq<Proc>, toClose: seq<Handle>, id: nat)
    requires Ledger(m, piped, toClose, id)
    ensures var (m1, h) := OpenFile(m, name); Ledger(m1, piped, toClose + [h], id)
  {
    forall kind
      ensures Times(m.trace + [Open(m.files, name)], kind, id)
           == Times(m.trace, kind, id) + if kind == Opens && m.files == id then 1 else 0
    {
      TimesSnoc(m.trace, Open(m.files, name), kind, id);
    }
    StillOpenConcat(toClose, [Opened(m.files)], id);
  }

  lemma OpenOutKeepsLedger(m: Machine, name: string, piped: seq<Proc>, toClose: seq<Handle>, id: nat)
    requires Ledger(m, piped, toClose, id)
    ensures var (m1, h) := OpenOutFile(m, name); Ledger(m1, piped, toClose + [h], id)
  {
    if OpenOutFile(m, name).1 == DevNull {
      StillOpenConcat(toClose, [DevNull], id);
    } else {
      OpenKeepsLedger(m, name, piped, toClose, id);
    }
  }

  lemma StdinKeepsLedger(m: Machine, c: Command, previous: Option<Proc>,
                         piped: seq<Proc>, toClose: seq<Handle>, id: nat)
    requires Ledger(m, piped, toClose, id)
    ensures var (m1, _, h) := Stdin(m, c, previous); Ledger(m1, piped, toClose + h, id)
  {
    if previous.None? && c.stdin.Some? {
      OpenKeepsLedger(m, c.stdin.value, piped, toClose, id);
    } else {
      assert toClose + [] == toClose;
    }
  }

  lemma OutputKeepsLedger(m: Machine, c: Command, piped: seq<Proc>, toClose: seq<Handle>, id: nat)
    requires Ledger(m, piped, toClose, id)
    ensures var (m1, _, h) := OutputTo(m, c); Ledger(m1, piped, toClose + h, id)
  {
    if c.stdout.OutFile? {
      OpenOutKeepsLedger(m, c.stdout.name, piped, toClose, id);
    } else {
      assert toClose + [] == toClose;
    }
  }

  lemma ErrorsKeepLedger(m: Machine, c: Command, piped: seq<Proc>, toClose: seq<Handle>, id: nat)
    requires Ledger(m, piped, toClose, id)
    ensures var (m1, _, h) := ErrorsTo(m, c); Ledger(m1, piped, toClose + h, id)
  {
    if c.stderr.ErrFile? {
      OpenOutKeepsLedger(m, c.stderr.name, piped, toClose, id);
    } else {
      assert toClose + [] == toClose;
    }
  }

  lemma RegroupFour(s: seq<Handle>, h1: seq<Handle>, h2: seq<Handle>, h3: seq<Handle>)
    ensures s + h1 + h2 + h3 == s + (h1 + h2 + h3)
  {
    Regroup(s + h1, h2, h3);
    Regroup(s, h1, h2 + h3);
    Regroup(h1, h2, h3);
  }

  lemma OutputsKeepLedger(m: Machine, c: Command, piped: seq<Proc>, toClose: seq<Handle>, id: nat)
    requires Ledger(m, piped, toClose, id)
    ensures var (m1, _, h1) := OutputTo(m, c);
            var (m2, _, h2) := ErrorsTo(m1, c);
            Ledger(m2, piped, toClose + h1 + h2, id)
  {
    OutputKeepsLedger(m, c, piped, toClose, id);
    ErrorsKeepLedger(OutputTo(m, c).0, c, piped, toClose + OutputTo(m, c).2, id);
  }

  lemma StreamsKeepLedger(m: Machine, c: Command, previous: Option<Proc>,
                          piped: seq<Proc>, toClose: seq<Handle>, id: nat)
    requires Ledger(m, piped, toClose, id)
    ensures var (m1, s) := OpenStreams(m, c, previous); Ledger(m1, piped, toClose + s.handles, id)
  {
    var (m1, _, h1) := Stdin(m, c, previous);
    var (m2, _, h2) := OutputTo(m1, c);
    StdinKeepsLedger(m, c, previous, piped, toClose, id);
    OutputsKeepLedger(m1, c, piped, toClose + h1, id);
    RegroupFour(toClose, h1, h2, ErrorsTo(m2, c).2);
  }

  lemma PopenKeepsLedger(m: Machine, c: Command, s: Streams, cwd: string,
                         piped: seq<Proc>, toClose: seq<Handle>, id: nat)
    requires Ledger(m, piped, toClose, id)
    ensures var (m1, proc) := Popen(m, c, s, cwd); Ledger(m1, piped + [proc], toClose, id)
  {
    var start := Start(m.procs, c.argv, s.stdin, s.stdout, s.stderr, c.env, ProcCwd(cwd));
    forall kind
      ensures Times(m.trace + [start], kind, id)
           == Times(m.trace, kind, id) + if kind == Starts && m.procs == id then 1 else 0
    {
      TimesSnoc(m.trace, start, kind, id);
    }
    RunningConcat(piped, [Popen(m, c, s, cwd).1], id);
  }

  lemma StartKeepsLedger(l: Loop, c: Command, id: nat)
    requires l.inPipe ==> l.piped != []
    requires Ledger(l.m, l.piped, l.toClose, id)
    ensures var l1 := Started(l, c); Ledger(l1.m, l1.piped, l1.toClose, id)
  {
    var previous := if l.inPipe then Some(l.piped[|l.piped| - 1]) else None;
    var (m, s) := OpenStreams(l.m, c, previous);
    StreamsKeepLedger(l.m, c, previous, l.piped, l.toClose, id);
    PopenKeepsLedger(m, c, s, l.cwd, l.piped, l.toClose + s.handles, id);
  }

  lemma {:induction false} WaitKeepsLedger(m: Machine, procs: seq<Proc>, toClose: seq<Handle>, id: nat)
    requires Ledger(m, procs, toClose, id)
    ensures Ledger(WaitAll(m, procs), [], toClose, id)
    decreases procs
  {
    if procs != [] {
      var e := Wait(procs[0].pid);
      forall kind
        ensures Times(m.trace + [e], kind, id)
             == Times(m.trace, kind, id) + if kind == Waits && procs[0].pid == id then 1 else 0
      {
        TimesSnoc(m.trace, e, kind, id);
      }
      WaitKeepsLedger(m.(trace := m.trace + [e]), procs[1..], toClose, id);
    }
  }

  lemma {:induction false} CloseKeepsLedger(m: Machine, handles: seq<Handle>, id: nat)
    requires Ledger(m, [], handles, id)
    ensures Ledger(CloseAll(m, handles), [], [], id)
    decreases handles
  {
    if handles != [] {
      match handles[0]
      case DevNull =>
        CloseKeepsLedger(m, handles[1..], id);
      case Opened(f) =>
        var e := Close(Opened(f));
        forall kind
          ensures Times(m.trace + [e], kind, id)
               == Times(m.trace, kind, id) + if kind == Closes && f == id then 1 else 0
        {
          TimesSnoc(m.trace, e, kind, id);
        }
        CloseKeepsLedger(m.(trace := m.trace + [e]), handles[1..], id);
    }
  }

  lemma FinishKeepsLedger(l: Loop, id: nat)
    requires Ledger(l.m, l.piped, l.toClose, id)
    ensures Ledger(Finished(l), [], [], id)
  {
    WaitKeepsLedger(l.m, l.piped, l.toClose, id);
    CloseKeepsLedger(WaitAll(l.m, l.piped), l.toClose, id);
  }

  // ----- Every normal return ------------------------------------------------------------------

  lemma {:induction false} RunSettles(nodes: seq<Node>, l: Loop, exits: Exits, id: nat)
    requires Ledger(l.m, l.piped, l.toClose, id) && RunFrom(nodes, l, exits).1.Exit?
    ensures Ledger(RunFrom(nodes, l, exits).0, [], [], id)
    decreases |nodes|, 1
  {
    match nodes[0]
    case Chdir(dir) =>
      RunSettles(nodes[2..], l.(cwd := JoinPath(l.cwd, dir.value)), exits, id);
    case Cmd(c) =>
      StartKeepsLedger(l, c, id);
      StartSettles(nodes[1..], Started(l, c), exits, id);
  }

  lemma {:induction false} StartSettles(nodes: seq<Node>, l: Loop, exits: Exits, id: nat)
    requires Ledger(l.m, l.piped, l.toClose, id) && AfterStart(nodes, l, exits).1.Exit?
    ensures Ledger(AfterStart(nodes, l, exits).0, [], [], id)
    decreases |nodes|, 2
  {
    FinishKeepsLedger(l, id);
    var status := PipelineStatus(l.piped, exits);
    if nodes != [] {
      match nodes[0]
      case Pipe =>
        RunSettles(nodes[1..], l.(inPipe := true), exits, id);
      case Or =>
        if status != 0 {
          RunSettles(nodes[1..], Restart(l), exits, id);
        }
      case And =>
        if status == 0 {
          RunSettles(nodes[1..], Restart(l), exits, id);
        }
      case _ =>
        RunSettles(nodes[1..], l, exits, id);
    }
  }

  /** On every normal return of run, whatever the node list and the statuses: each process
      was started once and waited for once, each file opened once and closed once. */
  lemma EverythingSettled(nodes: seq<Node>, exits: Exits, id: nat)
    requires RunFrom(nodes, ENTRY, exits).1.Exit?
    ensures var m := RunFrom(nodes, ENTRY, exits).0;
            && Times(m.trace, Starts, id) == Times(m.trace, Waits, id) == (if id < m.procs then 1 else 0)
            && Times(m.trace, Opens, id) == Times(m.trace, Closes, id) == (if id < m.files then 1 else 0)
  {
    RunSettles(nodes, ENTRY, exits, id);
  }

  // ----- The shared dev_null ------------------------------------------------------------------

  predicate LeavesDevNull(m: Machine) {
    Close(DevNull) !in m.trace
  }

  lemma StartLeavesDevNull(l: Loop, c: Command)
    requires l.inPipe ==> l.piped != []
    requires LeavesDevNull(l.m)
    ensures LeavesDevNull(Started(l, c).m)
  {
  }

  lemma {:induction false} WaitLeavesDevNull(m: Machine, procs: seq<Proc>)
    requires LeavesDevNull(m)
    ensures LeavesDevNull(WaitAll(m, procs))
    decreases procs
  {
    if procs != [] {
      WaitLeavesDevNull(m.(trace := m.trace + [Wait(procs[0].pid)]), procs[1..]);
    }
  }

  lemma {:induction false} CloseLeavesDevNull(m: Machine, handles: seq<Handle>)
    requires LeavesDevNull(m)
    ensures LeavesDevNull(CloseAll(m, handles))
    decreases handles
  {
    if handles != [] {
      CloseLeavesDevNull(if handles[0] == DevNull then m else m.(trace := m.trace + [Close(handles[0])]), handles[1..]);
    }
  }

  lemma FinishLeavesDevNull(l: Loop)
    requires LeavesDevNull(l.m)
    ensures LeavesDevNull(Finished(l))
  {
    WaitLeavesDevNull(l.m, l.piped);
    CloseLeavesDevNull(WaitAll(l.m, l.piped), l.toClose);
  }

  lemma {:induction false} RunLeavesDevNull(nodes: seq<Node>, l: Loop, exits: Exits)
    requires LeavesDevNull(l.m)
    ensures LeavesDevNull(RunFrom(nodes, l, exits).0)
    decreases |nodes|, 1
  {
    if nodes != [] {
      match nodes[0]
      case Chdir(dir) =>
        if |nodes| > 1 && nodes[1] == And && dir.Some? {
          RunLeavesDevNull(nodes[2..], l.(cwd := JoinPath(l.cwd, dir.value)), exits);
        }
      case Cmd(c) =>
        if l.inPipe ==> l.piped != [] {
          StartLeavesDevNull(l, c);
          AfterStartLeavesDevNull(nodes[1..], Started(l, c), exits);
        }
      case _ =>
    }
  }

  lemma {:induction false} AfterStartLeavesDevNull(nodes: seq<Node>, l: Loop, exits: Exits)
    requires LeavesDevNull(l.m)
    ensures LeavesDevNull(AfterStart(nodes, l, exits).0)
    decreases |nodes|, 2
  {
    FinishLeavesDevNull(l);
    if nodes != [] {
      match nodes[0]
      case Pipe =>
        RunLeavesDevNull(nodes[1..], l.(inPipe := true), exits);
      case Or =>
        RunLeavesDevNull(nodes[1..], Restart(l), exits);
      case And =>
        RunLeavesDevNull(nodes[1..], Restart(l), exits);
      case _ =>
        RunLeavesDevNull(nodes[1..], l, exits);
    }
  }

  /** Whatever the node list and the statuses, and however run ends, it never closes dev_null. */
  lemma DevNullNeverClosed(nodes: seq<Node>, exits: Exits)
    ensures Close(DevNull) !in RunFrom(nodes, ENTRY, exits).0.trace
  {
    RunLeavesDevNull(nodes, ENTRY, exits);
  }
}
