/** What every process of a run is started with, read off the line: its words, its settings, its
    directory and its streams; which commands are started, and what status comes back. */
module ShellStarts {
  import opened Options
  import opened Sequences
  import opened ShellNodes
  import opened ShellRun
  import opened ShellMeaning
  import opened ShellSafety
  import opened ShellAndOr

  // ----- The line -----------------------------------------------------------------------------------

  /** A command where it stands on the line: the directories of all cd before it, whether it comes after a
      pipe, and what comes after it. */
  datatype Place = Place(dirs: seq<string>, piped: bool, cmd: Command, next: Option<Node>)

  function Places(nodes: seq<Node>, dirs: seq<string>, piped: bool): seq<Place>
    decreases |nodes|
  {
    if nodes == [] then []
    else
      match nodes[0]
      case Chdir(Some(d)) => Places(nodes[1..], dirs + [d], piped)
      case Cmd(c) => [Place(dirs, piped, c, NextOf(nodes, 0))] + Places(nodes[1..], dirs, false)
      case Pipe => Places(nodes[1..], dirs, true)
      case _ => Places(nodes[1..], dirs, piped)
  }

  // ----- The directory ------------------------------------------------------------------------------

  predicate Absolute(d: string) {
    d != [] && d[0] == '/'
  }

  /** Where the directories lead from: the last absolute one, or the dot; and those after it. */
  function Base(dirs: seq<string>): (string, seq<string>) {
    if dirs == [] then (".", [])
    else
      var d := dirs[|dirs| - 1];
      if Absolute(d) then (d, [])
      else
        var (base, later) := Base(dirs[..|dirs| - 1]);
        (base, later + [d])
  }

  lemma {:induction false} BaseMeans(dirs: seq<string>)
    ensures var (base, later) := Base(dirs);
            && |later| <= |dirs| && dirs[|dirs| - |later|..] == later && (forall d :: d in later ==> !Absolute(d))
            && if |later| == |dirs| then base == "." else Absolute(base) && base == dirs[|dirs| - |later| - 1]
  {
    if dirs != [] {
      BaseMeans(dirs[..|dirs| - 1]);
    }
  }

  function WithSlash(p: string, d: string): string {
    p + (if p != [] && p[|p| - 1] == '/' then "" else "/") + d
  }

  /** One after the other, with a slash between unless there is one already. */
  function Slashed(base: string, later: seq<string>): string {
    if later == [] then base
    else WithSlash(Slashed(base, later[..|later| - 1]), later[|later| - 1])
  }

  function Path(dirs: seq<string>): string {
    Slashed(Base(dirs).0, Base(dirs).1)
  }

  lemma {:induction false} SlashedNotEmpty(base: string, later: seq<string>)
    requires base != []
    ensures Slashed(base, later) != []
  {
  }

  lemma SlashedNext(base: string, later: seq<string>, d: string)
    ensures Slashed(base, later + [d]) == WithSlash(Slashed(base, later), d)
  {
    assert (later + [d])[..|later|] == later;
  }

  lemma BaseNext(dirs: seq<string>, d: string)
    ensures Base(dirs + [d]) == if Absolute(d) then (d, []) else (Base(dirs).0, Base(dirs).1 + [d])
  {
    assert (dirs + [d])[..|dirs|] == dirs;
  }

  lemma JoinOne(p: string, d: string)
    requires p != []
    ensures JoinPath(p, d) == if Absolute(d) then d else WithSlash(p, d)
  {
  }

  /** How run joins its directories. */
  lemma PathNext(dirs: seq<string>, d: string)
    ensures Path(dirs) != [] && JoinPath(Path(dirs), d) == Path(dirs + [d])
  {
    BaseMeans(dirs);
    SlashedNotEmpty(Base(dirs).0, Base(dirs).1);
    BaseNext(dirs, d);
    SlashedNext(Base(dirs).0, Base(dirs).1, d);
    JoinOne(Path(dirs), d);
  }

  lemma {:induction false} PathMoves(dirs: seq<string>)
    ensures Path(dirs) != [] && (Path(dirs) == "." <==> dirs == [])
  {
    if dirs != [] {
      var init, d := dirs[..|dirs| - 1], dirs[|dirs| - 1];
      PathMoves(init);
      PathNext(init, d);
      assert init + [d] == dirs;
      Moved(Path(init), d);
    }
  }

  // ----- The streams --------------------------------------------------------------------------------

  /** The handle is a file that was opened under the name. */
  predicate OpenedAs(h: Handle, name: string, trace: seq<Event>) {
    h.Opened? && Open(h.file, name) in trace
  }

  predicate WritesTo(sink: Sink, name: string, trace: seq<Event>) {
    sink.ToHandle?
    && if name == "NUL:" || name == "/dev/null" then sink.h == DevNull else OpenedAs(sink.h, name, trace)
  }

  predicate InputFits(p: Place, e: Event, trace: seq<Event>)
    requires e.Start?
  {
    if p.piped then e.pid > 0 && e.stdin == FromPipe(e.pid - 1)
    else
      match p.cmd.stdin
      case None => e.stdin == FromParent
      case Some(f) => e.stdin.FromHandle? && OpenedAs(e.stdin.h, f, trace)
  }

  predicate OutputFits(p: Place, e: Event, trace: seq<Event>)
    requires e.Start?
  {
    match p.cmd.stdout
    case OutInherit => e.stdout == ToParent
    case OutPipe => e.stdout == ToPipe
    case OutFile(f) => WritesTo(e.stdout, f, trace)
  }

  predicate ErrorsFit(p: Place, e: Event, trace: seq<Event>)
    requires e.Start?
  {
    match p.cmd.stderr
    case ErrInherit => e.stderr == ToParent
    case ErrStdout => e.stderr == ToStdout
    case ErrFile(f) => WritesTo(e.stderr, f, trace)
  }

  /** The process was started as the line says. */
  predicate StartedAs(p: Place, e: Event, trace: seq<Event>) {
    && e.Start? && e.argv == p.cmd.argv && e.env == p.cmd.env
    && e.cwd == (if p.dirs == [] then None else Some(Path(p.dirs)))
    && InputFits(p, e, trace) && OutputFits(p, e, trace) && ErrorsFit(p, e, trace)
  }

  lemma StillStarted(p: Place, e: Event, trace: seq<Event>, more: seq<Event>)
    requires StartedAs(p, e, trace) && trace <= more
    ensures StartedAs(p, e, more)
  {
    assert forall x :: x in trace ==> x in more;
  }

  /** What does not depend on files. */
  lemma StartEvent(l: Loop, c: Command)
    requires l.inPipe ==> l.piped != []
    ensures var trace := Started(l, c).m.trace;
            && trace != [] && trace[|trace| - 1].Start?
            && var e := trace[|trace| - 1];
            && e.pid == l.m.procs && e.argv == c.argv && e.env == c.env && e.cwd == ProcCwd(l.cwd)
            && (l.inPipe && l.piped[|l.piped| - 1].piped ==> e.stdin == FromPipe(l.piped[|l.piped| - 1].pid))
            && (!l.inPipe && c.stdin == None ==> e.stdin == FromParent)
            && (c.stdout == OutInherit ==> e.stdout == ToParent) && (c.stdout == OutPipe ==> e.stdout == ToPipe)
            && (c.stderr == ErrInherit ==> e.stderr == ToParent) && (c.stderr == ErrStdout ==> e.stderr == ToStdout)
  {
  }

  lemma RecordedFile(m: Machine, trace: seq<Event>, h: Handle, name: string)
    requires RecordsFile(m, trace, h, name)
    ensures OpenedAs(h, name, trace)
  {
  }

  lemma RecordedOutput(m: Machine, trace: seq<Event>, sink: Sink, name: string)
    requires RecordsOutput(m, trace, sink, name)
    ensures WritesTo(sink, name, trace)
  {
  }

  lemma InputMatches(l: Loop, p: Place)
    requires l.inPipe ==> l.m.procs > 0 && l.piped != [] && l.piped[|l.piped| - 1] == Proc(l.m.procs - 1, true)
    requires p.piped == l.inPipe
    ensures var trace := Started(l, p.cmd).m.trace;
            trace != [] && trace[|trace| - 1].Start? && InputFits(p, trace[|trace| - 1], trace)
  {
    StartEvent(l, p.cmd);
    if !l.inPipe && p.cmd.stdin.Some? {
      var trace := Started(l, p.cmd).m.trace;
      StdinRecorded(l, p.cmd);
      RecordedFile(l.m, trace, trace[|trace| - 1].stdin.h, p.cmd.stdin.value);
    }
  }

  lemma OutputMatches(l: Loop, p: Place)
    requires l.inPipe ==> l.piped != []
    ensures var trace := Started(l, p.cmd).m.trace;
            trace != [] && trace[|trace| - 1].Start? && OutputFits(p, trace[|trace| - 1], trace)
  {
    StartEvent(l, p.cmd);
    if p.cmd.stdout.OutFile? {
      var trace := Started(l, p.cmd).m.trace;
      StdoutRecorded(l, p.cmd);
      RecordedOutput(l.m, trace, trace[|trace| - 1].stdout, p.cmd.stdout.name);
    }
  }

  lemma ErrorsMatch(l: Loop, p: Place)
    requires l.inPipe ==> l.piped != []
    ensures var trace := Started(l, p.cmd).m.trace;
            trace != [] && trace[|trace| - 1].Start? && ErrorsFit(p, trace[|trace| - 1], trace)
  {
    StartEvent(l, p.cmd);
    if p.cmd.stderr.ErrFile? {
      var trace := Started(l, p.cmd).m.trace;
      StderrRecorded(l, p.cmd);
      RecordedOutput(l.m, trace, trace[|trace| - 1].stderr, p.cmd.stderr.name);
    }
  }

  lemma StartMatches(l: Loop, p: Place)
    requires l.inPipe ==> l.m.procs > 0 && l.piped != [] && l.piped[|l.piped| - 1] == Proc(l.m.procs - 1, true)
    requires p.piped == l.inPipe && l.cwd == Path(p.dirs)
    ensures var trace := Started(l, p.cmd).m.trace;
            trace != [] && StartedAs(p, trace[|trace| - 1], trace) && trace[|trace| - 1].pid == l.m.procs
  {
    StartEvent(l, p.cmd);
    PathMoves(p.dirs);
    InputMatches(l, p);
    OutputMatches(l, p);
    ErrorsMatch(l, p);
  }

  // ----- The processes of a run -----------------------------------------------------------------------

  predicate StartAt(trace: seq<Event>, i: nat) {
    i < |trace| && trace[i].Start?
  }

  /** Process k is the one for place k, and there is one for each place. */
  ghost predicate AllStarted(m: Machine, ps: seq<Place>) {
    && |ps| == m.procs
    && (forall i: nat {:trigger StartAt(m.trace, i)} ::
          StartAt(m.trace, i) ==> m.trace[i].pid < |ps| && StartedAs(ps[m.trace[i].pid], m.trace[i], m.trace))
    && forall k: nat {:trigger HasStart(m.trace, k)} :: k < |ps| ==> HasStart(m.trace, k)
  }

  ghost predicate HasStart(trace: seq<Event>, k: nat) {
    exists i: nat :: StartAt(trace, i) && trace[i].pid == k
  }

  /** The command goes on to what comes after it. */
  predicate GoesPast(next: Option<Node>, status: int) {
    next == Some(Pipe) || (next == Some(And) && status == 0) || (next == Some(Or) && status != 0)
  }

  predicate WentPast(ps: seq<Place>, exits: Exits, k: nat)
    requires k < |ps|
  {
    GoesPast(ps[k].next, exits(k))
  }

  ghost predicate WentOn(ps: seq<Place>, exits: Exits) {
    forall k: nat {:trigger WentPast(ps, exits, k)} :: k < |ps| ==> WentPast(ps, exits, k)
  }

  /** The first commands of the line were started, each as it is written, up to the first one that does not
      go on, and the status of that one came back. */
  ghost predicate RanAs(ps: seq<Place>, r: (Machine, Outcome), exits: Exits) {
    var n := r.0.procs;
    && 0 < n <= |ps| && AllStarted(r.0, ps[..n]) && WentOn(ps[..n - 1], exits)
    && !GoesPast(ps[n - 1].next, exits(n - 1)) && r.1 == Exit(exits(n - 1))
  }

  lemma StillHasStart(trace: seq<Event>, more: seq<Event>, k: nat)
    requires HasStart(trace, k) && trace <= more
    ensures HasStart(more, k)
  {
    var i: nat :| StartAt(trace, i) && trace[i].pid == k;
    assert StartAt(more, i);
  }

  /** The processes started before are still the ones for their places. */
  lemma StartsKept(m: Machine, m': Machine, ps: seq<Place>, more: seq<Place>, i: nat)
    requires AllStarted(m, ps) && m.trace <= m'.trace && ps <= more && StartAt(m'.trace, i) && i < |m.trace|
    ensures m'.trace[i].pid < |more| && StartedAs(more[m'.trace[i].pid], m'.trace[i], m'.trace)
  {
    assert StartAt(m.trace, i);
    StillStarted(ps[m.trace[i].pid], m.trace[i], m.trace, m'.trace);
  }

  lemma EventAdded(m: Machine, m': Machine, ps: seq<Place>, e: Event)
    requires AllStarted(m, ps) && m'.trace == m.trace + [e] && m'.procs == m.procs && !e.Start?
    ensures AllStarted(m', ps)
  {
    forall i: nat | StartAt(m'.trace, i)
      ensures m'.trace[i].pid < |ps| && StartedAs(ps[m'.trace[i].pid], m'.trace[i], m'.trace)
    {
      StartsKept(m, m', ps, ps, i);
    }
    forall k: nat | k < |ps|
      ensures HasStart(m'.trace, k)
    {
      StillHasStart(m.trace, m'.trace, k);
    }
  }

  lemma {:induction false} WaitKeepsStarts(m: Machine, procs: seq<Proc>, ps: seq<Place>)
    requires AllStarted(m, ps)
    ensures AllStarted(WaitAll(m, procs), ps)
    decreases procs
  {
    if procs != [] {
      var m' := m.(trace := m.trace + [Wait(procs[0].pid)]);
      EventAdded(m, m', ps, Wait(procs[0].pid));
      WaitKeepsStarts(m', procs[1..], ps);
    }
  }

  lemma {:induction false} CloseKeepsStarts(m: Machine, handles: seq<Handle>, ps: seq<Place>)
    requires AllStarted(m, ps)
    ensures AllStarted(CloseAll(m, handles), ps)
    decreases handles
  {
    if handles != [] {
      var m' := if handles[0] == DevNull then m else m.(trace := m.trace + [Close(handles[0])]);
      if handles[0] != DevNull {
        EventAdded(m, m', ps, Close(handles[0]));
      }
      CloseKeepsStarts(m', handles[1..], ps);
    }
  }

  lemma FinishKeepsStarts(l: Loop, ps: seq<Place>)
    requires AllStarted(l.m, ps)
    ensures AllStarted(Finished(l), ps)
  {
    WaitKeepsStarts(l.m, l.piped, ps);
    CloseKeepsStarts(WaitAll(l.m, l.piped), l.toClose, ps);
  }

  /** At the head of the loop the commands done have been started, and run goes on. */
  ghost predicate AtHead(l: Loop, dirs: seq<string>, done: seq<Place>, exits: Exits) {
    && Tidy(l) && l.cwd == Path(dirs) && AllStarted(l.m, done) && WentOn(done, exits)
    && (l.inPipe ==> done != [] && l.piped[|l.piped| - 1] == Proc(|done| - 1, true))
  }

  lemma OneMoreStarted(l: Loop, dirs: seq<string>, done: seq<Place>, exits: Exits, p: Place)
    requires AtHead(l, dirs, done, exits) && p.dirs == dirs && p.piped == l.inPipe
    ensures AllStarted(Started(l, p.cmd).m, done + [p])
  {
    var m' := Started(l, p.cmd).m;
    StartMatches(l, p);
    StartsLast(l, p.cmd);
    StartedMore(l, p.cmd);
    LastAdded(l.m, m', done, p);
  }

  lemma LastAdded(m: Machine, m': Machine, done: seq<Place>, p: Place)
    requires AllStarted(m, done) && StartsAfter(m.trace, m'.trace) && m'.procs == m.procs + 1
    requires StartedAs(p, m'.trace[|m'.trace| - 1], m'.trace) && m'.trace[|m'.trace| - 1].pid == m.procs
    ensures AllStarted(m', done + [p])
  {
    var ps, n := done + [p], |m'.trace| - 1;
    forall i: nat | StartAt(m'.trace, i)
      ensures m'.trace[i].pid < |ps| && StartedAs(ps[m'.trace[i].pid], m'.trace[i], m'.trace)
    {
      if i < n {
        assert i < |m.trace|;
        StartsKept(m, m', done, ps, i);
      }
    }
    forall k: nat | k < |ps|
      ensures HasStart(m'.trace, k)
    {
      if k < |done| {
        StillHasStart(m.trace, m'.trace, k);
      } else {
        assert StartAt(m'.trace, n);
      }
    }
  }

  lemma PlacesOfCommand(nodes: seq<Node>, dirs: seq<string>, piped: bool)
    requires |nodes| > 1 && nodes[0].Cmd? && IsOp(nodes[1])
    ensures Places(nodes, dirs, piped)
         == [Place(dirs, piped, nodes[0].cmd, Some(nodes[1]))] + Places(nodes[2..], dirs, nodes[1].Pipe?)
  {
    assert nodes[1..][0] == nodes[1] && nodes[1..][1..] == nodes[2..];
  }

  lemma PlacesOfCd(nodes: seq<Node>, dirs: seq<string>, piped: bool)
    requires |nodes| > 1 && nodes[0].Chdir? && nodes[0].dir.Some? && nodes[1] == And
    ensures Places(nodes, dirs, piped) == Places(nodes[2..], dirs + [nodes[0].dir.value], piped)
  {
    assert nodes[1..][0] == nodes[1] && nodes[1..][1..] == nodes[2..];
  }

  /** The command that stops the run. */
  lemma StopsAt(l: Loop, dirs: seq<string>, done: seq<Place>, exits: Exits, ps: seq<Place>, r: (Machine, Outcome))
    requires AtHead(l, dirs, done, exits) && ps != [] && ps[0].dirs == dirs && ps[0].piped == l.inPipe
    requires !GoesPast(ps[0].next, exits(|done|))
    requires var l1 := Started(l, ps[0].cmd); r == (Finished(l1), Exit(PipelineStatus(l1.piped, exits)))
    ensures RanAs(done + ps, r, exits)
  {
    var p := ps[0];
    var l1 := Started(l, p.cmd);
    OneMoreStarted(l, dirs, done, exits, p);
    FinishKeepsStarts(l1, done + [p]);
    FinishedKeepsProcs(l1);
    StartIsPiped(l, p.cmd);
    assert (done + ps)[..|done| + 1] == done + [p] && (done + ps)[..|done|] == done;
  }

  /** The command after which the run goes on. */
  lemma GoesOnFrom(l: Loop, dirs: seq<string>, done: seq<Place>, exits: Exits, p: Place)
    requires AtHead(l, dirs, done, exits) && p.dirs == dirs && p.piped == l.inPipe
    requires GoesPast(p.next, exits(|done|)) && (p.next == Some(Pipe) ==> p.cmd.stdout == OutPipe)
    ensures var l1 := Started(l, p.cmd);
            AtHead(if p.next == Some(Pipe) then l1.(inPipe := true) else Restart(l1), dirs, done + [p], exits)
  {
    var l1 := Started(l, p.cmd);
    OneMoreStarted(l, dirs, done, exits, p);
    FinishKeepsStarts(l1, done + [p]);
    StartIsPiped(l, p.cmd);
    forall k: nat | k < |done| + 1
      ensures WentPast(done + [p], exits, k)
    {
      assert k < |done| ==> WentPast(done, exits, k);
    }
  }

  lemma RunLast(nodes: seq<Node>, l: Loop, exits: Exits)
    requires |nodes| == 1 && nodes[0].Cmd? && Tidy(l)
    ensures var l1 := Started(l, nodes[0].cmd);
            RunFrom(nodes, l, exits) == (Finished(l1), Exit(PipelineStatus(l1.piped, exits)))
  {
    assert nodes[1..] == [];
  }

  lemma LastPlace(nodes: seq<Node>, dirs: seq<string>, piped: bool)
    requires |nodes| == 1 && nodes[0].Cmd?
    ensures Places(nodes, dirs, piped) == [Place(dirs, piped, nodes[0].cmd, None)]
  {
    assert nodes[1..] == [];
  }

  lemma {:induction false} RunsOn(nodes: seq<Node>, l: Loop, dirs: seq<string>, done: seq<Place>, exits: Exits)
    requires Grammatical(nodes) && Complete(nodes) && AtHead(l, dirs, done, exits)
    ensures RanAs(done + Places(nodes, dirs, l.inPipe), RunFrom(nodes, l, exits), exits)
    decreases |nodes|
  {
    assert MayFollow(nodes[0], NextOf(nodes, 0));
    if |nodes| == 1 {
      LastPlace(nodes, dirs, l.inPipe);
      RunLast(nodes, l, exits);
      StopsAt(l, dirs, done, exits, Places(nodes, dirs, l.inPipe), RunFrom(nodes, l, exits));
    } else {
      GrammaticalTail(nodes);
      if nodes[0].Chdir? {
        var d := nodes[0].dir.value;
        PlacesOfCd(nodes, dirs, l.inPipe);
        DirGoesOn(nodes, l, exits);
        PathNext(dirs, d);
        PathMoves(dirs + [d]);
        RunsOn(nodes[2..], l.(cwd := JoinPath(l.cwd, d)), dirs + [d], done, exits);
      } else {
        var p := Place(dirs, l.inPipe, nodes[0].cmd, Some(nodes[1]));
        var rest := Places(nodes[2..], dirs, nodes[1].Pipe?);
        var l1 := Started(l, nodes[0].cmd);
        PlacesOfCommand(nodes, dirs, l.inPipe);
        RunStep(nodes, l, exits);
        StartIsPiped(l, nodes[0].cmd);
        if GoesPast(p.next, exits(|done|)) {
          GoesOnFrom(l, dirs, done, exits, p);
          RunsOn(nodes[2..], if nodes[1].Pipe? then l1.(inPipe := true) else Restart(l1), dirs, done + [p], exits);
          Regroup(done, [p], rest);
        } else {
          StopsAt(l, dirs, done, exits, [p] + rest, RunFrom(nodes, l, exits));
        }
      }
    }
  }

  /** On a complete line run starts the commands in the order of the line, each with its words and settings, in the
      directory that the cds before it lead to and with the streams written for it, up to the first one
      followed by an && that failed or an || that did not; that one's status comes back. */
  lemma RunsAsWritten(nodes: seq<Node>, exits: Exits)
    requires Grammatical(nodes) && Complete(nodes)
    ensures RanAs(Places(nodes, [], false), RunFrom(nodes, ENTRY, exits), exits)
  {
    assert AllStarted(FRESH, []);
    RunsOn(nodes, ENTRY, [], [], exits);
    assert [] + Places(nodes, [], false) == Places(nodes, [], false);
  }
}
