/** Lines written out: the tokens, and what a run of them starts, where, and with what status. */
module ShellExamples {
  import opened Options
  import opened ShellNodes
  import opened ShellParse
  import opened ShellUnparse
  import opened ShellRun
  import opened ShellMeaning
  import opened ShellSafety
  import opened ShellAndOr
  import opened ShellStarts
  import opened ShellLines

  // ----- Connectives and pipes -------------------------------------------------------------------------

  lemma JoinedLine(a: string, op: Connective, b: string)
    requires Word(a) && Word(b)
    ensures var tokens := [a, if op == AndThen then "&&" else "||", b];
            && ParseTokens(tokens).Go? && Nodes(tokens) == [Simple(a, OutInherit), OpNode(op), Simple(b, OutInherit)]
  {
    var s, t := Stage([], OneWord(a, None, OutInherit)), Stage([], OneWord(b, None, OutInherit));
    PlainStage(a, OutInherit);
    PlainStage(b, OutInherit);
    TwoPipelines(s, op, t);
    ParseUnparse(Joined([s], op, Single([t])));
    assert Unparse(Joined([s], op, Single([t]))) == [a, if op == AndThen then "&&" else "||", b];
  }

  lemma TwoPlaces(c: Command, op: Node, d: Command)
    requires IsOp(op)
    ensures Places([Cmd(c), op, Cmd(d)], [], false)
         == [Place([], false, c, Some(op)), Place([], op.Pipe?, d, None)]
  {
    var nodes := [Cmd(c), op, Cmd(d)];
    PlacesOfCommand(nodes, [], false);
    assert nodes[2..] == [Cmd(d)];
    LastPlace(nodes[2..], [], op.Pipe?);
  }

  /** What comes back from two commands and an operator between them. */
  lemma TwoRun(c: Command, op: Node, d: Command, exits: Exits)
    requires IsOp(op) && (c.stdout == OutPipe <==> op.Pipe?) && d.stdout != OutPipe
    ensures var (m, outcome) := RunFrom([Cmd(c), op, Cmd(d)], ENTRY, exits);
            if GoesPast(Some(op), exits(0)) then m.procs == 2 && outcome == Exit(exits(1))
            else m.procs == 1 && outcome == Exit(exits(0))
  {
    var nodes := [Cmd(c), op, Cmd(d)];
    TwoPlaces(c, op, d);
    RunsAsWritten(nodes, exits);
    var ps, n := Places(nodes, [], false), RunFrom(nodes, ENTRY, exits).0.procs;
    if n == 2 {
      assert WentPast(ps[..1], exits, 0);
    }
  }

  /** a && b: b is started when a returns 0, and only then. */
  lemma AndLine(a: string, b: string, exits: Exits)
    requires Word(a) && Word(b)
    ensures var tokens := [a, "&&", b];
            && ParseTokens(tokens).Go?
            && var (m, outcome) := RunFrom(Nodes(tokens), ENTRY, exits);
            && (exits(0) == 0 ==> m.procs == 2 && outcome == Exit(exits(1)))
            && (exits(0) != 0 ==> m.procs == 1 && outcome == Exit(exits(0)))
  {
    JoinedLine(a, AndThen, b);
    TwoRun(OneWord(a, None, OutInherit), And, OneWord(b, None, OutInherit), exits);
  }

  /** a || b: b is started when a does not return 0, and only then. */
  lemma OrLine(a: string, b: string, exits: Exits)
    requires Word(a) && Word(b)
    ensures var tokens := [a, "||", b];
            && ParseTokens(tokens).Go?
            && var (m, outcome) := RunFrom(Nodes(tokens), ENTRY, exits);
            && (exits(0) != 0 ==> m.procs == 2 && outcome == Exit(exits(1)))
            && (exits(0) == 0 ==> m.procs == 1 && outcome == Exit(exits(0)))
  {
    JoinedLine(a, OrElse, b);
    TwoRun(OneWord(a, None, OutInherit), Or, OneWord(b, None, OutInherit), exits);
  }

  lemma PipeLineParsed(a: string, b: string)
    requires Word(a) && Word(b)
    ensures ParseTokens([a, "|", b]).Go? && Nodes([a, "|", b]) == [Simple(a, OutPipe), Pipe, Simple(b, OutInherit)]
  {
    var s, t := Stage([], OneWord(a, None, OutPipe)), Stage([], OneWord(b, None, OutInherit));
    PlainStage(a, OutPipe);
    PlainStage(b, OutInherit);
    TwoStages(s, t);
    ParseUnparse(Single([s, t]));
    assert Unparse(Single([s, t])) == [a, "|", b];
  }

  lemma PipeLineTrace(a: string, b: string, exits: Exits)
    ensures RunFrom([Simple(a, OutPipe), Pipe, Simple(b, OutInherit)], ENTRY, exits).0.trace
         == [Start(0, [a], FromParent, ToPipe, ToParent, map[], None),
             Start(1, [b], FromPipe(0), ToParent, ToParent, map[], None), Wait(0), Wait(1)]
  {
    var nodes := [Simple(a, OutPipe), Pipe, Simple(b, OutInherit)];
    FirstInPipe(nodes, a, exits);
    RunEnds(nodes[2..], AfterPipe(a), exits);
    EndsInPipe(b, None, ".", [Begin(0, a, FromParent, ToPipe, ".")]);
  }

  /** a | b: both are started, b reads from a, and its status is the line's. */
  lemma PipeLine(a: string, b: string, exits: Exits)
    requires Word(a) && Word(b)
    ensures var tokens := [a, "|", b];
            && ParseTokens(tokens).Go?
            && var (m, outcome) := RunFrom(Nodes(tokens), ENTRY, exits);
            && m.trace == [Start(0, [a], FromParent, ToPipe, ToParent, map[], None),
                           Start(1, [b], FromPipe(0), ToParent, ToParent, map[], None), Wait(0), Wait(1)]
            && outcome == Exit(exits(1))
  {
    PipeLineParsed(a, b);
    PipeLineTrace(a, b, exits);
    TwoRun(OneWord(a, None, OutPipe), Pipe, OneWord(b, None, OutInherit), exits);
  }

  // ----- Directories --------------------------------------------------------------------------------------

  /** The whole trace of one command without redirections. */
  lemma OneRuns(a: string, cwd: string)
    ensures Finished(Started(ENTRY.(cwd := cwd), OneWord(a, None, OutInherit))).trace
         == [Start(0, [a], FromParent, ToParent, ToParent, map[], if cwd == "." then None else Some(cwd)), Wait(0)]
  {
    var m := Machine(1, 0, [Begin(0, a, FromParent, ToParent, cwd)]);
    assert Started(ENTRY.(cwd := cwd), OneWord(a, None, OutInherit)) == Loop(m, false, cwd, [Proc(0, false)], []);
    assert [Proc(0, false)][1..] == [];
    assert WaitAll(m, [Proc(0, false)]).trace == m.trace + [Wait(0)];
  }

  function CdLine(d: string, a: string): seq<Node> {
    [Chdir(Some(d)), And, Simple(a, OutInherit)]
  }

  lemma CdLineParsed(d: string, a: string)
    requires d != "&&" && Word(a)
    ensures ParseTokens(["cd", d, "&&", a]).Go? && Nodes(["cd", d, "&&", a]) == CdLine(d, a)
  {
    CdStage(d, a);
    ParseUnparse(Single([Stage([d], OneWord(a, None, OutInherit))]));
  }

  lemma CdLineRuns(d: string, a: string, exits: Exits)
    ensures RunFrom(CdLine(d, a), ENTRY, exits).0 == Finished(Started(ENTRY.(cwd := Path([d])), OneWord(a, None, OutInherit)))
  {
    var nodes := CdLine(d, a);
    PathMoves([]);
    PathNext([], d);
    assert [] + [d] == [d];
    PathMoves([d]);
    DirGoesOn(nodes, ENTRY, exits);
    RunEnds(nodes[2..], ENTRY.(cwd := Path([d])), exits);
  }

  lemma PathOne(d: string)
    ensures Path([d]) == if d != [] && d[0] == '/' then d else "./" + d
  {
    assert [d][..0] == [];
    PathNext([], d);
    assert [] + [d] == [d];
  }

  lemma PathTwo(d: string, e: string)
    requires !Absolute(d) && !Absolute(e) && d != [] && d[|d| - 1] != '/'
    ensures Path([d, e]) == "./" + d + "/" + e
  {
    PathOne(d);
    PathNext([d], e);
    assert [d] + [e] == [d, e];
  }

  lemma CdLineTrace(d: string, a: string, exits: Exits)
    requires d != "&&" && Word(a)
    ensures ParseTokens(["cd", d, "&&", a]).Go?
    ensures RunFrom(Nodes(["cd", d, "&&", a]), ENTRY, exits).0.trace
         == [Start(0, [a], FromParent, ToParent, ToParent, map[], Some(Path([d]))), Wait(0)]
  {
    CdLineParsed(d, a);
    CdLineRuns(d, a, exits);
    PathMoves([d]);
    OneRuns(a, Path([d]));
  }

  /** cd d && a, for a directory that is not absolute: a starts in ./d . */
  lemma CdRelative(d: string, a: string, exits: Exits)
    requires d != "&&" && Word(a) && (d == [] || d[0] != '/')
    ensures ParseTokens(["cd", d, "&&", a]).Go?
    ensures RunFrom(Nodes(["cd", d, "&&", a]), ENTRY, exits).0.trace
         == [Start(0, [a], FromParent, ToParent, ToParent, map[], Some("./" + d)), Wait(0)]
  {
    PathOne(d);
    CdLineTrace(d, a, exits);
  }

  /** cd /d && a: a starts in /d . */
  lemma CdAbsolute(d: string, a: string, exits: Exits)
    requires Word(a) && d != [] && d[0] == '/'
    ensures ParseTokens(["cd", d, "&&", a]).Go?
    ensures RunFrom(Nodes(["cd", d, "&&", a]), ENTRY, exits).0.trace
         == [Start(0, [a], FromParent, ToParent, ToParent, map[], Some(d)), Wait(0)]
  {
    PathOne(d);
    CdLineTrace(d, a, exits);
  }

  lemma CdTwiceParsed(d: string, e: string, a: string)
    requires d != "&&" && e != "&&" && Word(a)
    ensures var tokens := ["cd", d, "&&", "cd", e, "&&", a];
            ParseTokens(tokens).Go? && Nodes(tokens) == [Chdir(Some(d)), And] + CdLine(e, a)
  {
    var c := OneWord(a, None, OutInherit);
    OneStage([d, e], a, None, OutInherit);
    assert [d, e][1..] == [e];
    OneDir(e);
    ParseUnparse(Single([Stage([d, e], c)]));
    assert Unparse(Single([Stage([d, e], c)])) == ["cd", d, "&&", "cd", e, "&&", a];
  }

  lemma CdTwiceRuns(d: string, e: string, a: string, exits: Exits)
    ensures RunFrom([Chdir(Some(d)), And] + CdLine(e, a), ENTRY, exits).0
         == Finished(Started(ENTRY.(cwd := Path([d, e])), OneWord(a, None, OutInherit)))
  {
    var nodes, tail := [Chdir(Some(d)), And] + CdLine(e, a), CdLine(e, a);
    PathMoves([]);
    PathNext([], d);
    PathNext([d], e);
    assert [] + [d] == [d] && [d] + [e] == [d, e];
    PathMoves([d, e]);
    DirGoesOn(nodes, ENTRY, exits);
    assert nodes[2..] == tail;
    DirGoesOn(tail, ENTRY.(cwd := Path([d])), exits);
    RunEnds(tail[2..], ENTRY.(cwd := Path([d, e])), exits);
  }

  /** cd d && cd e && a, for relative directories: a starts in ./d/e . */
  lemma CdTwice(d: string, e: string, a: string, exits: Exits)
    requires d != "&&" && e != "&&" && Word(a)
    requires d != [] && d[0] != '/' && d[|d| - 1] != '/' && (e == [] || e[0] != '/')
    ensures var tokens := ["cd", d, "&&", "cd", e, "&&", a];
            && ParseTokens(tokens).Go?
            && RunFrom(Nodes(tokens), ENTRY, exits).0.trace
               == [Start(0, [a], FromParent, ToParent, ToParent, map[], Some("./" + d + "/" + e)), Wait(0)]
  {
    CdTwiceParsed(d, e, a);
    CdTwiceRuns(d, e, a, exits);
    PathTwo(d, e);
    PathMoves([d, e]);
    OneRuns(a, Path([d, e]));
  }

  // ----- Settings ------------------------------------------------------------------------------------------

  lemma ASetting()
    ensures EnvSetting("A_z9=x.y") == Some(("A_z9", "x.y"))
  {
    assert "A_z9" + "=" + "x.y" == "A_z9=x.y";
    EnvSettingOf("A_z9", "x.y");
  }

  /** A dash is not part of a key, a key and a value must not be empty, and a value holds no space. */
  lemma NoSettings()
    ensures EnvSetting("a-b=c") == None && EnvSetting("=x") == None && EnvSetting("A=") == None
    ensures EnvSetting("A=a b") == None
  {
    assert "a-b=c"[1..][0] == '-' && KeyLength("a-b=c") == 1;
    assert "A="[1..][0] == '=' && KeyLength("A=") == 1 && "A="[2..] == "";
    assert "A=a b"[1..][0] == '=' && KeyLength("A=a b") == 1 && "A=a b"[2..] == "a b";
    SpaceInside("a b", 1);
  }

  lemma SpaceInside(s: string, i: nat)
    requires i < |s| && Space(s[i]) && s[|s| - 1] != '\n'
    ensures ValueOf(s) == None
  {
    assert !NoSpace(s);
  }

  // ----- Lines that parse rejects ------------------------------------------------------------------------

  lemma Rejected(p: Parser, token: string, rest: seq<string>)
    requires Consistent(p) && Next(p, token).AssertionError?
    ensures Scan(p, [token] + rest).AssertionError?
  {
  }

  /** An empty line, a line of a setting alone, and a line that ends in an operator. */
  lemma NothingToCommit(a: string, op: string)
    requires Word(a) && op in {"|", "&&", "||"}
    ensures ParseTokens([]).AssertionError? && ParseTokens(["A_z9=x.y"]).AssertionError?
    ensures ParseTokens([a, op]).AssertionError?
  {
    ASetting();
    ScanOne(START, "A_z9=x.y");
    ScanFirst(START, a, [op]);
    assert [a] + [op] == [a, op];
    ScanOne(AtCommand([], OneWord(a, None, OutInherit)), op);
  }

  /** A cd after a setting, and a cd with two directories. */
  lemma BadCd(d: string, e: string, rest: seq<string>)
    requires d != "&&" && e != "&&"
    ensures ParseTokens(["A_z9=x.y"] + (["cd"] + rest)).AssertionError?
    ensures ParseTokens(["cd"] + ([d] + ([e] + rest))).AssertionError?
  {
    ASetting();
    CdIsNoSetting();
    ScanFirst(START, "A_z9=x.y", ["cd"] + rest);
    assert "A_z9" in Next(START, "A_z9=x.y").p.env;
    Rejected(Next(START, "A_z9=x.y").p, "cd", rest);
    ScanFirst(START, "cd", [d] + ([e] + rest));
    var p := Next(START, "cd").p;
    ScanFirst(p, d, [e] + rest);
    Rejected(Next(p, d).p, e, rest);
  }

  lemma CdIsNoSetting()
    ensures EnvSetting("cd") == None
  {
    assert "cd"[1..] == "d" && "d"[1..] == [];
    assert KeyLength("d") == 1 && KeyLength("cd") == 2;
  }

  /** An output goes to one place: a > f | b. */
  lemma FileAndPipe(a: string, f: string, rest: seq<string>)
    requires Word(a)
    ensures ParseTokens([a] + ([">"] + ([f] + (["|"] + rest)))).AssertionError?
  {
    var p := AtCommand([], OneWord(a, None, OutInherit));
    ScanFirst(START, a, [">"] + ([f] + (["|"] + rest)));
    ScanFirst(p, ">", [f] + (["|"] + rest));
    ScanFirst(p.(mode := STDOUT), f, ["|"] + rest);
    Rejected(AtCommand([], OneWord(a, None, OutFile(f))), "|", rest);
  }

  /** Where a command is expected an operator is the name of a command: && b . */
  lemma OperatorAsName(b: string)
    requires !Operator(b)
    ensures ParseTokens(["&&", b]).Go?
    ensures Nodes(["&&", b]) == [Cmd(Command(["&&", b], None, OutInherit, ErrInherit, map[]))]
  {
    AndIsNoSetting();
    ScanFirst(START, "&&", [b]);
    assert ["&&"] + [b] == ["&&", b];
    ScanOne(AtCommand([], OneWord("&&", None, OutInherit)), b);
  }

  lemma AndIsNoSetting()
    ensures EnvSetting("&&") == None
  {
    assert "&&"[0] == '&';
  }

  // ----- The null device ---------------------------------------------------------------------------------

  /** a > NUL: : run takes the null device, to a shell it is a file of that name. */
  lemma NulDiffers(a: string, exits: Exits)
    ensures var nodes := [Cmd(OneWord(a, None, OutFile("NUL:")))];
            && RunFrom(nodes, ENTRY, exits).0.trace
               == [Start(0, [a], FromParent, ToHandle(DevNull), ToParent, map[], None), Wait(0)]
            && ListFrom(nodes, ENTRY, exits).0.trace
               == [Open(0, "./NUL:"), Start(0, [a], FromParent, ToHandle(Opened(0)), ToParent, map[], None), Wait(0),
                   Close(Opened(0))]
  {
    var nodes := [Cmd(OneWord(a, None, OutFile("NUL:")))];
    RunEnds(nodes, ENTRY, exits);
    ListEnds(nodes, ENTRY, exits);
    assert "." + "/" + "NUL:" == "./NUL:" && "./NUL:"[1] == '/';
    assert InShell(OneWord(a, None, OutFile("NUL:")), ".") == OneWord(a, None, OutFile("./NUL:"));
    ToDevNull(a);
    ToFile(a, "./NUL:");
  }

  lemma ToDevNull(a: string)
    ensures Finished(Started(ENTRY, OneWord(a, None, OutFile("NUL:")))).trace
         == [Start(0, [a], FromParent, ToHandle(DevNull), ToParent, map[], None), Wait(0)]
  {
    var m := Machine(1, 0, [Start(0, [a], FromParent, ToHandle(DevNull), ToParent, map[], None)]);
    assert Started(ENTRY, OneWord(a, None, OutFile("NUL:"))) == Loop(m, false, ".", [Proc(0, false)], [DevNull]);
    assert [Proc(0, false)][1..] == [] && [DevNull][1..] == [];
    assert WaitAll(m, [Proc(0, false)]).trace == m.trace + [Wait(0)];
  }

  lemma ToFile(a: string, f: string)
    requires f != "NUL:" && f != "/dev/null"
    ensures Finished(Started(ENTRY, OneWord(a, None, OutFile(f)))).trace
         == [Open(0, f), Start(0, [a], FromParent, ToHandle(Opened(0)), ToParent, map[], None), Wait(0), Close(Opened(0))]
  {
    var m := Machine(1, 1, [Open(0, f), Start(0, [a], FromParent, ToHandle(Opened(0)), ToParent, map[], None)]);
    assert Started(ENTRY, OneWord(a, None, OutFile(f))) == Loop(m, false, ".", [Proc(0, false)], [Opened(0)]);
    assert [Proc(0, false)][1..] == [] && [Opened(0)][1..] == [];
    var waited := m.(trace := m.trace + [Wait(0)]);
    assert WaitAll(m, [Proc(0, false)]) == waited;
    assert CloseAll(waited, [Opened(0)]).trace == waited.trace + [Close(Opened(0))];
  }
}
