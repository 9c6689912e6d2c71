/** From the tokens of a line to what run does with it, and the lines where it fails or differs
    from the AND-OR list. */
module ShellLines {
  import opened Options
  import opened Sequences
  import opened ShellNodes
  import opened ShellParse
  import opened ShellUnparse
  import opened ShellRun
  import opened ShellMeaning
  import opened ShellSafety
  import opened ShellAndOr

  function Nodes(tokens: seq<string>): seq<Node> {
    ParseTokens(tokens).p.pipeline
  }

  // ----- Every line that is parsed ------------------------------------------------------------

  /** A line that is parsed and complete is a tree of pipelines, and run does what the tree means. */
  lemma ParsedRunIsMeaning(tokens: seq<string>) returns (t: Tree)
    requires ParseTokens(tokens).Go? && Complete(Nodes(tokens))
    ensures WellFormed(t) && Flatten(t) == Nodes(tokens)
    ensures forall exits :: var (m, status) := Meaning(t, FRESH, ".", exits);
                            RunFrom(Nodes(tokens), ENTRY, exits) == (m, Exit(status))
  {
    t := ParsedIsTree(tokens);
    forall exits
      ensures var (m, status) := Meaning(t, FRESH, ".", exits);
              RunFrom(Nodes(tokens), ENTRY, exits) == (m, Exit(status))
    {
      RunIsMeaning(t, FRESH, ".", exits);
    }
  }

  /** For a line that is parsed: run returns a status, however its processes end, exactly when no cd
      is without a directory and none is last. */
  lemma ParsedReturnsIffComplete(tokens: seq<string>)
    requires ParseTokens(tokens).Go?
    ensures (forall exits :: RunFrom(Nodes(tokens), ENTRY, exits).1.Exit?) <==> Complete(Nodes(tokens))
  {
    ParsedIsGrammatical(tokens);
    AlwaysReturnsIffComplete(Nodes(tokens));
  }

  /** For a line that is parsed and complete: run agrees with the AND-OR list, however its processes
      end, exactly when the line is plain. */
  lemma ParsedAgreesIffPlain(tokens: seq<string>)
    requires ParseTokens(tokens).Go? && Complete(Nodes(tokens))
    ensures (forall exits :: ListFrom(Nodes(tokens), ENTRY, exits) == RunFrom(Nodes(tokens), ENTRY, exits))
            <==> PlainLine(Nodes(tokens))
  {
    ParsedIsGrammatical(tokens);
    AgreesIffPlain(Nodes(tokens));
  }

  // ----- Lines that are parsed and cannot be run --------------------------------------------------

  lemma CdAlone(exits: Exits)
    ensures ParseTokens(["cd"]).Go? && Nodes(["cd"]) == [Chdir(None)]
    ensures RunFrom(Nodes(["cd"]), ENTRY, exits).1 == Raised(IndexError)
  {
  }

  lemma CdLast(exits: Exits)
    ensures ParseTokens(["cd", "d"]).Go? && Nodes(["cd", "d"]) == [Chdir(Some("d"))]
    ensures RunFrom(Nodes(["cd", "d"]), ENTRY, exits).1 == Raised(IndexError)
  {
  }

  /** A command of one word. */
  function OneWord(name: string, stdin: Option<string>, stdout: Stdout): Command {
    Command([name], stdin, stdout, ErrInherit, map[])
  }

  function Simple(name: string, stdout: Stdout): Node {
    Cmd(OneWord(name, None, stdout))
  }

  lemma CdNowhere(exits: Exits)
    ensures var tokens := ["cd", "&&", "a"];
            && ParseTokens(tokens).Go? && Nodes(tokens) == [Chdir(None), And, Simple("a", OutInherit)]
            && RunFrom(Nodes(tokens), ENTRY, exits).1 == Raised(TypeError)
  {
  }

  // ----- Lines that run reads differently from the AND-OR list -------------------------------------

  function OrCd(a: string, d: string, b: string): seq<Node> {
    [Simple(a, OutInherit), Or, Chdir(Some(d)), And, Simple(b, OutInherit)]
  }

  predicate Word(name: string) {
    EnvSetting(name) == None && name != "cd"
  }

  lemma OneWordTokens(name: string, stdin: Option<string>, stdout: Stdout)
    requires !stdout.OutFile?
    ensures CommandTokens(OneWord(name, stdin, stdout)) == [name] + StdinTokens(stdin)
  {
    assert EnvTokens(map[]) == [];
  }

  lemma OneStage(dirs: seq<string>, name: string, stdin: Option<string>, stdout: Stdout)
    requires !stdout.OutFile?
    ensures StagesTokens([Stage(dirs, OneWord(name, stdin, stdout))]) == DirTokens(dirs) + ([name] + StdinTokens(stdin))
    ensures FlattenStages([Stage(dirs, OneWord(name, stdin, stdout))])
         == FlattenDirs(dirs) + [Cmd(OneWord(name, stdin, stdout))]
  {
    OneWordTokens(name, stdin, stdout);
  }

  lemma PlainStage(name: string, stdout: Stdout)
    requires !stdout.OutFile?
    ensures StagesTokens([Stage([], OneWord(name, None, stdout))]) == [name]
    ensures FlattenStages([Stage([], OneWord(name, None, stdout))]) == [Simple(name, stdout)]
  {
    OneStage([], name, None, stdout);
  }

  lemma CdStage(d: string, name: string)
    ensures StagesTokens([Stage([d], OneWord(name, None, OutInherit))]) == ["cd", d, "&&", name]
    ensures FlattenStages([Stage([d], OneWord(name, None, OutInherit))]) == [Chdir(Some(d)), And, Simple(name, OutInherit)]
  {
    OneStage([d], name, None, OutInherit);
    OneDir(d);
  }

  lemma TwoPipelines(s: Stage, op: Connective, t: Stage)
    ensures Unparse(Joined([s], op, Single([t])))
         == StagesTokens([s]) + [if op == AndThen then "&&" else "||"] + StagesTokens([t])
    ensures Flatten(Joined([s], op, Single([t]))) == FlattenStages([s]) + [OpNode(op)] + FlattenStages([t])
  {
  }

  lemma TwoStages(s: Stage, t: Stage)
    ensures StagesTokens([s, t]) == StagesTokens([s]) + ["|"] + StagesTokens([t])
    ensures FlattenStages([s, t]) == FlattenStages([s]) + [Pipe] + FlattenStages([t])
  {
    assert [s, t][1..] == [t];
  }

  lemma OneDir(d: string)
    ensures DirTokens([d]) == ["cd", d, "&&"] && FlattenDirs([d]) == [Chdir(Some(d)), And]
  {
    assert [d][1..] == [];
  }

  /** The tokens  a || cd d && b  are read as five nodes. */
  lemma OrCdParsed(a: string, d: string, b: string)
    requires Word(a) && d != "&&" && Word(b)
    ensures var tokens := [a, "||", "cd", d, "&&", b];
            ParseTokens(tokens).Go? && Nodes(tokens) == OrCd(a, d, b)
  {
    var first, second := OneWord(a, None, OutInherit), OneWord(b, None, OutInherit);
    var t := Joined([Stage([], first)], OrElse, Single([Stage([d], second)]));
    PlainStage(a, OutInherit);
    CdStage(d, b);
    TwoPipelines(Stage([], first), OrElse, Stage([d], second));
    ParseUnparse(t);
    assert Unparse(t) == [a, "||", "cd", d, "&&", b];
  }

  lemma OrCdNotPlain(a: string, d: string, b: string)
    ensures Complete(OrCd(a, d, b)) && OneConnective(OrCd(a, d, b)) && !PlainLine(OrCd(a, d, b))
  {
    var nodes := OrCd(a, d, b);
    assert CdAfterOr(nodes, 2);
    assert forall i: nat :: ConnectiveAt(nodes, i) ==> i == 1;
  }

  /** When a succeeds, run stops after it; the list (a || cd d) && b starts b too. */
  lemma OrCdDiffers(a: string, d: string, b: string, exits: Exits)
    requires exits(0) == 0
    ensures RunFrom(OrCd(a, d, b), ENTRY, exits).0.procs == 1
    ensures ListFrom(OrCd(a, d, b), ENTRY, exits).0.procs == 2
  {
    var nodes := OrCd(a, d, b);
    var l1 := Started(ENTRY, nodes[0].cmd);
    StartedMore(ENTRY, nodes[0].cmd);
    FinishedKeepsProcs(l1);
    RunStep(nodes, ENTRY, exits);
    CommandStep(nodes, ENTRY, exits);
    CdSkipped(nodes[2..], Finished(l1), exits);
  }

  /** After a success, (... || cd d) && b starts b. */
  lemma CdSkipped(nodes: seq<Node>, m: Machine, exits: Exits)
    requires |nodes| == 3 && nodes[0].Chdir? && nodes[1] == And && nodes[2].Cmd? && SameFiles(nodes[2].cmd, false)
    ensures Connect(Or, nodes, m, 0, ".", exits).0.procs == m.procs + 1
  {
    var l := Loop(m, false, ".", [], []);
    assert AfterPipeline(nodes) == nodes[1..] && nodes[1..][1..] == nodes[2..];
    assert Connect(Or, nodes, m, 0, ".", exits) == Connect(And, nodes[2..], m, 0, ".", exits);
    ListEnds(nodes[2..], l, exits);
    SameStart(l, nodes[2].cmd);
    StartedMore(l, nodes[2].cmd);
    FinishedKeepsProcs(Started(l, nodes[2].cmd));
  }

  lemma ListEnds(nodes: seq<Node>, l: Loop, exits: Exits)
    requires |nodes| == 1 && nodes[0].Cmd? && Tidy(l)
    ensures ListFrom(nodes, l, exits).0 == Finished(ListStarted(l, nodes[0].cmd))
  {
    assert nodes[1..] == [];
  }

  lemma RunEnds(nodes: seq<Node>, l: Loop, exits: Exits)
    requires |nodes| == 1 && nodes[0].Cmd? && Tidy(l)
    ensures RunFrom(nodes, l, exits).0 == Finished(Started(l, nodes[0].cmd))
  {
    assert nodes[1..] == [];
  }

  function PipeCd(a: string, d: string, b: string): seq<Node> {
    [Simple(a, OutPipe), Pipe, Chdir(Some(d)), And, Simple(b, OutInherit)]
  }

  /** The tokens  a | cd d && b . */
  lemma PipeCdParsed(a: string, d: string, b: string)
    requires Word(a) && d != "&&" && Word(b)
    ensures var tokens := [a, "|", "cd", d, "&&", b];
            ParseTokens(tokens).Go? && Nodes(tokens) == PipeCd(a, d, b)
  {
    var s, t := Stage([], OneWord(a, None, OutPipe)), Stage([d], OneWord(b, None, OutInherit));
    PlainStage(a, OutPipe);
    CdStage(d, b);
    TwoStages(s, t);
    ParseUnparse(Single([s, t]));
    assert Unparse(Single([s, t])) == [a, "|", "cd", d, "&&", b];
  }

  lemma PipeCdNotPlain(a: string, d: string, b: string)
    ensures Complete(PipeCd(a, d, b)) && OneConnective(PipeCd(a, d, b)) && !PlainLine(PipeCd(a, d, b))
  {
    var nodes := PipeCd(a, d, b);
    assert PipeIgnoredAt(nodes, 2);
    assert forall i: nat :: !ConnectiveAt(nodes, i);
  }

  function Begin(pid: nat, name: string, stdin: Source, stdout: Sink, cwd: string): Event {
    Start(pid, [name], stdin, stdout, ToParent, map[], ProcCwd(cwd))
  }

  /** The head of the loop once a is started and its pipe is left behind. */
  function AfterPipe(a: string): Loop {
    Loop(Machine(1, 0, [Begin(0, a, FromParent, ToPipe, ".")]), true, ".", [Proc(0, true)], [])
  }

  lemma FirstInPipe(nodes: seq<Node>, a: string, exits: Exits)
    requires |nodes| > 2 && nodes[0] == Simple(a, OutPipe) && nodes[1] == Pipe
    ensures RunFrom(nodes, ENTRY, exits) == RunFrom(nodes[2..], AfterPipe(a), exits)
    ensures ListFrom(nodes, ENTRY, exits) == ListFrom(nodes[2..], AfterPipe(a), exits)
  {
    assert Started(ENTRY, nodes[0].cmd).(inPipe := true) == AfterPipe(a);
    RunStep(nodes, ENTRY, exits);
    CommandStep(nodes, ENTRY, exits);
  }

  /** run starts b in d, reading from a; the list (a | cd d) && b waits for a and starts b where it was. */
  lemma PipeCdDiffers(a: string, d: string, b: string, exits: Exits)
    ensures RunFrom(PipeCd(a, d, b), ENTRY, exits).0.trace
         == [Begin(0, a, FromParent, ToPipe, "."), Begin(1, b, FromPipe(0), ToParent, JoinPath(".", d)), Wait(0), Wait(1)]
    ensures ListFrom(PipeCd(a, d, b), ENTRY, exits).0.trace
         == [Begin(0, a, FromParent, ToPipe, "."), Wait(0), Begin(1, b, FromParent, ToParent, "."), Wait(1)]
  {
    var nodes := PipeCd(a, d, b);
    var begin, l1 := Begin(0, a, FromParent, ToPipe, "."), AfterPipe(a);
    FirstInPipe(nodes, a, exits);
    var rest, last := nodes[2..], nodes[4..];
    assert rest[2..] == last;
    CdStep(rest, l1, exits);
    DirGoesOn(rest, l1, exits);
    RunEnds(last, l1.(cwd := JoinPath(".", d)), exits);
    ListEnds(last, Restart(l1), exits);
    EndsInPipe(b, None, JoinPath(".", d), [begin]);
    EndsAlone(b, [begin, Wait(0)]);
    assert Restart(l1) == Loop(Machine(1, 0, [begin, Wait(0)]), false, ".", [], []);
  }

  /** run starts b in a pipe, with or without a < of its own, and finishes the pipeline. */
  lemma EndsInPipe(b: string, stdin: Option<string>, cwd: string, before: seq<Event>)
    ensures var l := Loop(Machine(1, 0, before), true, cwd, [Proc(0, true)], []);
            Finished(Started(l, OneWord(b, stdin, OutInherit))).trace
            == before + [Begin(1, b, FromPipe(0), ToParent, cwd), Wait(0), Wait(1)]
  {
    var l := Loop(Machine(1, 0, before), true, cwd, [Proc(0, true)], []);
    var m := Machine(2, 0, before + [Begin(1, b, FromPipe(0), ToParent, cwd)]);
    assert Started(l, OneWord(b, stdin, OutInherit)) == Loop(m, true, cwd, [Proc(0, true), Proc(1, false)], []);
    BothWaited(m);
  }

  lemma BothWaited(m: Machine)
    ensures WaitAll(m, [Proc(0, true), Proc(1, false)]) == m.(trace := m.trace + [Wait(0), Wait(1)])
  {
    var procs := [Proc(0, true), Proc(1, false)];
    assert procs[1..] == [Proc(1, false)] && procs[1..][1..] == [];
    assert m.trace + [Wait(0)] + [Wait(1)] == m.trace + [Wait(0), Wait(1)];
  }

  lemma EndsAlone(b: string, before: seq<Event>)
    ensures var l := Loop(Machine(1, 0, before), false, ".", [], []);
            Finished(Started(l, Simple(b, OutInherit).cmd)).trace
            == before + [Begin(1, b, FromParent, ToParent, "."), Wait(1)]
  {
    var l := Loop(Machine(1, 0, before), false, ".", [], []);
    var m := Machine(2, 0, before + [Begin(1, b, FromParent, ToParent, ".")]);
    assert Started(l, Simple(b, OutInherit).cmd) == Loop(m, false, ".", [Proc(1, false)], []);
    assert [Proc(1, false)][1..] == [];
    assert WaitAll(m, [Proc(1, false)]).trace == m.trace + [Wait(1)];
  }

  function PipeStdin(a: string, b: string, f: string): seq<Node> {
    [Simple(a, OutPipe), Pipe, Cmd(OneWord(b, Some(f), OutInherit))]
  }

  /** The tokens  a | b < f . */
  lemma PipeStdinParsed(a: string, b: string, f: string)
    requires Word(a) && Word(b)
    ensures var tokens := [a, "|", b, "<", f];
            ParseTokens(tokens).Go? && Nodes(tokens) == PipeStdin(a, b, f)
  {
    var s, t := Stage([], OneWord(a, None, OutPipe)), Stage([], OneWord(b, Some(f), OutInherit));
    PlainStage(a, OutPipe);
    OneStage([], b, Some(f), OutInherit);
    TwoStages(s, t);
    ParseUnparse(Single([s, t]));
    assert Unparse(Single([s, t])) == [a, "|", b, "<", f];
  }

  lemma PipeStdinNotPlain(a: string, b: string, f: string)
    ensures Complete(PipeStdin(a, b, f)) && OneConnective(PipeStdin(a, b, f)) && !PlainLine(PipeStdin(a, b, f))
  {
    var nodes := PipeStdin(a, b, f);
    assert PipeIgnoredAt(nodes, 2);
    assert forall i: nat :: !ConnectiveAt(nodes, i);
  }

  /** run never opens f, and b reads what a writes; in the list a | b < f the command b reads f. */
  lemma PipeStdinDiffers(a: string, b: string, f: string, exits: Exits)
    ensures RunFrom(PipeStdin(a, b, f), ENTRY, exits).0.trace
         == [Begin(0, a, FromParent, ToPipe, "."), Begin(1, b, FromPipe(0), ToParent, "."), Wait(0), Wait(1)]
    ensures ListFrom(PipeStdin(a, b, f), ENTRY, exits).0.trace
         == [Begin(0, a, FromParent, ToPipe, "."), Open(0, f), Begin(1, b, FromHandle(Opened(0)), ToParent, "."),
             Wait(0), Wait(1), Close(Opened(0))]
  {
    var nodes := PipeStdin(a, b, f);
    var begin := Begin(0, a, FromParent, ToPipe, ".");
    FirstInPipe(nodes, a, exits);
    RunEnds(nodes[2..], AfterPipe(a), exits);
    ListEnds(nodes[2..], AfterPipe(a), exits);
    EndsInPipe(b, Some(f), ".", [begin]);
    EndsFromFile(b, f, [begin]);
  }

  lemma EndsFromFile(b: string, f: string, before: seq<Event>)
    ensures var l := Loop(Machine(1, 0, before), true, ".", [Proc(0, true)], []);
            Finished(ListStarted(l, OneWord(b, Some(f), OutInherit))).trace
            == before + [Open(0, f), Begin(1, b, FromHandle(Opened(0)), ToParent, "."), Wait(0), Wait(1), Close(Opened(0))]
  {
    var l := Loop(Machine(1, 0, before), true, ".", [Proc(0, true)], []);
    var m := Machine(2, 1, before + [Open(0, f)] + [Begin(1, b, FromHandle(Opened(0)), ToParent, ".")]);
    assert ListStarted(l, OneWord(b, Some(f), OutInherit)) == Loop(m, false, ".", [Proc(0, true), Proc(1, false)], [Opened(0)]);
    BothWaited(m);
    var waited := m.(trace := m.trace + [Wait(0), Wait(1)]);
    assert [Opened(0)][1..] == [];
    assert CloseAll(waited, [Opened(0)]).trace == waited.trace + [Close(Opened(0))];
  }

  function CdFile(d: string, a: string, f: string): seq<Node> {
    [Chdir(Some(d)), And, Cmd(OneWord(a, Some(f), OutInherit))]
  }

  /** The tokens  cd d && a < f . */
  lemma CdFileParsed(d: string, a: string, f: string)
    requires d != "&&" && Word(a)
    ensures var tokens := ["cd", d, "&&", a, "<", f];
            ParseTokens(tokens).Go? && Nodes(tokens) == CdFile(d, a, f)
  {
    var t := Single([Stage([d], OneWord(a, Some(f), OutInherit))]);
    OneStage([d], a, Some(f), OutInherit);
    OneDir(d);
    ParseUnparse(t);
    assert Unparse(t) == ["cd", d, "&&", a, "<", f];
  }

  lemma CdFileNotPlain(d: string, a: string, f: string)
    requires Relative(f)
    ensures Complete(CdFile(d, a, f)) && Steady(CdFile(d, a, f)) && PipesRead(CdFile(d, a, f))
    ensures !PlainLine(CdFile(d, a, f))
  {
    var nodes := CdFile(d, a, f);
    assert forall i: nat :: !ConnectiveAt(nodes, i);
    FilesTail(nodes, false);
  }

  /** run opens f in its own directory, the list in d. */
  lemma CdFileDiffers(d: string, a: string, f: string, exits: Exits)
    ensures RunFrom(CdFile(d, a, f), ENTRY, exits).0.trace == FileReader(a, f, JoinPath(".", d))
    ensures ListFrom(CdFile(d, a, f), ENTRY, exits).0.trace
         == FileReader(a, JoinPath(JoinPath(".", d), f), JoinPath(".", d))
  {
    var nodes, cwd := CdFile(d, a, f), JoinPath(".", d);
    var l := ENTRY.(cwd := cwd);
    Moved(".", d);
    CdStep(nodes, ENTRY, exits);
    DirGoesOn(nodes, ENTRY, exits);
    RunEnds(nodes[2..], l, exits);
    ListEnds(nodes[2..], l, exits);
    EndsReading(a, f, cwd);
    EndsReading(a, JoinPath(cwd, f), cwd);
  }

  function FileReader(a: string, f: string, cwd: string): seq<Event> {
    [Open(0, f), Begin(0, a, FromHandle(Opened(0)), ToParent, cwd), Wait(0), Close(Opened(0))]
  }

  lemma EndsReading(a: string, f: string, cwd: string)
    ensures var l := Loop(FRESH, false, cwd, [], []);
            Finished(Started(l, OneWord(a, Some(f), OutInherit))).trace == FileReader(a, f, cwd)
  {
    var l := Loop(FRESH, false, cwd, [], []);
    var m := Machine(1, 1, [Open(0, f), Begin(0, a, FromHandle(Opened(0)), ToParent, cwd)]);
    assert Started(l, OneWord(a, Some(f), OutInherit)) == Loop(m, false, cwd, [Proc(0, false)], [Opened(0)]);
    assert [Proc(0, false)][1..] == [] && [Opened(0)][1..] == [];
    var waited := m.(trace := m.trace + [Wait(0)]);
    assert WaitAll(m, [Proc(0, false)]) == waited;
    assert CloseAll(waited, [Opened(0)]).trace == waited.trace + [Close(Opened(0))];
  }
}
