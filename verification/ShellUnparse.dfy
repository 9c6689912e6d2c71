/** Writing a tree of pipelines back as tokens: parse reads it as the same line. */
module ShellUnparse {
  import opened Options
  import opened Sequences
  import opened ShellNodes
  import opened ShellParse

  predicate Operator(token: string) {
    token in {">", "2>", "2>&1", "<", "|", "&&", "||"}
  }

  predicate EnvKey(key: string) {
    key != [] && forall i :: 0 <= i < |key| ==> WordChar(key[i])
  }

  predicate EnvValue(value: string) {
    value != [] && forall i :: 0 <= i < |value| ==> !Space(value[i])
  }

  /** Commands that tokens can spell: the name is not read as anything else, no argument is an operator. */
  ghost predicate Spellable(c: Command) {
    && c.argv != [] && c.argv[0] != "cd" && EnvSetting(c.argv[0]) == None
    && (forall i :: 0 < i < |c.argv| ==> !Operator(c.argv[i]))
    && (forall k :: k in c.env ==> EnvKey(k) && EnvValue(c.env[k]))
  }

  ghost predicate SpellableStages(stages: seq<Stage>) {
    && (forall i :: 0 <= i < |stages| ==> Spellable(stages[i].cmd))
    && forall i, j :: 0 <= i < |stages| && 0 <= j < |stages[i].dirs| ==> stages[i].dirs[j] != "&&"
  }

  ghost predicate SpellableTree(t: Tree) {
    SpellableStages(t.stages) && (t.Joined? ==> SpellableTree(t.rest))
  }

  // ----- Tokens of the parts -----------------------------------------------------------------

  ghost function EnvTokens(env: map<string, string>): seq<string>
    decreases env.Keys
  {
    if env == map[] then []
    else
      var k :| k in env;
      EnvTokens(env - {k}) + [k + "=" + env[k]]
  }

  function StdinTokens(s: Option<string>): seq<string> {
    match s
    case None => []
    case Some(f) => ["<", f]
  }

  function StdoutTokens(s: Stdout): seq<string> {
    match s
    case OutFile(f) => [">", f]
    case _ => []
  }

  function StderrTokens(s: Stderr): seq<string> {
    match s
    case ErrInherit => []
    case ErrStdout => ["2>&1"]
    case ErrFile(f) => ["2>", f]
  }

  ghost function CommandTokens(c: Command): seq<string> {
    EnvTokens(c.env) + c.argv + StdinTokens(c.stdin) + StdoutTokens(c.stdout) + StderrTokens(c.stderr)
  }

  function DirTokens(dirs: seq<string>): seq<string> {
    if dirs == [] then [] else ["cd", dirs[0], "&&"] + DirTokens(dirs[1..])
  }

  ghost function StageTokens(s: Stage): seq<string> {
    DirTokens(s.dirs) + CommandTokens(s.cmd)
  }

  ghost function StagesTokens(stages: seq<Stage>): seq<string> {
    if stages == [] then []
    else if |stages| == 1 then StageTokens(stages[0])
    else StageTokens(stages[0]) + ["|"] + StagesTokens(stages[1..])
  }

  ghost function Unparse(t: Tree): seq<string> {
    match t
    case Single(stages) => StagesTokens(stages)
    case Joined(stages, op, rest) => StagesTokens(stages) + [if op == AndThen then "&&" else "||"] + Unparse(rest)
  }

  // ----- Scanning in pieces --------------------------------------------------------------------

  lemma ScanFirst(p: Parser, token: string, rest: seq<string>)
    requires Consistent(p) && Next(p, token).Go?
    ensures Consistent(Next(p, token).p) && Scan(p, [token] + rest) == Scan(Next(p, token).p, rest)
  {
    NextConsistent(p, token);
    assert ([token] + rest)[1..] == rest;
  }

  lemma {:induction false} ScanConcat(p: Parser, s: seq<string>, t: seq<string>)
    requires Consistent(p) && Scan(p, s).Go?
    ensures Scan(p, s + t) == Scan(Scan(p, s).p, t)
    decreases s
  {
    if s == [] {
      assert s + t == t;
    } else {
      ScanFirst(p, s[0], s[1..] + t);
      ScanConcat(Next(p, s[0]).p, s[1..], t);
      assert s + t == [s[0]] + (s[1..] + t);
    }
  }

  lemma ScanOne(p: Parser, token: string)
    requires Consistent(p)
    ensures Scan(p, [token]) == Next(p, token)
  {
    if Next(p, token).Go? {
      assert Scan(Next(p, token).p, []) == Next(p, token);
    }
  }

  /** Scanning tokens takes the parser from p to q. */
  predicate Leads(p: Parser, tokens: seq<string>, q: Parser) {
    Consistent(p) && Scan(p, tokens) == Go(q)
  }

  lemma LeadsTwice(p: Parser, s: seq<string>, q: Parser, t: seq<string>, r: Parser)
    requires Leads(p, s, q) && Leads(q, t, r)
    ensures Leads(p, s + t, r)
  {
    ScanConcat(p, s, t);
  }

  lemma LeadsByOne(p: Parser, token: string)
    requires Consistent(p) && Next(p, token).Go?
    ensures Leads(p, [token], Next(p, token).p)
  {
    ScanOne(p, token);
  }

  // ----- Environment settings ------------------------------------------------------------

  lemma {:induction false} KeyLengthOf(key: string, rest: string)
    requires forall i :: 0 <= i < |key| ==> WordChar(key[i])
    ensures KeyLength(key + ['='] + rest) == |key|
  {
    if key != [] {
      KeyLengthOf(key[1..], rest);
      assert (key + ['='] + rest)[1..] == key[1..] + ['='] + rest;
    } else {
      assert ([] + ['='] + rest)[0] == '=';
    }
  }

  lemma EnvSettingOf(key: string, value: string)
    requires EnvKey(key) && EnvValue(value)
    ensures EnvSetting(key + "=" + value) == Some((key, value))
  {
    var token := key + "=" + value;
    assert token == key + ['='] + value;
    KeyLengthOf(key, value);
    assert token[..|key|] == key && token[|key|] == '=' && token[|key| + 1..] == value;
    assert Space('\n');
    assert value[|value| - 1] != '\n';
    assert ValueOf(value) == Some(value);
  }

  function AtBegin(nodes: seq<Node>, env: map<string, string>): Parser {
    Parser(BEGIN, None, nodes, env)
  }

  lemma {:induction false} EnvScanned(nodes: seq<Node>, env: map<string, string>)
    requires forall k :: k in env ==> EnvKey(k) && EnvValue(env[k])
    ensures Leads(AtBegin(nodes, map[]), EnvTokens(env), AtBegin(nodes, env))
    decreases env.Keys
  {
    if env != map[] {
      var tokens := EnvTokens(env);
      var k :| k in env && tokens == EnvTokens(env - {k}) + [k + "=" + env[k]];
      EnvScanned(nodes, env - {k});
      EnvSettingOf(k, env[k]);
      var p := AtBegin(nodes, env - {k});
      LeadsByOne(p, k + "=" + env[k]);
      assert (env - {k})[k := env[k]] == env;
      LeadsTwice(AtBegin(nodes, map[]), EnvTokens(env - {k}), p, [k + "=" + env[k]], AtBegin(nodes, env));
    }
  }

  // ----- One command ---------------------------------------------------------------------------

  function AtCommand(nodes: seq<Node>, c: Command): Parser {
    Parser(COMMAND, Some(Cmd(c)), nodes, map[])
  }

  lemma {:induction false} ArgsScanned(nodes: seq<Node>, c: Command, args: seq<string>)
    requires c.stdout == OutInherit
    requires forall i :: 0 <= i < |args| ==> !Operator(args[i])
    ensures Leads(AtCommand(nodes, c), args, AtCommand(nodes, c.(argv := c.argv + args)))
    decreases args
  {
    if args == [] {
      assert c.argv + args == c.argv;
    } else {
      var d := c.(argv := c.argv + [args[0]]);
      assert !Operator(args[0]);
      LeadsByOne(AtCommand(nodes, c), args[0]);
      ArgsScanned(nodes, d, args[1..]);
      LeadsTwice(AtCommand(nodes, c), [args[0]], AtCommand(nodes, d),
                 args[1..], AtCommand(nodes, d.(argv := d.argv + args[1..])));
      assert [args[0]] + args[1..] == args;
      assert d.argv + args[1..] == c.argv + args;
    }
  }

  lemma ScanTwo(p: Parser, a: string, b: string)
    requires Consistent(p) && Next(p, a).Go? && Next(Next(p, a).p, b).Go?
    ensures Leads(p, [a, b], Next(Next(p, a).p, b).p)
  {
    LeadsByOne(p, a);
    LeadsByOne(Next(p, a).p, b);
    LeadsTwice(p, [a], Next(p, a).p, [b], Next(Next(p, a).p, b).p);
    assert [a] + [b] == [a, b];
  }

  lemma StdinScanned(nodes: seq<Node>, c: Command, stdin: Option<string>)
    requires c.stdin == None && c.stdout == OutInherit
    ensures Leads(AtCommand(nodes, c), StdinTokens(stdin), AtCommand(nodes, c.(stdin := stdin)))
  {
    if stdin.Some? {
      ScanTwo(AtCommand(nodes, c), "<", stdin.value);
    }
  }

  lemma StdoutScanned(nodes: seq<Node>, c: Command, stdout: Stdout)
    requires c.stdout == OutInherit && stdout != OutPipe
    ensures Leads(AtCommand(nodes, c), StdoutTokens(stdout), AtCommand(nodes, c.(stdout := stdout)))
  {
    if stdout.OutFile? {
      ScanTwo(AtCommand(nodes, c), ">", stdout.name);
    }
  }

  lemma StderrScanned(nodes: seq<Node>, c: Command, stderr: Stderr)
    requires c.stderr == ErrInherit && c.stdout != OutPipe
    ensures Leads(AtCommand(nodes, c), StderrTokens(stderr), AtCommand(nodes, c.(stderr := stderr)))
  {
    match stderr
    case ErrInherit =>
    case ErrStdout => LeadsByOne(AtCommand(nodes, c), "2>&1");
    case ErrFile(f) => ScanTwo(AtCommand(nodes, c), "2>", f);
  }

  lemma RedirectsScanned(nodes: seq<Node>, c: Command, d: Command)
    requires c.stdin == None && c.stdout == OutInherit && c.stderr == ErrInherit
    requires d == c.(stdin := d.stdin, stdout := d.stdout, stderr := d.stderr) && d.stdout != OutPipe
    ensures Leads(AtCommand(nodes, c),
                  StdinTokens(d.stdin) + StdoutTokens(d.stdout) + StderrTokens(d.stderr), AtCommand(nodes, d))
  {
    var c1 := c.(stdin := d.stdin);
    var c2 := c1.(stdout := d.stdout);
    StdinScanned(nodes, c, d.stdin);
    StdoutScanned(nodes, c1, d.stdout);
    StderrScanned(nodes, c2, d.stderr);
    LeadsTwice(AtCommand(nodes, c), StdinTokens(d.stdin), AtCommand(nodes, c1),
               StdoutTokens(d.stdout), AtCommand(nodes, c2));
    LeadsTwice(AtCommand(nodes, c), StdinTokens(d.stdin) + StdoutTokens(d.stdout), AtCommand(nodes, c2),
               StderrTokens(d.stderr), AtCommand(nodes, d));
  }

  /** The command as it stands before the pipe operator that follows it is read. */
  function Unpiped(c: Command): Command {
    if c.stdout == OutPipe then c.(stdout := OutInherit) else c
  }

  /** The command with its settings and words, and no redirection yet. */
  function Unredirected(c: Command): Command {
    Command(c.argv, None, OutInherit, ErrInherit, c.env)
  }

  lemma NameScanned(nodes: seq<Node>, c: Command)
    requires Spellable(c)
    ensures Leads(AtBegin(nodes, map[]), EnvTokens(c.env) + [c.argv[0]],
                  AtCommand(nodes, Unredirected(c).(argv := [c.argv[0]])))
  {
    EnvScanned(nodes, c.env);
    LeadsByOne(AtBegin(nodes, c.env), c.argv[0]);
    LeadsTwice(AtBegin(nodes, map[]), EnvTokens(c.env), AtBegin(nodes, c.env),
               [c.argv[0]], AtCommand(nodes, Unredirected(c).(argv := [c.argv[0]])));
  }

  lemma WordsScanned(nodes: seq<Node>, c: Command)
    requires Spellable(c)
    ensures Leads(AtBegin(nodes, map[]), EnvTokens(c.env) + c.argv, AtCommand(nodes, Unredirected(c)))
  {
    var c0 := Unredirected(c).(argv := [c.argv[0]]);
    NameScanned(nodes, c);
    ArgsScanned(nodes, c0, c.argv[1..]);
    assert [c.argv[0]] + c.argv[1..] == c.argv;
    LeadsTwice(AtBegin(nodes, map[]), EnvTokens(c.env) + [c.argv[0]], AtCommand(nodes, c0),
               c.argv[1..], AtCommand(nodes, Unredirected(c)));
    Regroup(EnvTokens(c.env), [c.argv[0]], c.argv[1..]);
  }

  lemma CommandScanned(nodes: seq<Node>, c: Command)
    requires Spellable(c)
    ensures Leads(AtBegin(nodes, map[]), CommandTokens(c), AtCommand(nodes, Unpiped(c)))
  {
    var redirects := StdinTokens(c.stdin) + StdoutTokens(c.stdout) + StderrTokens(c.stderr);
    WordsScanned(nodes, c);
    RedirectsScanned(nodes, Unredirected(c), Unpiped(c));
    assert StdoutTokens(Unpiped(c).stdout) == StdoutTokens(c.stdout);
    LeadsTwice(AtBegin(nodes, map[]), EnvTokens(c.env) + c.argv, AtCommand(nodes, Unredirected(c)),
               redirects, AtCommand(nodes, Unpiped(c)));
    Regroup(EnvTokens(c.env) + c.argv, StdinTokens(c.stdin), StdoutTokens(c.stdout));
    Regroup(EnvTokens(c.env) + c.argv, StdinTokens(c.stdin) + StdoutTokens(c.stdout), StderrTokens(c.stderr));
  }

  lemma FirstDir(nodes: seq<Node>, dirs: seq<string>)
    requires dirs != []
    ensures nodes + FlattenDirs(dirs) == nodes + [Chdir(Some(dirs[0])), And] + FlattenDirs(dirs[1..])
  {
  }

  lemma {:induction false} DirsScanned(nodes: seq<Node>, dirs: seq<string>)
    requires forall j :: 0 <= j < |dirs| ==> dirs[j] != "&&"
    ensures Leads(AtBegin(nodes, map[]), DirTokens(dirs), AtBegin(nodes + FlattenDirs(dirs), map[]))
    decreases dirs
  {
    if dirs == [] {
      assert nodes + FlattenDirs(dirs) == nodes;
    } else {
      var nodes' := nodes + [Chdir(Some(dirs[0])), And];
      CdScanned(nodes, dirs[0]);
      DirsScanned(nodes', dirs[1..]);
      FirstDir(nodes, dirs);
      LeadsTwice(AtBegin(nodes, map[]), ["cd", dirs[0], "&&"], AtBegin(nodes', map[]),
                 DirTokens(dirs[1..]), AtBegin(nodes + FlattenDirs(dirs), map[]));
    }
  }

  lemma CdScanned(nodes: seq<Node>, dir: string)
    requires dir != "&&"
    ensures Leads(AtBegin(nodes, map[]), ["cd", dir, "&&"], AtBegin(nodes + [Chdir(Some(dir)), And], map[]))
  {
    var p := AtBegin(nodes, map[]);
    assert EnvSetting("cd") == None by {
      assert "cd"[1..] == "d" && "d"[1..] == [];
      assert KeyLength("d") == 1 && KeyLength("cd") == 2;
    }
    ScanTwo(p, "cd", dir);
    var q := Parser(CHDIR, Some(Chdir(Some(dir))), nodes, map[]);
    LeadsByOne(q, "&&");
    LeadsTwice(p, ["cd", dir], q, ["&&"], AtBegin(nodes + [Chdir(Some(dir)), And], map[]));
    assert ["cd", dir] + ["&&"] == ["cd", dir, "&&"];
  }

  lemma StageScanned(nodes: seq<Node>, s: Stage)
    requires Spellable(s.cmd) && forall j :: 0 <= j < |s.dirs| ==> s.dirs[j] != "&&"
    ensures Leads(AtBegin(nodes, map[]), StageTokens(s), AtCommand(nodes + FlattenDirs(s.dirs), Unpiped(s.cmd)))
  {
    DirsScanned(nodes, s.dirs);
    CommandScanned(nodes + FlattenDirs(s.dirs), s.cmd);
    LeadsTwice(AtBegin(nodes, map[]), DirTokens(s.dirs), AtBegin(nodes + FlattenDirs(s.dirs), map[]),
               CommandTokens(s.cmd), AtCommand(nodes + FlattenDirs(s.dirs), Unpiped(s.cmd)));
  }

  /** All of nodes has been read, the last of them still being built. */
  ghost predicate ReadsAs(before: seq<Node>, tokens: seq<string>, nodes: seq<Node>) {
    && nodes != [] && nodes[|nodes| - 1].Cmd? && nodes[|nodes| - 1].cmd.stdout != OutPipe
    && Leads(AtBegin(before, map[]), tokens,
             AtCommand(before + nodes[..|nodes| - 1], nodes[|nodes| - 1].cmd))
  }

  /** After an operator the next part is read as if it stood alone. */
  lemma ReadsOn(before: seq<Node>, s: seq<string>, q: Parser, middle: seq<Node>, t: seq<string>, nodes: seq<Node>)
    requires Leads(AtBegin(before, map[]), s, q) && q == AtBegin(before + middle, map[])
    requires ReadsAs(before + middle, t, nodes)
    ensures ReadsAs(before, s + t, middle + nodes)
  {
    var all := middle + nodes;
    assert before + middle + nodes[..|nodes| - 1] == before + all[..|all| - 1];
    LeadsTwice(AtBegin(before, map[]), s, q, t,
               AtCommand(before + middle + nodes[..|nodes| - 1], nodes[|nodes| - 1].cmd));
  }

  lemma OperatorScanned(before: seq<Node>, s: seq<string>, nodes: seq<Node>, op: Connective)
    requires ReadsAs(before, s, nodes)
    ensures Leads(AtBegin(before, map[]), s + [if op == AndThen then "&&" else "||"],
                  AtBegin(before + (nodes + [OpNode(op)]), map[]))
  {
    var token := if op == AndThen then "&&" else "||";
    var p := AtCommand(before + nodes[..|nodes| - 1], nodes[|nodes| - 1].cmd);
    LeadsByOne(p, token);
    assert Next(p, token).p.pipeline == before + (nodes + [OpNode(op)]);
    LeadsTwice(AtBegin(before, map[]), s, p, [token], Next(p, token).p);
  }

  lemma PipeScanned(before: seq<Node>, s: Stage)
    requires Spellable(s.cmd) && s.cmd.stdout == OutPipe && forall j :: 0 <= j < |s.dirs| ==> s.dirs[j] != "&&"
    ensures Leads(AtBegin(before, map[]), StageTokens(s) + ["|"],
                  AtBegin(before + (FlattenStage(s) + [Pipe]), map[]))
  {
    StageScanned(before, s);
    var p := AtCommand(before + FlattenDirs(s.dirs), Unpiped(s.cmd));
    LeadsByOne(p, "|");
    assert Next(p, "|").p.pipeline == before + (FlattenStage(s) + [Pipe]);
    LeadsTwice(AtBegin(before, map[]), StageTokens(s), p, ["|"], Next(p, "|").p);
  }

  lemma {:induction false} StagesScanned(before: seq<Node>, stages: seq<Stage>)
    requires WellPiped(stages) && SpellableStages(stages)
    ensures ReadsAs(before, StagesTokens(stages), FlattenStages(stages))
    decreases |stages|
  {
    var s := stages[0];
    if |stages| == 1 {
      StageScanned(before, s);
      assert FlattenStages(stages)[..|FlattenStages(stages)| - 1] == FlattenDirs(s.dirs);
    } else {
      PipeScanned(before, s);
      var middle := FlattenStage(s) + [Pipe];
      StagesScanned(before + middle, stages[1..]);
      ReadsOn(before, StageTokens(s) + ["|"], AtBegin(before + middle, map[]), middle,
              StagesTokens(stages[1..]), FlattenStages(stages[1..]));
    }
  }

  lemma {:induction false} TreeScanned(before: seq<Node>, t: Tree)
    requires WellFormed(t) && SpellableTree(t)
    ensures ReadsAs(before, Unparse(t), Flatten(t))
    decreases t
  {
    StagesScanned(before, t.stages);
    if t.Joined? {
      var tokens, nodes := StagesTokens(t.stages), FlattenStages(t.stages);
      OperatorScanned(before, tokens, nodes, t.op);
      var middle := nodes + [OpNode(t.op)];
      TreeScanned(before + middle, t.rest);
      ReadsOn(before, tokens + [if t.op == AndThen then "&&" else "||"], AtBegin(before + middle, map[]), middle,
              Unparse(t.rest), Flatten(t.rest));
    }
  }

  lemma ReadsToTheEnd(tokens: seq<string>, nodes: seq<Node>)
    requires ReadsAs([], tokens, nodes)
    ensures ParseTokens(tokens) == Go(Parser(COMMAND, None, nodes, map[]))
  {
    assert [] + nodes[..|nodes| - 1] + [nodes[|nodes| - 1]] == nodes;
  }

  /** Parsing what a tree is written as gives the tree's own nodes. */
  lemma ParseUnparse(t: Tree)
    requires WellFormed(t) && SpellableTree(t)
    ensures ParseTokens(Unparse(t)) == Go(Parser(COMMAND, None, Flatten(t), map[]))
  {
    TreeScanned([], t);
    ReadsToTheEnd(Unparse(t), Flatten(t));
  }
}
