/** The node list that shellcmd.py parses a command line into. */
module ShellNodes {
  import opened Options
  import opened Sequences

  datatype Stdout = OutInherit | OutPipe | OutFile(name: string)

  datatype Stderr = ErrInherit | ErrStdout | ErrFile(name: string)

  datatype Command = Command(
    argv: seq<string>,
    stdin: Option<string>,
    stdout: Stdout,
    stderr: Stderr,
    env: map<string, string>
  )

  datatype Node = Cmd(cmd: Command) | Chdir(dir: Option<string>) | Pipe | And | Or

  predicate IsOp(n: Node) {
    n.Pipe? || n.And? || n.Or?
  }

  // ----- The shape of a parsed line ------------------------------------------------------

  /** What may follow node n. A command is piped exactly when a pipe follows it. */
  predicate MayFollow(n: Node, next: Option<Node>) {
    match n
    case Cmd(c) => (next.Some? ==> IsOp(next.value)) && (c.stdout == OutPipe <==> next == Some(Pipe))
    case Chdir(_) => next.Some? ==> next.value == And
    case _ => next.Some? && !IsOp(next.value)
  }

  function NextOf(nodes: seq<Node>, i: nat): Option<Node>
    requires i < |nodes|
  {
    if i + 1 < |nodes| then Some(nodes[i + 1]) else None
  }

  /** node (op node)*, with the side conditions of MayFollow. */
  predicate Grammatical(nodes: seq<Node>) {
    && nodes != [] && !IsOp(nodes[0])
    && forall i {:trigger NextOf(nodes, i)} :: 0 <= i < |nodes| ==> MayFollow(nodes[i], NextOf(nodes, i))
  }

  // ----- The tree that the flat list stands for ------------------------------------------

  /** A command, run after changing into some directories. */
  datatype Stage = Stage(dirs: seq<string>, cmd: Command)

  datatype Connective = AndThen | OrElse

  /** Pipelines joined by connectives, nested to the right. */
  datatype Tree = Single(stages: seq<Stage>) | Joined(stages: seq<Stage>, op: Connective, rest: Tree)

  function FlattenDirs(dirs: seq<string>): seq<Node> {
    if dirs == [] then [] else [Chdir(Some(dirs[0])), And] + FlattenDirs(dirs[1..])
  }

  function FlattenStage(s: Stage): seq<Node> {
    FlattenDirs(s.dirs) + [Cmd(s.cmd)]
  }

  function FlattenStages(stages: seq<Stage>): seq<Node> {
    if stages == [] then []
    else if |stages| == 1 then FlattenStage(stages[0])
    else FlattenStage(stages[0]) + [Pipe] + FlattenStages(stages[1..])
  }

  function OpNode(op: Connective): Node {
    if op == AndThen then And else Or
  }

  function Flatten(t: Tree): seq<Node> {
    match t
    case Single(stages) => FlattenStages(stages)
    case Joined(stages, op, rest) => FlattenStages(stages) + [OpNode(op)] + Flatten(rest)
  }

  /** Exactly the stages before the last one write into a pipe. */
  predicate WellPiped(stages: seq<Stage>) {
    && stages != []
    && forall i :: 0 <= i < |stages| ==> (stages[i].cmd.stdout == OutPipe <==> i < |stages| - 1)
  }

  predicate WellFormed(t: Tree) {
    WellPiped(t.stages) && (t.Joined? ==> WellFormed(t.rest))
  }

  /** No directory is missing and the line does not end in a cd. */
  predicate Complete(nodes: seq<Node>) {
    && nodes != [] && nodes[|nodes| - 1].Cmd?
    && forall i :: 0 <= i < |nodes| && nodes[i].Chdir? ==> nodes[i].dir.Some?
  }

  // ----- From the flat list to the tree ------------------------------------------------

  function PrependDir(d: string, t: Tree): Tree
    requires t.stages != []
  {
    var s := t.stages[0];
    t.(stages := [s.(dirs := [d] + s.dirs)] + t.stages[1..])
  }

  function PrependStage(s: Stage, t: Tree): Tree {
    t.(stages := [s] + t.stages)
  }

  lemma FlattenStagesMore(s: Stage, stages: seq<Stage>)
    ensures FlattenStages([s] + stages)
         == if stages == [] then FlattenStage(s) else FlattenStage(s) + [Pipe] + FlattenStages(stages)
  {
    assert ([s] + stages)[1..] == stages;
  }

  lemma FlattenStagePrepended(d: string, s: Stage)
    ensures FlattenStage(s.(dirs := [d] + s.dirs)) == [Chdir(Some(d)), And] + FlattenStage(s)
  {
    assert ([d] + s.dirs)[1..] == s.dirs;
  }

  lemma FlattenStagesPrepended(d: string, s: Stage, stages: seq<Stage>)
    ensures FlattenStages([s.(dirs := [d] + s.dirs)] + stages) == [Chdir(Some(d)), And] + FlattenStages([s] + stages)
  {
    FlattenStagesMore(s, stages);
    FlattenStagesMore(s.(dirs := [d] + s.dirs), stages);
    FlattenStagePrepended(d, s);
    if stages != [] {
      Regroup([Chdir(Some(d)), And], FlattenStage(s), [Pipe]);
      Regroup([Chdir(Some(d)), And], FlattenStage(s) + [Pipe], FlattenStages(stages));
    }
  }

  lemma FlattenPrependDir(d: string, t: Tree)
    requires t.stages != []
    ensures Flatten(PrependDir(d, t)) == [Chdir(Some(d)), And] + Flatten(t)
  {
    FlattenStagesPrepended(d, t.stages[0], t.stages[1..]);
    assert [t.stages[0]] + t.stages[1..] == t.stages;
    if t.Joined? {
      Regroup([Chdir(Some(d)), And], FlattenStages(t.stages), [OpNode(t.op)]);
      Regroup([Chdir(Some(d)), And], FlattenStages(t.stages) + [OpNode(t.op)], Flatten(t.rest));
    }
  }

  lemma FlattenPrependStage(s: Stage, t: Tree)
    requires t.stages != []
    ensures Flatten(PrependStage(s, t)) == FlattenStage(s) + [Pipe] + Flatten(t)
  {
    assert ([s] + t.stages)[1..] == t.stages;
    assert FlattenStages([s] + t.stages) == FlattenStage(s) + [Pipe] + FlattenStages(t.stages);
  }

  lemma GrammaticalTail(nodes: seq<Node>)
    requires Grammatical(nodes) && |nodes| > 1
    ensures |nodes| > 2 && IsOp(nodes[1]) && Grammatical(nodes[2..])
    ensures Complete(nodes) ==> Complete(nodes[2..])
  {
    assert MayFollow(nodes[0], NextOf(nodes, 0));
    assert MayFollow(nodes[1], NextOf(nodes, 1));
    var tail := nodes[2..];
    forall i | 0 <= i < |tail|
      ensures MayFollow(tail[i], NextOf(tail, i))
    {
      var k := i + 2;
      assert MayFollow(nodes[k], NextOf(nodes, k));
    }
  }

  lemma AddDir(nodes: seq<Node>, rest: Tree)
    requires |nodes| > 2 && nodes[0].Chdir? && nodes[0].dir.Some? && nodes[1].And?
    requires WellFormed(rest) && Flatten(rest) == nodes[2..]
    ensures WellFormed(PrependDir(nodes[0].dir.value, rest))
    ensures Flatten(PrependDir(nodes[0].dir.value, rest)) == nodes
  {
    FlattenPrependDir(nodes[0].dir.value, rest);
  }

  lemma AddStage(nodes: seq<Node>, rest: Tree)
    requires |nodes| > 2 && nodes[0].Cmd? && nodes[0].cmd.stdout == OutPipe && nodes[1].Pipe?
    requires WellFormed(rest) && Flatten(rest) == nodes[2..]
    ensures WellFormed(PrependStage(Stage([], nodes[0].cmd), rest))
    ensures Flatten(PrependStage(Stage([], nodes[0].cmd), rest)) == nodes
  {
    var s := Stage([], nodes[0].cmd);
    FlattenPrependStage(s, rest);
    assert FlattenStage(s) == [nodes[0]];
  }

  lemma AddConnective(nodes: seq<Node>, op: Connective, rest: Tree)
    requires |nodes| > 2 && nodes[0].Cmd? && nodes[0].cmd.stdout != OutPipe && nodes[1] == OpNode(op)
    requires WellFormed(rest) && Flatten(rest) == nodes[2..]
    ensures WellFormed(Joined([Stage([], nodes[0].cmd)], op, rest))
    ensures Flatten(Joined([Stage([], nodes[0].cmd)], op, rest)) == nodes
  {
    assert FlattenStage(Stage([], nodes[0].cmd)) == [nodes[0]];
  }

  /** A complete line that fits the grammar is a tree of well-piped pipelines. */
  lemma {:induction false} Unflatten(nodes: seq<Node>) returns (t: Tree)
    requires Grammatical(nodes) && Complete(nodes)
    ensures WellFormed(t) && Flatten(t) == nodes
    decreases |nodes|
  {
    assert MayFollow(nodes[0], NextOf(nodes, 0));
    if |nodes| == 1 {
      t := Single([Stage([], nodes[0].cmd)]);
    } else {
      GrammaticalTail(nodes);
      var rest := Unflatten(nodes[2..]);
      if nodes[0].Chdir? {
        t := PrependDir(nodes[0].dir.value, rest);
        AddDir(nodes, rest);
      } else if nodes[1].Pipe? {
        t := PrependStage(Stage([], nodes[0].cmd), rest);
        AddStage(nodes, rest);
      } else {
        var op := if nodes[1].And? then AndThen else OrElse;
        t := Joined([Stage([], nodes[0].cmd)], op, rest);
        AddConnective(nodes, op, rest);
      }
    }
  }
}
