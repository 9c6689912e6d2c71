/** When run can fail on a parsed line, and when it cannot. */
module ShellSafety {
  import opened Options
  import opened ShellNodes
  import opened ShellRun
  import opened ShellMeaning

  /** On a line that fits the grammar, run returns a status or trips over a cd; it never fails
      an assertion about node types and never falls out of its loop. */
  lemma {:induction false} GrammaticalOutcome(nodes: seq<Node>, l: Loop, exits: Exits)
    requires Grammatical(nodes) && (l.inPipe ==> l.piped != [])
    ensures var o := RunFrom(nodes, l, exits).1;
            o.Exit? || o == Raised(IndexError) || o == Raised(TypeError)
    decreases |nodes|
  {
    assert MayFollow(nodes[0], NextOf(nodes, 0));
    if |nodes| > 1 {
      GrammaticalTail(nodes);
      match nodes[0]
      case Chdir(dir) =>
        if dir.Some? {
          GrammaticalOutcome(nodes[2..], l.(cwd := JoinPath(l.cwd, dir.value)), exits);
        }
      case Cmd(c) =>
        var l1 := Started(l, c);
        assert nodes[1..][0] == nodes[1] && nodes[1..][1..] == nodes[2..];
        GrammaticalOutcome(nodes[2..], if nodes[1] == Pipe then l1.(inPipe := true) else Restart(l1), exits);
    }
  }

  // ----- A schedule of statuses that reaches every node ----------------------------------------

  /** The status with which the k-th command lets the line go on. */
  function GoingOn(nodes: seq<Node>, k: nat): int
    decreases nodes
  {
    if nodes == [] then 0
    else if !nodes[0].Cmd? then GoingOn(nodes[1..], k)
    else if k > 0 then GoingOn(nodes[1..], k - 1)
    else if |nodes| > 1 && nodes[1] == Or then 1 else 0
  }

  ghost predicate GoesThrough(nodes: seq<Node>, first: nat, exits: Exits) {
    forall k: nat :: exits(first + k) == GoingOn(nodes, k)
  }

  lemma GoesThroughTail(nodes: seq<Node>, first: nat, exits: Exits)
    requires |nodes| > 1 && IsOp(nodes[1]) && !IsOp(nodes[0]) && GoesThrough(nodes, first, exits)
    ensures GoesThrough(nodes[2..], if nodes[0].Cmd? then first + 1 else first, exits)
  {
    var d := if nodes[0].Cmd? then 1 else 0;
    assert nodes[1..][0] == nodes[1] && nodes[1..][1..] == nodes[2..];
    forall k: nat
      ensures exits(first + d + k) == GoingOn(nodes[2..], k)
    {
      assert exits(first + (d + k)) == GoingOn(nodes, d + k);
      assert GoingOn(nodes, d + k) == GoingOn(nodes[1..], k) == GoingOn(nodes[2..], k);
    }
  }

  lemma IncompleteTail(nodes: seq<Node>)
    requires |nodes| > 2 && IsOp(nodes[1]) && !Complete(nodes)
    ensures !Complete(nodes[2..]) || (nodes[0].Chdir? && nodes[0].dir == None)
  {
    if Complete(nodes[2..]) && !(nodes[0].Chdir? && nodes[0].dir == None) {
      forall i | 0 <= i < |nodes| && nodes[i].Chdir?
        ensures nodes[i].dir.Some?
      {
        if i >= 2 {
          assert nodes[2..][i - 2] == nodes[i];
        }
      }
    }
  }

  /** A cd that is last, or without a directory, is where the run fails. */
  lemma BadDirFails(nodes: seq<Node>, l: Loop, exits: Exits)
    requires nodes != [] && nodes[0].Chdir? && (|nodes| == 1 || nodes[0].dir == None)
    ensures !RunFrom(nodes, l, exits).1.Exit?
  {
  }

  lemma DirGoesOn(nodes: seq<Node>, l: Loop, exits: Exits)
    requires |nodes| > 1 && nodes[0].Chdir? && nodes[0].dir.Some? && nodes[1] == And
    ensures RunFrom(nodes, l, exits) == RunFrom(nodes[2..], l.(cwd := JoinPath(l.cwd, nodes[0].dir.value)), exits)
  {
  }

  lemma {:induction false} IncompleteFails(nodes: seq<Node>, l: Loop, exits: Exits)
    requires Grammatical(nodes) && !Complete(nodes) && (l.inPipe ==> l.piped != [])
    requires GoesThrough(nodes, l.m.procs, exits)
    ensures !RunFrom(nodes, l, exits).1.Exit?
    decreases |nodes|
  {
    assert MayFollow(nodes[0], NextOf(nodes, 0));
    if nodes[0].Chdir? && (|nodes| == 1 || nodes[0].dir == None) {
      BadDirFails(nodes, l, exits);
    } else if |nodes| > 1 {
      GrammaticalTail(nodes);
      IncompleteTail(nodes);
      if nodes[0].Chdir? {
        GoesThroughTail(nodes, l.m.procs, exits);
        DirGoesOn(nodes, l, exits);
        IncompleteFails(nodes[2..], l.(cwd := JoinPath(l.cwd, nodes[0].dir.value)), exits);
      } else {
        CommandGoesOn(nodes, l, exits);
        IncompleteFails(nodes[2..], AfterOperator(nodes, l), exits);
      }
    }
  }

  /** The loop variables once the command and the operator after it are behind. */
  function AfterOperator(nodes: seq<Node>, l: Loop): Loop
    requires |nodes| > 1 && nodes[0].Cmd? && (l.inPipe ==> l.piped != [])
  {
    var l1 := Started(l, nodes[0].cmd);
    if nodes[1] == Pipe then l1.(inPipe := true) else Restart(l1)
  }

  /** The command's status lets the loop reach the node after the operator. */
  lemma CommandGoesOn(nodes: seq<Node>, l: Loop, exits: Exits)
    requires |nodes| > 1 && nodes[0].Cmd? && IsOp(nodes[1]) && (l.inPipe ==> l.piped != [])
    requires GoesThrough(nodes, l.m.procs, exits)
    ensures RunFrom(nodes, l, exits) == RunFrom(nodes[2..], AfterOperator(nodes, l), exits)
    ensures GoesThrough(nodes[2..], AfterOperator(nodes, l).m.procs, exits)
    ensures AfterOperator(nodes, l).inPipe ==> AfterOperator(nodes, l).piped != []
  {
    StartIsPiped(l, nodes[0].cmd);
    StartedMore(l, nodes[0].cmd);
    FinishedKeepsProcs(Started(l, nodes[0].cmd));
    GoesThroughTail(nodes, l.m.procs, exits);
    assert exits(l.m.procs + 0) == GoingOn(nodes, 0);
    assert nodes[1..][0] == nodes[1] && nodes[1..][1..] == nodes[2..];
  }

  /** For a line that fits the grammar: run returns a status, however its processes end, exactly
      when no cd is without a directory and none is the last thing on the line. */
  lemma AlwaysReturnsIffComplete(nodes: seq<Node>)
    requires Grammatical(nodes)
    ensures (forall exits :: RunFrom(nodes, ENTRY, exits).1.Exit?) <==> Complete(nodes)
  {
    if Complete(nodes) {
      var t := Unflatten(nodes);
      forall exits
        ensures RunFrom(nodes, ENTRY, exits).1.Exit?
      {
        RunIsMeaning(t, FRESH, ".", exits);
      }
    } else {
      var exits: Exits := (k: nat) => GoingOn(nodes, k);
      IncompleteFails(nodes, ENTRY, exits);
    }
  }
}
