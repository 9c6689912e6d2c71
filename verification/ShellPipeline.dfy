/** The Pipeline object of shellcmd.py: parse fills its node list, run walks it. */
module ShellPipeline {
  import opened Options
  import opened ShellNodes
  import opened ShellParse
  import opened ShellRun
  import opened ShellStarts

  class Pipeline {
    var currentCommand: Option<Node>
    var pipeline: seq<Node>

    constructor ()
      ensures currentCommand == None && pipeline == []
    {
      currentCommand, pipeline := None, [];
    }

    /** False stands for the failed assertion that there is a node to commit. */
    method CommitCommand() returns (ok: bool)
      modifies this
      ensures ok == old(currentCommand.Some?)
      ensures currentCommand == None
      ensures pipeline == if ok then old(pipeline) + [old(currentCommand).value] else old(pipeline)
    {
      ok := currentCommand.Some?;
      if ok {
        pipeline := pipeline + [currentCommand.value];
        currentCommand := None;
      }
    }

    method CommitWith(op: Node)
      requires currentCommand.Some?
      modifies this
      ensures currentCommand == None && pipeline == old(pipeline) + [old(currentCommand).value, op]
    {
      var _ := CommitCommand();
      pipeline := pipeline + [op];
    }

    /** False stands for an AssertionError. */
    method Parse(command: seq<string>) returns (ok: bool)
      modifies this
      ensures ok <==> ParseTokens(command).Go?
      ensures currentCommand == ParseTokens(command).p.current
      ensures pipeline == ParseTokens(command).p.pipeline
      ensures ok ==> Grammatical(pipeline)
    {
      currentCommand, pipeline := None, [];
      var tokens := command;
      var state := BEGIN;
      var env: map<string, string> := map[];
      while tokens != []
        invariant Consistent(Parser(state, currentCommand, pipeline, env))
        invariant Scan(START, command) == Scan(Parser(state, currentCommand, pipeline, env), tokens)
        decreases tokens
      {
        ghost var p := Parser(state, currentCommand, pipeline, env);
        ghost var rest := tokens;
        var token := tokens[0];
        tokens := tokens[1..];
        state, env, ok := Feed(state, env, token);
        if !ok {
          return;
        }
        NextConsistent(p, token);
      }
      ok := CommitCommand();
      if ok {
        ParsedIsGrammatical(command);
      }
    }

    /** One turn of the loop in parse. */
    method Feed(state: Mode, env: map<string, string>, token: string)
      returns (state': Mode, env': map<string, string>, ok: bool)
      requires Consistent(Parser(state, currentCommand, pipeline, env))
      modifies this
      ensures var step := Next(old(Parser(state, currentCommand, pipeline, env)), token);
              ok == step.Go? && step.p == Parser(state', currentCommand, pipeline, env')
    {
      state', env', ok := state, env, true;
      match state {
        case BEGIN =>
          var setting := EnvSetting(token);
          if setting.Some? {
            env' := env[setting.value.0 := setting.value.1];
          } else if token == "cd" {
            currentCommand := Some(Chdir(None));
            if env != map[] {
              ok := false;
              return;
            }
            state' := CHDIR;
          } else {
            currentCommand := Some(NewCommand(token, env));
            env' := map[];
            state' := COMMAND;
          }
        case COMMAND =>
          var c := currentCommand.value.cmd;
          if token == ">" {
            state' := STDOUT;
          } else if token == "2>" {
            state' := STDERR;
          } else if token == "2>&1" {
            if c.stderr != ErrInherit {
              ok := false;
              return;
            }
            currentCommand := Some(Cmd(c.(stderr := ErrStdout)));
          } else if token == "<" {
            state' := STDIN;
          } else if token == "|" {
            if c.stdout != OutInherit {
              ok := false;
              return;
            }
            currentCommand := Some(Cmd(c.(stdout := OutPipe)));
            CommitWith(Pipe);
            state' := BEGIN;
          } else if token == "&&" {
            CommitWith(And);
            state' := BEGIN;
          } else if token == "||" {
            CommitWith(Or);
            state' := BEGIN;
          } else {
            currentCommand := Some(Cmd(c.(argv := c.argv + [token])));
          }
        case CHDIR =>
          if token == "&&" {
            CommitWith(And);
            state' := BEGIN;
          } else if currentCommand.value.dir.Some? {
            ok := false;
          } else {
            currentCommand := Some(Chdir(Some(token)));
          }
        case STDOUT =>
          var c := currentCommand.value.cmd;
          if c.stdout != OutInherit {
            ok := false;
            return;
          }
          currentCommand := Some(Cmd(c.(stdout := OutFile(token))));
          state' := COMMAND;
        case STDERR =>
          var c := currentCommand.value.cmd;
          if c.stderr != ErrInherit {
            ok := false;
            return;
          }
          currentCommand := Some(Cmd(c.(stderr := ErrFile(token))));
          state' := COMMAND;
        case STDIN =>
          var c := currentCommand.value.cmd;
          if c.stdin != None {
            ok := false;
            return;
          }
          currentCommand := Some(Cmd(c.(stdin := Some(token))));
          state' := COMMAND;
      }
    }

    /** Run the pipeline; the object itself is only read. A complete line is run as it is written. */
    method Run(exits: Exits) returns (m: Machine, outcome: Outcome)
      ensures (m, outcome) == RunFrom(pipeline, ENTRY, exits)
      ensures Grammatical(pipeline) && Complete(pipeline) ==> RanAs(Places(pipeline, [], false), (m, outcome), exits)
    {
      m, outcome := RunLoop(exits);
      if Grammatical(pipeline) && Complete(pipeline) {
        RunsAsWritten(pipeline, exits);
      }
    }

    /** The loop over a copy of the node list. */
    method RunLoop(exits: Exits) returns (m: Machine, outcome: Outcome)
      ensures (m, outcome) == RunFrom(pipeline, ENTRY, exits)
    {
      var nodes := pipeline;
      var l := ENTRY;
      while nodes != []
        invariant RunFrom(pipeline, ENTRY, exits) == RunFrom(nodes, l, exits)
        decreases |nodes|
      {
        var node := nodes[0];
        nodes := nodes[1..];
        if node.Chdir? {
          if nodes == [] {
            return l.m, Raised(IndexError);
          }
          var nextOp := nodes[0];
          nodes := nodes[1..];
          if nextOp != And {
            return l.m, Raised(Error.AssertionError);
          }
          if node.dir == None {
            return l.m, Raised(TypeError);
          }
          l := l.(cwd := JoinPath(l.cwd, node.dir.value));
          continue;
        }
        if !node.Cmd? {
          return l.m, Raised(Error.AssertionError);
        }
        if l.inPipe && l.piped == [] {
          return l.m, Raised(IndexError);
        }
        l := Started(l, node.cmd);
        if nodes == [] {
          var waited, retval := ExecPipedCommands(l.m, l.piped, exits);
          m := CloseFiles(waited, l.toClose);
          return m, Exit(retval);
        }
        var nextNode := nodes[0];
        nodes := nodes[1..];
        if nextNode == Pipe {
          l := l.(inPipe := true);
        } else if nextNode == Or {
          var waited, thisRetval := ExecPipedCommands(l.m, l.piped, exits);
          var closed := CloseFiles(waited, l.toClose);
          if thisRetval == 0 {
            return closed, Exit(thisRetval);
          }
          l := Loop(closed, false, l.cwd, [], []);
        } else if nextNode == And {
          var waited, thisRetval := ExecPipedCommands(l.m, l.piped, exits);
          var closed := CloseFiles(waited, l.toClose);
          if thisRetval != 0 {
            return closed, Exit(thisRetval);
          }
          l := Loop(closed, false, l.cwd, [], []);
        }
      }
      return l.m, NoStatus;
    }
  }

  method CloseFiles(m: Machine, handles: seq<Handle>) returns (m': Machine)
    ensures m' == CloseAll(m, handles)
  {
    m' := m;
    for i := 0 to |handles|
      invariant CloseAll(m, handles) == CloseAll(m', handles[i..])
    {
      assert handles[i..][0] == handles[i] && handles[i..][1..] == handles[i + 1..];
      if handles[i] != DevNull {
        m' := m'.(trace := m'.trace + [Close(handles[i])]);
      }
    }
  }
}
