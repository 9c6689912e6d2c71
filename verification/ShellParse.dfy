/** Pipeline.parse: a state machine over the tokens of a command line. */
module ShellParse {
  import opened Options
  import opened ShellNodes

  // ----- Tokens ---------------------------------------------------------------------------

  predicate WordChar(c: char) {
    'a' <= c <= 'z' || 'A' <= c <= 'Z' || '0' <= c <= '9' || c == '_'
  }

  /** White space as Python's \s sees it in a str. */
  predicate Space(c: char) {
    || '\t' <= c <= '\r' || '\U{1c}' <= c <= ' ' || c == '\U{85}' || c == '\U{a0}' || c == '\U{1680}'
    || '\U{2000}' <= c <= '\U{200a}' || c == '\U{2028}' || c == '\U{2029}' || c == '\U{202f}'
    || c == '\U{205f}' || c == '\U{3000}'
  }

  function KeyLength(token: string): (n: nat)
    ensures n <= |token|
    ensures forall i :: 0 <= i < n ==> WordChar(token[i])
    ensures n < |token| ==> !WordChar(token[n])
  {
    if token == [] || !WordChar(token[0]) then 0 else 1 + KeyLength(token[1..])
  }

  function WithoutNewline(s: string): string {
    if s != [] && s[|s| - 1] == '\n' then s[..|s| - 1] else s
  }

  predicate NoSpace(s: string) {
    forall i :: 0 <= i < |s| ==> !Space(s[i])
  }

  /** A value of non-space characters; one final newline may follow it. */
  function ValueOf(s: string): Option<string> {
    var v := WithoutNewline(s);
    if v != [] && NoSpace(v) then Some(v) else None
  }

  /** The environment setting key=value that a token spells, if it does. */
  function EnvSetting(token: string): Option<(string, string)> {
    var n := KeyLength(token);
    if 0 < n < |token| && token[n] == '=' && ValueOf(token[n + 1..]).Some?
    then Some((token[..n], ValueOf(token[n + 1..]).value)) else None
  }

  // ----- The state machine ------------------------------------------------------------------

  datatype Mode = BEGIN | COMMAND | CHDIR | STDERR | STDOUT | STDIN

  /** The locals of parse and the two fields it works on. */
  datatype Parser = Parser(mode: Mode, current: Option<Node>, pipeline: seq<Node>, env: map<string, string>)

  /** What one token does; a failed assertion leaves the fields as they are at that point. */
  datatype Step = Go(p: Parser) | AssertionError(p: Parser)

  function NewCommand(name: string, env: map<string, string>): Node {
    Cmd(Command([name], None, OutInherit, ErrInherit, env))
  }

  function Commit(p: Parser, op: Node): Parser
    requires p.current.Some?
  {
    p.(pipeline := p.pipeline + [p.current.value, op], current := None, mode := BEGIN)
  }

  function InBegin(p: Parser, token: string): Step {
    match EnvSetting(token)
    case Some((key, value)) => Go(p.(env := p.env[key := value]))
    case None =>
      if p.current.Some? then AssertionError(p)
      else if token == "cd" then
        var q := p.(current := Some(Chdir(None)));
        if p.env != map[] then AssertionError(q) else Go(q.(mode := CHDIR))
      else Go(p.(current := Some(NewCommand(token, p.env)), env := map[], mode := COMMAND))
  }

  function SetCommand(p: Parser, c: Command): Parser {
    p.(current := Some(Cmd(c)))
  }

  function InCommand(p: Parser, c: Command, token: string): Step
    requires p.current.Some?
  {
    if token == ">" then Go(p.(mode := STDOUT))
    else if token == "2>" then Go(p.(mode := STDERR))
    else if token == "2>&1" then
      if c.stderr != ErrInherit then AssertionError(p) else Go(SetCommand(p, c.(stderr := ErrStdout)))
    else if token == "<" then Go(p.(mode := STDIN))
    else if token == "|" then
      if c.stdout != OutInherit then AssertionError(p)
      else Go(Commit(SetCommand(p, c.(stdout := OutPipe)), Pipe))
    else if token == "&&" then Go(Commit(p, And))
    else if token == "||" then Go(Commit(p, Or))
    else Go(SetCommand(p, c.(argv := c.argv + [token])))
  }

  function InChdir(p: Parser, dir: Option<string>, token: string): Step
    requires p.current.Some?
  {
    if token == "&&" then Go(Commit(p, And))
    else if dir.Some? then AssertionError(p)
    else Go(p.(current := Some(Chdir(Some(token)))))
  }

  function InRedirect(p: Parser, c: Command, token: string): Step {
    match p.mode
    case STDOUT =>
      if c.stdout != OutInherit then AssertionError(p)
      else Go(SetCommand(p, c.(stdout := OutFile(token))).(mode := COMMAND))
    case STDERR =>
      if c.stderr != ErrInherit then AssertionError(p)
      else Go(SetCommand(p, c.(stderr := ErrFile(token))).(mode := COMMAND))
    case _ =>
      if c.stdin != None then AssertionError(p)
      else Go(SetCommand(p, c.(stdin := Some(token))).(mode := COMMAND))
  }

  /** The mode says which kind of node is being built. */
  predicate Consistent(p: Parser) {
    match p.mode
    case BEGIN => p.current == None
    case CHDIR => p.current.Some? && p.current.value.Chdir? && p.env == map[]
    case _ => p.current.Some? && p.current.value.Cmd? && p.current.value.cmd.stdout != OutPipe && p.env == map[]
  }

  function Next(p: Parser, token: string): Step
    requires Consistent(p)
  {
    match p.mode
    case BEGIN => InBegin(p, token)
    case COMMAND => InCommand(p, p.current.value.cmd, token)
    case CHDIR => InChdir(p, p.current.value.dir, token)
    case _ => InRedirect(p, p.current.value.cmd, token)
  }

  lemma NextConsistent(p: Parser, token: string)
    requires Consistent(p)
    ensures Next(p, token).Go? ==> Consistent(Next(p, token).p)
  {
  }

  const START := Parser(BEGIN, None, [], map[])

  /** All tokens, until one fails an assertion. */
  function Scan(p: Parser, tokens: seq<string>): (s: Step)
    requires Consistent(p)
    ensures s.Go? ==> Consistent(s.p)
    decreases tokens
  {
    if tokens == [] then Go(p)
    else
      NextConsistent(p, tokens[0]);
      match Next(p, tokens[0])
      case AssertionError(q) => AssertionError(q)
      case Go(q) => Scan(q, tokens[1..])
  }

  /** The final commit needs a node to commit. */
  function Finish(s: Step): Step {
    match s
    case AssertionError(p) => s
    case Go(p) =>
      if p.current == None then AssertionError(p)
      else Go(p.(pipeline := p.pipeline + [p.current.value], current := None))
  }

  function ParseTokens(tokens: seq<string>): Step {
    Finish(Scan(START, tokens))
  }

  // ----- Everything parse returns fits the grammar -------------------------------------------

  /** The nodes committed so far: empty, or ending in an operator that wants a node. */
  predicate Partial(nodes: seq<Node>) {
    && (nodes != [] ==> !IsOp(nodes[0]) && IsOp(nodes[|nodes| - 1]))
    && forall i :: 0 <= i < |nodes| - 1 ==> MayFollow(nodes[i], Some(nodes[i + 1]))
  }

  predicate Parsing(p: Parser) {
    Consistent(p) && Partial(p.pipeline)
  }

  lemma CommitPartial(p: Parser, op: Node)
    requires Partial(p.pipeline) && p.current.Some? && !IsOp(p.current.value)
    requires IsOp(op) && MayFollow(p.current.value, Some(op))
    ensures Partial(Commit(p, op).pipeline)
  {
    var nodes := Commit(p, op).pipeline;
    forall i | 0 <= i < |nodes| - 1
      ensures MayFollow(nodes[i], Some(nodes[i + 1]))
    {
      assert i < |p.pipeline| - 1 ==> nodes[i] == p.pipeline[i] && nodes[i + 1] == p.pipeline[i + 1];
    }
  }

  lemma NextParsing(p: Parser, token: string)
    requires Parsing(p) && Next(p, token).Go?
    ensures Parsing(Next(p, token).p)
  {
    if p.mode == COMMAND {
      var c := p.current.value.cmd;
      if token == "|" && c.stdout == OutInherit {
        CommitPartial(SetCommand(p, c.(stdout := OutPipe)), Pipe);
      } else if token == "&&" {
        CommitPartial(p, And);
      } else if token == "||" {
        CommitPartial(p, Or);
      }
    } else if p.mode == CHDIR && token == "&&" {
      CommitPartial(p, And);
    }
  }

  lemma {:induction false} ScanParsing(p: Parser, tokens: seq<string>)
    requires Parsing(p) && Scan(p, tokens).Go?
    ensures Parsing(Scan(p, tokens).p)
    decreases tokens
  {
    if tokens != [] {
      NextParsing(p, tokens[0]);
      ScanParsing(Next(p, tokens[0]).p, tokens[1..]);
    }
  }

  lemma ParsedIsGrammatical(tokens: seq<string>)
    requires ParseTokens(tokens).Go?
    ensures Grammatical(ParseTokens(tokens).p.pipeline)
  {
    ScanParsing(START, tokens);
    var p := Scan(START, tokens).p;
    var nodes := ParseTokens(tokens).p.pipeline;
    forall i | 0 <= i < |nodes|
      ensures MayFollow(nodes[i], NextOf(nodes, i))
    {
      if i < |p.pipeline| - 1 {
        assert MayFollow(p.pipeline[i], Some(p.pipeline[i + 1]));
      }
    }
  }

  /** A parsed line that is complete is a tree of pipelines, each piped through to its end. */
  lemma ParsedIsTree(tokens: seq<string>) returns (t: Tree)
    requires ParseTokens(tokens).Go? && Complete(ParseTokens(tokens).p.pipeline)
    ensures WellFormed(t) && Flatten(t) == ParseTokens(tokens).p.pipeline
  {
    ParsedIsGrammatical(tokens);
    t := Unflatten(ParseTokens(tokens).p.pipeline);
  }
}
