/** Words and redirections of a command in any order: what parse makes of them, and when it fails. */
module ShellRedirects {
  import opened Options
  import opened Sequences
  import opened ShellNodes
  import opened ShellParse
  import opened ShellUnparse
  import opened ShellLines

  /** What may follow the name of a command. */
  datatype Piece =
    | Argument(word: string)
    | Input(file: string)
    | Output(file: string)
    | Errors(file: string)
    | ErrorsToOutput

  function PieceTokens(p: Piece): seq<string> {
    match p
    case Argument(word) => [word]
    case Input(f) => ["<", f]
    case Output(f) => [">", f]
    case Errors(f) => ["2>", f]
    case ErrorsToOutput => ["2>&1"]
  }

  function AllTokens(ps: seq<Piece>): seq<string> {
    if ps == [] then [] else AllTokens(ps[..|ps| - 1]) + PieceTokens(ps[|ps| - 1])
  }

  /** The words in their order. */
  function Arguments(ps: seq<Piece>): seq<string> {
    if ps == [] then []
    else Arguments(ps[..|ps| - 1]) + if ps[|ps| - 1].Argument? then [ps[|ps| - 1].word] else []
  }

  predicate ToErrors(p: Piece) {
    p.Errors? || p.ErrorsToOutput?
  }

  /** The two pieces are for the same stream. */
  predicate Collide(p: Piece, q: Piece) {
    (p.Input? && q.Input?) || (p.Output? && q.Output?) || (ToErrors(p) && ToErrors(q))
  }

  /** No stream is redirected twice. */
  predicate Separate(ps: seq<Piece>) {
    forall i, j :: 0 <= i < j < |ps| ==> !Collide(ps[i], ps[j])
  }

  ghost predicate InputAs(ps: seq<Piece>, stdin: Option<string>) {
    forall f :: stdin == Some(f) <==> Input(f) in ps
  }

  ghost predicate OutputAs(ps: seq<Piece>, stdout: Stdout) {
    stdout != OutPipe && forall f :: stdout == OutFile(f) <==> Output(f) in ps
  }

  ghost predicate ErrorsAs(ps: seq<Piece>, stderr: Stderr) {
    (stderr == ErrStdout <==> ErrorsToOutput in ps) && forall f :: stderr == ErrFile(f) <==> Errors(f) in ps
  }

  /** The command has what the pieces say, and nothing else. */
  ghost predicate Describes(ps: seq<Piece>, name: string, c: Command) {
    && c.argv == [name] + Arguments(ps) && c.env == map[]
    && InputAs(ps, c.stdin) && OutputAs(ps, c.stdout) && ErrorsAs(ps, c.stderr)
  }

  lemma MoreTokens(ps: seq<Piece>, p: Piece)
    ensures AllTokens(ps + [p]) == AllTokens(ps) + PieceTokens(p)
    ensures Arguments(ps + [p]) == Arguments(ps) + if p.Argument? then [p.word] else []
  {
    assert (ps + [p])[..|ps|] == ps;
  }

  /** What one more piece makes of the command. */
  function With(c: Command, p: Piece): Command {
    match p
    case Argument(word) => c.(argv := c.argv + [word])
    case Input(f) => c.(stdin := Some(f))
    case Output(f) => c.(stdout := OutFile(f))
    case Errors(f) => c.(stderr := ErrFile(f))
    case ErrorsToOutput => c.(stderr := ErrStdout)
  }

  /** The stream of the piece is still free. */
  predicate Free(c: Command, p: Piece) {
    (p.Input? ==> c.stdin == None) && (p.Output? ==> c.stdout == OutInherit) && (ToErrors(p) ==> c.stderr == ErrInherit)
  }

  lemma PieceScanned(c: Command, p: Piece)
    requires c.stdout != OutPipe && (p.Argument? ==> !Operator(p.word)) && Free(c, p)
    ensures Leads(AtCommand([], c), PieceTokens(p), AtCommand([], With(c, p)))
  {
    var at := AtCommand([], c);
    match p
    case Argument(word) => LeadsByOne(at, word);
    case Input(f) => ScanTwo(at, "<", f);
    case Output(f) => ScanTwo(at, ">", f);
    case Errors(f) => ScanTwo(at, "2>", f);
    case ErrorsToOutput => LeadsByOne(at, "2>&1");
  }

  lemma {:induction false} ScanFails(p: Parser, s: seq<string>, t: seq<string>)
    requires Consistent(p) && Scan(p, s).AssertionError?
    ensures Scan(p, s + t) == Scan(p, s)
    decreases s
  {
    assert (s + t)[0] == s[0] && (s + t)[1..] == s[1..] + t;
    if Next(p, s[0]).Go? {
      NextConsistent(p, s[0]);
      ScanFails(Next(p, s[0]).p, s[1..], t);
    }
  }

  lemma PieceFails(c: Command, p: Piece)
    requires c.stdout != OutPipe && !Free(c, p)
    ensures Scan(AtCommand([], c), PieceTokens(p)).AssertionError?
  {
    var at := AtCommand([], c);
    if p.ErrorsToOutput? {
      assert PieceTokens(p)[1..] == [];
    } else {
      var op := PieceTokens(p)[0];
      ScanFirst(at, op, [p.file]);
      assert PieceTokens(p) == [op] + [p.file];
    }
  }

  lemma OneMorePiece(ps: seq<Piece>, p: Piece, q: Piece)
    ensures q in ps + [p] <==> q in ps || q == p
  {
  }

  lemma InputWith(ps: seq<Piece>, c: Command, p: Piece)
    requires InputAs(ps, c.stdin) && Free(c, p)
    ensures InputAs(ps + [p], With(c, p).stdin)
  {
    forall f: string
      ensures With(c, p).stdin == Some(f) <==> Input(f) in ps + [p]
    {
      OneMorePiece(ps, p, Input(f));
    }
  }

  lemma OutputWith(ps: seq<Piece>, c: Command, p: Piece)
    requires OutputAs(ps, c.stdout) && Free(c, p)
    ensures OutputAs(ps + [p], With(c, p).stdout)
  {
    forall f: string
      ensures With(c, p).stdout == OutFile(f) <==> Output(f) in ps + [p]
    {
      OneMorePiece(ps, p, Output(f));
    }
  }

  lemma ErrorsWith(ps: seq<Piece>, c: Command, p: Piece)
    requires ErrorsAs(ps, c.stderr) && Free(c, p)
    ensures ErrorsAs(ps + [p], With(c, p).stderr)
  {
    OneMorePiece(ps, p, ErrorsToOutput);
    forall f: string
      ensures With(c, p).stderr == ErrFile(f) <==> Errors(f) in ps + [p]
    {
      OneMorePiece(ps, p, Errors(f));
    }
  }

  lemma WithDescribes(ps: seq<Piece>, name: string, c: Command, p: Piece)
    requires Describes(ps, name, c) && Free(c, p)
    ensures Describes(ps + [p], name, With(c, p))
  {
    MoreTokens(ps, p);
    InputWith(ps, c, p);
    OutputWith(ps, c, p);
    ErrorsWith(ps, c, p);
  }

  lemma FreeIffSeparate(ps: seq<Piece>, name: string, c: Command, p: Piece)
    requires Describes(ps, name, c) && Separate(ps)
    ensures Free(c, p) <==> Separate(ps + [p])
  {
    var all := ps + [p];
    if Separate(all) && !Free(c, p) {
      var q := if p.Input? then Input(c.stdin.value) else if p.Output? then Output(c.stdout.name)
               else if c.stderr == ErrStdout then ErrorsToOutput else Errors(c.stderr.name);
      assert q in ps;
      var i :| 0 <= i < |ps| && ps[i] == q;
      assert Collide(all[i], all[|ps|]);
    }
    if Free(c, p) {
      forall i, j | 0 <= i < j < |all|
        ensures !Collide(all[i], all[j])
      {
        if j == |ps| {
          assert all[i] in ps;
        }
      }
    }
  }

  /** The command after its name and some pieces, which is as they say. */
  lemma {:induction false} PiecesScanned(name: string, ps: seq<Piece>) returns (c: Command)
    requires Separate(ps) && forall i :: 0 <= i < |ps| ==> ps[i].Argument? ==> !Operator(ps[i].word)
    ensures Describes(ps, name, c) && Leads(AtCommand([], OneWord(name, None, OutInherit)), AllTokens(ps), AtCommand([], c))
  {
    var start := OneWord(name, None, OutInherit);
    if ps == [] {
      c := start;
    } else {
      var init, p := ps[..|ps| - 1], ps[|ps| - 1];
      assert init + [p] == ps;
      var c0 := PiecesScanned(name, init);
      FreeIffSeparate(init, name, c0, p);
      PieceScanned(c0, p);
      WithDescribes(init, name, c0, p);
      c := With(c0, p);
      LeadsTwice(AtCommand([], start), AllTokens(init), AtCommand([], c0), PieceTokens(p), AtCommand([], c));
    }
  }

  /** The shortest beginning in which some stream is redirected twice. */
  lemma {:induction false} FirstCollision(ps: seq<Piece>) returns (n: nat)
    requires !Separate(ps)
    ensures n < |ps| && Separate(ps[..n]) && !Separate(ps[..n + 1])
  {
    var init := ps[..|ps| - 1];
    if Separate(init) {
      n := |ps| - 1;
      assert ps[..n + 1] == ps;
    } else {
      n := FirstCollision(init);
      assert init[..n] == ps[..n] && init[..n + 1] == ps[..n + 1];
    }
  }

  lemma {:induction false} TokensUpTo(ps: seq<Piece>, n: nat) returns (rest: seq<string>)
    requires n < |ps|
    ensures AllTokens(ps) == AllTokens(ps[..n]) + PieceTokens(ps[n]) + rest
  {
    if n == |ps| - 1 {
      rest := [];
    } else {
      var init := ps[..|ps| - 1];
      var before := TokensUpTo(init, n);
      assert init[..n] == ps[..n];
      rest := before + PieceTokens(ps[|ps| - 1]);
      Regroup(AllTokens(ps[..n]) + PieceTokens(ps[n]), before, PieceTokens(ps[|ps| - 1]));
    }
  }

  lemma CollisionFails(name: string, ps: seq<Piece>)
    requires !Separate(ps) && forall i :: 0 <= i < |ps| ==> ps[i].Argument? ==> !Operator(ps[i].word)
    ensures Scan(AtCommand([], OneWord(name, None, OutInherit)), AllTokens(ps)).AssertionError?
  {
    var start := AtCommand([], OneWord(name, None, OutInherit));
    var n := FirstCollision(ps);
    var c := PiecesScanned(name, ps[..n]);
    assert ps[..n + 1] == ps[..n] + [ps[n]];
    FreeIffSeparate(ps[..n], name, c, ps[n]);
    PieceFails(c, ps[n]);
    var rest := TokensUpTo(ps, n);
    ScanConcat(start, AllTokens(ps[..n]), PieceTokens(ps[n]));
    ScanFails(start, AllTokens(ps[..n]) + PieceTokens(ps[n]), rest);
  }

  lemma NameThenScanned(name: string, tokens: seq<string>)
    requires Word(name)
    ensures Scan(START, [name] + tokens) == Scan(AtCommand([], OneWord(name, None, OutInherit)), tokens)
  {
    ScanFirst(START, name, tokens);
  }

  /** A name, and words and redirections in any order: parse fails exactly when a stream is redirected twice, and
      otherwise gives one command that has the words in their order and the redirections, wherever they stand. */
  lemma PiecesParsed(name: string, ps: seq<Piece>)
    requires Word(name) && forall i :: 0 <= i < |ps| ==> ps[i].Argument? ==> !Operator(ps[i].word)
    ensures var tokens := [name] + AllTokens(ps);
            && (ParseTokens(tokens).Go? <==> Separate(ps))
            && (Separate(ps) ==> |Nodes(tokens)| == 1 && Nodes(tokens)[0].Cmd? && Describes(ps, name, Nodes(tokens)[0].cmd))
  {
    NameThenScanned(name, AllTokens(ps));
    if Separate(ps) {
      var c := PiecesScanned(name, ps);
      assert Nodes([name] + AllTokens(ps)) == [Cmd(c)];
    } else {
      CollisionFails(name, ps);
    }
  }

  // ----- Lines written out -------------------------------------------------------------------------------

  /** The tokens  a 2> e x > o < i . */
  lemma AnyOrder(a: string, e: string, x: string, o: string, i: string)
    requires Word(a) && !Operator(x)
    ensures var tokens := [a, "2>", e, x, ">", o, "<", i];
            && ParseTokens(tokens).Go?
            && Nodes(tokens) == [Cmd(Command([a, x], Some(i), OutFile(o), ErrFile(e), map[]))]
  {
    var ps := [Errors(e), Argument(x), Output(o), Input(i)];
    FourPieces(e, x, o, i);
    PiecesParsed(a, ps);
    assert [a] + AllTokens(ps) == [a, "2>", e, x, ">", o, "<", i];
    AllFour(a, e, x, o, i, Nodes([a, "2>", e, x, ">", o, "<", i])[0].cmd);
  }

  lemma AllFour(a: string, e: string, x: string, o: string, i: string, c: Command)
    requires Describes([Errors(e), Argument(x), Output(o), Input(i)], a, c)
    ensures c == Command([a, x], Some(i), OutFile(o), ErrFile(e), map[])
  {
    var ps := [Errors(e), Argument(x), Output(o), Input(i)];
    FourPieces(e, x, o, i);
    assert ps[0] in ps && ps[2] in ps && ps[3] in ps;
    assert Errors(e) in ps && Output(o) in ps && Input(i) in ps;
    assert c.stdin == Some(i) && c.stdout == OutFile(o) && c.stderr == ErrFile(e);
  }

  lemma AddPiece(ps: seq<Piece>, p: Piece, tokens: seq<string>, words: seq<string>)
    requires AllTokens(ps) == tokens && Arguments(ps) == words
    ensures AllTokens(ps + [p]) == tokens + PieceTokens(p)
    ensures Arguments(ps + [p]) == words + if p.Argument? then [p.word] else []
  {
    MoreTokens(ps, p);
  }

  lemma TwoPieces(e: string, x: string)
    ensures var ps := [Errors(e), Argument(x)];
            AllTokens(ps) == ["2>", e, x] && Arguments(ps) == [x]
  {
    AddPiece([], Errors(e), [], []);
    assert [] + [Errors(e)] == [Errors(e)];
    AddPiece([Errors(e)], Argument(x), ["2>", e], []);
    assert [Errors(e)] + [Argument(x)] == [Errors(e), Argument(x)];
  }

  lemma ThreePieces(e: string, x: string, o: string)
    ensures var ps := [Errors(e), Argument(x), Output(o)];
            AllTokens(ps) == ["2>", e, x, ">", o] && Arguments(ps) == [x]
  {
    TwoPieces(e, x);
    AddPiece([Errors(e), Argument(x)], Output(o), ["2>", e, x], [x]);
    assert [Errors(e), Argument(x)] + [Output(o)] == [Errors(e), Argument(x), Output(o)];
  }

  lemma FourPieces(e: string, x: string, o: string, i: string)
    ensures var ps := [Errors(e), Argument(x), Output(o), Input(i)];
            AllTokens(ps) == ["2>", e, x, ">", o, "<", i] && Arguments(ps) == [x]
  {
    ThreePieces(e, x, o);
    AddPiece([Errors(e), Argument(x), Output(o)], Input(i), ["2>", e, x, ">", o], [x]);
    assert [Errors(e), Argument(x), Output(o)] + [Input(i)] == [Errors(e), Argument(x), Output(o), Input(i)];
  }

  /** A redirection without a file at the end of the line goes unnoticed. */
  lemma TrailingRedirection(a: string, op: string)
    requires Word(a) && op in {">", "<", "2>"}
    ensures ParseTokens([a, op]).Go? && Nodes([a, op]) == [Simple(a, OutInherit)]
  {
    NameThenScanned(a, [op]);
    assert [a] + [op] == [a, op];
    ScanOne(AtCommand([], OneWord(a, None, OutInherit)), op);
  }
}
