/** The patch format written out: what a header looks like, and a whole patch as it is read. */
module PatchExamples {
  import opened Options
  import opened PatchText
  import opened PatchParse

  // ----- Numbers -------------------------------------------------------------------------------------

  lemma TenDigits()
    ensures [Digits(0), Digits(1), Digits(2), Digits(3), Digits(4)] == ["0", "1", "2", "3", "4"]
    ensures [Digits(5), Digits(6), Digits(7), Digits(8), Digits(9)] == ["5", "6", "7", "8", "9"]
  {
  }

  lemma OneHundredTwo()
    ensures Decimal(102) == "102" && Decimal(-7) == "-7" && Decimal(0) == "0"
  {
    assert Digits(1) == "1";
    assert Digits(10) == Digits(1) + "0";
    assert Digits(102) == Digits(10) + "2";
    assert Digits(7) == "7";
  }

  // ----- The header ------------------------------------------------------------------------------------

  function HeaderLine(p: int, a: int, q: int, b: int, rest: string): string {
    "@@ -" + Decimal(p) + "," + Decimal(a) + " +" + Decimal(q) + "," + Decimal(b) + rest
  }

  lemma LastField(text: string, number: int, rest: string)
    ensures Fields([text], [number], rest) == text + (Decimal(number) + rest)
  {
    assert [text][1..] == [] && [number][1..] == [];
  }

  lemma FourFields(p: int, a: int, q: int, b: int, rest: string)
    ensures Fields(FIELDS, [p, a, q, b], rest)
         == "@@ -" + (Decimal(p) + ("," + (Decimal(a) + (" +" + (Decimal(q) + ("," + (Decimal(b) + rest)))))))
  {
    var t1, n1 := [",", " +", ","], [a, q, b];
    var t2, n2 := [" +", ","], [q, b];
    assert FIELDS[1..] == t1 && [p, a, q, b][1..] == n1;
    assert t1[1..] == t2 && n1[1..] == n2;
    assert t2[1..] == [","] && n2[1..] == [b];
    LastField(",", b, rest);
    assert Fields(t2, n2, rest) == " +" + (Decimal(q) + Fields([","], [b], rest));
    assert Fields(t1, n1, rest) == "," + (Decimal(a) + Fields(t2, n2, rest));
  }

  lemma Associate(s: seq<string>)
    requires |s| == 9
    ensures s[0] + (s[1] + (s[2] + (s[3] + (s[4] + (s[5] + (s[6] + (s[7] + s[8])))))))
         == s[0] + s[1] + s[2] + s[3] + s[4] + s[5] + s[6] + s[7] + s[8]
  {
  }

  lemma FieldsAreHeader(p: int, a: int, q: int, b: int, rest: string)
    ensures Fields(FIELDS, [p, a, q, b], rest) == HeaderLine(p, a, q, b, rest)
  {
    FourFields(p, a, q, b, rest);
    Associate(["@@ -", Decimal(p), ",", Decimal(a), " +", Decimal(q), ",", Decimal(b), rest]);
  }

  /** How a chunk's header is written. */
  lemma HeaderWritten(c: Chunk)
    ensures Header(c) == "@@ -" + Decimal(c.srcPos) + "," + Decimal(CountMarked(BodyText(c), {'-', ' '}))
                         + " +" + Decimal(c.dstPos) + "," + Decimal(CountMarked(BodyText(c), {'+', ' '})) + " @@\n"
  {
    HeaderCountsTrue(c);
    FieldsAreHeader(c.srcPos, CountMarked(BodyText(c), {'-', ' '}), c.dstPos, CountMarked(BodyText(c), {'+', ' '}), " @@\n");
  }

  /** A line of this form is a header, whatever it says about the numbers of lines and whatever follows. */
  lemma HeaderLineRead(p: nat, a: nat, q: nat, b: nat, rest: string)
    ensures Classify(HeaderLine(p, a, q, b, " @@" + rest)) == ChunkStart(p, q)
  {
    var line := HeaderLine(p, a, q, b, " @@" + rest);
    FieldsAreHeader(p, a, q, b, " @@" + rest);
    FieldsRead(FIELDS, [p, a, q, b], " @@" + rest);
    HeaderStartsAt(p, a, q, b, " @@" + rest);
    AtSign(line);
  }

  lemma HeaderStartsAt(p: int, a: int, q: int, b: int, rest: string)
    ensures var line := HeaderLine(p, a, q, b, rest); line != [] && line[0] == '@'
  {
    FieldsAreHeader(p, a, q, b, rest);
    assert FIELDS[0][0] == '@';
  }

  // ----- A whole patch -----------------------------------------------------------------------------------

  lemma OneToken(line: string, token: Token)
    requires Classify(line) == token
    ensures Tokens([line]) == [token]
  {
  }

  lemma TokensConcat(a: seq<string>, b: seq<string>)
    ensures Tokens(a + b) == Tokens(a) + Tokens(b)
  {
  }

  lemma SrcToken(src: string)
    requires OneLiner(src)
    ensures Tokens(["--- " + src + "\n"]) == [SrcFile(src)]
  {
    FileLinesRead(src, src);
    OneToken("--- " + src + "\n", SrcFile(src));
  }

  lemma DstToken(dst: string)
    requires OneLiner(dst)
    ensures Tokens(["+++ " + dst + "\n"]) == [DstFile(dst)]
  {
    FileLinesRead(dst, dst);
    OneToken("+++ " + dst + "\n", DstFile(dst));
  }

  lemma RemovedToken(x: string)
    requires OneLiner(x) && !("-- " <= x)
    ensures Tokens(["-" + x + "\n"]) == [Body(Line(SRC, x))]
  {
    LineRead(Line(SRC, x));
    assert LineText(Line(SRC, x)) == "-" + x + "\n";
    OneToken("-" + x + "\n", Body(Line(SRC, x)));
  }

  lemma AddedToken(y: string)
    requires OneLiner(y) && !("++ " <= y)
    ensures Tokens(["+" + y + "\n"]) == [Body(Line(DST, y))]
  {
    LineRead(Line(DST, y));
    assert LineText(Line(DST, y)) == "+" + y + "\n";
    OneToken("+" + y + "\n", Body(Line(DST, y)));
  }

  lemma ContextToken(z: string)
    requires OneLiner(z)
    ensures Tokens([" " + z + "\n"]) == [Body(Line(BOTH, z))]
  {
    LineRead(Line(BOTH, z));
    assert LineText(Line(BOTH, z)) == " " + z + "\n";
    OneToken(" " + z + "\n", Body(Line(BOTH, z)));
  }

  lemma HeaderTokenOf(p: nat, a: nat, q: nat, b: nat, rest: string)
    ensures Tokens([HeaderLine(p, a, q, b, " @@" + rest)]) == [ChunkStart(p, q)]
  {
    HeaderLineRead(p, a, q, b, rest);
    OneToken(HeaderLine(p, a, q, b, " @@" + rest), ChunkStart(p, q));
  }

  lemma SixTokens(l: seq<string>, t: seq<Token>)
    requires |l| == |t| == 6
    requires forall i :: 0 <= i < 6 ==> Tokens([l[i]]) == [t[i]]
    ensures Tokens(l) == t
  {
    forall i | 0 <= i < 6
      ensures Tokens(l)[i] == t[i]
    {
      assert Tokens([l[i]])[0] == t[i];
    }
  }

  /** In the only chunk of the only patch. */
  function Inside(src: string, dst: string, p: int, q: int, lines: seq<Line>): (s: ParseState)
    ensures ValidAt(s)
  {
    ParseState([PatchValue(src, dst, [Chunk(p, q, lines)])], Some((0, 0)))
  }

  lemma OneMoreLine(src: string, dst: string, p: int, q: int, lines: seq<Line>, l: Line)
    ensures Step(Inside(src, dst, p, q, lines), Body(l)) == Some(Inside(src, dst, p, q, lines + [l]))
  {
    var c := Chunk(p, q, lines);
    var v := PatchValue(src, dst, [c]);
    assert [c][0 := c.(lines := lines + [l])] == [c.(lines := lines + [l])];
    assert [v][0 := v.(chunks := [c.(lines := lines + [l])])] == [v.(chunks := [c.(lines := lines + [l])])];
  }

  /** The patch after its header and three lines. */
  lemma ThreeBodies(src: string, dst: string, p: int, q: int, x: Line, y: Line, z: Line)
    ensures Fold(START, [SrcFile(src), DstFile(dst), ChunkStart(p, q), Body(x), Body(y), Body(z)])
         == Some(Inside(src, dst, p, q, [x, y, z]))
  {
    var four := [SrcFile(src), DstFile(dst), ChunkStart(p, q), Body(x)];
    FirstSteps(src, dst, p, q);
    OneMoreLine(src, dst, p, q, [], x);
    OneMoreLine(src, dst, p, q, [x], y);
    OneMoreLine(src, dst, p, q, [x, y], z);
    assert [] + [x] == [x] && [x] + [y] == [x, y] && [x, y] + [z] == [x, y, z];
    FourTokens(SrcFile(src), DstFile(dst), ChunkStart(p, q), Body(x),
               ParseState([PatchValue(src, "", [])], None), ParseState([PatchValue(src, dst, [])], None),
               Inside(src, dst, p, q, []));
    FoldSnoc(START, four, Body(y));
    FoldSnoc(START, four + [Body(y)], Body(z));
    assert four + [Body(y)] + [Body(z)] == [SrcFile(src), DstFile(dst), ChunkStart(p, q), Body(x), Body(y), Body(z)];
  }

  /** A file line, another, a header, and a removed, an added and a context line, as they are read. */
  lemma PatchRead(src: string, dst: string, p: nat, a: nat, q: nat, b: nat, rest: string, x: string, y: string, z: string)
    requires OneLiner(src) && OneLiner(dst) && OneLiner(x) && OneLiner(y) && OneLiner(z)
    requires !("-- " <= x) && !("++ " <= y)
    ensures ParsePatchset(["--- " + src + "\n", "+++ " + dst + "\n",
                           "@@ -" + Decimal(p) + "," + Decimal(a) + " +" + Decimal(q) + "," + Decimal(b) + " @@" + rest,
                           "-" + x + "\n", "+" + y + "\n", " " + z + "\n"])
         == Some([PatchValue(src, dst, [Chunk(p, q, [Line(SRC, x), Line(DST, y), Line(BOTH, z)])])])
  {
    var h := "@@ -" + Decimal(p) + "," + Decimal(a) + " +" + Decimal(q) + "," + Decimal(b) + " @@" + rest;
    assert h == HeaderLine(p, a, q, b, " @@" + rest);
    SrcToken(src);
    DstToken(dst);
    HeaderTokenOf(p, a, q, b, rest);
    RemovedToken(x);
    AddedToken(y);
    ContextToken(z);
    SixTokens(["--- " + src + "\n", "+++ " + dst + "\n", h, "-" + x + "\n", "+" + y + "\n", " " + z + "\n"],
              [SrcFile(src), DstFile(dst), ChunkStart(p, q), Body(Line(SRC, x)), Body(Line(DST, y)), Body(Line(BOTH, z))]);
    ThreeBodies(src, dst, p, q, Line(SRC, x), Line(DST, y), Line(BOTH, z));
  }

  // ----- Other lines -----------------------------------------------------------------------------------

  /** The last line of a file may lack its newline. */
  lemma LastLineRead(x: string)
    requires OneLiner(x)
    ensures After("-", "-" + x) == Some(x) && After("+", "+" + x) == Some(x) && After(" ", " " + x) == Some(x)
  {
    assert ("-" + x)[1..] == x && ("+" + x)[1..] == x && (" " + x)[1..] == x;
    assert forall i :: 0 <= i < |x| ==> x[i] != '\n';
  }

  /** Nothing but a source file line can come first: anything else raises an exception. */
  lemma {:induction false} SourceFirst(tokens: seq<Token>)
    requires tokens != [] && Fold(START, tokens).Some?
    ensures tokens[0].SrcFile?
  {
    if |tokens| > 1 {
      SourceFirst(tokens[..|tokens| - 1]);
    } else {
      assert tokens[..0] == [];
    }
  }

  lemma SourceLineFirst(lines: seq<string>)
    requires lines != [] && ParsePatchset(lines).Some?
    ensures "--- " <= lines[0]
  {
    SourceFirst(Tokens(lines));
    SrcOnly(lines[0]);
  }

  lemma SrcOnly(line: string)
    requires Classify(line).SrcFile?
    ensures "--- " <= line
  {
  }
}
