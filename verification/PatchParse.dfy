/** parse_patchset as a fold over lines, and exactly when it reads back what was written. */
module PatchParse {
  import opened Options
  import opened PatchText

  /** The patches so far, and where the current chunk is among them; a new patch does not
      change the current chunk. */
  datatype ParseState = ParseState(patches: seq<PatchValue>, at: Option<(nat, nat)>)

  const START := ParseState([], None)

  predicate ValidAt(s: ParseState) {
    s.at.Some? ==> s.at.value.0 < |s.patches| && s.at.value.1 < |s.patches[s.at.value.0].chunks|
  }

  function AddLine(patches: seq<PatchValue>, i: nat, j: nat, l: Line): seq<PatchValue>
    requires i < |patches| && j < |patches[i].chunks|
  {
    var c := patches[i].chunks[j];
    patches[i := patches[i].(chunks := patches[i].chunks[j := c.(lines := c.lines + [l])])]
  }

  /** One line; None stands for the exception it raises. */
  function Step(s: ParseState, token: Token): (r: Option<ParseState>)
    requires ValidAt(s)
    ensures r.Some? ==> ValidAt(r.value)
  {
    var n := |s.patches| - 1;
    match token
    case SrcFile(name) => Some(s.(patches := s.patches + [PatchValue(name, "", [])]))
    case DstFile(name) =>
      if s.patches == [] then None else Some(s.(patches := s.patches[n := s.patches[n].(dst := name)]))
    case ChunkStart(srcPos, dstPos) =>
      if s.patches == [] then None
      else
        var p := s.patches[n];
        Some(ParseState(s.patches[n := p.(chunks := p.chunks + [Chunk(srcPos, dstPos, [])])], Some((n, |p.chunks|))))
    case Body(l) =>
      if s.at == None then None
      else Some(s.(patches := AddLine(s.patches, s.at.value.0, s.at.value.1, l)))
    case Junk => None
  }

  function Fold(s: ParseState, tokens: seq<Token>): (r: Option<ParseState>)
    requires ValidAt(s)
    ensures r.Some? ==> ValidAt(r.value)
  {
    if tokens == [] then Some(s)
    else
      match Fold(s, tokens[..|tokens| - 1])
      case None => None
      case Some(t) => Step(t, tokens[|tokens| - 1])
  }

  function Tokens(lines: seq<string>): seq<Token> {
    seq(|lines|, i requires 0 <= i < |lines| => Classify(lines[i]))
  }

  function ParsePatchset(lines: seq<string>): Option<seq<PatchValue>> {
    match Fold(START, Tokens(lines))
    case None => None
    case Some(s) => Some(s.patches)
  }

  lemma FoldSnoc(s: ParseState, tokens: seq<Token>, token: Token)
    requires ValidAt(s)
    ensures Fold(s, tokens + [token]) ==
            match Fold(s, tokens) case None => None case Some(t) => Step(t, token)
  {
    assert (tokens + [token])[..|tokens|] == tokens;
  }

  lemma {:induction false} FoldConcat(s: ParseState, a: seq<Token>, b: seq<Token>)
    requires ValidAt(s) && Fold(s, a).Some?
    ensures Fold(s, a + b) == Fold(Fold(s, a).value, b)
  {
    if b == [] {
      assert a + b == a;
    } else {
      FoldConcat(s, a, b[..|b| - 1]);
      assert (a + b)[..|a + b| - 1] == a + b[..|b| - 1];
    }
  }

  // ----- Reading the tokens of a patch --------------------------------------------------------

  function TokensOf(items: seq<Item>): seq<Token> {
    seq(|items|, i requires 0 <= i < |items| => TokenOf(items[i]))
  }

  lemma TokensOfConcat(a: seq<Item>, b: seq<Item>)
    ensures TokensOf(a + b) == TokensOf(a) + TokensOf(b)
  {
  }

  /** The state in which the last patch is p and its last chunk, if any, is current. */
  predicate Reading(s: ParseState, ps: seq<PatchValue>, p: PatchValue) {
    && s.patches == ps + [p]
    && (p.chunks != [] ==> s.at == Some((|ps|, |p.chunks| - 1)))
  }

  /** Reading the tokens takes s to a state that reads p after ps. */
  predicate Reads(s: ParseState, tokens: seq<Token>, ps: seq<PatchValue>, p: PatchValue) {
    ValidAt(s) && Fold(s, tokens).Some? && Reading(Fold(s, tokens).value, ps, p)
  }

  /** The patch with lines added to its last chunk. */
  function Grown(p: PatchValue, lines: seq<Line>): PatchValue
    requires p.chunks != []
  {
    var n := |p.chunks| - 1;
    p.(chunks := p.chunks[n := p.chunks[n].(lines := p.chunks[n].lines + lines)])
  }

  lemma GrownTwice(p: PatchValue, a: seq<Line>, b: seq<Line>)
    requires p.chunks != []
    ensures Grown(Grown(p, a), b) == Grown(p, a + b)
    ensures Grown(p, []) == p
  {
    var c := p.chunks[|p.chunks| - 1];
    assert c.lines + a + b == c.lines + (a + b);
    assert c.lines + [] == c.lines;
  }

  lemma BodyStep(s: ParseState, ps: seq<PatchValue>, p: PatchValue, l: Line)
    requires ValidAt(s) && Reading(s, ps, p) && p.chunks != []
    ensures Step(s, Body(l)).Some? && Reading(Step(s, Body(l)).value, ps, Grown(p, [l]))
  {
    assert s.patches[|ps|] == p;
    assert (ps + [p])[|ps| := Grown(p, [l])] == ps + [Grown(p, [l])];
  }

  lemma {:induction false} BodiesRead(s: ParseState, ps: seq<PatchValue>, p: PatchValue, lines: seq<Line>)
    requires ValidAt(s) && Reading(s, ps, p) && p.chunks != []
    ensures Reads(s, TokensOf(LineItems(lines)), ps, Grown(p, lines))
  {
    if lines == [] {
      GrownTwice(p, [], []);
    } else {
      var init, last := lines[..|lines| - 1], lines[|lines| - 1];
      BodiesRead(s, ps, p, init);
      BodyStep(Fold(s, TokensOf(LineItems(init))).value, ps, Grown(p, init), last);
      FoldSnoc(s, TokensOf(LineItems(init)), Body(last));
      assert TokensOf(LineItems(lines)) == TokensOf(LineItems(init)) + [Body(last)];
      GrownTwice(p, init, [last]);
      assert init + [last] == lines;
    }
  }

  lemma HeaderStep(s: ParseState, ps: seq<PatchValue>, p: PatchValue, srcPos: int, dstPos: int)
    requires ValidAt(s) && Reading(s, ps, p)
    ensures Step(s, ChunkStart(srcPos, dstPos)).Some?
    ensures Reading(Step(s, ChunkStart(srcPos, dstPos)).value, ps, p.(chunks := p.chunks + [Chunk(srcPos, dstPos, [])]))
  {
  }

  lemma ChunkReads(s: ParseState, ps: seq<PatchValue>, p: PatchValue, c: Chunk)
    requires ValidAt(s) && Reading(s, ps, p)
    ensures Reads(s, TokensOf(ChunkItems(c)), ps, p.(chunks := p.chunks + [c]))
  {
    var start := ChunkStart(c.srcPos, c.dstPos);
    var q := p.(chunks := p.chunks + [Chunk(c.srcPos, c.dstPos, [])]);
    HeaderStep(s, ps, p, c.srcPos, c.dstPos);
    FoldSnoc(s, [], start);
    assert [] + [start] == [start] == TokensOf([HeaderItem(c)]);
    BodiesRead(Fold(s, [start]).value, ps, q, c.lines);
    FoldConcat(s, [start], TokensOf(LineItems(c.lines)));
    TokensOfConcat([HeaderItem(c)], LineItems(c.lines));
    assert [] + c.lines == c.lines;
    assert Grown(q, c.lines) == p.(chunks := p.chunks + [c]);
  }

  lemma OneMoreChunk(s: ParseState, items: seq<Item>, ps: seq<PatchValue>, p: PatchValue, c: Chunk)
    requires Reads(s, TokensOf(items), ps, p)
    ensures Reads(s, TokensOf(items + ChunkItems(c)), ps, p.(chunks := p.chunks + [c]))
  {
    ChunkReads(Fold(s, TokensOf(items)).value, ps, p, c);
    FoldConcat(s, TokensOf(items), TokensOf(ChunkItems(c)));
    TokensOfConcat(items, ChunkItems(c));
  }

  lemma ChunksItemsSnoc(chunks: seq<Chunk>, c: Chunk)
    ensures ChunksItems(chunks + [c]) == ChunksItems(chunks) + ChunkItems(c)
  {
    assert (chunks + [c])[..|chunks|] == chunks;
  }

  lemma ItemsSnoc(ps: seq<PatchValue>, p: PatchValue)
    ensures Items(ps + [p]) == Items(ps) + PatchItems(p)
  {
    assert (ps + [p])[..|ps|] == ps;
  }

  lemma {:induction false} ChunksRead(s: ParseState, ps: seq<PatchValue>, p: PatchValue, chunks: seq<Chunk>)
    requires ValidAt(s) && Reading(s, ps, p) && p.chunks == []
    ensures Reads(s, TokensOf(ChunksItems(chunks)), ps, p.(chunks := chunks))
  {
    if chunks != [] {
      var init, last := chunks[..|chunks| - 1], chunks[|chunks| - 1];
      ChunksRead(s, ps, p, init);
      OneMoreChunk(s, ChunksItems(init), ps, p.(chunks := init), last);
      ChunksItemsSnoc(init, last);
      assert init + [last] == chunks;
    }
  }

  lemma FilesStep(s: ParseState, src: string, dst: string)
    requires ValidAt(s)
    ensures Reads(s, [SrcFile(src), DstFile(dst)], s.patches, PatchValue(src, dst, []))
  {
    FoldSnoc(s, [], SrcFile(src));
    FoldSnoc(s, [SrcFile(src)], DstFile(dst));
    assert [] + [SrcFile(src)] == [SrcFile(src)] && [SrcFile(src)] + [DstFile(dst)] == [SrcFile(src), DstFile(dst)];
  }

  lemma PatchReads(s: ParseState, p: PatchValue)
    requires ValidAt(s)
    ensures Reads(s, TokensOf(PatchItems(p)), s.patches, p)
  {
    var files := [SrcFile(p.src), DstFile(p.dst)];
    FilesStep(s, p.src, p.dst);
    ChunksRead(Fold(s, files).value, s.patches, p.(chunks := []), p.chunks);
    FoldConcat(s, files, TokensOf(ChunksItems(p.chunks)));
    assert TokensOf([SrcItem(p.src), DstItem(p.dst)]) == files;
    TokensOfConcat([SrcItem(p.src), DstItem(p.dst)], ChunksItems(p.chunks));
  }

  /** Reading the items from the start gives the patches ps. */
  predicate ReadAs(items: seq<Item>, ps: seq<PatchValue>) {
    var r := Fold(START, TokensOf(items));
    r.Some? && r.value.patches == ps
  }

  lemma OneMorePatch(items: seq<Item>, ps: seq<PatchValue>, p: PatchValue)
    requires ReadAs(items, ps)
    ensures ReadAs(items + PatchItems(p), ps + [p])
  {
    PatchReads(Fold(START, TokensOf(items)).value, p);
    FoldConcat(START, TokensOf(items), TokensOf(PatchItems(p)));
    TokensOfConcat(items, PatchItems(p));
  }

  lemma {:induction false} PatchesRead(ps: seq<PatchValue>)
    ensures ReadAs(Items(ps), ps)
  {
    if ps != [] {
      var init, last := ps[..|ps| - 1], ps[|ps| - 1];
      PatchesRead(init);
      OneMorePatch(Items(init), init, last);
      ItemsSnoc(init, last);
      assert init + [last] == ps;
    }
  }

  // ----- The parser keeps one line for each body line it reads --------------------------------

  function ChunkSizes(chunks: seq<Chunk>): nat {
    if chunks == [] then 0 else ChunkSizes(chunks[..|chunks| - 1]) + |chunks[|chunks| - 1].lines|
  }

  /** How many lines all chunks hold together. */
  function Size(ps: seq<PatchValue>): nat {
    if ps == [] then 0 else Size(ps[..|ps| - 1]) + ChunkSizes(ps[|ps| - 1].chunks)
  }

  function Bodies(tokens: seq<Token>): nat {
    if tokens == [] then 0 else Bodies(tokens[..|tokens| - 1]) + if tokens[|tokens| - 1].Body? then 1 else 0
  }

  lemma {:induction false} SizeUpdate(ps: seq<PatchValue>, i: nat, p: PatchValue)
    requires i < |ps|
    ensures Size(ps[i := p]) + ChunkSizes(ps[i].chunks) == Size(ps) + ChunkSizes(p.chunks)
  {
    var n := |ps| - 1;
    if i < n {
      SizeUpdate(ps[..n], i, p);
      assert ps[i := p][..n] == ps[..n][i := p];
    } else {
      assert ps[i := p][..n] == ps[..n];
    }
  }

  lemma {:induction false} ChunkSizesUpdate(chunks: seq<Chunk>, j: nat, c: Chunk)
    requires j < |chunks|
    ensures ChunkSizes(chunks[j := c]) + |chunks[j].lines| == ChunkSizes(chunks) + |c.lines|
  {
    var n := |chunks| - 1;
    if j < n {
      ChunkSizesUpdate(chunks[..n], j, c);
      assert chunks[j := c][..n] == chunks[..n][j := c];
    } else {
      assert chunks[j := c][..n] == chunks[..n];
    }
  }

  lemma SizeSnoc(ps: seq<PatchValue>, p: PatchValue)
    ensures Size(ps + [p]) == Size(ps) + ChunkSizes(p.chunks)
  {
    assert (ps + [p])[..|ps|] == ps;
  }

  lemma ChunkSizesSnoc(chunks: seq<Chunk>, c: Chunk)
    ensures ChunkSizes(chunks + [c]) == ChunkSizes(chunks) + |c.lines|
  {
    assert (chunks + [c])[..|chunks|] == chunks;
  }

  lemma StepSize(s: ParseState, token: Token)
    requires ValidAt(s) && Step(s, token).Some?
    ensures Size(Step(s, token).value.patches) == Size(s.patches) + if token.Body? then 1 else 0
  {
    var n := |s.patches| - 1;
    match token
    case SrcFile(name) =>
      SizeSnoc(s.patches, PatchValue(name, "", []));
    case DstFile(name) =>
      SizeUpdate(s.patches, n, s.patches[n].(dst := name));
    case ChunkStart(srcPos, dstPos) =>
      var chunks := s.patches[n].chunks;
      SizeUpdate(s.patches, n, s.patches[n].(chunks := chunks + [Chunk(srcPos, dstPos, [])]));
      ChunkSizesSnoc(chunks, Chunk(srcPos, dstPos, []));
    case Body(l) =>
      var (i, j) := s.at.value;
      var chunks := s.patches[i].chunks;
      var c := chunks[j].(lines := chunks[j].lines + [l]);
      ChunkSizesUpdate(chunks, j, c);
      SizeUpdate(s.patches, i, s.patches[i].(chunks := chunks[j := c]));
  }

  lemma {:induction false} FoldSize(tokens: seq<Token>)
    requires Fold(START, tokens).Some?
    ensures Size(Fold(START, tokens).value.patches) == Bodies(tokens)
  {
    if tokens != [] {
      FoldSize(tokens[..|tokens| - 1]);
      StepSize(Fold(START, tokens[..|tokens| - 1]).value, tokens[|tokens| - 1]);
    }
  }

  // ----- An unreadable item is lost ------------------------------------------------------------

  function LineCount(items: seq<Item>): nat {
    if items == [] then 0 else LineCount(items[..|items| - 1]) + if items[|items| - 1].LineItem? then 1 else 0
  }

  lemma {:induction false} LineCountConcat(a: seq<Item>, b: seq<Item>)
    ensures LineCount(a + b) == LineCount(a) + LineCount(b)
  {
    if b == [] {
      assert a + b == a;
    } else {
      LineCountConcat(a, b[..|b| - 1]);
      assert (a + b)[..|a + b| - 1] == a + b[..|b| - 1];
    }
  }

  lemma {:induction false} LineItemsCount(lines: seq<Line>)
    ensures LineCount(LineItems(lines)) == |lines|
  {
    if lines != [] {
      var init := lines[..|lines| - 1];
      LineItemsCount(init);
      assert LineItems(lines)[..|lines| - 1] == LineItems(init);
    }
  }

  lemma ChunkItemsCount(c: Chunk)
    ensures LineCount(ChunkItems(c)) == |c.lines|
  {
    LineItemsCount(c.lines);
    LineCountConcat([HeaderItem(c)], LineItems(c.lines));
  }

  lemma {:induction false} ChunksItemsCount(chunks: seq<Chunk>)
    ensures LineCount(ChunksItems(chunks)) == ChunkSizes(chunks)
  {
    if chunks != [] {
      var init, last := chunks[..|chunks| - 1], chunks[|chunks| - 1];
      ChunksItemsCount(init);
      ChunkItemsCount(last);
      LineCountConcat(ChunksItems(init), ChunkItems(last));
    }
  }

  lemma PatchItemsCount(p: PatchValue)
    ensures LineCount(PatchItems(p)) == ChunkSizes(p.chunks)
  {
    ChunksItemsCount(p.chunks);
    LineCountConcat([SrcItem(p.src), DstItem(p.dst)], ChunksItems(p.chunks));
    LineCountConcat([SrcItem(p.src)], [DstItem(p.dst)]);
    assert [SrcItem(p.src)] + [DstItem(p.dst)] == [SrcItem(p.src), DstItem(p.dst)];
  }

  lemma {:induction false} ItemsCount(ps: seq<PatchValue>)
    ensures LineCount(Items(ps)) == Size(ps)
  {
    if ps != [] {
      var init, last := ps[..|ps| - 1], ps[|ps| - 1];
      ItemsCount(init);
      PatchItemsCount(last);
      LineCountConcat(Items(init), PatchItems(last));
    }
  }

  /** Only a readable line item can have become a body line. */
  predicate Fits(item: Item, token: Token) {
    token.Body? ==> item.LineItem? && ReadableItem(item)
  }

  lemma {:induction false} UnreadableLost(items: seq<Item>, tokens: seq<Token>)
    requires |tokens| == |items| && forall i :: 0 <= i < |items| ==> Fits(items[i], tokens[i])
    ensures Bodies(tokens) <= LineCount(items)
    ensures Bodies(tokens) == LineCount(items) ==>
            forall i :: 0 <= i < |items| && items[i].LineItem? ==> ReadableItem(items[i])
  {
    if items != [] {
      var n := |items| - 1;
      assert forall i :: 0 <= i < n ==> items[..n][i] == items[i] && tokens[..n][i] == tokens[i];
      UnreadableLost(items[..n], tokens[..n]);
      assert Fits(items[n], tokens[n]);
    }
  }

  lemma ItemFits(item: Item)
    requires OneLineItem(item)
    ensures Fits(item, Classify(ItemText(item)))
  {
    ItemRead(item);
  }

  lemma {:induction false} JunkFails(tokens: seq<Token>, i: nat)
    requires i < |tokens| && tokens[i] == Junk
    ensures Fold(START, tokens) == None
  {
    if i < |tokens| - 1 {
      JunkFails(tokens[..|tokens| - 1], i);
    }
  }

  // ----- The round trip ---------------------------------------------------------------------------

  ghost predicate AllOneLiners(items: seq<Item>) {
    forall i :: 0 <= i < |items| ==> OneLineItem(items[i])
  }

  ghost predicate AllReadable(items: seq<Item>) {
    forall i :: 0 <= i < |items| ==> ReadableItem(items[i])
  }

  lemma ReadableTokens(items: seq<Item>)
    requires AllOneLiners(items) && AllReadable(items)
    ensures Tokens(Text(items)) == TokensOf(items)
  {
    forall i | 0 <= i < |items|
      ensures Tokens(Text(items))[i] == TokensOf(items)[i]
    {
      ItemRead(items[i]);
    }
  }

  lemma ReadsBackOnlyReadable(ps: seq<PatchValue>)
    requires AllOneLiners(Items(ps)) && ParsePatchset(Text(Items(ps))) == Some(ps)
    ensures AllReadable(Items(ps))
  {
    var items := Items(ps);
    FoldSize(Tokens(Text(items)));
    ItemsCount(ps);
    forall i | 0 <= i < |items|
      ensures Fits(items[i], Tokens(Text(items))[i])
    {
      ItemFits(items[i]);
    }
    UnreadableLost(items, Tokens(Text(items)));
    forall i | 0 <= i < |items|
      ensures ReadableItem(items[i])
    {
      ItemRead(items[i]);
      if !ReadableItem(items[i]) && items[i].HeaderItem? {
        JunkFails(Tokens(Text(items)), i);
      }
    }
  }

  /** For patches whose texts hold no newline: parsing what was written gives back the same
      patches exactly when no position is negative, no removed text starts with "-- " and no
      added text starts with "++ ". */
  lemma RoundTripIffReadable(ps: seq<PatchValue>)
    requires AllOneLiners(Items(ps))
    ensures ParsePatchset(Text(Items(ps))) == Some(ps) <==> AllReadable(Items(ps))
  {
    if AllReadable(Items(ps)) {
      PatchesRead(ps);
      ReadableTokens(Items(ps));
    } else if ParsePatchset(Text(Items(ps))) == Some(ps) {
      ReadsBackOnlyReadable(ps);
    }
  }

  // ----- Patches that are not read back -----------------------------------------------------------

  /** A patch of one line. */
  function OneLine(src: string, dst: string, srcPos: int, dstPos: int, l: Line): PatchValue {
    PatchValue(src, dst, [Chunk(srcPos, dstPos, [l])])
  }

  lemma OneLineText(src: string, dst: string, srcPos: int, dstPos: int, l: Line)
    ensures Items([OneLine(src, dst, srcPos, dstPos, l)])
         == [SrcItem(src), DstItem(dst), HeaderItem(Chunk(srcPos, dstPos, [l])), LineItem(l)]
  {
    var p, c := OneLine(src, dst, srcPos, dstPos, l), Chunk(srcPos, dstPos, [l]);
    assert [p][..0] == [] && [c][..0] == [];
    assert ChunksItems([c]) == ChunkItems(c);
    assert LineItems([l]) == [LineItem(l)];
    assert Items([p]) == PatchItems(p);
  }

  lemma TokensNext(items: seq<Item>, item: Item)
    ensures Tokens(Text(items + [item])) == Tokens(Text(items)) + [Classify(ItemText(item))]
  {
  }

  lemma FourLines(src: string, dst: string, srcPos: int, dstPos: int, l: Line)
    requires OneLiner(src) && OneLiner(dst) && srcPos >= 0 && dstPos >= 0
    ensures Tokens(Text(Items([OneLine(src, dst, srcPos, dstPos, l)])))
         == [SrcFile(src), DstFile(dst), ChunkStart(srcPos, dstPos), Classify(LineText(l))]
  {
    var items := [SrcItem(src), DstItem(dst), HeaderItem(Chunk(srcPos, dstPos, [l]))];
    OneLineText(src, dst, srcPos, dstPos, l);
    ReadableTokens(items);
    assert TokensOf(items) == [SrcFile(src), DstFile(dst), ChunkStart(srcPos, dstPos)];
    TokensNext(items, LineItem(l));
  }

  lemma FirstSteps(src: string, dst: string, srcPos: int, dstPos: int)
    ensures var s1 := ParseState([PatchValue(src, "", [])], None);
            var s2 := ParseState([PatchValue(src, dst, [])], None);
            && Step(START, SrcFile(src)) == Some(s1)
            && Step(s1, DstFile(dst)) == Some(s2)
            && Step(s2, ChunkStart(srcPos, dstPos)) == Some(InChunk(src, dst, srcPos, dstPos))
  {
    var p0, p1 := PatchValue(src, "", []), PatchValue(src, dst, []);
    var c := Chunk(srcPos, dstPos, []);
    assert START.patches + [p0] == [p0] && [p0][0 := p1] == [p1];
    assert p1.chunks + [c] == [c] && [p1][0 := p1.(chunks := [c])] == [p1.(chunks := [c])];
  }

  /** The state after the header of the first chunk of the first patch. */
  function InChunk(src: string, dst: string, srcPos: int, dstPos: int): (s: ParseState)
    ensures ValidAt(s)
  {
    ParseState([PatchValue(src, dst, [Chunk(srcPos, dstPos, [])])], Some((0, 0)))
  }

  lemma FourTokens(a: Token, b: Token, c: Token, d: Token, s1: ParseState, s2: ParseState, s3: ParseState)
    requires ValidAt(s1) && ValidAt(s2) && ValidAt(s3)
    requires Step(START, a) == Some(s1) && Step(s1, b) == Some(s2) && Step(s2, c) == Some(s3)
    ensures Fold(START, [a, b, c, d]) == Step(s3, d)
  {
    assert [] + [a] == [a] && [a] + [b] == [a, b] && [a, b] + [c] == [a, b, c] && [a, b, c] + [d] == [a, b, c, d];
    FoldSnoc(START, [], a);
    FoldSnoc(START, [a], b);
    FoldSnoc(START, [a, b], c);
    FoldSnoc(START, [a, b, c], d);
  }

  lemma OneLineRead(src: string, dst: string, srcPos: int, dstPos: int, l: Line, token: Token)
    requires OneLiner(src) && OneLiner(dst) && srcPos >= 0 && dstPos >= 0 && Classify(LineText(l)) == token
    ensures ParsePatchset(Text(Items([OneLine(src, dst, srcPos, dstPos, l)])))
         == match Step(InChunk(src, dst, srcPos, dstPos), token) case None => None case Some(s) => Some(s.patches)
  {
    FourLines(src, dst, srcPos, dstPos, l);
    FirstSteps(src, dst, srcPos, dstPos);
    FourTokens(SrcFile(src), DstFile(dst), ChunkStart(srcPos, dstPos), token,
               ParseState([PatchValue(src, "", [])], None), ParseState([PatchValue(src, dst, [])], None),
               InChunk(src, dst, srcPos, dstPos));
  }

  lemma DashesRead(name: string)
    requires OneLiner(name)
    ensures Classify(LineText(Line(SRC, "-- " + name))) == SrcFile(name)
    ensures Classify(LineText(Line(DST, "++ " + name))) == DstFile(name)
  {
    FileLinesRead(name, name);
    DashesText(name);
  }

  lemma DashesText(name: string)
    ensures LineText(Line(SRC, "-- " + name)) == "--- " + name + "\n"
    ensures LineText(Line(DST, "++ " + name)) == "+++ " + name + "\n"
  {
  }

  /** A removed line "-- name" comes back as the start of another patch, an added line "++ name"
      as the destination of the patch it stands in. */
  lemma LookalikesLost(src: string, dst: string, srcPos: int, dstPos: int, name: string)
    requires OneLiner(src) && OneLiner(dst) && OneLiner(name) && srcPos >= 0 && dstPos >= 0
    ensures ParsePatchset(Text(Items([OneLine(src, dst, srcPos, dstPos, Line(SRC, "-- " + name))])))
         == Some([PatchValue(src, dst, [Chunk(srcPos, dstPos, [])]), PatchValue(name, "", [])])
    ensures ParsePatchset(Text(Items([OneLine(src, dst, srcPos, dstPos, Line(DST, "++ " + name))])))
         == Some([PatchValue(src, name, [Chunk(srcPos, dstPos, [])])])
  {
    DashesRead(name);
    OneLineRead(src, dst, srcPos, dstPos, Line(SRC, "-- " + name), SrcFile(name));
    OneLineRead(src, dst, srcPos, dstPos, Line(DST, "++ " + name), DstFile(name));
    LookalikeSteps(src, dst, srcPos, dstPos, name);
  }

  lemma LookalikeSteps(src: string, dst: string, srcPos: int, dstPos: int, name: string)
    ensures Step(InChunk(src, dst, srcPos, dstPos), SrcFile(name))
         == Some(ParseState([PatchValue(src, dst, [Chunk(srcPos, dstPos, [])]), PatchValue(name, "", [])], Some((0, 0))))
    ensures Step(InChunk(src, dst, srcPos, dstPos), DstFile(name))
         == Some(ParseState([PatchValue(src, name, [Chunk(srcPos, dstPos, [])])], Some((0, 0))))
  {
    var p := PatchValue(src, dst, [Chunk(srcPos, dstPos, [])]);
    assert [p] + [PatchValue(name, "", [])] == [p, PatchValue(name, "", [])];
    assert [p][0 := p.(dst := name)] == [p.(dst := name)];
  }
}
