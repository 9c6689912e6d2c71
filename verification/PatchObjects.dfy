/** The Patch and PatchChunk objects, written out and built up in place by the parser. */
module PatchObjects {
  import opened Options
  import opened Sequences
  import opened PatchText
  import opened PatchParse
  import opened PatchExamples

  class PatchChunk {
    var srcPos: int
    var dstPos: int
    var lines: seq<Line>

    constructor (srcPos: int, dstPos: int)
      ensures this.srcPos == srcPos && this.dstPos == dstPos && lines == []
    {
      this.srcPos, this.dstPos, lines := srcPos, dstPos, [];
    }

    function View(): Chunk
      reads this
    {
      Chunk(srcPos, dstPos, lines)
    }

    method AddLine(line: Line)
      modifies this
      ensures View() == old(View()).(lines := old(lines) + [line])
    {
      lines := lines + [line];
    }

    method Src() returns (src: seq<Line>)
      ensures src == SrcLines(lines)
    {
      src := [];
      for i := 0 to |lines|
        invariant src == SrcLines(lines[..i])
      {
        assert lines[..i + 1][..i] == lines[..i];
        if IsSrc(lines[i]) {
          src := src + [lines[i]];
        }
      }
      assert lines[..|lines|] == lines;
    }

    method Dst() returns (dst: seq<Line>)
      ensures dst == DstLines(lines)
    {
      dst := [];
      for i := 0 to |lines|
        invariant dst == DstLines(lines[..i])
      {
        assert lines[..i + 1][..i] == lines[..i];
        if IsDst(lines[i]) {
          dst := dst + [lines[i]];
        }
      }
      assert lines[..|lines|] == lines;
    }

    /** Writes to the end of the file f. */
    method Write(f: seq<string>) returns (f': seq<string>)
      ensures f' == f + Text(ChunkItems(View()))
      ensures |f'| == |f| + 1 + |lines|
      ensures f'[|f|] == "@@ -" + Decimal(srcPos) + "," + Decimal(|SrcLines(lines)|)
                         + " +" + Decimal(dstPos) + "," + Decimal(|DstLines(lines)|) + " @@\n"
    {
      var src := Src();
      var dst := Dst();
      f' := f + [Fields(FIELDS, [srcPos, |src|, dstPos, |dst|], " @@\n")];
      ghost var header := Header(View());
      for i := 0 to |lines|
        invariant f' == f + [header] + Text(LineItems(lines[..i]))
      {
        f' := f' + [LineText(lines[i])];
        NextLine(lines, i);
        Regroup(f + [header], Text(LineItems(lines[..i])), [LineText(lines[i])]);
      }
      assert lines[..|lines|] == lines;
      HeaderThenBody(View());
      Regroup(f, [header], Text(LineItems(lines)));
      FieldsAreHeader(srcPos, |SrcLines(lines)|, dstPos, |DstLines(lines)|, " @@\n");
    }
  }

  lemma NextLine(lines: seq<Line>, i: nat)
    requires i < |lines|
    ensures Text(LineItems(lines[..i + 1])) == Text(LineItems(lines[..i])) + [LineText(lines[i])]
  {
  }

  class Patch {
    var src: string
    var dst: string
    var chunks: seq<PatchChunk>

    constructor ()
      ensures src == "" && dst == "" && chunks == []
    {
      src, dst, chunks := "", "", [];
    }

    function View(): PatchValue
      reads this, chunks
    {
      PatchValue(src, dst, ChunkViews(chunks))
    }

    method AddChunk(chunk: PatchChunk)
      modifies this`chunks
      ensures chunks == old(chunks) + [chunk]
      ensures View() == old(View()).(chunks := old(View()).chunks + [chunk.View()])
    {
      chunks := chunks + [chunk];
    }

    method Write(f: seq<string>) returns (f': seq<string>)
      ensures f' == f + Text(PatchItems(View()))
    {
      ghost var views := ChunkViews(chunks);
      ghost var items := [SrcItem(src), DstItem(dst)];
      f' := f + ["--- " + src + "\n", "+++ " + dst + "\n"];
      assert Text(items) == ["--- " + src + "\n", "+++ " + dst + "\n"];
      for i := 0 to |chunks|
        invariant items == [SrcItem(src), DstItem(dst)] + ChunksItems(views[..i])
        invariant f' == f + Text(items)
      {
        f' := chunks[i].Write(f');
        ChunksItemsNext(views, i);
        TextConcat(items, ChunkItems(views[i]));
        Regroup([SrcItem(src), DstItem(dst)], ChunksItems(views[..i]), ChunkItems(views[i]));
        Regroup(f, Text(items), Text(ChunkItems(views[i])));
        items := items + ChunkItems(views[i]);
      }
      assert views[..|chunks|] == views;
    }
  }

  lemma TextConcat(a: seq<Item>, b: seq<Item>)
    ensures Text(a + b) == Text(a) + Text(b)
  {
  }

  lemma ChunksItemsNext(chunks: seq<Chunk>, i: nat)
    requires i < |chunks|
    ensures ChunksItems(chunks[..i + 1]) == ChunksItems(chunks[..i]) + ChunkItems(chunks[i])
  {
    assert chunks[..i + 1][..i] == chunks[..i];
  }

  function ChunkViews(chunks: seq<PatchChunk>): seq<Chunk>
    reads chunks
  {
    seq(|chunks|, i requires 0 <= i < |chunks| reads chunks => chunks[i].View())
  }

  function ChunkObjects(patches: seq<Patch>): set<PatchChunk>
    reads patches
  {
    set p, c | p in patches && c in p.chunks :: c
  }

  lemma OwnChunks(patches: seq<Patch>, i: nat)
    requires i < |patches|
    ensures forall c :: c in patches[i].chunks ==> c in ChunkObjects(patches)
  {
    assert patches[i] in patches;
  }

  function ViewAt(patches: seq<Patch>, i: nat): PatchValue
    requires i < |patches|
    reads patches, ChunkObjects(patches)
  {
    OwnChunks(patches, i);
    patches[i].View()
  }

  function Views(patches: seq<Patch>): seq<PatchValue>
    reads patches, ChunkObjects(patches)
  {
    seq(|patches|, i requires 0 <= i < |patches| reads patches, ChunkObjects(patches) => ViewAt(patches, i))
  }

  /** No patch object and no chunk object stands in two places. */
  ghost predicate Unshared(patches: seq<Patch>)
    reads patches
  {
    && (forall i, j :: 0 <= i < j < |patches| ==> patches[i] != patches[j])
    && (forall i, j, a, b ::
          (0 <= i < |patches| && 0 <= j < |patches| && 0 <= a < |patches[i].chunks| && 0 <= b < |patches[j].chunks|
           && patches[i].chunks[a] == patches[j].chunks[b]) ==> i == j && a == b)
  }

  /** The local variables of parse_patchset stand for a state of the fold. */
  ghost predicate Represents(patches: seq<Patch>, currentChunk: PatchChunk?, s: ParseState)
    reads patches, ChunkObjects(patches)
  {
    && Unshared(patches) && ValidAt(s) && s.patches == Views(patches)
    && (s.at == None <==> currentChunk == null)
    && (s.at.Some? ==> patches[s.at.value.0].chunks[s.at.value.1] == currentChunk)
  }

  ghost function Objects(patches: seq<Patch>): set<object>
    reads patches
  {
    var ps: set<object> := set p: Patch | p in patches :: p as object;
    var cs: set<object> := ChunkObjects(patches);
    ps + cs
  }

  ghost predicate Owns(repr: set<object>, patches: seq<Patch>)
    reads patches
  {
    Objects(patches) <= repr
  }

  lemma OwnedOnes(repr: set<object>, patches: seq<Patch>, currentChunk: PatchChunk?, s: ParseState)
    requires Owns(repr, patches) && Represents(patches, currentChunk, s)
    ensures patches != [] ==> patches[|patches| - 1] in repr
    ensures currentChunk != null ==> currentChunk in repr
  {
    if patches != [] {
      assert patches[|patches| - 1] in patches;
    }
    if currentChunk != null {
      var (i, j) := s.at.value;
      assert currentChunk in patches[i].chunks;
      OwnChunks(patches, i);
    }
  }

  // ----- What each kind of line does to the objects -------------------------------------------

  /** A new patch without chunks shares nothing. */
  lemma NewPatch(patches: seq<Patch>, p: Patch)
    requires Unshared(patches) && p !in patches && p.chunks == []
    ensures Unshared(patches + [p]) && Objects(patches + [p]) <= Objects(patches) + {p}
  {
    assert forall q :: q in patches + [p] <==> q in patches || q == p;
  }

  lemma ViewsAre(patches: seq<Patch>, views: seq<PatchValue>)
    requires |views| == |patches| && forall i :: 0 <= i < |patches| ==> ViewAt(patches, i) == views[i]
    ensures Views(patches) == views
  {
  }

  lemma ViewsNext(patches: seq<Patch>, p: Patch)
    ensures Views(patches + [p]) == Views(patches) + [p.View()]
  {
    var longer := patches + [p];
    forall i | 0 <= i < |longer|
      ensures Views(longer)[i] == (Views(patches) + [p.View()])[i]
    {
      assert i < |patches| ==> longer[i] == patches[i];
    }
  }

  method OnSrcFile(patches: seq<Patch>, currentChunk: PatchChunk?, ghost s: ParseState, name: string) returns (p: Patch)
    requires Represents(patches, currentChunk, s)
    ensures fresh(p) && Represents(patches + [p], currentChunk, Step(s, SrcFile(name)).value)
    ensures Objects(patches + [p]) <= Objects(patches) + {p}
  {
    p := new Patch();
    p.src := name;
    NewPatch(patches, p);
    ViewsNext(patches, p);
    assert Views(patches) == s.patches && p.View() == PatchValue(name, "", []);
  }

  method OnDstFile(patches: seq<Patch>, currentPatch: Patch, currentChunk: PatchChunk?, ghost s: ParseState, name: string)
    requires Represents(patches, currentChunk, s) && patches != [] && currentPatch == patches[|patches| - 1]
    modifies currentPatch`dst
    ensures Represents(patches, currentChunk, Step(s, DstFile(name)).value)
    ensures Objects(patches) <= old(Objects(patches))
  {
    currentPatch.dst := name;
    assert forall q :: q in patches ==> q.chunks == old(q.chunks);
    assert Views(patches) == Step(s, DstFile(name)).value.patches;
  }

  /** Append a chunk to one of the patches. */
  method PushChunk(patches: seq<Patch>, p: Patch, c: PatchChunk)
    requires p in patches && Unshared(patches) && c !in ChunkObjects(patches)
    modifies p`chunks
    ensures p.chunks == old(p.chunks) + [c]
    ensures p.View() == old(p.View()).(chunks := old(p.View()).chunks + [c.View()])
    ensures Objects(patches) <= old(Objects(patches)) + {c} && Unshared(patches)
  {
    forall i, a | 0 <= i < |patches| && 0 <= a < |patches[i].chunks|
      ensures patches[i].chunks[a] != c
    {
      assert patches[i].chunks[a] in patches[i].chunks && patches[i] in patches;
    }
    p.AddChunk(c);
    forall x | x in ChunkObjects(patches) && x != c
      ensures x in old(ChunkObjects(patches))
    {
      var q :| q in patches && x in q.chunks;
      assert x in old(q.chunks);
    }
  }

  method OnChunkStart(patches: seq<Patch>, currentPatch: Patch, currentChunk: PatchChunk?, ghost s: ParseState,
                      srcPos: int, dstPos: int) returns (c: PatchChunk)
    requires Represents(patches, currentChunk, s) && patches != [] && currentPatch == patches[|patches| - 1]
    modifies currentPatch`chunks
    ensures fresh(c) && Represents(patches, c, Step(s, ChunkStart(srcPos, dstPos)).value)
    ensures Objects(patches) <= old(Objects(patches)) + {c}
  {
    c := new PatchChunk(srcPos, dstPos);
    ghost var n := |patches| - 1;
    assert currentPatch in patches;
    PushChunk(patches, currentPatch, c);
    forall i | 0 <= i < n
      ensures ViewAt(patches, i) == s.patches[i]
    {
      assert patches[i] != currentPatch;
    }
    ChunkStarted(patches, c, s);
  }

  /** The objects show s, but for one empty chunk more in the last patch. */
  lemma ChunkStarted(patches: seq<Patch>, c: PatchChunk, s: ParseState)
    requires Unshared(patches) && ValidAt(s) && patches != [] && |s.patches| == |patches|
    requires forall i :: 0 <= i < |patches| - 1 ==> ViewAt(patches, i) == s.patches[i]
    requires var n := |patches| - 1;
             && ViewAt(patches, n) == s.patches[n].(chunks := s.patches[n].chunks + [c.View()])
             && patches[n].chunks != [] && patches[n].chunks[|patches[n].chunks| - 1] == c
    requires c.lines == []
    ensures Represents(patches, c, Step(s, ChunkStart(c.srcPos, c.dstPos)).value)
  {
    var n := |patches| - 1;
    ViewsAre(patches, s.patches[n := ViewAt(patches, n)]);
  }

  method OnBody(patches: seq<Patch>, currentChunk: PatchChunk, ghost s: ParseState, l: Line)
    requires Represents(patches, currentChunk, s)
    modifies currentChunk
    ensures Represents(patches, currentChunk, Step(s, Body(l)).value)
    ensures Objects(patches) <= old(Objects(patches))
  {
    currentChunk.AddLine(l);
    ghost var (i, j) := s.at.value;
    forall a | 0 <= a < |patches|
      ensures Views(patches)[a] == Step(s, Body(l)).value.patches[a]
    {
      forall b | 0 <= b < |patches[a].chunks|
        ensures patches[a].View().chunks[b] == Step(s, Body(l)).value.patches[a].chunks[b]
      {
        if patches[a].chunks[b] == currentChunk {
          assert a == i && b == j;
        }
      }
      assert patches[a].View().chunks == Step(s, Body(l)).value.patches[a].chunks;
    }
    assert Views(patches) == Step(s, Body(l)).value.patches;
  }

  lemma {:induction false} FailsForGood(s: ParseState, a: seq<Token>, b: seq<Token>)
    requires ValidAt(s) && Fold(s, a) == None
    ensures Fold(s, a + b) == None
  {
    if b == [] {
      assert a + b == a;
    } else {
      FailsForGood(s, a, b[..|b| - 1]);
      assert (a + b)[..|a + b| - 1] == a + b[..|b| - 1];
    }
  }

  /** What the lines are read as by any way of reading a line. */
  function ReadAll(read: string -> Token, lines: seq<string>): seq<Token> {
    seq(|lines|, i requires 0 <= i < |lines| => read(lines[i]))
  }

  lemma ReadAllSplit(read: string -> Token, lines: seq<string>, i: nat)
    requires i <= |lines|
    ensures ReadAll(read, lines) == ReadAll(read, lines[..i]) + ReadAll(read, lines[i..])
  {
  }

  lemma ReadNext(read: string -> Token, lines: seq<string>, i: nat, s: ParseState)
    requires i < |lines| && ValidAt(s) && Fold(START, ReadAll(read, lines[..i])) == Some(s)
    ensures Fold(START, ReadAll(read, lines[..i + 1])) == Step(s, read(lines[i]))
    ensures Step(s, read(lines[i])) == None ==> Fold(START, ReadAll(read, lines)) == None
  {
    var before, token := ReadAll(read, lines[..i]), read(lines[i]);
    assert ReadAll(read, lines[..i + 1]) == before + [token];
    FoldSnoc(START, before, token);
    if Step(s, token) == None {
      ReadAllSplit(read, lines, i + 1);
      FailsForGood(START, before + [token], ReadAll(read, lines[i + 1..]));
    }
  }

  lemma ReadAllTokens(lines: seq<string>)
    ensures ReadAll(Classify, lines) == Tokens(lines)
  {
  }

  /** The parser's local variables between two lines, with all their objects in repr. */
  ghost predicate Holds(repr: set<object>, patches: seq<Patch>, currentPatch: Patch?, currentChunk: PatchChunk?, s: ParseState)
    reads patches, ChunkObjects(patches)
  {
    && Owns(repr, patches) && Represents(patches, currentChunk, s)
    && currentPatch == if patches == [] then null else patches[|patches| - 1]
  }

  /** One turn of the parser's loop, given what the line was read as. False stands for the exceptions: an unknown line, or a
      line before there is a patch or a chunk it could belong to. */
  method OnLine(ghost repr: set<object>, patches: seq<Patch>, currentPatch: Patch?, currentChunk: PatchChunk?,
                ghost s: ParseState, token: Token)
    returns (ok: bool, patches': seq<Patch>, currentPatch': Patch?, currentChunk': PatchChunk?, ghost repr': set<object>)
    requires Holds(repr, patches, currentPatch, currentChunk, s)
    modifies repr
    ensures ok <==> Step(s, token).Some?
    ensures ok ==> Holds(repr', patches', currentPatch', currentChunk', Step(s, token).value)
    ensures fresh(repr' - repr)
  {
    ok, patches', currentPatch', currentChunk', repr' := true, patches, currentPatch, currentChunk, repr;
    OwnedOnes(repr, patches, currentChunk, s);
    match token {
      case SrcFile(name) =>
        currentPatch' := OnSrcFile(patches, currentChunk, s, name);
        patches', repr' := patches + [currentPatch'], repr + {currentPatch'};
      case DstFile(name) =>
        if currentPatch == null {
          ok := false;
        } else {
          OnDstFile(patches, currentPatch, currentChunk, s, name);
        }
      case ChunkStart(srcPos, dstPos) =>
        if currentPatch == null {
          ok := false;
        } else {
          currentChunk' := OnChunkStart(patches, currentPatch, currentChunk, s, srcPos, dstPos);
          repr' := repr + {currentChunk'};
        }
      case Body(l) =>
        if currentChunk == null {
          ok := false;
        } else {
          OnBody(patches, currentChunk, s, l);
        }
      case Junk =>
        ok := false;
    }
  }

  /** The loop of parse_patchset, for any way of reading a line. */
  method ParseWith(read: string -> Token, lines: seq<string>) returns (ok: bool, patchset: seq<Patch>)
    ensures ok <==> Fold(START, ReadAll(read, lines)).Some?
    ensures ok ==> Views(patchset) == Fold(START, ReadAll(read, lines)).value.patches
    ensures fresh(Objects(patchset))
  {
    patchset := [];
    var currentPatch: Patch? := null;
    var currentChunk: PatchChunk? := null;
    ghost var s := START;
    ghost var repr: set<object> := {};
    for i := 0 to |lines|
      invariant Fold(START, ReadAll(read, lines[..i])) == Some(s)
      invariant Holds(repr, patchset, currentPatch, currentChunk, s) && fresh(repr)
    {
      ReadNext(read, lines, i, s);
      var token := read(lines[i]);
      ok, patchset, currentPatch, currentChunk, repr :=
        OnLine(repr, patchset, currentPatch, currentChunk, s, token);
      if !ok {
        return false, [];
      }
      s := Step(s, token).value;
    }
    assert lines[..|lines|] == lines;
    return true, patchset;
  }

  /** The whole of parse_patchset. */
  method ParseLines(lines: seq<string>) returns (ok: bool, patchset: seq<Patch>)
    ensures ok <==> ParsePatchset(lines).Some?
    ensures ok ==> Views(patchset) == ParsePatchset(lines).value
    ensures fresh(Objects(patchset))
  {
    ReadAllTokens(lines);
    ok, patchset := ParseWith(Classify, lines);
  }
}
