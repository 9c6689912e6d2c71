/** Patches as values, how they are written, and what the parser's patterns
    make of one line. */
module PatchText {
  import opened Options

  datatype Side = SRC | DST | BOTH

  datatype Line = Line(side: Side, text: string)

  datatype Chunk = Chunk(srcPos: int, dstPos: int, lines: seq<Line>)

  datatype PatchValue = PatchValue(src: string, dst: string, chunks: seq<Chunk>)

  // ----- Decimal numbers ----------------------------------------------------------------

  predicate IsDigit(c: char) {
    '0' <= c <= '9'
  }

  function Digits(n: nat): (s: string)
    ensures s != [] && forall i :: 0 <= i < |s| ==> IsDigit(s[i])
  {
    if n < 10 then [n as char + '0'] else Digits(n / 10) + [(n % 10) as char + '0']
  }

  function Decimal(n: int): string {
    if n < 0 then "-" + Digits(-n) else Digits(n)
  }

  function Number(s: string): nat
    requires forall i :: 0 <= i < |s| ==> IsDigit(s[i])
  {
    if s == [] then 0
    else
      var last := s[|s| - 1];
      assert IsDigit(last);
      10 * Number(s[..|s| - 1]) + (last - '0') as nat
  }

  lemma {:induction false} NumberOfDigits(n: nat)
    ensures Number(Digits(n)) == n
  {
    if n >= 10 {
      var s := Digits(n);
      NumberOfDigits(n / 10);
      assert s[..|s| - 1] == Digits(n / 10);
    } else {
      assert Number([]) == 0;
    }
  }

  // ----- Writing -----------------------------------------------------------------------------

  predicate IsSrc(l: Line) {
    l.side == SRC || l.side == BOTH
  }

  predicate IsDst(l: Line) {
    l.side == DST || l.side == BOTH
  }

  function SrcLines(lines: seq<Line>): seq<Line> {
    if lines == [] then []
    else SrcLines(lines[..|lines| - 1]) + if IsSrc(lines[|lines| - 1]) then [lines[|lines| - 1]] else []
  }

  function DstLines(lines: seq<Line>): seq<Line> {
    if lines == [] then []
    else DstLines(lines[..|lines| - 1]) + if IsDst(lines[|lines| - 1]) then [lines[|lines| - 1]] else []
  }

  function Mark(side: Side): char {
    match side
    case SRC => '-'
    case DST => '+'
    case BOTH => ' '
  }

  function LineText(l: Line): string {
    [Mark(l.side)] + l.text + "\n"
  }

  /** The fixed texts before the four numbers of a chunk header. */
  const FIELDS := ["@@ -", ",", " +", ","]

  predicate StartsPlain(s: string) {
    s != [] && !IsDigit(s[0])
  }

  predicate AllPlain(texts: seq<string>) {
    forall i :: 0 <= i < |texts| ==> StartsPlain(texts[i])
  }

  /** Each text followed by its number, and then the rest. */
  function Fields(texts: seq<string>, numbers: seq<int>, rest: string): (s: string)
    requires |texts| == |numbers|
    ensures StartsPlain(rest) && AllPlain(texts) ==> StartsPlain(s)
  {
    if texts == [] then rest
    else texts[0] + (Decimal(numbers[0]) + Fields(texts[1..], numbers[1..], rest))
  }

  function HeaderNumbers(c: Chunk): seq<int> {
    [c.srcPos, |SrcLines(c.lines)|, c.dstPos, |DstLines(c.lines)|]
  }

  function Header(c: Chunk): string {
    Fields(FIELDS, HeaderNumbers(c), " @@\n")
  }

  /** One call of write on the output file. */
  datatype Item = SrcItem(name: string) | DstItem(name: string) | HeaderItem(chunk: Chunk) | LineItem(line: Line)

  function LineItems(lines: seq<Line>): seq<Item> {
    seq(|lines|, i requires 0 <= i < |lines| => LineItem(lines[i]))
  }

  function ChunkItems(c: Chunk): seq<Item> {
    [HeaderItem(c)] + LineItems(c.lines)
  }

  function ChunksItems(chunks: seq<Chunk>): seq<Item> {
    if chunks == [] then [] else ChunksItems(chunks[..|chunks| - 1]) + ChunkItems(chunks[|chunks| - 1])
  }

  function PatchItems(p: PatchValue): seq<Item> {
    [SrcItem(p.src), DstItem(p.dst)] + ChunksItems(p.chunks)
  }

  function Items(ps: seq<PatchValue>): seq<Item> {
    if ps == [] then [] else Items(ps[..|ps| - 1]) + PatchItems(ps[|ps| - 1])
  }

  function ItemText(item: Item): string {
    match item
    case SrcItem(name) => "--- " + name + "\n"
    case DstItem(name) => "+++ " + name + "\n"
    case HeaderItem(c) => Header(c)
    case LineItem(l) => LineText(l)
  }

  /** The lines of the file that the items are written to. */
  function Text(items: seq<Item>): seq<string> {
    seq(|items|, i requires 0 <= i < |items| => ItemText(items[i]))
  }

  // ----- Reading one line ---------------------------------------------------------------------

  /** What a pattern of the form ^prefix(.*)$ captures: the dot stops at a newline, and the
      dollar sign may stand before a final one. */
  function After(prefix: string, line: string): Option<string> {
    if !(prefix <= line) then None
    else
      var rest := line[|prefix|..];
      var text := if rest != [] && rest[|rest| - 1] == '\n' then rest[..|rest| - 1] else rest;
      if '\n' in text then None else Some(text)
  }

  function DigitsLength(s: string): (n: nat)
    ensures n <= |s| && forall i :: 0 <= i < n ==> IsDigit(s[i])
    ensures n < |s| ==> !IsDigit(s[n])
  {
    if s == [] || !IsDigit(s[0]) then 0 else 1 + DigitsLength(s[1..])
  }

  /** At least one digit, and what follows the digits. */
  function TakeNumber(s: string): Option<(nat, string)> {
    var n := DigitsLength(s);
    if n == 0 then None else Some((Number(s[..n]), s[n..]))
  }

  function TakeText(text: string, s: string): Option<string> {
    if text <= s then Some(s[|text|..]) else None
  }

  /** A piece of fixed text and then a number. */
  function TakeField(text: string, s: string): Option<(nat, string)> {
    match TakeText(text, s)
    case None => None
    case Some(rest) => TakeNumber(rest)
  }

  function TakeFields(texts: seq<string>, s: string): (r: Option<(seq<int>, string)>)
    ensures r.Some? ==> |r.value.0| == |texts|
    decreases texts
  {
    if texts == [] then Some(([], s))
    else
      match TakeField(texts[0], s)
      case None => None
      case Some((n, rest)) =>
        match TakeFields(texts[1..], rest)
        case None => None
        case Some((ns, rest')) => Some(([n] + ns, rest'))
  }

  /** The pattern of a chunk header, which says nothing about what follows its last text. */
  function ReadHeader(line: string): (r: Option<seq<int>>)
    ensures r.Some? ==> |r.value| == 4
  {
    match TakeFields(FIELDS, line)
    case None => None
    case Some((ns, rest)) => if " @@" <= rest then Some(ns) else None
  }

  datatype Token =
    | SrcFile(name: string)
    | DstFile(name: string)
    | ChunkStart(srcPos: int, dstPos: int)
    | Body(line: Line)
    | Junk

  /** The patterns in the order in which they are tried. */
  function Classify(line: string): Token {
    if After("--- ", line).Some? then SrcFile(After("--- ", line).value)
    else if After("+++ ", line).Some? then DstFile(After("+++ ", line).value)
    else if ReadHeader(line).Some? then ChunkStart(ReadHeader(line).value[0], ReadHeader(line).value[2])
    else if After("-", line).Some? then Body(Line(SRC, After("-", line).value))
    else if After("+", line).Some? then Body(Line(DST, After("+", line).value))
    else if After(" ", line).Some? then Body(Line(BOTH, After(" ", line).value))
    else Junk
  }

  // ----- What the written lines are read as ----------------------------------------------------

  /** A removed line that looks like a source file line, or an added one that looks like a destination. */
  predicate Clashes(l: Line) {
    (l.side == SRC && "-- " <= l.text) || (l.side == DST && "++ " <= l.text)
  }

  lemma AfterWritten(prefix: string, text: string)
    requires '\n' !in text
    ensures After(prefix, prefix + text + "\n") == Some(text)
  {
    var line := prefix + text + "\n";
    assert line[|prefix|..] == text + "\n";
    assert (text + "\n")[..|text|] == text;
  }

  lemma FileLinesRead(src: string, dst: string)
    requires '\n' !in src && '\n' !in dst
    ensures Classify("--- " + src + "\n") == SrcFile(src)
    ensures Classify("+++ " + dst + "\n") == DstFile(dst)
  {
    AfterWritten("--- ", src);
    AfterWritten("+++ ", dst);
    assert ("+++ " + dst + "\n")[0] == '+';
  }

  lemma PrefixOfLine(l: Line, prefix: string)
    requires prefix != [] && '\n' !in prefix && prefix <= LineText(l)
    ensures prefix[0] == Mark(l.side) && prefix[1..] <= l.text
  {
    var line := LineText(l);
    assert forall i :: 0 <= i < |prefix| ==> prefix[i] in prefix && prefix[i] == line[i];
    assert line[|l.text| + 1] == '\n';
  }

  lemma NotAHeader(line: string)
    requires line != [] && line[0] != '@'
    ensures ReadHeader(line) == None
  {
    assert FIELDS[0][0] == '@';
  }

  lemma NoOtherPattern(l: Line)
    requires !Clashes(l)
    ensures After("--- ", LineText(l)) == None && After("+++ ", LineText(l)) == None
    ensures ReadHeader(LineText(l)) == None
  {
    NotAHeader(LineText(l));
    if "--- " <= LineText(l) {
      PrefixOfLine(l, "--- ");
    }
    if "+++ " <= LineText(l) {
      PrefixOfLine(l, "+++ ");
    }
  }

  lemma LineRead(l: Line)
    requires '\n' !in l.text
    ensures !Clashes(l) ==> Classify(LineText(l)) == Body(l)
    ensures Clashes(l) ==> !Classify(LineText(l)).Body?
  {
    var line := LineText(l);
    assert line[0] == Mark(l.side);
    assert line == [Mark(l.side)] + l.text + "\n";
    if !Clashes(l) {
      NoOtherPattern(l);
      AfterWritten([Mark(l.side)], l.text);
    } else {
      var rest := l.text[3..];
      var prefix := if l.side == SRC then "--- " else "+++ ";
      assert l.text == l.text[..3] + rest;
      assert line == prefix + rest + "\n";
      AfterWritten(prefix, rest);
    }
  }

  lemma {:induction false} DigitsLengthOf(s: string, rest: string)
    requires forall i :: 0 <= i < |s| ==> IsDigit(s[i])
    requires rest != [] && !IsDigit(rest[0])
    ensures DigitsLength(s + rest) == |s|
  {
    if s == [] {
      assert s + rest == rest;
    } else {
      assert (s + rest)[1..] == s[1..] + rest;
      DigitsLengthOf(s[1..], rest);
    }
  }

  lemma FieldRead(text: string, n: nat, rest: string)
    requires StartsPlain(rest)
    ensures TakeField(text, text + (Digits(n) + rest)) == Some((n, rest))
  {
    var s := Digits(n) + rest;
    assert (text + s)[|text|..] == s;
    DigitsLengthOf(Digits(n), rest);
    NumberOfDigits(n);
    assert s[..|Digits(n)|] == Digits(n) && s[|Digits(n)|..] == rest;
  }

  lemma NegativeField(text: string, n: int, rest: string)
    requires n < 0
    ensures TakeField(text, text + (Decimal(n) + rest)) == None
  {
    assert (text + (Decimal(n) + rest))[|text|..] == Decimal(n) + rest;
  }

  lemma PlainTail(texts: seq<string>)
    requires texts != [] && AllPlain(texts)
    ensures AllPlain(texts[1..])
  {
  }

  /** One piece of text and its number are read off, and the rest is left to the other texts. */
  lemma FirstFieldRead(texts: seq<string>, ns: seq<int>, rest: string)
    requires |texts| == |ns| && texts != [] && StartsPlain(rest) && AllPlain(texts) && ns[0] >= 0
    ensures TakeFields(texts, Fields(texts, ns, rest)) ==
            match TakeFields(texts[1..], Fields(texts[1..], ns[1..], rest))
            case None => None
            case Some((others, rest')) => Some(([ns[0]] + others, rest'))
  {
    PlainTail(texts);
    FieldRead(texts[0], ns[0], Fields(texts[1..], ns[1..], rest));
  }

  lemma {:induction false} FieldsRead(texts: seq<string>, ns: seq<int>, rest: string)
    requires |texts| == |ns| && StartsPlain(rest) && AllPlain(texts)
    requires forall i :: 0 <= i < |ns| ==> ns[i] >= 0
    ensures TakeFields(texts, Fields(texts, ns, rest)) == Some((ns, rest))
    decreases texts
  {
    if texts != [] {
      FirstFieldRead(texts, ns, rest);
      FieldsRead(texts[1..], ns[1..], rest);
      assert [ns[0]] + ns[1..] == ns;
    }
  }

  /** A negative number stops the pattern. */
  lemma {:induction false} NegativeStops(texts: seq<string>, ns: seq<int>, rest: string, k: nat)
    requires |texts| == |ns| && StartsPlain(rest) && AllPlain(texts)
    requires k < |ns| && ns[k] < 0
    ensures TakeFields(texts, Fields(texts, ns, rest)) == None
    decreases texts
  {
    PlainTail(texts);
    if ns[0] < 0 {
      NegativeField(texts[0], ns[0], Fields(texts[1..], ns[1..], rest));
    } else {
      FirstFieldRead(texts, ns, rest);
      NegativeStops(texts[1..], ns[1..], rest, k - 1);
    }
  }

  lemma FieldsPlain()
    ensures AllPlain(FIELDS) && StartsPlain(" @@\n")
  {
  }

  /** A written header gives back its four numbers. */
  lemma HeaderRead(c: Chunk)
    requires c.srcPos >= 0 && c.dstPos >= 0
    ensures ReadHeader(Header(c)) == Some(HeaderNumbers(c))
  {
    FieldsPlain();
    FieldsRead(FIELDS, HeaderNumbers(c), " @@\n");
  }

  lemma HeaderMark(c: Chunk)
    ensures Header(c) != [] && Header(c)[0] == '@'
  {
    assert FIELDS[0][0] == '@';
  }

  lemma AtSign(line: string)
    requires line != [] && line[0] == '@'
    ensures Classify(line) == if ReadHeader(line).Some? then ChunkStart(ReadHeader(line).value[0], ReadHeader(line).value[2]) else Junk
  {
    AnotherStart("--- ", line);
    AnotherStart("+++ ", line);
    AnotherStart("-", line);
    AnotherStart("+", line);
    AnotherStart(" ", line);
  }

  lemma AnotherStart(prefix: string, line: string)
    requires prefix != [] && line != [] && prefix[0] != line[0]
    ensures After(prefix, line) == None
  {
  }

  lemma HeaderToken(c: Chunk)
    requires c.srcPos >= 0 && c.dstPos >= 0
    ensures Classify(Header(c)) == ChunkStart(c.srcPos, c.dstPos)
  {
    HeaderRead(c);
    HeaderMark(c);
    AtSign(Header(c));
  }

  lemma NegativeHeaderUnread(c: Chunk)
    requires c.srcPos < 0 || c.dstPos < 0
    ensures ReadHeader(Header(c)) == None
  {
    FieldsPlain();
    NegativeStops(FIELDS, HeaderNumbers(c), " @@\n", if c.srcPos < 0 then 0 else 2);
  }

  /** A header with a negative position is not recognised as anything. */
  lemma NegativeHeaderIsJunk(c: Chunk)
    requires c.srcPos < 0 || c.dstPos < 0
    ensures Classify(Header(c)) == Junk
  {
    NegativeHeaderUnread(c);
    HeaderMark(c);
    AtSign(Header(c));
  }

  // ----- Items and tokens ---------------------------------------------------------------------

  predicate OneLiner(s: string) {
    '\n' !in s
  }

  /** The texts in the item do not run over several lines. */
  predicate OneLineItem(item: Item) {
    match item
    case SrcItem(name) => OneLiner(name)
    case DstItem(name) => OneLiner(name)
    case HeaderItem(_) => true
    case LineItem(l) => OneLiner(l.text)
  }

  /** No negative position, and no line that looks like a file line. */
  predicate ReadableItem(item: Item) {
    match item
    case SrcItem(_) => true
    case DstItem(_) => true
    case HeaderItem(c) => c.srcPos >= 0 && c.dstPos >= 0
    case LineItem(l) => !Clashes(l)
  }

  function TokenOf(item: Item): Token {
    match item
    case SrcItem(name) => SrcFile(name)
    case DstItem(name) => DstFile(name)
    case HeaderItem(c) => ChunkStart(c.srcPos, c.dstPos)
    case LineItem(l) => Body(l)
  }

  /** A readable item is read as what it is; an unreadable one never as a line of a chunk. */
  lemma ItemRead(item: Item)
    requires OneLineItem(item)
    ensures ReadableItem(item) ==> Classify(ItemText(item)) == TokenOf(item)
    ensures !ReadableItem(item) ==> !Classify(ItemText(item)).Body?
    ensures !ReadableItem(item) && item.HeaderItem? ==> Classify(ItemText(item)) == Junk
  {
    match item
    case SrcItem(name) => FileLinesRead(name, name);
    case DstItem(name) => FileLinesRead(name, name);
    case HeaderItem(c) =>
      if ReadableItem(item) {
        HeaderToken(c);
      } else {
        NegativeHeaderIsJunk(c);
      }
    case LineItem(l) => LineRead(l);
  }

  // ----- What a header promises ------------------------------------------------------------

  function CountMarked(lines: seq<string>, marks: set<char>): nat {
    if lines == [] then 0
    else
      var l := lines[|lines| - 1];
      CountMarked(lines[..|lines| - 1], marks) + if l != [] && l[0] in marks then 1 else 0
  }

  lemma LinesSnoc(lines: seq<Line>)
    requires lines != []
    ensures var text, n := Text(LineItems(lines)), |lines| - 1;
            && text != [] && text[..|text| - 1] == Text(LineItems(lines[..n]))
            && text[|text| - 1] == [Mark(lines[n].side)] + lines[n].text + "\n"
  {
  }

  lemma {:induction false} SrcCounted(lines: seq<Line>)
    ensures |SrcLines(lines)| == CountMarked(Text(LineItems(lines)), {'-', ' '})
  {
    if lines != [] {
      SrcCounted(lines[..|lines| - 1]);
      LinesSnoc(lines);
    }
  }

  lemma {:induction false} DstCounted(lines: seq<Line>)
    ensures |DstLines(lines)| == CountMarked(Text(LineItems(lines)), {'+', ' '})
  {
    if lines != [] {
      DstCounted(lines[..|lines| - 1]);
      LinesSnoc(lines);
    }
  }

  /** The lines written below a chunk's header. */
  function BodyText(c: Chunk): seq<string> {
    Text(LineItems(c.lines))
  }

  lemma HeaderThenBody(c: Chunk)
    ensures Text(ChunkItems(c)) == [Header(c)] + BodyText(c)
  {
  }

  /** Every written header carries the true numbers of source and destination lines below it, and
      is read back as it was written unless a position is negative. */
  lemma HeaderCountsTrue(c: Chunk)
    ensures var numbers := [c.srcPos, CountMarked(BodyText(c), {'-', ' '}), c.dstPos, CountMarked(BodyText(c), {'+', ' '})];
            && Header(c) == Fields(FIELDS, numbers, " @@\n")
            && ReadHeader(Header(c)) == if c.srcPos >= 0 && c.dstPos >= 0 then Some(numbers) else None
  {
    SrcCounted(c.lines);
    DstCounted(c.lines);
    if c.srcPos >= 0 && c.dstPos >= 0 {
      HeaderRead(c);
    } else {
      NegativeHeaderUnread(c);
    }
  }
}
