// A summary that takes all the room a summary can take (src/compaction/render.ts).
module FullestSummary {
  import opened Text
  import opened Basics
  import opened Bounds
  import opened Instructions
  import opened Json
  import opened Render

  function Xs(n: nat): (t: Text)
    ensures |t| == n && Ascii(t)
  {
    seq(n, (i: nat) => 0x78)
  }

  // Lines that take n units with the line break before each.
  function Filler(n: nat): (lines: seq<Text>)
    requires n >= 1
    ensures lines != [] && forall i :: 0 <= i < |lines| ==> Ascii(lines[i]) && |lines[i]| <= MAX_RENDERED_LINE_BYTES
    ensures 512 * |lines| <= n + 511
  {
    if n <= 1025 then [Xs(n - 1)] else [Xs(511)] + Filler(n - 512)
  }

  ghost function Units(parts: seq<Text>): nat {
    if parts == [] then 0 else Units(parts[..|parts| - 1]) + |parts[|parts| - 1]|
  }

  lemma {:induction false} UnitsConcat(a: seq<Text>, b: seq<Text>)
    ensures Units(a + b) == Units(a) + Units(b)
  {
    if b == [] {
      assert a + b == a;
    } else {
      UnitsConcat(a, b[..|b| - 1]);
      assert (a + b)[..|a + b| - 1] == a + b[..|b| - 1];
    }
  }

  lemma UnitsOne(t: Text)
    ensures Units([t]) == |t|
  {
    assert [t][..0] == [];
  }

  lemma {:induction false} JoinUnits(parts: seq<Text>, separator: Text)
    requires parts != []
    ensures |JoinWith(parts, separator)| == Units(parts) + (|parts| - 1) * |separator|
  {
    if |parts| > 1 {
      JoinUnits(parts[..|parts| - 1], separator);
      NextSeparator(|parts| - 2, |separator|);
    } else {
      UnitsOne(parts[0]);
      assert parts == [parts[0]];
    }
  }

  lemma NextSeparator(n: nat, x: nat)
    ensures (n + 1) * x == n * x + x
  {}

  lemma {:induction false} JoinIsAscii(parts: seq<Text>, separator: Text)
    requires Ascii(separator) && forall i :: 0 <= i < |parts| ==> Ascii(parts[i])
    ensures Ascii(JoinWith(parts, separator))
  {
    if |parts| > 1 {
      JoinIsAscii(parts[..|parts| - 1], separator);
    }
  }

  lemma {:induction false} FillerUnits(n: nat)
    requires n >= 1
    ensures Units(Filler(n)) + |Filler(n)| == n
  {
    if n <= 1025 {
      UnitsOne(Xs(n - 1));
    } else {
      FillerUnits(n - 512);
      UnitsOne(Xs(511));
      UnitsConcat([Xs(511)], Filler(n - 512));
    }
  }

  // Few short plain lines are neither clipped nor sampled.
  lemma PlainLinesStay(lines: seq<Text>)
    requires |lines| <= MAX_INPUT_LINES_PER_SECTION
    requires forall i :: 0 <= i < |lines| ==> Ascii(lines[i]) && |lines[i]| <= MAX_RENDERED_LINE_BYTES
    ensures CappedLines(lines) == lines
  {
    hide Clip, Utf8Bytes;
    forall i | 0 <= i < |lines| ensures Clip(lines[i], MAX_RENDERED_LINE_BYTES, ELLIPSIS) == lines[i] {
      PlainBytes(lines[i]);
      ClipBounded(lines[i], MAX_RENDERED_LINE_BYTES, ELLIPSIS);
    }
    assert ClippedLines(lines) == lines;
  }

  // Few short plain lines, which with the header and the line breaks take all the room, make a block of just that size.
  lemma WholeBlock(header: Text, lines: seq<Text>, maxBytes: nat)
    requires Ascii(header) && |lines| <= MAX_INPUT_LINES_PER_SECTION
    requires forall i :: 0 <= i < |lines| ==> Ascii(lines[i]) && |lines[i]| <= MAX_RENDERED_LINE_BYTES
    requires |header| + Units(lines) + |lines| == maxBytes
    ensures |BoundedBlockOf(header, lines, maxBytes)| == maxBytes
  {
    hide Utf8Bytes, JoinWith, CappedLines;
    var parts := [header] + lines;
    PlainLinesStay(lines);
    UnitsOne(header);
    UnitsConcat([header], lines);
    JoinUnits(parts, [LF]);
    JoinIsAscii(parts, [LF]);
    PlainBytes(JoinWith(parts, [LF]));
    assert Block(header, lines, |lines|) == JoinWith(parts, [LF]);
  }

  // A block filled to its bound.
  lemma FullBlock(header: Text, maxBytes: nat)
    requires Ascii(header) && |header| < maxBytes <= 5120
    ensures |BoundedBlockOf(header, Filler(maxBytes - |header|), maxBytes)| == maxBytes
  {
    FillerUnits(maxBytes - |header|);
    WholeBlock(header, Filler(maxBytes - |header|), maxBytes);
  }

  function Fill(header: Text, maxBytes: nat): seq<Text>
    requires |header| < maxBytes
  {
    Filler(maxBytes - |header|)
  }

  function Fullest(): Sections {
    Sections(Fill(GoalHeader(), 4096), Fill(FilesHeader(), 4608), Fill(ActivityHeader(), 2048),
             Fill(OutstandingHeader(), 4608), Fill(EarlierHeader(), 3072), Fill(StatusHeader(), 2048),
             Fill(Rule(), TRANSCRIPT_MAX_BYTES))
  }

  // A request the lines of which take all of the room for it.
  function FullestRequest(): Request { Request(Some(Xs(1023)), Some([Xs(998), Xs(998)])) }

  function FullestLines(): seq<Text> { [Xs(1023), PreserveLine(Xs(998), 0), PreserveLine(Xs(998), 1)] }

  // A footer line that takes all the bytes a line may take, between two entries and without entries.
  function FullestOptions(): RenderOptions { RenderOptions(Xs(477), Xs(478), Chars("2025-01-01T00:00:00.000Z"), false) }

  function WidestOptions(): RenderOptions { RenderOptions([], [], Xs(972), false) }

  ghost predicate Filled(s: Section) {
    s.lines != [] && |SectionBlock(s)| == s.maxBytes
  }

  lemma FilledSection(header: Text, maxBytes: nat)
    requires Ascii(header) && |header| < maxBytes <= 5120
    ensures Filled(Section(Fill(header, maxBytes), header, maxBytes))
  {
    FullBlock(header, maxBytes);
  }

  lemma {:induction false} FilledBlocks(order: seq<Section>, requestLines: seq<Text>)
    requires order != [] && requestLines != [] && forall i :: 0 <= i < |order| ==> Filled(order[i])
    ensures var blocks, request := SectionBlocks(order, requestLines), RequestBlock(requestLines);
      |blocks| == |order| + 1 && Units(blocks) + 2 * |order| == SectionBudget(order) + Units(request)
  {
    hide RequestBlock, SectionBlock;
    var i, s := |order| - 1, order[|order| - 1];
    var more := BlocksOfSection(s, i == 0, requestLines);
    UnitsOne(SectionBlock(s));
    UnitsConcat([SectionBlock(s)], if i == 0 then RequestBlock(requestLines) else []);
    UnitsConcat(SectionBlocks(order[..i], requestLines), more);
    if i == 0 {
      assert order[..0] == [];
      OneRequest(requestLines);
    } else {
      FilledBlocks(order[..i], requestLines);
      assert [SectionBlock(s)] + [] == [SectionBlock(s)];
    }
  }

  lemma OneRequest(requestLines: seq<Text>)
    requires requestLines != []
    ensures |RequestBlock(requestLines)| == 1
  {}

  lemma FullestOrder()
    ensures var order := SectionOrder(Fullest());
      |order| == 6 && SectionBudget(order) == 20492 && forall i :: 0 <= i < 6 ==> Filled(order[i])
  {
    hide Filled, Fill, Filler, SectionBudget, GoalHeader, FilesHeader, ActivityHeader, OutstandingHeader, EarlierHeader,
        StatusHeader;
    SectionBudgetTotal(Fullest());
    FilledSection(GoalHeader(), 4096);
    FilledSection(FilesHeader(), 4608);
    FilledSection(ActivityHeader(), 2048);
    FilledSection(OutstandingHeader(), 4608);
    FilledSection(EarlierHeader(), 3072);
    FilledSection(StatusHeader(), 2048);
  }

  lemma FullestFooter(o: RenderOptions)
    requires Utf8Bytes(FooterLine(o)) == MAX_RENDERED_LINE_BYTES
    ensures |FooterBlock(FooterLine(o))| == 98 + |FooterLine(o)|
  {
    var footer := FooterLine(o);
    RecallBytes();
    hide FooterBlock, FooterLine, Clip, RecallLine, Rule, Utf8Bytes, JoinWith;
    ClipBounded(footer, MAX_RENDERED_LINE_BYTES, ELLIPSIS);
    FooterIsWhole(footer);
    JoinThree(Rule(), footer, RecallLine());
  }

  lemma WidestFooter()
    ensures var footer := FooterLine(WidestOptions());
      Utf8Bytes(footer) == |footer| == MAX_RENDERED_LINE_BYTES
  {
    hide Xs, Utf8Bytes;
    var head, tail, range := Chars("[compacted "), Chars("; cumulative source entries "), Chars("(no entries)");
    var footer := FooterLine(WidestOptions());
    assert footer == head + Xs(972) + tail + range + Chars("]");
    PlainBytes(footer);
  }

  // The arrow between the entries is one character of three bytes.
  lemma ArrowFooter()
    ensures var footer := FooterLine(FullestOptions());
      Utf8Bytes(footer) == MAX_RENDERED_LINE_BYTES && |footer| == MAX_RENDERED_LINE_BYTES - 2
  {
    hide Utf8Bytes;
    var left, right := ArrowLeft(), ArrowRight();
    var footer := FooterLine(FullestOptions());
    assert footer == left + [0x2192] + right by { ArrowSplit(); }
    PlainBytes(left);
    PlainBytes(right);
    assert Utf8Bytes([0x2192]) == 3 by { ArrowBytes(); }
    Utf8Concat(left, [0x2192]);
    Utf8Concat(left + [0x2192], right);
  }

  function ArrowLeft(): (t: Text)
    ensures Ascii(t) && |t| == 541
  {
    Chars("[compacted ") + Chars("2025-01-01T00:00:00.000Z") + Chars("; cumulative source entries ") + Xs(477) + [SPACE]
  }

  function ArrowRight(): (t: Text)
    ensures Ascii(t) && |t| == 480
  {
    [SPACE] + Xs(478) + [RBRACKET]
  }

  lemma ArrowSplit()
    ensures FooterLine(FullestOptions()) == ArrowLeft() + [0x2192] + ArrowRight()
  {
    hide Xs;
    assert Chars(" \U{2192} ") == [SPACE, 0x2192, SPACE];
    assert Chars("]") == [RBRACKET];
  }

  lemma ArrowBytes()
    ensures Utf8Bytes([0x2192]) == 3
  {
    var arrow: Text := [0x2192];
    assert !StartsWithPair(arrow) && arrow[1..] == [];
  }

  lemma FullestTranscript()
    ensures |BoundedBlockOf(Rule(), Fullest().transcript, TRANSCRIPT_MAX_BYTES)| == TRANSCRIPT_MAX_BYTES
      && Fullest().transcript != []
  {
    FullBlock(Rule(), TRANSCRIPT_MAX_BYTES);
  }

  // ----- a request that is encoded, decoded and rendered in full -----

  // Characters that JSON leaves as they are.
  ghost predicate Plain(t: Text) {
    forall i :: 0 <= i < |t| ==> 0x20 <= t[i] < 0x80 && t[i] != QUOTE && t[i] != BACKSLASH
  }

  lemma {:induction false} PlainEscape(t: Text)
    requires Plain(t)
    ensures Escape(t) == t
  {
    if t != [] {
      PlainEscape(t[1..]);
      assert t == [t[0]] + t[1..];
    }
  }

  // A text of x is a word, and stays as it is.
  lemma PlainText(n: nat)
    requires n >= 1
    ensures Canonical(Xs(n)) == Xs(n) && Paired(Xs(n)) && Utf8Bytes(Xs(n)) == n
  {
    hide Canonical, Words, Paired, Utf8Bytes;
    var t := Xs(n);
    PairedAscii(t);
    PlainBytes(t);
    assert !IsWhite(0x78);
    WordsFront(t, []);
    assert t + [] == t;
    OneWord(t);
  }

  lemma OneWord(t: Text)
    requires Words(t) == [t] + Words([])
    ensures Canonical(t) == t
  {
    assert Words([]) == [];
    assert [t] + [] == [t];
  }

  lemma FullestLinesOf()
    ensures LinesOf(FullestRequest()) == FullestLines()
  {
    PlainText(1023);
    PlainText(998);
    hide Canonical, Xs, PreserveLine, LinesOf;
    LinesOfThree(Xs(1023), Xs(998));
  }

  lemma LinesOfThree(t: Text, u: Text)
    requires Canonical(t) == t != [] && Canonical(u) == u != []
    ensures LinesOf(Request(Some(t), Some([u, u]))) == [t, PreserveLine(u, 0), PreserveLine(u, 1)]
  {
    hide Canonical, PreserveLine;
    var items: seq<Text> := [u, u];
    assert items[..1] == [u] && items[..1][..0] == [];
    assert PreserveLines(items[..1]) == [PreserveLine(u, 0)];
    assert PreserveLines(items) == [PreserveLine(u, 0), PreserveLine(u, 1)];
  }

  lemma FullestIsBounded()
    ensures RequestError(FullestRequest()).None?
  {
    hide Xs, Utf8Bytes, Paired;
    PlainText(1023);
    PlainText(998);
    var items: seq<Text> := [Xs(998), Xs(998)];
    assert items[1..][1..] == [];
    assert ItemsError(items[1..]).None?;
    assert ItemsError(items).None?;
  }

  // The encoded request is as long as its parts.
  lemma FullestIsEncodable()
    ensures Encodable(FullestRequest())
  {
    FullestIsBounded();
    FullestText();
    hide RequestError;
    PlainBytes(PREFIX + Print(Payload(FullestRequest())));
  }

  // At most n units, of one byte each.
  ghost predicate Sized(t: Text, n: nat) {
    Ascii(t) && |t| <= n
  }

  lemma SizedConcat(a: Text, n: nat, b: Text, m: nat)
    requires Sized(a, n) && Sized(b, m)
    ensures Sized(a + b, n + m)
  {}

  lemma SizedQuote(t: Text)
    requires Plain(t)
    ensures Sized(Quoted(t), |t| + 2)
  {
    PlainEscape(t);
  }

  lemma SizedOne()
    ensures Sized([COMMA], 1) && Sized([COLON], 1) && Sized([LBRACE], 1) && Sized([RBRACE], 1) && Sized([LBRACKET], 1)
      && Sized([RBRACKET], 1)
  {}

  lemma SizedItems()
    ensures Sized(Print(Arr(Strings([Xs(998), Xs(998)]))), 2003)
  {
    var js := Strings([Xs(998), Xs(998)]);
    var item := Quoted(Xs(998));
    SizedQuote(Xs(998));
    SizedOne();
    hide Xs, Sized, Quoted;
    assert js == [Str(Xs(998)), Str(Xs(998))] && js[1..] == [Str(Xs(998))];
    assert PrintItems(js) == item + [COMMA] + item;
    SizedConcat(item, 1000, [COMMA], 1);
    SizedConcat(item + [COMMA], 1001, item, 1000);
    SizedConcat([LBRACKET], 1, item + [COMMA] + item, 2001);
    SizedConcat([LBRACKET] + (item + [COMMA] + item), 2002, [RBRACKET], 1);
  }

  lemma SizedMember(m: Field, n: nat)
    requires Plain(m.key) && |m.key| <= 12 && Sized(Print(m.value), n)
    ensures Sized(PrintMember(m), n + 15)
  {
    SizedQuote(m.key);
    SizedOne();
  }

  lemma SizedMembers(ms: seq<Field>, a: nat, b: nat, c: nat)
    requires |ms| == 3 && Sized(PrintMember(ms[0]), a) && Sized(PrintMember(ms[1]), b) && Sized(PrintMember(ms[2]), c)
    ensures Sized(Print(Obj(ms)), a + b + c + 4)
  {
    var x, y, z := PrintMember(ms[0]), PrintMember(ms[1]), PrintMember(ms[2]);
    SizedOne();
    hide PrintMember, Sized;
    assert ms[1..] == [ms[1], ms[2]] && ms[1..][1..] == [ms[2]];
    assert PrintMembers(ms[1..]) == y + [COMMA] + z;
    assert PrintMembers(ms) == x + [COMMA] + (y + [COMMA] + z);
    SizedConcat(y, b, [COMMA], 1);
    SizedConcat(y + [COMMA], b + 1, z, c);
    SizedConcat(x, a, [COMMA], 1);
    SizedConcat(x + [COMMA], a + 1, y + [COMMA] + z, b + 1 + c);
    SizedConcat([LBRACE], 1, x + [COMMA] + (y + [COMMA] + z), a + 1 + (b + 1 + c));
    SizedConcat([LBRACE] + (x + [COMMA] + (y + [COMMA] + z)), a + b + c + 3, [RBRACE], 1);
  }

  lemma SizedKeys()
    ensures Plain(VERSION_KEY) && Plain(INSTRUCTIONS_KEY) && Plain(PRESERVE_KEY) && Sized(PREFIX, 33)
    ensures |VERSION_KEY| <= 12 && |INSTRUCTIONS_KEY| <= 12 && |PRESERVE_KEY| <= 12
  {}

  lemma SizedVersion()
    ensures Sized(Print(Num(One())), 1)
  {
    assert Print(Num(One())) == [0x31];
  }

  lemma FullestText()
    ensures Sized(PREFIX + Print(Payload(FullestRequest())), 3200)
  {
    SizedItems();
    SizedQuote(Xs(1023));
    SizedKeys();
    SizedVersion();
    hide Xs, Strings, Quoted, PrintMember, PrintMembers, Sized, Plain, One;
    var items, text := Arr(Strings([Xs(998), Xs(998)])), Str(Xs(1023));
    var ms := [Field(VERSION_KEY, Num(One())), Field(INSTRUCTIONS_KEY, text), Field(PRESERVE_KEY, items)];
    assert Payload(FullestRequest()).members == ms;
    SizedMember(ms[0], 1);
    SizedMember(ms[1], 1025);
    SizedMember(ms[2], 2003);
    SizedMembers(ms, 16, 1040, 2018);
    SizedConcat(PREFIX, 33, Print(Obj(ms)), 3078);
    Larger(PREFIX + Print(Obj(ms)), 3111, 3200);
  }

  lemma Larger(t: Text, n: nat, m: nat)
    requires Sized(t, n) && n <= m
    ensures Sized(t, m)
  {}

  lemma FullestRequestBlock()
    ensures Units(RequestBlock(FullestLines())) == REQUEST_MAX_BYTES
  {
    hide Utf8Bytes, BlockFrom, Xs;
    var lines := FullestLines();
    FullestLinesUnits();
    WholeBlock(RequestHeader(), lines, REQUEST_MAX_BYTES);
    UnitsOne(BoundedBlockOf(RequestHeader(), lines, REQUEST_MAX_BYTES));
  }

  lemma FullestLinesUnits()
    ensures var lines := FullestLines();
      && Units(lines) == 3049 && |lines| == 3
      && forall i :: 0 <= i < 3 ==> Ascii(lines[i]) && |lines[i]| <= MAX_RENDERED_LINE_BYTES
  {
    hide Xs;
    var lines := FullestLines();
    assert lines[..2] == [lines[0], lines[1]] && lines[..2][..1] == [lines[0]];
    UnitsOne(lines[0]);
    assert Units(lines[..2]) == Units(lines[..2][..1]) + |lines[1]|;
  }

  // What this summary takes, for any footer.
  lemma FullestLength(o: RenderOptions)
    ensures |Summary(Fullest(), FullestLines(), o)| == 28689 + |FooterBlock(FooterLine(o))|
  {
    var s, request, footer := Fullest(), FullestLines(), FooterLine(o);
    FullestOrder();
    FullestTranscript();
    FullestRequestBlock();
    assert s.goal != [] && request != [];
    hide Fullest, FullestLines, FooterLine, FooterBlock, BoundedBlockOf, SectionBlocks, SectionOrder, RequestBlock,
        JoinWith, Filled;
    FilledBlocks(SectionOrder(s), request);
    var sections, transcript, last :=
        SectionBlocks(SectionOrder(s), request), TranscriptBlocks(s), [FooterBlock(footer)];
    UnitsOne(transcript[0]);
    UnitsOne(FooterBlock(footer));
    assert [] + sections == sections && transcript == [transcript[0]];
    UnitsConcat(sections, transcript);
    UnitsConcat(sections + transcript, last);
    assert Blocks(s, request, footer) == sections + transcript + last;
    JoinUnits(Blocks(s, request, footer), SEPARATOR);
  }

  // The bound is attained.
  lemma LargestIsAttained()
    ensures |Summary(Fullest(), FullestLines(), WidestOptions())| == LARGEST_SUMMARY
  {
    hide Fullest, FullestLines, Summary, FooterBlock, FooterLine, Utf8Bytes, WidestOptions;
    WidestFooter();
    FullestFooter(WidestOptions());
    FullestLength(WidestOptions());
  }

  // With the lines of a request that can be encoded, and with entries to name, it is missed by the two bytes of the
  // arrow.
  lemma CompiledIsAttained()
    ensures Encodable(FullestRequest()) && FullestOptions().firstEntryId != [] && FullestOptions().lastEntryId != []
    ensures |Summary(Fullest(), LinesOf(FullestRequest()), FullestOptions())| == LARGEST_SUMMARY - 2
  {
    FullestIsEncodable();
    FullestLinesOf();
    assert FullestOptions().firstEntryId[0] == 0x78 && FullestOptions().lastEntryId[0] == 0x78;
    hide Fullest, FullestLines, FullestRequest, LinesOf, Encodable, Summary, FooterBlock, FooterLine, Utf8Bytes,
        FullestOptions;
    ArrowFooter();
    FullestFooter(FullestOptions());
    FullestLength(FullestOptions());
  }
}
