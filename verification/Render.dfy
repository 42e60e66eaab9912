// Rendering a summary in byte-bounded blocks (src/compaction/render.ts).
module Render {
  import opened Text
  import opened Bounds

  const REQUEST_MAX_BYTES := 3072
  const TRANSCRIPT_MAX_BYTES := 5120
  const FOOTER_MAX_BYTES := 1536
  const MAX_INPUT_LINES_PER_SECTION := 128
  const MAX_RENDERED_LINE_BYTES := 1024

  datatype Sections = Sections(
    goal: seq<Text>, files: seq<Text>, activity: seq<Text>, outstanding: seq<Text>,
    earlierTurns: seq<Text>, status: seq<Text>, transcript: seq<Text>)

  // A section with its header and byte bound.
  datatype Section = Section(lines: seq<Text>, header: Text, maxBytes: nat)

  function GoalHeader(): (t: Text)
    ensures Ascii(t) && |t| == 14
  {
    Chars("[Session Goal]")
  }

  function FilesHeader(): (t: Text)
    ensures Ascii(t) && |t| == 19
  {
    Chars("[Files And Changes]")
  }

  function ActivityHeader(): (t: Text)
    ensures Ascii(t) && |t| == 17
  {
    Chars("[Fabric Activity]")
  }

  function OutstandingHeader(): (t: Text)
    ensures Ascii(t) && |t| == 21
  {
    Chars("[Outstanding Context]")
  }

  function EarlierHeader(): (t: Text)
    ensures Ascii(t) && |t| == 15
  {
    Chars("[Earlier Turns]")
  }

  function StatusHeader(): (t: Text)
    ensures Ascii(t) && |t| == 16
  {
    Chars("[Current Status]")
  }

  function RequestHeader(): (t: Text)
    ensures Ascii(t) && |t| == 20
  {
    Chars("[Compaction Request]")
  }

  function Rule(): (t: Text)
    ensures Ascii(t) && |t| == 3
  {
    Chars("---")
  }

  // "For full pre-summary history, search the session log across this entry range (memory.recall)."
  function RecallLine(): Text { RecallPart1() + RecallPart2() + RecallPart3() + RecallPart4() }

  function RecallPart1(): (t: Text)
    ensures Ascii(t) && |t| == 30
  {
    Chars("For full pre-summary history, ")
  }

  function RecallPart2(): (t: Text)
    ensures Ascii(t) && |t| == 23
  {
    Chars("search the session log ")
  }

  function RecallPart3(): (t: Text)
    ensures Ascii(t) && |t| == 24
  {
    Chars("across this entry range ")
  }

  function RecallPart4(): (t: Text)
    ensures Ascii(t) && |t| == 16
  {
    Chars("(memory.recall).")
  }

  // What the last line of a summary tells of its source.
  datatype RenderOptions = RenderOptions(firstEntryId: Text, lastEntryId: Text, lastTimestamp: Text, branch: bool)

  function OrElse(t: Text, default: string): Text {
    if t == [] then Chars(default) else t
  }

  function RangeText(o: RenderOptions): Text {
    if o.firstEntryId == [] && o.lastEntryId == [] then Chars("(no entries)")
    else OrElse(o.firstEntryId, "(start)") + Chars(" \U{2192} ") + OrElse(o.lastEntryId, "(end)")
  }

  function FooterLine(o: RenderOptions): Text {
    var timestamp := OrElse(o.lastTimestamp, "(unknown time)");
    if o.branch
    then Chars("[branch summarized ") + timestamp + Chars("; structural source entries ") + RangeText(o) + Chars("]")
    else Chars("[compacted ") + timestamp + Chars("; cumulative source entries ") + RangeText(o) + Chars("]")
  }

  // The sections in order, the goal first.
  function SectionOrder(s: Sections): seq<Section> {
    [Section(s.goal, GoalHeader(), 4096),
     Section(s.files, FilesHeader(), 4608),
     Section(s.activity, ActivityHeader(), 2048),
     Section(s.outstanding, OutstandingHeader(), 4608),
     Section(s.earlierTurns, EarlierHeader(), 3072),
     Section(s.status, StatusHeader(), 2048)]
  }

  function OmittedLine(count: nat): Text {
    ELLIPSIS + Chars(" omitted ") + Digits(count) + Chars(" rendered lines")
  }

  // Both ends of the lines, with a note for what is left out between them.
  function SampledLines(lines: seq<Text>, keep: nat): seq<Text> {
    if |lines| <= keep then lines
    else lines[..(keep + 1) / 2] + [OmittedLine(|lines| - keep)] + lines[|lines| - keep / 2..]
  }

  function Block(header: Text, capped: seq<Text>, keep: nat): Text {
    JoinWith([header] + SampledLines(capped, keep), [LF])
  }

  function ClippedLines(lines: seq<Text>): seq<Text> {
    seq(|lines|, i requires 0 <= i < |lines| => Clip(lines[i], MAX_RENDERED_LINE_BYTES, ELLIPSIS))
  }

  function CappedLines(lines: seq<Text>): seq<Text> {
    var clipped := ClippedLines(lines);
    SampledLines(clipped, if |clipped| < MAX_INPUT_LINES_PER_SECTION then |clipped| else MAX_INPUT_LINES_PER_SECTION)
  }

  // From `keep` lines downwards, the first sample that fits; the clipped header when none does.
  function BlockFrom(header: Text, capped: seq<Text>, keep: int, maxBytes: nat): Text
    requires keep >= -1
    decreases keep + 1
  {
    if keep < 0 then Clip(header, maxBytes, ELLIPSIS)
    else if Utf8Bytes(Block(header, capped, keep)) <= maxBytes then Block(header, capped, keep)
    else BlockFrom(header, capped, keep - 1, maxBytes)
  }

  function BoundedBlockOf(header: Text, lines: seq<Text>, maxBytes: nat): Text {
    BlockFrom(header, CappedLines(lines), |CappedLines(lines)|, maxBytes)
  }

  method BoundedBlock(header: Text, sourceLines: seq<Text>, maxBytes: nat) returns (block: Text)
    ensures block == BoundedBlockOf(header, sourceLines, maxBytes)
  {
    var capped := CappedLines(sourceLines);
    var keep := |capped|;
    while keep >= 0
      invariant -1 <= keep
      invariant BlockFrom(header, capped, keep, maxBytes) == BoundedBlockOf(header, sourceLines, maxBytes)
    {
      block := Block(header, capped, keep);
      if Utf8Bytes(block) <= maxBytes { return; }
      keep := keep - 1;
    }
    block := ClipUtf8(header, maxBytes);
  }

  // A block is within its bound.
  lemma {:induction false} BlockIsBounded(header: Text, capped: seq<Text>, keep: int, maxBytes: nat)
    requires keep >= -1
    ensures Utf8Bytes(BlockFrom(header, capped, keep, maxBytes)) <= maxBytes
    decreases keep + 1
  {
    if keep < 0 {
      ClipBounded(header, maxBytes, ELLIPSIS);
    } else if Utf8Bytes(Block(header, capped, keep)) > maxBytes {
      BlockIsBounded(header, capped, keep - 1, maxBytes);
    }
  }

  // It keeps as many lines as the bound allows: at least any number k of lines that fit.
  lemma {:induction false} BlockIsFullest(header: Text, capped: seq<Text>, keep: int, maxBytes: nat, k: nat)
    returns (best: nat)
    requires k <= keep && Utf8Bytes(Block(header, capped, k)) <= maxBytes
    ensures k <= best <= keep && BlockFrom(header, capped, keep, maxBytes) == Block(header, capped, best)
    decreases keep
  {
    hide Utf8Bytes, Block;
    if Utf8Bytes(Block(header, capped, keep)) <= maxBytes {
      best := keep;
    } else {
      best := BlockIsFullest(header, capped, keep - 1, maxBytes, k);
    }
  }

  const SEPARATOR: Text := [LF, LF]

  lemma SeparatorBytes()
    ensures Utf8Bytes(SEPARATOR) == 2 && Utf8Bytes([LF]) == 1
  {
    assert !StartsWithPair(SEPARATOR) && SEPARATOR[1..] == [LF];
    assert !StartsWithPair([LF]) && [LF][1..] == [];
    assert Utf8Bytes([LF]) == 1 + Utf8Bytes([]);
  }

  lemma JoinSnoc(parts: seq<Text>, part: Text, separator: Text)
    ensures JoinWith(parts + [part], separator) ==
      if parts == [] then part else JoinWith(parts, separator) + separator + part
  {
    assert (parts + [part])[..|parts|] == parts;
  }

  // A further block costs at most its bytes and the separator.
  lemma JoinBytes(parts: seq<Text>, part: Text)
    ensures Utf8Bytes(JoinWith(parts + [part], SEPARATOR))
      <= Utf8Bytes(JoinWith(parts, SEPARATOR)) + 2 + Utf8Bytes(part)
  {
    JoinSnoc(parts, part, SEPARATOR);
    SeparatorBytes();
    Utf8ConcatAtMost(JoinWith(parts, SEPARATOR), SEPARATOR);
    Utf8ConcatAtMost(JoinWith(parts, SEPARATOR) + SEPARATOR, part);
  }

  function SectionBlock(s: Section): Text {
    BoundedBlockOf(s.header, s.lines, s.maxBytes)
  }

  function RequestBlock(requestLines: seq<Text>): seq<Text> {
    if requestLines == [] then [] else [BoundedBlockOf(RequestHeader(), requestLines, REQUEST_MAX_BYTES)]
  }

  function BlocksOfSection(s: Section, first: bool, requestLines: seq<Text>): seq<Text> {
    if s.lines == [] then [] else [SectionBlock(s)] + if first then RequestBlock(requestLines) else []
  }

  // The blocks of the non-empty sections; the request follows the goal, when there is one.
  function SectionBlocks(order: seq<Section>, requestLines: seq<Text>): seq<Text> {
    if order == [] then [] else
      var i := |order| - 1;
      SectionBlocks(order[..i], requestLines) + BlocksOfSection(order[i], i == 0, requestLines)
  }

  function Blocks(s: Sections, requestLines: seq<Text>, footer: Text): seq<Text> {
    LeadBlocks(s, requestLines) + SectionBlocks(SectionOrder(s), requestLines) + TranscriptBlocks(s)
      + [FooterBlock(footer)]
  }

  // Without a goal the request comes before everything else.
  function LeadBlocks(s: Sections, requestLines: seq<Text>): seq<Text> {
    if s.goal == [] then RequestBlock(requestLines) else []
  }

  function TranscriptBlocks(s: Sections): seq<Text> {
    if s.transcript == [] then [] else [BoundedBlockOf(Rule(), s.transcript, TRANSCRIPT_MAX_BYTES)]
  }

  function FooterBlock(footer: Text): Text {
    BoundedBlockOf(Rule(), [footer, RecallLine()], FOOTER_MAX_BYTES)
  }

  method RenderSection(section: Section, first: bool, requestLines: seq<Text>) returns (blocks: seq<Text>)
    ensures blocks == BlocksOfSection(section, first, requestLines)
  {
    blocks := [];
    if |section.lines| > 0 {
      var block := BoundedBlock(section.header, section.lines, section.maxBytes);
      blocks := blocks + [block];
      if first && |requestLines| > 0 {
        var request := BoundedBlock(RequestHeader(), requestLines, REQUEST_MAX_BYTES);
        blocks := blocks + [request];
      }
    }
  }

  method RenderSections(order: seq<Section>, requestLines: seq<Text>) returns (blocks: seq<Text>)
    ensures blocks == SectionBlocks(order, requestLines)
  {
    blocks := [];
    for i := 0 to |order|
      invariant blocks == SectionBlocks(order[..i], requestLines)
    {
      hide BlocksOfSection;
      assert order[..i + 1][..i] == order[..i];
      var more := RenderSection(order[i], i == 0, requestLines);
      blocks := blocks + more;
    }
    assert order[..|order|] == order;
  }

  method CollectBlocks(s: Sections, requestLines: seq<Text>, footer: Text) returns (blocks: seq<Text>)
    ensures blocks == Blocks(s, requestLines, footer)
  {
    blocks := RenderSections(SectionOrder(s), requestLines);
    var lead := RenderLead(s, requestLines);
    var transcript := RenderTranscript(s);
    var last := BoundedBlock(Rule(), [footer, RecallLine()], FOOTER_MAX_BYTES);
    blocks := lead + blocks + transcript + [last];
  }

  method RenderLead(s: Sections, requestLines: seq<Text>) returns (blocks: seq<Text>)
    ensures blocks == LeadBlocks(s, requestLines)
  {
    blocks := [];
    if |s.goal| == 0 && |requestLines| > 0 {
      var request := BoundedBlock(RequestHeader(), requestLines, REQUEST_MAX_BYTES);
      blocks := [request];
    }
  }

  method RenderTranscript(s: Sections) returns (blocks: seq<Text>)
    ensures blocks == TranscriptBlocks(s)
  {
    blocks := [];
    if |s.transcript| > 0 {
      var transcript := BoundedBlock(Rule(), s.transcript, TRANSCRIPT_MAX_BYTES);
      blocks := [transcript];
    }
  }

  function Summary(s: Sections, requestLines: seq<Text>, o: RenderOptions): Text {
    JoinWith(Blocks(s, requestLines, FooterLine(o)), SEPARATOR) + [LF]
  }

  // The most a summary can take: the bounds of the seven sections and the request, the footer with its two lines, the
  // separators and the last line break.
  const LARGEST_SUMMARY: nat := 29811

  // The whole summary, within its own bound without the final clipping.
  method RenderSummary(s: Sections, requestLines: seq<Text>, o: RenderOptions) returns (summary: Text)
    ensures summary == Summary(s, requestLines, o)
    ensures Utf8Bytes(summary) <= LARGEST_SUMMARY
  {
    var blocks := CollectBlocks(s, requestLines, FooterLine(o));
    SummaryFits(s, requestLines, o);
    summary := JoinWith(blocks, SEPARATOR) + [LF];
    if Utf8Bytes(summary) <= MAX_SUMMARY_BYTES { return; }
    summary := Clip(summary, MAX_SUMMARY_BYTES - 1, []) + [LF];
  }

  // ----- the bounds of the blocks add up to less than the bound of the summary -----

  // The bytes a list of blocks may take: each its bound, and a separator.
  ghost predicate FitsIn(blocks: seq<Text>, bytes: nat) {
    Utf8Bytes(JoinWith(blocks, SEPARATOR)) + 2 * (if blocks == [] then 0 else 1) <= bytes
  }

  lemma FitsMore(blocks: seq<Text>, bytes: nat, header: Text, lines: seq<Text>, maxBytes: nat)
    requires FitsIn(blocks, bytes)
    ensures FitsIn(blocks + [BoundedBlockOf(header, lines, maxBytes)], bytes + maxBytes + 2)
  {
    BlockIsBounded(header, CappedLines(lines), |CappedLines(lines)|, maxBytes);
    JoinBytes(blocks, BoundedBlockOf(header, lines, maxBytes));
  }

  lemma FitsRequest(blocks: seq<Text>, bytes: nat, requestLines: seq<Text>)
    requires FitsIn(blocks, bytes)
    ensures FitsIn(blocks + RequestBlock(requestLines), bytes + REQUEST_MAX_BYTES + 2)
  {
    if requestLines == [] {
      assert blocks + [] == blocks;
    } else {
      FitsMore(blocks, bytes, RequestHeader(), requestLines, REQUEST_MAX_BYTES);
    }
  }

  function SectionBudget(order: seq<Section>): nat {
    if order == [] then 0 else SectionBudget(order[..|order| - 1]) + 2 + order[|order| - 1].maxBytes
  }

  // The sections after a first list of blocks; the request is allowed for once, in either place.
  lemma {:induction false} FitsSections(first: seq<Text>, order: seq<Section>, requestLines: seq<Text>)
    requires FitsIn(first, if order != [] && order[0].lines != [] then 0 else REQUEST_MAX_BYTES + 2)
    ensures FitsIn(first + SectionBlocks(order, requestLines), REQUEST_MAX_BYTES + 2 + SectionBudget(order))
  {
    hide FitsIn, BlocksOfSection;
    if order == [] {
      assert first + [] == first;
    } else {
      var i := |order| - 1;
      if i == 0 {
        FitsFirstSection(first, order, requestLines);
      } else {
        FitsSections(first, order[..i], requestLines);
        FitsNextSection(first, order, requestLines);
      }
    }
  }

  lemma FitsFirstSection(first: seq<Text>, order: seq<Section>, requestLines: seq<Text>)
    requires |order| == 1
    requires FitsIn(first, if order[0].lines != [] then 0 else REQUEST_MAX_BYTES + 2)
    ensures FitsIn(first + SectionBlocks(order, requestLines), REQUEST_MAX_BYTES + 2 + SectionBudget(order))
  {
    var s := order[0];
    assert order[..0] == [];
    if s.lines != [] {
      FitsMore(first, 0, s.header, s.lines, s.maxBytes);
      FitsRequest(first + [SectionBlock(s)], s.maxBytes + 2, requestLines);
      assert first + ([] + ([SectionBlock(s)] + RequestBlock(requestLines)))
          == first + [SectionBlock(s)] + RequestBlock(requestLines);
    } else {
      assert first + ([] + []) == first;
    }
  }

  lemma FitsNextSection(first: seq<Text>, order: seq<Section>, requestLines: seq<Text>)
    requires |order| > 1
    requires var so := order[..|order| - 1];
      FitsIn(first + SectionBlocks(so, requestLines), REQUEST_MAX_BYTES + 2 + SectionBudget(so))
    ensures FitsIn(first + SectionBlocks(order, requestLines), REQUEST_MAX_BYTES + 2 + SectionBudget(order))
  {
    var so, s := order[..|order| - 1], order[|order| - 1];
    var blocks := SectionBlocks(so, requestLines);
    if s.lines != [] {
      FitsMore(first + blocks, REQUEST_MAX_BYTES + 2 + SectionBudget(so), s.header, s.lines, s.maxBytes);
      assert first + (blocks + ([SectionBlock(s)] + [])) == first + blocks + [SectionBlock(s)];
    } else {
      assert first + (blocks + []) == first + blocks;
    }
  }

  lemma SectionBudgetTotal(s: Sections)
    ensures SectionBudget(SectionOrder(s)) == 20492
  {
    var order := SectionOrder(s);
    assert order[..6] == order && order[..0] == [];
    SectionBudgetStep(order, 5);
    SectionBudgetStep(order, 4);
    SectionBudgetStep(order, 3);
    SectionBudgetStep(order, 2);
    SectionBudgetStep(order, 1);
    SectionBudgetStep(order, 0);
  }

  lemma SectionBudgetStep(order: seq<Section>, i: nat)
    requires i < |order|
    ensures SectionBudget(order[..i + 1]) == SectionBudget(order[..i]) + 2 + order[i].maxBytes
  {
    assert order[..i + 1][..i] == order[..i];
  }

  // A block of two lines that fit is exactly these lines.
  lemma TwoLines(header: Text, a: Text, b: Text, maxBytes: nat)
    requires Clip(a, MAX_RENDERED_LINE_BYTES, ELLIPSIS) == a && Clip(b, MAX_RENDERED_LINE_BYTES, ELLIPSIS) == b
    ensures CappedLines([a, b]) == [a, b]
    ensures Utf8Bytes(JoinWith([header, a, b], [LF])) <= maxBytes
        ==> BlockFrom(header, [a, b], 2, maxBytes) == JoinWith([header, a, b], [LF])
  {
    hide Clip, Utf8Bytes, JoinWith;
    assert ClippedLines([a, b]) == [a, b];
    assert [header] + [a, b] == [header, a, b];
  }

  lemma JoinThree(header: Text, a: Text, b: Text)
    ensures JoinWith([header, a, b], [LF]) == header + [LF] + a + [LF] + b
  {
    JoinSnoc([header], a, [LF]);
    JoinSnoc([header, a], b, [LF]);
    assert [header] + [a] == [header, a] && [header, a] + [b] == [header, a, b];
  }

  lemma ThreeBytes(header: Text, a: Text, b: Text)
    ensures Utf8Bytes(JoinWith([header, a, b], [LF])) <= Utf8Bytes(header) + 1 + Utf8Bytes(a) + 1 + Utf8Bytes(b)
  {
    hide Utf8Bytes, JoinWith;
    JoinThree(header, a, b);
    SeparatorBytes();
    Utf8ConcatAtMost(header, [LF]);
    Utf8ConcatAtMost(header + [LF], a);
    Utf8ConcatAtMost(header + [LF] + a, [LF]);
    Utf8ConcatAtMost(header + [LF] + a + [LF], b);
  }

  lemma ClippedAgain(t: Text)
    ensures var c := Clip(t, MAX_RENDERED_LINE_BYTES, ELLIPSIS);
      Utf8Bytes(c) <= MAX_RENDERED_LINE_BYTES && Clip(c, MAX_RENDERED_LINE_BYTES, ELLIPSIS) == c
  {
    hide Clip;
    ClipBounded(t, MAX_RENDERED_LINE_BYTES, ELLIPSIS);
    ClipBounded(Clip(t, MAX_RENDERED_LINE_BYTES, ELLIPSIS), MAX_RENDERED_LINE_BYTES, ELLIPSIS);
  }

  lemma RuleBytes()
    ensures Utf8Bytes(Rule()) == |Rule()| == 3
  {
    PlainBytes(Rule());
  }

  lemma RecallBytes()
    ensures Utf8Bytes(RecallLine()) == |RecallLine()| == 93 && Ascii(RecallLine())
  {
    hide RecallPart1, RecallPart2, RecallPart3, RecallPart4;
    PlainBytes(RecallLine());
  }

  // The footer block never has to leave out a line: both fit together.
  lemma FooterIsWhole(footer: Text)
    ensures FooterBlock(footer)
      == JoinWith([Rule(), Clip(footer, MAX_RENDERED_LINE_BYTES, ELLIPSIS), RecallLine()], [LF])
    ensures Utf8Bytes(FooterBlock(footer)) <= 1122
  {
    hide Clip, Utf8Bytes, Rule, RecallLine, JoinWith, BlockFrom;
    var first, second := Clip(footer, MAX_RENDERED_LINE_BYTES, ELLIPSIS), RecallLine();
    RuleBytes();
    RecallBytes();
    ClippedAgain(footer);
    ClipBounded(second, MAX_RENDERED_LINE_BYTES, ELLIPSIS);
    assert ClippedLines([footer, second]) == [first, second] == ClippedLines([first, second]);
    assert CappedLines([footer, second]) == CappedLines([first, second]);
    TwoLines(Rule(), first, second, FOOTER_MAX_BYTES);
    ThreeBytes(Rule(), first, second);
  }

  // The final clipping is never needed.
  lemma SummaryFits(s: Sections, requestLines: seq<Text>, o: RenderOptions)
    ensures Utf8Bytes(Summary(s, requestLines, o)) <= LARGEST_SUMMARY
  {
    hide BoundedBlockOf, SectionBlocks, FooterLine, FooterBlock;
    var lead, order, footer := LeadBlocks(s, requestLines), SectionOrder(s), FooterLine(o);
    FitsRequest([], 0, requestLines);
    assert [] + RequestBlock(requestLines) == RequestBlock(requestLines);
    FitsSections(lead, order, requestLines);
    SectionBudgetTotal(s);
    var blocks, bytes := lead + SectionBlocks(order, requestLines), REQUEST_MAX_BYTES + 2 + 20492;
    FitsTranscript(blocks, bytes, s);
    JoinBytes(blocks + TranscriptBlocks(s), FooterBlock(footer));
    FooterIsWhole(footer);
    SeparatorBytes();
    Utf8ConcatAtMost(JoinWith(Blocks(s, requestLines, footer), SEPARATOR), [LF]);
  }

  lemma FitsTranscript(blocks: seq<Text>, bytes: nat, s: Sections)
    requires FitsIn(blocks, bytes)
    ensures FitsIn(blocks + TranscriptBlocks(s), bytes + TRANSCRIPT_MAX_BYTES + 2)
  {
    if s.transcript == [] {
      assert blocks + [] == blocks;
    } else {
      FitsMore(blocks, bytes, Rule(), s.transcript, TRANSCRIPT_MAX_BYTES);
    }
  }
}
