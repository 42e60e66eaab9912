// Where everything stands in a summary and what each line says, told with the headers and bounds themselves
// (src/compaction/render.ts).
module SummaryLayout {
  import opened Text
  import opened Bounds
  import opened Render

  // ----- a block -----

  // Of more lines than that, the first and the last, the first being at most one more, and a note between them.
  ghost predicate IsSample(lines: seq<Text>, keep: nat, sample: seq<Text>) {
    if |lines| <= keep then sample == lines
    else exists first: nat, last: nat :: IsSampleOf(lines, keep, first, last, sample)
  }

  ghost predicate IsSampleOf(lines: seq<Text>, keep: nat, first: nat, last: nat, sample: seq<Text>) {
    && first + last == keep < |lines| && last <= first <= last + 1
    && |sample| == keep + 1
    && sample[..first] == lines[..first]
    && sample[first] == Chars("\U{2026} omitted ") + Digits(|lines| - keep) + Chars(" rendered lines")
    && sample[first + 1..] == lines[|lines| - last..]
  }

  lemma SampleIs(lines: seq<Text>, keep: nat)
    ensures IsSample(lines, keep, SampledLines(lines, keep))
  {
    if |lines| > keep {
      var first, last := (keep + 1) / 2, keep / 2;
      assert ELLIPSIS + Chars(" omitted ") == Chars("\U{2026} omitted ");
      assert IsSampleOf(lines, keep, first, last, SampledLines(lines, keep));
    }
  }

  // Every line cut to 1024 bytes, and a sample of at most 128 of them.
  ghost predicate IsCapped(lines: seq<Text>, capped: seq<Text>) {
    exists clipped :: AllClipped(lines, clipped) && IsSample(clipped, 128, capped)
  }

  ghost predicate AllClipped(lines: seq<Text>, clipped: seq<Text>) {
    |clipped| == |lines| && forall i :: 0 <= i < |lines| ==> IsClipped(lines[i], 1024, ['\U{2026}' as int], clipped[i])
  }

  ghost predicate Fits(header: Text, capped: seq<Text>, keep: nat, maxBytes: nat) {
    exists sample :: IsSample(capped, keep, sample) && Utf8Bytes(JoinWith([header] + sample, ['\n' as int])) <= maxBytes
  }

  // The header and the largest sample of the lines that fits, or no more than a cut header.
  ghost predicate IsBlock(header: Text, lines: seq<Text>, maxBytes: nat, block: Text) {
    exists capped :: IsCapped(lines, capped) && IsBlockOf(header, capped, maxBytes, block)
  }

  ghost predicate IsBlockOf(header: Text, capped: seq<Text>, maxBytes: nat, block: Text) {
    if forall keep: nat :: keep <= |capped| ==> !Fits(header, capped, keep, maxBytes)
    then IsClipped(header, maxBytes, ['\U{2026}' as int], block)
    else exists keep: nat, sample :: IsLargest(header, capped, keep, sample, maxBytes, block)
  }

  ghost predicate IsLargest(header: Text, capped: seq<Text>, keep: nat, sample: seq<Text>, maxBytes: nat, block: Text) {
    && keep <= |capped| && IsSample(capped, keep, sample)
    && block == JoinWith([header] + sample, ['\n' as int]) && Utf8Bytes(block) <= maxBytes
    && forall more: nat :: keep < more <= |capped| ==> !Fits(header, capped, more, maxBytes)
  }

  lemma SameAround<T>(a: seq<T>, b: seq<T>, f: nat)
    requires f < |a| == |b| && a[..f] == b[..f] && a[f] == b[f] && a[f + 1..] == b[f + 1..]
    ensures a == b
  {
    assert a == a[..f] + [a[f]] + a[f + 1..] && b == b[..f] + [b[f]] + b[f + 1..];
  }

  lemma SampleIsOne(lines: seq<Text>, keep: nat, a: seq<Text>, b: seq<Text>)
    requires IsSample(lines, keep, a) && IsSample(lines, keep, b)
    ensures a == b
  {
    if |lines| > keep {
      var f: nat, l: nat :| IsSampleOf(lines, keep, f, l, a);
      var g: nat, m: nat :| IsSampleOf(lines, keep, g, m, b);
      assert f == g && l == m;
      SameAround(a, b, f);
    }
  }

  lemma FitsIs(header: Text, capped: seq<Text>, keep: nat, maxBytes: nat)
    ensures Fits(header, capped, keep, maxBytes) <==> Utf8Bytes(Block(header, capped, keep)) <= maxBytes
  {
    SampleIs(capped, keep);
    hide IsSample, Utf8Bytes, JoinWith;
    if Fits(header, capped, keep, maxBytes) {
      var sample :| IsSample(capped, keep, sample) && Utf8Bytes(JoinWith([header] + sample, ['\n' as int])) <= maxBytes;
      SampleIsOne(capped, keep, sample, SampledLines(capped, keep));
    }
  }

  lemma {:induction false} BlockFromIs(header: Text, capped: seq<Text>, keep: int, maxBytes: nat)
    requires -1 <= keep <= |capped|
    requires forall more: nat :: keep < more <= |capped| ==> !Fits(header, capped, more, maxBytes)
    ensures IsBlockOf(header, capped, maxBytes, BlockFrom(header, capped, keep, maxBytes))
    decreases keep + 1
  {
    hide Fits, IsSample, Utf8Bytes, JoinWith, Clip, IsClipped;
    if keep < 0 {
      ClipIsExact(header, maxBytes, ELLIPSIS);
    } else {
      FitsIs(header, capped, keep, maxBytes);
      SampleIs(capped, keep);
      if Utf8Bytes(Block(header, capped, keep)) <= maxBytes {
        assert IsLargest(header, capped, keep, SampledLines(capped, keep), maxBytes, Block(header, capped, keep));
      } else {
        BlockFromIs(header, capped, keep - 1, maxBytes);
      }
    }
  }

  lemma LinesAreCapped(lines: seq<Text>)
    ensures IsCapped(lines, CappedLines(lines))
  {
    hide IsSample, IsClipped, Clip, SampledLines;
    var clipped := ClippedLines(lines);
    forall i | 0 <= i < |lines| ensures IsClipped(lines[i], 1024, ['\U{2026}' as int], clipped[i]) {
      ClipIsExact(lines[i], 1024, ELLIPSIS);
    }
    assert AllClipped(lines, clipped);
    SampleIs(clipped, if |clipped| < 128 then |clipped| else 128);
    WholeSample(clipped, CappedLines(lines));
  }

  lemma WholeSample(lines: seq<Text>, sample: seq<Text>)
    requires IsSample(lines, if |lines| < 128 then |lines| else 128, sample)
    ensures IsSample(lines, 128, sample)
  {}

  lemma BlockIs(header: Text, lines: seq<Text>, maxBytes: nat)
    ensures IsBlock(header, lines, maxBytes, BoundedBlockOf(header, lines, maxBytes))
  {
    LinesAreCapped(lines);
    BlockFromIs(header, CappedLines(lines), |CappedLines(lines)|, maxBytes);
    hide IsCapped, IsBlockOf;
  }

  // ----- the summary -----

  // A part of the summary: nothing without lines.
  ghost predicate IsPart(header: string, lines: seq<Text>, maxBytes: nat, part: seq<Text>) {
    if lines == [] then part == [] else |part| == 1 && IsBlock(Chars(header), lines, maxBytes, part[0])
  }

  datatype Parts = Parts(goal: seq<Text>, request: seq<Text>, files: seq<Text>, activity: seq<Text>,
                         outstanding: seq<Text>, earlier: seq<Text>, status: seq<Text>, transcript: seq<Text>,
                         footer: seq<Text>)

  ghost predicate ArePartsOf(p: Parts, s: Sections, requestLines: seq<Text>, footer: seq<Text>) {
    && IsPart("[Session Goal]", s.goal, 4096, p.goal)
    && IsPart("[Compaction Request]", requestLines, 3072, p.request)
    && IsPart("[Files And Changes]", s.files, 4608, p.files)
    && IsPart("[Fabric Activity]", s.activity, 2048, p.activity)
    && IsPart("[Outstanding Context]", s.outstanding, 4608, p.outstanding)
    && IsPart("[Earlier Turns]", s.earlierTurns, 3072, p.earlier)
    && IsPart("[Current Status]", s.status, 2048, p.status)
    && IsPart("---", s.transcript, 5120, p.transcript)
    && IsPart("---", footer, 1536, p.footer)
  }

  ghost function Told(t: Text, default: string): Text {
    if t == [] then Chars(default) else t
  }

  ghost function RangeLine(o: RenderOptions): Text {
    if o.firstEntryId == [] && o.lastEntryId == [] then Chars("(no entries)")
    else Told(o.firstEntryId, "(start)") + [' ' as int, '\U{2192}' as int, ' ' as int] + Told(o.lastEntryId, "(end)")
  }

  // The two lines of the footer.
  ghost function FooterLines(o: RenderOptions): seq<Text> {
    var time := Told(o.lastTimestamp, "(unknown time)");
    [if o.branch
     then Chars("[branch summarized ") + time + Chars("; structural source entries ") + RangeLine(o) + [']' as int]
     else Chars("[compacted ") + time + Chars("; cumulative source entries ") + RangeLine(o) + [']' as int],
     Chars("For full pre-summary history, ") + Chars("search the session log ") + Chars("across this entry range ")
     + Chars("(memory.recall).")]
  }

  ghost function PartText(header: string, lines: seq<Text>, maxBytes: nat): seq<Text> {
    if lines == [] then [] else [BoundedBlockOf(Chars(header), lines, maxBytes)]
  }

  lemma PartIs(header: string, lines: seq<Text>, maxBytes: nat)
    ensures IsPart(header, lines, maxBytes, PartText(header, lines, maxBytes))
  {
    BlockIs(Chars(header), lines, maxBytes);
    hide IsBlock, BoundedBlockOf;
  }

  ghost function PartsOf(s: Sections, requestLines: seq<Text>, footer: seq<Text>): Parts {
    Parts(PartText("[Session Goal]", s.goal, 4096), PartText("[Compaction Request]", requestLines, 3072),
          PartText("[Files And Changes]", s.files, 4608), PartText("[Fabric Activity]", s.activity, 2048),
          PartText("[Outstanding Context]", s.outstanding, 4608), PartText("[Earlier Turns]", s.earlierTurns, 3072),
          PartText("[Current Status]", s.status, 2048), PartText("---", s.transcript, 5120),
          PartText("---", footer, 1536))
  }

  lemma PartsAre(s: Sections, requestLines: seq<Text>, footer: seq<Text>)
    ensures ArePartsOf(PartsOf(s, requestLines, footer), s, requestLines, footer)
  {
    PartIs("[Session Goal]", s.goal, 4096);
    PartIs("[Compaction Request]", requestLines, 3072);
    PartIs("[Files And Changes]", s.files, 4608);
    PartIs("[Fabric Activity]", s.activity, 2048);
    PartIs("[Outstanding Context]", s.outstanding, 4608);
    PartIs("[Earlier Turns]", s.earlierTurns, 3072);
    PartIs("[Current Status]", s.status, 2048);
    PartIs("---", s.transcript, 5120);
    PartIs("---", footer, 1536);
    hide IsPart, PartText;
  }

  lemma SectionStep(order: seq<Section>, i: nat, requestLines: seq<Text>, header: string)
    requires i < |order| && order[i].header == Chars(header)
    ensures SectionBlocks(order[..i + 1], requestLines) ==
      SectionBlocks(order[..i], requestLines) + PartText(header, order[i].lines, order[i].maxBytes)
      + if i == 0 && order[i].lines != [] then PartText("[Compaction Request]", requestLines, 3072) else []
  {
    hide BoundedBlockOf;
    assert order[..i + 1][..i] == order[..i];
  }

  // What comes before and with the first n sections.
  ghost function Laid(p: Parts, n: nat): seq<Text>
    requires n > 0
  {
    if n == 1 then p.goal + p.request
    else Laid(p, n - 1) + if n == 2 then p.files else if n == 3 then p.activity else if n == 4 then p.outstanding
                          else if n == 5 then p.earlier else p.status
  }

  ghost function SectionHeader(i: nat): string {
    if i == 0 then "[Session Goal]" else if i == 1 then "[Files And Changes]" else if i == 2 then "[Fabric Activity]"
    else if i == 3 then "[Outstanding Context]" else if i == 4 then "[Earlier Turns]" else "[Current Status]"
  }

  lemma SectionIs(s: Sections, i: nat, requestLines: seq<Text>)
    requires i < 6
    ensures SectionBlocks(SectionOrder(s)[..i + 1], requestLines) ==
      SectionBlocks(SectionOrder(s)[..i], requestLines)
      + PartText(SectionHeader(i), SectionOrder(s)[i].lines, SectionOrder(s)[i].maxBytes)
      + if i == 0 && s.goal != [] then PartText("[Compaction Request]", requestLines, 3072) else []
  {
    hide PartText, SectionBlocks, Chars;
    assert SectionOrder(s)[i].header == Chars(SectionHeader(i));
    SectionStep(SectionOrder(s), i, requestLines, SectionHeader(i));
  }

  lemma FirstIsLaid(s: Sections, requestLines: seq<Text>, footer: Text)
    ensures LeadBlocks(s, requestLines) + SectionBlocks(SectionOrder(s)[..1], requestLines)
      == Laid(PartsOf(s, requestLines, [footer, RecallLine()]), 1)
  {
    OtherBlocks(s, requestLines, footer);
    SectionIs(s, 0, requestLines);
    assert SectionBlocks(SectionOrder(s)[..0], requestLines) == [];
    hide RecallLine, LeadBlocks, SectionBlocks, PartText, Chars;
  }

  // The next section adds the same on both sides.
  ghost predicate AddsSame(order: seq<Section>, requestLines: seq<Text>, p: Parts, i: nat)
    requires 0 < i < |order|
  {
    exists part :: SectionBlocks(order[..i + 1], requestLines) == SectionBlocks(order[..i], requestLines) + part
                   && Laid(p, i + 1) == Laid(p, i) + part
  }

  lemma LaidStep(s: Sections, requestLines: seq<Text>, footer: Text, n: nat)
    requires 1 < n <= 6
    ensures var p, section := PartsOf(s, requestLines, [footer, RecallLine()]), SectionOrder(s)[n - 1];
      Laid(p, n) == Laid(p, n - 1) + PartText(SectionHeader(n - 1), section.lines, section.maxBytes)
  {
    hide RecallLine, PartText, Chars;
  }

  lemma SectionAddsSame(s: Sections, requestLines: seq<Text>, footer: Text, i: nat)
    requires 0 < i < 6
    ensures AddsSame(SectionOrder(s), requestLines, PartsOf(s, requestLines, [footer, RecallLine()]), i)
  {
    SectionIs(s, i, requestLines);
    LaidStep(s, requestLines, footer, i + 1);
    hide RecallLine, PartText, Chars, SectionBlocks, Laid, PartsOf, SectionHeader;
  }

  lemma {:induction false} SectionsAreLaid(lead: seq<Text>, order: seq<Section>, requestLines: seq<Text>, p: Parts,
                                           n: nat)
    requires 1 <= n <= |order| && lead + SectionBlocks(order[..1], requestLines) == Laid(p, 1)
    requires forall i :: 0 < i < |order| ==> AddsSame(order, requestLines, p, i)
    ensures lead + SectionBlocks(order[..n], requestLines) == Laid(p, n)
  {
    hide SectionBlocks, Laid;
    if n > 1 {
      SectionsAreLaid(lead, order, requestLines, p, n - 1);
      assert AddsSame(order, requestLines, p, n - 1);
    }
  }

  lemma LaidInOrder(p: Parts)
    ensures Laid(p, 6) == p.goal + p.request + p.files + p.activity + p.outstanding + p.earlier + p.status
  {
    assert Laid(p, 2) == p.goal + p.request + p.files;
    assert Laid(p, 3) == Laid(p, 2) + p.activity;
    assert Laid(p, 4) == Laid(p, 3) + p.outstanding;
    assert Laid(p, 5) == Laid(p, 4) + p.earlier;
  }

  lemma SectionsAreParts(s: Sections, requestLines: seq<Text>, footer: Text)
    ensures var p := PartsOf(s, requestLines, [footer, RecallLine()]);
      LeadBlocks(s, requestLines) + SectionBlocks(SectionOrder(s), requestLines) ==
        p.goal + p.request + p.files + p.activity + p.outstanding + p.earlier + p.status
  {
    var p := PartsOf(s, requestLines, [footer, RecallLine()]);
    FirstIsLaid(s, requestLines, footer);
    forall i | 0 < i < 6 ensures AddsSame(SectionOrder(s), requestLines, p, i) {
      SectionAddsSame(s, requestLines, footer, i);
    }
    hide AddsSame, PartsOf, SectionBlocks, Laid, LeadBlocks, RecallLine;
    SectionsAreLaid(LeadBlocks(s, requestLines), SectionOrder(s), requestLines, p, 6);
    LaidInOrder(p);
    assert SectionOrder(s)[..6] == SectionOrder(s);
  }

  lemma BlocksAreParts(s: Sections, requestLines: seq<Text>, footer: Text)
    ensures var p := PartsOf(s, requestLines, [footer, RecallLine()]);
      Blocks(s, requestLines, footer) ==
        p.goal + p.request + p.files + p.activity + p.outstanding + p.earlier + p.status + p.transcript + p.footer
  {
    hide PartsOf, SectionBlocks, SectionOrder, LeadBlocks, TranscriptBlocks, FooterBlock, RecallLine;
    OtherBlocks(s, requestLines, footer);
    SectionsAreParts(s, requestLines, footer);
  }

  lemma OtherBlocks(s: Sections, requestLines: seq<Text>, footer: Text)
    ensures var p := PartsOf(s, requestLines, [footer, RecallLine()]);
      && LeadBlocks(s, requestLines) == (if s.goal == [] then p.request else []) && (s.goal == [] ==> p.goal == [])
      && TranscriptBlocks(s) == p.transcript && [FooterBlock(footer)] == p.footer
  {
    hide BoundedBlockOf, RecallLine, Chars;
  }

  lemma FooterIsSpelled(o: RenderOptions)
    ensures FooterLines(o) == [FooterLine(o), RecallLine()]
  {
    assert Chars(" \U{2192} ") == [' ' as int, '\U{2192}' as int, ' ' as int] && Chars("]") == [']' as int];
    assert RangeLine(o) == RangeText(o);
    hide RangeLine, RangeText, RecallLine;
  }

  // Everything in its place, a blank line between the parts: the request behind the goal and before all the rest.
  lemma SummaryIsLaidOut(s: Sections, requestLines: seq<Text>, o: RenderOptions) returns (p: Parts)
    ensures ArePartsOf(p, s, requestLines, FooterLines(o))
    ensures Summary(s, requestLines, o) ==
      var parts :=
        p.goal + p.request + p.files + p.activity + p.outstanding + p.earlier + p.status + p.transcript + p.footer;
      JoinWith(parts, ['\n' as int, '\n' as int]) + ['\n' as int]
  {
    p := PartsOf(s, requestLines, FooterLines(o));
    PartsAre(s, requestLines, FooterLines(o));
    FooterIsSpelled(o);
    BlocksAreParts(s, requestLines, FooterLine(o));
    hide PartsOf, ArePartsOf, Blocks, FooterLine, FooterLines, RecallLine;
  }
}
