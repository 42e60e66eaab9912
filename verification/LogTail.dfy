// Reading a log file backwards, page by page (src/log-tail.ts).
module LogTail {
  import opened Basics
  import opened Lines

  const READ_CHUNK_BYTES := 64 * 1024
  const DEFAULT_READ_MAX_BYTES := 8 * 1024 * 1024
  const CARRIAGE_RETURN: Byte := 0x0d

  // A line with the offset of its first byte, without its line end.
  datatype Line = Line(offset: nat, raw: Bytes)

  datatype Page = Page(lines: seq<Line>, hasMore: bool, before: nat)

  // ----- the lines of a file, as a whole -----

  function StripReturn(s: Bytes): Bytes {
    if s != [] && s[|s| - 1] == CARRIAGE_RETURN then s[..|s| - 1] else s
  }

  // Where the line ending at e starts.
  function LineStart(file: Bytes, e: nat): (s: nat)
    requires e <= |file|
    ensures s <= e
  {
    if e == 0 || file[e - 1] == NEWLINE then e else LineStart(file, e - 1)
  }

  // The end of the last line of file[..end], its newline excluded.
  function ContentEnd(file: Bytes, end: nat): nat
    requires 0 < end <= |file|
  {
    if file[end - 1] == NEWLINE then end - 1 else end
  }

  function LineAt(file: Bytes, s: nat, e: nat): seq<Line>
    requires s <= e <= |file|
  {
    var raw := StripReturn(file[s..e]);
    if raw == [] then [] else [Line(s, raw)]
  }

  // The non-empty lines of file[..end], in order.
  function Records(file: Bytes, end: nat): seq<Line>
    requires end <= |file|
  {
    if end == 0 then [] else
      var e := ContentEnd(file, end);
      Records(file, LineStart(file, e)) + LineAt(file, LineStart(file, e), e)
  }

  // ----- facts about the lines -----

  // A line starts here.
  ghost predicate Boundary(file: Bytes, p: nat) {
    p <= |file| && (p > 0 ==> file[p - 1] == NEWLINE)
  }

  // Paging may end here: at the start of a line, or at the end of the file.
  ghost predicate PageEnd(file: Bytes, end: nat) {
    end == |file| || Boundary(file, end)
  }

  ghost predicate NoNewline(file: Bytes, s: nat, e: nat) {
    e <= |file| && forall i :: s <= i < e ==> file[i] != NEWLINE
  }

  // The bytes from s to e are a line: terminated, or the last of the file.
  ghost predicate IsLine(file: Bytes, s: nat, e: nat) {
    && s <= e <= |file| && Boundary(file, s) && NoNewline(file, s, e)
    && if e < |file| then file[e] == NEWLINE else s < e
  }

  ghost predicate BlankFree(file: Bytes) {
    forall s: nat, e: nat :: IsLine(file, s, e) ==> StripReturn(file[s..e]) != []
  }

  // Every line, with a newline on either side, fits into a capped read.
  ghost predicate LinesFit(file: Bytes, cap: int) {
    forall s: nat, e: nat :: IsLine(file, s, e) ==> e - s + 2 <= cap
  }

  lemma {:induction false} LineStartFacts(file: Bytes, e: nat)
    requires e <= |file|
    ensures Boundary(file, LineStart(file, e)) && NoNewline(file, LineStart(file, e), e)
  {
    if !(e == 0 || file[e - 1] == NEWLINE) {
      LineStartFacts(file, e - 1);
    }
  }

  lemma {:induction false} LineStartIs(file: Bytes, s: nat, e: nat)
    requires s <= e <= |file| && Boundary(file, s) && NoNewline(file, s, e)
    ensures LineStart(file, e) == s
    decreases e
  {
    if s < e {
      LineStartIs(file, s, e - 1);
    }
  }

  lemma NextLine(file: Bytes, s: nat, e: nat)
    requires s <= e < |file| && Boundary(file, s) && NoNewline(file, s, e) && file[e] == NEWLINE
    ensures Records(file, e + 1) == Records(file, s) + LineAt(file, s, e)
  {
    LineStartIs(file, s, e);
  }

  lemma LastLine(file: Bytes, s: nat, end: nat)
    requires s < end <= |file| && Boundary(file, s) && NoNewline(file, s, end)
    ensures Records(file, end) == Records(file, s) + LineAt(file, s, end)
  {
    LineStartIs(file, s, end);
  }

  // The earlier lines are the lines before the offset of a line.
  lemma {:induction false} EarlierLines(file: Bytes, end: nat, k: nat)
    requires end <= |file| && k < |Records(file, end)|
    ensures var at := Records(file, end)[k].offset;
      at < end && Boundary(file, at) && Records(file, at) == Records(file, end)[..k]
    decreases end
  {
    var e := ContentEnd(file, end);
    var s := LineStart(file, e);
    LineStartFacts(file, e);
    if k < |Records(file, s)| {
      EarlierLines(file, s, k);
      assert Records(file, end)[..k] == Records(file, s)[..k];
    } else {
      assert Records(file, end)[..k] == Records(file, s);
    }
  }

  // ----- the lines, byte by byte -----

  // The text of the line is that of the file at its offset, which starts a line; a newline follows it, or a carriage
  // return that ends the line, or nothing.
  ghost predicate IsTextOf(file: Bytes, end: nat, line: Line) {
    var stop := line.offset + |line.raw|;
    && line.raw != [] && stop <= end <= |file| && line.raw == file[line.offset..stop]
    && (line.offset == 0 || file[line.offset - 1] == 10) && 10 !in line.raw
    && (|| ((stop == end || file[stop] == 10) && line.raw[|line.raw| - 1] != 13)
        || (stop < end && file[stop] == 13 && (stop + 1 == end || file[stop + 1] == 10)))
  }

  // From s to e there is a line with something besides a carriage return.
  ghost predicate HasText(file: Bytes, end: nat, s: nat, e: nat) {
    && s <= e <= end <= |file| && (s == 0 || file[s - 1] == 10) && 10 !in file[s..e] && (e == end || file[e] == 10)
    && file[s..e] != [] && file[s..e] != [13]
  }

  // These are all the lines of file[..end] that have a text, in order.
  ghost predicate AreLines(file: Bytes, end: nat, lines: seq<Line>) {
    && (forall i :: 0 <= i < |lines| ==> IsTextOf(file, end, lines[i]))
    && (forall i, j :: 0 <= i < j < |lines| ==> lines[i].offset < lines[j].offset)
    && (forall s, e :: HasText(file, end, s, e) ==> StartsOne(lines, s))
  }

  ghost predicate StartsOne(lines: seq<Line>, s: nat) {
    exists i :: 0 <= i < |lines| && lines[i].offset == s
  }

  // The last of the lines before `end`, each with its text.
  ghost predicate LastLines(file: Bytes, end: nat, lines: seq<Line>) {
    exists all :: AreLines(file, end, all) && |lines| <= |all| && lines == all[|all| - |lines|..]
  }

  lemma NoneIn(file: Bytes, s: nat, e: nat)
    requires NoNewline(file, s, e) && s <= e
    ensures 10 !in file[s..e]
  {
    var t := file[s..e];
    forall i | 0 <= i < |t| ensures t[i] != 10 { assert t[i] == file[s + i]; }
  }

  lemma LineHasItsText(file: Bytes, end: nat, s: nat, e: nat)
    requires s <= e <= end <= |file| && Boundary(file, s) && NoNewline(file, s, e) && (e == end || file[e] == NEWLINE)
    ensures forall l :: l in LineAt(file, s, e) ==> l.offset == s && IsTextOf(file, end, l)
    ensures LineAt(file, s, e) == [] <==> file[s..e] == [] || file[s..e] == [13]
  {
    NoneIn(file, s, e);
    var t := file[s..e];
    var raw := StripReturn(t);
    assert raw == file[s..s + |raw|];
    if |raw| < |t| {
      assert t[|raw|] == 13 && file[s + |raw|] == 13;
    }
  }

  // A text that ends before one end ends before a later one.
  lemma TextStays(file: Bytes, p: nat, end: nat, line: Line)
    requires p <= end <= |file| && Boundary(file, p) && IsTextOf(file, p, line)
    ensures IsTextOf(file, end, line) && line.offset < p
  {
    assert line.raw[|line.raw| - 1] == file[line.offset + |line.raw| - 1];
  }

  // The lines of a file are exactly those.
  lemma {:induction false} RecordsAreLines(file: Bytes, end: nat)
    requires end <= |file|
    ensures AreLines(file, end, Records(file, end))
    decreases end
  {
    if end > 0 {
      var e := ContentEnd(file, end);
      var s := LineStart(file, e);
      LineStartFacts(file, e);
      RecordsAreLines(file, s);
      LineHasItsText(file, end, s, e);
      MoreLines(file, end, s, e, Records(file, s));
    } else {
      NoText(file);
    }
  }

  lemma NoText(file: Bytes)
    ensures forall s, e :: !HasText(file, 0, s, e)
  {}

  lemma MoreLines(file: Bytes, end: nat, s: nat, e: nat, lines: seq<Line>)
    requires 0 < end <= |file| && e == ContentEnd(file, end) && s <= e && Boundary(file, s) && NoNewline(file, s, e)
    requires AreLines(file, s, lines)
    ensures AreLines(file, end, lines + LineAt(file, s, e))
  {
    LineHasItsText(file, end, s, e);
    var last := LineAt(file, s, e);
    var all := lines + last;
    hide LineAt, IsTextOf, HasText;
    forall i | 0 <= i < |all| ensures IsTextOf(file, end, all[i]) && (i < |lines| ==> all[i].offset < s) {
      if i < |lines| {
        TextStays(file, s, end, lines[i]);
      } else {
        assert all[i] in last;
      }
    }
    forall a, b | HasText(file, end, a, b) ensures StartsOne(all, a) {
      TextPlace(file, end, s, e, a, b);
      if HasText(file, s, a, b) {
        var i :| 0 <= i < |lines| && lines[i].offset == a;
        assert all[i].offset == a;
      } else {
        assert all[|lines|] == last[0] && last[0] in last;
      }
    }
  }

  // A line with a text is before the last line or is it.
  lemma TextPlace(file: Bytes, end: nat, s: nat, e: nat, a: nat, b: nat)
    requires 0 < end <= |file| && e == ContentEnd(file, end) && s <= e && Boundary(file, s) && NoNewline(file, s, e)
    requires HasText(file, end, a, b)
    ensures HasText(file, s, a, b) || (a == s && LineAt(file, s, e) != [])
  {
    NoneInside(file, a, b);
    assert a > 0 ==> file[a - 1] == 10;
    if a < s {
      assert file[s - 1] == 10;
    }
  }

  lemma NoneInside(file: Bytes, a: nat, b: nat)
    requires a <= b <= |file| && 10 !in file[a..b]
    ensures forall i :: a <= i < b ==> file[i] != 10
  {
    forall i | a <= i < b ensures file[i] != 10 { assert file[i] == file[a..b][i - a]; }
  }

  function CountNewlines(s: Bytes): nat {
    if s == [] then 0 else CountNewlines(s[..|s| - 1]) + if s[|s| - 1] == NEWLINE then 1 else 0
  }

  lemma {:induction false} CountConcat(a: Bytes, b: Bytes)
    ensures CountNewlines(a + b) == CountNewlines(a) + CountNewlines(b)
  {
    if b == [] {
      assert a + b == a;
    } else {
      CountConcat(a, b[..|b| - 1]);
      assert (a + b)[..|a + b| - 1] == a + b[..|b| - 1];
    }
  }

  lemma {:induction false} CountNone(s: Bytes)
    requires forall i :: 0 <= i < |s| ==> s[i] != NEWLINE
    ensures CountNewlines(s) == 0
  {
    if s != [] {
      CountNone(s[..|s| - 1]);
    }
  }

  // The last line of file[..end], when end is a page end.
  lemma LastIsLine(file: Bytes, end: nat)
    requires 0 < end && PageEnd(file, end) && end <= |file|
    ensures var e := ContentEnd(file, end); IsLine(file, LineStart(file, e), e)
  {
    LineStartFacts(file, ContentEnd(file, end));
  }

  // Without blank lines, every newline after a boundary ends a line.
  lemma {:induction false} LinesPerNewline(file: Bytes, p: nat, end: nat)
    requires p <= end <= |file| && Boundary(file, p) && PageEnd(file, end) && BlankFree(file)
    ensures |Records(file, end)| >= |Records(file, p)| + CountNewlines(file[p..end])
    ensures p < end ==> |Records(file, end)| > |Records(file, p)|
    decreases end
  {
    if p < end {
      var e := ContentEnd(file, end);
      var s := LineStart(file, e);
      LastIsLine(file, end);
      assert s >= p;
      LinesPerNewline(file, p, s);
      CountLine(file, p, s, e, end);
    }
  }

  lemma CountLine(file: Bytes, p: nat, s: nat, e: nat, end: nat)
    requires p <= s <= e <= end <= |file| && end <= e + 1 && NoNewline(file, s, e)
    ensures CountNewlines(file[p..end]) <= CountNewlines(file[p..s]) + 1
  {
    CountNone(file[s..e]);
    assert file[p..e] == file[p..s] + file[s..e];
    CountConcat(file[p..s], file[s..e]);
    hide NoNewline;
    if end == e + 1 {
      assert file[p..end] == file[p..e] + [file[e]];
      CountSnoc(file[p..e], file[e]);
      hide CountNewlines;
    } else {
      hide CountNewlines;
    }
  }

  lemma CountSnoc(s: Bytes, b: Byte)
    ensures CountNewlines(s + [b]) <= CountNewlines(s) + 1
  {
    assert (s + [b])[..|s|] == s;
  }

  // ----- reading a page -----

  // What the scan of a buffer starting at b has found before position `at`: the lines from `from` on, once some
  // line is known to start in the buffer.
  ghost predicate Scanned(file: Bytes, b: nat, at: nat, first: bool, lines: seq<Line>, from: int) {
    && b <= at <= |file| && (first ==> at == b)
    && (from >= 0 <==> !first || b == 0)
    && if from < 0 then lines == [] else
       && StartsAt(file, b, from) && from <= at && Boundary(file, at)
       && Records(file, at) == Records(file, from) + lines
  }

  // The first line that starts at or after b.
  ghost predicate StartsAt(file: Bytes, b: nat, from: nat) {
    && b <= from <= |file| && Boundary(file, from)
    && if b == 0 then from == 0 else b < from && NoNewline(file, b, from - 1)
  }

  lemma ScanLine(file: Bytes, b: nat, at: nat, first: bool, lines: seq<Line>, from: int, e: nat)
    requires Scanned(file, b, at, first, lines, from)
    requires at <= e < |file| && NoNewline(file, at, e) && file[e] == NEWLINE
    ensures if from >= 0 then Scanned(file, b, e + 1, false, lines + LineAt(file, at, e), from)
            else Scanned(file, b, e + 1, false, [], e + 1)
  {
    hide Records, LineAt;
    if from >= 0 {
      NextLine(file, at, e);
      assert Records(file, from) + lines + LineAt(file, at, e) == Records(file, from) + (lines + LineAt(file, at, e));
    } else {
      assert Records(file, e + 1) == Records(file, e + 1) + [];
    }
  }

  lemma ScanEnd(file: Bytes, b: nat, at: nat, first: bool, lines: seq<Line>, from: int, end: nat)
    requires Scanned(file, b, at, first, lines, from) && from >= 0
    requires at < end <= |file| && NoNewline(file, at, end)
    ensures Records(file, end) == Records(file, from) + (lines + LineAt(file, at, end))
  {
    hide Records, LineAt;
    LastLine(file, at, end);
    Regroup(Records(file, from), lines, LineAt(file, at, end));
  }

  lemma Regroup(a: seq<Line>, b: seq<Line>, c: seq<Line>)
    ensures a + b + c == a + (b + c)
  {}

  lemma SliceOfSlice(file: Bytes, b: nat, end: nat, s: nat, e: nat)
    requires b <= end <= |file| && s <= e <= end - b
    ensures file[b..end][s..e] == file[b + s..b + e]
  {
    var x, y := file[b..end][s..e], file[b + s..b + e];
    forall i | 0 <= i < e - s ensures x[i] == y[i] {
      assert x[i] == file[b..end][s + i];
    }
    assert |x| == |y|;
    assert x == y;
  }

  method PushLine(lines: seq<Line>, offset: nat, bytes: Bytes, ghost file: Bytes) returns (r: seq<Line>)
    requires offset + |bytes| <= |file| && bytes == file[offset..offset + |bytes|]
    ensures r == lines + LineAt(file, offset, offset + |bytes|)
  {
    var raw := StripReturn(bytes);
    r := lines;
    if raw != [] { r := lines + [Line(offset, raw)]; }
  }

  // The bytes from `at` to a newline: a complete line, if it starts in the buffer at all.
  method TakeLine(bytes: Bytes, b: nat, at: nat, first: bool, lines0: seq<Line>, ghost file: Bytes, ghost from0: int)
    returns (lines: seq<Line>, ghost from: int)
    requires at + |bytes| < |file| && bytes == file[at..at + |bytes|]
    requires NoNewline(file, at, at + |bytes|) && file[at + |bytes|] == NEWLINE
    requires Scanned(file, b, at, first, lines0, from0)
    ensures Scanned(file, b, at + |bytes| + 1, false, lines, from)
  {
    ScanLine(file, b, at, first, lines0, from0, at + |bytes|);
    if !first || b == 0 {
      lines := PushLine(lines0, at, bytes, file);
      from := from0;
    } else {
      lines := [];
      from := at + |bytes| + 1;
    }
  }

  // Every line that starts in the buffer; the first piece only when the buffer starts the file.
  // `from` is where the first of these lines starts, or -1 when none does.
  method CompleteRecords(buffer: Bytes, bufferStart: nat, ghost file: Bytes, fileEnd: nat)
    returns (lines: seq<Line>, ghost from: int)
    requires fileEnd <= |file| && bufferStart + |buffer| == fileEnd && buffer == file[bufferStart..fileEnd]
    ensures from < 0 ==> bufferStart > 0 && NoNewline(file, bufferStart, fileEnd) && lines == []
    ensures from >= 0 ==>
      && StartsAt(file, bufferStart, from) && from <= fileEnd
      && Records(file, fileEnd) == Records(file, from) + lines
  {
    hide Records, NoNewline, Boundary;
    var start, first;
    lines, start, first, from := ScanNewlines(buffer, bufferStart, file, fileEnd);
    if start < |buffer| && (!first || bufferStart == 0) {
      ScanEnd(file, bufferStart, bufferStart + start, first, lines, from, fileEnd);
      var bytes := PieceOf(buffer, bufferStart, start, |buffer|, file, fileEnd);
      lines := PushLine(lines, bufferStart + start, bytes, file);
    }
  }

  method ScanNewlines(buffer: Bytes, bufferStart: nat, ghost file: Bytes, ghost fileEnd: nat)
    returns (lines: seq<Line>, start: nat, first: bool, ghost from: int)
    requires fileEnd <= |file| && bufferStart + |buffer| == fileEnd && buffer == file[bufferStart..fileEnd]
    ensures start <= |buffer| && NoNewline(file, bufferStart + start, fileEnd)
    ensures Scanned(file, bufferStart, bufferStart + start, first, lines, from)
  {
    hide Records;
    lines, start, first := [], 0, true;
    from := if bufferStart == 0 then 0 else -1;
    assert Scanned(file, bufferStart, bufferStart, first, lines, from);
    ghost var at := bufferStart;
    for index := 0 to |buffer|
      invariant start <= index && at == bufferStart + start && NoNewline(file, at, bufferStart + index)
      invariant Scanned(file, bufferStart, at, first, lines, from)
    {
      if buffer[index] == NEWLINE {
        var bytes := PieceOf(buffer, bufferStart, start, index, file, fileEnd);
        lines, from := TakeLine(bytes, bufferStart, bufferStart + start, first, lines, file, from);
        first := false;
        start := index + 1;
        at := at + |bytes| + 1;
      }
    }
  }

  // A piece of the buffer is a piece of the file.
  method PieceOf(buffer: Bytes, bufferStart: nat, start: nat, index: nat, ghost file: Bytes, ghost fileEnd: nat)
    returns (bytes: Bytes)
    requires bufferStart <= fileEnd <= |file| && buffer == file[bufferStart..fileEnd] && start <= index <= |buffer|
    ensures bytes == buffer[start..index] == file[bufferStart + start..bufferStart + index]
  {
    SliceOfSlice(file, bufferStart, fileEnd, start, index);
    bytes := buffer[start..index];
  }

  // The chunks as they were read, last first.
  function JoinReversed(chunks: seq<Bytes>): Bytes {
    if chunks == [] then [] else chunks[|chunks| - 1] + JoinReversed(chunks[..|chunks| - 1])
  }

  // How many bytes the next read takes.
  function ReadLength(b: nat, buffered: nat, cap: nat, chunkBytes: nat): (n: nat)
    requires b > 0 && buffered < cap && chunkBytes >= 1
    ensures 0 < n <= b && buffered + n <= cap
  {
    var length := if chunkBytes < b then chunkBytes else b;
    if cap - buffered < length then cap - buffered else length
  }

  // Where reading back stops: at enough newlines, the cap, or the start of the file.
  function WindowFrom(file: Bytes, end: nat, b: nat, limit: nat, cap: nat, chunkBytes: nat): (r: nat)
    requires b <= end <= |file| && end - b <= cap && chunkBytes >= 1
    ensures r <= b && end - r <= cap
    ensures r == 0 || CountNewlines(file[r..end]) > limit || end - r == cap
    decreases b
  {
    if b > 0 && CountNewlines(file[b..end]) <= limit && end - b < cap
    then WindowFrom(file, end, b - ReadLength(b, end - b, cap, chunkBytes), limit, cap, chunkBytes)
    else b
  }

  function WindowStart(file: Bytes, end: nat, limit: nat, cap: nat, chunkBytes: nat): (r: nat)
    requires end <= |file| && chunkBytes >= 1
    ensures r <= end
    ensures r == 0 || CountNewlines(file[r..end]) > limit || end - r == cap
  {
    WindowFrom(file, end, end, limit, cap, chunkBytes)
  }

  // Read backwards from fileEnd until enough newlines, the cap, or the start of the file.
  method ReadBack(file: Bytes, fileEnd: nat, limit: nat, cap: nat, chunkBytes: nat)
    returns (buffer: Bytes, bufferStart: nat)
    requires fileEnd <= |file| && cap >= 1 && chunkBytes >= 1
    ensures bufferStart == WindowStart(file, fileEnd, limit, cap, chunkBytes) && buffer == file[bufferStart..fileEnd]
  {
    hide WindowFrom, JoinReversed, CountNewlines, ReadLength;
    var chunks: seq<Bytes> := [];
    bufferStart := fileEnd;
    NothingBuffered(file, fileEnd);
    var bufferedBytes, newlineCount := 0, 0;
    while bufferStart > 0 && newlineCount <= limit && bufferedBytes < cap
      invariant bufferStart + bufferedBytes == fileEnd && bufferedBytes <= cap
      invariant JoinReversed(chunks) == file[bufferStart..fileEnd]
      invariant newlineCount == CountNewlines(file[bufferStart..fileEnd])
      invariant WindowFrom(file, fileEnd, bufferStart, limit, cap, chunkBytes)
        == WindowStart(file, fileEnd, limit, cap, chunkBytes)
      decreases bufferStart
    {
      var length := ReadLength(bufferStart, bufferedBytes, cap, chunkBytes);
      var chunkStart := bufferStart - length;
      var chunk := file[chunkStart..bufferStart];
      OneMoreChunk(chunks, chunk);
      chunks := chunks + [chunk];
      var more := NewlinesIn(chunk);
      CountConcat(chunk, file[bufferStart..fileEnd]);
      SlicesJoin(file, chunkStart, bufferStart, fileEnd);
      WindowStep(file, fileEnd, bufferStart, limit, cap, chunkBytes);
      newlineCount := newlineCount + more;
      bufferedBytes := bufferedBytes + length;
      bufferStart := chunkStart;
    }
    WindowStep(file, fileEnd, bufferStart, limit, cap, chunkBytes);
    buffer := JoinReversed(chunks);
  }

  lemma NothingBuffered(file: Bytes, end: nat)
    requires end <= |file|
    ensures JoinReversed([]) == file[end..end] && CountNewlines(file[end..end]) == 0
  {}

  lemma OneMoreChunk(chunks: seq<Bytes>, chunk: Bytes)
    ensures JoinReversed(chunks + [chunk]) == chunk + JoinReversed(chunks)
  {
    assert (chunks + [chunk])[..|chunks|] == chunks;
  }

  lemma SlicesJoin(file: Bytes, a: nat, b: nat, c: nat)
    requires a <= b <= c <= |file|
    ensures file[a..c] == file[a..b] + file[b..c]
  {}

  // One more read, or the end of the window.
  lemma WindowStep(file: Bytes, end: nat, b: nat, limit: nat, cap: nat, chunkBytes: nat)
    requires b <= end <= |file| && end - b <= cap && chunkBytes >= 1
    ensures WindowFrom(file, end, b, limit, cap, chunkBytes)
      == if b > 0 && CountNewlines(file[b..end]) <= limit && end - b < cap
         then WindowFrom(file, end, b - ReadLength(b, end - b, cap, chunkBytes), limit, cap, chunkBytes) else b
  {
    hide CountNewlines, ReadLength;
  }

  method NewlinesIn(chunk: Bytes) returns (n: nat)
    ensures n == CountNewlines(chunk)
  {
    n := 0;
    for i := 0 to |chunk|
      invariant n == CountNewlines(chunk[..i])
    {
      assert chunk[..i + 1][..i] == chunk[..i];
      if chunk[i] == NEWLINE { n := n + 1; }
    }
    assert chunk[..|chunk|] == chunk;
  }

  // The page is the last lines before `end`: as many as the limit, or as the cap lets in; it says truly whether
  // there are earlier ones, and where to go on.
  ghost predicate IsPage(file: Bytes, end: nat, limit: nat, cap: nat, page: Page)
    requires end <= |file|
  {
    var all, m := Records(file, end), |page.lines|;
    && m <= |all| && m <= limit && page.lines == all[|all| - m..]
    && (all != [] ==> m > 0)
    && (page.hasMore <==> m < |all|)
    && (page.hasMore ==>
          && page.before < end && Boundary(file, page.before)
          && Records(file, page.before) == all[..|all| - m])
    && (m < limit && m < |all| ==> end - all[|all| - m - 1].offset >= cap)
  }

  // ----- any file: blank lines, long lines -----

  // The start of the first line after the first newline of a window; the window's own start when it starts the file.
  function FirstStart(file: Bytes, b: nat, end: nat): (from: int)
    requires b <= end <= |file|
    ensures from <= end
  {
    if b == 0 then 0 else AfterNewline(file, b, end)
  }

  function AfterNewline(file: Bytes, b: nat, end: nat): (from: int)
    requires b <= end <= |file|
    ensures from <= end
    decreases end - b
  {
    if b == end then -1 else if file[b] == NEWLINE then b + 1 else AfterNewline(file, b + 1, end)
  }

  lemma {:induction false} AfterNewlineIs(file: Bytes, b: nat, end: nat, from: int)
    requires b <= end <= |file|
    requires if from < 0 then from == -1 && NoNewline(file, b, end)
      else b < from <= end && NoNewline(file, b, from - 1) && file[from - 1] == NEWLINE
    ensures AfterNewline(file, b, end) == from
    decreases end - b
  {
    if b < end && file[b] != NEWLINE {
      AfterNewlineIs(file, b + 1, end, from);
    }
  }

  // How many of the lines before `end` start in the window.
  ghost function Visible(file: Bytes, b: nat, end: nat): int
    requires b <= end <= |file|
  {
    var from := FirstStart(file, b, end);
    if from < 0 then 0 else |Records(file, end)| - |Records(file, from)|
  }

  // A page of any file: the last lines of those before `end`, and where to go on. It never says that there are none
  // while there are, unless it is empty.
  ghost predicate AnyPage(file: Bytes, end: nat, page: Page)
    requires end <= |file|
  {
    var all, m := Records(file, end), |page.lines|;
    && m <= |all| && page.lines == all[|all| - m..]
    && (page.hasMore ==> m > 0 && page.before == page.lines[0].offset < end && Boundary(file, page.before))
    && (page.hasMore ==> Records(file, page.before) == all[..|all| - m])
    && (!page.hasMore && m > 0 ==> m == |all|)
  }

  ghost function Shown(file: Bytes, end: nat, limit: nat, cap: nat, chunkBytes: nat): int
    requires end <= |file| && chunkBytes >= 1
  {
    var visible := Visible(file, WindowStart(file, end, limit, cap, chunkBytes), end);
    if visible < limit then visible else limit
  }

  // What a window shows: `from` is where its first line starts, or negative when none does.
  ghost predicate Window(file: Bytes, b: nat, end: nat, from: int, records: seq<Line>) {
    && b <= end <= |file|
    && (from < 0 ==> b > 0 && NoNewline(file, b, end) && records == [])
    && (from >= 0 ==> StartsAt(file, b, from) && from <= end && Records(file, end) == Records(file, from) + records)
  }

  lemma WindowShows(file: Bytes, b: nat, end: nat, from: int, records: seq<Line>)
    requires Window(file, b, end, from, records)
    ensures Visible(file, b, end) == |records|
  {
    hide Records;
    if b > 0 {
      AfterNewlineIs(file, b, end, if from < 0 then -1 else from);
    }
  }

  lemma SelectedIsAnyPage(file: Bytes, b: nat, end: nat, limit: nat, from: int, records: seq<Line>, page: Page)
    requires Window(file, b, end, from, records) && limit >= 1
    requires page.lines == if |records| <= limit then records else records[|records| - limit..]
    requires page.hasMore == (|page.lines| > 0 && (|records| > |page.lines| || b > 0))
    requires page.hasMore ==> page.before == page.lines[0].offset
    ensures AnyPage(file, end, page)
  {
    hide Records, StartsAt, NoNewline;
    var all := Records(file, end);
    if from < 0 {
      assert all[|all|..] == [];
    } else {
      LastOfLast(all, Records(file, from), records, page.lines, limit);
      if page.hasMore {
        EarlierLines(file, end, |all| - |page.lines|);
      } else if b == 0 {
        NothingBefore(file, b, from);
      }
    }
  }

  // When a page says that there are more: when its window shows more lines, or there is something before the window.
  ghost predicate SaysMore(file: Bytes, w: nat, end: nat, page: Page)
    requires w <= end <= |file|
  {
    page.hasMore <==> |page.lines| > 0 && (Visible(file, w, end) > |page.lines| || w > 0)
  }

  // It says so wrongly in two cases: a page without a line never says it, and a page with every line does when its
  // window does not start the file.
  lemma MoreIsTrue(file: Bytes, w: nat, end: nat, page: Page)
    requires w <= end <= |file| && AnyPage(file, end, page) && SaysMore(file, w, end, page)
    ensures var all, m := Records(file, end), |page.lines|;
      (page.hasMore <==> m < |all|) <==> !(m == 0 && all != []) && !(m > 0 && m == |all| && w > 0)
  {
    hide Records;
    assert Visible(file, w, end) <= |Records(file, end)|;
  }

  lemma NothingBefore(file: Bytes, b: nat, from: nat)
    requires StartsAt(file, b, from) && b == 0
    ensures Records(file, from) == []
  {}

  function Apart(a: int, b: int): nat { if a < b then b - a else a - b }

  // The end of the file, or the position in it nearest to the one given.
  function PageEndOf(file: Bytes, before: Option<int>): (end: nat)
    ensures end <= |file| && (before.None? ==> end == |file|)
    ensures before.Some? ==> forall k :: 0 <= k <= |file| ==> Apart(end, before.value) <= Apart(k, before.value)
  {
    if before.None? then |file|
    else if before.value < 0 then 0
    else if before.value < |file| then before.value else |file|
  }

  function AtLeastOne(n: int): nat { if n < 1 then 1 else n }

  method ReadPage(file: Bytes, limit: int, before: Option<int>, maxBytes: int := DEFAULT_READ_MAX_BYTES,
                  chunkBytes: nat := READ_CHUNK_BYTES)
    returns (page: Page)
    requires chunkBytes >= 1
    ensures var end, pageLimit, cap := PageEndOf(file, before), AtLeastOne(limit), AtLeastOne(maxBytes);
      && AnyPage(file, end, page) && |page.lines| == Shown(file, end, pageLimit, cap, chunkBytes)
      && SaysMore(file, WindowStart(file, end, pageLimit, cap, chunkBytes), end, page)
      && (BlankFree(file) && LinesFit(file, cap) && PageEnd(file, end) ==> IsPage(file, end, pageLimit, cap, page))
      && LastLines(file, end, page.lines)
  {
    var fileEnd := PageEndOf(file, before);
    var boundedLimit := AtLeastOne(limit);
    var boundedBytes := AtLeastOne(maxBytes);
    hide Records, WindowStart, BlankFree, LinesFit, PageEnd, AnyPage, IsPage, Visible, StartsAt;
    var buffer, bufferStart := ReadBack(file, fileEnd, boundedLimit, boundedBytes, chunkBytes);
    ghost var from;
    var records;
    records, from := CompleteRecords(buffer, bufferStart, file, fileEnd);
    var selected := if |records| <= boundedLimit then records else records[|records| - boundedLimit..];
    var hasMore := |selected| > 0 && (|records| > |selected| || bufferStart > 0);
    page := Page(selected, hasMore, if hasMore then selected[0].offset else 0);
    assert Window(file, bufferStart, fileEnd, from, records);
    WindowShows(file, bufferStart, fileEnd, from, records);
    RecordsAreLines(file, fileEnd);
    SelectedIsAnyPage(file, bufferStart, fileEnd, boundedLimit, from, records, page);
    if BlankFree(file) && LinesFit(file, boundedBytes) && PageEnd(file, fileEnd) {
      WindowStartsLine(file, bufferStart, fileEnd, boundedLimit, boundedBytes, from);
      PageIsRight(file, bufferStart, fileEnd, boundedLimit, boundedBytes, from, records, page);
    }
  }

  lemma WindowStartsLine(file: Bytes, b: nat, end: nat, limit: nat, cap: nat, from: int)
    requires b <= end <= |file| && PageEnd(file, end) && LinesFit(file, cap) && limit >= 1
    requires b == 0 || CountNewlines(file[b..end]) > limit || end - b == cap
    requires from < 0 ==> b > 0 && NoNewline(file, b, end)
    requires from >= 0 ==> StartsAt(file, b, from)
    ensures from >= 0
    ensures b == 0 || CountNewlines(file[b..end]) > limit || (end - b == cap && from < end)
  {
    WindowIsEnough(file, b, end, limit, cap, from);
  }

  // A window that was read to the end of its budget contains the start of a line, unless it starts the file.
  lemma WindowIsEnough(file: Bytes, b: nat, end: nat, limit: nat, cap: nat, from: int)
    requires b <= end <= |file| && PageEnd(file, end) && LinesFit(file, cap) && limit >= 1
    requires b == 0 || CountNewlines(file[b..end]) > limit || end - b == cap
    requires from < 0 ==> b > 0 && NoNewline(file, b, end)
    ensures from >= 0
    ensures b > 0 && end - b == cap && from > b && NoNewline(file, b, from - 1) ==> from < end
  {
    if from < 0 {
      CountNone(file[b..end]);
    }
    if b > 0 && end - b == cap {
      LastIsLine(file, end);
      var e := ContentEnd(file, end);
      var s := LineStart(file, e);
      assert e - s + 2 <= cap;
      assert s > 0 && file[s - 1] == NEWLINE && b <= s - 1;
    }
  }

  // The lines before the window are not none, unless the window starts the file; a window that did not
  // reach its cap holds as many lines as the limit.
  lemma WindowLines(file: Bytes, b: nat, end: nat, limit: nat, from: nat, records: seq<Line>)
    requires StartsAt(file, b, from) && from <= end <= |file| && PageEnd(file, end) && BlankFree(file) && limit >= 1
    requires Records(file, end) == Records(file, from) + records
    ensures b > 0 ==> Records(file, from) != []
    ensures b == 0 ==> records == Records(file, end)
    ensures b > 0 && CountNewlines(file[b..end]) > limit ==> |records| >= limit
    ensures from < end ==> records != []
  {
    LinesPerNewline(file, from, end);
    if b > 0 {
      LinesPerNewline(file, 0, from);
      CountAfterFirst(file, b, from, end);
    }
  }

  lemma {:induction false} LineStartBelow(file: Bytes, b: nat, e: nat)
    requires b <= e && NoNewline(file, b, e)
    ensures LineStart(file, e) <= b
    decreases e
  {
    if b < e {
      LineStartBelow(file, b, e - 1);
    }
  }

  // The line before the window reaches back over its start.
  lemma LineBeforeWindow(file: Bytes, b: nat, from: nat)
    requires StartsAt(file, b, from) && b > 0 && BlankFree(file)
    ensures Records(file, from) != [] && Records(file, from)[|Records(file, from)| - 1].offset <= b
  {
    LastRecordBefore(file, from);
    LineStartBelow(file, b, from - 1);
  }

  // The last lines of the last lines.
  lemma LastOfLast(all: seq<Line>, earlier: seq<Line>, records: seq<Line>, lines: seq<Line>, limit: nat)
    requires all == earlier + records
    requires lines == if |records| <= limit then records else records[|records| - limit..]
    ensures |lines| <= |all| && |lines| <= limit && lines == all[|all| - |lines|..]
    ensures |lines| < limit ==> |all| - |lines| == |earlier|
    ensures earlier != [] ==> all[|earlier| - 1] == earlier[|earlier| - 1]
  {}

  lemma PageIsRight(file: Bytes, b: nat, end: nat, limit: nat, cap: nat, from: nat, records: seq<Line>, page: Page)
    requires StartsAt(file, b, from) && from <= end <= |file| && PageEnd(file, end) && BlankFree(file) && limit >= 1
    requires b == 0 || CountNewlines(file[b..end]) > limit || (end - b == cap && from < end)
    requires Records(file, end) == Records(file, from) + records
    requires page.lines == if |records| <= limit then records else records[|records| - limit..]
    requires page.hasMore == (|page.lines| > 0 && (|records| > |page.lines| || b > 0))
    requires page.hasMore ==> page.before == page.lines[0].offset
    ensures IsPage(file, end, limit, cap, page)
  {
    hide StartsAt, CountNewlines, BlankFree, PageEnd, Records, Boundary;
    WindowLines(file, b, end, limit, from, records);
    LastOfLast(Records(file, end), Records(file, from), records, page.lines, limit);
    if b > 0 {
      LineBeforeWindow(file, b, from);
    }
    if page.hasMore {
      GoesOn(file, end, page);
    }
  }

  // The first line of a page is where the lines before it end.
  lemma GoesOn(file: Bytes, end: nat, page: Page)
    requires end <= |file|
    requires var all, m := Records(file, end), |page.lines|;
      0 < m <= |all| && page.lines == all[|all| - m..] && page.before == page.lines[0].offset
    ensures page.before < end && Boundary(file, page.before)
    ensures Records(file, page.before) == Records(file, end)[..|Records(file, end)| - |page.lines|]
  {
    hide Records, Boundary;
    var all := Records(file, end);
    assert page.lines[0] == all[|all| - |page.lines|];
    EarlierLines(file, end, |all| - |page.lines|);
  }

  lemma CountAfterFirst(file: Bytes, b: nat, from: nat, end: nat)
    requires 0 < b < from <= end <= |file| && Boundary(file, from) && NoNewline(file, b, from - 1)
    ensures CountNewlines(file[b..end]) == 1 + CountNewlines(file[from..end])
  {
    var lead := file[b..from - 1];
    CountNone(lead);
    assert (lead + [NEWLINE])[..|lead|] == lead;
    assert file[b..end] == (lead + [NEWLINE]) + file[from..end];
    CountConcat(lead + [NEWLINE], file[from..end]);
  }

  // The last line before a boundary starts at its line start.
  lemma LastRecordBefore(file: Bytes, p: nat)
    requires 0 < p && Boundary(file, p) && BlankFree(file)
    ensures Records(file, p) != [] && Records(file, p)[|Records(file, p)| - 1].offset == LineStart(file, p - 1)
  {
    LastIsLine(file, p);
  }

  // ----- chaining pages -----

  // Pages read one after another, each from where the one before said to go on, until one says there is no more.
  ghost predicate Chained(file: Bytes, end: nat, limit: nat, cap: nat, pages: seq<Page>)
    requires end <= |file|
    decreases |pages|
  {
    && pages != [] && IsPage(file, end, limit, cap, pages[0])
    && if pages[0].hasMore then pages[0].before <= |file| && Chained(file, pages[0].before, limit, cap, pages[1..])
       else |pages| == 1
  }

  // The lines of the pages, in file order.
  ghost function Collected(pages: seq<Page>): seq<Line> {
    if pages == [] then [] else Collected(pages[1..]) + pages[0].lines
  }

  // Chained pages give every line exactly once and in order, whatever the limit, the cap and the chunk size.
  lemma {:induction false} ChainedPagesAreTheFile(file: Bytes, end: nat, limit: nat, cap: nat, pages: seq<Page>)
    requires end <= |file| && Chained(file, end, limit, cap, pages)
    ensures Collected(pages) == Records(file, end)
    ensures |pages| <= |Records(file, end)| || (|pages| == 1 && Records(file, end) == [])
    decreases |pages|
  {
    hide Records, IsPage;
    var all, m := Records(file, end), |pages[0].lines|;
    PageParts(file, end, limit, cap, pages[0]);
    TwoParts(all, m);
    if pages[0].hasMore {
      ChainedPagesAreTheFile(file, pages[0].before, limit, cap, pages[1..]);
    } else {
      assert pages[1..] == [] && m == |all|;
    }
  }

  lemma PageParts(file: Bytes, end: nat, limit: nat, cap: nat, page: Page)
    requires end <= |file| && IsPage(file, end, limit, cap, page)
    ensures var all, m := Records(file, end), |page.lines|;
      && m <= |all| && page.lines == all[|all| - m..]
      && (page.hasMore ==> 0 < m < |all| && page.before < end && Records(file, page.before) == all[..|all| - m])
      && (!page.hasMore ==> m == |all|)
  {
    hide Records;
  }

  lemma TwoParts(all: seq<Line>, m: nat)
    requires m <= |all|
    ensures all[..|all| - m] + all[|all| - m..] == all
    ensures m == |all| ==> [] + all[|all| - m..] == all
  {}

  lemma LastJoins(all: seq<Line>, lines: seq<Line>, later: seq<Line>)
    requires |lines| <= |all| && lines == all[|all| - |lines|..]
    ensures all[..|all| - |lines|] + (lines + later) == all + later
  {
    assert all == all[..|all| - |lines|] + lines;
  }

  // ----- paging through any file -----

  // Paging on from `end` reaches every line: no page is empty while there are lines before it.
  ghost predicate Covered(file: Bytes, end: nat, limit: nat, cap: nat, chunkBytes: nat)
    requires end <= |file| && chunkBytes >= 1
    decreases end
  {
    var all, m := Records(file, end), Shown(file, end, limit, cap, chunkBytes);
    if all == [] then true
    else if m <= 0 then false
    else if m >= |all| then true
    else
      Covered(file, NextEnd(file, end, m), limit, cap, chunkBytes)
  }

  // Where paging goes on behind a page of the last m lines.
  ghost function NextEnd(file: Bytes, end: nat, m: int): (next: nat)
    requires end <= |file| && 0 < m < |Records(file, end)|
    ensures next < end && next == Records(file, end)[|Records(file, end)| - m].offset
  {
    EarlierLines(file, end, |Records(file, end)| - m);
    Records(file, end)[|Records(file, end)| - m].offset
  }

  lemma CoveredOnwards(file: Bytes, end: nat, limit: nat, cap: nat, chunkBytes: nat, page: Page)
    requires end <= |file| && chunkBytes >= 1 && AnyPage(file, end, page)
      && |page.lines| == Shown(file, end, limit, cap, chunkBytes)
    ensures page.hasMore ==>
      (Covered(file, end, limit, cap, chunkBytes) <==> Covered(file, page.before, limit, cap, chunkBytes))
    ensures !page.hasMore ==> (Covered(file, end, limit, cap, chunkBytes) <==> page.lines == Records(file, end))
  {
    hide Records, Shown;
    var all, m := Records(file, end), |page.lines|;
    if page.hasMore {
      assert page.lines[0] == all[|all| - m];
      if m == |all| {
        assert Records(file, page.before) == [];
      }
    }
  }

  lemma AnyPageJoins(file: Bytes, end: nat, page: Page, later: seq<Line>)
    requires end <= |file| && AnyPage(file, end, page)
    ensures page.hasMore ==> Records(file, page.before) + (page.lines + later) == Records(file, end) + later
    ensures !page.hasMore && page.lines == Records(file, end) ==> page.lines + later == Records(file, end) + later
    ensures !page.hasMore && page.lines != Records(file, end) ==> page.lines == []
  {
    hide Records;
    LastJoins(Records(file, end), page.lines, later);
  }

  // Reading pages until there is no more ends. What it reads are the last lines of the file; it is the whole file
  // exactly when paging never meets a window without a line.
  method ReadAll(file: Bytes, limit: int, maxBytes: int, chunkBytes: nat) returns (lines: seq<Line>)
    requires chunkBytes >= 1
    ensures |lines| <= |Records(file, |file|)| && lines == Records(file, |file|)[|Records(file, |file|)| - |lines|..]
    ensures LastLines(file, |file|, lines)
    ensures AreLines(file, |file|, lines) <==> lines == Records(file, |file|)
    ensures lines == Records(file, |file|) <==>
      Covered(file, |file|, AtLeastOne(limit), AtLeastOne(maxBytes), chunkBytes)
  {
    hide Records, Covered, AnyPage, IsPage, Shown, AreLines, LastLines, SaysMore, WindowStart;
    ghost var pageLimit, cap := AtLeastOne(limit), AtLeastOne(maxBytes);
    ghost var all := Records(file, |file|);
    lines := [];
    var before: Option<int>, more := None, true;
    ghost var rest := all;
    assert all + [] == all;
    while more
      invariant before.Some? ==> before.value >= 0
      invariant rest + lines == all
      invariant more ==> rest == Records(file, PageEndOf(file, before))
      invariant more ==>
        (Covered(file, |file|, pageLimit, cap, chunkBytes) <==>
           Covered(file, PageEndOf(file, before), pageLimit, cap, chunkBytes))
      invariant !more ==> (Covered(file, |file|, pageLimit, cap, chunkBytes) <==> rest == [])
      decreases more, PageEndOf(file, before)
    {
      ghost var end := PageEndOf(file, before);
      var page := ReadPage(file, limit, before, maxBytes, chunkBytes);
      AnyPageJoins(file, end, page, lines);
      CoveredOnwards(file, end, pageLimit, cap, chunkBytes, page);
      PageGoesBack(file, end, page);
      rest := if page.hasMore then Records(file, page.before)
              else if page.lines == Records(file, end) then [] else rest;
      lines := page.lines + lines;
      more := page.hasMore;
      before := Some(if more then page.before else 0);
    }
    RestIsNothing(rest, lines, all);
    LastOfRecords(file, |file|, lines);
  }

  lemma LastOfRecords(file: Bytes, end: nat, lines: seq<Line>)
    requires end <= |file| && |lines| <= |Records(file, end)|
    requires lines == Records(file, end)[|Records(file, end)| - |lines|..]
    ensures LastLines(file, end, lines)
    ensures AreLines(file, end, lines) <==> lines == Records(file, end)
  {
    hide Records, AreLines;
    RecordsAreLines(file, end);
    if AreLines(file, end, lines) {
      SameLines(file, end, lines, Records(file, end));
    }
  }

  // There is only one such list.
  lemma SameLines(file: Bytes, end: nat, lines: seq<Line>, all: seq<Line>)
    requires AreLines(file, end, lines) && AreLines(file, end, all)
    requires |lines| <= |all| && lines == all[|all| - |lines|..]
    ensures lines == all
  {
    if all != [] {
      var e := EndOfLine(file, end, all[0]);
      assert StartsOne(lines, all[0].offset);
      var i :| 0 <= i < |lines| && lines[i].offset == all[0].offset;
      assert all[|all| - |lines| + i] == lines[i];
    }
  }

  lemma EndOfLine(file: Bytes, end: nat, line: Line) returns (e: nat)
    requires IsTextOf(file, end, line)
    ensures HasText(file, end, line.offset, e)
  {
    var s, stop := line.offset, line.offset + |line.raw|;
    e := if stop < end && file[stop] == 13 then stop + 1 else stop;
    var t := file[s..e];
    assert t[..|line.raw|] == line.raw;
    if e > stop {
      assert t == line.raw + [13];
    }
  }

  lemma PageGoesBack(file: Bytes, end: nat, page: Page)
    requires end <= |file| && AnyPage(file, end, page)
    ensures page.hasMore ==> page.before < end
  {}

  lemma RestIsNothing(rest: seq<Line>, lines: seq<Line>, all: seq<Line>)
    requires rest + lines == all
    ensures |lines| <= |all| && lines == all[|all| - |lines|..] && (lines == all <==> rest == [])
  {
    if lines == all {
      assert |rest| == 0;
    }
  }

  // ----- files that are covered, and a file that is not -----

  lemma {:induction false} AfterNewlineFacts(file: Bytes, b: nat, end: nat)
    requires b <= end <= |file|
    ensures var from := AfterNewline(file, b, end);
      if from < 0 then NoNewline(file, b, end)
      else b < from && NoNewline(file, b, from - 1) && file[from - 1] == NEWLINE
    decreases end - b
  {
    if b < end && file[b] != NEWLINE {
      AfterNewlineFacts(file, b + 1, end);
    }
  }

  // The lines before a line start come first.
  lemma {:induction false} RecordsSplit(file: Bytes, from: nat, end: nat)
    requires from <= end <= |file| && Boundary(file, from)
    ensures Records(file, from) <= Records(file, end)
    decreases end
  {
    if from < end {
      var e := ContentEnd(file, end);
      var s := LineStart(file, e);
      LineStartFacts(file, e);
      if from <= s {
        RecordsSplit(file, from, s);
      }
    }
  }

  lemma WindowOf(file: Bytes, b: nat, end: nat) returns (from: int, records: seq<Line>)
    requires b <= end <= |file|
    ensures Window(file, b, end, from, records)
  {
    hide Records, AfterNewline, NoNewline;
    from := FirstStart(file, b, end);
    if b > 0 { AfterNewlineFacts(file, b, end); } else { NothingSkipped(file); }
    if from < 0 {
      records := [];
    } else {
      RecordsSplit(file, from, end);
      records := Records(file, end)[|Records(file, from)|..];
    }
  }

  lemma NothingSkipped(file: Bytes)
    ensures Boundary(file, 0)
  {
  }

  // Without blank lines, and with lines that fit the cap, every page shows something.
  lemma SomethingShows(file: Bytes, end: nat, limit: nat, cap: nat, chunkBytes: nat)
    requires end <= |file| && chunkBytes >= 1 && limit >= 1 && BlankFree(file) && LinesFit(file, cap)
      && PageEnd(file, end)
    requires Records(file, end) != []
    ensures Shown(file, end, limit, cap, chunkBytes) > 0
  {
    hide Records, StartsAt, BlankFree, LinesFit, PageEnd;
    var b := WindowStart(file, end, limit, cap, chunkBytes);
    var from, records := WindowOf(file, b, end);
    WindowShows(file, b, end, from, records);
    WindowStartsLine(file, b, end, limit, cap, from);
    var lines := if |records| <= limit then records else records[|records| - limit..];
    var hasMore := |lines| > 0 && (|records| > |lines| || b > 0);
    PageIsRight(file, b, end, limit, cap, from, records, Page(lines, hasMore, if hasMore then lines[0].offset else 0));
  }

  // So paging covers such a file.
  lemma {:induction false} BlankFreeIsCovered(file: Bytes, end: nat, limit: nat, cap: nat, chunkBytes: nat)
    requires end <= |file| && chunkBytes >= 1 && limit >= 1 && BlankFree(file) && LinesFit(file, cap)
      && PageEnd(file, end)
    ensures Covered(file, end, limit, cap, chunkBytes)
    decreases end
  {
    hide Records, BlankFree, LinesFit, Shown, NextEnd;
    var all, m := Records(file, end), Shown(file, end, limit, cap, chunkBytes);
    if all != [] {
      SomethingShows(file, end, limit, cap, chunkBytes);
      if m < |all| {
        EarlierLines(file, end, |all| - m);
        BlankFreeIsCovered(file, NextEnd(file, end, m), limit, cap, chunkBytes);
      }
    }
  }

  const ONE_LINE: Bytes := [0x61, NEWLINE]

  function Newlines(n: nat): (t: Bytes)
    ensures |t| == n && forall i :: 0 <= i < n ==> t[i] == NEWLINE
  {
    seq(n, (i: nat) => NEWLINE)
  }

  lemma {:induction false} AllNewlines(t: Bytes)
    requires forall i :: 0 <= i < |t| ==> t[i] == NEWLINE
    ensures CountNewlines(t) == |t|
  {
    if t != [] {
      AllNewlines(t[..|t| - 1]);
    }
  }

  lemma {:induction false} BlankTailRecords(n: nat, p: nat)
    requires 2 <= p <= n + 2
    ensures Boundary(BlankTail(n), p) && |Records(BlankTail(n), p)| == 1
  {
    var file := BlankTail(n);
    if p == 2 {
      assert Records(file, 0) == [] && file[0..1] == [0x61];
      NextLine(file, 0, 1);
    } else {
      BlankTailRecords(n, p - 1);
      NextLine(file, p - 1, p - 1);
    }
  }

  function BlankTail(n: nat): (file: Bytes)
    ensures |file| == n + 2
  {
    ONE_LINE + Newlines(n)
  }

  // The first read takes one chunk of newlines, more than the limit.
  lemma BlankWindow(n: nat, limit: nat, cap: nat)
    requires n >= READ_CHUNK_BYTES && limit < READ_CHUNK_BYTES <= cap
    ensures WindowStart(BlankTail(n), n + 2, limit, cap, READ_CHUNK_BYTES) == n + 2 - READ_CHUNK_BYTES
  {
    var file, b := BlankTail(n), n + 2 - READ_CHUNK_BYTES;
    assert file[n + 2..n + 2] == [];
    AllNewlines(file[b..n + 2]);
    hide BlankTail;
    assert WindowFrom(file, n + 2, n + 2, limit, cap, READ_CHUNK_BYTES)
        == WindowFrom(file, n + 2, b, limit, cap, READ_CHUNK_BYTES);
  }

  lemma NothingVisible(n: nat, b: nat)
    requires 2 <= b < n + 2
    ensures Visible(BlankTail(n), b, n + 2) == 0
  {
    hide Records, FirstStart, BlankTail;
    NewlineAt(n, b);
    FirstStartHere(BlankTail(n), b, n + 2);
    BlankTailRecords(n, n + 2);
    BlankTailRecords(n, b + 1);
  }

  lemma NewlineAt(n: nat, b: nat)
    requires 2 <= b < n + 2
    ensures BlankTail(n)[b] == NEWLINE
  {}

  lemma FirstStartHere(file: Bytes, b: nat, end: nat)
    requires 0 < b < end <= |file| && file[b] == NEWLINE
    ensures FirstStart(file, b, end) == b + 1
  {}

  lemma EmptyPageIsNotCovered(file: Bytes, end: nat, limit: nat, cap: nat, chunkBytes: nat)
    requires end <= |file| && chunkBytes >= 1 && Records(file, end) != []
      && Shown(file, end, limit, cap, chunkBytes) <= 0
    ensures !Covered(file, end, limit, cap, chunkBytes)
  {
    hide Records, Shown;
  }

  // One line and then more blank ones than a read takes: the first page is empty, and the line is never read.
  lemma BlankTailIsNotCovered(n: nat, limit: nat, cap: nat)
    requires n >= READ_CHUNK_BYTES && limit < READ_CHUNK_BYTES <= cap
    ensures Records(BlankTail(n), n + 2) != [] && !Covered(BlankTail(n), n + 2, limit, cap, READ_CHUNK_BYTES)
  {
    hide Records, BlankTail, WindowStart, Visible, Covered;
    BlankWindow(n, limit, cap);
    NothingVisible(n, n + 2 - READ_CHUNK_BYTES);
    BlankTailRecords(n, n + 2);
    EmptyPageIsNotCovered(BlankTail(n), n + 2, limit, cap, READ_CHUNK_BYTES);
  }

  function BlankHead(n: nat): (file: Bytes)
    ensures |file| == n + 2 && forall i :: 0 <= i < n ==> file[i] == NEWLINE
  {
    Newlines(n) + ONE_LINE
  }

  lemma {:induction false} NoRecords(n: nat, p: nat)
    requires p <= n
    ensures Records(BlankHead(n), p) == []
  {
    hide BlankHead, Records;
    if p == 0 {
      NothingAtStart(BlankHead(n));
    } else {
      NoRecords(n, p - 1);
      BlankLine(BlankHead(n), p);
    }
  }

  lemma NothingAtStart(file: Bytes)
    ensures Records(file, 0) == []
  {}

  lemma BlankLine(file: Bytes, p: nat)
    requires 0 < p <= |file| && Boundary(file, p - 1) && file[p - 1] == NEWLINE
    ensures Records(file, p) == Records(file, p - 1)
  {
    hide Records;
    NextLine(file, p - 1, p - 1);
    assert file[p - 1..p - 1] == [];
  }

  lemma OneRecord(n: nat)
    ensures |Records(BlankHead(n), n + 2)| == 1
  {
    var file := BlankHead(n);
    NoRecords(n, n);
    assert file[n..n + 1] == [0x61];
    NextLine(file, n, n + 1);
  }

  lemma HeadWindow(n: nat, limit: nat, cap: nat)
    requires n + 2 > READ_CHUNK_BYTES && limit + 1 < READ_CHUNK_BYTES <= cap
    ensures WindowStart(BlankHead(n), n + 2, limit, cap, READ_CHUNK_BYTES) == n + 2 - READ_CHUNK_BYTES
  {
    var file, b := BlankHead(n), n + 2 - READ_CHUNK_BYTES;
    assert file[n + 2..n + 2] == [];
    AllNewlines(file[b..n]);
    assert file[b..n + 2] == file[b..n] + ONE_LINE;
    CountConcat(file[b..n], ONE_LINE);
    hide BlankHead;
    assert WindowFrom(file, n + 2, n + 2, limit, cap, READ_CHUNK_BYTES)
        == WindowFrom(file, n + 2, b, limit, cap, READ_CHUNK_BYTES);
  }

  // More blank lines than a read takes and then one line: the page has the line, and says that there are more.
  lemma BlankHeadSaysMore(n: nat, limit: nat, cap: nat, page: Page)
    requires n + 2 > READ_CHUNK_BYTES && 1 <= limit < READ_CHUNK_BYTES - 1 && READ_CHUNK_BYTES <= cap
    requires |page.lines| == Shown(BlankHead(n), n + 2, limit, cap, READ_CHUNK_BYTES)
    requires SaysMore(BlankHead(n), WindowStart(BlankHead(n), n + 2, limit, cap, READ_CHUNK_BYTES), n + 2, page)
    ensures page.hasMore && |page.lines| == |Records(BlankHead(n), n + 2)| == 1
  {
    hide Records, BlankHead, WindowStart, Visible;
    HeadWindow(n, limit, cap);
    HeadShows(n, n + 2 - READ_CHUNK_BYTES);
    OneRecord(n);
  }

  lemma HeadShows(n: nat, w: nat)
    requires 0 < w < n
    ensures Visible(BlankHead(n), w, n + 2) == 1
  {
    hide Records, BlankHead, FirstStart;
    FirstStartHere(BlankHead(n), w, n + 2);
    NoRecords(n, w + 1);
    OneRecord(n);
  }
}
