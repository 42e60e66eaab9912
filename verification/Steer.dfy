// Polling an append-only file of steering commands (src/worker.ts, pollSteer).
module Steer {
  import opened Basics
  import opened Lines

  const READ_CHUNK_BYTES := 256 * 1024
  const MAX_COMMANDS_PER_POLL := 256

  // What decoding a line makes of it: the bytes of its text, and whether that is blank once trimmed.
  datatype Decoder = Decoder(size: Bytes -> nat, blank: Bytes -> bool)

  // Decoding replaces malformed bytes by a character of three bytes for at most three of them: no line gets shorter.
  ghost predicate NeverShortens(decoder: Decoder) {
    forall line :: |line| <= decoder.size(line)
  }

  // A line is taken up unless its text is too long or blank.
  predicate Eligible(line: Bytes, decoder: Decoder) {
    decoder.size(line) <= MAX_LINE_BYTES && !decoder.blank(line)
  }

  function EligibleLines(lines: seq<Bytes>, decoder: Decoder): seq<Bytes> {
    if lines == [] then [] else
      var last := lines[|lines| - 1];
      EligibleLines(lines[..|lines| - 1], decoder) + if Eligible(last, decoder) then [last] else []
  }

  // The commands of a whole text: its complete lines that are neither too long nor blank, in order.
  function Commands(text: Bytes, decoder: Decoder): seq<Bytes> {
    EligibleLines(CompleteLines(text), decoder)
  }

  // What one poll reads: a bounded chunk from where the previous poll stopped.
  function ChunkOf(file: Bytes, offset: nat): Bytes {
    if |file| <= offset then []
    else if |file| - offset <= READ_CHUNK_BYTES then file[offset..]
    else file[offset..offset + READ_CHUNK_BYTES]
  }

  // The bytes consumed so far, and the command lines passed on.
  datatype Progress = Progress(seen: Bytes, delivered: seq<Bytes>)

  // A poll, without buffers: forget everything when the file shrank, then read on, and pass on
  // the first commands among the lines this completes.
  function PollStep(p: Progress, file: Bytes, decoder: Decoder): Progress {
    var seen := if |file| < |p.seen| then [] else p.seen;
    var chunk := ChunkOf(file, |seen|);
    Progress(seen + chunk, p.delivered + FirstOf(Commands(Tail(seen) + chunk, decoder), MAX_COMMANDS_PER_POLL))
  }

  class SteerReader {
    const decoder: Decoder
    var offset: nat
    var remainder: Bytes
    var skipping: bool
    var delivered: seq<Bytes>
    ghost var seen: Bytes

    // The buffers summarize what was seen: the unfinished line, or that it is already too long.
    ghost predicate Valid()
      reads this
    {
      && NeverShortens(decoder) && offset == |seen|
      && (skipping <==> |Tail(seen)| > MAX_LINE_BYTES)
      && remainder == (if skipping then [] else Tail(seen))
    }

    ghost function State(): Progress
      reads this
    {
      Progress(seen, delivered)
    }

    constructor (decoder: Decoder)
      requires NeverShortens(decoder)
      ensures Valid() && State() == Progress([], []) && this.decoder == decoder
    {
      this.decoder := decoder;
      offset, remainder, skipping, delivered, seen := 0, [], false, [], [];
    }

    method Poll(file: Bytes)
      requires Valid()
      modifies this
      ensures Valid()
      ensures State() == PollStep(old(State()), file, decoder)
    {
      hide Commands, FirstOf;
      var size := |file|;
      if size < offset {
        offset, remainder, skipping := 0, [], false;
        seen := [];
      }
      assert Valid() && State() == Progress(if |file| < |old(seen)| then [] else old(seen), old(delivered));
      if size <= offset {
        NothingMore(seen, decoder);
        NothingTaken(delivered);
        return;
      }
      var length := if size - offset < READ_CHUNK_BYTES then size - offset else READ_CHUNK_BYTES;
      var buffer := file[offset..offset + length];
      assert buffer == ChunkOf(file, |seen|);
      offset := offset + length;
      Consume(buffer);
    }

    // Everything after the read.
    method Consume(buffer: Bytes)
      requires NeverShortens(decoder) && offset == |seen| + |buffer|
      requires skipping <==> |Tail(seen)| > MAX_LINE_BYTES
      requires remainder == (if skipping then [] else Tail(seen))
      modifies this
      ensures Valid() && seen == old(seen) + buffer && offset == old(offset)
      ensures delivered == old(delivered) + FirstOf(Commands(Tail(old(seen)) + buffer, decoder), MAX_COMMANDS_PER_POLL)
    {
      hide Commands, FirstOf, Tail;
      Extend(seen, buffer);
      TailAfterLast(seen);
      ghost var head := Tail(seen);
      var combined := remainder + buffer;
      seen := seen + buffer;
      if skipping {
        SkipFirst(head, buffer, decoder);
        assert combined == buffer;
        var skippedLineEnd := FirstNewline(combined);
        if skippedLineEnd == |combined| {
          NothingTaken(delivered);
          return;
        }
        combined := combined[skippedLineEnd + 1..];
        skipping := false;
      } else {
        assert combined == head + buffer;
      }
      TakeUp(combined);
    }

    // What remains once no line is being skipped: pass on the complete lines, keep or give up the rest.
    method TakeUp(combined: Bytes)
      requires !skipping
      modifies this
      ensures seen == old(seen) && offset == old(offset)
      ensures skipping <==> |Tail(combined)| > MAX_LINE_BYTES
      ensures remainder == if skipping then [] else Tail(combined)
      ensures delivered == old(delivered) + FirstOf(Commands(combined, decoder), MAX_COMMANDS_PER_POLL)
    {
      var newline := LastNewline(combined);
      LinesBeforeLast(combined);
      TailAfterLast(combined);
      if newline < 0 {
        assert CompleteLines(combined) == [];
        if |combined| > MAX_LINE_BYTES {
          remainder, skipping := [], true;
        } else {
          remainder := combined;
        }
        return;
      }
      var rest := combined[newline + 1..];
      if |rest| > MAX_LINE_BYTES {
        remainder, skipping := [], true;
      } else {
        remainder := rest;
      }
      Deliver(CompleteLines(combined[..newline + 1]));
    }

    // The loop over the complete lines.
    method Deliver(lines: seq<Bytes>)
      modifies this`delivered
      ensures delivered == old(delivered) + FirstOf(EligibleLines(lines, decoder), MAX_COMMANDS_PER_POLL)
    {
      var processedCommands := 0;
      for i := 0 to |lines|
        invariant processedCommands == |EligibleLines(lines[..i], decoder)| <= MAX_COMMANDS_PER_POLL
        invariant delivered == old(delivered) + EligibleLines(lines[..i], decoder)
      {
        EligiblePrefix(lines, i, decoder);
        if processedCommands >= MAX_COMMANDS_PER_POLL { return; }
        assert lines[..i + 1][..i] == lines[..i];
        if decoder.size(lines[i]) > MAX_LINE_BYTES { continue; }
        if decoder.blank(lines[i]) { continue; }
        processedCommands := processedCommands + 1;
        delivered := delivered + [lines[i]];
      }
      assert lines[..|lines|] == lines;
    }
  }

  lemma {:induction false} EligibleConcat(a: seq<Bytes>, b: seq<Bytes>, decoder: Decoder)
    ensures EligibleLines(a + b, decoder) == EligibleLines(a, decoder) + EligibleLines(b, decoder)
  {
    if b == [] {
      assert a + b == a;
    } else {
      EligibleConcat(a, b[..|b| - 1], decoder);
      assert (a + b)[..|a + b| - 1] == a + b[..|b| - 1];
    }
  }

  lemma {:induction false} EligiblePrefix(lines: seq<Bytes>, i: nat, decoder: Decoder)
    requires i <= |lines|
    ensures EligibleLines(lines[..i], decoder) <= EligibleLines(lines, decoder)
  {
    if i == |lines| {
      assert lines[..i] == lines;
    } else {
      var init := lines[..|lines| - 1];
      EligiblePrefix(init, i, decoder);
      assert init[..i] == lines[..i];
    }
  }

  lemma NothingMore(seen: Bytes, decoder: Decoder)
    ensures seen + [] == seen && Commands(Tail(seen) + [], decoder) == [] && Commands([], decoder) == []
  {
    assert CompleteLines([]) == [];
    TailAfterLast(seen);
    assert Tail(seen) + [] == Tail(seen);
  }

  lemma NothingTaken(before: seq<Bytes>)
    ensures before + FirstOf([], MAX_COMMANDS_PER_POLL) == before
  {}

  lemma TooLongIsSkipped(line: Bytes, decoder: Decoder)
    requires |line| > MAX_LINE_BYTES && NeverShortens(decoder)
    ensures EligibleLines([line], decoder) == []
  {
    assert EligibleLines([line][..0], decoder) == [];
  }

  lemma LongLineSplits(head: Bytes, buffer: Bytes)
    requires !HasNewline(head) && HasNewline(buffer)
    ensures var k := FirstNewline(buffer);
      head + buffer == head + buffer[..k] + [NEWLINE] + buffer[k + 1..] && !HasNewline(head + buffer[..k])
  {
    var line := head + buffer[..FirstNewline(buffer)];
    FirstNewlineIs(line, |line|);
  }

  // Dropping the rest of a line that is too long drops no command and damages no other line.
  lemma SkipFirst(head: Bytes, buffer: Bytes, decoder: Decoder)
    requires |head| > MAX_LINE_BYTES && !HasNewline(head) && NeverShortens(decoder)
    ensures HasNewline(buffer) ==>
      var rest := buffer[FirstNewline(buffer) + 1..];
      Commands(head + buffer, decoder) == Commands(rest, decoder) && Tail(head + buffer) == Tail(rest)
    ensures !HasNewline(buffer) ==> Commands(head + buffer, decoder) == [] && Tail(head + buffer) == head + buffer
  {
    if HasNewline(buffer) {
      var k := FirstNewline(buffer);
      var line, rest := head + buffer[..k], buffer[k + 1..];
      LongLineSplits(head, buffer);
      hide FirstNewline, HasNewline, CompleteLines, Tail, EligibleLines;
      LineThenRest(line, rest);
      EligibleConcat([line], CompleteLines(rest), decoder);
      TooLongIsSkipped(line, decoder);
      assert EligibleLines(CompleteLines(rest), decoder) == [] + EligibleLines(CompleteLines(rest), decoder);
    } else {
      FirstNewlineIs(head + buffer, |head + buffer|);
    }
  }

  // ----- runs -----

  // The state after polling a file as it looked at each poll.
  function Run(p: Progress, files: seq<Bytes>, decoder: Decoder): Progress {
    if files == [] then p else PollStep(Run(p, files[..|files| - 1], decoder), files[|files| - 1], decoder)
  }

  // The file only ever grows.
  ghost predicate Growing(files: seq<Bytes>) {
    forall i, j :: 0 <= i < j < |files| ==> files[i] <= files[j]
  }

  // No poll of the run completes more commands than it may pass on.
  ghost predicate Unhurried(p: Progress, files: seq<Bytes>, decoder: Decoder) {
    files != [] ==>
      var before := Run(p, files[..|files| - 1], decoder);
      && Unhurried(p, files[..|files| - 1], decoder)
      && |Commands(Tail(before.seen) + ChunkOf(files[|files| - 1], |before.seen|), decoder)| <= MAX_COMMANDS_PER_POLL
  }

  lemma CommandsExtend(a: Bytes, b: Bytes, decoder: Decoder)
    ensures Commands(a + b, decoder) == Commands(a, decoder) + Commands(Tail(a) + b, decoder)
  {
    Extend(a, b);
    EligibleConcat(CompleteLines(a), CompleteLines(Tail(a) + b), decoder);
  }

  lemma ChunkExtends(seen: Bytes, file: Bytes)
    requires seen <= file
    ensures seen + ChunkOf(file, |seen|) <= file
    ensures |seen| < |file| ==> ChunkOf(file, |seen|) != []
    ensures |file| - |seen| <= READ_CHUNK_BYTES ==> seen + ChunkOf(file, |seen|) == file
  {}

  // A poll of a file that has not shrunk.
  lemma PollAdvances(p: Progress, file: Bytes, decoder: Decoder)
    requires p.seen <= file
    ensures var q, chunk := PollStep(p, file, decoder), ChunkOf(file, |p.seen|);
      && q.seen == p.seen + chunk <= file
      && var news := Commands(Tail(p.seen) + chunk, decoder);
         q.delivered == p.delivered + FirstOf(news, MAX_COMMANDS_PER_POLL)
           && Commands(q.seen, decoder) == Commands(p.seen, decoder) + news
  {
    hide Commands, Tail, FirstOf;
    ChunkExtends(p.seen, file);
    CommandsExtend(p.seen, ChunkOf(file, |p.seen|), decoder);
  }

  lemma TakenExactly(a: seq<Bytes>, b: seq<Bytes>, news: seq<Bytes>, n: nat)
    requires |a| <= |b|
    ensures |a + FirstOf(news, n)| <= |b + news|
    ensures a + FirstOf(news, n) == b + news <==> a == b && |news| <= n
    ensures |a| < |b| || |news| > n ==> |a + FirstOf(news, n)| < |b + news|
  {
    if a + FirstOf(news, n) == b + news {
      assert |FirstOf(news, n)| == |news|;
      assert a == (a + FirstOf(news, n))[..|a|] == (b + news)[..|b|] == b;
    }
  }

  // What a run passed on is what it should have, but for some of it left out: the order stays, nothing is repeated.
  ghost predicate Subsequence(part: seq<Bytes>, whole: seq<Bytes>) {
    if part == [] then true
    else if whole == [] then false
    else
      var p, w := |part| - 1, |whole| - 1;
      (part[p] == whole[w] && Subsequence(part[..p], whole[..w])) || Subsequence(part, whole[..w])
  }

  lemma {:induction false} SubsequenceOfMore(part: seq<Bytes>, whole: seq<Bytes>, rest: seq<Bytes>)
    requires Subsequence(part, whole)
    ensures Subsequence(part, whole + rest)
  {
    if rest == [] {
      assert whole + rest == whole;
    } else {
      var init := rest[..|rest| - 1];
      SubsequenceOfMore(part, whole, init);
      assert (whole + rest)[..|whole + rest| - 1] == whole + init;
    }
  }

  lemma {:induction false} BothGrow(part: seq<Bytes>, whole: seq<Bytes>, more: seq<Bytes>)
    requires Subsequence(part, whole)
    ensures Subsequence(part + more, whole + more)
  {
    if more == [] {
      assert part + more == part && whole + more == whole;
    } else {
      var init := more[..|more| - 1];
      BothGrow(part, whole, init);
      assert (whole + more)[..|whole + more| - 1] == whole + init;
      assert (part + more)[..|part + more| - 1] == part + init;
    }
  }

  lemma TakenInOrder(a: seq<Bytes>, b: seq<Bytes>, news: seq<Bytes>, n: nat)
    requires Subsequence(a, b)
    ensures Subsequence(a + FirstOf(news, n), b + news)
  {
    var taken := FirstOf(news, n);
    var rest := news[|taken|..];
    BothGrow(a, b, taken);
    SubsequenceOfMore(a + taken, b + taken, rest);
    assert b + taken + rest == b + news by { assert taken + rest == news; }
  }

  // However appends and reads fall, what was consumed is a prefix of the file, each poll passes on the first commands
  // it completes, so what was passed on is a subsequence of the commands consumed: all of them exactly when no poll
  // hits its cap.
  lemma {:induction false} RunDelivers(files: seq<Bytes>, decoder: Decoder)
    requires Growing(files)
    ensures var p := Run(Progress([], []), files, decoder);
      && (files != [] ==> p.seen <= files[|files| - 1])
      && (files == [] ==> p.seen == [])
      && Subsequence(p.delivered, Commands(p.seen, decoder))
      && |p.delivered| <= |Commands(p.seen, decoder)|
      && (p.delivered == Commands(p.seen, decoder) <==> Unhurried(Progress([], []), files, decoder))
      && (!Unhurried(Progress([], []), files, decoder) ==> |p.delivered| < |Commands(p.seen, decoder)|)
  {
    hide Commands, Tail, FirstOf, ChunkOf, PollStep;
    if files == [] {
      NothingMore([], decoder);
    } else {
      hide Subsequence;
      var init, file := files[..|files| - 1], files[|files| - 1];
      RunDelivers(init, decoder);
      var before := Run(Progress([], []), init, decoder);
      if init != [] { assert init[|init| - 1] == files[|files| - 2] <= file; }
      PollAdvances(before, file, decoder);
      var news := Commands(Tail(before.seen) + ChunkOf(file, |before.seen|), decoder);
      TakenExactly(before.delivered, Commands(before.seen, decoder), news, MAX_COMMANDS_PER_POLL);
      TakenInOrder(before.delivered, Commands(before.seen, decoder), news, MAX_COMMANDS_PER_POLL);
      assert Unhurried(Progress([], []), files, decoder) <==>
        Unhurried(Progress([], []), init, decoder) && |news| <= MAX_COMMANDS_PER_POLL;
      assert Run(Progress([], []), files, decoder) == PollStep(before, file, decoder);
    }
  }

  // A poll that reaches the end of the file leaves nothing unread.
  lemma PollCatchesUp(p: Progress, file: Bytes, decoder: Decoder)
    requires p.seen <= file && |file| - |p.seen| <= READ_CHUNK_BYTES
    ensures PollStep(p, file, decoder).seen == file
  {
    ChunkExtends(p.seen, file);
  }

  // ----- a burst -----

  const LETTER: Bytes := [0x61]

  function Burst(n: nat): (file: Bytes)
    ensures |file| == 2 * n
  {
    if n == 0 then [] else LETTER + [NEWLINE] + Burst(n - 1)
  }

  function Plain(): Decoder { Decoder((line: Bytes) => |line|, (line: Bytes) => line == []) }

  lemma {:induction false} BurstCommands(n: nat)
    ensures |Commands(Burst(n), Plain())| == n
  {
    if n == 0 {
      NothingMore([], Plain());
    } else {
      BurstCommands(n - 1);
      BurstLines(n);
      hide Burst, CompleteLines;
      OneEligible();
      EligibleConcat([LETTER], CompleteLines(Burst(n - 1)), Plain());
    }
  }

  lemma BurstLines(n: nat)
    requires n > 0
    ensures CompleteLines(Burst(n)) == [LETTER] + CompleteLines(Burst(n - 1))
  {
    assert Burst(n) == LETTER + [NEWLINE] + Burst(n - 1);
    hide Burst, CompleteLines;
    LineThenRest(LETTER, Burst(n - 1));
  }

  lemma OneEligible()
    ensures EligibleLines([LETTER], Plain()) == [LETTER]
  {
    assert EligibleLines([LETTER][..0], Plain()) == [];
  }

  // A file of 257 short lines read by one poll: 256 are passed on, and the last is lost.
  lemma BurstLosesOne()
    ensures var files, p := [Burst(257)], Run(Progress([], []), [Burst(257)], Plain());
      && Growing(files) && !Unhurried(Progress([], []), files, Plain())
      && p.seen == Burst(257) && |p.delivered| == 256 && |Commands(p.seen, Plain())| == 257
  {
    hide Burst, Commands, CompleteLines;
    BurstCommands(257);
    var file := Burst(257);
    var files := [file];
    assert files[..0] == [] && ChunkOf(file, 0) == file && [] + file == file;
    EmptyTail();
    assert Run(Progress([], []), files, Plain()) == PollStep(Progress([], []), file, Plain());
  }

  lemma EmptyTail()
    ensures Tail([]) == []
  {}
  // ----- one poll, told by the bytes -----

  lemma {:induction false} EligibleAreChosen(lines: seq<Bytes>, decoder: Decoder) returns (at: seq<nat>)
    ensures Chosen(lines, (line: Bytes) => decoder.size(line) <= 65536 && !decoder.blank(line), at)
    ensures LinesAt(lines, at, EligibleLines(lines, decoder))
  {
    var keep := (line: Bytes) => decoder.size(line) <= 65536 && !decoder.blank(line);
    if lines == [] {
      at := [];
    } else {
      var init, last := lines[..|lines| - 1], lines[|lines| - 1];
      at := EligibleAreChosen(init, decoder);
      ChosenSnoc(init, keep, at, last);
      assert lines == init + [last];
      at := at + if keep(last) then [|init|] else [];
    }
  }

  ghost predicate LinesAt(lines: seq<Bytes>, at: seq<nat>, some: seq<Bytes>) {
    |some| == |at| && forall i :: 0 <= i < |at| ==> at[i] < |lines| && some[i] == lines[at[i]]
  }

  // A poll reads 256 KiB at most behind what was seen, or the shrunken file anew, and passes on the first 256 of the
  // lines it completes whose text takes 64 KiB at most and is not blank.
  lemma PollIsExact(p: Progress, file: Bytes, decoder: Decoder)
      returns (chunk: Bytes, lines: seq<Bytes>, rest: Bytes, at: seq<nat>, commands: seq<Bytes>)
    ensures var q, seen := PollStep(p, file, decoder), if |file| < |p.seen| then [] else p.seen;
      && q.seen == seen + chunk
      && chunk <= file[|seen|..] && |chunk| == MinInt(|file| - |seen|, 262144)
      && IsSplit(Tail(seen) + chunk, lines, rest)
      && Chosen(lines, (line: Bytes) => decoder.size(line) <= 65536 && !decoder.blank(line), at)
      && LinesAt(lines, at, commands)
      && q.delivered == p.delivered + if |commands| > 256 then commands[..256] else commands
  {
    var seen := if |file| < |p.seen| then [] else p.seen;
    chunk := ChunkOf(file, |seen|);
    var text := Tail(seen) + chunk;
    lines, rest := CompleteLines(text), Tail(text);
    LinesAreSplit(text);
    at := EligibleAreChosen(lines, decoder);
    commands := EligibleLines(lines, decoder);
    hide IsSplit, Chosen, LinesAt, Tail, CompleteLines, EligibleLines;
  }
}
