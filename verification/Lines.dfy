// Newline-separated bytes, read whole or in pieces.
module Lines {
  type Byte = b: int | 0 <= b < 256

  type Bytes = seq<Byte>

  const NEWLINE: Byte := 0x0a
  const MAX_LINE_BYTES := 64 * 1024

  // The position of the first newline, or the length when there is none.
  function FirstNewline(s: Bytes): (k: nat)
    ensures k <= |s| && (k < |s| ==> s[k] == NEWLINE)
    ensures forall i :: 0 <= i < k ==> s[i] != NEWLINE
  {
    if s == [] || s[0] == NEWLINE then 0 else 1 + FirstNewline(s[1..])
  }

  // The position of the last newline, or -1.
  function LastNewline(s: Bytes): (k: int)
    ensures -1 <= k < |s| && (k >= 0 ==> s[k] == NEWLINE)
    ensures forall i :: k < i < |s| ==> s[i] != NEWLINE
  {
    if s == [] then -1 else if s[|s| - 1] == NEWLINE then |s| - 1 else LastNewline(s[..|s| - 1])
  }

  predicate HasNewline(s: Bytes) {
    FirstNewline(s) < |s|
  }

  // The complete lines of s, without their newlines.
  function CompleteLines(s: Bytes): seq<Bytes>
    decreases |s|
  {
    if HasNewline(s) then [s[..FirstNewline(s)]] + CompleteLines(s[FirstNewline(s) + 1..]) else []
  }

  // What follows the last newline.
  function Tail(s: Bytes): Bytes
    decreases |s|
  {
    if HasNewline(s) then Tail(s[FirstNewline(s) + 1..]) else s
  }

  lemma FirstNewlineIs(s: Bytes, k: nat)
    requires k <= |s| && (k < |s| ==> s[k] == NEWLINE)
    requires forall i :: 0 <= i < k ==> s[i] != NEWLINE
    ensures FirstNewline(s) == k
  {}

  // One line and what follows it.
  lemma LineThenRest(line: Bytes, rest: Bytes)
    requires !HasNewline(line)
    ensures var s := line + [NEWLINE] + rest;
      CompleteLines(s) == [line] + CompleteLines(rest) && Tail(s) == Tail(rest)
  {
    var s := line + [NEWLINE] + rest;
    FirstNewlineIs(s, |line|);
    assert s[..|line|] == line && s[|line| + 1..] == rest;
  }

  // Reading a piece more: the lines it completes start with what was left over.
  lemma {:induction false} Extend(a: Bytes, b: Bytes)
    ensures CompleteLines(a + b) == CompleteLines(a) + CompleteLines(Tail(a) + b)
    ensures Tail(a + b) == Tail(Tail(a) + b)
    decreases |a|
  {
    if HasNewline(a) {
      var k := FirstNewline(a);
      var line, rest := a[..k], a[k + 1..];
      FirstNewlineIs(line, k);
      assert a == line + [NEWLINE] + rest;
      assert a + b == line + [NEWLINE] + (rest + b);
      LineThenRest(line, rest);
      LineThenRest(line, rest + b);
      Extend(rest, b);
      JoinLines([line], CompleteLines(rest), CompleteLines(Tail(rest) + b));
    } else {
      assert CompleteLines(a) == [];
      assert [] + CompleteLines(a + b) == CompleteLines(a + b);
    }
  }

  lemma JoinLines(a: seq<Bytes>, b: seq<Bytes>, c: seq<Bytes>)
    ensures a + (b + c) == a + b + c
  {}

  // The tail is what follows the last newline.
  lemma {:induction false} TailAfterLast(s: Bytes)
    ensures Tail(s) == s[LastNewline(s) + 1..] && HasNewline(s) == (LastNewline(s) >= 0)
    ensures !HasNewline(Tail(s))
    decreases |s|
  {
    var k := FirstNewline(s);
    if k < |s| {
      var t := s[k + 1..];
      TailAfterLast(t);
      var m := LastNewline(t);
      LastNewlineIs(s, k + 1 + m);
      assert s[k + 1 + m + 1..] == t[m + 1..];
    } else {
      LastNewlineIs(s, -1);
    }
  }

  lemma LastNewlineIs(s: Bytes, k: int)
    requires -1 <= k < |s| && (k >= 0 ==> s[k] == NEWLINE)
    requires forall i :: k < i < |s| ==> s[i] != NEWLINE
    ensures LastNewline(s) == k
  {}

  // Cutting at the last newline loses no line.
  lemma LinesBeforeLast(s: Bytes)
    ensures CompleteLines(s[..LastNewline(s) + 1]) == CompleteLines(s)
  {
    var head, tail := SplitAtLast(s);
    ExtendCut(head, tail);
  }

  lemma SplitAtLast(s: Bytes) returns (head: Bytes, tail: Bytes)
    ensures head == s[..LastNewline(s) + 1] && s == head + tail && Tail(head) == []
    ensures forall i :: 0 <= i < |tail| ==> tail[i] != NEWLINE
  {
    var k := LastNewline(s);
    head, tail := s[..k + 1], s[k + 1..];
    HeadHasNoTail(s);
  }

  lemma ExtendCut(head: Bytes, tail: Bytes)
    requires Tail(head) == [] && forall i :: 0 <= i < |tail| ==> tail[i] != NEWLINE
    ensures CompleteLines(head) == CompleteLines(head + tail)
  {
    Extend(head, tail);
    assert [] + tail == tail;
    FirstNewlineIs(tail, |tail|);
    assert CompleteLines(tail) == [];
  }

  lemma HeadHasNoTail(s: Bytes)
    ensures Tail(s[..LastNewline(s) + 1]) == []
  {
    var k := LastNewline(s);
    var head := s[..k + 1];
    TailAfterLast(head);
    if k >= 0 {
      LastNewlineIs(head, k);
    }
  }

  // ----- the lines, told by the bytes -----

  // The lines, each with its newline.
  ghost function Ended(lines: seq<Bytes>): Bytes {
    if lines == [] then [] else lines[0] + [10] + Ended(lines[1..])
  }

  // s is these lines and a rest, and none of them holds a newline.
  ghost predicate IsSplit(s: Bytes, lines: seq<Bytes>, rest: Bytes) {
    s == Ended(lines) + rest && 10 !in rest && forall i :: 0 <= i < |lines| ==> 10 !in lines[i]
  }

  lemma {:induction false} LinesAreSplit(s: Bytes)
    ensures IsSplit(s, CompleteLines(s), Tail(s))
    decreases |s|
  {
    if HasNewline(s) {
      var k := FirstNewline(s);
      var more := s[k + 1..];
      LinesAreSplit(more);
      assert 10 !in s[..k] && s == s[..k] + [10] + more;
      SplitFront(s[..k], more, CompleteLines(more), Tail(more));
    }
  }

  lemma SplitFront(line: Bytes, more: Bytes, lines: seq<Bytes>, rest: Bytes)
    requires 10 !in line && IsSplit(more, lines, rest)
    ensures IsSplit(line + [10] + more, [line] + lines, rest)
  {
    assert ([line] + lines)[1..] == lines;
    assert line + [10] + (Ended(lines) + rest) == line + [10] + Ended(lines) + rest;
  }

  // There is no other way to split it.
  lemma {:induction false} SplitIsOne(s: Bytes, lines: seq<Bytes>, rest: Bytes)
    requires IsSplit(s, lines, rest)
    ensures lines == CompleteLines(s) && rest == Tail(s)
    decreases lines
  {
    if lines == [] {
      FirstNewlineIs(s, |s|);
    } else {
      var more := Ended(lines[1..]) + rest;
      SplitIsOne(more, lines[1..], rest);
      FirstNewlineIs(lines[0], |lines[0]|);
      LineThenRest(lines[0], more);
      assert s == lines[0] + [NEWLINE] + more;
    }
  }
}
