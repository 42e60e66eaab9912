// Byte-bounded clipping, canonical request text and end sampling (src/compaction/bounds.ts).
module Bounds {
  import opened Basics
  import opened Text

  const MAX_SUMMARY_BYTES := 32 * 1024
  const MAX_REQUEST_SOURCE_BYTES := 8 * 1024
  const ELLIPSIS: Text := [0x2026]

  // ----- clipping -----

  // The first character: a surrogate pair, or one code unit.
  function FirstCharacter(t: Text): Text
    requires t != []
  {
    if StartsWithPair(t) then t[..2] else t[..1]
  }

  // The longest run of leading characters whose bytes fit into `room`.
  function Fit(t: Text, room: int): Text
    decreases |t|
  {
    if t == [] || Utf8Bytes(FirstCharacter(t)) > room then []
    else FirstCharacter(t) + Fit(t[|FirstCharacter(t)|..], room - Utf8Bytes(FirstCharacter(t)))
  }

  function Clip(t: Text, maxBytes: int, suffix: Text): Text {
    if maxBytes <= 0 then []
    else if Utf8Bytes(t) <= maxBytes then t
    else if Utf8Bytes(suffix) >= maxBytes then []
    else Fit(t, maxBytes - Utf8Bytes(suffix)) + suffix
  }

  method ClipUtf8(text: Text, maxBytes: int, suffix: Text := ELLIPSIS) returns (r: Text)
    ensures r == Clip(text, maxBytes, suffix)
  {
    if maxBytes <= 0 { return []; }
    if Utf8Bytes(text) <= maxBytes { return text; }
    var suffixBytes := Utf8Bytes(suffix);
    if suffixBytes >= maxBytes { return []; }
    var output := FitInto(text, maxBytes - suffixBytes);
    r := output + suffix;
  }

  // The loop over characters.
  method FitInto(text: Text, available: int) returns (output: Text)
    requires available >= 0
    ensures output == Fit(text, available)
  {
    var used, i := 0, 0;
    output := [];
    while i < |text|
      invariant i <= |text|
      invariant output + Fit(text[i..], available - used) == Fit(text, available)
    {
      var character := FirstCharacter(text[i..]);
      var bytes := Utf8Bytes(character);
      if used + bytes > available { return; }
      ghost var rest := Fit(text[i + |character|..], available - used - bytes);
      assert text[i..][|character|..] == text[i + |character|..];
      assert Fit(text[i..], available - used) == character + rest;
      hide Fit, Utf8Bytes;
      assert output + (character + rest) == output + character + rest;
      output := output + character;
      used := used + bytes;
      i := i + |character|;
    }
    assert text[i..] == [];
  }

  // What is kept is a prefix within the room, and the next character would not have fitted.
  lemma {:induction false} FitFacts(t: Text, room: int)
    requires room >= 0
    ensures var kept := Fit(t, room);
      && kept <= t && Utf8Bytes(kept) <= room
      && (kept != t ==> Utf8Bytes(kept) + Utf8Bytes(FirstCharacter(t[|kept|..])) > room)
    decreases |t|
  {
    if t != [] {
      var c := FirstCharacter(t);
      var bytes := Utf8Bytes(c);
      if bytes <= room {
        var tail := t[|c|..];
        var more := Fit(tail, room - bytes);
        hide Utf8Bytes, FirstCharacter;
        FitFacts(tail, room - bytes);
        LeadingCharacter(t, more);
        assert t == c + tail;
        assert t[|c + more|..] == tail[|more|..];
      }
    }
  }

  // Bytes add up behind a first character of t.
  lemma LeadingCharacter(t: Text, more: Text)
    requires t != [] && more <= t[|FirstCharacter(t)|..]
    ensures var c := FirstCharacter(t); Utf8Bytes(c + more) == Utf8Bytes(c) + Utf8Bytes(more)
  {
    var c := FirstCharacter(t);
    assert (c + more)[|c|..] == more;
    assert StartsWithPair(t) ==> c[2..] == [];
  }

  // Clipping never exceeds the bound, and leaves a text within the bound alone.
  lemma ClipBounded(t: Text, maxBytes: nat, suffix: Text)
    ensures Utf8Bytes(Clip(t, maxBytes, suffix)) <= maxBytes
    ensures Utf8Bytes(t) <= maxBytes ==> Clip(t, maxBytes, suffix) == t
  {
    if maxBytes > 0 && Utf8Bytes(t) > maxBytes && Utf8Bytes(suffix) < maxBytes {
      FitFacts(t, maxBytes - Utf8Bytes(suffix));
      Utf8ConcatAtMost(Fit(t, maxBytes - Utf8Bytes(suffix)), suffix);
    }
  }

  // r is t clipped: t itself when it fits, and otherwise the longest part of t from its start that fits beside the
  // suffix and splits no surrogate pair, and the suffix.
  ghost predicate IsClipped(t: Text, maxBytes: int, suffix: Text, r: Text) {
    if maxBytes > 0 && Utf8Bytes(t) <= maxBytes then r == t
    else if Utf8Bytes(suffix) >= maxBytes then r == []
    else exists n: nat :: IsClippedAt(t, maxBytes, suffix, r, n)
  }

  ghost predicate IsClippedAt(t: Text, maxBytes: int, suffix: Text, r: Text, n: nat) {
    && n <= |t| && r == t[..n] + suffix && Apart(t, n) && Utf8Bytes(t[..n]) + Utf8Bytes(suffix) <= maxBytes
    && forall m :: n < m <= |t| && Apart(t, m) ==> Utf8Bytes(t[..m]) + Utf8Bytes(suffix) > maxBytes
  }

  // No surrogate pair lies across position n.
  ghost predicate Apart(t: Text, n: nat)
    requires n <= |t|
  {
    !(0 < n < |t| && 0xd800 <= t[n - 1] <= 0xdbff && 0xdc00 <= t[n] <= 0xdfff)
  }

  lemma ClipIsExact(t: Text, maxBytes: int, suffix: Text)
    ensures IsClipped(t, maxBytes, suffix, Clip(t, maxBytes, suffix))
  {
    if maxBytes > Utf8Bytes(suffix) && Utf8Bytes(t) > maxBytes {
      var room := maxBytes - Utf8Bytes(suffix);
      var kept := Fit(t, room);
      FitFacts(t, room);
      FitIsApart(t, room);
      forall m | |kept| < m <= |t| && Apart(t, m) ensures Utf8Bytes(t[..m]) > room {
        FitIsLongest(t, room, m);
      }
      assert t[..|kept|] == kept;
      assert IsClippedAt(t, maxBytes, suffix, kept + suffix, |kept|);
    }
  }

  // The bytes of a part of t that starts with its first character.
  lemma PartBytes(t: Text, m: nat)
    requires t != [] && |FirstCharacter(t)| <= m <= |t|
    ensures var c := FirstCharacter(t);
      Utf8Bytes(t[..m]) == Utf8Bytes(c) + Utf8Bytes(t[|c|..][..m - |c|])
  {
    var c := FirstCharacter(t);
    var more := t[|c|..][..m - |c|];
    assert t[..m] == c + more;
    LeadingCharacter(t, more);
  }

  lemma {:induction false} FitIsApart(t: Text, room: int)
    ensures |Fit(t, room)| <= |t| && Apart(t, |Fit(t, room)|)
    decreases |t|
  {
    if t != [] && Utf8Bytes(FirstCharacter(t)) <= room {
      var c := FirstCharacter(t);
      FitIsApart(t[|c|..], room - Utf8Bytes(c));
      hide Utf8Bytes;
    }
  }

  // A longer part does not fit.
  lemma {:induction false} FitIsLongest(t: Text, room: int, m: nat)
    requires |Fit(t, room)| < m <= |t| && Apart(t, m)
    ensures Utf8Bytes(t[..m]) > room
    decreases |t|
  {
    var c := FirstCharacter(t);
    assert |c| <= m;
    PartBytes(t, m);
    var bytes, tail := Utf8Bytes(c), t[|c|..];
    if bytes <= room {
      assert |Fit(t, room)| == |c| + |Fit(tail, room - bytes)|;
      hide Utf8Bytes, Fit, FirstCharacter;
      FitIsLongest(tail, room - bytes, m - |c|);
    }
  }

  // ----- canonical text: trimmed, every run of white space a single space -----

  predicate IsWhite(u: CodeUnit) {
    0x09 <= u <= 0x0d || u == 0x20 || u == 0xa0 || u == 0x1680 || 0x2000 <= u <= 0x200a
      || u == 0x2028 || u == 0x2029 || u == 0x202f || u == 0x205f || u == 0x3000 || u == 0xfeff
  }

  function SkipWhite(t: Text): (r: Text)
    ensures |r| <= |t| && (r != [] ==> !IsWhite(r[0]))
  {
    if t != [] && IsWhite(t[0]) then SkipWhite(t[1..]) else t
  }

  function WordLength(t: Text): (k: nat)
    ensures k <= |t| && (k < |t| ==> IsWhite(t[k])) && forall i :: 0 <= i < k ==> !IsWhite(t[i])
  {
    if t == [] || IsWhite(t[0]) then 0 else 1 + WordLength(t[1..])
  }

  // The words between white space.
  function Words(t: Text): seq<Text>
    decreases |t|
  {
    var u := SkipWhite(t);
    if u == [] then [] else [u[..WordLength(u)]] + Words(u[WordLength(u)..])
  }

  function Canonical(t: Text): Text {
    JoinWith(Words(t), [SPACE])
  }

  datatype CanonicalText = CanonicalText(text: Text, truncated: bool, sourceBytes: nat)

  function CanonicalizeText(input: Text, maxBytes: int := MAX_REQUEST_SOURCE_BYTES): CanonicalText {
    var canonical := Canonical(input);
    var sourceBytes := Utf8Bytes(canonical);
    CanonicalText(Clip(canonical, maxBytes, ELLIPSIS), sourceBytes > maxBytes, sourceBytes)
  }

  lemma WhiteBytes(t: Text)
    requires t != [] && IsWhite(t[0])
    ensures Utf8Bytes(t) >= 1 + Utf8Bytes(t[1..])
  {}

  lemma {:induction false} SkipWhiteBytes(t: Text)
    ensures Utf8Bytes(SkipWhite(t)) <= Utf8Bytes(t)
    ensures Words(t) == Words(SkipWhite(t))
  {
    if t != [] && IsWhite(t[0]) {
      SkipWhiteBytes(t[1..]);
      WhiteBytes(t);
    }
    SkipWhiteTwice(t);
  }

  lemma {:induction false} SkipWhiteTwice(t: Text)
    ensures SkipWhite(SkipWhite(t)) == SkipWhite(t)
  {
    if t != [] && IsWhite(t[0]) {
      SkipWhiteTwice(t[1..]);
    }
  }

  // Canonical text is never longer, in bytes, than its source.
  lemma {:induction false} CanonicalBytes(t: Text)
    ensures Utf8Bytes(Canonical(t)) <= Utf8Bytes(t)
    decreases |t|
  {
    SkipWhiteBytes(t);
    var u := SkipWhite(t);
    if u != [] {
      var k := WordLength(u);
      var word, rest := u[..k], u[k..];
      assert u == word + rest && u[0] == word[0];
      assert Seam(word, rest);
      Utf8Concat(word, rest);
      CanonicalBytesOfRest(word, rest);
      assert Words(u) == [word] + Words(rest) && ([word] + Words(rest))[1..] == Words(rest);
      if Words(rest) != [] {
        JoinFront(Words(u), [SPACE]);
      }
    }
  }

  lemma {:induction false} CanonicalBytesOfRest(word: Text, rest: Text)
    requires rest != [] ==> IsWhite(rest[0])
    ensures Words(rest) != [] ==> Utf8Bytes(word + [SPACE] + Canonical(rest)) <= Utf8Bytes(word) + Utf8Bytes(rest)
    decreases |rest|, 0
  {
    if rest != [] {
      WhiteBytes(rest);
      CanonicalBytes(rest[1..]);
      assert SkipWhite(rest) == SkipWhite(rest[1..]);
      SkipWhiteBytes(rest);
      SkipWhiteBytes(rest[1..]);
      assert Canonical(rest) == Canonical(rest[1..]);
      Utf8ConcatAtMost(word, [SPACE]);
      Utf8ConcatAtMost(word + [SPACE], Canonical(rest));
      assert Utf8Bytes([SPACE]) == 1 by { assert [SPACE][1..] == []; }
    }
  }

  ghost predicate IsWord(w: Text) {
    w != [] && forall i :: 0 <= i < |w| ==> !IsWhite(w[i])
  }

  ghost predicate AllWords(ws: seq<Text>) {
    forall i :: 0 <= i < |ws| ==> IsWord(ws[i])
  }

  lemma {:induction false} WordsAreWords(t: Text)
    ensures AllWords(Words(t))
    decreases |t|
  {
    var u := SkipWhite(t);
    if u != [] {
      WordsAreWords(u[WordLength(u)..]);
    }
  }

  lemma {:induction false} WordLengthOf(w: Text, rest: Text)
    requires forall i :: 0 <= i < |w| ==> !IsWhite(w[i])
    requires rest == [] || IsWhite(rest[0])
    ensures WordLength(w + rest) == |w|
  {
    if w == [] {
      assert w + rest == rest;
    } else {
      assert (w + rest)[1..] == w[1..] + rest;
      WordLengthOf(w[1..], rest);
    }
  }

  // A word at the front of a text.
  lemma WordsFront(w: Text, rest: Text)
    requires w != [] && forall i :: 0 <= i < |w| ==> !IsWhite(w[i])
    requires rest == [] || IsWhite(rest[0])
    ensures Words(w + rest) == [w] + Words(rest)
  {
    var t := w + rest;
    assert t[0] == w[0];
    WordLengthOf(w, rest);
    assert t[..|w|] == w && t[|w|..] == rest;
  }

  lemma SkipOne(u: CodeUnit, t: Text)
    requires IsWhite(u)
    ensures Words([u] + t) == Words(t)
  {
    assert ([u] + t)[1..] == t;
    assert SkipWhite([u] + t) == SkipWhite(t);
  }

  lemma {:induction false} WordsOfJoin(ws: seq<Text>)
    requires AllWords(ws)
    ensures Words(JoinWith(ws, [SPACE])) == ws
  {
    if ws == [] {
      assert Words([]) == [];
    } else {
      hide Words, IsWhite;
      var w, tail := ws[0], ws[1..];
      WordsOfJoin(tail);
      assert ws == [w] + tail;
      if |ws| == 1 {
        WordsFront(w, []);
        assert w + [] == w;
      } else {
        SpaceIsWhite();
        var after := JoinWith(tail, [SPACE]);
        WordsFront(w, [SPACE] + after);
        SkipOne(SPACE, after);
        JoinFront(ws, [SPACE]);
        assert JoinWith(ws, [SPACE]) == w + ([SPACE] + after);
      }
    }
  }

  lemma SpaceIsWhite()
    ensures IsWhite(SPACE)
  {}

  // The white space that `trim` and the canonical form know.
  const WHITE: seq<int> := [
    0x09, 0x0a, 0x0b, 0x0c, 0x0d, 0x20, 0xa0, 0x1680, 0x2000, 0x2001, 0x2002, 0x2003, 0x2004, 0x2005, 0x2006, 0x2007,
    0x2008, 0x2009, 0x200a, 0x2028, 0x2029, 0x202f, 0x205f, 0x3000, 0xfeff]

  ghost predicate IsListedWhite(u: CodeUnit) {
    u in WHITE
  }

  lemma WhiteIsListed(u: CodeUnit)
    ensures IsWhite(u) <==> IsListedWhite(u)
  {}

  ghost predicate AllWhite(t: Text) {
    forall i :: 0 <= i < |t| ==> IsListedWhite(t[i])
  }

  ghost predicate NoWhite(t: Text) {
    t != [] && forall i :: 0 <= i < |t| ==> !IsListedWhite(t[i])
  }

  // Gaps and words in turn, a gap at either end.
  ghost function Woven(gaps: seq<Text>, words: seq<Text>): Text
    requires |gaps| == |words| + 1
  {
    if words == [] then gaps[0] else gaps[0] + words[0] + Woven(gaps[1..], words[1..])
  }

  ghost predicate AreGaps(gaps: seq<Text>, words: seq<Text>) {
    && |gaps| == |words| + 1
    && (forall i :: 0 <= i < |gaps| ==> AllWhite(gaps[i]))
    && (forall i :: 0 < i < |words| ==> gaps[i] != [])
    && (forall i :: 0 <= i < |words| ==> NoWhite(words[i]))
  }

  lemma {:induction false} SkipGap(gap: Text, t: Text)
    requires AllWhite(gap)
    ensures Words(gap + t) == Words(t)
  {
    hide IsListedWhite, IsWhite, Words;
    if gap == [] {
      assert gap + t == t;
    } else {
      WhiteIsListed(gap[0]);
      SkipGap(gap[1..], t);
      SkipOne(gap[0], gap[1..] + t);
      assert gap + t == [gap[0]] + (gap[1..] + t);
    }
  }

  // The words of a text are those between its gaps, and its canonical form has one space between each two of them.
  lemma {:induction false} WordsAreBetween(gaps: seq<Text>, words: seq<Text>)
    requires AreGaps(gaps, words)
    ensures Words(Woven(gaps, words)) == words
    ensures Canonical(Woven(gaps, words)) == JoinWith(words, [' ' as int])
  {
    hide Words;
    if words == [] {
      SkipGap(gaps[0], []);
      assert gaps[0] + [] == gaps[0];
      NoWords();
    } else {
      WordsAreBetween(gaps[1..], words[1..]);
      var rest := Woven(gaps[1..], words[1..]);
      RestIsGap(gaps, words);
      forall i | 0 <= i < |words[0]| ensures !IsWhite(words[0][i]) { WhiteIsListed(words[0][i]); }
      WordsFront(words[0], rest);
      SkipGap(gaps[0], words[0] + rest);
      assert gaps[0] + words[0] + rest == gaps[0] + (words[0] + rest);
      assert words == [words[0]] + words[1..];
    }
  }

  lemma NoWords()
    ensures Words([]) == []
  {}

  lemma RestIsGap(gaps: seq<Text>, words: seq<Text>)
    requires AreGaps(gaps, words) && words != []
    ensures var rest := Woven(gaps[1..], words[1..]); rest == [] || IsWhite(rest[0])
  {
    var rest := Woven(gaps[1..], words[1..]);
    if gaps[1] != [] {
      assert rest[0] == gaps[1][0];
      WhiteIsListed(rest[0]);
    }
  }

  // Canonical text is a fixed point.
  lemma CanonicalIdempotent(t: Text)
    ensures Canonical(Canonical(t)) == Canonical(t)
  {
    WordsAreWords(t);
    WordsOfJoin(Words(t));
  }

  // ----- sampling both ends -----

  datatype Sample<T> = Sample(values: seq<T>, omitted: nat, omittedFirst: Option<T>, omittedLast: Option<T>,
                              splitIndex: nat)

  lemma SliceGrows<T>(s: seq<T>, a: nat, b: nat)
    requires a <= b < |s|
    ensures s[a..b] + [s[b]] == s[a..b + 1]
  {}

  lemma SliceShrinks<T>(s: seq<T>, a: nat, b: nat)
    requires a < b <= |s|
    ensures s[a..b][1..] == s[a + 1..b] && s[a..b][0] == s[a]
  {}

  // The first half, rounded up, and the last half, rounded down; one pass over the source.
  method SampleAddressedFrom<T>(source: seq<T>, maxValues: nat) returns (s: Sample<T>)
    ensures |source| <= maxValues ==>
      s.values == source && s.omitted == 0 && s.omittedFirst == None && s.omittedLast == None
    ensures |source| > maxValues ==>
      var head, tail := (maxValues + 1) / 2, maxValues / 2;
      && s.values == source[..head] + source[|source| - tail..] && s.splitIndex == head
      && s.omitted == |source| - maxValues
      && s.omittedFirst == Some(source[head]) && s.omittedLast == Some(source[|source| - tail - 1])
    ensures |s.values| + s.omitted == |source|
  {
    var earliest, latest, omitted, first, last := Sweep(source, (maxValues + 1) / 2, maxValues / 2);
    s := Sample(earliest + latest, omitted, first, last, |earliest|);
  }

  // The one pass: what comes first is kept until its share is full, then the latest, displacing the oldest of them.
  method Sweep<T>(source: seq<T>, earliestLimit: nat, latestLimit: nat)
    returns (earliest: seq<T>, latest: seq<T>, omitted: nat, first: Option<T>, last: Option<T>)
    ensures |earliest| + omitted + |latest| == |source| && |earliest| <= earliestLimit && |latest| <= latestLimit
    ensures earliest == source[..|earliest|] && latest == source[|earliest| + omitted..]
    ensures |earliest| < earliestLimit ==> latest == [] && omitted == 0
    ensures omitted == 0 ==> first == None && last == None
    ensures omitted > 0 ==> |earliest| == earliestLimit && |latest| == latestLimit
    ensures omitted > 0 ==> first == Some(source[earliestLimit]) && last == Some(source[earliestLimit + omitted - 1])
  {
    earliest, latest, omitted, first, last := [], [], 0, None, None;
    for i := 0 to |source|
      invariant |earliest| + omitted + |latest| == i
      invariant |earliest| <= earliestLimit && earliest == source[..|earliest|]
        && latest == source[|earliest| + omitted..i]
      invariant |earliest| < earliestLimit ==> latest == [] && omitted == 0
      invariant |latest| <= latestLimit && (omitted > 0 ==> |latest| == latestLimit)
      invariant omitted == 0 ==> first == None && last == None
      invariant omitted > 0 ==>
        first == Some(source[earliestLimit]) && last == Some(source[earliestLimit + omitted - 1])
    {
      if |earliest| < earliestLimit {
        SliceGrows(source, 0, i);
        earliest := earliest + [source[i]];
        continue;
      }
      SliceGrows(source, |earliest| + omitted, i);
      latest := latest + [source[i]];
      if |latest| <= latestLimit { continue; }
      var displaced := latest[0];
      SliceShrinks(source, |earliest| + omitted, i + 1);
      latest := latest[1..];
      omitted := omitted + 1;
      if first.None? { first := Some(displaced); }
      last := Some(displaced);
    }
  }
}
