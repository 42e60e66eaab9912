// Rendering a heat field within a token budget (src/codemap/render-heat.ts).
module RenderHeat {
  import opened Basics
  import opened Text

  const HOT_TIER := 0.3
  const WARM_TIER := 0.02
  const HEAT_EPS := 0.000000001

  datatype RenderNode = RenderNode(id: Text, name: Text, kind: Text, file: Text, line: nat, sig: Text)

  // A file and how many of its nodes only glow.
  datatype Glow = Glow(file: Text, count: nat)

  datatype HeatRender = HeatRender(text: Text, tokens: nat, shown: nat, suppressed: nat, litTotal: nat, truncated: bool,
                                   revealedIds: seq<Text>)

  // ----- candidates -----

  function Peak(field: seq<real>): real {
    if field == [] then 0.0 else
      var rest := Peak(field[..|field| - 1]);
      if field[|field| - 1] > rest then field[|field| - 1] else rest
  }

  predicate Lit(h: real, vmax: real)
    requires vmax > 0.0
  {
    h / vmax >= WARM_TIER * 0.1 && h >= HEAT_EPS
  }

  // The indices of the lit nodes below n that are neither excluded nor already disclosed.
  function Candidates(nodes: seq<RenderNode>, field: seq<real>, vmax: real, exclude: set<Text>, disclosed: set<Text>,
                      n: nat): (r: seq<nat>)
    requires n <= |nodes| == |field| && vmax > 0.0
    ensures forall i :: i in r <==>
      0 <= i < n && Lit(field[i], vmax) && nodes[i].id !in exclude && nodes[i].id !in disclosed
  {
    if n == 0 then [] else
      Candidates(nodes, field, vmax, exclude, disclosed, n - 1)
      + if Lit(field[n - 1], vmax) && nodes[n - 1].id !in exclude && nodes[n - 1].id !in disclosed then [n - 1] else []
  }

  function Seen(nodes: seq<RenderNode>, field: seq<real>, vmax: real, exclude: set<Text>, disclosed: set<Text>,
                n: nat): nat
    requires n <= |nodes| == |field| && vmax > 0.0
  {
    if n == 0 then 0 else
      Seen(nodes, field, vmax, exclude, disclosed, n - 1)
      + if Lit(field[n - 1], vmax) && nodes[n - 1].id !in exclude && nodes[n - 1].id in disclosed then 1 else 0
  }

  method CollectCandidates(nodes: seq<RenderNode>, field: seq<real>, vmax: real, exclude: set<Text>,
                           disclosed: set<Text>)
    returns (candidates: seq<nat>, suppressed: nat)
    requires |nodes| == |field| && vmax > 0.0
    ensures candidates == Candidates(nodes, field, vmax, exclude, disclosed, |nodes|)
    ensures suppressed == Seen(nodes, field, vmax, exclude, disclosed, |nodes|)
  {
    candidates, suppressed := [], 0;
    for i := 0 to |nodes|
      invariant candidates == Candidates(nodes, field, vmax, exclude, disclosed, i)
      invariant suppressed == Seen(nodes, field, vmax, exclude, disclosed, i)
    {
      var h := field[i] / vmax;
      if h < WARM_TIER * 0.1 || field[i] < HEAT_EPS || nodes[i].id in exclude {
        continue;
      }
      if nodes[i].id in disclosed {
        suppressed := suppressed + 1;
        continue;
      }
      candidates := candidates + [i];
    }
  }

  method PeakOf(field: seq<real>) returns (vmax: real)
    ensures vmax == Peak(field)
  {
    vmax := 0.0;
    for i := 0 to |field|
      invariant vmax == Peak(field[..i])
    {
      assert field[..i + 1][..i] == field[..i];
      if field[i] > vmax { vmax := field[i]; }
    }
    assert field[..|field|] == field;
  }

  // ----- tiers -----

  datatype Tier = Hot | Warm | Cool

  function TierOf(h: real, vmax: real): Tier
    requires vmax > 0.0
  {
    if h / vmax >= HOT_TIER then Hot else if h / vmax >= WARM_TIER then Warm else Cool
  }

  function LineOf(n: RenderNode, tier: Tier): (t: Text)
    ensures |t| >= 1
  {
    if tier == Hot then Chars("\U{25B2} ") + n.file + [COLON] + Digits(n.line) + Chars("  ") + n.sig
    else Chars("  \U{B7} ") + n.name + Chars(" (") + n.kind + Chars(") ") + n.file + [COLON] + Digits(n.line)
  }

  function GlowLine(g: Glow): (t: Text)
    ensures |t| >= 1
  {
    Chars("  ~ + ") + Digits(g.count) + Chars(" more in ") + g.file
  }

  predicate InRange(capped: seq<nat>, n: nat) {
    forall i :: 0 <= i < |capped| ==> capped[i] < n
  }

  // The candidates rendered one by one, in order, and those that are only counted.
  function Individuals(capped: seq<nat>, field: seq<real>, vmax: real): (r: seq<nat>)
    requires InRange(capped, |field|) && vmax > 0.0
    ensures |r| <= |capped| && InRange(r, |field|)
  {
    if capped == [] then [] else
      Individuals(capped[..|capped| - 1], field, vmax)
      + if TierOf(field[capped[|capped| - 1]], vmax) == Cool then [] else [capped[|capped| - 1]]
  }

  function IndividualLines(nodes: seq<RenderNode>, field: seq<real>, vmax: real, chosen: seq<nat>): (r: seq<Text>)
    requires InRange(chosen, |field|) && |nodes| == |field| && vmax > 0.0
    ensures |r| == |chosen| && forall i :: 0 <= i < |r| ==> |r[i]| >= 1
  {
    seq(|chosen|, i requires 0 <= i < |chosen| => LineOf(nodes[chosen[i]], TierOf(field[chosen[i]], vmax)))
  }

  function IdsOf(nodes: seq<RenderNode>, chosen: seq<nat>): (r: seq<Text>)
    requires InRange(chosen, |nodes|)
    ensures |r| == |chosen|
  {
    seq(|chosen|, i requires 0 <= i < |chosen| => nodes[chosen[i]].id)
  }

  function CoolIn(nodes: seq<RenderNode>, field: seq<real>, vmax: real, capped: seq<nat>, file: Text): nat
    requires InRange(capped, |field|) && |nodes| == |field| && vmax > 0.0
  {
    if capped == [] then 0 else
      var last := capped[|capped| - 1];
      CoolIn(nodes, field, vmax, capped[..|capped| - 1], file)
      + if TierOf(field[last], vmax) == Cool && nodes[last].file == file then 1 else 0
  }

  function Tally(glow: seq<Glow>, weight: Glow -> nat): nat {
    if glow == [] then 0 else weight(glow[0]) + Tally(glow[1..], weight)
  }

  function AtFile(file: Text): Glow -> nat { (g: Glow) => if g.file == file then g.count else 0 }

  function Everywhere(): Glow -> nat { (g: Glow) => g.count }

  // How many nodes of a file the list accounts for, and how many in all.
  function CountOf(glow: seq<Glow>, file: Text): nat { Tally(glow, AtFile(file)) }

  function GlowTotal(glow: seq<Glow>): nat { Tally(glow, Everywhere()) }

  ghost predicate DistinctFiles(glow: seq<Glow>) {
    forall i, j :: 0 <= i < j < |glow| ==> glow[i].file != glow[j].file
  }

  // One more glowing node of the file.
  function Bump(glow: seq<Glow>, file: Text): seq<Glow> {
    if glow == [] then [Glow(file, 1)]
    else if glow[0].file == file then [Glow(file, glow[0].count + 1)] + glow[1..]
    else [glow[0]] + Bump(glow[1..], file)
  }

  lemma {:induction false} BumpTally(glow: seq<Glow>, file: Text, f: Text)
    ensures GlowTotal(Bump(glow, file)) == GlowTotal(glow) + 1
    ensures CountOf(Bump(glow, file), f) == CountOf(glow, f) + if f == file then 1 else 0
  {
    if glow != [] {
      var bumped := Bump(glow, file);
      if glow[0].file == file {
        assert bumped[1..] == glow[1..];
      } else {
        BumpTally(glow[1..], file, f);
        assert bumped[1..] == Bump(glow[1..], file);
      }
    } else {
      assert [Glow(file, 1)][1..] == [];
    }
  }

  lemma {:induction false} BumpFacts(glow: seq<Glow>, file: Text)
    requires DistinctFiles(glow) && forall g :: g in glow ==> g.count > 0
    ensures DistinctFiles(Bump(glow, file))
    ensures forall g :: g in Bump(glow, file) ==> g.count > 0 && (g.file == file || g in glow)
  {
    if glow != [] && glow[0].file != file {
      BumpFacts(glow[1..], file);
      var rest := Bump(glow[1..], file);
      forall j | 0 <= j < |rest| ensures rest[j].file != glow[0].file {
        assert rest[j] in rest;
      }
    }
  }

  // ----- rearranging -----

  lemma {:induction false} TallySplits(a: seq<Glow>, b: seq<Glow>, weight: Glow -> nat)
    ensures Tally(a + b, weight) == Tally(a, weight) + Tally(b, weight)
  {
    if a == [] {
      assert a + b == b;
    } else {
      TallySplits(a[1..], b, weight);
      assert (a + b)[1..] == a[1..] + b;
    }
  }

  // Taking the first element of a out of a rearrangement of a.
  lemma TakeOut(a: seq<Glow>, b: seq<Glow>) returns (j: nat)
    requires a != [] && multiset(a) == multiset(b)
    ensures j < |b| && b[j] == a[0] && b == b[..j] + [a[0]] + b[j + 1..]
    ensures multiset(a[1..]) == multiset(b[..j] + b[j + 1..])
  {
    assert a[0] in multiset(b);
    j :| 0 <= j < |b| && b[j] == a[0];
    var front, back := b[..j], b[j + 1..];
    assert b == front + [a[0]] + back;
    assert a == [a[0]] + a[1..];
    assert multiset(a[1..]) == multiset(a) - multiset{a[0]};
    assert multiset(b) == multiset(front) + multiset{a[0]} + multiset(back);
    assert multiset(front + back) == multiset(b) - multiset{a[0]};
  }

  lemma {:induction false} TallyRearranged(a: seq<Glow>, b: seq<Glow>, weight: Glow -> nat)
    requires multiset(a) == multiset(b)
    ensures Tally(a, weight) == Tally(b, weight)
  {
    if a == [] {
      assert multiset(b) == multiset{};
      assert |b| == 0 by { assert |multiset(b)| == |b|; }
    } else {
      var j := TakeOut(a, b);
      TallyRearranged(a[1..], b[..j] + b[j + 1..], weight);
      TallySplits(b[..j], b[j + 1..], weight);
      TallySplits(b[..j], [a[0]] + b[j + 1..], weight);
      assert b == b[..j] + ([a[0]] + b[j + 1..]);
    }
  }

  lemma {:induction false} DistinctRearranged(a: seq<Glow>, b: seq<Glow>)
    requires multiset(a) == multiset(b) && DistinctFiles(a)
    ensures DistinctFiles(b)
  {
    if a == [] {
      assert |b| == 0 by { assert |multiset(b)| == |multiset(a)|; }
    } else {
      var j := TakeOut(a, b);
      var rest := b[..j] + b[j + 1..];
      DistinctRearranged(a[1..], rest);
      forall i | 0 <= i < |rest| ensures rest[i].file != a[0].file {
        assert rest[i] in multiset(a[1..]);
      }
      DistinctWith(rest, b, j);
    }
  }

  lemma DistinctWith(rest: seq<Glow>, b: seq<Glow>, j: nat)
    requires j < |b| && rest == b[..j] + b[j + 1..] && DistinctFiles(rest)
    requires forall i :: 0 <= i < |rest| ==> rest[i].file != b[j].file
    ensures DistinctFiles(b)
  {
    forall x, y | 0 <= x < y < |b| ensures b[x].file != b[y].file {
      var x', y' := if x < j then x else x - 1, if y < j then y else y - 1;
      if x != j {
        assert rest[x'] == b[x];
      }
      if y != j {
        assert rest[y'] == b[y];
      }
    }
  }

  lemma SortedGlow(a: seq<Glow>, b: seq<Glow>)
    requires multiset(a) == multiset(b) && DistinctFiles(a)
    ensures DistinctFiles(b) && GlowTotal(b) == GlowTotal(a)
    ensures forall f :: CountOf(b, f) == CountOf(a, f)
    ensures forall g :: g in b <==> g in a
  {
    DistinctRearranged(a, b);
    TallyRearranged(a, b, Everywhere());
    forall f ensures CountOf(b, f) == CountOf(a, f) {
      TallyRearranged(a, b, AtFile(f));
    }
    forall g: Glow ensures g in b <==> g in a {
      assert g in multiset(a) <==> g in multiset(b);
    }
  }

  lemma SortedInRange(a: seq<nat>, b: seq<nat>, n: nat)
    requires multiset(a) == multiset(b) && forall i :: i in a ==> i < n
    ensures InRange(b, n)
  {
    forall i | 0 <= i < |b| ensures b[i] < n {
      assert b[i] in multiset(b);
      assert b[i] in a;
    }
  }

  lemma {:induction false} GlowPositive(glow: seq<Glow>)
    requires glow != [] && forall g :: g in glow ==> g.count > 0
    ensures GlowTotal(glow) > 0
  {
    assert glow[0] in glow;
  }

  // The glow counts of the candidates, in order of first appearance of the files.
  function Glows(nodes: seq<RenderNode>, field: seq<real>, vmax: real, capped: seq<nat>): (glow: seq<Glow>)
    requires InRange(capped, |field|) && |nodes| == |field| && vmax > 0.0
  {
    if capped == [] then [] else
      var last := capped[|capped| - 1];
      var before := Glows(nodes, field, vmax, capped[..|capped| - 1]);
      if TierOf(field[last], vmax) == Cool then Bump(before, nodes[last].file) else before
  }

  // They account, file by file, for every candidate that gets no line of its own.
  lemma {:induction false} GlowsAreExact(nodes: seq<RenderNode>, field: seq<real>, vmax: real, capped: seq<nat>)
    requires InRange(capped, |field|) && |nodes| == |field| && vmax > 0.0
    ensures var glow := Glows(nodes, field, vmax, capped);
      && DistinctFiles(glow) && |Individuals(capped, field, vmax)| + GlowTotal(glow) == |capped|
      && (forall f :: CountOf(glow, f) == CoolIn(nodes, field, vmax, capped, f))
      && (forall g :: g in glow ==> g.count > 0)
  {
    if capped != [] {
      hide DistinctFiles, Bump, CountOf, GlowTotal;
      var init, last := capped[..|capped| - 1], capped[|capped| - 1];
      GlowsAreExact(nodes, field, vmax, init);
      if TierOf(field[last], vmax) == Cool {
        var before, file := Glows(nodes, field, vmax, init), nodes[last].file;
        BumpFacts(before, file);
        forall f ensures CountOf(Bump(before, file), f) == CountOf(before, f) + if f == file then 1 else 0 {
          BumpTally(before, file, f);
        }
        BumpTally(before, file, file);
      }
    }
  }

  method Tiers(nodes: seq<RenderNode>, field: seq<real>, vmax: real, capped: seq<nat>)
    returns (lines: seq<Text>, ids: seq<Text>, glow: seq<Glow>)
    requires InRange(capped, |field|) && |nodes| == |field| && vmax > 0.0
    ensures lines == IndividualLines(nodes, field, vmax, Individuals(capped, field, vmax))
    ensures ids == IdsOf(nodes, Individuals(capped, field, vmax))
    ensures glow == Glows(nodes, field, vmax, capped)
  {
    lines, ids, glow := [], [], [];
    ghost var chosen: seq<nat> := [];
    for k := 0 to |capped|
      invariant chosen == Individuals(capped[..k], field, vmax)
      invariant lines == IndividualLines(nodes, field, vmax, chosen) && ids == IdsOf(nodes, chosen)
      invariant glow == Glows(nodes, field, vmax, capped[..k])
    {
      hide LineOf, Bump;
      assert capped[..k + 1][..k] == capped[..k];
      var i := capped[k];
      var n := nodes[i];
      var tier := TierOf(field[i], vmax);
      if tier == Cool {
        glow := Bump(glow, n.file);
      } else {
        lines := lines + [LineOf(n, tier)];
        ids := ids + [n.id];
        chosen := chosen + [i];
      }
    }
    assert capped[..|capped|] == capped;
  }

  // ----- text and budget -----

  function TokenEstimate(t: Text): nat { (|t| + 3) / 4 }

  function Remaining(individual: nat, litTotal: nat, k: nat): int {
    litTotal - if k < individual then k else individual
  }

  const FOOTER_TAIL: Text := Chars(" lit below threshold \U{2014} call dwell to expand (t grows, periphery sharpens)")

  function Footer(remaining: int): Text {
    if remaining > 0
    then [LF] + Chars("\U{2026} ") + Digits(remaining)
      + FOOTER_TAIL
    else []
  }

  function RenderK(header: Text, items: seq<Text>, individual: nat, litTotal: nat, k: nat): Text
    requires k <= |items|
  {
    header + [LF] + JoinWith(items[..k], [LF]) + Footer(Remaining(individual, litTotal, k))
  }

  predicate Fits(header: Text, items: seq<Text>, individual: nat, litTotal: nat, budget: int, k: nat)
    requires k <= |items|
  {
    TokenEstimate(RenderK(header, items, individual, litTotal, k)) <= budget
  }

  // k is the longest prefix within the budget, -1 when none is.
  ghost predicate LongestFit(header: Text, items: seq<Text>, individual: nat, litTotal: nat, budget: int, k: int) {
    && -1 <= k <= |items|
    && (k >= 0 ==> Fits(header, items, individual, litTotal, budget, k))
    && forall m: nat :: k < m <= |items| ==> !Fits(header, items, individual, litTotal, budget, m)
  }

  lemma {:induction false} DigitsShrink(n: nat)
    requires n >= 1
    ensures |Digits(n)| <= |Digits(n - 1)| + 1
  {
    if n > 10 && n % 10 == 0 {
      DigitsShrink(n / 10);
      assert (n - 1) / 10 == n / 10 - 1;
    }
  }

  lemma FooterLength(remaining: int)
    requires remaining > 0
    ensures |Footer(remaining)| == 3 + |FOOTER_TAIL| + |Digits(remaining)|
  {}

  // Every item and footer of the list has at least one character and every proper prefix has a footer,
  // so the text never gets shorter as the prefix grows.
  lemma TextGrows(header: Text, items: seq<Text>, individual: nat, litTotal: nat, k: nat)
    requires k < |items| && |items[k]| >= 1 && Remaining(individual, litTotal, k + 1) > 0
    ensures |RenderK(header, items, individual, litTotal, k)| <= |RenderK(header, items, individual, litTotal, k + 1)|
  {
    hide Footer, Digits;
    var before, after := Remaining(individual, litTotal, k), Remaining(individual, litTotal, k + 1);
    assert items[..k + 1][..k] == items[..k];
    FooterLength(before);
    FooterLength(after);
    DigitsShrink(before);
  }

  lemma {:induction false} FitsShrinks(header: Text, items: seq<Text>, individual: nat, litTotal: nat, budget: int,
                                       k: nat, m: nat)
    requires k <= m < |items| && NormalList(items, individual, litTotal)
    requires Fits(header, items, individual, litTotal, budget, m)
    ensures Fits(header, items, individual, litTotal, budget, k)
    decreases m - k
  {
    hide RenderK;
    if k < m {
      TextGrows(header, items, individual, litTotal, m - 1);
      FitsShrinks(header, items, individual, litTotal, budget, k, m - 1);
    }
  }

  // Items are not empty, and something remains behind every proper prefix of them.
  ghost predicate NormalList(items: seq<Text>, individual: nat, litTotal: nat) {
    && individual <= |items| && (individual < |items| ==> litTotal > individual) && litTotal >= individual
    && forall i :: 0 <= i < |items| ==> |items[i]| >= 1
  }

  method FitPrefix(header: Text, items: seq<Text>, individual: nat, litTotal: nat, budget: int) returns (k: int)
    requires NormalList(items, individual, litTotal)
    ensures LongestFit(header, items, individual, litTotal, budget, k)
  {
    hide Fits, NormalList;
    k := |items|;
    if !Fits(header, items, individual, litTotal, budget, k) {
      var lo, hi := 0, |items| - 1;
      k := 0;
      while lo <= hi
        invariant 0 <= lo <= hi + 1 <= |items|
        invariant k == (if lo == 0 then 0 else lo - 1)
        invariant lo > 0 ==> Fits(header, items, individual, litTotal, budget, lo - 1)
        invariant forall m: nat :: hi < m <= |items| ==> !Fits(header, items, individual, litTotal, budget, m)
      {
        var mid := (lo + hi) / 2;
        if Fits(header, items, individual, litTotal, budget, mid) {
          k := mid;
          lo := mid + 1;
        } else {
          forall m: nat | mid <= m <= |items| ensures !Fits(header, items, individual, litTotal, budget, m) {
            if m <= hi && Fits(header, items, individual, litTotal, budget, m) {
              FitsShrinks(header, items, individual, litTotal, budget, mid, m);
            }
          }
          hi := mid - 1;
        }
      }
      if !Fits(header, items, individual, litTotal, budget, 0) {
        if lo > 0 {
          FitsShrinks(header, items, individual, litTotal, budget, 0, lo - 1);
        }
        k := -1;
      }
    }
  }

  // ----- the whole -----

  datatype HeatOptions = HeatOptions(header: Option<Text>, disclosed: set<Text>, exclude: set<Text>, budget: int,
                                     maxCandidates: Option<nat>)

  function HeaderText(opts: HeatOptions): Text {
    if opts.header.Some? then opts.header.value else Chars("codemap")
  }

  function Header(opts: HeatOptions, litTotal: nat, suppressed: nat): Text {
    HeaderText(opts) + Chars(" \U{B7} lit ") + Digits(litTotal)
      + if suppressed > 0 then Chars(", ") + Digits(suppressed) + Chars(" seen") else []
  }

  function GlowLines(glow: seq<Glow>): (r: seq<Text>)
    ensures |r| == |glow| && forall i :: 0 <= i < |r| ==> |r[i]| >= 1
  {
    seq(|glow|, i requires 0 <= i < |glow| => GlowLine(glow[i]))
  }

  // A rearrangement of the list, as a sort is.
  ghost predicate Rearranges<T(!new)>(sort: seq<T> -> seq<T>) {
    forall s :: multiset(sort(s)) == multiset(s)
  }

  // The result for a header, the items of which the first are individual, and the prefix length k chosen.
  ghost predicate Fitted(header: Text, items: seq<Text>, ids: seq<Text>, litTotal: nat, budget: int, k: int,
                         r: HeatRender) {
    && |ids| <= |items| && LongestFit(header, items, |ids|, litTotal, budget, k)
    && r.litTotal == litTotal
    && r.text == (if k >= 0 then RenderK(header, items, |ids|, litTotal, k) else header)
    && r.tokens == TokenEstimate(r.text)
    && r.shown == (if k < 0 then 0 else if k < |ids| then k else |ids|)
    && r.revealedIds == ids[..r.shown]
    && r.truncated == (r.shown < |ids| || 0 <= k < |items|)
  }

  method FitToBudget(header: Text, items: seq<Text>, ids: seq<Text>, litTotal: nat, suppressed: nat, budget: int)
    returns (r: HeatRender, k: int)
    requires NormalList(items, |ids|, litTotal)
    ensures Fitted(header, items, ids, litTotal, budget, k, r) && r.suppressed == suppressed
  {
    hide RenderK, TokenEstimate, Fits;
    var individual := |ids|;
    k := FitPrefix(header, items, individual, litTotal, budget);
    var text := if k >= 0 then RenderK(header, items, individual, litTotal, k) else header;
    var shown := if k < 0 then 0 else if k < individual then k else individual;
    var truncated := shown < individual || 0 <= k < |items|;
    r := HeatRender(text, TokenEstimate(text), shown, suppressed, litTotal, truncated, ids[..shown]);
  }

  // ----- what is rendered, from the inputs -----

  function CapOf(opts: HeatOptions): nat {
    if opts.maxCandidates.Some? then opts.maxCandidates.value else 400
  }

  // Every node that is lit and neither excluded nor already disclosed.
  function LitNodes(nodes: seq<RenderNode>, field: seq<real>, opts: HeatOptions): seq<nat>
    requires |nodes| == |field| && Peak(field) > 0.0
  {
    Candidates(nodes, field, Peak(field), opts.exclude, opts.disclosed, |nodes|)
  }

  // The first of them in the order of the sort; the others are dropped.
  function Capped(nodes: seq<RenderNode>, field: seq<real>, opts: HeatOptions,
                  sortNodes: seq<nat> -> seq<nat>): seq<nat>
    requires |nodes| == |field| && Peak(field) > 0.0
  {
    FirstOf(sortNodes(LitNodes(nodes, field, opts)), CapOf(opts))
  }

  lemma CappedInRange(nodes: seq<RenderNode>, field: seq<real>, opts: HeatOptions, sortNodes: seq<nat> -> seq<nat>)
    requires |nodes| == |field| && Peak(field) > 0.0 && Rearranges(sortNodes)
    ensures InRange(Capped(nodes, field, opts, sortNodes), |field|)
  {
    var lit := LitNodes(nodes, field, opts);
    SortedInRange(lit, sortNodes(lit), |field|);
  }

  // A heat field to render and how: the nodes lit, in order, and the glow lines behind them.
  datatype Scene = Scene(header: Text, lines: seq<Text>, ids: seq<Text>, glow: seq<Glow>, litTotal: nat) {
    function Items(): (r: seq<Text>)
      ensures |r| == |lines| + |glow|
    {
      lines + GlowLines(glow)
    }
  }

  function SceneOf(nodes: seq<RenderNode>, field: seq<real>, opts: HeatOptions, capped: seq<nat>, suppressed: nat,
                   sortGlow: seq<Glow> -> seq<Glow>): Scene
    requires |nodes| == |field| && Peak(field) > 0.0 && InRange(capped, |field|)
  {
    var chosen := Individuals(capped, field, Peak(field));
    Scene(Header(opts, |capped|, suppressed), IndividualLines(nodes, field, Peak(field), chosen), IdsOf(nodes, chosen),
          sortGlow(Glows(nodes, field, Peak(field), capped)), |capped|)
  }

  // Every capped candidate is accounted for once, by a line of its own or in the count of its file; no count is empty.
  ghost predicate Accounted(scene: Scene) {
    && |scene.ids| == |scene.lines| && scene.litTotal == |scene.lines| + GlowTotal(scene.glow)
    && DistinctFiles(scene.glow) && (forall g :: g in scene.glow ==> g.count > 0)
    && NormalList(scene.Items(), |scene.lines|, scene.litTotal)
  }

  lemma SceneIsAccounted(nodes: seq<RenderNode>, field: seq<real>, opts: HeatOptions, capped: seq<nat>, suppressed: nat,
                         sortGlow: seq<Glow> -> seq<Glow>)
    requires |nodes| == |field| && Peak(field) > 0.0 && InRange(capped, |field|) && Rearranges(sortGlow)
    ensures var scene := SceneOf(nodes, field, opts, capped, suppressed, sortGlow);
      && Accounted(scene)
      && forall f :: CountOf(scene.glow, f) == CoolIn(nodes, field, Peak(field), capped, f)
  {
    hide Individuals, IndividualLines, IdsOf, CountOf, GlowTotal, CoolIn, DistinctFiles, InRange, Header, Peak, Glows,
        GlowLine;
    var glow := Glows(nodes, field, Peak(field), capped);
    GlowsAreExact(nodes, field, Peak(field), capped);
    SortedGlow(glow, sortGlow(glow));
    if sortGlow(glow) != [] {
      GlowPositive(sortGlow(glow));
    }
  }

  method RenderLit(nodes: seq<RenderNode>, field: seq<real>, vmax: real, opts: HeatOptions, capped: seq<nat>,
                   suppressed: nat, sortGlow: seq<Glow> -> seq<Glow>)
    returns (r: HeatRender, ghost k: int)
    requires |nodes| == |field| && Rearranges(sortGlow) && vmax == Peak(field) > 0.0 && InRange(capped, |field|)
    ensures r.suppressed == suppressed
    ensures var scene := SceneOf(nodes, field, opts, capped, suppressed, sortGlow);
      Fitted(scene.header, scene.Items(), scene.ids, scene.litTotal, opts.budget, k, r)
  {
    hide Individuals, IndividualLines, IdsOf, Glows, InRange, Header, Peak, Fitted, GlowLines, NormalList, GlowTotal,
        DistinctFiles, CountOf, CoolIn;
    SceneIsAccounted(nodes, field, opts, capped, suppressed, sortGlow);
    var lines, ids, glow := Tiers(nodes, field, vmax, capped);
    var items := lines + GlowLines(sortGlow(glow));
    r, k := FitToBudget(Header(opts, |capped|, suppressed), items, ids, |capped|, suppressed, opts.budget);
  }

  ghost function SceneFor(nodes: seq<RenderNode>, field: seq<real>, opts: HeatOptions, sortNodes: seq<nat> -> seq<nat>,
                          sortGlow: seq<Glow> -> seq<Glow>): Scene
    requires |nodes| == |field| && Peak(field) > 0.0 && InRange(Capped(nodes, field, opts, sortNodes), |field|)
  {
    SceneOf(nodes, field, opts, Capped(nodes, field, opts, sortNodes),
            Seen(nodes, field, Peak(field), opts.exclude, opts.disclosed, |nodes|), sortGlow)
  }

  // r is the rendering of the scene, cut at the longest prefix k that fits.
  ghost predicate Rendering(nodes: seq<RenderNode>, field: seq<real>, opts: HeatOptions,
                            sortNodes: seq<nat> -> seq<nat>, sortGlow: seq<Glow> -> seq<Glow>, k: int, r: HeatRender)
  {
    && |nodes| == |field| && Peak(field) > 0.0
    && InRange(Capped(nodes, field, opts, sortNodes), |field|)
    && r.suppressed == Seen(nodes, field, Peak(field), opts.exclude, opts.disclosed, |nodes|)
    && var scene := SceneFor(nodes, field, opts, sortNodes, sortGlow);
       Accounted(scene) && Fitted(scene.header, scene.Items(), scene.ids, scene.litTotal, opts.budget, k, r)
  }

  method RenderHeatField(nodes: seq<RenderNode>, field: seq<real>, opts: HeatOptions, sortNodes: seq<nat> -> seq<nat>,
                         sortGlow: seq<Glow> -> seq<Glow>)
    returns (r: HeatRender, ghost k: int)
    requires |nodes| == |field| && Rearranges(sortNodes) && Rearranges(sortGlow)
    ensures Peak(field) <= 0.0 ==>
      r == HeatRender(HeaderText(opts) + [LF] + Chars("(nothing lit \U{2014} field is zero)"), 0, 0, 0, 0, false, [])
    ensures Peak(field) > 0.0 ==> Rendering(nodes, field, opts, sortNodes, sortGlow, k, r)
  {
    var vmax := PeakOf(field);
    if vmax <= 0.0 {
      var text := HeaderText(opts) + [LF] + Chars("(nothing lit \U{2014} field is zero)");
      return HeatRender(text, 0, 0, 0, 0, false, []), -1;
    }
    CappedInRange(nodes, field, opts, sortNodes);
    hide Candidates, Seen, Fitted, SceneOf, Accounted;
    var candidates, suppressed := CollectCandidates(nodes, field, vmax, opts.exclude, opts.disclosed);
    var capped := FirstOf(sortNodes(candidates), CapOf(opts));
    SceneIsAccounted(nodes, field, opts, capped, suppressed, sortGlow);
    r, k := RenderLit(nodes, field, vmax, opts, capped, suppressed, sortGlow);
  }

  // ----- the truncated flag -----

  predicate SceneFits(scene: Scene, budget: int, k: nat)
    requires k <= |scene.Items()|
  {
    Fits(scene.header, scene.Items(), |scene.ids|, scene.litTotal, budget, k)
  }

  // The budget holds everything that was capped.
  predicate AllFits(scene: Scene, budget: int) {
    scene.Items() == [] || SceneFits(scene, budget, |scene.Items()|)
  }

  // Only glow lines, and neither all of them nor the text without any fits.
  predicate OnlyGlowAndNoRoom(scene: Scene, budget: int) {
    scene.lines == [] && scene.glow != [] && !SceneFits(scene, budget, 0) && !AllFits(scene, budget)
  }

  // How many nodes the first k items tell of, by a line of their own or in the count of a file.
  function Told(scene: Scene, k: int): nat
    requires k <= |scene.Items()|
  {
    if k <= |scene.lines| then (if k < 0 then 0 else k) else |scene.lines| + GlowTotal(scene.glow[..k - |scene.lines|])
  }

  lemma ToldSome(scene: Scene, k: int)
    requires Accounted(scene) && -1 <= k <= |scene.Items()|
    ensures Told(scene, k) <= Told(scene, |scene.Items()|) == scene.litTotal
    ensures Told(scene, k) < scene.litTotal <==> k < |scene.Items()| && scene.Items() != []
  {
    hide NormalList, DistinctFiles, GlowTotal;
    var lines, glow := |scene.lines|, scene.glow;
    NoGlow();
    assert glow[..|glow|] == glow;
    if k < |scene.Items()| && glow != [] {
      FewerTold(glow, if k <= lines then 0 else k - lines);
    }
  }

  lemma NoGlow()
    ensures GlowTotal([]) == 0
  {}

  lemma FewerTold(glow: seq<Glow>, j: nat)
    requires j < |glow| && forall g :: g in glow ==> g.count > 0
    ensures GlowTotal(glow[..j]) < GlowTotal(glow)
    ensures 0 < GlowTotal(glow)
  {
    hide Tally;
    assert glow == glow[..j] + glow[j..];
    TallySplits(glow[..j], glow[j..], Everywhere());
    assert forall g :: g in glow[j..] ==> g in glow;
    GlowPositive(glow[j..]);
  }

  lemma NoPrefixFits(scene: Scene, budget: int, k: int)
    requires Accounted(scene) && LongestFit(scene.header, scene.Items(), |scene.ids|, scene.litTotal, budget, k)
    ensures k < 0 <==> !SceneFits(scene, budget, 0) && !SceneFits(scene, budget, |scene.Items()|)
    ensures k < |scene.Items()| <==> !SceneFits(scene, budget, |scene.Items()|)
  {
    hide Fits, NormalList, GlowTotal, Scene.Items;
    if 0 <= k < |scene.Items()| {
      FitsShrinks(scene.header, scene.Items(), |scene.ids|, scene.litTotal, budget, 0, k);
    }
  }

  lemma SameLength(scene: Scene)
    requires Accounted(scene)
    ensures |scene.ids| == |scene.lines|
  {}

  // The flag says whether something capped is left out, except with glow lines only and no room for any text.
  lemma FlagOfScene(scene: Scene, budget: int, k: int, r: HeatRender)
    requires Accounted(scene) && Fitted(scene.header, scene.Items(), scene.ids, scene.litTotal, budget, k, r)
    ensures r.truncated <==> !AllFits(scene, budget) && !OnlyGlowAndNoRoom(scene, budget)
    ensures Told(scene, k) < scene.litTotal <==> !AllFits(scene, budget)
  {
    hide LongestFit, RenderK, SceneFits, Accounted, TokenEstimate, Told;
    assert |scene.ids| == |scene.lines| by { SameLength(scene); }
    assert -1 <= k <= |scene.Items()| by { PrefixRange(scene, budget, k); }
    NoPrefixFits(scene, budget, k);
    ToldSome(scene, k);
  }

  lemma PrefixRange(scene: Scene, budget: int, k: int)
    requires LongestFit(scene.header, scene.Items(), |scene.ids|, scene.litTotal, budget, k)
    ensures -1 <= k <= |scene.Items()|
  {}

  // How many are capped.
  lemma CappedLength(nodes: seq<RenderNode>, field: seq<real>, opts: HeatOptions, sortNodes: seq<nat> -> seq<nat>)
    requires |nodes| == |field| && Peak(field) > 0.0 && Rearranges(sortNodes)
    ensures var lit, cap := |LitNodes(nodes, field, opts)|, CapOf(opts);
      |Capped(nodes, field, opts, sortNodes)| == if lit < cap then lit else cap
  {
    var lit := LitNodes(nodes, field, opts);
    assert |multiset(lit)| == |multiset(sortNodes(lit))|;
  }

  // The truncated flag is to say whether some lit node is told of nowhere. Some is when there are more than the cap, or
  // when not all of the capped ones fit. The flag says so except in two cases: there are more than the cap and the
  // capped ones fit, or there are only glow lines and no room for any text. Then it is false.
  lemma TruncatedExactly(nodes: seq<RenderNode>, field: seq<real>, opts: HeatOptions, sortNodes: seq<nat> -> seq<nat>,
                         sortGlow: seq<Glow> -> seq<Glow>, k: int, r: HeatRender)
    requires Rendering(nodes, field, opts, sortNodes, sortGlow, k, r) && Rearranges(sortNodes)
    ensures var scene, lit := SceneFor(nodes, field, opts, sortNodes, sortGlow), |LitNodes(nodes, field, opts)|;
      && -1 <= k <= |scene.Items()|
      && (Told(scene, k) < lit <==> lit > CapOf(opts) || !AllFits(scene, opts.budget))
      && ((r.truncated <==> Told(scene, k) < lit) <==>
            !OnlyGlowAndNoRoom(scene, opts.budget) && !(lit > CapOf(opts) && AllFits(scene, opts.budget)))
      && (!(r.truncated <==> Told(scene, k) < lit) ==> !r.truncated)
  {
    hide Fitted, Accounted, AllFits, OnlyGlowAndNoRoom, Told, Capped, SceneOf, LitNodes;
    var scene := SceneFor(nodes, field, opts, sortNodes, sortGlow);
    assert -1 <= k <= |scene.Items()| by { FittedRange(scene, opts.budget, k, r); }
    CappedLength(nodes, field, opts, sortNodes);
    SceneTotal(nodes, field, opts, sortNodes, sortGlow);
    FlagOfScene(scene, opts.budget, k, r);
    ToldSome(scene, k);
    NoRoomIsNotAll(scene, opts.budget);
  }

  lemma FittedRange(scene: Scene, budget: int, k: int, r: HeatRender)
    requires Fitted(scene.header, scene.Items(), scene.ids, scene.litTotal, budget, k, r)
    ensures -1 <= k <= |scene.Items()|
  {}

  lemma NoRoomIsNotAll(scene: Scene, budget: int)
    ensures OnlyGlowAndNoRoom(scene, budget) ==> !AllFits(scene, budget)
  {}

  lemma SceneTotal(nodes: seq<RenderNode>, field: seq<real>, opts: HeatOptions, sortNodes: seq<nat> -> seq<nat>,
                   sortGlow: seq<Glow> -> seq<Glow>)
    requires |nodes| == |field| && Peak(field) > 0.0 && InRange(Capped(nodes, field, opts, sortNodes), |field|)
    ensures SceneFor(nodes, field, opts, sortNodes, sortGlow).litTotal == |Capped(nodes, field, opts, sortNodes)|
  {}

  // In terms of the field: no line of its own means that every candidate is below the warm tier.
  lemma {:induction false} NoLinesMeansCool(capped: seq<nat>, field: seq<real>, vmax: real)
    requires InRange(capped, |field|) && vmax > 0.0
    ensures Individuals(capped, field, vmax) == [] <==> forall i :: i in capped ==> TierOf(field[i], vmax) == Cool
  {
    if capped != [] {
      NoLinesMeansCool(capped[..|capped| - 1], field, vmax);
      assert forall i :: i in capped <==> i in capped[..|capped| - 1] || i == capped[|capped| - 1];
    }
  }

  // ----- inputs for which it is wrong -----

  // A field in which every node is as hot as can be.
  function Uniform(n: nat): (field: seq<real>)
    ensures |field| == n && forall i :: 0 <= i < n ==> field[i] == 1.0
  {
    seq(n, (i: nat) => 1.0)
  }

  lemma {:induction false} UniformPeak(field: seq<real>)
    requires field != [] && forall i :: 0 <= i < |field| ==> field[i] == 1.0
    ensures Peak(field) == 1.0
  {
    if |field| > 1 {
      UniformPeak(field[..|field| - 1]);
    }
  }

  lemma {:induction false} UniformLit(nodes: seq<RenderNode>, n: nat)
    requires n <= |nodes|
    ensures |Candidates(nodes, Uniform(|nodes|), 1.0, {}, {}, n)| == n
  {
    if n > 0 {
      UniformLit(nodes, n - 1);
      assert Lit(Uniform(|nodes|)[n - 1], 1.0);
    }
  }

  // More equally hot nodes than the cap, and room for those capped: the flag is false, and the others are missing.
  lemma CapHidesNodes(nodes: seq<RenderNode>, opts: HeatOptions, sortNodes: seq<nat> -> seq<nat>,
                      sortGlow: seq<Glow> -> seq<Glow>, k: int, r: HeatRender)
    requires Rendering(nodes, Uniform(|nodes|), opts, sortNodes, sortGlow, k, r) && Rearranges(sortNodes)
    requires opts.disclosed == {} && opts.exclude == {} && |nodes| > CapOf(opts)
    requires AllFits(SceneFor(nodes, Uniform(|nodes|), opts, sortNodes, sortGlow), opts.budget)
    ensures !r.truncated && r.litTotal == CapOf(opts) < |nodes| == |LitNodes(nodes, Uniform(|nodes|), opts)|
  {
    var field := Uniform(|nodes|);
    UniformPeak(field);
    UniformLit(nodes, |nodes|);
    TruncatedExactly(nodes, field, opts, sortNodes, sortGlow, k, r);
    CappedLength(nodes, field, opts, sortNodes);
    SceneTotal(nodes, field, opts, sortNodes, sortGlow);
  }

  // For instance two nodes, a cap of one, and any budget that holds the line of the first.
  lemma SecondIsHidden(a: RenderNode, b: RenderNode, budget: int, k: int, r: HeatRender)
    requires var opts := HeatOptions(None, {}, {}, budget, Some(1));
      && TokenEstimate(Header(opts, 1, 0) + [LF] + LineOf(a, Hot)) <= budget
      && Rendering([a, b], Uniform(2), opts, (s: seq<nat>) => s, (s: seq<Glow>) => s, k, r)
    ensures !r.truncated && r.litTotal == 1
      && |LitNodes([a, b], Uniform(2), HeatOptions(None, {}, {}, budget, Some(1)))| == 2
  {
    var opts := HeatOptions(None, {}, {}, budget, Some(1));
    var nodes, field := [a, b], Uniform(2);
    var same, sameGlow := (s: seq<nat>) => s, (s: seq<Glow>) => s;
    UniformPeak(field);
    UniformLit(nodes, 2);
    FirstFits(a, b, budget);
    hide Rendering, AllFits, SceneFor, Candidates, Peak, Header, LineOf, TokenEstimate;
    CapHidesNodes(nodes, opts, same, sameGlow, k, r);
  }

  lemma TwoLit(a: RenderNode, b: RenderNode)
    ensures Candidates([a, b], Uniform(2), 1.0, {}, {}, 2) == [0, 1]
    ensures Seen([a, b], Uniform(2), 1.0, {}, {}, 2) == 0
    ensures Individuals([0], Uniform(2), 1.0) == [0] && Glows([a, b], Uniform(2), 1.0, [0]) == []
  {
    var zero: seq<nat> := [0];
    assert zero[..0] == [];
    assert Lit(1.0, 1.0) && TierOf(1.0, 1.0) == Hot;
    assert Candidates([a, b], Uniform(2), 1.0, {}, {}, 1) == [0];
    assert Seen([a, b], Uniform(2), 1.0, {}, {}, 1) == 0;
  }

  lemma JoinOne(line: Text)
    ensures JoinWith([line][..1], [LF]) == line
  {
    assert [line][..1] == [line];
  }

  lemma FirstFits(a: RenderNode, b: RenderNode, budget: int)
    requires TokenEstimate(Header(HeatOptions(None, {}, {}, budget, Some(1)), 1, 0) + [LF] + LineOf(a, Hot)) <= budget
    ensures Peak(Uniform(2)) == 1.0
      && InRange(Capped([a, b], Uniform(2), HeatOptions(None, {}, {}, budget, Some(1)), (s: seq<nat>) => s), 2)
    ensures AllFits(SceneFor([a, b], Uniform(2), HeatOptions(None, {}, {}, budget, Some(1)),
                             (s: seq<nat>) => s, (s: seq<Glow>) => s), budget)
  {
    var opts := HeatOptions(None, {}, {}, budget, Some(1));
    UniformPeak(Uniform(2));
    TwoLit(a, b);
    hide Candidates, Seen, Individuals, Glows, Peak, Header, LineOf, TokenEstimate, JoinWith, Lit, TierOf;
    JoinOne(LineOf(a, Hot));
    var scene := SceneFor([a, b], Uniform(2), opts, (s: seq<nat>) => s, (s: seq<Glow>) => s);
    var header, line := Header(opts, 1, 0), LineOf(a, Hot);
    assert scene == Scene(header, [line], [a.id], [], 1);
    assert scene.Items() == [line];
    assert [line][..1] == [line];
    assert RenderK(header, [line], 1, 1, 1) == header + [LF] + line + [];
  }

  lemma NothingFitsBeside(scene: Scene, budget: int, k: nat)
    requires k <= |scene.Items()| && |scene.header| > 4 * budget
    ensures !SceneFits(scene, budget, k)
  {
    hide JoinWith, Footer;
    assert |RenderK(scene.header, scene.Items(), |scene.ids|, scene.litTotal, k)| > |scene.header|;
  }

  const FLAG_FIELD: seq<real> := [1.0, 0.01]

  lemma FlagScene(hot: RenderNode, faint: RenderNode)
    requires hot.id != faint.id
    ensures Peak(FLAG_FIELD) == 1.0
    ensures Candidates([hot, faint], FLAG_FIELD, 1.0, {}, {hot.id}, 2) == [1]
    ensures Individuals([1], FLAG_FIELD, 1.0) == []
    ensures Glows([hot, faint], FLAG_FIELD, 1.0, [1]) == [Glow(faint.file, 1)]
  {
    assert FLAG_FIELD[..1] == [1.0] && FLAG_FIELD[..1][..0] == [];
    assert Peak(FLAG_FIELD[..1]) == 1.0;
    var one: seq<nat> := [1];
    assert one[..0] == [];
    assert Lit(FLAG_FIELD[1], 1.0) && TierOf(FLAG_FIELD[1], 1.0) == Cool;
    assert Candidates([hot, faint], FLAG_FIELD, 1.0, {}, {hot.id}, 1) == [];
  }

  // A hot node that is already disclosed, a faint one, and a header that takes the whole budget: the flag is false, and
  // the faint one is missing.
  lemma FlagCanBeWrong(hot: RenderNode, faint: RenderNode, header: Text, budget: nat, k: int, r: HeatRender)
    requires hot.id != faint.id && |header| > 4 * budget
    requires var opts := HeatOptions(Some(header), {hot.id}, {}, budget, None);
      Rendering([hot, faint], FLAG_FIELD, opts, (s: seq<nat>) => s, (s: seq<Glow>) => s, k, r)
    ensures !r.truncated && r.litTotal == 1 && r.shown == 0 && k < 0
  {
    var nodes, opts := [hot, faint], HeatOptions(Some(header), {hot.id}, {}, budget, None);
    FlagScene(hot, faint);
    hide Candidates, Glows, Individuals, Seen, Accounted, LongestFit, RenderK, SceneFits;
    var scene := SceneOf(nodes, FLAG_FIELD, opts, [1], r.suppressed, (s: seq<Glow>) => s);
    NothingFitsBeside(scene, budget, 0);
    NothingFitsBeside(scene, budget, |scene.Items()|);
    NoPrefixFits(scene, budget, k);
    FlagOfScene(scene, budget, k, r);
  }
}
