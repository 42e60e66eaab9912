// What a rendered heat field shows and how each line reads, told with the field and the strings themselves
// (src/codemap/render-heat.ts).
module HeatText {
  import opened Basics
  import opened Text
  import opened RenderHeat

  ghost predicate IsPeak(field: seq<real>, peak: real) {
    && peak >= 0.0 && (forall i :: 0 <= i < |field| ==> field[i] <= peak)
    && (peak == 0.0 || exists i :: 0 <= i < |field| && field[i] == peak)
  }

  lemma {:induction false} PeakIsGreatest(field: seq<real>)
    ensures IsPeak(field, Peak(field))
  {
    if field != [] {
      var n := |field| - 1;
      PeakIsGreatest(field[..n]);
      assert forall i :: 0 <= i < n ==> field[..n][i] == field[i];
    }
  }

  // ----- which nodes -----

  // At least a five-hundredth of the peak.
  ghost predicate IsLit(h: real, peak: real) {
    500.0 * h >= peak && h >= 0.000000001
  }

  ghost predicate IsHot(h: real, peak: real) {
    10.0 * h >= 3.0 * peak
  }

  ghost predicate IsWarm(h: real, peak: real) {
    50.0 * h >= peak
  }

  lemma ShareOfPeak(h: real, peak: real, a: real)
    requires peak > 0.0 && a > 0.0
    ensures h / peak >= a <==> h >= a * peak
  {
    var q := h / peak;
    assert q * peak == h;
    if q >= a { Product(a, q, peak); } else { StrictProduct(q, a, peak); }
  }

  lemma Product(a: real, b: real, p: real)
    requires a <= b && p > 0.0
    ensures a * p <= b * p
  {}

  lemma StrictProduct(a: real, b: real, p: real)
    requires a < b && p > 0.0
    ensures a * p < b * p
  {}

  lemma TiersAre(h: real, peak: real)
    requires peak > 0.0
    ensures Lit(h, peak) <==> IsLit(h, peak)
    ensures TierOf(h, peak) == if IsHot(h, peak) then Hot else if IsWarm(h, peak) then Warm else Cool
    ensures IsHot(h, peak) ==> IsWarm(h, peak)
  {
    ShareOfPeak(h, peak, WARM_TIER * 0.1);
    ShareOfPeak(h, peak, HOT_TIER);
    ShareOfPeak(h, peak, WARM_TIER);
  }

  ghost predicate Increasing(s: seq<nat>) {
    forall i, j :: 0 <= i < j < |s| ==> s[i] < s[j]
  }

  // The lit nodes that are not excluded, in order: those still to show, and those already disclosed.
  ghost predicate AreCandidates(nodes: seq<RenderNode>, field: seq<real>, opts: HeatOptions, lit: seq<nat>)
    requires |nodes| == |field|
  {
    Increasing(lit) && forall i: nat :: i in lit <==>
      i < |nodes| && IsLit(field[i], Peak(field)) && nodes[i].id !in opts.exclude && nodes[i].id !in opts.disclosed
  }

  ghost function AlreadySeen(nodes: seq<RenderNode>, field: seq<real>, opts: HeatOptions, n: nat): set<nat>
    requires n <= |nodes| == |field|
  {
    set i: nat | i < n && IsLit(field[i], Peak(field)) && nodes[i].id !in opts.exclude && nodes[i].id in opts.disclosed
  }

  lemma {:induction false} CandidatesIncrease(nodes: seq<RenderNode>, field: seq<real>, peak: real, exclude: set<Text>,
                                              disclosed: set<Text>, n: nat)
    requires n <= |nodes| == |field| && peak > 0.0
    ensures Increasing(Candidates(nodes, field, peak, exclude, disclosed, n))
  {
    if n > 0 {
      CandidatesIncrease(nodes, field, peak, exclude, disclosed, n - 1);
      var before := Candidates(nodes, field, peak, exclude, disclosed, n - 1);
      assert forall i :: 0 <= i < |before| ==> before[i] in before;
    }
  }

  lemma LitAreCandidates(nodes: seq<RenderNode>, field: seq<real>, opts: HeatOptions)
    requires |nodes| == |field| && Peak(field) > 0.0
    ensures AreCandidates(nodes, field, opts, LitNodes(nodes, field, opts))
  {
    CandidatesIncrease(nodes, field, Peak(field), opts.exclude, opts.disclosed, |nodes|);
    forall i: nat | i < |nodes| ensures Lit(field[i], Peak(field)) <==> IsLit(field[i], Peak(field)) {
      TiersAre(field[i], Peak(field));
    }
    hide Lit, IsLit, Peak;
  }

  lemma {:induction false} SeenAreCounted(nodes: seq<RenderNode>, field: seq<real>, opts: HeatOptions, n: nat)
    requires n <= |nodes| == |field| && Peak(field) > 0.0
    ensures Seen(nodes, field, Peak(field), opts.exclude, opts.disclosed, n) == |AlreadySeen(nodes, field, opts, n)|
  {
    if n > 0 {
      var i := n - 1;
      SeenAreCounted(nodes, field, opts, i);
      TiersAre(field[i], Peak(field));
      hide Lit, IsLit, Peak;
      var before, all := AlreadySeen(nodes, field, opts, i), AlreadySeen(nodes, field, opts, n);
      assert i !in before && all == before + if i in all then {i} else {};
    }
  }

  // ----- their lines -----

  ghost predicate IsNodeLine(n: RenderNode, hot: bool, line: Text) {
    var place := n.file + [':' as int] + Digits(n.line);
    line == if hot then Chars("\U{25B2} ") + place + Chars("  ") + n.sig
            else Chars("  \U{B7} ") + n.name + Chars(" (") + n.kind + Chars(") ") + place
  }

  ghost predicate IsGlowLine(file: Text, count: nat, line: Text) {
    line == Chars("  ~ + ") + Digits(count) + Chars(" more in ") + file
  }

  // The warm and hot nodes, one line each, in order.
  ghost predicate AreNodeLines(nodes: seq<RenderNode>, field: seq<real>, capped: seq<nat>, at: seq<nat>, ids: seq<Text>,
                               lines: seq<Text>)
    requires |nodes| == |field| && InRange(capped, |field|)
  {
    && Increasing(at) && (forall k: nat :: k in at <==> k < |capped| && IsWarm(field[capped[k]], Peak(field)))
    && |at| == |ids| == |lines| && forall j :: 0 <= j < |at| ==>
      && at[j] < |capped| && ids[j] == nodes[capped[at[j]]].id
      && IsNodeLine(nodes[capped[at[j]]], IsHot(field[capped[at[j]]], Peak(field)), lines[j])
  }

  lemma {:induction false} IndividualsAre(nodes: seq<RenderNode>, field: seq<real>, capped: seq<nat>)
      returns (at: seq<nat>)
    requires |nodes| == |field| && InRange(capped, |field|) && Peak(field) > 0.0
    ensures var chosen := Individuals(capped, field, Peak(field));
      AreNodeLines(nodes, field, capped, at, IdsOf(nodes, chosen), IndividualLines(nodes, field, Peak(field), chosen))
  {
    at := ChosenAt(field, capped);
    var chosen := Individuals(capped, field, Peak(field));
    forall j | 0 <= j < |at|
      ensures IsNodeLine(nodes[capped[at[j]]], IsHot(field[capped[at[j]]], Peak(field)),
                         IndividualLines(nodes, field, Peak(field), chosen)[j])
    {
      assert at[j] in at;
      TiersAre(field[capped[at[j]]], Peak(field));
    }
    hide TierOf, Peak, IsHot, IsWarm, LineOf, IsNodeLine;
  }

  lemma {:induction false} ChosenAt(field: seq<real>, capped: seq<nat>) returns (at: seq<nat>)
    requires InRange(capped, |field|) && Peak(field) > 0.0
    ensures Increasing(at) && forall k: nat :: k in at <==> k < |capped| && IsWarm(field[capped[k]], Peak(field))
    ensures |at| == |Individuals(capped, field, Peak(field))|
    ensures forall j :: 0 <= j < |at| ==>
      at[j] < |capped| && Individuals(capped, field, Peak(field))[j] == capped[at[j]]
  {
    if capped == [] {
      at := [];
    } else {
      var n := |capped| - 1;
      at := ChosenAt(field, capped[..n]);
      var warm := IsWarm(field[capped[n]], Peak(field));
      IndividualsStep(field, capped);
      hide Individuals, Peak, IsWarm;
      assert forall k :: 0 <= k < n ==> capped[..n][k] == capped[k];
      assert forall j :: 0 <= j < |at| ==> at[j] in at;
      if warm { at := at + [n]; }
    }
  }

  lemma IndividualsStep(field: seq<real>, capped: seq<nat>)
    requires capped != [] && InRange(capped, |field|) && Peak(field) > 0.0
    ensures var n := |capped| - 1;
      Individuals(capped, field, Peak(field)) ==
        Individuals(capped[..n], field, Peak(field)) + if IsWarm(field[capped[n]], Peak(field)) then [capped[n]] else []
  {
    TiersAre(field[capped[|capped| - 1]], Peak(field));
    hide TierOf, Peak, IsHot, IsWarm;
  }

  // The other nodes of a file, by their place.
  ghost function CoolAt(nodes: seq<RenderNode>, field: seq<real>, capped: seq<nat>, file: Text): set<nat>
    requires |nodes| == |field| && InRange(capped, |field|)
  {
    set k: nat | k < |capped| && !IsWarm(field[capped[k]], Peak(field)) && nodes[capped[k]].file == file
  }

  lemma {:induction false} CoolAreCounted(nodes: seq<RenderNode>, field: seq<real>, capped: seq<nat>, file: Text)
    requires |nodes| == |field| && InRange(capped, |field|) && Peak(field) > 0.0
    ensures CoolIn(nodes, field, Peak(field), capped, file) == |CoolAt(nodes, field, capped, file)|
  {
    if capped != [] {
      var n := |capped| - 1;
      CoolAreCounted(nodes, field, capped[..n], file);
      TiersAre(field[capped[n]], Peak(field));
      hide TierOf, Peak, IsHot, IsWarm;
      var before, all := CoolAt(nodes, field, capped[..n], file), CoolAt(nodes, field, capped, file);
      assert all == before + if n in all then {n} else {};
    }
  }

  // Each file with such nodes has one entry, with their number.
  ghost predicate CountsCool(nodes: seq<RenderNode>, field: seq<real>, capped: seq<nat>, glow: seq<Glow>)
    requires |nodes| == |field| && InRange(capped, |field|)
  {
    && DistinctFiles(glow)
    && (forall g :: g in glow ==> g.count == |CoolAt(nodes, field, capped, g.file)| > 0)
    && (forall k: nat :: k < |capped| && !IsWarm(field[capped[k]], Peak(field)) ==>
          exists g :: g in glow && g.file == nodes[capped[k]].file)
  }

  lemma {:induction false} CountOfEntry(glow: seq<Glow>, file: Text)
    requires DistinctFiles(glow)
    ensures forall g :: g in glow && g.file == file ==> CountOf(glow, file) == g.count
    ensures (forall g :: g in glow ==> g.file != file) ==> CountOf(glow, file) == 0
  {
    if glow != [] {
      CountOfEntry(glow[1..], file);
      assert forall g :: g in glow <==> g == glow[0] || g in glow[1..];
    }
  }

  lemma GlowsAreCounted(nodes: seq<RenderNode>, field: seq<real>, capped: seq<nat>, glow: seq<Glow>)
    requires |nodes| == |field| && InRange(capped, |field|) && Peak(field) > 0.0
    requires DistinctFiles(glow) && forall g :: g in glow ==> g.count > 0
    requires forall f :: CountOf(glow, f) == CoolIn(nodes, field, Peak(field), capped, f)
    ensures CountsCool(nodes, field, capped, glow)
  {
    forall f ensures CountOf(glow, f) == |CoolAt(nodes, field, capped, f)| {
      CoolAreCounted(nodes, field, capped, f);
    }
    hide CountOf, CoolIn, Peak, IsWarm, DistinctFiles;
    forall g | g in glow ensures g.count == |CoolAt(nodes, field, capped, g.file)| {
      CountOfEntry(glow, g.file);
    }
    forall k: nat | k < |capped| && !IsWarm(field[capped[k]], Peak(field))
      ensures exists g :: g in glow && g.file == nodes[capped[k]].file
    {
      var file := nodes[capped[k]].file;
      assert k in CoolAt(nodes, field, capped, file);
      CountOfEntry(glow, file);
    }
  }

  // ----- the whole -----

  ghost function HeaderLine(opts: HeatOptions, lit: nat, seen: nat): Text {
    (if opts.header.Some? then opts.header.value else Chars("codemap")) + Chars(" \U{B7} lit ") + Digits(lit)
    + if seen == 0 then [] else Chars(", ") + Digits(seen) + Chars(" seen")
  }

  // The scene that is rendered shows the first lit nodes in the order of the sort, each in the line or the count it is
  // due.
  lemma SceneIsSpelled(nodes: seq<RenderNode>, field: seq<real>, opts: HeatOptions, sortNodes: seq<nat> -> seq<nat>,
                       sortGlow: seq<Glow> -> seq<Glow>)
      returns (lit: seq<nat>, capped: seq<nat>, at: seq<nat>)
    requires |nodes| == |field| && Peak(field) > 0.0 && Rearranges(sortNodes) && Rearranges(sortGlow)
    ensures AreCandidates(nodes, field, opts, lit)
    ensures InRange(capped, |field|) && InRange(Capped(nodes, field, opts, sortNodes), |field|)
    ensures capped <= sortNodes(lit)
      && |capped| == MinInt(|lit|, if opts.maxCandidates.Some? then opts.maxCandidates.value else 400)
    ensures var scene := SceneFor(nodes, field, opts, sortNodes, sortGlow);
      && scene.header == HeaderLine(opts, |capped|, |AlreadySeen(nodes, field, opts, |nodes|)|)
      && scene.litTotal == |capped|
      && AreNodeLines(nodes, field, capped, at, scene.ids, scene.lines)
      && CountsCool(nodes, field, capped, scene.glow)
  {
    lit, capped := LitNodes(nodes, field, opts), Capped(nodes, field, opts, sortNodes);
    LitAreCandidates(nodes, field, opts);
    CappedInRange(nodes, field, opts, sortNodes);
    CappedLength(nodes, field, opts, sortNodes);
    SeenAreCounted(nodes, field, opts, |nodes|);
    at := IndividualsAre(nodes, field, capped);
    var seen := Seen(nodes, field, Peak(field), opts.exclude, opts.disclosed, |nodes|);
    SceneIsAccounted(nodes, field, opts, capped, seen, sortGlow);
    var scene := SceneFor(nodes, field, opts, sortNodes, sortGlow);
    hide Peak, LitNodes, Individuals, IndividualLines, IdsOf, Glows, CountOf, CoolIn, Seen, NormalList, InRange,
        AreNodeLines, AreCandidates, DistinctFiles, GlowTotal, Rearranges;
    GlowsAreCounted(nodes, field, capped, scene.glow);
  }

  // The text of a prefix: the header, the items and what is left untold.
  lemma TextIsSpelled(scene: Scene, k: nat)
    requires k <= |scene.lines| + |scene.glow| && |scene.ids| == |scene.lines|
    ensures var untold := scene.litTotal - MinInt(k, |scene.lines|);
      RenderK(scene.header, scene.Items(), |scene.ids|, scene.litTotal, k) ==
        scene.header + ['\n' as int] + JoinWith(scene.Items()[..k], ['\n' as int])
        + if untold <= 0 then []
          else ['\n' as int] + Chars("\U{2026} ") + Digits(untold)
               + Chars(" lit below threshold \U{2014} call dwell to expand (t grows, periphery sharpens)")
    ensures forall i :: 0 <= i < |scene.lines| ==> scene.Items()[i] == scene.lines[i]
    ensures forall i :: 0 <= i < |scene.glow| ==>
      IsGlowLine(scene.glow[i].file, scene.glow[i].count, scene.Items()[|scene.lines| + i])
  {}

  // It fits when it has at most four characters to the token.
  lemma FitsExactly(scene: Scene, budget: int, k: nat)
    requires k <= |scene.Items()|
    ensures SceneFits(scene, budget, k)
      <==> |RenderK(scene.header, scene.Items(), |scene.ids|, scene.litTotal, k)| <= 4 * budget
  {
    hide RenderK;
  }
}
