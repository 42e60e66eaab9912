// The token-budgeted cut and the arithmetic that keeps its result under the context target (src/compaction/hook.ts).
module AdaptiveCut {
  import opened Basics
  import opened Text
  import opened CutClosure
  import opened FullestSummary
  import opened Instructions
  import opened Render

  // ceil(32768 / 4): the raw tokens reserved for the summary.
  const SUMMARY_RAW_TOKEN_BUDGET := 8192
  const HARD_CEILING_SAFETY_RATIO := 0.9
  const MAX_PRECOMPACTION_RATIO := 0.95

  datatype Budget = Budget(contextWindow: real, targetContextRatio: real, reserveTokens: real, keepRecentTokens: real)

  // What the context weighed, raw and as billed, when an assistant message reported its usage.
  datatype Checkpoint = Checkpoint(rawTokens: nat, contextTokens: real)

  datatype Calibration = Calibration(scale: real, fixed: real)

  datatype Plan = Plan(targetContextTokens: int, scale: real, fixed: real, recentRawTokenBudget: nat)

  function Ceil(x: real): (c: int)
    ensures x <= c as real < x + 1.0
  {
    -((-x).Floor)
  }

  // ----- calibration -----

  predicate Usable(c: Checkpoint, tokensBefore: real, rawBefore: nat) {
    c.rawTokens < rawBefore && c.contextTokens <= tokensBefore
  }

  function MinimumDelta(rawBefore: nat): int {
    MaxInt(4096, (rawBefore as real * 0.1).Floor)
  }

  // A usable checkpoint far enough back to give a slope.
  predicate GivesSlope(c: Checkpoint, tokensBefore: real, rawBefore: nat) {
    Usable(c, tokensBefore, rawBefore) && rawBefore - c.rawTokens >= MinimumDelta(rawBefore)
  }

  function Slope(c: Checkpoint, tokensBefore: real, rawBefore: nat): real
    requires c.rawTokens < rawBefore
  {
    (tokensBefore - c.contextTokens) / (rawBefore - c.rawTokens) as real
  }

  // The line stays above a checkpoint.
  predicate Covers(k: Calibration, rawTokens: nat, contextTokens: real) {
    contextTokens <= k.fixed + k.scale * rawTokens as real
  }

  // The line goes through a checkpoint.
  ghost predicate Meets(k: Calibration, rawTokens: nat, contextTokens: real) {
    contextTokens == k.fixed + k.scale * rawTokens as real
  }

  // The slope seen from the checkpoint, which is at least 4096 tokens and a tenth of the raw size back.
  ghost predicate HasSlope(c: Checkpoint, tokensBefore: real, rawBefore: nat, slope: real) {
    && c.contextTokens <= tokensBefore && rawBefore - c.rawTokens >= 4096
    && 10 * (rawBefore - c.rawTokens + 1) > rawBefore
    && slope * (rawBefore - c.rawTokens) as real == tokensBefore - c.contextTokens
  }

  // A checkpoint gives a slope exactly when it is no heavier than the present and far enough back.
  lemma SlopeIsGiven(c: Checkpoint, tokensBefore: real, rawBefore: nat)
    ensures GivesSlope(c, tokensBefore, rawBefore) <==>
      && c.contextTokens <= tokensBefore && rawBefore - c.rawTokens >= 4096
      && 10 * (rawBefore - c.rawTokens + 1) > rawBefore
  {
    var back := rawBefore - c.rawTokens;
    var tenth := rawBefore as real * 0.1;
    assert back >= tenth.Floor <==> 10 * (back + 1) > rawBefore;
  }

  lemma SlopeIsSeen(c: Checkpoint, tokensBefore: real, rawBefore: nat)
    requires GivesSlope(c, tokensBefore, rawBefore)
    ensures HasSlope(c, tokensBefore, rawBefore, Slope(c, tokensBefore, rawBefore))
  {
    var delta := (rawBefore - c.rawTokens) as real;
    assert (tokensBefore - c.contextTokens) / delta * delta == tokensBefore - c.contextTokens;
  }

  // The line covers the present always, and every usable checkpoint whenever some slope was observed. Its slope is the
  // greatest observed, 1 at least, and its offset the least that covers, 0 at least.
  ghost predicate Calibrated(checkpoints: seq<Checkpoint>, tokensBefore: real, rawBefore: nat, k: Calibration) {
    && k.scale >= 1.0 && k.fixed >= 0.0
    && Covers(k, rawBefore, tokensBefore)
    && (forall c :: c in checkpoints && GivesSlope(c, tokensBefore, rawBefore) ==>
          Slope(c, tokensBefore, rawBefore) <= k.scale)
    && ((exists c :: c in checkpoints && GivesSlope(c, tokensBefore, rawBefore)) ==>
          (forall c :: c in checkpoints && Usable(c, tokensBefore, rawBefore) ==>
            Covers(k, c.rawTokens, c.contextTokens)))
    && (!(exists c :: c in checkpoints && GivesSlope(c, tokensBefore, rawBefore)) ==>
          k == Calibration(1.0, MaxReal(0.0, tokensBefore - rawBefore as real)))
    && (k.scale == 1.0 || exists c :: c in checkpoints && HasSlope(c, tokensBefore, rawBefore, k.scale))
    && (k.fixed == 0.0 || Meets(k, rawBefore, tokensBefore)
        || exists c :: c in checkpoints && c.rawTokens < rawBefore && Meets(k, c.rawTokens, c.contextTokens))
  }

  // Fit the line: a slope no smaller than any observed, then an offset no smaller than needed.
  method TokenCalibration(checkpoints: seq<Checkpoint>, tokensBefore: real, rawBefore: nat) returns (k: Calibration)
    ensures Calibrated(checkpoints, tokensBefore, rawBefore, k)
  {
    var scale, found := FitSlope(checkpoints, tokensBefore, rawBefore);
    if !found { return Calibration(1.0, MaxReal(0.0, tokensBefore - rawBefore as real)); }
    var fixed := FitOffset(checkpoints, tokensBefore, rawBefore, scale);
    k := Calibration(scale, fixed);
  }

  // The loop over the slopes.
  method FitSlope(checkpoints: seq<Checkpoint>, tokensBefore: real, rawBefore: nat) returns (scale: real, found: bool)
    ensures scale >= 1.0
    ensures found <==> exists c :: c in checkpoints && GivesSlope(c, tokensBefore, rawBefore)
    ensures forall c :: c in checkpoints && GivesSlope(c, tokensBefore, rawBefore) ==>
      Slope(c, tokensBefore, rawBefore) <= scale
    ensures scale == 1.0 || exists c :: c in checkpoints && HasSlope(c, tokensBefore, rawBefore, scale)
  {
    hide MinimumDelta, Slope, HasSlope;
    scale, found := 1.0, false;
    for i := 0 to |checkpoints|
      invariant scale >= 1.0
      invariant found <==> exists c :: c in checkpoints[..i] && GivesSlope(c, tokensBefore, rawBefore)
      invariant forall c :: c in checkpoints[..i] && GivesSlope(c, tokensBefore, rawBefore) ==>
        Slope(c, tokensBefore, rawBefore) <= scale
      invariant scale == 1.0 || exists c :: c in checkpoints[..i] && HasSlope(c, tokensBefore, rawBefore, scale)
    {
      var c := checkpoints[i];
      assert checkpoints[..i + 1] == checkpoints[..i] + [c];
      if GivesSlope(c, tokensBefore, rawBefore) {
        SlopeIsSeen(c, tokensBefore, rawBefore);
        found := true;
        scale := MaxReal(scale, Slope(c, tokensBefore, rawBefore));
      }
    }
    assert checkpoints[..|checkpoints|] == checkpoints;
  }

  // The loop over the offsets.
  method FitOffset(checkpoints: seq<Checkpoint>, tokensBefore: real, rawBefore: nat, scale: real) returns (fixed: real)
    ensures fixed >= 0.0 && Covers(Calibration(scale, fixed), rawBefore, tokensBefore)
    ensures forall c :: c in checkpoints && Usable(c, tokensBefore, rawBefore) ==>
      Covers(Calibration(scale, fixed), c.rawTokens, c.contextTokens)
    ensures fixed == 0.0 || Meets(Calibration(scale, fixed), rawBefore, tokensBefore)
      || exists c :: c in checkpoints && c.rawTokens < rawBefore
                     && Meets(Calibration(scale, fixed), c.rawTokens, c.contextTokens)
  {
    fixed := MaxReal(0.0, tokensBefore - scale * rawBefore as real);
    for i := 0 to |checkpoints|
      invariant fixed >= 0.0 && Covers(Calibration(scale, fixed), rawBefore, tokensBefore)
      invariant forall c :: c in checkpoints[..i] && Usable(c, tokensBefore, rawBefore) ==>
        Covers(Calibration(scale, fixed), c.rawTokens, c.contextTokens)
      invariant fixed == 0.0 || Meets(Calibration(scale, fixed), rawBefore, tokensBefore)
        || exists c :: c in checkpoints[..i] && c.rawTokens < rawBefore
                       && Meets(Calibration(scale, fixed), c.rawTokens, c.contextTokens)
    {
      var c := checkpoints[i];
      assert checkpoints[..i + 1] == checkpoints[..i] + [c];
      if Usable(c, tokensBefore, rawBefore) {
        fixed := MaxReal(fixed, c.contextTokens - scale * c.rawTokens as real);
      }
    }
    assert checkpoints[..|checkpoints|] == checkpoints;
  }

  // ----- the plan -----

  function HardCeiling(b: Budget): int {
    MaxInt(1, b.contextWindow.Floor - MaxInt(0, b.reserveTokens.Floor))
  }

  function SafeCeiling(b: Budget): int {
    MaxInt(1, (HardCeiling(b) as real * HARD_CEILING_SAFETY_RATIO).Floor)
  }

  function ReductionCeiling(tokensBefore: real): int {
    MaxInt(1, (tokensBefore * MAX_PRECOMPACTION_RATIO).Floor)
  }

  function ConfiguredTarget(b: Budget): int {
    var ratio := MaxReal(0.25, MinReal(0.85, b.targetContextRatio));
    (b.contextWindow.Floor as real * ratio).Floor
  }

  function KeepRecentTarget(b: Budget, k: Calibration): int {
    var raw := MaxInt(0, b.keepRecentTokens.Floor) + SUMMARY_RAW_TOKEN_BUDGET;
    Ceil(k.fixed + raw as real * k.scale)
  }

  function Target(b: Budget, tokensBefore: real, k: Calibration): int {
    MinInt(MinInt(SafeCeiling(b), ReductionCeiling(tokensBefore)), MaxInt(ConfiguredTarget(b), KeepRecentTarget(b, k)))
  }

  // The raw tokens that fit under the target, summary included.
  function RawPostBudget(target: int, k: Calibration): nat
    requires k.scale >= 1.0
  {
    MaxInt(0, ((target as real - k.fixed) / k.scale).Floor)
  }

  function PlanFor(b: Budget, tokensBefore: real, k: Calibration): Plan
    requires k.scale >= 1.0
  {
    var target := Target(b, tokensBefore, k);
    Plan(target, k.scale, k.fixed, MaxInt(0, RawPostBudget(target, k) - SUMMARY_RAW_TOKEN_BUDGET))
  }

  // The target is the greatest number of tokens, 1 at least, that stays within nine tenths of what the window leaves
  // beside the reserve, within 19/20 of what there was, and within the configured share of the window or what the
  // recent tokens and the summary need.
  lemma TargetIsGreatest(b: Budget, tokensBefore: real, k: Calibration, t: int)
    requires k.scale >= 1.0 && k.fixed >= 0.0 && b.contextWindow >= 0.0 && t >= 2
    ensures var window, r := b.contextWindow.Floor, b.targetContextRatio;
      var reserve := if b.reserveTokens < 0.0 then 0 else b.reserveTokens.Floor;
      var recent := if b.keepRecentTokens < 0.0 then 0 else b.keepRecentTokens.Floor;
      t <= Target(b, tokensBefore, k) <==>
        && 10 * t <= 9 * (window - reserve)
        && 20.0 * t as real <= 19.0 * tokensBefore
        && (|| 4 * t <= window
            || (100 * t <= 85 * window && t as real <= r * window as real)
            || (t - 1) as real < k.fixed + (recent + 8192) as real * k.scale)
  {
    hide SafeCeiling, ReductionCeiling, ConfiguredTarget, KeepRecentTarget;
    Ceilings(b, tokensBefore, t);
    ShareOfWindow(b, t);
    RecentNeeds(b, k, t);
  }

  lemma RecentNeeds(b: Budget, k: Calibration, t: int)
    ensures var recent := if b.keepRecentTokens < 0.0 then 0 else b.keepRecentTokens.Floor;
      t <= KeepRecentTarget(b, k) <==> (t - 1) as real < k.fixed + (recent + 8192) as real * k.scale
  {
    NotNegative(b.keepRecentTokens);
    CeilAtLeast(k.fixed + (MaxInt(0, b.keepRecentTokens.Floor) + SUMMARY_RAW_TOKEN_BUDGET) as real * k.scale, t);
    hide Ceil;
  }

  lemma NotNegative(x: real)
    ensures MaxInt(0, x.Floor) == if x < 0.0 then 0 else x.Floor
  {}

  lemma CeilAtLeast(x: real, t: int)
    ensures t <= Ceil(x) <==> (t - 1) as real < x
  {}

  lemma Ceilings(b: Budget, tokensBefore: real, t: int)
    requires t >= 2
    ensures t <= SafeCeiling(b) <==>
      10 * t <= 9 * (b.contextWindow.Floor - if b.reserveTokens < 0.0 then 0 else b.reserveTokens.Floor)
    ensures t <= ReductionCeiling(tokensBefore) <==> 20.0 * t as real <= 19.0 * tokensBefore
  {
    NotNegative(b.reserveTokens);
    var hard := HardCeiling(b);
    assert t <= (hard as real * 0.9).Floor <==> 10 * t <= 9 * hard;
  }

  lemma ShareOfWindow(b: Budget, t: int)
    requires b.contextWindow >= 0.0
    ensures var window, r := b.contextWindow.Floor, b.targetContextRatio;
      t <= ConfiguredTarget(b) <==> 4 * t <= window || (100 * t <= 85 * window && t as real <= r * window as real)
  {
    var window, r := b.contextWindow.Floor, b.targetContextRatio;
    Clamped(r, window as real, t as real);
    var share := window as real * MaxReal(0.25, MinReal(0.85, r));
    assert ConfiguredTarget(b) == share.Floor;
    assert t <= share.Floor <==> t as real <= share;
  }

  lemma Clamped(r: real, w: real, x: real)
    requires w >= 0.0
    ensures x <= w * MaxReal(0.25, MinReal(0.85, r)) <==> x <= 0.25 * w || (x <= 0.85 * w && x <= r * w)
  {
    if r <= 0.25 {
      Grows(r, 0.25, w);
    } else if r <= 0.85 {
      Grows(0.25, r, w);
      Grows(r, 0.85, w);
    } else {
      Grows(0.85, r, w);
    }
  }

  lemma Grows(a: real, b: real, w: real)
    requires a <= b && w >= 0.0
    ensures a * w <= b * w
  {}

  // What may be kept is the most that fits under the target beside the summary.
  lemma RecentIsGreatest(b: Budget, tokensBefore: real, k: Calibration, n: nat)
    requires k.scale >= 1.0 && k.fixed >= 0.0 && n >= 1
    ensures var plan := PlanFor(b, tokensBefore, k);
      && plan.targetContextTokens == Target(b, tokensBefore, k) && plan.scale == k.scale && plan.fixed == k.fixed
      && (n <= plan.recentRawTokenBudget <==>
            k.fixed + (n + 8192) as real * k.scale <= Target(b, tokensBefore, k) as real)
  {
    FitsUnder(Target(b, tokensBefore, k), k.fixed, k.scale, n + 8192);
    hide Target;
  }

  method AdaptiveCutPlan(checkpoints: seq<Checkpoint>, tokensBefore: real, rawBefore: nat, b: Budget)
    returns (plan: Option<Plan>, ghost k: Calibration)
    ensures plan.None? <==> b.contextWindow <= 0.0
    ensures plan.Some? ==>
      Calibrated(checkpoints, tokensBefore, rawBefore, k) && plan.value == PlanFor(b, tokensBefore, k)
  {
    if b.contextWindow <= 0.0 { return None, Calibration(1.0, 0.0); }
    var calibration := TokenCalibration(checkpoints, tokensBefore, rawBefore);
    k := calibration;
    plan := Some(PlanFor(b, tokensBefore, calibration));
  }

  // ----- the cut -----

  function SuffixTokens(live: seq<Live>, i: nat): nat
    requires i <= |live|
    decreases |live| - i
  {
    if i == |live| then 0 else live[i].entry.tokens + SuffixTokens(live, i + 1)
  }

  ghost predicate Feasible(entries: seq<Entry>, live: seq<Live>, budget: nat, i: nat) {
    && 1 <= i < |live|
    && live[i].branchIndex > LastCompaction(entries)
    && live[i].entry.cutPoint
    && SuffixTokens(live, i) <= budget
    && ClosureSafe(SpansOf(entries), live[i].branchIndex)
  }

  // The tokens of the live entries from a point on.
  ghost function TokensFrom(entries: seq<Entry>, k: nat): nat
    decreases |entries| - k
  {
    if k >= |entries| then 0 else (if IsLive(entries, k) then entries[k].tokens else 0) + TokensFrom(entries, k + 1)
  }

  lemma {:induction false} NoTokensBetween(entries: seq<Entry>, k: nat, m: nat)
    requires k <= m && forall j :: k <= j < m ==> !IsLive(entries, j)
    ensures TokensFrom(entries, k) == TokensFrom(entries, m)
    decreases m - k
  {
    hide IsLive;
    if k < m && k < |entries| {
      NoTokensBetween(entries, k + 1, m);
    }
  }

  // The tokens behind a live entry are those of the live entries from it on.
  lemma {:induction false} SuffixIsTokens(entries: seq<Entry>, i: nat)
    requires i < |LiveEntries(entries)|
    ensures LiveEntries(entries)[i].branchIndex < |entries|
    ensures SuffixTokens(LiveEntries(entries), i) == TokensFrom(entries, LiveEntries(entries)[i].branchIndex)
    decreases |LiveEntries(entries)| - i
  {
    var live := LiveEntries(entries);
    LiveExactly(entries);
    hide LiveEntries, IsLive;
    var k := live[i].branchIndex;
    assert live[i] in live && live[i] == Live(entries[k], k);
    var next := if i + 1 < |live| then live[i + 1].branchIndex else |entries|;
    forall j | IsLive(entries, j) ensures j <= k || next <= j {
      var x := PlaceOf(entries, j);
      assert x < i || x == i || x == i + 1 || i + 1 < x;
    }
    NoTokensBetween(entries, k + 1, next);
    if i + 1 < |live| {
      SuffixIsTokens(entries, i + 1);
    }
  }

  // The session can be cut before entry k: it is live and not the first, comes after the last compaction, has a message
  // that is no tool result, weighs with what follows no more than the budget, and separates no call from its result.
  ghost predicate CanKeep(entries: seq<Entry>, budget: nat, k: nat) {
    && IsLive(entries, k) && LiveBefore(entries, k) != {} && entries[k].cutPoint
    && (forall c :: IsLastCompaction(entries, c) ==> c < k)
    && TokensFrom(entries, k) <= budget
    && !exists id, i, j :: Separates(entries, id, i, j, k)
  }

  // The first entry kept is the first before which the session can be cut.
  ghost predicate KeepsMost(entries: seq<Entry>, budget: nat, cut: Cut) {
    match cut
    case Nothing => true
    case Cut(_, None) => forall k: nat :: !CanKeep(entries, budget, k)
    case Cut(_, Some(first)) =>
      CanKeep(entries, budget, first) && forall k: nat :: k < first ==> !CanKeep(entries, budget, k)
  }

  lemma FeasibleIsKept(entries: seq<Entry>, budget: nat, i: nat)
    requires i < |LiveEntries(entries)|
    ensures var k := LiveEntries(entries)[i].branchIndex;
      k < |entries| && (Feasible(entries, LiveEntries(entries), budget, i) <==> CanKeep(entries, budget, k))
  {
    var live := LiveEntries(entries);
    LiveExactly(entries);
    var k := live[i].branchIndex;
    assert live[i] in live && live[i] == Live(entries[k], k);
    SuffixIsTokens(entries, i);
    SafeMeansUnseparated(entries, k);
    AfterLast(entries, k);
    hide LiveEntries, IsLive, IsLastCompaction, Separates, ClosureSafe, TokensFrom, SuffixTokens;
    if LiveBefore(entries, k) != {} {
      var m :| m in LiveBefore(entries, k);
      var x := PlaceOf(entries, m);
      assert x < i || x >= i;
    }
    if i >= 1 {
      assert live[0] in live;
      assert live[0].branchIndex as int in LiveBefore(entries, k);
    }
  }

  lemma AfterLast(entries: seq<Entry>, k: nat)
    ensures (forall c :: IsLastCompaction(entries, c) ==> c < k) <==> k > LastCompaction(entries)
  {
    var last := LastCompaction(entries);
    if last >= 0 {
      assert IsLastCompaction(entries, last);
    }
  }

  lemma EarliestKeepsMost(entries: seq<Entry>, budget: nat, cut: Cut)
    requires var live := LiveEntries(entries);
      && live != [] && cut.Cut? && cut.summarized <= |live|
      && (cut.firstKept.None? ==> cut.summarized == |live|)
      && (cut.firstKept.Some? ==> cut.summarized < |live| && cut.firstKept.value == live[cut.summarized].branchIndex
                                  && Feasible(entries, live, budget, cut.summarized))
      && forall j: nat :: j < cut.summarized ==> !Feasible(entries, live, budget, j)
    ensures KeepsMost(entries, budget, cut)
  {
    var live := LiveEntries(entries);
    LiveExactly(entries);
    hide LiveEntries, IsLive, Feasible;
    if cut.firstKept.Some? {
      FeasibleIsKept(entries, budget, cut.summarized);
    }
    forall k: nat | CanKeep(entries, budget, k) ensures cut.firstKept.Some? && k >= cut.firstKept.value {
      var x := PlaceOf(entries, k);
      FeasibleIsKept(entries, budget, x);
    }
  }

  // The earliest feasible cut keeps the most; without one everything is summarized and nothing kept.
  method ComputeAdaptiveCut(entries: seq<Entry>, live: seq<Live>, plan: Plan) returns (cut: Cut, retained: nat)
    requires live == LiveEntries(entries) && live != []
    ensures cut.Cut? && 0 < cut.summarized <= |live| && Clean(entries, live, cut)
    ensures retained == SuffixTokens(live, cut.summarized) <= plan.recentRawTokenBudget
    ensures cut.firstKept.Some? ==> Feasible(entries, live, plan.recentRawTokenBudget, cut.summarized)
    ensures cut.firstKept.None? ==> cut.summarized == |live| && retained == 0
    ensures LosesNothing(entries, cut)
    ensures cut.firstKept.Some? ==> retained == TokensFrom(entries, cut.firstKept.value)
    ensures KeepsMost(entries, plan.recentRawTokenBudget, cut)
    ensures forall j: nat :: j < cut.summarized ==> !Feasible(entries, live, plan.recentRawTokenBudget, j)
  {
    LiveIsOrdered(entries, LiveStart(entries), |entries|);
    var suffix := SuffixTable(live);
    var spans := CallResultSpans(entries);
    var previous := LastCompaction(entries);
    var cutIndex := |live|;
    for index := 1 to |live|
      invariant cutIndex == |live|
      invariant forall j: nat :: j < index ==> !Feasible(entries, live, plan.recentRawTokenBudget, j)
    {
      var item := live[index];
      if item.branchIndex <= previous { continue; }
      if !item.entry.cutPoint || suffix[index] > plan.recentRawTokenBudget { continue; }
      if !ClosureSafe(spans, item.branchIndex) { continue; }
      cutIndex := index;
      SafeMeansUnseparated(entries, item.branchIndex);
      break;
    }
    retained := suffix[cutIndex];
    cut := if cutIndex >= |live| then Whole(live) else Cut(cutIndex, Some(live[cutIndex].branchIndex));
    hide LosesNothing, KeepsMost;
    CutLosesNothing(entries, cut);
    EarliestKeepsMost(entries, plan.recentRawTokenBudget, cut);
    if cutIndex < |live| { SuffixIsTokens(entries, cutIndex); }
  }

  // Budgeted when there is a plan, at the last turn boundary otherwise: never through a tool call, and the earliest
  // feasible cut, or the last one.
  method ComputeCut(entries: seq<Entry>, plan: Option<Plan>) returns (cut: Cut, retained: nat)
    ensures cut == Nothing <==> LiveEntries(entries) == []
    ensures Clean(entries, LiveEntries(entries), cut)
    ensures cut.Cut? && cut.firstKept.None? ==> cut.summarized == |LiveEntries(entries)|
    ensures LosesNothing(entries, cut)
    ensures cut.Cut? && plan.Some? ==>
      && retained == (if cut.firstKept.Some? then TokensFrom(entries, cut.firstKept.value) else 0)
      && KeepsMost(entries, plan.value.recentRawTokenBudget, cut)
    ensures cut.Cut? && plan.Some? ==> IsBudgeted(entries, plan.value, cut, retained)
    ensures cut.Cut? && plan.None? ==>
      && (cut.firstKept.Some? ==> PlainFeasible(entries, LiveEntries(entries), cut.summarized))
      && (forall j: nat :: (cut.firstKept.Some? ==> cut.summarized < j) ==>
           !PlainFeasible(entries, LiveEntries(entries), j))
  {
    hide Clean, PlainFeasible, Feasible, LosesNothing, TokensFrom, KeepsMost;
    var live := CollectLive(entries);
    if |live| > 0 && plan.Some? {
      cut, retained := ComputeAdaptiveCut(entries, live, plan.value);
      return;
    }
    cut := ComputePlainCut(entries);
    retained := 0;
  }

  // The cut and the tokens it retains, when there is a budget.
  ghost predicate IsBudgeted(entries: seq<Entry>, plan: Plan, cut: Cut, retained: nat) {
    var live := LiveEntries(entries);
    && cut.Cut? && cut.summarized <= |live|
    && retained == SuffixTokens(live, cut.summarized) && retained <= plan.recentRawTokenBudget
    && (cut.firstKept.Some? ==> Feasible(entries, live, plan.recentRawTokenBudget, cut.summarized))
    && (forall j: nat :: j < cut.summarized ==> !Feasible(entries, live, plan.recentRawTokenBudget, j))
  }

  method SuffixTable(live: seq<Live>) returns (suffix: array<nat>)
    ensures fresh(suffix) && suffix.Length == |live| + 1
    ensures forall i {:trigger suffix[i]} :: 0 <= i <= |live| ==> suffix[i] == SuffixTokens(live, i)
  {
    suffix := new nat[|live| + 1](_ => 0);
    var index := |live|;
    while index > 0
      invariant 0 <= index <= |live|
      invariant forall i {:trigger suffix[i]} :: index <= i <= |live| ==> suffix[i] == SuffixTokens(live, i)
    {
      index := index - 1;
      suffix[index] := suffix[index + 1] + live[index].entry.tokens;
    }
  }

  // ----- the guard -----

  // The context after compaction, as estimated from the plan and the summary's length.
  function Projected(plan: Plan, retained: nat, summaryUnits: nat): int {
    Ceil(plan.fixed + (retained + Ceil(summaryUnits as real / 4.0)) as real * plan.scale)
  }

  predicate GuardFires(plan: Plan, retained: nat, summaryUnits: nat) {
    Projected(plan, retained, summaryUnits) > plan.targetContextTokens
  }

  // The raw tokens that fit under the target; negative when the fixed overhead alone exceeds it.
  function RawFits(plan: Plan): int
    requires plan.scale >= 1.0
  {
    ((plan.targetContextTokens as real - plan.fixed) / plan.scale).Floor
  }

  // The target leaves room for the reserved summary.
  predicate LeavesRoom(plan: Plan)
    requires plan.scale >= 1.0
  {
    RawFits(plan) >= SUMMARY_RAW_TOKEN_BUDGET
  }

  ghost predicate FromBudget(plan: Plan) {
    plan.scale >= 1.0 && plan.fixed >= 0.0
    && plan.recentRawTokenBudget ==
         MaxInt(0, RawPostBudget(plan.targetContextTokens, Calibration(plan.scale, plan.fixed))
                   - SUMMARY_RAW_TOKEN_BUDGET)
  }

  lemma FitsUnder(target: int, fixed: real, scale: real, raw: int)
    requires scale >= 1.0
    ensures fixed + raw as real * scale <= target as real <==> raw <= ((target as real - fixed) / scale).Floor
  {
    var q := (target as real - fixed) / scale;
    assert q * scale == target as real - fixed;
    if raw as real <= q {
      assert raw as real * scale <= q * scale;
    } else {
      assert raw as real * scale > q * scale;
    }
    assert raw <= q.Floor <==> raw as real <= q;
  }

  // The tokens of the largest summary that can be rendered.
  const LARGEST_SUMMARY_TOKENS := 7453

  lemma QuarterBound(units: nat)
    ensures 0 <= Ceil(units as real / 4.0) && (units > 0 ==> 0 < Ceil(units as real / 4.0))
    ensures units <= LARGEST_SUMMARY ==> Ceil(units as real / 4.0) <= LARGEST_SUMMARY_TOKENS
    ensures units == LARGEST_SUMMARY - 2 ==> Ceil(units as real / 4.0) == LARGEST_SUMMARY_TOKENS
  {}

  lemma CeilAtMost(x: real, n: int)
    ensures Ceil(x) <= n <==> x <= n as real
  {}

  // The guard fires exactly when the retained and summary tokens exceed what fits under the target.
  lemma GuardMeaning(plan: Plan, retained: nat, units: nat)
    requires plan.scale >= 1.0
    ensures GuardFires(plan, retained, units) <==> retained + Ceil(units as real / 4.0) > RawFits(plan)
    ensures GuardFires(plan, retained, units) <==>
      plan.fixed + (retained + (units + 3) / 4) as real * plan.scale > plan.targetContextTokens as real
  {
    var raw := retained + Ceil(units as real / 4.0);
    FitsUnder(plan.targetContextTokens, plan.fixed, plan.scale, raw);
    CeilAtMost(plan.fixed + raw as real * plan.scale, plan.targetContextTokens);
  }

  // For a rendered summary: the guard fires exactly when the target leaves no room for the reserved summary, so that
  // nothing is retained, and not enough for this one.
  lemma GuardOnSummary(plan: Plan, retained: nat, s: Sections, requestLines: seq<Text>, o: RenderOptions)
    requires FromBudget(plan) && retained <= plan.recentRawTokenBudget
    ensures var units := |Summary(s, requestLines, o)|;
      GuardFires(plan, retained, units) <==> !LeavesRoom(plan) && Ceil(units as real / 4.0) > RawFits(plan)
  {
    hide Summary;
    var units := |Summary(s, requestLines, o)|;
    SummaryFits(s, requestLines, o);
    Utf8AtLeastUnits(Summary(s, requestLines, o));
    GuardMeaning(plan, retained, units);
    QuarterBound(units);
  }

  // No rendered summary can ever make the guard fire.
  ghost predicate GuardIsDead(plan: Plan) {
    forall retained: nat, s: Sections, requestLines: seq<Text>, o: RenderOptions ::
      retained <= plan.recentRawTokenBudget ==> !GuardFires(plan, retained, |Summary(s, requestLines, o)|)
  }

  // The guard fires on a summary of a request that can be encoded and of a source that has entries.
  ghost predicate FiresOnFullest(plan: Plan) {
    && Encodable(FullestRequest()) && FullestOptions().firstEntryId != [] && FullestOptions().lastEntryId != []
    && GuardFires(plan, 0, |Summary(Fullest(), LinesOf(FullestRequest()), FullestOptions())|)
  }

  // The guard is dead code exactly when what fits under the target holds the largest summary.
  lemma GuardIsDeadExactly(plan: Plan)
    requires FromBudget(plan)
    ensures GuardIsDead(plan) <==> RawFits(plan) >= LARGEST_SUMMARY_TOKENS
    ensures !GuardIsDead(plan) ==> FiresOnFullest(plan)
  {
    hide Summary, GuardFires, Encodable, LinesOf, Fullest, FullestRequest, FullestOptions;
    QuarterBound(LARGEST_SUMMARY - 2);
    if RawFits(plan) >= LARGEST_SUMMARY_TOKENS {
      forall retained: nat, s: Sections, requestLines: seq<Text>, o: RenderOptions
        | retained <= plan.recentRawTokenBudget
        ensures !GuardFires(plan, retained, |Summary(s, requestLines, o)|)
      {
        GuardOnSummary(plan, retained, s, requestLines, o);
        SummaryFits(s, requestLines, o);
        Utf8AtLeastUnits(Summary(s, requestLines, o));
        QuarterBound(|Summary(s, requestLines, o)|);
      }
    } else {
      CompiledIsAttained();
      GuardOnSummary(plan, 0, Fullest(), LinesOf(FullestRequest()), FullestOptions());
      assert FiresOnFullest(plan);
    }
  }

  // A budget for which the guard fires on such a summary: the fixed overhead takes half of the window.
  lemma GuardCanFire()
    ensures var plan := PlanFor(Budget(10000.0, 0.85, 0.0, 0.0), 12000.0, Calibration(1.0, 5000.0));
      FromBudget(plan) && FiresOnFullest(plan)
  {
    var b, k := Budget(10000.0, 0.85, 0.0, 0.0), Calibration(1.0, 5000.0);
    var plan := PlanFor(b, 12000.0, k);
    assert SafeCeiling(b) == 9000;
    assert plan.targetContextTokens <= 9000;
    assert RawFits(plan) <= 4000;
    hide PlanFor, GuardIsDead, FiresOnFullest;
    PlanFacts(b, 12000.0, k);
    GuardIsDeadExactly(plan);
  }

  // Room for the whole reservation is more than the guard needs: this budget leaves less, and the guard is still dead.
  lemma DeadWithoutRoom()
    ensures var plan := PlanFor(Budget(14000.0, 0.85, 0.0, 0.0), 13500.0, Calibration(1.0, 4750.0));
      FromBudget(plan) && !LeavesRoom(plan) && GuardIsDead(plan)
  {
    var b, k := Budget(14000.0, 0.85, 0.0, 0.0), Calibration(1.0, 4750.0);
    var plan := PlanFor(b, 13500.0, k);
    assert SafeCeiling(b) == 12600 && ReductionCeiling(13500.0) == 12825;
    assert plan.targetContextTokens == 12600;
    assert RawFits(plan) == 7850;
    PlanFacts(b, 13500.0, k);
    hide GuardIsDead, PlanFor;
    GuardIsDeadExactly(plan);
  }

  // With a fixed overhead above the target it fires on every summary: each has a last line break.
  lemma GuardAlwaysFires(plan: Plan, retained: nat, s: Sections, requestLines: seq<Text>, o: RenderOptions)
    requires FromBudget(plan) && RawFits(plan) <= 0
    ensures GuardFires(plan, retained, |Summary(s, requestLines, o)|)
  {
    GuardMeaning(plan, retained, |Summary(s, requestLines, o)|);
    QuarterBound(|Summary(s, requestLines, o)|);
  }

  // Every plan reserves the summary and aims below both ceilings.
  lemma PlanFacts(b: Budget, tokensBefore: real, k: Calibration)
    requires k.scale >= 1.0 && k.fixed >= 0.0
    ensures var plan := PlanFor(b, tokensBefore, k);
      FromBudget(plan) && plan.targetContextTokens <= SafeCeiling(b)
        && plan.targetContextTokens <= ReductionCeiling(tokensBefore)
  {}

  // ----- compiling -----

  // What is projected from the source of a cut, when it has events.
  datatype Source = Source(sections: Sections, options: RenderOptions)

  datatype Cancellation = RejectedInstructions(code: ErrorCode) | NothingToCompact | NoSource | OverTarget

  datatype Compiled =
    | Cancelled(reason: Cancellation)
    | Compacted(cut: Cut, summary: Text, projectedTokensAfter: Option<int>)

  // What the budget says of a request: the checkpoints, the tokens before, and the window.
  datatype Pressure = Pressure(checkpoints: seq<Checkpoint>, tokensBefore: real, rawBefore: nat, budget: Budget)

  // A compilation from decoded instructions to the summary: each way it can be cancelled, and what holds otherwise.
  // What survives the guard is within the target; the guard cancels only plans without room for the reserved summary.
  method CompileSummary(entries: seq<Entry>, decoded: Decoded, pressure: Option<Pressure>,
                        project: Cut -> Option<Source>)
    returns (r: Compiled, plan: Option<Plan>, cut: Cut)
    ensures r.Cancelled? && r.reason.RejectedInstructions? <==> decoded.Rejected?
    ensures decoded.Accepted? ==>
      && (plan.Some? <==> pressure.Some? && pressure.value.budget.contextWindow > 0.0)
      && (plan.Some? ==> FromBudget(plan.value))
      && (cut == Nothing <==> LiveEntries(entries) == []) && Clean(entries, LiveEntries(entries), cut)
      && (r == Cancelled(NothingToCompact) <==> cut == Nothing)
      && (r == Cancelled(NoSource) <==> cut.Cut? && project(cut).None?)
    ensures decoded.Accepted? && cut.Cut? && project(cut).Some? ==>
      var summary := Summary(project(cut).value.sections, decoded.requestLines, project(cut).value.options);
      && (r == Cancelled(OverTarget) <==>
            plan.Some? && !LeavesRoom(plan.value) && Ceil(|summary| as real / 4.0) > RawFits(plan.value))
      && (r.Compacted? || r == Cancelled(OverTarget))
      && (r.Compacted? ==> r.cut == cut && r.summary == summary && Utf8Bytes(r.summary) <= LARGEST_SUMMARY)
      && (r.Compacted? ==> (r.projectedTokensAfter.Some? <==> plan.Some?))
      && (r.Compacted? && plan.Some? ==> r.projectedTokensAfter.value <= plan.value.targetContextTokens)
  {
    hide Summary, Clean, PlanFor, RawPostBudget, LiveEntries;
    plan, cut := None, Nothing;
    if decoded.Rejected? { return Cancelled(RejectedInstructions(decoded.code)), plan, cut; }
    if pressure.Some? {
      var p := pressure.value;
      ghost var k;
      plan, k := AdaptiveCutPlan(p.checkpoints, p.tokensBefore, p.rawBefore, p.budget);
      if plan.Some? { PlanFacts(p.budget, p.tokensBefore, k); }
    }
    var retained;
    cut, retained := ComputeCut(entries, plan);
    if cut == Nothing { return Cancelled(NothingToCompact), plan, cut; }
    var source := project(cut);
    if source.None? { return Cancelled(NoSource), plan, cut; }
    var summary := RenderSummary(source.value.sections, decoded.requestLines, source.value.options);
    if plan.None? { return Compacted(cut, summary, None), plan, cut; }
    GuardOnSummary(plan.value, retained, source.value.sections, decoded.requestLines, source.value.options);
    var projected := Projected(plan.value, retained, |summary|);
    if projected > plan.value.targetContextTokens { return Cancelled(OverTarget), plan, cut; }
    r := Compacted(cut, summary, Some(projected));
  }
}
