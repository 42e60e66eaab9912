# Verified model of the fabric extension's algorithms

This project models, in Dafny, the self-contained algorithms and state machines of the pi-fabric repository, and
proves what they promise. Each module follows one part of the source; the loops and the classes of the source are
methods and classes here, proved against specification functions, and the promises are lemmas about those functions.

`Basics` holds shared definitions.

- **JSON text.** `Text`, `Json`: UTF-16 texts with their UTF-8 lengths, JSON values, the printer `JSON.stringify`, and
  the grammar of RFC 8259 as concrete syntax trees. `StrictJson` is the strict parser, as a class over its `index` and
  `nodes` fields; `StrictJsonProofs` and `StrictJsonTheorems` prove that it accepts exactly the texts of the grammar
  within its limits and gives each its value. `JsonSpelling`, `JsonNumbers` and `JsonLists` tell the same with string
  literals, tables of digits and letters, and powers instead of the parser's own functions: which texts are read as which
  value. `BalancedJson` is the bracket scanner, `Instructions` the typed compaction request built on all of these, and
  `InstructionMeaning` says what a request may hold, how it is spelled and what becomes of it.
- **Compaction planning.** `CutClosure` (live entries, call/result spans, closing a cut), `AdaptiveCut` (token
  calibration, the budget plan, the budgeted cut, the cancel guard), `Bounds`, `Render`, `SummaryLayout`
  and `FullestSummary` (byte-bounded text, where everything stands in a summary, and one that takes all the room there
  is).
- **Graph numerics over reals.** `Sums`, `PageRank`, `PageRankTheorems`, `Stationary` (the vector that the iteration
  approaches exists, by elimination), `Neighborhood`, `AnchoredRank`; `HeatPairs`, `HeatCsr`, `Chebyshev` (conductances,
  compressed rows, the operator and its Chebyshev vectors); `RenderHeat` and `HeatText`.
- **Incremental readers and counters.** `Lines`, `Steer`, `Lifecycle`, `LogTail`, `TraceSize`, `TraceRecorder`.
- **Protocols.** `Semaphore`, `CompactControl`: steps over every interleaving, and the classes that take them.

A method that is proved against a specification function has its meaning also stated without that function: in terms of
the inputs themselves, with the constants and strings written out (`LogTail.AreLines`, `HeatCsr.IsGraph`,
`CutClosure.LosesNothing`, `TraceRecorder.IsSealed`, `PageRank.IsRanking` and others).

Where a promise fails, the model keeps the code and states exactly when it holds:

- The depth-limited search marks nodes on first discovery, so it is exact for every graph only up to depth 2
  (`Neighborhood.ExactDepths`).
- PageRank's ranks are a distribution exactly when no weight is lost, which happens when some node is personalized and
  some weight lies outside the node set (`PageRankTheorems.RankIsDistribution`, with `PageRankTheorems.WeightIsLost`).
- The cancel guard of a budgeted compaction is dead code exactly when what fits under the target holds the largest
  summary that can be rendered, 29811 bytes or 7453 tokens (`AdaptiveCut.GuardIsDeadExactly`), which is less than the
  room reserved for it (`AdaptiveCut.DeadWithoutRoom`). `AdaptiveCut.GuardOnSummary` says when it fires on a given
  rendered summary, and `AdaptiveCut.GuardCanFire` is a budget for which it does, on the lines of an encodable request.
- Steering passes every command on exactly when no poll completes more than 256 (`Steer.RunDelivers`); a file of 257
  short lines loses one (`Steer.BurstLosesOne`).
- A drain of the lifecycle file hands every line on once and whole exactly when no drain finds an unfinished line grown
  beyond 64 KiB and nothing after it (`Lifecycle.DrainsAreOnce`); none does when every line is at most 64 KiB long
  (`Lifecycle.ShortLinesAreKept`).
- Paging through a log reads the whole file exactly when it never meets a window in which no line starts
  (`LogTail.ReadAll`): always without blank lines (`LogTail.BlankFreeIsCovered`), and not when more blank lines than a
  read takes follow a line (`LogTail.BlankTailIsNotCovered`). `hasMore` is wrong exactly on a page without a line that
  has lines before it, and on a page with every line of which the window does not start the file (`LogTail.MoreIsTrue`);
  a line behind many blank ones has such a page (`LogTail.BlankHeadSaysMore`).
- The ledger total is the component-wise maximum exactly when no payload of negative tokens was skipped
  (`Lifecycle.SettledLedger`); `Lifecycle.SkippedCorrection` is such a payload.
- `truncated` in a heat rendering is false although some lit node is told of nowhere in exactly two cases
  (`RenderHeat.TruncatedExactly`): more nodes are lit than the cap and everything capped fits
  (`RenderHeat.CapHidesNodes`, `RenderHeat.SecondIsHidden`), or only glow lines exist and neither all of them nor the
  text without any fits the budget (`RenderHeat.FlagCanBeWrong`). Otherwise it is right.
- A truncated text exceeds its bound exactly when it was cut and the bound is below the 14 bytes of the suffix
  (`TraceRecorder.TruncatedFits`); no caller uses such a bound.
- The comment above `applyNegP` (src/codemap/heat.ts:59) says isolated nodes map to themselves. The code gives them 0,
  and so does the model (`Chebyshev.IsolatedGoesToZero`).

Texts are sequences of UTF-16 code units, files are sequences of bytes, a read returns all the bytes asked for, and
arithmetic is over `real`.

## Model

| member | source | states |
|---|---|---|
| `StrictJson.StrictJsonParser.ParseText` | src/compaction/instructions.ts:176-182 | The parser object, started at the beginning of any text, returns what the specification parser says, error codes included, and stops; `JsonSpelling`, `JsonNumbers` and `JsonLists` say for every value which texts that reads |
| `StrictJson.StrictJsonParser.ParseAny` | src/compaction/instructions.ts:184-203 | One value: depth and node limits first, then dispatch on the first character; position and node count end where the specification says |
| `StrictJson.StrictJsonParser.ParseBraces` | src/compaction/instructions.ts:205-237 | An object: keys, duplicate rejection, separators, in place on `index` and `nodes` |
| `StrictJson.StrictJsonParser.ParseBrackets` | src/compaction/instructions.ts:239-260 | An array, likewise |
| `StrictJson.StrictJsonParser.ParseString` | src/compaction/instructions.ts:262-303 | A string token: escapes, control characters, and the surrogate check over the decoded text |
| `StrictJson.StrictJsonParser.ParseHex` | src/compaction/instructions.ts:347-352 | Four hexadecimal digits, in either case, give the code unit they spell by the table (`JsonSpelling.HexOf`); fewer, or others, are malformed |
| `StrictJson.StrictJsonParser.ParseNumber` | src/compaction/instructions.ts:305-331 | A number token of section 6 of RFC 8259 whose double is finite |
| `Text.HasPairedSurrogates` | src/compaction/instructions.ts:70-82 | True exactly when every surrogate of the text is half of a pair |
| `StrictJsonProofs.ParseRendered` | src/compaction/instructions.ts:184-331 | Completeness: reading the text of any syntax tree, with any white space, escapes and number spelling, gives its value and the rest, or the first limit it exceeds |
| `StrictJsonTheorems.ValueSound` | src/compaction/instructions.ts:184-331 | Soundness: whatever is read is the text of a valid syntax tree with that value, within the limits |
| `StrictJsonTheorems.CheckIsWithin` | src/compaction/instructions.ts:167-168 | The running checks pass exactly when nesting is at most 32, nodes at most 4096, keys are distinct and surrogates paired |
| `StrictJsonTheorems.ParseIsCorrect` | src/compaction/instructions.ts:176-365 | A text is accepted with a value if and only if it is a JSON text of that value within the limits |
| `StrictJsonTheorems.ParsePrinted` | src/compaction/instructions.ts:176-365 | Parsing undoes printing for every value within the limits |
| `StrictJsonTheorems.PrintIsInjective` | src/compaction/instructions.ts:176-365 | Two values within the limits that print alike are equal |
| `JsonSpelling.StringsAreSpelled` | src/compaction/instructions.ts:262-303 | A text is read as a string if and only if it is one of the spellings of that string between blanks: each code unit as itself, by one of eight letters, or by four digits of a table in either case, and no half of a surrogate pair is missing |
| `JsonSpelling.BrokenPairIsUnicode` | src/compaction/instructions.ts:269-272 | A spelling of a string with an unpaired surrogate fails with the Unicode error |
| `JsonSpelling.OtherEscapes` | src/compaction/instructions.ts:280-300 | Behind any spelled beginning, a backslash with another letter, or with fewer than four digits after the u, is malformed |
| `JsonSpelling.QuotedIsPrinted` | src/compaction/instructions.ts:135-135 | Printing writes each code unit by its letter if it has one other than the slash, by four lower-case digits if it is a control character or an unpaired surrogate, and as itself otherwise |
| `JsonNumbers.NumbersAreSpelled` | src/compaction/instructions.ts:305-331 | A text is read as a number if and only if it is its token between blanks, digit by digit, and the number is below the first that rounds to infinity |
| `JsonNumbers.WorthIs` | src/compaction/instructions.ts:328-329 | The decimal value of a token is its digits, scaled by the powers of ten of its fraction and its exponent |
| `JsonNumbers.OneAndExponent` | src/compaction/instructions.ts:328-329 | A one with an exponent is read exactly up to 308 and malformed beyond, 1e400 included |
| `JsonLists.LiteralsAreSpelled` | src/compaction/instructions.ts:195-197 | A text is read as null, true or false if and only if it is that word between blanks |
| `JsonLists.ListsAreSpelled` | src/compaction/instructions.ts:239-260 | A text is read as an array if and only if it is brackets around blanks, or around texts read as the items with commas between, within the limits |
| `JsonLists.ObjectsAreSpelled` | src/compaction/instructions.ts:205-237 | A text is read as an object if and only if it is braces around blanks, or around texts read as keys and values with colons and commas between, within the limits |
| `JsonLists.DepthIsLimited` | src/compaction/instructions.ts:184-187 | Brackets inside brackets are read up to 33 deep and no deeper |
| `JsonLists.SizeIsLimited` | src/compaction/instructions.ts:188-191 | A list is read up to 4096 values, itself included, and no longer |
| `JsonLists.KeysAreDistinct` | src/compaction/instructions.ts:216-219 | No object is read in which a key appears twice |
| `BalancedJson.ExtractBalancedJson` | src/worker.ts:139-162 | The loop returns the text up to the first closing bracket that balances the opening one outside strings, and nothing when there is none |
| `BalancedJson.ExtractsExactly` | src/worker.ts:139-162 | Started at any JSON object or array, in any spelling, followed by any text, the scan ends exactly at the end of the value, although it counts one kind of bracket only |
| `BalancedJson.ExtractsPrinted` | src/worker.ts:139-162 | A printed object or array followed by arbitrary text is returned unchanged |
| `Instructions.RequestBoundsError` | src/compaction/instructions.ts:84-125 | The first bound a request violates, in the order of the checks |
| `Instructions.Encode` | src/compaction/instructions.ts:127-140 | A request is encoded exactly when it is within its bounds and its encoded text within 16 KiB |
| `Instructions.Decode` | src/compaction/instructions.ts:367-475 | Plain, empty and typed sources, every rejection in order, and the accepted lines and policy |
| `Instructions.Accept` | src/compaction/instructions.ts:442-474 | An accepted request is never cut: canonical instruction, canonical non-blank items with their positions, and the policy counts |
| `Instructions.RoundTrip` | src/compaction/instructions.ts:127-475 | Every request the encoder accepts decodes as typed-v1 with the same preserve count and the canonical form of its lines, in order |
| `Instructions.PayloadIsWithin` | src/compaction/instructions.ts:127-140 | The payload of an accepted request is within the parser's depth and node limits |
| `InstructionMeaning.RequestIsChecked` | src/compaction/instructions.ts:84-125 | A request has no error if and only if its texts have no unpaired surrogate and at most 8192, or for at most 16 items 2048, code units and bytes; otherwise the error is that of the first text that does not fit |
| `InstructionMeaning.PayloadIsSpelled` | src/compaction/instructions.ts:130-135 | The payload reads `{"version":1,"instructions":...,"preserve":[...]}`, with the parts that are there |
| `InstructionMeaning.EncodableExactly` | src/compaction/instructions.ts:127-140 | The encoder accepts exactly the requests that fit and take at most 16384 bytes behind the prefix of 33 |
| `InstructionMeaning.OneIsNearest` | src/compaction/instructions.ts:412-414 | A version counts as 1 if and only if its number is nearer to 1 than to either neighbouring double, or as near |
| `InstructionMeaning.ExtractIsExact` | src/compaction/instructions.ts:404-440 | A parsed value is accepted as a request if and only if it is an object with no member but these three that says just this request, and the request fits |
| `InstructionMeaning.ExtractFaults` | src/compaction/instructions.ts:404-440 | Any other value is refused for the first of its faults, in order: no object, an unknown member, another version, a wrong type, too many items, an item that is no string, a text that does not fit |
| `InstructionMeaning.LinesAreListed` | src/compaction/instructions.ts:442-462 | The lines are the canonical instructions, if there is anything in them, and for each item with anything in it `- text [preserve:i]` with its position, in order |
| `InstructionMeaning.PolicyIsCounted` | src/compaction/instructions.ts:442-474 | The policy counts every item, blank or not, and the bytes of all canonical texts; it says whether any text changed, and that nothing was cut or left out |
| `InstructionMeaning.PlainIsClipped` | src/compaction/instructions.ts:142-157 | A plain source becomes one line, its canonical form cut to 8192 bytes, or none |
| `Bounds.ClipUtf8` | src/compaction/bounds.ts:8-23 | Clipping keeps what the loop over characters keeps, and adds the suffix |
| `Bounds.FitFacts` | src/compaction/bounds.ts:13-22 | What is kept is a prefix within the room, and one character more would not have fitted |
| `Bounds.ClipBounded` | src/compaction/bounds.ts:8-23 | Clipping never exceeds its bound and leaves a text within the bound unchanged |
| `Bounds.ClipIsExact` | src/compaction/bounds.ts:8-23 | A clipped text is the text itself when it fits, and otherwise its longest beginning that fits beside the suffix without splitting a surrogate pair, and the suffix |
| `Bounds.WordsAreBetween` | src/compaction/bounds.ts:31-32 | The words of any text woven from words and gaps of listed white space are these, and the canonical form has one space between each two |
| `Text.Utf8IsEncoded` | src/compaction/bounds.ts:6-6 | The byte count is that of the UTF-8 encoding of its code points (section 3 of RFC 3629), an unpaired surrogate counting as U+FFFD |
| `Bounds.CanonicalBytes` | src/compaction/bounds.ts:31-39 | Canonicalizing never lengthens a text |
| `Bounds.CanonicalIdempotent` | src/compaction/bounds.ts:31-39 | Canonical text is its own canonical form |
| `Bounds.SampleAddressedFrom` | src/compaction/bounds.ts:53-85 | One pass keeps the first half and the last half, and reports the count and both ends of what it omitted |
| `CutClosure.CollectLive` | src/compaction/hook.ts:143-181 | The live entries of the branch, in order with their positions; `CutClosure.LiveExactly` says which these are |
| `CutClosure.LiveExactly` | src/compaction/hook.ts:133-181 | An entry is live if and only if it is in context, no compaction, and at or after the first entry that the last compaction names as kept, or, when it names none that exists, after that compaction, or anywhere when there is none |
| `CutClosure.CallResultSpans` | src/compaction/hook.ts:198-224 | The span map built by the loop |
| `CutClosure.SpansAreExactly` | src/compaction/hook.ts:198-224 | Each span runs from the first to the last mention of its id and knows whether a call and a result are there; no id is missing or invented |
| `CutClosure.SafeMeansUnseparated` | src/compaction/hook.ts:226-233 | A boundary is closure-safe if and only if no call and result of one id lie on different sides of it |
| `CutClosure.CloseCut` | src/compaction/hook.ts:235-256 | The result is the greatest index, the candidate itself or a turn boundary before it, that no span crosses, or 0 when there is none: jumping before the earliest crossing skips no safe boundary |
| `CutClosure.EarliestCrossing` | src/compaction/hook.ts:240-250 | The earliest start among the spans that cross a boundary |
| `CutClosure.ComputePlainCut` | src/compaction/hook.ts:447-471 | Without a budget the cut is the last turn boundary after the previous compaction that separates no call from its result; everything is summarized exactly when there is none |
| `CutClosure.CutLosesNothing` | src/compaction/hook.ts:372-401 | Every live entry before the first kept one is counted as summarized, the first kept one is live, and without one all live entries are summarized |
| `AdaptiveCut.TokenCalibration` | src/compaction/hook.ts:291-325 | The fitted line covers the present, and every usable checkpoint whenever some slope was observed. Its slope is the greatest observed, 1 at least, and its offset the least that covers, 0 at least |
| `AdaptiveCut.SlopeIsGiven` | src/compaction/hook.ts:296-307 | A checkpoint gives a slope if and only if it is no heavier than the present, and 4096 tokens and a tenth of the raw size back |
| `AdaptiveCut.AdaptiveCutPlan` | src/compaction/hook.ts:327-370 | The plan exists exactly for a positive window, and is that of a calibration by the checkpoints |
| `AdaptiveCut.TargetIsGreatest` | src/compaction/hook.ts:333-351 | The target is the greatest number of tokens within nine tenths of what the window leaves beside the reserve, within 19/20 of what there was, and within the configured share of the window, between 1/4 and 17/20, or what the recent tokens and 8192 for the summary need |
| `AdaptiveCut.RecentIsGreatest` | src/compaction/hook.ts:352-369 | What may be kept is the most that fits under the target beside 8192 raw tokens |
| `AdaptiveCut.PlanFacts` | src/compaction/hook.ts:327-370 | Every plan aims below the safe and the reduction ceiling and reserves the summary |
| `AdaptiveCut.ComputeAdaptiveCut` | src/compaction/hook.ts:403-445 | The cut keeps a suffix within the budget, separates no call from its result, and is the earliest that can; otherwise everything is summarized |
| `AdaptiveCut.EarliestKeepsMost` | src/compaction/hook.ts:403-445 | Told by the entries themselves: the first kept one can be kept within the budget, and none before it can |
| `AdaptiveCut.ComputeCut` | src/compaction/hook.ts:447-471 | With and without a plan, no tool call is ever separated from its result, and every live entry is summarized or at or after the first kept one; the cut is the earliest feasible one within the budget, or the last one without; nothing is compacted only when nothing is live |
| `AdaptiveCut.GuardMeaning` | src/compaction/hook.ts:672-689 | Floors and ceilings together: the guard fires exactly when retained and summary tokens exceed what fits under the target |
| `AdaptiveCut.GuardOnSummary` | src/compaction/hook.ts:672-689 | On a rendered summary the guard fires exactly when the target leaves no room for the reserved summary, so that nothing is retained, and not enough for this one |
| `AdaptiveCut.GuardIsDeadExactly` | src/compaction/hook.ts:672-689 | No retained suffix within its budget and no rendered summary can make the guard fire, if and only if what fits under the target holds the largest summary |
| `AdaptiveCut.GuardCanFire` | src/compaction/hook.ts:682-689 | A concrete budget, and sections, request and footer, for which the guard fires |
| `AdaptiveCut.DeadWithoutRoom` | src/compaction/hook.ts:672-689 | A concrete budget that leaves less than the reserved room and still never cancels |
| `AdaptiveCut.GuardAlwaysFires` | src/compaction/hook.ts:672-689 | With a fixed overhead at or above the target the guard fires on every rendered summary |
| `AdaptiveCut.CompileSummary` | src/compaction/hook.ts:635-689 | From decoded instructions to the rendered summary: which of the four cancellations happens and when, and that what is compacted is cleanly cut and within the target |
| `Render.BoundedBlock` | src/compaction/render.ts:41-50 | The loop over `keep` computes the block |
| `Render.BlockIsBounded` | src/compaction/render.ts:41-50 | A block is within its byte bound |
| `Render.BlockIsFullest` | src/compaction/render.ts:41-50 | It keeps at least any number of sampled lines that fit |
| `SummaryLayout.BlockIs` | src/compaction/render.ts:30-50 | A block is its header and the largest sample of its lines that fits, each line cut to 1024 bytes and at most 128 of them sampled; a sample has the first half, `… omitted N rendered lines`, and the last half; when not even the header fits it is the header, cut |
| `Render.RenderSummary` | src/compaction/render.ts:52-82 | The summary is its blocks in order, the request after the goal, the footer last, and at most 29811 bytes, so it is never clipped |
| `Render.SummaryFits` | src/compaction/render.ts:52-82 | Whatever the sections, request lines and options, the bounds of the blocks and their separators add up to at most 29811 bytes |
| `SummaryLayout.SummaryIsLaidOut` | src/compaction/render.ts:52-82 | The parts that have lines, under their headers and bounds, in the order goal, request, files, activity, outstanding, earlier turns, status, transcript, footer, with a blank line between: the request comes before all the rest also without a goal. The footer names the time and the range, and says how to recall |
| `Render.FooterIsWhole` | src/compaction/render.ts:68-77 | The footer block never leaves a line out |
| `FullestSummary.LargestIsAttained` | src/compaction/render.ts:52-82 | Some sections, request and options render to exactly that many |
| `FullestSummary.FullestIsEncodable` | src/compaction/instructions.ts:127-140 | The request of that summary is one the encoder accepts |
| `FullestSummary.CompiledIsAttained` | src/compaction/render.ts:52-82 | With the lines of that request and a named entry range, 29809 units are rendered: the arrow of the range takes two bytes more than its unit |
| `FullestSummary.FullBlock` | src/compaction/render.ts:41-50 | A block can take all of its bound |
| `PageRank.Rank` | src/codemap/rank.ts:29-114 | The whole method, with defaults and damping, computes the specification's ranks, and these are a ranking as told by the edges (`PageRank.IsRanking`) |
| `PageRank.RanksAreRun` | src/codemap/rank.ts:29-114 | The ranks are the last of a run of rounds from the teleport vector, up to the first that moves less than epsilon, but no more than allowed; in each round a node gets its part of what is teleported, its part of what nodes without an edge hold, and from each edge into it the share that the edge has of the weight leaving its source |
| `PageRank.TeleportIsGiven` | src/codemap/rank.ts:57-83 | The teleport vector holds the given weights as shares of their total, when that is positive and some node has a positive one, and equal shares otherwise |
| `PageRank.Iterate` | src/codemap/rank.ts:85-112 | The iteration loop with its epsilon exit is the specification's power iteration |
| `PageRank.TeleportVector` | src/codemap/rank.ts:43-66 | Personalization normalized over the node set, uniform when nothing is personalized |
| `PageRankTheorems.FlowConserved` | src/codemap/rank.ts:68-106 | The weight that flows along edges arrives in full, and never more than left |
| `PageRankTheorems.StepKeepsMass` | src/codemap/rank.ts:85-112 | Every iteration keeps ranks non-negative and the total at 1, dangling nodes and personalization included |
| `PageRankTheorems.Contraction` | src/codemap/rank.ts:85-112 | An iteration shrinks the L1 distance between any two rank vectors by at least the damping factor |
| `PageRankTheorems.PowerConverges` | src/codemap/rank.ts:85-112 | The loop exits through the epsilon test once the damping's power is small enough |
| `PageRankTheorems.DefaultRunConverges` | src/codemap/rank.ts:39-41 | With the defaults 0.85, 1e-6 and 100 the loop exits through the epsilon test for every graph |
| `PageRankTheorems.ConvergedIsNearStationary` | src/codemap/rank.ts:85-112 | What a converged run returns is within damping/(1-damping) times epsilon of any stationary vector |
| `PageRankTheorems.StationaryUnique` | src/codemap/rank.ts:85-112 | There is at most one stationary vector |
| `PageRankTheorems.TeleportMass` | src/codemap/rank.ts:43-66 | The teleport vector sums to 1 if and only if it is the uniform one or no personalization weight lies outside the nodes |
| `PageRankTheorems.RankIsDistribution` | src/codemap/rank.ts:29-114 | For proper graphs, distinct keys and non-negative weights the result is a probability distribution, for every damping in [0,1], epsilon and iteration count, if and only if no weight is lost: not both a personalized node and weight outside the nodes |
| `PageRankTheorems.WeightIsLost` | src/codemap/rank.ts:43-66 | One weight on the only node and one elsewhere: the ranks do not add up to 1 |
| `PageRankTheorems.PowerStaysBelow` | src/codemap/rank.ts:85-112 | A total below 1 stays below 1 |
| `PageRankTheorems.DefaultRunIsAccurate` | src/codemap/rank.ts:29-114 | A default run is within epsilon times 17/3 of any stationary ranks |
| `Stationary.Solution` | src/codemap/rank.ts:85-112 | Every linear system whose columns are non-negative and add up to less than 1 has a solution, found by elimination; it is non-negative when the right-hand side is |
| `Stationary.StepIsLinear` | src/codemap/rank.ts:85-112 | An iteration is such a system: what restarts, and a matrix of what a unit of mass at each node sends to each other |
| `Stationary.MovedShrinks` | src/codemap/rank.ts:85-112 | No entry of that matrix is negative and its columns add up to at most the damping, dangling nodes included |
| `Stationary.StationaryExists` | src/codemap/rank.ts:85-112 | There is exactly one stationary vector, with no negative entry and a total of at most 1; on a proper graph it is a probability distribution |
| `Stationary.DefaultRunIsNearTheOne` | src/codemap/rank.ts:29-114 | On every weighted graph the ranks of a default run are within epsilon times 17/3 of the one stationary vector |
| `Neighborhood.BuildAdjacency` | src/codemap/search.ts:4-18 | The adjacency lists of allowed edges between known nodes, in edge order |
| `Neighborhood.TargetsAreChosen` | src/codemap/search.ts:11-16 | A node's list is the targets of exactly the edges out of it whose kind is allowed, in edge order |
| `Neighborhood.Dfs` | src/codemap/search.ts:20-40 | The stack loop finds what the specification search finds, in order |
| `Neighborhood.FoundIsSound` | src/codemap/search.ts:20-40 | At every depth the result holds the start, no duplicates, and nothing farther than the depth |
| `Neighborhood.ShallowIsExact` | src/codemap/search.ts:20-40 | Up to depth 2 exactly the nodes within that distance are found |
| `Neighborhood.DeepMisses` | src/codemap/search.ts:20-40 | For every depth of 3 or more, a graph in which a node within the depth is missed |
| `Neighborhood.ExactDepths` | src/codemap/search.ts:20-40 | The search is exact on every graph if and only if the depth is at most 2 |
| `Neighborhood.ExpandNeighborhood` | src/codemap/search.ts:96-114 | The union of the forward and backward searches of all anchors, in insertion order |
| `Neighborhood.NeighborhoodIsSound` | src/codemap/search.ts:96-114 | Everything returned is an anchor or within the depth of one, forward or backward |
| `Neighborhood.NeighborhoodIsExact` | src/codemap/search.ts:96-114 | Up to depth 2 exactly these nodes are returned |
| `Neighborhood.SurroundingsAreFirstSeen` | src/codemap/search.ts:108-113 | The expansion is in the order of first appearance: the anchors, then anchor by anchor what is ahead and what is behind |
| `AnchoredRank.BuildBothAdjacency` | src/codemap/search.ts:54-70 | Forward and backward lists and the outgoing edges of each node |
| `AnchoredRank.CollectSubEdges` | src/codemap/build.ts:45-56 | The edges inside the subgraph, from the index or from the whole list |
| `AnchoredRank.AnchoredPageRank` | src/codemap/build.ts:28-64 | The plain and the prebuilt path compute the ranks of the sliced, boosted subgraph, and without anchors those of the whole graph |
| `AnchoredRank.AnchoredIsDistribution` | src/codemap/build.ts:28-64 | For every graph of non-negative weights, every depth and boost, the result is a probability distribution over the ranked nodes if and only if there are any: the subgraph, which starts with the first anchor and is empty only for a size of 0, or without anchors the whole graph, when it is proper |
| `AnchoredRank.PathsAgree` | src/codemap/build.ts:45-56 | The prebuilt path ranks exactly as the plain one, although it meets the edges in another order |
| `AnchoredRank.AnchoredIsRanking` | src/codemap/build.ts:28-64 | A query ranks the first `maxSubgraph` nodes of the neighbourhood, along exactly the edges with both ends among them, with weight 10 on exactly the boosted ones |
| `AnchoredRank.UnanchoredIsRanking` | src/codemap/build.ts:35-35 | Without anchors it ranks the whole graph without weights, in at most 100 rounds |
| `HeatPairs.CollectPairs` | src/codemap/heat.ts:25-36 | The loop over the edges keeps, per unordered pair, the largest weight (`HeatPairs.PairsAreConductances`) |
| `HeatPairs.GraphPairsAreExact` | src/codemap/heat.ts:25-42 | Each joined pair appears once, smaller index first, with its maximal conductance, and nothing else does; the joins are told by the edges in `HeatPairs.PairsAreConductances` |
| `HeatPairs.PairsAreConductances` | src/codemap/heat.ts:25-42 | Told by the keys and edges: a pair with a weight appears if and only if some edge has these two nodes as its ends, in either order, and the weight is the largest of such edges, or 0 when none is positive |
| `HeatPairs.ConductancesAreUndirected` | src/codemap/heat.ts:28-36 | Direction, order and repetition of the edges do not matter |
| `HeatCsr.BuildHeatCsr` | src/codemap/heat.ts:24-57 | The arrays are a compressed-row form of exactly these conductances: the cells of a row are the nodes joined to its node, each once with the conductance, and its degree is their sum |
| `HeatCsr.FillRows` | src/codemap/heat.ts:46-53 | Filling through the cursors lays every row in its own slots, in pair order, and the rows partition the arrays |
| `HeatCsr.Degrees` | src/codemap/heat.ts:54-55 | Each degree is the sum of the weights of the node's pairs |
| `HeatCsr.LaidGrows` | src/codemap/heat.ts:50-53 | Writing behind one row leaves every other row alone |
| `Chebyshev.ApplyNegP` | src/codemap/heat.ts:60-73 | The loops compute the operator on the conductance graph |
| `Chebyshev.RowIsDense` | src/codemap/heat.ts:60-73 | Walking a stored row is multiplying by the whole row of the dense matrix |
| `Chebyshev.DenseIsConductance` | src/codemap/heat.ts:24-57 | The dense matrix holds each conductance on both sides of the diagonal |
| `Chebyshev.DenseIsZero` | src/codemap/heat.ts:24-57 | It is 0 where no pair joins the nodes |
| `Chebyshev.DenseIsLargest` | src/codemap/heat.ts:24-57 | For distinct keys, the entry at two nodes is the largest weight of an edge between just these, 0 at least, and 0 without one and on the diagonal |
| `Chebyshev.OperatorIsDense` | src/codemap/heat.ts:60-73 | The operator, entry by entry: minus the dense matrix between the inverse roots |
| `Chebyshev.CellsAreEnds` | src/codemap/heat.ts:50-53 | A sum over all stored cells is the sum over the pairs, each seen from both ends |
| `Chebyshev.SelfAdjoint` | src/codemap/heat.ts:60-73 | The operator is self-adjoint |
| `Chebyshev.FormIsBounded` | src/codemap/heat.ts:3-10 | Its quadratic form never exceeds the squared norm |
| `Chebyshev.SpectrumIsBounded` | src/codemap/heat.ts:3-10 | Every eigenvalue of M lies in [-1, 1], as the expansion requires |
| `Chebyshev.RootDegreesAreStationary` | src/codemap/heat.ts:3-10 | The square roots of the degrees are an eigenvector for -1: the bound is attained |
| `Chebyshev.IsolatedGoesToZero` | src/codemap/heat.ts:63-71 | An isolated node gets 0 |
| `Chebyshev.OperatorIsUndirected` | src/codemap/heat.ts:22-36 | Two edge lists of the same undirected graph have the same degrees and the same operator |
| `Chebyshev.ComputedOperator` | src/codemap/heat.ts:60-73 | With the inverse roots the loop computes, the operator is self-adjoint, bounded by the norm and 0 at isolated nodes |
| `Chebyshev.ComputedSpectrum` | src/codemap/heat.ts:60-73 | Its eigenvalues lie in [-1, 1] |
| `Chebyshev.ChebyshevVectors` | src/codemap/heat.ts:118-131 | Each computed vector is the Chebyshev polynomial of M applied to the seeds |
| `Chebyshev.ChebIsLinear` | src/codemap/heat.ts:118-131 | Every Chebyshev vector is linear in the seeds |
| `Chebyshev.ChebOnEigenvector` | src/codemap/heat.ts:118-131 | On an eigenvector the recurrence multiplies by the Chebyshev polynomial of its eigenvalue |
| `Chebyshev.PolynomialIsPowers` | src/codemap/heat.ts:117-131 | In closed form: at the mean of a number and its inverse, the k-th polynomial is the mean of their k-th powers |
| `Chebyshev.VectorsAreStable` | src/codemap/heat.ts:118-131 | That factor stays within [-1, 1] for every number of terms, so nothing is amplified |
| `Chebyshev.ChebKeepsStationaryPart` | src/codemap/heat.ts:118-131 | The component along the stationary direction only changes sign from one vector to the next |
| `RenderHeat.CollectCandidates` | src/codemap/render-heat.ts:58-67 | The lit nodes neither excluded nor disclosed, and how many disclosed ones were passed over |
| `RenderHeat.Tiers` | src/codemap/render-heat.ts:72-91 | Hot and warm candidates get a line and an id in order, the others are counted per file in order of appearance |
| `RenderHeat.GlowsAreExact` | src/codemap/render-heat.ts:72-91 | The counts account, file by file, for every capped candidate without a line, and with the lines for every capped one |
| `RenderHeat.SceneIsAccounted` | src/codemap/render-heat.ts:72-97 | Whatever the sorts do, every capped candidate is accounted for once, no count is empty, and something remains behind every proper prefix of the items |
| `HeatText.SceneIsSpelled` | src/codemap/render-heat.ts:51-98 | Told by the field: the nodes shown are the first in sort order of those with a five-hundredth of the greatest heat, each in a line that names its place if it has a fiftieth, with its signature from three tenths on, and in the count of its file otherwise |
| `HeatText.FitsExactly` | src/codemap/render-heat.ts:4-4 | A text fits a budget when it has at most four characters to the token |
| `HeatText.TextIsSpelled` | src/codemap/render-heat.ts:94-107 | The text of a prefix: the header, the items, and a footer with the number of nodes without a line of their own |
| `RenderHeat.FitPrefix` | src/codemap/render-heat.ts:109-120 | The binary search returns the longest prefix of items within the budget, or -1 when none is |
| `RenderHeat.TextGrows` | src/codemap/render-heat.ts:99-107 | While a footer is present, the text of a longer prefix is no shorter, although its footer may lose a digit |
| `RenderHeat.RenderHeatField` | src/codemap/render-heat.ts:46-127 | Text, tokens, counts, flag and revealed ids of the rendering as a function of the inputs and the longest prefix that fits |
| `RenderHeat.TruncatedExactly` | src/codemap/render-heat.ts:58-127 | Some lit node is in no line and no count exactly when more are lit than the cap or not all items fit. The flag says so, except exactly when more are lit than the cap and all items fit, or there are only glow lines and neither all of them nor the text without any fits; then it is false |
| `RenderHeat.ToldSome` | src/codemap/render-heat.ts:74-97 | A prefix of the items tells of every capped node exactly when it is all of them |
| `RenderHeat.CapHidesNodes` | src/codemap/render-heat.ts:70-72 | More equally hot nodes than the cap and room for the capped ones: the flag is false and the others are missing |
| `RenderHeat.SecondIsHidden` | src/codemap/render-heat.ts:70-72 | Two such nodes, a cap of one and any budget that holds one line |
| `RenderHeat.NoLinesMeansCool` | src/codemap/render-heat.ts:76-84 | There are only glow lines exactly when every capped candidate is below the warm tier |
| `RenderHeat.FlagCanBeWrong` | src/codemap/render-heat.ts:121-126 | A disclosed hot node, a faint one and a header that takes the whole budget: the flag is false and the faint one is missing |
| `Steer.SteerReader.Poll` | src/worker.ts:269-345 | A poll with its buffers, offset and skip flag is the poll without them: nothing is lost between chunks |
| `Steer.SteerReader.Consume` | src/worker.ts:289-312 | An oversized line is dropped to its end without damage to the next one |
| `Steer.SkipFirst` | src/worker.ts:290-295 | Dropping the rest of a line that is too long drops no command |
| `Lines.LinesAreSplit` | src/worker.ts:296-314 | The lines and the rest are the only way to split the bytes at newlines, with `Lines.SplitIsOne` |
| `Lines.SplitIsOne` | src/worker.ts:296-314 | No other lines and rest put together give the bytes |
| `Steer.PollIsExact` | src/worker.ts:269-318 | Told by the bytes: a poll reads at most 256 KiB behind what was seen, or the shrunken file anew, and passes on the first 256 of the lines it completes whose text takes at most 64 KiB and is not blank |
| `Steer.RunDelivers` | src/worker.ts:269-345 | However appends and reads fall, what was forwarded is a subsequence of the commands of what was read, in order, and all of them if and only if no poll completes more than 256 |
| `Steer.BurstLosesOne` | src/worker.ts:313-315 | One poll of a file of 257 one-letter lines forwards 256 |
| `Steer.PollCatchesUp` | src/worker.ts:285-288 | A poll within one chunk of the end leaves nothing unread |
| `Lifecycle.ManagedRun.DrainLifecycle` | src/agents/one-shot-manager.ts:1178-1225 | A drain hands the newly completed lines on, keeps the unfinished one, and keeps usage and ledger equal to what the lines give |
| `Lifecycle.ManagedRun.OnTokenUsage` | src/agents/one-shot-manager.ts:1245-1257 | A payload is added to the emitted usage and to the ledger |
| `Lifecycle.ManagedRun.Settle` | src/agents/one-shot-manager.ts:1129-1176 | Settling drains once more, gives the permit back exactly once, and records the gap; settling again does nothing |
| `Lifecycle.DrainIsExact` | src/agents/one-shot-manager.ts:1178-1200 | Told by the bytes: a drain splits what was left over and what is new, and gives up a rest of more than 64 KiB unless a line came before it |
| `Lifecycle.LedgerIsChosen` | src/agents/one-shot-manager.ts:1227-1257 | The ledger has an entry, with the four counts added up and the cost, for exactly the payloads with a token or a cost, in order |
| `Lifecycle.SettledAddsGap` | src/agents/one-shot-manager.ts:1259-1271 | Settling adds what each component of the final usage is above the total, when there is a token or a cost of it |
| `Lifecycle.DrainsAreOnce` | src/agents/one-shot-manager.ts:1178-1225 | However the lines are split between drains, each complete line is handed on exactly once and whole, and the unfinished one kept, if and only if no drain finds an unfinished line grown too long and nothing after it |
| `Lifecycle.ShortLinesAreKept` | src/agents/one-shot-manager.ts:1193-1198 | When every line of the file, and its unfinished rest, is at most 64 KiB long, no drain of any parts of it gives a line up |
| `Lifecycle.SettledLedger` | src/agents/one-shot-manager.ts:1227-1271 | The token total of a settled run is the sum over components of the larger of streamed and final, exactly when no payload of negative tokens was skipped |
| `Lifecycle.SkippedCorrection` | src/agents/one-shot-manager.ts:1232-1232 | A payload of minus one token: the ledger reads one token where the larger usage is none |
| `Lifecycle.SettledLedgerIsFinal` | src/agents/one-shot-manager.ts:1259-1271 | It is the final usage whenever the stream does not exceed it |
| `Lifecycle.LedgerOfRun` | src/agents/one-shot-manager.ts:1129-1271 | Both together, for any sequence of drains of a growing file that gives no line up |
| `LogTail.CompleteRecords` | src/log-tail.ts:28-48 | The scan of a buffer finds the lines that start in it, with their offsets, blank lines left out |
| `LogTail.RecordsAreLines` | src/log-tail.ts:28-48 | Told by the bytes: the lines of a file are all those with something besides a carriage return, in order, each with the bytes between its offset and the newline, return and newline, or end that follows |
| `LogTail.SameLines` | src/log-tail.ts:28-48 | There is only one such list |
| `LogTail.ReadBack` | src/log-tail.ts:63-80 | Reading backward in chunks yields the window from the specified start to the page's end |
| `LogTail.ReadPage` | src/log-tail.ts:51-105 | Of any file, a page is the last lines before `before` that start in the window, each the bytes of the file at its offset up to the newline or the return before it (`LogTail.LastLines`), at most `limit` of them, and it says there are none only when it shows all or nothing; `hasMore` is true exactly when it shows a line and its window shows more of them or does not start the file; without blank lines an uncapped page is the last `limit` lines and `hasMore` is true exactly when an earlier line exists |
| `LogTail.MoreIsTrue` | src/log-tail.ts:96-104 | For any file, `hasMore` says truly whether there are earlier lines, except exactly on a page without a line while there are some, and on a page with every line whose window does not start the file |
| `LogTail.BlankHeadSaysMore` | src/log-tail.ts:63-104 | One line after more blank lines than a read takes: the page has it, and says that there are more |
| `LogTail.PageIsRight` | src/log-tail.ts:82-104 | The lines of a window that starts the file, holds more newlines than the limit, or reaches the cap make a right page, with the right `hasMore` and `before` |
| `LogTail.ChainedPagesAreTheFile` | src/log-tail.ts:51-105 | Chained pages give every line exactly once and in order, whatever the limit, the cap and the chunk size |
| `LogTail.ReadAll` | src/log-tail.ts:51-105 | Reading page after page ends with the last lines of the file, each with its text, and with all lines that have one if and only if paging never meets a window in which no line starts |
| `LogTail.BlankFreeIsCovered` | src/log-tail.ts:51-105 | Without blank lines, and with lines that fit the cap, it never does |
| `LogTail.BlankTailIsNotCovered` | src/log-tail.ts:93-96 | A line followed by more blank ones than a read takes is never read |
| `TraceRecorder.TruncateUtf8` | src/audit/trace.ts:109-121 | The binary search keeps the longest prefix of code units whose bytes fit |
| `TraceRecorder.PrefixGrows` | src/audit/trace.ts:114-119 | Byte length is strictly monotone in the prefix, even inside a surrogate pair |
| `TraceRecorder.TruncatedFits` | src/audit/trace.ts:109-121 | The result is within the bound if and only if nothing was cut or the bound has room for the suffix |
| `TraceRecorder.TruncatedIsCut` | src/audit/trace.ts:109-121 | A cut text is the longest beginning that fits beside the 14 bytes of an ellipsis and `[truncated]`, and these |
| `TraceRecorder.LexicalIdentity` | src/audit/trace.ts:350-357 | Provider and action are the two sides of the first dot, when neither is empty |
| `TraceRecorder.SplitExactly` | src/audit/trace.ts:350-357 | A reference is split exactly when its first dot has something on either side |
| `TraceRecorder.IssuedIdentity` | src/audit/trace.ts:350-357 | A new call has as provider and action what is before and behind the first dot of its reference, each cut to 1024 bytes, when there is something on either side, and none otherwise |
| `TraceRecorder.FinishedFacts` | src/audit/trace.ts:492-516 | After sealing every operation has an outcome, a timed-out run leaves none aborted, every failure carries an error, and sealing again changes nothing |
| `TraceRecorder.SealedOutcome` | src/audit/trace.ts:492-501 | An operation keeps its outcome, but for an open one, which times out or is aborted with the run and fails otherwise, and an aborted one, which times out with the run |
| `TraceRecorder.SealedError` | src/audit/trace.ts:502-513 | Unless it succeeded, or is a failed `pi.bash` call with a message, its error is the message of its outcome and stage, spelled out |
| `TraceRecorder.MutableOperation.Finish` | src/audit/trace.ts:492-516 | One round of the sealing loop |
| `TraceRecorder.TraceRecorder.IssueCall` | src/audit/trace.ts:465-484 | A call is recorded under its sequence number, or counted as dropped when the list is full or sealed; recorded and dropped always add up to the calls issued |
| `TraceRecorder.TraceRecorder.Seal` | src/audit/trace.ts:486-628 | The sealed trace is the whole trace cut down as little as possible, and each of its operations has the fields of the recorded one, but for arguments or a result given up (`TraceRecorder.IsSealed`) |
| `TraceRecorder.OperationHandle.Resolved` | src/audit/trace.ts:389-406 | Bounded provider and action, risk and effect, and the count of newly cut identifiers; nothing once sealed or dropped |
| `TraceRecorder.OperationHandle.Prepared` | src/audit/trace.ts:408-411 | New arguments; nothing once sealed or dropped |
| `TraceRecorder.OperationHandle.Succeed` | src/audit/trace.ts:413-423 | Outcome and result, or a count for one that cannot be shown; nothing once sealed or dropped |
| `TraceRecorder.OperationHandle.Fail` | src/audit/trace.ts:425-449 | Stage, bounded message, outcome and result; the cause of a failed bash invocation only; nothing once sealed or dropped |
| `TraceRecorder.FailureIsRecorded` | src/audit/trace.ts:425-449 | The message says how the call failed, in these words, with the cause for a failed invocation of `pi.bash` only; provider, action, risk, effect and arguments stay |
| `TraceRecorder.ResultIsRecorded` | src/audit/trace.ts:413-423 | A success records its projected result, or counts one that cannot be shown; error, stage and arguments stay |
| `TraceRecorder.SealedFields` | src/audit/trace.ts:522-541 | Field by field: sequence, reference, provider, action, risk, effect, outcome, stage and error are those of the recorded operation, arguments and result too or given up, and in a trace that fits nothing is given up |
| `TraceRecorder.WholeCounts` | src/audit/trace.ts:516-553 | Every value lost, cut or redacted on the way to the trace is in its counts, and so are the phases beyond 512 |
| `TraceRecorder.NewlyCutIs` | src/audit/trace.ts:396-403 | A resolved identifier counts exactly when it is longer than 1024 bytes and its cut is not already there |
| `TraceRecorder.WholePhases` | src/audit/trace.ts:542-562 | The phases are the first 512, each cut to 1024 bytes, and the error says how the run ended |
| `TraceRecorder.SealedTraceAccountsForCalls` | src/audit/trace.ts:517-628 | The operations of a sealed trace are the first calls issued, in order, each with its outcome and, with `TraceRecorder.SealedFields`, its fields; with the dropped ones they account for every call |
| `TraceRecorder.SealedTraceFits` | src/audit/trace.ts:564-627 | The sealed trace is within 512 KiB, whatever was recorded, as long as its counts have at most sixteen digits |
| `TraceSize.SizeMoves` | src/audit/trace.ts:564-576 | How the serialized size changes when phases, operations and counts do |
| `TraceSize.ListIsPrinted` | src/audit/trace.ts:107-107 | The size of a printed list is the sum of its items and commas |
| `TraceSize.ShedParts` | src/audit/trace.ts:577-612 | The first two loops give up results, then arguments, from the end and no further than needed; the running byte count equals the serialized size after every step |
| `TraceSize.PopOperations` | src/audit/trace.ts:613-620 | The third loop keeps the most operations that fit, with the byte count still exact |
| `TraceSize.PopPhases` | src/audit/trace.ts:621-627 | The fourth loop likewise for phases |
| `TraceSize.CutToSize` | src/audit/trace.ts:564-627 | All four loops together |
| `TraceSize.CutKeeps` | src/audit/trace.ts:564-627 | What is left is a prefix, every loss is counted, the trace fits unless both lists are empty, and a trace that fits is unchanged |
| `TraceSize.CountsAreExact` | src/audit/trace.ts:576-627 | Every result, argument list, phase and operation given up is counted once under its heading, and nothing else is |
| `TraceSize.OperationIsSerialized` | src/audit/trace.ts:527-540 | The serialized operation: its members by name, the empty and absent ones left out |
| `TraceSize.TraceIsSerialized` | src/audit/trace.ts:554-562 | The serialized trace: its members by name |
| `TraceSize.EmptyTraceFits` | src/audit/trace.ts:554-563 | With both lists empty the trace fits |
| `Semaphore.Semaphore.Acquire` | src/agents/semaphore.ts:16-39 | Grants while permits are left, waits otherwise, refuses an aborted signal |
| `Semaphore.Semaphore.OnAbort` | src/agents/semaphore.ts:29-35 | A waiter is removed and rejected; anyone else is left alone |
| `Semaphore.Semaphore.CallRelease` | src/agents/semaphore.ts:41-56 | A permit passes to the first waiter or is freed; a second release does nothing |
| `Semaphore.RunKeeps` | src/agents/semaphore.ts:8-57 | Every interleaving of acquire, abort and release keeps the invariant |
| `Semaphore.FairAndBounded` | src/agents/semaphore.ts:8-57 | Outstanding permits equal the active count and never exceed the limit, waiters exist only at the limit, grants are first in first out, and no aborted request is granted |
| `Semaphore.ArrivalMeans` | src/agents/semaphore.ts:16-39 | A request is refused when it comes aborted, gets a permit while fewer than the limit are out, and waits at the end of the queue otherwise |
| `Semaphore.AbortMeans` | src/agents/semaphore.ts:29-35 | Aborting takes a waiting request out of the queue, and does nothing to any other |
| `Semaphore.NobodyIsRefused` | src/agents/semaphore.ts:8-57 | In every run a request that came is granted, or waiting while all permits are out, or was aborted |
| `Semaphore.ReleaseOnce` | src/agents/semaphore.ts:41-56 | A release gives one permit back exactly once |
| `Semaphore.AbortedStaysAborted` | src/agents/semaphore.ts:16-39 | An aborted request is never granted afterwards |
| `CompactControl.EveryRun` | src/agents/compact-control.ts:40-178 | In every run: one request in flight, one close at most, queued requests are attempts plus coalesced plus pending, every attempt but the one in flight has finished, and a settled child's control is closed or busy |
| `CompactControl.CloseIsClean` | src/agents/compact-control.ts:138-178 | The close comes with nothing in flight or pending, and nothing happens after it |
| `CompactControl.LatestIsSent` | src/agents/compact-control.ts:56-136 | In every run, what is sent carries the instructions of the latest queueing, and so does what is pending |
| `CompactControl.QueueMeans` | src/agents/compact-control.ts:56-72 | Queueing sends at once exactly when the child has settled and nothing is in flight, and otherwise notes the request, an empty instruction as none, in place of the pending one |
| `CompactControl.SettleMeans` | src/agents/compact-control.ts:74-79 | Settling sends what is pending, closes when nothing is, and waits with a request in flight |
| `CompactControl.OverWhenBothCame` | src/agents/compact-control.ts:81-109 | The request in flight is over exactly when its response and an end have both come, or the response is a refusal; it failed when it was refused or an end came with an error |
| `CompactControl.OrderDoesNotMatter` | src/agents/compact-control.ts:81-109 | The response and the end of a compaction may arrive in either order |
| `CompactControl.ChildCompactControl.Queue` | src/agents/compact-control.ts:56-72 | Queueing replaces a pending request and starts one when the child has settled |
| `CompactControl.ChildCompactControl.OnChildSettled` | src/agents/compact-control.ts:74-79 | Settling starts the pending request or closes |
| `CompactControl.ChildCompactControl.ObserveFrame` | src/agents/compact-control.ts:81-109 | Frames of the request in flight, and no others, move it on |
| `CompactControl.ChildCompactControl.Start` | src/agents/compact-control.ts:111-136 | A request is sent once; a send that throws fails it |
| `CompactControl.ChildCompactControl.FinishRequest` | src/agents/compact-control.ts:144-157 | A finished request makes room for the pending one or closes |

## Left out

- Floating-point rounding: all arithmetic is over reals; `Math.sqrt` enters the heat operator as a given inverse square root per degree.
- The heat coefficients, `besselI` and `gammaLn`, and the final weighted sum `heatField`: accuracy of logarithms and exponentials.
- Numbers of a parsed JSON text are kept as their tokens; that a token reads as the double 1, or as a finite double, is decided on its exact decimal value.
- The order of integer-like keys in a host object: members keep their textual order.
- Texts of error messages of the strict parser and the decoder: only their codes.
- White space for `trim` and the canonical form is the fixed set of the language standard; the decoding of a steering line is given by the size of its text, which is never below its bytes, and by whether it is blank.
- Log and lifecycle lines are byte sequences: `JSON.parse` of a line, the steering command it holds and the child's stdin are not modelled; a usage payload is a given function of its line.
- A file that shrinks makes `pollSteer` and the drain start over; what such a file held before is not related to what it holds now.
- Failing opens, reads and writes, short reads, timers, and the worker's terminal status.
- Steer.RunDelivers: says nothing of a file rewritten in place with the same or a larger size, which the reader cannot notice.
- Lifecycle.LedgerOfRun: supposes that no drain gives an unfinished line up; what is parsed from the damaged rest of one is not modelled.
- The ledger's cost total: cost entries follow the same rules, and only tokens are summed.
- `usageCheckpoints`, `estimateTokens`, the context messages of an entry and the event projection: checkpoints, token counts, ids and section lines are inputs.
- The rest of the compaction details record, the enrichers, and how section lines are projected: a cut is given its source of sections and options, or none.
- Semaphore.Semaphore.constructor: the exception for a limit below 1 is a precondition.
- `computeEdgeWeight`, `searchSymbols`, cyclomatic and other edge sources: they would only add easy members.
- A negative `maxSubgraph` or `maxCandidates`, for which a slice counts from the end.
- The comparison of render nodes, which uses `localeCompare`: the sort is any rearrangement of its input, and the stable sort of the pairs by their first index is a function.
- Projection, redaction and bounding of the values in a trace (`sanitize`, `projectFabricAuditArgs`, `projectFabricAuditResult`, `truncateUtf8Middle`): the recorder takes sanitized values and their counts.
- TraceRecorder.OperationHandle.Fail: takes the cause of a failure as given.
- Status publishing and timestamps of the compaction control, and hooks that call back in.
- Host wiring, user interface, processes, git, configuration, `run/context.ts`, `fabric_exec` persistence and the activity store.
