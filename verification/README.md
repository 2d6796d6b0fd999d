# reviewHive, modelled and proved

reviewHive reviews pull requests.  Reviewers written as prompts report findings on a diff; the service
clusters them, checks their locations, has a critic and a merge pass judge them, ranks what is left and
posts it as one GitHub review.  This project models the deterministic half of that: everything that decides
what a model's answer may do.  The answers themselves (findings, verdicts, merge decisions, classified
mentions) and every external call (GitHub, the store, the graph) are arbitrary, and the theorems say what
holds for all of them.

Check it with `dafny verify dfyconfig.toml`.

## The three parts

**The finding pipeline.**  `Text` and `Titles` (paths and titles), `Dedupe` and `Repeats` (greedy clustering),
`Anchors`, `Critic` and `CriticRun`, `UnionFind`, `LlmMerge`, `MergeClasses`, `MergeAnswers`, `AnswerOrder` and
`SharedClass`, `Ranking` and `PostOrder`, and `Pipeline`, which composes them as `finalize` does.  Each stage is a
method in the source's imperative form, proved equal to a specification function, and the theorems are about the
functions; those about a stage's decisions are stated on its inputs, without naming the function's own parts.
`Provenance` says what it means for one finding to stand for others; `Fates` carries that through the five
stages, so that every reported finding has exactly one fate and every posted finding is exactly the findings it
stands for.  `Safety` proves that GitHub is never sent a comment outside the diff when the diff's paths allow it,
`Reports` and `SafetyExactly` that it can be whenever they do not, and `EndToEnd` carries both safety and evidence
back to the diff as parsed.

**The diff.**  `Diff` (numbering, anchors, snapping, truncation) and `Gutters` (what is printed), `Windows` and
`Evidence` (what a claim is shown), `Entries` (splitting a diff that does not parse), `Fitting` and `Budget` (what
is left out of the prompt, and how that is disclosed), `Pricing`.

**The review row.**  `Lifecycle` is the row with its writes, `Jobs` and `Mentions` are the two background jobs
over it, `JobSafety` and `MentionSafety` what holds over every outcome of their calls, `JobEnds` and `MentionEnds`
what each outcome leaves behind.  A write may take effect and still be reported as failed.  `Webhook` is the table
of rows under any interleaving of deliveries, with the request handlers as the uninterrupted case (`Requests`);
`RowSteps` ties the two together, a job's changes of its row being steps of the table, and `Deliveries` counts the reviews that reach GitHub.

`Models` and `Sequences` hold the shared entities and the facts about sequences the rest is built from.

## Where the code is not what its comments say

Stated as theorems, each with the exact condition:

- Anchor safety needs diff paths that lead back to themselves under `normalize_path`
  (`SafetyExactly.SafeExactlyWhenPathsLeadBack`).  A directory called `a` at the root of the repository breaks it
  (`SafetyExactly.DirectoryNamedLikeAPrefix`).
- `normalize_path` is not idempotent (`Text.NormalizedNotIdempotent`, `Text.NormalizedTwice`), and neither is
  `collapse` (`Repeats.CollapseNotIdempotent`, `Repeats.IdempotentExactly`).
- The comment at src/reviewhive/graph/llm_merge.py:214 promises the input order; the output is ordered by root
  (`MergeClasses.OutputOrderIsByRoot`, `MergeAnswers.InputOrderKeptExactly`), and a root can be in the middle of
  its class.
- Sources are disjoint in every pair asked about, not in every class (`SharedClass.ClassCanShareAnAgent`,
  `MergeAnswers.NeverSharesExactly`).
- "Always reaches a terminal status" is false of the review job (`JobSafety.SettledExactly`), and a mention's
  row can go from `succeeded` to `failed` (`MentionSafety.NeverLeavesTerminalExactly`,
  `MentionSafety.ASuccessCanBeLost`).
- Nothing but timing keeps one commit from being reviewed twice (`Webhook.OneLiveReviewExactly`,
  `Webhook.TheRaceReviewsTwice`), and a row whose insert is reported as failed although it was written is
  never reviewed (`Webhook.UnreportedIsNeverReviewed`, `Webhook.StrandedExactly`).

## Model

| member | source | states |
|---|---|---|
| Text.NormalizePath | src/reviewhive/graph/dedupe.py:65-72 | the loop computes the specified key: forward slashes, leading `./` dropped repeatedly, one `a/` or `b/` dropped |
| Text.StripsSpaces | src/reviewhive/graph/dedupe.py:67 | `strip` takes away exactly the spaces at the two ends |
| Text.NormalizedDrops | src/reviewhive/graph/dedupe.py:65-72 | of the stripped path with forward slashes, `./` goes as often as it stands in front, then one `a/` or `b/`, and nothing else |
| Text.NormalizedFixpoint | src/reviewhive/graph/dedupe.py:65-72 | a path is its own key exactly when it has no surrounding space, backslash, leading `./` or diff prefix |
| Text.NormalizedTwice | src/reviewhive/graph/dedupe.py:65-72 | a second pass changes the key exactly when a space follows what the first one drops, or a dropped `a/` or `b/` hides another `./`, `a/` or `b/` |
| Text.NormalizedNotIdempotent | src/reviewhive/graph/dedupe.py:65-72 | a path nested in `a/` and `b/` takes two passes to settle |
| Titles.TokensAre | src/reviewhive/graph/dedupe.py:75-77 | a title's tokens are the maximal runs of word characters of its joined lower-case form that are not filler |
| Titles.HyphenMakesNoDifference | src/reviewhive/graph/dedupe.py:40-46 | a hyphen between two letters or digits, anywhere in a title, changes none of its tokens |
| Titles.NothingToJoin | src/reviewhive/graph/dedupe.py:40-46 | a title without such a hyphen is not changed by joining |
| Titles.CaseMakesNoDifference | src/reviewhive/graph/dedupe.py:75-77 | a capital letter and its small one give the same tokens |
| Titles.SimilarityIs | src/reviewhive/graph/dedupe.py:80-83 | similarity is at least a threshold exactly when that share of all the words is shared, and nothing is similar to a title without words |
| Dedupe.Merge | src/reviewhive/graph/dedupe.py:137-178 | the nested loops over members and their sources build the specified merged finding |
| Dedupe.MergeKeeps | src/reviewhive/graph/dedupe.py:137-185 | a merge has exactly its members' sources, once each in the order of first mention, their greatest severity and confidence, the cluster's path and their earliest line, and is not marked amended; a lone member is kept as it is |
| Dedupe.WordsOfTheSharpest | src/reviewhive/graph/dedupe.py:152-178 | title, body and category are those of the most severe member, of the surest among equally severe ones, and of the first among equally sure ones |
| Dedupe.FindTarget | src/reviewhive/graph/dedupe.py:102-113 | the search over the mutable clusters returns the first one that takes the finding, or their number |
| Dedupe.Absorb | src/reviewhive/graph/dedupe.py:100-120 | one round of the loop, on cluster objects, has the effect of one more finding on the specified groups |
| Dedupe.Collapse | src/reviewhive/graph/dedupe.py:86-122 | the whole loop over mutable clusters returns the specified clustering |
| Dedupe.FirstFit | src/reviewhive/graph/dedupe.py:100-120 | each finding joins the earliest cluster, as it stands when the finding arrives, that holds its file, a line within the tolerance (or only file-level findings, for one) and a title similar enough; and founds the next one exactly when none does |
| Dedupe.LabelsDense | src/reviewhive/graph/dedupe.py:100-122 | clusters are numbered without gaps in founding order, so none is empty and every finding is in one |
| Dedupe.CollapseClustersSound | src/reviewhive/graph/dedupe.py:100-134 | a cluster has one path, is all file-level or all anchored, and k anchored members span at most (k - 1) * tolerance lines |
| Dedupe.FoundersApart | src/reviewhive/graph/dedupe.py:100-134 | founders of different clusters are never near duplicates of each other |
| Repeats.NothingJoinsExactly | src/reviewhive/graph/dedupe.py:100-122 | every finding founds its own cluster exactly when no two are near duplicates |
| Repeats.UnchangedExactly | src/reviewhive/graph/dedupe.py:86-122 | `collapse` returns its input exactly when every path is its own key and no two findings are near duplicates |
| Repeats.IdempotentExactly | src/reviewhive/graph/dedupe.py:86-122 | for every input, a second pass changes nothing exactly when normalising twice changes no reported path and no two clusters of the first pass are near each other: one path, both file-level or their earliest lines within tolerance, their sharpest members' titles similar enough |
| Repeats.ApartEitherWay | src/reviewhive/graph/dedupe.py:125-134 | being near duplicates does not depend on which finding came first |
| Repeats.CollapseNotIdempotent | src/reviewhive/graph/dedupe.py:86-185 | equal titles at lines 13, 7 and 10 with tolerance 3 give two findings that a second pass changes |
| Ranking.RankAndCut | src/reviewhive/graph/dedupe.py:188-230 | filtering, sorting and slicing return the specified posted list and withheld count |
| Ranking.KeyLeOrders | src/reviewhive/graph/dedupe.py:213-223 | the five-part sort key is a total order in which only equal keys tie |
| PostOrder.PostedInOrder | src/reviewhive/graph/dedupe.py:206-230 | on the findings themselves: everything posted passes both floors; the more severe goes first, then the surer, then the one raised by more, then by file, line and input order; and what passes and is left out goes after everything posted |
| PostOrder.LeftOutExactly | src/reviewhive/graph/dedupe.py:206-230 | a finding is left out exactly when it fails a floor, or the cap is full and everything posted goes before it |
| PostOrder.HowManyPosted | src/reviewhive/graph/dedupe.py:206-230 | for every cap, also a negative one, how many are posted and how many are counted as withheld |
| Ranking.WithheldAccounts | src/reviewhive/graph/dedupe.py:206-230 | posted and withheld add up to the input exactly when the cap is not negative |
| Ranking.InputOrderIrrelevant | src/reviewhive/graph/dedupe.py:213-230 | permuting the input never changes the sequence of posted keys |
| Anchors.AnchorFindings | src/reviewhive/anchors.py:46-71 | the loop returns the specified report: findings, snapped, unanchored, dropped files |
| Anchors.AnchoringAccounts | src/reviewhive/anchors.py:46-71 | kept findings keep their order; kept and dropped add up to the input; with none dropped, `unanchored` is exactly how many lost their line |
| Anchors.PlacedIsLocated | src/reviewhive/anchors.py:49-69 | whatever location was reported, what comes out names a file of the diff and an anchorable line of it or none, and a located finding stays put |
| Anchors.PlacedNearest | src/reviewhive/anchors.py:63-69 | an anchored finding keeps an anchorable line; otherwise it moves to the closest added line in reach, the lower of two as close, or to the closest context line when no added one is in reach; and loses its line exactly when nothing is in reach |
| Anchors.TalliesAre | src/reviewhive/anchors.py:53-67 | `snapped` and `unanchored` count the findings moved and those that lost their line, and `dropped_files` lists the files of the dropped as they were reported |
| Anchors.LastUnderAKey | src/reviewhive/anchors.py:46 | of several files under one key the last one counts |
| Anchors.AnchoredAreLocated | src/reviewhive/anchors.py:39-71 | so every finding of the report is located |
| Critic.Collect | src/reviewhive/graph/critic.py:357-366 | the first loop keeps exactly the first verdict on each index asked about |
| Critic.Apply | src/reviewhive/graph/critic.py:331-400 | both loops: kept, retracted, amended, honoured verdicts and survivors are those of the specification |
| Critic.VerdictsAreBounded | src/reviewhive/graph/critic.py:376-451 | no verdict changes file, line, category, confidence or sources; severity only falls, only from high and only with a guard named; `amended` is set exactly when severity, title or body changed |
| Critic.VerdictsDo | src/reviewhive/graph/critic.py:368-451 | no verdict and `keep` change nothing, `drop` removes, and `amend` sets each text that is offered and not blank, stripped, and a lower severity exactly on a high finding with a guard named |
| Critic.VerdictsSelect | src/reviewhive/graph/critic.py:331-400 | for every verdict list the result is an order-preserving selection of the input, and kept plus retracted is the input |
| Critic.OnlyFirstVerdictsMatter | src/reviewhive/graph/critic.py:356-366 | two verdict lists are honoured alike exactly when each asked index gets the same first verdict, so reordering across indices changes nothing |
| Critic.ExtraVerdictIgnored | src/reviewhive/graph/critic.py:356-366 | a verdict that is unasked or repeated can be inserted anywhere without effect |
| Critic.Judgeable | src/reviewhive/graph/critic.py:154-186 | the loop with its early break returns the judgeable findings, capped after adding |
| Critic.AllJudgeableAre | src/reviewhive/graph/critic.py:171-186 | judged indices ascend, and each is an anchored finding with the file its line is anchorable in |
| Critic.AllJudgeableComplete | src/reviewhive/graph/critic.py:174-184 | before the cap, every such finding is judged |
| Critic.AskedExactly | src/reviewhive/graph/critic.py:174-184 | before the cap, exactly the findings whose line is anchorable in a file of the diff are judged |
| Critic.CapKeepsTheEarliest | src/reviewhive/graph/critic.py:182-184 | the cap keeps the earliest, and at least one |
| Critic.ByFile | src/reviewhive/graph/critic.py:510-515 | the grouping loop returns the specified groups |
| Critic.GroupsCoverTheJudged | src/reviewhive/graph/critic.py:510-515 | groups have distinct paths, hold exactly the judged indices of their path in order, and miss none |
| CriticRun.Gather | src/reviewhive/graph/critic.py:231-241 | the aggregation concatenates the verdicts and sums the calls |
| CriticRun.ReviewFindings | src/reviewhive/graph/critic.py:189-263 | with its two early returns, the pass yields the specified findings, counts, honoured verdicts, survivors and call |
| CriticRun.AnsweredExactly | src/reviewhive/graph/critic.py:210-241 | the verdicts gathered are exactly those the calls about the judged files answered |
| CriticRun.AnswersInOrder | src/reviewhive/graph/critic.py:231-233 | they are taken file by file, each file's in the order given |
| CriticRun.UnusableAnswersChangeNothing | src/reviewhive/graph/critic.py:245-247 | for every answer map that yields no verdict, the findings come back untouched |
| CriticRun.OnlyAskedFindingsChange | src/reviewhive/graph/critic.py:174-186 | only findings anchored in the diff and within the cap can be changed by any answer |
| CriticRun.EvidenceShowsTheAnchor | src/reviewhive/graph/critic.py:484-500 | every judged finding is shown its own anchor line: always in whole-file mode, and in window mode exactly when the radius is not negative |
| CriticRun.OnePathOneFile | src/reviewhive/graph/critic.py:484-485 | findings grouped under one path were all judged against the same file |
| UnionFind.Find | src/reviewhive/graph/llm_merge.py:195-199 | path halving ends, answers the root, and moves no root, in place on the parent array |
| UnionFind.HalvingKeepsForest | src/reviewhive/graph/llm_merge.py:195-199 | one halving step keeps the forest and its roots, and climbs |
| UnionFind.RootUnique | src/reviewhive/graph/llm_merge.py:195-199 | the roots are determined by the parent array alone |
| UnionFind.LinkingUnites | src/reviewhive/graph/llm_merge.py:201-208 | linking one root under another gives a forest whose roots are the two classes united |
| UnionFind.Link | src/reviewhive/graph/llm_merge.py:201-208 | the assignment, with both finds halving on the way, has that effect on the array |
| UnionFind.RootsAreTheClosure | src/reviewhive/graph/llm_merge.py:192-208 | two indices have one root exactly when a walk over the pairs connects them |
| LlmMerge.WorthAsking | src/reviewhive/graph/llm_merge.py:91-104 | the three reasons to skip a pair are the specified condition: same key, no shared agent, both file-level or close |
| LlmMerge.CandidatePairs | src/reviewhive/graph/llm_merge.py:70-110 | the double loop with its early return yields the specified pairs |
| LlmMerge.CandidatesAre | src/reviewhive/graph/llm_merge.py:70-110 | only pairs of findings of one file, without an agent in common, both file-level or within the window, are asked about, each once and in row order; and every such pair is, unless the cap was reached before it |
| LlmMerge.HonouredExactly | src/reviewhive/graph/llm_merge.py:201-208 | an edge is honoured exactly when its pair was asked about and some decision, naming it in either order, says it is the same defect |
| LlmMerge.HonouredInOrder | src/reviewhive/graph/llm_merge.py:201-208 | decisions are honoured one after another in the order given |
| Pipeline.NothingSaidNothingMerged | src/reviewhive/graph/llm_merge.py:202-203 | when every decision says "not the same", the findings come back as they were |
| LlmMerge.UniteAll | src/reviewhive/graph/llm_merge.py:192-208 | after all decisions the parent array is a forest whose roots are those of the honoured edges |
| LlmMerge.GroupByRoot | src/reviewhive/graph/llm_merge.py:210-213 | the dictionary loop collects each root's members in input order |
| LlmMerge.Apply | src/reviewhive/graph/llm_merge.py:176-218 | the whole of `_apply` returns one finding per class, ordered by root |
| MergeClasses.MergedExactlyIfConnected | src/reviewhive/graph/llm_merge.py:192-218 | two findings end in one output exactly when honoured decisions connect them |
| MergeClasses.MergedAreClose | src/reviewhive/graph/llm_merge.py:90-110 | findings that end together share a path, are both file-level or both anchored, and are within (k - 1) * window lines |
| MergeClasses.ClassesAreSound | src/reviewhive/graph/llm_merge.py:90-218 | the same for all classes at once, whatever the decisions |
| MergeClasses.UnitingKeepsSound | src/reviewhive/graph/llm_merge.py:201-208 | one union of a close pair keeps every class within its span |
| MergeClasses.OutputMembers | src/reviewhive/graph/llm_merge.py:210-218 | output j is the merge of exactly the members of one class, in input order |
| MergeClasses.OutputsAscendByRoot | src/reviewhive/graph/llm_merge.py:210-218 | two findings come out together exactly when honoured decisions connect them, and otherwise in the order of their roots |
| MergeClasses.MergingTraces | src/reviewhive/graph/llm_merge.py:210-218 | every output stands for exactly the members of its class |
| MergeClasses.MergedStandsWhere | src/reviewhive/graph/llm_merge.py:210-218 | a merged finding stands on the file and line of one of its members |
| MergeClasses.NegativeWindowMergesNothing | src/reviewhive/graph/llm_merge.py:98-104 | with a negative window no anchored finding is ever merged |
| MergeClasses.OutputOrderIsByRoot | src/reviewhive/graph/llm_merge.py:214-218 | joining the first and last of three findings puts the middle one first |
| MergeClasses.RootCanBeInTheMiddle | src/reviewhive/graph/llm_merge.py:201-208 | the root of a class need be neither its first nor its last member |
| MergeAnswers.InputOrderKeptExactly | src/reviewhive/graph/llm_merge.py:201-218 | whatever is answered, classes come out in the order of their first findings, exactly when every candidate pair is of neighbours |
| MergeAnswers.NeverSharesExactly | src/reviewhive/graph/llm_merge.py:96-97 | no answer puts two findings of one agent into one class, exactly when the candidate pairs connect no two findings of one agent |
| AnswerOrder.SamePairsSameReview | src/reviewhive/graph/llm_merge.py:192-218 | two lists of decisions that honour the same pairs merge the same findings, as a multiset, and post the same keys with the same number withheld |
| AnswerOrder.DecisionOrderIrrelevant | src/reviewhive/graph/llm_merge.py:203-210 | lists with the same decisions, in any order and with any repeats, honour the same pairs |
| SharedClass.ClassCanShareAnAgent | src/reviewhive/graph/llm_merge.py:96-97 | over any diff, three differently titled reports come through `collapse`, anchoring and the critic, and two of them, by one agent and never asked about together, end in one finding |
| Provenance.TracesCompose | src/reviewhive/graph/nodes.py:81-127 | stages that keep provenance compose to one that does |
| Pipeline.MergeFindings | src/reviewhive/graph/llm_merge.py:113-173 | with no pairs or no usable answer the findings come back as they were; a call is recorded exactly when there were pairs |
| Pipeline.Finalize | src/reviewhive/graph/nodes.py:75-153 | the five stages in order, each optional one only when enabled, yield the specified result: findings, both counts, calls, and the skipped files, truncated files and focus as handed in |
| Fates.PostedStandForRaw | src/reviewhive/graph/nodes.py:81-127 | each posted finding's sources and confidence are exactly the union and maximum of the reported findings it stands for, its severity at most their maximum and equal to it when the critic is off |
| Fates.FateIsTheTrace | src/reviewhive/graph/nodes.py:81-127 | a reported finding is represented in exactly one posted finding or dropped at one stage, and stays dropped |
| Fates.UnknownFileExactly | src/reviewhive/anchors.py:49-57 | a finding is dropped for its file exactly when the diff has none under the twice normalised path |
| Fates.MovesByFive | src/reviewhive/anchors.py:24-69 | anchoring moves a line by at most five, and drops it exactly when no anchorable line of the file is within five |
| Fates.RetractedExactly | src/reviewhive/graph/critic.py:376-384 | a finding is retracted exactly when an honoured `drop` is on the anchored finding that represents it, and that one was asked about |
| Fates.WithheldExactly | src/reviewhive/graph/dedupe.py:206-230 | a finding is withheld exactly when what represents it fails a floor or ranks below everything posted under a full cap |
| Fates.CountsAddUp | src/reviewhive/graph/nodes.py:81-127 | the counts of the result add up stage by stage, and skipped files, truncated files and focus are those handed in |
| Fates.CallsExactly | src/reviewhive/graph/nodes.py:94-121 | the calls recorded: the reviewers', the critic's exactly if it is enabled and a finding was asked about, the merge pass's exactly if it is enabled and had a pair |
| Fates.DisabledStagesPass | src/reviewhive/graph/nodes.py:109-121 | a stage switched off hands its findings on unchanged |
| Safety.CommentsAreInDiff | src/reviewhive/github/positions.py:58-70 | with diff paths that lead back, every inline comment names a file of the diff and an anchorable line of it, whatever the models answered |
| Safety.CleanPathsLeadBack | src/reviewhive/anchors.py:46-50 | a diff whose paths are all their own keys leads back |
| SafetyExactly.SafeExactlyWhenPathsLeadBack | src/reviewhive/graph/nodes.py:75-153 | under any settings that let one sure, severe report through, no run can post a comment outside the diff exactly when the diff's paths lead back, a condition on the diff and whether the merge pass is on |
| SafetyExactly.DirectoryNamedLikeAPrefix | src/reviewhive/graph/dedupe.py:65-72 | a diff of the one file `a/x.py` does not meet it |
| EndToEnd.CommentsAreInParsedDiff | src/reviewhive/github/positions.py:58-70 | every inline comment is on an anchorable line of the parsed diff, whatever the budget filtered, truncated or dropped, if the reviewed paths lead back |
| EndToEnd.CleanDiffIsSafe | src/reviewhive/github/positions.py:58-70 | paths of the parsed diff that are their own key are enough for that |
| EndToEnd.EvidenceFromTheDiff | src/reviewhive/graph/critic.py:484-500 | over the budgeted part of any diff numbered as the unified format numbers it, each judged finding is shown its own anchor line, in window mode exactly when the radius is not negative |
| Diff.ToHunk | src/reviewhive/diff/parser.py:281-317 | the loop over lines builds the specified sets and rendering |
| Gutters.LineIsPrinted | src/reviewhive/diff/parser.py:303-308 | a rendered line is the hunk line's own text behind six blanks if it has no new-file number, and otherwise behind that number, which reads back exactly up to 99999 |
| Gutters.HeaderIsPrinted | src/reviewhive/diff/parser.py:290-295 | the `@@` header, if it has text, is the first rendered line and has no number |
| Gutters.PrintedAreAnchorable | src/reviewhive/diff/parser.py:286-308 | in every hunk numbered as the unified format does, with at most five digits, the numbers read from the rendered text are exactly the anchorable ones |
| Gutters.PrintedAscend | src/reviewhive/diff/parser.py:286-308 | and they ascend from line to line |
| Gutters.SetsAreTheLines | src/reviewhive/diff/parser.py:297-302 | the three sets hold the new-file numbers of added and of context lines and the old-file numbers of removed ones |
| Gutters.TextIsTheLines | src/reviewhive/diff/parser.py:310-312 | `numbered_text` is the rendered lines one after another, the header first |
| Gutters.LineCountIs | src/reviewhive/diff/parser.py:47-49 | `line_count` is the number of lines of code of a well-formed hunk |
| Gutters.AnchorsAreTheLines | src/reviewhive/diff/parser.py:97-118 | the anchorable lines of a file are the new-file numbers of the added and context lines of its hunks |
| Diff.SnapsToAnAnchor | src/reviewhive/diff/parser.py:150-169 | the answer is the line itself if it is an anchor, otherwise the closest added line within tolerance, the lower of two as close, or the closest context line when no added one is; and none exactly when no anchor is near |
| Diff.TruncatedTo | src/reviewhive/diff/parser.py:124-148 | the loop with its break keeps the specified hunks and counts the rest |
| Diff.KeptHunksLongest | src/reviewhive/diff/parser.py:131-137 | what is kept is the longest non-empty prefix of whole hunks that fits, or the first hunk alone |
| Diff.TruncationConserves | src/reviewhive/diff/parser.py:139-148 | kept and omitted lines and hunks add up, anchors only shrink, and gutters still agree with anchors |
| Diff.TruncationComposes | src/reviewhive/diff/parser.py:124-148 | truncating to a and then to b is truncating to the smaller, omission counters included |
| Windows.Window | src/reviewhive/diff/parser.py:171-211 | the loop over hunks and the final join return the specified text, gap markers between segments |
| Windows.SegmentShowsTheRange | src/reviewhive/diff/parser.py:200-209 | a hunk's segment is one contiguous slice whose numbered lines are exactly those in range, and is missing exactly when there are none |
| Windows.WindowGrows | src/reviewhive/diff/parser.py:197-209 | a larger radius extends the slice at both ends |
| Windows.WindowEmptyExactly | src/reviewhive/diff/parser.py:197-211 | the window is empty exactly when no anchorable line is within the radius |
| Windows.WindowTextEmptyExactly | src/reviewhive/diff/parser.py:194-211 | the returned text is empty exactly when the line reaches nothing |
| Windows.RenderedAreInked | src/reviewhive/diff/parser.py:305-308 | no rendered line is empty, so an empty window text cannot hide a segment |
| Windows.WindowShowsTheAnchor | src/reviewhive/diff/parser.py:197-211 | the window around an anchorable line shows it exactly when the radius is not negative |
| Evidence.ReaderSeesTheLine | src/reviewhive/diff/parser.py:194-211 | with a radius that is not negative, the returned text contains the claimed line's own text with its number in front |
| Evidence.GapsBetween | src/reviewhive/diff/parser.py:211 | between two segments there is the gap marker and nothing else |
| Evidence.LineCountIsAll | src/reviewhive/graph/critic.py:518-519 | what decides whether a file is shown whole is how many rendered lines it has |
| Entries.SplitIsLossless | src/reviewhive/diff/parser.py:248-253 | the chunks concatenate to the text from the first boundary on, or to the whole text when there is none |
| Entries.StartsExactly | src/reviewhive/diff/parser.py:248-253 | an entry starts exactly where a line starts with `diff --git ` |
| Entries.EntryHoldsOneBoundary | src/reviewhive/diff/parser.py:248-253 | each chunk begins at a boundary and holds no second one |
| Fitting.DropLargest | src/reviewhive/diff/budget.py:149-155 | the popping loop drops exactly the specified number of largest files and keeps the running total right |
| Fitting.FitToBudget | src/reviewhive/diff/budget.py:132-157 | kept files, total and dropped paths are those of the specification |
| Fitting.SmallestWeighLeast | src/reviewhive/diff/budget.py:139-142 | the exchange argument: any m of the sizes weigh at least as much as the m smallest |
| Fitting.LargestFirstIsOptimal | src/reviewhive/diff/budget.py:139-155 | no non-empty set of files that fits the budget has more files than are kept |
| Fitting.KeptFits | src/reviewhive/diff/budget.py:151-157 | what is kept fits, unless exactly one file is left |
| Fitting.LargestAreDropped | src/reviewhive/diff/budget.py:142-155 | a dropped file is larger than every kept one, or as large and before it |
| Fitting.NoneTooMany | src/reviewhive/diff/budget.py:151-155 | with the last dropped file added back, what is kept would be over the budget |
| Fitting.KeptAndDropped | src/reviewhive/diff/budget.py:144-157 | kept and dropped are all the files, each once |
| Budget.FilterFiles | src/reviewhive/diff/budget.py:99-116 | the filtering loop skips each file for the first reason that applies, or keeps it and notes a truncation |
| Budget.SkippedExactly | src/reviewhive/diff/budget.py:99-110 | a file is skipped exactly for being binary, or else for the noise it is, or else for having no hunks |
| Budget.KeptExactly | src/reviewhive/diff/budget.py:99-116 | every other file is kept, shortened |
| Budget.ShortenedExactly | src/reviewhive/diff/budget.py:112-115 | a file with hunks left out is disclosed with the number of their lines, and no other is |
| Budget.OthersAreNamed | src/reviewhive/diff/budget.py:97-125 | a path that did not parse, and one dropped for the budget, is disclosed under its own name as what it is |
| Budget.BuildBudget | src/reviewhive/diff/budget.py:88-129 | files, prompt, token count, skipped and truncated are those of the specification, including the summed count when files were dropped |
| Budget.FitsAsItIs | src/reviewhive/diff/budget.py:121-125 | nothing is dropped while the whole prompt fits |
| Budget.KeptTokens | src/reviewhive/diff/budget.py:141-157 | the count given after dropping files is the sum of what the reviewed files' own texts count for |
| Budget.PromptBetween | src/reviewhive/diff/budget.py:82-85 | the prompt is the files' texts with a line break between them |
| Budget.HunksOneAfterAnother | src/reviewhive/diff/parser.py:84-85 | a file's hunks stand in its text one after another |
| Budget.TextDiscloses | src/reviewhive/diff/parser.py:84-91 | a file's text is its header and its hunks, followed by what was left out exactly if something was |
| Budget.EverythingIsDisclosed | src/reviewhive/diff/budget.py:96-129 | every parsed file is reviewed or skipped, once; every unparseable path is skipped; files are sorted by path; and none are left only if none passed the filters |
| Budget.ReviewedFits | src/reviewhive/diff/budget.py:120-157 | when the whole prompt is over the limit, the reviewed files' own counts fit it or one file is left, and no set of files that fits has more members |
| Pricing.CostIsWhole | src/reviewhive/pricing.py:71-80 | every priced call costs a whole number of hundred-millionths of a dollar |
| Pricing.UnitPrices | src/reviewhive/pricing.py:76-80 | a million tokens of a kind cost that kind's rate |
| Pricing.RatesInProportion | src/reviewhive/pricing.py:42-51 | on every priced model output costs five times the input and a cache read a tenth of it |
| Pricing.PricedModels | src/reviewhive/pricing.py:43-51 | the models with a price, and their input rates |
| Pricing.CallByCall | src/reviewhive/pricing.py:83-92 | the total is the priced calls' costs, each call on its own |
| Pricing.StoredTotalIsExact | src/reviewhive/pricing.py:83-92 | the stored total is the sum of the stored costs to the last decimal exactly as long as the run costs under 10000 dollars |
| Pricing.StoredCostsAddUp | src/reviewhive/db/models.py:50-52 | eight decimals lose nothing of any call's cost under that bound |
| Pricing.StoredRounds | src/reviewhive/db/models.py:50-52 | the column rounds to the nearest hundred-millionth, halves up, and refuses what rounds to ten thousand |
| Pricing.SummedCallCostsTheSame | src/reviewhive/graph/critic.py:231-237 | the critic's one summed call costs what its per-file calls would together |
| Lifecycle.Row.FinishReview | src/reviewhive/db/repository.py:101-143 | status, calls, findings, counts, coverage notes, total cost and focus change together, or not at all when an agent or an ordinal would repeat or the cost does not fit |
| Lifecycle.Row.RecordPostedReview | src/reviewhive/db/repository.py:154-174 | the posted id and comment count are set together and nothing else changes |
| Jobs.CreateReview | src/reviewhive/jobs.py:163-181 | one retry, only after a 422 and only with comments to remove; the answer is that of the attempt that ended it |
| Jobs.Post | src/reviewhive/jobs.py:143-160 | what posting leaves on the row and on GitHub is the specified trace |
| Jobs.Fetch | src/reviewhive/jobs.py:118-140 | a fetch that fails explains itself only for a diff too large, and marks the row failed only if nothing broke first |
| Jobs.ReviewPullRequest | src/reviewhive/jobs.py:65-115 | for every outcome of every call the row is explained by the job's trace, and nothing escapes |
| JobSafety.EveryJobIsSafe | src/reviewhive/jobs.py:80-181 | a row never leaves `succeeded` or `failed`, is finished at most once, has at most one review accepted, is retried only to degrade, and records only the attempt that was accepted on a row marked running |
| JobEnds.AcceptedIsRecorded | src/reviewhive/jobs.py:143-181 | a row ends with the accepted review's id and its number of comments, none after a degraded attempt, exactly when the job got to posting, an attempt was accepted and the record took effect |
| JobEnds.SentExactly | src/reviewhive/jobs.py:118-181 | what is sent to GitHub: the explanation of a diff too large; or the review of the findings pinned to the head and, after a 422 on one with comments, once more without comments or commit; or nothing |
| JobEnds.CommentsAreTheAnchored | src/reviewhive/github/positions.py:37-70 | a review carries one comment per finding with a line, in order, on its file and line, for the commit asked for |
| JobEnds.AnchoredAtHas | src/reviewhive/github/positions.py:65 | inline is every finding with a line, and no other |
| JobEnds.FetchedEnds | src/reviewhive/jobs.py:80-115 | the last status of a row whose diff was fetched, for every outcome |
| JobEnds.UnfetchedEnds | src/reviewhive/jobs.py:118-140 | the last status of a row whose diff was not |
| JobSafety.SettledExactly | src/reviewhive/jobs.py:80-115 | exactly which outcomes leave the row in a terminal status |
| JobSafety.SavedWholeOrNotAtAll | src/reviewhive/jobs.py:96-113 | a row holds the whole result with the earlier calls in front, or none of it, and what it holds is what the first attempt posted |
| JobSafety.RefusedExactly | src/reviewhive/db/models.py:222-280 | a fresh row takes exactly the results whose calls are by different agents and whose cost fits the column, and a row with findings takes no more |
| JobSafety.RowCallsDistinct | src/reviewhive/db/models.py:227 | the calls stored on a row never repeat an agent, whatever the graph returned |
| JobSafety.GraphCallsDistinct | src/reviewhive/jobs.py:96-98 | the calls the graph and the classifier make never repeat an agent, so the constraint refuses nothing |
| Mentions.ThreadTargetIs | src/reviewhive/mentions/dispatch.py:125-134 | an inline thread's finding is the first one stored at the comment's own anchor, and there is none exactly when none is there or no path is given |
| Mentions.TargetIs | src/reviewhive/mentions/dispatch.py:244-256 | an ordinal is resolved to a stored finding that has it, and to none exactly when none has |
| Mentions.ThreadWins | src/reviewhive/mentions/dispatch.py:90-103 | inside a thread the finding is the thread's, whatever the model said |
| MentionEnds.ThreadExactly | src/reviewhive/mentions/dispatch.py:90-134 | there is a thread's finding exactly for a reply with a path at which a finding is stored, at the comment's line if it has one; it is the first such |
| MentionEnds.DispatchedExactly | src/reviewhive/mentions/dispatch.py:176-194 | a mention becomes a review exactly when it is bare or asks for a full or a focused one, and the job is handed the classifier's call if there was one |
| MentionEnds.AnsweredExactly | src/reviewhive/mentions/dispatch.py:196-212 | otherwise it is answered unless something crashes: with the fixed reply when nothing was reviewed, and without one when there is no diff |
| MentionEnds.SecondCallExactly | src/reviewhive/mentions/dispatch.py:214-241 | an answer costs a second call, a reconsideration exactly when one was asked for of a stored finding; the reply is the model's |
| Mentions.HandleMention | src/reviewhive/mentions/dispatch.py:154-241 | reply, calls and dispatch come out as specified, and only the review paths touch the row |
| Mentions.RespondToMention | src/reviewhive/mentions/dispatch.py:67-122 | for every outcome the row is explained by the mention's trace; a row the review path owns is not finished again |
| MentionSafety.NeverLeavesTerminalExactly | src/reviewhive/mentions/dispatch.py:108-122 | a mention's row never leaves `succeeded` or `failed`, exactly unless its finishing write takes effect and is reported as failed |
| MentionSafety.ASuccessCanBeLost | src/reviewhive/mentions/dispatch.py:108-122 | a mention nobody could classify, whose one write takes effect and is reported as failed, ends `failed` after `succeeded` |
| MentionSafety.EveryMentionIsSafe | src/reviewhive/mentions/dispatch.py:83-122 | finished at most once with distinct agents, at most one review accepted, retried only to degrade, recorded only if posted |
| MentionSafety.MentionSettledExactly | src/reviewhive/mentions/dispatch.py:83-122 | exactly which outcomes leave a mention's row in a terminal status |
| MentionEnds.ComesToFinishExactly | src/reviewhive/mentions/dispatch.py:105-119 | a mention finishes its own row unless sending its reply crashed; a refusal by GitHub does not count |
| MentionEnds.OwnRowEnds | src/reviewhive/mentions/dispatch.py:108-122 | how the row of an answered mention ends: its status, its calls, and nothing posted |
| MentionEnds.DispatchedIsRecorded | src/reviewhive/mentions/dispatch.py:188-194 | the review a mention becomes is recorded on the mention's row as any other is |
| RowSteps.JobsArePermitted | src/reviewhive/jobs.py:80-115 | in any run of the table, every status a job gives its pending row, at every point of the job and whatever the other parties do in between as long as they leave that row alone, is a permitted step; with nobody in between nothing else moves |
| RowSteps.MentionsArePermitted | src/reviewhive/mentions/dispatch.py:83-122 | the same for a mention |
| Webhook.StepKeepsSound | src/reviewhive/db/models.py:176 | every step keeps delivery ids distinct, jobs distinct, and each row held by at most one handler |
| Webhook.OneJobPerDelivery | src/reviewhive/api/webhook.py:255-294 | in every interleaving no two rows share a delivery id and no delivery id has two jobs |
| Deliveries.OneReviewPerDelivery | src/reviewhive/api/webhook.py:255-294 | over any interleaving of deliveries and of jobs, whatever each job meets and however far it got, each delivery id has at most one review accepted on GitHub |
| Webhook.StepKeepsNewest | src/reviewhive/api/webhook.py:261-273 | a step keeps all but the newest row of a commit failed exactly when it creates none, or creates it while the head is clear |
| Webhook.OneLiveReviewExactly | src/reviewhive/api/webhook.py:261-287 | over whole runs: one live review a commit exactly when each of its rows is created while the head is clear |
| Webhook.TakingTurnsIsEnough | src/reviewhive/api/webhook.py:261-287 | pull-request deliveries of a commit handled one at a time, and no mention under it, are enough |
| Webhook.TheRaceReviewsTwice | src/reviewhive/api/webhook.py:261-294 | two deliveries past the check before either inserts are both dispatched |
| Webhook.UnreportedIsNeverReviewed | src/reviewhive/api/webhook.py:275-294 | a row written by an insert reported as failed is never dispatched in any later run, and its delivery id stays taken |
| Webhook.StrandedExactly | src/reviewhive/api/webhook.py:275-294 | over every run, a delivery's row has no job and no handler about to dispatch it exactly when it was written by an insert reported as failed |
| Webhook.Service.StartReview | src/reviewhive/db/repository.py:41-82 | a recorded delivery is refused and nothing changes; otherwise one pending row is added, or none on rollback |
| Webhook.Service.HandlePullRequest | src/reviewhive/api/webhook.py:255-298 | the handler alone leaves the rows and jobs its steps leave when nothing comes between them, and answers `accepted` exactly when it added a job |
| Webhook.Service.HandleComment | src/reviewhive/api/webhook.py:164-195 | the same for a comment, which has no head check and relies on the constraint |
| Requests.PullRequestExactly | src/reviewhive/api/webhook.py:255-298 | a pull-request delivery handled alone is dispatched exactly when its id is new, the newest row of its commit is missing or failed, and its row is written and reported so |
| Requests.CommentExactly | src/reviewhive/api/webhook.py:164-195 | a comment's delivery is held up by nothing but its id |

## Left out

- The `unidiff` parser and `fnmatch`: hunk lines arrive numbered (`Diff.NumberedFrom` states the unified format's rule), and noise classification is a parameter.
- Markdown, prompts and the wording of messages; of a user message only the code lines shown are modelled, and of a review payload only comments and commit.
- HTTP, signatures, settings, logging, migrations, and the comment guards and hourly limit: a comment handler may be turned away before it writes, for any reason.
- Clocks, latency, UUIDs and hashes; creation order stands for `created_at`, so equal timestamps are not modelled.
- Floating-point rounding: confidence and title similarity are reals.
- Decimal's 28-digit context: amounts are exact reals, rounded half up only when stored.
- Case folding beyond ASCII in titles.
- The `error`, `latency_ms` and `findings_returned` fields of calls, and the `reason` of verdicts and decisions.
- The pre-image fields of a diff file (plain text, old path, rename and mode flags): nothing modelled reads them.
- Skip and truncation notes are pairs of a path and a reason or count instead of sentences.
- Replies posted in threads: only whether posting one breaks the run matters to the row.
- The concurrency of per-file critic calls: their answers are arbitrary and arrive in group order, as `gather` returns them.
- A process that dies mid-job leaves a prefix of a trace; the safety lemmas hold of every prefix, but no recovery is modelled because the code has none.
- Webhook.Next: the interleaving of requests is a machine over values, one atomic step per store call, so aliasing between requests is not modelled; the class `Webhook.Service` covers a request alone, in place.
- Probe scripts, the CLI's own output and the read-only endpoints: nothing there decides what is posted.
