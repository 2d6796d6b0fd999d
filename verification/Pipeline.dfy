/** `finalize` (src/reviewhive/graph/nodes.py): the stages composed, and what the composition guarantees. */
module Pipeline {
  import opened Models
  import opened Sequences
  import opened Diff
  import Anchors
  import Budget
  import CriticRun
  import Dedupe
  import LlmMerge
  import MergeClasses
  import Ranking
  import UnionFind

  datatype Settings = Settings(
    tuning: Dedupe.Tuning,
    enableCritic: bool,
    critic: CriticRun.Config,
    enableMerge: bool,
    mergeWindow: int,
    mergeMaxPairs: int,
    floors: Ranking.Floors)

  /** The merge call's answer: None when it failed, was refused or did not parse. */
  datatype MergeAnswer = MergeAnswer(
    decisions: Option<seq<LlmMerge.Decision>>,
    inputTokens: nat,
    outputTokens: nat,
    cacheReadTokens: nat)

  /** Everything one run depends on.  The two answers are arbitrary. */
  datatype Run = Run(
    settings: Settings,
    raw: seq<Finding>,
    files: seq<DiffFile>,
    answers: CriticRun.Answers,
    mergeAnswer: MergeAnswer)

  /** What `finalize` returns, and what the store keeps. */
  datatype ReviewResult = ReviewResult(
    findings: seq<Finding>,
    suppressed: int,
    retracted: nat,
    skipped: seq<Budget.Skip>,
    truncated: seq<Budget.Omission>,
    calls: seq<AgentCall>,
    focus: Option<string>)

  // ---------------------------------------------------------------- the stages

  function Clustered(run: Run): seq<Finding> {
    Dedupe.Collapsed(run.raw, run.settings.tuning)
  }

  function Anchored(run: Run): seq<Finding> {
    Anchors.AnchoredReport(Clustered(run), run.files, Anchors.SNAP_TOLERANCE).findings
  }

  /** What the critic makes of each anchored finding. */
  function Verdicts(run: Run): (each: seq<Option<Finding>>)
    ensures |each| == |Anchored(run)|
  {
    var findings := Anchored(run);
    if run.settings.enableCritic then CriticRun.Revisions(run.settings.critic, findings, run.files, run.answers)
    else seq(|findings|, i requires 0 <= i < |findings| => Some(findings[i]))
  }

  function Checked(run: Run): seq<Finding> {
    Kept(Verdicts(run))
  }

  function Decisions(run: Run): seq<LlmMerge.Decision> {
    if run.settings.enableMerge && run.mergeAnswer.decisions.Some? then run.mergeAnswer.decisions.value else []
  }

  function Edges(run: Run): (edges: seq<UnionFind.Edge>)
    ensures UnionFind.InRange(edges, |Checked(run)|)
  {
    MergeClasses.EdgesOf(Checked(run), run.settings.mergeWindow, run.settings.mergeMaxPairs, Decisions(run))
  }

  function MergedOf(run: Run): seq<Finding> {
    LlmMerge.Merging(Checked(run), Edges(run))
  }

  function PostedOf(run: Run): seq<Finding> {
    Ranking.Posted(MergedOf(run), run.settings.floors)
  }

  function RetractedCount(run: Run): nat {
    NoneCount(Verdicts(run))
  }

  function SuppressedCount(run: Run): int {
    Ranking.Withheld(MergedOf(run), run.settings.floors)
  }

  // ---------------------------------------------------------------- the method

  lemma {:induction false} KeptAll(findings: seq<Finding>, each: seq<Option<Finding>>)
    requires |each| == |findings| && forall i :: 0 <= i < |findings| ==> each[i] == Some(findings[i])
    ensures Kept(each) == findings && NoneCount(each) == 0
  {
    if findings != [] {
      KeptAll(findings[..|findings| - 1], each[..|findings| - 1]);
    }
  }

  lemma {:induction false} MergingNothingBelow(findings: seq<Finding>, n: nat)
    requires n <= |findings|
    ensures LlmMerge.MergedBelow(findings, Upto(|findings|), n) == findings[..n]
  {
    if n > 0 {
      MergingNothingBelow(findings, n - 1);
      assert Upto(|findings|)[n - 1] == n - 1;
      MembersOfOne(findings, Upto(|findings|), n - 1, n - 1);
    }
  }

  /** With nothing honoured the merge pass returns its input. */
  lemma {:induction false} MergingNothing(findings: seq<Finding>)
    ensures LlmMerge.Merging(findings, []) == findings
  {
    MergingNothingBelow(findings, |findings|);
  }

  /** When every decision says "not the same", everything comes back as it was. */
  lemma {:induction false} NothingSaidNothingMerged(findings: seq<Finding>, decisions: seq<LlmMerge.Decision>,
                                                    pairs: seq<UnionFind.Edge>)
    requires UnionFind.InRange(pairs, |findings|) && forall d <- decisions :: !d.sameDefect
    ensures LlmMerge.HonouredEdges(decisions, pairs) == []
    ensures LlmMerge.Merging(findings, LlmMerge.HonouredEdges(decisions, pairs)) == findings
  {
    var edges := LlmMerge.HonouredEdges(decisions, pairs);
    if edges != [] {
      assert edges[0] in edges;
      LlmMerge.HonouredExactly(decisions, pairs, edges[0]);
    }
    MergingNothing(findings);
  }

  lemma {:induction false} NoPairsNothingHonoured(decisions: seq<LlmMerge.Decision>)
    ensures LlmMerge.HonouredEdges(decisions, []) == []
  {
    if decisions != [] {
      NoPairsNothingHonoured(decisions[..|decisions| - 1]);
    }
  }

  /** `merge_findings`: never fails; an unusable answer leaves the findings as they were. */
  method MergeFindings(findings: seq<Finding>, window: int, maxPairs: int, model: string, answer: MergeAnswer)
    returns (merged: seq<Finding>, call: Option<AgentCall>)
    ensures merged == LlmMerge.Merging(
                        findings, MergeClasses.EdgesOf(findings, window, maxPairs, Or(answer.decisions, [])))
    ensures call == MergeCall(findings, window, maxPairs, model, answer)
  {
    MergingNothing(findings);
    var pairs := LlmMerge.CandidatePairs(findings, window, maxPairs);
    if pairs == [] {
      NoPairsNothingHonoured(Or(answer.decisions, []));
      return findings, None;
    }
    call := Some(AgentCall(MergePass, model, answer.inputTokens, answer.outputTokens, answer.cacheReadTokens));
    if answer.decisions.None? {
      return findings, call;
    }
    PairsInRange(findings, window, maxPairs);
    merged := LlmMerge.Apply(findings, answer.decisions.value, pairs);
  }

  lemma {:induction false} PairsInRange(findings: seq<Finding>, window: int, maxPairs: int)
    ensures UnionFind.InRange(LlmMerge.CandidatesOf(findings, window, maxPairs), |findings|)
  {
    var pairs := LlmMerge.CandidatesOf(findings, window, maxPairs);
    forall k | 0 <= k < |pairs|
      ensures pairs[k].left < |findings| && pairs[k].right < |findings|
    {
      assert pairs[k] in pairs;
      LlmMerge.CandidatesAre(findings, window, maxPairs, pairs[k]);
    }
  }

  function MergeCall(findings: seq<Finding>, window: int, maxPairs: int, model: string, answer: MergeAnswer)
    : Option<AgentCall>
  {
    if LlmMerge.CandidatesOf(findings, window, maxPairs) == [] then None
    else Some(AgentCall(MergePass, model, answer.inputTokens, answer.outputTokens, answer.cacheReadTokens))
  }

  function Optional<T>(value: Option<T>): seq<T> {
    if value.Some? then [value.value] else []
  }

  function CriticCall(run: Run): Option<AgentCall> {
    if run.settings.enableCritic
    then CriticRun.CallOf(run.settings.critic, Anchored(run), run.files, run.answers) else None
  }

  function MergeStageCall(run: Run): Option<AgentCall> {
    if run.settings.enableMerge
    then MergeCall(Checked(run), run.settings.mergeWindow, run.settings.mergeMaxPairs,
                   run.settings.critic.model, run.mergeAnswer)
    else None
  }

  /** The calls a run records: the reviewers', then the critic's, then the merge pass's. */
  function CallsOf(run: Run, reviewerCalls: seq<AgentCall>): seq<AgentCall> {
    reviewerCalls + Optional(CriticCall(run)) + Optional(MergeStageCall(run))
  }

  /** The critic's stage, when it is enabled. */
  method Check(run: Run, findings: seq<Finding>) returns (checked: seq<Finding>, retracted: nat,
               call: Option<AgentCall>)
    requires findings == Anchored(run)
    ensures checked == Checked(run) && retracted == RetractedCount(run)
    ensures call == CriticCall(run)
  {
    if run.settings.enableCritic {
      var outcome := CriticRun.ReviewFindings(run.settings.critic, findings, run.files, run.answers);
      checked, retracted, call := outcome.findings, outcome.retracted, outcome.call;
    } else {
      KeptAll(findings, Verdicts(run));
      checked, retracted, call := findings, 0, None;
    }
  }

  /** The merge stage, when it is enabled. */
  method MergeStage(run: Run, findings: seq<Finding>) returns (merged: seq<Finding>, call: Option<AgentCall>)
    requires findings == Checked(run)
    ensures merged == MergedOf(run) && call == MergeStageCall(run)
  {
    if run.settings.enableMerge {
      merged, call := MergeFindings(findings, run.settings.mergeWindow, run.settings.mergeMaxPairs,
                                    run.settings.critic.model, run.mergeAnswer);
    } else {
      MergingNothing(findings);
      merged, call := findings, None;
    }
  }

  /** What a run amounts to: what is posted, and everything it discloses. */
  function ResultOf(run: Run, skipped: seq<Budget.Skip>, truncated: seq<Budget.Omission>, focus: Option<string>,
                    reviewerCalls: seq<AgentCall>): ReviewResult
  {
    ReviewResult(PostedOf(run), SuppressedCount(run), RetractedCount(run), skipped, truncated,
                 CallsOf(run, reviewerCalls), focus)
  }

  method Finalize(run: Run, skipped: seq<Budget.Skip>, truncated: seq<Budget.Omission>, focus: Option<string>,
                  reviewerCalls: seq<AgentCall>)
    returns (result: ReviewResult)
    ensures result == ResultOf(run, skipped, truncated, focus, reviewerCalls)
  {
    var merged := Dedupe.Collapse(run.raw, run.settings.tuning);
    var anchored := Anchors.AnchorFindings(merged, run.files, Anchors.SNAP_TOLERANCE);
    var findings, retracted, call := Check(run, anchored.findings);
    var calls := reviewerCalls + Optional(call);
    findings, call := MergeStage(run, findings);
    calls := calls + Optional(call);
    var posted, suppressed := Ranking.RankAndCut(findings, run.settings.floors);
    result := ReviewResult(posted, suppressed, retracted, skipped, truncated, calls, focus);
  }
}
