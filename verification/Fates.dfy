/** Every raw finding has one fate, and every posted finding is exactly the findings it stands for
    (`finalize`, src/reviewhive/graph/nodes.py). */
module Fates {
  import opened Models
  import opened Sequences
  import opened Diff
  import opened Pipeline
  import opened Provenance
  import Anchors
  import Budget
  import Critic
  import CriticRun
  import Dedupe
  import LlmMerge
  import MergeClasses
  import Ranking
  import Text

  // ---------------------------------------------------------------- the trace of each stage

  function CollapseTrace(run: Run): (trace: seq<Option<nat>>)
    ensures |trace| == |run.raw|
  {
    Everywhere(Dedupe.Labels(Dedupe.NormalizedAll(run.raw), run.settings.tuning))
  }

  function AnchorTrace(run: Run): (trace: seq<Option<nat>>)
    ensures |trace| == |Clustered(run)|
  {
    KeptAt(Anchors.PlacedAll(Clustered(run), Anchors.ByPath(run.files), Anchors.SNAP_TOLERANCE))
  }

  function CriticTrace(run: Run): (trace: seq<Option<nat>>)
    ensures |trace| == |Anchored(run)|
  {
    KeptAt(Verdicts(run))
  }

  function MergeTrace(run: Run): (trace: seq<Option<nat>>)
    ensures |trace| == |Checked(run)|
  {
    MergeClasses.MergeTrace(Checked(run), Edges(run))
  }

  function PlaceIn(order: seq<nat>, i: nat): Option<nat> {
    if order == [] then None
    else if order[|order| - 1] == i then Some(|order| - 1)
    else PlaceIn(order[..|order| - 1], i)
  }

  function RankTrace(findings: seq<Finding>, floors: Ranking.Floors): (trace: seq<Option<nat>>)
    ensures |trace| == |findings|
  {
    seq(|findings|, i requires 0 <= i < |findings| => PlaceIn(Ranking.PostedOrder(findings, floors), i))
  }

  lemma {:induction false} PlaceInIs(order: seq<nat>, i: nat)
    ensures PlaceIn(order, i).None? <==> i !in order
    ensures PlaceIn(order, i).Some? ==> PlaceIn(order, i).value < |order| && order[PlaceIn(order, i).value] == i
  {
    if order != [] {
      PlaceInIs(order[..|order| - 1], i);
      assert order == order[..|order| - 1] + [order[|order| - 1]];
    }
  }

  lemma {:induction false} CollapseTraces(run: Run)
    ensures Traces(run.raw, CollapseTrace(run), Clustered(run), true)
  {
    var ns, t := Dedupe.NormalizedAll(run.raw), run.settings.tuning;
    var labels, out := Dedupe.Labels(ns, t), Clustered(run);
    Dedupe.LabelsDense(ns, t);
    Dedupe.GroupsInhabited(ns, t);
    forall c | 0 <= c < |out|
      ensures SumsUp(Members(ns, labels, c), out[c])
    {
      var group := Dedupe.Groups(ns, t)[c];
      assert out[c] == Dedupe.Merged(group[0].file, group);
      MergeClasses.MergedSumsUp(group[0].file, group);
    }
    Provenance.MergingTraces(ns, labels, out);
    forall c | 0 <= c < |out|
      ensures StandsFor(run.raw, CollapseTrace(run), c, out[c], true)
    {
      SameProvenance(run.raw, ns, CollapseTrace(run), c, out[c]);
    }
  }

  lemma {:induction false} SameProvenance(a: seq<Finding>, b: seq<Finding>, trace: seq<Option<nat>>, j: int, f: Finding)
    requires |a| == |b| == |trace| && StandsFor(b, trace, j, f, true)
    requires forall i :: 0 <= i < |a| ==> b[i] == a[i].(file := b[i].file)
    ensures StandsFor(a, trace, j, f, true)
  {
    var i :| Represented(trace, i, j) && b[i].confidence == f.confidence;
    assert a[i].confidence == f.confidence;
    var k :| Represented(trace, k, j) && Rank(f.severity) <= Rank(b[k].severity);
    assert Rank(f.severity) <= Rank(a[k].severity);
    forall g | g in f.sources
      ensures exists i :: Represented(trace, i, j) && g in a[i].sources
    {
      var m :| Represented(trace, m, j) && g in b[m].sources;
      assert g in a[m].sources;
    }
    forall m, g | Represented(trace, m, j) && g in a[m].sources
      ensures g in f.sources
    {
      assert g in b[m].sources;
    }
  }

  lemma {:induction false} AnchorTraces(run: Run)
    ensures Traces(Clustered(run), AnchorTrace(run), Anchored(run), true)
  {
    var findings, byPath := Clustered(run), Anchors.ByPath(run.files);
    var placed := Anchors.PlacedAll(findings, byPath, Anchors.SNAP_TOLERANCE);
    Anchors.AnchoringAccounts(findings, run.files, Anchors.SNAP_TOLERANCE);
    forall i | 0 <= i < |findings| && placed[i].Some?
      ensures SameOrigin(findings[i], placed[i].value, true)
    {
      Anchors.PlacedIsLocated(findings[i], byPath, Anchors.SNAP_TOLERANCE);
    }
    SelectionTraces(findings, placed, true);
  }

  lemma {:induction false} CriticTraces(run: Run)
    ensures Traces(Anchored(run), CriticTrace(run), Checked(run), !run.settings.enableCritic)
  {
    var findings, each := Anchored(run), Verdicts(run);
    forall i | 0 <= i < |findings| && each[i].Some?
      ensures SameOrigin(findings[i], each[i].value, !run.settings.enableCritic)
    {
      if run.settings.enableCritic {
        var seen := CriticRun.Honoured(run.settings.critic, findings, run.files, run.answers);
        Critic.VerdictsAreBounded(findings[i], Critic.VerdictOn(seen, i));
      }
    }
    SelectionTraces(findings, each, !run.settings.enableCritic);
  }

  lemma {:induction false} PostedOnce(findings: seq<Finding>, floors: Ranking.Floors)
    ensures var order := Ranking.PostedOrder(findings, floors);
            forall p, q :: 0 <= p < q < |order| ==> order[p] != order[q]
  {
    Ranking.PostedAreTheBest(findings, floors);
    var full, order := Ranking.Ranking(findings, floors), Ranking.PostedOrder(findings, floors);
    forall p, q | 0 <= p < q < |order|
      ensures order[p] != order[q]
    {
      assert order[p] == full[p] && order[q] == full[q];
      assert Precedes(Ranking.Keys(findings), Ranking.KeyLe, full[p], full[q]);
    }
  }

  lemma {:induction false} RankTraces(findings: seq<Finding>, floors: Ranking.Floors)
    ensures Traces(findings, RankTrace(findings, floors), Ranking.Posted(findings, floors), true)
  {
    var order, trace := Ranking.PostedOrder(findings, floors), RankTrace(findings, floors);
    PostedOnce(findings, floors);
    forall i | 0 <= i < |findings|
      ensures trace[i].Some? ==> trace[i].value < |order| && order[trace[i].value] == i
    {
      PlaceInIs(order, i);
    }
    forall p | 0 <= p < |order|
      ensures Reached(trace, p)
    {
      PlaceInIs(order, order[p]);
      assert order[p] in order;
      assert Represented(trace, order[p], p);
    }
    ReorderingTraces(findings, trace, Ranking.Posted(findings, floors));
  }

  /** Where each raw finding is represented after anchoring, checking, merging and ranking. */
  function ToAnchored(run: Run): (trace: seq<Option<nat>>)
    ensures |trace| == |run.raw|
  {
    Then(CollapseTrace(run), AnchorTrace(run))
  }

  function ToChecked(run: Run): (trace: seq<Option<nat>>)
    ensures |trace| == |run.raw|
  {
    Then(ToAnchored(run), CriticTrace(run))
  }

  function ToMerged(run: Run): (trace: seq<Option<nat>>)
    ensures |trace| == |run.raw|
  {
    Then(ToChecked(run), MergeTrace(run))
  }

  function FullTrace(run: Run): (trace: seq<Option<nat>>)
    ensures |trace| == |run.raw|
  {
    Then(ToMerged(run), RankTrace(MergedOf(run), run.settings.floors))
  }

  lemma {:induction false} AnchoredStandForRaw(run: Run)
    ensures Traces(run.raw, ToAnchored(run), Anchored(run), true)
  {
    CollapseTraces(run);
    AnchorTraces(run);
    TracesCompose(run.raw, CollapseTrace(run), Clustered(run), true, AnchorTrace(run), Anchored(run), true);
  }

  lemma {:induction false} CheckedStandForRaw(run: Run)
    ensures Traces(run.raw, ToChecked(run), Checked(run), !run.settings.enableCritic)
  {
    AnchoredStandForRaw(run);
    CriticTraces(run);
    TracesCompose(run.raw, ToAnchored(run), Anchored(run), true,
                  CriticTrace(run), Checked(run), !run.settings.enableCritic);
  }

  lemma {:induction false} MergedStandForRaw(run: Run)
    ensures Traces(run.raw, ToMerged(run), MergedOf(run), !run.settings.enableCritic)
  {
    CheckedStandForRaw(run);
    MergeClasses.MergingTraces(Checked(run), Edges(run));
    TracesCompose(run.raw, ToChecked(run), Checked(run), !run.settings.enableCritic,
                  MergeTrace(run), MergedOf(run), true);
  }

  /** Whatever the models answered: each posted finding stands for at least one raw finding, its sources
      are exactly the union of theirs, its confidence the greatest of theirs, and its severity at most
      the greatest of theirs — equal to it when the critic is off. */
  lemma {:induction false} PostedStandForRaw(run: Run)
    ensures Traces(run.raw, FullTrace(run), PostedOf(run), !run.settings.enableCritic)
  {
    MergedStandForRaw(run);
    RankTraces(MergedOf(run), run.settings.floors);
    TracesCompose(run.raw, ToMerged(run), MergedOf(run), !run.settings.enableCritic,
                  RankTrace(MergedOf(run), run.settings.floors), PostedOf(run), true);
  }

  // ---------------------------------------------------------------- one fate each

  datatype Fate = UnknownFile | Retracted | Withheld | PostedAs(place: nat)

  /** The first stage that stops representing the finding decides. */
  function FateOf(run: Run, i: nat): Fate
    requires i < |run.raw|
  {
    if ToAnchored(run)[i].None? then UnknownFile
    else if ToChecked(run)[i].None? then Retracted
    else if FullTrace(run)[i].None? then Withheld
    else PostedAs(FullTrace(run)[i].value)
  }

  lemma {:induction false} AnchoredBound(run: Run, i: nat)
    requires i < |run.raw|
    ensures ToAnchored(run)[i].Some? ==> ToAnchored(run)[i].value < |Anchored(run)|
  {
    AnchoredStandForRaw(run);
  }

  lemma {:induction false} CheckedBound(run: Run, i: nat)
    requires i < |run.raw|
    ensures ToChecked(run)[i].Some? ==> ToChecked(run)[i].value < |Checked(run)|
  {
    CheckedStandForRaw(run);
  }

  lemma {:induction false} MergedBound(run: Run, i: nat)
    requires i < |run.raw|
    ensures ToMerged(run)[i].Some? <==> ToChecked(run)[i].Some?
    ensures ToMerged(run)[i].Some? ==> ToMerged(run)[i].value < |MergedOf(run)|
  {
    CheckedBound(run, i);
    ThenEverywhere(ToChecked(run), MergeTrace(run), i);
    MergedStandForRaw(run);
  }

  lemma ThenEverywhere(first: seq<Option<nat>>, second: seq<Option<nat>>, i: nat)
    requires i < |first| && forall k :: 0 <= k < |second| ==> second[k].Some?
    requires first[i].Some? ==> first[i].value < |second|
    ensures Then(first, second)[i].Some? <==> first[i].Some?
  {
  }

  lemma {:induction false} PostedBound(run: Run, i: nat)
    requires i < |run.raw|
    ensures FullTrace(run)[i].Some? ==> FullTrace(run)[i].value < |PostedOf(run)|
  {
    PostedStandForRaw(run);
  }

  /** Once dropped a finding stays dropped: it is posted exactly when its fate says so, in that place. */
  lemma {:induction false} FateIsTheTrace(run: Run, i: nat)
    requires i < |run.raw|
    ensures FateOf(run, i).UnknownFile? || FateOf(run, i).Retracted? <==> ToMerged(run)[i].None?
    ensures ToMerged(run)[i].Some? ==> ToMerged(run)[i].value < |MergedOf(run)|
    ensures FullTrace(run)[i] == if FateOf(run, i).PostedAs? then Some(FateOf(run, i).place) else None
    ensures FateOf(run, i).PostedAs? ==> FateOf(run, i).place < |PostedOf(run)|
  {
    MergedBound(run, i);
    PostedBound(run, i);
    DroppedStaysDropped(run, i);
  }

  lemma {:induction false} ThenNone(first: seq<Option<nat>>, second: seq<Option<nat>>, i: nat)
    requires i < |first|
    ensures first[i].None? ==> Then(first, second)[i].None?
    ensures first[i].Some? && first[i].value < |second| ==> Then(first, second)[i] == second[first[i].value]
  {
  }

  lemma {:induction false} DroppedStaysDropped(run: Run, i: nat)
    requires i < |run.raw|
    ensures ToAnchored(run)[i].None? ==> ToChecked(run)[i].None?
    ensures ToChecked(run)[i].None? ==> ToMerged(run)[i].None?
    ensures ToMerged(run)[i].None? ==> FullTrace(run)[i].None?
  {
    ThenNone(ToAnchored(run), CriticTrace(run), i);
    ThenNone(ToChecked(run), MergeTrace(run), i);
    ThenNone(ToMerged(run), RankTrace(MergedOf(run), run.settings.floors), i);
  }

  /** A finding is dropped exactly when the diff has no file under its (twice) normalised path. */
  lemma {:induction false} UnknownFileExactly(run: Run, i: nat)
    requires i < |run.raw|
    ensures FateOf(run, i).UnknownFile? <==>
              Text.Normalized(Text.Normalized(run.raw[i].file)) !in Anchors.ByPath(run.files)
  {
    ClusterFile(run, i);
    AnchoredWithItsCluster(run, i);
    UnanchoredExactly(run, CollapseTrace(run)[i].value);
  }

  lemma {:induction false} AnchoredWithItsCluster(run: Run, i: nat)
    requires i < |run.raw|
    ensures CollapseTrace(run)[i].Some? && CollapseTrace(run)[i].value < |Clustered(run)|
    ensures ToAnchored(run)[i] == AnchorTrace(run)[CollapseTrace(run)[i].value]
  {
    ClusterFile(run, i);
    ThenNone(CollapseTrace(run), AnchorTrace(run), i);
  }

  lemma {:induction false} UnanchoredExactly(run: Run, c: nat)
    requires c < |Clustered(run)|
    ensures AnchorTrace(run)[c].None? <==> Text.Normalized(Clustered(run)[c].file) !in Anchors.ByPath(run.files)
  {
    var byPath := Anchors.ByPath(run.files);
    KeptSelects(Anchors.PlacedAll(Clustered(run), byPath, Anchors.SNAP_TOLERANCE));
    Anchors.PlacedIsLocated(Clustered(run)[c], byPath, Anchors.SNAP_TOLERANCE);
  }

  /** Anchoring keeps a finding's line, moves it by at most five, or drops it, and drops it only when no
      anchorable line of its file is within five. */
  lemma {:induction false} MovesByFive(run: Run, c: nat)
    requires c < |Clustered(run)| && AnchorTrace(run)[c].Some? && Clustered(run)[c].line.Some?
    ensures AnchorTrace(run)[c].value < |Anchored(run)|
    ensures var key, line := Text.Normalized(Clustered(run)[c].file), Clustered(run)[c].line.value;
            var to := Anchored(run)[AnchorTrace(run)[c].value].line;
            && key in Anchors.ByPath(run.files)
            && (to.Some? ==> line - 5 <= to.value <= line + 5)
            && (to.None? <==>
                  forall n <- AnchorableLines(Anchors.ByPath(run.files)[key]) :: n < line - 5 || n > line + 5)
  {
    var byPath := Anchors.ByPath(run.files);
    var placed := Anchors.PlacedAll(Clustered(run), byPath, Anchors.SNAP_TOLERANCE);
    KeptSelects(placed);
    Anchors.ReportListsPlaced(Clustered(run), run.files, Anchors.SNAP_TOLERANCE);
    Anchors.PlacedIsLocated(Clustered(run)[c], byPath, Anchors.SNAP_TOLERANCE);
    Anchors.PlacedNearest(Clustered(run)[c], byPath, Anchors.SNAP_TOLERANCE);
  }

  /** An honoured `drop` on the anchored finding that represents this one. */
  ghost predicate Dropped(run: Run, k: nat) {
    var honoured := CriticRun.Honoured(run.settings.critic, Anchored(run), run.files, run.answers);
    run.settings.enableCritic && k in honoured && honoured[k].verdict.Drop?
  }

  lemma {:induction false} UncheckedExactly(run: Run, k: nat)
    requires k < |Anchored(run)|
    ensures CriticTrace(run)[k].None? <==> Dropped(run, k)
    ensures Dropped(run, k) ==>
              Critic.IsAsked(Critic.JudgedOf(Anchored(run), run.files, run.settings.critic.maxFindings), k)
  {
    KeptSelects(Verdicts(run));
    if run.settings.enableCritic && Verdicts(run)[k].None? {
      CriticRun.OnlyAskedFindingsChange(run.settings.critic, Anchored(run), run.files, run.answers, k);
    }
  }

  /** A finding is retracted exactly when an honoured `drop` is on the anchored finding that represents it;
      and that finding was asked about. */
  lemma {:induction false} RetractedExactly(run: Run, i: nat)
    requires i < |run.raw|
    ensures FateOf(run, i).Retracted? <==> ToAnchored(run)[i].Some? && Dropped(run, ToAnchored(run)[i].value)
    ensures FateOf(run, i).Retracted? ==>
              && ToAnchored(run)[i].value < |Anchored(run)|
              && Critic.IsAsked(Critic.JudgedOf(Anchored(run), run.files, run.settings.critic.maxFindings),
                                ToAnchored(run)[i].value)
  {
    AnchoredBound(run, i);
    CheckedBound(run, i);
    if ToAnchored(run)[i].Some? {
      UncheckedExactly(run, ToAnchored(run)[i].value);
    }
  }

  /** A finding is withheld exactly when the merged finding that represents it fails a floor, or ranks below
      every posted finding when the cap is full. */
  lemma {:induction false} WithheldExactly(run: Run, i: nat)
    requires i < |run.raw|
    ensures ToMerged(run)[i].Some? ==> ToMerged(run)[i].value < |MergedOf(run)|
    ensures FateOf(run, i).Withheld?
        <==> ToMerged(run)[i].Some?
             && Ranking.WithheldForCause(MergedOf(run), run.settings.floors, ToMerged(run)[i].value)
  {
    MergedBound(run, i);
    if ToMerged(run)[i].Some? {
      UnrankedExactly(MergedOf(run), run.settings.floors, ToMerged(run)[i].value);
    }
  }

  lemma {:induction false} UnrankedExactly(findings: seq<Finding>, floors: Ranking.Floors, m: nat)
    requires m < |findings|
    ensures RankTrace(findings, floors)[m].None? <==> Ranking.WithheldForCause(findings, floors, m)
  {
    PlaceInIs(Ranking.PostedOrder(findings, floors), m);
    Ranking.NotPostedExactly(findings, floors, m);
  }

  lemma {:induction false} ClusterFile(run: Run, i: nat)
    requires i < |run.raw|
    ensures CollapseTrace(run)[i].value < |Clustered(run)|
    ensures Clustered(run)[CollapseTrace(run)[i].value].file == Text.Normalized(run.raw[i].file)
  {
    var ns, t := Dedupe.NormalizedAll(run.raw), run.settings.tuning;
    Dedupe.LabelsDense(ns, t);
    Dedupe.CollapseClustersSound(ns, t);
    FirstMember(ns, Dedupe.Labels(ns, t), t, i);
    Dedupe.GroupsInhabited(ns, t);
    assert Dedupe.Groups(ns, t)[Dedupe.Labels(ns, t)[i]] == Members(ns, Dedupe.Labels(ns, t), Dedupe.Labels(ns, t)[i]);
  }

  lemma {:induction false} FirstMember(ns: seq<Finding>, labels: seq<nat>, t: Dedupe.Tuning, i: nat)
    requires |labels| == |ns| && i < |ns| && Dedupe.ClustersSound(ns, labels, t)
    ensures var members := Members(ns, labels, labels[i]);
            && members != [] && members[0].file == ns[i].file
            && Dedupe.Merged(members[0].file, members).file == ns[i].file
  {
    var members := Members(ns, labels, labels[i]);
    MembersAre(ns, labels, labels[i]);
    assert members[0] in members;
    var first :| 0 <= first < |ns| && labels[first] == labels[i] && ns[first] == members[0];
  }

  /** The counts the review discloses add up, stage by stage, and the rest is handed on as it came. */
  lemma {:induction false} CountsAddUp(run: Run, skipped: seq<Budget.Skip>, truncated: seq<Budget.Omission>,
                                       focus: Option<string>, reviewerCalls: seq<AgentCall>)
    ensures |Clustered(run)|
         == |Anchored(run)| + |Anchors.AnchoredReport(Clustered(run), run.files, Anchors.SNAP_TOLERANCE).droppedFiles|
    ensures var r := ResultOf(run, skipped, truncated, focus, reviewerCalls);
            && |Anchored(run)| == |Checked(run)| + r.retracted
            && (|MergedOf(run)| == |r.findings| + r.suppressed <==> run.settings.floors.maxPosted >= 0)
            && r.skipped == skipped && r.truncated == truncated && r.focus == focus
  {
    Anchors.AnchoringAccounts(Clustered(run), run.files, Anchors.SNAP_TOLERANCE);
    KeptPlusNone(Verdicts(run));
    Ranking.WithheldAccounts(MergedOf(run), run.settings.floors);
  }

  /** The calls a result records: the reviewers'; the critic's exactly if it is enabled and a finding was asked
      about; and the merge pass's, with what its answer cost, exactly if it is enabled and had a pair to ask. */
  lemma {:induction false} CallsExactly(run: Run, skipped: seq<Budget.Skip>, truncated: seq<Budget.Omission>,
                                        focus: Option<string>, reviewerCalls: seq<AgentCall>)
    ensures var calls := ResultOf(run, skipped, truncated, focus, reviewerCalls).calls;
            var s, n := run.settings, |reviewerCalls|;
            var asked := s.enableCritic
                         && Critic.JudgedOf(Anchored(run), run.files, s.critic.maxFindings) != [];
            var paired := s.enableMerge
                          && LlmMerge.CandidatesOf(Checked(run), s.mergeWindow, s.mergeMaxPairs) != [];
            && |calls| == n + (if asked then 1 else 0) + (if paired then 1 else 0)
            && calls[..n] == reviewerCalls
            && (asked ==> calls[n].agent == CriticPass && calls[n].model == s.critic.model)
            && (paired ==> calls[|calls| - 1] == AgentCall(MergePass, s.critic.model, run.mergeAnswer.inputTokens,
                                                           run.mergeAnswer.outputTokens,
                                                           run.mergeAnswer.cacheReadTokens))
  {
    CriticCallIs(run);
    MergeCallIs(run);
    CallsInOrder(reviewerCalls, CriticCall(run), MergeStageCall(run));
  }

  lemma {:induction false} CriticCallIs(run: Run)
    ensures CriticCall(run).Some?
        <==> run.settings.enableCritic
             && Critic.JudgedOf(Anchored(run), run.files, run.settings.critic.maxFindings) != []
    ensures CriticCall(run).Some? ==>
              CriticCall(run).value.agent == CriticPass && CriticCall(run).value.model == run.settings.critic.model
  {
    CriticRun.RecordedCallIs(run.settings.critic, Anchored(run), run.files, run.answers);
  }

  lemma {:induction false} MergeCallIs(run: Run)
    ensures MergeStageCall(run) ==
              if run.settings.enableMerge
                 && LlmMerge.CandidatesOf(Checked(run), run.settings.mergeWindow, run.settings.mergeMaxPairs) != []
              then Some(AgentCall(MergePass, run.settings.critic.model, run.mergeAnswer.inputTokens,
                                  run.mergeAnswer.outputTokens, run.mergeAnswer.cacheReadTokens))
              else None
  {
  }

  lemma CallsInOrder(reviewerCalls: seq<AgentCall>, critic: Option<AgentCall>, merge: Option<AgentCall>)
    ensures var calls, n := reviewerCalls + Optional(critic) + Optional(merge), |reviewerCalls|;
            && |calls| == n + (if critic.Some? then 1 else 0) + (if merge.Some? then 1 else 0)
            && calls[..n] == reviewerCalls
            && (critic.Some? ==> calls[n] == critic.value)
            && (merge.Some? ==> calls[|calls| - 1] == merge.value)
  {
  }

  /** A stage that is switched off hands its findings on as they are. */
  lemma {:induction false} DisabledStagesPass(run: Run)
    ensures !run.settings.enableCritic ==> Checked(run) == Anchored(run) && RetractedCount(run) == 0
    ensures !run.settings.enableMerge ==> MergedOf(run) == Checked(run)
  {
    if !run.settings.enableCritic {
      KeptAll(Anchored(run), Verdicts(run));
    }
    MergingNothing(Checked(run));
  }
}
