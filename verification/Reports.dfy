/** Runs that put a comment where a diff's paths lead: what one report, or two, of a real line under a
    disguised path come to. */
module Reports {
  import opened Models
  import opened Sequences
  import opened Diff
  import opened Pipeline
  import opened Safety
  import Anchors
  import CriticRun
  import Dedupe
  import LlmMerge
  import MergeClasses
  import Ranking
  import Repeats
  import Text
  import UnionFind

  /** Settings under which a sure, severe report is posted, and equal titles are not needed to keep two
      reports apart.  The defaults are such settings. */
  predicate LetsReportsThrough(s: Settings) {
    && s.floors.minConfidence <= 1.0
    && s.floors.maxPosted >= 1
    && s.tuning.similarity > 0.0
  }

  /** A report a reviewer could make: untitled, so that it is nobody's near duplicate. */
  function Report(path: string, line: int, source: Agent): Finding {
    Finding(path, Some(line), High, "category", "", "body", 1.0, [source], false)
  }

  /** The path as reported: two diff prefixes in front of the key, one for each normalisation. */
  function Disguised(k: string): string {
    "a/" + ("a/" + k)
  }

  lemma {:induction false} DisguiseComesOff(k: string, path: string)
    requires k == Text.Normalized(path)
    ensures Text.Normalized(Disguised(k)) == "a/" + k && Text.Normalized("a/" + k) == k
  {
    Text.NormalizedShape(path);
    Text.NormalizedOfPrefixed(k);
    var once := "a/" + k;
    assert once[|once| - 1] == if k == "" then '/' else k[|k| - 1];
    assert '\\' !in once;
    Text.NormalizedOfPrefixed(once);
  }

  lemma {:induction false} UntitledApart(ns: seq<Finding>, t: Dedupe.Tuning)
    requires t.similarity > 0.0 && forall i :: 0 <= i < |ns| ==> ns[i].title == ""
    ensures Repeats.Apart(ns, t)
  {
    assert Text.Lower("") == "";
    assert Text.TitleTokens("") == {};
  }

  lemma {:induction false} UntitledCollapseAlone(raw: seq<Finding>, t: Dedupe.Tuning)
    requires t.similarity > 0.0 && forall i :: 0 <= i < |raw| ==> raw[i].title == ""
    ensures Dedupe.Collapsed(raw, t) == Dedupe.NormalizedAll(raw)
  {
    var ns := Dedupe.NormalizedAll(raw);
    UntitledApart(ns, t);
    Repeats.ApartCollapse(raw, t);
  }

  lemma {:induction false} PlacedOneByOne(findings: seq<Finding>, files: seq<DiffFile>, tolerance: int,
                                          out: seq<Finding>)
    requires |out| == |findings|
    requires forall i :: 0 <= i < |findings| ==>
               Anchors.Placed(findings[i], Anchors.ByPath(files), tolerance) == Some(out[i])
    ensures Anchors.AnchoredReport(findings, files, tolerance).findings == out
  {
    var placed := Anchors.PlacedAll(findings, Anchors.ByPath(files), tolerance);
    Anchors.AnchoringAccounts(findings, files, tolerance);
    assert forall i :: 0 <= i < |out| ==> placed[i] == Some(out[i]);
    KeptAll(out, placed);
  }

  /** Reports of a real line under a disguised path come through clustering and anchoring at the key. */
  lemma {:induction false} ReportsAreAnchored(run: Run, k: string, line: int, sources: seq<Agent>)
    requires k in Anchors.ByPath(run.files) && line in AnchorableLines(Anchors.ByPath(run.files)[k])
    requires run.settings.tuning.similarity > 0.0
    requires run.raw == seq(|sources|, i requires 0 <= i < |sources| => Report(Disguised(k), line, sources[i]))
    ensures Anchored(run) == seq(|sources|, i requires 0 <= i < |sources| => Report(k, line, sources[i]))
  {
    var byPath := Anchors.ByPath(run.files);
    Anchors.ByPathIs(run.files);
    DisguiseComesOff(k, byPath[k].path);
    UntitledCollapseAlone(run.raw, run.settings.tuning);
    var findings := Dedupe.NormalizedAll(run.raw);
    forall i | 0 <= i < |sources|
      ensures Anchors.Placed(findings[i], byPath, Anchors.SNAP_TOLERANCE) == Some(Report(k, line, sources[i]))
    {
      assert findings[i] == Report("a/" + k, line, sources[i]);
      SnapsToAnAnchor(byPath[k], line, Anchors.SNAP_TOLERANCE);
    }
    PlacedOneByOne(findings, run.files, Anchors.SNAP_TOLERANCE,
                   seq(|sources|, i requires 0 <= i < |sources| => Report(k, line, sources[i])));
  }

  lemma {:induction false} LoneSurvivorIsPosted(f: Finding, floors: Ranking.Floors)
    requires f.severity == High && f.confidence == 1.0
    requires floors.minConfidence <= 1.0 && floors.maxPosted >= 1
    ensures Ranking.Posted([f], floors) == [f]
  {
    LoneIsRanked(f, floors);
    assert Ranking.PostedOrder([f], floors) == [0];
    assert At([f], [0]) == [f];
  }

  lemma {:induction false} LoneIsRanked(f: Finding, floors: Ranking.Floors)
    requires Ranking.Survives(f, floors)
    ensures Ranking.Ranking([f], floors) == [0]
  {
    LoneSurvivor(f, floors);
    SortOfOne(Ranking.Keys([f]), Ranking.KeyLe);
  }

  lemma {:induction false} LoneSurvivor(f: Finding, floors: Ranking.Floors)
    requires Ranking.Survives(f, floors)
    ensures Ranking.Survivors([f], floors) == [0]
  {
    assert [f][..0] == [];
    assert Ranking.Survivors([f][..0], floors) == [];
  }

  lemma {:induction false} SortOfOne<K>(keys: seq<K>, le: (K, K) -> bool)
    requires |keys| == 1
    ensures StableOrder(keys, le, [0]) == [0]
  {
    var order := StableOrder(keys, le, [0]);
    assert order[0] < 1;
  }

  lemma {:induction false} CriticSilent(run: Run)
    requires run.answers == map[]
    ensures Checked(run) == Anchored(run)
  {
    if run.settings.enableCritic {
      CriticRun.FailedCriticChangesNothing(run.settings.critic, Anchored(run), run.files);
    } else {
      KeptAll(Anchored(run), Verdicts(run));
    }
  }

  /** One report, no answers: the comment lands on the key. */
  lemma {:induction false} OneReportRun(files: seq<DiffFile>, s: Settings, k: string, line: int) returns (run: Run)
    requires LetsReportsThrough(s)
    requires k in Anchors.ByPath(files) && line in AnchorableLines(Anchors.ByPath(files)[k])
    ensures run.settings == s && run.files == files && run.raw == [Report(Disguised(k), line, Security)]
    ensures BuildReview(PostedOf(run), None).comments == [Comment(k, line)]
  {
    run := Run(s, [Report(Disguised(k), line, Security)], files, map[], MergeAnswer(None, 0, 0, 0));
    var sources := [Security];
    assert run.raw == seq(|sources|, i requires 0 <= i < |sources| => Report(Disguised(k), line, sources[i]));
    ReportsAreAnchored(run, k, line, sources);
    var f := Report(k, line, Security);
    assert Anchored(run) == [f];
    CriticSilent(run);
    MergingNothing([f]);
    LoneSurvivorIsPosted(f, s.floors);
    OneComment(f, Comment(k, line));
  }

  lemma {:induction false} OneComment(f: Finding, c: Comment)
    requires ToReviewComment(f) == Some(c)
    ensures BuildReview([f], None).comments == [c]
  {
    var each: seq<Option<Comment>> := InlineComments([f]);
    assert each == [Some(c)];
    assert Kept(each) == Kept(each[..0]) + [c];
    assert Kept(each[..0]) == [];
  }

  /** Two reports of one line by two reviewers, judged the same: one comment, on the key normalised once
      more. */
  lemma {:induction false} TwoReportsRun(files: seq<DiffFile>, s: Settings, k: string, line: int) returns (run: Run)
    requires LetsReportsThrough(s) && MergesAnchored(s)
    requires k in Anchors.ByPath(files) && line in AnchorableLines(Anchors.ByPath(files)[k])
    ensures run.settings == s && run.files == files
    ensures run.raw == [Report(Disguised(k), line, Security), Report(Disguised(k), line, Style)]
    ensures BuildReview(PostedOf(run), None).comments == [Comment(Text.Normalized(k), line)]
  {
    var decisions := [LlmMerge.Decision(0, 1, true)];
    run := Run(s, [Report(Disguised(k), line, Security), Report(Disguised(k), line, Style)], files, map[],
               MergeAnswer(Some(decisions), 0, 0, 0));
    var f, g := Report(k, line, Security), Report(k, line, Style);
    TwoReportsAnchored(run, k, line);
    CriticSilent(run);
    PairIsMerged(f, g, s.mergeWindow, s.mergeMaxPairs);
    assert Edges(run) == [UnionFind.Edge(0, 1)];
    var merged := Dedupe.Merged(Text.Normalized(k), [f, g]);
    assert MergedOf(run) == [merged];
    PairMerged(Text.Normalized(k), f, g);
    LoneSurvivorIsPosted(merged, s.floors);
    OneComment(merged, Comment(Text.Normalized(k), line));
  }

  lemma {:induction false} TwoReportsAnchored(run: Run, k: string, line: int)
    requires k in Anchors.ByPath(run.files) && line in AnchorableLines(Anchors.ByPath(run.files)[k])
    requires run.settings.tuning.similarity > 0.0
    requires run.raw == [Report(Disguised(k), line, Security), Report(Disguised(k), line, Style)]
    ensures Anchored(run) == [Report(k, line, Security), Report(k, line, Style)]
  {
    var sources := [Security, Style];
    assert run.raw == seq(|sources|, i requires 0 <= i < |sources| => Report(Disguised(k), line, sources[i]));
    ReportsAreAnchored(run, k, line, sources);
  }

  lemma {:induction false} PairMerged(path: string, f: Finding, g: Finding)
    requires f.severity == High && f.confidence == 1.0 && f.line.Some?
    requires g == f.(sources := g.sources)
    ensures var m := Dedupe.Merged(path, [f, g]);
            m.file == path && m.line == f.line && m.severity == High && m.confidence == 1.0
  {
    Dedupe.MergeKeeps(path, [f, g]);
    assert [f, g][0] in [f, g];
    assert f in [f, g];
  }

  lemma {:induction false} PairIsMerged(f: Finding, g: Finding, window: int, maxPairs: int)
    requires f.file == g.file && f.line.Some? && g.line == f.line && window >= 0
    requires f.sources == [Security] && g.sources == [Style]
    ensures MergeClasses.EdgesOf([f, g], window, maxPairs, [LlmMerge.Decision(0, 1, true)]) == [UnionFind.Edge(0, 1)]
    ensures LlmMerge.Merging([f, g], [UnionFind.Edge(0, 1)]) == [Dedupe.Merged(Text.Normalized(f.file), [f, g])]
  {
    PairIsAsked(f, g, window);
    OnePairHonoured(UnionFind.Edge(0, 1), [UnionFind.Edge(0, 1)]);
    PairClass(f, g);
  }

  lemma {:induction false} PairIsAsked(f: Finding, g: Finding, window: int)
    requires f.file == g.file && f.line.Some? && g.line == f.line && window >= 0
    requires f.sources == [Security] && g.sources == [Style]
    ensures LlmMerge.PairsBelow(LlmMerge.AsksAbout([f, g], LlmMerge.PathKeys([f, g]), window), 2, 2)
         == [UnionFind.Edge(0, 1)]
  {
    var ask := LlmMerge.AsksAbout([f, g], LlmMerge.PathKeys([f, g]), window);
    assert ask(0, 1);
    OnlyPair(ask);
  }

  lemma {:induction false} OnlyPair(ask: LlmMerge.Asking)
    requires ask(0, 1)
    ensures LlmMerge.PairsBelow(ask, 2, 2) == [UnionFind.Edge(0, 1)]
  {
    assert LlmMerge.RowPairs(ask, 0, 2) == [UnionFind.Edge(0, 1)];
    assert LlmMerge.RowPairs(ask, 1, 2) == [];
    assert LlmMerge.PairsBelow(ask, 2, 1) == [UnionFind.Edge(0, 1)];
  }

  lemma {:induction false} OnePairHonoured(e: UnionFind.Edge, pairs: seq<UnionFind.Edge>)
    requires e in pairs && e.left <= e.right
    ensures LlmMerge.HonouredEdges([LlmMerge.Decision(e.left, e.right, true)], pairs) == [e]
  {
    var decisions := [LlmMerge.Decision(e.left, e.right, true)];
    assert decisions[..0] == [];
    assert LlmMerge.HonouredEdges(decisions[..0], pairs) == [];
  }

  lemma {:induction false} PairClass(f: Finding, g: Finding)
    ensures LlmMerge.Merging([f, g], [UnionFind.Edge(0, 1)]) == [Dedupe.Merged(Text.Normalized(f.file), [f, g])]
  {
    var findings, edges := [f, g], [UnionFind.Edge(0, 1)];
    var roots := UnionFind.RootsAfter(2, edges);
    assert edges[..0] == [] && UnionFind.RootsAfter(2, edges[..0]) == Upto(2);
    assert roots == [1, 1];
    assert findings[..1] == [f] && roots[..1] == [1];
    MembersOfOne(findings[..1], roots[..1], 1, 0);
    assert Members(findings, roots, 1) == [f, g];
    assert roots[1] == 1 && 1 in roots && 0 !in roots;
    assert LlmMerge.MergedBelow(findings, roots, 0) == [];
    assert LlmMerge.MergedBelow(findings, roots, 1) == [];
    assert LlmMerge.MergedBelow(findings, roots, 2) == [LlmMerge.MergedClass(findings, roots, 1)];
  }
}
