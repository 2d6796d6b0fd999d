/** A run in which two reports by one agent are merged (src/reviewhive/graph/llm_merge.py): each is paired
    with a third finding by another agent, and both pairs are answered yes. */
module SharedClass {
  import opened Models
  import opened Diff
  import opened Pipeline
  import opened LlmMerge
  import opened MergeAnswers
  import opened UnionFind
  import Anchors
  import Dedupe
  import MergeClasses
  import Repeats
  import Reports
  import Text

  /** A file-level report. */
  function Claim(path: string, title: string, source: Agent): Finding {
    Finding(path, None, High, "category", title, "body", 1.0, [source], false)
  }

  function Claims(path: string): (findings: seq<Finding>)
    ensures |findings| == 3
  {
    [Claim(path, "x", Security), Claim(path, "y", Style), Claim(path, "z", Security)]
  }

  lemma {:induction false} LetterToken(c: char)
    requires 'x' <= c <= 'z'
    ensures Text.TitleTokens([c]) == {[c]}
  {
    assert Text.Lower([c]) == [c];
    assert Text.JoinHyphens([c], 1) == [];
    assert Text.JoinHyphens([c], 0) == [c];
    assert [c][1..] == [] && [] + [c] == [c];
    assert Text.Words([c], []) == Text.Words([], [c]);
    assert !Text.IsStopword([c]);
  }

  lemma {:induction false} DifferentLetters(c: char, d: char)
    requires 'x' <= c <= 'z' && 'x' <= d <= 'z' && c != d
    ensures Text.Jaccard(Text.TitleTokens([c]), Text.TitleTokens([d])) == 0.0
  {
    LetterToken(c);
    LetterToken(d);
    assert [c][0] != [d][0];
    assert {[c]} * {[d]} == {};
  }

  lemma {:induction false} ClaimsApart(path: string, t: Dedupe.Tuning)
    requires t.similarity > 0.0
    ensures Repeats.Apart(Claims(path), t)
  {
    DifferentLetters('x', 'y');
    DifferentLetters('x', 'z');
    DifferentLetters('y', 'z');
  }

  lemma {:induction false} ClaimsPlaced(path: string, files: seq<DiffFile>)
    requires path in Anchors.ByPath(files) && Text.Normalized(path) == path
    ensures Anchors.AnchoredReport(Claims(path), files, Anchors.SNAP_TOLERANCE).findings == Claims(path)
  {
    Reports.PlacedOneByOne(Claims(path), files, Anchors.SNAP_TOLERANCE, Claims(path));
  }

  lemma {:induction false} TwoPairs(ask: Asking)
    requires ask(0, 1) && !ask(0, 2) && ask(1, 2)
    ensures PairsBelow(ask, 3, 3) == [Edge(0, 1), Edge(1, 2)]
  {
    assert RowPairs(ask, 0, 2) == [Edge(0, 1)];
    assert RowPairs(ask, 0, 3) == [Edge(0, 1)];
    assert RowPairs(ask, 1, 3) == [Edge(1, 2)];
    assert RowPairs(ask, 2, 3) == [];
    assert PairsBelow(ask, 3, 1) == [Edge(0, 1)];
    assert PairsBelow(ask, 3, 2) == [Edge(0, 1), Edge(1, 2)];
  }

  /** The two reports by one agent are not a candidate pair; both others are. */
  lemma {:induction false} ClaimCandidates(path: string, window: int, maxPairs: int)
    requires maxPairs >= 2
    ensures CandidatesOf(Claims(path), window, maxPairs) == [Edge(0, 1), Edge(1, 2)]
  {
    var findings := Claims(path);
    var ask := AsksAbout(findings, PathKeys(findings), window);
    assert ShareAgent(findings[0], findings[2]) by {
      assert Security in findings[0].sources;
    }
    assert ask(0, 1) && !ask(0, 2) && ask(1, 2);
    TwoPairs(ask);
  }

  lemma {:induction false} OneClass(findings: seq<Finding>)
    requires |findings| == 3
    ensures |Merging(findings, [Edge(0, 1), Edge(1, 2)])| == 1
  {
    MergeClasses.ChainOfThree();
    var roots := RootsAfter(3, [Edge(0, 1), Edge(1, 2)]);
    assert roots == [2, 2, 2] && roots[2] == 2 && 0 !in roots && 1 !in roots;
    assert MergedBelow(findings, roots, 1) == [];
    assert MergedBelow(findings, roots, 2) == [];
  }

  /** The claims come out of `collapse`, of anchoring and of a silent critic as they went in. */
  lemma {:induction false} ClaimsComeThrough(run: Run, k: string)
    requires k in Anchors.ByPath(run.files) && Text.Normalized(k) == k
    requires run.settings.tuning.similarity > 0.0 && run.raw == Claims(k) && run.answers == map[]
    ensures Clustered(run) == Claims(k) && Checked(run) == Claims(k)
  {
    ClaimsApart(k, run.settings.tuning);
    Repeats.UnchangedExactly(Claims(k), run.settings.tuning);
    ClaimsPlaced(k, run.files);
    Reports.CriticSilent(run);
  }

  lemma {:induction false} ClaimEdges(path: string, window: int, maxPairs: int)
    requires maxPairs >= 2
    ensures MergeClasses.EdgesOf(Claims(path), window, maxPairs, AllYes([Edge(0, 1), Edge(1, 2)]))
         == [Edge(0, 1), Edge(1, 2)]
  {
    ClaimCandidates(path, window, maxPairs);
    YesEdges(Claims(path), window, maxPairs, [Edge(0, 1), Edge(1, 2)]);
  }

  lemma {:induction false} OneAgentTwice(path: string)
    ensures ShareAgent(Claims(path)[0], Claims(path)[2])
  {
    assert Security in Claims(path)[0].sources;
  }

  /** The claims on a diff, both candidate pairs answered yes. */
  function ClaimsRun(files: seq<DiffFile>, s: Settings, k: string): Run {
    Run(s, Claims(k), files, map[], MergeAnswer(Some(AllYes([Edge(0, 1), Edge(1, 2)])), 0, 0, 0))
  }

  lemma {:induction false} ClaimsMerge(run: Run, k: string)
    requires Checked(run) == Claims(k) && run.settings.mergeMaxPairs >= 2
    requires Decisions(run) == AllYes([Edge(0, 1), Edge(1, 2)])
    ensures |MergedOf(run)| == 1
  {
    ClaimEdges(k, run.settings.mergeWindow, run.settings.mergeMaxPairs);
    OneClass(Claims(k));
  }

  /** Sources are disjoint in every pair asked about, but not in a class.  In this run, over any diff and any
      settings with the merge pass on, two reports by Security come out of `collapse` and of the critic as
      they went in, are never asked about together, and end in one finding. */
  lemma {:induction false} ClassCanShareAnAgent(files: seq<DiffFile>, s: Settings, k: string)
    requires k in Anchors.ByPath(files) && Text.Normalized(k) == k
    requires s.tuning.similarity > 0.0 && s.enableMerge && s.mergeMaxPairs >= 2
    ensures Clustered(ClaimsRun(files, s, k)) == Claims(k) && Checked(ClaimsRun(files, s, k)) == Claims(k)
    ensures ShareAgent(Claims(k)[0], Claims(k)[2])
    ensures Edge(0, 2) !in CandidatesOf(Claims(k), s.mergeWindow, s.mergeMaxPairs)
    ensures |MergedOf(ClaimsRun(files, s, k))| == 1
  {
    ClaimsComeThrough(ClaimsRun(files, s, k), k);
    OneAgentTwice(k);
    ClaimCandidates(k, s.mergeWindow, s.mergeMaxPairs);
    ClaimsMerge(ClaimsRun(files, s, k), k);
  }
}
