/** Anchor safety: GitHub rejects a whole review if one inline comment names a line that is not in the
    diff (src/reviewhive/github/positions.py).  When can that happen, whatever the models answer? */
module Safety {
  import opened Models
  import opened Sequences
  import opened Diff
  import opened Pipeline
  import Anchors
  import Critic
  import CriticRun
  import MergeClasses
  import Ranking
  import Text

  /** One inline comment: always on the new side of the diff. */
  datatype Comment = Comment(path: string, line: int)

  datatype ReviewPayload = ReviewPayload(comments: seq<Comment>, commitId: Option<string>)

  function ToReviewComment(f: Finding): Option<Comment> {
    if f.line.Some? then Some(Comment(f.file, f.line.value)) else None
  }

  function InlineComments(findings: seq<Finding>): (each: seq<Option<Comment>>)
    ensures |each| == |findings|
  {
    seq(|findings|, i requires 0 <= i < |findings| => ToReviewComment(findings[i]))
  }

  function BuildReview(findings: seq<Finding>, commitId: Option<string>): ReviewPayload {
    ReviewPayload(Kept(InlineComments(findings)), commitId)
  }

  function Degrade(payload: ReviewPayload): ReviewPayload {
    ReviewPayload([], None)
  }

  /** The line is one the diff lets a comment be attached to. */
  ghost predicate InDiff(files: seq<DiffFile>, path: string, line: int) {
    exists f :: f in files && f.path == path && line in AnchorableLines(f)
  }

  ghost predicate AllInDiff(files: seq<DiffFile>, payload: ReviewPayload) {
    forall c <- payload.comments :: InDiff(files, c.path, c.line)
  }

  /** What the diff must satisfy: every path the pipeline can put on an anchored finding — a normalised
      path, or that path normalised once more by a merge — leads back to a file holding the line. */
  ghost predicate PathsLeadBack(files: seq<DiffFile>, merges: bool) {
    forall k <- Anchors.ByPath(files), l <- AnchorableLines(Anchors.ByPath(files)[k]) ::
      InDiff(files, k, l) && (merges ==> InDiff(files, Text.Normalized(k), l))
  }

  /** Clean paths always lead back to themselves. */
  lemma {:induction false} CleanPathsLeadBack(files: seq<DiffFile>, merges: bool)
    requires forall f <- files :: Text.Clean(f.path)
    ensures PathsLeadBack(files, merges)
  {
    var byPath := Anchors.ByPath(files);
    Anchors.ByPathIs(files);
    forall k, l | k in byPath && l in AnchorableLines(byPath[k])
      ensures InDiff(files, k, l) && InDiff(files, Text.Normalized(k), l)
    {
      assert byPath[k] in files;
      Text.NormalizedFixpoint(byPath[k].path);
    }
  }

  predicate MergesAnchored(s: Settings) {
    s.enableMerge && s.mergeWindow >= 0
  }

  lemma {:induction false} CheckedAreLocated(run: Run, j: nat)
    requires j < |Checked(run)|
    ensures Anchors.Located(Checked(run)[j], Anchors.ByPath(run.files))
  {
    var findings, each := Anchored(run), Verdicts(run);
    KeptSelects(each);
    var i :| 0 <= i < |each| && KeptAt(each)[i] == Some(j);
    Anchors.AnchoredAreLocated(Clustered(run), run.files, Anchors.SNAP_TOLERANCE);
    assert findings[i] in findings;
    VerdictKeepsPlace(run, i);
  }

  lemma {:induction false} VerdictKeepsPlace(run: Run, i: nat)
    requires i < |Anchored(run)| && Verdicts(run)[i].Some?
    ensures Verdicts(run)[i].value.file == Anchored(run)[i].file
    ensures Verdicts(run)[i].value.line == Anchored(run)[i].line
  {
    if run.settings.enableCritic {
      var seen := CriticRun.Honoured(run.settings.critic, Anchored(run), run.files, run.answers);
      Critic.VerdictsAreBounded(Anchored(run)[i], Critic.VerdictOn(seen, i));
    }
  }

  /** A merged finding keeps the path of a checked one, or has it normalised once more — and the latter,
      for an anchored finding, only if anchored findings are merged at all. */
  lemma {:induction false} MergedStandsWhere(run: Run, j: nat) returns (i: nat)
    requires j < |MergedOf(run)|
    ensures i < |Checked(run)|
    ensures MergedOf(run)[j].line == Checked(run)[i].line
    ensures MergedOf(run)[j].line.Some? ==>
              || MergedOf(run)[j].file == Checked(run)[i].file
              || (MergesAnchored(run.settings) && MergedOf(run)[j].file == Text.Normalized(Checked(run)[i].file))
  {
    var findings, s := Checked(run), run.settings;
    if MergesAnchored(s) {
      i := MergeClasses.MergedStandsWhere(findings, s.mergeWindow, s.mergeMaxPairs, Decisions(run), j);
    } else {
      i := LoneStandsWhere(run, j);
    }
  }

  /** With a negative window no two anchored findings are merged. */
  lemma {:induction false} LoneStandsWhere(run: Run, j: nat) returns (i: nat)
    requires j < |MergedOf(run)| && !MergesAnchored(run.settings)
    ensures i < |Checked(run)| && MergedOf(run)[j].line == Checked(run)[i].line
    ensures MergedOf(run)[j].line.Some? ==> MergedOf(run)[j].file == Checked(run)[i].file
  {
    var findings, s := Checked(run), run.settings;
    if !s.enableMerge {
      MergingNothing(findings);
      i := j;
    } else {
      i := MergeClasses.MergedStandsWhere(findings, s.mergeWindow, s.mergeMaxPairs, Decisions(run), j);
      if MergedOf(run)[j].line.Some? {
        i := MergeClasses.NegativeWindowMergesNothing(findings, s.mergeWindow, s.mergeMaxPairs, Decisions(run), j);
      }
    }
  }

  /** Every inline comment names a file of the diff and a line of it, whatever was reported and whatever
      the models answered, if the diff's paths lead back. */
  lemma {:induction false} CommentsAreInDiff(run: Run, commitId: Option<string>)
    requires PathsLeadBack(run.files, MergesAnchored(run.settings))
    ensures AllInDiff(run.files, BuildReview(PostedOf(run), commitId))
  {
    var posted, byPath := PostedOf(run), Anchors.ByPath(run.files);
    var each: seq<Option<Comment>> := InlineComments(posted);
    KeptSelects(each);
    forall c: Comment | c in Kept(each)
      ensures InDiff(run.files, c.path, c.line)
    {
      var p :| 0 <= p < |Kept(each)| && Kept(each)[p] == c;
      var q :| 0 <= q < |each| && KeptAt(each)[q] == Some(p);
      assert each[q] == Some(c);
      var j := Ranking.PostedOrder(MergedOf(run), run.settings.floors)[q];
      assert posted[q] == MergedOf(run)[j];
      var i := MergedStandsWhere(run, j);
      CheckedAreLocated(run, i);
      assert Checked(run)[i].file in byPath && c.line in AnchorableLines(byPath[Checked(run)[i].file]);
    }
  }
}
