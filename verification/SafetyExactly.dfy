/** Anchor safety, both ways round: exactly which diffs GitHub will never be sent a bad comment for. */
module SafetyExactly {
  import opened Models
  import opened Diff
  import opened Pipeline
  import opened Reports
  import opened Safety
  import Anchors
  import Text

  /** No run over this diff with these settings, made of what reviewers can report, posts a comment that
      is not in the diff. */
  ghost predicate NeverRejected(files: seq<DiffFile>, s: Settings) {
    forall run: Run :: run.files == files && run.settings == s && (forall f <- run.raw :: ReportedByAgent(f)) ==>
      AllInDiff(files, BuildReview(PostedOf(run), None))
  }

  /** Anchor safety holds exactly when the diff's paths lead back — a condition on the diff and on whether
      anchored findings are merged, which clean paths meet and a path like `a/x.py` does not. */
  lemma {:induction false} SafeExactlyWhenPathsLeadBack(files: seq<DiffFile>, s: Settings)
    requires LetsReportsThrough(s)
    requires forall f <- files, l <- AnchorableLines(f) :: l > 0
    ensures NeverRejected(files, s) <==> PathsLeadBack(files, MergesAnchored(s))
  {
    if PathsLeadBack(files, MergesAnchored(s)) {
      forall run: Run | run.files == files && run.settings == s
        ensures AllInDiff(files, BuildReview(PostedOf(run), None))
      {
        CommentsAreInDiff(run, None);
      }
    }
    if NeverRejected(files, s) {
      Anchors.ByPathIs(files);
      forall k, l | k in Anchors.ByPath(files) && l in AnchorableLines(Anchors.ByPath(files)[k])
        ensures InDiff(files, k, l) && (MergesAnchored(s) ==> InDiff(files, Text.Normalized(k), l))
      {
        assert Anchors.ByPath(files)[k] in files && l > 0;
        OneReportShows(files, s, k, l);
        if MergesAnchored(s) {
          TwoReportsShow(files, s, k, l);
        }
      }
    }
  }

  lemma {:induction false} OneReportShows(files: seq<DiffFile>, s: Settings, k: string, l: int)
    requires LetsReportsThrough(s) && NeverRejected(files, s)
    requires k in Anchors.ByPath(files) && l in AnchorableLines(Anchors.ByPath(files)[k]) && l > 0
    ensures InDiff(files, k, l)
  {
    var run := OneReportRun(files, s, k, l);
    assert AllInDiff(files, BuildReview(PostedOf(run), None));
    assert Comment(k, l) in BuildReview(PostedOf(run), None).comments;
  }

  lemma {:induction false} TwoReportsShow(files: seq<DiffFile>, s: Settings, k: string, l: int)
    requires LetsReportsThrough(s) && MergesAnchored(s) && NeverRejected(files, s)
    requires k in Anchors.ByPath(files) && l in AnchorableLines(Anchors.ByPath(files)[k]) && l > 0
    ensures InDiff(files, Text.Normalized(k), l)
  {
    var run := TwoReportsRun(files, s, k, l);
    assert AllInDiff(files, BuildReview(PostedOf(run), None));
    assert Comment(Text.Normalized(k), l) in BuildReview(PostedOf(run), None).comments;
  }

  /** A file in a directory called `a`: its comments would name a file the diff does not have. */
  lemma {:induction false} DirectoryNamedLikeAPrefix(file: DiffFile, line: int, merges: bool)
    requires file.path == "a/x.py" && line in AnchorableLines(file)
    ensures !PathsLeadBack([file], merges)
  {
    Text.NormalizedOfPrefixed("x.py");
    assert "a/" + "x.py" == "a/x.py";
    assert Text.Normalized(file.path) == "x.py";
    var files := [file];
    assert files[..0] == [] && Anchors.ByPath(files) == map["x.py" := file];
    assert "x.py" in Anchors.ByPath(files);
    assert !InDiff(files, "x.py", line);
  }
}
