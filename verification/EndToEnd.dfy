/** From the parsed diff to the pull request: budgeting in front of the pipeline
    (src/reviewhive/graph/nodes.py). */
module EndToEnd {
  import opened Models
  import opened Sequences
  import opened Diff
  import opened Pipeline
  import Budget
  import Critic
  import CriticRun
  import Fitting
  import Safety
  import Text
  import Windows

  // ---------------------------------------------------------------- what budgeting leaves of a file

  /** The file reviewed is a parsed one, perhaps with hunks left out. */
  ghost predicate ComesFrom(f: DiffFile, files: seq<DiffFile>, maxLines: int) {
    exists p :: p in files && f == Truncated(p, maxLines)
  }

  lemma {:induction false} PassingComeFrom(files: seq<DiffFile>, noise: Budget.NoiseClassifier, maxLines: int)
    ensures forall f <- Budget.Passing(files, noise, maxLines) :: ComesFrom(f, files, maxLines)
  {
    if files != [] {
      var n := |files| - 1;
      PassingComeFrom(files[..n], noise, maxLines);
      assert files == files[..n] + [files[n]];
      Budget.OneMoreFile(files[..n], files[n], noise, maxLines);
      forall f | f in Budget.Passing(files, noise, maxLines)
        ensures ComesFrom(f, files, maxLines)
      {
        if f in Budget.Passing(files[..n], noise, maxLines) {
          var p :| p in files[..n] && f == Truncated(p, maxLines);
          assert p in files;
        } else {
          assert files[n] in files && f == Truncated(files[n], maxLines);
        }
      }
    }
  }

  lemma {:induction false} AtChooses<T>(xs: seq<T>, order: seq<nat>)
    requires Within(order, |xs|)
    ensures forall x <- At(xs, order) :: x in xs
  {
    forall x | x in At(xs, order)
      ensures x in xs
    {
      var p :| 0 <= p < |order| && At(xs, order)[p] == x;
      assert xs[order[p]] == x;
    }
  }

  lemma {:induction false} ReviewedComeFrom(parsed: Budget.ParsedDiff, count: Budget.TokenCounter,
                                            noise: Budget.NoiseClassifier, limits: Budget.Limits)
    ensures forall f <- Budget.Reviewed(parsed, count, noise, limits) ::
              ComesFrom(f, parsed.files, limits.maxFileDiffLines)
  {
    var passing := Budget.Passing(parsed.files, noise, limits.maxFileDiffLines);
    PassingComeFrom(parsed.files, noise, limits.maxFileDiffLines);
    if passing != [] {
      var fitted := Budget.Fitted(passing, count, limits.maxPromptTokens);
      if Budget.Overflows(passing, count, limits.maxPromptTokens) {
        AtChooses(passing, Fitting.KeptOrder(Budget.Sizes(passing, count), limits.maxPromptTokens));
      }
      AtChooses(fitted, Budget.ByPathOrder(fitted));
    }
  }

  // ---------------------------------------------------------------- comments, in the parsed diff

  lemma {:induction false} InReviewedInParsed(files: seq<DiffFile>, parsed: seq<DiffFile>, maxLines: int,
                                              path: string, line: int)
    requires forall f <- files :: ComesFrom(f, parsed, maxLines)
    requires Safety.InDiff(files, path, line)
    ensures Safety.InDiff(parsed, path, line)
  {
    var f :| f in files && f.path == path && line in AnchorableLines(f);
    var p :| p in parsed && f == Truncated(p, maxLines);
    TruncationConserves(p, maxLines);
    Budget.TruncationKeepsPath(p, maxLines);
    assert p in parsed && p.path == path && line in AnchorableLines(p);
  }

  /** Every inline comment is on an anchorable line of the parsed diff, whatever was filtered, truncated or
      dropped, if the reviewed files' paths lead back. */
  lemma {:induction false} CommentsAreInParsedDiff(parsed: Budget.ParsedDiff, count: Budget.TokenCounter,
                                                   noise: Budget.NoiseClassifier, limits: Budget.Limits, run: Run,
                                                   commitId: Option<string>)
    requires run.files == Budget.Reviewed(parsed, count, noise, limits)
    requires Safety.PathsLeadBack(run.files, Safety.MergesAnchored(run.settings))
    ensures Safety.AllInDiff(parsed.files, Safety.BuildReview(PostedOf(run), commitId))
  {
    var comments := Safety.BuildReview(PostedOf(run), commitId).comments;
    Safety.CommentsAreInDiff(run, commitId);
    ReviewedComeFrom(parsed, count, noise, limits);
    forall c | c in comments
      ensures Safety.InDiff(parsed.files, c.path, c.line)
    {
      InReviewedInParsed(run.files, parsed.files, limits.maxFileDiffLines, c.path, c.line);
    }
  }

  /** Clean parsed paths are enough. */
  lemma {:induction false} CleanDiffIsSafe(parsed: Budget.ParsedDiff, count: Budget.TokenCounter,
                                           noise: Budget.NoiseClassifier, limits: Budget.Limits, run: Run,
                                           commitId: Option<string>)
    requires run.files == Budget.Reviewed(parsed, count, noise, limits)
    requires forall p <- parsed.files :: Text.Clean(p.path)
    ensures Safety.AllInDiff(parsed.files, Safety.BuildReview(PostedOf(run), commitId))
  {
    ReviewedComeFrom(parsed, count, noise, limits);
    forall f | f in run.files
      ensures Text.Clean(f.path)
    {
      var p :| p in parsed.files && f == Truncated(p, limits.maxFileDiffLines);
      Budget.TruncationKeepsPath(p, limits.maxFileDiffLines);
    }
    Safety.CleanPathsLeadBack(run.files, Safety.MergesAnchored(run.settings));
    CommentsAreInParsedDiff(parsed, count, noise, limits, run, commitId);
  }

  // ---------------------------------------------------------------- evidence, from the parsed hunks

  /** The file's hunks were built from hunks numbered as the unified format numbers them. */
  ghost predicate UnifiedlyNumbered(file: DiffFile) {
    forall h <- file.hunks :: exists hunk :: WellFormed(hunk) && h == HunkOf(hunk)
  }

  lemma {:induction false} NumberedAgrees(file: DiffFile)
    requires UnifiedlyNumbered(file)
    ensures forall h <- file.hunks :: GutterAgrees(h)
  {
    forall h | h in file.hunks
      ensures GutterAgrees(h)
    {
      var hunk :| WellFormed(hunk) && h == HunkOf(hunk);
      GutterIsAnchorable(hunk);
    }
  }

  lemma {:induction false} ReviewedAgree(parsed: Budget.ParsedDiff, count: Budget.TokenCounter,
                                         noise: Budget.NoiseClassifier, limits: Budget.Limits)
    requires forall p <- parsed.files :: UnifiedlyNumbered(p)
    ensures forall f <- Budget.Reviewed(parsed, count, noise, limits), h <- f.hunks :: GutterAgrees(h)
  {
    ReviewedComeFrom(parsed, count, noise, limits);
    forall f, h | f in Budget.Reviewed(parsed, count, noise, limits) && h in f.hunks
      ensures GutterAgrees(h)
    {
      var p :| p in parsed.files && f == Truncated(p, limits.maxFileDiffLines);
      NumberedAgrees(p);
      TruncationConserves(p, limits.maxFileDiffLines);
    }
  }

  /** Every finding the critic is asked about, over the budgeted part of a diff numbered as the unified format
      numbers it, is judged against code that includes its own anchor line: always when the file is shown
      whole, and otherwise exactly when the window radius is not negative. */
  lemma {:induction false} EvidenceFromTheDiff(parsed: Budget.ParsedDiff, count: Budget.TokenCounter,
                                               noise: Budget.NoiseClassifier, limits: Budget.Limits,
                                               cfg: CriticRun.Config, findings: seq<Finding>, k: nat,
                                               maxFileLines: int, radius: int)
    requires forall p <- parsed.files :: UnifiedlyNumbered(p)
    requires k < |Critic.JudgedOf(findings, Budget.Reviewed(parsed, count, noise, limits), cfg.maxFindings)|
    ensures var judged := Critic.JudgedOf(findings, Budget.Reviewed(parsed, count, noise, limits), cfg.maxFindings);
            var i, file := judged[k].index, judged[k].file;
            && i < |findings| && findings[i].line.Some?
            && (Windows.Shows(CriticRun.CodeShown(file, findings, Critic.IndicesOf(judged, file.path),
                                                  maxFileLines, radius),
                              findings[i].line.value)
                <==> CriticRun.NumberedLineCount(file.hunks) <= maxFileLines || radius >= 0)
  {
    ReviewedAgree(parsed, count, noise, limits);
    CriticRun.EvidenceShowsTheAnchor(cfg, findings, Budget.Reviewed(parsed, count, noise, limits), k,
                                     maxFileLines, radius);
  }
}
