/** Filtering, truncating and fitting a diff, with everything left out disclosed (`build_budget`,
    src/reviewhive/diff/budget.py). */
module Budget {
  import opened Models
  import opened Sequences
  import opened Diff
  import Fitting
  import Ranking
  import Text

  /** Why a file is not reviewed; the source writes these as "path (reason)". */
  datatype Reason = CouldNotParse | Binary | Noise(kind: string) | NoReviewableChanges | ExceedsBudget

  datatype Skip = Skip(path: string, reason: Reason)

  datatype Omission = Omission(path: string, lines: nat)

  datatype ParsedDiff = ParsedDiff(files: seq<DiffFile>, unparseable: seq<string>)

  datatype BudgetedDiff = BudgetedDiff(
    files: seq<DiffFile>,
    promptText: string,
    tokenCount: int,
    skipped: seq<Skip>,
    truncated: seq<Omission>)

  /** The injected token counter, and the noise patterns as a classifier of paths. */
  type TokenCounter = string -> nat
  type NoiseClassifier = string -> Option<string>

  datatype Limits = Limits(maxPromptTokens: int, maxFileDiffLines: int)

  // ---------------------------------------------------------------- rendering

  function HunkTexts(hunks: seq<DiffHunk>): string {
    if hunks == [] then "" else HunkTexts(hunks[..|hunks| - 1]) + hunks[|hunks| - 1].numberedText
  }

  function NumberedText(file: DiffFile): string {
    file.header + HunkTexts(file.hunks)
    + (if file.omittedHunks == 0 then ""
       else "\n[reviewHive: " + Text.Decimal(file.omittedLines) + " further lines across "
            + Text.Decimal(file.omittedHunks) + " hunk(s) omitted to stay within the review budget]\n")
  }

  function RenderPrompt(files: seq<DiffFile>): string {
    if files == [] then ""
    else if |files| == 1 then NumberedText(files[0])
    else RenderPrompt(files[..|files| - 1]) + "\n" + NumberedText(files[|files| - 1])
  }

  // ---------------------------------------------------------------- filtering

  /** The reason a file is skipped before anything is counted, in the order the source checks. */
  function FilteredFor(file: DiffFile, noise: NoiseClassifier): Option<Reason> {
    if file.isBinary then Some(Binary)
    else if noise(file.path).Some? then Some(Noise(noise(file.path).value))
    else if file.hunks == [] then Some(NoReviewableChanges)
    else None
  }

  function SkipOf(file: DiffFile, noise: NoiseClassifier): Option<Skip> {
    var reason := FilteredFor(file, noise);
    if reason.Some? then Some(Skip(file.path, reason.value)) else None
  }

  function KeepOf(file: DiffFile, noise: NoiseClassifier, maxLines: int): Option<DiffFile> {
    if FilteredFor(file, noise).Some? then None else Some(Truncated(file, maxLines))
  }

  function OmissionOf(file: Option<DiffFile>): Option<Omission> {
    if file.Some? && file.value.omittedHunks > 0 then Some(Omission(file.value.path, file.value.omittedLines)) else None
  }

  function Unparsed(paths: seq<string>): (skips: seq<Skip>)
    ensures |skips| == |paths|
  {
    seq(|paths|, i requires 0 <= i < |paths| => Skip(paths[i], CouldNotParse))
  }

  function Overflowing(paths: seq<string>): (skips: seq<Skip>)
    ensures |skips| == |paths|
  {
    seq(|paths|, i requires 0 <= i < |paths| => Skip(paths[i], ExceedsBudget))
  }

  function Skipping(noise: NoiseClassifier): DiffFile -> Option<Skip> {
    f => SkipOf(f, noise)
  }

  function Keeping(noise: NoiseClassifier, maxLines: int): DiffFile -> Option<DiffFile> {
    f => KeepOf(f, noise, maxLines)
  }

  function Omitting(noise: NoiseClassifier, maxLines: int): DiffFile -> Option<Omission> {
    f => OmissionOf(KeepOf(f, noise, maxLines))
  }

  function Skips(files: seq<DiffFile>, noise: NoiseClassifier): seq<Skip> {
    Kept(Mapped(Skipping(noise), files))
  }

  /** The files that pass the filters, truncated. */
  function Passing(files: seq<DiffFile>, noise: NoiseClassifier, maxLines: int): seq<DiffFile> {
    Kept(Mapped(Keeping(noise, maxLines), files))
  }

  function Omissions(files: seq<DiffFile>, noise: NoiseClassifier, maxLines: int): seq<Omission> {
    Kept(Mapped(Omitting(noise, maxLines), files))
  }

  // ---------------------------------------------------------------- fitting

  function Sizes(files: seq<DiffFile>, count: TokenCounter): (sizes: seq<int>)
    ensures |sizes| == |files|
  {
    seq(|files|, i requires 0 <= i < |files| => count(NumberedText(files[i])))
  }

  predicate Overflows(passing: seq<DiffFile>, count: TokenCounter, maxTokens: int) {
    count(RenderPrompt(passing)) > maxTokens
  }

  /** The files that are reviewed, before they are sorted. */
  function Fitted(passing: seq<DiffFile>, count: TokenCounter, maxTokens: int): seq<DiffFile> {
    if Overflows(passing, count, maxTokens)
    then At(passing, Fitting.KeptOrder(Sizes(passing, count), maxTokens)) else passing
  }

  function DroppedPaths(passing: seq<DiffFile>, count: TokenCounter, maxTokens: int): seq<string> {
    if passing != [] && Overflows(passing, count, maxTokens)
    then Fitting.Paths(At(passing, Fitting.DroppedOrder(Sizes(passing, count), maxTokens))) else []
  }

  function ByPathOrder(files: seq<DiffFile>): (order: seq<nat>)
    ensures Within(order, |files|)
  {
    StableOrder(Fitting.Paths(files), Ranking.StringLe, Upto(|files|))
  }

  /** `sorted(kept, key=lambda f: f.path)` */
  function SortedByPath(files: seq<DiffFile>): seq<DiffFile> {
    At(files, ByPathOrder(files))
  }

  /** The loop's body: the file is skipped for the first reason that applies, or kept, perhaps truncated. */
  method Filter(file: DiffFile, noise: NoiseClassifier, maxLines: int)
    returns (skip: Option<Skip>, omission: Option<Omission>, keep: Option<DiffFile>)
    ensures skip == SkipOf(file, noise) && keep == KeepOf(file, noise, maxLines) && omission == OmissionOf(keep)
  {
    if file.isBinary {
      return Some(Skip(file.path, Binary)), None, None;
    }
    if noise(file.path).Some? {
      return Some(Skip(file.path, Noise(noise(file.path).value))), None, None;
    }
    if file.hunks == [] {
      return Some(Skip(file.path, NoReviewableChanges)), None, None;
    }
    var shortened := TruncatedTo(file, maxLines);
    if shortened.omittedHunks > 0 {
      omission := Some(Omission(shortened.path, shortened.omittedLines));
    } else {
      omission := None;
    }
    skip, keep := None, Some(shortened);
  }

  lemma {:induction false} OneMoreFile(front: seq<DiffFile>, f: DiffFile, noise: NoiseClassifier, maxLines: int)
    ensures Skips(front + [f], noise) == Skips(front, noise) + AsList(SkipOf(f, noise))
    ensures Passing(front + [f], noise, maxLines)
         == Passing(front, noise, maxLines) + AsList(KeepOf(f, noise, maxLines))
    ensures Omissions(front + [f], noise, maxLines)
         == Omissions(front, noise, maxLines) + AsList(OmissionOf(KeepOf(f, noise, maxLines)))
  {
    KeptMapped(Skipping(noise), front, f);
    KeptMapped(Keeping(noise, maxLines), front, f);
    KeptMapped(Omitting(noise, maxLines), front, f);
  }

  /** The loop over the parsed files, given what each of them contributes. */
  method FilterEach(files: seq<DiffFile>, noise: NoiseClassifier, maxLines: int, before: seq<Skip>,
                    ghost skips: seq<Option<Skip>>, ghost omissions: seq<Option<Omission>>,
                    ghost keeps: seq<Option<DiffFile>>)
    returns (skipped: seq<Skip>, truncated: seq<Omission>, kept: seq<DiffFile>)
    requires |skips| == |omissions| == |keeps| == |files|
    requires forall i :: 0 <= i < |files| ==> skips[i] == SkipOf(files[i], noise)
    requires forall i :: 0 <= i < |files| ==> omissions[i] == OmissionOf(KeepOf(files[i], noise, maxLines))
    requires forall i :: 0 <= i < |files| ==> keeps[i] == KeepOf(files[i], noise, maxLines)
    ensures skipped == before + Kept(skips) && truncated == Kept(omissions) && kept == Kept(keeps)
  {
    skipped, truncated, kept := before, [], [];
    for i := 0 to |files|
      invariant skipped == before + Kept(skips[..i])
      invariant truncated == Kept(omissions[..i])
      invariant kept == Kept(keeps[..i])
    {
      var skip, omission, keep := Filter(files[i], noise, maxLines);
      KeptAfter(before, skips, i);
      KeptOneMore(omissions, i);
      KeptOneMore(keeps, i);
      skipped, truncated, kept := skipped + AsList(skip), truncated + AsList(omission), kept + AsList(keep);
    }
    assert skips[..|files|] == skips && omissions[..|files|] == omissions && keeps[..|files|] == keeps;
  }

  method FilterFiles(files: seq<DiffFile>, noise: NoiseClassifier, maxLines: int, before: seq<Skip>)
    returns (skipped: seq<Skip>, truncated: seq<Omission>, kept: seq<DiffFile>)
    ensures skipped == before + Skips(files, noise)
    ensures truncated == Omissions(files, noise, maxLines)
    ensures kept == Passing(files, noise, maxLines)
  {
    skipped, truncated, kept :=
      FilterEach(files, noise, maxLines, before, Mapped(Skipping(noise), files),
                 Mapped(Omitting(noise, maxLines), files), Mapped(Keeping(noise, maxLines), files));
  }

  method BuildBudget(parsed: ParsedDiff, count: TokenCounter, noise: NoiseClassifier, limits: Limits)
    returns (result: BudgetedDiff)
    ensures var passing := Passing(parsed.files, noise, limits.maxFileDiffLines);
            && result.truncated == Omissions(parsed.files, noise, limits.maxFileDiffLines)
            && result.skipped == Unparsed(parsed.unparseable) + Skips(parsed.files, noise)
                                 + Overflowing(DroppedPaths(passing, count, limits.maxPromptTokens))
            && (passing == [] ==> result.files == [] && result.tokenCount == 0 && result.promptText == "")
            && (passing != [] ==>
                  && result.files == SortedByPath(Fitted(passing, count, limits.maxPromptTokens))
                  && result.promptText == RenderPrompt(result.files)
                  && result.tokenCount ==
                       if Overflows(passing, count, limits.maxPromptTokens)
                       then Sum(At(Sizes(passing, count),
                                    Fitting.KeptOrder(Sizes(passing, count), limits.maxPromptTokens)))
                       else count(RenderPrompt(passing)))
  {
    var skipped, truncated, kept :=
      FilterFiles(parsed.files, noise, limits.maxFileDiffLines, Unparsed(parsed.unparseable));
    ghost var passing := kept;
    if kept == [] {
      assert Overflowing([]) == [];
      return BudgetedDiff([], "", 0, skipped, truncated);
    }
    var tokens: int := count(RenderPrompt(kept));
    var dropped: seq<string> := [];
    if tokens > limits.maxPromptTokens {
      kept, tokens, dropped := Fitting.FitToBudget(kept, Sizes(kept, count), limits.maxPromptTokens);
    }
    assert dropped == DroppedPaths(passing, count, limits.maxPromptTokens);
    skipped := skipped + Overflowing(dropped);
    var sorted := SortedByPath(kept);
    result := BudgetedDiff(sorted, RenderPrompt(sorted), tokens, skipped, truncated);
  }

  // ---------------------------------------------------------------- which files, and why

  /** The reason this file is skipped for: being binary comes first, then being noise, then having no hunks. */
  predicate SkippedFor(f: DiffFile, noise: NoiseClassifier, reason: Reason) {
    match reason
    case Binary => f.isBinary
    case Noise(kind) => !f.isBinary && noise(f.path) == Some(kind)
    case NoReviewableChanges => !f.isBinary && noise(f.path).None? && f.hunks == []
    case CouldNotParse => false
    case ExceedsBudget => false
  }

  predicate Reviewable(f: DiffFile, noise: NoiseClassifier) {
    !f.isBinary && noise(f.path).None? && f.hunks != []
  }

  /** The filter skips exactly the files there is a reason for, each for that reason. */
  lemma {:induction false} SkippedExactly(files: seq<DiffFile>, noise: NoiseClassifier, skip: Skip)
    ensures skip in Skips(files, noise)
        <==> exists f :: f in files && skip.path == f.path && SkippedFor(f, noise, skip.reason)
  {
    if files != [] {
      var front, f := files[..|files| - 1], files[|files| - 1];
      assert files == front + [f];
      SkippedExactly(front, noise, skip);
      OneMoreFile(front, f, noise, 0);
      SkipIs(f, noise, skip);
      InOneMore(Skips(front, noise), SkipOf(f, noise), skip);
    }
  }

  /** A path that did not parse, and one dropped for the budget, is disclosed under its own name, as what it is. */
  lemma {:induction false} OthersAreNamed(paths: seq<string>, i: nat)
    requires i < |paths|
    ensures Unparsed(paths)[i] == Skip(paths[i], CouldNotParse)
    ensures Overflowing(paths)[i] == Skip(paths[i], ExceedsBudget)
  {
  }

  lemma SkipIs(f: DiffFile, noise: NoiseClassifier, skip: Skip)
    ensures SkipOf(f, noise) == Some(skip) <==> skip.path == f.path && SkippedFor(f, noise, skip.reason)
  {
  }

  /** And it keeps the others, shortened. */
  lemma {:induction false} KeptExactly(files: seq<DiffFile>, noise: NoiseClassifier, maxLines: int, kept: DiffFile)
    ensures kept in Passing(files, noise, maxLines)
        <==> exists f :: f in files && Reviewable(f, noise) && kept == Truncated(f, maxLines)
  {
    if files != [] {
      var front, f := files[..|files| - 1], files[|files| - 1];
      assert files == front + [f];
      KeptExactly(front, noise, maxLines, kept);
      OneMoreFile(front, f, noise, maxLines);
      KeepIs(f, noise, maxLines, kept);
      InOneMore(Passing(front, noise, maxLines), KeepOf(f, noise, maxLines), kept);
    }
  }

  lemma KeepIs(f: DiffFile, noise: NoiseClassifier, maxLines: int, kept: DiffFile)
    ensures KeepOf(f, noise, maxLines) == Some(kept) <==> Reviewable(f, noise) && kept == Truncated(f, maxLines)
  {
  }

  lemma InOneMore<T>(xs: seq<T>, more: Option<T>, x: T)
    ensures x in xs + AsList(more) <==> x in xs || more == Some(x)
  {
  }

  /** A shortened file is disclosed with the number of lines left out, and no other is. */
  lemma {:induction false} ShortenedExactly(files: seq<DiffFile>, noise: NoiseClassifier, maxLines: int, o: Omission)
    ensures o in Omissions(files, noise, maxLines)
        <==> exists t :: t in Passing(files, noise, maxLines) && t.omittedHunks > 0
                         && o.path == t.path && o.lines == t.omittedLines
  {
    if files != [] {
      var front, f := files[..|files| - 1], files[|files| - 1];
      assert files == front + [f];
      ShortenedExactly(front, noise, maxLines, o);
      OneMoreFile(front, f, noise, maxLines);
      var keep := KeepOf(f, noise, maxLines);
      assert OmissionOf(keep) == Some(o)
        <==> keep.Some? && keep.value.omittedHunks > 0
             && o.path == keep.value.path && o.lines == keep.value.omittedLines;
    }
  }

  // ---------------------------------------------------------------- the prompt's text

  /** The prompt is the files' texts with a line break between them. */
  lemma {:induction false} PromptBetween(a: seq<DiffFile>, b: seq<DiffFile>)
    requires a != [] && b != []
    ensures RenderPrompt(a + b) == RenderPrompt(a) + "\n" + RenderPrompt(b)
  {
    var n := |b| - 1;
    if n == 0 {
      assert (a + b)[..|a + b| - 1] == a;
    } else {
      assert (a + b)[..|a + b| - 1] == a + b[..n];
      PromptBetween(a, b[..n]);
      Regrouped(RenderPrompt(a), RenderPrompt(b[..n]), NumberedText(b[n]));
    }
  }

  lemma Regrouped(a: string, b: string, c: string)
    ensures (a + "\n" + b) + "\n" + c == a + "\n" + (b + "\n" + c)
  {
  }

  lemma {:induction false} HunksOneAfterAnother(a: seq<DiffHunk>, h: DiffHunk, b: seq<DiffHunk>)
    ensures HunkTexts(a + [h] + b) == HunkTexts(a) + h.numberedText + HunkTexts(b)
  {
    if b == [] {
      assert (a + [h] + b)[..|a|] == a;
    } else {
      assert (a + [h] + b)[..|a + [h] + b| - 1] == a + [h] + b[..|b| - 1];
      HunksOneAfterAnother(a, h, b[..|b| - 1]);
    }
  }

  /** A file's text is its header and its hunks, and then, exactly if hunks were left out, how many and how many
      lines they had. */
  lemma {:induction false} TextDiscloses(file: DiffFile) returns (note: string, before: string, after: string)
    ensures NumberedText(file) == file.header + HunkTexts(file.hunks) + note
    ensures note == "" <==> file.omittedHunks == 0
    ensures file.omittedHunks > 0 ==>
              note == before + Text.Decimal(file.omittedLines) + " further lines across "
                      + Text.Decimal(file.omittedHunks) + after
  {
    note, before, after := "", "\n[reviewHive: ", " hunk(s) omitted to stay within the review budget]\n";
    if file.omittedHunks > 0 {
      note := before + Text.Decimal(file.omittedLines) + " further lines across "
              + Text.Decimal(file.omittedHunks) + after;
      assert |note| >= |before| > 0;
    }
    assert NumberedText(file) == file.header + HunkTexts(file.hunks) + note;
  }

  // ---------------------------------------------------------------- everything is disclosed

  function SkipPaths(skips: seq<Skip>): (paths: seq<string>)
    ensures |paths| == |skips|
  {
    Mapped((s: Skip) => s.path, skips)
  }

  lemma TruncationKeepsPath(file: DiffFile, maxLines: int)
    ensures Truncated(file, maxLines).path == file.path
  {
  }

  lemma {:induction false} PathsOneMore(files: seq<DiffFile>, f: DiffFile, skips: seq<Skip>, s: Skip)
    ensures Fitting.Paths(files + [f]) == Fitting.Paths(files) + [f.path]
    ensures SkipPaths(skips + [s]) == SkipPaths(skips) + [s.path]
  {
  }

  /** A file adds its path to exactly one of the two lists. */
  lemma {:induction false} FileDiscloses(f: DiffFile, noise: NoiseClassifier, maxLines: int, skips: seq<Skip>,
                                         passing: seq<DiffFile>)
    ensures multiset(SkipPaths(skips + AsList(SkipOf(f, noise))))
            + multiset(Fitting.Paths(passing + AsList(KeepOf(f, noise, maxLines))))
         == multiset(SkipPaths(skips)) + multiset(Fitting.Paths(passing)) + multiset{f.path}
  {
    if FilteredFor(f, noise).Some? {
      PathsOneMore(passing, f, skips, SkipOf(f, noise).value);
      assert passing + [] == passing;
    } else {
      TruncationKeepsPath(f, maxLines);
      PathsOneMore(passing, Truncated(f, maxLines), skips, Skip(f.path, Binary));
      assert skips + [] == skips;
    }
  }

  lemma {:induction false} AddingDiscloses(files: seq<DiffFile>, f: DiffFile, noise: NoiseClassifier, maxLines: int,
                                           skips: seq<Skip>, passing: seq<DiffFile>)
    requires multiset(Fitting.Paths(files)) == multiset(SkipPaths(skips)) + multiset(Fitting.Paths(passing))
    ensures multiset(Fitting.Paths(files + [f]))
         == multiset(SkipPaths(skips + AsList(SkipOf(f, noise))))
            + multiset(Fitting.Paths(passing + AsList(KeepOf(f, noise, maxLines))))
  {
    PathsOneMore(files, f, [], Skip("", Binary));
    FileDiscloses(f, noise, maxLines, skips, passing);
  }

  lemma {:induction false} FilteringDiscloses(files: seq<DiffFile>, noise: NoiseClassifier, maxLines: int)
    ensures multiset(Fitting.Paths(files))
         == multiset(SkipPaths(Skips(files, noise))) + multiset(Fitting.Paths(Passing(files, noise, maxLines)))
  {
    if files != [] {
      var front, f := files[..|files| - 1], files[|files| - 1];
      assert files == front + [f];
      FilteringDiscloses(front, noise, maxLines);
      OneMoreFile(front, f, noise, maxLines);
      AddingDiscloses(front, f, noise, maxLines, Skips(front, noise), Passing(front, noise, maxLines));
    }
  }

  lemma {:induction false} FittingDiscloses(passing: seq<DiffFile>, count: TokenCounter, maxTokens: int)
    requires passing != []
    ensures multiset(Fitting.Paths(passing))
         == multiset(DroppedPaths(passing, count, maxTokens))
            + multiset(Fitting.Paths(Fitted(passing, count, maxTokens)))
  {
    if Overflows(passing, count, maxTokens) {
      var sizes, paths := Sizes(passing, count), Fitting.Paths(passing);
      Fitting.KeptAndDropped(sizes, maxTokens, paths);
      assert At(paths, Fitting.KeptOrder(sizes, maxTokens)) == Fitting.Paths(Fitted(passing, count, maxTokens));
      assert At(paths, Fitting.DroppedOrder(sizes, maxTokens)) == DroppedPaths(passing, count, maxTokens);
    }
  }

  lemma {:induction false} SortingKeeps(files: seq<DiffFile>)
    ensures multiset(Fitting.Paths(SortedByPath(files))) == multiset(Fitting.Paths(files))
    ensures multiset(SortedByPath(files)) == multiset(files)
    ensures |SortedByPath(files)| == |files|
  {
    var paths := Fitting.Paths(files);
    StableOrderAt(paths, Ranking.StringLe, Upto(|files|), paths);
    StableOrderAt(paths, Ranking.StringLe, Upto(|files|), files);
    assert At(paths, Upto(|files|)) == paths && At(files, Upto(|files|)) == files;
    assert Fitting.Paths(SortedByPath(files)) == At(paths, ByPathOrder(files));
  }

  lemma {:induction false} SortingSorts(files: seq<DiffFile>)
    ensures SortedKeys(Fitting.Paths(SortedByPath(files)), Ranking.StringLe)
  {
    var paths, order := Fitting.Paths(files), ByPathOrder(files);
    assert Fitting.Paths(SortedByPath(files)) == At(paths, order);
    StringLeTotal();
    StableOrderOrdered(paths, Ranking.StringLe, Upto(|files|));
    forall p, q | 0 <= p < q < |order|
      ensures Ranking.StringLe(At(paths, order)[p], At(paths, order)[q])
    {
      assert Precedes(paths, Ranking.StringLe, order[p], order[q]);
    }
  }

  lemma {:induction false} StringLeTotal()
    ensures TotalPreorder(Ranking.StringLe)
  {
    forall a, b
      ensures Ranking.StringLe(a, b) || Ranking.StringLe(b, a)
    {
      Ranking.StringLeOrders(a, b);
    }
    forall a, b, c | Ranking.StringLe(a, b) && Ranking.StringLe(b, c)
      ensures Ranking.StringLe(a, c)
    {
      Ranking.StringLeTransitive(a, b, c);
    }
  }

  /** The three sources of skipped paths, and the files reviewed. */
  function AllSkipped(parsed: ParsedDiff, count: TokenCounter, noise: NoiseClassifier, limits: Limits): seq<Skip> {
    Unparsed(parsed.unparseable) + Skips(parsed.files, noise)
    + Overflowing(DroppedPaths(Passing(parsed.files, noise, limits.maxFileDiffLines), count, limits.maxPromptTokens))
  }

  function Reviewed(parsed: ParsedDiff, count: TokenCounter, noise: NoiseClassifier, limits: Limits): seq<DiffFile> {
    var passing := Passing(parsed.files, noise, limits.maxFileDiffLines);
    if passing == [] then [] else SortedByPath(Fitted(passing, count, limits.maxPromptTokens))
  }

  lemma {:induction false} SkipPathsAre(unparseable: seq<string>, skips: seq<Skip>, dropped: seq<string>)
    ensures multiset(SkipPaths(Unparsed(unparseable) + skips + Overflowing(dropped)))
         == multiset(unparseable) + multiset(SkipPaths(skips)) + multiset(dropped)
  {
    assert SkipPaths(Unparsed(unparseable)) == unparseable;
    assert SkipPaths(Overflowing(dropped)) == dropped;
    assert SkipPaths(Unparsed(unparseable) + skips + Overflowing(dropped)) == unparseable + SkipPaths(skips) + dropped;
  }

  /** Every path of the diff, parsed or not, is disclosed exactly once: among the files reviewed or among
      those skipped.  The files reviewed are sorted by path, and there are none only when every file was
      filtered out. */
  lemma {:induction false} EverythingIsDisclosed(parsed: ParsedDiff, count: TokenCounter, noise: NoiseClassifier,
                                                 limits: Limits)
    ensures multiset(Fitting.Paths(Reviewed(parsed, count, noise, limits)))
              + multiset(SkipPaths(AllSkipped(parsed, count, noise, limits)))
         == multiset(Fitting.Paths(parsed.files)) + multiset(parsed.unparseable)
    ensures SortedKeys(Fitting.Paths(Reviewed(parsed, count, noise, limits)), Ranking.StringLe)
    ensures Reviewed(parsed, count, noise, limits) == [] <==> forall f <- parsed.files :: FilteredFor(f, noise).Some?
  {
    var passing := Passing(parsed.files, noise, limits.maxFileDiffLines);
    FilteringDiscloses(parsed.files, noise, limits.maxFileDiffLines);
    PassingEmpty(parsed.files, noise, limits.maxFileDiffLines);
    SkipPathsAre(parsed.unparseable, Skips(parsed.files, noise), DroppedPaths(passing, count, limits.maxPromptTokens));
    if passing != [] {
      FittingDiscloses(passing, count, limits.maxPromptTokens);
      SortingKeeps(Fitted(passing, count, limits.maxPromptTokens));
      SortingSorts(Fitted(passing, count, limits.maxPromptTokens));
      FittingKeepsOne(passing, count, limits.maxPromptTokens);
    } else {
      assert Fitting.Paths(passing) == [];
      assert Fitting.Paths(Reviewed(parsed, count, noise, limits)) == [];
    }
  }

  lemma {:induction false} FittingKeepsOne(passing: seq<DiffFile>, count: TokenCounter, maxTokens: int)
    requires passing != []
    ensures Fitted(passing, count, maxTokens) != []
  {
    Fitting.KeptFits(Sizes(passing, count), maxTokens);
  }

  lemma {:induction false} PassingEmpty(files: seq<DiffFile>, noise: NoiseClassifier, maxLines: int)
    ensures Passing(files, noise, maxLines) == [] <==> forall f <- files :: FilteredFor(f, noise).Some?
  {
    if files != [] {
      var front, f := files[..|files| - 1], files[|files| - 1];
      assert files == front + [f];
      PassingEmpty(front, noise, maxLines);
      OneMoreFile(front, f, noise, maxLines);
    }
  }

  /** Nothing is dropped while the prompt as a whole fits. */
  lemma {:induction false} FitsAsItIs(passing: seq<DiffFile>, count: TokenCounter, maxTokens: int)
    requires count(RenderPrompt(passing)) <= maxTokens
    ensures Fitted(passing, count, maxTokens) == passing && DroppedPaths(passing, count, maxTokens) == []
  {
  }

  /** What the files' texts count for, one by one. */
  function TokensOf(files: seq<DiffFile>, count: TokenCounter): int {
    if files == [] then 0
    else TokensOf(files[..|files| - 1], count) + count(NumberedText(files[|files| - 1]))
  }

  lemma {:induction false} SizesAdd(files: seq<DiffFile>, count: TokenCounter)
    ensures Sum(Sizes(files, count)) == TokensOf(files, count)
  {
    if files != [] {
      var n := |files| - 1;
      SizesAdd(files[..n], count);
      assert Sizes(files, count)[..n] == Sizes(files[..n], count);
    }
  }

  /** The count given for what is left when files were dropped is what their texts count for. */
  lemma {:induction false} KeptTokens(passing: seq<DiffFile>, count: TokenCounter, maxTokens: int)
    requires count(RenderPrompt(passing)) > maxTokens
    ensures var sizes := Sizes(passing, count);
            Sum(At(sizes, Fitting.KeptOrder(sizes, maxTokens))) == TokensOf(Fitted(passing, count, maxTokens), count)
  {
    var sizes := Sizes(passing, count);
    SizesAdd(Fitted(passing, count, maxTokens), count);
    assert Sizes(Fitted(passing, count, maxTokens), count) == At(sizes, Fitting.KeptOrder(sizes, maxTokens));
  }

  /** When it does not, what is reviewed fits the budget as counted file by file, unless it is a single file;
      and no set of the passing files that fits has more members than are reviewed. */
  lemma {:induction false} ReviewedFits(passing: seq<DiffFile>, count: TokenCounter, maxTokens: int, chosen: set<nat>)
    requires passing != [] && count(RenderPrompt(passing)) > maxTokens
    requires chosen != {} && forall i <- chosen :: i < |passing|
    ensures TokensOf(Fitted(passing, count, maxTokens), count) <= maxTokens
         || |Fitted(passing, count, maxTokens)| == 1
    ensures Fitting.Weight(Sizes(passing, count), chosen) <= maxTokens ==>
              |chosen| <= |Fitted(passing, count, maxTokens)|
  {
    var sizes := Sizes(passing, count);
    Fitting.KeptFits(sizes, maxTokens);
    KeptTokens(passing, count, maxTokens);
    if Fitting.Weight(sizes, chosen) <= maxTokens {
      Fitting.LargestFirstIsOptimal(sizes, maxTokens, chosen);
    }
  }
}
