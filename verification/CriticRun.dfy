/** One run of the critic: one call per file, the answers merged, the evidence each call is shown
    (`review_findings` and `_user_message`, src/reviewhive/graph/critic.py). */
module CriticRun {
  import opened Models
  import opened Sequences
  import opened Diff
  import opened Critic
  import Anchors
  import Text
  import Windows

  /** Settings the pass reads, and the answers the model gives, by file.  They are arbitrary; a file
      without an answer is a call that failed. */
  datatype Config = Config(model: string, maxFindings: int)
  type Answers = map<string, FileOutcome>

  function Outcomes(groups: seq<FileGroup>, answers: Answers): seq<FileOutcome> {
    seq(|groups|, g requires 0 <= g < |groups| =>
      if groups[g].path in answers then answers[groups[g].path] else FileOutcome([], 0, 0, 0))
  }

  function AllVerdicts(outcomes: seq<FileOutcome>): seq<Verdict> {
    if outcomes == [] then []
    else AllVerdicts(outcomes[..|outcomes| - 1]) + outcomes[|outcomes| - 1].verdicts
  }

  /** The per-file calls summed into the one call that is recorded. */
  function SummedCall(model: string, outcomes: seq<FileOutcome>): AgentCall {
    if outcomes == [] then AgentCall(CriticPass, model, 0, 0, 0)
    else
      var o, c := outcomes[|outcomes| - 1], SummedCall(model, outcomes[..|outcomes| - 1]);
      AgentCall(CriticPass, model, c.inputTokens + o.inputTokens, c.outputTokens + o.outputTokens,
                c.cacheReadTokens + o.cacheReadTokens)
  }

  function Asked(judged: seq<Judgement>): set<int> {
    set j | j in judged :: j.index as int
  }

  /** Everything the calls answered. */
  function Answered(cfg: Config, findings: seq<Finding>, files: seq<DiffFile>, answers: Answers): seq<Verdict> {
    AllVerdicts(Outcomes(GroupedByFile(JudgedOf(findings, files, cfg.maxFindings)), answers))
  }

  /** The verdicts a run honours. */
  function Honoured(cfg: Config, findings: seq<Finding>, files: seq<DiffFile>, answers: Answers): map<int, Verdict> {
    var judged := JudgedOf(findings, files, cfg.maxFindings);
    FirstVerdicts(Answered(cfg, findings, files, answers), Asked(judged))
  }

  /** What each finding becomes. */
  function Revisions(cfg: Config, findings: seq<Finding>, files: seq<DiffFile>,
                     answers: Answers): (r: seq<Option<Finding>>)
    ensures |r| == |findings|
  {
    JudgedAll(findings, Honoured(cfg, findings, files, answers))
  }

  function CallOf(cfg: Config, findings: seq<Finding>, files: seq<DiffFile>, answers: Answers): Option<AgentCall> {
    var judged := JudgedOf(findings, files, cfg.maxFindings);
    if judged == [] then None else Some(SummedCall(cfg.model, Outcomes(GroupedByFile(judged), answers)))
  }

  /** A call is recorded exactly when something was asked, as the critic's and by the configured model. */
  lemma {:induction false} RecordedCallIs(cfg: Config, findings: seq<Finding>, files: seq<DiffFile>, answers: Answers)
    ensures CallOf(cfg, findings, files, answers).Some? <==> JudgedOf(findings, files, cfg.maxFindings) != []
    ensures CallOf(cfg, findings, files, answers).Some? ==>
              && CallOf(cfg, findings, files, answers).value.agent == CriticPass
              && CallOf(cfg, findings, files, answers).value.model == cfg.model
  {
    SummedCallIs(cfg.model, Outcomes(GroupedByFile(JudgedOf(findings, files, cfg.maxFindings)), answers));
  }

  lemma {:induction false} SummedCallIs(model: string, outcomes: seq<FileOutcome>)
    ensures SummedCall(model, outcomes).agent == CriticPass && SummedCall(model, outcomes).model == model
  {
  }

  lemma {:induction false} AllVerdictsAre(outcomes: seq<FileOutcome>, v: Verdict)
    ensures v in AllVerdicts(outcomes) <==> exists g :: 0 <= g < |outcomes| && v in outcomes[g].verdicts
  {
    if outcomes != [] {
      var n := |outcomes| - 1;
      AllVerdictsAre(outcomes[..n], v);
      if g :| 0 <= g < |outcomes| && v in outcomes[g].verdicts {
        if g < n {
          assert outcomes[..n][g] == outcomes[g];
        }
      }
    }
  }

  /** What is answered is exactly what the calls about the judged files answered. */
  lemma {:induction false} AnsweredExactly(cfg: Config, findings: seq<Finding>, files: seq<DiffFile>,
                                           answers: Answers, v: Verdict)
    ensures v in Answered(cfg, findings, files, answers)
        <==> exists j <- JudgedOf(findings, files, cfg.maxFindings) ::
               j.file.path in answers && v in answers[j.file.path].verdicts
  {
    var judged := JudgedOf(findings, files, cfg.maxFindings);
    var groups := GroupedByFile(judged);
    AllVerdictsAre(Outcomes(groups, answers), v);
    GroupsCoverTheJudged(judged);
    if v in Answered(cfg, findings, files, answers) {
      var g :| 0 <= g < |groups| && v in Outcomes(groups, answers)[g].verdicts;
      var k := JudgedUnder(judged, groups[g].path);
      assert judged[k] in judged;
    }
    if j :| j in judged && j.file.path in answers && v in answers[j.file.path].verdicts {
      var k :| 0 <= k < |judged| && judged[k] == j;
      IndicesOfHas(judged, k);
      var g :| 0 <= g < |groups| && groups[g].path == j.file.path;
      assert Outcomes(groups, answers)[g] == answers[j.file.path];
    }
  }

  lemma {:induction false} JudgedUnder(judged: seq<Judgement>, path: string) returns (k: nat)
    requires IndicesOf(judged, path) != []
    ensures k < |judged| && judged[k].file.path == path
  {
    k := |judged| - 1;
    if judged[k].file.path != path {
      k := JudgedUnder(judged[..k], path);
    }
  }

  /** The answers are taken file by file, each file's in the order given. */
  lemma {:induction false} AnswersInOrder(a: seq<FileOutcome>, o: FileOutcome, b: seq<FileOutcome>)
    ensures AllVerdicts(a + [o] + b) == AllVerdicts(a) + o.verdicts + AllVerdicts(b)
  {
    if b == [] {
      assert (a + [o] + b)[..|a|] == a;
    } else {
      assert (a + [o] + b)[..|a + [o] + b| - 1] == a + [o] + b[..|b| - 1];
      AnswersInOrder(a, o, b[..|b| - 1]);
    }
  }

  lemma {:induction false} NothingJudgedNothingChanged(findings: seq<Finding>)
    ensures Kept(JudgedAll(findings, map[])) == findings && NoneCount(JudgedAll(findings, map[])) == 0
  {
    if findings != [] {
      var n := |findings| - 1;
      NothingJudgedNothingChanged(findings[..n]);
      assert JudgedAll(findings, map[])[..n] == JudgedAll(findings[..n], map[]);
    }
  }

  lemma {:induction false} NoAnswersNoVerdicts(groups: seq<FileGroup>)
    ensures AllVerdicts(Outcomes(groups, map[])) == []
  {
    if groups != [] {
      var outcomes := Outcomes(groups, map[]);
      NoAnswersNoVerdicts(groups[..|groups| - 1]);
      assert outcomes[..|outcomes| - 1] == Outcomes(groups[..|groups| - 1], map[]);
    }
  }

  /** When nothing usable is answered, because every call failed or decided nothing, the findings come back
      untouched. */
  lemma {:induction false} UnusableAnswersChangeNothing(cfg: Config, findings: seq<Finding>, files: seq<DiffFile>,
                                                        answers: Answers)
    requires Answered(cfg, findings, files, answers) == []
    ensures Kept(Revisions(cfg, findings, files, answers)) == findings
    ensures NoneCount(Revisions(cfg, findings, files, answers)) == 0
  {
    NothingJudgedNothingChanged(findings);
  }

  lemma {:induction false} FailedCriticChangesNothing(cfg: Config, findings: seq<Finding>, files: seq<DiffFile>)
    ensures Kept(Revisions(cfg, findings, files, map[])) == findings
  {
    NoAnswersNoVerdicts(GroupedByFile(JudgedOf(findings, files, cfg.maxFindings)));
    UnusableAnswersChangeNothing(cfg, findings, files, map[]);
  }

  /** The verdicts of all the calls, and the calls summed. */
  method Gather(model: string, results: seq<FileOutcome>) returns (verdicts: seq<Verdict>, call: AgentCall)
    ensures verdicts == AllVerdicts(results) && call == SummedCall(model, results)
  {
    call := AgentCall(CriticPass, model, 0, 0, 0);
    verdicts := [];
    for i := 0 to |results|
      invariant verdicts == AllVerdicts(results[..i]) && call == SummedCall(model, results[..i])
    {
      assert results[..i + 1][..i] == results[..i];
      var o := results[i];
      verdicts := verdicts + o.verdicts;
      call := call.(inputTokens := call.inputTokens + o.inputTokens,
                    outputTokens := call.outputTokens + o.outputTokens,
                    cacheReadTokens := call.cacheReadTokens + o.cacheReadTokens);
    }
    assert results[..|results|] == results;
  }

  method ReviewFindings(cfg: Config, findings: seq<Finding>, files: seq<DiffFile>, answers: Answers)
    returns (outcome: CriticOutcome)
    ensures var each := Revisions(cfg, findings, files, answers);
            && outcome.findings == Kept(each)
            && outcome.retracted == NoneCount(each)
            && outcome.honoured == Honoured(cfg, findings, files, answers)
            && outcome.survivors == (if Answered(cfg, findings, files, answers) == [] then map[] else ByIndex(each))
            && outcome.call == CallOf(cfg, findings, files, answers)
  {
    NothingJudgedNothingChanged(findings);
    var judged := Judgeable(findings, files, cfg.maxFindings);
    if judged == [] {
      return CriticOutcome(findings, 0, map[], map[], None);
    }
    var grouped := ByFile(judged);
    var verdicts, call := Gather(cfg.model, Outcomes(grouped, answers));
    if verdicts == [] {
      return CriticOutcome(findings, 0, map[], map[], Some(call));
    }
    var kept, retracted, _, honoured, survivors := Apply(findings, verdicts, Asked(judged));
    outcome := CriticOutcome(kept, retracted, honoured, survivors, Some(call));
  }

  /** An honoured verdict is always about an anchored finding, so no answer touches a file-level one;
      past the cap, nothing is touched either. */
  lemma {:induction false} OnlyAskedFindingsChange(cfg: Config, findings: seq<Finding>, files: seq<DiffFile>,
                                                   answers: Answers, i: nat)
    requires i < |findings|
    requires Revisions(cfg, findings, files, answers)[i] != Some(findings[i])
    ensures IsAsked(JudgedOf(findings, files, cfg.maxFindings), i)
    ensures findings[i].line.Some?
    ensures Anchors.Located(findings[i].(file := Text.Normalized(findings[i].file)), Anchors.ByPath(files))
  {
    var judged := JudgedOf(findings, files, cfg.maxFindings);
    var all := AllJudgeable(findings, Anchors.ByPath(files));
    FirstVerdictsAre(AllVerdicts(Outcomes(GroupedByFile(judged), answers)), Asked(judged));
    assert i in Asked(judged);
    var k :| 0 <= k < |judged| && judged[k].index == i;
    AllJudgeableAre(findings, Anchors.ByPath(files));
    assert judged[k] == all[k];
    assert JudgedFairly(findings, Anchors.ByPath(files), all[k]);
  }

  // ---------------------------------------------------------------- evidence

  function NumberedLineCount(hunks: seq<DiffHunk>): nat {
    if hunks == [] then 0 else NumberedLineCount(hunks[..|hunks| - 1]) + |hunks[|hunks| - 1].numbered|
  }

  function WindowFor(file: DiffFile, findings: seq<Finding>, i: nat, radius: int): seq<seq<Numbered>> {
    if i < |findings| && findings[i].line.Some? then Windows.WindowOf(file, findings[i].line.value, radius) else []
  }

  /** The windows of a group's findings, one after another. */
  function WindowsOf(file: DiffFile, findings: seq<Finding>, indices: seq<nat>, radius: int): seq<seq<Numbered>> {
    if indices == [] then []
    else
      var i := indices[|indices| - 1];
      WindowsOf(file, findings, indices[..|indices| - 1], radius)
      + WindowFor(file, findings, i, radius)
  }

  /** The code a group is shown: the whole file if it is small enough, otherwise a window per finding. */
  function CodeShown(file: DiffFile, findings: seq<Finding>, indices: seq<nat>, maxFileLines: int, radius: int)
    : seq<seq<Numbered>>
  {
    if NumberedLineCount(file.hunks) <= maxFileLines then Windows.WholeFile(file.hunks)
    else WindowsOf(file, findings, indices, radius)
  }

  lemma {:induction false} WindowsShow(file: DiffFile, findings: seq<Finding>, indices: seq<nat>, radius: int, i: nat)
    requires i in indices && i < |findings| && findings[i].line.Some?
    requires Windows.Shows(Windows.WindowOf(file, findings[i].line.value, radius), findings[i].line.value)
    ensures Windows.Shows(WindowsOf(file, findings, indices, radius), findings[i].line.value)
  {
    var n := |indices| - 1;
    var line := findings[i].line.value;
    var last := indices[n];
    if last != i {
      WindowsShow(file, findings, indices[..n], radius, i);
    }
    Windows.ShowsMore(
      WindowsOf(file, findings, indices[..n], radius),
      WindowFor(file, findings, last, radius),
      line);
  }

  lemma {:induction false} WindowsNegative(file: DiffFile, findings: seq<Finding>, indices: seq<nat>, radius: int)
    requires radius < 0 && forall h <- file.hunks :: GutterAgrees(h)
    ensures WindowsOf(file, findings, indices, radius) == []
  {
    if indices != [] {
      var n := |indices| - 1;
      WindowsNegative(file, findings, indices[..n], radius);
      if indices[n] < |findings| && findings[indices[n]].line.Some? {
        Windows.WindowEmptyExactly(file, findings[indices[n]].line.value, radius);
      }
    }
  }

  /** Every finding a call is about is judged against code that includes its own anchor line: always when
      the file is shown whole, and otherwise exactly when the window radius is not negative. */
  lemma {:induction false} EvidenceShowsTheAnchor(cfg: Config, findings: seq<Finding>, files: seq<DiffFile>,
                               k: nat, maxFileLines: int, radius: int)
    requires forall f <- files, h <- f.hunks :: GutterAgrees(h)
    requires k < |JudgedOf(findings, files, cfg.maxFindings)|
    ensures var judged := JudgedOf(findings, files, cfg.maxFindings);
            var i, file := judged[k].index, judged[k].file;
            && i < |findings| && findings[i].line.Some?
            && HasGroup(GroupedByFile(judged), file.path)
            && i in IndicesOf(judged, file.path)
            && (Windows.Shows(CodeShown(file, findings, IndicesOf(judged, file.path), maxFileLines, radius),
                              findings[i].line.value)
                <==> NumberedLineCount(file.hunks) <= maxFileLines || radius >= 0)
  {
    var byPath := Anchors.ByPath(files);
    var judged, all := JudgedOf(findings, files, cfg.maxFindings), AllJudgeable(findings, byPath);
    AllJudgeableAre(findings, byPath);
    assert judged[k] == all[k] && JudgedFairly(findings, byPath, all[k]);
    var i, file := judged[k].index, judged[k].file;
    Anchors.ByPathIs(files);
    assert file in files;
    IndicesOfHas(judged, k);
    GroupsCoverTheJudged(judged);
    var line, indices := findings[i].line.value, IndicesOf(judged, file.path);
    if NumberedLineCount(file.hunks) <= maxFileLines {
      Windows.WholeFileShowsTheAnchor(file, line);
    } else if radius >= 0 {
      Windows.WindowShowsTheAnchor(file, line, radius);
      WindowsShow(file, findings, indices, radius, i);
    } else {
      WindowsNegative(file, findings, indices, radius);
    }
  }

  lemma {:induction false} IndicesOfHas(judged: seq<Judgement>, k: nat)
    requires k < |judged|
    ensures judged[k].index in IndicesOf(judged, judged[k].file.path)
  {
    if k < |judged| - 1 {
      IndicesOfHas(judged[..|judged| - 1], k);
    }
  }

  /** The findings grouped together by path were all judged against the same file. */
  lemma {:induction false} OnePathOneFile(findings: seq<Finding>, files: seq<DiffFile>, maxFindings: int, k: nat,
                                          l: nat)
    requires k < |JudgedOf(findings, files, maxFindings)| && l < |JudgedOf(findings, files, maxFindings)|
    requires JudgedOf(findings, files, maxFindings)[k].file.path == JudgedOf(findings, files, maxFindings)[l].file.path
    ensures JudgedOf(findings, files, maxFindings)[k].file == JudgedOf(findings, files, maxFindings)[l].file
  {
    var byPath := Anchors.ByPath(files);
    var judged, all := JudgedOf(findings, files, maxFindings), AllJudgeable(findings, byPath);
    AllJudgeableAre(findings, byPath);
    Anchors.ByPathIs(files);
    assert judged[k] == all[k] && JudgedFairly(findings, byPath, all[k]);
    assert judged[l] == all[l] && JudgedFairly(findings, byPath, all[l]);
  }
}
