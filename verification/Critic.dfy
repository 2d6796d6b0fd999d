/** The pass that checks findings against the code (src/reviewhive/graph/critic.py).  The model's answers
    are arbitrary: every theorem is about what no answer can do. */
module Critic {
  import opened Models
  import opened Sequences
  import opened Diff
  import Anchors
  import Provenance
  import Text

  datatype VerdictKind = Keep | Amend | Drop

  datatype Verdict = Verdict(
    index: int,
    codePreventsIt: bool,
    verdict: VerdictKind,
    revisedSeverity: Option<Severity>,
    revisedTitle: Option<string>,
    revisedBody: Option<string>)

  /** One file's call: what it decided and what it cost.  A failed call decides nothing. */
  datatype FileOutcome = FileOutcome(verdicts: seq<Verdict>, inputTokens: nat, outputTokens: nat, cacheReadTokens: nat)

  datatype CriticOutcome = CriticOutcome(
    findings: seq<Finding>,
    retracted: nat,
    honoured: map<int, Verdict>,
    survivors: map<nat, Option<Finding>>,
    call: Option<AgentCall>)

  // ---------------------------------------------------------------- one verdict on one finding

  /** The severity a verdict is allowed to set: lower, with a guard named, and only from high. */
  function AllowedSeverity(f: Finding, v: Verdict): Option<Severity> {
    match v.revisedSeverity
    case None => None
    case Some(s) =>
      if s == f.severity || Rank(s) > Rank(f.severity) || !v.codePreventsIt || f.severity != High then None
      else Some(s)
  }

  function Revised(current: string, revision: Option<string>): Option<string> {
    var text := Text.Strip(if revision.Some? then revision.value else "");
    if text == "" || text == current then None else Some(text)
  }

  /** The finding with its amendments, or unchanged when there are none. */
  function Amended(f: Finding, v: Verdict): Finding {
    var severity := AllowedSeverity(f, v);
    var title, body := Revised(f.title, v.revisedTitle), Revised(f.body, v.revisedBody);
    if severity.None? && title.None? && body.None? then f
    else
      f.(severity := Or(severity, f.severity), title := Or(title, f.title), body := Or(body, f.body), amended := true)
  }

  function Judge(f: Finding, v: Option<Verdict>): Option<Finding> {
    if v.None? || v.value.verdict.Keep? then Some(f)
    else if v.value.verdict.Drop? then None
    else Some(Amended(f, v.value))
  }

  /** What a verdict can and cannot do to a finding. */
  lemma {:induction false} VerdictsAreBounded(f: Finding, v: Option<Verdict>)
    ensures var r := Judge(f, v);
            && (r.None? <==> v.Some? && v.value.verdict.Drop?)
            && (r.Some? ==>
                  var g := r.value;
                  && g.file == f.file && g.line == f.line && g.category == f.category
                  && g.confidence == f.confidence && g.sources == f.sources
                  && Rank(g.severity) <= Rank(f.severity)
                  && (g.severity != f.severity ==>
                        f.severity == High && v.value.verdict.Amend? && v.value.codePreventsIt
                        && v.value.revisedSeverity == Some(g.severity))
                  && (g.amended <==> f.amended || g.severity != f.severity || g.title != f.title || g.body != f.body)
                  && (g.title != f.title ==> g.title != "" && Text.Trimmed(g.title))
                  && (g.body != f.body ==> g.body != "" && Text.Trimmed(g.body)))
  {
    if v.Some? && v.value.revisedTitle.Some? {
      Text.StripTrims(v.value.revisedTitle.value);
    }
    if v.Some? && v.value.revisedBody.Some? {
      Text.StripTrims(v.value.revisedBody.value);
    }
  }

  /** The text an amendment puts in place of another: what was offered, stripped, unless nothing is left. */
  function Offered(revision: Option<string>, current: string): string {
    if revision.None? || Text.Strip(revision.value) == "" then current else Text.Strip(revision.value)
  }

  /** What each verdict does: no verdict and `keep` leave the finding alone, `drop` removes it, and `amend` sets
      each text that is offered, and a lower severity on a high finding if a guard is named. */
  lemma {:induction false} VerdictsDo(f: Finding, v: Option<Verdict>)
    ensures v.None? || v.value.verdict.Keep? ==> Judge(f, v) == Some(f)
    ensures v.Some? && v.value.verdict.Drop? ==> Judge(f, v) == None
    ensures v.Some? && v.value.verdict.Amend? ==>
              var g, revised := Judge(f, v), v.value.revisedSeverity;
              && g.Some?
              && g.value.title == Offered(v.value.revisedTitle, f.title)
              && g.value.body == Offered(v.value.revisedBody, f.body)
              && g.value.severity == if f.severity.High? && v.value.codePreventsIt && revised.Some?
                                     then revised.value else f.severity
  {
    Text.StripTrims("");
  }

  // ---------------------------------------------------------------- all verdicts on all findings

  /** `seen`: the first verdict on each finding that was asked about. */
  function FirstVerdicts(verdicts: seq<Verdict>, asked: set<int>): map<int, Verdict> {
    if verdicts == [] then map[]
    else
      var v := verdicts[|verdicts| - 1];
      var seen := FirstVerdicts(verdicts[..|verdicts| - 1], asked);
      if v.index !in asked || v.index in seen then seen else seen[v.index := v]
  }

  function VerdictOn(seen: map<int, Verdict>, i: int): Option<Verdict> {
    if i in seen then Some(seen[i]) else None
  }

  function JudgedAll(findings: seq<Finding>, seen: map<int, Verdict>): (r: seq<Option<Finding>>)
    ensures |r| == |findings|
  {
    seq(|findings|, i requires 0 <= i < |findings| => Judge(findings[i], VerdictOn(seen, i)))
  }

  function AmendedCount(findings: seq<Finding>, each: seq<Option<Finding>>): nat
    requires |each| == |findings|
  {
    if findings == [] then 0
    else
      var n := |findings| - 1;
      AmendedCount(findings[..n], each[..n]) + (if each[n].Some? && each[n].value != findings[n] then 1 else 0)
  }

  /** `survivors`: each finding's index, with what became of it. */
  function ByIndex(each: seq<Option<Finding>>): (m: map<nat, Option<Finding>>)
    ensures forall i: nat :: i in m <==> i < |each|
    ensures forall i :: 0 <= i < |each| ==> m[i] == each[i]
  {
    if each == [] then map[]
    else
      var n := |each| - 1;
      ByIndex(each[..n])[n := each[n]]
  }

  lemma {:induction false} OneMoreJudged(findings: seq<Finding>, each: seq<Option<Finding>>, i: nat)
    requires i < |findings| == |each|
    ensures ByIndex(each[..i + 1]) == ByIndex(each[..i])[i := each[i]]
    ensures Kept(each[..i + 1]) == Kept(each[..i]) + (if each[i].Some? then [each[i].value] else [])
    ensures NoneCount(each[..i + 1]) == NoneCount(each[..i]) + (if each[i].None? then 1 else 0)
    ensures AmendedCount(findings[..i + 1], each[..i + 1])
         == AmendedCount(findings[..i], each[..i]) + (if each[i].Some? && each[i].value != findings[i] then 1 else 0)
  {
    assert each[..i + 1][..i] == each[..i] && findings[..i + 1][..i] == findings[..i];
  }

  /** The first loop: verdicts nobody asked for and second verdicts are passed over. */
  method Collect(verdicts: seq<Verdict>, asked: set<int>) returns (seen: map<int, Verdict>)
    ensures seen == FirstVerdicts(verdicts, asked)
  {
    seen := map[];
    for i := 0 to |verdicts|
      invariant seen == FirstVerdicts(verdicts[..i], asked)
    {
      assert verdicts[..i + 1][..i] == verdicts[..i];
      var verdict := verdicts[i];
      if verdict.index !in asked || verdict.index in seen {
        continue;
      }
      seen := seen[verdict.index := verdict];
    }
    assert verdicts[..|verdicts|] == verdicts;
  }

  method Apply(findings: seq<Finding>, verdicts: seq<Verdict>, asked: set<int>)
    returns (kept: seq<Finding>, retracted: nat, amended: nat, seen: map<int, Verdict>,
             survivors: map<nat, Option<Finding>>)
    ensures seen == FirstVerdicts(verdicts, asked)
    ensures var each := JudgedAll(findings, seen);
            && kept == Kept(each)
            && retracted == NoneCount(each)
            && amended == AmendedCount(findings, each)
            && survivors == ByIndex(each)
  {
    seen := Collect(verdicts, asked);
    ghost var each := JudgedAll(findings, seen);
    kept, survivors, retracted, amended := [], map[], 0, 0;
    for i := 0 to |findings|
      invariant kept == Kept(each[..i]) && retracted == NoneCount(each[..i])
      invariant amended == AmendedCount(findings[..i], each[..i])
      invariant survivors == ByIndex(each[..i])
    {
      OneMoreJudged(findings, each, i);
      var finding := findings[i];
      var verdict := VerdictOn(seen, i);
      if verdict.None? || verdict.value.verdict.Keep? {
        kept := kept + [finding];
        survivors := survivors[i := Some(finding)];
        continue;
      }
      if verdict.value.verdict.Drop? {
        retracted := retracted + 1;
        survivors := survivors[i := None];
        continue;
      }
      var revised := Amended(finding, verdict.value);
      if revised != finding {
        amended := amended + 1;
      }
      kept := kept + [revised];
      survivors := survivors[i := Some(revised)];
    }
    assert each[..|findings|] == each && findings[..|findings|] == findings;
  }

  /** The critic's verdicts leave an order-preserving selection of the findings: kept plus retracted is
      everything, and no kept finding has changed where it came from. */
  lemma {:induction false} VerdictsSelect(findings: seq<Finding>, seen: map<int, Verdict>)
    ensures var each := JudgedAll(findings, seen);
            && Selects(each, KeptAt(each), Kept(each))
            && |Kept(each)| + NoneCount(each) == |findings|
            && Provenance.Traces(findings, KeptAt(each), Kept(each), false)
  {
    var each := JudgedAll(findings, seen);
    KeptSelects(each);
    KeptPlusNone(each);
    forall i | 0 <= i < |findings| && each[i].Some?
      ensures Provenance.SameOrigin(findings[i], each[i].value, false)
    {
      VerdictsAreBounded(findings[i], VerdictOn(seen, i));
    }
    Provenance.SelectionTraces(findings, each, false);
  }

  // ---------------------------------------------------------------- which verdicts matter

  /** The verdicts on one index, in the order given. */
  function On(verdicts: seq<Verdict>, i: int): seq<Verdict> {
    if verdicts == [] then []
    else
      var v := verdicts[|verdicts| - 1];
      On(verdicts[..|verdicts| - 1], i) + (if v.index == i then [v] else [])
  }

  function First(verdicts: seq<Verdict>, i: int): Option<Verdict> {
    var on := On(verdicts, i);
    if on == [] then None else Some(on[0])
  }

  lemma {:induction false} FirstVerdictsAre(verdicts: seq<Verdict>, asked: set<int>)
    ensures forall i ::
      VerdictOn(FirstVerdicts(verdicts, asked), i) == if i in asked then First(verdicts, i) else None
  {
    if verdicts != [] {
      FirstVerdictsAre(verdicts[..|verdicts| - 1], asked);
      var before := FirstVerdicts(verdicts[..|verdicts| - 1], asked);
      var v := verdicts[|verdicts| - 1];
      assert VerdictOn(before, v.index).Some? <==> v.index in before;
    }
  }

  /** Only the first verdict on each asked finding counts: answers have the same effect exactly when they
      agree on those, whatever their order across findings and whatever else they say. */
  lemma {:induction false} OnlyFirstVerdictsMatter(a: seq<Verdict>, b: seq<Verdict>, asked: set<int>)
    ensures FirstVerdicts(a, asked) == FirstVerdicts(b, asked) <==> forall i <- asked :: First(a, i) == First(b, i)
  {
    FirstVerdictsAre(a, asked);
    FirstVerdictsAre(b, asked);
    var sa, sb := FirstVerdicts(a, asked), FirstVerdicts(b, asked);
    if forall i <- asked :: First(a, i) == First(b, i) {
      forall i
        ensures i in sa <==> i in sb
        ensures i in sa ==> sa[i] == sb[i]
      {
        assert VerdictOn(sa, i) == VerdictOn(sb, i);
      }
      assert sa.Keys == sb.Keys;
    }
    forall i | i in asked && sa == sb
      ensures First(a, i) == First(b, i)
    {
      assert VerdictOn(sa, i) == VerdictOn(sb, i);
    }
  }

  lemma {:induction false} OnConcat(a: seq<Verdict>, b: seq<Verdict>, i: int)
    ensures On(a + b, i) == On(a, i) + On(b, i)
  {
    if b == [] {
      assert a + b == a;
    } else {
      assert (a + b)[..|a + b| - 1] == a + b[..|b| - 1];
      OnConcat(a, b[..|b| - 1], i);
    }
  }

  /** A verdict nobody asked for, or a second one on the same finding, changes nothing wherever it is
      slipped in. */
  lemma {:induction false} ExtraVerdictIgnored(before: seq<Verdict>, extra: Verdict, after: seq<Verdict>,
                                               asked: set<int>)
    requires extra.index !in asked || On(before, extra.index) != []
    ensures FirstVerdicts(before + [extra] + after, asked) == FirstVerdicts(before + after, asked)
  {
    forall i | i in asked
      ensures First(before + [extra] + after, i) == First(before + after, i)
    {
      OnConcat(before + [extra], after, i);
      OnConcat(before, [extra], i);
      OnConcat(before, after, i);
      assert [extra][..0] == [];
    }
    OnlyFirstVerdictsMatter(before + [extra] + after, before + after, asked);
  }

  // ---------------------------------------------------------------- which findings are asked about

  datatype Judgement = Judgement(index: nat, file: DiffFile)

  function JudgeableFile(f: Finding, byPath: map<string, DiffFile>): Option<DiffFile> {
    var path := Text.Normalized(f.file);
    if f.line.None? || path !in byPath || f.line.value !in AnchorableLines(byPath[path]) then None
    else Some(byPath[path])
  }

  function AllJudgeable(findings: seq<Finding>, byPath: map<string, DiffFile>): seq<Judgement> {
    if findings == [] then []
    else
      var n := |findings| - 1;
      var file := JudgeableFile(findings[n], byPath);
      AllJudgeable(findings[..n], byPath) + (if file.Some? then [Judgement(n, file.value)] else [])
  }

  /** The dictionary `judgeable` returns, in its insertion order. */
  function JudgedOf(findings: seq<Finding>, files: seq<DiffFile>, maxFindings: int): seq<Judgement> {
    Capped(AllJudgeable(findings, Anchors.ByPath(files)), maxFindings)
  }

  lemma {:induction false} JudgeablePrefix(findings: seq<Finding>, byPath: map<string, DiffFile>, i: nat)
    requires i <= |findings|
    ensures AllJudgeable(findings[..i], byPath) <= AllJudgeable(findings, byPath)
  {
    if i == |findings| {
      assert findings[..i] == findings;
    } else {
      JudgeablePrefix(findings[..|findings| - 1], byPath, i);
      assert findings[..|findings| - 1][..i] == findings[..i];
    }
  }

  /** The loop's body: the finding is added if it can be judged. */
  method AddJudgeable(findings: seq<Finding>, byPath: map<string, DiffFile>, maxFindings: int, i: nat,
                      judged: seq<Judgement>)
    returns (more: seq<Judgement>, full: bool)
    requires i < |findings| && judged == AllJudgeable(findings[..i], byPath) && Room(|judged|, maxFindings)
    ensures more == AllJudgeable(findings[..i + 1], byPath)
    ensures if full then JustFull(|more|, maxFindings) else Room(|more|, maxFindings)
  {
    assert findings[..i + 1][..i] == findings[..i];
    more, full := judged, false;
    var finding := findings[i];
    if finding.line.None? {
      return;
    }
    var path := Text.NormalizePath(finding.file);
    if path !in byPath || finding.line.value !in AnchorableLines(byPath[path]) {
      return;
    }
    more := judged + [Judgement(i, byPath[path])];
    full := |more| >= maxFindings;
  }

  method Judgeable(findings: seq<Finding>, files: seq<DiffFile>, maxFindings: int) returns (judged: seq<Judgement>)
    ensures judged == JudgedOf(findings, files, maxFindings)
  {
    var byPath := Anchors.ByPath(files);
    judged := [];
    var full := false;
    for i := 0 to |findings|
      invariant judged == AllJudgeable(findings[..i], byPath) && Room(|judged|, maxFindings)
    {
      judged, full := AddJudgeable(findings, byPath, maxFindings, i, judged);
      if full {
        JudgeablePrefix(findings, byPath, i + 1);
        CappedWhenFull(AllJudgeable(findings, byPath), judged, maxFindings);
        return;
      }
    }
    assert findings[..|findings|] == findings;
    CappedWithRoom(judged, maxFindings);
  }

  predicate JudgedFairly(findings: seq<Finding>, byPath: map<string, DiffFile>, j: Judgement) {
    j.index < |findings| && JudgeableFile(findings[j.index], byPath) == Some(j.file)
  }

  lemma {:induction false} AllJudgeableAre(findings: seq<Finding>, byPath: map<string, DiffFile>)
    ensures forall k :: 0 <= k < |AllJudgeable(findings, byPath)| ==>
              JudgedFairly(findings, byPath, AllJudgeable(findings, byPath)[k])
    ensures forall k, l :: 0 <= k < l < |AllJudgeable(findings, byPath)| ==>
              AllJudgeable(findings, byPath)[k].index < AllJudgeable(findings, byPath)[l].index
  {
    if findings != [] {
      var n := |findings| - 1;
      AllJudgeableAre(findings[..n], byPath);
      var before := AllJudgeable(findings[..n], byPath);
      forall k | 0 <= k < |before|
        ensures before[k].index < n && JudgedFairly(findings, byPath, before[k])
      {
        assert JudgedFairly(findings[..n], byPath, before[k]);
      }
    }
  }

  ghost predicate IsAsked(judged: seq<Judgement>, i: nat) {
    exists k :: 0 <= k < |judged| && judged[k].index == i
  }

  /** No judgeable finding is left out before the cap is reached. */
  lemma {:induction false} AllJudgeableComplete(findings: seq<Finding>, byPath: map<string, DiffFile>, i: nat)
    requires i < |findings| && JudgeableFile(findings[i], byPath).Some?
    ensures IsAsked(AllJudgeable(findings, byPath), i)
  {
    var n := |findings| - 1;
    var before, r := AllJudgeable(findings[..n], byPath), AllJudgeable(findings, byPath);
    if i < n {
      AllJudgeableComplete(findings[..n], byPath, i);
      var k :| 0 <= k < |before| && before[k].index == i;
      assert r[k].index == i;
    } else {
      assert r[|r| - 1].index == i;
    }
  }

  /** Asked about, before the cap: exactly the findings with a line that a comment may be attached to, in a
      file of the diff. */
  lemma {:induction false} AskedExactly(findings: seq<Finding>, byPath: map<string, DiffFile>, i: nat)
    ensures IsAsked(AllJudgeable(findings, byPath), i)
        <==> i < |findings| && findings[i].line.Some? && Text.Normalized(findings[i].file) in byPath
             && findings[i].line.value in AnchorableLines(byPath[Text.Normalized(findings[i].file)])
  {
    AllJudgeableAre(findings, byPath);
    if IsAsked(AllJudgeable(findings, byPath), i) {
      var k :| 0 <= k < |AllJudgeable(findings, byPath)| && AllJudgeable(findings, byPath)[k].index == i;
      assert JudgedFairly(findings, byPath, AllJudgeable(findings, byPath)[k]);
    } else if i < |findings| && JudgeableFile(findings[i], byPath).Some? {
      AllJudgeableComplete(findings, byPath, i);
    }
  }

  /** The cap keeps the earliest; a cap below one still lets one through. */
  lemma {:induction false} CapKeepsTheEarliest(findings: seq<Finding>, files: seq<DiffFile>, maxFindings: int)
    ensures var judged, all := JudgedOf(findings, files, maxFindings), AllJudgeable(findings, Anchors.ByPath(files));
            && judged <= all
            && (|judged| < |all| ==> |judged| == if maxFindings < 1 then 1 else maxFindings)
            && (maxFindings >= 1 ==> |judged| <= maxFindings)
  {
  }

  // ---------------------------------------------------------------- grouping by file, and what is shown

  datatype FileGroup = FileGroup(path: string, indices: seq<nat>)

  /** `grouped.setdefault(path, []).append(index)` on an insertion-ordered dictionary. */
  function AddToGroup(groups: seq<FileGroup>, path: string, index: nat): seq<FileGroup> {
    if groups == [] then [FileGroup(path, [index])]
    else if groups[0].path == path then [groups[0].(indices := groups[0].indices + [index])] + groups[1..]
    else [groups[0]] + AddToGroup(groups[1..], path, index)
  }

  function GroupedByFile(judged: seq<Judgement>): seq<FileGroup> {
    if judged == [] then []
    else
      var j := judged[|judged| - 1];
      AddToGroup(GroupedByFile(judged[..|judged| - 1]), j.file.path, j.index)
  }

  method ByFile(judged: seq<Judgement>) returns (groups: seq<FileGroup>)
    ensures groups == GroupedByFile(judged)
  {
    groups := [];
    for i := 0 to |judged|
      invariant groups == GroupedByFile(judged[..i])
    {
      assert judged[..i + 1][..i] == judged[..i];
      groups := AddToGroup(groups, judged[i].file.path, judged[i].index);
    }
    assert judged[..|judged|] == judged;
  }

  /** The judged indices of one file, in input order. */
  function IndicesOf(judged: seq<Judgement>, path: string): seq<nat> {
    if judged == [] then []
    else
      var j := judged[|judged| - 1];
      IndicesOf(judged[..|judged| - 1], path) + (if j.file.path == path then [j.index] else [])
  }

  ghost predicate HasGroup(groups: seq<FileGroup>, path: string) {
    exists g :: 0 <= g < |groups| && groups[g].path == path
  }

  ghost predicate PathsDistinct(groups: seq<FileGroup>) {
    forall g, h :: 0 <= g < h < |groups| ==> groups[g].path != groups[h].path
  }

  /** Each judged path has one group, and it holds that path's indices. */
  ghost predicate GroupsHold(groups: seq<FileGroup>, judged: seq<Judgement>) {
    && PathsDistinct(groups)
    && (forall g :: 0 <= g < |groups| ==>
          groups[g].indices != [] && groups[g].indices == IndicesOf(judged, groups[g].path))
    && (forall path :: IndicesOf(judged, path) != [] ==> HasGroup(groups, path))
  }

  lemma {:induction false} AddToGroupIs(groups: seq<FileGroup>, path: string, index: nat)
    requires PathsDistinct(groups)
    ensures var r := AddToGroup(groups, path, index);
            && |r| == |groups| + (if HasGroup(groups, path) then 0 else 1)
            && (forall g :: 0 <= g < |groups| ==>
                  r[g] == if groups[g].path == path
                          then groups[g].(indices := groups[g].indices + [index]) else groups[g])
            && (!HasGroup(groups, path) ==> r[|groups|] == FileGroup(path, [index]))
  {
    if groups != [] && groups[0].path != path {
      AddToGroupIs(groups[1..], path, index);
      var r, tail := AddToGroup(groups, path, index), AddToGroup(groups[1..], path, index);
      assert forall g :: 0 < g < |r| ==> r[g] == tail[g - 1];
      assert HasGroup(groups, path) <==> HasGroup(groups[1..], path) by {
        if g :| 0 <= g < |groups| && groups[g].path == path {
          assert groups[1..][g - 1].path == path;
        }
        if g :| 0 <= g < |groups[1..]| && groups[1..][g].path == path {
          assert groups[g + 1].path == path;
        }
      }
    } else if groups != [] {
      assert groups[0].path == path;
    }
  }

  lemma {:induction false} IndicesOfOneMore(judged: seq<Judgement>, j: Judgement, path: string)
    ensures IndicesOf(judged + [j], path) == IndicesOf(judged, path) + (if path == j.file.path then [j.index] else [])
  {
    assert (judged + [j])[..|judged|] == judged;
  }

  lemma {:induction false} AddingHolds(groups: seq<FileGroup>, judged: seq<Judgement>, j: Judgement)
    requires GroupsHold(groups, judged)
    ensures GroupsHold(AddToGroup(groups, j.file.path, j.index), judged + [j])
  {
    var path := j.file.path;
    var r := AddToGroup(groups, path, j.index);
    AddToGroupIs(groups, path, j.index);
    forall g | 0 <= g < |r|
      ensures r[g].indices != [] && r[g].indices == IndicesOf(judged + [j], r[g].path)
    {
      IndicesOfOneMore(judged, j, r[g].path);
    }
    forall p | IndicesOf(judged + [j], p) != []
      ensures HasGroup(r, p)
    {
      IndicesOfOneMore(judged, j, p);
      AddingGroups(groups, path, j.index, p);
    }
    PathsStayDistinct(groups, r, path);
  }

  lemma {:induction false} AddingGroups(groups: seq<FileGroup>, path: string, index: nat, p: string)
    requires PathsDistinct(groups) && (HasGroup(groups, p) || p == path)
    ensures HasGroup(AddToGroup(groups, path, index), p)
  {
    var r := AddToGroup(groups, path, index);
    AddToGroupIs(groups, path, index);
    if HasGroup(groups, p) {
      var g :| 0 <= g < |groups| && groups[g].path == p;
      assert r[g].path == p;
    } else {
      assert r[|groups|].path == p;
    }
  }

  lemma PathsStayDistinct(groups: seq<FileGroup>, r: seq<FileGroup>, path: string)
    requires PathsDistinct(groups) && |groups| <= |r| <= |groups| + 1
    requires forall g :: 0 <= g < |groups| ==> r[g].path == groups[g].path
    requires |r| > |groups| ==> !HasGroup(groups, path) && r[|groups|].path == path
    ensures PathsDistinct(r)
  {
  }

  /** Every judged finding is asked about in the one call for its file, in input order. */
  lemma {:induction false} GroupsCoverTheJudged(judged: seq<Judgement>)
    ensures GroupsHold(GroupedByFile(judged), judged)
  {
    if judged != [] {
      var n := |judged| - 1;
      GroupsCoverTheJudged(judged[..n]);
      AddingHolds(GroupedByFile(judged[..n]), judged[..n], judged[n]);
      assert judged == judged[..n] + [judged[n]];
    }
  }
}
