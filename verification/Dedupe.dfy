/** Merging overlapping findings (`collapse` and `_merge`, src/reviewhive/graph/dedupe.py). */
module Dedupe {
  import opened Models
  import opened Sequences
  import opened Diff
  import Text

  /** `line_tolerance` and `title_similarity`. */
  datatype Tuning = Tuning(tolerance: int, similarity: real)

  // ---------------------------------------------------------------- merging one group

  function LinesOf(members: seq<Finding>): seq<int> {
    if members == [] then []
    else
      var m := members[|members| - 1];
      LinesOf(members[..|members| - 1]) + (if m.line.Some? then [m.line.value] else [])
  }

  function MinOf(xs: seq<int>): int
    requires xs != []
  {
    var last := xs[|xs| - 1];
    if |xs| == 1 then last
    else var least := MinOf(xs[..|xs| - 1]); if last < least then last else least
  }

  function RepresentativeLine(members: seq<Finding>): Option<int> {
    var lines := LinesOf(members);
    if lines == [] then None else Some(MinOf(lines))
  }

  predicate Sharper(a: Finding, b: Finding) {
    Rank(a.severity) > Rank(b.severity) || (a.severity == b.severity && a.confidence > b.confidence)
  }

  /** The first member with the greatest (severity, confidence). */
  function Representative(members: seq<Finding>): Finding
    requires members != []
  {
    var last := members[|members| - 1];
    if |members| == 1 then last
    else var best := Representative(members[..|members| - 1]); if Sharper(last, best) then last else best
  }

  function TopSeverity(members: seq<Finding>): Severity
    requires members != []
  {
    var last := members[|members| - 1].severity;
    if |members| == 1 then last
    else var top := TopSeverity(members[..|members| - 1]); if Rank(last) > Rank(top) then last else top
  }

  function TopConfidence(members: seq<Finding>): real
    requires members != []
  {
    var last := members[|members| - 1].confidence;
    if |members| == 1 then last
    else var top := TopConfidence(members[..|members| - 1]); if last > top then last else top
  }

  function AddNew(known: seq<Agent>, more: seq<Agent>): seq<Agent> {
    if more == [] then known
    else
      var sources := AddNew(known, more[..|more| - 1]);
      var source := more[|more| - 1];
      if source in sources then sources else sources + [source]
  }

  function UnionSources(members: seq<Finding>): seq<Agent> {
    if members == [] then []
    else AddNew(UnionSources(members[..|members| - 1]), members[|members| - 1].sources)
  }

  /** What `_merge` makes of a cluster: a lone member unchanged, otherwise a rebuilt finding. */
  function Merged(path: string, members: seq<Finding>): Finding
    requires members != []
  {
    if |members| == 1 then members[0]
    else
      var r := Representative(members);
      Finding(path, RepresentativeLine(members), TopSeverity(members), r.category, r.title, r.body,
              TopConfidence(members), UnionSources(members), false)
  }

  method Merge(path: string, members: seq<Finding>) returns (merged: Finding)
    requires members != []
    ensures merged == Merged(path, members)
  {
    if |members| == 1 {
      return members[0];
    }
    var representative := Representative(members);
    var sources: seq<Agent> := [];
    for i := 0 to |members|
      invariant sources == UnionSources(members[..i])
    {
      ghost var before := sources;
      var more := members[i].sources;
      for j := 0 to |more|
        invariant sources == AddNew(before, more[..j])
      {
        assert more[..j + 1][..j] == more[..j];
        if more[j] !in sources {
          sources := sources + [more[j]];
        }
      }
      assert more[..|more|] == more;
      assert members[..i + 1][..i] == members[..i];
    }
    assert members[..|members|] == members;
    merged := Finding(path, RepresentativeLine(members), TopSeverity(members), representative.category,
                      representative.title, representative.body, TopConfidence(members), sources, false);
  }

  lemma {:induction false} AddNewIs(known: seq<Agent>, more: seq<Agent>)
    ensures forall a :: a in AddNew(known, more) <==> a in known || a in more
  {
    if more != [] {
      AddNewIs(known, more[..|more| - 1]);
      assert more == more[..|more| - 1] + [more[|more| - 1]];
    }
  }

  ghost predicate RaisedIn(members: seq<Finding>, a: Agent) {
    exists i :: 0 <= i < |members| && a in members[i].sources
  }

  lemma {:induction false} UnionSourcesIs(members: seq<Finding>)
    ensures forall a :: a in UnionSources(members) <==> RaisedIn(members, a)
  {
    if members != [] {
      var n := |members| - 1;
      UnionSourcesIs(members[..n]);
      AddNewIs(UnionSources(members[..n]), members[n].sources);
      forall a
        ensures a in UnionSources(members) <==> RaisedIn(members, a)
      {
        if RaisedIn(members, a) && a !in members[n].sources {
          var i :| 0 <= i < |members| && a in members[i].sources;
          assert a in members[..n][i].sources;
        }
        if RaisedIn(members[..n], a) {
          var i :| 0 <= i < n && a in members[..n][i].sources;
          assert a in members[i].sources;
        }
      }
    }
  }

  lemma {:induction false} TopsAre(members: seq<Finding>)
    requires members != []
    ensures Representative(members) in members
    ensures forall m <- members :: !Sharper(m, Representative(members))
    ensures TopSeverity(members) == Representative(members).severity
    ensures forall m <- members :: m.confidence <= TopConfidence(members)
    ensures exists m :: m in members && m.confidence == TopConfidence(members)
  {
    var n := |members| - 1;
    assert members == members[..n] + [members[n]];
    if n > 0 {
      TopsAre(members[..n]);
    } else {
      assert members[0] in members;
    }
    TopConfidenceIs(members);
  }

  /** Less severe, or as severe and no surer; strictly less sure if `strict`. */
  predicate NoSharperThan(m: Finding, best: Finding, strict: bool) {
    || Rank(m.severity) < Rank(best.severity)
    || (m.severity == best.severity && (if strict then m.confidence < best.confidence
                                        else m.confidence <= best.confidence))
  }

  lemma {:induction false} RepresentativeIs(members: seq<Finding>) returns (i: nat)
    requires members != []
    ensures i < |members| && Representative(members) == members[i]
    ensures forall j :: 0 <= j < |members| ==> NoSharperThan(members[j], members[i], j < i)
  {
    var n := |members| - 1;
    if n == 0 {
      i := 0;
    } else {
      i := RepresentativeIs(members[..n]);
      assert forall j :: 0 <= j < n ==> members[..n][j] == members[j];
      if Sharper(members[n], members[i]) {
        i := n;
      }
    }
  }

  /** The words of a merged finding are those of its most severe member; of the surest of them, if several
      are as severe; and of the first of these, if several are as sure. */
  lemma {:induction false} WordsOfTheSharpest(path: string, members: seq<Finding>) returns (i: nat)
    requires |members| >= 2
    ensures i < |members|
    ensures var r, m := Merged(path, members), members[i];
            r.title == m.title && r.body == m.body && r.category == m.category && r.severity == m.severity
    ensures forall j :: 0 <= j < |members| ==>
              || Rank(members[j].severity) < Rank(members[i].severity)
              || (members[j].severity == members[i].severity && members[j].confidence <= members[i].confidence)
    ensures forall j :: 0 <= j < i ==>
              || Rank(members[j].severity) < Rank(members[i].severity)
              || (members[j].severity == members[i].severity && members[j].confidence < members[i].confidence)
  {
    i := RepresentativeIs(members);
    TopsAre(members);
    forall j | 0 <= j < |members|
      ensures NoSharperThan(members[j], members[i], false) && (j < i ==> NoSharperThan(members[j], members[i], true))
    {
      assert NoSharperThan(members[j], members[i], j < i);
    }
  }

  // ---------------------------------------------------------------- the sources, in order of first mention

  /** The sources of all members, one after another. */
  function AllSources(members: seq<Finding>): seq<Agent> {
    if members == [] then [] else AllSources(members[..|members| - 1]) + members[|members| - 1].sources
  }

  /** `a` is mentioned before `b` is. */
  ghost predicate MentionedFirst(all: seq<Agent>, a: Agent, b: Agent) {
    exists k :: 0 <= k < |all| && all[k] == a && b !in all[..k + 1]
  }

  /** Each agent once, in the order of their first mention. */
  ghost predicate InFirstOrder(sources: seq<Agent>, all: seq<Agent>) {
    && (forall a :: a in sources <==> a in all)
    && (forall p, q :: 0 <= p < q < |sources| ==> MentionedFirst(all, sources[p], sources[q]))
  }

  lemma {:induction false} StillFirst(all: seq<Agent>, x: Agent, a: Agent, b: Agent)
    requires MentionedFirst(all, a, b)
    ensures MentionedFirst(all + [x], a, b)
  {
    var k :| 0 <= k < |all| && all[k] == a && b !in all[..k + 1];
    assert (all + [x])[..k + 1] == all[..k + 1] && (all + [x])[k] == a;
  }

  lemma {:induction false} OneMoreMention(sources: seq<Agent>, all: seq<Agent>, x: Agent, more: seq<Agent>,
                                          whole: seq<Agent>)
    requires InFirstOrder(sources, all)
    requires whole == all + [x] && more == if x in sources then sources else sources + [x]
    ensures InFirstOrder(more, whole)
  {
    forall p, q | 0 <= p < q < |more|
      ensures MentionedFirst(whole, more[p], more[q])
    {
      if q == |sources| {
        NewIsLater(all, x, sources[p]);
      } else {
        StillFirst(all, x, more[p], more[q]);
      }
    }
  }

  lemma {:induction false} NewIsLater(all: seq<Agent>, x: Agent, a: Agent)
    requires a in all && x !in all
    ensures MentionedFirst(all + [x], a, x)
  {
    var k :| 0 <= k < |all| && all[k] == a;
    assert (all + [x])[k] == a && (all + [x])[..k + 1] == all[..k + 1];
  }

  lemma {:induction false} AddNewInOrder(all: seq<Agent>)
    ensures InFirstOrder(AddNew([], all), all)
  {
    if all != [] {
      var front, last := all[..|all| - 1], all[|all| - 1];
      AddNewInOrder(front);
      OneMoreMention(AddNew([], front), front, last, AddNew([], all), all);
    }
  }

  lemma {:induction false} AddNewConcat(known: seq<Agent>, a: seq<Agent>, b: seq<Agent>)
    ensures AddNew(AddNew(known, a), b) == AddNew(known, a + b)
  {
    if b == [] {
      assert a + b == a;
    } else {
      assert (a + b)[..|a + b| - 1] == a + b[..|b| - 1];
      AddNewConcat(known, a, b[..|b| - 1]);
    }
  }

  lemma {:induction false} UnionIsAddNew(members: seq<Finding>)
    ensures UnionSources(members) == AddNew([], AllSources(members))
  {
    if members != [] {
      var n := |members| - 1;
      UnionIsAddNew(members[..n]);
      AddNewConcat([], AllSources(members[..n]), members[n].sources);
    }
  }

  /** `sources`: who raised it, each agent once, in the order of first mention. */
  lemma {:induction false} SourcesInOrder(members: seq<Finding>)
    ensures InFirstOrder(UnionSources(members), AllSources(members))
  {
    UnionIsAddNew(members);
    AddNewInOrder(AllSources(members));
  }

  lemma {:induction false} TopConfidenceIs(members: seq<Finding>)
    requires members != []
    ensures forall m <- members :: m.confidence <= TopConfidence(members)
    ensures exists m :: m in members && m.confidence == TopConfidence(members)
  {
    var n := |members| - 1;
    assert members == members[..n] + [members[n]];
    assert members[n] in members;
    if n > 0 {
      TopConfidenceIs(members[..n]);
      var m :| m in members[..n] && m.confidence == TopConfidence(members[..n]);
      assert m in members;
    }
  }

  lemma {:induction false} LinesOfAre(members: seq<Finding>)
    ensures forall m <- members :: m.line.Some? ==> m.line.value in LinesOf(members)
    ensures forall l <- LinesOf(members) :: exists m :: m in members && m.line == Some(l)
  {
    if members != [] {
      var n := |members| - 1;
      LinesOfAre(members[..n]);
      assert members == members[..n] + [members[n]];
    }
  }

  lemma {:induction false} MinOfIs(xs: seq<int>)
    requires xs != []
    ensures MinOf(xs) in xs && forall x <- xs :: MinOf(xs) <= x
  {
    var n := |xs| - 1;
    assert xs == xs[..n] + [xs[n]];
    if n > 0 {
      MinOfIs(xs[..n]);
    }
  }

  /** What a merge keeps of its members: exactly their sources, the greatest of their severities and
      confidences, the words of a member of that severity, and the earliest of their lines.  A lone member is
      kept as it is; a merged one is filed under the cluster's path and counts as not amended. */
  lemma {:induction false} MergeKeeps(path: string, members: seq<Finding>)
    requires members != []
    ensures var r := Merged(path, members);
            && (forall a :: a in r.sources <==> RaisedIn(members, a))
            && (forall m <- members :: Rank(m.severity) <= Rank(r.severity) && m.confidence <= r.confidence)
            && (exists m :: m in members && m.confidence == r.confidence)
            && (exists m :: m in members && m.severity == r.severity
                            && m.title == r.title && m.body == r.body && m.category == r.category)
            && (r.line.None? <==> forall m <- members :: m.line.None?)
            && (r.line.Some? ==>
                  && (exists m :: m in members && m.line == r.line)
                  && forall m <- members :: m.line.Some? ==> r.line.value <= m.line.value)
            && (if |members| == 1 then r == members[0]
                else r.file == path && !r.amended && InFirstOrder(r.sources, AllSources(members)))
  {
    UnionSourcesIs(members);
    SourcesInOrder(members);
    TopsAre(members);
    LinesOfAre(members);
    var lines := LinesOf(members);
    if lines != [] {
      MinOfIs(lines);
    }
    if |members| == 1 {
      assert members[0] in members;
    } else {
      var s := Representative(members);
      assert s in members;
    }
  }

  // ---------------------------------------------------------------- greedy clustering

  predicate IsFileLevel(members: seq<Finding>) {
    forall m <- members :: m.line.None?
  }

  predicate LinesCompatible(members: seq<Finding>, line: Option<int>, tolerance: int) {
    match line
    case None => IsFileLevel(members)
    case Some(l) => exists m <- members :: m.line.Some? && Distance(l, m.line.value) <= tolerance
  }

  predicate TitlesMatch(members: seq<Finding>, title: string, threshold: real) {
    exists m <- members :: Text.Jaccard(Text.TitleTokens(m.title), Text.TitleTokens(title)) >= threshold
  }

  /** A cluster of this path and these members takes the finding. */
  predicate Takes(path: string, members: seq<Finding>, f: Finding, t: Tuning) {
    && path == f.file
    && LinesCompatible(members, f.line, t.tolerance)
    && TitlesMatch(members, f.title, t.similarity)
  }

  /** The finding may join the cluster holding these members. */
  predicate Joins(members: seq<Finding>, f: Finding, t: Tuning) {
    members != [] && Takes(members[0].file, members, f, t)
  }

  function NormalizedAll(findings: seq<Finding>): (ns: seq<Finding>)
    ensures |ns| == |findings|
  {
    seq(|findings|, i requires 0 <= i < |findings| => findings[i].(file := Text.Normalized(findings[i].file)))
  }

  function ClusterCount(labels: seq<nat>): nat {
    if labels == [] then 0
    else
      var before := ClusterCount(labels[..|labels| - 1]);
      var last := labels[|labels| - 1];
      if last < before then before else last + 1
  }

  /** Which of the clusters take the finding. */
  function Takers(prior: seq<Finding>, labels: seq<nat>, f: Finding, t: Tuning): (takers: seq<bool>)
    requires |labels| == |prior|
    ensures |takers| == ClusterCount(labels)
  {
    seq(ClusterCount(labels), c requires 0 <= c < ClusterCount(labels) => Joins(Members(prior, labels, c), f, t))
  }

  /** The first cluster from `c` on that takes the finding, or a new one. */
  function FirstJoin(prior: seq<Finding>, labels: seq<nat>, f: Finding, t: Tuning, c: nat): (r: nat)
    requires |labels| == |prior| && c <= ClusterCount(labels)
    ensures c <= r <= ClusterCount(labels)
  {
    FirstTrue(Takers(prior, labels, f, t), c)
  }

  lemma {:induction false} FirstJoinIs(prior: seq<Finding>, labels: seq<nat>, f: Finding, t: Tuning, c: nat)
    requires |labels| == |prior| && c <= ClusterCount(labels)
    ensures var r := FirstJoin(prior, labels, f, t, c);
            && (r < ClusterCount(labels) ==> Joins(Members(prior, labels, r), f, t))
            && (forall d :: c <= d < r ==> !Joins(Members(prior, labels, d), f, t))
  {
    var takers := Takers(prior, labels, f, t);
    FirstTrueIs(takers, c);
    forall d | c <= d < FirstJoin(prior, labels, f, t, c)
      ensures !Joins(Members(prior, labels, d), f, t)
    {
      assert !takers[d];
    }
  }

  /** Which cluster each finding lands in, clusters numbered in the order they are founded. */
  function Labels(ns: seq<Finding>, t: Tuning): (labels: seq<nat>)
    ensures |labels| == |ns|
  {
    if ns == [] then []
    else
      var n := |ns| - 1;
      var labels := Labels(ns[..n], t);
      labels + [FirstJoin(ns[..n], labels, ns[n], t, 0)]
  }

  ghost predicate Dense(labels: seq<nat>) {
    && (forall i :: 0 <= i < |labels| ==> labels[i] < ClusterCount(labels))
    && (forall c: nat :: c < ClusterCount(labels) ==> c in labels)
  }

  lemma {:induction false} DenseGrows(labels: seq<nat>, c: nat)
    requires Dense(labels) && c <= ClusterCount(labels)
    ensures Dense(labels + [c])
    ensures ClusterCount(labels + [c]) == if c < ClusterCount(labels) then ClusterCount(labels) else c + 1
  {
    assert (labels + [c])[..|labels|] == labels;
  }

  lemma {:induction false} LabelsDense(ns: seq<Finding>, t: Tuning)
    ensures Dense(Labels(ns, t))
  {
    if ns != [] {
      var n := |ns| - 1;
      var labels := Labels(ns[..n], t);
      LabelsDense(ns[..n], t);
      DenseGrows(labels, FirstJoin(ns[..n], labels, ns[n], t, 0));
    }
  }

  /** The clusters themselves, as values. */
  function Groups(ns: seq<Finding>, t: Tuning): (groups: seq<seq<Finding>>)
    ensures |groups| == ClusterCount(Labels(ns, t))
  {
    Grouped(ns, Labels(ns, t))
  }

  function Grouped(ns: seq<Finding>, labels: seq<nat>): (groups: seq<seq<Finding>>)
    requires |labels| == |ns|
    ensures |groups| == ClusterCount(labels)
  {
    seq(ClusterCount(labels), c requires 0 <= c < ClusterCount(labels) => Members(ns, labels, c))
  }

  ghost predicate AllInhabited(groups: seq<seq<Finding>>) {
    forall c :: 0 <= c < |groups| ==> groups[c] != []
  }

  lemma {:induction false} GroupsInhabited(ns: seq<Finding>, t: Tuning)
    ensures AllInhabited(Groups(ns, t))
  {
    LabelsDense(ns, t);
    forall c | 0 <= c < ClusterCount(Labels(ns, t))
      ensures Groups(ns, t)[c] != []
    {
      MembersAre(ns, Labels(ns, t), c);
    }
  }

  function MergedGroups(groups: seq<seq<Finding>>): (r: seq<Finding>)
    requires AllInhabited(groups)
    ensures |r| == |groups|
  {
    seq(|groups|, c requires 0 <= c < |groups| => Merged(groups[c][0].file, groups[c]))
  }

  /** What `collapse` returns. */
  function Collapsed(findings: seq<Finding>, t: Tuning): seq<Finding> {
    var ns := NormalizedAll(findings);
    GroupsInhabited(ns, t);
    MergedGroups(Groups(ns, t))
  }

  // ---------------------------------------------------------------- the loop over mutable clusters

  class Cluster {
    const path: string
    var members: seq<Finding>

    constructor (first: Finding)
      ensures path == first.file && members == [first]
    {
      path := first.file;
      members := [first];
    }
  }

  /** The objects hold the groups, each in a cluster of its own. */
  ghost predicate Holds(clusters: seq<Cluster>, groups: seq<seq<Finding>>)
    reads clusters
  {
    && |clusters| == |groups|
    && (forall c, d :: 0 <= c < d < |clusters| ==> clusters[c] != clusters[d])
    && forall c :: 0 <= c < |clusters| ==>
         clusters[c].members == groups[c] && groups[c] != [] && clusters[c].path == groups[c][0].file
  }

  lemma {:induction false} OneMoreLabel(prior: seq<Finding>, f: Finding, t: Tuning)
    ensures Labels(prior + [f], t) == Labels(prior, t) + [FirstJoin(prior, Labels(prior, t), f, t, 0)]
  {
    assert (prior + [f])[..|prior|] == prior;
  }

  /** One more finding joins the group it belongs to, or founds the next one. */
  lemma {:induction false} OneMoreFinding(prior: seq<Finding>, f: Finding, t: Tuning)
    ensures var before, r := Groups(prior, t), FirstJoin(prior, Labels(prior, t), f, t, 0);
            Groups(prior + [f], t) == if r < |before| then before[r := before[r] + [f]] else before + [[f]]
  {
    OneMoreLabel(prior, f, t);
    LabelsDense(prior, t);
    OneMoreGrouped(prior, Labels(prior, t), f, FirstJoin(prior, Labels(prior, t), f, t, 0));
  }

  lemma {:induction false} OneMoreGrouped(prior: seq<Finding>, labels: seq<nat>, f: Finding, r: nat)
    requires |labels| == |prior| && Dense(labels) && r <= ClusterCount(labels)
    ensures var before := Grouped(prior, labels);
            Grouped(prior + [f], labels + [r]) == if r < |before| then before[r := before[r] + [f]] else before + [[f]]
  {
    var before := Grouped(prior, labels);
    var expected := if r < |before| then before[r := before[r] + [f]] else before + [[f]];
    DenseGrows(labels, r);
    if r == |before| {
      assert r !in labels;
      NoMembers(prior, labels, r);
    }
    forall c | 0 <= c < |expected|
      ensures Grouped(prior + [f], labels + [r])[c] == expected[c]
    {
      MembersOfOneMore(prior, labels, f, r, c);
    }
  }

  lemma {:induction false} TakersAre(prior: seq<Finding>, f: Finding, t: Tuning, c: nat)
    requires c < |Groups(prior, t)| && Groups(prior, t)[c] != []
    ensures Takers(prior, Labels(prior, t), f, t)[c]
         == Takes(Groups(prior, t)[c][0].file, Groups(prior, t)[c], f, t)
  {
    assert Groups(prior, t)[c] == Members(prior, Labels(prior, t), c);
  }

  /** `next((cluster for cluster in clusters if ...), None)`, with the length standing for None. */
  method FindTarget(clusters: seq<Cluster>, f: Finding, t: Tuning, ghost prior: seq<Finding>) returns (target: nat)
    requires Holds(clusters, Groups(prior, t))
    ensures target == FirstJoin(prior, Labels(prior, t), f, t, 0) <= |clusters|
  {
    ghost var takers := Takers(prior, Labels(prior, t), f, t);
    target := 0;
    while target < |clusters| && !Takes(clusters[target].path, clusters[target].members, f, t)
      invariant 0 <= target <= |clusters|
      invariant FirstTrue(takers, 0) == FirstTrue(takers, target)
    {
      TakersAre(prior, f, t, target);
      target := target + 1;
    }
    if target < |clusters| {
      TakersAre(prior, f, t, target);
    }
  }

  /** Append to the target cluster, or found a new one. */
  method Place(clusters: seq<Cluster>, target: nat, f: Finding, ghost groups: seq<seq<Finding>>)
    returns (r: seq<Cluster>)
    requires Holds(clusters, groups) && target <= |clusters|
    modifies clusters
    ensures Holds(r, if target < |groups| then groups[target := groups[target] + [f]] else groups + [[f]])
    ensures forall c :: 0 <= c < |r| ==> r[c] in clusters || fresh(r[c])
  {
    if target == |clusters| {
      var founded := new Cluster(f);
      r := clusters + [founded];
    } else {
      clusters[target].members := clusters[target].members + [f];
      r := clusters;
    }
  }

  lemma {:induction false} NormalizedOneMore(findings: seq<Finding>, i: nat)
    requires i < |findings|
    ensures NormalizedAll(findings)[..i + 1]
         == NormalizedAll(findings)[..i] + [findings[i].(file := Text.Normalized(findings[i].file))]
  {
  }

  /** The next finding, with its path normalised. */
  method Normalize(findings: seq<Finding>, i: nat) returns (r: Finding)
    requires i < |findings|
    ensures r == findings[i].(file := Text.Normalized(findings[i].file))
    ensures NormalizedAll(findings)[..i + 1] == NormalizedAll(findings)[..i] + [r]
  {
    var path := Text.NormalizePath(findings[i].file);
    r := findings[i].(file := path);
    NormalizedOneMore(findings, i);
  }

  /** One round of the loop. */
  method Absorb(clusters: seq<Cluster>, f: Finding, t: Tuning, ghost prior: seq<Finding>) returns (r: seq<Cluster>)
    requires Holds(clusters, Groups(prior, t))
    modifies clusters
    ensures Holds(r, Groups(prior + [f], t))
    ensures forall c :: 0 <= c < |r| ==> r[c] in clusters || fresh(r[c])
  {
    var target := FindTarget(clusters, f, t, prior);
    OneMoreFinding(prior, f, t);
    r := Place(clusters, target, f, Groups(prior, t));
  }

  /** `[_merge(cluster) for cluster in clusters]` */
  method MergeAll(clusters: seq<Cluster>, ghost groups: seq<seq<Finding>>) returns (merged: seq<Finding>)
    requires Holds(clusters, groups)
    ensures AllInhabited(groups) && merged == MergedGroups(groups)
  {
    merged := [];
    for c := 0 to |clusters|
      invariant Holds(clusters, groups)
      invariant merged == MergedGroups(groups)[..c]
    {
      var finding := Merge(clusters[c].path, clusters[c].members);
      merged := merged + [finding];
    }
  }

  /** The loop over the findings. */
  method ClusterAll(findings: seq<Finding>, t: Tuning) returns (clusters: seq<Cluster>)
    ensures Holds(clusters, Groups(NormalizedAll(findings), t))
  {
    ghost var ns := NormalizedAll(findings);
    clusters := [];
    for i := 0 to |findings|
      invariant forall c :: 0 <= c < |clusters| ==> fresh(clusters[c])
      invariant Holds(clusters, Groups(ns[..i], t))
    {
      var normalized := Normalize(findings, i);
      clusters := Absorb(clusters, normalized, t, ns[..i]);
    }
    assert ns[..|findings|] == ns;
  }

  method Collapse(findings: seq<Finding>, t: Tuning) returns (merged: seq<Finding>)
    ensures merged == Collapsed(findings, t)
  {
    var clusters := ClusterAll(findings, t);
    merged := MergeAll(clusters, Groups(NormalizedAll(findings), t));
  }

  // ---------------------------------------------------------------- what clustering guarantees

  /** A cluster has one file, is all file-level or all anchored, and k anchored members span at most
      (k - 1) * tolerance lines. */
  ghost predicate ClustersSound(ns: seq<Finding>, labels: seq<nat>, t: Tuning)
    requires |labels| == |ns|
  {
    forall i, j :: 0 <= i < |ns| && 0 <= j < |ns| && labels[i] == labels[j] ==>
      && ns[i].file == ns[j].file
      && (ns[i].line.None? <==> ns[j].line.None?)
      && (ns[i].line.Some? ==>
            Distance(ns[i].line.value, ns[j].line.value) <= (Count(labels, labels[i]) - 1) * t.tolerance)
  }

  lemma {:induction false} CountGrows(labels: seq<nat>, r: nat)
    ensures forall c :: Count(labels + [r], c) == Count(labels, c) + (if c == r then 1 else 0)
  {
    assert (labels + [r])[..|labels|] == labels;
  }

  lemma {:induction false} SpanGrows(count: nat, tolerance: int, distance: nat, step: nat)
    requires distance <= (count - 1) * tolerance && step <= tolerance
    ensures distance <= count * tolerance && distance + step <= count * tolerance
  {
    assert count * tolerance == (count - 1) * tolerance + tolerance;
  }

  /** A finding that may join a cluster is compatible with one of its members. */
  lemma {:induction false} JoinsNear(prior: seq<Finding>, labels: seq<nat>, f: Finding, r: nat,
                                     t: Tuning) returns (near: nat)
    requires |labels| == |prior| && ClustersSound(prior, labels, t)
    requires Joins(Members(prior, labels, r), f, t)
    ensures near < |prior| && labels[near] == r
    ensures prior[near].file == f.file && (prior[near].line.None? <==> f.line.None?)
    ensures f.line.Some? ==> Distance(f.line.value, prior[near].line.value) <= t.tolerance
  {
    var members := Members(prior, labels, r);
    var first := MemberAt(prior, labels, r, members[0]);
    near := first;
    if f.line.Some? {
      var m :| m in members && m.line.Some? && Distance(f.line.value, m.line.value) <= t.tolerance;
      near := MemberAt(prior, labels, r, m);
    }
    assert labels[near] == labels[first];
  }

  lemma {:induction false} MemberAt(prior: seq<Finding>, labels: seq<nat>, r: nat, m: Finding) returns (i: nat)
    requires |labels| == |prior| && m in Members(prior, labels, r)
    ensures i < |prior| && labels[i] == r && prior[i] == m
  {
    MembersAre(prior, labels, r);
    i :| 0 <= i < |prior| && labels[i] == r && prior[i] == m;
  }

  /** Joining through a compatible member keeps the clusters sound. */
  lemma {:induction false} JoiningKeepsSound(prior: seq<Finding>, labels: seq<nat>, f: Finding, near: nat, t: Tuning)
    requires |labels| == |prior| && ClustersSound(prior, labels, t)
    requires near < |prior|
    requires prior[near].file == f.file && (prior[near].line.None? <==> f.line.None?)
    requires f.line.Some? ==> Distance(f.line.value, prior[near].line.value) <= t.tolerance
    ensures ClustersSound(prior + [f], labels + [labels[near]], t)
  {
    var r := labels[near];
    CountGrows(labels, r);
    if f.line.Some? {
      var reach := Count(labels, r) * t.tolerance;
      forall i, j | 0 <= i < |prior| && 0 <= j < |prior| && labels[i] == labels[j] == r
        ensures prior[i].line.Some? && prior[j].line.Some?
        ensures Distance(prior[i].line.value, prior[j].line.value) <= reach
        ensures Distance(prior[i].line.value, f.line.value) <= reach
      {
        ReachGrows(prior, labels, f, near, t, i, j);
      }
      ReachGrows(prior, labels, f, near, t, near, near);
    }
  }

  lemma {:induction false} ReachGrows(prior: seq<Finding>, labels: seq<nat>, f: Finding, near: nat, t: Tuning,
                                      i: nat, j: nat)
    requires |labels| == |prior| && ClustersSound(prior, labels, t)
    requires near < |prior| && prior[near].line.Some? && f.line.Some?
    requires Distance(f.line.value, prior[near].line.value) <= t.tolerance
    requires i < |prior| && j < |prior| && labels[i] == labels[j] == labels[near]
    ensures prior[i].line.Some? && prior[j].line.Some?
    ensures Distance(prior[i].line.value, prior[j].line.value) <= Count(labels, labels[near]) * t.tolerance
    ensures Distance(prior[i].line.value, f.line.value) <= Count(labels, labels[near]) * t.tolerance
    ensures 0 <= Count(labels, labels[near]) * t.tolerance
  {
    var count, step := Count(labels, labels[near]), Distance(f.line.value, prior[near].line.value);
    SpanGrows(count, t.tolerance, Distance(prior[i].line.value, prior[j].line.value), step);
    SpanGrows(count, t.tolerance, Distance(prior[i].line.value, prior[near].line.value), step);
  }

  lemma {:induction false} FoundingKeepsSound(prior: seq<Finding>, labels: seq<nat>, f: Finding, r: nat, t: Tuning)
    requires |labels| == |prior| && ClustersSound(prior, labels, t)
    requires forall i :: 0 <= i < |labels| ==> labels[i] != r
    ensures ClustersSound(prior + [f], labels + [r], t)
  {
    var after := labels + [r];
    FoundingCounts(labels, r);
    forall i, j | 0 <= i < |prior| && 0 <= j < |prior| && labels[i] == labels[j]
      ensures prior[i].file == prior[j].file && (prior[i].line.None? <==> prior[j].line.None?)
      ensures prior[i].line.Some? ==>
                Distance(prior[i].line.value, prior[j].line.value) <= (Count(after, labels[i]) - 1) * t.tolerance
    {
      assert Count(after, labels[i]) == Count(labels, labels[i]);
    }
  }

  lemma {:induction false} FoundingCounts(labels: seq<nat>, r: nat)
    requires forall i :: 0 <= i < |labels| ==> labels[i] != r
    ensures Count(labels + [r], r) == 1
    ensures forall i :: 0 <= i < |labels| ==> Count(labels + [r], labels[i]) == Count(labels, labels[i])
  {
    CountGrows(labels, r);
    CountPositive(labels, r);
    assert r !in labels;
  }

  lemma {:induction false} CollapseClustersSound(ns: seq<Finding>, t: Tuning)
    ensures ClustersSound(ns, Labels(ns, t), t)
  {
    if ns != [] {
      var n := |ns| - 1;
      CollapseClustersSound(ns[..n], t);
      PlacingKeepsSound(ns[..n], Labels(ns[..n], t), ns[n], t);
      OneMoreLabel(ns[..n], ns[n], t);
      assert ns == ns[..n] + [ns[n]];
    }
  }

  lemma {:induction false} PlacingKeepsSound(prior: seq<Finding>, labels: seq<nat>, f: Finding, t: Tuning)
    requires labels == Labels(prior, t) && ClustersSound(prior, labels, t)
    ensures ClustersSound(prior + [f], labels + [FirstJoin(prior, labels, f, t, 0)], t)
  {
    var r := FirstJoin(prior, labels, f, t, 0);
    FirstJoinIs(prior, labels, f, t, 0);
    if r < ClusterCount(labels) {
      var near := JoinsNear(prior, labels, f, r, t);
      JoiningKeepsSound(prior, labels, f, near, t);
    } else {
      LabelsDense(prior, t);
      FoundingKeepsSound(prior, labels, f, r, t);
    }
  }

  /** The earliest cluster the finding may join, or the next new one. */
  ghost predicate PicksFirst(prior: seq<Finding>, labels: seq<nat>, f: Finding, t: Tuning, r: nat)
    requires |labels| == |prior|
  {
    && r <= ClusterCount(labels)
    && (r < ClusterCount(labels) ==> Joins(Members(prior, labels, r), f, t))
    && (forall d :: 0 <= d < r ==> !Joins(Members(prior, labels, d), f, t))
  }

  lemma {:induction false} LastPicksFirst(ns: seq<Finding>, t: Tuning)
    requires ns != []
    ensures var n := |ns| - 1; PicksFirst(ns[..n], Labels(ns[..n], t), ns[n], t, Labels(ns, t)[n])
  {
    var n := |ns| - 1;
    FirstJoinIs(ns[..n], Labels(ns[..n], t), ns[n], t, 0);
  }

  lemma {:induction false} LabelAt(ns: seq<Finding>, t: Tuning, i: nat)
    requires i < |ns|
    ensures Labels(ns, t)[..i] == Labels(ns[..i], t)
    ensures PicksFirst(ns[..i], Labels(ns[..i], t), ns[i], t, Labels(ns, t)[i])
  {
    LabelsPrefix(ns, t, i);
    LabelsPrefix(ns, t, i + 1);
    LastPicksFirst(ns[..i + 1], t);
    assert ns[..i + 1][..i] == ns[..i];
    assert Labels(ns, t)[i] == Labels(ns, t)[..i + 1][i];
  }

  lemma {:induction false} LabelsPrefix(ns: seq<Finding>, t: Tuning, i: nat)
    requires i <= |ns|
    ensures Labels(ns, t)[..i] == Labels(ns[..i], t)
  {
    if i == |ns| {
      assert ns[..i] == ns;
    } else {
      var front, last := ns[..|ns| - 1], ns[|ns| - 1];
      assert ns == front + [last] && front[..i] == ns[..i];
      LabelsPrefix(front, t, i);
      OneMoreLabel(front, last, t);
    }
  }

  /** The cluster holds a finding of this file. */
  ghost predicate SharesFile(prior: seq<Finding>, labels: seq<nat>, d: nat, file: string)
    requires |labels| == |prior|
  {
    exists j :: 0 <= j < |prior| && labels[j] == d && prior[j].file == file
  }

  /** It holds only file-level findings, for one that is; for an anchored one, one within the tolerance. */
  ghost predicate IsNear(prior: seq<Finding>, labels: seq<nat>, d: nat, line: Option<int>, tolerance: int)
    requires |labels| == |prior|
  {
    if line.None? then forall j :: 0 <= j < |prior| && labels[j] == d ==> prior[j].line.None?
    else exists j :: 0 <= j < |prior| && labels[j] == d && prior[j].line.Some?
                     && -tolerance <= line.value - prior[j].line.value <= tolerance
  }

  /** It holds one whose title is similar enough. */
  ghost predicate SoundsAlike(prior: seq<Finding>, labels: seq<nat>, d: nat, title: string, threshold: real)
    requires |labels| == |prior|
  {
    exists j :: 0 <= j < |prior| && labels[j] == d
                && Text.Jaccard(Text.TitleTokens(prior[j].title), Text.TitleTokens(title)) >= threshold
  }

  /** Cluster `d`, as it stands after `prior`, takes the finding. */
  ghost predicate Welcomes(prior: seq<Finding>, labels: seq<nat>, d: nat, f: Finding, t: Tuning)
    requires |labels| == |prior|
  {
    && SharesFile(prior, labels, d, f.file)
    && IsNear(prior, labels, d, f.line, t.tolerance)
    && SoundsAlike(prior, labels, d, f.title, t.similarity)
  }

  lemma {:induction false} WelcomedByLines(prior: seq<Finding>, labels: seq<nat>, d: nat, line: Option<int>,
                                           tolerance: int)
    requires |labels| == |prior|
    ensures LinesCompatible(Members(prior, labels, d), line, tolerance)
        <==> IsNear(prior, labels, d, line, tolerance)
  {
    var members := Members(prior, labels, d);
    MembersAre(prior, labels, d);
    if line.Some? && LinesCompatible(members, line, tolerance) {
      var m :| m in members && m.line.Some? && Distance(line.value, m.line.value) <= tolerance;
      var j := MemberAt(prior, labels, d, m);
    }
    if j :| 0 <= j < |prior| && labels[j] == d && prior[j].line.Some? && line.Some?
            && -tolerance <= line.value - prior[j].line.value <= tolerance {
      assert prior[j] in members;
    }
  }

  lemma {:induction false} WelcomedByTitle(prior: seq<Finding>, labels: seq<nat>, d: nat, title: string,
                                           threshold: real)
    requires |labels| == |prior|
    ensures TitlesMatch(Members(prior, labels, d), title, threshold)
        <==> SoundsAlike(prior, labels, d, title, threshold)
  {
    var members := Members(prior, labels, d);
    MembersAre(prior, labels, d);
    if m :| m in members && Text.Jaccard(Text.TitleTokens(m.title), Text.TitleTokens(title)) >= threshold {
      var j := MemberAt(prior, labels, d, m);
    }
    if j :| 0 <= j < |prior| && labels[j] == d
            && Text.Jaccard(Text.TitleTokens(prior[j].title), Text.TitleTokens(title)) >= threshold {
      assert prior[j] in members;
    }
  }

  lemma {:induction false} WelcomedByFile(prior: seq<Finding>, labels: seq<nat>, d: nat, t: Tuning, file: string)
    requires |labels| == |prior| && ClustersSound(prior, labels, t)
    ensures var members := Members(prior, labels, d);
            members != [] && members[0].file == file <==> SharesFile(prior, labels, d, file)
  {
    var members := Members(prior, labels, d);
    MembersAre(prior, labels, d);
    if members != [] {
      var first := MemberAt(prior, labels, d, members[0]);
      assert forall j :: 0 <= j < |prior| && labels[j] == d ==> prior[j].file == prior[first].file;
    }
    if j :| 0 <= j < |prior| && labels[j] == d && prior[j].file == file {
      assert labels[j] in labels;
    }
  }

  lemma {:induction false} JoinsExactly(prior: seq<Finding>, labels: seq<nat>, d: nat, f: Finding, t: Tuning)
    requires |labels| == |prior| && ClustersSound(prior, labels, t)
    ensures Joins(Members(prior, labels, d), f, t) <==> Welcomes(prior, labels, d, f, t)
  {
    WelcomedByFile(prior, labels, d, t, f.file);
    WelcomedByLines(prior, labels, d, f.line, t.tolerance);
    WelcomedByTitle(prior, labels, d, f.title, t.similarity);
  }

  /** Greedy, first fit: each finding joins the earliest cluster that takes it as that cluster stands
      when the finding arrives, and founds the next one exactly when none does. */
  lemma {:induction false} FirstFit(ns: seq<Finding>, t: Tuning, i: nat)
    requires i < |ns|
    ensures var labels := Labels(ns, t);
            && labels[i] <= ClusterCount(labels[..i])
            && (labels[i] < ClusterCount(labels[..i]) ==> Welcomes(ns[..i], labels[..i], labels[i], ns[i], t))
            && (forall d :: 0 <= d < labels[i] ==> !Welcomes(ns[..i], labels[..i], d, ns[i], t))
  {
    LabelAt(ns, t, i);
    CollapseClustersSound(ns[..i], t);
    WelcomedFirst(ns[..i], Labels(ns, t)[..i], ns[i], t, Labels(ns, t)[i]);
  }

  lemma {:induction false} WelcomedFirst(prior: seq<Finding>, labels: seq<nat>, f: Finding, t: Tuning, r: nat)
    requires |labels| == |prior| && ClustersSound(prior, labels, t) && PicksFirst(prior, labels, f, t, r)
    ensures r < ClusterCount(labels) ==> Welcomes(prior, labels, r, f, t)
    ensures forall d :: 0 <= d < r ==> !Welcomes(prior, labels, d, f, t)
  {
    JoinsExactly(prior, labels, r, f, t);
    forall d: nat | d < r
      ensures !Welcomes(prior, labels, d, f, t)
    {
      JoinsExactly(prior, labels, d, f, t);
    }
  }

  predicate NearDuplicate(a: Finding, b: Finding, t: Tuning) {
    && a.file == b.file
    && (a.line.None? <==> b.line.None?)
    && (a.line.Some? && b.line.Some? ==> Distance(b.line.value, a.line.value) <= t.tolerance)
    && Text.Jaccard(Text.TitleTokens(a.title), Text.TitleTokens(b.title)) >= t.similarity
  }

  /** Finding `i` is the first of its cluster. */
  ghost predicate Founds(labels: seq<nat>, i: nat)
    requires i < |labels|
  {
    forall j :: 0 <= j < i ==> labels[j] != labels[i]
  }

  lemma {:induction false} NearDuplicateJoins(prior: seq<Finding>, labels: seq<nat>, i: nat, f: Finding, t: Tuning)
    requires |labels| == |prior| && ClustersSound(prior, labels, t)
    requires i < |prior| && NearDuplicate(prior[i], f, t)
    ensures Joins(Members(prior, labels, labels[i]), f, t)
  {
    var members := Members(prior, labels, labels[i]);
    MembersAre(prior, labels, labels[i]);
    assert prior[i] in members;
    forall m | m in members
      ensures m.file == f.file && (m.line.None? <==> f.line.None?)
    {
      var k :| 0 <= k < |prior| && labels[k] == labels[i] && prior[k] == m;
    }
    assert members[0] in members;
  }

  /** No two founders of different clusters are near duplicates of each other. */
  lemma {:induction false} FoundersApart(ns: seq<Finding>, t: Tuning, i: nat, j: nat)
    requires i < j < |ns|
    requires Founds(Labels(ns, t), i) && Founds(Labels(ns, t), j)
    ensures !NearDuplicate(ns[i], ns[j], t)
  {
    var prior := ns[..j];
    var labels := Labels(prior, t);
    LabelAt(ns, t, j);
    LabelsDense(prior, t);
    assert Labels(ns, t)[j] !in labels;
    assert labels[i] == Labels(ns, t)[..j][i];
    CollapseClustersSound(prior, t);
    if NearDuplicate(prior[i], ns[j], t) {
      NearDuplicateJoins(prior, labels, i, ns[j], t);
    }
  }
}
