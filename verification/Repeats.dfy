/** Clustering a second time (`collapse`, src/reviewhive/graph/dedupe.py): one pass is not always enough. */
module Repeats {
  import opened Models
  import opened Sequences
  import opened Dedupe
  import opened Diff
  import Text

  /** No finding is a near duplicate of a later one. */
  ghost predicate Apart(ns: seq<Finding>, t: Tuning) {
    forall i, j :: 0 <= i < j < |ns| ==> !NearDuplicate(ns[i], ns[j], t)
  }

  /** Which of two findings came first does not matter. */
  lemma {:induction false} ApartEitherWay(ns: seq<Finding>, t: Tuning)
    ensures Apart(ns, t) <==> forall i, j | 0 <= i < |ns| && 0 <= j < |ns| && i != j :: !NearDuplicate(ns[i], ns[j], t)
  {
    forall i, j | 0 <= i < |ns| && 0 <= j < |ns|
      ensures NearDuplicate(ns[i], ns[j], t) == NearDuplicate(ns[j], ns[i], t)
    {
      Text.JaccardSymmetric(Text.TitleTokens(ns[i].title), Text.TitleTokens(ns[j].title));
    }
  }

  lemma {:induction false} JoinsOne(g: Finding, f: Finding, t: Tuning)
    ensures Joins([g], f, t) <==> NearDuplicate(g, f, t)
  {
    assert [g][0] in [g];
  }

  lemma UptoOneMore(n: nat)
    ensures Upto(n + 1) == Upto(n) + [n]
    ensures Upto(n + 1)[..n] == Upto(n)
  {
  }

  lemma {:induction false} CountUpto(n: nat)
    ensures ClusterCount(Upto(n)) == n
  {
    if n > 0 {
      UptoOneMore(n - 1);
      CountUpto(n - 1);
    }
  }

  /** Among clusters of one, a finding joins nothing exactly when it is nobody's near duplicate. */
  lemma {:induction false} FoundsAmongOnes(prior: seq<Finding>, f: Finding, t: Tuning)
    ensures ClusterCount(Upto(|prior|)) == |prior|
    ensures FirstJoin(prior, Upto(|prior|), f, t, 0) == |prior|
        <==> forall i :: 0 <= i < |prior| ==> !NearDuplicate(prior[i], f, t)
  {
    var n := |prior|;
    CountUpto(n);
    FirstJoinIs(prior, Upto(n), f, t, 0);
    forall i | 0 <= i < n
      ensures Joins(Members(prior, Upto(n), i), f, t) <==> NearDuplicate(prior[i], f, t)
    {
      MembersOfOne(prior, Upto(n), i, i);
      JoinsOne(prior[i], f, t);
    }
  }

  lemma {:induction false} FullCountIsUpto(ns: seq<Finding>, t: Tuning)
    ensures ClusterCount(Labels(ns, t)) <= |ns|
    ensures ClusterCount(Labels(ns, t)) == |ns| ==> Labels(ns, t) == Upto(|ns|)
  {
    if ns != [] {
      var n := |ns| - 1;
      var labels := Labels(ns[..n], t);
      FullCountIsUpto(ns[..n], t);
      LabelsDense(ns[..n], t);
      DenseGrows(labels, FirstJoin(ns[..n], labels, ns[n], t, 0));
      UptoOneMore(n);
    }
  }

  lemma {:induction false} ApartOneMore(front: seq<Finding>, last: Finding, t: Tuning)
    ensures Apart(front + [last], t)
        <==> Apart(front, t) && forall i :: 0 <= i < |front| ==> !NearDuplicate(front[i], last, t)
  {
    var ns := front + [last];
    assert forall i :: 0 <= i < |front| ==> front[i] == ns[i];
    if Apart(ns, t) {
      forall i | 0 <= i < |front|
        ensures !NearDuplicate(front[i], last, t)
      {
        assert !NearDuplicate(ns[i], ns[|front|], t);
      }
    }
  }

  lemma {:induction false} NothingJoinsOneMore(front: seq<Finding>, last: Finding, t: Tuning)
    requires ClusterCount(Labels(front, t)) == |front| <==> Apart(front, t)
    ensures ClusterCount(Labels(front + [last], t)) == |front| + 1 <==> Apart(front + [last], t)
  {
    var labels := Labels(front, t);
    OneMoreLabel(front, last, t);
    FullCountIsUpto(front, t);
    LabelsDense(front, t);
    DenseGrows(labels, FirstJoin(front, labels, last, t, 0));
    ApartOneMore(front, last, t);
    if Apart(front, t) {
      FoundsAmongOnes(front, last, t);
    }
  }

  /** Every finding founds a cluster of its own exactly when no two are near duplicates. */
  lemma {:induction false} NothingJoinsExactly(ns: seq<Finding>, t: Tuning)
    ensures ClusterCount(Labels(ns, t)) == |ns| <==> Apart(ns, t)
    ensures Apart(ns, t) ==> Labels(ns, t) == Upto(|ns|)
  {
    if ns != [] {
      var n := |ns| - 1;
      assert ns == ns[..n] + [ns[n]];
      NothingJoinsExactly(ns[..n], t);
      NothingJoinsOneMore(ns[..n], ns[n], t);
    }
    FullCountIsUpto(ns, t);
  }

  lemma {:induction false} OnesWhenApart(ns: seq<Finding>, t: Tuning)
    requires Apart(ns, t)
    ensures |Groups(ns, t)| == |ns| && forall c :: 0 <= c < |ns| ==> Groups(ns, t)[c] == [ns[c]]
  {
    NothingJoinsExactly(ns, t);
    forall c | 0 <= c < |ns|
      ensures Groups(ns, t)[c] == [ns[c]]
    {
      MembersOfOne(ns, Upto(|ns|), c, c);
    }
  }

  ghost predicate PathsSettled(findings: seq<Finding>) {
    forall i :: 0 <= i < |findings| ==> Text.Normalized(findings[i].file) == findings[i].file
  }

  lemma {:induction false} SettledAreNormalized(findings: seq<Finding>)
    ensures NormalizedAll(findings) == findings <==> PathsSettled(findings)
  {
    if NormalizedAll(findings) == findings {
      forall i | 0 <= i < |findings|
        ensures Text.Normalized(findings[i].file) == findings[i].file
      {
        assert NormalizedAll(findings)[i].file == Text.Normalized(findings[i].file);
      }
    }
  }

  lemma {:induction false} ApartCollapse(findings: seq<Finding>, t: Tuning)
    requires Apart(NormalizedAll(findings), t)
    ensures Collapsed(findings, t) == NormalizedAll(findings)
  {
    OnesWhenApart(NormalizedAll(findings), t);
    GroupsInhabited(NormalizedAll(findings), t);
  }

  /** `collapse` returns its input exactly when every path is its own key and no two findings are near
      duplicates. */
  lemma {:induction false} UnchangedExactly(findings: seq<Finding>, t: Tuning)
    ensures Collapsed(findings, t) == findings <==> PathsSettled(findings) && Apart(findings, t)
  {
    var ns := NormalizedAll(findings);
    SettledAreNormalized(findings);
    NothingJoinsExactly(ns, t);
    GroupsInhabited(ns, t);
    if Apart(ns, t) {
      ApartCollapse(findings, t);
    }
  }

  // ---------------------------------------------------------------- when one pass is enough

  /** The cluster of a finding has the finding's own key for its path. */
  lemma {:induction false} ClusterPath(findings: seq<Finding>, t: Tuning, i: nat)
    requires i < |findings|
    ensures var c := Labels(NormalizedAll(findings), t)[i];
            && c < |Collapsed(findings, t)|
            && Collapsed(findings, t)[c].file == Text.Normalized(findings[i].file)
  {
    var ns := NormalizedAll(findings);
    var labels := Labels(ns, t);
    LabelsDense(ns, t);
    CollapseClustersSound(ns, t);
    GroupsInhabited(ns, t);
    MembersAre(ns, labels, labels[i]);
    var members := Members(ns, labels, labels[i]);
    var first := MemberAt(ns, labels, labels[i], members[0]);
    assert ns[first].file == ns[i].file;
    assert Groups(ns, t)[labels[i]] == members;
  }

  lemma {:induction false} SamePathsSettled(ns: seq<Finding>, out: seq<Finding>, labels: seq<nat>)
    requires |labels| == |ns|
    requires forall i :: 0 <= i < |ns| ==> labels[i] < |out| && out[labels[i]].file == ns[i].file
    requires forall c: nat :: c < |out| ==> c in labels
    ensures PathsSettled(out) <==> PathsSettled(ns)
  {
    if PathsSettled(ns) {
      forall c: nat | c < |out|
        ensures Text.Normalized(out[c].file) == out[c].file
      {
        assert c in labels;
        var i :| 0 <= i < |labels| && labels[i] == c;
        assert out[labels[i]].file == ns[i].file;
      }
    }
  }

  lemma {:induction false} OutputPathsSettled(findings: seq<Finding>, t: Tuning)
    ensures PathsSettled(Collapsed(findings, t)) <==> PathsSettled(NormalizedAll(findings))
  {
    var ns := NormalizedAll(findings);
    LabelsDense(ns, t);
    forall i | 0 <= i < |ns|
      ensures Labels(ns, t)[i] < |Collapsed(findings, t)|
      ensures Collapsed(findings, t)[Labels(ns, t)[i]].file == ns[i].file
    {
      ClusterPath(findings, t, i);
    }
    SamePathsSettled(ns, Collapsed(findings, t), Labels(ns, t));
  }

  /** What a second pass would see of two clusters: their path, the earliest line of each, and the title of
      the sharpest member of each. */
  predicate ClustersNear(a: seq<Finding>, b: seq<Finding>, t: Tuning)
    requires a != [] && b != []
  {
    var la, lb := RepresentativeLine(a), RepresentativeLine(b);
    var ta, tb := Text.TitleTokens(Representative(a).title), Text.TitleTokens(Representative(b).title);
    && a[0].file == b[0].file
    && (la.None? <==> lb.None?)
    && (la.Some? && lb.Some? ==> Distance(lb.value, la.value) <= t.tolerance)
    && Text.Jaccard(ta, tb) >= t.similarity
  }

  ghost predicate ClustersApart(groups: seq<seq<Finding>>, t: Tuning)
    requires AllInhabited(groups)
  {
    forall c, d :: 0 <= c < d < |groups| ==> !ClustersNear(groups[c], groups[d], t)
  }

  lemma {:induction false} MergedLooks(members: seq<Finding>)
    requires members != []
    ensures var m := Merged(members[0].file, members);
            && m.file == members[0].file && m.line == RepresentativeLine(members)
            && m.title == Representative(members).title
  {
    if |members| == 1 {
      assert members[..0] == [] && LinesOf(members[..0]) == [];
      assert LinesOf(members) == if members[0].line.Some? then [members[0].line.value] else [];
    }
  }

  lemma {:induction false} ApartAsClusters(groups: seq<seq<Finding>>, t: Tuning)
    requires AllInhabited(groups)
    ensures Apart(MergedGroups(groups), t) <==> ClustersApart(groups, t)
  {
    forall c, d | 0 <= c < d < |groups|
      ensures NearDuplicate(MergedGroups(groups)[c], MergedGroups(groups)[d], t)
          <==> ClustersNear(groups[c], groups[d], t)
    {
      MergedLooks(groups[c]);
      MergedLooks(groups[d]);
    }
  }

  /** A second `collapse` changes nothing exactly when normalising twice changes no reported path, and no two
      clusters of the first are near each other: one path, both file-level or their earliest lines within the
      tolerance, and their sharpest members' titles similar enough. */
  lemma {:induction false} IdempotentExactly(findings: seq<Finding>, t: Tuning)
    ensures AllInhabited(Groups(NormalizedAll(findings), t))
    ensures Collapsed(Collapsed(findings, t), t) == Collapsed(findings, t)
        <==> PathsSettled(NormalizedAll(findings)) && ClustersApart(Groups(NormalizedAll(findings), t), t)
  {
    GroupsInhabited(NormalizedAll(findings), t);
    UnchangedExactly(Collapsed(findings, t), t);
    OutputPathsSettled(findings, t);
    ApartAsClusters(Groups(NormalizedAll(findings), t), t);
  }

  // ---------------------------------------------------------------- one pass is not enough

  function AtLine(f: Finding, line: int): Finding {
    f.(line := Some(line))
  }

  lemma {:induction false} SameTitleNear(f: Finding, a: int, b: int, t: Tuning)
    requires Text.TitleTokens(f.title) != {} && t.similarity <= 1.0
    ensures NearDuplicate(AtLine(f, a), AtLine(f, b), t) <==> Distance(b, a) <= t.tolerance
  {
    var tokens := Text.TitleTokens(f.title);
    assert tokens * tokens == tokens && tokens + tokens == tokens;
  }

  lemma {:induction false} TwoApart(a: Finding, b: Finding, c: Finding, t: Tuning)
    requires !NearDuplicate(a, b, t) && NearDuplicate(a, c, t)
    ensures Groups([a, b], t) == [[a], [b]]
    ensures FirstJoin([a, b], Labels([a, b], t), c, t, 0) == 0
  {
    assert Apart([a, b], t);
    OnesWhenApart([a, b], t);
    NothingJoinsExactly([a, b], t);
    JoinsOne(a, c, t);
    assert Takers([a, b], Labels([a, b], t), c, t)[0] by {
      assert Groups([a, b], t)[0] == [a];
    }
  }

  /** A finding that is near the first of two that are apart joins it. */
  lemma {:induction false} JoinsTheFirst(a: Finding, b: Finding, c: Finding, t: Tuning)
    requires !NearDuplicate(a, b, t) && NearDuplicate(a, c, t)
    ensures Groups([a, b, c], t) == [[a, c], [b]]
  {
    TwoApart(a, b, c, t);
    OneMoreFinding([a, b], c, t);
    assert [a, b] + [c] == [a, b, c] && [a] + [c] == [a, c];
  }

  lemma {:induction false} CollapsedThree(a: Finding, b: Finding, c: Finding, t: Tuning)
    requires !NearDuplicate(a, b, t) && NearDuplicate(a, c, t)
    requires NormalizedAll([a, b, c]) == [a, b, c]
    ensures Collapsed([a, b, c], t) == [Merged(a.file, [a, c]), b]
  {
    JoinsTheFirst(a, b, c, t);
    GroupsInhabited([a, b, c], t);
    assert Groups([a, b, c], t) == [[a, c], [b]];
    assert [[a, c], [b]][0][0] == a && [[a, c], [b]][1][0] == b;
  }

  /** Lines 13, 7 and 10 of one file, equally titled, with a tolerance of 3: 10 joins 13 and the merged
      finding moves to line 10, within reach of 7; but the pass is over. */
  lemma {:induction false} CollapseNotIdempotent(f: Finding, t: Tuning)
    requires Text.TitleTokens(f.title) != {} && t.similarity <= 1.0 && t.tolerance == 3
    requires Text.Normalized(f.file) == f.file
    ensures var once := Collapsed([AtLine(f, 13), AtLine(f, 7), AtLine(f, 10)], t);
            |once| == 2 && Collapsed(once, t) != once
  {
    SameTitleNear(f, 13, 7, t);
    SameTitleNear(f, 13, 10, t);
    CollapsedThree(AtLine(f, 13), AtLine(f, 7), AtLine(f, 10), t);
    var merged := Merged(f.file, [AtLine(f, 13), AtLine(f, 10)]);
    MergedPair(f);
    StillNear(merged, f, t);
  }

  lemma {:induction false} StillNear(merged: Finding, f: Finding, t: Tuning)
    requires Text.TitleTokens(f.title) != {} && t.similarity <= 1.0 && t.tolerance == 3
    requires Text.Normalized(f.file) == f.file == merged.file && merged.title == f.title && merged.line == Some(10)
    ensures Collapsed([merged, AtLine(f, 7)], t) != [merged, AtLine(f, 7)]
  {
    var once := [merged, AtLine(f, 7)];
    SameTitleNear(f, 10, 7, t);
    assert NearDuplicate(once[0], once[1], t);
    UnchangedExactly(once, t);
  }

  lemma {:induction false} MergedPair(f: Finding)
    ensures var m := Merged(f.file, [AtLine(f, 13), AtLine(f, 10)]);
            m.file == f.file && m.line == Some(10) && m.title == f.title
  {
    var pair := [AtLine(f, 13), AtLine(f, 10)];
    MergeKeeps(f.file, pair);
    assert pair[0] in pair && pair[1] in pair;
  }
}
