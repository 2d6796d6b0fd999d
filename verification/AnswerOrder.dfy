/** The order of the model's decisions does not matter (src/reviewhive/graph/llm_merge.py): roots depend on it,
    and with them the order of the output, but not what is merged with what. */
module AnswerOrder {
  import opened Models
  import opened Sequences
  import opened UnionFind
  import opened LlmMerge
  import opened MergeAnswers
  import Dedupe
  import MergeClasses
  import Ranking
  import Text

  // ---------------------------------------------------------------- the output as a bag

  /** What the first finding of a class contributes: its class merged. */
  function ClassOf(findings: seq<Finding>, roots: seq<nat>, i: nat): Finding
    requires |roots| == |findings| && i < |findings|
  {
    MembersHas(findings, roots, roots[i], i);
    var members := Members(findings, roots, roots[i]);
    Dedupe.Merged(Text.Normalized(members[0].file), members)
  }

  function Classes(findings: seq<Finding>, roots: seq<nat>): (classes: seq<Finding>)
    requires |roots| == |findings|
    ensures |classes| == |findings|
  {
    seq(|findings|, i requires 0 <= i < |findings| => ClassOf(findings, roots, i))
  }

  /** What the first `k` indices contribute, those with a root below `r`, each class once. */
  ghost function Bag<T>(classes: seq<T>, roots: seq<nat>, k: nat, r: nat): multiset<T>
    requires |roots| == |classes| && k <= |classes|
  {
    if k == 0 then multiset{}
    else
      Bag(classes, roots, k - 1, r)
      + (if FirstOfClass(roots, k - 1) && roots[k - 1] < r then multiset{classes[k - 1]} else multiset{})
  }

  lemma {:induction false} BagBelowZero<T>(classes: seq<T>, roots: seq<nat>, k: nat)
    requires |roots| == |classes| && k <= |classes|
    ensures Bag(classes, roots, k, 0) == multiset{}
  {
    if k > 0 {
      BagBelowZero(classes, roots, k - 1);
    }
  }

  lemma {:induction false} InPrefix(roots: seq<nat>, k: nat, r: nat)
    requires 0 < k <= |roots|
    ensures r in roots[..k] <==> r in roots[..k - 1] || roots[k - 1] == r
    ensures roots[k - 1] == r ==> (FirstOfClass(roots, k - 1) <==> r !in roots[..k - 1])
  {
    assert roots[..k] == roots[..k - 1] + [roots[k - 1]];
  }

  /** One more root brings in its class, once. */
  lemma {:induction false} BagOneMoreRoot<T>(classes: seq<T>, roots: seq<nat>, k: nat, r: nat, merged: T)
    requires |roots| == |classes| && k <= |classes|
    requires forall i :: 0 <= i < |roots| && roots[i] == r ==> classes[i] == merged
    ensures Bag(classes, roots, k, r + 1)
         == Bag(classes, roots, k, r) + (if r in roots[..k] then multiset{merged} else multiset{})
  {
    if k > 0 {
      BagOneMoreRoot(classes, roots, k - 1, r, merged);
      InPrefix(roots, k, r);
    }
  }

  /** Values listed by ascending root are the bag of the values the first findings of each class contribute. */
  lemma {:induction false} KeptIsTheBag<T>(classes: seq<T>, roots: seq<nat>, values: seq<Option<T>>, r: nat)
    requires |roots| == |classes| && r <= |values|
    requires forall i :: 0 <= i < |roots| ==> roots[i] < |values| && values[roots[i]] == Some(classes[i])
    requires forall v :: 0 <= v < |values| && values[v].Some? ==> v in roots
    ensures multiset(Kept(values[..r])) == Bag(classes, roots, |classes|, r)
  {
    if r == 0 {
      BagBelowZero(classes, roots, |classes|);
    } else {
      KeptIsTheBag(classes, roots, values, r - 1);
      KeptOneMore(values, r - 1);
      assert roots[..|classes|] == roots;
      if values[r - 1].Some? {
        BagOneMoreRoot(classes, roots, |classes|, r - 1, values[r - 1].value);
      } else {
        assert r - 1 !in roots;
        BagWithoutRoot(classes, roots, |classes|, r - 1);
      }
    }
  }

  lemma {:induction false} BagWithoutRoot<T>(classes: seq<T>, roots: seq<nat>, k: nat, r: nat)
    requires |roots| == |classes| && k <= |classes| && forall i :: 0 <= i < |roots| ==> roots[i] != r
    ensures Bag(classes, roots, k, r + 1) == Bag(classes, roots, k, r)
  {
    if k > 0 {
      BagWithoutRoot(classes, roots, k - 1, r);
      assert roots[k - 1] < r + 1 <==> roots[k - 1] < r;
    }
  }

  /** The merged class of each root. */
  function RootValues(findings: seq<Finding>, roots: seq<nat>, n: nat): (values: seq<Option<Finding>>)
    requires |roots| == |findings|
    ensures |values| == n
  {
    seq(n, r requires 0 <= r < n => if r in roots then Some(MergedClass(findings, roots, r)) else None)
  }

  lemma {:induction false} OutputIsKept(findings: seq<Finding>, roots: seq<nat>, n: nat, r: nat)
    requires |roots| == |findings| && r <= n
    ensures MergedBelow(findings, roots, r) == Kept(RootValues(findings, roots, n)[..r])
  {
    if r > 0 {
      OutputIsKept(findings, roots, n, r - 1);
      KeptOneMore(RootValues(findings, roots, n), r - 1);
    }
  }

  lemma {:induction false} RootValuesAre(findings: seq<Finding>, roots: seq<nat>, n: nat, i: nat)
    requires |roots| == |findings| && i < |findings| && roots[i] < n
    ensures RootValues(findings, roots, n)[roots[i]] == Some(Classes(findings, roots)[i])
  {
  }

  lemma {:induction false} OutputIsTheBag(findings: seq<Finding>, roots: seq<nat>, n: nat)
    requires |roots| == |findings| && forall i :: 0 <= i < |roots| ==> roots[i] < n
    ensures multiset(MergedBelow(findings, roots, n)) == Bag(Classes(findings, roots), roots, |findings|, n)
  {
    var values := RootValues(findings, roots, n);
    OutputIsKept(findings, roots, n, n);
    forall i | 0 <= i < |roots|
      ensures values[roots[i]] == Some(Classes(findings, roots)[i])
    {
      RootValuesAre(findings, roots, n, i);
    }
    KeptIsTheBag(Classes(findings, roots), roots, values, n);
    assert values[..n] == values;
  }

  // ---------------------------------------------------------------- one partition, one bag

  /** The same findings share a root. */
  ghost predicate SameClasses(a: seq<nat>, b: seq<nat>) {
    |a| == |b| && forall i, j :: 0 <= i < |a| && 0 <= j < |a| ==> (a[i] == a[j] <==> b[i] == b[j])
  }

  lemma {:induction false} SameClassesMerged(findings: seq<Finding>, a: seq<nat>, b: seq<nat>)
    requires |a| == |findings| && SameClasses(a, b)
    ensures Classes(findings, a) == Classes(findings, b)
  {
    forall i | 0 <= i < |findings|
      ensures ClassOf(findings, a, i) == ClassOf(findings, b, i)
    {
      MembersRelabelled(findings, a, a[i], b, b[i]);
    }
  }

  lemma {:induction false} SameBag<T>(classes: seq<T>, a: seq<nat>, b: seq<nat>, k: nat, n: nat)
    requires |a| == |classes| && SameClasses(a, b) && k <= |classes|
    requires forall i :: 0 <= i < |a| ==> a[i] < n && b[i] < n
    ensures Bag(classes, a, k, n) == Bag(classes, b, k, n)
  {
    if k > 0 {
      SameBag(classes, a, b, k - 1, n);
      assert FirstOfClass(a, k - 1) <==> FirstOfClass(b, k - 1);
    }
  }

  ghost predicate SameEdges(a: seq<Edge>, b: seq<Edge>) {
    forall e :: e in a <==> e in b
  }

  lemma {:induction false} SameEdgesSameClasses(n: nat, a: seq<Edge>, b: seq<Edge>)
    requires InRange(a, n) && InRange(b, n) && SameEdges(a, b)
    ensures SameClasses(RootsAfter(n, a), RootsAfter(n, b))
  {
    forall i, j | 0 <= i < n && 0 <= j < n
      ensures RootsAfter(n, a)[i] == RootsAfter(n, a)[j] <==> RootsAfter(n, b)[i] == RootsAfter(n, b)[j]
    {
      RootsAreTheClosure(n, a, i, j);
      RootsAreTheClosure(n, b, i, j);
      if Connected(a, i, j) {
        ConnectedByMore(a, b, i, j);
      }
      if Connected(b, i, j) {
        ConnectedByMore(b, a, i, j);
      }
    }
  }

  lemma {:induction false} SameEdgesSameOutput(findings: seq<Finding>, a: seq<Edge>, b: seq<Edge>)
    requires InRange(a, |findings|) && InRange(b, |findings|) && SameEdges(a, b)
    ensures multiset(Merging(findings, a)) == multiset(Merging(findings, b))
  {
    var n := |findings|;
    SameEdgesSameClasses(n, a, b);
    RootsAreRoots(n, a);
    RootsAreRoots(n, b);
    SameClassesMerged(findings, RootsAfter(n, a), RootsAfter(n, b));
    SameBag(Classes(findings, RootsAfter(n, a)), RootsAfter(n, a), RootsAfter(n, b), n, n);
    OutputIsTheBag(findings, RootsAfter(n, a), n);
    OutputIsTheBag(findings, RootsAfter(n, b), n);
  }

  // ---------------------------------------------------------------- decisions in any order

  /** Two answers that honour the same pairs merge the same findings; the posted keys and the withheld count
      are the same too. */
  lemma {:induction false} SamePairsSameReview(findings: seq<Finding>, window: int, maxPairs: int, a: seq<Decision>,
                                               b: seq<Decision>, floors: Ranking.Floors)
    requires SameEdges(MergeClasses.EdgesOf(findings, window, maxPairs, a),
                       MergeClasses.EdgesOf(findings, window, maxPairs, b))
    ensures var merged, other := Merging(findings, MergeClasses.EdgesOf(findings, window, maxPairs, a)),
                                 Merging(findings, MergeClasses.EdgesOf(findings, window, maxPairs, b));
            && multiset(merged) == multiset(other)
            && Ranking.Keys(Ranking.Posted(merged, floors)) == Ranking.Keys(Ranking.Posted(other, floors))
            && Ranking.Withheld(merged, floors) == Ranking.Withheld(other, floors)
  {
    var ea := MergeClasses.EdgesOf(findings, window, maxPairs, a);
    var eb := MergeClasses.EdgesOf(findings, window, maxPairs, b);
    SameEdgesSameOutput(findings, ea, eb);
    Ranking.InputOrderIrrelevant(Merging(findings, ea), Merging(findings, eb), floors);
  }

  /** In particular the order of the decisions, and how often each is repeated, do not matter. */
  lemma {:induction false} DecisionOrderIrrelevant(findings: seq<Finding>, window: int, maxPairs: int,
                                                   a: seq<Decision>, b: seq<Decision>)
    requires forall d :: d in a <==> d in b
    ensures SameEdges(MergeClasses.EdgesOf(findings, window, maxPairs, a),
                      MergeClasses.EdgesOf(findings, window, maxPairs, b))
  {
    HonouredAreAsked(a, CandidatesOf(findings, window, maxPairs));
    HonouredAreAsked(b, CandidatesOf(findings, window, maxPairs));
  }
}
