/** What some answer could do to the merge pass's promises (src/reviewhive/graph/llm_merge.py): each promise
    that can be broken, with the exact inputs on which no answer breaks it. */
module MergeAnswers {
  import opened Models
  import opened Sequences
  import opened UnionFind
  import opened LlmMerge
  import opened MergeClasses

  /** The roots after this answer. */
  function RootsOf(findings: seq<Finding>, window: int, maxPairs: int, decisions: seq<Decision>): (roots: seq<nat>)
    ensures |roots| == |findings|
  {
    RootsAfter(|findings|, EdgesOf(findings, window, maxPairs, decisions))
  }

  // ---------------------------------------------------------------- answering yes to everything

  function AllYes(pairs: seq<Edge>): (decisions: seq<Decision>)
    ensures |decisions| == |pairs|
  {
    seq(|pairs|, k requires 0 <= k < |pairs| => Decision(pairs[k].left, pairs[k].right, true))
  }

  lemma {:induction false} YesHonoursAll(some: seq<Edge>, pairs: seq<Edge>)
    requires forall k :: 0 <= k < |some| ==> some[k] in pairs && some[k].left <= some[k].right
    ensures HonouredEdges(AllYes(some), pairs) == some
  {
    if some != [] {
      var n := |some| - 1;
      YesHonoursAll(some[..n], pairs);
      assert AllYes(some)[..n] == AllYes(some[..n]);
      assert HonouredPair(AllYes(some)[n], pairs) == Some(some[n]);
      assert some == some[..n] + [some[n]];
    }
  }

  lemma {:induction false} CandidatesAscend(findings: seq<Finding>, window: int, maxPairs: int)
    ensures forall k :: 0 <= k < |CandidatesOf(findings, window, maxPairs)| ==>
              var p := CandidatesOf(findings, window, maxPairs)[k]; p.left < p.right < |findings|
  {
    var pairs := CandidatesOf(findings, window, maxPairs);
    forall k | 0 <= k < |pairs|
      ensures pairs[k].left < pairs[k].right < |findings|
    {
      CandidatesAre(findings, window, maxPairs, pairs[k]);
    }
  }

  /** Yes to any of the candidates honours exactly those. */
  lemma {:induction false} YesEdges(findings: seq<Finding>, window: int, maxPairs: int, some: seq<Edge>)
    requires forall k :: 0 <= k < |some| ==> some[k] in CandidatesOf(findings, window, maxPairs)
    ensures EdgesOf(findings, window, maxPairs, AllYes(some)) == some
  {
    CandidatesAscend(findings, window, maxPairs);
    YesHonoursAll(some, CandidatesOf(findings, window, maxPairs));
  }

  lemma {:induction false} ConnectedByMore(edges: seq<Edge>, more: seq<Edge>, i: nat, j: nat)
    requires forall k :: 0 <= k < |edges| ==> edges[k] in more
    requires Connected(edges, i, j)
    ensures Connected(more, i, j)
  {
    var path :| WalkBetween(edges, path, i, j);
    forall k | 0 <= k < |path| - 1
      ensures Linked(more, path[k], path[k + 1])
    {
      assert Linked(edges, path[k], path[k + 1]);
      var m :| 0 <= m < |edges| && (edges[m] == Edge(path[k], path[k + 1]) || edges[m] == Edge(path[k + 1], path[k]));
      assert edges[m] in more;
    }
    assert WalkBetween(more, path, i, j);
  }

  // ---------------------------------------------------------------- one agent twice in a class

  /** No answer puts two findings of one agent into one class. */
  ghost predicate NeverShares(findings: seq<Finding>, window: int, maxPairs: int) {
    forall decisions, i, j |
      0 <= i < j < |findings|
      && RootsOf(findings, window, maxPairs, decisions)[i] == RootsOf(findings, window, maxPairs, decisions)[j] ::
      !ShareAgent(findings[i], findings[j])
  }

  /** No two findings of one agent are connected by the candidate pairs: nothing here depends on an answer. */
  ghost predicate CandidatesKeepAgentsApart(findings: seq<Finding>, window: int, maxPairs: int) {
    forall i, j :: 0 <= i < j < |findings| && Connected(CandidatesOf(findings, window, maxPairs), i, j) ==>
      !ShareAgent(findings[i], findings[j])
  }

  lemma {:induction false} OneClassIsConnected(findings: seq<Finding>, window: int, maxPairs: int,
                                               decisions: seq<Decision>, i: nat, j: nat)
    requires i < |findings| && j < |findings|
    requires RootsOf(findings, window, maxPairs, decisions)[i] == RootsOf(findings, window, maxPairs, decisions)[j]
    ensures Connected(CandidatesOf(findings, window, maxPairs), i, j)
  {
    var edges, pairs := EdgesOf(findings, window, maxPairs, decisions), CandidatesOf(findings, window, maxPairs);
    RootsAreTheClosure(|findings|, edges, i, j);
    HonouredAreAsked(decisions, pairs);
    ConnectedByMore(edges, pairs, i, j);
  }

  lemma {:induction false} ConnectedCanBeOneClass(findings: seq<Finding>, window: int, maxPairs: int, i: nat, j: nat)
    requires i < |findings| && j < |findings|
    requires Connected(CandidatesOf(findings, window, maxPairs), i, j)
    ensures var yes := AllYes(CandidatesOf(findings, window, maxPairs));
            RootsOf(findings, window, maxPairs, yes)[i] == RootsOf(findings, window, maxPairs, yes)[j]
  {
    var pairs := CandidatesOf(findings, window, maxPairs);
    YesEdges(findings, window, maxPairs, pairs);
    RootsAreTheClosure(|findings|, EdgesOf(findings, window, maxPairs, AllYes(pairs)), i, j);
  }

  /** Sources are disjoint in every pair asked about; they are disjoint in every class, whatever is
      answered, exactly when the candidate pairs connect no two findings of one agent. */
  lemma {:induction false} NeverSharesExactly(findings: seq<Finding>, window: int, maxPairs: int)
    ensures NeverShares(findings, window, maxPairs) <==> CandidatesKeepAgentsApart(findings, window, maxPairs)
  {
    var yes := AllYes(CandidatesOf(findings, window, maxPairs));
    if NeverShares(findings, window, maxPairs) {
      forall i, j | 0 <= i < j < |findings| && Connected(CandidatesOf(findings, window, maxPairs), i, j)
        ensures !ShareAgent(findings[i], findings[j])
      {
        ConnectedCanBeOneClass(findings, window, maxPairs, i, j);
        assert RootsOf(findings, window, maxPairs, yes)[i] == RootsOf(findings, window, maxPairs, yes)[j];
      }
    }
    if CandidatesKeepAgentsApart(findings, window, maxPairs) {
      forall decisions, i, j | 0 <= i < j < |findings|
        && RootsOf(findings, window, maxPairs, decisions)[i] == RootsOf(findings, window, maxPairs, decisions)[j]
        ensures !ShareAgent(findings[i], findings[j])
      {
        OneClassIsConnected(findings, window, maxPairs, decisions, i, j);
      }
    }
  }

  // ---------------------------------------------------------------- the order of the output

  /** The finding is the first of its class. */
  ghost predicate FirstOfClass(roots: seq<nat>, i: nat)
    requires i < |roots|
  {
    forall j :: 0 <= j < i ==> roots[j] != roots[i]
  }

  /** Whatever is answered, classes come out in the order in which their first findings came in. */
  ghost predicate KeepsInputOrder(findings: seq<Finding>, window: int, maxPairs: int) {
    forall decisions, i, k |
      0 <= i < k < |findings|
      && FirstOfClass(RootsOf(findings, window, maxPairs, decisions), i)
      && FirstOfClass(RootsOf(findings, window, maxPairs, decisions), k) ::
      Places(findings, RootsOf(findings, window, maxPairs, decisions))[i]
      < Places(findings, RootsOf(findings, window, maxPairs, decisions))[k]
  }

  ghost predicate Adjacent(pairs: seq<Edge>) {
    forall k :: 0 <= k < |pairs| ==> pairs[k].right == pairs[k].left + 1
  }

  ghost predicate Ascending(roots: seq<nat>) {
    forall i, j :: 0 <= i < j < |roots| ==> roots[i] <= roots[j]
  }

  lemma {:induction false} AdjacentUniteAscends(roots: seq<nat>, a: nat)
    requires a + 1 < |roots| && Ascending(roots)
    ensures Ascending(Unite(roots, a, a + 1))
  {
    var united := Unite(roots, a, a + 1);
    forall i, j | 0 <= i < j < |roots|
      ensures united[i] <= united[j]
    {
      if roots[i] == roots[a] && roots[j] != roots[a] {
        assert a < j;
      }
    }
  }

  lemma {:induction false} AdjacentRootsAscend(n: nat, edges: seq<Edge>)
    requires InRange(edges, n) && Adjacent(edges)
    ensures Ascending(RootsAfter(n, edges))
  {
    if edges != [] {
      var rest, e := edges[..|edges| - 1], edges[|edges| - 1];
      AdjacentRootsAscend(n, rest);
      AdjacentUniteAscends(RootsAfter(n, rest), e.left);
    }
  }

  lemma {:induction false} AdjacentKeepsOrder(findings: seq<Finding>, window: int, maxPairs: int,
                                              decisions: seq<Decision>, i: nat, k: nat)
    requires Adjacent(CandidatesOf(findings, window, maxPairs)) && i < k < |findings|
    requires FirstOfClass(RootsOf(findings, window, maxPairs, decisions), k)
    ensures Places(findings, RootsOf(findings, window, maxPairs, decisions))[i]
          < Places(findings, RootsOf(findings, window, maxPairs, decisions))[k]
  {
    var edges, pairs := EdgesOf(findings, window, maxPairs, decisions), CandidatesOf(findings, window, maxPairs);
    HonouredAreAsked(decisions, pairs);
    assert Adjacent(edges) by {
      forall m | 0 <= m < |edges|
        ensures edges[m].right == edges[m].left + 1
      {
        assert edges[m] in pairs;
      }
    }
    AdjacentRootsAscend(|findings|, edges);
    OutputsAscendByRoot(findings, edges, i, k);
  }

  /** One honoured pair that skips a finding moves the merged one behind it. */
  lemma {:induction false} SkippingBreaksOrder(findings: seq<Finding>, window: int, maxPairs: int, p: Edge)
    requires p in CandidatesOf(findings, window, maxPairs) && p.left + 1 < p.right < |findings|
    ensures var roots := RootsOf(findings, window, maxPairs, AllYes([p]));
            && FirstOfClass(roots, p.left) && FirstOfClass(roots, p.left + 1)
            && Places(findings, roots)[p.left] > Places(findings, roots)[p.left + 1]
  {
    YesEdges(findings, window, maxPairs, [p]);
    SkippedPlaces(findings, p);
  }

  lemma {:induction false} SkippedPlaces(findings: seq<Finding>, p: Edge)
    requires p.left + 1 < p.right < |findings|
    ensures var roots := RootsAfter(|findings|, [p]);
            && FirstOfClass(roots, p.left) && FirstOfClass(roots, p.left + 1)
            && Places(findings, roots)[p.left] > Places(findings, roots)[p.left + 1]
  {
    SkippedRoots(|findings|, p);
    OutputsAscendByRoot(findings, [p], p.left + 1, p.left);
  }

  lemma {:induction false} SkippedRoots(n: nat, p: Edge)
    requires p.left + 1 < p.right < n
    ensures FirstOfClass(RootsAfter(n, [p]), p.left) && FirstOfClass(RootsAfter(n, [p]), p.left + 1)
    ensures RootsAfter(n, [p])[p.left + 1] < RootsAfter(n, [p])[p.left]
  {
    RootOfAPair(n, p);
    var roots := Upto(n)[p.left := p.right];
    assert RootsAfter(n, [p]) == roots;
    assert forall j :: 0 <= j < p.left ==> roots[j] == j;
    assert roots[p.left] == p.right && roots[p.left + 1] == p.left + 1;
  }

  /** The comment beside the code has the output in input order.  It is, whatever is answered, exactly when
      every candidate pair is of neighbours. */
  lemma {:induction false} InputOrderKeptExactly(findings: seq<Finding>, window: int, maxPairs: int)
    ensures KeepsInputOrder(findings, window, maxPairs) <==> Adjacent(CandidatesOf(findings, window, maxPairs))
  {
    var pairs := CandidatesOf(findings, window, maxPairs);
    if Adjacent(pairs) {
      forall decisions, i, k | 0 <= i < k < |findings|
        && FirstOfClass(RootsOf(findings, window, maxPairs, decisions), i)
        && FirstOfClass(RootsOf(findings, window, maxPairs, decisions), k)
        ensures Places(findings, RootsOf(findings, window, maxPairs, decisions))[i]
              < Places(findings, RootsOf(findings, window, maxPairs, decisions))[k]
      {
        AdjacentKeepsOrder(findings, window, maxPairs, decisions, i, k);
      }
    }
    CandidatesAscend(findings, window, maxPairs);
    if m :| 0 <= m < |pairs| && pairs[m].right != pairs[m].left + 1 {
      SkippingBreaksOrder(findings, window, maxPairs, pairs[m]);
      var roots := RootsOf(findings, window, maxPairs, AllYes([pairs[m]]));
      assert FirstOfClass(roots, pairs[m].left) && FirstOfClass(roots, pairs[m].left + 1);
    }
  }
}
