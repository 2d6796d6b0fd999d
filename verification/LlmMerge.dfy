/** The second deduplication pass (src/reviewhive/graph/llm_merge.py).  The model's decisions are
    arbitrary; only pairs that were asked about are honoured. */
module LlmMerge {
  import opened Models
  import opened Sequences
  import opened Diff
  import opened UnionFind
  import Dedupe
  import Text

  datatype Decision = Decision(left: int, right: int, sameDefect: bool)

  // ---------------------------------------------------------------- candidate pairs

  predicate ShareAgent(a: Finding, b: Finding) {
    exists s <- a.sources :: s in b.sources
  }

  /** Close enough, in one file (the keys are normalised paths), from different agents: worth a question. */
  predicate Askable(a: Finding, aKey: string, b: Finding, bKey: string, window: int) {
    && aKey == bKey
    && !ShareAgent(a, b)
    && (if a.line.None? || b.line.None? then a.line.None? && b.line.None?
        else Distance(a.line.value, b.line.value) <= window)
  }

  function PathKeys(findings: seq<Finding>): (keys: seq<string>)
    ensures |keys| == |findings|
  {
    seq(|findings|, i requires 0 <= i < |findings| => Text.Normalized(findings[i].file))
  }

  /** Whether to ask about two indices. */
  type Asking = (nat, nat) -> bool

  function AsksAbout(findings: seq<Finding>, keys: seq<string>, window: int): Asking
    requires |keys| == |findings|
  {
    (i: nat, j: nat) => i < |findings| && j < |findings| && Askable(findings[i], keys[i], findings[j], keys[j], window)
  }

  function RowPairs(ask: Asking, left: nat, right: nat): seq<Edge> {
    if right <= left + 1 then []
    else RowPairs(ask, left, right - 1) + (if ask(left, right - 1) then [Edge(left, right - 1)] else [])
  }

  /** The pairs of the first `left` rows, out of `n`. */
  function PairsBelow(ask: Asking, n: nat, left: nat): seq<Edge> {
    if left == 0 then [] else PairsBelow(ask, n, left - 1) + RowPairs(ask, left - 1, n)
  }

  /** What `candidate_pairs` returns: the askable pairs in row order, capped. */
  function CandidatesOf(findings: seq<Finding>, window: int, maxPairs: int): seq<Edge> {
    Capped(PairsBelow(AsksAbout(findings, PathKeys(findings), window), |findings|, |findings|), maxPairs)
  }

  lemma {:induction false} RowGrows(ask: Asking, left: nat, r1: nat, r2: nat)
    requires left < r1 <= r2
    ensures RowPairs(ask, left, r1) <= RowPairs(ask, left, r2)
  {
    if r1 < r2 {
      RowGrows(ask, left, r1, r2 - 1);
    }
  }

  lemma {:induction false} PairsGrow(ask: Asking, n: nat, l1: nat, l2: nat)
    requires l1 <= l2
    ensures PairsBelow(ask, n, l1) <= PairsBelow(ask, n, l2)
  {
    if l1 < l2 {
      PairsGrow(ask, n, l1, l2 - 1);
    }
  }

  lemma {:induction false} PrefixOfSum<T>(a: seq<T>, b: seq<T>, c: seq<T>, whole: seq<T>)
    requires b <= c && a + c <= whole
    ensures a + b <= whole
  {
    assert a + c == a + b + c[|b|..];
  }

  /** The pairs found so far, part-way through a row. */
  function SoFar(ask: Asking, n: nat, left: nat, right: nat): seq<Edge> {
    PairsBelow(ask, n, left) + RowPairs(ask, left, right)
  }

  lemma {:induction false} SoFarOneMore(ask: Asking, n: nat, left: nat, right: nat)
    requires left < right
    ensures SoFar(ask, n, left, right + 1)
         == SoFar(ask, n, left, right) + (if ask(left, right) then [Edge(left, right)] else [])
  {
    var above, row, last := PairsBelow(ask, n, left), RowPairs(ask, left, right), [Edge(left, right)];
    assert RowPairs(ask, left, right + 1) == row + (if ask(left, right) then last else []);
    assert above + (row + last) == (above + row) + last;
  }

  lemma {:induction false} SoFarEnds(ask: Asking, n: nat, left: nat)
    ensures SoFar(ask, n, left, left + 1) == PairsBelow(ask, n, left)
    ensures SoFar(ask, n, left, n) == PairsBelow(ask, n, left + 1)
  {
    assert PairsBelow(ask, n, left) + [] == PairsBelow(ask, n, left);
  }

  lemma {:induction false} SoFarIsPrefix(ask: Asking, n: nat, left: nat, right: nat)
    requires left < right <= n
    ensures SoFar(ask, n, left, right) <= PairsBelow(ask, n, n)
  {
    RowGrows(ask, left, right, n);
    PairsGrow(ask, n, left + 1, n);
    SoFarEnds(ask, n, left);
    PrefixOfSum(PairsBelow(ask, n, left), RowPairs(ask, left, right), RowPairs(ask, left, n), PairsBelow(ask, n, n));
  }

  /** The inner loop's three reasons to skip a pair. */
  method WorthAsking(findings: seq<Finding>, keys: seq<string>, window: int, left: nat,
                     right: nat) returns (worth: bool)
    requires left < right < |findings| == |keys|
    ensures worth == AsksAbout(findings, keys, window)(left, right)
  {
    var a, b := findings[left], findings[right];
    if keys[left] != keys[right] {
      return false;
    }
    if ShareAgent(a, b) {
      return false;
    }
    if a.line.None? || b.line.None? {
      if a.line.Some? || b.line.Some? {
        return false;
      }
    } else if Distance(a.line.value, b.line.value) > window {
      return false;
    }
    return true;
  }

  /** The inner loop's body: the pair is added if it is worth asking about. */
  method AddPair(findings: seq<Finding>, keys: seq<string>, window: int, maxPairs: int, left: nat, right: nat,
                 pairs: seq<Edge>)
    returns (more: seq<Edge>, full: bool)
    requires left < right < |findings| == |keys|
    requires pairs == SoFar(AsksAbout(findings, keys, window), |findings|, left, right)
    requires Room(|pairs|, maxPairs)
    ensures more == SoFar(AsksAbout(findings, keys, window), |findings|, left, right + 1)
    ensures if full then JustFull(|more|, maxPairs) else Room(|more|, maxPairs)
  {
    SoFarOneMore(AsksAbout(findings, keys, window), |findings|, left, right);
    var worth := WorthAsking(findings, keys, window, left, right);
    if !worth {
      return pairs, false;
    }
    more := pairs + [Edge(left, right)];
    full := |more| >= maxPairs;
  }

  /** The inner loop, up to the index where it stopped. */
  method ScanRow(findings: seq<Finding>, keys: seq<string>, window: int, maxPairs: int, left: nat, start: seq<Edge>)
    returns (pairs: seq<Edge>, full: bool, reached: nat)
    requires left < |findings| == |keys|
    requires start == SoFar(AsksAbout(findings, keys, window), |findings|, left, left + 1)
    requires Room(|start|, maxPairs)
    ensures left < reached <= |findings| && pairs == SoFar(AsksAbout(findings, keys, window), |findings|, left, reached)
    ensures if full then JustFull(|pairs|, maxPairs) else reached == |findings| && Room(|pairs|, maxPairs)
  {
    pairs, full, reached := start, false, left + 1;
    while reached < |findings| && !full
      invariant left < reached <= |findings|
      invariant pairs == SoFar(AsksAbout(findings, keys, window), |findings|, left, reached)
      invariant if full then JustFull(|pairs|, maxPairs) else Room(|pairs|, maxPairs)
    {
      pairs, full := AddPair(findings, keys, window, maxPairs, left, reached, pairs);
      reached := reached + 1;
    }
  }

  /** One row of the double loop; `full` once the cap is reached. */
  method PairRow(findings: seq<Finding>, keys: seq<string>, window: int, maxPairs: int, left: nat, start: seq<Edge>)
    returns (pairs: seq<Edge>, full: bool)
    requires left < |findings| == |keys|
    requires start == PairsBelow(AsksAbout(findings, keys, window), |findings|, left)
    requires Room(|start|, maxPairs)
    ensures pairs <= PairsBelow(AsksAbout(findings, keys, window), |findings|, |findings|)
    ensures if full then JustFull(|pairs|, maxPairs)
            else Room(|pairs|, maxPairs) && pairs == PairsBelow(AsksAbout(findings, keys, window), |findings|, left + 1)
  {
    SoFarEnds(AsksAbout(findings, keys, window), |findings|, left);
    var reached;
    pairs, full, reached := ScanRow(findings, keys, window, maxPairs, left, start);
    SoFarIsPrefix(AsksAbout(findings, keys, window), |findings|, left, reached);
  }

  /** The double loop, over the findings and their normalised paths. */
  method PairRows(findings: seq<Finding>, keys: seq<string>, window: int, maxPairs: int) returns (pairs: seq<Edge>)
    requires |keys| == |findings|
    ensures pairs == Capped(PairsBelow(AsksAbout(findings, keys, window), |findings|, |findings|), maxPairs)
  {
    pairs := [];
    for left := 0 to |findings|
      invariant pairs == PairsBelow(AsksAbout(findings, keys, window), |findings|, left)
      invariant Room(|pairs|, maxPairs)
    {
      var full;
      pairs, full := PairRow(findings, keys, window, maxPairs, left, pairs);
      if full {
        return;
      }
    }
  }

  method CandidatePairs(findings: seq<Finding>, window: int, maxPairs: int) returns (pairs: seq<Edge>)
    ensures pairs == CandidatesOf(findings, window, maxPairs)
  {
    pairs := PairRows(findings, PathKeys(findings), window, maxPairs);
  }

  predicate Before(p: Edge, q: Edge) {
    p.left < q.left || (p.left == q.left && p.right < q.right)
  }

  ghost predicate RowOrdered(pairs: seq<Edge>) {
    forall k, m :: 0 <= k < m < |pairs| ==> Before(pairs[k], pairs[m])
  }

  lemma {:induction false} RowPairsAre(ask: Asking, left: nat, right: nat)
    ensures forall p :: p in RowPairs(ask, left, right) <==> p.left == left < p.right < right && ask(p.left, p.right)
    ensures RowOrdered(RowPairs(ask, left, right))
  {
    if right > left + 1 {
      RowPairsAre(ask, left, right - 1);
      var before := RowPairs(ask, left, right - 1);
      forall k | 0 <= k < |before|
        ensures before[k].left == left && before[k].right < right - 1
      {
        assert before[k] in before;
      }
    }
  }

  lemma {:induction false} OrderedConcat(a: seq<Edge>, b: seq<Edge>)
    requires RowOrdered(a) && RowOrdered(b)
    requires forall p, q :: p in a && q in b ==> Before(p, q)
    ensures RowOrdered(a + b)
  {
    forall k, m | 0 <= k < m < |a + b|
      ensures Before((a + b)[k], (a + b)[m])
    {
      if k < |a| <= m {
        assert a[k] in a && b[m - |a|] in b;
      }
    }
  }

  lemma {:induction false} PairsBelowAre(ask: Asking, n: nat, left: nat)
    ensures forall p :: p in PairsBelow(ask, n, left) <==> p.left < left && p.left < p.right < n && ask(p.left, p.right)
    ensures RowOrdered(PairsBelow(ask, n, left))
  {
    if left > 0 {
      var above, row := PairsBelow(ask, n, left - 1), RowPairs(ask, left - 1, n);
      PairsBelowAre(ask, n, left - 1);
      RowPairsAre(ask, left - 1, n);
      forall p: Edge
        ensures p in above + row <==> p.left < left && p.left < p.right < n && ask(p.left, p.right)
      {
        assert p in above + row <==> p in above || p in row;
      }
      RowsInOrder(above, row, left - 1);
    }
  }

  lemma {:induction false} RowsInOrder(above: seq<Edge>, row: seq<Edge>, left: nat)
    requires RowOrdered(above) && RowOrdered(row)
    requires forall p :: p in above ==> p.left < left
    requires forall p :: p in row ==> p.left == left
    ensures RowOrdered(above + row)
  {
    OrderedConcat(above, row);
  }

  /** Two findings of one file, by different agents, both file-level or at most `window` lines apart. */
  ghost predicate IsAskable(findings: seq<Finding>, window: int, p: Edge) {
    && p.left < p.right < |findings|
    && var a, b := findings[p.left], findings[p.right];
       && Text.Normalized(a.file) == Text.Normalized(b.file)
       && (forall s <- a.sources :: s !in b.sources)
       && (a.line.None? <==> b.line.None?)
       && (a.line.Some? && b.line.Some? ==> -window <= a.line.value - b.line.value <= window)
  }

  lemma {:induction false} AskableExactly(findings: seq<Finding>, window: int, p: Edge)
    ensures IsAskable(findings, window, p)
        <==> p.left < p.right < |findings| && AsksAbout(findings, PathKeys(findings), window)(p.left, p.right)
  {
  }

  /** Sorted pairs cut at a cap: what is missing comes after everything kept, and the cap was reached. */
  lemma {:induction false} CappedOrdered(all: seq<Edge>, cap: int, p: Edge)
    requires RowOrdered(all)
    ensures RowOrdered(Capped(all, cap))
    ensures p in all && p !in Capped(all, cap) ==>
              && |Capped(all, cap)| == (if cap < 1 then 1 else cap)
              && forall k :: 0 <= k < |Capped(all, cap)| ==> Before(Capped(all, cap)[k], p)
  {
    var pairs := Capped(all, cap);
    if p in all && p !in pairs {
      var m :| 0 <= m < |all| && all[m] == p;
      assert forall k :: 0 <= k < |pairs| ==> pairs[k] == all[k] && pairs[k] in pairs;
      assert m >= |pairs|;
    }
  }

  /** The model is asked about askable pairs only, each once, in row order; and about every askable pair
      unless the cap was reached before it. */
  lemma {:induction false} CandidatesAre(findings: seq<Finding>, window: int, maxPairs: int, p: Edge)
    ensures RowOrdered(CandidatesOf(findings, window, maxPairs))
    ensures |CandidatesOf(findings, window, maxPairs)| <= if maxPairs < 1 then 1 else maxPairs
    ensures p in CandidatesOf(findings, window, maxPairs) ==> IsAskable(findings, window, p)
    ensures IsAskable(findings, window, p) && p !in CandidatesOf(findings, window, maxPairs) ==>
              && |CandidatesOf(findings, window, maxPairs)| == (if maxPairs < 1 then 1 else maxPairs)
              && forall k :: 0 <= k < |CandidatesOf(findings, window, maxPairs)| ==>
                   Before(CandidatesOf(findings, window, maxPairs)[k], p)
  {
    var ask := AsksAbout(findings, PathKeys(findings), window);
    PairsBelowAre(ask, |findings|, |findings|);
    CappedOrdered(PairsBelow(ask, |findings|, |findings|), maxPairs, p);
    AskableExactly(findings, window, p);
  }

  // ---------------------------------------------------------------- honouring decisions

  /** The pair a decision names, smaller index first, if it was asked about and judged the same. */
  function HonouredPair(d: Decision, pairs: seq<Edge>): Option<Edge> {
    var low, high := if d.left <= d.right then d.left else d.right, if d.left <= d.right then d.right else d.left;
    if d.sameDefect && low >= 0 && Edge(low, high) in pairs then Some(Edge(low, high)) else None
  }

  function HonouredEdges(decisions: seq<Decision>, pairs: seq<Edge>): seq<Edge> {
    if decisions == [] then []
    else
      var e := HonouredPair(decisions[|decisions| - 1], pairs);
      HonouredEdges(decisions[..|decisions| - 1], pairs) + (if e.Some? then [e.value] else [])
  }

  lemma {:induction false} HonouredAreAsked(decisions: seq<Decision>, pairs: seq<Edge>)
    ensures forall k :: 0 <= k < |HonouredEdges(decisions, pairs)| ==> HonouredEdges(decisions, pairs)[k] in pairs
    ensures forall e :: e in HonouredEdges(decisions, pairs)
              <==> exists d :: d in decisions && HonouredPair(d, pairs) == Some(e)
  {
    if decisions != [] {
      var n := |decisions| - 1;
      HonouredAreAsked(decisions[..n], pairs);
      assert decisions == decisions[..n] + [decisions[n]];
    }
  }

  /** The decision says the pair is one defect, naming it in either order. */
  predicate SaysSame(d: Decision, e: Edge) {
    && d.sameDefect
    && ((d.left == e.left && d.right == e.right) || (d.left == e.right && d.right == e.left))
  }

  /** What is honoured: of the pairs asked about, smaller index first, exactly those some decision calls one
      defect. */
  lemma {:induction false} HonouredExactly(decisions: seq<Decision>, pairs: seq<Edge>, e: Edge)
    ensures e in HonouredEdges(decisions, pairs)
        <==> e.left <= e.right && e in pairs && exists d :: d in decisions && SaysSame(d, e)
  {
    if decisions != [] {
      var front, last := decisions[..|decisions| - 1], decisions[|decisions| - 1];
      assert decisions == front + [last];
      HonouredExactly(front, pairs, e);
      assert HonouredPair(last, pairs) == Some(e) <==> e.left <= e.right && e in pairs && SaysSame(last, e);
    }
  }

  /** Decisions are honoured one after another, in the order given. */
  lemma {:induction false} HonouredInOrder(before: seq<Decision>, d: Decision, after: seq<Decision>, pairs: seq<Edge>)
    ensures HonouredEdges(before + [d] + after, pairs)
         == HonouredEdges(before, pairs) + HonouredEdges([d], pairs) + HonouredEdges(after, pairs)
    ensures |HonouredEdges([d], pairs)| <= 1
  {
    if after == [] {
      assert (before + [d] + after)[..|before|] == before && [d][..0] == [];
    } else {
      var front, last := after[..|after| - 1], after[|after| - 1];
      assert (before + [d] + after)[..|before + [d] + after| - 1] == before + [d] + front;
      HonouredInOrder(before, d, front, pairs);
      assert [d][..0] == [];
    }
  }

  function MergedClass(findings: seq<Finding>, roots: seq<nat>, r: nat): Finding
    requires |roots| == |findings| && r in roots
  {
    MembersAre(findings, roots, r);
    var members := Members(findings, roots, r);
    Dedupe.Merged(Text.Normalized(members[0].file), members)
  }

  /** The merged classes whose root is below `r`, by ascending root. */
  function MergedBelow(findings: seq<Finding>, roots: seq<nat>, r: nat): seq<Finding>
    requires |roots| == |findings|
  {
    if r == 0 then []
    else MergedBelow(findings, roots, r - 1) + (if r - 1 in roots then [MergedClass(findings, roots, r - 1)] else [])
  }

  /** What `_apply` returns. */
  function Merging(findings: seq<Finding>, edges: seq<Edge>): seq<Finding>
    requires InRange(edges, |findings|)
  {
    MergedBelow(findings, RootsAfter(|findings|, edges), |findings|)
  }

  /** `groups`: which findings have each root. */
  ghost predicate GroupsBy(groups: map<nat, seq<Finding>>, findings: seq<Finding>, roots: seq<nat>)
    requires |roots| == |findings|
  {
    && (forall r :: r in groups <==> r in roots)
    && (forall r <- groups :: groups[r] == Members(findings, roots, r))
  }

  lemma {:induction false} GroupsByOneMore(groups: map<nat, seq<Finding>>, findings: seq<Finding>, roots: seq<nat>,
                                           i: nat)
    requires i < |roots| == |findings|
    requires GroupsBy(groups, findings[..i], roots[..i])
    ensures var r := roots[i];
            GroupsBy(groups[r := (if r in groups then groups[r] else []) + [findings[i]]],
                     findings[..i + 1], roots[..i + 1])
  {
    assert findings[..i + 1] == findings[..i] + [findings[i]];
    assert roots[..i + 1] == roots[..i] + [roots[i]];
    forall c: nat
      ensures Members(findings[..i + 1], roots[..i + 1], c)
           == Members(findings[..i], roots[..i], c) + (if roots[i] == c then [findings[i]] else [])
    {
      MembersOfOneMore(findings[..i], roots[..i], findings[i], roots[i], c);
    }
    if roots[i] !in groups {
      NoMembers(findings[..i], roots[..i], roots[i]);
    }
  }

  /** One decision: unite its pair if it is honoured, otherwise leave the array alone. */
  method Honour(parent: array<nat>, d: Decision, pairs: seq<Edge>, ghost edges: seq<Edge>, ghost height: seq<nat>)
    returns (ghost newHeight: seq<nat>)
    requires InRange(pairs, parent.Length) && InRange(edges, parent.Length)
    requires Forest(parent[..], RootsAfter(parent.Length, edges), height)
    modifies parent
    ensures var e := HonouredPair(d, pairs);
            var more := edges + (if e.Some? then [e.value] else []);
            InRange(more, parent.Length) && Forest(parent[..], RootsAfter(parent.Length, more), newHeight)
  {
    var edge := HonouredPair(d, pairs);
    newHeight := height;
    if edge.None? {
      assert edges + [] == edges;
      return;
    }
    assert edge.value in pairs;
    RootsAfterMore(parent.Length, edges, edge.value);
    newHeight := Link(parent, edge.value, RootsAfter(parent.Length, edges), height);
  }

  lemma {:induction false} HonouredOneMore(decisions: seq<Decision>, pairs: seq<Edge>, i: nat)
    requires i < |decisions|
    ensures var e := HonouredPair(decisions[i], pairs);
            var more := if e.Some? then [e.value] else [];
            HonouredEdges(decisions[..i + 1], pairs) == HonouredEdges(decisions[..i], pairs) + more
  {
    assert decisions[..i + 1][..i] == decisions[..i];
  }

  lemma SingletonsForest(n: nat)
    ensures Forest(Upto(n), Upto(n), seq(n, _ => 0))
  {
  }

  /** Uniting the honoured pairs: the array ends as a forest with the closure's roots. */
  method UniteAll(parent: array<nat>, decisions: seq<Decision>, pairs: seq<Edge>) returns (ghost height: seq<nat>)
    requires InRange(pairs, parent.Length)
    requires parent[..] == Upto(parent.Length)
    modifies parent
    ensures InRange(HonouredEdges(decisions, pairs), parent.Length)
    ensures Forest(parent[..], RootsAfter(parent.Length, HonouredEdges(decisions, pairs)), height)
  {
    ghost var n := parent.Length;
    ghost var edges := [];
    height := seq(n, _ => 0);
    SingletonsForest(n);
    for i := 0 to |decisions|
      invariant edges == HonouredEdges(decisions[..i], pairs) && InRange(edges, n)
      invariant Forest(parent[..], RootsAfter(n, edges), height)
    {
      HonouredOneMore(decisions, pairs, i);
      height := Honour(parent, decisions[i], pairs, edges, height);
      edges := HonouredEdges(decisions[..i + 1], pairs);
    }
    assert decisions[..|decisions|] == decisions;
  }

  /** `groups.setdefault(find(index), []).append(finding)` for every finding. */
  method GroupByRoot(findings: seq<Finding>, parent: array<nat>, ghost roots: seq<nat>, ghost height: seq<nat>)
    returns (groups: map<nat, seq<Finding>>)
    requires parent.Length == |findings| && Forest(parent[..], roots, height)
    modifies parent
    ensures GroupsBy(groups, findings, roots)
  {
    groups := map[];
    for i := 0 to |findings|
      invariant Forest(parent[..], roots, height)
      invariant GroupsBy(groups, findings[..i], roots[..i])
    {
      var root := Find(parent, i, roots, height);
      GroupsByOneMore(groups, findings, roots, i);
      groups := groups[root := (if root in groups then groups[root] else []) + [findings[i]]];
    }
    assert findings[..|findings|] == findings && roots[..|findings|] == roots;
  }

  method Apply(findings: seq<Finding>, decisions: seq<Decision>, pairs: seq<Edge>) returns (merged: seq<Finding>)
    requires InRange(pairs, |findings|)
    ensures InRange(HonouredEdges(decisions, pairs), |findings|)
    ensures merged == Merging(findings, HonouredEdges(decisions, pairs))
  {
    var n := |findings|;
    var parent := new nat[n](i => i);
    assert parent[..] == Upto(n);
    ghost var height := UniteAll(parent, decisions, pairs);
    ghost var roots := RootsAfter(n, HonouredEdges(decisions, pairs));
    var groups := GroupByRoot(findings, parent, roots, height);

    // sorted(groups.items()): every key is an index, so counting up visits the keys in order.
    merged := [];
    for r := 0 to n
      invariant merged == MergedBelow(findings, roots, r)
    {
      if r in groups {
        var members := groups[r];
        MembersAre(findings, roots, r);
        var finding := Dedupe.Merge(Text.Normalized(members[0].file), members);
        merged := merged + [finding];
      }
    }
  }
}
