/** What the merge pass guarantees about its classes (`_apply`, src/reviewhive/graph/llm_merge.py). */
module MergeClasses {
  import opened Models
  import opened Sequences
  import opened Diff
  import opened UnionFind
  import opened LlmMerge
  import Dedupe
  import Provenance
  import Text

  // ---------------------------------------------------------------- one file, and close together

  function LineOf(findings: seq<Finding>): (lines: seq<Option<int>>)
    ensures |lines| == |findings|
  {
    seq(|findings|, i requires 0 <= i < |findings| => findings[i].line)
  }

  ghost predicate Fits(keys: seq<string>, lines: seq<Option<int>>, window: int, i: nat, j: nat)
    requires |keys| == |lines| && i < |keys| && j < |keys|
  {
    && keys[i] == keys[j]
    && (lines[i].None? <==> lines[j].None?)
    && (lines[i].Some? ==> Distance(lines[i].value, lines[j].value) <= window)
  }

  /** A class of k findings has one normalised path, is all file-level or all anchored, and when
      anchored spans at most (k - 1) * window lines. */
  ghost predicate ClassesSound(keys: seq<string>, lines: seq<Option<int>>, roots: seq<nat>, window: int)
    requires |keys| == |lines| == |roots|
  {
    forall i, j :: 0 <= i < |roots| && 0 <= j < |roots| && roots[i] == roots[j] ==>
      Fits(keys, lines, (Count(roots, roots[i]) - 1) * window, i, j)
  }

  lemma {:induction false} SpansAdd(window: nat, a: nat, b: nat)
    requires a >= 1 && b >= 1
    ensures (a - 1) * window + window + (b - 1) * window == (a + b - 1) * window
    ensures (a - 1) * window <= (a + b - 1) * window
    ensures (b - 1) * window <= (a + b - 1) * window
  {
    assert (a + b - 1) * window == (a - 1) * window + b * window;
    assert b * window == (b - 1) * window + window;
    assert (b - 1) * window >= 0 && (a - 1) * window >= 0;
  }

  lemma FitsChain(keys: seq<string>, lines: seq<Option<int>>, i: nat, a: nat, b: nat, j: nat, w1: int, w2: int, w3: int)
    requires |keys| == |lines| && i < |keys| && a < |keys| && b < |keys| && j < |keys|
    requires Fits(keys, lines, w1, i, a) && Fits(keys, lines, w2, a, b) && Fits(keys, lines, w3, b, j)
    ensures Fits(keys, lines, w1 + w2 + w3, i, j)
  {
  }

  lemma {:induction false} UnitingKeepsSound(keys: seq<string>, lines: seq<Option<int>>, roots: seq<nat>,
                                             window: int, a: nat, b: nat)
    requires |keys| == |lines| == |roots| && a < |roots| && b < |roots|
    requires ClassesSound(keys, lines, roots, window) && Fits(keys, lines, window, a, b)
    ensures ClassesSound(keys, lines, Unite(roots, a, b), window)
  {
    var ra, rb, united := roots[a], roots[b], Unite(roots, a, b);
    if ra == rb {
      assert united == roots;
      return;
    }
    CountRelabelled(roots, ra, rb);
    UniteRelabels(roots, a, b);
    forall i, j | 0 <= i < |roots| && 0 <= j < |roots| && united[i] == united[j]
      ensures Fits(keys, lines, (Count(united, united[i]) - 1) * window, i, j)
    {
      if united[i] == rb {
        UnitedFits(keys, lines, roots, window, a, b, i, j);
      } else {
        assert roots[i] == roots[j];
      }
    }
  }

  /** Two findings of the united class. */
  lemma {:induction false} UnitedFits(keys: seq<string>, lines: seq<Option<int>>, roots: seq<nat>, window: int,
                                      a: nat, b: nat, i: nat, j: nat)
    requires |keys| == |lines| == |roots| && a < |roots| && b < |roots| && i < |roots| && j < |roots|
    requires ClassesSound(keys, lines, roots, window) && Fits(keys, lines, window, a, b)
    requires roots[i] in {roots[a], roots[b]} && roots[j] in {roots[a], roots[b]}
    ensures Fits(keys, lines, (Count(roots, roots[a]) + Count(roots, roots[b]) - 1) * window, i, j)
  {
    CountPositive(roots, roots[a]);
    CountPositive(roots, roots[b]);
    var ca, cb := Count(roots, roots[a]), Count(roots, roots[b]);
    if lines[a].Some? {
      SpansAdd(window, ca, cb);
    }
    var p, q := if roots[i] == roots[a] then a else b, if roots[j] == roots[a] then a else b;
    assert Fits(keys, lines, (Count(roots, roots[i]) - 1) * window, i, p);
    assert Fits(keys, lines, (Count(roots, roots[j]) - 1) * window, q, j);
    if lines[a].Some? {
      if p == q {
        assert Fits(keys, lines, (Count(roots, roots[i]) - 1) * window, i, j);
      } else {
        assert Fits(keys, lines, window, p, q);
        FitsChain(keys, lines, i, p, q, j,
                  (Count(roots, roots[i]) - 1) * window, window, (Count(roots, roots[j]) - 1) * window);
      }
    }
  }

  lemma {:induction false} ClassesSoundAfter(keys: seq<string>, lines: seq<Option<int>>, edges: seq<Edge>, window: int)
    requires |keys| == |lines| && InRange(edges, |keys|)
    requires forall k :: 0 <= k < |edges| ==> Fits(keys, lines, window, edges[k].left, edges[k].right)
    ensures ClassesSound(keys, lines, RootsAfter(|keys|, edges), window)
  {
    if edges == [] {
      UptoCount(|keys|);
    } else {
      var rest, e := edges[..|edges| - 1], edges[|edges| - 1];
      ClassesSoundAfter(keys, lines, rest, window);
      UnitingKeepsSound(keys, lines, RootsAfter(|keys|, rest), window, e.left, e.right);
    }
  }

  lemma {:induction false} UptoCount(n: nat)
    ensures forall c: nat :: Count(Upto(n), c) == if c < n then 1 else 0
  {
    if n > 0 {
      UptoCount(n - 1);
      assert Upto(n)[..n - 1] == Upto(n - 1);
    }
  }

  /** The edges `_apply` unites. */
  function EdgesOf(findings: seq<Finding>, window: int, maxPairs: int, decisions: seq<Decision>): (edges: seq<Edge>)
    ensures InRange(edges, |findings|)
  {
    HonouredAskable(findings, window, maxPairs, decisions);
    HonouredEdges(decisions, CandidatesOf(findings, window, maxPairs))
  }

  lemma {:induction false} HonouredAskable(findings: seq<Finding>, window: int, maxPairs: int, decisions: seq<Decision>)
    ensures forall k :: 0 <= k < |HonouredEdges(decisions, CandidatesOf(findings, window, maxPairs))| ==>
              IsAskable(findings, window, HonouredEdges(decisions, CandidatesOf(findings, window, maxPairs))[k])
  {
    var pairs := CandidatesOf(findings, window, maxPairs);
    var edges := HonouredEdges(decisions, pairs);
    HonouredAreAsked(decisions, pairs);
    forall k | 0 <= k < |edges|
      ensures IsAskable(findings, window, edges[k])
    {
      CandidatesAre(findings, window, maxPairs, edges[k]);
    }
  }

  /** Whatever the model decided, two findings end in one class exactly when honoured decisions connect
      them. */
  lemma {:induction false} MergedExactlyIfConnected(findings: seq<Finding>, window: int, maxPairs: int,
                                                    decisions: seq<Decision>, i: nat, j: nat)
    requires i < |findings| && j < |findings|
    ensures RootsAfter(|findings|, EdgesOf(findings, window, maxPairs, decisions))[i]
         == RootsAfter(|findings|, EdgesOf(findings, window, maxPairs, decisions))[j]
        <==> Connected(EdgesOf(findings, window, maxPairs, decisions), i, j)
  {
    RootsAreTheClosure(|findings|, EdgesOf(findings, window, maxPairs, decisions), i, j);
  }

  /** And then they are in one file, both anchored or both file-level, and at most (k - 1) * window lines
      apart, k being the size of the class. */
  lemma {:induction false} MergedAreClose(findings: seq<Finding>, window: int, maxPairs: int, decisions: seq<Decision>,
                       roots: seq<nat>, i: nat, j: nat)
    requires roots == RootsAfter(|findings|, EdgesOf(findings, window, maxPairs, decisions))
    requires i < |findings| && j < |findings| && roots[i] == roots[j]
    ensures Fits(PathKeys(findings), LineOf(findings), (Count(roots, roots[i]) - 1) * window, i, j)
  {
    ClassesAreSound(findings, window, maxPairs, decisions);
    InOneClass(PathKeys(findings), LineOf(findings), roots, window, i, j);
  }

  lemma InOneClass(keys: seq<string>, lines: seq<Option<int>>, roots: seq<nat>, window: int, i: nat, j: nat)
    requires |keys| == |lines| == |roots| && i < |roots| && j < |roots|
    requires ClassesSound(keys, lines, roots, window)
    ensures roots[i] == roots[j] ==> Fits(keys, lines, (Count(roots, roots[i]) - 1) * window, i, j)
  {
  }

  lemma {:induction false} ClassesAreSound(findings: seq<Finding>, window: int, maxPairs: int, decisions: seq<Decision>)
    ensures ClassesSound(PathKeys(findings), LineOf(findings),
                         RootsAfter(|findings|, EdgesOf(findings, window, maxPairs, decisions)), window)
  {
    var edges := EdgesOf(findings, window, maxPairs, decisions);
    HonouredAskable(findings, window, maxPairs, decisions);
    forall k | 0 <= k < |edges|
      ensures Fits(PathKeys(findings), LineOf(findings), window, edges[k].left, edges[k].right)
    {
      assert IsAskable(findings, window, edges[k]);
    }
    ClassesSoundAfter(PathKeys(findings), LineOf(findings), edges, window);
  }

  // ---------------------------------------------------------------- one finding a class, by ascending root

  lemma {:induction false} MergedBelowGrows(findings: seq<Finding>, roots: seq<nat>, r: nat, n: nat)
    requires |roots| == |findings| && r <= n
    ensures MergedBelow(findings, roots, r) <= MergedBelow(findings, roots, n)
    ensures r < n && r in roots ==>
              && |MergedBelow(findings, roots, r)| < |MergedBelow(findings, roots, n)|
              && MergedBelow(findings, roots, n)[|MergedBelow(findings, roots, r)|] == MergedClass(findings, roots, r)
  {
    if r < n {
      MergedBelowGrows(findings, roots, r, n - 1);
    }
  }

  lemma {:induction false} MergedBelowFrom(findings: seq<Finding>, roots: seq<nat>, n: nat, j: nat) returns (r: nat)
    requires |roots| == |findings| && j < |MergedBelow(findings, roots, n)|
    ensures r < n && r in roots && j == |MergedBelow(findings, roots, r)|
    ensures MergedBelow(findings, roots, n)[j] == MergedClass(findings, roots, r)
  {
    if j < |MergedBelow(findings, roots, n - 1)| {
      r := MergedBelowFrom(findings, roots, n - 1, j);
    } else {
      r := n - 1;
    }
  }

  /** Where each finding ends up in the output. */
  function Places(findings: seq<Finding>, roots: seq<nat>): (places: seq<nat>)
    requires |roots| == |findings|
    ensures |places| == |findings|
  {
    seq(|roots|, i requires 0 <= i < |roots| => |MergedBelow(findings, roots, roots[i])|)
  }

  lemma {:induction false} PlacesMatchRoots(findings: seq<Finding>, roots: seq<nat>, r: nat)
    requires |roots| == |findings| && r in roots
    ensures forall i :: 0 <= i < |roots| ==>
              (Places(findings, roots)[i] == |MergedBelow(findings, roots, r)| <==> roots[i] == r)
  {
    forall i | 0 <= i < |roots| && roots[i] != r
      ensures |MergedBelow(findings, roots, roots[i])| != |MergedBelow(findings, roots, r)|
    {
      if roots[i] < r {
        MergedBelowGrows(findings, roots, roots[i], r);
      } else {
        MergedBelowGrows(findings, roots, r, roots[i]);
      }
    }
  }

  /** One output a class, by ascending root: of any two findings, the one with the smaller root comes out
      earlier, and two come out together exactly when their roots are equal. */
  lemma {:induction false} OutputsAscendByRoot(findings: seq<Finding>, edges: seq<Edge>, i: nat, k: nat)
    requires InRange(edges, |findings|) && i < |findings| && k < |findings|
    ensures Places(findings, RootsAfter(|findings|, edges))[i] < |Merging(findings, edges)|
    ensures Places(findings, RootsAfter(|findings|, edges))[i] < Places(findings, RootsAfter(|findings|, edges))[k]
        <==> RootsAfter(|findings|, edges)[i] < RootsAfter(|findings|, edges)[k]
    ensures Places(findings, RootsAfter(|findings|, edges))[i] == Places(findings, RootsAfter(|findings|, edges))[k]
        <==> Connected(edges, i, k)
  {
    var roots := RootsAfter(|findings|, edges);
    RootsAreRoots(|findings|, edges);
    RootsAreTheClosure(|findings|, edges, i, k);
    MergedBelowGrows(findings, roots, roots[i], |findings|);
    if roots[i] < roots[k] {
      MergedBelowGrows(findings, roots, roots[i], roots[k]);
    } else {
      MergedBelowGrows(findings, roots, roots[k], roots[i]);
    }
  }

  /** The members behind output `j`, in input order. */
  lemma {:induction false} OutputMembers(findings: seq<Finding>, edges: seq<Edge>,
                                         j: nat) returns (members: seq<Finding>)
    requires InRange(edges, |findings|) && j < |Merging(findings, edges)|
    ensures members == Members(findings, Places(findings, RootsAfter(|findings|, edges)), j) && members != []
    ensures Merging(findings, edges)[j] == Dedupe.Merged(Text.Normalized(members[0].file), members)
    ensures exists r :: r in RootsAfter(|findings|, edges)
                        && members == Members(findings, RootsAfter(|findings|, edges), r)
  {
    var roots := RootsAfter(|findings|, edges);
    var r := MergedBelowFrom(findings, roots, |findings|, j);
    PlacesMatchRoots(findings, roots, r);
    MembersRelabelled(findings, roots, r, Places(findings, roots), j);
    MembersAre(findings, roots, r);
    members := Members(findings, roots, r);
  }

  function MergeTrace(findings: seq<Finding>, edges: seq<Edge>): (trace: seq<Option<nat>>)
    requires InRange(edges, |findings|)
    ensures |trace| == |findings|
  {
    Provenance.Everywhere(Places(findings, RootsAfter(|findings|, edges)))
  }

  lemma {:induction false} MergedSumsUp(path: string, members: seq<Finding>)
    requires members != []
    ensures Provenance.SumsUp(members, Dedupe.Merged(path, members))
  {
    Dedupe.MergeKeeps(path, members);
    forall a
      ensures Dedupe.RaisedIn(members, a) <==> exists m :: m in members && a in m.sources
    {
      if Dedupe.RaisedIn(members, a) {
        var i :| 0 <= i < |members| && a in members[i].sources;
        assert members[i] in members;
      }
      if m :| m in members && a in m.sources {
        var i :| 0 <= i < |members| && members[i] == m;
      }
    }
  }

  /** Merging loses no finding and invents no provenance. */
  lemma {:induction false} MergingTraces(findings: seq<Finding>, edges: seq<Edge>)
    requires InRange(edges, |findings|)
    ensures Provenance.Traces(findings, MergeTrace(findings, edges), Merging(findings, edges), true)
  {
    var roots, out := RootsAfter(|findings|, edges), Merging(findings, edges);
    var places := Places(findings, roots);
    RootsAreRoots(|findings|, edges);
    forall i | 0 <= i < |places|
      ensures places[i] < |out|
    {
      MergedBelowGrows(findings, roots, roots[i], |findings|);
    }
    forall j | 0 <= j < |out|
      ensures Provenance.SumsUp(Members(findings, places, j), out[j])
    {
      var members := OutputMembers(findings, edges, j);
      MergedSumsUp(Text.Normalized(members[0].file), members);
    }
    Provenance.MergingTraces(findings, places, out);
  }

  /** A merge takes its line from a member, and every member of the class has the first one's key. */
  lemma {:induction false} ClassStandsWhere(findings: seq<Finding>, keys: seq<string>, roots: seq<nat>, window: int,
                                            r: nat, path: string)
    returns (first: nat, i: nat)
    requires |keys| == |findings| == |roots| && r in roots
    requires ClassesSound(keys, LineOf(findings), roots, window)
    ensures Members(findings, roots, r) != []
    ensures first < |findings| && i < |findings| && keys[i] == keys[first] && roots[i] == roots[first] == r
    ensures findings[first] == Members(findings, roots, r)[0]
    ensures Dedupe.Merged(path, Members(findings, roots, r)).line == findings[i].line
  {
    var members := Members(findings, roots, r);
    MembersAre(findings, roots, r);
    Dedupe.MergeKeeps(path, members);
    var g := Dedupe.Merged(path, members);
    assert members[0] in members;
    first :| 0 <= first < |findings| && roots[first] == r && findings[first] == members[0];
    i := first;
    if g.line.Some? {
      var m :| m in members && m.line == g.line;
      i :| 0 <= i < |findings| && roots[i] == r && findings[i] == m;
      InOneClass(keys, LineOf(findings), roots, window, first, i);
    }
  }

  /** A merged finding stands where one of its members stood: the member's own path, or that path
      normalised once more, and that member's line. */
  lemma {:induction false} MergedStandsWhere(findings: seq<Finding>, window: int, maxPairs: int,
                                             decisions: seq<Decision>, j: nat)
    returns (i: nat)
    requires j < |Merging(findings, EdgesOf(findings, window, maxPairs, decisions))|
    ensures i < |findings|
    ensures var g := Merging(findings, EdgesOf(findings, window, maxPairs, decisions))[j];
            && g.line == findings[i].line
            && (g.file == findings[i].file || g.file == Text.Normalized(findings[i].file))
  {
    var edges := EdgesOf(findings, window, maxPairs, decisions);
    var roots := RootsAfter(|findings|, edges);
    var members := OutputMembers(findings, edges, j);
    var r :| r in roots && members == Members(findings, roots, r);
    ClassesAreSound(findings, window, maxPairs, decisions);
    var first;
    first, i := ClassStandsWhere(findings, PathKeys(findings), roots, window, r, Text.Normalized(members[0].file));
    if |members| == 1 {
      i := first;
    }
  }

  /** With a negative window an anchored finding is never merged with another. */
  lemma {:induction false} NegativeWindowMergesNothing(findings: seq<Finding>, window: int, maxPairs: int,
                                                       decisions: seq<Decision>, j: nat)
    returns (i: nat)
    requires window < 0
    requires j < |Merging(findings, EdgesOf(findings, window, maxPairs, decisions))|
    requires Merging(findings, EdgesOf(findings, window, maxPairs, decisions))[j].line.Some?
    ensures i < |findings| && Merging(findings, EdgesOf(findings, window, maxPairs, decisions))[j] == findings[i]
  {
    var edges := EdgesOf(findings, window, maxPairs, decisions);
    var roots := RootsAfter(|findings|, edges);
    var members := OutputMembers(findings, edges, j);
    var r :| r in roots && members == Members(findings, roots, r);
    ClassesAreSound(findings, window, maxPairs, decisions);
    var path := Text.Normalized(members[0].file);
    var first;
    first, i := ClassStandsWhere(findings, PathKeys(findings), roots, window, r, path);
    AnchoredClassIsLone(findings, PathKeys(findings), roots, window, r, i);
    assert |members| == 1;
    i := first;
  }

  lemma {:induction false} AnchoredClassIsLone(findings: seq<Finding>, keys: seq<string>, roots: seq<nat>,
                                               window: int, r: nat, i: nat)
    requires |keys| == |findings| == |roots| && i < |roots| && roots[i] == r && window < 0
    requires ClassesSound(keys, LineOf(findings), roots, window) && findings[i].line.Some?
    ensures |Members(findings, roots, r)| == 1
  {
    InOneClass(keys, LineOf(findings), roots, window, i, i);
    CountPositive(roots, r);
    MembersCount(findings, roots, r);
    NegativeProduct(Count(roots, r) - 1, window);
  }

  lemma NegativeProduct(k: nat, window: int)
    requires window < 0 && 0 <= k * window
    ensures k == 0
  {
  }

  // ---------------------------------------------------------------- what the comments do not say

  /** The output is ordered by root, not by first appearance, as the comment beside the code has it:
      with three findings and the pair (0, 2), the merged finding comes second. */
  lemma {:induction false} OutputOrderIsByRoot(f0: Finding, f1: Finding, f2: Finding)
    ensures Merging([f0, f1, f2], [Edge(0, 2)])
         == [f1, Dedupe.Merged(Text.Normalized(f0.file), [f0, f2])]
  {
    var findings, roots := [f0, f1, f2], RootsAfter(3, [Edge(0, 2)]);
    assert [Edge(0, 2)][..0] == [];
    assert roots == [2, 1, 2];
    MembersOfOne(findings, roots, 1, 1);
    assert Members(findings, roots, 2) == [f0, f2] by {
      assert findings[..2] == [f0, f1] && roots[..2] == [2, 1];
      assert findings[..2][..1] == [f0] && roots[..2][..1] == [2];
      MembersOfOne(findings[..2], roots[..2], 2, 0);
    }
    assert MergedBelow(findings, roots, 0) == [];
    assert MergedBelow(findings, roots, 1) == [];
    assert 1 in roots && 2 in roots by {
      assert roots[1] == 1 && roots[2] == 2;
    }
    assert MergedBelow(findings, roots, 2) == [f1];
    assert MergedBelow(findings, roots, 3) == [f1] + [MergedClass(findings, roots, 2)];
  }

  /** For one honoured pair: the merged finding takes the place of its later member, so the output
      keeps the order of first appearance exactly when the two are adjacent. */
  lemma {:induction false} RootOfAPair(n: nat, e: Edge)
    requires e.left < e.right < n
    ensures RootsAfter(n, [e]) == Upto(n)[e.left := e.right]
    ensures (forall i, j :: 0 <= i < j < n && i != e.right && j != e.right ==>
               RootsAfter(n, [e])[i] < RootsAfter(n, [e])[j])
        <==> e.right == e.left + 1
  {
    assert [e][..0] == [];
    assert RootsAfter(n, [e][..0]) == Upto(n);
    var roots := RootsAfter(n, [e]);
    assert roots == Upto(n)[e.left := e.right];
    if e.right > e.left + 1 {
      assert roots[e.left] == e.right && roots[e.left + 1] == e.left + 1;
    }
  }

  /** The root of a class need be neither its first nor its last member. */
  lemma {:induction false} RootCanBeInTheMiddle()
    ensures RootsAfter(3, [Edge(0, 2), Edge(0, 1)]) == [1, 1, 1]
  {
    assert [Edge(0, 2), Edge(0, 1)][..1] == [Edge(0, 2)];
    assert [Edge(0, 2)][..0] == [];
    assert RootsAfter(3, [Edge(0, 2)]) == [2, 1, 2];
  }

  lemma {:induction false} ChainOfThree()
    ensures RootsAfter(3, [Edge(0, 1), Edge(1, 2)]) == [2, 2, 2]
  {
    var edges := [Edge(0, 1), Edge(1, 2)];
    assert edges[..1] == [Edge(0, 1)] && edges[..1][..0] == [];
    assert RootsAfter(3, [Edge(0, 1)]) == [1, 1, 2];
  }
}
