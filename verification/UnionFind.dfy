/** The union-find inside `_apply` (src/reviewhive/graph/llm_merge.py): a parent array with path halving,
    refined from relabelling whole classes, which in turn is the closure of the pairs united. */
module UnionFind {
  import opened Sequences

  datatype Edge = Edge(left: nat, right: nat)

  ghost predicate InRange(edges: seq<Edge>, n: nat) {
    forall k :: 0 <= k < |edges| ==> edges[k].left < n && edges[k].right < n
  }

  // ---------------------------------------------------------------- the simple form

  function Relabel(labels: seq<nat>, from: nat, to: nat): (r: seq<nat>)
    ensures |r| == |labels|
    ensures forall i :: 0 <= i < |r| ==> r[i] == if labels[i] == from then to else labels[i]
  {
    seq(|labels|, i requires 0 <= i < |labels| => if labels[i] == from then to else labels[i])
  }

  /** Everything in the class of `a` takes the root of `b`. */
  function Unite(roots: seq<nat>, a: nat, b: nat): (r: seq<nat>)
    requires a < |roots| && b < |roots|
    ensures |r| == |roots|
    ensures forall i :: 0 <= i < |r| ==> r[i] == if roots[i] == roots[a] then roots[b] else roots[i]
  {
    seq(|roots|, i requires 0 <= i < |roots| => if roots[i] == roots[a] then roots[b] else roots[i])
  }

  lemma UniteRelabels(roots: seq<nat>, a: nat, b: nat)
    requires a < |roots| && b < |roots|
    ensures Unite(roots, a, b) == Relabel(roots, roots[a], roots[b])
  {
  }

  lemma {:induction false} CountRelabelled(labels: seq<nat>, from: nat, to: nat)
    requires from != to
    ensures forall c :: Count(Relabel(labels, from, to), c)
                     == if c == from then 0
                        else if c == to then Count(labels, from) + Count(labels, to)
                        else Count(labels, c)
  {
    if labels != [] {
      var n := |labels| - 1;
      CountRelabelled(labels[..n], from, to);
      assert Relabel(labels, from, to)[..n] == Relabel(labels[..n], from, to);
    }
  }

  /** The root of every index after uniting the pairs in order. */
  function RootsAfter(n: nat, edges: seq<Edge>): (roots: seq<nat>)
    requires InRange(edges, n)
    ensures |roots| == n
  {
    if edges == [] then Upto(n)
    else var e := edges[|edges| - 1]; Unite(RootsAfter(n, edges[..|edges| - 1]), e.left, e.right)
  }

  lemma {:induction false} RootsAfterMore(n: nat, edges: seq<Edge>, e: Edge)
    requires InRange(edges, n) && e.left < n && e.right < n
    ensures InRange(edges + [e], n)
    ensures RootsAfter(n, edges + [e]) == Unite(RootsAfter(n, edges), e.left, e.right)
  {
    assert (edges + [e])[..|edges|] == edges;
  }

  lemma {:induction false} RootsAreRoots(n: nat, edges: seq<Edge>)
    requires InRange(edges, n)
    ensures forall i :: 0 <= i < n ==> RootsAfter(n, edges)[i] < n
    ensures forall i :: 0 <= i < n ==> RootsAfter(n, edges)[RootsAfter(n, edges)[i]] == RootsAfter(n, edges)[i]
  {
    if edges != [] {
      RootsAreRoots(n, edges[..|edges| - 1]);
    }
  }

  // ---------------------------------------------------------------- the parent array

  /** `parent` is a forest whose trees have these roots; heights grow towards the root, so that
      following parents cannot go round in circles. */
  ghost predicate Forest(parent: seq<nat>, roots: seq<nat>, height: seq<nat>) {
    && |parent| == |roots| == |height|
    && (forall i :: 0 <= i < |parent| ==> parent[i] < |parent| && roots[i] < |parent|)
    && (forall i :: 0 <= i < |parent| ==> roots[parent[i]] == roots[i])
    && (forall i :: 0 <= i < |parent| ==> (parent[i] == i <==> roots[i] == i))
    && (forall i :: 0 <= i < |parent| ==> parent[roots[i]] == roots[i])
    && (forall i :: 0 <= i < |parent| && parent[i] != i ==> height[i] < height[parent[i]])
  }

  function Highest(height: seq<nat>): nat {
    if height == [] then 0
    else var h := Highest(height[..|height| - 1]); if height[|height| - 1] > h then height[|height| - 1] else h
  }

  lemma {:induction false} HighestIs(height: seq<nat>, i: nat)
    requires i < |height|
    ensures height[i] <= Highest(height)
  {
    if i < |height| - 1 {
      HighestIs(height[..|height| - 1], i);
    }
  }

  /** The roots are a function of the parent array: following parents from `i` can end in one place. */
  lemma {:induction false} RootUnique(parent: seq<nat>, r1: seq<nat>, h1: seq<nat>, r2: seq<nat>, h2: seq<nat>, i: nat)
    requires Forest(parent, r1, h1) && Forest(parent, r2, h2) && i < |parent|
    ensures r1[i] == r2[i]
    decreases Highest(h1) - h1[i]
  {
    HighestIs(h1, i);
    if parent[i] != i {
      HighestIs(h1, parent[i]);
      RootUnique(parent, r1, h1, r2, h2, parent[i]);
    }
  }

  /** `find`: path halving.  It ends, it answers the root, and it moves no root. */
  method Find(parent: array<nat>, start: nat, ghost roots: seq<nat>, ghost height: seq<nat>) returns (root: nat)
    requires start < parent.Length && Forest(parent[..], roots, height)
    modifies parent
    ensures Forest(parent[..], roots, height)
    ensures root < parent.Length && root == roots[start] && parent[root] == root
  {
    var index: nat := start;
    HighestIs(height, index);
    while parent[index] != index
      invariant index < parent.Length && Forest(parent[..], roots, height)
      invariant roots[index] == roots[start]
      invariant |height| == parent.Length && height[index] <= Highest(height)
      decreases Highest(height) - height[index]
    {
      ghost var before := parent[..];
      parent[index] := parent[parent[index]];
      HalvingKeepsForest(before, roots, height, index);
      assert parent[..] == before[index := before[before[index]]];
      HighestIs(height, parent[index]);
      index := parent[index];
    }
    root := index;
  }

  lemma HalvingKeepsForest(parent: seq<nat>, roots: seq<nat>, height: seq<nat>, i: nat)
    requires Forest(parent, roots, height) && i < |parent| && parent[i] != i
    ensures Forest(parent[i := parent[parent[i]]], roots, height)
    ensures height[i] < height[parent[parent[i]]]
  {
  }

  /** The heights after linking root `a` under root `b`. */
  function Raised(height: seq<nat>, a: nat, b: nat): seq<nat>
    requires a < |height| && b < |height|
  {
    if a == b || height[b] > height[a] then height else height[b := height[a] + 1]
  }

  lemma {:induction false} LinkingUnites(parent: seq<nat>, roots: seq<nat>, height: seq<nat>, a: nat, b: nat)
    requires Forest(parent, roots, height) && a < |parent| && b < |parent|
    ensures Forest(parent[roots[a] := roots[b]], Unite(roots, a, b), Raised(height, roots[a], roots[b]))
  {
    var linked, united, raised := parent[roots[a] := roots[b]], Unite(roots, a, b), Raised(height, roots[a], roots[b]);
    forall i | 0 <= i < |parent|
      ensures LinkedAt(linked, united, raised, i)
    {
      RootIsItsOwn(parent, roots, height, a);
      RootIsItsOwn(parent, roots, height, b);
      LinkingAt(parent, roots, height, roots[a], roots[b], united, i);
    }
    LinkedEverywhere(linked, united, raised);
  }

  lemma RootIsItsOwn(parent: seq<nat>, roots: seq<nat>, height: seq<nat>, i: nat)
    requires Forest(parent, roots, height) && i < |parent|
    ensures parent[roots[i]] == roots[i] && roots[roots[i]] == roots[i]
  {
  }

  /** What a forest says of one index. */
  ghost predicate LinkedAt(parent: seq<nat>, roots: seq<nat>, height: seq<nat>, i: nat)
    requires |parent| == |roots| == |height| && i < |parent|
  {
    && parent[i] < |parent| && roots[i] < |parent|
    && roots[parent[i]] == roots[i]
    && (parent[i] == i <==> roots[i] == i)
    && parent[roots[i]] == roots[i]
    && (parent[i] != i ==> height[i] < height[parent[i]])
  }

  lemma {:induction false} LinkedEverywhere(parent: seq<nat>, roots: seq<nat>, height: seq<nat>)
    requires |parent| == |roots| == |height|
    requires forall i :: 0 <= i < |parent| ==> LinkedAt(parent, roots, height, i)
    ensures Forest(parent, roots, height)
  {
    forall i | 0 <= i < |parent|
      ensures parent[i] < |parent| && roots[i] < |parent|
      ensures roots[parent[i]] == roots[i] && parent[roots[i]] == roots[i] && (parent[i] == i <==> roots[i] == i)
      ensures parent[i] != i ==> height[i] < height[parent[i]]
    {
      assert LinkedAt(parent, roots, height, i);
    }
  }

  /** Linking root `top` under root `under`, seen from one index. */
  lemma {:induction false} LinkingAt(parent: seq<nat>, roots: seq<nat>, height: seq<nat>, top: nat, under: nat,
                                     united: seq<nat>, i: nat)
    requires |parent| == |roots| == |height| == |united| && i < |parent| && top < |parent| && under < |parent|
    requires parent[top] == top == roots[top] && parent[under] == under == roots[under]
    requires LinkedAt(parent, roots, height, i)
    requires forall k :: 0 <= k < |roots| ==> united[k] == if roots[k] == top then under else roots[k]
    ensures LinkedAt(parent[top := under], united, Raised(height, top, under), i)
  {
    var linked := parent[top := under];
    assert united[i] == if roots[i] == top then under else roots[i];
    if i == top {
      assert linked[i] == under && united[under] == under;
    } else {
      assert linked[i] == parent[i] && roots[parent[i]] == roots[i];
      assert united[parent[i]] == united[i];
      assert i == under ==> parent[i] == i;
    }
  }

  /** `parent[find(key[0])] = find(key[1])`: Python evaluates the right-hand side first. */
  method Link(parent: array<nat>, edge: Edge, ghost roots: seq<nat>, ghost height: seq<nat>)
    returns (ghost newHeight: seq<nat>)
    requires edge.left < parent.Length && edge.right < parent.Length
    requires Forest(parent[..], roots, height)
    modifies parent
    ensures Forest(parent[..], Unite(roots, edge.left, edge.right), newHeight)
  {
    var b := Find(parent, edge.right, roots, height);
    var a := Find(parent, edge.left, roots, height);
    LinkingUnites(parent[..], roots, height, edge.left, edge.right);
    ghost var before := parent[..];
    parent[a] := b;
    assert parent[..] == before[a := b];
    newHeight := Raised(height, a, b);
  }

  // ---------------------------------------------------------------- the closure

  ghost predicate Linked(edges: seq<Edge>, i: nat, j: nat) {
    exists k :: 0 <= k < |edges| && (edges[k] == Edge(i, j) || edges[k] == Edge(j, i))
  }

  ghost predicate Walk(edges: seq<Edge>, path: seq<nat>) {
    path != [] && forall k :: 0 <= k < |path| - 1 ==> Linked(edges, path[k], path[k + 1])
  }

  ghost predicate WalkBetween(edges: seq<Edge>, path: seq<nat>, i: nat, j: nat) {
    Walk(edges, path) && path[0] == i && path[|path| - 1] == j
  }

  /** The reflexive, symmetric and transitive closure of the pairs. */
  ghost predicate Connected(edges: seq<Edge>, i: nat, j: nat) {
    exists path :: WalkBetween(edges, path, i, j)
  }

  lemma {:induction false} ConnectedReflexive(edges: seq<Edge>, i: nat)
    ensures Connected(edges, i, i)
  {
    assert WalkBetween(edges, [i], i, i);
  }

  lemma {:induction false} ConnectedTransitive(edges: seq<Edge>, i: nat, j: nat, k: nat)
    requires Connected(edges, i, j) && Connected(edges, j, k)
    ensures Connected(edges, i, k)
  {
    var p :| WalkBetween(edges, p, i, j);
    var q :| WalkBetween(edges, q, j, k);
    var path := p + q[1..];
    forall m | 0 <= m < |path| - 1
      ensures Linked(edges, path[m], path[m + 1])
    {
      if m < |p| - 1 {
        assert Linked(edges, p[m], p[m + 1]);
      } else {
        assert Linked(edges, q[m - |p| + 1], q[m - |p| + 2]);
      }
    }
    assert WalkBetween(edges, path, i, k);
  }

  lemma {:induction false} ConnectedSymmetric(edges: seq<Edge>, i: nat, j: nat, path: seq<nat>)
    requires WalkBetween(edges, path, i, j)
    ensures Connected(edges, j, i)
    decreases |path|
  {
    if |path| == 1 {
      ConnectedReflexive(edges, i);
    } else {
      var n := |path| - 1;
      var m := path[n - 1];
      assert WalkBetween(edges, path[..n], i, m) by {
        forall k | 0 <= k < n - 1
          ensures Linked(edges, path[..n][k], path[..n][k + 1])
        {
          assert Linked(edges, path[k], path[k + 1]);
        }
      }
      ConnectedSymmetric(edges, i, m, path[..n]);
      assert Linked(edges, path[n - 1], path[n]);
      assert WalkBetween(edges, [j, m], j, m);
      ConnectedTransitive(edges, j, m, i);
    }
  }

  lemma {:induction false} ConnectedMore(edges: seq<Edge>, e: Edge, i: nat, j: nat)
    requires Connected(edges, i, j)
    ensures Connected(edges + [e], i, j)
  {
    var p :| WalkBetween(edges, p, i, j);
    forall k | 0 <= k < |p| - 1
      ensures Linked(edges + [e], p[k], p[k + 1])
    {
      assert Linked(edges, p[k], p[k + 1]);
      var m :| 0 <= m < |edges| && (edges[m] == Edge(p[k], p[k + 1]) || edges[m] == Edge(p[k + 1], p[k]));
      assert (edges + [e])[m] == edges[m];
    }
    assert WalkBetween(edges + [e], p, i, j);
  }

  /** Every index is connected to its root. */
  lemma {:induction false} RootsConnected(n: nat, edges: seq<Edge>, i: nat)
    requires InRange(edges, n) && i < n
    ensures Connected(edges, i, RootsAfter(n, edges)[i])
  {
    if edges == [] {
      ConnectedReflexive(edges, i);
    } else {
      var rest, e := edges[..|edges| - 1], edges[|edges| - 1];
      var before := RootsAfter(n, rest);
      assert edges == rest + [e];
      RootsConnected(n, rest, i);
      ConnectedMore(rest, e, i, before[i]);
      if before[i] == before[e.left] {
        RootsConnected(n, rest, e.left);
        ConnectedMore(rest, e, e.left, before[i]);
        var p :| WalkBetween(edges, p, e.left, before[i]);
        ConnectedSymmetric(edges, e.left, before[i], p);
        assert edges[|edges| - 1] == Edge(e.left, e.right);
        assert WalkBetween(edges, [e.left, e.right], e.left, e.right);
        RootsConnected(n, rest, e.right);
        ConnectedMore(rest, e, e.right, before[e.right]);
        ConnectedTransitive(edges, i, before[i], e.left);
        ConnectedTransitive(edges, i, e.left, e.right);
        ConnectedTransitive(edges, i, e.right, before[e.right]);
      }
    }
  }

  /** United pairs share a root, and stay that way. */
  lemma {:induction false} EdgesShareRoots(n: nat, edges: seq<Edge>)
    requires InRange(edges, n)
    ensures forall k :: 0 <= k < |edges| ==>
              RootsAfter(n, edges)[edges[k].left] == RootsAfter(n, edges)[edges[k].right]
  {
    if edges != [] {
      var rest := edges[..|edges| - 1];
      EdgesShareRoots(n, rest);
      forall k | 0 <= k < |edges|
        ensures RootsAfter(n, edges)[edges[k].left] == RootsAfter(n, edges)[edges[k].right]
      {
        if k < |rest| {
          assert rest[k] == edges[k];
        }
      }
    }
  }

  lemma {:induction false} WalkSharesRoot(n: nat, edges: seq<Edge>, path: seq<nat>, i: nat, j: nat)
    requires InRange(edges, n) && i < n
    requires WalkBetween(edges, path, i, j)
    ensures j < n && RootsAfter(n, edges)[i] == RootsAfter(n, edges)[j]
  {
    if |path| > 1 {
      assert Linked(edges, path[0], path[1]);
      EdgesShareRoots(n, edges);
      var rest := path[1..];
      assert WalkBetween(edges, rest, path[1], j) by {
        forall k | 0 <= k < |rest| - 1
          ensures Linked(edges, rest[k], rest[k + 1])
        {
          assert Linked(edges, path[k + 1], path[k + 2]);
        }
      }
      WalkSharesRoot(n, edges, rest, path[1], j);
    }
  }

  /** After all the unions two indices have the same root exactly when they are in the closure. */
  lemma {:induction false} RootsAreTheClosure(n: nat, edges: seq<Edge>, i: nat, j: nat)
    requires InRange(edges, n) && i < n && j < n
    ensures RootsAfter(n, edges)[i] == RootsAfter(n, edges)[j] <==> Connected(edges, i, j)
  {
    if RootsAfter(n, edges)[i] == RootsAfter(n, edges)[j] {
      RootsConnected(n, edges, i);
      RootsConnected(n, edges, j);
      var r := RootsAfter(n, edges)[j];
      var p :| WalkBetween(edges, p, j, r);
      ConnectedSymmetric(edges, j, r, p);
      ConnectedTransitive(edges, i, r, j);
    }
    if Connected(edges, i, j) {
      var p :| WalkBetween(edges, p, i, j);
      WalkSharesRoot(n, edges, p, i, j);
    }
  }
}
