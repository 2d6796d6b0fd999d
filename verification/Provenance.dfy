/** What happens to each finding across a stage, and what a stage may do to provenance.  A stage turns
    `inp` into `out`; `trace[i]` is the place in `out` that represents input `i`, or None. */
module Provenance {
  import opened Models
  import opened Sequences

  ghost predicate Represented(trace: seq<Option<nat>>, i: int, j: int) {
    0 <= i < |trace| && trace[i].Some? && trace[i].value == j
  }

  ghost predicate Reached(trace: seq<Option<nat>>, j: int) {
    exists i :: Represented(trace, i, j)
  }

  /** `f` stands for exactly the inputs traced to `j`: it represents at least one, its sources are theirs
      together, its confidence is the greatest of theirs, and its severity is at most the greatest of
      theirs — or equal to it, when `exact`. */
  ghost predicate StandsFor(inp: seq<Finding>, trace: seq<Option<nat>>, j: int, f: Finding, exact: bool)
    requires |trace| == |inp|
  {
    && Reached(trace, j)
    && (forall a :: a in f.sources <==> exists i :: Represented(trace, i, j) && a in inp[i].sources)
    && (forall i :: Represented(trace, i, j) ==> inp[i].confidence <= f.confidence)
    && (exists i :: Represented(trace, i, j) && inp[i].confidence == f.confidence)
    && (exists i :: Represented(trace, i, j) && Rank(f.severity) <= Rank(inp[i].severity))
    && (exact ==> forall i :: Represented(trace, i, j) ==> Rank(inp[i].severity) <= Rank(f.severity))
  }

  ghost predicate Traces(inp: seq<Finding>, trace: seq<Option<nat>>, out: seq<Finding>, exact: bool) {
    && |trace| == |inp|
    && (forall i :: 0 <= i < |inp| && trace[i].Some? ==> trace[i].value < |out|)
    && (forall j :: 0 <= j < |out| ==> StandsFor(inp, trace, j, out[j], exact))
  }

  function Then(first: seq<Option<nat>>, second: seq<Option<nat>>): (r: seq<Option<nat>>)
    ensures |r| == |first|
  {
    seq(|first|, i requires 0 <= i < |first| =>
      if first[i].Some? && first[i].value < |second| then second[first[i].value] else None)
  }

  /** Stages compose: if two stages each keep provenance, so does one after the other. */
  lemma {:induction false} TracesCompose(a: seq<Finding>, t1: seq<Option<nat>>, b: seq<Finding>, e1: bool,
                      t2: seq<Option<nat>>, c: seq<Finding>, e2: bool)
    requires Traces(a, t1, b, e1) && Traces(b, t2, c, e2)
    ensures Traces(a, Then(t1, t2), c, e1 && e2)
  {
    forall j | 0 <= j < |c|
      ensures StandsFor(a, Then(t1, t2), j, c[j], e1 && e2)
    {
      StandsForCompose(a, t1, b, e1, t2, j, c[j], e2);
    }
  }

  lemma {:induction false} ThroughMiddle(a: seq<Finding>, t1: seq<Option<nat>>, b: seq<Finding>, e1: bool,
                      t2: seq<Option<nat>>, i: int, j: int) returns (k: nat)
    requires Traces(a, t1, b, e1) && |t2| == |b|
    requires Represented(Then(t1, t2), i, j)
    ensures Represented(t1, i, k) && Represented(t2, k, j) && k < |b| && StandsFor(a, t1, k, b[k], e1)
  {
    k := t1[i].value;
  }

  lemma FromMiddle(a: seq<Finding>, t1: seq<Option<nat>>, b: seq<Finding>, e1: bool,
                   t2: seq<Option<nat>>, i: int, k: int, j: int)
    requires Traces(a, t1, b, e1) && |t2| == |b|
    requires Represented(t1, i, k) && Represented(t2, k, j)
    ensures Represented(Then(t1, t2), i, j)
  {
  }

  lemma {:induction false} StandsForCompose(a: seq<Finding>, t1: seq<Option<nat>>, b: seq<Finding>, e1: bool,
                         t2: seq<Option<nat>>, j: int, f: Finding, e2: bool)
    requires Traces(a, t1, b, e1) && |t2| == |b| && StandsFor(b, t2, j, f, e2)
    ensures StandsFor(a, Then(t1, t2), j, f, e1 && e2)
  {
    var t := Then(t1, t2);
    // a representative of the greatest confidence, and one of enough severity
    var k :| Represented(t2, k, j) && b[k].confidence == f.confidence;
    assert StandsFor(a, t1, k, b[k], e1);
    var i :| Represented(t1, i, k) && a[i].confidence == b[k].confidence;
    FromMiddle(a, t1, b, e1, t2, i, k, j);
    var m :| Represented(t2, m, j) && Rank(f.severity) <= Rank(b[m].severity);
    assert StandsFor(a, t1, m, b[m], e1);
    var s :| Represented(t1, s, m) && Rank(b[m].severity) <= Rank(a[s].severity);
    FromMiddle(a, t1, b, e1, t2, s, m, j);

    forall x | Represented(t, x, j)
      ensures a[x].confidence <= f.confidence
      ensures e1 && e2 ==> Rank(a[x].severity) <= Rank(f.severity)
      ensures forall g :: g in a[x].sources ==> g in f.sources
    {
      var y := ThroughMiddle(a, t1, b, e1, t2, x, j);
    }
    forall g | g in f.sources
      ensures exists x :: Represented(t, x, j) && g in a[x].sources
    {
      var y :| Represented(t2, y, j) && g in b[y].sources;
      assert StandsFor(a, t1, y, b[y], e1);
      var x :| Represented(t1, x, y) && g in a[x].sources;
      FromMiddle(a, t1, b, e1, t2, x, y, j);
    }
  }

  // ---------------------------------------------------------------- the three kinds of stage

  /** The same finding as far as provenance goes, its severity not raised. */
  ghost predicate SameOrigin(f: Finding, g: Finding, exact: bool) {
    && g.sources == f.sources
    && g.confidence == f.confidence
    && Rank(g.severity) <= Rank(f.severity)
    && (exact ==> g.severity == f.severity)
  }

  /** A stage that keeps, changes or drops findings one by one. */
  lemma {:induction false} SelectionTraces(inp: seq<Finding>, each: seq<Option<Finding>>, exact: bool)
    requires |each| == |inp|
    requires forall i :: 0 <= i < |inp| && each[i].Some? ==> SameOrigin(inp[i], each[i].value, exact)
    ensures Traces(inp, KeptAt(each), Kept(each), exact)
  {
    KeptSelects(each);
    var trace, out := KeptAt(each), Kept(each);
    forall j | 0 <= j < |out|
      ensures StandsFor(inp, trace, j, out[j], exact)
    {
      var i :| 0 <= i < |each| && trace[i] == Some(j);
      OneStandsFor(inp, trace, i, j, out[j], exact);
    }
  }

  /** A stage that reorders and cuts. */
  lemma {:induction false} ReorderingTraces(inp: seq<Finding>, trace: seq<Option<nat>>, out: seq<Finding>)
    requires |trace| == |inp|
    requires forall i :: 0 <= i < |inp| && trace[i].Some? ==> trace[i].value < |out| && out[trace[i].value] == inp[i]
    requires forall i, k :: 0 <= i < k < |inp| && trace[i].Some? ==> trace[i] != trace[k]
    requires forall j :: 0 <= j < |out| ==> Reached(trace, j)
    ensures Traces(inp, trace, out, true)
  {
    forall j | 0 <= j < |out|
      ensures StandsFor(inp, trace, j, out[j], true)
    {
      assert Reached(trace, j);
      var i :| Represented(trace, i, j);
      OneStandsFor(inp, trace, i, j, out[j], true);
    }
  }

  lemma {:induction false} OneStandsFor(inp: seq<Finding>, trace: seq<Option<nat>>, i: int, j: int, f: Finding,
                                        exact: bool)
    requires |trace| == |inp| && Represented(trace, i, j)
    requires forall k :: Represented(trace, k, j) ==> k == i
    requires SameOrigin(inp[i], f, exact)
    ensures StandsFor(inp, trace, j, f, exact)
  {
    assert inp[i].confidence == f.confidence && Rank(f.severity) <= Rank(inp[i].severity);
  }

  /** A finding that sums up a group the way a merge does. */
  ghost predicate SumsUp(members: seq<Finding>, f: Finding) {
    && (forall a :: a in f.sources <==> exists m :: m in members && a in m.sources)
    && (forall m <- members :: Rank(m.severity) <= Rank(f.severity) && m.confidence <= f.confidence)
    && (exists m :: m in members && m.confidence == f.confidence)
    && (exists m :: m in members && m.severity == f.severity)
  }

  function Everywhere(labels: seq<nat>): (trace: seq<Option<nat>>)
    ensures |trace| == |labels|
  {
    seq(|labels|, i requires 0 <= i < |labels| => Some(labels[i]))
  }

  /** A stage that merges the findings of each group into one. */
  lemma {:induction false} MergingTraces(inp: seq<Finding>, labels: seq<nat>, out: seq<Finding>)
    requires |labels| == |inp|
    requires forall i :: 0 <= i < |labels| ==> labels[i] < |out|
    requires forall j :: 0 <= j < |out| ==> SumsUp(Members(inp, labels, j), out[j])
    ensures Traces(inp, Everywhere(labels), out, true)
  {
    var trace := Everywhere(labels);
    forall j | 0 <= j < |out|
      ensures StandsFor(inp, trace, j, out[j], true)
    {
      GroupStandsFor(inp, labels, j, out[j]);
    }
  }

  lemma {:induction false} GroupStandsFor(inp: seq<Finding>, labels: seq<nat>, j: nat, f: Finding)
    requires |labels| == |inp|
    requires SumsUp(Members(inp, labels, j), f)
    ensures StandsFor(inp, Everywhere(labels), j, f, true)
  {
    var trace, members := Everywhere(labels), Members(inp, labels, j);
    MembersAre(inp, labels, j);
    forall m | m in members
      ensures exists i :: Represented(trace, i, j) && inp[i] == m
    {
      var i :| 0 <= i < |inp| && labels[i] == j && inp[i] == m;
      assert Represented(trace, i, j);
    }
    forall i | Represented(trace, i, j)
      ensures inp[i] in members
    {
      assert labels[i] == j;
    }
    var m :| m in members && m.confidence == f.confidence;
    var s :| s in members && s.severity == f.severity;
    forall a | a in f.sources
      ensures exists i :: Represented(trace, i, j) && a in inp[i].sources
    {
      var w :| w in members && a in w.sources;
    }
  }
}
