/** The posting order on the findings themselves (`rank_and_cut`, src/reviewhive/graph/dedupe.py). */
module PostOrder {
  import opened Models
  import opened Sequences
  import opened Ranking

  /** Code-point order: a prefix, or the smaller character where the two first differ. */
  ghost predicate InOrder(a: string, b: string) {
    exists k :: 0 <= k <= |a| && k <= |b| && a[..k] == b[..k] && (k == |a| || (k < |b| && a[k] < b[k]))
  }

  lemma {:induction false} StringLeIs(a: string, b: string)
    ensures StringLe(a, b) <==> InOrder(a, b)
  {
    if a == [] {
      assert a[..0] == b[..0];
    } else if b != [] {
      StringLeIs(a[1..], b[1..]);
      if a[0] == b[0] {
        TailInOrder(a, b);
      } else {
        HeadsDiffer(a, b);
      }
    }
  }

  lemma {:induction false} HeadsDiffer(a: string, b: string)
    requires a != [] && b != [] && a[0] != b[0]
    ensures InOrder(a, b) <==> a[0] < b[0]
  {
    if a[0] < b[0] {
      assert a[..0] == b[..0];
    }
    if k :| 0 <= k <= |a| && k <= |b| && a[..k] == b[..k] && (k == |a| || (k < |b| && a[k] < b[k])) {
      if k > 0 {
        assert a[..k][0] == b[..k][0];
      }
    }
  }

  lemma {:induction false} TailInOrder(a: string, b: string)
    requires a != [] && b != [] && a[0] == b[0]
    ensures InOrder(a, b) <==> InOrder(a[1..], b[1..])
  {
    if k :| 0 <= k <= |a| && k <= |b| && a[..k] == b[..k] && (k == |a| || (k < |b| && a[k] < b[k])) {
      assert k > 0;
      assert a[1..][..k - 1] == a[..k][1..] && b[1..][..k - 1] == b[..k][1..];
    }
    if k :| 0 <= k <= |a[1..]| && k <= |b[1..]| && a[1..][..k] == b[1..][..k]
            && (k == |a[1..]| || (k < |b[1..]| && a[1..][k] < b[1..][k])) {
      assert a[..k + 1] == [a[0]] + a[1..][..k] && b[..k + 1] == [b[0]] + b[1..][..k];
    }
  }

  function LineOrZero(f: Finding): int {
    if f.line.None? then 0 else f.line.value
  }

  /** `f` goes before `g`: the more severe, then the surer, then the one more reviewers raised, then by file,
      then by line. */
  ghost predicate GoesBefore(f: Finding, g: Finding) {
    && Rank(f.severity) >= Rank(g.severity)
    && (f.severity == g.severity ==>
          && f.confidence >= g.confidence
          && (f.confidence == g.confidence ==>
                && |f.sources| >= |g.sources|
                && (|f.sources| == |g.sources| ==>
                      && InOrder(f.file, g.file)
                      && (f.file == g.file ==> LineOrZero(f) <= LineOrZero(g)))))
  }

  /** Nothing tells the two apart. */
  predicate Tied(f: Finding, g: Finding) {
    && f.severity == g.severity && f.confidence == g.confidence && |f.sources| == |g.sources|
    && f.file == g.file && LineOrZero(f) == LineOrZero(g)
  }

  lemma {:induction false} KeyLeIs(f: Finding, g: Finding)
    ensures KeyLe(KeyOf(f), KeyOf(g)) <==> GoesBefore(f, g)
  {
    StringLeIs(f.file, g.file);
    StringLeReflexive(f.file);
  }

  lemma {:induction false} TiedKeys(f: Finding, g: Finding)
    ensures GoesBefore(f, g) && GoesBefore(g, f) ==> Tied(f, g)
  {
    StringLeIs(f.file, g.file);
    StringLeIs(g.file, f.file);
    StringLeOrders(f.file, g.file);
  }

  lemma {:induction false} PrecedesExactly(findings: seq<Finding>, i: nat, j: nat)
    requires i < |findings| && j < |findings|
    ensures Precedes(Keys(findings), KeyLe, i, j)
        <==> GoesBefore(findings[i], findings[j]) && (Tied(findings[i], findings[j]) ==> i < j)
  {
    KeyLeIs(findings[i], findings[j]);
    KeyLeIs(findings[j], findings[i]);
    TiedKeys(findings[i], findings[j]);
  }

  /** The finding passes both floors. */
  predicate Passes(f: Finding, floors: Floors) {
    f.confidence >= floors.minConfidence && Rank(f.severity) >= Rank(floors.minSeverity)
  }

  lemma SurvivesIs(f: Finding, floors: Floors)
    ensures Survives(f, floors) <==> Passes(f, floors)
  {
  }

  /** What is posted passes both floors and is in order; and whatever passes them and is left out goes after
      everything posted.  Findings nothing tells apart keep the order they came in. */
  lemma {:induction false} PostedInOrder(findings: seq<Finding>, floors: Floors)
    ensures var order, posted := PostedOrder(findings, floors), Posted(findings, floors);
            && |posted| == |order|
            && (forall p :: 0 <= p < |order| ==> posted[p] == findings[order[p]] && Passes(posted[p], floors))
            && (forall p, q :: 0 <= p < q < |order| ==>
                  GoesBefore(posted[p], posted[q]) && (Tied(posted[p], posted[q]) ==> order[p] < order[q]))
            && (forall p, m :: 0 <= p < |order| && 0 <= m < |findings| && m !in order && Passes(findings[m], floors) ==>
                  GoesBefore(posted[p], findings[m]) && (Tied(posted[p], findings[m]) ==> order[p] < m))
  {
    PostedAreTheBest(findings, floors);
    var order, posted := PostedOrder(findings, floors), Posted(findings, floors);
    forall p | 0 <= p < |order|
      ensures Passes(posted[p], floors)
    {
      SurvivesIs(posted[p], floors);
    }
    forall p, q | 0 <= p < q < |order|
      ensures GoesBefore(posted[p], posted[q]) && (Tied(posted[p], posted[q]) ==> order[p] < order[q])
    {
      PostedPrecedes(findings, floors, p, q);
      PrecedesExactly(findings, order[p], order[q]);
    }
    forall p, m: nat | 0 <= p < |order| && m < |findings| && m !in order && Passes(findings[m], floors)
      ensures GoesBefore(posted[p], findings[m]) && (Tied(posted[p], findings[m]) ==> order[p] < m)
    {
      SurvivesIs(findings[m], floors);
      PrecedesExactly(findings, order[p], m);
    }
  }

  lemma {:induction false} PostedPrecedes(findings: seq<Finding>, floors: Floors, p: nat, q: nat)
    requires p < q < |PostedOrder(findings, floors)|
    ensures Precedes(Keys(findings), KeyLe, PostedOrder(findings, floors)[p], PostedOrder(findings, floors)[q])
  {
    PostedAreTheBest(findings, floors);
    var order, posted := Ranking.Ranking(findings, floors), PostedOrder(findings, floors);
    assert posted[p] == order[p] && posted[q] == order[q];
  }

  /** A finding is left out exactly when it fails a floor, or the cap is full and everything posted goes before
      it. */
  lemma {:induction false} LeftOutExactly(findings: seq<Finding>, floors: Floors, m: nat)
    requires m < |findings|
    ensures var order := PostedOrder(findings, floors);
            m !in order <==>
              (Passes(findings[m], floors) ==>
                 && (floors.maxPosted >= 0 ==> |order| == floors.maxPosted)
                 && forall p :: 0 <= p < |order| ==>
                      && GoesBefore(findings[order[p]], findings[m])
                      && (Tied(findings[order[p]], findings[m]) ==> order[p] < m))
  {
    var order := PostedOrder(findings, floors);
    NotPostedExactly(findings, floors, m);
    SurvivesIs(findings[m], floors);
    forall p | 0 <= p < |order|
      ensures Precedes(Keys(findings), KeyLe, order[p], m)
          <==> GoesBefore(findings[order[p]], findings[m]) && (Tied(findings[order[p]], findings[m]) ==> order[p] < m)
    {
      PrecedesExactly(findings, order[p], m);
    }
  }

  /** How many findings pass both floors. */
  function PassingCount(findings: seq<Finding>, floors: Floors): nat {
    if findings == [] then 0
    else PassingCount(findings[..|findings| - 1], floors) + (if Passes(findings[|findings| - 1], floors) then 1 else 0)
  }

  lemma {:induction false} SurvivorsCounted(findings: seq<Finding>, floors: Floors)
    ensures |Survivors(findings, floors)| == PassingCount(findings, floors)
  {
    if findings != [] {
      SurvivorsCounted(findings[..|findings| - 1], floors);
      SurvivesIs(findings[|findings| - 1], floors);
    }
  }

  /** How many are posted and how many withheld, for every cap: a negative one drops that many from the end,
      as slicing does, and counts more withheld than there are. */
  lemma {:induction false} HowManyPosted(findings: seq<Finding>, floors: Floors)
    ensures var passing, cap := PassingCount(findings, floors), floors.maxPosted;
            && |Posted(findings, floors)| == (if passing <= cap then passing
                                              else if cap >= 0 then cap
                                              else if passing + cap >= 0 then passing + cap else 0)
            && Withheld(findings, floors) == |findings| - (if passing <= cap then passing else cap)
  {
    SurvivorsCounted(findings, floors);
  }
}
