/** Ordering, thresholds and the posting cap (`rank_and_cut`, src/reviewhive/graph/dedupe.py). */
module Ranking {
  import opened Models
  import opened Sequences

  datatype Floors = Floors(minConfidence: real, minSeverity: Severity, maxPosted: int)

  /** The sort key, smallest first: severity, confidence and agreement are negated. */
  datatype Key = Key(severity: int, confidence: real, agreement: int, file: string, line: int)

  function KeyOf(f: Finding): Key {
    Key(-Rank(f.severity), -f.confidence, -|f.sources|, f.file, if f.line.Some? then f.line.value else 0)
  }

  /** Python's string order: by code point, a prefix first. */
  predicate StringLe(a: string, b: string) {
    a == [] || (b != [] && (a[0] < b[0] || (a[0] == b[0] && StringLe(a[1..], b[1..]))))
  }

  predicate KeyLe(a: Key, b: Key) {
    if a.severity != b.severity then a.severity < b.severity
    else if a.confidence != b.confidence then a.confidence < b.confidence
    else if a.agreement != b.agreement then a.agreement < b.agreement
    else if a.file != b.file then StringLe(a.file, b.file)
    else a.line <= b.line
  }

  lemma {:induction false} StringLeOrders(a: string, b: string)
    ensures StringLe(a, b) || StringLe(b, a)
    ensures StringLe(a, b) && StringLe(b, a) ==> a == b
    ensures StringLe(a, a)
  {
    if a != [] {
      StringLeReflexive(a);
      if b != [] {
        StringLeOrders(a[1..], b[1..]);
        assert a == [a[0]] + a[1..] && b == [b[0]] + b[1..];
      }
    }
  }

  lemma {:induction false} StringLeReflexive(a: string)
    ensures StringLe(a, a)
  {
    if a != [] {
      StringLeReflexive(a[1..]);
    }
  }

  lemma {:induction false} StringLeTransitive(a: string, b: string, c: string)
    requires StringLe(a, b) && StringLe(b, c)
    ensures StringLe(a, c)
  {
    if a != [] && a[0] == b[0] && b[0] == c[0] {
      StringLeTransitive(a[1..], b[1..], c[1..]);
    }
  }

  lemma {:induction false} KeyLeOrders()
    ensures TotalPreorder(KeyLe) && Antisymmetric(KeyLe)
  {
    forall a, b
      ensures KeyLe(a, b) || KeyLe(b, a)
      ensures KeyLe(a, b) && KeyLe(b, a) ==> a == b
    {
      StringLeOrders(a.file, b.file);
    }
    forall a, b, c | KeyLe(a, b) && KeyLe(b, c)
      ensures KeyLe(a, c)
    {
      StringLeOrders(a.file, b.file);
      StringLeOrders(b.file, c.file);
      if StringLe(a.file, b.file) && StringLe(b.file, c.file) {
        StringLeTransitive(a.file, b.file, c.file);
      }
    }
  }

  predicate Survives(f: Finding, floors: Floors) {
    f.confidence >= floors.minConfidence && Rank(f.severity) >= Rank(floors.minSeverity)
  }

  function Survivors(findings: seq<Finding>, floors: Floors): (picks: seq<nat>)
    ensures Within(picks, |findings|)
  {
    if findings == [] then []
    else
      var n := |findings| - 1;
      Survivors(findings[..n], floors) + (if Survives(findings[n], floors) then [n] else [])
  }

  lemma {:induction false} SurvivorsAre(findings: seq<Finding>, floors: Floors)
    ensures var picks := Survivors(findings, floors);
            && (forall i: nat :: i in picks <==> i < |findings| && Survives(findings[i], floors))
            && (forall p, q :: 0 <= p < q < |picks| ==> picks[p] < picks[q])
  {
    if findings != [] {
      var n := |findings| - 1;
      SurvivorsAre(findings[..n], floors);
      var before := Survivors(findings[..n], floors);
      forall i: nat
        ensures i in Survivors(findings, floors) <==> i < |findings| && Survives(findings[i], floors)
      {
        assert i in before <==> i < n && Survives(findings[..n][i], floors);
      }
    }
  }

  function Keys(findings: seq<Finding>): (keys: seq<Key>)
    ensures |keys| == |findings|
  {
    seq(|findings|, i requires 0 <= i < |findings| => KeyOf(findings[i]))
  }

  /** The surviving findings' indices, in posting order. */
  function Ranking(findings: seq<Finding>, floors: Floors): (order: seq<nat>)
    ensures Within(order, |findings|)
  {
    StableOrder(Keys(findings), KeyLe, Survivors(findings, floors))
  }

  /** Python's `s[:n]` for any n: a negative one counts from the end. */
  function Prefix<T>(s: seq<T>, n: int): (r: seq<T>)
    ensures r <= s
  {
    if n >= |s| then s else if n >= 0 then s[..n] else if |s| + n >= 0 then s[..|s| + n] else []
  }

  /** The indices posted, in order. */
  function PostedOrder(findings: seq<Finding>, floors: Floors): (order: seq<nat>)
    ensures Within(order, |findings|)
  {
    var order := Ranking(findings, floors);
    if |order| <= floors.maxPosted then order else Prefix(order, floors.maxPosted)
  }

  function Posted(findings: seq<Finding>, floors: Floors): seq<Finding> {
    At(findings, PostedOrder(findings, floors))
  }

  function Withheld(findings: seq<Finding>, floors: Floors): int {
    var surviving := |Ranking(findings, floors)|;
    |findings| - surviving + (if surviving <= floors.maxPosted then 0 else surviving - floors.maxPosted)
  }

  lemma {:induction false} PrefixAt<T>(xs: seq<T>, order: seq<nat>, n: int)
    requires Within(order, |xs|)
    ensures Within(Prefix(order, n), |xs|)
    ensures Prefix(At(xs, order), n) == At(xs, Prefix(order, n))
  {
  }

  method RankAndCut(findings: seq<Finding>, floors: Floors) returns (posted: seq<Finding>, withheld: int)
    ensures posted == Posted(findings, floors)
    ensures withheld == Withheld(findings, floors)
  {
    var surviving := Survivors(findings, floors);
    withheld := |findings| - |surviving|;
    surviving := StableOrder(Keys(findings), KeyLe, surviving);
    posted := At(findings, surviving);
    if |surviving| > floors.maxPosted {
      PrefixAt(findings, surviving, floors.maxPosted);
      posted := Prefix(posted, floors.maxPosted);
      withheld := withheld + |surviving| - floors.maxPosted;
    }
  }

  lemma {:induction false} RankingStable(findings: seq<Finding>, floors: Floors)
    ensures Ordered(Keys(findings), KeyLe, Ranking(findings, floors))
    ensures forall i: nat :: i in Ranking(findings, floors) <==> i < |findings| && Survives(findings[i], floors)
  {
    var picks, order := Survivors(findings, floors), Ranking(findings, floors);
    SurvivorsAre(findings, floors);
    KeyLeOrders();
    StableOrderOrdered(Keys(findings), KeyLe, picks);
    forall i: nat
      ensures i in order <==> i in picks
    {
      assert i in order <==> i in multiset(order);
      assert i in picks <==> i in multiset(picks);
    }
  }

  /** What is posted is the first `maxPosted` of the stable sort of what passes both floors, and a
      finding withheld although it passes them ranks below everything posted. */
  lemma {:induction false} PostedAreTheBest(findings: seq<Finding>, floors: Floors)
    ensures var order, posted := Ranking(findings, floors), PostedOrder(findings, floors);
            && Ordered(Keys(findings), KeyLe, order)
            && posted <= order
            && (forall p :: 0 <= p < |posted| ==> Survives(findings[posted[p]], floors))
            && (forall i, p ::
                  0 <= i < |findings| && Survives(findings[i], floors) && i !in posted && 0 <= p < |posted| ==>
                  Precedes(Keys(findings), KeyLe, posted[p], i))
            && (0 <= floors.maxPosted ==> |posted| <= floors.maxPosted)
            && (0 <= floors.maxPosted && |posted| < floors.maxPosted ==> posted == order)
  {
    RankingStable(findings, floors);
    PostedSurvive(findings, floors);
    var order, posted := Ranking(findings, floors), PostedOrder(findings, floors);
    forall i, p | 0 <= i < |findings| && Survives(findings[i], floors) && i !in posted && 0 <= p < |posted|
      ensures Precedes(Keys(findings), KeyLe, posted[p], i)
    {
      assert i in order;
      LeftOutFollows(Keys(findings), order, posted, i, p);
    }
  }

  lemma {:induction false} PostedSurvive(findings: seq<Finding>, floors: Floors)
    ensures var order, posted := Ranking(findings, floors), PostedOrder(findings, floors);
            && posted <= order
            && (forall p :: 0 <= p < |posted| ==> Survives(findings[posted[p]], floors))
            && (0 <= floors.maxPosted ==> |posted| <= floors.maxPosted)
            && (0 <= floors.maxPosted && |posted| < floors.maxPosted ==> posted == order)
  {
    RankingStable(findings, floors);
    var order, posted := Ranking(findings, floors), PostedOrder(findings, floors);
    forall p | 0 <= p < |posted|
      ensures Survives(findings[posted[p]], floors)
    {
      assert order[p] in order;
    }
  }

  lemma {:induction false} LeftOutFollows(keys: seq<Key>, order: seq<nat>, posted: seq<nat>, i: nat, p: nat)
    requires Within(order, |keys|) && Ordered(keys, KeyLe, order)
    requires posted <= order && i in order && i !in posted && p < |posted|
    ensures Precedes(keys, KeyLe, posted[p], i)
  {
    var q :| 0 <= q < |order| && order[q] == i;
    assert forall k :: 0 <= k < |posted| ==> posted[k] == order[k] && posted[k] in posted;
  }

  /** The finding fails a floor, or the cap is full of findings that rank above it. */
  ghost predicate WithheldForCause(findings: seq<Finding>, floors: Floors, m: nat)
    requires m < |findings|
  {
    var posted := PostedOrder(findings, floors);
    Survives(findings[m], floors) ==>
      && (floors.maxPosted >= 0 ==> |posted| == floors.maxPosted)
      && forall p :: 0 <= p < |posted| ==> Precedes(Keys(findings), KeyLe, posted[p], m)
  }

  /** A finding is left out exactly when it fails a floor, or ranks below a full cap. */
  lemma {:induction false} NotPostedExactly(findings: seq<Finding>, floors: Floors, m: nat)
    requires m < |findings|
    ensures m !in PostedOrder(findings, floors) <==> WithheldForCause(findings, floors, m)
  {
    PostedAreTheBest(findings, floors);
    RankingStable(findings, floors);
    var posted := PostedOrder(findings, floors);
    if p :| 0 <= p < |posted| && posted[p] == m {
      assert Survives(findings[posted[p]], floors);
      assert !Precedes(Keys(findings), KeyLe, posted[p], m);
    }
  }

  /** Everything is either posted or counted as withheld, exactly when the cap is not negative. */
  lemma {:induction false} WithheldAccounts(findings: seq<Finding>, floors: Floors)
    ensures |Posted(findings, floors)| + Withheld(findings, floors) == |findings| <==> floors.maxPosted >= 0
  {
    SurvivorsWithin(findings, floors);
  }

  lemma {:induction false} SurvivorsWithin(findings: seq<Finding>, floors: Floors)
    ensures |Survivors(findings, floors)| <= |findings|
  {
    if findings != [] {
      SurvivorsWithin(findings[..|findings| - 1], floors);
    }
  }

  // ---------------------------------------------------------------- the input order does not matter

  /** The keys of the findings that pass the floors. */
  function SurvivingKeys(findings: seq<Finding>, floors: Floors): multiset<Key> {
    if findings == [] then multiset{}
    else
      var f := findings[|findings| - 1];
      SurvivingKeys(findings[..|findings| - 1], floors)
      + (if Survives(f, floors) then multiset{KeyOf(f)} else multiset{})
  }

  lemma {:induction false} SurvivingKeysConcat(a: seq<Finding>, b: seq<Finding>, floors: Floors)
    ensures SurvivingKeys(a + b, floors) == SurvivingKeys(a, floors) + SurvivingKeys(b, floors)
  {
    if b == [] {
      assert a + b == a;
    } else {
      assert (a + b)[..|a + b| - 1] == a + b[..|b| - 1];
      SurvivingKeysConcat(a, b[..|b| - 1], floors);
    }
  }

  lemma {:induction false} SurvivingKeysTaken(b: seq<Finding>, k: nat, floors: Floors)
    requires k < |b|
    ensures SurvivingKeys(b, floors) == SurvivingKeys(b[..k] + b[k + 1..], floors) + SurvivingKeys([b[k]], floors)
  {
    SurvivingKeysMiddle(b[..k], b[k], b[k + 1..], floors);
    assert b == b[..k] + [b[k]] + b[k + 1..];
  }

  lemma {:induction false} SurvivingKeysMiddle(front: seq<Finding>, f: Finding, back: seq<Finding>, floors: Floors)
    ensures SurvivingKeys(front + [f] + back, floors)
         == SurvivingKeys(front + back, floors) + SurvivingKeys([f], floors)
  {
    SurvivingKeysConcat(front + [f], back, floors);
    SurvivingKeysConcat(front, [f], floors);
    SurvivingKeysConcat(front, back, floors);
  }

  lemma {:induction false} SurvivingKeysPermuted(a: seq<Finding>, b: seq<Finding>, floors: Floors)
    requires multiset(a) == multiset(b)
    ensures SurvivingKeys(a, floors) == SurvivingKeys(b, floors)
  {
    if a == [] {
      assert |multiset(b)| == 0;
    } else {
      assert a[0] in multiset(b);
      var k :| 0 <= k < |b| && b[k] == a[0];
      TakenOut(a, 0);
      TakenOut(b, k);
      SurvivingKeysTaken(a, 0, floors);
      SurvivingKeysTaken(b, k, floors);
      assert a[..0] + a[0 + 1..] == a[1..];
      SurvivingKeysPermuted(a[1..], b[..k] + b[k + 1..], floors);
    }
  }

  lemma {:induction false} SurvivorsKeys(findings: seq<Finding>, floors: Floors)
    ensures multiset(At(Keys(findings), Survivors(findings, floors))) == SurvivingKeys(findings, floors)
  {
    if findings != [] {
      var n := |findings| - 1;
      var front := Survivors(findings[..n], floors);
      SurvivorsKeys(findings[..n], floors);
      assert At(Keys(findings), front) == At(Keys(findings[..n]), front);
      if Survives(findings[n], floors) {
        assert At(Keys(findings), front + [n]) == At(Keys(findings), front) + [KeyOf(findings[n])];
      } else {
        assert Survivors(findings, floors) == front;
      }
    }
  }

  lemma {:induction false} RankedKeys(findings: seq<Finding>, floors: Floors)
    ensures var keys := At(Keys(findings), Ranking(findings, floors));
            SortedKeys(keys, KeyLe) && multiset(keys) == SurvivingKeys(findings, floors)
  {
    RankingStable(findings, floors);
    StableOrderAt(Keys(findings), KeyLe, Survivors(findings, floors), Keys(findings));
    SurvivorsKeys(findings, floors);
    var order := Ranking(findings, floors);
    var keys := At(Keys(findings), order);
    forall p, q | 0 <= p < q < |keys|
      ensures KeyLe(keys[p], keys[q])
    {
      assert Precedes(Keys(findings), KeyLe, order[p], order[q]);
    }
  }

  /** The posted keys are the ranked keys, cut. */
  lemma {:induction false} PostedKeysAre(findings: seq<Finding>, floors: Floors)
    ensures var keys := At(Keys(findings), Ranking(findings, floors));
            Keys(Posted(findings, floors))
            == if |keys| <= floors.maxPosted then keys else Prefix(keys, floors.maxPosted)
  {
    var order, posted := Ranking(findings, floors), PostedOrder(findings, floors);
    assert posted == order[..|posted|];
    KeysAt(findings, posted);
    AtPrefix(Keys(findings), order, |posted|);
  }

  lemma {:induction false} KeysAt(findings: seq<Finding>, order: seq<nat>)
    requires Within(order, |findings|)
    ensures Keys(At(findings, order)) == At(Keys(findings), order)
  {
    forall p | 0 <= p < |order|
      ensures Keys(At(findings, order))[p] == At(Keys(findings), order)[p]
    {
      assert At(findings, order)[p] == findings[order[p]];
    }
  }

  lemma {:induction false} AtPrefix<K>(keys: seq<K>, order: seq<nat>, n: nat)
    requires Within(order, |keys|) && n <= |order|
    ensures At(keys, order[..n]) == At(keys, order)[..n]
  {
    assert forall p :: 0 <= p < n ==> order[..n][p] == order[p];
  }

  lemma {:induction false} RankedKeysAgree(a: seq<Finding>, b: seq<Finding>, floors: Floors)
    requires multiset(a) == multiset(b)
    ensures At(Keys(a), Ranking(a, floors)) == At(Keys(b), Ranking(b, floors))
  {
    RankedKeys(a, floors);
    RankedKeys(b, floors);
    SurvivingKeysPermuted(a, b, floors);
    KeyLeOrders();
    SortedKeysUnique(At(Keys(a), Ranking(a, floors)), At(Keys(b), Ranking(b, floors)), KeyLe);
  }

  /** The findings may arrive in any order: the posted keys, and the withheld count, are the same. */
  lemma {:induction false} InputOrderIrrelevant(a: seq<Finding>, b: seq<Finding>, floors: Floors)
    requires multiset(a) == multiset(b)
    ensures Keys(Posted(a, floors)) == Keys(Posted(b, floors))
    ensures Withheld(a, floors) == Withheld(b, floors)
  {
    PostedKeysAre(a, floors);
    PostedKeysAre(b, floors);
    RankedKeysAgree(a, b, floors);
    assert |a| == |multiset(a)| == |multiset(b)| == |b|;
    assert |Ranking(a, floors)| == |At(Keys(a), Ranking(a, floors))|;
    assert |Ranking(b, floors)| == |At(Keys(b), Ranking(b, floors))|;
  }
}
