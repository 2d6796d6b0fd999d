/** Sequence facts the stages share: grouping by label, dropping the Nones, stable sorting, sums. */
module Sequences {
  import opened Models

  // ---------------------------------------------------------------- grouping

  /** The elements labelled `c`, in their original order. */
  function Members<T>(xs: seq<T>, labels: seq<nat>, c: nat): seq<T>
    requires |labels| == |xs|
  {
    if xs == [] then []
    else
      var n := |xs| - 1;
      Members(xs[..n], labels[..n], c) + (if labels[n] == c then [xs[n]] else [])
  }

  lemma {:induction false} MembersOfOneMore<T>(xs: seq<T>, labels: seq<nat>, x: T, last: nat, c: nat)
    requires |labels| == |xs|
    ensures Members(xs + [x], labels + [last], c) == Members(xs, labels, c) + (if last == c then [x] else [])
  {
    assert (xs + [x])[..|xs|] == xs && (labels + [last])[..|xs|] == labels;
  }

  lemma {:induction false} MembersFrom<T>(xs: seq<T>, labels: seq<nat>, c: nat, x: T) returns (i: nat)
    requires |labels| == |xs| && x in Members(xs, labels, c)
    ensures i < |xs| && labels[i] == c && xs[i] == x
  {
    var n := |xs| - 1;
    if labels[n] == c && xs[n] == x {
      i := n;
    } else {
      i := MembersFrom(xs[..n], labels[..n], c, x);
    }
  }

  lemma {:induction false} MembersHas<T>(xs: seq<T>, labels: seq<nat>, c: nat, i: nat)
    requires |labels| == |xs| && i < |xs| && labels[i] == c
    ensures xs[i] in Members(xs, labels, c)
  {
    var n := |xs| - 1;
    if i < n {
      MembersHas(xs[..n], labels[..n], c, i);
    }
  }

  lemma {:induction false} MembersAre<T>(xs: seq<T>, labels: seq<nat>, c: nat)
    requires |labels| == |xs|
    ensures forall x :: x in Members(xs, labels, c) <==> exists i :: 0 <= i < |xs| && labels[i] == c && xs[i] == x
    ensures Members(xs, labels, c) != [] <==> c in labels
  {
    forall x | x in Members(xs, labels, c)
      ensures exists i :: 0 <= i < |xs| && labels[i] == c && xs[i] == x
    {
      var i := MembersFrom(xs, labels, c, x);
    }
    forall i | 0 <= i < |xs| && labels[i] == c
      ensures xs[i] in Members(xs, labels, c)
    {
      MembersHas(xs, labels, c, i);
    }
    if Members(xs, labels, c) != [] {
      assert Members(xs, labels, c)[0] in Members(xs, labels, c);
    }
  }

  /** Grouping depends on which elements share a label, not on the label's name. */
  lemma {:induction false} MembersRelabelled<T>(xs: seq<T>, labels: seq<nat>, c: nat, others: seq<nat>, d: nat)
    requires |labels| == |xs| == |others|
    requires forall i :: 0 <= i < |xs| ==> (labels[i] == c <==> others[i] == d)
    ensures Members(xs, labels, c) == Members(xs, others, d)
  {
    if xs != [] {
      var n := |xs| - 1;
      MembersRelabelled(xs[..n], labels[..n], c, others[..n], d);
    }
  }

  lemma {:induction false} MembersOfOne<T>(xs: seq<T>, labels: seq<nat>, c: nat, k: nat)
    requires |labels| == |xs| && k < |xs| && labels[k] == c
    requires forall i :: 0 <= i < |xs| && labels[i] == c ==> i == k
    ensures Members(xs, labels, c) == [xs[k]]
  {
    var n := |xs| - 1;
    if k == n {
      NoMembers(xs[..n], labels[..n], c);
    } else {
      MembersOfOne(xs[..n], labels[..n], c, k);
    }
  }

  lemma {:induction false} NoMembers<T>(xs: seq<T>, labels: seq<nat>, c: nat)
    requires |labels| == |xs|
    requires c !in labels
    ensures Members(xs, labels, c) == []
  {
    MembersAre(xs, labels, c);
  }

  /** How many indices carry label `c`. */
  function Count(labels: seq<nat>, c: nat): nat {
    if labels == [] then 0
    else Count(labels[..|labels| - 1], c) + (if labels[|labels| - 1] == c then 1 else 0)
  }

  lemma {:induction false} CountPositive(labels: seq<nat>, c: nat)
    ensures Count(labels, c) > 0 <==> c in labels
  {
    if labels != [] {
      CountPositive(labels[..|labels| - 1], c);
      assert labels == labels[..|labels| - 1] + [labels[|labels| - 1]];
    }
  }

  lemma {:induction false} MembersCount<T>(xs: seq<T>, labels: seq<nat>, c: nat)
    requires |labels| == |xs|
    ensures |Members(xs, labels, c)| == Count(labels, c)
  {
    if xs != [] {
      MembersCount(xs[..|xs| - 1], labels[..|xs| - 1], c);
    }
  }

  lemma {:induction false} AnyOf<T>(s: set<T>) returns (x: T)
    requires s != {}
    ensures x in s
  {
    x :| x in s;
  }

  // ---------------------------------------------------------------- dropping Nones

  function AsList<T>(value: Option<T>): seq<T> {
    if value.Some? then [value.value] else []
  }

  function Kept<T>(xs: seq<Option<T>>): seq<T> {
    if xs == [] then []
    else
      var n := |xs| - 1;
      Kept(xs[..n]) + AsList(xs[n])
  }

  lemma {:induction false} KeptOneMore<T>(xs: seq<Option<T>>, i: nat)
    requires i < |xs|
    ensures Kept(xs[..i + 1]) == Kept(xs[..i]) + AsList(xs[i])
  {
    assert xs[..i + 1][..i] == xs[..i];
  }

  lemma {:induction false} KeptAfter<T>(before: seq<T>, xs: seq<Option<T>>, i: nat)
    requires i < |xs|
    ensures before + Kept(xs[..i + 1]) == before + Kept(xs[..i]) + AsList(xs[i])
  {
    KeptOneMore(xs, i);
  }

  /** Where each element of `xs` ends up in `Kept(xs)`. */
  function KeptAt<T>(xs: seq<Option<T>>): (places: seq<Option<nat>>)
    ensures |places| == |xs|
  {
    if xs == [] then []
    else
      var n := |xs| - 1;
      KeptAt(xs[..n]) + [if xs[n].Some? then Some(|Kept(xs[..n])|) else None]
  }

  /** `Kept` is an order-preserving selection: its places ascend, are all used, and hold the values. */
  ghost predicate Selects<T>(xs: seq<Option<T>>, places: seq<Option<nat>>, out: seq<T>) {
    && |places| == |xs|
    && (forall i :: 0 <= i < |xs| ==> (places[i].Some? <==> xs[i].Some?))
    && (forall i :: 0 <= i < |xs| && places[i].Some? ==>
          places[i].value < |out| && out[places[i].value] == xs[i].value)
    && (forall i, j :: 0 <= i < j < |xs| && places[i].Some? && places[j].Some? ==>
          places[i].value < places[j].value)
    && (forall p :: 0 <= p < |out| ==> exists i :: 0 <= i < |xs| && places[i] == Some(p))
  }

  lemma {:induction false} SelectsOneMore<T>(xs: seq<Option<T>>, places: seq<Option<nat>>, out: seq<T>, x: T)
    requires Selects(xs, places, out)
    ensures Selects(xs + [Some(x)], places + [Some(|out|)], out + [x])
  {
    var xs', places' := xs + [Some(x)], places + [Some(|out|)];
    forall p | 0 <= p < |out| + 1
      ensures exists i :: 0 <= i < |xs'| && places'[i] == Some(p)
    {
      if p < |out| {
        var i :| 0 <= i < |xs| && places[i] == Some(p);
        assert places'[i] == Some(p);
      } else {
        assert places'[|xs|] == Some(p);
      }
    }
  }

  lemma {:induction false} SelectsOneLess<T>(xs: seq<Option<T>>, places: seq<Option<nat>>, out: seq<T>)
    requires Selects(xs, places, out)
    ensures Selects(xs + [None], places + [None], out)
  {
    var xs', places' := xs + [None], places + [None];
    assert forall i :: 0 <= i < |xs| ==> places'[i] == places[i] && xs'[i] == xs[i];
    assert places'[|xs|] == None && xs'[|xs|] == None;
    forall p | 0 <= p < |out|
      ensures exists i :: 0 <= i < |xs'| && places'[i] == Some(p)
    {
      var i :| 0 <= i < |xs| && places[i] == Some(p);
      assert places'[i] == Some(p);
    }
  }

  lemma {:induction false} KeptSelects<T>(xs: seq<Option<T>>)
    ensures Selects(xs, KeptAt(xs), Kept(xs))
  {
    if xs != [] {
      var n := |xs| - 1;
      KeptSelects(xs[..n]);
      assert xs == xs[..n] + [xs[n]];
      if xs[n].Some? {
        SelectsOneMore(xs[..n], KeptAt(xs[..n]), Kept(xs[..n]), xs[n].value);
      } else {
        SelectsOneLess(xs[..n], KeptAt(xs[..n]), Kept(xs[..n]));
      }
    }
  }

  /** The first index from `c` on that is set, or the length. */
  function FirstTrue(flags: seq<bool>, c: nat): (r: nat)
    requires c <= |flags|
    ensures c <= r <= |flags|
    decreases |flags| - c
  {
    if c == |flags| || flags[c] then c else FirstTrue(flags, c + 1)
  }

  lemma {:induction false} FirstTrueIs(flags: seq<bool>, c: nat)
    requires c <= |flags|
    ensures FirstTrue(flags, c) < |flags| ==> flags[FirstTrue(flags, c)]
    ensures forall d :: c <= d < FirstTrue(flags, c) ==> !flags[d]
    decreases |flags| - c
  {
    if c < |flags| && !flags[c] {
      FirstTrueIs(flags, c + 1);
    }
  }

  function NoneCount<T>(xs: seq<Option<T>>): nat {
    if xs == [] then 0
    else NoneCount(xs[..|xs| - 1]) + (if xs[|xs| - 1].None? then 1 else 0)
  }

  lemma {:induction false} KeptPlusNone<T>(xs: seq<Option<T>>)
    ensures |Kept(xs)| + NoneCount(xs) == |xs|
  {
    if xs != [] {
      KeptPlusNone(xs[..|xs| - 1]);
    }
  }

  /** The first `cap` elements, where a cap below one still lets one through: the source adds first
      and compares the length afterwards. */
  function Capped<T>(s: seq<T>, cap: int): seq<T> {
    var most := if cap < 1 then 1 else cap;
    if |s| <= most then s else s[..most]
  }

  /** Below the cap, or at it exactly. */
  predicate Room(count: nat, cap: int) {
    count == 0 || count < cap
  }

  predicate JustFull(count: nat, cap: int) {
    0 < count && cap <= count && (count == 1 || count == cap)
  }

  lemma {:induction false} CappedWhenFull<T>(s: seq<T>, front: seq<T>, cap: int)
    requires front <= s && JustFull(|front|, cap)
    ensures Capped(s, cap) == front
  {
  }

  lemma {:induction false} CappedWithRoom<T>(s: seq<T>, cap: int)
    requires Room(|s|, cap)
    ensures Capped(s, cap) == s
  {
  }

  // ---------------------------------------------------------------- stable sorting

  ghost predicate TotalPreorder<K(!new)>(le: (K, K) -> bool) {
    && (forall a, b :: le(a, b) || le(b, a))
    && (forall a, b, c :: le(a, b) && le(b, c) ==> le(a, c))
  }

  ghost predicate Antisymmetric<K(!new)>(le: (K, K) -> bool) {
    forall a, b :: le(a, b) && le(b, a) ==> a == b
  }

  /** Index `i` comes before index `j` in a stable sort of `keys`. */
  predicate Precedes<K>(keys: seq<K>, le: (K, K) -> bool, i: nat, j: nat)
    requires i < |keys| && j < |keys|
  {
    le(keys[i], keys[j]) && (le(keys[j], keys[i]) ==> i < j)
  }

  ghost predicate Within(order: seq<nat>, n: nat) {
    forall p :: 0 <= p < |order| ==> order[p] < n
  }

  lemma {:induction false} WithinPermuted(order: seq<nat>, others: seq<nat>, n: nat)
    requires multiset(order) == multiset(others) && Within(others, n)
    ensures Within(order, n)
  {
    forall p | 0 <= p < |order|
      ensures order[p] < n
    {
      assert order[p] in multiset(others);
    }
  }

  function InsertStable<K>(keys: seq<K>, le: (K, K) -> bool, order: seq<nat>, x: nat): (r: seq<nat>)
    requires x < |keys| && Within(order, |keys|)
    ensures multiset(r) == multiset(order) + multiset{x}
    ensures |r| == |order| + 1 && Within(r, |keys|)
  {
    if order == [] then [x]
    else
      var n := |order| - 1;
      assert order == order[..n] + [order[n]];
      if le(keys[order[n]], keys[x]) then order + [x]
      else InsertStable(keys, le, order[..n], x) + [order[n]]
  }

  /** Python's stable sort, over the indices in `picks`. */
  function StableOrder<K>(keys: seq<K>, le: (K, K) -> bool, picks: seq<nat>): (r: seq<nat>)
    requires Within(picks, |keys|)
    ensures multiset(r) == multiset(picks)
    ensures |r| == |picks| && Within(r, |keys|)
  {
    if picks == [] then []
    else
      var n := |picks| - 1;
      assert picks == picks[..n] + [picks[n]];
      InsertStable(keys, le, StableOrder(keys, le, picks[..n]), picks[n])
  }

  ghost predicate Ordered<K>(keys: seq<K>, le: (K, K) -> bool, order: seq<nat>)
    requires Within(order, |keys|)
  {
    forall p, q :: 0 <= p < q < |order| ==> Precedes(keys, le, order[p], order[q])
  }

  lemma {:induction false} InsertOrdered<K(!new)>(keys: seq<K>, le: (K, K) -> bool, order: seq<nat>, x: nat)
    requires TotalPreorder(le)
    requires x < |keys| && Within(order, |keys|) && Within(order, x)
    requires Ordered(keys, le, order)
    ensures Ordered(keys, le, InsertStable(keys, le, order, x))
  {
    if order != [] {
      var n := |order| - 1;
      var last := order[n];
      if le(keys[last], keys[x]) {
      } else {
        var front := InsertStable(keys, le, order[..n], x);
        InsertOrdered(keys, le, order[..n], x);
        forall p | 0 <= p < |front|
          ensures Precedes(keys, le, front[p], last)
        {
          InsertedFrom(keys, le, order[..n], x, p);
        }
      }
    }
  }

  lemma {:induction false} InsertedFrom<K>(keys: seq<K>, le: (K, K) -> bool, order: seq<nat>, x: nat, p: nat)
    requires x < |keys| && Within(order, |keys|)
    requires p < |InsertStable(keys, le, order, x)|
    ensures InsertStable(keys, le, order, x)[p] == x || InsertStable(keys, le, order, x)[p] in order
  {
    var front := InsertStable(keys, le, order, x);
    assert front[p] in multiset(front);
    if front[p] != x {
      assert front[p] in multiset(order);
    }
  }

  /** The result really is the stable sort: by key, and by original position among equal keys. */
  lemma {:induction false} StableOrderOrdered<K(!new)>(keys: seq<K>, le: (K, K) -> bool, picks: seq<nat>)
    requires TotalPreorder(le)
    requires Within(picks, |keys|)
    requires forall p, q :: 0 <= p < q < |picks| ==> picks[p] < picks[q]
    ensures Ordered(keys, le, StableOrder(keys, le, picks))
  {
    if picks != [] {
      var n := |picks| - 1;
      StableOrderOrdered(keys, le, picks[..n]);
      var front := StableOrder(keys, le, picks[..n]);
      WithinPermuted(front, picks[..n], picks[n]);
      InsertOrdered(keys, le, front, picks[n]);
    }
  }

  function At<K>(keys: seq<K>, order: seq<nat>): (r: seq<K>)
    requires Within(order, |keys|)
    ensures |r| == |order|
  {
    seq(|order|, p requires 0 <= p < |order| => keys[order[p]])
  }

  lemma {:induction false} TakenOut<T>(s: seq<T>, k: nat)
    requires k < |s|
    ensures multiset(s[..k] + s[k + 1..]) == multiset(s) - multiset{s[k]}
  {
    assert s == s[..k] + [s[k]] + s[k + 1..];
  }

  lemma {:induction false} InsertStableAt<K, V>(keys: seq<K>, le: (K, K) -> bool, order: seq<nat>, x: nat,
                                                values: seq<V>)
    requires x < |keys| == |values| && Within(order, |keys|)
    ensures multiset(At(values, InsertStable(keys, le, order, x))) == multiset(At(values, order)) + multiset{values[x]}
  {
    if order != [] {
      var n := |order| - 1;
      var last := order[n];
      assert At(values, order) == At(values, order[..n]) + [values[last]];
      if le(keys[last], keys[x]) {
        assert At(values, order + [x]) == At(values, order) + [values[x]];
      } else {
        var front := InsertStable(keys, le, order[..n], x);
        InsertStableAt(keys, le, order[..n], x, values);
        assert At(values, front + [last]) == At(values, front) + [values[last]];
      }
    }
  }

  /** Sorting rearranges whatever the indices stand for and loses none of it. */
  lemma {:induction false} StableOrderAt<K, V>(keys: seq<K>, le: (K, K) -> bool, picks: seq<nat>, values: seq<V>)
    requires Within(picks, |keys|) && |values| == |keys|
    ensures multiset(At(values, StableOrder(keys, le, picks))) == multiset(At(values, picks))
  {
    if picks != [] {
      var n := |picks| - 1;
      var front := StableOrder(keys, le, picks[..n]);
      var x := picks[n];
      calc {
        multiset(At(values, StableOrder(keys, le, picks)));
        { assert StableOrder(keys, le, picks) == InsertStable(keys, le, front, x); }
        multiset(At(values, InsertStable(keys, le, front, x)));
        { InsertStableAt(keys, le, front, x, values); }
        multiset(At(values, front)) + multiset{values[x]};
        { StableOrderAt(keys, le, picks[..n], values); }
        multiset(At(values, picks[..n])) + multiset{values[x]};
        multiset(At(values, picks[..n]) + [values[x]]);
        { assert At(values, picks) == At(values, picks[..n]) + [values[x]]; }
        multiset(At(values, picks));
      }
    }
  }

  ghost predicate SortedKeys<K>(ks: seq<K>, le: (K, K) -> bool) {
    forall p, q :: 0 <= p < q < |ks| ==> le(ks[p], ks[q])
  }

  lemma {:induction false} SortedHead<K(!new)>(a: seq<K>, b: seq<K>, le: (K, K) -> bool)
    requires TotalPreorder(le)
    requires SortedKeys(a, le) && a != []
    requires b != [] && b[0] in a
    ensures le(a[0], b[0])
  {
    var m :| 0 <= m < |a| && a[m] == b[0];
    assert le(a[0], a[0]);
  }

  lemma {:induction false} SameHead<K(!new)>(a: seq<K>, b: seq<K>, le: (K, K) -> bool)
    requires TotalPreorder(le) && Antisymmetric(le)
    requires SortedKeys(a, le) && SortedKeys(b, le)
    requires multiset(a) == multiset(b) && a != [] && b != []
    ensures a[0] == b[0]
  {
    assert a[0] in multiset(b);
    assert b[0] in multiset(a);
    SortedHead(a, b, le);
    SortedHead(b, a, le);
  }

  lemma {:induction false} TailKeys<K>(a: seq<K>, le: (K, K) -> bool)
    requires a != [] && SortedKeys(a, le)
    ensures SortedKeys(a[1..], le) && multiset(a[1..]) == multiset(a) - multiset{a[0]}
  {
    assert a == [a[0]] + a[1..];
  }

  /** With a total order, a multiset of keys has one sorted sequence. */
  lemma {:induction false} SortedKeysUnique<K(!new)>(a: seq<K>, b: seq<K>, le: (K, K) -> bool)
    requires TotalPreorder(le) && Antisymmetric(le)
    requires SortedKeys(a, le) && SortedKeys(b, le)
    requires multiset(a) == multiset(b)
    ensures a == b
  {
    assert |a| == |multiset(a)| == |multiset(b)| == |b|;
    if a != [] {
      SameHead(a, b, le);
      TailKeys(a, le);
      TailKeys(b, le);
      SortedKeysUnique(a[1..], b[1..], le);
      HeadAndTail(a, b);
    }
  }

  lemma {:induction false} HeadAndTail<T>(a: seq<T>, b: seq<T>)
    requires a != [] && b != [] && a[0] == b[0] && a[1..] == b[1..]
    ensures a == b
  {
    assert a == [a[0]] + a[1..] && b == [b[0]] + b[1..];
  }

  function Mapped<A, B>(f: A -> B, xs: seq<A>): (ys: seq<B>)
    ensures |ys| == |xs| && forall i :: 0 <= i < |xs| ==> ys[i] == f(xs[i])
  {
    seq(|xs|, i requires 0 <= i < |xs| => f(xs[i]))
  }

  lemma {:induction false} KeptMapped<A, B>(f: A -> Option<B>, front: seq<A>, last: A)
    ensures Kept(Mapped(f, front + [last])) == Kept(Mapped(f, front)) + AsList(f(last))
  {
    assert Mapped(f, front + [last]) == Mapped(f, front) + [f(last)];
    assert (Mapped(f, front) + [f(last)])[..|front|] == Mapped(f, front);
  }

  /** Two sequences taken together. */
  function Paired<A, B, C>(f: (A, B) -> C, xs: seq<A>, ys: seq<B>): (r: seq<C>)
    requires |xs| == |ys|
    ensures |r| == |xs| && forall i :: 0 <= i < |xs| ==> r[i] == f(xs[i], ys[i])
  {
    seq(|xs|, i requires 0 <= i < |xs| => f(xs[i], ys[i]))
  }

  lemma {:induction false} PairedPrefix<A, B, C>(f: (A, B) -> C, xs: seq<A>, ys: seq<B>, n: nat)
    requires n <= |xs| == |ys|
    ensures Paired(f, xs[..n], ys[..n]) == Paired(f, xs, ys)[..n]
  {
  }

  function HowMany(flags: seq<bool>): nat {
    if flags == [] then 0 else HowMany(flags[..|flags| - 1]) + (if flags[|flags| - 1] then 1 else 0)
  }

  // ---------------------------------------------------------------- sums

  function Sum(xs: seq<int>): int {
    if xs == [] then 0 else Sum(xs[..|xs| - 1]) + xs[|xs| - 1]
  }

  lemma {:induction false} SumConcat(a: seq<int>, b: seq<int>)
    ensures Sum(a + b) == Sum(a) + Sum(b)
  {
    if b == [] {
      assert a + b == a;
    } else {
      assert (a + b)[..|a + b| - 1] == a + b[..|b| - 1];
      SumConcat(a, b[..|b| - 1]);
    }
  }

  lemma {:induction false} SumPermuted(a: seq<int>, b: seq<int>)
    requires multiset(a) == multiset(b)
    ensures Sum(a) == Sum(b)
  {
    if a == [] {
      assert |multiset(b)| == 0;
    } else {
      var n := |a| - 1;
      assert a[n] in multiset(b);
      var k :| 0 <= k < |b| && b[k] == a[n];
      TakenOut(a, n);
      TakenOut(b, k);
      assert a[..n] + a[n + 1..] == a[..n];
      SumPermuted(a[..n], b[..k] + b[k + 1..]);
      SumTakenOut(b, k);
    }
  }

  lemma {:induction false} SumTakenOut(xs: seq<int>, k: nat)
    requires k < |xs|
    ensures Sum(xs) == Sum(xs[..k] + xs[k + 1..]) + xs[k]
  {
    assert xs == xs[..k] + [xs[k]] + xs[k + 1..];
    SumConcat(xs[..k] + [xs[k]], xs[k + 1..]);
    SumConcat(xs[..k], [xs[k]]);
    SumConcat(xs[..k], xs[k + 1..]);
    assert [xs[k]][..0] == [] && Sum([xs[k]]) == xs[k];
  }

  /** The indices 0 .. n-1. */
  function Upto(n: nat): (r: seq<nat>)
    ensures |r| == n && forall i :: 0 <= i < n ==> r[i] == i
  {
    seq(n, i => i)
  }
}
