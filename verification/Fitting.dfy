/** Dropping whole files until the prompt fits (`_fit_to_budget`, src/reviewhive/diff/budget.py). */
module Fitting {
  import opened Sequences
  import opened Diff

  predicate Larger(a: int, b: int) {
    a >= b
  }

  /** The files from largest to smallest, equal sizes in their original order. */
  function BySize(sizes: seq<int>): (order: seq<nat>)
    ensures |order| == |sizes| && Within(order, |sizes|)
    ensures multiset(order) == multiset(Upto(|sizes|))
  {
    StableOrder(sizes, Larger, Upto(|sizes|))
  }

  /** How many of these sizes, largest first, are dropped before the rest fits. */
  function Drops(sizes: seq<int>, budget: int): (d: nat)
    ensures d <= |sizes|
    ensures sizes != [] ==> d < |sizes|
  {
    if Sum(sizes) > budget && |sizes| > 1 then 1 + Drops(sizes[1..], budget) else 0
  }

  function SortedSizes(sizes: seq<int>): (sorted: seq<int>)
    ensures |sorted| == |sizes|
  {
    At(sizes, BySize(sizes))
  }

  /** The indices kept, largest first. */
  function KeptOrder(sizes: seq<int>, budget: int): (order: seq<nat>)
    ensures Within(order, |sizes|)
  {
    BySize(sizes)[Drops(SortedSizes(sizes), budget)..]
  }

  function DroppedOrder(sizes: seq<int>, budget: int): (order: seq<nat>)
    ensures Within(order, |sizes|)
  {
    BySize(sizes)[..Drops(SortedSizes(sizes), budget)]
  }

  lemma {:induction false} SumHead(xs: seq<int>)
    requires xs != []
    ensures Sum(xs) == xs[0] + Sum(xs[1..])
  {
    SumConcat([xs[0]], xs[1..]);
    assert xs == [xs[0]] + xs[1..];
    assert [xs[0]][..0] == [];
  }

  /** The loop's step: the next largest file moves from the kept to the dropped. */
  lemma {:induction false} DropOne(files: seq<DiffFile>, sizes: seq<int>, order: seq<nat>, d: nat)
    requires |sizes| == |files| && Within(order, |sizes|) && d < |order|
    ensures At(sizes, order)[d..][1..] == At(sizes, order)[d + 1..]
    ensures Sum(At(sizes, order)[d..]) == sizes[order[d]] + Sum(At(sizes, order)[d + 1..])
    ensures order[d..][1..] == order[d + 1..]
    ensures Paths(At(files, order[..d + 1])) == Paths(At(files, order[..d])) + [files[order[d]].path]
  {
    SumHead(At(sizes, order)[d..]);
    assert order[..d + 1] == order[..d] + [order[d]];
    assert At(files, order[..d + 1]) == At(files, order[..d]) + [files[order[d]]];
  }

  /** The while loop: pop the largest until the total fits or one file is left. */
  method DropLargest(files: seq<DiffFile>, sizes: seq<int>, order: seq<nat>, start: int, budget: int)
    returns (bySize: seq<nat>, total: int, dropped: seq<string>)
    requires |sizes| == |files| && Within(order, |sizes|) && start == Sum(At(sizes, order))
    ensures var d := Drops(At(sizes, order), budget);
            bySize == order[d..] && total == Sum(At(sizes, order)[d..]) && dropped == Paths(At(files, order[..d]))
  {
    ghost var sorted, d := At(sizes, order), 0;
    bySize, total, dropped := order, start, [];
    assert sorted[0..] == sorted;
    while total > budget && |bySize| > 1
      invariant 0 <= d <= |order| && bySize == order[d..]
      invariant total == Sum(sorted[d..])
      invariant dropped == Paths(At(files, order[..d]))
      invariant Drops(sorted, budget) == d + Drops(sorted[d..], budget)
      decreases |bySize|
    {
      DropOne(files, sizes, order, d);
      dropped := dropped + [files[bySize[0]].path];
      total := total - sizes[bySize[0]];
      bySize := bySize[1..];
      d := d + 1;
    }
  }

  method FitToBudget(files: seq<DiffFile>, sizes: seq<int>, budget: int)
    returns (kept: seq<DiffFile>, total: int, dropped: seq<string>)
    requires |sizes| == |files|
    ensures kept == At(files, KeptOrder(sizes, budget))
    ensures total == Sum(At(sizes, KeptOrder(sizes, budget)))
    ensures dropped == Paths(At(files, DroppedOrder(sizes, budget)))
  {
    var bySize := BySize(sizes);
    SortingKeepsTheTotal(sizes);
    bySize, total, dropped := DropLargest(files, sizes, bySize, Sum(sizes), budget);
    kept := At(files, bySize);
    assert At(sizes, KeptOrder(sizes, budget)) == SortedSizes(sizes)[Drops(SortedSizes(sizes), budget)..];
  }

  lemma {:induction false} SortingKeepsTheTotal(sizes: seq<int>)
    ensures Sum(SortedSizes(sizes)) == Sum(sizes)
  {
    StableOrderAt(sizes, Larger, Upto(|sizes|), sizes);
    assert At(sizes, Upto(|sizes|)) == sizes;
    SumPermuted(SortedSizes(sizes), sizes);
  }

  function Paths(files: seq<DiffFile>): (paths: seq<string>)
    ensures |paths| == |files|
  {
    Mapped((f: DiffFile) => f.path, files)
  }

  // ---------------------------------------------------------------- largest first keeps the most files

  lemma {:induction false} DropsAre(sizes: seq<int>, budget: int)
    ensures var d := Drops(sizes, budget); Sum(sizes[d..]) <= budget || |sizes| - d <= 1
    ensures forall e :: 0 <= e < Drops(sizes, budget) ==> Sum(sizes[e..]) > budget && |sizes| - e > 1
  {
    assert sizes[0..] == sizes;
    if Sum(sizes) > budget && |sizes| > 1 {
      DropsAre(sizes[1..], budget);
      var d := Drops(sizes[1..], budget);
      assert sizes[1..][d..] == sizes[d + 1..];
      forall e | 0 <= e < d + 1
        ensures Sum(sizes[e..]) > budget && |sizes| - e > 1
      {
        if e > 0 {
          assert sizes[1..][e - 1..] == sizes[e..];
        }
      }
    }
  }

  /** What a choice of positions weighs, and how many it makes. */
  function Chosen(sizes: seq<int>, mask: seq<bool>): seq<int>
    requires |mask| == |sizes|
  {
    seq(|sizes|, i requires 0 <= i < |sizes| => if mask[i] then sizes[i] else 0)
  }

  function Ones(mask: seq<bool>): (ones: seq<int>)
    ensures |ones| == |mask|
  {
    seq(|mask|, i requires 0 <= i < |mask| => if mask[i] then 1 else 0)
  }

  ghost predicate Descending(sizes: seq<int>) {
    forall i, j :: 0 <= i < j < |sizes| ==> sizes[i] >= sizes[j]
  }

  lemma {:induction false} OnesBound(mask: seq<bool>)
    ensures 0 <= Sum(Ones(mask)) <= |mask|
  {
    if mask != [] {
      OnesBound(mask[..|mask| - 1]);
      assert Ones(mask)[..|mask| - 1] == Ones(mask[..|mask| - 1]);
    }
  }

  lemma {:induction false} HeadChosen(sizes: seq<int>, mask: seq<bool>)
    requires |mask| == |sizes| > 0
    ensures Sum(Ones(mask)) == (if mask[0] then 1 else 0) + Sum(Ones(mask[1..]))
    ensures Sum(Chosen(sizes, mask)) == (if mask[0] then sizes[0] else 0) + Sum(Chosen(sizes[1..], mask[1..]))
  {
    SumHead(Ones(mask));
    SumHead(Chosen(sizes, mask));
    assert Ones(mask)[1..] == Ones(mask[1..]);
    assert Chosen(sizes, mask)[1..] == Chosen(sizes[1..], mask[1..]);
  }

  /** The sum of the last `m`. */
  function Last(sizes: seq<int>, m: nat): int
    requires m <= |sizes|
  {
    Sum(sizes[|sizes| - m..])
  }

  lemma {:induction false} LastShifts(sizes: seq<int>, m: nat)
    requires m < |sizes|
    ensures Last(sizes, m) == Last(sizes[1..], m)
    ensures Last(sizes, m + 1) == sizes[|sizes| - m - 1] + Last(sizes[1..], m)
  {
    assert sizes[1..][|sizes| - 1 - m..] == sizes[|sizes| - m..];
    SumHead(sizes[|sizes| - (m + 1)..]);
    assert sizes[|sizes| - (m + 1)..][1..] == sizes[|sizes| - m..];
  }

  /** The exchange: any m of the sizes weigh at least as much as the m smallest. */
  lemma {:induction false} SmallestWeighLeast(sizes: seq<int>, mask: seq<bool>)
    requires |mask| == |sizes| && Descending(sizes)
    ensures 0 <= Sum(Ones(mask)) <= |sizes|
    ensures Sum(Chosen(sizes, mask)) >= Last(sizes, Sum(Ones(mask)))
  {
    OnesBound(mask);
    if sizes != [] {
      var m := Sum(Ones(mask[1..]));
      OnesBound(mask[1..]);
      SmallestWeighLeast(sizes[1..], mask[1..]);
      HeadChosen(sizes, mask);
      LastShifts(sizes, m);
      assert sizes[0] >= sizes[|sizes| - m - 1];
    }
  }

  /** A set of files, as a mask over the files from largest to smallest. */
  function MaskOf(order: seq<nat>, chosen: set<nat>): (mask: seq<bool>)
    ensures |mask| == |order|
  {
    seq(|order|, p requires 0 <= p < |order| => order[p] in chosen)
  }

  /** The total size of a set of files. */
  function Weight(sizes: seq<int>, chosen: set<nat>): int {
    Sum(Chosen(sizes, MaskOf(Upto(|sizes|), chosen)))
  }

  lemma {:induction false} OneMoreChosen(n: nat, chosen: set<nat>)
    requires n > 0
    ensures Ones(MaskOf(Upto(n), chosen))
         == Ones(MaskOf(Upto(n - 1), chosen - {n - 1})) + [if n - 1 in chosen then 1 else 0]
  {
  }

  lemma {:induction false} CountChosen(n: nat, chosen: set<nat>)
    requires forall i <- chosen :: i < n
    ensures Sum(Ones(MaskOf(Upto(n), chosen))) == |chosen|
  {
    if n == 0 {
      assert chosen == {};
    } else {
      var below := chosen - {n - 1};
      CountChosen(n - 1, below);
      OneMoreChosen(n, chosen);
      if n - 1 in chosen {
        assert chosen == below + {n - 1};
      } else {
        assert chosen == below;
      }
    }
  }

  /** Rearranging the files changes neither what a set weighs nor how many it has. */
  lemma {:induction false} MaskRearranged(sizes: seq<int>, chosen: set<nat>)
    ensures Sum(Ones(MaskOf(BySize(sizes), chosen))) == Sum(Ones(MaskOf(Upto(|sizes|), chosen)))
    ensures Sum(Chosen(SortedSizes(sizes), MaskOf(BySize(sizes), chosen))) == Weight(sizes, chosen)
  {
    var order := BySize(sizes);
    var mask := MaskOf(Upto(|sizes|), chosen);
    SumBySize(sizes, Ones(mask));
    SumBySize(sizes, Chosen(sizes, mask));
    assert Ones(MaskOf(order, chosen)) == At(Ones(mask), order);
    assert Chosen(SortedSizes(sizes), MaskOf(order, chosen)) == At(Chosen(sizes, mask), order);
  }

  lemma {:induction false} BySizeRearranges<V>(sizes: seq<int>, values: seq<V>)
    requires |values| == |sizes|
    ensures multiset(At(values, BySize(sizes))) == multiset(values)
  {
    StableOrderAt(sizes, Larger, Upto(|sizes|), values);
    assert At(values, Upto(|sizes|)) == values;
  }

  lemma {:induction false} SumBySize(sizes: seq<int>, values: seq<int>)
    requires |values| == |sizes|
    ensures Sum(At(values, BySize(sizes))) == Sum(values)
  {
    BySizeRearranges(sizes, values);
    SumPermuted(At(values, BySize(sizes)), values);
  }

  lemma {:induction false} SortedDescend(sizes: seq<int>)
    ensures Descending(SortedSizes(sizes))
  {
    StableOrderOrdered(sizes, Larger, Upto(|sizes|));
    var order := BySize(sizes);
    forall i, j | 0 <= i < j < |sizes|
      ensures SortedSizes(sizes)[i] >= SortedSizes(sizes)[j]
    {
      assert Precedes(sizes, Larger, order[i], order[j]);
    }
  }

  /** No set of files that fits the budget has more files than are kept (as long as any are): dropping
      largest first keeps the most files possible.  What is kept fits, unless one file is left. */
  lemma {:induction false} LargestFirstIsOptimal(sizes: seq<int>, budget: int, chosen: set<nat>)
    requires forall i <- chosen :: i < |sizes|
    requires chosen != {} && Weight(sizes, chosen) <= budget
    ensures |chosen| <= |KeptOrder(sizes, budget)|
  {
    var sorted, mask := SortedSizes(sizes), MaskOf(BySize(sizes), chosen);
    MaskRearranged(sizes, chosen);
    CountChosen(|sizes|, chosen);
    SortedDescend(sizes);
    SmallestWeighLeast(sorted, mask);
    DropsAre(sorted, budget);
  }

  lemma {:induction false} KeptFits(sizes: seq<int>, budget: int)
    requires sizes != []
    ensures |KeptOrder(sizes, budget)| >= 1
    ensures Sum(At(sizes, KeptOrder(sizes, budget))) <= budget || |KeptOrder(sizes, budget)| == 1
  {
    var sorted, order := SortedSizes(sizes), BySize(sizes);
    var d := Drops(sorted, budget);
    DropsAre(sorted, budget);
    assert At(sizes, order[d..]) == sorted[d..];
  }

  /** What is dropped is the largest: a dropped file is larger than every kept one, or as large and before it. */
  lemma {:induction false} LargestAreDropped(sizes: seq<int>, budget: int, p: nat, q: nat)
    requires p < |DroppedOrder(sizes, budget)| && q < |KeptOrder(sizes, budget)|
    ensures var dropped, kept := DroppedOrder(sizes, budget)[p], KeptOrder(sizes, budget)[q];
            sizes[dropped] > sizes[kept] || (sizes[dropped] == sizes[kept] && dropped < kept)
  {
    var order, d := BySize(sizes), Drops(SortedSizes(sizes), budget);
    StableOrderOrdered(sizes, Larger, Upto(|sizes|));
    assert Precedes(sizes, Larger, order[p], order[d + q]);
  }

  lemma {:induction false} SortedFrom(sizes: seq<int>, order: seq<nat>, d: nat)
    requires Within(order, |sizes|) && 0 < d <= |order|
    ensures Sum(At(sizes, order)[d - 1..]) == sizes[order[d - 1]] + Sum(At(sizes, order[d..]))
  {
    var sorted := At(sizes, order);
    SumHead(sorted[d - 1..]);
    assert sorted[d - 1..][1..] == At(sizes, order[d..]);
  }

  /** And no more than needed: with the last one dropped, what is kept would be over the budget. */
  lemma {:induction false} NoneTooMany(sizes: seq<int>, budget: int)
    requires DroppedOrder(sizes, budget) != []
    ensures var dropped := DroppedOrder(sizes, budget);
            sizes[dropped[|dropped| - 1]] + Sum(At(sizes, KeptOrder(sizes, budget))) > budget
  {
    LastDropNeeded(SortedSizes(sizes), budget);
    SortedFrom(sizes, BySize(sizes), Drops(SortedSizes(sizes), budget));
  }

  lemma {:induction false} LastDropNeeded(sizes: seq<int>, budget: int)
    requires Drops(sizes, budget) > 0
    ensures Sum(sizes[Drops(sizes, budget) - 1..]) > budget
  {
    DropsAre(sizes, budget);
  }

  /** Kept and dropped are all the files, each once. */
  lemma {:induction false} KeptAndDropped<V>(sizes: seq<int>, budget: int, values: seq<V>)
    requires |values| == |sizes|
    ensures multiset(At(values, DroppedOrder(sizes, budget))) + multiset(At(values, KeptOrder(sizes, budget)))
         == multiset(values)
  {
    var order := BySize(sizes);
    BySizeRearranges(sizes, values);
    assert At(values, order) == At(values, DroppedOrder(sizes, budget)) + At(values, KeptOrder(sizes, budget));
  }
}
