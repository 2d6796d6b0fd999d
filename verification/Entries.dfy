/** Splitting a diff into file entries (`_split_file_entries`, src/reviewhive/diff/parser.py). */
module Entries {
  const MARK := "diff --git "

  /** `^diff --git ` in MULTILINE mode matches at position `p`. */
  predicate Boundary(text: string, p: nat) {
    && p + |MARK| <= |text|
    && text[p..p + |MARK|] == MARK
    && (p == 0 || text[p - 1] == '\n')
  }

  function BoundariesBelow(text: string, n: nat): seq<nat> {
    if n == 0 then []
    else BoundariesBelow(text, n - 1) + (if Boundary(text, n - 1) then [n - 1] else [])
  }

  function Boundaries(text: string): seq<nat> {
    BoundariesBelow(text, |text|)
  }

  function ChunksFrom(text: string, bounds: seq<nat>): seq<string>
    requires forall i :: 0 <= i < |bounds| ==> bounds[i] <= |text|
    requires forall i, j :: 0 <= i < j < |bounds| ==> bounds[i] <= bounds[j]
  {
    seq(if |bounds| == 0 then 0 else |bounds| - 1,
        i requires 0 <= i < |bounds| - 1 => text[bounds[i]..bounds[i + 1]])
  }

  function SplitFileEntries(text: string): seq<string> {
    var boundaries := Boundaries(text);
    if boundaries == [] then [text]
    else BoundariesAre(text, |text|); ChunksFrom(text, boundaries + [|text|])
  }

  lemma {:induction false} BoundariesAre(text: string, n: nat)
    ensures var r := BoundariesBelow(text, n);
            && (forall p: nat :: p in r <==> p < n && Boundary(text, p))
            && (forall i :: 0 <= i < |r| ==> r[i] < n && Boundary(text, r[i]))
            && (forall i, j :: 0 <= i < j < |r| ==> r[i] < r[j])
  {
    if n > 0 {
      BoundariesAre(text, n - 1);
      var r := BoundariesBelow(text, n - 1);
      forall p: nat
        ensures p in BoundariesBelow(text, n) <==> p < n && Boundary(text, p)
      {
        assert p in r <==> p < n - 1 && Boundary(text, p);
      }
    }
  }

  function Concat(chunks: seq<string>): string {
    if chunks == [] then "" else Concat(chunks[..|chunks| - 1]) + chunks[|chunks| - 1]
  }

  lemma {:induction false} ChunksConcat(text: string, bounds: seq<nat>)
    requires bounds != []
    requires forall i :: 0 <= i < |bounds| ==> bounds[i] <= |text|
    requires forall i, j :: 0 <= i < j < |bounds| ==> bounds[i] <= bounds[j]
    ensures Concat(ChunksFrom(text, bounds)) == text[bounds[0]..bounds[|bounds| - 1]]
  {
    var n := |bounds| - 1;
    if n > 0 {
      var chunks := ChunksFrom(text, bounds);
      ChunksConcat(text, bounds[..n]);
      assert chunks[..n - 1] == ChunksFrom(text, bounds[..n]);
      assert text[bounds[0]..bounds[n]] == text[bounds[0]..bounds[n - 1]] + text[bounds[n - 1]..bounds[n]];
    }
  }

  /** A slice from one boundary to the next (or to the end) is one entry and not two. */
  lemma {:induction false} OneEntry(text: string, from: nat, to: nat)
    requires from < to <= |text| && Boundary(text, from)
    requires to == |text| || Boundary(text, to)
    requires forall p :: from < p < to ==> !Boundary(text, p)
    ensures forall p :: Boundary(text[from..to], p) <==> p == 0
  {
    var chunk := text[from..to];
    assert forall i :: 0 <= i < |MARK| ==> MARK[i] != '\n' && text[from..from + |MARK|][i] == text[from + i];
    assert forall i :: from <= i < from + |MARK| ==> text[i] == text[from + (i - from)] && text[i] != '\n';
    assert chunk[..|MARK|] == text[from..from + |MARK|];
    assert Boundary(chunk, 0);
    forall p: nat | 0 < p && Boundary(chunk, p)
      ensures false
    {
      BoundaryInSlice(text, from, to, p);
    }
  }

  lemma {:induction false} BoundaryInSlice(text: string, from: nat, to: nat, p: nat)
    requires from < to <= |text| && 0 < p && Boundary(text[from..to], p)
    ensures p < to - from && Boundary(text, from + p)
  {
    var chunk := text[from..to];
    SliceOfSlice(text, from, to, p, p + |MARK|);
    assert text[from + p - 1] == chunk[p - 1];
  }

  lemma SliceOfSlice(text: string, from: nat, to: nat, p: nat, q: nat)
    requires from <= to <= |text| && p <= q <= to - from
    ensures text[from..to][p..q] == text[from + p..from + q]
  {
    var outer, inner := text[from..to], text[from + p..from + q];
    assert forall i :: 0 <= i < q - p ==> outer[p..q][i] == outer[p + i] == text[from + (p + i)] == inner[i];
  }

  lemma {:induction false} EntryHoldsOneBoundary(text: string, b: seq<nat>, k: nat)
    requires b == Boundaries(text) && k < |b|
    ensures var bounds := b + [|text|];
            bounds[k] <= bounds[k + 1] <= |text| && Boundaries(text[bounds[k]..bounds[k + 1]]) == [0]
  {
    BoundariesAre(text, |text|);
    var bounds := b + [|text|];
    forall p | bounds[k] < p < bounds[k + 1]
      ensures !Boundary(text, p)
    {
      assert forall j :: 0 <= j < |b| ==> b[j] <= bounds[k] || bounds[k + 1] <= b[j];
      assert p !in b;
    }
    OneEntry(text, bounds[k], bounds[k + 1]);
    var chunk := text[bounds[k]..bounds[k + 1]];
    BoundariesAre(chunk, |chunk|);
    OnlyZero(Boundaries(chunk));
  }

  lemma {:induction false} OnlyZero(r: seq<nat>)
    requires forall p: nat :: p in r <==> p == 0
    requires forall i, j :: 0 <= i < j < |r| ==> r[i] < r[j]
    ensures r == [0]
  {
    assert 0 in r;
    assert r[0] in r && r[|r| - 1] in r;
  }

  /** An entry starts exactly where a line starts with `diff --git `. */
  lemma {:induction false} StartsExactly(text: string, p: nat)
    ensures p in Boundaries(text)
        <==> p < |text| && "diff --git " <= text[p..] && (p == 0 || text[p - 1] == '\n')
  {
    BoundariesAre(text, |text|);
    if p < |text| && |MARK| <= |text[p..]| {
      assert text[p..][..|MARK|] == text[p..p + |MARK|];
    }
  }

  lemma {:induction false} FirstBoundary(text: string)
    ensures Boundaries(text) == [] ==> forall p :: !Boundary(text, p)
    ensures Boundaries(text) != [] ==> Boundary(text, Boundaries(text)[0])
    ensures Boundaries(text) != [] ==> forall p | 0 <= p < Boundaries(text)[0] :: !Boundary(text, p)
  {
    var b := Boundaries(text);
    BoundariesAre(text, |text|);
    forall p: nat | Boundary(text, p)
      ensures b != [] && b[0] <= p
    {
      assert p in b;
    }
  }

  lemma {:induction false} EntriesAre(text: string, k: nat)
    requires k < |Boundaries(text)|
    ensures |SplitFileEntries(text)| == |Boundaries(text)|
    ensures var bounds := Boundaries(text) + [|text|];
            bounds[k] <= bounds[k + 1] <= |text| && SplitFileEntries(text)[k] == text[bounds[k]..bounds[k + 1]]
  {
    BoundariesAre(text, |text|);
    var b, bounds := Boundaries(text), Boundaries(text) + [|text|];
    assert forall i :: 0 <= i < |b| ==> bounds[i] == b[i] && b[i] < |text|;
    ChunkAt(text, bounds, k);
  }

  lemma {:induction false} ChunkAt(text: string, bounds: seq<nat>, k: nat)
    requires forall i :: 0 <= i < |bounds| ==> bounds[i] <= |text|
    requires forall i, j :: 0 <= i < j < |bounds| ==> bounds[i] <= bounds[j]
    requires k + 1 < |bounds|
    ensures |ChunksFrom(text, bounds)| == |bounds| - 1
    ensures ChunksFrom(text, bounds)[k] == text[bounds[k]..bounds[k + 1]]
  {
  }

  lemma {:induction false} EntriesHoldOneBoundary(text: string, k: nat)
    requires k < |Boundaries(text)|
    ensures |SplitFileEntries(text)| == |Boundaries(text)| && Boundaries(SplitFileEntries(text)[k]) == [0]
  {
    EntriesAre(text, k);
    EntryHoldsOneBoundary(text, Boundaries(text), k);
  }

  lemma {:induction false} EntriesConcat(text: string)
    requires Boundaries(text) != []
    ensures Boundaries(text)[0] <= |text| && Concat(SplitFileEntries(text)) == text[Boundaries(text)[0]..]
  {
    BoundariesAre(text, |text|);
    ChunksConcat(text, Boundaries(text) + [|text|]);
  }

  /** The split is lossless and exact: the entries give back the text from the first boundary on (all of
      it when there is none), and each holds exactly one boundary, at its start. */
  lemma {:induction false} SplitIsLossless(text: string)
    ensures var chunks, b := SplitFileEntries(text), Boundaries(text);
            && (b == [] ==> chunks == [text] && forall p :: !Boundary(text, p))
            && (b != [] ==>
                  && Boundary(text, b[0]) && (forall p | 0 <= p < b[0] :: !Boundary(text, p))
                  && Concat(chunks) == text[b[0]..]
                  && |chunks| == |b|
                  && forall k :: 0 <= k < |chunks| ==> Boundaries(chunks[k]) == [0])
  {
    FirstBoundary(text);
    if Boundaries(text) != [] {
      EntriesConcat(text);
      EntriesAre(text, 0);
      forall k | 0 <= k < |Boundaries(text)|
        ensures Boundaries(SplitFileEntries(text)[k]) == [0]
      {
        EntriesHoldOneBoundary(text, k);
      }
    }
  }
}
