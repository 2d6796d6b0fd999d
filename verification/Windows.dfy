/** The evidence shown around a claim (`DiffFile.window`, src/reviewhive/diff/parser.py). */
module Windows {
  import opened Models
  import opened Sequences
  import opened Diff

  predicate InRange(number: Option<nat>, low: int, high: int) {
    number.Some? && low <= number.value <= high
  }

  /** The positions of the in-range lines, ascending. */
  function InRangeIndices(numbered: seq<Numbered>, low: int, high: int): seq<nat> {
    if numbered == [] then []
    else
      var n := |numbered| - 1;
      InRangeIndices(numbered[..n], low, high) + (if InRange(numbered[n].number, low, high) then [n] else [])
  }

  lemma {:induction false} InRangeIndicesAre(numbered: seq<Numbered>, low: int, high: int)
    ensures var r := InRangeIndices(numbered, low, high);
            && (r != [] ==>
                  && r[0] <= r[|r| - 1] < |numbered|
                  && InRange(numbered[r[0]].number, low, high)
                  && InRange(numbered[r[|r| - 1]].number, low, high))
            && (forall i :: 0 <= i < |numbered| && InRange(numbered[i].number, low, high) ==>
                  r != [] && r[0] <= i <= r[|r| - 1])
  {
    if numbered != [] {
      var n := |numbered| - 1;
      InRangeIndicesAre(numbered[..n], low, high);
      var before := InRangeIndices(numbered[..n], low, high);
      assert forall i :: 0 <= i < n ==> numbered[..n][i] == numbered[i];
      assert InRangeIndices(numbered, low, high)
          == before + (if InRange(numbered[n].number, low, high) then [n] else []);
    }
  }

  /** One hunk's contribution: from its first in-range line to its last, everything between included. */
  function Segment(hunk: DiffHunk, low: int, high: int): Option<seq<Numbered>> {
    var r := InRangeIndices(hunk.numbered, low, high);
    if r == [] then None
    else InRangeIndicesAre(hunk.numbered, low, high); Some(hunk.numbered[r[0]..r[|r| - 1] + 1])
  }

  function Segments(hunks: seq<DiffHunk>, low: int, high: int): seq<Option<seq<Numbered>>> {
    seq(|hunks|, i requires 0 <= i < |hunks| => Segment(hunks[i], low, high))
  }

  /** The segments `window` joins with its gap marker. */
  function WindowOf(file: DiffFile, line: int, radius: int): seq<seq<Numbered>> {
    Kept(Segments(file.hunks, line - radius, line + radius))
  }

  /** What stands between two segments, so that they do not read as adjacent code. */
  function Gap(): string {
    "\n[reviewHive: lines omitted]\n"
  }

  function Texts(segments: seq<seq<Numbered>>): (texts: seq<string>)
    ensures |texts| == |segments|
  {
    seq(|segments|, i requires 0 <= i < |segments| => Joined(segments[i]))
  }

  function JoinedByGaps(texts: seq<string>): string {
    if texts == [] then ""
    else if |texts| == 1 then texts[0]
    else JoinedByGaps(texts[..|texts| - 1]) + Gap() + texts[|texts| - 1]
  }

  /** What `window` returns. */
  function WindowText(file: DiffFile, line: int, radius: int): string {
    JoinedByGaps(Texts(WindowOf(file, line, radius)))
  }

  function SegmentText(segment: Option<seq<Numbered>>): Option<string> {
    if segment.None? then None else Some(Joined(segment.value))
  }

  lemma {:induction false} TextsOneMore(all: seq<Option<seq<Numbered>>>, i: nat)
    requires i < |all|
    ensures Texts(Kept(all[..i + 1]))
         == Texts(Kept(all[..i])) + AsList(SegmentText(all[i]))
  {
    KeptOneMore(all, i);
  }

  /** The loop's body: one hunk's contribution, if it has any line in range. */
  method Span(hunk: DiffHunk, low: int, high: int) returns (text: Option<string>)
    ensures text == SegmentText(Segment(hunk, low, high))
  {
    var inRange := InRangeIndices(hunk.numbered, low, high);
    if inRange == [] {
      return None;
    }
    InRangeIndicesAre(hunk.numbered, low, high);
    text := Some(Joined(hunk.numbered[inRange[0]..inRange[|inRange| - 1] + 1]));
  }

  function SegmentTexts(all: seq<Option<seq<Numbered>>>): (texts: seq<Option<string>>)
    ensures |texts| == |all| && forall i :: 0 <= i < |all| ==> texts[i] == SegmentText(all[i])
  {
    seq(|all|, i requires 0 <= i < |all| => SegmentText(all[i]))
  }

  lemma {:induction false} TextsAreKept(all: seq<Option<seq<Numbered>>>)
    ensures Kept(SegmentTexts(all)) == Texts(Kept(all))
  {
    if all != [] {
      var n := |all| - 1;
      TextsAreKept(all[..n]);
      TextsOneMore(all, n);
      assert all[..n + 1] == all && SegmentTexts(all)[..n] == SegmentTexts(all[..n]);
    }
  }

  /** The loop over the hunks, given the text of each. */
  method Spans(hunks: seq<DiffHunk>, low: int, high: int, ghost texts: seq<Option<string>>)
    returns (segments: seq<string>)
    requires |texts| == |hunks|
    requires forall i :: 0 <= i < |hunks| ==> texts[i] == SegmentText(Segment(hunks[i], low, high))
    ensures segments == Kept(texts)
  {
    segments := [];
    for i := 0 to |hunks|
      invariant segments == Kept(texts[..i])
    {
      var span := Span(hunks[i], low, high);
      KeptOneMore(texts, i);
      segments := segments + AsList(span);
    }
    assert texts[..|hunks|] == texts;
  }

  method Window(file: DiffFile, line: int, radius: int) returns (text: string)
    ensures text == WindowText(file, line, radius)
  {
    var low, high := line - radius, line + radius;
    ghost var all := Segments(file.hunks, low, high);
    TextsAreKept(all);
    var segments := Spans(file.hunks, low, high, SegmentTexts(all));
    text := JoinedByGaps(segments);
  }

  /** In a hunk whose gutter ascends, the segment is one contiguous slice, and among the numbered
      lines of the hunk it shows exactly those in range. */
  lemma {:induction false} SegmentShowsTheRange(hunk: DiffHunk, low: int, high: int) returns (first: nat, end: nat)
    requires Ascending(hunk.numbered)
    ensures Segment(hunk, low, high).None? <==> forall n <- Numbers(hunk.numbered) :: !(low <= n <= high)
    ensures Segment(hunk, low, high).Some? ==>
              && first < end <= |hunk.numbered|
              && Segment(hunk, low, high).value == hunk.numbered[first..end]
              && forall i :: 0 <= i < |hunk.numbered| && hunk.numbered[i].number.Some? ==>
                   (first <= i < end <==> InRange(hunk.numbered[i].number, low, high))
  {
    var numbered := hunk.numbered;
    var r := InRangeIndices(numbered, low, high);
    InRangeIndicesAre(numbered, low, high);
    first, end := 0, 0;
    if r == [] {
      forall n | n in Numbers(numbered)
        ensures !(low <= n <= high)
      {
        NumbersAre(numbered, n);
        var i :| 0 <= i < |numbered| && numbered[i].number == Some(n);
        assert !InRange(numbered[i].number, low, high);
      }
    } else {
      first, end := r[0], r[|r| - 1] + 1;
      assert numbered[first] in numbered;
      assert numbered[first].number.value as int in Numbers(numbered);
    }
  }

  /** A wider window shows at least as much: every segment grows at both ends. */
  lemma {:induction false} WindowGrows(hunk: DiffHunk, line: int, small: int, large: int)
    returns (a: nat, b: nat, c: nat, d: nat)
    requires small <= large
    requires Segment(hunk, line - small, line + small).Some?
    ensures a <= b < c <= d <= |hunk.numbered|
    ensures Segment(hunk, line - small, line + small) == Some(hunk.numbered[b..c])
    ensures Segment(hunk, line - large, line + large) == Some(hunk.numbered[a..d])
  {
    b, c := SegmentEnds(hunk, line - small, line + small);
    BoundsReach(hunk.numbered, line - small, line + small, line - large, line + large, b, c);
    SegmentHolds(hunk, line - large, line + large, b);
    a, d := SegmentEnds(hunk, line - large, line + large);
    BoundsGrow(hunk.numbered, line - large, line + large, a, b, c, d);
  }

  /** From the first in-range line to the last. */
  ghost predicate Bounds(numbered: seq<Numbered>, low: int, high: int, first: nat, end: nat) {
    && first < end <= |numbered|
    && InRange(numbered[first].number, low, high) && InRange(numbered[end - 1].number, low, high)
    && forall i :: 0 <= i < |numbered| && InRange(numbered[i].number, low, high) ==> first <= i < end
  }

  lemma {:induction false} SegmentEnds(hunk: DiffHunk, low: int, high: int) returns (first: nat, end: nat)
    requires Segment(hunk, low, high).Some?
    ensures Bounds(hunk.numbered, low, high, first, end)
    ensures Segment(hunk, low, high) == Some(hunk.numbered[first..end])
  {
    InRangeIndicesAre(hunk.numbered, low, high);
    var r := InRangeIndices(hunk.numbered, low, high);
    first, end := r[0], r[|r| - 1] + 1;
  }

  lemma {:induction false} SegmentHolds(hunk: DiffHunk, low: int, high: int, i: nat)
    requires i < |hunk.numbered| && InRange(hunk.numbered[i].number, low, high)
    ensures Segment(hunk, low, high).Some?
  {
    InRangeIndicesAre(hunk.numbered, low, high);
  }

  lemma BoundsReach(numbered: seq<Numbered>, low: int, high: int, lower: int, higher: int, first: nat, end: nat)
    requires lower <= low && high <= higher && Bounds(numbered, low, high, first, end)
    ensures InRange(numbered[first].number, lower, higher) && InRange(numbered[end - 1].number, lower, higher)
  {
  }

  lemma BoundsGrow(numbered: seq<Numbered>, low: int, high: int, a: nat, b: nat, c: nat, d: nat)
    requires Bounds(numbered, low, high, a, d) && b < c <= |numbered|
    requires InRange(numbered[b].number, low, high) && InRange(numbered[c - 1].number, low, high)
    ensures a <= b && c <= d
  {
  }

  /** The line numbered `line` appears in one of the segments. */
  ghost predicate Shows(segments: seq<seq<Numbered>>, line: int) {
    exists s, i :: 0 <= s < |segments| && 0 <= i < |segments[s]| && segments[s][i].number == Some(line)
  }

  lemma {:induction false} SegmentEmptyExactly(hunk: DiffHunk, line: int, radius: int)
    requires GutterAgrees(hunk)
    ensures Segment(hunk, line - radius, line + radius).None?
        <==> forall n <- hunk.added + hunk.context :: Distance(n, line) > radius
  {
    var _, _ := SegmentShowsTheRange(hunk, line - radius, line + radius);
  }

  lemma {:induction false} ShowsMore(a: seq<seq<Numbered>>, b: seq<seq<Numbered>>, line: int)
    requires Shows(a, line) || Shows(b, line)
    ensures Shows(a + b, line)
  {
    if Shows(a, line) {
      var s: nat, i: nat :| s < |a| && i < |a[s]| && a[s][i].number == Some(line);
      assert (a + b)[s][i].number == Some(line);
    } else {
      var s: nat, i: nat :| s < |b| && i < |b[s]| && b[s][i].number == Some(line);
      assert (a + b)[|a| + s][i].number == Some(line);
    }
  }

  lemma {:induction false} EmptyReachesNothing(file: DiffFile, line: int, radius: int, n: int)
    requires forall h <- file.hunks :: GutterAgrees(h)
    requires WindowOf(file, line, radius) == [] && n in AnchorableLines(file)
    ensures Distance(n, line) > radius
  {
    var all := Segments(file.hunks, line - radius, line + radius);
    var h :| h in file.hunks && n in h.added + h.context;
    var i :| 0 <= i < |file.hunks| && file.hunks[i] == h;
    KeptSelects(all);
    assert KeptAt(all)[i].None?;
    SegmentEmptyExactly(h, line, radius);
  }

  lemma {:induction false} ShowingReaches(file: DiffFile, line: int, radius: int) returns (n: int)
    requires forall h <- file.hunks :: GutterAgrees(h)
    requires WindowOf(file, line, radius) != []
    ensures n in AnchorableLines(file) && Distance(n, line) <= radius
  {
    var all := Segments(file.hunks, line - radius, line + radius);
    KeptSelects(all);
    var i :| 0 <= i < |all| && KeptAt(all)[i] == Some(0);
    var h := file.hunks[i];
    assert h in file.hunks && all[i].Some?;
    SegmentEmptyExactly(h, line, radius);
    n :| n in h.added + h.context && Distance(n, line) <= radius;
    assert n in AnchorableLines(file);
  }

  lemma {:induction false} WindowEmptyExactly(file: DiffFile, line: int, radius: int)
    requires forall h <- file.hunks :: GutterAgrees(h)
    ensures WindowOf(file, line, radius) == [] <==> forall n <- AnchorableLines(file) :: Distance(n, line) > radius
  {
    if WindowOf(file, line, radius) == [] {
      forall n | n in AnchorableLines(file)
        ensures Distance(n, line) > radius
      {
        EmptyReachesNothing(file, line, radius, n);
      }
    } else {
      var n := ShowingReaches(file, line, radius);
    }
  }

  ghost predicate Inked(lines: seq<Numbered>) {
    forall i :: 0 <= i < |lines| ==> lines[i].text != ""
  }

  /** Every rendered line has a gutter, and the header line is there only if it has text. */
  lemma {:induction false} RenderedAreInked(hunk: ParsedHunk)
    ensures Inked(HunkOf(hunk).numbered)
  {
    var tail := RenderedLines(hunk.lines);
    forall i | 0 <= i < |tail|
      ensures tail[i].text != ""
    {
      var gutter := Gutter(hunk.lines[i].target);
      assert gutter != [] && gutter[|gutter| - 1] == ' ';
      assert tail[i].text == gutter + hunk.lines[i].text;
    }
  }

  lemma {:induction false} JoinedInked(lines: seq<Numbered>)
    requires lines != [] && Inked(lines)
    ensures Joined(lines) != ""
  {
    assert Joined(lines) == Joined(lines[..|lines| - 1]) + lines[|lines| - 1].text;
  }

  lemma {:induction false} SegmentInked(hunk: DiffHunk, low: int, high: int)
    requires Inked(hunk.numbered)
    ensures SegmentText(Segment(hunk, low, high)) != Some("")
  {
    if Segment(hunk, low, high).Some? {
      InRangeIndicesAre(hunk.numbered, low, high);
      JoinedInked(Segment(hunk, low, high).value);
    }
  }

  lemma {:induction false} KeptInked(all: seq<Option<seq<Numbered>>>)
    requires forall i :: 0 <= i < |all| ==> SegmentText(all[i]) != Some("")
    ensures "" !in Texts(Kept(all))
  {
    if all != [] {
      var n := |all| - 1;
      KeptInked(all[..n]);
      TextsOneMore(all, n);
      assert all[..n + 1] == all;
      assert all[n].Some? ==> SegmentText(all[n]) == Some(Joined(all[n].value));
    }
  }

  lemma {:induction false} GapsEmptyExactly(texts: seq<string>)
    requires "" !in texts
    ensures JoinedByGaps(texts) == "" <==> texts == []
  {
    if texts != [] {
      assert texts[|texts| - 1] in texts;
    }
  }

  /** The window is the empty string exactly when the line reaches nothing. */
  lemma {:induction false} WindowTextEmptyExactly(file: DiffFile, line: int, radius: int)
    requires forall h <- file.hunks :: GutterAgrees(h) && Inked(h.numbered)
    ensures WindowText(file, line, radius) == "" <==> forall n <- AnchorableLines(file) :: Distance(n, line) > radius
  {
    WindowEmptyExactly(file, line, radius);
    WindowInked(file, line, radius);
    GapsEmptyExactly(Texts(WindowOf(file, line, radius)));
  }

  lemma {:induction false} WindowInked(file: DiffFile, line: int, radius: int)
    requires forall h <- file.hunks :: Inked(h.numbered)
    ensures "" !in Texts(WindowOf(file, line, radius))
  {
    var all := Segments(file.hunks, line - radius, line + radius);
    forall i | 0 <= i < |all|
      ensures SegmentText(all[i]) != Some("")
    {
      assert file.hunks[i] in file.hunks;
      SegmentInked(file.hunks[i], line - radius, line + radius);
    }
    KeptInked(all);
  }

  lemma {:induction false} AnchoringHunk(file: DiffFile, line: int) returns (k: nat, i: nat)
    requires forall h <- file.hunks :: GutterAgrees(h)
    requires line in AnchorableLines(file)
    ensures k < |file.hunks| && GutterAgrees(file.hunks[k])
    ensures i < |file.hunks[k].numbered| && file.hunks[k].numbered[i].number == Some(line)
  {
    var h :| h in file.hunks && line in h.added + h.context;
    k :| 0 <= k < |file.hunks| && file.hunks[k] == h;
    NumbersAre(h.numbered, line);
    i :| 0 <= i < |h.numbered| && h.numbered[i].number == Some(line);
  }

  lemma {:induction false} SegmentShowsTheLine(hunk: DiffHunk, line: int, radius: nat,
                                               i: nat) returns (s: seq<Numbered>, j: nat)
    requires GutterAgrees(hunk)
    requires i < |hunk.numbered| && hunk.numbered[i].number == Some(line)
    ensures Segment(hunk, line - radius, line + radius) == Some(s)
    ensures j < |s| && s[j].number == Some(line)
  {
    var low, high := line - radius, line + radius;
    var first, end := SegmentShowsTheRange(hunk, low, high);
    assert InRange(hunk.numbered[i].number, low, high);
    NumbersAre(hunk.numbered, line);
    s := Segment(hunk, low, high).value;
    j := i - first;
  }

  /** A claim anchored to a real line is shown that line, exactly when the radius is not negative. */
  lemma {:induction false} WindowShowsTheAnchor(file: DiffFile, line: int, radius: int)
    requires forall h <- file.hunks :: GutterAgrees(h)
    requires line in AnchorableLines(file)
    ensures Shows(WindowOf(file, line, radius), line) <==> radius >= 0
  {
    if radius < 0 {
      WindowEmptyExactly(file, line, radius);
    } else {
      var k, i := AnchoringHunk(file, line);
      var s, j := SegmentShowsTheLine(file.hunks[k], line, radius, i);
      var all := Segments(file.hunks, line - radius, line + radius);
      KeptSelects(all);
      assert all[k] == Some(s);
      var at: nat := KeptAt(all)[k].value;
      assert Kept(all)[at] == s;
    }
  }

  /** All the numbered lines of a file, hunk after hunk. */
  function WholeFile(hunks: seq<DiffHunk>): seq<seq<Numbered>> {
    seq(|hunks|, i requires 0 <= i < |hunks| => hunks[i].numbered)
  }

  lemma {:induction false} WholeFileShowsTheAnchor(file: DiffFile, line: int)
    requires forall h <- file.hunks :: GutterAgrees(h)
    requires line in AnchorableLines(file)
    ensures Shows(WholeFile(file.hunks), line)
  {
    var k, i := AnchoringHunk(file, line);
    assert WholeFile(file.hunks)[k][i].number == Some(line);
  }
}
