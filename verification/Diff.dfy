/** Line bookkeeping over a parsed diff (src/reviewhive/diff/parser.py). */
module Diff {
  import opened Models
  import opened Sequences
  import Text

  datatype LineKind = Added | Context | Removed | NoNewline

  /** One line of a hunk as `unidiff` numbers it. */
  datatype HunkLine = HunkLine(kind: LineKind, target: Option<nat>, source: Option<nat>, text: string)

  datatype ParsedHunk = ParsedHunk(header: string, lines: seq<HunkLine>)

  /** A rendered line beside its new-file number. */
  datatype Numbered = Numbered(number: Option<nat>, text: string)

  datatype DiffHunk = DiffHunk(
    numberedText: string,
    added: set<int>,
    context: set<int>,
    removed: set<int>,
    numbered: seq<Numbered>)

  datatype DiffFile = DiffFile(
    path: string,
    header: string,
    hunks: seq<DiffHunk>,
    isBinary: bool,
    omittedHunks: nat,
    omittedLines: nat)

  // ---------------------------------------------------------------- numbering

  /** The unified format's numbering (POSIX.1-2017, diff, "Diff -u or -U Output Format"): context
      counts on both sides, an addition on the new side only, a removal on the old side only. */
  predicate NumberedFrom(lines: seq<HunkLine>, source: nat, target: nat) {
    lines != [] ==>
      var l, rest := lines[0], lines[1..];
      match l.kind
      case Added => l.target == Some(target) && l.source == None && NumberedFrom(rest, source, target + 1)
      case Context =>
        l.target == Some(target) && l.source == Some(source) && NumberedFrom(rest, source + 1, target + 1)
      case Removed => l.target == None && l.source == Some(source) && NumberedFrom(rest, source + 1, target)
      case NoNewline => l.target == None && l.source == None && NumberedFrom(rest, source, target)
  }

  ghost predicate WellFormed(hunk: ParsedHunk) {
    exists source: nat, target: nat :: NumberedFrom(hunk.lines, source, target)
  }

  function Spaces(n: int): string {
    if n <= 0 then "" else Spaces(n - 1) + " "
  }

  /** `f"{n:>5} "`, or six blanks for a line with no place in the new file. */
  function Gutter(number: Option<nat>): string {
    match number
    case None => "      "
    case Some(n) => var d := Text.Decimal(n); Spaces(5 - |d|) + d + " "
  }

  function Rendered(l: HunkLine): Numbered {
    Numbered(l.target, Gutter(l.target) + l.text)
  }

  function RenderedLines(lines: seq<HunkLine>): (r: seq<Numbered>)
    ensures |r| == |lines|
  {
    seq(|lines|, i requires 0 <= i < |lines| => Rendered(lines[i]))
  }

  function Joined(lines: seq<Numbered>): string {
    if lines == [] then "" else Joined(lines[..|lines| - 1]) + lines[|lines| - 1].text
  }

  function NumberedLines(hunk: ParsedHunk): seq<Numbered> {
    (if hunk.header == "" then [] else [Numbered(None, hunk.header)]) + RenderedLines(hunk.lines)
  }

  /** What one line adds to the numbers of a kind: new-file numbers, old-file ones for removals. */
  function Contribution(l: HunkLine, kind: LineKind): set<int> {
    var number := if kind.Removed? then l.source else l.target;
    if l.kind == kind && number.Some? then {number.value} else {}
  }

  function NumbersOf(lines: seq<HunkLine>, kind: LineKind): set<int> {
    if lines == [] then {}
    else NumbersOf(lines[..|lines| - 1], kind) + Contribution(lines[|lines| - 1], kind)
  }

  function HunkOf(hunk: ParsedHunk): DiffHunk {
    DiffHunk(
      Joined(NumberedLines(hunk)),
      NumbersOf(hunk.lines, Added),
      NumbersOf(hunk.lines, Context),
      NumbersOf(hunk.lines, Removed),
      NumberedLines(hunk))
  }

  lemma {:induction false} OneMoreLine(lines: seq<HunkLine>, i: nat, head: seq<Numbered>)
    requires i < |lines|
    ensures head + RenderedLines(lines[..i + 1]) == head + RenderedLines(lines[..i]) + [Rendered(lines[i])]
    ensures forall kind ::
      NumbersOf(lines[..i + 1], kind) == NumbersOf(lines[..i], kind) + Contribution(lines[i], kind)
  {
    assert lines[..i + 1][..i] == lines[..i];
  }

  /** Which of the three sets a line's number goes to. */
  method Tally(line: HunkLine, added: set<int>, context: set<int>, removed: set<int>)
    returns (a: set<int>, c: set<int>, r: set<int>)
    ensures a == added + Contribution(line, Added)
    ensures c == context + Contribution(line, Context)
    ensures r == removed + Contribution(line, Removed)
  {
    a, c, r := added, context, removed;
    if line.kind.Added? && line.target.Some? {
      a := a + {line.target.value};
    } else if line.kind.Context? && line.target.Some? {
      c := c + {line.target.value};
    } else if line.kind.Removed? && line.source.Some? {
      r := r + {line.source.value};
    }
  }

  method ToHunk(hunk: ParsedHunk) returns (r: DiffHunk)
    ensures r == HunkOf(hunk)
  {
    var added, context, removed: set<int> := {}, {}, {};
    var numbered: seq<Numbered> := if hunk.header == "" then [] else [Numbered(None, hunk.header)];
    ghost var head := numbered;
    for i := 0 to |hunk.lines|
      invariant added == NumbersOf(hunk.lines[..i], Added)
      invariant context == NumbersOf(hunk.lines[..i], Context)
      invariant removed == NumbersOf(hunk.lines[..i], Removed)
      invariant numbered == head + RenderedLines(hunk.lines[..i])
    {
      var line := hunk.lines[i];
      OneMoreLine(hunk.lines, i, head);
      added, context, removed := Tally(line, added, context, removed);
      numbered := numbered + [Rendered(line)];
    }
    assert hunk.lines[..|hunk.lines|] == hunk.lines;
    assert numbered == NumberedLines(hunk);
    r := DiffHunk(Joined(numbered), added, context, removed, numbered);
  }

  // ---------------------------------------------------------------- gutter and anchors agree

  function Numbers(numbered: seq<Numbered>): set<int> {
    set l | l in numbered && l.number.Some? :: l.number.value as int
  }

  predicate Ascending(numbered: seq<Numbered>) {
    forall i, j :: 0 <= i < j < |numbered| && numbered[i].number.Some? && numbered[j].number.Some? ==>
      numbered[i].number.value < numbered[j].number.value
  }

  /** The numbers a reader is shown are the numbers a comment may be anchored to. */
  predicate GutterAgrees(hunk: DiffHunk) {
    Numbers(hunk.numbered) == hunk.added + hunk.context && Ascending(hunk.numbered)
  }

  lemma {:induction false} NumberedAscends(lines: seq<HunkLine>, source: nat, target: nat)
    requires NumberedFrom(lines, source, target)
    ensures forall i :: 0 <= i < |lines| && lines[i].target.Some? ==> target <= lines[i].target.value
    ensures forall i, j :: 0 <= i < j < |lines| && lines[i].target.Some? && lines[j].target.Some? ==>
              lines[i].target.value < lines[j].target.value
    ensures forall i :: 0 <= i < |lines| ==> (lines[i].target.Some? <==> lines[i].kind.Added? || lines[i].kind.Context?)
  {
    if lines != [] {
      var l, rest := lines[0], lines[1..];
      NumberedAscends(rest,
                      if l.kind.Context? || l.kind.Removed? then source + 1 else source,
                      if l.kind.Context? || l.kind.Added? then target + 1 else target);
      assert forall i :: 0 < i < |lines| ==> lines[i] == rest[i - 1];
    }
  }

  lemma {:induction false} NumbersOfAre(lines: seq<HunkLine>, kind: LineKind, n: int)
    requires !kind.Removed?
    ensures n in NumbersOf(lines, kind)
        <==> exists i :: 0 <= i < |lines| && lines[i].kind == kind && lines[i].target == Some(n)
  {
    if lines != [] {
      var k := |lines| - 1;
      NumbersOfAre(lines[..k], kind, n);
      if i :| 0 <= i < |lines| && lines[i].kind == kind && lines[i].target == Some(n) {
        if i < k {
          assert lines[..k][i] == lines[i];
        }
      }
    }
  }

  lemma {:induction false} NumbersAre(numbered: seq<Numbered>, n: int)
    ensures n in Numbers(numbered) <==> exists i :: 0 <= i < |numbered| && numbered[i].number == Some(n)
  {
    if n in Numbers(numbered) {
      var l :| l in numbered && l.number.Some? && l.number.value == n;
      var i :| 0 <= i < |numbered| && numbered[i] == l;
    }
    if i :| 0 <= i < |numbered| && numbered[i].number == Some(n) {
      assert numbered[i] in numbered;
    }
  }

  /** The rendered lines carry the hunk's new-file numbers, the `@@` header none. */
  lemma {:induction false} NumberedLinesCarry(hunk: ParsedHunk) returns (h: nat)
    ensures |NumberedLines(hunk)| == h + |hunk.lines|
    ensures forall j :: 0 <= j < h ==> NumberedLines(hunk)[j].number == None
    ensures forall j :: h <= j < |NumberedLines(hunk)| ==> NumberedLines(hunk)[j].number == hunk.lines[j - h].target
  {
    h := if hunk.header == "" then 0 else 1;
    var tail := RenderedLines(hunk.lines);
    assert forall j :: h <= j < |NumberedLines(hunk)| ==> NumberedLines(hunk)[j] == tail[j - h];
  }

  /** For every hunk numbered the way the unified format numbers it, the gutter shows exactly the
      anchorable lines, each once and in ascending order. */
  lemma {:induction false} GutterIsAnchorable(hunk: ParsedHunk)
    requires WellFormed(hunk)
    ensures GutterAgrees(HunkOf(hunk))
  {
    var source: nat, target: nat :| NumberedFrom(hunk.lines, source, target);
    NumberedAscends(hunk.lines, source, target);
    var h := NumberedLinesCarry(hunk);
    forall n: int
      ensures n in Numbers(NumberedLines(hunk)) <==> n in NumbersOf(hunk.lines, Added) + NumbersOf(hunk.lines, Context)
    {
      NumberedExactly(hunk.lines, NumberedLines(hunk), h, n);
    }
    assert Numbers(NumberedLines(hunk)) == NumbersOf(hunk.lines, Added) + NumbersOf(hunk.lines, Context);
  }

  lemma {:induction false} NumberedExactly(lines: seq<HunkLine>, numbered: seq<Numbered>, h: nat, n: int)
    requires |numbered| == h + |lines|
    requires forall j :: 0 <= j < h ==> numbered[j].number == None
    requires forall j :: h <= j < |numbered| ==> numbered[j].number == lines[j - h].target
    requires forall i :: 0 <= i < |lines| ==>
               (lines[i].target.Some? <==> lines[i].kind.Added? || lines[i].kind.Context?)
    ensures n in Numbers(numbered) <==> n in NumbersOf(lines, Added) + NumbersOf(lines, Context)
  {
    NumbersAre(numbered, n);
    NumbersOfAre(lines, Added, n);
    NumbersOfAre(lines, Context, n);
    if j :| 0 <= j < |numbered| && numbered[j].number == Some(n) {
      assert lines[j - h].target == Some(n);
    }
    if i :| 0 <= i < |lines| && lines[i].target == Some(n) {
      assert numbered[h + i].number == Some(n);
    }
  }

  // ---------------------------------------------------------------- reading the gutter back

  lemma {:induction false} SpacesAre(n: int)
    ensures |Spaces(n)| == (if n <= 0 then 0 else n) && forall i :: 0 <= i < |Spaces(n)| ==> Spaces(n)[i] == ' '
  {
    if n > 0 {
      SpacesAre(n - 1);
    }
  }

  lemma {:induction false} StripSpaces(n: int, s: string)
    requires s != [] ==> !Text.IsSpace(s[0])
    ensures Text.StripLeft(Spaces(n) + s) == s
  {
    SpacesAre(n);
    if n > 0 {
      SpacesAre(n - 1);
      assert (Spaces(n) + s)[1..] == Spaces(n - 1) + s;
      StripSpaces(n - 1, s);
    } else {
      assert Spaces(n) + s == s;
    }
  }

  lemma {:induction false} DecimalPrefix(n: nat, k: nat)
    requires k <= |Text.Decimal(n)|
    ensures 0 <= Text.Spelled(Text.Decimal(n)[..k]) <= n
    ensures k < |Text.Decimal(n)| ==> Text.Spelled(Text.Decimal(n)[..k]) <= n / 10
  {
    var d := Text.Decimal(n);
    Text.DecimalSpelled(n);
    if k == |d| {
      assert d[..k] == d;
    } else if n >= 10 {
      assert d[..k] == Text.Decimal(n / 10)[..k];
      DecimalPrefix(n / 10, k);
    }
  }

  lemma {:induction false} DecimalFits(n: nat, width: nat, bound: nat)
    requires width >= 1 && bound == Power10(width)
    ensures |Text.Decimal(n)| <= width <==> n < bound
  {
    if n >= 10 && width > 1 {
      DecimalFits(n / 10, width - 1, Power10(width - 1));
    } else if n >= 10 {
      assert |Text.Decimal(n / 10)| >= 1;
      assert Power10(1) == 10 * Power10(0);
    }
  }

  function Power10(k: nat): (r: nat)
    ensures r >= 1
  {
    if k == 0 then 1 else 10 * Power10(k - 1)
  }

  /** The number in the first five characters of a rendered line. */
  function ReadGutter(text: string): int
    requires |text| >= 5
  {
    Text.Spelled(Text.StripLeft(text[..5]))
  }

  /** The gutter reads back as the number printed in it, exactly up to 99999. */
  lemma {:induction false} GutterReadsBack(n: nat, text: string)
    ensures |Gutter(Some(n)) + text| >= 6
    ensures ReadGutter(Gutter(Some(n)) + text) == n <==> n <= 99999
  {
    var d := Text.Decimal(n);
    var shown := Gutter(Some(n)) + text;
    SpacesAre(5 - |d|);
    Text.DecimalSpelled(n);
    assert d[0] in d;
    FiveDigits(n);
    if |d| <= 5 {
      assert shown[..5] == Spaces(5 - |d|) + d;
      StripSpaces(5 - |d|, d);
    } else {
      assert shown[..5] == d[..5];
      DecimalPrefix(n, 5);
    }
  }

  lemma {:induction false} FiveDigits(n: nat)
    ensures |Text.Decimal(n)| <= 5 <==> n <= 99999
  {
    assert Power10(3) == 1000;
    DecimalFits(n, 5, 100000);
  }

  // ---------------------------------------------------------------- anchors

  function AddedLines(file: DiffFile): set<int> {
    set h, n | h in file.hunks && n in h.added :: n
  }

  function ContextLines(file: DiffFile): set<int> {
    set h, n | h in file.hunks && n in h.context :: n
  }

  /** New-file lines a review comment may be attached to. */
  function AnchorableLines(file: DiffFile): set<int> {
    AddedLines(file) + ContextLines(file)
  }

  function Distance(a: int, b: int): nat {
    if a <= b then b - a else a - b
  }

  /** The order `min(nearby, key=lambda n: (abs(n - line), n))` uses. */
  predicate Closer(line: int, n: int, m: int) {
    Distance(n, line) < Distance(m, line) || (Distance(n, line) == Distance(m, line) && n <= m)
  }

  lemma {:induction false} ClosestExists(nearby: set<int>, line: int)
    requires nearby != {}
    ensures exists n :: n in nearby && forall m <- nearby :: Closer(line, n, m)
  {
    var x := AnyOf(nearby);
    if nearby != {x} {
      ClosestExists(nearby - {x}, line);
      var n :| n in nearby - {x} && forall m <- nearby - {x} :: Closer(line, n, m);
      var best := if Closer(line, x, n) then x else n;
      forall m | m in nearby
        ensures Closer(line, best, m)
      {
        if m != x {
          assert m in nearby - {x};
        }
      }
    }
  }

  function Closest(nearby: set<int>, line: int): int
    requires nearby != {}
  {
    ClosestExists(nearby, line);
    var n :| n in nearby && forall m <- nearby :: Closer(line, n, m);
    n
  }

  function Nearby(candidates: set<int>, line: int, tolerance: int): set<int> {
    set n | n in candidates && Distance(n, line) <= tolerance
  }

  function NearestAnchor(file: DiffFile, line: int, tolerance: int): Option<int> {
    var anchors := AnchorableLines(file);
    if anchors == {} then None
    else if line in anchors then Some(line)
    else if Nearby(AddedLines(file), line, tolerance) != {} then
      Some(Closest(Nearby(AddedLines(file), line, tolerance), line))
    else if Nearby(anchors, line, tolerance) != {} then
      Some(Closest(Nearby(anchors, line, tolerance), line))
    else None
  }

  /** Snapping only ever lands on an anchor: the line itself if it is one, otherwise the closest added
      line in reach (the lower on a tie), or a context line when no added one is in reach; and it gives
      up only when nothing is in reach. */
  lemma {:induction false} SnapsToAnAnchor(file: DiffFile, line: int, tolerance: int)
    ensures var r := NearestAnchor(file, line, tolerance);
            && (line in AnchorableLines(file) ==> r == Some(line))
            && (r.None? <==> line !in AnchorableLines(file)
                             && forall n <- AnchorableLines(file) :: Distance(n, line) > tolerance)
            && (r.Some? ==> r.value in AnchorableLines(file))
            && (r.Some? && r.value != line ==>
                  && Distance(r.value, line) <= tolerance
                  && (forall n <- AddedLines(file) :: Distance(n, line) <= tolerance ==>
                        && r.value in AddedLines(file)
                        && Distance(r.value, line) <= Distance(n, line)
                        && (Distance(r.value, line) == Distance(n, line) ==> r.value <= n))
                  && (r.value !in AddedLines(file) ==>
                        forall n <- AnchorableLines(file) ::
                          && Distance(r.value, line) <= Distance(n, line)
                          && (Distance(r.value, line) == Distance(n, line) ==> r.value <= n)))
  {
    var added, anchors := AddedLines(file), AnchorableLines(file);
    if line !in anchors {
      forall n | n in anchors && Distance(n, line) <= tolerance
        ensures n in Nearby(anchors, line, tolerance)
      {}
      forall n | n in added && Distance(n, line) <= tolerance
        ensures n in Nearby(added, line, tolerance)
      {}
    }
  }

  // ---------------------------------------------------------------- truncation

  function LineCount(hunk: DiffHunk): nat {
    |hunk.added| + |hunk.context| + |hunk.removed|
  }

  function TotalLines(hunks: seq<DiffHunk>): nat {
    if hunks == [] then 0 else TotalLines(hunks[..|hunks| - 1]) + LineCount(hunks[|hunks| - 1])
  }

  lemma {:induction false} TotalLinesConcat(a: seq<DiffHunk>, b: seq<DiffHunk>)
    ensures TotalLines(a + b) == TotalLines(a) + TotalLines(b)
  {
    if b == [] {
      assert a + b == a;
    } else {
      assert (a + b)[..|a + b| - 1] == a + b[..|b| - 1];
      TotalLinesConcat(a, b[..|b| - 1]);
    }
  }

  lemma {:induction false} TotalLinesPrefix(hunks: seq<DiffHunk>, k: nat, m: nat)
    requires k <= m <= |hunks|
    ensures TotalLines(hunks[..k]) <= TotalLines(hunks[..m])
  {
    assert hunks[..m] == hunks[..k] + hunks[k..m];
    TotalLinesConcat(hunks[..k], hunks[k..m]);
  }

  /** The length of the longest non-empty prefix within the limit; one hunk if none is. */
  function KeptHunks(hunks: seq<DiffHunk>, maxLines: int): (n: nat)
    ensures n <= |hunks| && (hunks != [] ==> n >= 1)
  {
    if |hunks| <= 1 || TotalLines(hunks) <= maxLines then |hunks| else KeptHunks(hunks[..|hunks| - 1], maxLines)
  }

  lemma {:induction false} KeptHunksLongest(hunks: seq<DiffHunk>, maxLines: int)
    ensures var n := KeptHunks(hunks, maxLines);
            && (n > 1 ==> TotalLines(hunks[..n]) <= maxLines)
            && (forall m :: n < m <= |hunks| ==> TotalLines(hunks[..m]) > maxLines)
  {
    assert hunks[..|hunks|] == hunks;
    if |hunks| > 1 && TotalLines(hunks) > maxLines {
      var shorter := hunks[..|hunks| - 1];
      KeptHunksLongest(shorter, maxLines);
      assert forall m :: 0 <= m < |hunks| ==> hunks[..m] == shorter[..m];
    }
  }

  function Truncated(file: DiffFile, maxLines: int): DiffFile {
    var n := KeptHunks(file.hunks, maxLines);
    if n == |file.hunks| then file
    else file.(
      hunks := file.hunks[..n],
      omittedHunks := file.omittedHunks + |file.hunks[n..]|,
      omittedLines := file.omittedLines + TotalLines(file.hunks[n..]))
  }

  method TruncatedTo(file: DiffFile, maxLines: int) returns (r: DiffFile)
    ensures r == Truncated(file, maxLines)
  {
    var hunks := file.hunks;
    var kept: seq<DiffHunk> := [];
    var used := 0;
    var i := 0;
    while i < |hunks|
      invariant 0 <= i <= |hunks| && kept == hunks[..i] && used == TotalLines(kept)
      invariant i > 1 ==> used <= maxLines
    {
      if kept != [] && used + LineCount(hunks[i]) > maxLines {
        break;
      }
      assert hunks[..i + 1] == hunks[..i] + [hunks[i]];
      used := used + LineCount(hunks[i]);
      kept := kept + [hunks[i]];
      i := i + 1;
    }
    KeptHunksIs(hunks, maxLines, i);
    if |kept| == |hunks| {
      return file;
    }
    var dropped := hunks[|kept|..];
    r := file.(
      hunks := kept,
      omittedHunks := file.omittedHunks + |dropped|,
      omittedLines := file.omittedLines + TotalLines(dropped));
  }

  /** Stopping at the first hunk that does not fit finds the longest prefix that does. */
  lemma {:induction false} KeptHunksIs(hunks: seq<DiffHunk>, maxLines: int, n: nat)
    requires n <= |hunks| && (hunks != [] ==> n >= 1)
    requires n > 1 ==> TotalLines(hunks[..n]) <= maxLines
    requires n < |hunks| ==> TotalLines(hunks[..n]) + LineCount(hunks[n]) > maxLines
    ensures n == KeptHunks(hunks, maxLines)
  {
    var k := KeptHunks(hunks, maxLines);
    KeptHunksLongest(hunks, maxLines);
    if n < k {
      assert hunks[..n + 1][..n] == hunks[..n];
      TotalLinesPrefix(hunks, n + 1, k);
    }
  }

  /** Truncation moves lines and hunks into the omission counters and loses none of either. */
  lemma {:induction false} TruncationConserves(file: DiffFile, maxLines: int)
    ensures var t := Truncated(file, maxLines);
            && t.hunks <= file.hunks && (file.hunks != [] ==> t.hunks != [])
            && |t.hunks| + t.omittedHunks == |file.hunks| + file.omittedHunks
            && TotalLines(t.hunks) + t.omittedLines == TotalLines(file.hunks) + file.omittedLines
            && AnchorableLines(t) <= AnchorableLines(file)
            && ((forall h <- file.hunks :: GutterAgrees(h)) ==> forall h <- t.hunks :: GutterAgrees(h))
  {
    var n := KeptHunks(file.hunks, maxLines);
    assert file.hunks == file.hunks[..n] + file.hunks[n..];
    TotalLinesConcat(file.hunks[..n], file.hunks[n..]);
  }

  lemma {:induction false} KeptHunksCompose(hunks: seq<DiffHunk>, a: int, b: int)
    ensures KeptHunks(hunks[..KeptHunks(hunks, a)], b) == KeptHunks(hunks, if a <= b then a else b)
  {
    var k := KeptHunks(hunks, a);
    var n := KeptHunks(hunks[..k], b);
    if |hunks| > 1 && TotalLines(hunks) > a {
      KeptHunksCompose(hunks[..|hunks| - 1], a, b);
      assert hunks[..k] == hunks[..|hunks| - 1][..k];
    } else {
      assert hunks[..k] == hunks;
    }
  }

  lemma {:induction false} TotalLinesSplit(hunks: seq<DiffHunk>, n: nat, k: nat)
    requires n <= k <= |hunks|
    ensures hunks[..k][..n] == hunks[..n]
    ensures TotalLines(hunks[n..]) == TotalLines(hunks[..k][n..]) + TotalLines(hunks[k..])
  {
    assert hunks[n..] == hunks[..k][n..] + hunks[k..];
    TotalLinesConcat(hunks[..k][n..], hunks[k..]);
  }

  /** Truncating to a and then to b is truncating to the smaller, omission counters included. */
  lemma {:induction false} TruncationComposes(file: DiffFile, a: int, b: int)
    ensures Truncated(Truncated(file, a), b) == Truncated(file, if a <= b then a else b)
  {
    var k := KeptHunks(file.hunks, a);
    var n := KeptHunks(file.hunks[..k], b);
    KeptHunksCompose(file.hunks, a, b);
    TruncatedIs(file, a);
    TruncatedIs(Truncated(file, a), b);
    TruncatedIs(file, if a <= b then a else b);
    CutTwice(file, k, n);
  }

  /** The file with its first `n` hunks left, and the rest counted as omitted. */
  function CutAt(file: DiffFile, n: nat): DiffFile
    requires n <= |file.hunks|
  {
    file.(
      hunks := file.hunks[..n],
      omittedHunks := file.omittedHunks + |file.hunks[n..]|,
      omittedLines := file.omittedLines + TotalLines(file.hunks[n..]))
  }

  lemma {:induction false} TruncatedIs(file: DiffFile, maxLines: int)
    ensures Truncated(file, maxLines) == CutAt(file, KeptHunks(file.hunks, maxLines))
  {
    assert file.hunks[..|file.hunks|] == file.hunks;
    assert file.hunks[|file.hunks|..] == [];
  }

  lemma {:induction false} CutTwice(file: DiffFile, k: nat, n: nat)
    requires n <= k <= |file.hunks|
    ensures CutAt(CutAt(file, k), n) == CutAt(file, n)
  {
    TotalLinesSplit(file.hunks, n, k);
  }
}
