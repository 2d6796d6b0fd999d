/** What the text around a claim shows its reader (`DiffFile.window` and `numbered_text`,
    src/reviewhive/diff/parser.py). */
module Evidence {
  import opened Models
  import opened Sequences
  import opened Diff
  import opened Windows
  import opened Gutters
  import CriticRun

  ghost predicate Contains(whole: string, part: string) {
    exists front, back :: whole == front + part + back
  }

  lemma {:induction false} ContainsInner(whole: string, middle: string, part: string)
    requires Contains(whole, middle) && Contains(middle, part)
    ensures Contains(whole, part)
  {
    var a, b :| whole == a + middle + b;
    var c, d :| middle == c + part + d;
    assert whole == (a + c) + part + (d + b);
  }

  lemma {:induction false} ContainsLeft(whole: string, part: string, more: string)
    requires Contains(whole, part)
    ensures Contains(whole + more, part) && Contains(more + whole, part)
  {
    var a, b :| whole == a + part + b;
    assert whole + more == a + part + (b + more);
    assert more + whole == (more + a) + part + b;
  }

  lemma {:induction false} Itself(s: string)
    ensures Contains(s, s)
  {
    assert s == "" + s + "";
  }

  // ---------------------------------------------------------------- segments, joined

  /** Between two segments there is the gap marker, and nothing else. */
  lemma {:induction false} GapsBetween(a: seq<string>, b: seq<string>)
    requires a != [] && b != []
    ensures JoinedByGaps(a + b) == JoinedByGaps(a) + Gap() + JoinedByGaps(b)
  {
    var n := |b| - 1;
    if n == 0 {
      assert (a + b)[..|a + b| - 1] == a;
    } else {
      assert (a + b)[..|a + b| - 1] == a + b[..n];
      GapsBetween(a, b[..n]);
      Regrouped(JoinedByGaps(a), Gap(), JoinedByGaps(b[..n]), Gap() + b[n]);
      Regrouped(JoinedByGaps(a) + Gap() + JoinedByGaps(b[..n]), Gap(), b[n], "");
      Regrouped(JoinedByGaps(b[..n]), Gap(), b[n], "");
    }
  }

  lemma Regrouped(a: string, b: string, c: string, d: string)
    ensures a + b + c + d == a + b + (c + d) == a + (b + c + d)
  {
  }

  lemma {:induction false} GapsContain(texts: seq<string>, k: nat)
    requires k < |texts|
    ensures Contains(JoinedByGaps(texts), texts[k])
  {
    var n := |texts| - 1;
    Itself(texts[k]);
    if n > 0 {
      if k < n {
        GapsContain(texts[..n], k);
        ContainsLeft(JoinedByGaps(texts[..n]), texts[k], Gap() + texts[n]);
        assert JoinedByGaps(texts) == JoinedByGaps(texts[..n]) + (Gap() + texts[n]);
      } else {
        ContainsLeft(texts[n], texts[n], JoinedByGaps(texts[..n]) + Gap());
      }
    }
  }

  lemma {:induction false} JoinedContains(lines: seq<Numbered>, k: nat)
    requires k < |lines|
    ensures Contains(Joined(lines), lines[k].text)
  {
    JoinedAround(lines, k);
  }

  /** The window's text contains every line of every segment. */
  lemma {:induction false} TextContains(file: DiffFile, line: int, radius: int, s: nat, i: nat)
    requires s < |WindowOf(file, line, radius)| && i < |WindowOf(file, line, radius)[s]|
    ensures Contains(WindowText(file, line, radius), WindowOf(file, line, radius)[s][i].text)
  {
    var segments := WindowOf(file, line, radius);
    JoinedContains(segments[s], i);
    GapsContain(Texts(segments), s);
    ContainsInner(JoinedByGaps(Texts(segments)), Joined(segments[s]), segments[s][i].text);
  }

  // ---------------------------------------------------------------- the claim's own line

  /** The rendered line numbered `line`: its own number in front of its own text. */
  ghost predicate Renders(l: HunkLine, line: int, text: string) {
    && l.target == Some(line)
    && exists gutter :: text == gutter + l.text && |gutter| >= 6
                        && (line <= 99999 ==> PrintedNumber(text) == Some(line))
  }

  lemma {:induction false} LineAt(hunk: ParsedHunk, k: nat, line: int) returns (i: nat)
    requires k < |HunkOf(hunk).numbered| && HunkOf(hunk).numbered[k].number == Some(line)
    ensures i < |hunk.lines| && Renders(hunk.lines[i], line, HunkOf(hunk).numbered[k].text)
  {
    i := k - HeaderLines(hunk);
    assert HunkOf(hunk).numbered[k] == RenderedLines(hunk.lines)[i];
    var gutter := LineIsPrinted(hunk, i);
  }

  lemma {:induction false} BuiltAgrees(file: DiffFile, hunks: seq<ParsedHunk>)
    requires BuiltFrom(file, hunks) && forall h :: 0 <= h < |hunks| ==> WellFormed(hunks[h])
    ensures forall h <- file.hunks :: GutterAgrees(h)
  {
    forall h | h in file.hunks
      ensures GutterAgrees(h)
    {
      var k :| 0 <= k < |file.hunks| && file.hunks[k] == h;
      GutterIsAnchorable(hunks[k]);
    }
  }

  /** A claim about an anchorable line is shown that line's own text, with its number in front of it, as soon as
      the radius is not negative. */
  lemma {:induction false} ReaderSeesTheLine(file: DiffFile, hunks: seq<ParsedHunk>, line: int, radius: nat)
    returns (h: nat, i: nat, text: string)
    requires BuiltFrom(file, hunks) && forall h :: 0 <= h < |hunks| ==> WellFormed(hunks[h])
    requires line in AnchorableLines(file)
    ensures h < |hunks| && i < |hunks[h].lines| && Renders(hunks[h].lines[i], line, text)
    ensures Contains(WindowText(file, line, radius), text)
  {
    BuiltAgrees(file, hunks);
    var k;
    h, k := AnchoringHunk(file, line);
    i := LineAt(hunks[h], k, line);
    text := file.hunks[h].numbered[k].text;
    WindowContains(file, line, radius, h, k);
  }

  lemma {:induction false} WindowContains(file: DiffFile, line: int, radius: nat, h: nat, k: nat)
    requires h < |file.hunks| && GutterAgrees(file.hunks[h])
    requires k < |file.hunks[h].numbered| && file.hunks[h].numbered[k].number == Some(line)
    ensures Contains(WindowText(file, line, radius), file.hunks[h].numbered[k].text)
  {
    var segment, j := ShownAt(file.hunks[h], line, radius, k);
    var s := SegmentIsKept(file, line, radius, h);
    TextContains(file, line, radius, s, j);
  }

  lemma {:induction false} SegmentIsKept(file: DiffFile, line: int, radius: int, h: nat) returns (s: nat)
    requires h < |file.hunks| && Segment(file.hunks[h], line - radius, line + radius).Some?
    ensures s < |WindowOf(file, line, radius)|
    ensures Some(WindowOf(file, line, radius)[s]) == Segment(file.hunks[h], line - radius, line + radius)
  {
    var all := Segments(file.hunks, line - radius, line + radius);
    KeptSelects(all);
    assert all[h] == Segment(file.hunks[h], line - radius, line + radius);
    s := KeptAt(all)[h].value;
  }

  /** The numbered line at `k` is in the hunk's segment. */
  lemma {:induction false} ShownAt(hunk: DiffHunk, line: int, radius: nat, k: nat) returns (s: seq<Numbered>, j: nat)
    requires GutterAgrees(hunk) && k < |hunk.numbered| && hunk.numbered[k].number == Some(line)
    ensures Segment(hunk, line - radius, line + radius) == Some(s)
    ensures j < |s| && s[j] == hunk.numbered[k]
  {
    var low, high := line - radius, line + radius;
    SegmentHolds(hunk, low, high, k);
    var first, end := SegmentEnds(hunk, low, high);
    assert InRange(hunk.numbered[k].number, low, high);
    s := hunk.numbered[first..end];
    j := k - first;
  }

  // ---------------------------------------------------------------- how long a file is

  /** The rendered lines of all hunks, one after another. */
  function AllLines(hunks: seq<DiffHunk>): seq<Numbered> {
    if hunks == [] then [] else AllLines(hunks[..|hunks| - 1]) + hunks[|hunks| - 1].numbered
  }

  /** What decides whether a file is shown whole is how many rendered lines it has. */
  lemma {:induction false} LineCountIsAll(hunks: seq<DiffHunk>)
    ensures CriticRun.NumberedLineCount(hunks) == |AllLines(hunks)|
  {
    if hunks != [] {
      LineCountIsAll(hunks[..|hunks| - 1]);
    }
  }
}
