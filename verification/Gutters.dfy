/** What a reader of a rendered hunk sees: the text itself, its numbers, and how much of it there is
    (`_to_hunk`, src/reviewhive/diff/parser.py). */
module Gutters {
  import opened Models
  import opened Sequences
  import opened Diff
  import Text

  function Blanks(): string {
    "      "
  }

  /** The number printed in front of a rendered line; none where there are six blanks. */
  function PrintedNumber(text: string): Option<int>
    requires |text| >= 6
  {
    if text[..6] == Blanks() then None else Some(ReadGutter(text))
  }

  /** The rendered lines follow the `@@` header, which is left out when it has no text. */
  function HeaderLines(hunk: ParsedHunk): nat {
    if hunk.header == "" then 0 else 1
  }

  lemma {:induction false} PaddedShows(d: string, text: string)
    requires d != [] && '0' <= d[0] <= '9'
    ensures var gutter := Spaces(5 - |d|) + d + " ";
            && |gutter| >= 6 && gutter[|gutter| - 1] == ' ' && (|d| <= 5 ==> |gutter| == 6)
            && (gutter + text)[..6] != Blanks()
  {
    SpacesAre(5 - |d|);
    var pad, shown := Spaces(5 - |d|), Spaces(5 - |d|) + d + " " + text;
    assert shown[|pad|] == d[0];
    assert shown[..6][|pad|] == d[0] && Blanks()[|pad|] == ' ';
  }

  lemma {:induction false} GutterOfNumber(n: nat, text: string)
    ensures |Gutter(Some(n))| >= 6 && Gutter(Some(n))[|Gutter(Some(n))| - 1] == ' '
    ensures n <= 99999 ==> |Gutter(Some(n))| == 6
    ensures (Gutter(Some(n)) + text)[..6] != Blanks()
  {
    var d := Text.Decimal(n);
    Text.DecimalSpelled(n);
    FiveDigits(n);
    assert d[0] in d;
    PaddedShows(d, text);
  }

  /** One rendered line: the line's own text, behind six blanks if it has no place in the new file, and
      otherwise behind its number there, which reads back up to 99999. */
  lemma {:induction false} LineIsPrinted(hunk: ParsedHunk, i: nat) returns (gutter: string)
    requires i < |hunk.lines|
    ensures |HunkOf(hunk).numbered| == HeaderLines(hunk) + |hunk.lines|
    ensures HunkOf(hunk).numbered[HeaderLines(hunk) + i].text == gutter + hunk.lines[i].text
    ensures |gutter| >= 6 && gutter[|gutter| - 1] == ' '
    ensures var text, target := gutter + hunk.lines[i].text, hunk.lines[i].target;
            && (target.None? ==> gutter == Blanks())
            && (target.Some? ==> PrintedNumber(text).Some? && (PrintedNumber(text) == Some(target.value)
                                                               <==> target.value <= 99999))
            && (target.Some? && target.value <= 99999 ==> |gutter| == 6)
  {
    var line := hunk.lines[i];
    gutter := Gutter(line.target);
    assert RenderedLines(hunk.lines)[i] == Rendered(line);
    assert HunkOf(hunk).numbered[HeaderLines(hunk) + i] == RenderedLines(hunk.lines)[i];
    if line.target.Some? {
      GutterOfNumber(line.target.value, line.text);
      GutterReadsBack(line.target.value, line.text);
    } else {
      assert (gutter + line.text)[..6] == gutter;
    }
  }

  lemma {:induction false} HeaderIsPrinted(hunk: ParsedHunk)
    ensures hunk.header != "" ==> HunkOf(hunk).numbered[0] == Numbered(None, hunk.header)
  {
  }

  /** What each set holds: new-file numbers of added and of context lines, old-file numbers of removed ones. */
  lemma {:induction false} SetsAreTheLines(hunk: ParsedHunk, n: int)
    ensures n in HunkOf(hunk).added
        <==> exists i :: 0 <= i < |hunk.lines| && hunk.lines[i].kind.Added? && hunk.lines[i].target == Some(n)
    ensures n in HunkOf(hunk).context
        <==> exists i :: 0 <= i < |hunk.lines| && hunk.lines[i].kind.Context? && hunk.lines[i].target == Some(n)
    ensures n in HunkOf(hunk).removed
        <==> exists i :: 0 <= i < |hunk.lines| && hunk.lines[i].kind.Removed? && hunk.lines[i].source == Some(n)
  {
    NumbersOfAre(hunk.lines, Added, n);
    NumbersOfAre(hunk.lines, Context, n);
    RemovedAre(hunk.lines, n);
  }

  lemma {:induction false} RemovedAre(lines: seq<HunkLine>, n: int)
    ensures n in NumbersOf(lines, Removed)
        <==> exists i :: 0 <= i < |lines| && lines[i].kind.Removed? && lines[i].source == Some(n)
  {
    if lines != [] {
      var k := |lines| - 1;
      RemovedAre(lines[..k], n);
      if i :| 0 <= i < |lines| && lines[i].kind.Removed? && lines[i].source == Some(n) {
        if i < k {
          assert lines[..k][i] == lines[i];
        }
      }
    }
  }

  /** Some line of the hunk is printed with this number. */
  ghost predicate Prints(hunk: ParsedHunk, n: int) {
    exists i :: 0 <= i < |hunk.lines| && PrintedAt(hunk, i) == Some(n)
  }

  function PrintedAt(hunk: ParsedHunk, i: nat): Option<int>
    requires i < |hunk.lines|
  {
    var text := NumberedLines(hunk)[HeaderLines(hunk) + i].text;
    if |text| < 6 then None else PrintedNumber(text)
  }

  /** The numbers a reader sees in a hunk's text are exactly those a comment may be anchored to, in any hunk
      numbered as the unified format numbers it, while they have at most five digits. */
  lemma {:induction false} PrintedAreAnchorable(hunk: ParsedHunk, n: int)
    requires WellFormed(hunk)
    requires forall i :: 0 <= i < |hunk.lines| && hunk.lines[i].target.Some? ==> hunk.lines[i].target.value <= 99999
    ensures n in HunkOf(hunk).added + HunkOf(hunk).context <==> Prints(hunk, n)
  {
    TargetsAreAnchorable(hunk, n);
    forall i | 0 <= i < |hunk.lines|
      ensures PrintedAt(hunk, i) == Some(n) <==> hunk.lines[i].target == Some(n)
    {
      PrintedIs(hunk, i);
    }
  }

  lemma {:induction false} TargetsAreAnchorable(hunk: ParsedHunk, n: int)
    requires WellFormed(hunk)
    ensures n in HunkOf(hunk).added + HunkOf(hunk).context
        <==> exists i :: 0 <= i < |hunk.lines| && hunk.lines[i].target == Some(n)
  {
    var source: nat, target: nat :| NumberedFrom(hunk.lines, source, target);
    NumberedAscends(hunk.lines, source, target);
    SetsAreTheLines(hunk, n);
  }

  /** And they ascend from line to line. */
  lemma {:induction false} PrintedAscend(hunk: ParsedHunk, i: nat, j: nat)
    requires WellFormed(hunk) && i < j < |hunk.lines|
    requires forall k :: 0 <= k < |hunk.lines| && hunk.lines[k].target.Some? ==> hunk.lines[k].target.value <= 99999
    ensures PrintedAt(hunk, i).Some? && PrintedAt(hunk, j).Some? ==>
              PrintedAt(hunk, i).value < PrintedAt(hunk, j).value
  {
    var source: nat, target: nat :| NumberedFrom(hunk.lines, source, target);
    NumberedAscends(hunk.lines, source, target);
    PrintedIs(hunk, i);
    PrintedIs(hunk, j);
  }

  /** A line is printed with its new-file number, or with none. */
  lemma {:induction false} PrintedIs(hunk: ParsedHunk, i: nat)
    requires i < |hunk.lines|
    requires hunk.lines[i].target.Some? ==> hunk.lines[i].target.value <= 99999
    ensures PrintedAt(hunk, i).Some? <==> hunk.lines[i].target.Some?
    ensures PrintedAt(hunk, i).Some? ==> PrintedAt(hunk, i).value == hunk.lines[i].target.value
  {
    var gutter := LineIsPrinted(hunk, i);
  }

  // ---------------------------------------------------------------- the text as a whole

  lemma {:induction false} JoinedConcat(a: seq<Numbered>, b: seq<Numbered>)
    ensures Joined(a + b) == Joined(a) + Joined(b)
  {
    if b == [] {
      assert a + b == a;
    } else {
      assert (a + b)[..|a + b| - 1] == a + b[..|b| - 1];
      JoinedConcat(a, b[..|b| - 1]);
    }
  }

  lemma {:induction false} JoinedAround(lines: seq<Numbered>, k: nat)
    requires k < |lines|
    ensures Joined(lines) == Joined(lines[..k]) + lines[k].text + Joined(lines[k + 1..])
  {
    assert lines == lines[..k + 1] + lines[k + 1..];
    assert lines[..k + 1][..k] == lines[..k];
    JoinedConcat(lines[..k + 1], lines[k + 1..]);
  }

  /** `numbered_text` is the rendered lines one after another, the header first: each stands after everything
      before it and in front of everything after it. */
  lemma {:induction false} TextIsTheLines(hunk: ParsedHunk, k: nat)
    requires k < |HunkOf(hunk).numbered|
    ensures var r := HunkOf(hunk);
            r.numberedText == Joined(r.numbered[..k]) + r.numbered[k].text + Joined(r.numbered[k + 1..])
    ensures |Joined(HunkOf(hunk).numbered[..k])| == LengthOf(HunkOf(hunk).numbered[..k])
    ensures |Joined(HunkOf(hunk).numbered[k + 1..])| == LengthOf(HunkOf(hunk).numbered[k + 1..])
  {
    JoinedAround(HunkOf(hunk).numbered, k);
    JoinedLength(HunkOf(hunk).numbered[..k]);
    JoinedLength(HunkOf(hunk).numbered[k + 1..]);
  }

  function LengthOf(lines: seq<Numbered>): nat {
    if lines == [] then 0 else LengthOf(lines[..|lines| - 1]) + |lines[|lines| - 1].text|
  }

  lemma {:induction false} JoinedLength(lines: seq<Numbered>)
    ensures |Joined(lines)| == LengthOf(lines)
  {
    if lines != [] {
      JoinedLength(lines[..|lines| - 1]);
    }
  }

  // ---------------------------------------------------------------- how long a hunk is

  /** The lines of a hunk that are code: all but the notes about a missing newline. */
  function CodeLines(lines: seq<HunkLine>): nat {
    if lines == [] then 0
    else CodeLines(lines[..|lines| - 1]) + (if lines[|lines| - 1].kind.NoNewline? then 0 else 1)
  }

  lemma {:induction false} OldNumbersAscend(lines: seq<HunkLine>, source: nat, target: nat)
    requires NumberedFrom(lines, source, target)
    ensures forall i :: 0 <= i < |lines| && lines[i].source.Some? ==> source <= lines[i].source.value
    ensures forall i, j :: 0 <= i < j < |lines| && lines[i].source.Some? && lines[j].source.Some? ==>
              lines[i].source.value < lines[j].source.value
    ensures forall i :: 0 <= i < |lines| ==>
              (lines[i].source.Some? <==> lines[i].kind.Removed? || lines[i].kind.Context?)
  {
    if lines != [] {
      var l, rest := lines[0], lines[1..];
      OldNumbersAscend(rest,
                       if l.kind.Context? || l.kind.Removed? then source + 1 else source,
                       if l.kind.Context? || l.kind.Added? then target + 1 else target);
      assert forall i :: 0 < i < |lines| ==> lines[i] == rest[i - 1];
    }
  }

  /** No number is used twice. */
  ghost predicate NumberedOnce(lines: seq<HunkLine>) {
    && (forall i :: 0 <= i < |lines| ==> (lines[i].target.Some? <==> lines[i].kind.Added? || lines[i].kind.Context?))
    && (forall i :: 0 <= i < |lines| ==> (lines[i].source.Some? <==> lines[i].kind.Removed? || lines[i].kind.Context?))
    && (forall i, j :: 0 <= i < j < |lines| && lines[i].target.Some? ==> lines[i].target != lines[j].target)
    && (forall i, j :: 0 <= i < j < |lines| && lines[i].source.Some? ==> lines[i].source != lines[j].source)
  }

  lemma {:induction false} SizesAdd(lines: seq<HunkLine>)
    requires NumberedOnce(lines)
    ensures |NumbersOf(lines, Added)| + |NumbersOf(lines, Context)| + |NumbersOf(lines, Removed)| == CodeLines(lines)
  {
    if lines != [] {
      var n := |lines| - 1;
      SizesAdd(lines[..n]);
      LastIsNew(lines, Added);
      LastIsNew(lines, Context);
      LastIsNew(lines, Removed);
    }
  }

  lemma {:induction false} LastIsNew(lines: seq<HunkLine>, kind: LineKind)
    requires lines != [] && NumberedOnce(lines) && !kind.NoNewline?
    ensures var n := |lines| - 1;
            |NumbersOf(lines, kind)| == |NumbersOf(lines[..n], kind)| + (if lines[n].kind == kind then 1 else 0)
  {
    var n := |lines| - 1;
    if lines[n].kind == kind {
      var number := if kind.Removed? then lines[n].source.value else lines[n].target.value;
      if kind.Removed? {
        RemovedAre(lines[..n], number);
      } else {
        NumbersOfAre(lines[..n], kind, number);
      }
      assert number !in NumbersOf(lines[..n], kind);
    }
  }

  /** `line_count` counts the hunk's lines of code, each once. */
  lemma {:induction false} LineCountIs(hunk: ParsedHunk)
    requires WellFormed(hunk)
    ensures LineCount(HunkOf(hunk)) == CodeLines(hunk.lines)
  {
    var source: nat, target: nat :| NumberedFrom(hunk.lines, source, target);
    NumberedAscends(hunk.lines, source, target);
    OldNumbersAscend(hunk.lines, source, target);
    SizesAdd(hunk.lines);
  }

  // ---------------------------------------------------------------- the lines of a file

  /** The file's hunks are these, rendered. */
  ghost predicate BuiltFrom(file: DiffFile, hunks: seq<ParsedHunk>) {
    && |file.hunks| == |hunks|
    && forall h :: 0 <= h < |hunks| ==> file.hunks[h] == HunkOf(hunks[h])
  }

  /** A line of this kind has this number in the new file. */
  ghost predicate HasLine(hunks: seq<ParsedHunk>, kind: LineKind, n: int) {
    exists h, i :: 0 <= h < |hunks| && 0 <= i < |hunks[h].lines|
                   && hunks[h].lines[i].kind == kind && hunks[h].lines[i].target == Some(n)
  }

  /** A comment may be anchored to the new-file numbers of the added lines and of the context lines, of any
      hunk, and to nothing else. */
  lemma {:induction false} AnchorsAreTheLines(file: DiffFile, hunks: seq<ParsedHunk>, n: int)
    requires BuiltFrom(file, hunks)
    ensures n in AddedLines(file) <==> HasLine(hunks, Added, n)
    ensures n in AnchorableLines(file) <==> HasLine(hunks, Added, n) || HasLine(hunks, Context, n)
  {
    forall h | 0 <= h < |hunks|
      ensures n in file.hunks[h].added
          <==> exists i :: 0 <= i < |hunks[h].lines| && hunks[h].lines[i].kind.Added?
                           && hunks[h].lines[i].target == Some(n)
      ensures n in file.hunks[h].context
          <==> exists i :: 0 <= i < |hunks[h].lines| && hunks[h].lines[i].kind.Context?
                           && hunks[h].lines[i].target == Some(n)
    {
      SetsAreTheLines(hunks[h], n);
    }
    InSomeHunk(file, n);
  }

  lemma {:induction false} InSomeHunk(file: DiffFile, n: int)
    ensures n in AddedLines(file) <==> exists h :: 0 <= h < |file.hunks| && n in file.hunks[h].added
    ensures n in AnchorableLines(file)
        <==> exists h :: 0 <= h < |file.hunks| && (n in file.hunks[h].added || n in file.hunks[h].context)
  {
  }
}
