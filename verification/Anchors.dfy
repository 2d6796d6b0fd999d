/** Turning reported locations into real diff positions (src/reviewhive/anchors.py). */
module Anchors {
  import opened Models
  import opened Sequences
  import opened Diff
  import Text

  const SNAP_TOLERANCE := 5

  datatype AnchorReport = AnchorReport(findings: seq<Finding>, snapped: nat, unanchored: nat, droppedFiles: seq<string>)

  /** `{normalize_path(f.path): f for f in files}`: the last file under a key wins. */
  function ByPath(files: seq<DiffFile>): map<string, DiffFile> {
    if files == [] then map[]
    else
      var f := files[|files| - 1];
      ByPath(files[..|files| - 1])[Text.Normalized(f.path) := f]
  }

  lemma {:induction false} ByPathIs(files: seq<DiffFile>)
    ensures forall k <- ByPath(files) :: ByPath(files)[k] in files && Text.Normalized(ByPath(files)[k].path) == k
    ensures forall f <- files :: Text.Normalized(f.path) in ByPath(files)
  {
    if files != [] {
      var n := |files| - 1;
      ByPathIs(files[..n]);
      assert files == files[..n] + [files[n]];
    }
  }

  function KeysOf(files: seq<DiffFile>): (keys: seq<string>)
    ensures |keys| == |files|
  {
    seq(|files|, i requires 0 <= i < |files| => Text.Normalized(files[i].path))
  }

  /** A dictionary built pair by pair. */
  function Dictionary<V>(keys: seq<string>, values: seq<V>): map<string, V>
    requires |keys| == |values|
  {
    if keys == [] then map[]
    else
      var n := |keys| - 1;
      Dictionary(keys[..n], values[..n])[keys[n] := values[n]]
  }

  lemma {:induction false} ByPathIsADictionary(files: seq<DiffFile>)
    ensures ByPath(files) == Dictionary(KeysOf(files), files)
  {
    if files != [] {
      var n := |files| - 1;
      ByPathIsADictionary(files[..n]);
      assert KeysOf(files)[..n] == KeysOf(files[..n]);
    }
  }

  lemma {:induction false} LastValue<V>(keys: seq<string>, values: seq<V>, k: string) returns (i: nat)
    requires |keys| == |values| && k in Dictionary(keys, values)
    ensures i < |keys| && Dictionary(keys, values)[k] == values[i] && keys[i] == k
    ensures forall j :: i < j < |keys| ==> keys[j] != k
  {
    i := |keys| - 1;
    if keys[i] != k {
      i := LastValue(keys[..i], values[..i], k);
    }
  }

  /** Of several files under one key, the last one counts. */
  lemma {:induction false} LastUnderAKey(files: seq<DiffFile>, k: string) returns (i: nat)
    requires k in ByPath(files)
    ensures i < |files| && ByPath(files)[k] == files[i] && KeysOf(files)[i] == k
    ensures forall j :: i < j < |files| ==> KeysOf(files)[j] != k
  {
    ByPathIsADictionary(files);
    i := LastValue(KeysOf(files), files, k);
  }

  /** What becomes of one finding: dropped if its file is unknown, otherwise moved to the nearest
      anchor of that file or made file-level. */
  function Placed(f: Finding, byPath: map<string, DiffFile>, tolerance: int): Option<Finding> {
    var path := Text.Normalized(f.file);
    if path !in byPath then None
    else if f.line.None? then Some(f.(file := path))
    else Some(f.(file := path, line := NearestAnchor(byPath[path], f.line.value, tolerance)))
  }

  function PlacedAll(findings: seq<Finding>, byPath: map<string, DiffFile>, tolerance: int): (r: seq<Option<Finding>>)
    ensures |r| == |findings|
  {
    seq(|findings|, i requires 0 <= i < |findings| => Placed(findings[i], byPath, tolerance))
  }

  /** The report after one more finding `f`, placed as `g`. */
  function Reported(r: AnchorReport, f: Finding, g: Option<Finding>): AnchorReport {
    if g.None? then r.(droppedFiles := r.droppedFiles + [f.file])
    else
      var unanchored := f.line.Some? && g.value.line.None?;
      var snapped := f.line.Some? && g.value.line.Some? && g.value.line != f.line;
      AnchorReport(r.findings + [g.value],
                   r.snapped + (if snapped then 1 else 0),
                   r.unanchored + (if unanchored then 1 else 0),
                   r.droppedFiles)
  }

  function AnchoredReport(findings: seq<Finding>, files: seq<DiffFile>, tolerance: int): AnchorReport {
    if findings == [] then AnchorReport([], 0, 0, [])
    else
      var n := |findings| - 1;
      Reported(AnchoredReport(findings[..n], files, tolerance), findings[n],
               Placed(findings[n], ByPath(files), tolerance))
  }

  method AnchorFindings(findings: seq<Finding>, files: seq<DiffFile>, tolerance: int) returns (report: AnchorReport)
    ensures report == AnchoredReport(findings, files, tolerance)
  {
    var byPath := ByPath(files);
    report := AnchorReport([], 0, 0, []);
    for i := 0 to |findings|
      invariant report == AnchoredReport(findings[..i], files, tolerance)
    {
      assert findings[..i + 1][..i] == findings[..i];
      var finding := findings[i];
      var path := Text.NormalizePath(finding.file);
      if path !in byPath {
        report := report.(droppedFiles := report.droppedFiles + [finding.file]);
        continue;
      }
      if finding.line.None? {
        report := report.(findings := report.findings + [finding.(file := path)]);
        continue;
      }
      var anchor := NearestAnchor(byPath[path], finding.line.value, tolerance);
      if anchor.None? {
        report := report.(unanchored := report.unanchored + 1);
      } else if anchor.value != finding.line.value {
        report := report.(snapped := report.snapped + 1);
      }
      report := report.(findings := report.findings + [finding.(file := path, line := anchor)]);
    }
    assert findings[..|findings|] == findings;
  }

  function FileLevelCount(findings: seq<Finding>): nat {
    if findings == [] then 0
    else FileLevelCount(findings[..|findings| - 1]) + (if findings[|findings| - 1].line.None? then 1 else 0)
  }

  predicate Accounts(r: AnchorReport, total: nat, fileLevel: nat) {
    && |r.findings| + |r.droppedFiles| == total
    && r.snapped + r.unanchored <= |r.findings|
    && (r.droppedFiles == [] ==> FileLevelCount(r.findings) == fileLevel + r.unanchored)
  }

  lemma {:induction false} FileLevelOneMore(findings: seq<Finding>, f: Finding)
    ensures FileLevelCount(findings + [f]) == FileLevelCount(findings) + (if f.line.None? then 1 else 0)
  {
    assert (findings + [f])[..|findings|] == findings;
  }

  lemma {:induction false} ReportedAccounts(r: AnchorReport, f: Finding, g: Option<Finding>, total: nat, fileLevel: nat)
    requires Accounts(r, total, fileLevel)
    requires g.Some? && f.line.None? ==> g.value.line.None?
    ensures Accounts(Reported(r, f, g), total + 1, fileLevel + (if f.line.None? then 1 else 0))
  {
    if g.Some? {
      FileLevelOneMore(r.findings, g.value);
    }
  }

  lemma {:induction false} ReportAccounts(findings: seq<Finding>, files: seq<DiffFile>, tolerance: int)
    ensures Accounts(AnchoredReport(findings, files, tolerance), |findings|, FileLevelCount(findings))
  {
    if findings != [] {
      var n := |findings| - 1;
      ReportAccounts(findings[..n], files, tolerance);
      ReportedAccounts(AnchoredReport(findings[..n], files, tolerance), findings[n],
                       Placed(findings[n], ByPath(files), tolerance), n, FileLevelCount(findings[..n]));
    }
  }

  lemma {:induction false} ReportListsPlaced(findings: seq<Finding>, files: seq<DiffFile>, tolerance: int)
    ensures AnchoredReport(findings, files, tolerance).findings == Kept(PlacedAll(findings, ByPath(files), tolerance))
  {
    if findings != [] {
      var n := |findings| - 1;
      ReportListsPlaced(findings[..n], files, tolerance);
      assert PlacedAll(findings, ByPath(files), tolerance)[..n] == PlacedAll(findings[..n], ByPath(files), tolerance);
    }
  }

  /** The report lists the placed findings in input order; every finding is kept or named in
      `droppedFiles`; and with no finding dropped, `unanchored` is how many lost their line. */
  lemma {:induction false} AnchoringAccounts(findings: seq<Finding>, files: seq<DiffFile>, tolerance: int)
    ensures var r := AnchoredReport(findings, files, tolerance);
            && r.findings == Kept(PlacedAll(findings, ByPath(files), tolerance))
            && |r.findings| + |r.droppedFiles| == |findings|
            && r.snapped + r.unanchored <= |r.findings|
            && (r.droppedFiles == [] ==> FileLevelCount(r.findings) == FileLevelCount(findings) + r.unanchored)
  {
    ReportListsPlaced(findings, files, tolerance);
    ReportAccounts(findings, files, tolerance);
  }

  /** Which findings were moved, which lost their line, and which were dropped. */
  predicate Moved(f: Finding, g: Option<Finding>) {
    f.line.Some? && g.Some? && g.value.line.Some? && g.value.line != f.line
  }

  predicate LostItsLine(f: Finding, g: Option<Finding>) {
    f.line.Some? && g.Some? && g.value.line.None?
  }

  function DroppedFile(f: Finding, g: Option<Finding>): Option<string> {
    if g.None? then Some(f.file) else None
  }

  /** The three tallies: how many were moved, how many lost their line, and the files of the dropped as they
      were reported, in order. */
  lemma {:induction false} TalliesAre(findings: seq<Finding>, files: seq<DiffFile>, tolerance: int)
    ensures var r, placed := AnchoredReport(findings, files, tolerance), PlacedAll(findings, ByPath(files), tolerance);
            && r.snapped == HowMany(Paired(Moved, findings, placed))
            && r.unanchored == HowMany(Paired(LostItsLine, findings, placed))
            && r.droppedFiles == Kept(Paired(DroppedFile, findings, placed))
  {
    if findings != [] {
      var n := |findings| - 1;
      var placed := PlacedAll(findings, ByPath(files), tolerance);
      TalliesAre(findings[..n], files, tolerance);
      assert placed[..n] == PlacedAll(findings[..n], ByPath(files), tolerance);
      PairedPrefix(Moved, findings, placed, n);
      PairedPrefix(LostItsLine, findings, placed, n);
      PairedPrefix(DroppedFile, findings, placed, n);
    }
  }

  /** An anchored finding of a known file keeps its line if that is an anchor.  Otherwise it moves to the
      closest added line in reach, the lower of two as close; to the closest context line when no added one is
      in reach; and it keeps no line exactly when nothing is in reach. */
  lemma {:induction false} PlacedNearest(f: Finding, byPath: map<string, DiffFile>, tolerance: int)
    requires Text.Normalized(f.file) in byPath && f.line.Some?
    ensures Placed(f, byPath, tolerance).Some?
    ensures var file, line := byPath[Text.Normalized(f.file)], f.line.value;
            var added, anchors := AddedLines(file), AnchorableLines(file);
            var to := Placed(f, byPath, tolerance).value.line;
            && (line in anchors ==> to == Some(line))
            && (line !in anchors ==>
                  && (to.None? <==> forall n <- anchors :: Distance(n, line) > tolerance)
                  && (to.Some? ==> to.value in anchors && Distance(to.value, line) <= tolerance)
                  && (to.Some? && to.value !in added ==> forall n <- added :: Distance(n, line) > tolerance)
                  && (to.Some? ==>
                        forall n <- if to.value in added then added else anchors ::
                          && Distance(to.value, line) <= Distance(n, line)
                          && (Distance(to.value, line) == Distance(n, line) ==> to.value <= n)))
  {
    SnapsToAnAnchor(byPath[Text.Normalized(f.file)], f.line.value, tolerance);
  }

  /** The finding names a key of the diff, and a line of that file a comment may be attached to. */
  predicate Located(f: Finding, byPath: map<string, DiffFile>) {
    f.file in byPath && (f.line.Some? ==> f.line.value in AnchorableLines(byPath[f.file]))
  }

  /** Whatever location was reported, what comes out is located, and a located finding stays put. */
  lemma {:induction false} PlacedIsLocated(f: Finding, byPath: map<string, DiffFile>, tolerance: int)
    ensures var g := Placed(f, byPath, tolerance);
            && (g.None? <==> Text.Normalized(f.file) !in byPath)
            && (g.Some? ==>
                  && Located(g.value, byPath)
                  && g.value == f.(file := g.value.file, line := g.value.line)
                  && g.value.file == Text.Normalized(f.file)
                  && (f.line.None? ==> g.value.line.None?))
            && (Located(f.(file := Text.Normalized(f.file)), byPath) ==> g == Some(f.(file := Text.Normalized(f.file))))
  {
    var path := Text.Normalized(f.file);
    if path in byPath && f.line.Some? {
      SnapsToAnAnchor(byPath[path], f.line.value, tolerance);
    }
  }

  lemma {:induction false} AnchoredAreLocated(findings: seq<Finding>, files: seq<DiffFile>, tolerance: int)
    ensures forall g <- AnchoredReport(findings, files, tolerance).findings :: Located(g, ByPath(files))
  {
    var placed := PlacedAll(findings, ByPath(files), tolerance);
    AnchoringAccounts(findings, files, tolerance);
    KeptSelects(placed);
    forall g | g in Kept(placed)
      ensures Located(g, ByPath(files))
    {
      var j :| 0 <= j < |Kept(placed)| && Kept(placed)[j] == g;
      var i :| 0 <= i < |placed| && KeptAt(placed)[i] == Some(j);
      PlacedIsLocated(findings[i], ByPath(files), tolerance);
    }
  }
}
