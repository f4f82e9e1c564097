/** The two manifests the engine reads: the bead-pool manifest (marker names,
    allele strings and reference strands, patched in place by snpOverride) and
    the manifest in CSV form (marker names and the alleles scanned out of each
    row's TopGenomicSeq by get_manifest_csv). */
module Manifests {
  import opened Builtins
  import opened Alleles

  /** The bead-pool manifest as the engine reads it: three lists in marker
      order, one entry per marker. */
  datatype ManifestData = ManifestData(names: seq<string>, snps: seq<string>, refStrands: seq<RefStrand>)

  type Manifest = m: ManifestData | |m.names| == |m.snps| == |m.refStrands|
    witness ManifestData([], [], [])

  /** The bead-pool manifest object. Only `snps` is ever assigned to after
      loading, by snpOverride. */
  class BeadPoolManifest {
    var names: seq<string>
    var snps: seq<string>
    var refStrands: seq<RefStrand>

    /** The reader gives one entry per marker in each list. */
    predicate Valid()
      reads this
    {
      |names| == |snps| == |refStrands|
    }

    constructor (names: seq<string>, snps: seq<string>, refStrands: seq<RefStrand>)
      requires |names| == |snps| == |refStrands|
      ensures Valid()
      ensures this.names == names && this.snps == snps && this.refStrands == refStrands
    {
      this.names, this.snps, this.refStrands := names, snps, refStrands;
    }

    /** The manifest's current lists, as the record engine reads them. */
    function Current(): (m: Manifest)
      reads this
      requires Valid()
      ensures m.names == names && m.snps == snps && m.refStrands == refStrands
    {
      ManifestData(names, snps, refStrands)
    }
  }

  // ---------------------------------------------------------------------------
  // snpOverride

  /** Where an override run stands: the allele strings so far, the names that
      were logged as not found, and the exception that ended the run, if any. */
  datatype OverrideState = OverrideState(snps: seq<string>, skipped: seq<string>, error: Option<PyError>)

  /** The marker name of an override line: everything before its first tab. */
  function OverrideName(line: string): string {
    SplitOn(line, '\t')[0]
  }

  /** The replacement an override line carries: its second tab-separated
      field, stripped (`snp[1].strip()`); empty when the line has no tab. */
  function Replacement(line: string): string {
    var fields := SplitOn(line, '\t');
    if |fields| < 2 then "" else Strip(fields[1])
  }

  /** The marker position an override line targets: the first marker of that
      name, if there is one. */
  function OverrideTarget(names: seq<string>, line: string): Option<nat> {
    IndexOf(names, OverrideName(line))
  }

  /** One line of snpOverride. The first marker with the line's name gets the
      line's replacement as its new allele string. An unknown name raises
      ValueError, which is caught and logged (Ok with `found` false); a known
      name on a line without a tab raises IndexError, which is not caught. */
  function OverrideLine(names: seq<string>, snps: seq<string>, line: string): (r: Result<(seq<string>, bool)>)
    requires |names| == |snps|
    ensures r.Err? <==> OverrideName(line) in names && '\t' !in line
    ensures r.Err? ==> r.error == IndexError
    ensures r.Ok? ==> (r.value.1 <==> OverrideTarget(names, line).Some?)
    ensures r.Ok? && !r.value.1 ==> r.value.0 == snps
    ensures r.Ok? && r.value.1 ==>
      r.value.0 == snps[OverrideTarget(names, line).value := Replacement(line)]
  {
    var fields := SplitOn(line, '\t');
    match IndexOf(names, fields[0])
    case None => Ok((snps, false))
    case Some(i) =>
      if |fields| < 2 then Err(IndexError)
      else Ok((snps[i := Strip(fields[1])], true))
  }

  /** One line of snpOverride on the run so far: nothing once the run has
      raised; otherwise the line's patch, its logged name when the name is
      unknown, or the exception that ends the run. */
  function OverrideStep(names: seq<string>, prev: OverrideState, line: string): (s: OverrideState)
    requires |names| == |prev.snps|
    ensures |s.snps| == |prev.snps|
  {
    if prev.error.Some? then prev
    else
      match OverrideLine(names, prev.snps, line)
      case Err(e) => OverrideState(prev.snps, prev.skipped, Some(e))
      case Ok((patched, found)) =>
        OverrideState(patched, if found then prev.skipped else prev.skipped + [OverrideName(line)], None)
  }

  /** snpOverride over the lines of the override file, in order; the run ends
      at the first uncaught exception. */
  function OverrideRun(names: seq<string>, snps: seq<string>, lines: seq<string>): (s: OverrideState)
    requires |names| == |snps|
    ensures |s.snps| == |snps|
    decreases |lines|
  {
    if |lines| == 0 then OverrideState(snps, [], None)
    else OverrideStep(names, OverrideRun(names, snps, lines[..|lines| - 1]), lines[|lines| - 1])
  }

  /** The run over one more line is one more step. */
  lemma OverrideRunSnoc(names: seq<string>, snps: seq<string>, lines: seq<string>, line: string)
    requires |names| == |snps|
    ensures OverrideRun(names, snps, lines + [line]) == OverrideStep(names, OverrideRun(names, snps, lines), line)
  {
    assert (lines + [line])[..|lines|] == lines;
  }

  /** A completed override run leaves the allele string of a marker that no
      line targets as it was. */
  lemma {:induction false} OverrideUntouched(names: seq<string>, snps: seq<string>, lines: seq<string>, i: nat)
    requires |names| == |snps| && i < |snps|
    requires OverrideRun(names, snps, lines).error.None?
    requires forall k :: 0 <= k < |lines| ==> OverrideTarget(names, lines[k]) != Some(i)
    ensures OverrideRun(names, snps, lines).snps[i] == snps[i]
    decreases |lines|
  {
    if |lines| > 0 {
      var init := lines[..|lines| - 1];
      assert forall k :: 0 <= k < |init| ==> init[k] == lines[k];
      OverrideUntouched(names, snps, init, i);
    }
  }

  /** In a completed override run, the allele string of a marker is the
      replacement of the last line that targets it. */
  lemma {:induction false} OverrideLastLineWins(names: seq<string>, snps: seq<string>, lines: seq<string>, k: nat)
    requires |names| == |snps| && k < |lines|
    requires OverrideRun(names, snps, lines).error.None?
    requires OverrideTarget(names, lines[k]).Some?
    requires forall j :: k < j < |lines| ==> OverrideTarget(names, lines[j]) != OverrideTarget(names, lines[k])
    ensures OverrideRun(names, snps, lines).snps[OverrideTarget(names, lines[k]).value] == Replacement(lines[k])
    decreases |lines|
  {
    var init := lines[..|lines| - 1];
    if k < |lines| - 1 {
      assert forall j :: 0 <= j < |init| ==> init[j] == lines[j];
      OverrideLastLineWins(names, snps, init, k);
    }
  }

  /** A line whose name is not in the manifest is only logged: dropping it
      from anywhere in the file changes neither the outcome nor the patched
      allele strings, and the lines after it are still applied. */
  lemma {:induction false} OverrideSkipsUnknown(names: seq<string>, snps: seq<string>, before: seq<string>, line: string, after: seq<string>)
    requires |names| == |snps|
    requires OverrideName(line) !in names
    ensures var withLine := OverrideRun(names, snps, before + [line] + after);
            var without := OverrideRun(names, snps, before + after);
            withLine.snps == without.snps && withLine.error == without.error
    decreases |after|
  {
    if |after| == 0 {
      assert before + [line] + after == before + [line];
      assert before + after == before;
      OverrideRunSnoc(names, snps, before, line);
    } else {
      var shorter, last := after[..|after| - 1], after[|after| - 1];
      OverrideSkipsUnknown(names, snps, before, line, shorter);
      assert before + [line] + after == (before + [line] + shorter) + [last];
      assert before + after == (before + shorter) + [last];
      OverrideRunSnoc(names, snps, before + [line] + shorter, last);
      OverrideRunSnoc(names, snps, before + shorter, last);
    }
  }

  /** The run over one more line of the file is one more step. */
  lemma OverrideRunPrefix(names: seq<string>, snps: seq<string>, lines: seq<string>, k: nat)
    requires |names| == |snps| && k < |lines|
    ensures OverrideRun(names, snps, lines[..k + 1]) == OverrideStep(names, OverrideRun(names, snps, lines[..k]), lines[k])
  {
    assert lines[..k + 1][..k] == lines[..k];
  }

  /** The body of snpOverride's loop for one line: patches the allele string
      of the first marker with the line's name in place; returns the name when
      it is unknown (logged and skipped), or the exception when the line has
      no tab. */
  method OverrideOne(manifest: BeadPoolManifest, line: string, ghost skipped: seq<string>) returns (unknown: Option<string>, error: Option<PyError>)
    requires manifest.Valid()
    modifies manifest
    ensures manifest.Valid()
    ensures manifest.names == old(manifest.names) && manifest.refStrands == old(manifest.refStrands)
    ensures OverrideStep(old(manifest.names), OverrideState(old(manifest.snps), skipped, None), line)
         == OverrideState(manifest.snps, if unknown.Some? then skipped + [unknown.value] else skipped, error)
  {
    var fields := SplitOn(line, '\t');
    var found := IndexOf(manifest.names, fields[0]);
    if found.None? {
      return Some(fields[0]), None;
    }
    if |fields| < 2 {
      return None, Some(IndexError);
    }
    manifest.snps := manifest.snps[found.value := Strip(fields[1])];
    return None, None;
  }

  /** snpOverride: applies the override file's lines to `manifest.snps` in
      place, in file order. */
  method SnpOverride(manifest: BeadPoolManifest, lines: seq<string>) returns (skipped: seq<string>, error: Option<PyError>)
    requires manifest.Valid()
    modifies manifest
    ensures manifest.Valid()
    ensures manifest.names == old(manifest.names) && manifest.refStrands == old(manifest.refStrands)
    ensures OverrideRun(old(manifest.names), old(manifest.snps), lines) == OverrideState(manifest.snps, skipped, error)
  {
    ghost var names, snps := manifest.names, manifest.snps;
    skipped, error := [], None;
    var k := 0;
    while k < |lines|
      invariant 0 <= k <= |lines|
      invariant manifest.Valid()
      invariant manifest.names == names && manifest.refStrands == old(manifest.refStrands)
      invariant OverrideRun(names, snps, lines[..k]) == OverrideState(manifest.snps, skipped, error)
      invariant error.None?
    {
      OverrideRunPrefix(names, snps, lines, k);
      var unknown;
      unknown, error := OverrideOne(manifest, lines[k], skipped);
      if error.Some? {
        OverrideRunStops(names, snps, lines, k + 1);
        return;
      }
      if unknown.Some? {
        skipped := skipped + [unknown.value];
      }
      k := k + 1;
    }
    assert lines[..k] == lines;
  }

  /** Once an override run has raised, the remaining lines change nothing. */
  lemma {:induction false} OverrideRunStops(names: seq<string>, snps: seq<string>, lines: seq<string>, k: nat)
    requires |names| == |snps| && k <= |lines|
    requires OverrideRun(names, snps, lines[..k]).error.Some?
    ensures OverrideRun(names, snps, lines) == OverrideRun(names, snps, lines[..k])
    decreases |lines| - k
  {
    if k < |lines| {
      assert lines[..k + 1][..k] == lines[..k];
      OverrideRunStops(names, snps, lines, k + 1);
    } else {
      assert lines[..k] == lines;
    }
  }

  // ---------------------------------------------------------------------------
  // get_manifest_csv

  /** The marker list of the CSV manifest: names and allele pairs, appended
      together, so always of the same length. */
  datatype CsvTable = CsvTable(names: seq<string>, alleles: seq<(char, char)>)

  type CsvManifest = c: CsvTable | |c.names| == |c.alleles| witness CsvTable([], [])

  /** The allele a row gets when no window is found: the string 'NA', whose
      two characters the base call reads as the pair. */
  const NotAvailable: (char, char) := ('N', 'A')

  /** Position i stops the scan of get_manifest_csv: it is within
      `range(len(s) - 1)`, holds '[', and either `s[i + 4]` lies past the end
      (the lookup raises IndexError) or it is ']'. */
  predicate ScanStops(s: string, i: nat) {
    i + 1 < |s| && s[i] == '[' && (i + 4 >= |s| || s[i + 4] == ']')
  }

  /** The scan of `top_genomic_seq` from position `from` on, as the loop of
      get_manifest_csv performs it. */
  function BracketAlleles(s: string, from: nat): (r: Result<(char, char)>)
    ensures r.Err? ==> r.error == IndexError
    decreases |s| - from
  {
    if from + 1 >= |s| then Ok(NotAvailable)
    else if ScanStops(s, from) then
      if from + 4 >= |s| then Err(IndexError) else Ok((s[from + 1], s[from + 3]))
    else BracketAlleles(s, from + 1)
  }

  /** The first position that stops the scan decides its outcome: the
      characters at offsets 1 and 3 of a `[x/y]` window, or IndexError when the
      '[' is too close to the end for `s[i + 4]` to exist. */
  lemma {:induction false} BracketAllelesFirstStop(s: string, from: nat, i: nat)
    requires from <= i && ScanStops(s, i)
    requires forall j :: from <= j < i ==> !ScanStops(s, j)
    ensures BracketAlleles(s, from) == if i + 4 >= |s| then Err(IndexError) else Ok((s[i + 1], s[i + 3]))
    decreases i - from
  {
    if from < i {
      BracketAllelesFirstStop(s, from + 1, i);
    }
  }

  /** With no position that stops the scan, the allele is 'NA'. */
  lemma {:induction false} BracketAllelesNoStop(s: string, from: nat)
    requires forall j :: from <= j < |s| ==> !ScanStops(s, j)
    ensures BracketAlleles(s, from) == Ok(NotAvailable)
    decreases |s| - from
  {
    if from + 1 < |s| {
      BracketAllelesNoStop(s, from + 1);
    }
  }

  /** The `[x/y]` scan of get_manifest_csv over one TopGenomicSeq, with the
      loop and its `break`. */
  method ScanTopGenomicSeq(s: string) returns (r: Result<(char, char)>)
    ensures r == BracketAlleles(s, 0)
  {
    r := Ok(NotAvailable);
    var i := 0;
    while i < |s| - 1
      invariant 0 <= i <= |s|
      invariant forall j :: 0 <= j < i ==> !ScanStops(s, j)
      invariant BracketAlleles(s, i) == BracketAlleles(s, 0)
    {
      if s[i] == '[' {
        if i + 4 >= |s| {
          r := Err(IndexError);
          return;
        }
        if s[i + 4] == ']' {
          r := Ok((s[i + 1], s[i + 3]));
          break;
        }
      }
      i := i + 1;
    }
  }

  /** A row of the CSV manifest, as `dict(zip(header, row))`. */
  type CsvRow = map<string, string>

  /** The rows get_manifest_csv keeps: those with both a Name and a
      TopGenomicSeq column, in file order (see KeptRowsAppend for the order). */
  function KeptRows(rows: seq<CsvRow>): (kept: seq<CsvRow>)
    ensures |kept| <= |rows|
    ensures forall k :: 0 <= k < |kept| ==> "Name" in kept[k] && "TopGenomicSeq" in kept[k]
    ensures forall row :: row in kept <==> row in rows && "Name" in row && "TopGenomicSeq" in row
  {
    if |rows| == 0 then []
    else
      var row := rows[|rows| - 1];
      var prev := KeptRows(rows[..|rows| - 1]);
      if "Name" in row && "TopGenomicSeq" in row then prev + [row] else prev
  }

  /** Keeping rows commutes with concatenation, and a single row is kept
      exactly when it has both columns: the kept rows are the file's rows
      with the others dropped, in their order. */
  lemma {:induction false} KeptRowsAppend(a: seq<CsvRow>, b: seq<CsvRow>)
    ensures KeptRows(a + b) == KeptRows(a) + KeptRows(b)
    ensures |b| == 1 ==>
      KeptRows(b) == if "Name" in b[0] && "TopGenomicSeq" in b[0] then b else []
    decreases |b|
  {
    if |b| == 0 {
      assert a + b == a;
    } else {
      var b', row := b[..|b| - 1], b[|b| - 1];
      assert (a + b)[..|a + b| - 1] == a + b';
      assert (a + b)[|a + b| - 1] == row;
      KeptRowsAppend(a, b');
      var tail := if "Name" in row && "TopGenomicSeq" in row then [row] else [];
      assert KeptRows(a + b) == KeptRows(a + b') + tail;
      assert KeptRows(b) == KeptRows(b') + tail;
      assert (KeptRows(a) + KeptRows(b')) + tail == KeptRows(a) + (KeptRows(b') + tail);
      if |b| == 1 {
        assert b' == [];
      }
    }
  }

  /** The manifest get_manifest_csv builds from the rows, in order; a scan
      that raises ends the run. */
  function CsvManifestOf(rows: seq<CsvRow>): (r: Result<CsvManifest>)
    ensures r.Ok? ==> |r.value.names| == |r.value.alleles| <= |rows|
  {
    if |rows| == 0 then Ok(CsvTable([], []))
    else
      match CsvManifestOf(rows[..|rows| - 1])
      case Err(e) => Err(e)
      case Ok(c) =>
        var row := rows[|rows| - 1];
        if "Name" !in row || "TopGenomicSeq" !in row then Ok(c)
        else
          match BracketAlleles(row["TopGenomicSeq"], 0)
          case Err(e) => Err(e)
          case Ok(a) => Ok(CsvTable(c.names + [row["Name"]], c.alleles + [a]))
  }

  /** The CSV manifest lists exactly the kept rows, in order: entry k has the
      Name of kept row k and the alleles scanned from its TopGenomicSeq. */
  lemma {:induction false} CsvManifestEntries(rows: seq<CsvRow>)
    requires CsvManifestOf(rows).Ok?
    ensures var c := CsvManifestOf(rows).value;
            var kept := KeptRows(rows);
            |c.names| == |kept|
            && forall k :: 0 <= k < |kept| ==>
                 c.names[k] == kept[k]["Name"]
                 && BracketAlleles(kept[k]["TopGenomicSeq"], 0) == Ok(c.alleles[k])
  {
    if |rows| > 0 {
      CsvManifestEntries(rows[..|rows| - 1]);
    }
  }

  /** The scan of a kept row's TopGenomicSeq raises. */
  predicate ScanRaises(row: CsvRow) {
    "TopGenomicSeq" in row && BracketAlleles(row["TopGenomicSeq"], 0).Err?
  }

  /** The CSV manifest cannot be built exactly when the scan of some kept
      row's TopGenomicSeq raises. */
  lemma {:induction false} CsvManifestFails(rows: seq<CsvRow>)
    ensures CsvManifestOf(rows).Err? <==> exists k :: 0 <= k < |KeptRows(rows)| && ScanRaises(KeptRows(rows)[k])
  {
    if |rows| > 0 {
      var init, row := rows[..|rows| - 1], rows[|rows| - 1];
      CsvManifestFails(init);
      var prev, kept := KeptRows(init), KeptRows(rows);
      var isKept := "Name" in row && "TopGenomicSeq" in row;
      assert kept == if isKept then prev + [row] else prev;
      assert forall k :: 0 <= k < |prev| ==> kept[k] == prev[k];
      if CsvManifestOf(init).Err? {
        var j :| 0 <= j < |prev| && ScanRaises(prev[j]);
        assert 0 <= j < |KeptRows(rows)| && ScanRaises(KeptRows(rows)[j]);
        assert CsvManifestOf(rows) == Err(CsvManifestOf(init).error);
      } else {
        var c := CsvManifestOf(init).value;
        if !isKept {
          assert CsvManifestOf(rows) == Ok(c);
        } else {
          assert kept[|prev|] == row;
          assert CsvManifestOf(rows).Err? <==> ScanRaises(row);
        }
      }
    }
  }

  /** get_manifest_csv over the rows after the header. */
  method GetManifestCsv(rows: seq<CsvRow>) returns (r: Result<CsvManifest>)
    ensures r == CsvManifestOf(rows)
  {
    var names: seq<string> := [];
    var alleles: seq<(char, char)> := [];
    var k := 0;
    while k < |rows|
      invariant 0 <= k <= |rows|
      invariant |names| == |alleles|
      invariant CsvManifestOf(rows[..k]) == Ok(CsvTable(names, alleles))
    {
      assert rows[..k + 1][..k] == rows[..k];
      var row := rows[k];
      if "Name" in row && "TopGenomicSeq" in row {
        var allele := ScanTopGenomicSeq(row["TopGenomicSeq"]);
        if allele.Err? {
          r := Err(allele.error);
          CsvManifestStops(rows, k + 1);
          return;
        }
        names := names + [row["Name"]];
        alleles := alleles + [allele.value];
      }
      k := k + 1;
    }
    assert rows[..k] == rows;
    r := Ok(CsvTable(names, alleles));
  }

  /** Once the CSV scan has raised, later rows change nothing. */
  lemma {:induction false} CsvManifestStops(rows: seq<CsvRow>, k: nat)
    requires k <= |rows|
    requires CsvManifestOf(rows[..k]).Err?
    ensures CsvManifestOf(rows) == CsvManifestOf(rows[..k])
    decreases |rows| - k
  {
    if k < |rows| {
      assert rows[..k + 1][..k] == rows[..k];
      CsvManifestStops(rows, k + 1);
    } else {
      assert rows[..k] == rows;
    }
  }
}
