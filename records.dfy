/** A decoded genotype-call record and the two edits applied to it in place:
    snpUpdate (one marker's genotype code and base call) and updateMetaData
    (scalar sample metadata). */
module Records {
  import opened Builtins
  import opened Alleles
  import opened Manifests

  /** The record field holding the per-marker genotype codes. */
  const GenotypesField: int := 1002
  /** The record field holding the per-marker base-call strings. */
  const BaseCallsField: int := 1003

  /** A field of a decoded record. */
  datatype Value =
    | Codes(codes: seq<int>)     // a per-marker list of genotype codes
    | Calls(calls: seq<string>)  // a per-marker list of encoded base-call strings
    | Encoded(text: string)      // a scalar string, stored encoded
    | Opaque(raw: seq<int>)      // any other decoded field, never read by the engine

  /** A decoded record: field id to value. */
  type Fields = map<int, Value>

  // ---------------------------------------------------------------------------
  // snpUpdate

  /** What snpUpdate works out from an edit line before it writes anything:
      the marker position, its strand-corrected reference alleles and the
      requested pair. */
  datatype EditTarget = EditTarget(loc: nat, refs: (char, char), r0: char, r1: char)

  /** The marker name of an edit line: its first whitespace-separated field. */
  function EditMarker(line: string): Option<string> {
    var fields := Tokens(line);
    if |fields| == 0 then None else Some(fields[0])
  }

  /** The lookups of snpUpdate, in the source's order: the first manifest
      marker with the line's name (ValueError when there is none), the CSV
      manifest's name at that position, which must be the same
      (AssertionError otherwise), the reference alleles, and the first two
      characters of the line's second field. */
  function ResolveEdit(line: string, m: Manifest, csv: CsvManifest): (r: Result<EditTarget>)
    ensures EditMarker(line).None? ==> r == Err(IndexError)
    ensures EditMarker(line).Some? && EditMarker(line).value !in m.names ==> r == Err(ValueError)
    ensures r.Ok? ==>
      var t := r.value;
      && EditMarker(line).Some?
      && IndexOf(m.names, EditMarker(line).value) == Some(t.loc)
      && t.loc < |csv.names| && csv.names[t.loc] == m.names[t.loc]
      && ReferenceAlleles(m.snps[t.loc], m.refStrands[t.loc]) == Ok(t.refs)
      && |Tokens(line)| >= 2 && |Tokens(line)[1]| >= 2
      && t.r0 == Tokens(line)[1][0] && t.r1 == Tokens(line)[1][1]
    ensures EditMarker(line).Some? && IndexOf(m.names, EditMarker(line).value).Some? ==>
      var loc := IndexOf(m.names, EditMarker(line).value).value;
      && (loc >= |csv.names| ==> r == Err(IndexError))
      && (loc < |csv.names| && csv.names[loc] != m.names[loc] ==> r == Err(AssertionError))
      && (loc < |csv.names| && csv.names[loc] == m.names[loc] ==>
            var refs := ReferenceAlleles(m.snps[loc], m.refStrands[loc]);
            && (refs.Err? ==> r == Err(refs.error))
            && (refs.Ok? ==> (r.Ok? <==> |Tokens(line)| >= 2 && |Tokens(line)[1]| >= 2))
            && (refs.Ok? && r.Err? ==> r.error == IndexError)
            && (r.Ok? ==> r.value.loc == loc))
  {
    var fields := Tokens(line);
    if |fields| == 0 then Err(IndexError)
    else
      match IndexOf(m.names, fields[0])
      case None => Err(ValueError)
      case Some(loc) =>
        if loc >= |csv.names| then Err(IndexError)
        else if m.names[loc] != csv.names[loc] then Err(AssertionError)
        else
          match ReferenceAlleles(m.snps[loc], m.refStrands[loc])
          case Err(e) => Err(e)
          case Ok(refs) =>
            if |fields| < 2 || |fields[1]| < 2 then Err(IndexError)
            else Ok(EditTarget(loc, refs, fields[1][0], fields[1][1]))
  }

  /** The record's genotype codes and base calls, when both fields are lists
      long enough to index at `loc`. */
  predicate HasMarker(data: Fields, loc: nat) {
    && GenotypesField in data && data[GenotypesField].Codes? && loc < |data[GenotypesField].codes|
    && BaseCallsField in data && data[BaseCallsField].Calls? && loc < |data[BaseCallsField].calls|
  }

  /** The writing half of snpUpdate, once the marker and the decision are
      known: fields 1002 and 1003 must be lists long enough to index at
      `loc` (KeyError, TypeError or IndexError otherwise); the decision's code
      (the old one when it keeps it) and the base call spelled from it are
      written at `loc`. */
  function WriteMarker(data: Fields, loc: nat, d: Decision, refs: (char, char), alleles: (char, char)): (r: Result<Fields>)
    ensures r.Ok? <==> HasMarker(data, loc)
    ensures r.Ok? ==> r.value.Keys == data.Keys && HasMarker(r.value, loc)
  {
    if GenotypesField !in data then Err(KeyError)
    else if !data[GenotypesField].Codes? then Err(TypeError)
    else if loc >= |data[GenotypesField].codes| then Err(IndexError)
    else if BaseCallsField !in data then Err(KeyError)
    else if !data[BaseCallsField].Calls? then Err(TypeError)
    else if loc >= |data[BaseCallsField].calls| then Err(IndexError)
    else
      var codes := data[GenotypesField].codes;
      var calls := data[BaseCallsField].calls;
      var code := if d.Assign? then d.code else codes[loc];
      var call := BaseCall(code, d.allele, refs, alleles);
      Ok(data[GenotypesField := Codes(codes[loc := code])][BaseCallsField := Calls(calls[loc := call])])
  }

  /** snpUpdate on a record: the genotype code of the marker (the old one when
      the decision keeps it) and the base call spelled from it, written at the
      marker's position of fields 1002 and 1003. */
  function SnpEdit(data: Fields, line: string, m: Manifest, csv: CsvManifest): (r: Result<Fields>)
    ensures ResolveEdit(line, m, csv).Err? ==> r == Err(ResolveEdit(line, m, csv).error)
    ensures r.Ok? ==> r.value.Keys == data.Keys && HasMarker(data, ResolveEdit(line, m, csv).value.loc)
  {
    match ResolveEdit(line, m, csv)
    case Err(e) => Err(e)
    case Ok(t) =>
      match Classify(t.r0, t.r1, t.refs)
      case Err(e) => Err(e)
      case Ok(d) => WriteMarker(data, t.loc, d, t.refs, csv.alleles[t.loc])
  }

  /** SnpEdit once its lookups and decision are known: the lookups read the
      line and the manifests only, so the record is written by WriteMarker. */
  lemma SnpEditIsWrite(data: Fields, line: string, m: Manifest, csv: CsvManifest)
    requires ResolveEdit(line, m, csv).Ok?
    requires var t := ResolveEdit(line, m, csv).value; Classify(t.r0, t.r1, t.refs).Ok?
    ensures var t := ResolveEdit(line, m, csv).value;
      SnpEdit(data, line, m, csv) == WriteMarker(data, t.loc, Classify(t.r0, t.r1, t.refs).value, t.refs, csv.alleles[t.loc])
  {
  }

  /** WriteMarker changes nothing but position `loc` of fields 1002 and 1003. */
  lemma WriteMarkerFrame(data: Fields, loc: nat, d: Decision, refs: (char, char), alleles: (char, char))
    requires WriteMarker(data, loc, d, refs, alleles).Ok?
    ensures var after := WriteMarker(data, loc, d, refs, alleles).value;
            && HasMarker(data, loc) && HasMarker(after, loc)
            && after.Keys == data.Keys
            && (forall k :: k in data && k != GenotypesField && k != BaseCallsField ==> after[k] == data[k])
            && |after[GenotypesField].codes| == |data[GenotypesField].codes|
            && |after[BaseCallsField].calls| == |data[BaseCallsField].calls|
            && (forall j :: 0 <= j < |data[GenotypesField].codes| && j != loc ==>
                  after[GenotypesField].codes[j] == data[GenotypesField].codes[j])
            && (forall j :: 0 <= j < |data[BaseCallsField].calls| && j != loc ==>
                  after[BaseCallsField].calls[j] == data[BaseCallsField].calls[j])
  {
  }

  /** What WriteMarker writes at `loc`: the decision's code, or the old one,
      and the base call of that code. */
  lemma WriteMarkerWrites(data: Fields, loc: nat, d: Decision, refs: (char, char), alleles: (char, char))
    requires WriteMarker(data, loc, d, refs, alleles).Ok?
    ensures var after := WriteMarker(data, loc, d, refs, alleles).value;
            var code := after[GenotypesField].codes[loc];
            && HasMarker(after, loc)
            && code == (if d.Assign? then d.code else data[GenotypesField].codes[loc])
            && after[BaseCallsField].calls[loc] == BaseCall(code, d.allele, refs, alleles)
  {
  }

  /** Writing the same marker twice gives the record of writing it once. */
  lemma WriteMarkerIdempotent(data: Fields, loc: nat, d: Decision, refs: (char, char), alleles: (char, char))
    requires WriteMarker(data, loc, d, refs, alleles).Ok?
    ensures WriteMarker(WriteMarker(data, loc, d, refs, alleles).value, loc, d, refs, alleles)
         == WriteMarker(data, loc, d, refs, alleles)
  {
    var once := WriteMarker(data, loc, d, refs, alleles).value;
    WriteMarkerFrame(data, loc, d, refs, alleles);
    WriteMarkerWrites(data, loc, d, refs, alleles);
    var codes := once[GenotypesField].codes;
    var calls := once[BaseCallsField].calls;
    assert codes[loc := codes[loc]] == codes;
    assert calls[loc := calls[loc]] == calls;
    assert once[GenotypesField := Codes(codes)][BaseCallsField := Calls(calls)] == once;
  }

  /** snpUpdate changes nothing but position `loc` of fields 1002 and 1003,
      where `loc` is the first manifest marker with the line's name: every
      other field, and every other position of those two, is unchanged. */
  lemma SnpEditFrame(data: Fields, line: string, m: Manifest, csv: CsvManifest)
    requires SnpEdit(data, line, m, csv).Ok?
    ensures var after := SnpEdit(data, line, m, csv).value;
            var loc := ResolveEdit(line, m, csv).value.loc;
            && HasMarker(data, loc) && HasMarker(after, loc)
            && after.Keys == data.Keys
            && (forall k :: k in data && k != GenotypesField && k != BaseCallsField ==> after[k] == data[k])
            && |after[GenotypesField].codes| == |data[GenotypesField].codes|
            && |after[BaseCallsField].calls| == |data[BaseCallsField].calls|
            && (forall j :: 0 <= j < |data[GenotypesField].codes| && j != loc ==>
                  after[GenotypesField].codes[j] == data[GenotypesField].codes[j])
            && (forall j :: 0 <= j < |data[BaseCallsField].calls| && j != loc ==>
                  after[BaseCallsField].calls[j] == data[BaseCallsField].calls[j])
  {
    var t := ResolveEdit(line, m, csv).value;
    SnpEditIsWrite(data, line, m, csv);
    WriteMarkerFrame(data, t.loc, Classify(t.r0, t.r1, t.refs).value, t.refs, csv.alleles[t.loc]);
  }

  /** What snpUpdate writes: the code the decision assigns (or the old code
      for `-X`), and the base call of that code, spelled from the pair the
      decision's allele selects. Code and base call are therefore consistent. */
  lemma SnpEditWrites(data: Fields, line: string, m: Manifest, csv: CsvManifest)
    requires SnpEdit(data, line, m, csv).Ok?
    ensures var t := ResolveEdit(line, m, csv).value;
            var d := Classify(t.r0, t.r1, t.refs).value;
            var after := SnpEdit(data, line, m, csv).value;
            var code := after[GenotypesField].codes[t.loc];
            && HasMarker(after, t.loc)
            && code == (if d.Assign? then d.code else data[GenotypesField].codes[t.loc])
            && after[BaseCallsField].calls[t.loc] == BaseCall(code, d.allele, t.refs, csv.alleles[t.loc])
  {
    var t := ResolveEdit(line, m, csv).value;
    SnpEditIsWrite(data, line, m, csv);
    WriteMarkerWrites(data, t.loc, Classify(t.r0, t.r1, t.refs).value, t.refs, csv.alleles[t.loc]);
  }

  /** Applying the same edit line twice gives the record of applying it once,
      also for `-X`, whose kept code gives the same base call again. */
  lemma SnpEditIdempotent(data: Fields, line: string, m: Manifest, csv: CsvManifest)
    requires SnpEdit(data, line, m, csv).Ok?
    ensures SnpEdit(SnpEdit(data, line, m, csv).value, line, m, csv) == SnpEdit(data, line, m, csv)
  {
    var t := ResolveEdit(line, m, csv).value;
    var once := SnpEdit(data, line, m, csv).value;
    SnpEditIsWrite(data, line, m, csv);
    SnpEditIsWrite(once, line, m, csv);
    WriteMarkerIdempotent(data, t.loc, Classify(t.r0, t.r1, t.refs).value, t.refs, csv.alleles[t.loc]);
  }

  /** Every failure of snpUpdate, before anything is written: an edit line
      naming a marker the manifest does not have raises ValueError, a marker
      whose CSV manifest name differs fails the name assertion, and a record
      without a genotype field (as before the first header) cannot be edited
      at all. */
  lemma SnpEditFailures(data: Fields, line: string, m: Manifest, csv: CsvManifest)
    ensures EditMarker(line).Some? && EditMarker(line).value !in m.names ==>
      SnpEdit(data, line, m, csv) == Err(ValueError)
    ensures EditMarker(line).Some? ==>
      var loc := IndexOf(m.names, EditMarker(line).value);
      loc.Some? && loc.value < |csv.names| && csv.names[loc.value] != m.names[loc.value] ==>
      SnpEdit(data, line, m, csv) == Err(AssertionError)
    ensures GenotypesField !in data ==> SnpEdit(data, line, m, csv).Err?
  {
  }

  /** A one-marker manifest: `rsA`, probed as `[A/G]` on the given strand. */
  function ExampleManifest(strand: RefStrand): Manifest {
    ManifestData(["rsA"], ["[A/G]"], [strand])
  }

  /** The CSV manifest of the example marker: alleles A and G. */
  function ExampleCsv(): CsvManifest {
    CsvTable(["rsA"], [('A', 'G')])
  }

  /** A one-marker record whose marker is uncalled. */
  function ExampleRecord(): Fields {
    map[GenotypesField := Codes([0]), BaseCallsField := Calls(["--"])]
  }

  /** The edit line `rsA ab` names marker 0, whose reference alleles are A and
      G on the Plus strand and their complements T and C on the Minus strand. */
  lemma ExampleResolve(strand: RefStrand, a: char, b: char)
    requires !IsSpace(a) && !IsSpace(b)
    ensures ResolveEdit("rsA " + [a, b] + "\n", ExampleManifest(strand), ExampleCsv())
         == Ok(EditTarget(0, if strand == Plus then ('A', 'G') else ('T', 'C'), a, b))
  {
    var line := "rsA " + [a, b] + "\n";
    ExampleTokens(a, b);
    assert IndexOf(ExampleManifest(strand).names, "rsA") == Some(0);
    ExampleReferenceAlleles(strand);
  }

  lemma ExampleTokens(a: char, b: char)
    requires !IsSpace(a) && !IsSpace(b)
    ensures Tokens("rsA " + [a, b] + "\n") == ["rsA", [a, b]]
  {
    TokensOfLine("rsA", [a, b]);
    ExampleLineSpelling(a, b);
  }

  lemma ExampleLineSpelling(a: char, b: char)
    ensures "rsA" + (" " + ([a, b] + "\n")) == "rsA " + [a, b] + "\n"
  {
    var spelled := ['r', 's', 'A', ' ', a, b, '\n'];
    assert "rsA" + (" " + ([a, b] + "\n")) == spelled;
    assert "rsA " + [a, b] + "\n" == spelled;
  }

  lemma ExampleReferenceAlleles(strand: RefStrand)
    ensures ReferenceAlleles("[A/G]", strand) == Ok(if strand == Plus then ('A', 'G') else ('T', 'C'))
  {
    ComplementSwapsBases();
  }

  /** WriteMarker on a one-marker record whose marker is uncalled. */
  lemma WriteMarkerSingle(d: Decision, refs: (char, char), alleles: (char, char), code: int, call: string)
    requires code == (if d.Assign? then d.code else 0)
    requires call == BaseCall(code, d.allele, refs, alleles)
    ensures WriteMarker(ExampleRecord(), 0, d, refs, alleles)
         == Ok(map[GenotypesField := Codes([code]), BaseCallsField := Calls([call])])
  {
    var data := ExampleRecord();
    assert [0][0 := code] == [code];
    assert ["--"][0 := call] == [call];
    var after := data[GenotypesField := Codes([code])][BaseCallsField := Calls([call])];
    assert after.Keys == {GenotypesField, BaseCallsField};
    assert after == map[GenotypesField := Codes([code]), BaseCallsField := Calls([call])];
  }

  /** The edit `rsA ab` on the example record, once its decision is known. */
  lemma ExampleEdit(strand: RefStrand, a: char, b: char, d: Decision)
    requires !IsSpace(a) && !IsSpace(b)
    requires Classify(a, b, if strand == Plus then ('A', 'G') else ('T', 'C')) == Ok(d)
    ensures var refs := if strand == Plus then ('A', 'G') else ('T', 'C');
            var code := if d.Assign? then d.code else 0;
            ExampleWrites(strand, a, b, code, BaseCall(code, d.allele, refs, ('A', 'G')))
  {
    var refs := if strand == Plus then ('A', 'G') else ('T', 'C');
    ExampleResolve(strand, a, b);
    SnpEditIsWrite(ExampleRecord(), "rsA " + [a, b] + "\n", ExampleManifest(strand), ExampleCsv());
    var code := if d.Assign? then d.code else 0;
    WriteMarkerSingle(d, refs, ('A', 'G'), code, BaseCall(code, d.allele, refs, ('A', 'G')));
  }

  /** The genotype code and base call the edit line `rsA ab` leaves at the
      example marker on the given strand. */
  predicate ExampleWrites(strand: RefStrand, a: char, b: char, code: int, call: string) {
    SnpEdit(ExampleRecord(), "rsA " + [a, b] + "\n", ExampleManifest(strand), ExampleCsv())
    == Ok(map[GenotypesField := Codes([code]), BaseCallsField := Calls([call])])
  }

  /** On the Plus strand, AA is the first reference allele twice: code 1, base call AA. */
  lemma SnpEditExampleFirstAllele()
    ensures ExampleWrites(Plus, 'A', 'A', 1, "AA")
  {
    assert BaseCall(1, 'A', ('A', 'G'), ('A', 'G')) == "AA";
    assert Classify('A', 'A', ('A', 'G')) == Ok(Assign(1, 'A'));
    ExampleEdit(Plus, 'A', 'A', Assign(1, 'A'));
  }

  /** On the Plus strand, GG is the second reference allele twice: code 3, base call GG. */
  lemma SnpEditExampleSecondAllele()
    ensures ExampleWrites(Plus, 'G', 'G', 3, "GG")
  {
    assert BaseCall(3, 'G', ('A', 'G'), ('A', 'G')) == "GG";
    assert Classify('G', 'G', ('A', 'G')) == Ok(Assign(3, 'G'));
    ExampleEdit(Plus, 'G', 'G', Assign(3, 'G'));
  }

  /** On the Plus strand, AG is heterozygous: code 2, base call AG. */
  lemma SnpEditExampleHeterozygous()
    ensures ExampleWrites(Plus, 'A', 'G', 2, "AG")
  {
    assert BaseCall(2, 'A', ('A', 'G'), ('A', 'G')) == "AG";
    assert Classify('A', 'G', ('A', 'G')) == Ok(Assign(2, 'A'));
    ExampleEdit(Plus, 'A', 'G', Assign(2, 'A'));
  }

  /** `--` is a no-call: code 0, base call `--`. */
  lemma SnpEditExampleNoCall()
    ensures ExampleWrites(Plus, '-', '-', 0, "--")
  {
    assert BaseCall(0, '-', ('A', 'G'), ('A', 'G')) == "--";
    assert Classify('-', '-', ('A', 'G')) == Ok(Assign(0, '-'));
    ExampleEdit(Plus, '-', '-', Assign(0, '-'));
  }

  /** On the Minus strand the reference alleles are T and C; AA is neither, but
      its complement T is the first: code 1, and the base call AA is spelled
      from the CSV alleles. */
  lemma SnpEditExampleComplemented()
    ensures ExampleWrites(Minus, 'A', 'A', 1, "AA")
  {
    assert BaseCall(1, 'T', ('T', 'C'), ('A', 'G')) == "AA";
    ComplementSwapsBases();
    assert Classify('A', 'A', ('T', 'C')) == Ok(Assign(1, 'T'));
    ExampleEdit(Minus, 'A', 'A', Assign(1, 'T'));
  }

  /** On the Minus strand GG complements to C, the second reference allele:
      code 3, base call GG. */
  lemma SnpEditExampleComplementedSecond()
    ensures ExampleWrites(Minus, 'G', 'G', 3, "GG")
  {
    assert BaseCall(3, 'C', ('T', 'C'), ('A', 'G')) == "GG";
    ComplementSwapsBases();
    assert Classify('G', 'G', ('T', 'C')) == Ok(Assign(3, 'C'));
    ExampleEdit(Minus, 'G', 'G', Assign(3, 'C'));
  }

  // ---------------------------------------------------------------------------
  // updateMetaData

  /** The closed key-to-field table of updateMetaData. */
  function MetaDataField(key: string): (id: Option<int>)
    ensures id.Some? ==> MetaDataKey(id.value) == Some(key)
  {
    if key == "sampleName" then Some(10)
    else if key == "sentrixBarcode" then Some(1016)
    else if key == "plateName" then Some(11)
    else if key == "well" then Some(12)
    else if key == "sex" then Some(1007)
    else None
  }

  /** The key that sets a metadata field, for the five fields that have one. */
  function MetaDataKey(id: int): Option<string> {
    if id == 10 then Some("sampleName")
    else if id == 1016 then Some("sentrixBarcode")
    else if id == 11 then Some("plateName")
    else if id == 12 then Some("well")
    else if id == 1007 then Some("sex")
    else None
  }

  /** The key table is a one-to-one correspondence between the five keys and
      the fields 10, 11, 12, 1007 and 1016. */
  lemma MetaDataTableBijective(key: string, id: int)
    ensures MetaDataField(key) == Some(id) <==> MetaDataKey(id) == Some(key)
    ensures MetaDataField(key).Some? ==> MetaDataField(key).value in {10, 11, 12, 1007, 1016}
  {
  }

  /** The parts of one `key=value` assignment: `update.rstrip().split('=')`. */
  function Assignment(update: string): (parts: seq<string>)
    ensures |parts| >= 1
  {
    SplitOn(Rstrip(update), '=')
  }

  /** One assignment of updateMetaData's loop on dataDict: a recognised key
      binds its field to the text between its first '=' and the next '=' or
      the end, overwriting an earlier binding of the same field; an
      unrecognised key is warned about and skipped; a recognised key without
      '=' raises IndexError. */
  function MetaDataStep(dict: map<int, string>, update: string): (r: Result<map<int, string>>)
    ensures (forall id :: id in dict ==> MetaDataKey(id).Some?) && r.Ok? ==>
      forall id :: id in r.value ==> MetaDataKey(id).Some?
  {
    var parts := Assignment(update);
    match MetaDataField(parts[0])
    case None => Ok(dict)
    case Some(id) =>
      if |parts| < 2 then Err(IndexError)
      else
        MetaDataTableBijective(parts[0], id);
        Ok(dict[id := parts[1]])
  }

  /** dataDict after the loop of updateMetaData over `updates`, or the
      exception that ended the loop. */
  function MetaDataDict(updates: seq<string>): (r: Result<map<int, string>>)
    ensures r.Ok? ==> forall id :: id in r.value ==> MetaDataKey(id).Some?
  {
    if |updates| == 0 then Ok(map[])
    else
      match MetaDataDict(updates[..|updates| - 1])
      case Err(e) => Err(e)
      case Ok(dict) => MetaDataStep(dict, updates[|updates| - 1])
  }

  /** The loop over one more assignment is one more step. */
  lemma MetaDataDictPrefix(updates: seq<string>, k: nat)
    requires k < |updates|
    ensures MetaDataDict(updates[..k + 1]) == match MetaDataDict(updates[..k])
      case Err(e) => Err(e)
      case Ok(dict) => MetaDataStep(dict, updates[k])
  {
    assert updates[..k + 1][..k] == updates[..k];
  }

  /** An assignment carries a value exactly when it has an '='. */
  lemma AssignmentHasValue(update: string)
    ensures |Assignment(update)| >= 2 <==> '=' in Rstrip(update)
  {
  }

  /** The field a metadata assignment sets, if its key is recognised. */
  function AssignedField(update: string): Option<int> {
    MetaDataField(Assignment(update)[0])
  }

  /** The text a metadata assignment stores, `split('=')[1]`: what lies
      between its first '=' and the next '=' or the end, so "sampleName=a=b"
      stores "a". */
  function AssignedText(update: string): string {
    var parts := Assignment(update);
    if |parts| < 2 then "" else parts[1]
  }

  /** The metadata a successful loop collects: a field is set exactly when
      some assignment names it, and it holds the text of the last assignment
      that names it. */
  lemma {:induction false} MetaDataDictLastWins(updates: seq<string>, k: nat)
    requires MetaDataDict(updates).Ok? && k < |updates|
    requires AssignedField(updates[k]).Some?
    requires forall j :: k < j < |updates| ==> AssignedField(updates[j]) != AssignedField(updates[k])
    ensures AssignedField(updates[k]).value in MetaDataDict(updates).value
    ensures MetaDataDict(updates).value[AssignedField(updates[k]).value] == AssignedText(updates[k])
    decreases |updates|
  {
    var init, last := updates[..|updates| - 1], updates[|updates| - 1];
    var dict := MetaDataDict(init).value;
    assert MetaDataDict(updates) == MetaDataStep(dict, last);
    MetaDataStepWrites(dict, last);
    if k < |updates| - 1 {
      assert init[k] == updates[k];
      assert forall j :: k < j < |init| ==> init[j] == updates[j];
      MetaDataDictLastWins(init, k);
      assert AssignedField(last) != AssignedField(updates[k]);
    }
  }

  /** A successful step binds the field the assignment names, if any, to its
      text, and changes nothing else. */
  lemma MetaDataStepWrites(dict: map<int, string>, update: string)
    requires MetaDataStep(dict, update).Ok?
    ensures AssignedField(update).None? ==> MetaDataStep(dict, update).value == dict
    ensures AssignedField(update).Some? ==>
      MetaDataStep(dict, update).value == dict[AssignedField(update).value := AssignedText(update)]
  {
  }

  /** ... and a field no assignment names is not set. */
  lemma {:induction false} MetaDataDictOnlyNamed(updates: seq<string>, id: int)
    requires MetaDataDict(updates).Ok?
    requires forall j :: 0 <= j < |updates| ==> AssignedField(updates[j]) != Some(id)
    ensures id !in MetaDataDict(updates).value
    decreases |updates|
  {
    if |updates| > 0 {
      var init, last := updates[..|updates| - 1], updates[|updates| - 1];
      assert forall j :: 0 <= j < |init| ==> init[j] == updates[j];
      MetaDataDictOnlyNamed(init, id);
      assert MetaDataDict(updates) == MetaDataStep(MetaDataDict(init).value, last);
      MetaDataStepWrites(MetaDataDict(init).value, last);
    }
  }

  /** An assignment that names a recognised field but carries no '='. */
  predicate MissingValue(update: string) {
    AssignedField(update).Some? && '=' !in Rstrip(update)
  }

  /** One step of the loop raises exactly on such an assignment, and then
      raises IndexError. */
  lemma MetaDataStepFails(dict: map<int, string>, update: string)
    ensures MetaDataStep(dict, update).Err? <==> MissingValue(update)
    ensures MetaDataStep(dict, update).Err? ==> MetaDataStep(dict, update).error == IndexError
  {
    AssignmentHasValue(update);
  }

  /** The loop can only raise IndexError. */
  lemma {:induction false} MetaDataDictRaisesIndexError(updates: seq<string>)
    ensures MetaDataDict(updates).Err? ==> MetaDataDict(updates).error == IndexError
    decreases |updates|
  {
    if |updates| > 0 {
      var init := updates[..|updates| - 1];
      MetaDataDictRaisesIndexError(init);
      if MetaDataDict(init).Ok? {
        MetaDataStepFails(MetaDataDict(init).value, updates[|updates| - 1]);
      }
    }
  }

  /** An assignment without '=' for a recognised key makes the loop raise. */
  lemma {:induction false} MetaDataDictFailsAt(updates: seq<string>, j: nat)
    requires j < |updates| && MissingValue(updates[j])
    ensures MetaDataDict(updates).Err?
    decreases |updates|
  {
    var init, last := updates[..|updates| - 1], updates[|updates| - 1];
    if j < |init| {
      assert init[j] == updates[j];
      MetaDataDictFailsAt(init, j);
      assert MetaDataDict(updates) == Err(MetaDataDict(init).error);
    } else {
      assert j == |updates| - 1 && MissingValue(last);
      match MetaDataDict(init)
      case Err(e) =>
        assert MetaDataDict(updates) == Err(e);
      case Ok(dict) =>
        MetaDataStepFails(dict, last);
        assert MetaDataStep(dict, last).Err?;
        assert MetaDataDict(updates) == MetaDataStep(dict, last);
    }
  }

  /** Without such an assignment the loop runs to the end. */
  lemma {:induction false} MetaDataDictSucceeds(updates: seq<string>)
    requires forall j :: 0 <= j < |updates| ==> !MissingValue(updates[j])
    ensures MetaDataDict(updates).Ok?
    decreases |updates|
  {
    if |updates| > 0 {
      var init := updates[..|updates| - 1];
      assert forall j :: 0 <= j < |init| ==> init[j] == updates[j];
      MetaDataDictSucceeds(init);
      MetaDataStepFails(MetaDataDict(init).value, updates[|updates| - 1]);
    }
  }

  /** The loop fails exactly when a recognised key comes without '=', and
      then with IndexError. */
  lemma MetaDataDictFails(updates: seq<string>)
    ensures MetaDataDict(updates).Err? <==> exists j :: 0 <= j < |updates| && MissingValue(updates[j])
    ensures MetaDataDict(updates).Err? ==> MetaDataDict(updates).error == IndexError
  {
    MetaDataDictRaisesIndexError(updates);
    if exists j :: 0 <= j < |updates| && MissingValue(updates[j]) {
      var j :| 0 <= j < |updates| && MissingValue(updates[j]);
      MetaDataDictFailsAt(updates, j);
    } else {
      MetaDataDictSucceeds(updates);
    }
  }

  /** The assignments of a metadata string: `metaData.rstrip().split(',')`. */
  function MetaDataUpdates(metaData: string): (r: seq<string>)
    ensures |r| >= 1 && forall u :: u in r ==> ',' !in u
    ensures Join(r, ',') == Rstrip(metaData)
  {
    SplitOn(Rstrip(metaData), ',')
  }

  /** The collected metadata as record fields: each text stored encoded. */
  function EncodedMetaData(dict: map<int, string>): (r: Fields)
    ensures r.Keys == dict.Keys && forall id :: id in dict ==> r[id] == Encoded(dict[id])
  {
    map id | id in dict :: Encoded(dict[id])
  }

  /** updateMetaData on a record: the collected metadata, encoded, overwrites
      its fields; every other field keeps its value. */
  function MetaDataEdit(data: Fields, metaData: string): (r: Result<Fields>)
    ensures r.Ok? ==> data.Keys <= r.value.Keys
    ensures r.Ok? ==> forall k :: k in data && MetaDataKey(k).None? ==> r.value[k] == data[k]
  {
    match MetaDataDict(MetaDataUpdates(metaData))
    case Err(e) => Err(e)
    case Ok(dict) => Ok(data + EncodedMetaData(dict))
  }

  /** updateMetaData on a record: the field the k-th assignment of the
      comma-separated list names holds, encoded, that assignment's text when
      no later assignment names the same field. */
  lemma MetaDataEditSets(data: Fields, metaData: string, k: nat)
    requires MetaDataEdit(data, metaData).Ok?
    requires var updates := MetaDataUpdates(metaData);
      && k < |updates| && AssignedField(updates[k]).Some?
      && forall j :: k < j < |updates| ==> AssignedField(updates[j]) != AssignedField(updates[k])
    ensures var updates := MetaDataUpdates(metaData);
      var id := AssignedField(updates[k]).value;
      id in MetaDataEdit(data, metaData).value
      && MetaDataEdit(data, metaData).value[id] == Encoded(AssignedText(updates[k]))
  {
    MetaDataDictLastWins(MetaDataUpdates(metaData), k);
  }

  /** ... and a field that no assignment names keeps its value, or stays
      absent. */
  lemma MetaDataEditKeeps(data: Fields, metaData: string, id: int)
    requires MetaDataEdit(data, metaData).Ok?
    requires forall u :: u in MetaDataUpdates(metaData) ==> AssignedField(u) != Some(id)
    ensures id in MetaDataEdit(data, metaData).value <==> id in data
    ensures id in data ==> MetaDataEdit(data, metaData).value[id] == data[id]
  {
    var updates := MetaDataUpdates(metaData);
    assert forall j :: 0 <= j < |updates| ==> AssignedField(updates[j]) != Some(id);
    MetaDataDictOnlyNamed(updates, id);
  }

  // ---------------------------------------------------------------------------
  // The record object

  /** The record `data` the driver loads, edits in place and hands to the
      encoder. */
  class GtcRecord {
    var fields: Fields

    constructor (fields: Fields)
      ensures this.fields == fields
    {
      this.fields := fields;
    }

    /** snpUpdate: writes the marker's genotype code and base call in place.
        On an exception the run ends, so the record is left as it was. */
    method SnpUpdate(line: string, m: Manifest, csv: CsvManifest) returns (error: Option<PyError>)
      modifies this
      ensures SnpEdit(old(fields), line, m, csv).Ok? ==> error.None? && fields == SnpEdit(old(fields), line, m, csv).value
      ensures SnpEdit(old(fields), line, m, csv).Err? ==> error == Some(SnpEdit(old(fields), line, m, csv).error) && fields == old(fields)
    {
      var target := ResolveEdit(line, m, csv);
      if target.Err? {
        return Some(target.error);
      }
      var t := target.value;
      var decision := Classify(t.r0, t.r1, t.refs);
      if decision.Err? {
        return Some(decision.error);
      }
      var d := decision.value;
      SnpEditIsWrite(fields, line, m, csv);
      if GenotypesField !in fields {
        return Some(KeyError);
      }
      if !fields[GenotypesField].Codes? {
        return Some(TypeError);
      }
      if t.loc >= |fields[GenotypesField].codes| {
        return Some(IndexError);
      }
      if BaseCallsField !in fields {
        return Some(KeyError);
      }
      if !fields[BaseCallsField].Calls? {
        return Some(TypeError);
      }
      if t.loc >= |fields[BaseCallsField].calls| {
        return Some(IndexError);
      }
      WriteAt(t.loc, d, t.refs, csv.alleles[t.loc]);
      return None;
    }

    /** The writing half of snpUpdate on a record whose fields 1002 and 1003
        reach the marker: the genotype byte, then the base-call byte spelled
        from the code now stored. */
    method WriteAt(loc: nat, d: Decision, refs: (char, char), alleles: (char, char))
      requires HasMarker(fields, loc)
      modifies this
      ensures WriteMarker(old(fields), loc, d, refs, alleles) == Ok(fields)
    {
      var codes := fields[GenotypesField].codes;
      var calls := fields[BaseCallsField].calls;
      // the genotype byte
      if d.Assign? {
        codes := codes[loc := d.code];
        fields := fields[GenotypesField := Codes(codes)];
      } else {
        assert codes[loc := codes[loc]] == codes;
        assert fields[GenotypesField := Codes(codes)] == fields;
      }
      // the base-call byte
      var call := BaseCall(codes[loc], d.allele, refs, alleles);
      calls := calls[loc := call];
      fields := fields[BaseCallsField := Calls(calls)];
    }

    /** updateMetaData: collects the assignments of `metaData` into a
        dictionary, then copies it into the record. */
    method UpdateMetaData(metaData: string) returns (error: Option<PyError>)
      modifies this
      ensures MetaDataEdit(old(fields), metaData).Ok? ==> error.None? && fields == MetaDataEdit(old(fields), metaData).value
      ensures MetaDataEdit(old(fields), metaData).Err? ==> error == Some(MetaDataEdit(old(fields), metaData).error) && fields == old(fields)
    {
      var updates := MetaDataUpdates(metaData);
      var dict: map<int, string> := map[];
      var k := 0;
      while k < |updates|
        invariant 0 <= k <= |updates|
        invariant MetaDataDict(updates[..k]) == Ok(dict)
        invariant fields == old(fields)
      {
        MetaDataDictPrefix(updates, k);
        var failed;
        failed, dict := CollectAssignment(dict, updates[k]);
        if failed {
          MetaDataDictStops(updates, k + 1);
          MetaDataEditOfDict(fields, metaData, Err(IndexError));
          return Some(IndexError);
        }
        k := k + 1;
      }
      assert updates[..k] == updates;
      MetaDataEditOfDict(fields, metaData, Ok(dict));
      fields := fields + EncodedMetaData(dict);
      return None;
    }
  }

  /** One iteration of updateMetaData's loop on dataDict: the key's branch
      stores `split('=')[1]` in its field, or raises IndexError (`failed`). */
  method CollectAssignment(dict: map<int, string>, update: string) returns (failed: bool, dict': map<int, string>)
    ensures MetaDataStep(dict, update) == if failed then Err(IndexError) else Ok(dict')
  {
    dict' := dict;
    var parts := Assignment(update);
    var id := MetaDataField(parts[0]);
    if id.Some? {
      if |parts| < 2 {
        return true, dict';
      }
      dict' := dict[id.value := parts[1]];
    }
    return false, dict';
  }

  /** updateMetaData's outcome on a record, from the outcome of its loop. */
  lemma MetaDataEditOfDict(data: Fields, metaData: string, dict: Result<map<int, string>>)
    requires MetaDataDict(MetaDataUpdates(metaData)) == dict
    ensures MetaDataEdit(data, metaData) == match dict
      case Err(e) => Err(e)
      case Ok(d) => Ok(data + EncodedMetaData(d))
  {
  }

  /** Once the metadata loop has raised, later assignments change nothing. */
  lemma {:induction false} MetaDataDictStops(updates: seq<string>, k: nat)
    requires k <= |updates|
    requires MetaDataDict(updates[..k]).Err?
    ensures MetaDataDict(updates) == MetaDataDict(updates[..k])
    decreases |updates| - k
  {
    if k < |updates| {
      assert updates[..k + 1][..k] == updates[..k];
      MetaDataDictStops(updates, k + 1);
    } else {
      assert updates[..k] == updates;
    }
  }
}
