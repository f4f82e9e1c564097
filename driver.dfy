/** The update driver of manipulate_gtc: one pass over the update file, whose
    header lines (`>gtc outputName [metadata]`) open a record and whose other
    lines edit one marker of the open record. Each record is handed to the
    encoder when the next header arrives, and the last one at the end of the
    file. */
module Driver {
  import opened Builtins
  import opened Manifests
  import opened Records

  /** One record handed to the encoder: the record it was loaded from, the
      output name it is written under, and its fields. */
  datatype Flush = Flush(source: string, output: string, record: Fields)

  /** The source records the driver can load, by name. */
  type GtcStore = map<string, Fields>

  /** The driver's locals between two lines: the open record's source and
      output names, the record itself, the number of headers seen, and the
      records handed to the encoder so far. */
  datatype DriverState = DriverState(gtc: string, outputName: string, data: Fields, total: nat, flushed: seq<Flush>)

  /** The state before the first line: no header seen, an empty record. */
  const Initial := DriverState("", "", map[], 0, [])

  /** A run either goes on or has raised; nothing in the driver catches, so a
      raised exception ends the whole run. */
  datatype Progress = Running(state: DriverState) | Aborted(flushed: seq<Flush>, error: PyError)

  /** What a whole run produces: the records handed to the encoder, in order,
      and the exception that ended it early, if any. */
  datatype RunOutcome = RunOutcome(flushed: seq<Flush>, error: Option<PyError>)

  predicate IsHeader(line: string) {
    |line| > 0 && line[0] == '>'
  }

  // ---------------------------------------------------------------------------
  // The two record operations of the loop

  /** A record loaded by a header. */
  datatype Opened = Opened(gtc: string, outputName: string, data: Fields)

  /** The header branch of the driver after any flush: the record named by
      the first field (without its `>`) is loaded, the second field names the
      output, and a third field, when it is the last, is applied with
      updateMetaData. A header with one field raises IndexError; a record
      that cannot be loaded, FileNotFoundError. */
  function OpenBlock(header: string, store: GtcStore): (r: Result<Opened>)
    ensures |Tokens(header)| < 2 ==> r == Err(IndexError)
    ensures |Tokens(header)| >= 2 && Tokens(header)[0][1..] !in store ==> r == Err(FileNotFoundError)
    ensures r.Ok? ==>
      var fields := Tokens(header);
      && |fields| >= 2 && r.value.gtc == fields[0][1..] && r.value.outputName == fields[1]
      && r.value.gtc in store
      && (|fields| != 3 ==> r.value.data == store[r.value.gtc])
      && (|fields| == 3 ==> MetaDataEdit(store[r.value.gtc], fields[2]) == Ok(r.value.data))
    ensures var fields := Tokens(header);
      |fields| >= 2 && fields[0][1..] in store ==>
        && (|fields| != 3 || MetaDataEdit(store[fields[0][1..]], fields[2]).Ok? ==> r.Ok?)
        && (|fields| == 3 && MetaDataEdit(store[fields[0][1..]], fields[2]).Err? ==>
              r == Err(MetaDataEdit(store[fields[0][1..]], fields[2]).error))
  {
    var fields := Tokens(header);
    if |fields| < 2 then Err(IndexError)
    else
      var gtc := fields[0][1..];
      if gtc !in store then Err(FileNotFoundError)
      else if |fields| == 3 then
        match MetaDataEdit(store[gtc], fields[2])
        case Err(e) => Err(e)
        case Ok(data) => Ok(Opened(gtc, fields[1], data))
      else Ok(Opened(gtc, fields[1], store[gtc]))
  }

  /** An edit line applied to the open record: the driver's `line[0]` raises
      IndexError on an empty line before snpUpdate is called. */
  function EditLine(data: Fields, line: string, m: Manifest, csv: CsvManifest): (r: Result<Fields>)
    ensures r.Ok? ==> r.value.Keys == data.Keys
    ensures GenotypesField !in data ==> r.Err?
  {
    if |line| == 0 then Err(IndexError)
    else
      SnpEditFailures(data, line, m, csv);
      match SnpEdit(data, line, m, csv)
      case Err(e) => Err(e)
      case Ok(d) =>
        SnpEditFrame(data, line, m, csv);
        Ok(d)
  }

  /** The record operations the loop performs, bound to the manifests and the
      stored records of one run. */
  datatype RecordOps = RecordOps(open: string -> Result<Opened>, edit: (Fields, string) -> Result<Fields>)

  function Ops(m: Manifest, csv: CsvManifest, store: GtcStore): RecordOps {
    RecordOps(header => OpenBlock(header, store), (data, line) => EditLine(data, line, m, csv))
  }

  lemma OpsApply(m: Manifest, csv: CsvManifest, store: GtcStore, data: Fields, line: string)
    ensures Ops(m, csv, store).open(line) == OpenBlock(line, store)
    ensures Ops(m, csv, store).edit(data, line) == EditLine(data, line, m, csv)
  {
  }

  /** On a non-empty line the edit is snpUpdate itself. */
  lemma EditLineIsSnpEdit(data: Fields, line: string, m: Manifest, csv: CsvManifest)
    requires |line| > 0
    ensures EditLine(data, line, m, csv) == SnpEdit(data, line, m, csv)
  {
  }

  // ---------------------------------------------------------------------------
  // The loop

  /** One processing step of the driver. A header raises the header count,
      hands the open record to the encoder unless this is the first header,
      and then opens the new record; any other line edits the open record. */
  function Step(st: DriverState, line: string, ops: RecordOps): (p: Progress)
    ensures p.Running? ==> p.state.total == st.total + (if IsHeader(line) then 1 else 0)
    ensures p.Running? ==>
      && st.flushed <= p.state.flushed
      && |p.state.flushed| == |st.flushed| + (if IsHeader(line) && st.total > 0 then 1 else 0)
  {
    if IsHeader(line) then
      var total := st.total + 1;
      var flushed := if total == 1 then st.flushed else st.flushed + [Flush(st.gtc, st.outputName, st.data)];
      match ops.open(line)
      case Err(e) => Aborted(flushed, e)
      case Ok(o) => Running(DriverState(o.gtc, o.outputName, o.data, total, flushed))
    else
      match ops.edit(st.data, line)
      case Err(e) => Aborted(st.flushed, e)
      case Ok(data) => Running(st.(data := data))
  }

  /** The driver's loop over the lines of the update file. */
  function Fold(lines: seq<string>, ops: RecordOps): (p: Progress)
    ensures p.Running? ==>
      && p.state.total <= |lines|
      && |p.state.flushed| == if p.state.total == 0 then 0 else p.state.total - 1
  {
    if |lines| == 0 then Running(Initial)
    else
      match Fold(lines[..|lines| - 1], ops)
      case Aborted(f, e) => Aborted(f, e)
      case Running(st) => Step(st, lines[|lines| - 1], ops)
  }

  /** A whole run: the loop, then the final flush of the open record. With no
      header in the file the output name was never bound, which raises
      UnboundLocalError. */
  function Run(lines: seq<string>, ops: RecordOps): (out: RunOutcome)
    ensures out.error.None? ==> 1 <= |out.flushed| <= |lines|
  {
    match Fold(lines, ops)
    case Aborted(f, e) => RunOutcome(f, Some(e))
    case Running(st) =>
      if st.total == 0 then RunOutcome(st.flushed, Some(UnboundLocalError))
      else RunOutcome(st.flushed + [Flush(st.gtc, st.outputName, st.data)], None)
  }

  /** Once the driver has raised, the remaining lines change nothing. */
  lemma {:induction false} FoldStops(lines: seq<string>, k: nat, ops: RecordOps)
    requires k <= |lines|
    requires Fold(lines[..k], ops).Aborted?
    ensures Fold(lines, ops) == Fold(lines[..k], ops)
    decreases |lines| - k
  {
    if k < |lines| {
      assert lines[..k + 1][..k] == lines[..k];
      FoldStops(lines, k + 1, ops);
    } else {
      assert lines[..k] == lines;
    }
  }

  // ---------------------------------------------------------------------------
  // Blocks: the independent reading of an update file

  /** A header line and the edit lines that follow it up to the next header. */
  datatype Block = Block(header: string, edits: seq<string>)

  /** The update file cut into blocks, one per header; edit lines before the
      first header belong to no block. */
  function Blocks(lines: seq<string>): (bs: seq<Block>)
    ensures forall j :: 0 <= j < |bs| ==> IsHeader(bs[j].header)
    ensures forall j, e :: 0 <= j < |bs| && e in bs[j].edits ==> !IsHeader(e)
  {
    if |lines| == 0 then []
    else
      var bs := Blocks(lines[..|lines| - 1]);
      var line := lines[|lines| - 1];
      if IsHeader(line) then bs + [Block(line, [])]
      else if |bs| == 0 then []
      else bs[..|bs| - 1] + [bs[|bs| - 1].(edits := bs[|bs| - 1].edits + [line])]
  }

  /** The lines of a sequence of blocks, in order. */
  function Unblocked(bs: seq<Block>): seq<string> {
    if |bs| == 0 then [] else Unblocked(bs[..|bs| - 1]) + [bs[|bs| - 1].header] + bs[|bs| - 1].edits
  }

  /** An update file that starts with a header is exactly its blocks laid end
      to end: no line is lost, duplicated or moved. */
  lemma {:induction false} BlocksPartition(lines: seq<string>)
    requires |lines| > 0 && IsHeader(lines[0])
    ensures |Blocks(lines)| >= 1
    ensures Unblocked(Blocks(lines)) == lines
  {
    var init := lines[..|lines| - 1];
    var line := lines[|lines| - 1];
    if |init| == 0 {
      assert Blocks(lines) == [Block(line, [])];
      UnblockedSnoc([], Block(line, []));
      assert lines == [line];
    } else {
      assert init[0] == lines[0];
      BlocksPartition(init);
      var bs := Blocks(init);
      if IsHeader(line) {
        UnblockedSnoc(bs, Block(line, []));
      } else {
        UnblockedExtendLast(bs, line);
      }
      assert Unblocked(Blocks(lines)) == init + [line];
      SnocLast(lines);
    }
  }

  /** A non-empty sequence is its prefix followed by its last element. */
  lemma SnocLast<T>(xs: seq<T>)
    requires |xs| > 0
    ensures xs[..|xs| - 1] + [xs[|xs| - 1]] == xs
  {
  }

  /** The lines of one more block follow those of the blocks before it. */
  lemma UnblockedSnoc(bs: seq<Block>, b: Block)
    ensures Unblocked(bs + [b]) == Unblocked(bs) + [b.header] + b.edits
  {
    assert (bs + [b])[..|bs|] == bs;
  }

  /** One more edit line in the last block is one more line at the end. */
  lemma UnblockedExtendLast(bs: seq<Block>, line: string)
    requires |bs| > 0
    ensures var last := bs[|bs| - 1];
      Unblocked(bs[..|bs| - 1] + [last.(edits := last.edits + [line])]) == Unblocked(bs) + [line]
  {
    var init, last := bs[..|bs| - 1], bs[|bs| - 1];
    UnblockedSnoc(init, last.(edits := last.edits + [line]));
    var u := Unblocked(init);
    assert Unblocked(bs) == u + [last.header] + last.edits;
    AppendSnoc(u + [last.header], last.edits, line);
  }

  /** Appending a sequence that ends in x is appending its prefix, then x. */
  lemma AppendSnoc<T>(xs: seq<T>, ys: seq<T>, x: T)
    ensures xs + (ys + [x]) == (xs + ys) + [x]
  {
  }

  /** The edit lines of a block applied in file order, stopping at the first
      exception. */
  function ApplyEdits(data: Fields, edits: seq<string>, edit: (Fields, string) -> Result<Fields>): Result<Fields> {
    if |edits| == 0 then Ok(data)
    else
      match ApplyEdits(data, edits[..|edits| - 1], edit)
      case Err(e) => Err(e)
      case Ok(d) => edit(d, edits[|edits| - 1])
  }

  /** The snpUpdate edits of a block never add or remove a field of the
      record. */
  lemma {:induction false} ApplyEditsKeepsFields(data: Fields, edits: seq<string>, m: Manifest, csv: CsvManifest, store: GtcStore)
    requires ApplyEdits(data, edits, Ops(m, csv, store).edit).Ok?
    ensures ApplyEdits(data, edits, Ops(m, csv, store).edit).value.Keys == data.Keys
  {
    if |edits| > 0 {
      ApplyEditsKeepsFields(data, edits[..|edits| - 1], m, csv, store);
    }
  }

  /** The record a block hands to the encoder, read on its own: its header
      opens the record, its edits are applied in order. */
  function BlockFlush(b: Block, ops: RecordOps): Result<Flush> {
    match ops.open(b.header)
    case Err(e) => Err(e)
    case Ok(o) =>
      match ApplyEdits(o.data, b.edits, ops.edit)
      case Err(e) => Err(e)
      case Ok(data) => Ok(Flush(o.gtc, o.outputName, data))
  }

  /** Each block's record on its own, in order. */
  function Results(bs: seq<Block>, ops: RecordOps): (rs: seq<Result<Flush>>) {
    seq(|bs|, j requires 0 <= j < |bs| => BlockFlush(bs[j], ops))
  }

  /** A sequence of results gathered in order, or the first exception. */
  function Collect(rs: seq<Result<Flush>>): (r: Result<seq<Flush>>)
    ensures r.Ok? ==> |r.value| == |rs|
  {
    if |rs| == 0 then Ok([])
    else
      match Collect(rs[..|rs| - 1])
      case Err(e) => Err(e)
      case Ok(fs) =>
        match rs[|rs| - 1]
        case Err(e) => Err(e)
        case Ok(f) => Ok(fs + [f])
  }

  /** Gathering succeeds exactly when every result is a success, and then
      keeps each one in its place. */
  lemma {:induction false} CollectEach(rs: seq<Result<Flush>>)
    ensures Collect(rs).Ok? <==> forall j :: 0 <= j < |rs| ==> rs[j].Ok?
    ensures Collect(rs).Ok? ==> forall j :: 0 <= j < |rs| ==> Collect(rs).value[j] == rs[j].value
  {
    if |rs| > 0 {
      var init := rs[..|rs| - 1];
      CollectEach(init);
      assert forall j :: 0 <= j < |init| ==> init[j] == rs[j];
    }
  }

  /** The position of the first exception among the results, or their
      number when there is none. */
  function FirstFailure(rs: seq<Result<Flush>>): (j: nat)
    ensures j <= |rs|
    ensures forall k :: 0 <= k < j ==> rs[k].Ok?
    ensures j < |rs| ==> rs[j].Err?
  {
    if |rs| == 0 || rs[0].Err? then 0 else 1 + FirstFailure(rs[1..])
  }

  /** A failing result after a prefix that gathers is the first failure. */
  lemma FirstFailureAt(rs: seq<Result<Flush>>, j: nat)
    requires j < |rs| && rs[j].Err? && Collect(rs[..j]).Ok?
    ensures FirstFailure(rs) == j
  {
    CollectEach(rs[..j]);
    assert forall k :: 0 <= k < j ==> rs[..j][k] == rs[k];
  }

  /** Gathering one more result. */
  lemma CollectSnoc(rs: seq<Result<Flush>>, r: Result<Flush>)
    ensures Collect(rs + [r]) == match Collect(rs)
      case Err(e) => Err(e)
      case Ok(fs) => (match r case Err(e) => Err(e) case Ok(f) => Ok(fs + [f]))
  {
    assert (rs + [r])[..|rs|] == rs;
  }

  /** The records of a sequence of blocks, or the first block's exception. */
  function Flushes(bs: seq<Block>, ops: RecordOps): Result<seq<Flush>> {
    Collect(Results(bs, ops))
  }

  /** The flushes of blocks succeed exactly when every block's does, and
      then the j-th record is the j-th block's. */
  lemma FlushesEach(bs: seq<Block>, ops: RecordOps)
    ensures Flushes(bs, ops).Ok? <==> forall j :: 0 <= j < |bs| ==> BlockFlush(bs[j], ops).Ok?
    ensures Flushes(bs, ops).Ok? ==>
      && |Flushes(bs, ops).value| == |bs|
      && forall j :: 0 <= j < |bs| ==> Flushes(bs, ops).value[j] == BlockFlush(bs[j], ops).value
  {
    var rs := Results(bs, ops);
    CollectEach(rs);
    assert forall j :: 0 <= j < |bs| ==> rs[j] == BlockFlush(bs[j], ops);
  }

  /** The record of a block with no edits is the record its header opens. */
  lemma HeaderBlockFlush(header: string, ops: RecordOps)
    ensures BlockFlush(Block(header, []), ops) == match ops.open(header)
      case Err(e) => Err(e)
      case Ok(o) => Ok(Flush(o.gtc, o.outputName, o.data))
  {
  }

  /** One more edit line at the end of a block applies to the block's record. */
  lemma EditBlockFlush(b: Block, line: string, ops: RecordOps)
    ensures BlockFlush(b.(edits := b.edits + [line]), ops) == match BlockFlush(b, ops)
      case Err(e) => Err(e)
      case Ok(f) => (match ops.edit(f.record, line) case Err(e) => Err(e) case Ok(d) => Ok(f.(record := d)))
  {
    assert (b.edits + [line])[..|b.edits|] == b.edits;
  }

  /** The driver's invariant over the lines read so far, which form the
      blocks `bs`: while it runs, the closed blocks have been handed over in
      order and the open record is what the last block gives on its own; once
      it has raised, the exception is the first failing block's and the
      records handed over are those of the blocks before it. */
  predicate FollowsBlocks(p: Progress, bs: seq<Block>, ops: RecordOps) {
    && |bs| >= 1
    && (p.Running? ==>
          && p.state.total == |bs|
          && Collect(Results(bs, ops)[..|bs| - 1]) == Ok(p.state.flushed)
          && BlockFlush(bs[|bs| - 1], ops) == Ok(Flush(p.state.gtc, p.state.outputName, p.state.data)))
    && (p.Aborted? ==>
          && Collect(Results(bs, ops)) == Err(p.error)
          && FirstFailure(Results(bs, ops)) < |bs|
          && Collect(Results(bs, ops)[..FirstFailure(Results(bs, ops))]) == Ok(p.flushed))
  }

  /** The step after a line, unless the run has already raised. */
  function Next(p: Progress, line: string, ops: RecordOps): Progress {
    match p
    case Aborted(_, _) => p
    case Running(st) => Step(st, line, ops)
  }

  /** A header line keeps the invariant: the open block is closed and a new
      one begins. */
  lemma HeaderFollows(p: Progress, bs: seq<Block>, line: string, ops: RecordOps)
    requires IsHeader(line)
    requires FollowsBlocks(p, bs, ops)
    ensures FollowsBlocks(Next(p, line, ops), bs + [Block(line, [])], ops)
  {
    var bs' := bs + [Block(line, [])];
    var rs := Results(bs, ops);
    var rs' := Results(bs', ops);
    assert rs' == rs + [BlockFlush(Block(line, []), ops)];
    CollectSnoc(rs, BlockFlush(Block(line, []), ops));
    if p.Running? {
      HeaderFollowsRunning(p.state, bs, line, ops);
    } else {
      var j := FirstFailure(rs);
      assert rs'[..j] == rs[..j] && rs'[j] == rs[j];
      FirstFailureAt(rs', j);
    }
  }

  /** The header case while the run goes on: the open block's record is
      handed over and the header opens the next one. */
  lemma HeaderFollowsRunning(st: DriverState, bs: seq<Block>, line: string, ops: RecordOps)
    requires IsHeader(line)
    requires FollowsBlocks(Running(st), bs, ops)
    ensures FollowsBlocks(Step(st, line, ops), bs + [Block(line, [])], ops)
  {
    var n := |bs|;
    var bs' := bs + [Block(line, [])];
    var rs := Results(bs, ops);
    var rs' := Results(bs', ops);
    assert rs' == rs + [BlockFlush(Block(line, []), ops)];
    assert rs'[..n] == rs;
    HeaderBlockFlush(line, ops);
    assert rs == rs[..n - 1] + [rs[n - 1]];
    CollectSnoc(rs[..n - 1], rs[n - 1]);
    if rs'[n].Err? {
      CollectSnoc(rs, rs'[n]);
      FirstFailureAt(rs', n);
    }
  }

  /** An edit line keeps the invariant: it extends the open block. */
  lemma EditFollows(p: Progress, bs: seq<Block>, line: string, ops: RecordOps)
    requires !IsHeader(line)
    requires FollowsBlocks(p, bs, ops)
    ensures var last := bs[|bs| - 1];
      FollowsBlocks(Next(p, line, ops), bs[..|bs| - 1] + [last.(edits := last.edits + [line])], ops)
  {
    var n := |bs|;
    var last := bs[n - 1];
    var last' := last.(edits := last.edits + [line]);
    var rs := Results(bs, ops);
    ResultsReplaceLast(bs, last', ops);
    ResultsReplaceLast(bs, last, ops);
    assert bs[..n - 1] + [last] == bs;
    EditBlockFlush(last, line, ops);
    CollectSnoc(rs[..n - 1], rs[n - 1]);
    CollectSnoc(rs[..n - 1], BlockFlush(last', ops));
    var rs' := Results(bs[..n - 1] + [last'], ops);
    if p.Running? {
      if rs'[n - 1].Err? {
        assert rs'[..n - 1] == rs[..n - 1];
        FirstFailureAt(rs', n - 1);
      }
    } else {
      var j := FirstFailure(rs);
      assert rs'[..j] == rs[..j] && rs'[j].Err?;
      FirstFailureAt(rs', j);
    }
  }

  /** The results of blocks whose last block is replaced. */
  lemma ResultsReplaceLast(bs: seq<Block>, b: Block, ops: RecordOps)
    requires |bs| > 0
    ensures var bs' := bs[..|bs| - 1] + [b];
      && Results(bs', ops)[..|bs| - 1] == Results(bs, ops)[..|bs| - 1]
      && Results(bs', ops) == Results(bs, ops)[..|bs| - 1] + [BlockFlush(b, ops)]
  {
    var bs' := bs[..|bs| - 1] + [b];
    assert Results(bs', ops) == Results(bs, ops)[..|bs| - 1] + [BlockFlush(b, ops)];
  }

  /** The invariant holds after every prefix of an update file that starts
      with a header. */
  lemma {:induction false} FoldFollowsBlocks(lines: seq<string>, ops: RecordOps)
    requires |lines| > 0 && IsHeader(lines[0])
    ensures FollowsBlocks(Fold(lines, ops), Blocks(lines), ops)
  {
    var init := lines[..|lines| - 1];
    var line := lines[|lines| - 1];
    assert Fold(lines, ops) == Next(Fold(init, ops), line, ops);
    if |init| == 0 {
      var b := Block(line, []);
      assert Blocks(lines) == [b];
      HeaderBlockFlush(line, ops);
      assert Results([b], ops) == [BlockFlush(b, ops)];
      CollectSnoc([], BlockFlush(b, ops));
    } else {
      assert init[0] == lines[0];
      FoldFollowsBlocks(init, ops);
      if IsHeader(line) {
        HeaderFollows(Fold(init, ops), Blocks(init), line, ops);
      } else {
        EditFollows(Fold(init, ops), Blocks(init), line, ops);
      }
    }
  }

  /** An edit line cannot apply to the empty record the driver holds before
      its first header. */
  ghost predicate RejectsOrphanEdits(ops: RecordOps) {
    forall line :: ops.edit(map[], line).Err?
  }

  /** snpUpdate on the empty record raises: it has no genotype field. */
  lemma OpsRejectOrphanEdits(m: Manifest, csv: CsvManifest, store: GtcStore)
    ensures RejectsOrphanEdits(Ops(m, csv, store))
  {
    forall line
      ensures Ops(m, csv, store).edit(map[], line).Err?
    {
      OpsApply(m, csv, store, map[], line);
    }
  }

  /** The driver's main promise: a run ends without an exception exactly when
      the update file starts with a header and every block's record can be
      built; the records handed to the encoder are then the blocks' records,
      each exactly once and in file order. When some block fails, the run
      raises that first failing block's exception, and the records handed
      over are those of the blocks before it, in order. A file that does not
      start with a header raises before any record is handed over. */
  lemma RunFlushesEveryBlock(lines: seq<string>, ops: RecordOps)
    requires RejectsOrphanEdits(ops)
    ensures var started := |lines| > 0 && IsHeader(lines[0]);
      && (Run(lines, ops).error.None? <==> started && Flushes(Blocks(lines), ops).Ok?)
      && (Run(lines, ops).error.None? ==> Run(lines, ops).flushed == Flushes(Blocks(lines), ops).value)
      && (started && Flushes(Blocks(lines), ops).Err? ==> Run(lines, ops).error == Some(Flushes(Blocks(lines), ops).error))
      && (!started ==> Run(lines, ops).flushed == [])
    ensures var rs := Results(Blocks(lines), ops);
      |lines| > 0 && IsHeader(lines[0]) && Flushes(Blocks(lines), ops).Err? ==>
        && |Run(lines, ops).flushed| == FirstFailure(rs) < |rs|
        && forall k :: 0 <= k < FirstFailure(rs) ==> Run(lines, ops).flushed[k] == rs[k].value
  {
    if |lines| > 0 && IsHeader(lines[0]) {
      RunAfterHeader(lines, ops);
    } else {
      RunWithoutHeader(lines, ops);
    }
  }

  /** A script that does not start with a header raises before handing
      anything over. */
  lemma RunWithoutHeader(lines: seq<string>, ops: RecordOps)
    requires RejectsOrphanEdits(ops)
    requires !(|lines| > 0 && IsHeader(lines[0]))
    ensures Run(lines, ops).error.Some? && Run(lines, ops).flushed == []
  {
    if |lines| > 0 {
      assert lines[..1][..0] == [];
      assert ops.edit(map[], lines[0]).Err?;
      assert Fold(lines[..1], ops) == Aborted([], ops.edit(map[], lines[0]).error);
      FoldStops(lines, 1, ops);
    }
  }

  /** A script that starts with a header hands over its blocks' records, or
      those before the first failing block and that block's exception. */
  lemma RunAfterHeader(lines: seq<string>, ops: RecordOps)
    requires |lines| > 0 && IsHeader(lines[0])
    ensures Run(lines, ops).error.None? <==> Flushes(Blocks(lines), ops).Ok?
    ensures Run(lines, ops).error.None? ==> Run(lines, ops).flushed == Flushes(Blocks(lines), ops).value
    ensures var rs := Results(Blocks(lines), ops);
      Flushes(Blocks(lines), ops).Err? ==>
        && Run(lines, ops).error == Some(Flushes(Blocks(lines), ops).error)
        && |Run(lines, ops).flushed| == FirstFailure(rs) < |rs|
        && forall k :: 0 <= k < FirstFailure(rs) ==> Run(lines, ops).flushed[k] == rs[k].value
  {
    FoldFollowsBlocks(lines, ops);
    var p := Fold(lines, ops);
    if p.Aborted? {
      AbortedFlushes(p, Blocks(lines), ops);
    } else {
      RunningFlushes(p.state, Blocks(lines), ops);
    }
  }

  /** While the loop runs, the blocks' records are those handed over and
      then the open one. */
  lemma RunningFlushes(st: DriverState, bs: seq<Block>, ops: RecordOps)
    requires FollowsBlocks(Running(st), bs, ops)
    ensures st.total > 0
    ensures Flushes(bs, ops) == Ok(st.flushed + [Flush(st.gtc, st.outputName, st.data)])
  {
    var rs := Results(bs, ops);
    assert rs == rs[..|bs| - 1] + [rs[|bs| - 1]];
    CollectSnoc(rs[..|bs| - 1], rs[|bs| - 1]);
  }

  /** Once the loop has raised, the blocks' records fail with its exception,
      and the records handed over are those before the first failing block. */
  lemma AbortedFlushes(p: Progress, bs: seq<Block>, ops: RecordOps)
    requires p.Aborted? && FollowsBlocks(p, bs, ops)
    ensures Flushes(bs, ops) == Err(p.error)
    ensures var rs := Results(bs, ops);
      && |p.flushed| == FirstFailure(rs) < |rs|
      && forall k :: 0 <= k < FirstFailure(rs) ==> p.flushed[k] == rs[k].value
  {
    var rs := Results(bs, ops);
    var j := FirstFailure(rs);
    CollectEach(rs[..j]);
    assert forall k :: 0 <= k < j ==> rs[..j][k] == rs[k];
  }

  // ---------------------------------------------------------------------------
  // The imperative driver

  /** A step on an edit line is snpUpdate on the open record. */
  lemma StepOnEdit(st: DriverState, line: string, m: Manifest, csv: CsvManifest, store: GtcStore)
    requires |line| > 0 && line[0] != '>'
    ensures Step(st, line, Ops(m, csv, store)) == match SnpEdit(st.data, line, m, csv)
      case Err(e) => Aborted(st.flushed, e)
      case Ok(data) => Running(st.(data := data))
  {
    OpsApply(m, csv, store, st.data, line);
    EditLineIsSnpEdit(st.data, line, m, csv);
    StepOnEditResult(st, line, Ops(m, csv, store), SnpEdit(st.data, line, m, csv));
  }

  lemma StepOnEditResult(st: DriverState, line: string, ops: RecordOps, edited: Result<Fields>)
    requires !IsHeader(line) && ops.edit(st.data, line) == edited
    ensures Step(st, line, ops) == match edited
      case Err(e) => Aborted(st.flushed, e)
      case Ok(data) => Running(st.(data := data))
  {
  }

  /** A step on a header line opens the record the header names. */
  lemma StepOnHeader(st: DriverState, line: string, m: Manifest, csv: CsvManifest, store: GtcStore)
    requires IsHeader(line)
    ensures var total := st.total + 1;
      var flushed := if total == 1 then st.flushed else st.flushed + [Flush(st.gtc, st.outputName, st.data)];
      Step(st, line, Ops(m, csv, store)) == match OpenBlock(line, store)
        case Err(e) => Aborted(flushed, e)
        case Ok(o) => Running(DriverState(o.gtc, o.outputName, o.data, total, flushed))
  {
    OpsApply(m, csv, store, st.data, line);
    StepOnHeaderResult(st, line, Ops(m, csv, store), OpenBlock(line, store));
  }

  lemma StepOnHeaderResult(st: DriverState, line: string, ops: RecordOps, header: Result<Opened>)
    requires IsHeader(line) && ops.open(line) == header
    ensures var total := st.total + 1;
      var flushed := if total == 1 then st.flushed else st.flushed + [Flush(st.gtc, st.outputName, st.data)];
      Step(st, line, ops) == match header
        case Err(e) => Aborted(flushed, e)
        case Ok(o) => Running(DriverState(o.gtc, o.outputName, o.data, total, flushed))
  {
  }

  /** A step on an empty line raises IndexError. */
  lemma StepOnEmpty(st: DriverState, m: Manifest, csv: CsvManifest, store: GtcStore)
    ensures Step(st, "", Ops(m, csv, store)) == Aborted(st.flushed, IndexError)
  {
    OpsApply(m, csv, store, st.data, "");
  }

  /** The header branch after any flush: parses the header, loads the record
      it names into a new GtcRecord object and applies its metadata. */
  method OpenRecord(header: string, store: GtcStore) returns (loaded: Result<Opened>, record: GtcRecord?)
    ensures loaded == OpenBlock(header, store)
    ensures loaded.Ok? ==> record != null && fresh(record) && record.fields == loaded.value.data
  {
    record := null;
    var fields := Tokens(header);
    if |fields| < 2 {
      return Err(IndexError), record;
    }
    var gtc := fields[0][1..];
    if gtc !in store {
      return Err(FileNotFoundError), record;
    }
    record := new GtcRecord(store[gtc]);
    if |fields| == 3 {
      var error := record.UpdateMetaData(fields[2]);
      if error.Some? {
        return Err(error.value), record;
      }
    }
    loaded := Ok(Opened(gtc, fields[1], record.fields));
  }

  /** The body of the driver loop for one line, on the driver's locals: a
      header hands the open record over (unless it is the first) and opens a
      new GtcRecord object; any other line edits the open record in place. */
  method ProcessLine(gtc: string, outputName: string, record: GtcRecord, total: nat, flushed: seq<Flush>,
                     line: string, m: Manifest, csv: CsvManifest, store: GtcStore)
    returns (error: Option<PyError>, gtc': string, outputName': string, record': GtcRecord, total': nat, flushed': seq<Flush>)
    modifies record
    ensures Step(DriverState(gtc, outputName, old(record.fields), total, flushed), line, Ops(m, csv, store))
         == if error.Some? then Aborted(flushed', error.value)
            else Running(DriverState(gtc', outputName', record'.fields, total', flushed'))
    ensures record' == record || fresh(record')
  {
    ghost var st := DriverState(gtc, outputName, record.fields, total, flushed);
    error, gtc', outputName', record', total', flushed' := None, gtc, outputName, record, total, flushed;
    if |line| == 0 {
      assert line == "";
      StepOnEmpty(st, m, csv, store);
      return Some(IndexError), gtc', outputName', record', total', flushed';
    }
    if line[0] == '>' {
      StepOnHeader(st, line, m, csv, store);
      total' := total + 1;
      if total' > 1 {
        // the previous record goes to the encoder before the header is parsed
        flushed' := flushed + [Flush(gtc, outputName, record.fields)];
      }
      var loaded, next := OpenRecord(line, store);
      if loaded.Err? {
        return Some(loaded.error), gtc', outputName', record', total', flushed';
      }
      gtc', outputName', record' := loaded.value.gtc, loaded.value.outputName, next;
    } else {
      StepOnEdit(st, line, m, csv, store);
      error := record.SnpUpdate(line, m, csv);
    }
  }

  /** One more line of the loop is one more step, unless the run has raised. */
  lemma FoldSnoc(lines: seq<string>, k: nat, ops: RecordOps)
    requires k < |lines|
    ensures Fold(lines[..k + 1], ops) == Next(Fold(lines[..k], ops), lines[k], ops)
  {
    assert lines[..k + 1][..k] == lines[..k];
  }

  /** The driver loop: one GtcRecord object per header, edited in place by
      snpUpdate and handed over at the next header and at the end. */
  method ProcessUpdates(lines: seq<string>, m: Manifest, csv: CsvManifest, store: GtcStore) returns (out: RunOutcome)
    ensures out == Run(lines, Ops(m, csv, store))
  {
    ghost var ops := Ops(m, csv, store);
    var gtc, outputName, total, flushed := "", "", 0, [];
    var record := new GtcRecord(map[]);
    var k := 0;
    while k < |lines|
      invariant 0 <= k <= |lines|
      invariant fresh(record)
      invariant Fold(lines[..k], ops) == Running(DriverState(gtc, outputName, record.fields, total, flushed))
    {
      FoldSnoc(lines, k, ops);
      var error;
      error, gtc, outputName, record, total, flushed := ProcessLine(gtc, outputName, record, total, flushed, lines[k], m, csv, store);
      if error.Some? {
        FoldStops(lines, k + 1, ops);
        return RunOutcome(flushed, error);
      }
      k := k + 1;
    }
    assert lines[..k] == lines;
    if total == 0 {
      return RunOutcome(flushed, Some(UnboundLocalError));
    }
    return RunOutcome(flushed + [Flush(gtc, outputName, record.fields)], None);
  }

  // ---------------------------------------------------------------------------
  // manipulate_gtc

  /** The manifest the edits read once overrides are in place: the override
      file's lines applied to the manifest's allele strings, or the exception
      that ended the override run. */
  function OverriddenManifest(m: Manifest, overrides: Option<seq<string>>): (r: Result<Manifest>)
    ensures r.Ok? ==> r.value.names == m.names && r.value.refStrands == m.refStrands
    ensures overrides.None? ==> r == Ok(m)
    ensures overrides.Some? ==> (r.Ok? <==> OverrideRun(m.names, m.snps, overrides.value).error.None?)
    ensures overrides.Some? && r.Ok? ==> r.value.snps == OverrideRun(m.names, m.snps, overrides.value).snps
  {
    match overrides
    case None => Ok(m)
    case Some(ls) =>
      var s := OverrideRun(m.names, m.snps, ls);
      match s.error
      case Some(e) => Err(e)
      case None => Ok(ManifestData(m.names, s.snps, m.refStrands))
  }

  /** manipulate_gtc as a whole: the CSV manifest is built first, then any
      overrides are applied, then the update file is run. */
  function Manipulate(m: Manifest, rows: seq<CsvRow>, overrides: Option<seq<string>>, lines: seq<string>, store: GtcStore): (out: RunOutcome)
    ensures out.flushed != [] ==> CsvManifestOf(rows).Ok? && OverriddenManifest(m, overrides).Ok?
    ensures CsvManifestOf(rows).Err? ==> out == RunOutcome([], Some(CsvManifestOf(rows).error))
    ensures CsvManifestOf(rows).Ok? && OverriddenManifest(m, overrides).Err? ==>
      out == RunOutcome([], Some(OverriddenManifest(m, overrides).error))
    ensures CsvManifestOf(rows).Ok? && OverriddenManifest(m, overrides).Ok? ==>
      out == Run(lines, Ops(OverriddenManifest(m, overrides).value, CsvManifestOf(rows).value, store))
  {
    match CsvManifestOf(rows)
    case Err(e) => RunOutcome([], Some(e))
    case Ok(csv) =>
      match OverriddenManifest(m, overrides)
      case Err(e) => RunOutcome([], Some(e))
      case Ok(m') => Run(lines, Ops(m', csv, store))
  }

  /** manipulate_gtc on a loaded bead-pool manifest object, which the
      overrides update in place. */
  method ManipulateGtc(manifest: BeadPoolManifest, rows: seq<CsvRow>, overrides: Option<seq<string>>,
                       lines: seq<string>, store: GtcStore) returns (out: RunOutcome)
    requires manifest.Valid()
    modifies manifest
    ensures out == Manipulate(old(manifest.Current()), rows, overrides, lines, store)
    ensures manifest.Valid()
    ensures CsvManifestOf(rows).Ok? && OverriddenManifest(old(manifest.Current()), overrides).Ok? ==>
      manifest.Current() == OverriddenManifest(old(manifest.Current()), overrides).value
  {
    var csv := GetManifestCsv(rows);
    if csv.Err? {
      return RunOutcome([], Some(csv.error));
    }
    if overrides.Some? {
      var skipped, error := SnpOverride(manifest, overrides.value);
      if error.Some? {
        return RunOutcome([], error);
      }
    }
    out := ProcessUpdates(lines, manifest.Current(), csv.value, store);
  }
}
