# GThaCk genotype-record mutation engine, in Dafny

This project models the mutation engine of GThaCk's `manipulate_gtc`
(`gthack/modules/manipulateGTC.py`). The engine reads an update script, one
line at a time:

- a header line `>gtc outputName [metadata]` loads a decoded genotype-call
  record;
- every other line edits one marker of the open record;
- each record is handed to the encoder when the next header arrives, and the
  last one at the end of the file.

Before the script runs, the engine:

- builds a CSV form of the bead-pool manifest, scanning each row's
  TopGenomicSeq for an `[x/y]` window;
- applies an optional override file to the manifest's allele strings in place.

It is modelled in six modules:

- `Builtins` (`builtins.dfy`) models the Python built-ins the engine relies
  on: `str.split()`, `str.split(sep)`, `rstrip`, `strip` and `list.index`.
  Exceptions become `Result` values, and a raised exception is an
  `Err(PyError)`.
- `Alleles` (`alleles.dfy`) covers `COMPLEMENT_MAP`, exactly as
  `dict(zip(...))` builds it. It also covers the strand-corrected reference
  alleles of a marker, the genotype-code decision for a requested allele pair,
  and the base call that goes with it. These are pure functions.
- `Manifests` (`manifests.dfy`) has the bead-pool manifest as a class whose
  `snps` list `snpOverride` patches in place, loop by loop. It also has the
  CSV manifest builder, which uses a row loop and a scanning loop with
  `break`. Both loops are proved against specification functions.
- `Records` (`records.dfy`) has the decoded record as a class, `GtcRecord`,
  holding a map from field id to value. It is edited in place by
  `snpUpdate` (fields 1002 and 1003) and by `updateMetaData` (fields 10, 11,
  12, 1007 and 1016). Each method is proved against a function on the
  record's fields.
- `Driver` (`driver.dfy`) has the driver loop as a method over the script's
  lines, with the driver's locals as variables. Its line-by-line fold and the
  `>`-headed blocks of the file are an independent reading of the same file,
  and the model proves that each record handed to the encoder is exactly one
  block's record, in file order.
- `StoredAlleles` (`stored_alleles.dfy`) shows how snpUpdate reads an allele
  string that snpOverride stored as bytes, for the finding below.

Nothing in the engine catches an exception except the `ValueError` of an
unknown override name, apart from validateUpdate's own `AssertionError`
(left out, see below). So any other exception ends the whole run:

- the records already handed over stay handed over;
- no other record is written.

The model follows the code in these places where a reader might expect
something else:

- `COMPLEMENT_MAP` has a repeated key `D`. The later pair wins, so `D` maps
  to `D` and `H` maps to `D`. Complementing twice is therefore the identity
  on every key except `H`, and the table is not symmetric.
- A homozygous request whose letter is neither reference allele is
  complemented with `COMPLEMENT_MAP`. A letter outside the table raises
  `KeyError`. Any other homozygous request gets code 1 or 3; no comparison
  can fail.
- A request `-X` with `X` other than `-` matches no genotype branch. It only
  prints a diagnostic, so the old code stays and the base call is recomputed
  from it. Applying an edit twice gives the record of applying it once, for
  `-X` as well.
- The reference alleles are the characters at index 1 and index -2 of the
  allele string, not a parsed `[x/y]`. A string shorter than two characters
  raises `IndexError`.
- The CSV scan reads `s[i + 4]` for every `[` at position `i` with
  `i + 1 < len(s)`. A `[` at such a position with `len(s) <= i + 4`, with no
  stopping position before it, raises `IndexError` and ends the run; a `[`
  in the last position is never read.
- An override line without a tab, whose first field is a known marker
  name, raises `IndexError`. That exception is not caught.

## Model

| member | source | states |
|---|---|---|
| Builtins.Tokens | gthack/modules/manipulateGTC.py:79 | `split()` gives non-empty tokens free of whitespace; no tokens exactly when the text is all whitespace |
| Builtins.TokensOfLine | gthack/modules/manipulateGTC.py:91 | a line `w1 w2\n` splits into exactly `[w1, w2]` |
| Builtins.Rstrip | gthack/modules/manipulateGTC.py:41 | `rstrip()` is a prefix of the text, ends in non-whitespace, and drops only whitespace |
| Builtins.Strip | gthack/modules/manipulateGTC.py:198 | `strip()` is the slice of the text that starts where its leading whitespace ends and has only whitespace after it; it neither starts nor ends with whitespace |
| Builtins.StripUnique | gthack/modules/manipulateGTC.py:198 | any slice of the text with only whitespace outside it and no whitespace at either end is the stripped text, so the two properties of `strip()` fix its result |
| Builtins.SplitOn | gthack/modules/manipulateGTC.py:41 | `split(sep)` is never empty, is the text itself when `sep` is absent, has at least two parts when it is present, no part contains `sep`, and the parts joined by `sep` give the text back |
| Builtins.SplitOnWord | gthack/modules/manipulateGTC.py:195 | a text that starts with a word free of `sep` and then `sep` splits into that word followed by the parts of the rest |
| Builtins.IndexOf | gthack/modules/manipulateGTC.py:79 | `list.index` fails exactly when the element is absent; otherwise it returns the first occurrence |
| Alleles.DictGet | gthack/modules/manipulateGTC.py:77 | a lookup in `dict(zip(keys, values))` misses exactly when the key is not among the keys |
| Alleles.DictGetLastWins | gthack/modules/manipulateGTC.py:77 | of several pairs with the same key, the last one gives the value |
| Alleles.ComplementTableDomain | gthack/modules/manipulateGTC.py:77 | the table `COMPLEMENT_MAP` holds (ComplementTable) has exactly the zipped keys as its keys, and every complement is one of the zipped values |
| Alleles.ComplementMapIsTable | gthack/modules/manipulateGTC.py:77 | the zipped `COMPLEMENT_MAP` equals the written-out table, for every character |
| Alleles.Complement | gthack/modules/manipulateGTC.py:88 | `COMPLEMENT_MAP[c]` is the table entry, or `KeyError` when there is none |
| Alleles.ComplementSwapsBases | gthack/modules/manipulateGTC.py:77 | A and T, C and G are swapped |
| Alleles.ComplementSwapsAmbiguity | gthack/modules/manipulateGTC.py:77 | B and V, K and M, R and Y are swapped |
| Alleles.ComplementFixesAndH | gthack/modules/manipulateGTC.py:77 | N, I and D are fixed, and H goes to D because the later `D` pair wins |
| Alleles.ComplementDomain | gthack/modules/manipulateGTC.py:77 | the table is defined on exactly fourteen letters; every other character, `-` included, raises `KeyError` |
| Alleles.ComplementTwice | gthack/modules/manipulateGTC.py:77 | complementing twice gives the letter back for every key except H, which comes back as D |
| Alleles.ReferenceAlleles | gthack/modules/manipulateGTC.py:85-88 | the reference alleles are the characters at index 1 and index -2, complemented on the Minus strand; `IndexError` below two characters; on Minus, success exactly when both letters are in the table |
| Alleles.BracketedReferenceAlleles | gthack/modules/manipulateGTC.py:85-88 | for `[x/y]` the alleles are (x, y) on Plus; on Minus they are complements that map back to x and y when neither is H |
| Alleles.Classify | gthack/modules/manipulateGTC.py:95-113 | code 2 exactly for two different letters not starting with `-`; code 0 exactly for `--`; no code exactly for `-X`; a homozygous pair gets 1 exactly when it resolves to the first reference allele, else 3; `KeyError` exactly for a homozygous letter outside both the references and the table; `-X` keeps the old code with `-` as the request's first letter, so its base call is spelled from the CSV alleles |
| Alleles.CallAlleles | gthack/modules/manipulateGTC.py:119-134 | the base call is spelled from the strand-corrected reference alleles when the request's first letter is I or D, and from the CSV alleles otherwise |
| Alleles.BaseCall | gthack/modules/manipulateGTC.py:116-134 | the base call has two characters; with (a, b) the chosen pair it is `--` for code 0, a+a for code 1, a+b for code 2 and b+b for any other code |
| Alleles.BaseCallDeterminesCode | gthack/modules/manipulateGTC.py:116-134 | for a pair of two distinct letters other than `-`, the base call of each code 0-3 reads back as that code, so code and base call agree |
| Manifests.OverrideLine | gthack/modules/manipulateGTC.py:195-201 | an override line fails exactly when its name is known and it has no tab (`IndexError`); an unknown name changes nothing and is reported; a known name sets the first marker of that name to the stripped replacement |
| Manifests.OverrideStep | gthack/modules/manipulateGTC.py:195-201 | one iteration of the override loop on the run so far: nothing once the run has raised, otherwise the line's patch, its logged name, or the exception that ends the run; the number of markers never changes |
| Manifests.OverrideRun | gthack/modules/manipulateGTC.py:194-201 | the override loop over the whole file, in line order, stopping at the first uncaught exception; the number of markers never changes |
| Manifests.OverrideUntouched | gthack/modules/manipulateGTC.py:194-198 | after a completed run, a marker no line targets keeps its allele string |
| Manifests.OverrideLastLineWins | gthack/modules/manipulateGTC.py:194-198 | after a completed run, a marker's allele string is the replacement of the last line that targets it |
| Manifests.OverrideSkipsUnknown | gthack/modules/manipulateGTC.py:196-201 | removing a line with an unknown name, from anywhere in the file, changes neither the allele strings nor the outcome; later lines are still applied |
| Manifests.OverrideRunStops | gthack/modules/manipulateGTC.py:194-201 | once a line has raised, the later lines change nothing |
| Manifests.OverrideOne | gthack/modules/manipulateGTC.py:195-201 | one loop iteration patches `snps` in place as one override step specifies; names and strands are unchanged |
| Manifests.SnpOverride | gthack/modules/manipulateGTC.py:189-203 | the manifest's `snps` after the loop, the skipped names and the exception are those of the override run over the file; names and strands are unchanged |
| Manifests.BracketAlleles | gthack/modules/manipulateGTC.py:240-244 | the only exception the scan can raise is `IndexError` |
| Manifests.BracketAllelesFirstStop | gthack/modules/manipulateGTC.py:241-244 | the first position holding a `[` that is followed four characters later by `]` or by the end decides the outcome: the letters at offsets 1 and 3, or `IndexError` |
| Manifests.BracketAllelesNoStop | gthack/modules/manipulateGTC.py:240 | without such a position the allele is `'NA'`, read as the pair (N, A) |
| Manifests.ScanTopGenomicSeq | gthack/modules/manipulateGTC.py:240-244 | the scanning loop with its `break` computes the scan's outcome |
| Manifests.KeptRows | gthack/modules/manipulateGTC.py:234-236 | a row is kept exactly when it is one of the rows and has both a Name and a TopGenomicSeq column; no rows are added |
| Manifests.KeptRowsAppend | gthack/modules/manipulateGTC.py:234-236 | keeping rows commutes with concatenation, and one row is kept exactly when it has both columns, so the kept rows are the file's qualifying rows in file order |
| Manifests.CsvManifestOf | gthack/modules/manipulateGTC.py:234-246 | the CSV manifest has as many names as allele pairs and no more than the rows; CsvManifestEntries and CsvManifestFails state its contents and failures |
| Manifests.CsvManifestEntries | gthack/modules/manipulateGTC.py:234-246 | entry k of the CSV manifest has the Name of kept row k and the alleles scanned from its TopGenomicSeq, and there is one entry per kept row |
| Manifests.CsvManifestFails | gthack/modules/manipulateGTC.py:234-246 | the CSV manifest fails to build exactly when the scan of some kept row raises |
| Manifests.GetManifestCsv | gthack/modules/manipulateGTC.py:211-247 | the row loop builds the CSV manifest of the rows, or stops with the scan's exception |
| Records.ResolveEdit | gthack/modules/manipulateGTC.py:79-92 | an edit line resolves to the first manifest marker with its name; `ValueError` for an unknown name; `IndexError` when that position is past the CSV manifest; `AssertionError` when the CSV name there differs; the reference-allele exception when they cannot be read; otherwise it resolves exactly when the second field has two characters (`IndexError` if not), and then the reference alleles are that marker's and the requested pair is the first two characters of the second field |
| Records.WriteMarkerFrame | gthack/modules/manipulateGTC.py:95-134 | the write changes nothing but position `loc` of fields 1002 and 1003 |
| Records.WriteMarkerWrites | gthack/modules/manipulateGTC.py:95-134 | the write stores the decision's code (or the old code) and the base call of that code |
| Records.WriteMarkerIdempotent | gthack/modules/manipulateGTC.py:95-134 | writing the same marker twice gives the record of writing it once |
| Records.WriteMarker | gthack/modules/manipulateGTC.py:95-134 | the writes succeed exactly when fields 1002 and 1003 are lists that reach the marker's position, and then keep the record's fields and that shape; its lemmas below state the frame, the writes and idempotence |
| Records.SnpEdit | gthack/modules/manipulateGTC.py:73-135 | snpUpdate raises the lookup's exception when the marker cannot be resolved; an edit that succeeds keeps the record's fields, which reach the marker's position; its lemmas below state the frame, the writes, idempotence and failures |
| Records.SnpEditFrame | gthack/modules/manipulateGTC.py:79-134 | snpUpdate changes only `data[1002][loc]` and `data[1003][loc]`; every other field and position is unchanged |
| Records.SnpEditWrites | gthack/modules/manipulateGTC.py:95-134 | snpUpdate stores the code of the decision (the old code for `-X`), and the base call of that code spelled from the pair the decision selects |
| Records.SnpEditIdempotent | gthack/modules/manipulateGTC.py:73-135 | applying the same edit line twice gives the record of applying it once |
| Records.SnpEditFailures | gthack/modules/manipulateGTC.py:79-82 | an unknown marker raises `ValueError`; a CSV name that differs fails the assertion; a record without field 1002 cannot be edited |
| Records.SnpEditExampleFirstAllele | gthack/modules/manipulateGTC.py:102-103 | for `[A/G]` on Plus, `AA` gives code 1 and base call `AA` |
| Records.SnpEditExampleSecondAllele | gthack/modules/manipulateGTC.py:104-105 | for `[A/G]` on Plus, `GG` gives code 3 and base call `GG` |
| Records.SnpEditExampleHeterozygous | gthack/modules/manipulateGTC.py:95-96 | for `[A/G]` on Plus, `AG` gives code 2 and base call `AG` |
| Records.SnpEditExampleNoCall | gthack/modules/manipulateGTC.py:97-99 | `--` gives code 0 and base call `--` |
| Records.SnpEditExampleComplemented | gthack/modules/manipulateGTC.py:106-109 | for `[A/G]` on Minus, `AA` complements to the first reference allele T: code 1, base call `AA` from the CSV alleles |
| Records.SnpEditExampleComplementedSecond | gthack/modules/manipulateGTC.py:106-111 | for `[A/G]` on Minus, `GG` complements to C: code 3, base call `GG` |
| Records.MetaDataField | gthack/modules/manipulateGTC.py:43-52 | the `if`/`elif` chain sends a key to a field only when that field's key is the same key (sampleName 10, sentrixBarcode 1016, plateName 11, well 12, sex 1007) |
| Records.MetaDataTableBijective | gthack/modules/manipulateGTC.py:43-52 | the five keys and the fields 10, 1016, 11, 12 and 1007 correspond one to one |
| Records.MetaDataDict | gthack/modules/manipulateGTC.py:42-59 | every field the loop collects is one of the five metadata fields |
| Records.MetaDataStep | gthack/modules/manipulateGTC.py:43-58 | one assignment of the loop; starting from a dictionary of metadata fields, it only ever binds metadata fields |
| Records.CollectAssignment | gthack/modules/manipulateGTC.py:43-58 | the loop body on dataDict computes exactly one MetaDataStep, or its `IndexError` |
| Records.MetaDataStepWrites | gthack/modules/manipulateGTC.py:43-58 | one assignment binds the field it names to its text and changes nothing else; an unknown key changes nothing |
| Records.MetaDataStepFails | gthack/modules/manipulateGTC.py:43-52 | one assignment raises exactly when its key is known and it has no `=`, and the exception is `IndexError` |
| Records.MetaDataDictLastWins | gthack/modules/manipulateGTC.py:42-59 | a named field is set, to the text of the last assignment that names it |
| Records.MetaDataDictOnlyNamed | gthack/modules/manipulateGTC.py:42-59 | a field no assignment names is not set |
| Records.MetaDataDictRaisesIndexError | gthack/modules/manipulateGTC.py:42-59 | the loop can raise only `IndexError` |
| Records.MetaDataDictFailsAt | gthack/modules/manipulateGTC.py:42-59 | one known key without `=` makes the loop raise |
| Records.MetaDataDictSucceeds | gthack/modules/manipulateGTC.py:42-59 | without such an assignment the loop completes |
| Records.MetaDataDictFails | gthack/modules/manipulateGTC.py:41-59 | the loop raises exactly when some known key comes without `=`, and then with `IndexError` |
| Records.MetaDataUpdates | gthack/modules/manipulateGTC.py:41 | the metadata string splits into at least one assignment, none containing a comma, and the assignments joined by commas give back the string without its trailing whitespace |
| Records.MetaDataEdit | gthack/modules/manipulateGTC.py:34-64 | updateMetaData never removes a field and leaves every non-metadata field as it was |
| Records.MetaDataEditSets | gthack/modules/manipulateGTC.py:41-62 | the field of the k-th assignment holds its text, encoded, when no later assignment names that field |
| Records.MetaDataEditKeeps | gthack/modules/manipulateGTC.py:41-62 | a field no assignment names is present afterwards exactly when it was before, with its old value |
| Records.GtcRecord.SnpUpdate | gthack/modules/manipulateGTC.py:73-135 | the in-place update leaves the record that snpUpdate specifies, or reports its exception |
| Records.GtcRecord.WriteAt | gthack/modules/manipulateGTC.py:95-134 | on a record that reaches the marker, writing the genotype byte and then the base call spelled from the stored code leaves the record WriteMarker specifies |
| Records.GtcRecord.UpdateMetaData | gthack/modules/manipulateGTC.py:34-64 | the dictionary loop and the copy leave the record that updateMetaData specifies, or report its `IndexError` |
| Driver.OpenBlock | gthack/modules/manipulateGTC.py:284-289 | a header with fewer than two fields raises `IndexError`; the source is the first field without its `>`; the output name is the second field; metadata is applied exactly when there are three fields; a header of two or more fields whose record is stored opens unless updateMetaData raises, and then the run gets that exception |
| Driver.EditLine | gthack/modules/manipulateGTC.py:291-292 | an edit never adds or removes a field, and fails on a record without field 1002 |
| Driver.Blocks | gthack/modules/manipulateGTC.py:264-292 | every block starts with a `>` line, and no edit line of a block is one |
| Driver.BlocksPartition | gthack/modules/manipulateGTC.py:264-292 | a script that starts with a header is exactly its blocks laid end to end |
| Driver.ApplyEditsKeepsFields | gthack/modules/manipulateGTC.py:291-292 | the edits of a block never add or remove a field of the record |
| Driver.Step | gthack/modules/manipulateGTC.py:266-292 | one iteration counts a header, hands over one more record exactly on a header after the first, and never drops a record already handed over; StepOnHeader and StepOnEdit state its two branches |
| Driver.Fold | gthack/modules/manipulateGTC.py:264-292 | while the loop runs it has seen no more headers than lines and has handed over one record fewer than the headers it has seen; FoldFollowsBlocks states what it computes |
| Driver.Run | gthack/modules/manipulateGTC.py:260-304 | a run that ends without an exception has handed over at least one record and no more than there are lines; RunFlushesEveryBlock states its outcome |
| Driver.FoldStops | gthack/modules/manipulateGTC.py:264-292 | once the loop has raised, the remaining lines change nothing |
| Driver.StepOnHeader | gthack/modules/manipulateGTC.py:266-289 | a header counts one more record, hands the open record over unless it is the first header, and then opens the record it names |
| Driver.StepOnEdit | gthack/modules/manipulateGTC.py:291-292 | any other line is snpUpdate on the open record |
| Driver.StepOnEmpty | gthack/modules/manipulateGTC.py:266 | an empty line raises `IndexError` |
| Driver.HeaderFollows | gthack/modules/manipulateGTC.py:266-289 | a header closes the open block and starts a new one, keeping the driver's invariant |
| Driver.EditFollows | gthack/modules/manipulateGTC.py:291-292 | an edit line extends the open block, keeping the driver's invariant |
| Driver.FoldFollowsBlocks | gthack/modules/manipulateGTC.py:264-292 | after every line, while the loop runs, the records handed over are the closed blocks' records, in order, and the open record is the last block's; once it has raised, the exception is the first failing block's and the records handed over are those of the blocks before it |
| Driver.OpsRejectOrphanEdits | gthack/modules/manipulateGTC.py:262 | an edit line before the first header raises, since the empty record has no field 1002 |
| Driver.RunFlushesEveryBlock | gthack/modules/manipulateGTC.py:260-304 | a run ends without exception exactly when the script starts with a header and every block's record can be built; the records handed over are then the blocks' records, each exactly once, in file order; otherwise the first failing block's exception ends the run, and the records handed over are exactly those of the blocks before it, in order; a script that does not start with a header hands nothing over |
| Driver.OpenRecord | gthack/modules/manipulateGTC.py:284-289 | the header branch loads a fresh record object holding what the header's record and metadata give |
| Driver.ProcessLine | gthack/modules/manipulateGTC.py:266-292 | one iteration of the driver loop updates the driver's locals and the open record as one step of the fold specifies |
| Driver.ProcessUpdates | gthack/modules/manipulateGTC.py:260-304 | the driver loop and the final hand-over produce the run's outcome |
| Driver.OverriddenManifest | gthack/modules/manipulateGTC.py:254-258 | with no override file the manifest is unchanged; otherwise its allele strings are those of the override run, and names and strands are kept |
| Driver.Manipulate | gthack/modules/manipulateGTC.py:14-308 | the stages run in order: a CSV manifest exception ends the run with nothing handed over, then an override exception does the same, and otherwise the outcome is the update file's Run with the overridden manifest and the CSV manifest |
| Driver.ManipulateGtc | gthack/modules/manipulateGTC.py:14-308 | builds the CSV manifest, applies the overrides in place, then runs the script, with the outcome of the whole model |
| StoredAlleles.ItemAt | gthack/modules/manipulateGTC.py:85 | indexing a stored allele string gives a letter exactly when it is text, and then the character at that index |
| StoredAlleles.ReferenceItems | gthack/modules/manipulateGTC.py:84-88 | on text, the reference alleles are exactly ReferenceAlleles; on bytes of two or more characters, the Minus strand raises `KeyError` and the Plus strand gives two ints |
| StoredAlleles.HomozygousCode | gthack/modules/manipulateGTC.py:100-111 | a homozygous request gets code 1 or 3, and raises exactly when its letter is neither reference item and has no complement |
| StoredAlleles.HomozygousCodeOnText | gthack/modules/manipulateGTC.py:100-111 | on text reference alleles the homozygous code is the one Classify decides |
| StoredAlleles.OverrideStored | gthack/modules/manipulateGTC.py:198 | as written, the override stores the bytes of the line's stripped replacement |
| StoredAlleles.OverrideStoredUnreadable | gthack/modules/manipulateGTC.py:84-111 | as written, after an override the marker raises `KeyError` on the Minus strand for every request, and on the Plus strand every homozygous letter with a complement gets code 3 |
| StoredAlleles.OverrideStoredExample | gthack/modules/manipulateGTC.py:84-111 | as written, the stored bytes of `[A/G]` give two ints on Plus, code 3 for `AA`, and `KeyError` on Minus |
| StoredAlleles.OverrideTextExample | gthack/modules/manipulateGTC.py:84-111 | stored as text, `[A/G]` gives A and G on Plus with code 1 for `AA`, and T and C on Minus |
| StoredAlleles.ExampleReplacement | gthack/modules/manipulateGTC.py:195-198 | the line `rs1<TAB>[A/G]<newline>` carries the replacement `[A/G]` |
| StoredAlleles.OverrideReadBack | gthack/modules/manipulateGTC.py:84-88 | with the replacement stored as text, a line that sets a Plus-strand marker to `[x/y]` is read back as the reference alleles x and y |

## Findings

| source | as written | input that shows it | evidently intended | confidence | as-written member | corrected member |
|---|---|---|---|---|---|---|
| gthack/modules/manipulateGTC.py:198 | the override stores `snp[1].strip().encode()`, a `bytes` value; under Python 3 snpUpdate then indexes it to ints (lines 85-88), which equal no letter and are no key of `COMPLEMENT_MAP` | an override line `rs1<TAB>[A/G]` for a marker; a later edit `rs1 AA` gets code 3 on the Plus strand, and any edit of rs1 raises `KeyError` on the Minus strand | store the replacement as text; lines 121-125 concatenate and encode two reference letters, which only works on text | high; not executed | StoredAlleles.OverrideStoredUnreadable | StoredAlleles.OverrideReadBack |

## Left out

- Alleles.RefStrand: the manifest's strand has a third value, Unknown, which line 87 treats like Plus; the model has only Plus and Minus and reads Unknown as Plus.
- `validateUpdate` (manipulateGTC.py:144-181) is left out. It re-reads both files through the external `GenotypeCalls` decoder and compares numpy arrays. It catches its own `AssertionError`, so a failed validation is advisory and never changes a run's outcome.
- File access, the CSV reader's seven skipped lines and header, and the binary decoder and encoder (`getGtcInfo`, `write_gtc`) are left out. The model takes the rows as a parameter, and the source records as a map from name to decoded fields (`GtcStore`). A record handed to the encoder is a `Flush` value in the run's outcome. Path joining is not modelled.
- Logging, `print`, `sys.stdout.flush` and the closing `sys.exit()` are left out; they do not affect the records.
- `BeadPoolManifest` loading is left out: the manifest object is given, already loaded.
- gtcFuncs.py (argument parsing and dispatch) and modules/getSampleInfo.py (statistics and plotting) are not part of this model.
- Records.GtcRecord.SnpUpdate: when it raises, the record is left unchanged. The source may already have written `data[1002][loc]` before raising on field 1003. The run ends there and that record is never handed over, so the difference cannot be observed.
- Manifests.SnpOverride: the replacement is stored as text, which is the corrected behaviour of the finding above. The source stores bytes; what that does to later edits is modelled separately in `StoredAlleles`. The `AttributeError` the bytes reading would raise when an indel request on an overridden marker calls `.encode()` on an int is not modelled.
- Alleles.BaseCall: the base call is a two-character string. The source stores its UTF-8 encoding.
- Records.MetaDataEdit: `.encode()` is modelled as a tag on the text, not as a byte sequence.
- Builtins.Tokens: whitespace is the ASCII whitespace of `str.isspace()`; non-ASCII whitespace is not modelled.
