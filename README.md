# node-spss conversion core, modelled in Dafny

This project models the core of the native addon that turns an SPSS `.sav` file into a
JavaScript document `{variables: {count, data}, cases}`. The core is `src/spss.cc`:

- `assert_spss_` turns a status code of the SPSS Statistics I/O module (spssdio) into
  "go on" or a raised error.
- `add_string_value_labels` and `add_numeric_value_labels` copy one variable's value-label
  dictionary and hand the library's buffers back.
- `convert_file` drives the whole handle-based protocol. It sets the encoding, opens the file
  and fetches the variable directory. For each variable it takes an access handle, the
  attributes, the long label and the value labels. Then it reads the case count, reads every
  case value by value, frees the directory and closes the file.

The model is split across five files:

- `wrappers.dfy` holds the `Option` and `Result` datatypes.
- `spssdio.dfy` (module `Spssdio`) stands in for the foreign I/O module. A `Reader` class
  answers every call from a canned `Script` and keeps the file's open flag and the case
  cursor as fields. A ghost multiset records the buffers the library has lent out. Every
  free call *requires* its loan, so a double free is a proof obligation. Which fetches lend
  buffers, and on which statuses, is an assumption about the library (see Left out).
- `spss.dfy` (module `Spss`) holds the core. Each C function and each loop of
  `convert_file` is an imperative method over the reader, with its loops and their
  invariants. Each method is proved equal to a specification function of the script:
  - `Conversion` for the whole file;
  - `VariableRecord` for one variable;
  - `Catalogue` for the variable loop;
  - `CaseRow` for one case;
  - `CaseRows` for the case loop.

  `ConvertFile` also returns, as ghost results, the loans still outstanding when it returns
  and whether the file is still open.
- `spss_properties.dfy` (module `SpssProperties`) proves what the document means:
  - variables in directory order;
  - rows aligned to the variables and typed by their type codes;
  - optional fields present exactly when the reader supplied something;
  - the sentinels "no label" and "no labels" read as absence;
  - the first fatal status is the whole outcome;
  - a worked two-variable, three-case file, and the same file with a failing second advance;
  - converting the same answers twice gives the same result (determinism).
- `spss_findings.dfy` (module `SpssFindings`) models where the case loop stores its rows,
  both as written and as corrected (see Findings).

Three behaviours of the code are kept as written:

- The attributes are fetched before the long label (`src/spss.cc:197-255`).
- No failure path closes the file, and a failure before the directory is freed (every
  stage after `spssGetVarNames` except `spssCloseRead`) leaves the directory arrays
  borrowed; a failed close comes after a successful free and leaves only the file open.
  `Spss.ConvertFile` reports both exactly (`Spss.Leftover`, `Spss.LeavesOpen`); it does not
  correct them.
- A type code below zero is typed "string" (`== 0` test, line 261) but gets numeric-keyed
  value labels (`> 0` test, line 271). The model keeps both tests.
  `SpssProperties.ConversionWellFormed` assumes the library's codes are never negative.

## Model

| member | source | states |
|---|---|---|
| Spss.AssertSpss | src/spss.cc:9-19 | passes exactly when the status is SPSS_OK; otherwise raises an error carrying that status and the call that returned it |
| Spss.TypeOf | src/spss.cc:259-263 | a variable is typed numeric exactly for type code 0, and string for every other code |
| Spss.Classify | src/spss.cc:33-36 | a status is "go on" exactly on SPSS_OK, "absent" exactly on the call's sentinel, and fatal exactly otherwise |
| Spss.AttributeMap | src/spss.cc:201-220 | the attribute object's names are exactly the names the reader handed over |
| Spss.NumericLabels | src/spss.cc:103-129 | one `{value, label}` entry per reader pair, entry `vi` built from pair `vi` with a numeric value |
| Spss.StringLabels | src/spss.cc:44-70 | one `{value, label}` entry per reader pair, entry `vi` built from pair `vi` with a text value |
| Spss.ValueLabelsFor | src/spss.cc:269-279 | dispatches on the type code: fails exactly when the selected fetch (string-keyed for a code above 0, numeric-keyed otherwise) is fatal, with its status and stage; present labels are text-keyed exactly for a code above 0 |
| Spss.ValueLabelList | src/spss.cc:33-38 | fails exactly on a status that is neither SPSS_OK nor SPSS_NO_LABELS, with that status; otherwise the list is attached exactly when it is non-empty |
| Spss.LongLabel | src/spss.cc:238-255 | fails exactly on a status that is neither SPSS_OK nor SPSS_NO_LABEL, with an error carrying that status and stage GetVarLabelLong; the label is present exactly on SPSS_OK; it is the library's label cut to the SPSS_MAX_VARLABEL buffer, hence bounded and a prefix of it |
| Spss.VariableRecord | src/spss.cc:183-279 | a described variable carries the directory name and the type of its code; a failure is the first non-OK call in source order, with its status: the handle fetch (GetVarHandle), then the attribute fetch (GetVarAttributes), then a fatal label status (GetVarLabelLong), then the value-label fetch's error |
| Spss.Catalogue | src/spss.cc:183-286 | on success one handle and one variable per directory entry; a failure comes from a per-variable call |
| Spss.CellValue | src/spss.cc:326-354 | a cell is a number exactly for type code 0 and otherwise text within SPSS_MAX_LONGSTRING; it succeeds exactly when the matching value read returns SPSS_OK, and otherwise fails with that read's status and stage (GetValueNumeric or GetValueChar) |
| Spss.CaseRow | src/spss.cc:326-359 | a successful row has one cell per variable; a failure comes from a value read |
| Spss.CaseStep | src/spss.cc:313-359 | a case that is read exists in the file and is read from its own record; a failure comes from the advance or a value read |
| Spss.CaseRows | src/spss.cc:312-360 | on success exactly `n` rows; a failure comes from the case loop |
| Spss.CaseTotal | src/spss.cc:301-312 | the loop runs `num_cases` times, and none for a negative count |
| Spss.CaseSlot | src/spss.cc:308-357 | the corrected placement: a 1-based case `1 <= caseIdx <= num_cases` goes to slot `caseIdx - 1`, which lies inside the `num_cases` slots the array was created with |
| Spss.Conversion | src/spss.cc:141-374 | `convert_file` over the reader's answers: a failed encoding, open or directory fetch is the error, with its status, in that order; a document has a count equal to its variable list's length and the directory's, and one row per reported case |
| Spss.ConversionFrom | src/spss.cc:173-374 | the conversion once the directory is held: a document has a count equal to the directory's length and one row per reported case; a failure comes from a stage after the directory fetch; a failed variable loop is its error; after it, a failed case-count fetch is the error with its status and GetNumberofCases; after every case was read, a failed free or close is `Cleanup`'s error |
| Spss.Cleanup | src/spss.cc:362-366 | passes exactly when both the directory free and the close return SPSS_OK; a failed free is the error, with its status, before the close is tried; otherwise a failed close is the error, with its status |
| Spss.Leftover | src/spss.cc:171-367 | what an early return leaves borrowed: at most the directory arrays, and those exactly when the failure came after the directory fetch and before a successful free |
| Spss.LeavesOpen | src/spss.cc:158-367 | an early return after the open leaves the file open; whenever the directory is left borrowed, the file is left open too |
| Spss.CatalogueStopsAtFirstFailure | src/spss.cc:183-286 | once variables `0..i-1` were described and variable `i` fails, the variable loop fails with variable `i`'s error |
| Spss.CaseRowStopsAtFirstFailure | src/spss.cc:326-359 | once cells `0..j-1` were read and cell `j` fails, the row fails with cell `j`'s error |
| Spss.CaseRowsStopAtFirstFailure | src/spss.cc:312-360 | once cases `0..k-1` were read and case `k` fails, the case loop fails with case `k`'s error, whatever the count |
| Spss.AddNumericValueLabels | src/spss.cc:82-139 | returns the `ValueLabelList` of the numeric labels, copied in reader order; the lent arrays are freed on every non-error path, so the loans are as before |
| Spss.AddStringValueLabels | src/spss.cc:23-80 | returns the `ValueLabelList` of the string labels, copied in reader order; the lent arrays are freed on every non-error path, so the loans are as before |
| Spss.DescribeVariable | src/spss.cc:183-283 | returns exactly `VariableRecord` of the entry, and hands back every buffer it borrowed on every path |
| Spss.ReadCase | src/spss.cc:321-359 | returns exactly `CaseRow` of the current case, read through the cached handles |
| Spss.BuildCatalogue | src/spss.cc:173-286 | returns exactly `Catalogue` of the directory, with the handle array filled in directory order on success; the loans are as before |
| Spss.StreamCases | src/spss.cc:301-360 | returns exactly `CaseRows` for `CaseTotal(num_cases)` cases, storing each row at its corrected slot; on success the cursor has advanced exactly once per case |
| Spss.CloseFile | src/spss.cc:362-366 | returns `Cleanup`; on success nothing is borrowed and the file is closed; a failed free leaves the directory borrowed and the file open; a failed close, which follows a successful free, leaves nothing borrowed and the file open |
| Spss.ConvertEntries | src/spss.cc:173-374 | returns exactly `ConversionFrom` of the directory; on success nothing is borrowed and the file is closed; on a failure before the directory is freed (every stage after GetVarNames except CloseRead) the directory is still borrowed and the file still open; a failed close leaves only the file open |
| Spss.ConvertFile | src/spss.cc:141-374 | returns exactly `Conversion` of the reader's answers; on success nothing is left borrowed or open; on failure the leftover loans and the open file are exactly those of the failing stage |
| Spssdio.Fit | src/spss.cc:238-242 | the text a NUL-terminated buffer holds is shorter than the buffer and a prefix of the source text, and equal to it when it fits |
| SpssProperties.CatalogueAt | src/spss.cc:183-286 | variable `i` and handle `i` of a successful catalogue are exactly what describing directory entry `i` gives |
| SpssProperties.CatalogueSucceedsIffEveryVariableDoes | src/spss.cc:183-286 | the variable loop succeeds if and only if every directory entry can be described |
| SpssProperties.CatalogueFailsAtFirstFailure | src/spss.cc:183-286 | a failing variable loop fails with the error of a variable all of whose predecessors succeeded |
| SpssProperties.VariableRecordFields | src/spss.cc:184-279 | a described variable has the reader's handle; its label is present exactly on SPSS_OK, absent exactly on SPSS_NO_LABEL, and is the library's label cut to the SPSS_MAX_VARLABEL buffer; its attributes are present exactly when pairs came back and are their map; its value labels are those the type selects |
| SpssProperties.VariableRecordFails | src/spss.cc:184-279 | describing a variable fails if and only if the handle or attribute fetch is not OK, or the label or value-label fetch returns neither OK nor its sentinel |
| SpssProperties.AttributeMapSound | src/spss.cc:207-216 | every attribute value in the object was handed over under that name |
| SpssProperties.AttributeMapLastWins | src/spss.cc:207-216 | of repeated attribute names, the pair handed over last wins |
| SpssProperties.OneAttribute | src/spss.cc:201-220 | one attribute `{k: v}` gives exactly the object `{k: v}` |
| SpssProperties.ValueLabelsInReaderOrder | src/spss.cc:271-277 | present value labels are the reader's pairs in the reader's order, keyed by text for a code above 0 and by number otherwise; SPSS_NO_LABELS leaves them absent |
| SpssProperties.CaseRowAt | src/spss.cc:326-359 | cell `j` of a successful row is exactly the value read for variable `j` |
| SpssProperties.CaseRowSucceedsIffEveryCellDoes | src/spss.cc:326-359 | a row succeeds if and only if every cell can be read |
| SpssProperties.CaseRowsAt | src/spss.cc:312-360 | row `k` of a successful case list is record `k` of the file, advanced onto with SPSS_OK and read in full |
| SpssProperties.CaseRowsSucceedIffEveryCaseDoes | src/spss.cc:312-360 | the case loop succeeds if and only if every case can be advanced onto and read |
| SpssProperties.CaseRowsNeedEnoughRecords | src/spss.cc:312-314 | a file that holds fewer cases than it reports cannot be converted |
| SpssProperties.ConversionSucceeds | src/spss.cc:141-374 | a successful conversion saw SPSS_OK from the encoding, open, directory, case count, free and close calls, and described every variable |
| SpssProperties.VariablesFollowDirectory | src/spss.cc:173-296 | `count` equals the number of variables and the directory's length; variable `i` has entry `i`'s name and type and is what describing it gives |
| SpssProperties.CasesFollowFile | src/spss.cc:301-360 | one row per reported case (none for a negative count), at most the file's records; row `k` is record `k` read through the variables' handles |
| SpssProperties.CellsFollowTypeCodes | src/spss.cc:326-354 | every cell of every row is a number for a variable of type code 0 and bounded text otherwise |
| SpssProperties.VariableRecordFits | src/spss.cc:183-279 | a described variable with a code of 0 or more has a bounded label, non-empty attributes and value labels when present, and value labels keyed by its own type |
| SpssProperties.ConversionWellFormed | src/spss.cc:141-374 | the document of a file whose type codes are not negative satisfies every document invariant: count, row length, cell types and variable fields |
| SpssProperties.VariableFailureAborts | src/spss.cc:183-286 | a variable that cannot be described, after its predecessors were, makes the whole conversion fail with that variable's error |
| SpssProperties.CloseFailureLeavesOnlyFileOpen | src/spss.cc:362-367 | a conversion that fails at the close saw SPSS_OK from the directory free, carries the close's status, leaves nothing borrowed and leaves the file open |
| SpssProperties.CountFailureAborts | src/spss.cc:301-303 | once every variable was described, a failing case-count fetch makes the whole conversion fail with its status and GetNumberofCases |
| SpssProperties.CleanupFailureAborts | src/spss.cc:362-367 | once every case was read, a failing directory free makes the whole conversion fail with its status and FreeVarNames, and otherwise a failing close with its status and CloseRead |
| SpssProperties.AdvanceFailureAborts | src/spss.cc:312-314 | a failing advance onto case `k` makes the whole conversion fail with a ReadCaseRecord error carrying that status, however many rows were read before |
| SpssProperties.ValueReadFailureAborts | src/spss.cc:326-349 | a failing read of cell `j` of case `k`, after every earlier case and cell was read, makes the whole conversion fail with that read's status and stage |
| SpssProperties.TwoByThreeCatalogue | src/spss.cc:183-286 | in the worked file, V1 is numeric with no value labels and V2 is a string with the single value label `{"A": "Alpha"}` |
| SpssProperties.TwoByThreeRow | src/spss.cc:326-359 | each case of the worked file reads as a number for V1 and its text for V2 |
| SpssProperties.TwoByThreeCases | src/spss.cc:312-360 | the worked file's case list is exactly `[[1, "A"], [2, "B"], [3, "C"]]`: all three cases, in file order |
| SpssProperties.TwoByThreeConverts | src/spss.cc:141-374 | the worked file converts to two variables and three rows, and V2's value labels are `[{value: "A", label: "Alpha"}]` |
| SpssProperties.TwoByThreeFailsOnSecondAdvance | src/spss.cc:312-314 | a failing advance onto case 2 of 3 gives no document, only an error naming ReadCaseRecord and its status |
| SpssProperties.ConvertTwice | src/spss.cc:141-374 | two conversions over the same reader answers give the same document, or the same error (determinism) |
| SpssFindings.NewArray | src/spss.cc:308 | a fresh array of the given length holds only holes |
| SpssFindings.SetElement | src/spss.cc:356-357 | storing at an index sets it; an index at or past the end grows the array to index + 1 with holes; every other slot is kept |
| SpssFindings.PlacedAsWritten | src/spss.cc:308-357 | the loop as written after `done` cases: the array keeps its created length until the last case, which grows it by one, and case `done` sits at index `done` |
| SpssFindings.PlacedIntended | src/spss.cc:308-357 | the corrected loop after `done` cases: the array keeps its created length, and case `done` sits at index `done - 1` |
| SpssFindings.AsWrittenShape | src/spss.cc:308-357 | as written, after `done` cases index 0 is a hole, case `k` sits at index `k`, and the array outgrows the case count at the last case |
| SpssFindings.AsWrittenMisplacesCases | src/spss.cc:308-357 | as written, any file with a case yields `cases` with a hole at index 0 and one element more than the case count |
| SpssFindings.OneCaseAsWritten | src/spss.cc:308-357 | as written, a single case `r` yields `[hole, r]` |
| SpssFindings.IntendedShape | src/spss.cc:308-357 | corrected, after `done` cases exactly the slots below `done` are filled, in case order |
| SpssFindings.IntendedPlacesEveryCase | src/spss.cc:308-357 | corrected, `cases` has exactly one element per case, case `k` at index `k`, and no hole |

## Left out

- The N-API object construction is not modelled (`napi_create_*`, `napi_set_named_property`, `napi_set_element` for variables and values). The document is the `Document` datatype. The `assert(status == napi_ok)` checks on these calls are not modelled: with assertions enabled a failing N-API call aborts the process, which the model does not capture.
- The error message text is not modelled: `snprintf` into a 100-byte buffer with the C source file and line, and `napi_throw_type_error`. An error carries the status and the reader call that returned it instead.
- `LOG` output to standard error is left out: it has no effect on the result.
- `Convert` and `Init` (src/spss.cc:376-425) are outside this core: argument checking, path extraction and module registration.
- The spssdio library's own code and its header (`spssdio.h`) are not part of this model. Every call answers from the scripted `Script`. The status constants use the I/O module's documented values, and the proofs rely only on their being distinct.
- SPSS_MAX_VARLABEL and SPSS_MAX_LONGSTRING are parameters (`Spss.Limits`), because the header that fixes them is not modelled.
- Doubles and access handles are opaque 64-bit values, because floating point is not modelled.
- Strings are sequences of characters. UTF-8 encoding, the encoding setting itself, and `NAPI_AUTO_LENGTH` stopping at an embedded NUL are not modelled.
- Spssdio.Reader.GetVarLabelLong: the length the library reports is taken to be the length of the text it wrote into the buffer.
- Spssdio.Reader.FreeAttributes: the status of `spssFreeAttributes` is checked only by `assert(status == napi_ok)` (lines 222-223), which is not modelled, so the model's free returns nothing; with assertions enabled a non-zero status aborts the process, which the model does not capture.
- Spssdio.Reader.CloseRead: the stub assumes that a failed `spssCloseRead` leaves the file open, and `Spss.LeavesOpen(CloseRead)` and the `leftOpen` result of `Spss.ConvertFile` rely on this assumption; likewise the value-label frees (`Spssdio.Reader.FreeVarNValueLabels`, `Spssdio.Reader.FreeVarCValueLabels`) are assumed never to fail, while the source discards their status (src/spss.cc:77-78, 136-137). The library's code is not part of this model.
- Spssdio.Reader.FreeVarNames: the stub assumes that a failed `spssFreeVarNames` keeps the directory arrays lent; the library's code is not part of this model, and `Spss.Leftover` and the ensures of `Spss.CloseFile` rely on this assumption.
- A negative case count: the source passes it to `napi_create_array_with_length` as an unsigned length. The model runs the loop zero times (`Spss.CaseTotal`) and does not model the array length that results.
- The release-on-every-path discipline is checked only for the buffers the source does release. The open handle is not released on any failure path, and the directory arrays are not released on a failure before their free (every stage after GetVarNames except CloseRead; a failed close leaves only the file open). The model reports this (`Spss.ConvertFile`'s ghost results) instead of correcting it.
- Spssdio.Reader.GetVarNValueLabels: the stub assumes the library writes (empty) arrays on SPSS_NO_LABELS as well as on SPSS_OK, so that the free at src/spss.cc:136-137 releases a real loan. In the source the array pointers are uninitialised locals (lines 85-86); if the library leaves them untouched on SPSS_NO_LABELS, the source frees garbage, and the model does not capture that.
- Spssdio.Reader.GetVarCValueLabels: the same assumption for the string-keyed fetch and its free at src/spss.cc:77-78 (uninitialised locals at lines 26-27).
- Uniqueness of variable names within a file is the library's guarantee, and the model does not state it.

## Findings

| source | as written | input that shows it | evidently intended | confidence | as-written member | corrected member |
|---|---|---|---|---|---|---|
| src/spss.cc:308-357 | the `cases` array is created with `num_cases` slots, and case `case_idx`, counted from 1, is stored at index `case_idx`: index 0 stays a hole and the last case lands past the created length | a file with `num_cases = 1` and one case `r`: `cases` becomes `[hole, r]`, of length 2 | case `case_idx` at index `case_idx - 1`, giving exactly one element per case and no hole | not executed | SpssFindings.AsWrittenMisplacesCases | SpssFindings.IntendedPlacesEveryCase |

The rest of the model uses the corrected placement: `Spss.StreamCases` stores each row at `Spss.CaseSlot(caseIdx, numCases)`. `SpssFindings.OneCaseAsWritten` is the one-case instance of the as-written layout.
