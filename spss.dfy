/**
  The conversion pipeline of src/spss.cc: `convert_file` walks the I/O module's
  handle-based protocol and assembles a document `{variables: {count, data},
  cases}`; `add_string_value_labels` and `add_numeric_value_labels` fetch one
  variable's value-label dictionary; `assert_spss_` turns a status into "go on"
  or a raised error.

  Each operation is a method over the scripted `Reader`, proved equal to a
  specification function of the script: `Conversion` for the whole file,
  `VariableRecord` for one variable, `CaseRow` for one case.
*/
module Spss {
  import opened Wrappers
  import opened Spssdio

  /** The reader call whose status stopped a conversion. */
  datatype Stage =
    | SetInterfaceEncoding
    | OpenRead
    | GetVarNames
    | GetVarHandle
    | GetVarAttributes
    | GetVarLabelLong
    | GetVarNValueLabels
    | GetVarCValueLabels
    | GetNumberofCases
    | ReadCaseRecord
    | GetValueNumeric
    | GetValueChar
    | FreeVarNames
    | CloseRead

  /** The error `assert_spss_` raises: the status and the call that returned it. */
  datatype Error = SpssError(status: int, stage: Stage)

  /** What `assert_spss_` leaves behind: nothing, or a pending error. */
  datatype Outcome = Pass | Raised(error: Error)

  /** The three ways a status can be read: go on, legitimately absent, or fatal. */
  datatype Verdict = Proceed | Absent | Fatal

  /** Capacities of the fixed buffers, SPSS_MAX_VARLABEL and SPSS_MAX_LONGSTRING. */
  datatype Limits = Limits(maxVarLabel: nat, maxLongString: nat)

  // The output document.

  datatype VarType = Numeric | String

  datatype Value = Number(number: Double) | Text(text: string)

  datatype ValueLabel = ValueLabel(value: Value, caption: string)

  datatype Variable = Variable(
    name: string,
    varType: VarType,
    longLabel: Option<string>,
    attributes: Option<map<string, string>>,
    valueLabels: Option<seq<ValueLabel>>)

  datatype Variables = Variables(count: int, data: seq<Variable>)

  datatype Document = Document(variables: Variables, cases: seq<seq<Value>>)

  /** The variable list together with the parallel array of access handles. */
  datatype VariableList = VariableList(handles: seq<VarHandle>, vars: seq<Variable>)

  /** `assert_spss_`: passes exactly on SPSS_OK, and otherwise raises an error carrying the status. */
  function AssertSpss(status: int, stage: Stage): (o: Outcome)
    ensures o.Pass? <==> status == SPSS_OK
    ensures o.Raised? ==> o.error.status == status && o.error.stage == stage
  {
    if status != SPSS_OK then Raised(SpssError(status, stage)) else Pass
  }

  /** How a fetch with a "nothing there" sentinel reads its status. */
  function Classify(status: int, sentinel: int): (v: Verdict)
    requires sentinel != SPSS_OK
    ensures v == Proceed <==> status == SPSS_OK
    ensures v == Absent <==> status == sentinel
    ensures v == Fatal <==> status != SPSS_OK && status != sentinel
  {
    if status == SPSS_OK then Proceed
    else if status == sentinel then Absent
    else Fatal
  }

  /** The `type` field: "numeric" for type code 0, "string" for every other code. */
  function TypeOf(code: int): (t: VarType)
    ensures t == Numeric <==> code == 0
  {
    if code == 0 then Numeric else String
  }

  /** The `variable_types` array of the directory. */
  function TypeCodes(entries: seq<DirEntry>): (codes: seq<int>)
    ensures |codes| == |entries|
    ensures forall i :: 0 <= i < |entries| ==> codes[i] == entries[i].typeCode
  {
    seq(|entries|, i requires 0 <= i < |entries| => entries[i].typeCode)
  }

  /** The attributes object: each name set in turn, so a later pair overrides an earlier one. */
  function AttributeMap(pairs: seq<(string, string)>): (m: map<string, string>)
    ensures m.Keys == set p | p in pairs :: p.0
    decreases |pairs|
  {
    if pairs == [] then map[]
    else
      var last := pairs[|pairs| - 1];
      var init := pairs[..|pairs| - 1];
      assert pairs == init + [last];
      AttributeMap(init)[last.0 := last.1]
  }

  /** The `valueLabels` entries of a numeric variable, one per reader pair, in reader order. */
  function NumericLabels(pairs: seq<(Double, string)>): (items: seq<ValueLabel>)
    ensures |items| == |pairs|
    ensures forall vi :: 0 <= vi < |pairs| ==> items[vi] == ValueLabel(Number(pairs[vi].0), pairs[vi].1)
    decreases |pairs|
  {
    if pairs == [] then []
    else
      var last := pairs[|pairs| - 1];
      NumericLabels(pairs[..|pairs| - 1]) + [ValueLabel(Number(last.0), last.1)]
  }

  /** The `valueLabels` entries of a string variable, one per reader pair, in reader order. */
  function StringLabels(pairs: seq<(string, string)>): (items: seq<ValueLabel>)
    ensures |items| == |pairs|
    ensures forall vi :: 0 <= vi < |pairs| ==> items[vi] == ValueLabel(Text(pairs[vi].0), pairs[vi].1)
    decreases |pairs|
  {
    if pairs == [] then []
    else
      var last := pairs[|pairs| - 1];
      StringLabels(pairs[..|pairs| - 1]) + [ValueLabel(Text(last.0), last.1)]
  }

  /**
    The outcome of a value-label helper: fatal unless the status is SPSS_OK or
    SPSS_NO_LABELS; otherwise the list is attached exactly when the reader
    handed over at least one pair.
  */
  function ValueLabelList(status: int, items: seq<ValueLabel>, stage: Stage): (r: Result<Option<seq<ValueLabel>>, Error>)
    ensures r.Failure? <==> Classify(status, SPSS_NO_LABELS) == Fatal
    ensures r.Failure? ==> r.error == SpssError(status, stage)
    ensures r.Success? ==> (r.value.Some? <==> |items| > 0)
    ensures r.Success? && r.value.Some? ==> r.value.value == items
  {
    if status != SPSS_OK && status != SPSS_NO_LABELS then Failure(AssertSpss(status, stage).error)
    else if |items| > 0 then Success(Some(items))
    else Success(None)
  }

  /** Value labels of one variable: string-keyed for type code > 0, numeric-keyed otherwise. */
  function ValueLabelsFor(s: Script, e: DirEntry): (r: Result<Option<seq<ValueLabel>>, Error>)
    ensures var reply := if e.typeCode > 0 then MetaOf(s, e.name).stringLabels.status
                         else MetaOf(s, e.name).numericLabels.status;
            && (r.Failure? <==> Classify(reply, SPSS_NO_LABELS) == Fatal)
            && (r.Failure? ==> r.error == SpssError(reply, if e.typeCode > 0 then GetVarCValueLabels else GetVarNValueLabels))
    ensures r.Success? && r.value.Some? ==>
      forall l :: l in r.value.value ==> (l.value.Text? <==> e.typeCode > 0)
  {
    var m := MetaOf(s, e.name);
    if e.typeCode > 0 then
      ValueLabelList(m.stringLabels.status, StringLabels(Handed(m.stringLabels)), GetVarCValueLabels)
    else
      ValueLabelList(m.numericLabels.status, NumericLabels(Handed(m.numericLabels)), GetVarNValueLabels)
  }

  /** The long label: absent on SPSS_NO_LABEL, fatal on any other non-OK status. */
  function LongLabel(s: Script, e: DirEntry, lim: Limits): (r: Result<Option<string>, Error>)
    ensures r.Failure? <==> Classify(MetaOf(s, e.name).longLabel.status, SPSS_NO_LABEL) == Fatal
    ensures r.Failure? ==> r.error == SpssError(MetaOf(s, e.name).longLabel.status, GetVarLabelLong)
    ensures r.Success? ==> (r.value.Some? <==> MetaOf(s, e.name).longLabel.status == SPSS_OK)
    ensures r.Success? && r.value.Some? ==>
      |r.value.value| <= lim.maxVarLabel && r.value.value <= MetaOf(s, e.name).longLabel.value
      && r.value.value == Fit(MetaOf(s, e.name).longLabel.value, lim.maxVarLabel + 1)
  {
    var reply := MetaOf(s, e.name).longLabel;
    if reply.status == SPSS_NO_LABEL then Success(None)
    else
      var o := AssertSpss(reply.status, GetVarLabelLong);
      if o.Raised? then Failure(o.error)
      else Success(Some(Fit(reply.value, lim.maxVarLabel + 1)))
  }

  /**
    One pass of the variable loop of `convert_file`: the access handle, then the
    attributes, the long label and the value labels, stopping at the first
    fatal status.
  */
  function VariableRecord(s: Script, e: DirEntry, lim: Limits): (r: Result<(VarHandle, Variable), Error>)
    ensures r.Success? ==> r.value.1.name == e.name && r.value.1.varType == TypeOf(e.typeCode)
    ensures r.Failure? ==> VariableStage(r.error.stage)
    ensures var m := MetaOf(s, e.name);
            m.handle.status != SPSS_OK ==> r == Failure(SpssError(m.handle.status, GetVarHandle))
    ensures var m := MetaOf(s, e.name);
            m.handle.status == SPSS_OK && m.attributes.status != SPSS_OK ==>
              r == Failure(SpssError(m.attributes.status, GetVarAttributes))
    ensures var m := MetaOf(s, e.name);
            m.handle.status == SPSS_OK && m.attributes.status == SPSS_OK
            && Classify(m.longLabel.status, SPSS_NO_LABEL) == Fatal ==>
              r == Failure(SpssError(m.longLabel.status, GetVarLabelLong))
    ensures var m := MetaOf(s, e.name);
            m.handle.status == SPSS_OK && m.attributes.status == SPSS_OK
            && Classify(m.longLabel.status, SPSS_NO_LABEL) != Fatal && ValueLabelsFor(s, e).Failure? ==>
              r == Failure(ValueLabelsFor(s, e).error)
  {
    var m := MetaOf(s, e.name);
    var handle := AssertSpss(m.handle.status, GetVarHandle);
    if handle.Raised? then Failure(handle.error)
    else
      var attrStatus := AssertSpss(m.attributes.status, GetVarAttributes);
      if attrStatus.Raised? then Failure(attrStatus.error)
      else
        var pairs := Handed(m.attributes);
        var attributes := if |pairs| > 0 then Some(AttributeMap(pairs)) else None;
        var longLabel := LongLabel(s, e, lim);
        if longLabel.Failure? then Failure(longLabel.error)
        else
          var valueLabels := ValueLabelsFor(s, e);
          if valueLabels.Failure? then Failure(valueLabels.error)
          else
            Success((m.handle.value,
                     Variable(e.name, TypeOf(e.typeCode), longLabel.value, attributes, valueLabels.value)))
  }

  /**
    The variable loop over `entries`: every variable described in directory
    order, or the error of the first variable that fails.
  */
  function Catalogue(s: Script, entries: seq<DirEntry>, lim: Limits): (r: Result<VariableList, Error>)
    ensures r.Success? ==> |r.value.handles| == |entries| && |r.value.vars| == |entries|
    ensures r.Failure? ==> VariableStage(r.error.stage)
    decreases |entries|
  {
    if entries == [] then Success(VariableList([], []))
    else
      var init := entries[..|entries| - 1];
      var prefix := Catalogue(s, init, lim);
      if prefix.Failure? then Failure(prefix.error)
      else
        var one := VariableRecord(s, entries[|entries| - 1], lim);
        if one.Failure? then Failure(one.error)
        else Success(VariableList(prefix.value.handles + [one.value.0], prefix.value.vars + [one.value.1]))
  }

  /** One cell of a case: a number read for type code 0, a bounded string otherwise. */
  function CellValue(c: CaseRecord, h: VarHandle, code: int, lim: Limits): (r: Result<Value, Error>)
    ensures r.Success? ==> (r.value.Number? <==> code == 0)
    ensures r.Success? && r.value.Text? ==> |r.value.text| <= lim.maxLongString
    ensures r.Success? <==> (if code == 0 then NumberAt(c, h).status else TextAt(c, h).status) == SPSS_OK
    ensures r.Failure? ==> r.error == if code == 0 then SpssError(NumberAt(c, h).status, GetValueNumeric)
                                     else SpssError(TextAt(c, h).status, GetValueChar)
  {
    if code == 0 then
      var reply := NumberAt(c, h);
      var o := AssertSpss(reply.status, GetValueNumeric);
      if o.Raised? then Failure(o.error) else Success(Number(reply.value))
    else
      var reply := TextAt(c, h);
      var o := AssertSpss(reply.status, GetValueChar);
      if o.Raised? then Failure(o.error) else Success(Text(Fit(reply.value, lim.maxLongString + 1)))
  }

  /** One case row: one cell per variable, in variable order, or the error of the first failing read. */
  function CaseRow(c: CaseRecord, handles: seq<VarHandle>, codes: seq<int>, lim: Limits): (r: Result<seq<Value>, Error>)
    requires |handles| == |codes|
    ensures r.Success? ==> |r.value| == |codes|
    ensures r.Failure? ==> r.error.stage.GetValueNumeric? || r.error.stage.GetValueChar?
    decreases |codes|
  {
    if codes == [] then Success([])
    else
      var n := |codes| - 1;
      var prefix := CaseRow(c, handles[..n], codes[..n], lim);
      if prefix.Failure? then Failure(prefix.error)
      else
        var cell := CellValue(c, handles[n], codes[n], lim);
        if cell.Failure? then Failure(cell.error)
        else Success(prefix.value + [cell.value])
  }

  /** Case `k` (0-based): advance the cursor onto it, then read its row. */
  function CaseStep(s: Script, handles: seq<VarHandle>, codes: seq<int>, k: nat, lim: Limits): (r: Result<seq<Value>, Error>)
    requires |handles| == |codes|
    ensures r.Success? ==> k < |s.records| && r == CaseRow(s.records[k], handles, codes, lim)
    ensures r.Failure? ==> CaseStage(r.error.stage)
  {
    var o := AssertSpss(AdvanceStatus(s, k), ReadCaseRecord);
    if o.Raised? then Failure(o.error)
    else CaseRow(s.records[k], handles, codes, lim)
  }

  /** The first `n` cases in file order, or the error of the first case that fails. */
  function CaseRows(s: Script, handles: seq<VarHandle>, codes: seq<int>, n: nat, lim: Limits): (r: Result<seq<seq<Value>>, Error>)
    requires |handles| == |codes|
    ensures r.Success? ==> |r.value| == n
    ensures r.Failure? ==> CaseStage(r.error.stage)
    decreases n
  {
    if n == 0 then Success([])
    else
      var prefix := CaseRows(s, handles, codes, n - 1, lim);
      if prefix.Failure? then Failure(prefix.error)
      else
        var row := CaseStep(s, handles, codes, n - 1, lim);
        if row.Failure? then Failure(row.error)
        else Success(prefix.value + [row.value])
  }

  /** The number of rows the case loop runs for a reported case count. */
  function CaseTotal(numCases: int): (n: nat)
    ensures numCases >= 0 ==> n == numCases
    ensures numCases < 0 ==> n == 0
  {
    if numCases > 0 then numCases else 0
  }

  /** Where the row read for the 1-based case `caseIdx` goes in the zero-based `cases` array. */
  function CaseSlot(caseIdx: int, numCases: int): (slot: int)
    requires 1 <= caseIdx <= numCases
    ensures 0 <= slot < numCases
    ensures slot + 1 == caseIdx
  {
    caseIdx - 1
  }

  /**
    `convert_file` as a function of the reader's answers: set the encoding,
    open, fetch the directory, then go on with `ConversionFrom`; the first
    fatal status is the result.
  */
  function Conversion(s: Script, lim: Limits): (r: Result<Document, Error>)
    ensures s.encodingStatus != SPSS_OK ==> r == Failure(SpssError(s.encodingStatus, SetInterfaceEncoding))
    ensures s.encodingStatus == SPSS_OK && s.openStatus != SPSS_OK ==> r == Failure(SpssError(s.openStatus, OpenRead))
    ensures s.encodingStatus == SPSS_OK && s.openStatus == SPSS_OK && s.directory.status != SPSS_OK ==>
      r == Failure(SpssError(s.directory.status, GetVarNames))
    ensures r.Success? ==>
      r.value.variables.count == |r.value.variables.data| == |s.directory.value|
      && |r.value.cases| == CaseTotal(s.caseCount.value)
  {
    var encoding := AssertSpss(s.encodingStatus, SetInterfaceEncoding);
    if encoding.Raised? then Failure(encoding.error)
    else
      var open := AssertSpss(s.openStatus, OpenRead);
      if open.Raised? then Failure(open.error)
      else
        var names := AssertSpss(s.directory.status, GetVarNames);
        if names.Raised? then Failure(names.error)
        else ConversionFrom(s, Handed(s.directory), lim)
  }

  /**
    The rest of `convert_file` once the directory `entries` is held: the
    variable loop, the case count, the case loop, freeing the directory and
    closing the file.
  */
  function ConversionFrom(s: Script, entries: seq<DirEntry>, lim: Limits): (r: Result<Document, Error>)
    ensures r.Success? ==>
      r.value.variables.count == |r.value.variables.data| == |entries|
      && |r.value.cases| == CaseTotal(s.caseCount.value)
    ensures r.Failure? ==>
      VariableStage(r.error.stage) || CaseStage(r.error.stage)
      || r.error.stage.GetNumberofCases? || r.error.stage.FreeVarNames? || r.error.stage.CloseRead?
    ensures Catalogue(s, entries, lim).Failure? ==> r == Failure(Catalogue(s, entries, lim).error)
    ensures Catalogue(s, entries, lim).Success? && s.caseCount.status != SPSS_OK ==>
      r == Failure(SpssError(s.caseCount.status, GetNumberofCases))
    ensures Catalogue(s, entries, lim).Success? && s.caseCount.status == SPSS_OK
            && CaseRows(s, Catalogue(s, entries, lim).value.handles, TypeCodes(entries),
                        CaseTotal(s.caseCount.value), lim).Success?
            && Cleanup(s).Raised? ==>
      r == Failure(Cleanup(s).error)
  {
    var catalogue := Catalogue(s, entries, lim);
    if catalogue.Failure? then Failure(catalogue.error)
    else
      var count := AssertSpss(s.caseCount.status, GetNumberofCases);
      if count.Raised? then Failure(count.error)
      else
        var rows := CaseRows(s, catalogue.value.handles, TypeCodes(entries), CaseTotal(s.caseCount.value), lim);
        if rows.Failure? then Failure(rows.error)
        else
          var cleanup := Cleanup(s);
          if cleanup.Raised? then Failure(cleanup.error)
          else Success(Document(Variables(|entries|, catalogue.value.vars), rows.value))
  }

  /** The end of `convert_file`: free the directory arrays, then close the file. */
  function Cleanup(s: Script): (o: Outcome)
    ensures o.Pass? <==> s.freeNamesStatus == SPSS_OK && s.closeStatus == SPSS_OK
    ensures o.Raised? ==> o.error.stage.FreeVarNames? || o.error.stage.CloseRead?
    ensures s.freeNamesStatus != SPSS_OK ==> o == Raised(SpssError(s.freeNamesStatus, FreeVarNames))
    ensures s.freeNamesStatus == SPSS_OK && s.closeStatus != SPSS_OK ==> o == Raised(SpssError(s.closeStatus, CloseRead))
  {
    var free := AssertSpss(s.freeNamesStatus, FreeVarNames);
    if free.Raised? then free
    else AssertSpss(s.closeStatus, CloseRead)
  }

  /** The calls made for one variable inside the variable loop. */
  predicate VariableStage(stage: Stage) {
    stage.GetVarHandle? || stage.GetVarAttributes? || stage.GetVarLabelLong? || stage.GetVarNValueLabels? || stage.GetVarCValueLabels?
  }

  /** The calls made inside the case loop. */
  predicate CaseStage(stage: Stage) {
    stage.ReadCaseRecord? || stage.GetValueNumeric? || stage.GetValueChar?
  }

  /**
    What a failure at this stage leaves borrowed: the directory arrays, from
    the directory fetch until they are freed, since nothing frees them on an
    error path.
  */
  function Leftover(stage: Stage): (m: multiset<Loan>)
    ensures m <= multiset{DirectoryArrays}
    ensures DirectoryArrays in m <==>
      !(stage.SetInterfaceEncoding? || stage.OpenRead? || stage.GetVarNames? || stage.CloseRead?)
  {
    if VariableStage(stage) || CaseStage(stage) || stage.GetNumberofCases? || stage.FreeVarNames?
    then multiset{DirectoryArrays}
    else multiset{}
  }

  /** A failure at this stage leaves the file open: only the success path closes it. */
  predicate LeavesOpen(stage: Stage)
    ensures Leftover(stage) != multiset{} ==> LeavesOpen(stage)
  {
    !stage.SetInterfaceEncoding? && !stage.OpenRead?
  }

  // Stopping at the first failure: once a prefix succeeded and the next step
  // fails, the whole loop fails with that step's error.

  lemma {:induction false} CatalogueStopsAtFirstFailure(s: Script, entries: seq<DirEntry>, lim: Limits, i: nat)
    requires i < |entries|
    requires Catalogue(s, entries[..i], lim).Success?
    requires VariableRecord(s, entries[i], lim).Failure?
    ensures Catalogue(s, entries, lim) == Failure(VariableRecord(s, entries[i], lim).error)
    decreases |entries|
  {
    var init := entries[..|entries| - 1];
    if i < |entries| - 1 {
      assert init[..i] == entries[..i];
      CatalogueStopsAtFirstFailure(s, init, lim, i);
    } else {
      assert init == entries[..i];
    }
  }

  lemma {:induction false} CaseRowStopsAtFirstFailure(c: CaseRecord, handles: seq<VarHandle>, codes: seq<int>, lim: Limits, j: nat)
    requires |handles| == |codes| && j < |codes|
    requires CaseRow(c, handles[..j], codes[..j], lim).Success?
    requires CellValue(c, handles[j], codes[j], lim).Failure?
    ensures CaseRow(c, handles, codes, lim) == Failure(CellValue(c, handles[j], codes[j], lim).error)
    decreases |codes|
  {
    var n := |codes| - 1;
    if j < n {
      assert handles[..n][..j] == handles[..j] && codes[..n][..j] == codes[..j];
      CaseRowStopsAtFirstFailure(c, handles[..n], codes[..n], lim, j);
    } else {
      assert handles[..n] == handles[..j] && codes[..n] == codes[..j];
    }
  }

  lemma {:induction false} CaseRowsStopAtFirstFailure(s: Script, handles: seq<VarHandle>, codes: seq<int>, lim: Limits, k: nat, n: nat)
    requires |handles| == |codes| && k < n
    requires CaseRows(s, handles, codes, k, lim).Success?
    requires CaseStep(s, handles, codes, k, lim).Failure?
    ensures CaseRows(s, handles, codes, n, lim) == Failure(CaseStep(s, handles, codes, k, lim).error)
    decreases n
  {
    if k < n - 1 {
      CaseRowsStopAtFirstFailure(s, handles, codes, lim, k, n - 1);
    }
  }

  /**
    `add_numeric_value_labels`: fetch, stop on a fatal status, copy every pair
    in reader order, and free the arrays on every non-error path.
  */
  method AddNumericValueLabels(r: Reader, name: string) returns (res: Result<Option<seq<ValueLabel>>, Error>)
    modifies r`loans
    ensures r.loans == old(r.loans)
    ensures res == ValueLabelList(MetaOf(r.script, name).numericLabels.status,
                                  NumericLabels(Handed(MetaOf(r.script, name).numericLabels)), GetVarNValueLabels)
  {
    var status, pairs := r.GetVarNValueLabels(name);
    if status != SPSS_OK && status != SPSS_NO_LABELS {
      var o := AssertSpss(status, GetVarNValueLabels);
      return Failure(o.error);
    }
    var valueLabels: Option<seq<ValueLabel>> := None;
    if |pairs| > 0 {
      var list := new ValueLabel[|pairs|];
      for vi := 0 to |pairs|
        modifies list
        invariant forall k :: 0 <= k < vi ==> list[k] == ValueLabel(Number(pairs[k].0), pairs[k].1)
      {
        list[vi] := ValueLabel(Number(pairs[vi].0), pairs[vi].1);
      }
      assert list[..] == NumericLabels(pairs);
      valueLabels := Some(list[..]);
    }
    r.FreeVarNValueLabels(name);
    res := Success(valueLabels);
  }

  /**
    `add_string_value_labels`: fetch, stop on a fatal status, copy every pair
    in reader order, and free the arrays on every non-error path.
  */
  method AddStringValueLabels(r: Reader, name: string) returns (res: Result<Option<seq<ValueLabel>>, Error>)
    modifies r`loans
    ensures r.loans == old(r.loans)
    ensures res == ValueLabelList(MetaOf(r.script, name).stringLabels.status,
                                  StringLabels(Handed(MetaOf(r.script, name).stringLabels)), GetVarCValueLabels)
  {
    var status, pairs := r.GetVarCValueLabels(name);
    if status != SPSS_OK && status != SPSS_NO_LABELS {
      var o := AssertSpss(status, GetVarCValueLabels);
      return Failure(o.error);
    }
    var valueLabels: Option<seq<ValueLabel>> := None;
    if |pairs| > 0 {
      var list := new ValueLabel[|pairs|];
      for vi := 0 to |pairs|
        modifies list
        invariant forall k :: 0 <= k < vi ==> list[k] == ValueLabel(Text(pairs[k].0), pairs[k].1)
      {
        list[vi] := ValueLabel(Text(pairs[vi].0), pairs[vi].1);
      }
      assert list[..] == StringLabels(pairs);
      valueLabels := Some(list[..]);
    }
    r.FreeVarCValueLabels(name);
    res := Success(valueLabels);
  }

  /**
    The body of the variable loop of `convert_file` for one directory entry.
    Whatever the outcome, every buffer it borrows is handed back.
  */
  method DescribeVariable(r: Reader, entry: DirEntry, lim: Limits) returns (res: Result<(VarHandle, Variable), Error>)
    modifies r`loans
    ensures r.loans == old(r.loans)
    ensures res == VariableRecord(r.script, entry, lim)
  {
    var status, h := r.GetVarHandle(entry.name);
    var o := AssertSpss(status, GetVarHandle);
    if o.Raised? {
      return Failure(o.error);
    }

    var pairs;
    status, pairs := r.GetVarAttributes(entry.name);
    o := AssertSpss(status, GetVarAttributes);
    if o.Raised? {
      return Failure(o.error);
    }
    var attributes: Option<map<string, string>> := None;
    if |pairs| > 0 {
      var attrs: map<string, string> := map[];
      for ai := 0 to |pairs|
        invariant attrs == AttributeMap(pairs[..ai])
      {
        assert pairs[..ai + 1][..ai] == pairs[..ai];
        attrs := attrs[pairs[ai].0 := pairs[ai].1];
      }
      assert pairs[..|pairs|] == pairs;
      attributes := Some(attrs);
    }
    r.FreeAttributes(entry.name);

    var text, len;
    status, text, len := r.GetVarLabelLong(entry.name, lim.maxVarLabel + 1);
    var longLabel: Option<string> := None;
    if status != SPSS_NO_LABEL {
      o := AssertSpss(status, GetVarLabelLong);
      if o.Raised? {
        return Failure(o.error);
      }
      assert text[..len] == text;
      longLabel := Some(text[..len]);
    }

    var valueLabels;
    if entry.typeCode > 0 {
      valueLabels := AddStringValueLabels(r, entry.name);
    } else {
      valueLabels := AddNumericValueLabels(r, entry.name);
    }
    if valueLabels.Failure? {
      return Failure(valueLabels.error);
    }

    res := Success((h, Variable(entry.name, TypeOf(entry.typeCode), longLabel, attributes, valueLabels.value)));
  }

  /** The inner loop of the case loop: one value per variable from the current case. */
  method ReadCase(r: Reader, handles: array<VarHandle>, codes: seq<int>, lim: Limits) returns (res: Result<seq<Value>, Error>)
    requires handles.Length == |codes|
    ensures res == CaseRow(r.Current(), handles[..], codes, lim)
  {
    var row := new Value[|codes|];
    for j := 0 to |codes|
      invariant CaseRow(r.Current(), handles[..j], codes[..j], lim) == Success(row[..j])
    {
      assert handles[..j + 1][..j] == handles[..j] && codes[..j + 1][..j] == codes[..j];
      assert handles[..][..j] == handles[..j];
      if codes[j] == 0 {
        var status, value := r.GetValueNumeric(handles[j]);
        var o := AssertSpss(status, GetValueNumeric);
        if o.Raised? {
          CaseRowStopsAtFirstFailure(r.Current(), handles[..], codes, lim, j);
          assert CellValue(r.Current(), handles[j], codes[j], lim).error == o.error;
          return Failure(o.error);
        }
        row[j] := Number(value);
      } else {
        var status, value := r.GetValueChar(handles[j], lim.maxLongString + 1);
        var o := AssertSpss(status, GetValueChar);
        if o.Raised? {
          CaseRowStopsAtFirstFailure(r.Current(), handles[..], codes, lim, j);
          return Failure(o.error);
        }
        row[j] := Text(value);
      }
      assert row[..j + 1] == row[..j] + [row[j]];
    }
    assert handles[..|codes|] == handles[..] && codes[..|codes|] == codes && row[..|codes|] == row[..];
    assert CaseRow(r.Current(), handles[..], codes, lim) == Success(row[..]);
    res := Success(row[..]);
  }

  /**
    The variable loop of `convert_file`: describe every directory entry in
    order into the variable list and the access-handle array, or stop at the
    first failure. Every buffer borrowed inside the loop is handed back.
  */
  method BuildCatalogue(r: Reader, entries: seq<DirEntry>, lim: Limits) returns (res: Result<VariableList, Error>, handles: array<VarHandle>)
    modifies r`loans
    ensures r.loans == old(r.loans)
    ensures fresh(handles)
    ensures res == Catalogue(r.script, entries, lim)
    ensures res.Success? ==> handles[..] == res.value.handles
  {
    var n := |entries|;
    handles := new VarHandle[n];
    var vars := new Variable[n];
    for i := 0 to n
      modifies handles, vars, r`loans
      invariant r.loans == old(r.loans)
      invariant Catalogue(r.script, entries[..i], lim) == Success(VariableList(handles[..i], vars[..i]))
    {
      assert entries[..i + 1][..i] == entries[..i];
      var d := DescribeVariable(r, entries[i], lim);
      if d.Failure? {
        CatalogueStopsAtFirstFailure(r.script, entries, lim, i);
        return Failure(d.error), handles;
      }
      handles[i] := d.value.0;
      vars[i] := d.value.1;
      assert handles[..i + 1] == handles[..i] + [handles[i]];
      assert vars[..i + 1] == vars[..i] + [vars[i]];
    }
    assert entries[..n] == entries;
    assert handles[..n] == handles[..] && vars[..n] == vars[..];
    res := Success(VariableList(handles[..], vars[..]));
  }

  /**
    The case loop of `convert_file`: advance the cursor once per case and read
    its row, storing case `caseIdx` (1-based) at slot `caseIdx - 1` of an
    array of `numCases` rows; stop at the first failure.
  */
  method StreamCases(r: Reader, handles: array<VarHandle>, codes: seq<int>, numCases: int, lim: Limits) returns (res: Result<seq<seq<Value>>, Error>)
    requires handles.Length == |codes|
    requires r.position == 0
    modifies r`position
    ensures res == CaseRows(r.script, handles[..], codes, CaseTotal(numCases), lim)
    ensures res.Success? ==> r.position == CaseTotal(numCases)
  {
    var total := CaseTotal(numCases);
    var cases := new seq<Value>[total];
    var caseIdx := 1;
    while caseIdx <= numCases
      modifies cases, r`position
      invariant 1 <= caseIdx <= total + 1
      invariant r.position == caseIdx - 1
      invariant CaseRows(r.script, handles[..], codes, caseIdx - 1, lim) == Success(cases[..caseIdx - 1])
    {
      var k := caseIdx - 1;
      var status := r.ReadCaseRecord();
      var o := AssertSpss(status, ReadCaseRecord);
      var row: Result<seq<Value>, Error>;
      if o.Raised? {
        row := Failure(o.error);
      } else {
        row := ReadCase(r, handles, codes, lim);
      }
      assert row == CaseStep(r.script, handles[..], codes, k, lim);
      if row.Failure? {
        CaseRowsStopAtFirstFailure(r.script, handles[..], codes, lim, k, total);
        return Failure(row.error);
      }
      cases[CaseSlot(caseIdx, numCases)] := row.value;
      assert cases[..k + 1] == cases[..k] + [row.value];
      assert CaseRows(r.script, handles[..], codes, k + 1, lim) == Success(cases[..k + 1]);
      caseIdx := caseIdx + 1;
    }
    assert cases[..total] == cases[..];
    res := Success(cases[..]);
  }

  /**
    The end of `convert_file`: free the directory arrays, then close the
    file, stopping at the first failure.
  */
  method CloseFile(r: Reader) returns (o: Outcome)
    requires r.loans == multiset{DirectoryArrays} && r.isOpen
    modifies r`loans, r`isOpen
    ensures o == Cleanup(r.script)
    ensures o.Pass? ==> r.loans == multiset{} && !r.isOpen
    ensures o.Raised? ==> r.loans == Leftover(o.error.stage) && r.isOpen == LeavesOpen(o.error.stage)
  {
    var status := r.FreeVarNames();
    o := AssertSpss(status, FreeVarNames);
    if o.Raised? {
      return;
    }
    status := r.CloseRead();
    o := AssertSpss(status, CloseRead);
  }

  /**
    `convert_file` from the variable loop on, with the file open and the
    directory arrays borrowed. No failure closes the file; a failure before
    the directory is freed (every stage except CloseRead) leaves the directory
    borrowed, and a failed close leaves only the file open.
  */
  method ConvertEntries(r: Reader, entries: seq<DirEntry>, lim: Limits) returns (res: Result<Document, Error>)
    requires r.loans == multiset{DirectoryArrays} && r.isOpen && r.position == 0
    modifies r`loans, r`position, r`isOpen
    ensures res == ConversionFrom(r.script, entries, lim)
    ensures res.Success? ==> r.loans == multiset{} && !r.isOpen
    ensures res.Failure? ==> r.loans == Leftover(res.error.stage) && r.isOpen == LeavesOpen(res.error.stage)
  {
    var catalogue, handles := BuildCatalogue(r, entries, lim);
    if catalogue.Failure? {
      return Failure(catalogue.error);
    }

    var status, numCases := r.GetNumberofCases();
    var o := AssertSpss(status, GetNumberofCases);
    if o.Raised? {
      return Failure(o.error);
    }

    var cases := StreamCases(r, handles, TypeCodes(entries), numCases, lim);
    if cases.Failure? {
      return Failure(cases.error);
    }

    o := CloseFile(r);
    if o.Raised? {
      return Failure(o.error);
    }

    res := Success(Document(Variables(|entries|, catalogue.value.vars), cases.value));
  }

  /**
    `convert_file`. The result is the specification `Conversion` of the
    reader's answers. `leaked` is what is still borrowed from the reader when
    it returns and `leftOpen` whether the file is still open: nothing on
    success; a failure after the open leaves the file open, and a failure
    after the directory was fetched and before it was freed (every stage after
    GetVarNames except CloseRead) also leaves the directory arrays borrowed. A
    failed close comes after a successful free and leaves only the file open.
  */
  method ConvertFile(script: Script, lim: Limits) returns (res: Result<Document, Error>, ghost leaked: multiset<Loan>, ghost leftOpen: bool)
    ensures res == Conversion(script, lim)
    ensures res.Success? ==> leaked == multiset{} && !leftOpen
    ensures res.Failure? ==> leaked == Leftover(res.error.stage) && leftOpen == LeavesOpen(res.error.stage)
  {
    var r := new Reader(script);

    var status := r.SetInterfaceEncoding();
    var o := AssertSpss(status, SetInterfaceEncoding);
    if o.Raised? {
      return Failure(o.error), r.loans, r.isOpen;
    }

    status := r.OpenRead();
    o := AssertSpss(status, OpenRead);
    if o.Raised? {
      return Failure(o.error), r.loans, r.isOpen;
    }

    var entries;
    status, entries := r.GetVarNames();
    o := AssertSpss(status, GetVarNames);
    if o.Raised? {
      return Failure(o.error), r.loans, r.isOpen;
    }

    res := ConvertEntries(r, entries, lim);
    leaked, leftOpen := r.loans, r.isOpen;
  }
}
