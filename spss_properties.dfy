/**
  What the conversion promises about the document it returns: variables in
  directory order, rows aligned to the variables and typed by them, optional
  fields present only when the reader supplied something, and the first
  fatal status as the only outcome of a failing conversion.
*/
module SpssProperties {
  import opened Wrappers
  import opened Spssdio
  import opened Spss

  // ---------------------------------------------------------------------
  // The variable loop, element by element
  // ---------------------------------------------------------------------

  /** Variable `i` of a successful catalogue is exactly what describing entry `i` yields. */
  lemma {:induction false} CatalogueAt(s: Script, entries: seq<DirEntry>, lim: Limits, i: nat)
    requires i < |entries|
    requires Catalogue(s, entries, lim).Success?
    ensures VariableRecord(s, entries[i], lim)
         == Success((Catalogue(s, entries, lim).value.handles[i], Catalogue(s, entries, lim).value.vars[i]))
    decreases |entries|
  {
    var n := |entries| - 1;
    if i < n {
      CatalogueAt(s, entries[..n], lim, i);
    }
  }

  /** The catalogue succeeds exactly when every variable of the directory can be described. */
  lemma {:induction false} CatalogueSucceedsIffEveryVariableDoes(s: Script, entries: seq<DirEntry>, lim: Limits)
    ensures Catalogue(s, entries, lim).Success?
        <==> forall i :: 0 <= i < |entries| ==> VariableRecord(s, entries[i], lim).Success?
    decreases |entries|
  {
    if entries != [] {
      var n := |entries| - 1;
      var init := entries[..n];
      CatalogueSucceedsIffEveryVariableDoes(s, init, lim);
      assert forall i :: 0 <= i < n ==> init[i] == entries[i];
    }
  }

  /** A failing catalogue fails with the error of its first failing variable. */
  lemma {:induction false} CatalogueFailsAtFirstFailure(s: Script, entries: seq<DirEntry>, lim: Limits)
    requires Catalogue(s, entries, lim).Failure?
    ensures exists i :: 0 <= i < |entries| && Catalogue(s, entries[..i], lim).Success?
                        && VariableRecord(s, entries[i], lim) == Failure(Catalogue(s, entries, lim).error)
    decreases |entries|
  {
    var n := |entries| - 1;
    var init := entries[..n];
    if Catalogue(s, init, lim).Failure? {
      CatalogueFailsAtFirstFailure(s, init, lim);
      var i :| 0 <= i < |init| && Catalogue(s, init[..i], lim).Success?
               && VariableRecord(s, init[i], lim) == Failure(Catalogue(s, init, lim).error);
      assert init[..i] == entries[..i] && init[i] == entries[i];
      assert Catalogue(s, entries, lim).error == Catalogue(s, init, lim).error;
    } else {
      assert VariableRecord(s, entries[n], lim) == Failure(Catalogue(s, entries, lim).error);
    }
  }

  // ---------------------------------------------------------------------
  // One variable
  // ---------------------------------------------------------------------

  /**
    A described variable: its handle is the one the reader gave, the label is
    present exactly when the reader returned one, absent exactly on the
    "no label" sentinel, and is the library's label cut to the
    SPSS_MAX_VARLABEL buffer; attributes are present exactly when at least one
    pair came back, and the value labels are those of `ValueLabelsFor`.
  */
  lemma VariableRecordFields(s: Script, e: DirEntry, lim: Limits)
    requires VariableRecord(s, e, lim).Success?
    ensures var m := MetaOf(s, e.name);
            var v := VariableRecord(s, e, lim).value.1;
            && VariableRecord(s, e, lim).value.0 == m.handle.value
            && m.handle.status == SPSS_OK && m.attributes.status == SPSS_OK
            && (v.attributes.Some? <==> |m.attributes.value| > 0)
            && (v.attributes.Some? ==> v.attributes.value == AttributeMap(m.attributes.value))
            && (v.longLabel.Some? <==> m.longLabel.status == SPSS_OK)
            && (v.longLabel.None? <==> m.longLabel.status == SPSS_NO_LABEL)
            && (v.longLabel.Some? ==> v.longLabel.value == Fit(m.longLabel.value, lim.maxVarLabel + 1))
            && Success(v.valueLabels) == ValueLabelsFor(s, e)
  {
  }

  /**
    Describing a variable fails exactly when the handle or attribute fetch is
    not OK, or the label or value-label fetch returns neither OK nor its
    "nothing there" sentinel.
  */
  lemma VariableRecordFails(s: Script, e: DirEntry, lim: Limits)
    ensures var m := MetaOf(s, e.name);
            var labels := if e.typeCode > 0 then m.stringLabels.status else m.numericLabels.status;
            VariableRecord(s, e, lim).Failure?
            <==> (m.handle.status != SPSS_OK || m.attributes.status != SPSS_OK
                  || Classify(m.longLabel.status, SPSS_NO_LABEL) == Fatal
                  || Classify(labels, SPSS_NO_LABELS) == Fatal)
  {
  }

  /** Every attribute the map holds was handed over by the reader under that name. */
  lemma {:induction false} AttributeMapSound(pairs: seq<(string, string)>, name: string)
    requires name in AttributeMap(pairs)
    ensures (name, AttributeMap(pairs)[name]) in pairs
    decreases |pairs|
  {
    var n := |pairs| - 1;
    var init := pairs[..n];
    assert pairs == init + [pairs[n]];
    if pairs[n].0 != name {
      AttributeMapSound(init, name);
    }
  }

  /** Of several pairs with the same name, the one the reader handed over last wins. */
  lemma {:induction false} AttributeMapLastWins(pairs: seq<(string, string)>, i: nat)
    requires i < |pairs|
    requires forall j :: i < j < |pairs| ==> pairs[j].0 != pairs[i].0
    ensures AttributeMap(pairs)[pairs[i].0] == pairs[i].1
    decreases |pairs|
  {
    var n := |pairs| - 1;
    var init := pairs[..n];
    if i < n {
      assert forall j :: i < j < n ==> init[j] == pairs[j];
      AttributeMapLastWins(init, i);
      assert pairs[i].0 in AttributeMap(init);
    }
  }

  /** One attribute `{k: v}` gives exactly the mapping `{k: v}`. */
  lemma OneAttribute(k: string, v: string)
    ensures AttributeMap([(k, v)]) == map[k := v]
  {
    assert [(k, v)][..0] == [];
  }

  /**
    The value labels of a variable, once present, are the reader's pairs in
    the reader's order, keyed by text for a type code above 0 and by number
    otherwise; the "no labels" sentinel leaves them absent.
  */
  lemma ValueLabelsInReaderOrder(s: Script, e: DirEntry)
    requires ValueLabelsFor(s, e).Success?
    ensures var m := MetaOf(s, e.name);
            var got := ValueLabelsFor(s, e).value;
            && (e.typeCode > 0 && got.Some? ==>
                  |got.value| == |m.stringLabels.value| && m.stringLabels.status == SPSS_OK
                  && forall vi :: 0 <= vi < |got.value| ==>
                       got.value[vi] == ValueLabel(Text(m.stringLabels.value[vi].0), m.stringLabels.value[vi].1))
            && (e.typeCode <= 0 && got.Some? ==>
                  |got.value| == |m.numericLabels.value| && m.numericLabels.status == SPSS_OK
                  && forall vi :: 0 <= vi < |got.value| ==>
                       got.value[vi] == ValueLabel(Number(m.numericLabels.value[vi].0), m.numericLabels.value[vi].1))
            && (e.typeCode > 0 && m.stringLabels.status == SPSS_NO_LABELS ==> got == None)
            && (e.typeCode <= 0 && m.numericLabels.status == SPSS_NO_LABELS ==> got == None)
  {
  }

  // ---------------------------------------------------------------------
  // The case loop, element by element
  // ---------------------------------------------------------------------

  /** Cell `j` of a successful row is exactly the value read for variable `j`. */
  lemma {:induction false} CaseRowAt(c: CaseRecord, handles: seq<VarHandle>, codes: seq<int>, lim: Limits, j: nat)
    requires |handles| == |codes| && j < |codes|
    requires CaseRow(c, handles, codes, lim).Success?
    ensures CellValue(c, handles[j], codes[j], lim) == Success(CaseRow(c, handles, codes, lim).value[j])
    decreases |codes|
  {
    var n := |codes| - 1;
    if j < n {
      CaseRowAt(c, handles[..n], codes[..n], lim, j);
    }
  }

  /** A row succeeds exactly when every one of its cells can be read. */
  lemma {:induction false} CaseRowSucceedsIffEveryCellDoes(c: CaseRecord, handles: seq<VarHandle>, codes: seq<int>, lim: Limits)
    requires |handles| == |codes|
    ensures CaseRow(c, handles, codes, lim).Success?
        <==> forall j :: 0 <= j < |codes| ==> CellValue(c, handles[j], codes[j], lim).Success?
    decreases |codes|
  {
    if codes != [] {
      var n := |codes| - 1;
      CaseRowSucceedsIffEveryCellDoes(c, handles[..n], codes[..n], lim);
      assert forall j :: 0 <= j < n ==> handles[..n][j] == handles[j] && codes[..n][j] == codes[j];
    }
  }

  /** Row `k` of a successful case list is case `k` of the file, read in full. */
  lemma {:induction false} CaseRowsAt(s: Script, handles: seq<VarHandle>, codes: seq<int>, n: nat, lim: Limits, k: nat)
    requires |handles| == |codes| && k < n
    requires CaseRows(s, handles, codes, n, lim).Success?
    ensures k < |s.records| && AdvanceStatus(s, k) == SPSS_OK
    ensures CaseRow(s.records[k], handles, codes, lim) == Success(CaseRows(s, handles, codes, n, lim).value[k])
    decreases n
  {
    if k < n - 1 {
      CaseRowsAt(s, handles, codes, n - 1, lim, k);
    }
  }

  /** The case list succeeds exactly when every case can be advanced onto and read. */
  lemma {:induction false} CaseRowsSucceedIffEveryCaseDoes(s: Script, handles: seq<VarHandle>, codes: seq<int>, n: nat, lim: Limits)
    requires |handles| == |codes|
    ensures CaseRows(s, handles, codes, n, lim).Success?
        <==> forall k :: 0 <= k < n ==> CaseStep(s, handles, codes, k, lim).Success?
    decreases n
  {
    if n > 0 {
      CaseRowsSucceedIffEveryCaseDoes(s, handles, codes, n - 1, lim);
    }
  }

  /** A file that holds fewer cases than it reports cannot be converted: the advance past its end fails. */
  lemma CaseRowsNeedEnoughRecords(s: Script, handles: seq<VarHandle>, codes: seq<int>, n: nat, lim: Limits)
    requires |handles| == |codes| && |s.records| < n
    ensures CaseRows(s, handles, codes, n, lim).Failure?
  {
    if CaseRows(s, handles, codes, n, lim).Success? {
      CaseRowsAt(s, handles, codes, n, lim, |s.records|);
      assert false;
    }
  }

  // ---------------------------------------------------------------------
  // The whole document
  // ---------------------------------------------------------------------

  /** A cell agrees with its column: number for a numeric variable, bounded text for a string one. */
  predicate CellFits(v: Value, t: VarType, lim: Limits) {
    (v.Number? <==> t == Numeric) && (v.Text? ==> |v.text| <= lim.maxLongString)
  }

  /** A variable's optional fields are present only with content, and its value labels are keyed by its type. */
  predicate VariableFits(v: Variable, lim: Limits) {
    && (v.longLabel.Some? ==> |v.longLabel.value| <= lim.maxVarLabel)
    && (v.attributes.Some? ==> v.attributes.value != map[])
    && (v.valueLabels.Some? ==> |v.valueLabels.value| > 0)
    && (v.valueLabels.Some? ==>
          forall l :: l in v.valueLabels.value ==> (l.value.Number? <==> v.varType == Numeric))
  }

  /** The document invariants: count, row length, cell types and variable fields. */
  predicate WellFormed(d: Document, lim: Limits) {
    && d.variables.count == |d.variables.data|
    && (forall k :: 0 <= k < |d.cases| ==> |d.cases[k]| == |d.variables.data|)
    && (forall k, j :: 0 <= k < |d.cases| && 0 <= j < |d.cases[k]| && j < |d.variables.data| ==>
          CellFits(d.cases[k][j], d.variables.data[j].varType, lim))
    && (forall j :: 0 <= j < |d.variables.data| ==> VariableFits(d.variables.data[j], lim))
  }

  /** A successful conversion went through every stage with an OK status. */
  lemma ConversionSucceeds(s: Script, lim: Limits)
    requires Conversion(s, lim).Success?
    ensures s.encodingStatus == SPSS_OK && s.openStatus == SPSS_OK && s.directory.status == SPSS_OK
    ensures Catalogue(s, s.directory.value, lim).Success?
    ensures s.caseCount.status == SPSS_OK
    ensures s.freeNamesStatus == SPSS_OK && s.closeStatus == SPSS_OK
  {
  }

  /**
    The variables of a converted file follow the directory: as many as it
    lists, in its order, each with its name, its type and the fields
    describing it yields.
  */
  lemma VariablesFollowDirectory(s: Script, lim: Limits)
    requires Conversion(s, lim).Success?
    ensures var entries := s.directory.value;
            var vars := Conversion(s, lim).value.variables;
            && vars.count == |vars.data| == |entries|
            && forall i :: 0 <= i < |entries| ==>
                 && vars.data[i].name == entries[i].name
                 && vars.data[i].varType == TypeOf(entries[i].typeCode)
                 && VariableRecord(s, entries[i], lim).Success?
                 && VariableRecord(s, entries[i], lim).value.1 == vars.data[i]
  {
    var entries := s.directory.value;
    var catalogue := Catalogue(s, entries, lim);
    forall i | 0 <= i < |entries|
      ensures VariableRecord(s, entries[i], lim) == Success((catalogue.value.handles[i], catalogue.value.vars[i]))
    {
      CatalogueAt(s, entries, lim, i);
    }
  }

  /**
    The cases of a converted file: one row per reported case (none for a
    negative count), row `k` being case `k` of the file read through the
    variables' handles in variable order.
  */
  lemma CasesFollowFile(s: Script, lim: Limits)
    requires Conversion(s, lim).Success?
    ensures var entries := s.directory.value;
            var catalogue := Catalogue(s, entries, lim);
            var cases := Conversion(s, lim).value.cases;
            && catalogue.Success?
            && |cases| == CaseTotal(s.caseCount.value) <= |s.records|
            && forall k :: 0 <= k < |cases| ==>
                 CaseRow(s.records[k], catalogue.value.handles, TypeCodes(entries), lim) == Success(cases[k])
  {
    var entries := s.directory.value;
    var catalogue := Catalogue(s, entries, lim);
    var n := CaseTotal(s.caseCount.value);
    var codes := TypeCodes(entries);
    if |s.records| < n {
      CaseRowsNeedEnoughRecords(s, catalogue.value.handles, codes, n, lim);
    }
    forall k | 0 <= k < n
      ensures CaseRow(s.records[k], catalogue.value.handles, codes, lim)
           == Success(CaseRows(s, catalogue.value.handles, codes, n, lim).value[k])
    {
      CaseRowsAt(s, catalogue.value.handles, codes, n, lim, k);
    }
  }

  /** Every cell of every row has the type of its variable's code: number for 0, bounded text otherwise. */
  lemma CellsFollowTypeCodes(s: Script, lim: Limits)
    requires Conversion(s, lim).Success?
    ensures var entries := s.directory.value;
            var cases := Conversion(s, lim).value.cases;
            forall k, j :: 0 <= k < |cases| && 0 <= j < |cases[k]| ==>
              j < |entries| && CellFits(cases[k][j], TypeOf(entries[j].typeCode), lim)
  {
    var entries := s.directory.value;
    var catalogue := Catalogue(s, entries, lim);
    var codes := TypeCodes(entries);
    var cases := Conversion(s, lim).value.cases;
    CasesFollowFile(s, lim);
    forall k, j | 0 <= k < |cases| && 0 <= j < |cases[k]|
      ensures j < |entries| && CellFits(cases[k][j], TypeOf(entries[j].typeCode), lim)
    {
      CaseRowAt(s.records[k], catalogue.value.handles, codes, lim, j);
    }
  }

  /** A described variable whose type code is not negative meets the document's field invariants. */
  lemma VariableRecordFits(s: Script, e: DirEntry, lim: Limits)
    requires VariableRecord(s, e, lim).Success? && e.typeCode >= 0
    ensures VariableFits(VariableRecord(s, e, lim).value.1, lim)
  {
    var m := MetaOf(s, e.name);
    var v := VariableRecord(s, e, lim).value.1;
    if v.attributes.Some? {
      var pairs := m.attributes.value;
      assert pairs[0] in pairs;
      assert pairs[0].0 in v.attributes.value.Keys;
    }
    if v.valueLabels.Some? {
      forall l | l in v.valueLabels.value
        ensures l.value.Number? <==> v.varType == Numeric
      {
        var vi :| 0 <= vi < |v.valueLabels.value| && v.valueLabels.value[vi] == l;
      }
    }
  }

  /**
    The document of a file whose type codes are all 0 or positive (as the I/O
    module reports them) satisfies every document invariant.
  */
  lemma ConversionWellFormed(s: Script, lim: Limits)
    requires Conversion(s, lim).Success?
    requires forall e :: e in s.directory.value ==> e.typeCode >= 0
    ensures WellFormed(Conversion(s, lim).value, lim)
  {
    var entries := s.directory.value;
    var d := Conversion(s, lim).value;
    VariablesFollowDirectory(s, lim);
    CasesFollowFile(s, lim);
    CellsFollowTypeCodes(s, lim);
    forall k | 0 <= k < |d.cases|
      ensures |d.cases[k]| == |d.variables.data|
    {
    }
    forall j | 0 <= j < |d.variables.data|
      ensures VariableFits(d.variables.data[j], lim)
    {
      assert entries[j] in entries;
      VariableRecordFits(s, entries[j], lim);
    }
  }

  // ---------------------------------------------------------------------
  // Failure: the first fatal status is the whole outcome
  // ---------------------------------------------------------------------

  /** A variable that cannot be described aborts the conversion with its own error. */
  lemma VariableFailureAborts(s: Script, lim: Limits, i: nat)
    requires s.encodingStatus == SPSS_OK && s.openStatus == SPSS_OK && s.directory.status == SPSS_OK
    requires i < |s.directory.value|
    requires Catalogue(s, s.directory.value[..i], lim).Success?
    requires VariableRecord(s, s.directory.value[i], lim).Failure?
    ensures Conversion(s, lim) == Failure(VariableRecord(s, s.directory.value[i], lim).error)
  {
    CatalogueStopsAtFirstFailure(s, s.directory.value, lim, i);
  }

  /**
    A conversion that fails at the close got SPSS_OK from the directory free
    first, so the directory arrays are back with the library and only the
    file is left open.
  */
  lemma CloseFailureLeavesOnlyFileOpen(s: Script, lim: Limits)
    requires Conversion(s, lim).Failure? && Conversion(s, lim).error.stage.CloseRead?
    ensures s.freeNamesStatus == SPSS_OK && Conversion(s, lim).error.status == s.closeStatus
    ensures Leftover(Conversion(s, lim).error.stage) == multiset{}
    ensures LeavesOpen(Conversion(s, lim).error.stage)
  {
  }

  /** A failing case-count fetch, once every variable was described, aborts the conversion with its status. */
  lemma CountFailureAborts(s: Script, lim: Limits)
    requires s.encodingStatus == SPSS_OK && s.openStatus == SPSS_OK && s.directory.status == SPSS_OK
    requires Catalogue(s, s.directory.value, lim).Success?
    requires s.caseCount.status != SPSS_OK
    ensures Conversion(s, lim) == Failure(SpssError(s.caseCount.status, GetNumberofCases))
  {
  }

  /**
    Once every case was read, a failing directory free or close aborts the
    conversion with that call's error: the free's if it failed, else the
    close's.
  */
  lemma CleanupFailureAborts(s: Script, lim: Limits)
    requires s.encodingStatus == SPSS_OK && s.openStatus == SPSS_OK && s.directory.status == SPSS_OK
    requires Catalogue(s, s.directory.value, lim).Success?
    requires s.caseCount.status == SPSS_OK
    requires CaseRows(s, Catalogue(s, s.directory.value, lim).value.handles, TypeCodes(s.directory.value),
                      CaseTotal(s.caseCount.value), lim).Success?
    requires Cleanup(s).Raised?
    ensures Conversion(s, lim) == Failure(Cleanup(s).error)
    ensures s.freeNamesStatus != SPSS_OK ==> Conversion(s, lim) == Failure(SpssError(s.freeNamesStatus, FreeVarNames))
    ensures s.freeNamesStatus == SPSS_OK ==> Conversion(s, lim) == Failure(SpssError(s.closeStatus, CloseRead))
  {
  }

  /**
    A failing advance onto case `k` aborts the conversion with a
    ReadCaseRecord error carrying that status, however many rows were read
    before it.
  */
  lemma AdvanceFailureAborts(s: Script, lim: Limits, k: nat)
    requires s.encodingStatus == SPSS_OK && s.openStatus == SPSS_OK && s.directory.status == SPSS_OK
    requires Catalogue(s, s.directory.value, lim).Success?
    requires s.caseCount.status == SPSS_OK && k < CaseTotal(s.caseCount.value)
    requires CaseRows(s, Catalogue(s, s.directory.value, lim).value.handles, TypeCodes(s.directory.value), k, lim).Success?
    requires AdvanceStatus(s, k) != SPSS_OK
    ensures Conversion(s, lim) == Failure(SpssError(AdvanceStatus(s, k), ReadCaseRecord))
  {
    var handles := Catalogue(s, s.directory.value, lim).value.handles;
    CaseRowsStopAtFirstFailure(s, handles, TypeCodes(s.directory.value), lim, k, CaseTotal(s.caseCount.value));
  }

  /**
    A failing read of cell `j` of case `k`, after every earlier case and
    every earlier cell of case `k` was read, aborts the conversion with that
    read's status and stage.
  */
  lemma ValueReadFailureAborts(s: Script, lim: Limits, k: nat, j: nat)
    requires s.encodingStatus == SPSS_OK && s.openStatus == SPSS_OK && s.directory.status == SPSS_OK
    requires Catalogue(s, s.directory.value, lim).Success?
    requires s.caseCount.status == SPSS_OK && k < CaseTotal(s.caseCount.value)
    requires CaseRows(s, Catalogue(s, s.directory.value, lim).value.handles, TypeCodes(s.directory.value), k, lim).Success?
    requires AdvanceStatus(s, k) == SPSS_OK
    requires j < |s.directory.value|
    requires var handles := Catalogue(s, s.directory.value, lim).value.handles;
             var codes := TypeCodes(s.directory.value);
             CaseRow(s.records[k], handles[..j], codes[..j], lim).Success?
    ensures var h := Catalogue(s, s.directory.value, lim).value.handles[j];
            var code := s.directory.value[j].typeCode;
            var reply := if code == 0 then NumberAt(s.records[k], h).status else TextAt(s.records[k], h).status;
            reply != SPSS_OK ==>
              Conversion(s, lim) == Failure(SpssError(reply, if code == 0 then GetValueNumeric else GetValueChar))
  {
    var entries := s.directory.value;
    var handles := Catalogue(s, entries, lim).value.handles;
    var codes := TypeCodes(entries);
    var cell := CellValue(s.records[k], handles[j], codes[j], lim);
    if cell.Failure? {
      CaseRowStopsAtFirstFailure(s.records[k], handles, codes, lim, j);
      assert CaseStep(s, handles, codes, k, lim) == Failure(cell.error);
      CaseRowsStopAtFirstFailure(s, handles, codes, lim, k, CaseTotal(s.caseCount.value));
    }
  }

  // ---------------------------------------------------------------------
  // A worked file: V1 numeric without value labels, V2 a string with one
  // value label {"A": "Alpha"}, and three cases
  // ---------------------------------------------------------------------

  const V1: VarHandle := VarHandle(1)
  const V2: VarHandle := VarHandle(2)
  const Limits8: Limits := Limits(120, 8)

  function Meta(h: VarHandle, numeric: Reply<seq<(Double, string)>>, strings: Reply<seq<(string, string)>>): VarMeta {
    VarMeta(Reply(SPSS_OK, h), Reply(SPSS_OK, []), Reply(SPSS_NO_LABEL, []), numeric, strings)
  }

  function Row(status: int, x: bv64, t: string): CaseRecord {
    CaseRecord(status, map[V1 := Reply(SPSS_OK, Double(x))], map[V2 := Reply(SPSS_OK, t)])
  }

  /** The worked file, with `second` the status of advancing onto case 2. */
  function TwoByThree(second: int): Script {
    Script(
      SPSS_OK, SPSS_OK,
      Reply(SPSS_OK, [DirEntry("V1", 0), DirEntry("V2", 1)]),
      map["V1" := Meta(V1, Reply(SPSS_NO_LABELS, []), Reply(SPSS_NO_LABELS, [])),
          "V2" := Meta(V2, Reply(SPSS_NO_LABELS, []), Reply(SPSS_OK, [("A", "Alpha")]))],
      Reply(SPSS_OK, 3),
      [Row(SPSS_OK, 1, "A"), Row(second, 2, "B"), Row(SPSS_OK, 3, "C")],
      SPSS_OK, SPSS_OK)
  }

  /** Both variables of the worked file are described, V1 without and V2 with its value label. */
  lemma TwoByThreeCatalogue(second: int)
    ensures Catalogue(TwoByThree(second), TwoByThree(second).directory.value, Limits8)
         == Success(VariableList([V1, V2],
              [Variable("V1", Numeric, None, None, None),
               Variable("V2", String, None, None, Some([ValueLabel(Text("A"), "Alpha")]))]))
  {
    var s := TwoByThree(second);
    var entries := s.directory.value;
    assert MetaOf(s, "V1") == Meta(V1, Reply(SPSS_NO_LABELS, []), Reply(SPSS_NO_LABELS, []));
    assert MetaOf(s, "V2") == Meta(V2, Reply(SPSS_NO_LABELS, []), Reply(SPSS_OK, [("A", "Alpha")]));
    assert StringLabels([("A", "Alpha")]) == [ValueLabel(Text("A"), "Alpha")];
    var v1 := Variable("V1", Numeric, None, None, None);
    var v2 := Variable("V2", String, None, None, Some([ValueLabel(Text("A"), "Alpha")]));
    assert VariableRecord(s, entries[0], Limits8) == Success((V1, v1));
    assert VariableRecord(s, entries[1], Limits8) == Success((V2, v2));
    CatalogueSucceedsIffEveryVariableDoes(s, entries, Limits8);
    CatalogueAt(s, entries, Limits8, 0);
    CatalogueAt(s, entries, Limits8, 1);
    var list := Catalogue(s, entries, Limits8).value;
    assert list.handles == [V1, V2];
    assert list.vars == [v1, v2];
  }

  /** Every case of the worked file reads as a number for V1 and its text for V2. */
  lemma TwoByThreeRow(status: int, x: bv64, t: string)
    requires |t| <= Limits8.maxLongString
    ensures CaseRow(Row(status, x, t), [V1, V2], [0, 1], Limits8) == Success([Number(Double(x)), Text(t)])
  {
    var c := Row(status, x, t);
    var handles, codes := [V1, V2], [0, 1];
    assert NumberAt(c, V1) == Reply(SPSS_OK, Double(x));
    assert TextAt(c, V2) == Reply(SPSS_OK, t);
    assert CellValue(c, handles[0], codes[0], Limits8) == Success(Number(Double(x)));
    assert CellValue(c, handles[1], codes[1], Limits8) == Success(Text(t));
    CaseRowSucceedsIffEveryCellDoes(c, handles, codes, Limits8);
    CaseRowAt(c, handles, codes, Limits8, 0);
    CaseRowAt(c, handles, codes, Limits8, 1);
    var row := CaseRow(c, handles, codes, Limits8).value;
    assert row[0] == Number(Double(x)) && row[1] == Text(t);
    assert row == [Number(Double(x)), Text(t)];
  }

  /** All three cases of the worked file are read, in file order. */
  lemma TwoByThreeCases()
    ensures CaseRows(TwoByThree(SPSS_OK), [V1, V2], [0, 1], 3, Limits8)
         == Success([[Number(Double(1)), Text("A")], [Number(Double(2)), Text("B")], [Number(Double(3)), Text("C")]])
  {
    var s := TwoByThree(SPSS_OK);
    var handles, codes := [V1, V2], [0, 1];
    TwoByThreeRow(SPSS_OK, 1, "A");
    TwoByThreeRow(SPSS_OK, 2, "B");
    TwoByThreeRow(SPSS_OK, 3, "C");
    assert CaseStep(s, handles, codes, 0, Limits8).Success?;
    assert CaseStep(s, handles, codes, 1, Limits8).Success?;
    assert CaseStep(s, handles, codes, 2, Limits8).Success?;
    CaseRowsSucceedIffEveryCaseDoes(s, handles, codes, 3, Limits8);
    CaseRowsAt(s, handles, codes, 3, Limits8, 0);
    CaseRowsAt(s, handles, codes, 3, Limits8, 1);
    CaseRowsAt(s, handles, codes, 3, Limits8, 2);
    var rows := CaseRows(s, handles, codes, 3, Limits8).value;
    assert rows == [rows[0], rows[1], rows[2]];
  }

  /** Converted normally: two variables, three rows, and V2 carries its one value label. */
  lemma TwoByThreeConverts()
    ensures var r := Conversion(TwoByThree(SPSS_OK), Limits8);
            && r.Success?
            && r.value.variables.count == 2
            && |r.value.cases| == 3
            && r.value.variables.data[0].valueLabels == None
            && r.value.variables.data[1].valueLabels == Some([ValueLabel(Text("A"), "Alpha")])
            && r.value.cases[1] == [Number(Double(2)), Text("B")]
  {
    var s := TwoByThree(SPSS_OK);
    var entries := s.directory.value;
    TwoByThreeCatalogue(SPSS_OK);
    assert Handed(s.directory) == entries;
    assert TypeCodes(entries) == [0, 1];
    TwoByThreeCases();
  }

  /** Advancing onto case 2 of 3 fails: no document, one error naming the advance and its status. */
  lemma TwoByThreeFailsOnSecondAdvance(status: int)
    requires status != SPSS_OK
    ensures Conversion(TwoByThree(status), Limits8) == Failure(SpssError(status, ReadCaseRecord))
  {
    var s := TwoByThree(status);
    TwoByThreeCatalogue(status);
    assert TypeCodes(s.directory.value) == [0, 1];
    TwoByThreeFirstCase(status);
    AdvanceFailureAborts(s, Limits8, 1);
  }

  /** Whatever the status of the second advance, the first case of the worked file is read. */
  lemma TwoByThreeFirstCase(second: int)
    ensures CaseRows(TwoByThree(second), [V1, V2], [0, 1], 1, Limits8) == Success([[Number(Double(1)), Text("A")]])
  {
    var s := TwoByThree(second);
    TwoByThreeRow(SPSS_OK, 1, "A");
    assert CaseStep(s, [V1, V2], [0, 1], 0, Limits8) == Success([Number(Double(1)), Text("A")]);
    CaseRowsSucceedIffEveryCaseDoes(s, [V1, V2], [0, 1], 1, Limits8);
    CaseRowsAt(s, [V1, V2], [0, 1], 1, Limits8, 0);
    var rows := CaseRows(s, [V1, V2], [0, 1], 1, Limits8).value;
    assert rows == [rows[0]];
  }

  /**
    Converting the same file twice gives the same document, or the same
    error. This is determinism of the conversion over the reader's answers
    (both runs equal `Conversion` of the same script), not a separate
    argument about the file's contents.
  */
  method ConvertTwice(script: Script, lim: Limits) returns (first: Result<Document, Error>, second: Result<Document, Error>)
    ensures first == second
    ensures first == Conversion(script, lim)
  {
    ghost var leaked, leftOpen;
    first, leaked, leftOpen := ConvertFile(script, lim);
    second, leaked, leftOpen := ConvertFile(script, lim);
  }
}
