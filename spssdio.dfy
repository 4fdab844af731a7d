/**
  A scripted stand-in for the SPSS Statistics I/O module (spssdio), the foreign
  library the converter drives through handles and status codes. The library's
  own code and its header are not part of this model: every answer it gives is
  read from a canned `Script`, and the buffers it lends to the caller are
  tracked in a ghost ledger so that release discipline can be checked.
*/
module Spssdio {

  // Status codes, as named by the I/O module. The proofs only rely on their
  // being pairwise distinct.
  const SPSS_OK: int := 0
  const SPSS_FILE_END: int := -5
  const SPSS_NO_LABELS: int := -8
  const SPSS_NO_LABEL: int := -9
  const SPSS_VAR_NOTFOUND: int := 12

  /** A C `double`, carried opaquely (never reasoned about numerically). */
  datatype Double = Double(bits: bv64)

  /** The per-variable access handle `spssGetVarHandle` hands out (a `double` in C). */
  datatype VarHandle = VarHandle(token: bv64)

  /** One canned answer: the status the call returns and what it writes to its out-parameters. */
  datatype Reply<T> = Reply(status: int, value: T)

  /** One directory entry of `spssGetVarNames`: a name and a type code (0 numeric, > 0 string width). */
  datatype DirEntry = DirEntry(name: string, typeCode: int)

  /** The per-variable answers, looked up by variable name. */
  datatype VarMeta = VarMeta(
    handle: Reply<VarHandle>,
    attributes: Reply<seq<(string, string)>>,
    longLabel: Reply<string>,
    numericLabels: Reply<seq<(Double, string)>>,
    stringLabels: Reply<seq<(string, string)>>)

  /** One case: the status of advancing onto it and the value each access handle reads there. */
  datatype CaseRecord = CaseRecord(
    status: int,
    numbers: map<VarHandle, Reply<Double>>,
    texts: map<VarHandle, Reply<string>>)

  /** Everything the I/O module answers during one conversion of one file. */
  datatype Script = Script(
    encodingStatus: int,
    openStatus: int,
    directory: Reply<seq<DirEntry>>,
    variables: map<string, VarMeta>,
    caseCount: Reply<int>,
    records: seq<CaseRecord>,
    freeNamesStatus: int,
    closeStatus: int)

  /** What the library answers about a name it does not know. */
  const UnknownVariable: VarMeta := VarMeta(
    Reply(SPSS_VAR_NOTFOUND, VarHandle(0)),
    Reply(SPSS_VAR_NOTFOUND, []),
    Reply(SPSS_VAR_NOTFOUND, []),
    Reply(SPSS_VAR_NOTFOUND, []),
    Reply(SPSS_VAR_NOTFOUND, []))

  /** A case on which every value read fails (no case is current). */
  const NoCase: CaseRecord := CaseRecord(SPSS_FILE_END, map[], map[])

  function MetaOf(s: Script, name: string): VarMeta {
    if name in s.variables then s.variables[name] else UnknownVariable
  }

  /** The list a fetch writes to its out-parameters: the canned list on SPSS_OK, nothing otherwise. */
  function Handed<T>(r: Reply<seq<T>>): seq<T> {
    if r.status == SPSS_OK then r.value else []
  }

  /** Status of advancing from case `k` (0-based) to the next one: past the last case there is none. */
  function AdvanceStatus(s: Script, k: nat): int {
    if k < |s.records| then s.records[k].status else SPSS_FILE_END
  }

  function NumberAt(c: CaseRecord, h: VarHandle): Reply<Double> {
    if h in c.numbers then c.numbers[h] else Reply(SPSS_VAR_NOTFOUND, Double(0))
  }

  function TextAt(c: CaseRecord, h: VarHandle): Reply<string> {
    if h in c.texts then c.texts[h] else Reply(SPSS_VAR_NOTFOUND, [])
  }

  /** The C string a NUL-terminated buffer of `capacity` bytes can hold. */
  function Fit(s: string, capacity: nat): (r: string)
    requires capacity >= 1
    ensures |r| < capacity && r <= s
    ensures |s| < capacity ==> r == s
  {
    if |s| < capacity then s else s[..capacity - 1]
  }

  /** A buffer the library lent to the caller, which must hand it back with the matching free call. */
  datatype Loan =
    | DirectoryArrays
    | AttributeArrays(variable: string)
    | NumericLabelArrays(variable: string)
    | StringLabelArrays(variable: string)

  /** The library's state for one file: the open handle, the case cursor and the outstanding loans. */
  class Reader {
    const script: Script
    var isOpen: bool
    var position: nat
    ghost var loans: multiset<Loan>

    constructor (script: Script)
      ensures this.script == script
      ensures !isOpen && position == 0 && loans == multiset{}
    {
      this.script := script;
      isOpen := false;
      position := 0;
      loans := multiset{};
    }

    /** The case the cursor stands on, after `position` successful advances. */
    function Current(): CaseRecord
      reads this`position
    {
      if 1 <= position <= |script.records| then script.records[position - 1] else NoCase
    }

    method SetInterfaceEncoding() returns (status: int)
      ensures status == script.encodingStatus
    {
      status := script.encodingStatus;
    }

    method OpenRead() returns (status: int)
      modifies this`isOpen
      ensures status == script.openStatus
      ensures isOpen == (old(isOpen) || status == SPSS_OK)
    {
      status := script.openStatus;
      if status == SPSS_OK {
        isOpen := true;
      }
    }

    method GetVarNames() returns (status: int, entries: seq<DirEntry>)
      modifies this`loans
      ensures status == script.directory.status && entries == Handed(script.directory)
      ensures loans == if status == SPSS_OK then old(loans) + multiset{DirectoryArrays} else old(loans)
    {
      status, entries := script.directory.status, Handed(script.directory);
      if status == SPSS_OK {
        loans := loans + multiset{DirectoryArrays};
      }
    }

    method FreeVarNames() returns (status: int)
      requires DirectoryArrays in loans
      modifies this`loans
      ensures status == script.freeNamesStatus
      ensures loans == if status == SPSS_OK then old(loans) - multiset{DirectoryArrays} else old(loans)
    {
      status := script.freeNamesStatus;
      if status == SPSS_OK {
        loans := loans - multiset{DirectoryArrays};
      }
    }

    method GetVarHandle(name: string) returns (status: int, h: VarHandle)
      ensures status == MetaOf(script, name).handle.status && h == MetaOf(script, name).handle.value
    {
      var reply := MetaOf(script, name).handle;
      status, h := reply.status, reply.value;
    }

    method GetVarAttributes(name: string) returns (status: int, pairs: seq<(string, string)>)
      modifies this`loans
      ensures status == MetaOf(script, name).attributes.status
      ensures pairs == Handed(MetaOf(script, name).attributes)
      ensures loans == if status == SPSS_OK then old(loans) + multiset{AttributeArrays(name)} else old(loans)
    {
      var reply := MetaOf(script, name).attributes;
      status, pairs := reply.status, Handed(reply);
      if status == SPSS_OK {
        loans := loans + multiset{AttributeArrays(name)};
      }
    }

    method FreeAttributes(name: string)
      requires AttributeArrays(name) in loans
      modifies this`loans
      ensures loans == old(loans) - multiset{AttributeArrays(name)}
    {
      loans := loans - multiset{AttributeArrays(name)};
    }

    /** The long label, truncated to what a buffer of `capacity` bytes holds, and its length. */
    method GetVarLabelLong(name: string, capacity: nat) returns (status: int, text: string, len: int)
      requires capacity >= 1
      ensures status == MetaOf(script, name).longLabel.status
      ensures text == (if status == SPSS_OK then Fit(MetaOf(script, name).longLabel.value, capacity) else [])
      ensures len == |text|
    {
      var reply := MetaOf(script, name).longLabel;
      status := reply.status;
      text := if status == SPSS_OK then Fit(reply.value, capacity) else [];
      len := |text|;
    }

    /** Numeric-keyed value labels. On SPSS_NO_LABELS the caller still owns (empty) arrays to free. */
    method GetVarNValueLabels(name: string) returns (status: int, pairs: seq<(Double, string)>)
      modifies this`loans
      ensures status == MetaOf(script, name).numericLabels.status
      ensures pairs == Handed(MetaOf(script, name).numericLabels)
      ensures loans == if status == SPSS_OK || status == SPSS_NO_LABELS
                       then old(loans) + multiset{NumericLabelArrays(name)} else old(loans)
    {
      var reply := MetaOf(script, name).numericLabels;
      status, pairs := reply.status, Handed(reply);
      if status == SPSS_OK || status == SPSS_NO_LABELS {
        loans := loans + multiset{NumericLabelArrays(name)};
      }
    }

    method FreeVarNValueLabels(name: string)
      requires NumericLabelArrays(name) in loans
      modifies this`loans
      ensures loans == old(loans) - multiset{NumericLabelArrays(name)}
    {
      loans := loans - multiset{NumericLabelArrays(name)};
    }

    /** String-keyed value labels. On SPSS_NO_LABELS the caller still owns (empty) arrays to free. */
    method GetVarCValueLabels(name: string) returns (status: int, pairs: seq<(string, string)>)
      modifies this`loans
      ensures status == MetaOf(script, name).stringLabels.status
      ensures pairs == Handed(MetaOf(script, name).stringLabels)
      ensures loans == if status == SPSS_OK || status == SPSS_NO_LABELS
                       then old(loans) + multiset{StringLabelArrays(name)} else old(loans)
    {
      var reply := MetaOf(script, name).stringLabels;
      status, pairs := reply.status, Handed(reply);
      if status == SPSS_OK || status == SPSS_NO_LABELS {
        loans := loans + multiset{StringLabelArrays(name)};
      }
    }

    method FreeVarCValueLabels(name: string)
      requires StringLabelArrays(name) in loans
      modifies this`loans
      ensures loans == old(loans) - multiset{StringLabelArrays(name)}
    {
      loans := loans - multiset{StringLabelArrays(name)};
    }

    method GetNumberofCases() returns (status: int, count: int)
      ensures status == script.caseCount.status && count == script.caseCount.value
    {
      status, count := script.caseCount.status, script.caseCount.value;
    }

    /** Advances the cursor onto the next case; past the last case it answers SPSS_FILE_END. */
    method ReadCaseRecord() returns (status: int)
      modifies this`position
      ensures status == AdvanceStatus(script, old(position))
      ensures position == if status == SPSS_OK then old(position) + 1 else old(position)
    {
      status := AdvanceStatus(script, position);
      if status == SPSS_OK {
        position := position + 1;
      }
    }

    method GetValueNumeric(h: VarHandle) returns (status: int, value: Double)
      ensures status == NumberAt(Current(), h).status && value == NumberAt(Current(), h).value
    {
      var reply := NumberAt(Current(), h);
      status, value := reply.status, reply.value;
    }

    /** A string value, truncated to what a buffer of `capacity` bytes holds. */
    method GetValueChar(h: VarHandle, capacity: nat) returns (status: int, value: string)
      requires capacity >= 1
      ensures status == TextAt(Current(), h).status
      ensures value == if status == SPSS_OK then Fit(TextAt(Current(), h).value, capacity) else []
    {
      var reply := TextAt(Current(), h);
      status := reply.status;
      value := if status == SPSS_OK then Fit(reply.value, capacity) else [];
    }

    method CloseRead() returns (status: int)
      modifies this`isOpen
      ensures status == script.closeStatus
      ensures isOpen == (old(isOpen) && status != SPSS_OK)
    {
      status := script.closeStatus;
      if status == SPSS_OK {
        isOpen := false;
      }
    }
  }
}
