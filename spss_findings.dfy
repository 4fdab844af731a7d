/**
  Where the case loop of `convert_file` puts its rows. The output array is
  created with one slot per case, and the loop counts cases from 1; the code
  as written stores case `caseIdx` at index `caseIdx`, the corrected model
  at index `caseIdx - 1` (`Spss.CaseSlot`). A JavaScript array grows when an
  element is stored at or past its end, and an index never stored to is a
  hole.
*/
module SpssFindings {
  import opened Wrappers
  import opened Spss

  /** A fresh array of `length` holes, as `napi_create_array_with_length` makes it. */
  function NewArray<T>(length: nat): (a: seq<Option<T>>)
    ensures |a| == length
    ensures forall k :: 0 <= k < length ==> a[k] == None
  {
    seq(length, _ => None)
  }

  /** `napi_set_element`: stores `v` at `index`, growing the array to `index + 1` with holes if needed. */
  function SetElement<T>(a: seq<Option<T>>, index: nat, v: T): (b: seq<Option<T>>)
    ensures |b| == if index < |a| then |a| else index + 1
    ensures b[index] == Some(v)
    ensures forall k :: 0 <= k < |b| && k != index ==> b[k] == if k < |a| then a[k] else None
  {
    if index < |a| then a[index := Some(v)]
    else a + NewArray(index - |a|) + [Some(v)]
  }

  /** The array after the first `done` cases of the loop as written: case `caseIdx` at index `caseIdx`. */
  function PlacedAsWritten<T>(rows: seq<T>, done: nat): (a: seq<Option<T>>)
    requires done <= |rows|
    ensures |a| == if done == |rows| && done > 0 then |rows| + 1 else |rows|
    ensures done > 0 ==> a[done] == Some(rows[done - 1])
    decreases done
  {
    if done == 0 then NewArray(|rows|)
    else SetElement(PlacedAsWritten(rows, done - 1), done, rows[done - 1])
  }

  /** The array after the first `done` cases of the corrected loop: case `caseIdx` at `CaseSlot(caseIdx, |rows|)`. */
  function PlacedIntended<T>(rows: seq<T>, done: nat): (a: seq<Option<T>>)
    requires done <= |rows|
    ensures |a| == |rows|
    ensures done > 0 ==> a[done - 1] == Some(rows[done - 1])
    decreases done
  {
    if done == 0 then NewArray(|rows|)
    else
      var slot := CaseSlot(done, |rows|);
      SetElement(PlacedIntended(rows, done - 1), slot, rows[done - 1])
  }

  /**
    As written, after the first `done` cases index 0 is still a hole, case
    `k` sits at index `k`, and once the last case is stored the array is one
    longer than the case count.
  */
  lemma {:induction false} AsWrittenShape<T>(rows: seq<T>, done: nat)
    requires 1 <= done <= |rows|
    ensures var a := PlacedAsWritten(rows, done);
            && |a| == (if done < |rows| then |rows| else |rows| + 1)
            && a[0] == None
            && (forall k :: 1 <= k <= done ==> a[k] == Some(rows[k - 1]))
            && (forall k :: done < k < |a| ==> a[k] == None)
    decreases done
  {
    if done > 1 {
      AsWrittenShape(rows, done - 1);
    }
  }

  /**
    The discrepancy: for any file with at least one case, the `cases` array
    as written has a hole at index 0 and one element more than the case
    count, the last case being stored past the length it was created with.
  */
  lemma AsWrittenMisplacesCases<T>(rows: seq<T>)
    requires |rows| >= 1
    ensures |PlacedAsWritten(rows, |rows|)| == |rows| + 1
    ensures PlacedAsWritten(rows, |rows|)[0] == None
    ensures PlacedAsWritten(rows, |rows|)[|rows|] == Some(rows[|rows| - 1])
  {
    AsWrittenShape(rows, |rows|);
  }

  /** The smallest input that shows it: one case `r` ends up as `[hole, r]`. */
  lemma OneCaseAsWritten<T>(r: T)
    ensures PlacedAsWritten([r], 1) == [None, Some(r)]
  {
    AsWrittenShape([r], 1);
  }

  /** Corrected, after the first `done` cases exactly the slots below `done` are filled, in order. */
  lemma {:induction false} IntendedShape<T>(rows: seq<T>, done: nat)
    requires done <= |rows|
    ensures var a := PlacedIntended(rows, done);
            && |a| == |rows|
            && (forall k :: 0 <= k < done ==> a[k] == Some(rows[k]))
            && (forall k :: done <= k < |rows| ==> a[k] == None)
    decreases done
  {
    if done > 0 {
      IntendedShape(rows, done - 1);
    }
  }

  /**
    The intended property: once every case is stored, the array has exactly
    one element per case, case `k` (0-based) at index `k`, and no hole; in
    particular a file with no case gives the empty array.
  */
  lemma IntendedPlacesEveryCase<T>(rows: seq<T>)
    ensures |PlacedIntended(rows, |rows|)| == |rows|
    ensures forall k :: 0 <= k < |rows| ==> PlacedIntended(rows, |rows|)[k] == Some(rows[k])
  {
    IntendedShape(rows, |rows|);
  }
}
