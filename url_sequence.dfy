/**
 * `UrlSequence`: the single counter row that numbers generated short codes.
 */
module UrlSequenceModel {

  /** Primary key of the one counter row the service uses. */
  const CounterRowId: int := 1

  class UrlSequence {
    const id: int
    var currNo: int

    /** The data class's defaults: row 1, counter at 0. */
    constructor Default()
      ensures id == CounterRowId && currNo == 0
    {
      id := CounterRowId;
      currNo := 0;
    }

    /** A row as loaded from the store. */
    constructor (id: int, currNo: int)
      ensures this.id == id && this.currNo == currNo
    {
      this.id := id;
      this.currNo := currNo;
    }

    /** `getAndIncrement`: post-increment; returns the counter as it was, `id` stays. */
    method GetAndIncrement() returns (curr: int)
      modifies this
      ensures curr == old(currNo)
      ensures currNo == old(currNo) + 1
    {
      curr := currNo;
      currNo := currNo + 1;
    }
  }

  /** `k` successive calls on a fresh record return 0, 1, ..., k - 1. */
  method SuccessiveValues(k: nat) returns (values: seq<int>)
    ensures |values| == k
    ensures forall i :: 0 <= i < k ==> values[i] == i
  {
    var row := new UrlSequence.Default();
    values := [];
    while |values| < k
      invariant |values| <= k
      invariant row.currNo == |values|
      invariant forall i :: 0 <= i < |values| ==> values[i] == i
      decreases k - |values|
    {
      var v := row.GetAndIncrement();
      values := values + [v];
    }
  }
}
