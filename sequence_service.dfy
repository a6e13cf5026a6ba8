/**
 * `SequenceService`: hands out the next counter value by loading row 1 of
 * table `url_sequence`, post-incrementing it and saving it back.
 */
module SequenceServices {
  import opened Common
  import opened UrlSequenceModel

  /** Each value is one more than the one before it. */
  predicate Consecutive(s: seq<int>) {
    forall i :: 0 <= i < |s| - 1 ==> s[i + 1] == s[i] + 1
  }

  /** In a consecutive run, values `j - i` apart in position are `j - i` apart in value. */
  lemma {:induction false} ConsecutiveOffset(s: seq<int>, i: nat, j: nat)
    requires Consecutive(s) && i <= j < |s|
    ensures s[j] == s[i] + (j - i)
    decreases j - i
  {
    if i < j {
      ConsecutiveOffset(s, i, j - 1);
    }
  }

  /** A consecutive run is strictly increasing, so no value occurs twice. */
  lemma ConsecutiveIncreasing(s: seq<int>)
    requires Consecutive(s)
    ensures forall i, j :: 0 <= i < j < |s| ==> s[i] < s[j]
    ensures forall i, j :: 0 <= i < |s| && 0 <= j < |s| && i != j ==> s[i] != s[j]
  {
    forall i, j | 0 <= i < j < |s|
      ensures s[i] < s[j]
    {
      ConsecutiveOffset(s, i, j);
    }
  }

  class SequenceService {
    /** Table `url_sequence`: `curr_no` by row id. */
    var rows: map<int, int>
    /** The values `GetNext` has returned so far, oldest first. */
    ghost var issued: seq<int>

    ghost predicate Valid()
      reads this
    {
      Consecutive(issued)
      && (|issued| > 0 ==> CounterRowId in rows && rows[CounterRowId] == issued[|issued| - 1] + 1)
    }

    constructor (rows: map<int, int>)
      ensures Valid() && this.rows == rows && issued == []
    {
      this.rows := rows;
      issued := [];
    }

    /**
     * `getNext`: the stored counter of row 1 as it was before the call; the
     * row is saved one higher and no other row is touched. Without row 1 it
     * fails and nothing is saved.
     */
    method GetNext() returns (r: Result<int>)
      requires Valid()
      modifies this
      ensures Valid()
      ensures CounterRowId !in old(rows) ==>
                r == Failure(SequenceEntryNotFound) && rows == old(rows) && issued == old(issued)
      ensures CounterRowId in old(rows) ==>
                r == Success(old(rows)[CounterRowId])
                && rows == old(rows)[CounterRowId := old(rows)[CounterRowId] + 1]
                && issued == old(issued) + [r.value]
    {
      if CounterRowId !in rows {
        return Failure(SequenceEntryNotFound);
      }
      var row := new UrlSequence(CounterRowId, rows[CounterRowId]);
      var curr := row.GetAndIncrement();
      rows := rows[row.id := row.currNo];
      issued := issued + [curr];
      r := Success(curr);
    }
  }
}
