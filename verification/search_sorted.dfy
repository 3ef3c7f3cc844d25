/**
 * `np.searchsorted(column, value, side='left')` over a text column: the
 * leftmost position at which `value` could be inserted keeping the column
 * ascending.
 */
module SearchSorted {
  import opened Lexicographic

  /**
   * Reference definition by a left-to-right scan: the position of the
   * first entry that is not before `v`, or the length when there is none.
   */
  function InsertionPoint(ts: seq<string>, v: string): (i: nat)
    ensures i <= |ts|
    ensures forall k :: 0 <= k < i ==> Less(ts[k], v)
    ensures i < |ts| ==> !Less(ts[i], v)
  {
    if |ts| == 0 || !Less(ts[0], v) then 0
    else 1 + InsertionPoint(ts[1..], v)
  }

  /** On an ascending column every entry from the insertion point on is at least `v`. */
  lemma InsertionPointSplits(ts: seq<string>, v: string)
    requires Ascending(ts)
    ensures forall k :: InsertionPoint(ts, v) <= k < |ts| ==> !Less(ts[k], v)
  {
    var i := InsertionPoint(ts, v);
    forall k | i <= k < |ts| ensures !Less(ts[k], v) {
      if k > i {
        AtMostTransitive(v, ts[i], ts[k]);
      }
    }
  }

  /**
   * Binary search with numpy's bisection: `lo` only moves past entries
   * before `v`, `hi` only down to entries at or after `v`.
   */
  method SearchSortedLeft(ts: seq<string>, v: string) returns (i: nat)
    requires Ascending(ts)
    ensures i <= |ts|
    ensures forall k :: 0 <= k < i ==> Less(ts[k], v)
    ensures forall k :: i <= k < |ts| ==> !Less(ts[k], v)
    ensures i == InsertionPoint(ts, v)
  {
    InsertionPointSplits(ts, v);
    var lo, hi := 0, |ts|;
    while lo < hi
      invariant 0 <= lo <= InsertionPoint(ts, v) <= hi <= |ts|
      invariant forall k :: 0 <= k < lo ==> Less(ts[k], v)
      invariant forall k :: hi <= k < |ts| ==> !Less(ts[k], v)
    {
      var mid := lo + (hi - lo) / 2;
      if Less(ts[mid], v) {
        forall k | lo <= k < mid ensures Less(ts[k], v) {
          AtMostThenLess(ts[k], ts[mid], v);
        }
        lo := mid + 1;
      } else {
        forall k | mid < k < hi ensures !Less(ts[k], v) {
          AtMostTransitive(v, ts[mid], ts[k]);
        }
        hi := mid;
      }
    }
    i := lo;
  }
}
