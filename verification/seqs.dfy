/** Row selection with a boolean mask, as `df[mask]` does it. */
module Seqs {

  /**
   * The rows of `s` that satisfy `keep`, in their original order and
   * with their multiplicity (each kept row once per occurrence).
   */
  function Filter<T(!new)>(s: seq<T>, keep: T -> bool): (r: seq<T>)
    ensures |r| <= |s|
    ensures forall x :: multiset(r)[x] == if keep(x) then multiset(s)[x] else 0
    ensures forall x :: x in r <==> x in s && keep(x)
  {
    if |s| == 0 then []
    else
      assert s == [s[0]] + s[1..];
      if keep(s[0]) then [s[0]] + Filter(s[1..], keep) else Filter(s[1..], keep)
  }

  /** A mask that selects every row leaves the table as it was. */
  lemma {:induction false} FilterKeepingAll<T(!new)>(s: seq<T>, keep: T -> bool)
    requires forall x :: x in s ==> keep(x)
    ensures Filter(s, keep) == s
  {
    if |s| > 0 {
      FilterKeepingAll(s[1..], keep);
    }
  }
}
