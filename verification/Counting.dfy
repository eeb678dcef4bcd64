/** How many different numbers fit into an interval. */
module Counting {
  /** The `m` numbers from `lo` on. */
  function Interval(lo: int, m: nat): (s: set<int>)
    ensures |s| == m
    ensures forall x :: x in s <==> lo <= x < lo + m
  {
    if m == 0 then {} else Interval(lo, m - 1) + {lo + m - 1}
  }

  /** The elements of a sequence. */
  function Elements(f: seq<int>): (s: set<int>)
    ensures forall x :: x in s <==> x in f
    ensures (forall i, j | 0 <= i < j < |f| :: f[i] != f[j]) ==> |s| == |f|
  {
    if f == [] then {}
    else
      assert f == f[..|f| - 1] + [f[|f| - 1]];
      Elements(f[..|f| - 1]) + {f[|f| - 1]}
  }

  lemma SameSize(part: set<int>, whole: set<int>)
    requires part <= whole && |part| == |whole|
    ensures part == whole
  {
    assert whole == part + (whole - part);
    assert |whole - part| == 0;
  }

  lemma Within(part: set<int>, whole: set<int>)
    requires part <= whole
    ensures |part| <= |whole|
  {
    assert whole == part + (whole - part);
  }
}
