/**
  The bisect-based search helpers of plumbca/helpers.py: `find_eq`, `find_ge`
  and `find_lt`, each one call of `bisect_left` followed by index arithmetic
  and either a returned item (or its index, with `ret_index`) or a raised error.
  Elements are integers, compared with `<`.
 */
module Helpers {
  import opened Results

  /** The exceptions the helpers raise. `ValueError` is raised on purpose;
      `IndexError` escapes instead when the error message itself indexes an
      empty list (`a[-1]` in `find_ge`, `a[0]` in `find_lt`). */
  datatype Error = ValueError | IndexError

  predicate Sorted(a: seq<int>) {
    forall i, j :: 0 <= i <= j < |a| ==> a[i] <= a[j]
  }

  /** CPython's `bisect_left(a, x, lo, hi)`: halve `[lo, hi)` by probing the
      middle element until the bounds meet. Whatever the input, everything
      the search stepped over on the left is `< x` and the element it stops
      at (if any) is `>= x`. */
  function BisectLeftBetween(a: seq<int>, x: int, lo: nat, hi: nat): (i: nat)
    requires lo <= hi <= |a|
    ensures lo <= i <= hi
    ensures lo < i ==> a[i - 1] < x
    ensures i < hi ==> x <= a[i]
    decreases hi - lo
  {
    if lo < hi then
      var mid := (lo + hi) / 2;
      if a[mid] < x then BisectLeftBetween(a, x, mid + 1, hi)
      else BisectLeftBetween(a, x, lo, mid)
    else
      lo
  }

  /** `bisect_left(a, x)`: on a sorted list, the insertion point that keeps
      every element `< x` on its left and every element `>= x` on its right. */
  function BisectLeft(a: seq<int>, x: int): (i: nat)
    ensures i <= |a|
    ensures 0 < i ==> a[i - 1] < x
    ensures i < |a| ==> x <= a[i]
    ensures Sorted(a) ==> (forall j :: 0 <= j < i ==> a[j] < x) && (forall j :: i <= j < |a| ==> x <= a[j])
  {
    BisectLeftBetween(a, x, 0, |a|)
  }

  /** `find_eq(a, x, ret_index)`: the leftmost item equal to `x`, or its index. */
  function FindEq(a: seq<int>, x: int, retIndex: bool): (r: Result<int, Error>)
    ensures r.Err? ==> r.error == ValueError
    ensures r.Ok? && retIndex ==> 0 <= r.value < |a| && a[r.value] == x
    ensures r.Ok? && !retIndex ==> r.value == x && x in a
  {
    var i := BisectLeft(a, x);
    if i != |a| && a[i] == x then Ok(if retIndex then i else a[i])
    else Err(ValueError)
  }

  /** `find_ge(a, x, ret_index)`: the leftmost item `>= x`, or its index. */
  function FindGe(a: seq<int>, x: int, retIndex: bool): (r: Result<int, Error>)
    ensures r.Err? ==> (r.error == IndexError <==> |a| == 0)
    ensures r.Ok? && retIndex ==> 0 <= r.value < |a| && x <= a[r.value]
    ensures r.Ok? && !retIndex ==> x <= r.value && r.value in a
  {
    var i := BisectLeft(a, x);
    if i != |a| then Ok(if retIndex then i else a[i])
    else if |a| == 0 then Err(IndexError)
    else Err(ValueError)
  }

  /** `find_lt(a, x, ret_index)`: the rightmost item `< x`, or its index. */
  function FindLt(a: seq<int>, x: int, retIndex: bool): (r: Result<int, Error>)
    ensures r.Err? ==> (r.error == IndexError <==> |a| == 0)
    ensures r.Ok? && retIndex ==> 0 <= r.value < |a| && a[r.value] < x
    ensures r.Ok? && !retIndex ==> r.value < x && r.value in a
  {
    var i := BisectLeft(a, x);
    if i != 0 then Ok(if retIndex then i - 1 else a[i - 1])
    else if |a| == 0 then Err(IndexError)
    else Err(ValueError)
  }

  /** On a sorted list `find_eq` succeeds exactly when `x` occurs, and the
      index it returns is the first occurrence. */
  lemma FindEqLeftmost(a: seq<int>, x: int)
    requires Sorted(a)
    ensures FindEq(a, x, true).Ok? <==> x in a
    ensures FindEq(a, x, true).Ok? ==> forall j :: 0 <= j < FindEq(a, x, true).value ==> a[j] < x
  {
    var i := BisectLeft(a, x);
    if x in a {
      var k :| 0 <= k < |a| && a[k] == x;
      assert i <= k;
    }
  }

  /** On a sorted list `find_ge` fails exactly when every element is `< x`;
      otherwise the index it returns is the first one holding an element `>= x`. */
  lemma FindGeLeftmost(a: seq<int>, x: int)
    requires Sorted(a)
    ensures FindGe(a, x, true).Err? <==> forall j :: 0 <= j < |a| ==> a[j] < x
    ensures FindGe(a, x, true).Ok? ==> forall j :: 0 <= j < FindGe(a, x, true).value ==> a[j] < x
  {
  }

  /** On a sorted list `find_lt` fails exactly when no element is `< x`
      (in particular when `x <= a[0]`); otherwise the index it returns is
      the last one holding an element `< x`. */
  lemma FindLtRightmost(a: seq<int>, x: int)
    requires Sorted(a)
    ensures FindLt(a, x, true).Err? <==> forall j :: 0 <= j < |a| ==> x <= a[j]
    ensures 0 < |a| && x <= a[0] ==> FindLt(a, x, true) == Err(ValueError)
    ensures FindLt(a, x, true).Ok? ==> forall j :: FindLt(a, x, true).value < j < |a| ==> x <= a[j]
  {
  }

  /** When both succeed, `find_lt`'s index sits immediately before `find_ge`'s. */
  lemma FindLtBeforeFindGe(a: seq<int>, x: int)
    requires FindLt(a, x, true).Ok? && FindGe(a, x, true).Ok?
    ensures FindLt(a, x, true).value + 1 == FindGe(a, x, true).value
  {
  }

  /** `ret_index=False` returns the item at the index `ret_index=True` returns,
      and both fail together with the same error. */
  lemma ItemIsAtReturnedIndex(a: seq<int>, x: int)
    ensures FindEq(a, x, true).Ok? ==> FindEq(a, x, false) == Ok(a[FindEq(a, x, true).value])
    ensures FindGe(a, x, true).Ok? ==> FindGe(a, x, false) == Ok(a[FindGe(a, x, true).value])
    ensures FindLt(a, x, true).Ok? ==> FindLt(a, x, false) == Ok(a[FindLt(a, x, true).value])
    ensures FindEq(a, x, true).Err? ==> FindEq(a, x, false) == FindEq(a, x, true)
    ensures FindGe(a, x, true).Err? ==> FindGe(a, x, false) == FindGe(a, x, true)
    ensures FindLt(a, x, true).Err? ==> FindLt(a, x, false) == FindLt(a, x, true)
  {
  }
}
