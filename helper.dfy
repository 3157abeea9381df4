/**
  The older copy of the search helpers, plumbca/helper.py: `find_ge` and
  `find_lt` without the `ret_index` option, on the same `bisect_left`.
 */
module Helper {
  import opened Results
  import opened Helpers

  /** `find_ge(a, x)`: the leftmost item `>= x`. */
  function FindGe(a: seq<int>, x: int): (r: Result<int, Error>)
    ensures r.Ok? ==> x <= r.value && r.value in a
    ensures r.Err? ==> (r.error == IndexError <==> |a| == 0)
  {
    var i := BisectLeft(a, x);
    if i != |a| then Ok(a[i])
    else if |a| == 0 then Err(IndexError)
    else Err(ValueError)
  }

  /** `find_lt(a, x)`: the rightmost item `< x`. */
  function FindLt(a: seq<int>, x: int): (r: Result<int, Error>)
    ensures r.Ok? ==> r.value < x && r.value in a
    ensures r.Err? ==> (r.error == IndexError <==> |a| == 0)
  {
    var i := BisectLeft(a, x);
    if i != 0 then Ok(a[i - 1])
    else if |a| == 0 then Err(IndexError)
    else Err(ValueError)
  }

  /** On a sorted list `find_ge` returns the least element `>= x`, and fails
      exactly when every element is `< x`. */
  lemma FindGeIsLeastAbove(a: seq<int>, x: int)
    requires Sorted(a)
    ensures FindGe(a, x).Err? <==> forall j :: 0 <= j < |a| ==> a[j] < x
    ensures FindGe(a, x).Ok? ==> forall j :: 0 <= j < |a| && x <= a[j] ==> FindGe(a, x).value <= a[j]
  {
    var i := BisectLeft(a, x);
    if i < |a| {
      forall j | 0 <= j < |a| && x <= a[j] ensures a[i] <= a[j] {
        assert i <= j;
      }
    }
  }

  /** On a sorted list `find_lt` returns the greatest element `< x`, and
      fails exactly when no element is `< x`. */
  lemma FindLtIsGreatestBelow(a: seq<int>, x: int)
    requires Sorted(a)
    ensures FindLt(a, x).Err? <==> forall j :: 0 <= j < |a| ==> x <= a[j]
    ensures FindLt(a, x).Ok? ==> forall j :: 0 <= j < |a| && a[j] < x ==> a[j] <= FindLt(a, x).value
  {
    var i := BisectLeft(a, x);
    if 0 < i {
      forall j | 0 <= j < |a| && a[j] < x ensures a[j] <= a[i - 1] {
        assert j < i;
      }
    }
  }

  /** The old helpers return what the newer ones return with `ret_index=False`. */
  lemma AgreesWithHelpers(a: seq<int>, x: int)
    ensures FindGe(a, x) == Helpers.FindGe(a, x, false)
    ensures FindLt(a, x) == Helpers.FindLt(a, x, false)
  {
  }
}
