/**
 * The table lookup of efb.js (`trilinearInterpolation`): sort the caller's
 * array in place, scan it once for six bounds, pick the first row carrying
 * the lower triple and the first carrying the upper triple, and blend their
 * values on elevation.
 */
module Interpolation {
  import opened Wrappers
  import opened PerformanceTable

  /** The query point: `targetOAT`, `targetElevation`, `targetGW`. */
  datatype Query = Query(oat: int, elevation: int, gw: int)

  /** The three axes the bound loop scans. */
  datatype Axis = Elevation | GrossWeight | Temperature

  function Coord(p: Point, a: Axis): int {
    match a
    case Elevation => p.elevation
    case GrossWeight => p.gw
    case Temperature => p.oat
  }

  function Target(q: Query, a: Axis): int {
    match a
    case Elevation => q.elevation
    case GrossWeight => q.gw
    case Temperature => q.oat
  }

  // ---------------------------------------------------------------------------
  // The bounds: the key value of the LAST row in array order that satisfies the
  // comparison (each `lower*` / `upper*` variable is overwritten by every
  // satisfying row of the scan).
  // ---------------------------------------------------------------------------

  /** The coordinate of the last row whose coordinate is at most `t`. */
  function LastAtMost(s: seq<Point>, a: Axis, t: int): (r: Option<int>)
    ensures r.Some? <==> exists i :: 0 <= i < |s| && Coord(s[i], a) <= t
    ensures r.Some? ==> r.value <= t
  {
    if s == [] then None
    else if Coord(s[|s| - 1], a) <= t then Some(Coord(s[|s| - 1], a))
    else LastAtMost(s[..|s| - 1], a, t)
  }

  /** The coordinate of the last row whose coordinate is at least `t`. */
  function LastAtLeast(s: seq<Point>, a: Axis, t: int): (r: Option<int>)
    ensures r.Some? <==> exists i :: 0 <= i < |s| && Coord(s[i], a) >= t
    ensures r.Some? ==> r.value >= t
  {
    if s == [] then None
    else if Coord(s[|s| - 1], a) >= t then Some(Coord(s[|s| - 1], a))
    else LastAtLeast(s[..|s| - 1], a, t)
  }

  /** `lowerElevation`, `lowerGW`, `lowerOAT` after the scan of `s`. */
  function LowerBounds(s: seq<Point>, q: Query): Bounds {
    Bounds(LastAtMost(s, Elevation, q.elevation), LastAtMost(s, GrossWeight, q.gw),
           LastAtMost(s, Temperature, q.oat))
  }

  /** `upperElevation`, `upperGW`, `upperOAT` after the scan of `s`. */
  function UpperBounds(s: seq<Point>, q: Query): Bounds {
    Bounds(LastAtLeast(s, Elevation, q.elevation), LastAtLeast(s, GrossWeight, q.gw),
           LastAtLeast(s, Temperature, q.oat))
  }

  /** A lower bound is the coordinate of some row, and no later row is at most the target. */
  lemma {:induction false} LastAtMostIsLast(s: seq<Point>, a: Axis, t: int)
    requires LastAtMost(s, a, t).Some?
    ensures exists i :: 0 <= i < |s| && Coord(s[i], a) == LastAtMost(s, a, t).value &&
              forall j :: i < j < |s| ==> Coord(s[j], a) > t
  {
    var n := |s| - 1;
    if Coord(s[n], a) <= t {
      assert Coord(s[n], a) == LastAtMost(s, a, t).value;
    } else {
      LastAtMostIsLast(s[..n], a, t);
      var i :| 0 <= i < n && Coord(s[..n][i], a) == LastAtMost(s[..n], a, t).value &&
               forall j :: i < j < n ==> Coord(s[..n][j], a) > t;
      assert forall j :: i < j < |s| ==> Coord(s[j], a) > t by {
        forall j | i < j < |s| ensures Coord(s[j], a) > t {
          if j < n { assert s[j] == s[..n][j]; }
        }
      }
    }
  }

  /** An upper bound is the coordinate of some row, and no later row is at least the target. */
  lemma {:induction false} LastAtLeastIsLast(s: seq<Point>, a: Axis, t: int)
    requires LastAtLeast(s, a, t).Some?
    ensures exists i :: 0 <= i < |s| && Coord(s[i], a) == LastAtLeast(s, a, t).value &&
              forall j :: i < j < |s| ==> Coord(s[j], a) < t
  {
    var n := |s| - 1;
    if Coord(s[n], a) >= t {
      assert Coord(s[n], a) == LastAtLeast(s, a, t).value;
    } else {
      LastAtLeastIsLast(s[..n], a, t);
      var i :| 0 <= i < n && Coord(s[..n][i], a) == LastAtLeast(s[..n], a, t).value &&
               forall j :: i < j < n ==> Coord(s[..n][j], a) < t;
      assert forall j :: i < j < |s| ==> Coord(s[j], a) < t by {
        forall j | i < j < |s| ensures Coord(s[j], a) < t {
          if j < n { assert s[j] == s[..n][j]; }
        }
      }
    }
  }

  /**
   * On a table sorted by elevation first, `lowerElevation` is the greatest
   * elevation at or below the target.
   */
  lemma {:induction false} LowerElevationIsGreatestAtMost(s: seq<Point>, t: int)
    requires Sorted(s)
    ensures LastAtMost(s, Elevation, t).Some? ==>
              forall i :: 0 <= i < |s| && s[i].elevation <= t ==> s[i].elevation <= LastAtMost(s, Elevation, t).value
    ensures LastAtMost(s, Elevation, t).None? ==> forall i :: 0 <= i < |s| ==> s[i].elevation > t
  {
    if LastAtMost(s, Elevation, t).Some? {
      LastAtMostIsLast(s, Elevation, t);
    } else {
      assert forall i :: 0 <= i < |s| ==> Coord(s[i], Elevation) > t;
    }
  }

  /**
   * On a table sorted by elevation first, `upperElevation` is the greatest
   * elevation of the whole table when that is at least the target (not the
   * least elevation at or above it), and `null` otherwise.
   */
  lemma UpperElevationIsTableMaximum(s: seq<Point>, t: int)
    requires Sorted(s)
    ensures LastAtLeast(s, Elevation, t).Some? ==>
              forall i :: 0 <= i < |s| ==> s[i].elevation <= LastAtLeast(s, Elevation, t).value
    ensures LastAtLeast(s, Elevation, t).None? ==> forall i :: 0 <= i < |s| ==> s[i].elevation < t
  {
  }

  // ---------------------------------------------------------------------------
  // Selecting the two rows, taking their values, blending.
  // ---------------------------------------------------------------------------

  /** `data.filter(item => item matches b)[0]`: `None` when nothing matches. */
  function FirstMatch(s: seq<Point>, b: Bounds): (r: Option<Point>)
    ensures r.None? <==> forall i :: 0 <= i < |s| ==> !Matches(s[i], b)
    ensures r.Some? ==> r.value in s && Matches(r.value, b)
    ensures r.Some? ==> exists i :: 0 <= i < |s| && s[i] == r.value &&
                           forall j :: 0 <= j < i ==> !Matches(s[j], b)
  {
    var selected := Filter(s, b);
    if selected == [] then None
    else
      FilterHeadIsFirst(s, b);
      Some(selected[0])
  }

  /** JavaScript truthiness of a number that may be `undefined`: defined and non-zero. */
  predicate Truthy(x: Option<int>) {
    x.Some? && x.value != 0
  }

  /** No bound of the triple is still `null`. */
  predicate Complete(b: Bounds) {
    b.elevation.Some? && b.gw.Some? && b.oat.Some?
  }

  /** `row?.V1 || row?.Distance` */
  function ValueOf(row: Option<Point>): (v: Option<int>)
    ensures row.None? ==> v.None?
    ensures row.Some? && Truthy(row.value.v1) ==> v == row.value.v1
    ensures row.Some? && !Truthy(row.value.v1) ==> v == row.value.distance
  {
    match row
    case None => None
    case Some(p) => if Truthy(p.v1) then p.v1 else p.distance
  }

  /**
   * `lowerValue + (upperValue - lowerValue) * (targetElevation - lowerElevation)`:
   * the factor is the raw elevation difference, not divided by the gap between
   * the two bounds.  It is the lower value exactly when the factor is zero or
   * the two values agree.
   */
  function Blend(lowerValue: int, upperValue: int, targetElevation: int, lowerElevation: int): (r: int)
    ensures targetElevation == lowerElevation ==> r == lowerValue
    ensures upperValue == lowerValue ==> r == lowerValue
    ensures r == lowerValue <==> upperValue == lowerValue || targetElevation == lowerElevation
  {
    lowerValue + (upperValue - lowerValue) * (targetElevation - lowerElevation)
  }

  /**
   * Lines 115-129 on the (already sorted) array `s`: when both rows exist and
   * both values are defined, `lowerValue + (upperValue - lowerValue) *
   * (targetElevation - lowerElevation)`; otherwise `null`.
   */
  function Estimate(s: seq<Point>, q: Query): (r: Option<int>)
    ensures r.Some? <==> ValueOf(FirstMatch(s, LowerBounds(s, q))).Some? &&
                          ValueOf(FirstMatch(s, UpperBounds(s, q))).Some?
    ensures r.Some? ==> Complete(LowerBounds(s, q)) && Complete(UpperBounds(s, q))
    ensures r.Some? && LowerBounds(s, q).elevation == Some(q.elevation) ==>
              r == ValueOf(FirstMatch(s, LowerBounds(s, q)))
  {
    var lower, upper := LowerBounds(s, q), UpperBounds(s, q);
    var lowerValue := ValueOf(FirstMatch(s, lower));
    var upperValue := ValueOf(FirstMatch(s, upper));
    if lowerValue.Some? && upperValue.Some? then
      Some(Blend(lowerValue.value, upperValue.value, q.elevation, lower.elevation.value))
    else None
  }

  /**
   * The blend uses the values of the first rows carrying the lower and the
   * upper triple, and the raw elevation difference from the lower row: there
   * is no division by `upperElevation - lowerElevation`.
   */
  lemma BlendOfMatchedRows(s: seq<Point>, q: Query, lo: Point, up: Point, lowerValue: int, upperValue: int)
    requires FirstMatch(s, LowerBounds(s, q)) == Some(lo) && FirstMatch(s, UpperBounds(s, q)) == Some(up)
    requires ValueOf(Some(lo)) == Some(lowerValue) && ValueOf(Some(up)) == Some(upperValue)
    ensures Estimate(s, q) == Some(Blend(lowerValue, upperValue, q.elevation, lo.elevation))
  {
  }

  /**
   * Out of coverage: when on some axis every row lies strictly above the
   * target, or every row strictly below it, the result is `null`.  The empty
   * table is the case where both hold.
   */
  lemma OutOfCoverageGivesNone(s: seq<Point>, q: Query, a: Axis)
    requires (forall i :: 0 <= i < |s| ==> Coord(s[i], a) > Target(q, a)) ||
             (forall i :: 0 <= i < |s| ==> Coord(s[i], a) < Target(q, a))
    ensures Estimate(s, q) == None
  {
  }

  /**
   * Missing match: when no row carries exactly the lower triple, or none
   * carries exactly the upper triple, the result is `null`.
   */
  lemma MissingMatchGivesNone(s: seq<Point>, q: Query)
    requires (forall i :: 0 <= i < |s| ==> !Matches(s[i], LowerBounds(s, q))) ||
             (forall i :: 0 <= i < |s| ==> !Matches(s[i], UpperBounds(s, q)))
    ensures Estimate(s, q) == None
  {
  }

  /**
   * A query at an elevation the (sorted) table holds makes the blend factor
   * zero: any result is exactly the value of the lower row.
   */
  lemma {:induction false} StoredElevationGivesLowerValue(s: seq<Point>, q: Query, k: int)
    requires Sorted(s) && 0 <= k < |s| && s[k].elevation == q.elevation
    ensures Estimate(s, q).Some? ==> Estimate(s, q) == ValueOf(FirstMatch(s, LowerBounds(s, q)))
  {
    LowerElevationIsGreatestAtMost(s, q.elevation);
    assert LastAtMost(s, Elevation, q.elevation) == Some(q.elevation);
  }

  /**
   * Duplicates: the row used for a triple is the first of the rows carrying
   * it in the caller's original order, since a stable sort keeps their order.
   */
  lemma FirstMatchKeepsOriginalOrder(original: seq<Point>, sorted: seq<Point>, b: Bounds)
    requires SameSelections(original, sorted)
    ensures FirstMatch(sorted, b) == FirstMatch(original, b)
  {
  }

  /**
   * The result is a function of the caller's table: every sorted stable
   * reordering of it is the same sequence and so gives the same estimate.
   */
  lemma EstimateDeterminedByTable(original: seq<Point>, t1: seq<Point>, t2: seq<Point>, q: Query)
    requires Sorted(t1) && SameSelections(original, t1)
    requires Sorted(t2) && SameSelections(original, t2)
    ensures t1 == t2 && Estimate(t1, q) == Estimate(t2, q)
  {
    assert SameSelections(t1, t2) by {
      forall b ensures Filter(t1, b) == Filter(t2, b) {
        assert Filter(original, b) == Filter(t1, b) && Filter(original, b) == Filter(t2, b);
      }
    }
    StableSortUnique(t1, t2);
  }

  // ---------------------------------------------------------------------------
  // Worked cases of the literal algorithm.
  // ---------------------------------------------------------------------------

  /**
   * Two distance rows at elevations 0 and 1000, query at elevation 500: the
   * unnormalised factor 500 gives 1000 + 200 * 500 = 101000, not 1100.
   */
  lemma UnnormalisedBlendExample()
    ensures Sorted([Point(0, 100, 15, None, Some(1000)), Point(1000, 100, 15, None, Some(1200))])
    ensures Estimate([Point(0, 100, 15, None, Some(1000)), Point(1000, 100, 15, None, Some(1200))],
                     Query(15, 500, 100)) == Some(101000)
  {
    var s := [Point(0, 100, 15, None, Some(1000)), Point(1000, 100, 15, None, Some(1200))];
    assert s[..1] == [s[0]];
    assert FirstMatch(s, Bounds(Some(0), Some(100), Some(15))) == Some(s[0]);
    assert FirstMatch(s, Bounds(Some(1000), Some(100), Some(15))) == Some(s[1]);
  }

  /**
   * Rows at elevations 0, 1000 and 2000, query at 500: `upperElevation` is
   * 2000, the greatest elevation of the table, not 1000, the least one above
   * the query.
   */
  lemma UpperElevationSkipsNearestExample()
    ensures UpperBounds([Point(0, 100, 15, None, Some(1000)), Point(1000, 100, 15, None, Some(1200)),
                         Point(2000, 100, 15, None, Some(1400))], Query(15, 500, 100)).elevation == Some(2000)
    ensures LowerBounds([Point(0, 100, 15, None, Some(1000)), Point(1000, 100, 15, None, Some(1200)),
                         Point(2000, 100, 15, None, Some(1400))], Query(15, 500, 100)).elevation == Some(0)
  {
    var s := [Point(0, 100, 15, None, Some(1000)), Point(1000, 100, 15, None, Some(1200)),
              Point(2000, 100, 15, None, Some(1400))];
    assert s[..2] == [s[0], s[1]];
    assert s[..2][..1] == [s[0]];
    assert LastAtMost(s, Elevation, 500) == LastAtMost([s[0], s[1]], Elevation, 500)
                                         == LastAtMost([s[0]], Elevation, 500);
  }

  /**
   * A query that exactly names a stored row can still give `null`: the lower
   * OAT comes from the later row (OAT 10), so the lower triple (0, 100, 10)
   * names no row.
   */
  lemma StoredRowQueryCanMissExample()
    ensures Sorted([Point(0, 100, 20, None, Some(1000)), Point(0, 200, 10, None, Some(1100))])
    ensures LowerBounds([Point(0, 100, 20, None, Some(1000)), Point(0, 200, 10, None, Some(1100))],
                        Query(20, 0, 100)) == Bounds(Some(0), Some(100), Some(10))
    ensures Estimate([Point(0, 100, 20, None, Some(1000)), Point(0, 200, 10, None, Some(1100))],
                     Query(20, 0, 100)) == None
  {
    var s := [Point(0, 100, 20, None, Some(1000)), Point(0, 200, 10, None, Some(1100))];
    var q := Query(20, 0, 100);
    assert s[..1] == [s[0]];
    assert LastAtMost(s, GrossWeight, 100) == LastAtMost([s[0]], GrossWeight, 100) == Some(100);
    assert LowerBounds(s, q) == Bounds(Some(0), Some(100), Some(10));
    assert !Matches(s[0], LowerBounds(s, q)) && !Matches(s[1], LowerBounds(s, q));
    MissingMatchGivesNone(s, q);
  }

  // ---------------------------------------------------------------------------
  // The imperative part: the in-place sort, the bound loop, the whole call.
  // ---------------------------------------------------------------------------

  /**
   * `data.sort(Compare)`, stable as `Array.prototype.sort` is: an insertion
   * sort that moves a row left past every row that compares strictly greater.
   */
  method SortByKey(data: array<Point>)
    modifies data
    ensures Sorted(data[..])
    ensures SameSelections(old(data[..]), data[..])
    ensures multiset(data[..]) == multiset(old(data[..]))
  {
    for i := 0 to data.Length
      invariant forall p, r :: 0 <= p < r < i ==> KeyLe(data[p], data[r])
      invariant SameSelections(old(data[..]), data[..])
    {
      var j := i;
      while j > 0 && Compare(data[j - 1], data[j]) > 0
        invariant 0 <= j <= i
        invariant forall p, r :: 0 <= p < r <= i && p != j && r != j ==> KeyLe(data[p], data[r])
        invariant forall r :: j < r <= i ==> KeyLe(data[j], data[r]) && !SameKey(data[j], data[r])
        invariant SameSelections(old(data[..]), data[..])
      {
        ghost var before := data[..];
        SwapKeepsSelections(before, j);
        data[j - 1], data[j] := data[j], data[j - 1];
        assert data[..] == before[j - 1 := before[j]][j := before[j - 1]];
        j := j - 1;
      }
    }
    SameSelectionsPermutes(old(data[..]), data[..]);
  }

  /** Lines 97-112: one pass over the sorted rows, overwriting each bound on every row that satisfies it. */
  method FindBounds(data: array<Point>, targetOAT: int, targetElevation: int, targetGW: int)
    returns (lower: Bounds, upper: Bounds)
    ensures lower == LowerBounds(data[..], Query(targetOAT, targetElevation, targetGW))
    ensures upper == UpperBounds(data[..], Query(targetOAT, targetElevation, targetGW))
  {
    var lowerElevation: Option<int>, upperElevation: Option<int> := None, None;
    var lowerGW: Option<int>, upperGW: Option<int> := None, None;
    var lowerOAT: Option<int>, upperOAT: Option<int> := None, None;
    for i := 0 to data.Length
      invariant lowerElevation == LastAtMost(data[..i], Elevation, targetElevation)
      invariant upperElevation == LastAtLeast(data[..i], Elevation, targetElevation)
      invariant lowerGW == LastAtMost(data[..i], GrossWeight, targetGW)
      invariant upperGW == LastAtLeast(data[..i], GrossWeight, targetGW)
      invariant lowerOAT == LastAtMost(data[..i], Temperature, targetOAT)
      invariant upperOAT == LastAtLeast(data[..i], Temperature, targetOAT)
    {
      assert data[..i + 1][..i] == data[..i];
      var point := data[i];
      if point.elevation <= targetElevation { lowerElevation := Some(point.elevation); }
      if point.elevation >= targetElevation { upperElevation := Some(point.elevation); }
      if point.gw <= targetGW { lowerGW := Some(point.gw); }
      if point.gw >= targetGW { upperGW := Some(point.gw); }
      if point.oat <= targetOAT { lowerOAT := Some(point.oat); }
      if point.oat >= targetOAT { upperOAT := Some(point.oat); }
    }
    assert data[..data.Length] == data[..];
    lower := Bounds(lowerElevation, lowerGW, lowerOAT);
    upper := Bounds(upperElevation, upperGW, upperOAT);
  }

  /**
   * `trilinearInterpolation(data, targetOAT, targetElevation, targetGW)`:
   * leaves the caller's array sorted (a stable reordering of what it held)
   * and returns the estimate taken from the sorted rows.  On an array that
   * is already sorted, nothing moves.
   */
  method TrilinearInterpolation(data: array<Point>, targetOAT: int, targetElevation: int, targetGW: int)
    returns (r: Option<int>)
    modifies data
    ensures Sorted(data[..]) && SameSelections(old(data[..]), data[..])
    ensures multiset(data[..]) == multiset(old(data[..]))
    ensures Sorted(old(data[..])) ==> data[..] == old(data[..])
    ensures r == Estimate(data[..], Query(targetOAT, targetElevation, targetGW))
  {
    SortByKey(data);
    if Sorted(old(data[..])) {
      StableSortUnique(old(data[..]), data[..]);
    }
    var lower, upper := FindBounds(data, targetOAT, targetElevation, targetGW);
    var lowerValue := ValueOf(FirstMatch(data[..], lower));
    var upperValue := ValueOf(FirstMatch(data[..], upper));
    if lowerValue.Some? && upperValue.Some? {
      r := Some(Blend(lowerValue.value, upperValue.value, targetElevation, lower.elevation.value));
    } else {
      r := None;
    }
    assert r == Estimate(data[..], Query(targetOAT, targetElevation, targetGW));
  }

  /**
   * Asking the same question twice (the button pressed again): the second
   * call finds the array sorted, leaves it as it is and gives the same answer.
   */
  method QueryTwice(data: array<Point>, targetOAT: int, targetElevation: int, targetGW: int)
    returns (first: Option<int>, second: Option<int>)
    modifies data
    ensures first == second
    ensures Sorted(data[..]) && SameSelections(old(data[..]), data[..])
  {
    first := TrilinearInterpolation(data, targetOAT, targetElevation, targetGW);
    ghost var afterFirst := data[..];
    second := TrilinearInterpolation(data, targetOAT, targetElevation, targetGW);
    assert data[..] == afterFirst;
  }
}
