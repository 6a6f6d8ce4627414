/**
 * The rows of a flattened performance table (F8-TO_flat.json, F8-DIS_flat.json),
 * the comparator the interpolator sorts them with, and the `filter` it selects
 * rows with.  Also the facts about stable reordering that the in-place sort
 * relies on.
 */
module PerformanceTable {
  import opened Wrappers

  /**
   * One table row: the keys `Elevation`, `GW`, `OAT` and the output field.
   * A row of the speed table carries `V1`, a row of the distance table
   * `Distance`; a field the row does not have is `None` (`undefined`).
   */
  datatype Point = Point(elevation: int, gw: int, oat: int, v1: Option<int>, distance: Option<int>)

  /** Both rows carry the same (Elevation, GW, OAT) triple. */
  predicate SameKey(a: Point, b: Point) {
    a.elevation == b.elevation && a.gw == b.gw && a.oat == b.oat
  }

  /** Lexicographic order on (Elevation, GW, OAT): `a` may stand before `b`. */
  predicate KeyLe(a: Point, b: Point) {
    a.elevation < b.elevation ||
    (a.elevation == b.elevation && (a.gw < b.gw || (a.gw == b.gw && a.oat <= b.oat)))
  }

  /**
   * The comparator handed to `Array.prototype.sort`: the first non-zero of the
   * three key differences (`||` on numbers skips a difference of 0).
   */
  function Compare(a: Point, b: Point): (c: int)
    ensures c == 0 <==> SameKey(a, b)
    ensures c <= 0 <==> KeyLe(a, b)
    ensures c > 0 <==> KeyLe(b, a) && !SameKey(a, b)
  {
    if a.elevation - b.elevation != 0 then a.elevation - b.elevation
    else if a.gw - b.gw != 0 then a.gw - b.gw
    else a.oat - b.oat
  }

  /** Every row is in (Elevation, GW, OAT) order with every later row. */
  ghost predicate Sorted(s: seq<Point>) {
    forall i, j :: 0 <= i < j < |s| ==> KeyLe(s[i], s[j])
  }

  /**
   * The six bounds the interpolator computes, as one lower or one upper
   * triple; `None` is a bound still `null` after the scan.
   */
  datatype Bounds = Bounds(elevation: Option<int>, gw: Option<int>, oat: Option<int>)

  /** The bounds that exactly name `p`'s triple. */
  function ExactBounds(p: Point): Bounds {
    Bounds(Some(p.elevation), Some(p.gw), Some(p.oat))
  }

  /** `item.Elevation === e && item.GW === g && item.OAT === o`; `===` against `null` is false. */
  predicate Matches(p: Point, b: Bounds) {
    b.elevation == Some(p.elevation) && b.gw == Some(p.gw) && b.oat == Some(p.oat)
  }

  /** `s.filter(item => Matches(item, b))`: the matching rows, in array order. */
  function Filter(s: seq<Point>, b: Bounds): (r: seq<Point>)
    ensures |r| <= |s|
    ensures forall p :: p in r ==> p in s && Matches(p, b)
    ensures forall i :: 0 <= i < |s| && Matches(s[i], b) ==> s[i] in r
  {
    if s == [] then []
    else (if Matches(s[0], b) then [s[0]] else []) + Filter(s[1..], b)
  }

  /**
   * `t` is a stable reordering of `s`: every filter the interpolator can apply
   * selects the same rows in the same order from both.  For bounds naming a
   * triple this says the rows sharing that triple keep their relative order.
   */
  ghost predicate SameSelections(s: seq<Point>, t: seq<Point>) {
    forall b :: Filter(s, b) == Filter(t, b)
  }

  lemma {:induction false} FilterConcat(u: seq<Point>, v: seq<Point>, b: Bounds)
    ensures Filter(u + v, b) == Filter(u, b) + Filter(v, b)
  {
    if u == [] {
      assert u + v == v;
    } else {
      assert (u + v)[1..] == u[1..] + v;
      FilterConcat(u[1..], v, b);
    }
  }

  /** The head of a filter is the first matching row of the array. */
  lemma {:induction false} FilterHeadIsFirst(s: seq<Point>, b: Bounds)
    requires Filter(s, b) != []
    ensures exists i :: 0 <= i < |s| && s[i] == Filter(s, b)[0] &&
              forall j :: 0 <= j < i ==> !Matches(s[j], b)
  {
    if !Matches(s[0], b) {
      FilterHeadIsFirst(s[1..], b);
      var i :| 0 <= i < |s[1..]| && s[1..][i] == Filter(s[1..], b)[0] &&
               forall j :: 0 <= j < i ==> !Matches(s[1..][j], b);
      assert s[i + 1] == Filter(s, b)[0];
      assert forall j :: 0 <= j < i + 1 ==> !Matches(s[j], b) by {
        forall j | 0 <= j < i + 1 ensures !Matches(s[j], b) {
          if j > 0 { assert s[j] == s[1..][j - 1]; }
        }
      }
    }
  }

  /**
   * Exchanging two neighbouring rows with different triples is a stable
   * reordering: no filter can select both of them.
   */
  lemma SwapKeepsSelections(s: seq<Point>, j: int)
    requires 0 < j < |s| && !SameKey(s[j - 1], s[j])
    ensures SameSelections(s, s[j - 1 := s[j]][j := s[j - 1]])
  {
    var t := s[j - 1 := s[j]][j := s[j - 1]];
    var front, back := s[..j - 1], s[j + 1..];
    assert s == front + [s[j - 1], s[j]] + back;
    assert t == front + [s[j], s[j - 1]] + back;
    forall b ensures Filter(s, b) == Filter(t, b) {
      FilterConcat(front + [s[j - 1], s[j]], back, b);
      FilterConcat(front, [s[j - 1], s[j]], b);
      FilterConcat(front + [s[j], s[j - 1]], back, b);
      FilterConcat(front, [s[j], s[j - 1]], b);
      assert [s[j - 1], s[j]][1..] == [s[j]];
      assert [s[j], s[j - 1]][1..] == [s[j - 1]];
      assert Filter([s[j - 1], s[j]], b) == Filter([s[j], s[j - 1]], b);
    }
  }

  /** The occurrences of `p` in `s` are exactly its occurrences among the rows sharing its triple. */
  lemma {:induction false} CountWithinSelection(s: seq<Point>, p: Point)
    ensures multiset(s)[p] == multiset(Filter(s, ExactBounds(p)))[p]
  {
    if s != [] {
      CountWithinSelection(s[1..], p);
      assert s == [s[0]] + s[1..];
      assert multiset(s) == multiset([s[0]]) + multiset(s[1..]);
    }
  }

  /** A stable reordering is a permutation. */
  lemma SameSelectionsPermutes(s: seq<Point>, t: seq<Point>)
    requires SameSelections(s, t)
    ensures multiset(s) == multiset(t)
  {
    forall p ensures multiset(s)[p] == multiset(t)[p] {
      CountWithinSelection(s, p);
      CountWithinSelection(t, p);
    }
  }

  /**
   * A sorted stable reordering is unique: two sorted sequences that agree on
   * every filter are equal.  So whichever stable algorithm the JavaScript
   * engine uses, its result is the one the insertion sort of this model
   * produces, and sorting sorted data is the identity.
   */
  lemma {:induction false} StableSortUnique(s: seq<Point>, t: seq<Point>)
    requires Sorted(s) && Sorted(t) && SameSelections(s, t)
    ensures s == t
    decreases |s|
  {
    SameSelectionsPermutes(s, t);
    assert |s| == |multiset(s)| == |multiset(t)| == |t|;
    if s != [] {
      var x, y := s[0], t[0];
      assert KeyLe(x, y) by {
        assert y in Filter(t, ExactBounds(y));
        assert y in Filter(s, ExactBounds(y));
      }
      assert KeyLe(y, x) by {
        assert x in Filter(s, ExactBounds(x));
        assert x in Filter(t, ExactBounds(x));
      }
      assert Filter(s, ExactBounds(x)) == [x] + Filter(s[1..], ExactBounds(x));
      assert Filter(t, ExactBounds(x)) == [y] + Filter(t[1..], ExactBounds(x));
      assert x == y by {
        assert ([x] + Filter(s[1..], ExactBounds(x)))[0] == x;
      }
      forall b ensures Filter(s[1..], b) == Filter(t[1..], b) {
        var head := if Matches(x, b) then [x] else [];
        assert Filter(s, b) == head + Filter(s[1..], b);
        assert Filter(t, b) == head + Filter(t[1..], b);
        assert Filter(s[1..], b) == Filter(s, b)[|head|..];
        assert Filter(t[1..], b) == Filter(t, b)[|head|..];
      }
      StableSortUnique(s[1..], t[1..]);
      assert s == [x] + s[1..];
      assert t == [y] + t[1..];
    }
  }
}
