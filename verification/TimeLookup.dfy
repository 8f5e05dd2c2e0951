/**
 Sorting the time table, removing duplicate times, and looking times up by binary search and
 linear interpolation.
 */
module TimeLookup {
  import opened Arithmetic
  import opened VadScan
  import opened VadPost
  import opened TimeMap

  /* ---- sorting and removing duplicates ---- */

  predicate SortedKeys(points: seq<Point>) {
    forall i, j :: 0 <= i < j < |points| ==> points[i].processed <= points[j].processed
  }

  // An unstable sort by processed time may return any of these.
  predicate IsSort(points: seq<Point>, sorted: seq<Point>) {
    multiset(sorted) == multiset(points) && SortedKeys(sorted)
  }

  // The first of every run of equal times.
  function Unique(points: seq<Point>): (u: seq<Point>)
    ensures points != [] ==> u != [] && u[|u| - 1].processed == points[|points| - 1].processed
  {
    if |points| <= 1 then points
    else
      var u, p := Unique(points[..|points| - 1]), points[|points| - 1];
      if u[|u| - 1].processed == p.processed then u else u + [p]
  }

  // As the library function does it, keeping the result at the front of the vector.
  method RemoveDuplicates(points: seq<Point>) returns (u: seq<Point>)
    ensures u == Unique(points)
  {
    u := [];
    for i := 0 to |points|
      invariant u == Unique(points[..i])
    {
      assert points[..i + 1][..i] == points[..i];
      if u == [] || u[|u| - 1].processed != points[i].processed {
        u := u + [points[i]];
      }
    }
    assert points[..|points|] == points;
  }

  // Point k is the first of a run of points with equal processed time.
  predicate FirstOfRun(points: seq<Point>, k: int)
    requires 0 <= k < |points|
  {
    k == 0 || points[k - 1].processed != points[k].processed
  }

  // Exactly those are kept, in order.
  lemma UniqueExactly(points: seq<Point>, k: nat)
    requires k < |points|
    ensures var u := Unique(points[..k + 1]);
            if FirstOfRun(points, k) then u == Unique(points[..k]) + [points[k]] else u == Unique(points[..k])
  {
    assert points[..k + 1][..k] == points[..k];
    if k > 0 {
      assert points[..k][k - 1] == points[k - 1];
    }
  }

  // Times strictly rise in the table, and the original times do not fall.
  predicate IsTable(table: seq<Point>) {
    forall i, j :: 0 <= i < j < |table| ==>
      table[i].processed < table[j].processed && table[i].original <= table[j].original
  }

  predicate StrictKeys(table: seq<Point>) {
    forall i, j :: 0 <= i < j < |table| ==> table[i].processed < table[j].processed
  }

  // Later in the filtered audio is not earlier in the original.
  ghost predicate Consistent(points: seq<Point>) {
    forall p, q :: p in points && q in points && p.processed < q.processed ==> p.original <= q.original
  }

  lemma RisingIsConsistent(points: seq<Point>)
    requires Rising(points)
    ensures Consistent(points) && IsSort(points, points)
  {
    forall p, q | p in points && q in points && p.processed < q.processed
      ensures p.original <= q.original
    {
      var i :| 0 <= i < |points| && points[i] == p;
      var j :| 0 <= j < |points| && points[j] == q;
      assert i < j;
    }
  }

  lemma SortMembers(points: seq<Point>, sorted: seq<Point>, p: Point)
    requires IsSort(points, sorted)
    ensures p in sorted <==> p in points
  {
    assert p in sorted <==> p in multiset(sorted);
    assert p in points <==> p in multiset(points);
  }

  lemma {:induction false} UniqueStrict(points: seq<Point>)
    requires SortedKeys(points)
    ensures StrictKeys(Unique(points))
  {
    if |points| > 1 {
      var rest, p := points[..|points| - 1], points[|points| - 1];
      UniqueStrict(rest);
      var u := Unique(rest);
      hide SortedKeys, Unique, StrictKeys;
      StrictAppend(u, p);
    }
  }

  lemma {:induction false} UniqueAmong(points: seq<Point>, p: Point)
    ensures p in Unique(points) ==> p in points
  {
    if |points| > 1 {
      UniqueAmong(points[..|points| - 1], p);
    }
  }

  lemma UniqueFrom(points: seq<Point>)
    requires SortedKeys(points)
    ensures StrictKeys(Unique(points))
    ensures forall p :: p in Unique(points) ==> p in points
  {
    hide Unique, SortedKeys, StrictKeys;
    UniqueStrict(points);
    forall p | p in Unique(points)
      ensures p in points
    {
      UniqueAmong(points, p);
    }
  }

  lemma StrictAppend(u: seq<Point>, p: Point)
    requires StrictKeys(u) && u != [] && u[|u| - 1].processed <= p.processed
    ensures u[|u| - 1].processed != p.processed ==> StrictKeys(u + [p])
  {
  }

  // No time is lost.
  lemma {:induction false} UniqueKeeps(points: seq<Point>, p: Point) returns (k: nat)
    requires SortedKeys(points) && p in points
    ensures k < |Unique(points)| && Unique(points)[k].processed == p.processed
  {
    if |points| == 1 {
      k := 0;
    } else {
      var last := |points| - 1;
      var i :| 0 <= i < |points| && points[i] == p;
      if i < last {
        assert points[..last][i] == p;
        k := UniqueKeeps(points[..last], p);
      } else {
        k := |Unique(points)| - 1;
      }
    }
  }

  lemma ConsistentTable(points: seq<Point>, table: seq<Point>)
    requires Consistent(points) && StrictKeys(table) && forall p :: p in table ==> p in points
    ensures IsTable(table)
  {
    forall i, j | 0 <= i < j < |table|
      ensures table[i].original <= table[j].original
    {
      assert table[i] in table && table[j] in table;
    }
  }

  // However the sort orders equal times, the table is one: its times strictly rise, the
  // original times never fall, and every point comes from a segment.
  lemma TableIsTable(segs: seq<Segment>, n: nat, overlap: nat, sorted: seq<Point>)
    requires InOrder(segs) && IsSort(Points(segs, |segs|, n, overlap), sorted)
    ensures IsTable(Unique(sorted))
    ensures forall p :: p in Unique(sorted) ==> p in Points(segs, |segs|, n, overlap)
  {
    var points := Points(segs, |segs|, n, overlap);
    PointsRise(segs, |segs|, n, overlap);
    hide Points, Within, Front, InOrder;
    RisingIsConsistent(points);
    UniqueFrom(sorted);
    forall p | p in Unique(sorted)
      ensures p in points
    {
      SortMembers(points, sorted, p);
    }
    ConsistentTable(points, Unique(sorted));
  }

  /* ---- independence of the order of equal times ---- */

  lemma SameMembers(points: seq<Point>, sorted: seq<Point>, p: Point)
    requires IsSort(points, sorted) && Agree(points)
    ensures p in Unique(sorted) <==> p in points
  {
    UniqueFrom(sorted);
    SortMembers(points, sorted, p);
    if p in points {
      var k := UniqueKeeps(sorted, p);
      assert Unique(sorted)[k] in Unique(sorted);
      SortMembers(points, sorted, Unique(sorted)[k]);
    }
  }

  // A strictly rising sequence is determined by its members.
  lemma {:induction false} StrictSame(a: seq<Point>, b: seq<Point>)
    requires StrictKeys(a) && StrictKeys(b) && forall p :: p in a <==> p in b
    ensures a == b
  {
    if a == [] {
      if b != [] {
        var p := Member(b);
        assert false;
      }
    } else if b == [] {
      var p := Member(a);
      assert false;
    } else {
      var x, y := a[|a| - 1], b[|b| - 1];
      assert x in b && y in a;
      var i :| 0 <= i < |b| && b[i] == x;
      var j :| 0 <= j < |a| && a[j] == y;
      assert x == y;
      var a', b' := a[..|a| - 1], b[..|b| - 1];
      forall p
        ensures p in a' <==> p in b'
      {
        RestMembers(a, p);
        RestMembers(b, p);
      }
      StrictSame(a', b');
    }
  }

  lemma Member(a: seq<Point>) returns (p: Point)
    requires a != []
    ensures p in a
  {
    p := a[0];
  }

  lemma RestMembers(a: seq<Point>, p: Point)
    requires StrictKeys(a) && a != []
    ensures p in a[..|a| - 1] <==> p in a && p != a[|a| - 1]
  {
    if p in a && p != a[|a| - 1] {
      var i :| 0 <= i < |a| && a[i] == p;
      assert a[..|a| - 1][i] == p;
    }
  }

  // All sorts lead to one table.
  ghost predicate OneTable(points: seq<Point>) {
    forall s, t :: IsSort(points, s) && IsSort(points, t) ==> Unique(s) == Unique(t)
  }

  lemma AgreeOneTable(points: seq<Point>, s: seq<Point>, t: seq<Point>)
    requires Agree(points) && IsSort(points, s) && IsSort(points, t)
    ensures Unique(s) == Unique(t)
  {
    hide Agree;
    UniqueFrom(s);
    UniqueFrom(t);
    forall p
      ensures p in Unique(s) <==> p in Unique(t)
    {
      SameMembers(points, s, p);
      SameMembers(points, t, p);
    }
    StrictSame(Unique(s), Unique(t));
  }

  // The first point of a run of equal times is kept.
  lemma {:induction false} FirstIsKept(s: seq<Point>, f: nat)
    requires SortedKeys(s) && f < |s| && (f > 0 ==> s[f - 1].processed < s[f].processed)
    ensures s[f] in Unique(s)
  {
    var last := |s| - 1;
    if f < last {
      FirstIsKept(s[..last], f);
    } else if f > 0 {
      assert s[..last][|s[..last]| - 1] == s[f - 1];
      assert Unique(s)[|Unique(s)| - 1] == s[f];
    }
  }

  lemma {:induction false} FirstOf(s: seq<Point>, i: nat) returns (f: nat)
    requires SortedKeys(s) && i < |s|
    ensures f <= i && s[f].processed == s[i].processed && (f > 0 ==> s[f - 1].processed < s[f].processed)
  {
    if i > 0 && s[i - 1].processed == s[i].processed {
      f := FirstOf(s, i - 1);
    } else {
      f := i;
    }
  }

  // Some sort keeps any given point: the one that puts it before the others of its time.
  lemma SortThatKeeps(points: seq<Point>, p: Point) returns (s: seq<Point>)
    requires SortedKeys(points) && p in points
    ensures IsSort(points, s) && p in Unique(s)
  {
    var i: nat :| i < |points| && points[i] == p;
    var f := FirstOf(points, i);
    s := points[i := points[f]][f := points[i]];
    SwapIsSort(points, f, i);
    FirstIsKept(s, f);
  }

  // Exchanging points of equal times.
  lemma SwapIsSort(points: seq<Point>, f: nat, i: nat)
    requires SortedKeys(points) && f <= i < |points| && points[f].processed == points[i].processed
    ensures var s := points[i := points[f]][f := points[i]];
            IsSort(points, s) && forall k :: 0 <= k < |s| ==> s[k].processed == points[k].processed
  {
    var s := points[i := points[f]][f := points[i]];
    assert SortedKeys(s) by {
      assert forall k :: 0 <= k < |s| ==> s[k].processed == points[k].processed;
    }
    Exchange(points, f, i);
    hide SortedKeys;
  }

  lemma Exchange(points: seq<Point>, f: nat, i: nat)
    requires f <= i < |points|
    ensures multiset(points[i := points[f]][f := points[i]]) == multiset(points)
  {
  }

  lemma StrictMembers(table: seq<Point>, p: Point, q: Point)
    requires StrictKeys(table) && p in table && q in table && p.processed == q.processed
    ensures p == q
  {
  }

  // All sorts lead to one table if and only if points of equal times are equal.
  lemma OneTableIff(segs: seq<Segment>, n: nat, overlap: nat)
    requires InOrder(segs)
    ensures OneTable(Points(segs, |segs|, n, overlap)) <==> Agree(Points(segs, |segs|, n, overlap))
  {
    var points := Points(segs, |segs|, n, overlap);
    PointsRise(segs, |segs|, n, overlap);
    hide Points, Within, Front, InOrder, Unique, IsSort;
    assert SortedKeys(points);
    if OneTable(points) {
      forall p, q | p in points && q in points && p.processed == q.processed
        ensures p == q
      {
        var s := SortThatKeeps(points, p);
        var t := SortThatKeeps(points, q);
        SortedTable(points, s);
        StrictMembers(Unique(s), p, q);
      }
    }
    if Agree(points) {
      forall s, t | IsSort(points, s) && IsSort(points, t)
        ensures Unique(s) == Unique(t)
      {
        AgreeOneTable(points, s, t);
      }
    }
  }

  lemma SortedTable(points: seq<Point>, s: seq<Point>)
    requires IsSort(points, s)
    ensures StrictKeys(Unique(s))
  {
    UniqueFrom(s);
  }

  // So it is when no segment is empty or clamped to the end of the audio.
  lemma SortDoesNotMatter(segs: seq<Segment>, n: nat, overlap: nat)
    requires InOrder(segs) && forall j :: 0 <= j < |segs| ==> Unclamped(segs[j], n)
    ensures OneTable(Points(segs, |segs|, n, overlap))
  {
    hide Points, InOrder, Unclamped, Agree, OneTable;
    PointsAgree(segs, n, overlap);
    OneTableIff(segs, n, overlap);
  }

  // With a clamped segment it is not: one centisecond cut to 80 samples has both ends at
  // processed time 0, and either may be kept.
  lemma ClampedSortMatters(segs: seq<Segment>)
    requires segs == [Segment(0, 1)]
    ensures InOrder(segs) && Points(segs, 1, 80, 0) == [Point(0, 0), Point(0, 1)] && !OneTable(Points(segs, 1, 80, 0))
  {
    PointsStep(segs, 0, 80, 0);
    hide OneTable, IsSort;
    TwoTables(segs, 80, 0, 0);
  }

  lemma TwoTables(segs: seq<Segment>, n: nat, overlap: nat, k: nat)
    requires InOrder(segs) && k + 1 < |Points(segs, |segs|, n, overlap)|
    requires var points := Points(segs, |segs|, n, overlap);
             points[k].processed == points[k + 1].processed && points[k] != points[k + 1]
    ensures !OneTable(Points(segs, |segs|, n, overlap))
  {
    hide InOrder, Points, OneTable;
    OneTableIff(segs, n, overlap);
  }

  // Nor with an empty one: it copies nothing, so the silence before it ends where the next
  // segment starts.
  lemma EmptySegmentSortMatters(segs: seq<Segment>)
    requires segs == [Segment(0, 1), Segment(2, 2), Segment(3, 4)]
    ensures InOrder(segs) && (forall i :: 0 <= i < |segs| ==> CS * segs[i].end <= 1000 - 1)
    ensures !OneTable(Points(segs, 3, 1000, 0))
  {
    hide Points, OneTable, InOrder;
    EmptySegmentInOrder(segs);
    EmptySegmentPoints(segs);
    TwoTables(segs, 1000, 0, 3);
  }

  lemma EmptySegmentInOrder(segs: seq<Segment>)
    requires segs == [Segment(0, 1), Segment(2, 2), Segment(3, 4)]
    ensures InOrder(segs)
  {
    assert Gap(segs, 1) == 1 && Gap(segs, 2) == 1;
  }

  lemma EmptySegmentPoints(segs: seq<Segment>)
    requires segs == [Segment(0, 1), Segment(2, 2), Segment(3, 4)]
    ensures Points(segs, 3, 1000, 0)
         == [Point(0, 0), Point(1, 1), Point(1, 1), Point(11, 2), Point(11, 3), Point(12, 4)]
  {
    assert Offset(segs, 0, 1000, 0) == 0;
    assert Offset(segs, 1, 1000, 0) == 1760;
    assert Offset(segs, 2, 1000, 0) == 1760;
    assert PointsOf(segs, 0, 1000, 0, 0) == [Point(0, 0), Point(1, 1), Point(1, 1), Point(11, 2)];
    assert PointsOf(segs, 1, 1000, 0, 1760) == [];
    assert PointsOf(segs, 2, 1000, 0, 1760) == [Point(11, 3), Point(12, 4)];
    PointsStep(segs, 0, 1000, 0);
    PointsStep(segs, 1, 1000, 0);
    PointsStep(segs, 2, 1000, 0);
  }

  /* ---- looking up ---- */

  // The first index whose time is not before t.
  function LowerIndex(table: seq<Point>, t: int): (r: nat)
    ensures r <= |table|
    ensures r > 0 ==> table[r - 1].processed < t
    ensures r < |table| ==> t <= table[r].processed
  {
    if table == [] then 0
    else if table[|table| - 1].processed < t then |table|
    else LowerIndex(table[..|table| - 1], t)
  }

  // Binary search: halve the range, keep the half the answer is in.
  method LowerBound(table: seq<Point>, t: int) returns (first: nat)
    requires SortedKeys(table)
    ensures first == LowerIndex(table, t)
  {
    first := 0;
    var len := |table|;
    hide SortedKeys;
    while len > 0
      invariant 0 <= len && first + len <= |table|
      invariant first > 0 ==> table[first - 1].processed < t
      invariant first + len < |table| ==> t <= table[first + len].processed
    {
      var half := len / 2;
      if table[first + half].processed < t {
        first := first + half + 1;
        len := len - half - 1;
      } else {
        len := half;
      }
    }
    OneLowerBound(table, t, first, LowerIndex(table, t));
  }

  lemma OneLowerBound(table: seq<Point>, t: int, i: nat, j: nat)
    requires SortedKeys(table) && i <= |table| && j <= |table|
    requires (i > 0 ==> table[i - 1].processed < t) && (i < |table| ==> t <= table[i].processed)
    requires (j > 0 ==> table[j - 1].processed < t) && (j < |table| ==> t <= table[j].processed)
    ensures i == j
  {
  }

  // Division as the source does it, towards zero.
  function Div(a: int, b: int): int
    requires b > 0
  {
    if a >= 0 then a / b else -((-a) / b)
  }

  function Interpolate(t: int, low: Point, high: Point): int
    requires low.processed < high.processed
  {
    low.original + Div((t - low.processed) * (high.original - low.original), high.processed - low.processed)
  }

  function MapTime(t: int, table: seq<Point>): int {
    if table == [] then t
    else if t <= table[0].processed then table[0].original
    else if t >= table[|table| - 1].processed then table[|table| - 1].original
    else
      var i := LowerIndex(table, t);
      if table[i].processed == t then table[i].original else Interpolate(t, table[i - 1], table[i])
  }

  method MapProcessedToOriginal(t: int, table: seq<Point>) returns (r: int)
    requires SortedKeys(table)
    ensures r == MapTime(t, table)
  {
    if table == [] {
      return t;
    }
    if t <= table[0].processed {
      return table[0].original;
    }
    if t >= table[|table| - 1].processed {
      return table[|table| - 1].original;
    }
    var upper := LowerBound(table, t);
    if table[upper].processed == t {
      return table[upper].original;
    }
    var lower := upper - 1;
    var processedDiff := table[upper].processed - table[lower].processed;
    var originalDiff := table[upper].original - table[lower].original;
    var offset := t - table[lower].processed;
    // processedDiff is positive here, since lower.processed < t < upper.processed
    r := table[lower].original + Div(offset * originalDiff, processedDiff);
  }

  /* ---- properties of the map ---- */

  lemma Quotient(a: nat, p: nat)
    requires p > 0
    ensures p * (a / p) <= a < p * (a / p) + p
  {
  }

  lemma QuotientIs(n: nat, d: nat, p: nat)
    requires p > 0 && n == p * d
    ensures n / p == d && Div(n, p) == d
  {
    var q := n / p;
    Quotient(n, p);
    ProductLe(q + 1, d, p);
    ProductLe(d + 1, q, p);
  }

  lemma DivMonotone(a: nat, b: nat, p: nat)
    requires a <= b && p > 0
    ensures a / p <= b / p
  {
    Quotient(a, p);
    Quotient(b, p);
    ProductLe(b / p + 1, a / p, p);
  }

  lemma DivBetween(a: nat, b: nat, d: nat, p: nat)
    requires a <= b <= p * d && p > 0
    ensures 0 <= Div(a, p) <= Div(b, p) <= d
  {
    DivMonotone(a, b, p);
    var top := p * d;
    DivMonotone(b, top, p);
    QuotientIs(top, d, p);
  }

  lemma InterpolateRises(t: int, t': int, low: Point, high: Point)
    requires low.processed <= t <= t' <= high.processed && low.processed < high.processed
             && low.original <= high.original
    ensures low.original <= Interpolate(t, low, high) <= Interpolate(t', low, high) <= high.original
  {
    hide Div;
    var x, y, d, p := t - low.processed, t' - low.processed, high.original - low.original,
        high.processed - low.processed;
    ProductLe(x, y, d);
    ProductLe(y, p, d);
    DivBetween(x * d, y * d, d, p);
  }

  lemma InterpolateEnd(low: Point, high: Point)
    requires low.processed < high.processed && low.original <= high.original
    ensures Interpolate(high.processed, low, high) == high.original
  {
    var d, p := high.original - low.original, high.processed - low.processed;
    QuotientIs(p * d, d, p);
  }

  lemma InterpolateShifts(t: int, low: Point, high: Point)
    requires low.processed <= t < high.processed
    requires high.processed - low.processed == high.original - low.original
    ensures Interpolate(t, low, high) == low.original + (t - low.processed)
  {
    var x, p := t - low.processed, high.processed - low.processed;
    Commute(x, p);
    QuotientIs(x * p, x, p);
  }

  // Strictly inside the table a time is mapped by interpolation between its neighbours.
  lemma Inside(t: int, table: seq<Point>) returns (i: nat)
    requires IsTable(table) && table != [] && table[0].processed < t < table[|table| - 1].processed
    ensures 0 < i < |table| && i == LowerIndex(table, t) && table[i - 1].processed < t <= table[i].processed
    ensures table[i - 1].original <= MapTime(t, table) <= table[i].original
    ensures MapTime(t, table) == Interpolate(t, table[i - 1], table[i])
  {
    i := LowerIndex(table, t);
    InterpolateRises(t, t, table[i - 1], table[i]);
    InterpolateEnd(table[i - 1], table[i]);
    hide Interpolate;
  }

  // The map never leaves the original range of the table.
  lemma MapInRange(t: int, table: seq<Point>)
    requires IsTable(table) && table != []
    ensures table[0].original <= MapTime(t, table) <= table[|table| - 1].original
  {
    if table[0].processed < t < table[|table| - 1].processed {
      var i := Inside(t, table);
    }
  }

  // It hits every point of the table.
  lemma MapHits(table: seq<Point>, k: nat)
    requires IsTable(table) && k < |table|
    ensures MapTime(table[k].processed, table) == table[k].original
  {
    var t := table[k].processed;
    if 0 < k < |table| - 1 {
      var i := Inside(t, table);
      assert i == k;
    }
  }

  // It never goes back in time.
  lemma MapMonotone(t: int, t': int, table: seq<Point>)
    requires IsTable(table) && t <= t'
    ensures MapTime(t, table) <= MapTime(t', table)
  {
    if table != [] {
      MapInRange(t, table);
      MapInRange(t', table);
      if table[0].processed < t && t' < table[|table| - 1].processed {
        var i := Inside(t, table);
        var j := Inside(t', table);
        if i == j {
          InterpolateRises(t, t', table[i - 1], table[i]);
        } else {
          assert i < j && table[i].original <= table[j - 1].original;
        }
      }
    }
  }

  // Between adjacent points of equal processed and original duration it is a shift.
  lemma ShiftBetween(table: seq<Point>, k: nat, t: int)
    requires IsTable(table) && k + 1 < |table| && table[k].processed <= t <= table[k + 1].processed
    requires table[k + 1].processed - table[k].processed == table[k + 1].original - table[k].original
    ensures MapTime(t, table) == table[k].original + (t - table[k].processed)
  {
    hide MapTime, Interpolate;
    MapHits(table, k);
    MapHits(table, k + 1);
    if table[k].processed < t < table[k + 1].processed {
      var i := Inside(t, table);
      assert i == k + 1;
      InterpolateShifts(t, table[k], table[k + 1]);
    }
  }

  // r lies on the line from low to high at time t, rounded down.
  predicate OnLine(r: int, t: int, low: Point, high: Point) {
    var dp, dor := high.processed - low.processed, high.original - low.original;
    (r - low.original) * dp <= (t - low.processed) * dor < (r - low.original + 1) * dp
  }

  lemma InterpolateOnLine(t: int, low: Point, high: Point)
    requires low.processed <= t && low.processed < high.processed && low.original <= high.original
    ensures OnLine(Interpolate(t, low, high), t, low, high)
  {
    var x, d, p := t - low.processed, high.original - low.original, high.processed - low.processed;
    ProductLe(0, x, d);
    Quotient(x * d, p);
    var q := x * d / p;
    assert (q + 1) * p == q * p + p;
    assert q * p == p * q;
  }

  // Between neighbours of the table the map is the line through them, rounded down.
  lemma MapBetween(table: seq<Point>, k: nat, t: int)
    requires IsTable(table) && k + 1 < |table| && table[k].processed <= t <= table[k + 1].processed
    ensures OnLine(MapTime(t, table), t, table[k], table[k + 1])
  {
    hide MapTime, Interpolate, OnLine;
    MapHits(table, k);
    MapHits(table, k + 1);
    if table[k].processed < t < table[k + 1].processed {
      var i := Inside(t, table);
      assert i == k + 1;
      InterpolateOnLine(t, table[k], table[k + 1]);
    } else {
      OnLineEnds(table[k], table[k + 1]);
    }
  }

  lemma OnLineEnds(low: Point, high: Point)
    requires low.processed < high.processed
    ensures OnLine(low.original, low.processed, low, high) && OnLine(high.original, high.processed, low, high)
  {
    var dp, dor := high.processed - low.processed, high.original - low.original;
    assert (dor + 1) * dp == dor * dp + dp && dp * dor == dor * dp;
  }

  // In the silence between two segments the map runs through the gap between them in the
  // original audio; before the silence, in the overlap, it stands still at the end of the first.
  lemma SilenceStretched(segs: seq<Segment>, i: nat, n: nat, overlap: nat, sorted: seq<Point>, t: int)
    requires i + 1 < |segs| && InOrder(segs) && forall j :: 0 <= j <= i + 1 ==> Unclamped(segs[j], n)
    requires IsSort(Points(segs, |segs|, n, overlap), sorted)
    ensures var next := SamplesToCs(Offset(segs, i + 1, n, overlap));
            next - 10 <= t <= next ==>
              OnLine(MapTime(t, Unique(sorted)), t, Point(next - 10, segs[i].end), Point(next, segs[i + 1].start))
    ensures var copied := SamplesToCs(Offset(segs, i, n, overlap)) + segs[i].end - segs[i].start;
            var next := SamplesToCs(Offset(segs, i + 1, n, overlap));
            copied <= t <= next - 10 ==> MapTime(t, Unique(sorted)) == segs[i].end
  {
    hide Points, InOrder, Unclamped, Offset, SamplesToCs, Adjacent, IsSort, MapTime, OnLine;
    var q, r, h := SilenceAdjacent(segs, i, n, overlap);
    TableIsTable(segs, n, overlap, sorted);
    var points, table := Points(segs, |segs|, n, overlap), Unique(sorted);
    hide Unique;
    var k := AdjacentInTable(points, sorted, r, h);
    if r.processed <= t <= h.processed {
      MapBetween(table, k, t);
    }
    if q.processed <= t <= r.processed {
      if q == r {
        MapHits(table, k);
      } else {
        var l := AdjacentInTable(points, sorted, q, r);
        MapStands(table, l, t);
      }
    }
  }

  lemma MapStands(table: seq<Point>, k: nat, t: int)
    requires IsTable(table) && k + 1 < |table| && table[k].processed <= t <= table[k + 1].processed
    requires table[k].original == table[k + 1].original
    ensures MapTime(t, table) == table[k].original
  {
    hide MapTime;
    MapHits(table, k);
    MapHits(table, k + 1);
    MapMonotone(table[k].processed, t, table);
    MapMonotone(t, table[k + 1].processed, table);
  }

  // Inside every segment that is not clamped, the map is the exact shift from the position the
  // segment was copied to back to its own start, whatever the sort did.
  lemma ExactShift(segs: seq<Segment>, i: nat, n: nat, overlap: nat, sorted: seq<Point>, t: int)
    requires InOrder(segs) && i < |segs| && forall j :: 0 <= j <= i ==> Unclamped(segs[j], n)
    requires IsSort(Points(segs, |segs|, n, overlap), sorted)
    requires var start := SamplesToCs(Offset(segs, i, n, overlap)); start <= t <= start + segs[i].end - segs[i].start
    ensures MapTime(t, Unique(sorted)) == segs[i].start + (t - SamplesToCs(Offset(segs, i, n, overlap)))
  {
    hide Points, InOrder, Unclamped, Offset, SamplesToCs;
    var p, q := SegmentAdjacent(segs, i, n, overlap);
    TableIsTable(segs, n, overlap, sorted);
    var k := AdjacentInTable(Points(segs, |segs|, n, overlap), sorted, p, q);
    ShiftBetween(Unique(sorted), k, t);
  }

  lemma AdjacentInTable(points: seq<Point>, sorted: seq<Point>, p: Point, q: Point) returns (k: nat)
    requires IsSort(points, sorted) && Adjacent(points, p, q) && IsTable(Unique(sorted))
    requires forall x :: x in Unique(sorted) ==> x in points
    ensures k + 1 < |Unique(sorted)| && Unique(sorted)[k] == p && Unique(sorted)[k + 1] == q
  {
    SortMembers(points, sorted, p);
    SortMembers(points, sorted, q);
    k := UniqueKeeps(sorted, p);
    var j := UniqueKeeps(sorted, q);
    hide IsSort;
    var table := Unique(sorted);
    hide Unique;
    assert table[k] in table && table[j] in table && table[k] == p && table[j] == q;
    assert k < j && table[k + 1] in table;
    NothingBetween(points, p, q, table[k + 1]);
  }

  lemma NothingBetween(points: seq<Point>, p: Point, q: Point, x: Point)
    requires Adjacent(points, p, q) && x in points
    ensures x.processed <= p.processed || q.processed <= x.processed
  {
  }

  /* ---- segment times ---- */

  function SegmentStart(t0: int, table: seq<Point>): int { MapTime(t0, table) }

  function SegmentEnd(t0: int, t1: int, table: seq<Point>): int {
    if table == [] then t1
    else
      var start, end := MapTime(t0, table), MapTime(t1, table);
      if end - start < 10 then start + 10 else end
  }

  // With a table, segments end where the map says but last at least 10, and starts do not go
  // back.
  lemma SegmentTimes(t0: int, t1: int, next0: int, table: seq<Point>)
    requires IsTable(table) && t0 <= t1 <= next0
    ensures table != [] ==>
              && SegmentEnd(t0, t1, table) >= MapTime(t1, table)
              && (MapTime(t1, table) - MapTime(t0, table) >= 10 ==> SegmentEnd(t0, t1, table) == MapTime(t1, table))
    ensures table == [] ==> SegmentStart(t0, table) == t0 && SegmentEnd(t0, t1, table) == t1
    ensures table != [] ==> SegmentEnd(t0, t1, table) - SegmentStart(t0, table) >= 10
    ensures SegmentStart(t0, table) <= SegmentStart(next0, table)
    ensures SegmentEnd(t0, t1, table) > SegmentStart(next0, table)
            ==> SegmentEnd(t0, t1, table) == SegmentStart(t0, table) + 10
  {
    MapMonotone(t0, t1, table);
    MapMonotone(t1, next0, table);
  }

  // From probabilities to times: whatever the network says, however the sort behaves, and
  // whatever the overlap, reported times of detected speech never go back.
  lemma DetectedTimesMonotone(probs: seq<real>, nWindow: nat, p: VadScan.Params, n: nat, overlap: nat,
                              sorted: seq<Point>, t: int, t': int)
    requires nWindow > 0 && ValidParams(p) && t <= t'
    requires var segs := InCs(Detected(probs, Configure(p, nWindow)));
             IsSort(Points(segs, |segs|, n, overlap), sorted)
    ensures MapTime(t, Unique(sorted)) <= MapTime(t', Unique(sorted))
  {
    hide Configure, Detected, InCs, Points, IsSort, MapTime, Unique, Timed;
    var segs := InCs(Detected(probs, Configure(p, nWindow)));
    DetectedTimed(probs, nWindow, p);
    TimedInOrder(segs, AudioLength(nWindow, |probs|));
    TableIsTable(segs, n, overlap, sorted);
    MapMonotone(t, t', Unique(sorted));
  }

  // A detected segment that ends inside the audio is not clamped, nor is any before it.
  lemma DetectedUnclamped(probs: seq<real>, nWindow: nat, p: VadScan.Params, n: nat, i: nat, j: nat)
    requires nWindow >= CS && ValidParams(p)
    requires var segs := InCs(Detected(probs, Configure(p, nWindow))); j <= i < |segs| && CS * segs[i].end <= n - 1
    ensures Unclamped(InCs(Detected(probs, Configure(p, nWindow)))[j], n)
    ensures InOrder(InCs(Detected(probs, Configure(p, nWindow))))
  {
    hide Configure, Detected, InCs, Timed;
    var segs := InCs(Detected(probs, Configure(p, nWindow)));
    DetectedNotEmpty(probs, nWindow, p);
    DetectedTimed(probs, nWindow, p);
    TimedInOrder(segs, AudioLength(nWindow, |probs|));
    EndsRise(segs, j, i);
    assert segs[j] in segs;
  }

  lemma {:induction false} EndsRise(segs: seq<Segment>, j: nat, i: nat)
    requires InOrder(segs) && j <= i < |segs|
    ensures segs[j].end <= segs[i].end
    decreases i
  {
    if j < i {
      EndsRise(segs, j, i - 1);
      assert Gap(segs, i) >= 0;
    }
  }

  // So for detected speech whose last segment ends inside the audio, all sorts lead to one table,
  // and for every detected segment that does, the map is the exact shift.
  lemma DetectedShift(probs: seq<real>, nWindow: nat, p: VadScan.Params, n: nat, overlap: nat, sorted: seq<Point>,
                      i: nat, t: int)
    requires nWindow >= CS && ValidParams(p)
    requires var segs := InCs(Detected(probs, Configure(p, nWindow)));
             && i < |segs| && CS * segs[i].end <= n - 1 && IsSort(Points(segs, |segs|, n, overlap), sorted)
             && var start := SamplesToCs(Offset(segs, i, n, overlap)); start <= t <= start + segs[i].end - segs[i].start
    ensures var segs := InCs(Detected(probs, Configure(p, nWindow)));
            MapTime(t, Unique(sorted)) == segs[i].start + (t - SamplesToCs(Offset(segs, i, n, overlap)))
    ensures var segs := InCs(Detected(probs, Configure(p, nWindow)));
            i == |segs| - 1 ==> OneTable(Points(segs, |segs|, n, overlap))
  {
    hide Configure, Detected, InCs, Points, IsSort, MapTime, Unique, Unclamped, InOrder, Offset, SamplesToCs, OneTable;
    var segs := InCs(Detected(probs, Configure(p, nWindow)));
    forall j: nat | j <= i
      ensures Unclamped(segs[j], n) && InOrder(segs)
    {
      DetectedUnclamped(probs, nWindow, p, n, i, j);
    }
    DetectedUnclamped(probs, nWindow, p, n, i, i);
    ExactShift(segs, i, n, overlap, sorted, t);
    if i == |segs| - 1 {
      SortDoesNotMatter(segs, n, overlap);
    }
  }

  // And for a detected segment that is followed by another one that does, the map runs through
  // the silence between them.
  lemma DetectedSilence(probs: seq<real>, nWindow: nat, p: VadScan.Params, n: nat, overlap: nat, sorted: seq<Point>,
                        i: nat, t: int)
    requires nWindow >= CS && ValidParams(p)
    requires var segs := InCs(Detected(probs, Configure(p, nWindow)));
             && i + 1 < |segs| && CS * segs[i + 1].end <= n - 1 && IsSort(Points(segs, |segs|, n, overlap), sorted)
             && var next := SamplesToCs(Offset(segs, i + 1, n, overlap)); next - 10 <= t <= next
    ensures var segs := InCs(Detected(probs, Configure(p, nWindow)));
            var next := SamplesToCs(Offset(segs, i + 1, n, overlap));
            OnLine(MapTime(t, Unique(sorted)), t, Point(next - 10, segs[i].end), Point(next, segs[i + 1].start))
  {
    hide Configure, Detected, InCs, Points, IsSort, MapTime, Unique, Unclamped, InOrder, Offset, SamplesToCs, OnLine;
    var segs := InCs(Detected(probs, Configure(p, nWindow)));
    forall j: nat | j <= i + 1
      ensures Unclamped(segs[j], n) && InOrder(segs)
    {
      DetectedUnclamped(probs, nWindow, p, n, i + 1, j);
    }
    SilenceStretched(segs, i, n, overlap, sorted, t);
  }
}
