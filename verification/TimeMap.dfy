/**
 The table that maps times in the audio with silence removed back to the original audio: how it
 is built from the detected segments, and how it is read.
 */
module TimeMap {
  import opened Arithmetic
  import opened VadScan
  import opened VadPost

  datatype Point = Point(processed: int, original: int)

  // 100 ms of silence between segments.
  const SILENCE := 1600

  /* ---- building the table ---- */

  // The part of segment i that is copied, in samples: from, end without overlap, end with it.
  function From(g: Segment, n: nat): int { Min(CS * g.start, n - 1) }

  function To(g: Segment, n: nat): int { Min(CS * g.end, n - 1) }

  function ToWithOverlap(segs: seq<Segment>, i: nat, n: nat, overlap: nat): int
    requires i < |segs|
  {
    if i < |segs| - 1 then Min(To(segs[i], n) + overlap, n - 1) else To(segs[i], n)
  }

  function Copied(segs: seq<Segment>, i: nat, n: nat, overlap: nat): int
    requires i < |segs|
  {
    ToWithOverlap(segs, i, n, overlap) - From(segs[i], n)
  }

  // The position in the filtered audio after the first k segments.
  function Offset(segs: seq<Segment>, k: nat, n: nat, overlap: nat): (r: nat)
    requires k <= |segs|
  {
    if k == 0 then 0
    else
      var before, copied := Offset(segs, k - 1, n, overlap), Copied(segs, k - 1, n, overlap);
      if copied <= 0 then before else before + copied + if k < |segs| then SILENCE else 0
  }

  // How much of that is the segment itself.
  function Length(g: Segment, n: nat): int { To(g, n) - From(g, n) }

  // What segment i adds at position `offset`: its two ends, and the two ends of the silence
  // after it.
  function PointsOf(segs: seq<Segment>, i: nat, n: nat, overlap: nat, offset: nat): seq<Point>
    requires i < |segs|
  {
    if Copied(segs, i, n, overlap) <= 0 || Length(segs[i], n) < 0 then []
    else
      var end := offset + Copied(segs, i, n, overlap);
      [Point(SamplesToCs(offset), segs[i].start), Point(SamplesToCs(offset + Length(segs[i], n)), segs[i].end)]
      + if i < |segs| - 1 then
          [Point(SamplesToCs(end), segs[i].end), Point(SamplesToCs(end + SILENCE), segs[i + 1].start)]
        else []
  }

  function Points(segs: seq<Segment>, k: nat, n: nat, overlap: nat): seq<Point>
    requires k <= |segs|
  {
    if k == 0 then []
    else Points(segs, k - 1, n, overlap) + PointsOf(segs, k - 1, n, overlap, Offset(segs, k - 1, n, overlap))
  }

  // Detected segments: in order and apart, in centiseconds.
  predicate InOrder(segs: seq<Segment>) {
    && (forall i :: 0 <= i < |segs| ==> 0 <= segs[i].start <= segs[i].end)
    && forall i :: 0 < i < |segs| ==> Gap(segs, i) >= 0
  }

  lemma TimedInOrder(segs: seq<Segment>, length: nat)
    requires Timed(segs, length)
    ensures InOrder(segs)
  {
  }

  /* ---- what the points satisfy ---- */

  // Both times rise from point to point.
  predicate Rising(points: seq<Point>) {
    forall i, j :: 0 <= i < j < |points| ==>
      points[i].processed <= points[j].processed && points[i].original <= points[j].original
  }

  predicate Within(points: seq<Point>, low: Point, high: Point) {
    forall i :: 0 <= i < |points| ==>
      low.processed <= points[i].processed <= high.processed && low.original <= points[i].original <= high.original
  }

  // The original time reached after the first k segments.
  function Reached(segs: seq<Segment>, k: nat): int
    requires k <= |segs|
  {
    if k < |segs| then segs[k].start else if k == 0 then 0 else segs[k - 1].end
  }

  // Where both times stand after the first k segments.
  function Front(segs: seq<Segment>, k: nat, n: nat, overlap: nat): Point
    requires k <= |segs|
  {
    Point(SamplesToCs(Offset(segs, k, n, overlap)), Reached(segs, k))
  }

  lemma TwoRising(p: Point, q: Point, low: Point)
    requires low.processed <= p.processed <= q.processed && low.original <= p.original <= q.original
    ensures Rising([p, q]) && Within([p, q], low, q)
  {
  }

  lemma AppendRising(a: seq<Point>, b: seq<Point>, low: Point, mid: Point, high: Point)
    requires Rising(a) && Within(a, low, mid) && Rising(b) && Within(b, mid, high)
    requires low.processed <= mid.processed <= high.processed && low.original <= mid.original <= high.original
    ensures Rising(a + b) && Within(a + b, low, high)
  {
    forall i, j | 0 <= i < j < |a + b|
      ensures (a + b)[i].processed <= (a + b)[j].processed && (a + b)[i].original <= (a + b)[j].original
    {
      var p, q := (a + b)[i], (a + b)[j];
      if i < |a| <= j {
        assert a[i] == p && b[j - |a|] == q;
      } else if j < |a| {
        assert a[i] == p && a[j] == q;
      } else {
        assert b[i - |a|] == p && b[j - |a|] == q;
      }
    }
  }

  lemma LengthCopied(segs: seq<Segment>, i: nat, n: nat, overlap: nat)
    requires i < |segs| && segs[i].start <= segs[i].end
    ensures 0 <= Length(segs[i], n)
    ensures Copied(segs, i, n, overlap) > 0 ==> Length(segs[i], n) <= Copied(segs, i, n, overlap)
  {
  }

  // What a copied segment pushes, and where that leaves both times.
  lemma CopiedPoints(segs: seq<Segment>, i: nat, n: nat, overlap: nat) returns (q: Point, r: Point)
    requires i < |segs| && InOrder(segs) && Copied(segs, i, n, overlap) > 0
    ensures var offset, end := Offset(segs, i, n, overlap), segs[i].end;
            && q == Point(SamplesToCs(offset + Length(segs[i], n)), end)
            && r == Point(SamplesToCs(offset + Copied(segs, i, n, overlap)), end)
            && Front(segs, i + 1, n, overlap).processed
               == SamplesToCs(offset + Copied(segs, i, n, overlap) + if i + 1 < |segs| then SILENCE else 0)
            && PointsOf(segs, i, n, overlap, offset)
               == if i + 1 < |segs| then [Front(segs, i, n, overlap), q, r, Front(segs, i + 1, n, overlap)]
                  else [Front(segs, i, n, overlap), q]
  {
    hide SamplesToCs, Length, Copied;
    LengthCopied(segs, i, n, overlap);
    var offset := Offset(segs, i, n, overlap);
    q := Point(SamplesToCs(offset + Length(segs[i], n)), segs[i].end);
    r := Point(SamplesToCs(offset + Copied(segs, i, n, overlap)), segs[i].end);
  }

  // It moves both times forward.
  lemma CopiedOrder(segs: seq<Segment>, i: nat, n: nat, overlap: nat)
    requires i < |segs| && InOrder(segs) && Copied(segs, i, n, overlap) > 0
    ensures var offset, length, copied := Offset(segs, i, n, overlap), Length(segs[i], n), Copied(segs, i, n, overlap);
            && SamplesToCs(offset) <= SamplesToCs(offset + length) <= SamplesToCs(offset + copied)
            && SamplesToCs(offset + copied) <= SamplesToCs(offset + copied + SILENCE)
    ensures Front(segs, i, n, overlap).original <= segs[i].end <= Front(segs, i + 1, n, overlap).original
  {
    hide SamplesToCs, Length, Copied, Offset;
    LengthCopied(segs, i, n, overlap);
    var offset, length, copied := Offset(segs, i, n, overlap), Length(segs[i], n), Copied(segs, i, n, overlap);
    RoundingMonotone(offset, offset + length);
    RoundingMonotone(offset + length, offset + copied);
    RoundingMonotone(offset + copied, offset + copied + SILENCE);
    if i + 1 < |segs| {
      assert Gap(segs, i + 1) >= 0;
    }
  }

  lemma UncopiedPoints(segs: seq<Segment>, i: nat, n: nat, overlap: nat)
    requires i < |segs| && InOrder(segs) && Copied(segs, i, n, overlap) <= 0
    ensures PointsOf(segs, i, n, overlap, Offset(segs, i, n, overlap)) == []
    ensures Front(segs, i + 1, n, overlap).processed == Front(segs, i, n, overlap).processed
    ensures Front(segs, i + 1, n, overlap).original >= Front(segs, i, n, overlap).original
  {
    hide SamplesToCs, Length, Copied;
    if i + 1 < |segs| {
      assert Gap(segs, i + 1) >= 0;
    }
  }

  lemma FrontIsOffset(segs: seq<Segment>, i: nat, n: nat, overlap: nat)
    requires i <= |segs|
    ensures Front(segs, i, n, overlap).processed == SamplesToCs(Offset(segs, i, n, overlap))
  {
  }

  lemma FourRising(p: Point, q: Point, r: Point, high: Point)
    requires p.processed <= q.processed <= r.processed <= high.processed
    requires p.original <= q.original <= r.original <= high.original
    ensures Rising([p, q, r, high]) && Within([p, q, r, high], p, high)
  {
  }

  // Segment i moves both times forward.
  lemma SegmentRises(segs: seq<Segment>, i: nat, n: nat, overlap: nat)
    requires i < |segs| && InOrder(segs)
    ensures var points := PointsOf(segs, i, n, overlap, Offset(segs, i, n, overlap));
            var low, high := Front(segs, i, n, overlap), Front(segs, i + 1, n, overlap);
            && Rising(points) && Within(points, low, high)
            && low.processed <= high.processed && low.original <= high.original
  {
    hide InOrder, Copied, PointsOf, Offset, Front, Rising, Within, SamplesToCs, Length;
    var points := PointsOf(segs, i, n, overlap, Offset(segs, i, n, overlap));
    var low, high := Front(segs, i, n, overlap), Front(segs, i + 1, n, overlap);
    if Copied(segs, i, n, overlap) <= 0 {
      UncopiedPoints(segs, i, n, overlap);
      NothingRises(low, high);
    } else {
      var q, r := CopiedPoints(segs, i, n, overlap);
      CopiedOrder(segs, i, n, overlap);
      FrontIsOffset(segs, i, n, overlap);
      if i + 1 < |segs| {
        FourRising(low, q, r, high);
      } else {
        TwoRising(low, q, low);
        WidenHigh(points, low, q, high);
      }
    }
  }

  lemma WidenHigh(points: seq<Point>, low: Point, mid: Point, high: Point)
    requires Within(points, low, mid) && mid.processed <= high.processed && mid.original <= high.original
    ensures Within(points, low, high)
  {
  }

  lemma NothingRises(low: Point, high: Point)
    ensures Rising([]) && Within([], low, high)
  {
  }

  lemma NothingYet(segs: seq<Segment>, n: nat, overlap: nat)
    ensures Rising(Points(segs, 0, n, overlap))
    ensures Within(Points(segs, 0, n, overlap), Front(segs, 0, n, overlap), Front(segs, 0, n, overlap))
  {
  }

  lemma PointsStep(segs: seq<Segment>, k: nat, n: nat, overlap: nat)
    requires k < |segs|
    ensures Points(segs, k + 1, n, overlap)
         == Points(segs, k, n, overlap) + PointsOf(segs, k, n, overlap, Offset(segs, k, n, overlap))
  {
  }

  // As pushed, both times rise, so sorting has nothing to do but may reorder equal times.
  lemma {:induction false} PointsRise(segs: seq<Segment>, k: nat, n: nat, overlap: nat)
    requires k <= |segs| && InOrder(segs)
    ensures Rising(Points(segs, k, n, overlap))
    ensures Within(Points(segs, k, n, overlap), Front(segs, 0, n, overlap), Front(segs, k, n, overlap))
    ensures Front(segs, 0, n, overlap).processed <= Front(segs, k, n, overlap).processed
    ensures Front(segs, 0, n, overlap).original <= Front(segs, k, n, overlap).original
  {
    hide Rising, Within, Front, PointsOf, Points, InOrder, Offset;
    if k == 0 {
      NothingYet(segs, n, overlap);
    } else {
      PointsRise(segs, k - 1, n, overlap);
      SegmentRises(segs, k - 1, n, overlap);
      PointsStep(segs, k - 1, n, overlap);
      AppendRising(Points(segs, k - 1, n, overlap), PointsOf(segs, k - 1, n, overlap, Offset(segs, k - 1, n, overlap)),
                   Front(segs, 0, n, overlap), Front(segs, k - 1, n, overlap), Front(segs, k, n, overlap));
    }
  }

  /* ---- segments that are not clamped to the end of the audio ---- */

  predicate Unclamped(g: Segment, n: nat) {
    g.start < g.end && CS * g.end <= n - 1
  }

  lemma RoundingShifts(a: nat, d: nat)
    ensures SamplesToCs(a + CS * d) == SamplesToCs(a) + d
  {
  }

  // The points of such a segment: its two ends are exactly its duration apart, and the silence
  // after it is 10 centiseconds.
  lemma UnclampedPoints(segs: seq<Segment>, i: nat, n: nat, overlap: nat)
    requires i < |segs| && InOrder(segs) && Unclamped(segs[i], n)
    ensures var offset := Offset(segs, i, n, overlap);
            var p, high := Front(segs, i, n, overlap), Front(segs, i + 1, n, overlap);
            var q := Point(p.processed + segs[i].end - segs[i].start, segs[i].end);
            var points := PointsOf(segs, i, n, overlap, offset);
            && p.processed < q.processed <= high.processed
            && p.original == segs[i].start
            && if i + 1 < |segs| then
                 q.processed + 10 <= high.processed && points == [p, q, Point(high.processed - 10, segs[i].end), high]
               else points == [p, q]
  {
    hide SamplesToCs;
    var g, offset, copied := segs[i], Offset(segs, i, n, overlap), Copied(segs, i, n, overlap);
    assert Length(g, n) == CS * (g.end - g.start);
    LengthCopied(segs, i, n, overlap);
    RoundingShifts(offset, g.end - g.start);
    RoundingMonotone(offset + Length(g, n), offset + copied);
    RoundingShifts(offset + copied, 10);
    hide Length, Copied;
  }

  // Every point is before the front, or is the front.
  ghost predicate EndsAt(points: seq<Point>, front: Point) {
    forall p :: p in points ==> p.processed < front.processed || p == front
  }

  // Points with the same processed time are the same.
  ghost predicate Agree(points: seq<Point>) {
    forall p, q :: p in points && q in points && p.processed == q.processed ==> p == q
  }

  lemma {:induction false} FrontExact(segs: seq<Segment>, k: nat, n: nat, overlap: nat)
    requires k < |segs| && InOrder(segs) && forall j :: 0 <= j < k ==> Unclamped(segs[j], n)
    ensures EndsAt(Points(segs, k, n, overlap), Front(segs, k, n, overlap))
    ensures Agree(Points(segs, k, n, overlap))
  {
    hide Points, PointsOf, Front, Offset, InOrder, Unclamped, EndsAt, Agree;
    if k == 0 {
      NoPoints(segs, n, overlap);
    } else {
      FrontExact(segs, k - 1, n, overlap);
      FrontStep(segs, k - 1, n, overlap);
    }
  }

  lemma NoPoints(segs: seq<Segment>, n: nat, overlap: nat)
    ensures EndsAt(Points(segs, 0, n, overlap), Front(segs, 0, n, overlap)) && Agree(Points(segs, 0, n, overlap))
  {
  }

  lemma FrontStep(segs: seq<Segment>, k: nat, n: nat, overlap: nat)
    requires k + 1 < |segs| && InOrder(segs) && Unclamped(segs[k], n)
    requires EndsAt(Points(segs, k, n, overlap), Front(segs, k, n, overlap)) && Agree(Points(segs, k, n, overlap))
    ensures EndsAt(Points(segs, k + 1, n, overlap), Front(segs, k + 1, n, overlap))
            && Agree(Points(segs, k + 1, n, overlap))
  {
    hide Points, PointsOf, Front, Offset, InOrder, Unclamped, EndsAt, Agree;
    UnclampedPoints(segs, k, n, overlap);
    PointsStep(segs, k, n, overlap);
    AgreeStep(Points(segs, k, n, overlap), Front(segs, k, n, overlap),
              PointsOf(segs, k, n, overlap, Offset(segs, k, n, overlap)), segs[k], Front(segs, k + 1, n, overlap));
  }

  lemma AgreeStep(points: seq<Point>, p: Point, more: seq<Point>, g: Segment, high: Point)
    requires EndsAt(points, p) && Agree(points)
    requires var q := Point(p.processed + g.end - g.start, g.end);
             p.processed < q.processed && q.processed + 10 <= high.processed
             && more == [p, q, Point(high.processed - 10, g.end), high]
    ensures EndsAt(points + more, high) && Agree(points + more)
  {
    var q, r := Point(p.processed + g.end - g.start, g.end), Point(high.processed - 10, g.end);
    forall x | x in more
      ensures x == p || x == q || x == r || x == high
    {
    }
    forall x | x in points + more
      ensures x in points || x == p || x == q || x == r || x == high
    {
    }
  }

  // Without clamping, equal processed times mean equal points.
  lemma PointsAgree(segs: seq<Segment>, n: nat, overlap: nat)
    requires InOrder(segs) && forall j :: 0 <= j < |segs| ==> Unclamped(segs[j], n)
    ensures Agree(Points(segs, |segs|, n, overlap))
  {
    hide Points, PointsOf, Front, Offset, InOrder, Unclamped, EndsAt, Agree;
    if segs == [] {
      NoPoints(segs, n, overlap);
    } else {
      var k := |segs| - 1;
      FrontExact(segs, k, n, overlap);
      UnclampedPoints(segs, k, n, overlap);
      PointsStep(segs, k, n, overlap);
      var p := Front(segs, k, n, overlap);
      AgreeLast(Points(segs, k, n, overlap), p, Point(p.processed + segs[k].end - segs[k].start, segs[k].end));
    }
  }

  lemma AgreeLast(points: seq<Point>, p: Point, q: Point)
    requires EndsAt(points, p) && Agree(points) && p.processed < q.processed
    ensures Agree(points + [p, q])
  {
    forall x | x in points + [p, q]
      ensures x in points || x == p || x == q
    {
    }
  }

  // p and q are points, and no other point is between them or at odds with them.
  ghost predicate Adjacent(points: seq<Point>, p: Point, q: Point) {
    && p in points && q in points && p.processed < q.processed
    && forall x :: x in points ==> x.processed < p.processed || x == p || x == q || q.processed < x.processed
  }

  lemma {:induction false} LaterPoints(segs: seq<Segment>, i: nat, k: nat, n: nat, overlap: nat, x: Point)
    requires i <= k <= |segs| && InOrder(segs) && x in Points(segs, k, n, overlap)
    ensures x in Points(segs, i, n, overlap) || x.processed >= Front(segs, i, n, overlap).processed
    ensures Front(segs, i, n, overlap).processed <= Front(segs, k, n, overlap).processed
    decreases k
  {
    hide Front, PointsOf, InOrder, Points, Rising, Within, Offset;
    if i < k {
      PointsStep(segs, k - 1, n, overlap);
      SegmentRises(segs, k - 1, n, overlap);
      FrontGrows(segs, i, k - 1, n, overlap);
      var more := PointsOf(segs, k - 1, n, overlap, Offset(segs, k - 1, n, overlap));
      if x in Points(segs, k - 1, n, overlap) {
        LaterPoints(segs, i, k - 1, n, overlap, x);
      } else {
        MemberWithin(more, Front(segs, k - 1, n, overlap), Front(segs, k, n, overlap), x);
      }
    }
  }

  lemma MemberWithin(points: seq<Point>, low: Point, high: Point, x: Point)
    requires Within(points, low, high) && x in points
    ensures low.processed <= x.processed <= high.processed
  {
  }

  lemma {:induction false} FrontGrows(segs: seq<Segment>, i: nat, k: nat, n: nat, overlap: nat)
    requires i <= k <= |segs| && InOrder(segs)
    ensures Front(segs, i, n, overlap).processed <= Front(segs, k, n, overlap).processed
    decreases k
  {
    if i < k {
      FrontGrows(segs, i, k - 1, n, overlap);
      SegmentRises(segs, k - 1, n, overlap);
    }
  }

  lemma {:induction false} EarlierPoints(segs: seq<Segment>, i: nat, k: nat, n: nat, overlap: nat, x: Point)
    requires i <= k <= |segs| && x in Points(segs, i, n, overlap)
    ensures x in Points(segs, k, n, overlap)
    decreases k
  {
    if i < k {
      hide Points, PointsOf;
      PointsStep(segs, k - 1, n, overlap);
      EarlierPoints(segs, i, k - 1, n, overlap, x);
    }
  }

  // The two ends of an unclamped segment are adjacent in the whole table.
  lemma SegmentAdjacent(segs: seq<Segment>, i: nat, n: nat, overlap: nat) returns (p: Point, q: Point)
    requires i < |segs| && InOrder(segs) && forall j :: 0 <= j <= i ==> Unclamped(segs[j], n)
    ensures Adjacent(Points(segs, |segs|, n, overlap), p, q)
    ensures p == Point(SamplesToCs(Offset(segs, i, n, overlap)), segs[i].start)
    ensures q == Point(p.processed + segs[i].end - segs[i].start, segs[i].end)
  {
    hide Points, PointsOf, Offset, InOrder, Unclamped, EndsAt, Agree;
    FrontExact(segs, i, n, overlap);
    UnclampedPoints(segs, i, n, overlap);
    PointsStep(segs, i, n, overlap);
    p := Front(segs, i, n, overlap);
    q := Point(p.processed + segs[i].end - segs[i].start, segs[i].end);
    var before, more := Points(segs, i, n, overlap), PointsOf(segs, i, n, overlap, Offset(segs, i, n, overlap));
    var high := Front(segs, i + 1, n, overlap);
    hide Front;
    AdjacentHere(before, p, q, more, high);
    EarlierPoints(segs, i + 1, |segs|, n, overlap, p);
    EarlierPoints(segs, i + 1, |segs|, n, overlap, q);
    forall x | x in Points(segs, |segs|, n, overlap)
      ensures x.processed < p.processed || x == p || x == q || q.processed < x.processed
    {
      LaterPoints(segs, i + 1, |segs|, n, overlap, x);
    }
  }

  lemma AdjacentHere(points: seq<Point>, p: Point, q: Point, more: seq<Point>, high: Point)
    requires EndsAt(points, p) && p.processed < q.processed
    requires more == [p, q]
             || (q.processed + 10 <= high.processed && more == [p, q, Point(high.processed - 10, q.original), high])
    ensures Adjacent(points + more, p, q)
  {
    assert more[0] == p && more[1] == q;
    forall x | x in points + more
      ensures x in points || x == p || x == q || (|more| == 4 && (x == more[2] || x == high))
    {
    }
  }

  // After an unclamped segment that is followed by another one come the overlap, in which the
  // original time stands still, and the silence: q to r and r to h are adjacent in the table.
  lemma SilenceAdjacent(segs: seq<Segment>, i: nat, n: nat, overlap: nat) returns (q: Point, r: Point, h: Point)
    requires i + 1 < |segs| && InOrder(segs) && forall j :: 0 <= j <= i + 1 ==> Unclamped(segs[j], n)
    ensures q == Point(SamplesToCs(Offset(segs, i, n, overlap)) + segs[i].end - segs[i].start, segs[i].end)
    ensures h == Point(SamplesToCs(Offset(segs, i + 1, n, overlap)), segs[i + 1].start)
    ensures r == Point(h.processed - 10, segs[i].end) && q.processed <= r.processed
    ensures Adjacent(Points(segs, |segs|, n, overlap), r, h)
    ensures q != r ==> Adjacent(Points(segs, |segs|, n, overlap), q, r)
  {
    hide Points, PointsOf, Offset, InOrder, Unclamped, EndsAt, Agree, SamplesToCs;
    FrontExact(segs, i, n, overlap);
    UnclampedPoints(segs, i, n, overlap);
    UnclampedPoints(segs, i + 1, n, overlap);
    PointsStep(segs, i, n, overlap);
    PointsStep(segs, i + 1, n, overlap);
    var p := Front(segs, i, n, overlap);
    h := Front(segs, i + 1, n, overlap);
    q, r := Point(p.processed + segs[i].end - segs[i].start, segs[i].end), Point(h.processed - 10, segs[i].end);
    var high := Front(segs, i + 2, n, overlap);
    var before, more := Points(segs, i, n, overlap), PointsOf(segs, i + 1, n, overlap, Offset(segs, i + 1, n, overlap));
    hide Front;
    forall x | x == q || x == r || x == h
      ensures x in Points(segs, |segs|, n, overlap)
    {
      assert x in before + [p, q, r, h];
      EarlierPoints(segs, i + 1, |segs|, n, overlap, x);
    }
    forall x | x in Points(segs, |segs|, n, overlap)
      ensures x.processed < q.processed || x == q || x == r || x == h || h.processed < x.processed
    {
      LaterPoints(segs, i + 2, |segs|, n, overlap, x);
      if x in Points(segs, i + 2, n, overlap) {
        SilenceHere(before, [p, q, r, h], more, p, h, segs[i + 1], high, x);
      }
    }
  }

  lemma SilenceHere(before: seq<Point>, four: seq<Point>, more: seq<Point>, p: Point, h: Point, g: Segment, high: Point,
                    x: Point)
    requires EndsAt(before, p) && x in before + four + more && g.start < g.end
    requires var q := Point(h.processed + g.end - g.start, g.end);
             more == [h, q] || (q.processed + 10 <= high.processed
                                && more == [h, q, Point(high.processed - 10, g.end), high])
    ensures x.processed < p.processed || x == p || x in four || h.processed < x.processed || x == h
  {
    if x in more {
      assert x == more[0] || x == more[1] || (|more| == 4 && (x == more[2] || x == more[3]));
    } else {
      assert x in before || x in four;
    }
  }

  /* ---- copying the speech ---- */

  // What one segment adds to the filtered audio.
  function Piece(segs: seq<Segment>, samples: seq<real>, i: nat, overlap: nat): (r: seq<real>)
    requires i < |segs| && InOrder(segs)
    ensures |r| == if Copied(segs, i, |samples|, overlap) <= 0 then 0
                   else Copied(segs, i, |samples|, overlap) + if i < |segs| - 1 then SILENCE else 0
  {
    var n := |samples|;
    if Copied(segs, i, n, overlap) <= 0 then []
    else
      samples[From(segs[i], n)..ToWithOverlap(segs, i, n, overlap)]
          + if i < |segs| - 1 then seq(SILENCE, j => 0.0) else []
  }

  // The audio of the first k segments, each followed by silence except the last.
  function Filtered(segs: seq<Segment>, samples: seq<real>, k: nat, overlap: nat): (r: seq<real>)
    requires k <= |segs| && InOrder(segs)
    ensures |r| == Offset(segs, k, |samples|, overlap)
  {
    if k == 0 then [] else Filtered(segs, samples, k - 1, overlap) + Piece(segs, samples, k - 1, overlap)
  }

  // The points of the table and the filtered audio, segment by segment.
  method CopySpeech(segs: seq<Segment>, samples: seq<real>, overlap: nat)
    returns (points: seq<Point>, filtered: seq<real>)
    requires InOrder(segs)
    ensures points == Points(segs, |segs|, |samples|, overlap)
    ensures filtered == Filtered(segs, samples, |segs|, overlap)
  {
    var offset := 0;
    points, filtered := [], [];
    hide Copied, Length, InOrder, SamplesToCs, PointsOf, Piece;
    for i := 0 to |segs|
      invariant offset == Offset(segs, i, |samples|, overlap) && points == Points(segs, i, |samples|, overlap)
      invariant filtered == Filtered(segs, samples, i, overlap)
    {
      var morePoints, moreAudio := CopySegment(segs, i, samples, overlap, offset);
      points, filtered, offset := points + morePoints, filtered + moreAudio, offset + |moreAudio|;
    }
  }

  // One segment, and the silence after it.
  method CopySegment(segs: seq<Segment>, i: nat, samples: seq<real>, overlap: nat, offset: nat)
    returns (points: seq<Point>, audio: seq<real>)
    requires InOrder(segs) && i < |segs|
    ensures points == PointsOf(segs, i, |samples|, overlap, offset)
    ensures audio == Piece(segs, samples, i, overlap)
  {
    var n := |samples|;
    points, audio := [], [];
    var start, end := Min(CS * segs[i].start, n - 1), Min(CS * segs[i].end, n - 1);
    var originalLength := end - start;
    if i < |segs| - 1 {
      end := Min(end + overlap, n - 1);
    }
    var length := end - start;
    assert length == Copied(segs, i, n, overlap) && originalLength == Length(segs[i], n);
    LengthCopied(segs, i, n, overlap);
    hide Copied, Length, SamplesToCs;
    if length > 0 {
      points := [Point(SamplesToCs(offset), segs[i].start), Point(SamplesToCs(offset + originalLength), segs[i].end)];
      audio := samples[start..end];
      var position := offset + length;
      if i < |segs| - 1 {
        points := points + [Point(SamplesToCs(position), segs[i].end),
                            Point(SamplesToCs(position + SILENCE), segs[i + 1].start)];
        audio := audio + seq(SILENCE, j => 0.0);
      }
    }
  }

  lemma PieceAt(segs: seq<Segment>, samples: seq<real>, i: nat, overlap: nat, j: nat)
    requires InOrder(segs) && i < |segs| && j < Copied(segs, i, |samples|, overlap)
    ensures 0 <= From(segs[i], |samples|) + j < |samples| && j < |Piece(segs, samples, i, overlap)|
    ensures Piece(segs, samples, i, overlap)[j] == samples[From(segs[i], |samples|) + j]
  {
  }

  // The processed position Offset + j of a segment holds the sample at From + j of the original.
  lemma {:induction false} FilteredAt(segs: seq<Segment>, samples: seq<real>, i: nat, k: nat, overlap: nat, j: nat)
    requires InOrder(segs) && i < k <= |segs| && j < Copied(segs, i, |samples|, overlap)
    ensures Offset(segs, i, |samples|, overlap) + j < Offset(segs, k, |samples|, overlap)
    ensures 0 <= From(segs[i], |samples|) + j < |samples|
    ensures Filtered(segs, samples, k, overlap)[Offset(segs, i, |samples|, overlap) + j]
            == samples[From(segs[i], |samples|) + j]
    decreases k
  {
    hide Piece, InOrder, Copied, From;
    assert Filtered(segs, samples, k, overlap)
           == Filtered(segs, samples, k - 1, overlap) + Piece(segs, samples, k - 1, overlap);
    if i < k - 1 {
      FilteredAt(segs, samples, i, k - 1, overlap, j);
    } else {
      PieceAt(segs, samples, i, overlap, j);
    }
  }

  // After a copied segment that is not the last, the filtered audio is silent.
  lemma {:induction false} SilenceAt(segs: seq<Segment>, samples: seq<real>, i: nat, k: nat, overlap: nat, j: nat)
    requires InOrder(segs) && i < k <= |segs| && i + 1 < |segs| && Copied(segs, i, |samples|, overlap) > 0
    requires j < SILENCE
    ensures Offset(segs, i, |samples|, overlap) + Copied(segs, i, |samples|, overlap) + j
            < Offset(segs, k, |samples|, overlap)
    ensures Filtered(segs, samples, k, overlap)[Offset(segs, i, |samples|, overlap)
                                                + Copied(segs, i, |samples|, overlap) + j] == 0.0
    decreases k
  {
    hide InOrder, From, Copied, Piece;
    assert Filtered(segs, samples, k, overlap)
           == Filtered(segs, samples, k - 1, overlap) + Piece(segs, samples, k - 1, overlap);
    if i < k - 1 {
      SilenceAt(segs, samples, i, k - 1, overlap, j);
    } else {
      PieceSilence(segs, samples, i, overlap, j);
    }
  }

  lemma PieceSilence(segs: seq<Segment>, samples: seq<real>, i: nat, overlap: nat, j: nat)
    requires InOrder(segs) && i + 1 < |segs| && Copied(segs, i, |samples|, overlap) > 0 && j < SILENCE
    ensures Copied(segs, i, |samples|, overlap) + j < |Piece(segs, samples, i, overlap)|
    ensures Piece(segs, samples, i, overlap)[Copied(segs, i, |samples|, overlap) + j] == 0.0
  {
    hide InOrder;
  }

  // All that the filtered audio holds for an unclamped segment: the segment itself and, if another
  // one follows, as much of the overlap as there is audio, and 100 ms of silence before the next.
  lemma SegmentAudio(segs: seq<Segment>, samples: seq<real>, i: nat, overlap: nat)
    requires InOrder(segs) && i < |segs| && Unclamped(segs[i], |samples|)
    ensures var all, g := Filtered(segs, samples, |segs|, overlap), segs[i];
            var more := if i + 1 < |segs| then Min(overlap, |samples| - 1 - CS * g.end) else 0;
            var start, length := Offset(segs, i, |samples|, overlap), CS * (g.end - g.start) + more;
            && 0 <= length && start + length <= |all| && CS * g.end + more < |samples|
            && all[start..start + length] == samples[CS * g.start..CS * g.end + more]
            && (i + 1 < |segs| ==>
                 && Offset(segs, i + 1, |samples|, overlap) == start + length + 1600 <= |all|
                 && forall j :: start + length <= j < start + length + 1600 ==> all[j] == 0.0)
  {
    hide Filtered, Copied, From, Offset, InOrder, Unclamped;
    var n, g := |samples|, segs[i];
    var more := UnclampedCopied(segs, i, n, overlap);
    var start, length := Offset(segs, i, n, overlap), Copied(segs, i, n, overlap);
    var all := Filtered(segs, samples, |segs|, overlap);
    OffsetWithin(segs, i, n, overlap);
    forall j | start <= j < start + length
      ensures all[j] == samples[CS * g.start + (j - start)]
    {
      FilteredAt(segs, samples, i, |segs|, overlap, j - start);
    }
    SameSlice(all, samples, start, CS * g.start, length);
    if i + 1 < |segs| {
      forall j | start + length <= j < start + length + SILENCE
        ensures j < |all| && all[j] == 0.0
      {
        SilenceAt(segs, samples, i, |segs|, overlap, j - start - length);
      }
    }
  }

  lemma UnclampedCopied(segs: seq<Segment>, i: nat, n: nat, overlap: nat) returns (more: nat)
    requires InOrder(segs) && i < |segs| && Unclamped(segs[i], n)
    ensures more == if i + 1 < |segs| then Min(overlap, n - 1 - CS * segs[i].end) else 0
    ensures From(segs[i], n) == CS * segs[i].start && CS * segs[i].end + more < n
    ensures Copied(segs, i, n, overlap) == CS * (segs[i].end - segs[i].start) + more > 0
    ensures 0 <= segs[i].start < segs[i].end
  {
    more := if i + 1 < |segs| then Min(overlap, n - 1 - CS * segs[i].end) else 0;
  }

  lemma SameSlice<T>(a: seq<T>, b: seq<T>, x: nat, y: nat, n: nat)
    requires x + n <= |a| && y + n <= |b| && forall j :: x <= j < x + n ==> a[j] == b[y + (j - x)]
    ensures a[x..x + n] == b[y..y + n]
  {
  }

  lemma {:induction false} OffsetWithin(segs: seq<Segment>, i: nat, n: nat, overlap: nat)
    requires i < |segs| && Copied(segs, i, n, overlap) > 0
    ensures Offset(segs, i, n, overlap) + Copied(segs, i, n, overlap) <= Offset(segs, |segs|, n, overlap)
    ensures Offset(segs, i + 1, n, overlap) <= Offset(segs, |segs|, n, overlap)
    ensures i + 1 < |segs| ==>
              Offset(segs, i + 1, n, overlap) == Offset(segs, i, n, overlap) + Copied(segs, i, n, overlap) + SILENCE
  {
    OffsetGrows(segs, i + 1, |segs|, n, overlap);
  }

  lemma {:induction false} OffsetGrows(segs: seq<Segment>, i: nat, k: nat, n: nat, overlap: nat)
    requires i <= k <= |segs|
    ensures Offset(segs, i, n, overlap) <= Offset(segs, k, n, overlap)
    decreases k
  {
    if i < k {
      OffsetGrows(segs, i, k - 1, n, overlap);
    }
  }

  // The size the buffer for the filtered audio is given.
  function Contribution(segs: seq<Segment>, i: nat, n: nat, overlap: nat): int
    requires i < |segs|
  {
    Min(CS * segs[i].end + (if i < |segs| - 1 then overlap else 0), n - 1) - CS * segs[i].start
  }

  function Contributions(segs: seq<Segment>, k: nat, n: nat, overlap: nat): int
    requires k <= |segs|
  {
    if k == 0 then 0 else Contributions(segs, k - 1, n, overlap) + Contribution(segs, k - 1, n, overlap)
  }

  function Needed(segs: seq<Segment>, n: nat, overlap: nat): int {
    Contributions(segs, |segs|, n, overlap) + if |segs| > 1 then (|segs| - 1) * SILENCE else 0
  }

  // How far segment i starts past the last sample.
  function Excess(g: Segment, n: nat): nat {
    if CS * g.start > n - 1 then CS * g.start - (n - 1) else 0
  }

  function Excesses(segs: seq<Segment>, k: nat, n: nat): nat
    requires k <= |segs|
  {
    if k == 0 then 0 else Excesses(segs, k - 1, n) + Excess(segs[k - 1], n)
  }

  // The segments before the last among the first k that copy nothing, and so get no silence.
  function Silent(segs: seq<Segment>, k: nat, n: nat, overlap: nat): nat
    requires k <= |segs|
  {
    if k == 0 then 0
    else Silent(segs, k - 1, n, overlap) + if k < |segs| && Copied(segs, k - 1, n, overlap) <= 0 then 1 else 0
  }

  // The silences reserved for the first k segments.
  function Pauses(segs: seq<Segment>, k: nat): nat
    requires k <= |segs|
  {
    if k < |segs| then k else if k == 0 then 0 else k - 1
  }

  lemma CopiedIsContribution(segs: seq<Segment>, i: nat, n: nat, overlap: nat)
    requires i < |segs| && segs[i].start <= segs[i].end
    ensures Copied(segs, i, n, overlap) == Contribution(segs, i, n, overlap) + Excess(segs[i], n)
    ensures Copied(segs, i, n, overlap) >= 0
  {
  }

  lemma {:induction false} OffsetExactly(segs: seq<Segment>, k: nat, n: nat, overlap: nat)
    requires InOrder(segs) && k <= |segs|
    ensures Offset(segs, k, n, overlap) + SILENCE * Silent(segs, k, n, overlap)
         == Contributions(segs, k, n, overlap) + Excesses(segs, k, n) + SILENCE * Pauses(segs, k)
  {
    if k > 0 {
      OffsetExactly(segs, k - 1, n, overlap);
      CopiedIsContribution(segs, k - 1, n, overlap);
      hide Contribution, Copied, InOrder, Excess;
    }
  }

  // The filtered audio needs more than its buffer by what segments start past the last sample,
  // less the silences that are not written.
  lemma FilteredSize(segs: seq<Segment>, samples: seq<real>, overlap: nat)
    requires InOrder(segs)
    ensures var n := |samples|;
            |Filtered(segs, samples, |segs|, overlap)| + SILENCE * Silent(segs, |segs|, n, overlap)
            == Needed(segs, n, overlap) + Excesses(segs, |segs|, n)
  {
    hide InOrder;
    OffsetExactly(segs, |segs|, |samples|, overlap);
  }

  // So the buffer holds everything if and only if the segments that start past the last sample
  // exceed it by no more than the silences saved.
  lemma BufferSufficesIff(segs: seq<Segment>, samples: seq<real>, overlap: nat)
    requires InOrder(segs)
    ensures |Filtered(segs, samples, |segs|, overlap)| <= Needed(segs, |samples|, overlap)
            <==> Excesses(segs, |segs|, |samples|) <= SILENCE * Silent(segs, |segs|, |samples|, overlap)
  {
    hide InOrder;
    FilteredSize(segs, samples, overlap);
  }

  // In particular if every segment starts inside the audio.
  lemma {:induction false} NoExcess(segs: seq<Segment>, k: nat, n: nat)
    requires k <= |segs| && forall i :: 0 <= i < k ==> CS * segs[i].start <= n - 1
    ensures Excesses(segs, k, n) == 0
  {
    if k > 0 {
      NoExcess(segs, k - 1, n);
      assert CS * segs[k - 1].start <= n - 1;
    }
  }

  lemma BufferSuffices(segs: seq<Segment>, samples: seq<real>, overlap: nat)
    requires InOrder(segs) && forall i :: 0 <= i < |segs| ==> CS * segs[i].start <= |samples| - 1
    ensures |Filtered(segs, samples, |segs|, overlap)| <= Needed(segs, |samples|, overlap)
  {
    hide InOrder;
    NoExcess(segs, |segs|, |samples|);
    BufferSufficesIff(segs, samples, overlap);
  }

  // It is not always: of nine frames the first and the last are speech, and the audio has only the
  // first four samples of the last one. The second segment's start is rounded past the end and
  // takes 61 samples off the buffer, but the silence before it is written all the same.
  lemma BufferTooSmall(probs: seq<real>, p: VadScan.Params, samples: seq<real>)
    requires probs == [1.0, 0.0, 0.0, 0.0, 0.0, 0.0, 0.0, 0.0, 1.0] && p == VadScan.Params(0.5, 0, 0, 30.0, 0)
    requires |samples| == 4100
    ensures var segs := InCs(Detected(probs, Configure(p, 512)));
            && segs == [Segment(0, 3), Segment(26, 29)] && InOrder(segs)
            && Needed(segs, 4100, 0) == 2019 && |Filtered(segs, samples, 2, 0)| == 2080
  {
    hide Detected, InCs, Configure, Needed, Offset;
    TwoFramesDetected(probs, p);
    TwoSegmentsOverrun([Segment(0, 3), Segment(26, 29)]);
  }

  lemma TwoSegmentsOverrun(segs: seq<Segment>)
    requires segs == [Segment(0, 3), Segment(26, 29)]
    ensures InOrder(segs) && Needed(segs, 4100, 0) == 2019 && Offset(segs, 2, 4100, 0) == 2080
  {
    assert Gap(segs, 1) == 23;
    assert Contributions(segs, 0, 4100, 0) == 0 && Contribution(segs, 0, 4100, 0) == 480
           && Contribution(segs, 1, 4100, 0) == -61;
    assert Contributions(segs, 1, 4100, 0) == 480 && Contributions(segs, 2, 4100, 0) == 419;
    assert Copied(segs, 0, 4100, 0) == 480 && Copied(segs, 1, 4100, 0) == 0;
    assert Offset(segs, 0, 4100, 0) == 0 && Offset(segs, 1, 4100, 0) == 2080;
  }

  lemma TwoFramesDetected(probs: seq<real>, p: VadScan.Params)
    requires probs == [1.0, 0.0, 0.0, 0.0, 0.0, 0.0, 0.0, 0.0, 1.0] && p == VadScan.Params(0.5, 0, 0, 30.0, 0)
    ensures InCs(Detected(probs, Configure(p, 512))) == [Segment(0, 3), Segment(26, 29)]
  {
    var c := Configure(p, 512);
    assert c.window == 512 && c.threshold == 0.5 && 0.0 < c.negThreshold <= 0.5 && c.maxSpeech >= 4608;
    assert c.minSpeech == 0 && c.minSilence == 0 && c.pad == 0;
    hide Configure;
    TwoFramesRaw(probs, c);
    var raw := [Segment(0, 512), Segment(4096, 4608)];
    TwoSegmentsStay(raw);
    hide Merged, Kept, RawSegments;
    assert Padded(raw, 0, 4608) == raw;
    assert Detected(probs, c) == raw;
  }

  lemma TwoSegmentsStay(raw: seq<Segment>)
    requires raw == [Segment(0, 512), Segment(4096, 4608)]
    ensures Merged(raw) == raw && Kept(raw, 0) == raw
  {
    var first := [raw[0]];
    assert Init(raw) == first;
    hide Init;
    MergedOne(first);
    KeptOne(first);
    assert raw == first + [raw[1]];
  }

  lemma MergedOne(segs: seq<Segment>)
    requires |segs| == 1
    ensures Merged(segs) == segs
  {
  }

  lemma KeptOne(segs: seq<Segment>)
    requires |segs| == 1 && segs[0].start <= segs[0].end
    ensures Kept(segs, 0) == segs
  {
    assert Init(segs) == [];
  }

  lemma TwoFramesRaw(probs: seq<real>, c: Settings)
    requires probs == [1.0, 0.0, 0.0, 0.0, 0.0, 0.0, 0.0, 0.0, 1.0] && c.window == 512 && c.threshold == 0.5
    requires c.maxSpeech >= 4608 && c.minSpeech == 0 && c.minSilence == 0 && 0.0 < c.negThreshold <= 0.5
    ensures RawSegments(probs, c) == [Segment(0, 512), Segment(4096, 4608)]
  {
    var s1 := START.(isSpeech := true, start := 0, hasCurr := true);
    var s2 := START.(speeches := [Segment(0, 512)]);
    assert Step(START, 1.0, 0, c) == s1 && Step(s1, 0.0, 512, c) == s2;
    var s9 := s2.(isSpeech := true, start := 4096, hasCurr := true);
    assert Step(s2, 1.0, 4096, c) == s9;
    StaysIdle(s2, c);
    hide Step;
    assert Run(probs, 0, c) == START;
    assert Run(probs, 1, c) == s1;
    assert Run(probs, 2, c) == s2;
    assert Run(probs, 3, c) == s2;
    assert Run(probs, 4, c) == s2;
    assert Run(probs, 5, c) == s2;
    assert Run(probs, 6, c) == s2;
    assert Run(probs, 7, c) == s2;
    assert Run(probs, 8, c) == s2;
    assert Run(probs, 9, c) == s9;
  }

  lemma StaysIdle(s: Scan, c: Settings)
    requires !s.isSpeech && c.threshold > 0.0
    ensures forall cur :: Step(s, 0.0, cur, c) == s
  {
  }

  // The size can even be negative: with four frames, the last one speech, of which the audio has
  // only the first 24 samples.
  lemma DetectedBufferNegative(probs: seq<real>, p: VadScan.Params)
    requires probs == [0.0, 0.0, 0.0, 1.0] && p == VadScan.Params(0.5, 0, 0, 30.0, 0)
    ensures InCs(Detected(probs, Configure(p, 512))) == [Segment(10, 13)]
    ensures Needed([Segment(10, 13)], 1560, 0) == -41
  {
    var c := Configure(p, 512);
    LastFrameRaw(probs, c);
    var raw := [Segment(1536, 2048)];
    assert c.minSpeech == 0 && c.pad == 0;
    assert Merged(raw) == raw;
    assert Init(raw) == [] && Kept(Init(raw), 0) == [] && Kept(raw, 0) == raw;
    assert Padded(raw, 0, 2048) == raw;
    assert Detected(probs, c) == raw;
    var segs := [Segment(10, 13)];
    assert Contributions(segs, 0, 1560, 0) == 0 && Contribution(segs, 0, 1560, 0) == -41;
  }

  lemma LastFrameRaw(probs: seq<real>, c: Settings)
    requires probs == [0.0, 0.0, 0.0, 1.0] && c.window == 512 && c.threshold == 0.5
    requires c.maxSpeech >= 2048 && c.minSpeech == 0
    requires 0.0 < c.negThreshold <= 0.5
    ensures RawSegments(probs, c) == [Segment(1536, 2048)]
  {
    assert Run(probs, 0, c) == START;
    assert Run(probs, 1, c) == Step(START, 0.0, 0, c) == START;
    assert Run(probs, 2, c) == Step(START, 0.0, 512, c) == START;
    assert Run(probs, 3, c) == Step(START, 0.0, 1024, c) == START;
    assert Run(probs, 4, c) == Step(START, 1.0, 1536, c);
  }
}
