/**
 Which speech the raw segments miss: exactly the frames at which an overlong segment was cut, and
 the stretches that were dropped because they were too short.
 */
module VadCoverage {
  import opened Arithmetic
  import opened VadScan

  ghost predicate Covered(segs: seq<Segment>, x: int) {
    exists i :: 0 <= i < |segs| && segs[i].start <= x < segs[i].end
  }

  // An overlong segment was cut exactly here.
  ghost predicate CutHere(segs: seq<Segment>, x: int, c: Settings) {
    exists i :: 0 <= i < |segs| && segs[i].end == x && segs[i].end - segs[i].start > c.maxSpeech
  }

  /* ---- dropped stretches ---- */

  // Where the silence found at `cur` began.
  function SilenceStart(s: Scan, cur: int): int { if s.tempEnd == 0 then cur else s.tempEnd }

  // The silence has lasted long enough, and the stretch before it is too short.
  predicate Drops(s: Scan, curr: real, cur: int, c: Settings) {
    && curr < c.negThreshold && s.isSpeech
    && cur - SilenceStart(s, cur) >= c.minSilence && SilenceStart(s, cur) - s.start <= c.minSpeech
  }

  // In this frame a stretch is dropped that contains x.
  predicate StepDrops(s0: Scan, curr: real, cur: int, c: Settings, x: int) {
    var s := Resume(s0, curr, cur, c);
    var t := Trim(s, cur, c);
    && !(curr >= c.threshold && !s.isSpeech) && !(Overlong(s, cur, c) && s.prevEnd == 0)
    && Drops(t, curr, cur, c) && t.start <= x < SilenceStart(t, cur)
  }

  // At the end of the audio a stretch is dropped that contains x.
  predicate EndDrops(s: Scan, length: int, c: Settings, x: int) {
    s.isSpeech && s.start <= x < length && length - s.start <= c.minSpeech
  }

  ghost predicate DroppedBefore(probs: seq<real>, k: nat, c: Settings, x: int)
    requires k <= |probs|
  {
    exists q: nat :: q < k && StepDrops(Run(probs, q, c), probs[q], c.window * q, c, x)
  }

  ghost predicate Dropped(probs: seq<real>, c: Settings, x: int) {
    DroppedBefore(probs, |probs|, c, x) || EndDrops(Run(probs, |probs|, c), c.window * |probs|, c, x)
  }

  /* ---- what is not dropped or cut is covered ---- */

  lemma AppendIn(segs: seq<Segment>, g: Segment, x: int, c: Settings)
    ensures Covered(segs, x) ==> Covered(segs + [g], x)
    ensures CutHere(segs, x, c) ==> CutHere(segs + [g], x, c)
    ensures g.start <= x < g.end ==> Covered(segs + [g], x)
    ensures g.end == x && x - g.start > c.maxSpeech ==> CutHere(segs + [g], x, c)
  {
    assert (segs + [g])[|segs|] == g;
    if Covered(segs, x) {
      var i :| 0 <= i < |segs| && segs[i].start <= x < segs[i].end;
      assert (segs + [g])[i] == segs[i];
    }
    if CutHere(segs, x, c) {
      var i :| 0 <= i < |segs| && segs[i].end == x && segs[i].end - segs[i].start > c.maxSpeech;
      assert (segs + [g])[i] == segs[i];
    }
  }

  ghost predicate In(segs: seq<Segment>, x: int, c: Settings) { Covered(segs, x) || CutHere(segs, x, c) }

  // The frame at x is in a segment, or in the one being built.
  ghost predicate Held(s: Scan, x: int, c: Settings) { In(s.speeches, x, c) || (s.isSpeech && s.start <= x) }

  // No speech frame at x was passed in the silence going on, or between the last long silence
  // and the speech that followed it.
  predicate QuietAt(s: Scan, x: int) {
    && (s.tempEnd != 0 ==> x < s.tempEnd)
    && (s.prevEnd != 0 && s.nextStart < s.prevEnd ==> x < s.prevEnd)
    && (s.prevEnd != 0 && s.nextStart >= s.prevEnd ==> x < s.prevEnd || s.nextStart <= x)
  }

  lemma SplitHolds(s: Scan, x: int, c: Settings)
    requires Held(s, x, c) && QuietAt(s, x) && s.prevEnd != 0
    ensures Held(Split(s), x, c) && QuietAt(Split(s), x)
  {
    AppendIn(s.speeches, Segment(s.start, s.prevEnd), x, c);
    hide Covered, CutHere;
  }

  lemma SilenceHolds(s: Scan, curr: real, cur: int, x: int, probs: seq<real>, c: Settings)
    requires Held(s, x, c) && QuietAt(s, x) && Mid(s, curr, cur, probs, c)
    requires curr < c.negThreshold ==> x < cur
    ensures Held(Silence(s, curr, cur, c), x, c)
            || (Drops(s, curr, cur, c) && s.start <= x < SilenceStart(s, cur))
    ensures QuietAt(Silence(s, curr, cur, c), x)
  {
    AppendIn(s.speeches, Segment(s.start, SilenceStart(s, cur)), x, c);
    hide Covered, CutHere, RawSegs, Speech, Silent;
  }

  lemma ResumeHolds(s: Scan, curr: real, cur: int, x: int, c: Settings)
    requires Held(s, x, c) && QuietAt(s, x) && x < cur && Fields(s, cur - c.window, c)
    ensures Held(Resume(s, curr, cur, c), x, c) && QuietAt(Resume(s, curr, cur, c), x)
  {
    hide In;
  }

  // A later frame.
  lemma StepHolds(s: Scan, curr: real, cur: int, x: int, probs: seq<real>, c: Settings)
    requires c.window > 0 && 0 <= cur && c.negThreshold <= c.threshold && x < cur
    requires Inv(s, cur - c.window, probs, c) && Held(s, x, c) && QuietAt(s, x)
    requires curr >= c.threshold ==> Speech(probs, c, cur)
    ensures Held(Step(s, curr, cur, c), x, c) || StepDrops(s, curr, cur, c, x)
    ensures QuietAt(Step(s, curr, cur, c), x)
  {
    ResumeKeeps(s, curr, cur, cur - c.window, probs, c);
    ResumeHolds(s, curr, cur, x, c);
    var r := Resume(s, curr, cur, c);
    AppendIn(r.speeches, Segment(r.start, cur), x, c);
    hide Covered, CutHere, RawSegs, Speech, Silent, Silence, Split, Resume;
    if Overlong(r, cur, c) && r.prevEnd != 0 {
      SplitKeeps(r, curr, cur, probs, c);
      SplitHolds(r, x, c);
      SilenceHolds(Split(r), curr, cur, x, probs, c);
    } else {
      SilenceHolds(r, curr, cur, x, probs, c);
    }
  }

  // The frame of speech itself.
  lemma StepCatches(s: Scan, curr: real, cur: int, probs: seq<real>, c: Settings)
    requires c.window > 0 && 0 <= cur && c.negThreshold <= c.threshold <= curr
    requires Inv(s, cur - c.window, probs, c)
    ensures var r := Step(s, curr, cur, c);
            QuietAt(r, cur) && (CutHere(r.speeches, cur, c) || (r.isSpeech && r.start <= cur))
  {
    AppendIn(s.speeches, Segment(s.start, cur), cur, c);
    hide RawSegs, Ends, Covered, CutHere;
  }

  lemma {:induction false} RunHolds(probs: seq<real>, k: nat, f: nat, c: Settings)
    requires c.window > 0 && c.negThreshold <= c.threshold
    requires f < k <= |probs| && probs[f] >= c.threshold
    ensures Held(Run(probs, k, c), c.window * f, c) || DroppedBefore(probs, k, c, c.window * f)
    ensures QuietAt(Run(probs, k, c), c.window * f)
  {
    hide Speech, Silent, Step, Inv, In, CutHere, StepDrops, QuietAt;
    var cur, x := c.window * (k - 1), c.window * f;
    assert cur - c.window == c.window * (k - 1) - c.window && 0 <= cur;
    RunKeeps(probs, k - 1, c);
    FrameKinds(probs, k - 1, c);
    var s := Run(probs, k - 1, c);
    if k - 1 == f {
      StepCatches(s, probs[f], cur, probs, c);
      CutIsIn(Run(probs, k, c).speeches, cur, c);
    } else {
      RunHolds(probs, k - 1, f, c);
      ProductLess(f, k - 1, c.window);
      StillDropped(probs, k - 1, k, c, x);
      if Held(s, x, c) {
        StepHolds(s, probs[k - 1], cur, x, probs, c);
      } else {
        StepQuiet(s, probs[k - 1], cur, x, probs, c);
      }
    }
  }

  lemma CutIsIn(segs: seq<Segment>, x: int, c: Settings)
    ensures CutHere(segs, x, c) ==> In(segs, x, c)
  {
  }

  lemma StillDropped(probs: seq<real>, k: nat, m: nat, c: Settings, x: int)
    requires k <= m <= |probs|
    ensures DroppedBefore(probs, k, c, x) ==> DroppedBefore(probs, m, c, x)
  {
    hide StepDrops;
  }

  // Quiet does not depend on whether the frame is held.
  lemma StepQuiet(s: Scan, curr: real, cur: int, x: int, probs: seq<real>, c: Settings)
    requires c.window > 0 && 0 <= cur && c.negThreshold <= c.threshold && x < cur
    requires Inv(s, cur - c.window, probs, c) && QuietAt(s, x)
    ensures QuietAt(Step(s, curr, cur, c), x)
  {
    hide RawSegs, Ends;
  }

  /* ---- and nothing else is missed ---- */

  lemma {:induction false} EndsBelow(segs: seq<Segment>, i: nat, limit: int)
    requires Spaced(segs, 1, limit) && i < |segs|
    ensures segs[i].end <= LastEnd(segs)
    ensures forall j :: i < j < |segs| ==> segs[i].end < segs[j].start
    decreases |segs| - i
  {
    if i + 1 < |segs| {
      EndsBelow(segs, i + 1, limit);
      assert Gap(segs, i + 1) >= 1;
    }
  }

  // A frame at which a segment was cut is in no segment.
  lemma CutIsNotCovered(segs: seq<Segment>, x: int, limit: int, probs: seq<real>, c: Settings)
    requires RawSegs(segs, limit, probs, c) && CutHere(segs, x, c)
    ensures !Covered(segs, x)
  {
    hide Speech, Silent;
    var i: nat :| i < |segs| && segs[i].end == x && segs[i].end - segs[i].start > c.maxSpeech;
    forall j: nat | j < |segs| && segs[j].start <= x < segs[j].end
      ensures false
    {
      EndsBelow(segs, i, limit);
      EndsBelow(segs, j, limit);
    }
  }

  // No segment that starts later than this will be added.
  function Floor(s: Scan, cur: int): int { if s.isSpeech then s.start else cur }

  // The segments added after `before` start at `floor` or later.
  ghost predicate Adds(before: seq<Segment>, after: seq<Segment>, floor: int) {
    before <= after && forall i :: |before| <= i < |after| ==> after[i].start >= floor
  }

  lemma AddsMore(a: seq<Segment>, b: seq<Segment>, c: seq<Segment>, f: int, g: int)
    requires Adds(a, b, f) && Adds(b, c, g) && f <= g
    ensures Adds(a, c, f)
  {
  }

  lemma AddsOne(a: seq<Segment>, s: Segment)
    ensures Adds(a, a, s.start) && Adds(a, a + [s], s.start)
  {
  }

  lemma SilenceAdds(s: Scan, curr: real, cur: int, c: Settings)
    ensures Adds(s.speeches, Silence(s, curr, cur, c).speeches, s.start)
    ensures Silence(s, curr, cur, c).start == s.start && (Silence(s, curr, cur, c).isSpeech ==> s.isSpeech)
  {
    AddsOne(s.speeches, Segment(s.start, SilenceStart(s, cur)));
    hide Adds;
  }

  lemma StepAdds(s: Scan, curr: real, cur: int, probs: seq<real>, c: Settings)
    requires c.window > 0 && Inv(s, cur - c.window, probs, c)
    ensures var r := Step(s, curr, cur, c);
            Adds(s.speeches, r.speeches, Floor(s, cur)) && Floor(s, cur) <= Floor(r, cur + c.window)
  {
    var r := Resume(s, curr, cur, c);
    AddsOne(r.speeches, Segment(r.start, cur));
    AddsOne(r.speeches, Segment(cur, cur));
    AddsOne(r.speeches, Segment(r.start, r.prevEnd));
    var t := Trim(r, cur, c);
    SilenceAdds(t, curr, cur, c);
    var u := Silence(t, curr, cur, c);
    hide Adds, Silence, RawSegs, Ends;
    if Overlong(r, cur, c) && r.prevEnd == 0 {
    } else if t.isSpeech {
      AddsMore(s.speeches, t.speeches, u.speeches, r.start, t.start);
    } else {
      assert Silence(t, curr, cur, c) == t by {
        NoSilence(t, curr, cur, c);
      }
    }
  }

  lemma {:induction false} RunAdds(probs: seq<real>, k: nat, m: nat, c: Settings)
    requires c.window > 0 && c.negThreshold <= c.threshold && k <= m <= |probs|
    ensures Adds(Run(probs, k, c).speeches, Run(probs, m, c).speeches, Floor(Run(probs, k, c), c.window * k))
    ensures Floor(Run(probs, k, c), c.window * k) <= Floor(Run(probs, m, c), c.window * m)
    decreases m
  {
    if k == m {
      AddsOne(Run(probs, k, c).speeches, Segment(Floor(Run(probs, k, c), c.window * k), 0));
    } else {
      var cur := c.window * (m - 1);
      assert cur - c.window == c.window * (m - 1) - c.window && cur + c.window == c.window * m;
      RunAdds(probs, k, m - 1, c);
      RunKeeps(probs, m - 1, c);
      hide Step, Inv, Adds;
      var s := Run(probs, m - 1, c);
      StepAdds(s, probs[m - 1], cur, probs, c);
      AddsMore(Run(probs, k, c).speeches, s.speeches, Run(probs, m, c).speeches,
               Floor(Run(probs, k, c), c.window * k), Floor(s, cur));
    }
  }

  // What comes after the first k frames, including the segment that the audio's end closes.
  lemma RawAdds(probs: seq<real>, k: nat, c: Settings)
    requires c.window > 0 && c.negThreshold <= c.threshold && k <= |probs|
    ensures Adds(Run(probs, k, c).speeches, RawSegments(probs, c), Floor(Run(probs, k, c), c.window * k))
  {
    RunAdds(probs, k, |probs|, c);
    RunKeeps(probs, |probs|, c);
    var s := Run(probs, |probs|, c);
    AddsOne(s.speeches, Segment(s.start, c.window * |probs|));
    hide Adds, Run, RawSegs, Ends;
    AddsMore(Run(probs, k, c).speeches, s.speeches, RawSegments(probs, c), Floor(Run(probs, k, c), c.window * k),
             Floor(s, c.window * |probs|));
  }

  lemma CoveredLater(before: seq<Segment>, after: seq<Segment>, floor: int, x: int, limit: int)
    requires Adds(before, after, floor) && Spaced(before, 1, limit) && x < floor
    requires before != [] ==> LastEnd(before) <= x
    ensures !Covered(after, x)
  {
    forall i: nat | i < |after| && after[i].start <= x < after[i].end
      ensures false
    {
      if i < |before| {
        assert after[i] == before[i];
        EndsBelow(before, i, limit);
      }
    }
  }

  // A dropped stretch lies after all segments so far.
  lemma StepDropsAfter(s: Scan, curr: real, cur: int, x: int, probs: seq<real>, c: Settings)
    requires c.window > 0 && 0 <= cur && c.negThreshold <= c.threshold && Inv(s, cur - c.window, probs, c)
    requires curr >= c.threshold ==> Speech(probs, c, cur)
    requires curr < c.negThreshold ==> Silent(probs, c, cur)
    requires StepDrops(s, curr, cur, c, x)
    ensures var r := Step(s, curr, cur, c);
            !r.isSpeech && x < cur && (r.speeches != [] ==> LastEnd(r.speeches) <= x)
  {
    hide RawSegs, Speech, Silent;
    ResumeKeeps(s, curr, cur, cur - c.window, probs, c);
    var r := Resume(s, curr, cur, c);
    if Overlong(r, cur, c) {
      SplitKeeps(r, curr, cur, probs, c);
    }
    hide Resume, Split;
  }

  lemma DroppedIsNotCovered(probs: seq<real>, q: nat, c: Settings, x: int)
    requires c.window > 0 && c.negThreshold <= c.threshold && q < |probs|
    requires StepDrops(Run(probs, q, c), probs[q], c.window * q, c, x)
    ensures !Covered(RawSegments(probs, c), x)
  {
    hide Speech, Silent, Step, StepDrops, RawSegments, Covered;
    var cur := c.window * q;
    assert cur - c.window == c.window * q - c.window && c.window * (q + 1) == cur + c.window && cur >= 0;
    RunKeeps(probs, q, c);
    FrameKinds(probs, q, c);
    StepDropsAfter(Run(probs, q, c), probs[q], cur, x, probs, c);
    RunKeeps(probs, q + 1, c);
    RawAdds(probs, q + 1, c);
    CoveredLater(Run(probs, q + 1, c).speeches, RawSegments(probs, c), cur + c.window, x, cur);
  }

  lemma EndDroppedIsNotCovered(probs: seq<real>, c: Settings, x: int)
    requires c.window > 0 && c.negThreshold <= c.threshold
    requires EndDrops(Run(probs, |probs|, c), c.window * |probs|, c, x)
    ensures !Covered(RawSegments(probs, c), x)
  {
    hide Run, Covered, Speech, Silent;
    RunKeeps(probs, |probs|, c);
    var s := Run(probs, |probs|, c);
    AddsOne(s.speeches, Segment(x + 1, 0));
    CoveredLater(s.speeches, RawSegments(probs, c), x + 1, x, c.window * |probs| - c.window);
  }

  // A frame of speech is in no raw segment if and only if an overlong segment was cut at it, or
  // it was in a stretch dropped for being too short.
  lemma LostExactly(probs: seq<real>, nWindow: nat, p: Params, f: nat)
    requires nWindow > 0 && ValidParams(p) && f < |probs| && probs[f] >= p.threshold
    ensures var c := Configure(p, nWindow);
            var raw, x := RawSegments(probs, c), nWindow * f;
            !Covered(raw, x) <==> CutHere(raw, x, c) || Dropped(probs, c, x)
  {
    var c := Configure(p, nWindow);
    var raw, x := RawSegments(probs, c), nWindow * f;
    assert c.negThreshold <= c.threshold == p.threshold && c.window == nWindow;
    hide Configure, RawSegments, Covered, CutHere, Dropped, RawSegs;
    SegmentsAreRaw(probs, nWindow, p);
    if CutHere(raw, x, c) {
      CutIsNotCovered(raw, x, nWindow * |probs|, probs, c);
    }
    if Dropped(probs, c, x) {
      DroppedNeverCovered(probs, c, x);
    }
    FinallyHeld(probs, f, c);
  }

  lemma DroppedNeverCovered(probs: seq<real>, c: Settings, x: int)
    requires c.window > 0 && c.negThreshold <= c.threshold && Dropped(probs, c, x)
    ensures !Covered(RawSegments(probs, c), x)
  {
    hide RawSegments, Covered, StepDrops, Run;
    if DroppedBefore(probs, |probs|, c, x) {
      var q: nat :| q < |probs| && StepDrops(Run(probs, q, c), probs[q], c.window * q, c, x);
      DroppedIsNotCovered(probs, q, c, x);
    } else {
      EndDroppedIsNotCovered(probs, c, x);
    }
  }

  lemma FinallyHeld(probs: seq<real>, f: nat, c: Settings)
    requires c.window > 0 && c.negThreshold <= c.threshold && f < |probs| && probs[f] >= c.threshold
    ensures var raw, x := RawSegments(probs, c), c.window * f;
            Covered(raw, x) || CutHere(raw, x, c) || Dropped(probs, c, x)
  {
    RunHolds(probs, |probs|, f, c);
    RunKeeps(probs, |probs|, c);
    ProductLess(f, |probs|, c.window);
    hide Run, Covered, CutHere, RawSegs, DroppedBefore, Ends;
    var s, length := Run(probs, |probs|, c), c.window * |probs|;
    AppendIn(s.speeches, Segment(s.start, length), c.window * f, c);
  }

  /* ---- what a dropped stretch is ---- */

  ghost predicate NoSpeech(probs: seq<real>, c: Settings, lo: int, hi: int) {
    forall y :: lo <= y < hi ==> !Speech(probs, c, y)
  }

  ghost predicate EndsAt(segs: seq<Segment>, e: int) {
    exists i :: 0 <= i < |segs| && segs[i].end == e
  }

  // After e there is no speech before a; and at e a segment was cut, or a silence began that
  // lasted for the minimum or at which a segment was split off.
  ghost predicate RestsFrom(segs: seq<Segment>, e: int, a: int, probs: seq<real>, c: Settings) {
    && e < a && NoSpeech(probs, c, e + 1, a)
    && (CutHere(segs, e, c) || (Silent(probs, c, e) && (a - c.window - e >= c.minSilence || EndsAt(segs, e))))
  }

  // What precedes a stretch that starts at a.
  ghost predicate Rested(segs: seq<Segment>, a: int, probs: seq<real>, c: Settings) {
    NoSpeech(probs, c, 0, a) || exists e :: RestsFrom(segs, e, a, probs, c)
  }

  // From speech that follows such a rest, or is the first, to silence without speech for the
  // minimum, or to the end; and too short.
  ghost predicate ShortStretch(segs: seq<Segment>, a: int, b: int, probs: seq<real>, c: Settings) {
    && a < b && b - a <= c.minSpeech && Speech(probs, c, a) && Rested(segs, a, probs, c)
    && (b == c.window * |probs| || (Silent(probs, c, b) && NoSpeech(probs, c, b, b + c.minSilence + 1)))
  }

  // The stretch being built follows a rest, and so would one that starts at the next frame.
  ghost predicate RestInv(s: Scan, cur: int, probs: seq<real>, c: Settings) {
    && (s.isSpeech ==> Rested(s.speeches, s.start, probs, c))
    && (!s.isSpeech ==> Rested(s.speeches, cur + c.window, probs, c))
  }

  lemma AppendRested(before: seq<Segment>, after: seq<Segment>, a: int, probs: seq<real>, c: Settings)
    requires before <= after && Rested(before, a, probs, c)
    ensures Rested(after, a, probs, c)
  {
    hide Speech, Silent, NoSpeech;
    if !NoSpeech(probs, c, 0, a) {
      var e :| RestsFrom(before, e, a, probs, c);
      assert RestsFrom(after, e, a, probs, c) by {
        if CutHere(before, e, c) {
          var i :| 0 <= i < |before| && before[i].end == e && before[i].end - before[i].start > c.maxSpeech;
          assert after[i] == before[i];
        }
        if EndsAt(before, e) {
          var i :| 0 <= i < |before| && before[i].end == e;
          assert after[i] == before[i];
        }
      }
    }
  }

  // Another frame without speech.
  lemma RestsOn(segs: seq<Segment>, q: nat, probs: seq<real>, c: Settings)
    requires Rested(segs, c.window * q, probs, c) && !Speech(probs, c, c.window * q)
    ensures Rested(segs, c.window * q + c.window, probs, c)
  {
    hide Speech, Silent, CutHere, EndsAt;
    var a := c.window * q;
    forall y | a <= y < a + c.window
      ensures !Speech(probs, c, y)
    {
      BetweenFrames(probs, y, q, c);
    }
    if !NoSpeech(probs, c, 0, a) {
      var e :| RestsFrom(segs, e, a, probs, c);
      assert RestsFrom(segs, e, a + c.window, probs, c);
    }
  }

  // Frames start at multiples of the window.
  lemma BetweenFrames(probs: seq<real>, y: int, q: nat, c: Settings)
    ensures Speech(probs, c, y) && c.window * q <= y < c.window * q + c.window ==> y == c.window * q
    ensures Speech(probs, c, y) ==> y >= 0
  {
    if Speech(probs, c, y) {
      var f: nat :| f < |probs| && y == c.window * f && probs[f] >= c.threshold;
      ProductLe(q + 1, f, c.window);
      ProductLe(f + 1, q, c.window);
      assert c.window * (q + 1) == c.window * q + c.window && c.window * (f + 1) == c.window * f + c.window;
    }
  }

  // No frame of speech up to `cur` lies in the silence.
  ghost predicate Quiet(s: Scan, cur: int, probs: seq<real>, c: Settings) {
    forall y :: y <= cur && Speech(probs, c, y) ==> QuietAt(s, y)
  }

  lemma QuietResumes(s: Scan, curr: real, cur: int, probs: seq<real>, c: Settings)
    requires c.window > 0 && Fields(s, cur - c.window, c) && Quiet(s, cur - c.window, probs, c)
    ensures Quiet(Resume(s, curr, cur, c), cur - c.window, probs, c)
  {
    hide Speech;
  }

  // A silence that has split off a segment is a rest for what comes after it.
  lemma SplitRests(s: Scan, a: int, probs: seq<real>, c: Settings)
    requires s.prevEnd != 0 && Silent(probs, c, s.prevEnd) && s.prevEnd < a
    requires NoSpeech(probs, c, s.prevEnd + 1, a)
    ensures Rested(Split(s).speeches, a, probs, c)
  {
    hide Speech, Silent, NoSpeech;
    var segs := Split(s).speeches;
    assert segs[|s.speeches|] == Segment(s.start, s.prevEnd);
    assert EndsAt(segs, s.prevEnd);
    assert RestsFrom(segs, s.prevEnd, a, probs, c);
  }

  lemma TrimRested(s: Scan, q: nat, cur: int, probs: seq<real>, c: Settings)
    requires c.window > 0 && cur == c.window * q && (s.prevEnd == 0 ==> !Overlong(s, cur, c))
    requires Fields(s, cur, c) && Ends(s, probs, c) && Quiet(s, cur - c.window, probs, c)
    requires s.prevEnd <= cur - c.window || s.prevEnd == 0
    requires s.isSpeech ==> Rested(s.speeches, s.start, probs, c)
    requires !s.isSpeech ==> Rested(s.speeches, cur, probs, c)
    ensures var t := Trim(s, cur, c);
            && (t.isSpeech ==> Rested(t.speeches, t.start, probs, c))
            && (!t.isSpeech ==> Rested(t.speeches, cur, probs, c))
  {
    hide Speech, Silent, Rested;
    if Overlong(s, cur, c) {
      var a := if s.nextStart < s.prevEnd then cur else s.nextStart;
      forall y | s.prevEnd + 1 <= y < a
        ensures !Speech(probs, c, y)
      {
        FramesApart(probs, y, q, c);
      }
      SplitRests(s, a, probs, c);
    }
  }

  // A silence that has lasted for the minimum is a rest.
  lemma SilenceRested(s: Scan, q: nat, curr: real, cur: int, probs: seq<real>, c: Settings)
    requires c.window > 0 && cur == c.window * q && c.negThreshold <= c.threshold
    requires Ends(s, probs, c) && Quiet(s, cur - c.window, probs, c) && (s.tempEnd == 0 || s.tempEnd <= cur)
    requires curr >= c.threshold <==> Speech(probs, c, cur)
    requires curr < c.negThreshold ==> Silent(probs, c, cur)
    requires s.isSpeech ==> Rested(s.speeches, s.start, probs, c)
    requires !s.isSpeech ==> Rested(s.speeches, cur, probs, c) && curr < c.threshold
    ensures RestInv(Silence(s, curr, cur, c), cur, probs, c)
  {
    hide Speech, Silent, Rested;
    var r := Silence(s, curr, cur, c);
    if !s.isSpeech {
      RestsOn(s.speeches, q, probs, c);
    } else if !r.isSpeech {
      var e := SilenceStart(s, cur);
      forall y | e + 1 <= y < cur + c.window
        ensures !Speech(probs, c, y)
      {
        FramesApart(probs, y, q, c);
        BetweenFrames(probs, y, q, c);
      }
      LongRest(r.speeches, e, cur + c.window, probs, c);
    }
  }

  lemma LongRest(segs: seq<Segment>, e: int, a: int, probs: seq<real>, c: Settings)
    requires e < a && Silent(probs, c, e) && NoSpeech(probs, c, e + 1, a) && a - c.window - e >= c.minSilence
    ensures Rested(segs, a, probs, c)
  {
    hide Speech, Silent, NoSpeech;
    assert RestsFrom(segs, e, a, probs, c);
  }

  lemma CutRests(s: Scan, q: nat, cur: int, probs: seq<real>, c: Settings)
    requires c.window > 0 && cur == c.window * q && cur - s.start > c.maxSpeech
    ensures Rested(Cut(s, cur).speeches, cur + c.window, probs, c)
  {
    hide Speech, Silent;
    AppendIn(s.speeches, Segment(s.start, cur), cur, c);
    forall y | cur + 1 <= y < cur + c.window
      ensures !Speech(probs, c, y)
    {
      BetweenFrames(probs, y, q, c);
    }
    hide CutHere, Covered;
    assert RestsFrom(Cut(s, cur).speeches, cur, cur + c.window, probs, c);
  }

  lemma StepRested(s: Scan, q: nat, curr: real, cur: int, probs: seq<real>, c: Settings)
    requires c.window > 0 && cur == c.window * q >= 0 && c.negThreshold <= c.threshold
    requires Inv(s, cur - c.window, probs, c) && RestInv(s, cur - c.window, probs, c)
             && Quiet(s, cur - c.window, probs, c)
    requires curr >= c.threshold <==> Speech(probs, c, cur)
    requires curr < c.negThreshold ==> Silent(probs, c, cur)
    ensures RestInv(Step(s, curr, cur, c), cur, probs, c)
    ensures var r := Resume(s, curr, cur, c);
            var t := Trim(r, cur, c);
            t.isSpeech && !(Overlong(r, cur, c) && r.prevEnd == 0) ==> Rested(t.speeches, t.start, probs, c)
  {
    hide Speech, Silent, RawSegs, Silence, Rested, Quiet, Ends, Split;
    ResumeKeeps(s, curr, cur, cur - c.window, probs, c);
    QuietResumes(s, curr, cur, probs, c);
    var r := Resume(s, curr, cur, c);
    StepAfter(s, curr, cur, c);
    if Overlong(r, cur, c) && r.prevEnd == 0 {
      CutRests(r, q, cur, probs, c);
    } else {
      TrimRested(r, q, cur, probs, c);
      if !(curr >= c.threshold && !r.isSpeech) {
        TrimMid(r, curr, cur, probs, c);
        SilenceRested(Trim(r, cur, c), q, curr, cur, probs, c);
      }
    }
  }

  // What the split leaves of the state's shape.
  lemma TrimMid(r: Scan, curr: real, cur: int, probs: seq<real>, c: Settings)
    requires c.window > 0 && Mid(r, curr, cur, probs, c) && (Overlong(r, cur, c) ==> r.prevEnd != 0)
    requires cur - r.start <= c.maxSpeech + c.window || !r.isSpeech
    ensures Mid(Trim(r, cur, c), curr, cur, probs, c)
    ensures Quiet(r, cur - c.window, probs, c) ==> Quiet(Trim(r, cur, c), cur - c.window, probs, c)
  {
    hide Speech, Silent, RawSegs;
    if Overlong(r, cur, c) {
      SplitKeeps(r, curr, cur, probs, c);
    }
  }

  // A frame of speech leaves the scan in speech, or cuts a segment.
  lemma StepAfter(s: Scan, curr: real, cur: int, c: Settings)
    requires c.window > 0 && Fields(s, cur - c.window, c) && c.negThreshold <= c.threshold
    ensures var r := Resume(s, curr, cur, c);
            curr >= c.threshold && r.isSpeech && !(Overlong(r, cur, c) && r.prevEnd == 0) ==> Trim(r, cur, c).isSpeech
  {
  }

  lemma FrameIsSpeech(probs: seq<real>, f: nat, c: Settings)
    requires f < |probs| && c.window > 0
    ensures Speech(probs, c, c.window * f) <==> probs[f] >= c.threshold
  {
    if Speech(probs, c, c.window * f) {
      var g :| 0 <= g < |probs| && c.window * f == c.window * g && probs[g] >= c.threshold;
      if f < g {
        ProductLess(f, g, c.window);
      } else if g < f {
        ProductLess(g, f, c.window);
      }
    }
  }

  lemma RunQuiet(probs: seq<real>, k: nat, c: Settings)
    requires c.window > 0 && c.negThreshold <= c.threshold && k <= |probs|
    ensures Quiet(Run(probs, k, c), c.window * k - c.window, probs, c)
  {
    hide Run, QuietAt;
    forall y | y <= c.window * k - c.window && Speech(probs, c, y)
      ensures QuietAt(Run(probs, k, c), y)
    {
      var f: nat :| f < |probs| && y == c.window * f && probs[f] >= c.threshold;
      if f < k {
        RunHolds(probs, k, f, c);
      } else {
        ProductLe(k, f, c.window);
      }
    }
  }

  lemma {:induction false} RunRested(probs: seq<real>, k: nat, c: Settings)
    requires c.window > 0 && c.negThreshold <= c.threshold && k <= |probs|
    ensures RestInv(Run(probs, k, c), c.window * k - c.window, probs, c)
  {
    hide Speech, Silent, Step, Inv, RestInv, Quiet;
    if k == 0 {
      NoFrameBefore(probs, c);
    } else {
      RunRested(probs, k - 1, c);
      RestedAfter(probs, k - 1, c);
    }
  }

  lemma RestedAfter(probs: seq<real>, k: nat, c: Settings)
    requires c.window > 0 && c.negThreshold <= c.threshold && k < |probs|
    requires RestInv(Run(probs, k, c), c.window * k - c.window, probs, c)
    ensures RestInv(Run(probs, k + 1, c), c.window * (k + 1) - c.window, probs, c)
  {
    hide Speech, Silent, Step, Inv, RestInv, Quiet, Run;
    var cur := c.window * k;
    assert c.window * (k + 1) - c.window == cur && 0 <= cur;
    RunUnfolds(probs, k, c);
    RunKeeps(probs, k, c);
    RunQuiet(probs, k, c);
    FrameKinds(probs, k, c);
    FrameIsSpeech(probs, k, c);
    StepRested(Run(probs, k, c), k, probs[k], cur, probs, c);
  }

  lemma NoFrameBefore(probs: seq<real>, c: Settings)
    requires c.window > 0
    ensures RestInv(START, 0 - c.window, probs, c)
  {
    assert NoSpeech(probs, c, 0, 0);
  }

  lemma TrimQuiet(s: Scan, curr: real, cur: int, x: int, c: Settings)
    requires QuietAt(s, x) && x < cur && Fields(s, cur - c.window, c)
    ensures QuietAt(Trim(Resume(s, curr, cur, c), cur, c), x)
  {
  }

  // A dropped stretch is short: it begins with speech after a rest, and is followed by silence
  // for the minimum, or ends with the audio.
  lemma DroppedIsShort(probs: seq<real>, nWindow: nat, p: Params, x: int) returns (a: int, b: int)
    requires nWindow > 0 && ValidParams(p) && Dropped(probs, Configure(p, nWindow), x)
    ensures var c := Configure(p, nWindow);
            a <= x < b && ShortStretch(RawSegments(probs, c), a, b, probs, c)
  {
    var c := Configure(p, nWindow);
    assert c.negThreshold <= c.threshold && c.window == nWindow;
    hide Configure, StepDrops, Run, RawSegments, ShortStretch;
    if DroppedBefore(probs, |probs|, c, x) {
      var q: nat :| q < |probs| && StepDrops(Run(probs, q, c), probs[q], c.window * q, c, x);
      a, b := StepDropIsShort(probs, q, c, x);
    } else {
      a, b := EndDropIsShort(probs, c, x);
    }
  }

  lemma EndDropIsShort(probs: seq<real>, c: Settings, x: int) returns (a: int, b: int)
    requires c.window > 0 && c.negThreshold <= c.threshold
    requires EndDrops(Run(probs, |probs|, c), c.window * |probs|, c, x)
    ensures a <= x < b && ShortStretch(RawSegments(probs, c), a, b, probs, c)
  {
    hide Run, Speech, Silent, RawSegs, RawSegments, Rested;
    var s := Run(probs, |probs|, c);
    a, b := s.start, c.window * |probs|;
    RunKeeps(probs, |probs|, c);
    RunRested(probs, |probs|, c);
    RawAdds(probs, |probs|, c);
    AppendRested(s.speeches, RawSegments(probs, c), a, probs, c);
  }

  lemma StepDropIsShort(probs: seq<real>, q: nat, c: Settings, x: int) returns (a: int, b: int)
    requires c.window > 0 && c.negThreshold <= c.threshold && q < |probs|
    requires StepDrops(Run(probs, q, c), probs[q], c.window * q, c, x)
    ensures a <= x < b && ShortStretch(RawSegments(probs, c), a, b, probs, c)
  {
    hide Run, RawSegments, Speech, Silent, RawSegs, Rested;
    var s, cur := Run(probs, q, c), c.window * q;
    assert cur - c.window == c.window * q - c.window && c.window * (q + 1) == cur + c.window && cur >= 0;
    RunKeeps(probs, q, c);
    RunRested(probs, q, c);
    RunQuiet(probs, q, c);
    FrameKinds(probs, q, c);
    FrameIsSpeech(probs, q, c);
    StepRested(s, q, probs[q], cur, probs, c);
    RawAdds(probs, q + 1, c);
    RunUnfolds(probs, q, c);
    a, b := DropInStep(s, q, probs[q], cur, x, probs, c);
    AppendRested(Step(s, probs[q], cur, c).speeches, RawSegments(probs, c), a, probs, c);
  }

  lemma RunUnfolds(probs: seq<real>, q: nat, c: Settings)
    requires q < |probs|
    ensures Run(probs, q + 1, c) == Step(Run(probs, q, c), probs[q], c.window * q, c)
  {
  }

  lemma FramesApart(probs: seq<real>, y: int, q: nat, c: Settings)
    ensures Speech(probs, c, y) && y < c.window * q ==> y <= c.window * q - c.window
  {
    if Speech(probs, c, y) && y < c.window * q {
      var f: nat :| f < |probs| && y == c.window * f && probs[f] >= c.threshold;
      ProductLe(q, f, c.window);
      if q > 0 {
        ProductLe(f, q - 1, c.window);
        assert c.window * (q - 1) == c.window * q - c.window;
      }
    }
  }

  lemma DropInStep(s: Scan, q: nat, curr: real, cur: int, x: int, probs: seq<real>, c: Settings)
    returns (a: int, b: int)
    requires c.window > 0 && cur == c.window * q >= 0 && c.negThreshold <= c.threshold
    requires Inv(s, cur - c.window, probs, c) && Quiet(s, cur - c.window, probs, c) && StepDrops(s, curr, cur, c, x)
    requires curr >= c.threshold <==> Speech(probs, c, cur)
    requires curr < c.negThreshold ==> Silent(probs, c, cur)
    requires var t := Trim(Resume(s, curr, cur, c), cur, c); Rested(t.speeches, t.start, probs, c)
    ensures a <= x < b && ShortStretch(Step(s, curr, cur, c).speeches, a, b, probs, c)
  {
    hide Speech, Silent, RawSegs, Rested;
    var r := Resume(s, curr, cur, c);
    var t := Trim(r, cur, c);
    a, b := t.start, SilenceStart(t, cur);
    ResumeKeeps(s, curr, cur, cur - c.window, probs, c);
    if Overlong(r, cur, c) {
      SplitKeeps(r, curr, cur, probs, c);
    }
    forall y | b <= y < b + c.minSilence + 1
      ensures !Speech(probs, c, y)
    {
      FramesApart(probs, y, q, c);
      if Speech(probs, c, y) && y < cur {
        assert QuietAt(s, y);
        TrimQuiet(s, curr, cur, y, c);
      }
    }
  }
}
