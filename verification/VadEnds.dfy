/**
 Where raw segments end, and that they do not end before: at a silence that lasts, at the end of
 the audio, or because they are overlong.
 */
module VadEnds {
  import opened Arithmetic
  import opened VadScan
  import opened VadCoverage

  // Silence begins at x and still goes on at y.
  ghost predicate Pause(probs: seq<real>, c: Settings, x: int, y: int) {
    x <= y && Silent(probs, c, x) && Silent(probs, c, y) && NoSpeech(probs, c, x, y + 1)
  }

  // At frame z an overlong segment is split at a silence before.
  ghost predicate SplitFrame(probs: seq<real>, c: Settings, z: int) {
    exists q: nat :: q < |probs| && z == c.window * q
                     && Overlong(Resume(Run(probs, q, c), probs[q], z, c), z, c)
                     && Resume(Run(probs, q, c), probs[q], z, c).prevEnd != 0
  }

  // The pause from x to y is shorter than d. The scan forgets a pause when it splits a segment, and
  // counts it afresh from its first silent frame after that.
  ghost predicate Short(probs: seq<real>, c: Settings, x: int, y: int, d: int) {
    y - x < d || exists z :: x < z <= y && SplitFrame(probs, c, z) && ShortFrom(probs, c, z, y, d)
  }

  ghost predicate ShortFrom(probs: seq<real>, c: Settings, z: int, y: int, d: int) {
    forall u :: z <= u <= y && Silent(probs, c, u) ==> y - u < d
  }

  // All pauses between a and b are shorter than d.
  ghost predicate AllShort(probs: seq<real>, c: Settings, a: int, b: int, d: int) {
    forall x, y {:trigger Pause(probs, c, x, y)} :: a < x && y < b && Pause(probs, c, x, y) ==> Short(probs, c, x, y, d)
  }

  // A pause that begins at e lasts at least d.
  ghost predicate Lasts(probs: seq<real>, c: Settings, e: int, d: int) {
    exists y :: Pause(probs, c, e, y) && y - e >= d
  }

  // No pause inside a segment lasted for the minimum; and it ends with the audio; or at a pause
  // that does; or, being overlong, at one of more than 98 ms at which it was split; or, without
  // such a pause, where it was cut.
  ghost predicate EndsRight(g: Segment, probs: seq<real>, c: Settings) {
    && AllShort(probs, c, g.start, g.end, c.minSilence)
    && (|| (g.end == c.window * |probs| && g.end - g.start > c.minSpeech)
        || (Lasts(probs, c, g.end, c.minSilence) && g.end - g.start > c.minSpeech)
        || (Lasts(probs, c, g.end, SPLIT_SILENCE + 1)
            && exists z :: SplitFrame(probs, c, z) && z > g.end && z - g.start > c.maxSpeech)
        || (g.end - g.start > c.maxSpeech && AllShort(probs, c, g.start, g.end, SPLIT_SILENCE + 1)))
  }

  /* ---- what every frame keeps ---- */

  // The pause going on at `cur` is counted from its first silent frame, or its first one after a
  // split.
  ghost predicate Counted(s: Scan, cur: int, probs: seq<real>, c: Settings) {
    forall x {:trigger Silent(probs, c, x)} ::
      s.start < x <= cur && Silent(probs, c, x) && NoSpeech(probs, c, x, cur + 1) ==> CountedFrom(s, x, cur, probs, c)
  }

  ghost predicate CountedFrom(s: Scan, x: int, cur: int, probs: seq<real>, c: Settings) {
    || (s.tempEnd != 0 && s.tempEnd <= x)
    || exists z :: x < z <= cur && SplitFrame(probs, c, z) && AllCounted(s, z, cur, probs, c)
  }

  ghost predicate AllCounted(s: Scan, z: int, cur: int, probs: seq<real>, c: Settings) {
    forall u :: z <= u <= cur && Silent(probs, c, u) ==> s.tempEnd != 0 && s.tempEnd <= u
  }

  // No long pause since then: the start of the segment, or speech after the last long pause.
  function Since(s: Scan): int { if s.prevEnd == 0 then s.start else s.nextStart }

  // What is known of the frames before sample b.
  ghost predicate Kept(s: Scan, b: int, probs: seq<real>, c: Settings) {
    && (forall i :: 0 <= i < |s.speeches| ==> EndsRight(s.speeches[i], probs, c))
    && (s.isSpeech ==>
         && AllShort(probs, c, s.start, b, c.minSilence)
         && (s.nextStart >= s.prevEnd ==> AllShort(probs, c, Since(s), b, SPLIT_SILENCE + 1))
         && (s.prevEnd != 0 ==> Lasts(probs, c, s.prevEnd, SPLIT_SILENCE + 1)))
  }

  ghost predicate EndInv(s: Scan, cur: int, probs: seq<real>, c: Settings) {
    Kept(s, cur + 1, probs, c) && (s.isSpeech ==> Counted(s, cur, probs, c))
  }

  // Frames start at multiples of the window.
  lemma SilentFrames(probs: seq<real>, y: int, q: nat, c: Settings)
    ensures Silent(probs, c, y) && y <= c.window * q ==> y <= c.window * q - c.window || y == c.window * q
  {
    if Silent(probs, c, y) && y <= c.window * q {
      var f: nat :| f < |probs| && y == c.window * f && probs[f] < c.negThreshold;
      ProductLe(q + 1, f, c.window);
      if f < q {
        ProductLe(f, q - 1, c.window);
        assert c.window * (q - 1) == c.window * q - c.window;
      } else if f > q {
        assert c.window * (q + 1) == c.window * q + c.window;
      }
    }
  }

  lemma AllShortFrom(probs: seq<real>, c: Settings, a: int, b: int, a': int, b': int, d: int)
    requires AllShort(probs, c, a, b, d) && a <= a' && b' <= b
    ensures AllShort(probs, c, a', b', d)
  {
    hide Pause, Short;
  }

  lemma AppendRight(segs: seq<Segment>, g: Segment, probs: seq<real>, c: Settings)
    requires (forall i :: 0 <= i < |segs| ==> EndsRight(segs[i], probs, c)) && EndsRight(g, probs, c)
    ensures forall i :: 0 <= i < |segs + [g]| ==> EndsRight((segs + [g])[i], probs, c)
  {
    hide EndsRight;
  }

  // No pause goes on at a frame of speech, or at one that is neither.
  lemma NothingNew(probs: seq<real>, c: Settings, q: nat, a: int, d: int)
    requires c.window > 0 && !Silent(probs, c, c.window * q)
    requires AllShort(probs, c, a, c.window * q - c.window + 1, d)
    ensures AllShort(probs, c, a, c.window * q + 1, d)
  {
    hide Silent, Speech, Short;
    forall x, y | a < x && y < c.window * q + 1 && Pause(probs, c, x, y)
      ensures Short(probs, c, x, y, d)
    {
      SilentFrames(probs, y, q, c);
    }
  }

  // A pause that goes on at `cur` and is counted from tempEnd.
  lemma OneMore(s: Scan, probs: seq<real>, c: Settings, q: nat, cur: int, a: int, d: int)
    requires c.window > 0 && cur == c.window * q && Counted(s, cur, probs, c) && s.start <= a
    requires AllShort(probs, c, a, cur - c.window + 1, d)
    requires s.tempEnd != 0 && cur - s.tempEnd < d
    ensures AllShort(probs, c, a, cur + 1, d)
  {
    hide Silent, Speech;
    forall x, y | a < x && y < cur + 1 && Pause(probs, c, x, y)
      ensures Short(probs, c, x, y, d)
    {
      SilentFrames(probs, y, q, c);
      if y == cur {
        assert CountedFrom(s, x, cur, probs, c);
        if !(s.tempEnd <= x) {
          var z :| x < z <= cur && SplitFrame(probs, c, z) && AllCounted(s, z, cur, probs, c);
          assert ShortFrom(probs, c, z, cur, d);
        }
      }
    }
  }

  // The next frame: if it is silent, the pause is counted from it at the latest.
  lemma CountOn(s: Scan, t: Scan, probs: seq<real>, c: Settings, q: nat, cur: int)
    requires c.window > 0 && cur == c.window * q && Counted(s, cur - c.window, probs, c)
    requires t.start == s.start && (s.tempEnd != 0 ==> t.tempEnd == s.tempEnd)
    requires Silent(probs, c, cur) ==> t.tempEnd != 0 && t.tempEnd <= cur
    ensures Counted(t, cur, probs, c)
  {
    hide Silent, Speech, CountedFrom;
    forall x | t.start < x <= cur && Silent(probs, c, x) && NoSpeech(probs, c, x, cur + 1)
      ensures CountedFrom(t, x, cur, probs, c)
    {
      SilentFrames(probs, x, q, c);
      if x < cur {
        assert NoSpeech(probs, c, x, cur - c.window + 1);
        CountOnFrom(s, t, probs, c, q, cur, x);
      } else {
        FromHere(t, cur, probs, c);
      }
    }
  }

  lemma FromHere(t: Scan, cur: int, probs: seq<real>, c: Settings)
    requires t.tempEnd != 0 && t.tempEnd <= cur
    ensures CountedFrom(t, cur, cur, probs, c)
  {
  }

  lemma CountOnFrom(s: Scan, t: Scan, probs: seq<real>, c: Settings, q: nat, cur: int, x: int)
    requires c.window > 0 && cur == c.window * q && CountedFrom(s, x, cur - c.window, probs, c)
    requires s.tempEnd != 0 ==> t.tempEnd == s.tempEnd
    requires Silent(probs, c, cur) ==> t.tempEnd != 0 && t.tempEnd <= cur
    ensures CountedFrom(t, x, cur, probs, c)
  {
    hide Silent, Speech, SplitFrame;
    if !(s.tempEnd != 0 && s.tempEnd <= x) {
      var z :| x < z <= cur - c.window && SplitFrame(probs, c, z) && AllCounted(s, z, cur - c.window, probs, c);
      forall u | z <= u <= cur && Silent(probs, c, u)
        ensures t.tempEnd != 0 && t.tempEnd <= u
      {
        SilentFrames(probs, u, q, c);
      }
      assert AllCounted(t, z, cur, probs, c);
    }
  }

  // If it is speech, no pause goes on.
  lemma CountSpeech(s: Scan, probs: seq<real>, c: Settings, cur: int)
    requires Speech(probs, c, cur)
    ensures Counted(s, cur, probs, c)
  {
    hide Silent, Speech;
    forall x {:trigger NoSpeech(probs, c, x, cur + 1)} | x <= cur
      ensures !NoSpeech(probs, c, x, cur + 1)
    {
    }
  }

  // If a segment was split there, the pause going on is forgotten.
  lemma CountSplit(s: Scan, probs: seq<real>, c: Settings, q: nat, cur: int)
    requires c.window > 0 && cur == c.window * q && SplitFrame(probs, c, cur)
    requires if Silent(probs, c, cur) then s.tempEnd == cur != 0 else s.tempEnd == 0
    ensures Counted(s, cur, probs, c)
  {
    hide Silent, Speech, SplitFrame;
    forall x | s.start < x <= cur && Silent(probs, c, x) && NoSpeech(probs, c, x, cur + 1)
      ensures CountedFrom(s, x, cur, probs, c)
    {
      if x < cur {
        assert AllCounted(s, cur, cur, probs, c);
      }
    }
  }

  /* ---- steps ---- */

  // A silent frame: the pause goes on, or it has lasted and ends the stretch.
  lemma SilenceRight(s: Scan, q: nat, curr: real, cur: int, probs: seq<real>, c: Settings)
    requires c.window > 0 && cur == c.window * q && c.negThreshold <= c.threshold && curr < c.negThreshold
    requires s.isSpeech && Silent(probs, c, cur) && !Speech(probs, c, cur) && Mid(s, curr, cur, probs, c) && cur > 0
    requires Quiet(s, cur, probs, c) && EndMid(s, cur, probs, c)
    ensures EndInv(Silence(s, curr, cur, c), cur, probs, c)
  {
    CountedAlike(s.(tempEnd := SilenceStart(s, cur)), Silence(s, curr, cur, c), cur, probs, c);
    hide Silent, Speech, RawSegs, Counted, AllShort, EndsRight, Pause, Lasts;
    var e := SilenceStart(s, cur);
    var t := s.(tempEnd := e);
    assert Counted(t, cur, probs, c);
    PauseNow(s, cur, probs, c);
    if cur - e < c.minSilence {
      OneMore(t, probs, c, q, cur, s.start, c.minSilence);
      if cur - e <= SPLIT_SILENCE {
        if s.nextStart >= s.prevEnd {
          OneMore(t, probs, c, q, cur, Since(s), SPLIT_SILENCE + 1);
        }
      } else {
        LastsNow(e, cur, SPLIT_SILENCE + 1, probs, c);
      }
    } else if e - s.start > c.minSpeech {
      LastsNow(e, cur, c.minSilence, probs, c);
      UpToHere(probs, c, q, s.start, c.minSilence);
      AllShortFrom(probs, c, s.start, cur, s.start, e, c.minSilence);
      assert EndsRight(Segment(s.start, e), probs, c) by {
        LongPauseEnds(Segment(s.start, e), probs, c);
      }
      AppendRight(s.speeches, Segment(s.start, e), probs, c);
    }
  }

  // Before the silence of a frame is looked at.
  ghost predicate EndMid(s: Scan, cur: int, probs: seq<real>, c: Settings) {
    && Kept(s, cur - c.window + 1, probs, c)
    && (s.isSpeech ==> Counted(s.(tempEnd := SilenceStart(s, cur)), cur, probs, c))
  }

  lemma CountedAlike(s: Scan, t: Scan, cur: int, probs: seq<real>, c: Settings)
    requires Counted(s, cur, probs, c)
    ensures s.start == t.start && s.tempEnd == t.tempEnd ==> Counted(t, cur, probs, c)
  {
    hide Silent, Speech, SplitFrame;
    forall x | s.start < x <= cur && Silent(probs, c, x) && NoSpeech(probs, c, x, cur + 1)
                && s.start == t.start && s.tempEnd == t.tempEnd
      ensures CountedFrom(t, x, cur, probs, c)
    {
      assert CountedFrom(s, x, cur, probs, c);
      if !(s.tempEnd != 0 && s.tempEnd <= x) {
        var z :| x < z <= cur && SplitFrame(probs, c, z) && AllCounted(s, z, cur, probs, c);
        assert AllCounted(t, z, cur, probs, c);
      }
    }
  }

  lemma UpToHere(probs: seq<real>, c: Settings, q: nat, a: int, d: int)
    requires c.window > 0 && AllShort(probs, c, a, c.window * q - c.window + 1, d)
    ensures AllShort(probs, c, a, c.window * q, d)
  {
    hide Silent, Speech, Short;
    forall x, y | a < x && y < c.window * q && Pause(probs, c, x, y)
      ensures Short(probs, c, x, y, d)
    {
      SilentFrames(probs, y, q, c);
    }
  }

  lemma PauseNow(s: Scan, cur: int, probs: seq<real>, c: Settings)
    requires Silent(probs, c, cur) && Quiet(s, cur, probs, c) && Ends(s, probs, c)
    requires !Speech(probs, c, cur) && (s.tempEnd == 0 || s.tempEnd <= cur)
    ensures Pause(probs, c, SilenceStart(s, cur), cur)
  {
    hide Silent, Speech;
    var e := SilenceStart(s, cur);
    forall y | e <= y < cur + 1
      ensures !Speech(probs, c, y)
    {
    }
  }

  lemma LastsNow(e: int, cur: int, d: int, probs: seq<real>, c: Settings)
    requires Pause(probs, c, e, cur) && cur - e >= d
    ensures Lasts(probs, c, e, d)
  {
    hide Pause;
  }

  lemma LongPauseEnds(g: Segment, probs: seq<real>, c: Settings)
    requires AllShort(probs, c, g.start, g.end, c.minSilence)
    requires Lasts(probs, c, g.end, c.minSilence) && g.end - g.start > c.minSpeech
    ensures EndsRight(g, probs, c)
  {
    hide AllShort, Lasts;
  }

  lemma FrameIsSilent(probs: seq<real>, f: nat, c: Settings)
    requires f < |probs| && c.window > 0
    ensures Silent(probs, c, c.window * f) <==> probs[f] < c.negThreshold
  {
    if Silent(probs, c, c.window * f) {
      var g :| 0 <= g < |probs| && c.window * f == c.window * g && probs[g] < c.negThreshold;
      if f < g {
        ProductLess(f, g, c.window);
      } else if g < f {
        ProductLess(g, f, c.window);
      }
    }
  }

  lemma NoPauseFrom(probs: seq<real>, c: Settings, cur: int, d: int)
    ensures AllShort(probs, c, cur, cur + 1, d)
  {
    hide Silent, Speech;
  }

  // A segment begins.
  lemma BeginRight(s: Scan, cur: int, probs: seq<real>, c: Settings)
    requires !s.isSpeech && Fields(s, cur - c.window, c) && EndInv(s, cur - c.window, probs, c)
    ensures EndInv(s.(isSpeech := true, start := cur, hasCurr := true), cur, probs, c)
  {
    hide Speech, Silent, EndsRight, Lasts;
    NoPauseFrom(probs, c, cur, c.minSilence);
    NoPauseFrom(probs, c, cur, SPLIT_SILENCE + 1);
  }

  // An overlong segment without a long pause is cut.
  lemma CutRight(s: Scan, q: nat, cur: int, probs: seq<real>, c: Settings)
    requires c.window > 0 && cur == c.window * q && Kept(s, cur - c.window + 1, probs, c)
    requires s.isSpeech && s.prevEnd == 0 && s.nextStart == 0 && cur - s.start > c.maxSpeech
    ensures EndInv(Cut(s, cur), cur, probs, c)
  {
    hide Speech, Silent, Pause, Short, Lasts, Counted;
    UpToHere(probs, c, q, s.start, c.minSilence);
    UpToHere(probs, c, q, s.start, SPLIT_SILENCE + 1);
    hide AllShort;
    AppendRight(s.speeches, Segment(s.start, cur), probs, c);
  }

  // One with a long pause is split there.
  lemma SplitRight(s: Scan, q: nat, cur: int, probs: seq<real>, c: Settings)
    requires c.window > 0 && cur == c.window * q && SplitFrame(probs, c, cur)
    requires Kept(s, cur - c.window + 1, probs, c)
    requires s.isSpeech && s.prevEnd != 0 && cur - s.start > c.maxSpeech && s.start <= s.prevEnd < cur
    requires s.nextStart == 0 || s.start <= s.nextStart
    ensures Kept(Split(s), cur - c.window + 1, probs, c)
  {
    hide Speech, Silent, Pause, Short, Lasts, SplitFrame;
    UpToHere(probs, c, q, s.start, c.minSilence);
    AllShortFrom(probs, c, s.start, cur, s.start, s.prevEnd, c.minSilence);
    var g := Segment(s.start, s.prevEnd);
    assert EndsRight(g, probs, c);
    AppendRight(s.speeches, g, probs, c);
    if s.nextStart >= s.prevEnd {
      AllShortFrom(probs, c, s.start, cur - c.window + 1, s.nextStart, cur - c.window + 1, c.minSilence);
    }
  }

  // A frame of speech.
  lemma ResumeKept(s: Scan, curr: real, cur: int, probs: seq<real>, c: Settings)
    requires c.window > 0 && Kept(s, cur - c.window + 1, probs, c) && s.nextStart >= 0
    ensures Kept(Resume(s, curr, cur, c), cur - c.window + 1, probs, c)
  {
    hide Speech, Silent, EndsRight, Pause, Short, Lasts;
    NoPauseFrom(probs, c, cur, SPLIT_SILENCE + 1);
    hide AllShort;
    if s.nextStart < s.prevEnd {
      AllShortFrom(probs, c, cur, cur + 1, cur, cur - c.window + 1, SPLIT_SILENCE + 1);
    }
  }

  // The frame after Resume and Trim.
  lemma RestRight(s: Scan, t: Scan, q: nat, curr: real, cur: int, probs: seq<real>, c: Settings)
    requires c.window > 0 && cur == c.window * q && c.negThreshold <= c.threshold
    requires curr >= c.threshold <==> Speech(probs, c, cur)
    requires curr < c.negThreshold <==> Silent(probs, c, cur)
    requires Kept(t, cur - c.window + 1, probs, c) && Mid(t, curr, cur, probs, c)
             && Quiet(t, cur - c.window, probs, c)
    requires t.isSpeech && !Speech(probs, c, cur) ==>
               (Counted(s, cur - c.window, probs, c) && t.start == s.start && t.tempEnd == s.tempEnd)
               || (SplitFrame(probs, c, cur) && t.tempEnd == 0)
    requires q == 0 ==> !t.isSpeech
    ensures EndInv(Silence(t, curr, cur, c), cur, probs, c)
  {
    hide Speech, Silent, EndsRight, Pause, Short, Lasts, SplitFrame, CountedFrom, RawSegs, Ends;
    if t.isSpeech {
      var u := if curr < c.negThreshold then t.(tempEnd := SilenceStart(t, cur)) else t;
      ProductLess(0, q, c.window);
      if Speech(probs, c, cur) {
        CountSpeech(u, probs, c, cur);
      } else if SplitFrame(probs, c, cur) && t.tempEnd == 0 {
        CountSplit(u, probs, c, q, cur);
      } else {
        CountOn(s, u, probs, c, q, cur);
      }
      if curr < c.negThreshold {
        QuietNow(t, q, cur, probs, c);
        SilenceRight(t, q, curr, cur, probs, c);
      } else {
        NothingNew(probs, c, q, t.start, c.minSilence);
        if t.nextStart >= t.prevEnd {
          NothingNew(probs, c, q, Since(t), SPLIT_SILENCE + 1);
        }
      }
    }
  }

  lemma QuietNow(s: Scan, q: nat, cur: int, probs: seq<real>, c: Settings)
    requires cur == c.window * q && Quiet(s, cur - c.window, probs, c) && !Speech(probs, c, cur)
    ensures Quiet(s, cur, probs, c)
  {
    hide Speech, QuietAt;
    forall y | y <= cur && Speech(probs, c, y)
      ensures QuietAt(s, y)
    {
      FramesApart(probs, y, q, c);
    }
  }

  lemma StepRight(s: Scan, q: nat, curr: real, cur: int, probs: seq<real>, c: Settings)
    requires c.window > 0 && cur == c.window * q && c.negThreshold <= c.threshold && q < |probs|
    requires s == Run(probs, q, c) && curr == probs[q]
    requires Inv(s, cur - c.window, probs, c) && EndInv(s, cur - c.window, probs, c)
    requires Quiet(s, cur - c.window, probs, c)
    requires curr >= c.threshold <==> Speech(probs, c, cur)
    requires curr < c.negThreshold <==> Silent(probs, c, cur)
    ensures EndInv(Step(s, curr, cur, c), cur, probs, c)
  {
    ProductLe(0, q, c.window);
    ResumeKeeps(s, curr, cur, cur - c.window, probs, c);
    hide Speech, Silent, RawSegs, Silence, Split, Counted, Kept, Quiet, Ends, Run;
    ResumeKept(s, curr, cur, probs, c);
    QuietResumes(s, curr, cur, probs, c);
    var r := Resume(s, curr, cur, c);
    if curr >= c.threshold && !r.isSpeech {
      BeginRight(s, cur, probs, c);
    } else if Overlong(r, cur, c) && r.prevEnd == 0 {
      CutRight(r, q, cur, probs, c);
    } else {
      var t := Trim(r, cur, c);
      TrimMid(r, curr, cur, probs, c);
      if Overlong(r, cur, c) {
        assert SplitFrame(probs, c, cur);
        SplitRight(r, q, cur, probs, c);
        SplitForgets(r);
      }
      RestRight(s, t, q, curr, cur, probs, c);
    }
  }

  lemma SplitForgets(s: Scan)
    ensures Split(s).tempEnd == 0
  {
  }

  /* ---- the whole scan ---- */

  lemma {:induction false} RunRight(probs: seq<real>, k: nat, c: Settings)
    requires c.window > 0 && c.negThreshold <= c.threshold && k <= |probs|
    ensures EndInv(Run(probs, k, c), c.window * k - c.window, probs, c)
  {
    hide Speech, Silent, Step, Inv, EndInv, Quiet;
    if k == 0 {
      NothingEnded(probs, c);
    } else {
      var q := k - 1;
      RunRight(probs, q, c);
      assert c.window * k - c.window == c.window * q;
      RunKeeps(probs, q, c);
      RunQuiet(probs, q, c);
      FrameIsSpeech(probs, q, c);
      FrameIsSilent(probs, q, c);
      RunUnfolds(probs, q, c);
      hide Run;
      StepRight(Run(probs, q, c), q, probs[q], c.window * q, probs, c);
    }
  }

  lemma NothingEnded(probs: seq<real>, c: Settings)
    ensures EndInv(START, 0 - c.window, probs, c)
  {
  }

  // Every raw segment ends where it should, and not before.
  lemma RawEndsRight(probs: seq<real>, nWindow: nat, p: Params, i: nat)
    requires nWindow > 0 && ValidParams(p) && i < |RawSegments(probs, Configure(p, nWindow))|
    ensures EndsRight(RawSegments(probs, Configure(p, nWindow))[i], probs, Configure(p, nWindow))
  {
    var c := Configure(p, nWindow);
    assert c.negThreshold <= c.threshold && c.window == nWindow;
    hide Configure, Speech, Silent, Pause, Short, Lasts, NoSpeech, Counted;
    RunRight(probs, |probs|, c);
    var s, length := Run(probs, |probs|, c), c.window * |probs|;
    RunKeeps(probs, |probs|, c);
    if i == |s.speeches| {
      UpToHere(probs, c, |probs|, s.start, c.minSilence);
    }
  }

  // A split does let a segment run on over a pause that lasts for the minimum: of these eleven
  // frames of 100 ms the seventh is silent, the eighth splits the segment, and the pause is counted
  // from there; it lasts for the 300 ms that should have ended the segment.
  lemma PauseForgotten(probs: seq<real>, p: Params)
    requires probs == [1.0, 0.0, 0.0, 0.0, 1.0, 1.0, 0.0, 0.0, 0.0, 0.0, 1.0] && p == Params(0.5, 0, 300, 1.0, 150)
    ensures var c := Configure(p, 1600);
            && RawSegments(probs, c) == [Segment(0, 1600), Segment(6400, 17600)]
            && Pause(probs, c, 9600, 14400) && 14400 - 9600 >= c.minSilence
  {
    var c := Configure(p, 1600);
    assert 1.0.Floor == 1;
    assert c == Settings(1600, 0.5, 0.35, 9600, 4800, 0, 2400);
    hide Configure;
    SplitOff(probs, c);
    RunsOn(probs, c);
    hide Run;
    forall y | 9600 <= y < 14401
      ensures !Speech(probs, c, y)
    {
    }
    FrameIsSilent(probs, 6, c);
    FrameIsSilent(probs, 9, c);
  }

  lemma SplitOff(probs: seq<real>, c: Settings)
    requires probs == [1.0, 0.0, 0.0, 0.0, 1.0, 1.0, 0.0, 0.0, 0.0, 0.0, 1.0]
    requires c == Settings(1600, 0.5, 0.35, 9600, 4800, 0, 2400)
    ensures Run(probs, 8, c) == Scan([Segment(0, 1600)], true, true, 6400, 11200, 0, 0)
  {
    RunUnfolds(probs, 0, c);
    assert Run(probs, 1, c) == Scan([], true, true, 0, 0, 0, 0);
    RunUnfolds(probs, 1, c);
    assert Run(probs, 2, c) == Scan([], true, true, 0, 1600, 0, 0);
    RunUnfolds(probs, 2, c);
    assert Run(probs, 3, c) == Scan([], true, true, 0, 1600, 1600, 0);
    RunUnfolds(probs, 3, c);
    assert Run(probs, 4, c) == Scan([], true, true, 0, 1600, 1600, 0);
    RunUnfolds(probs, 4, c);
    assert Run(probs, 5, c) == Scan([], true, true, 0, 0, 1600, 6400);
    RunUnfolds(probs, 5, c);
    assert Run(probs, 6, c) == Scan([], true, true, 0, 0, 1600, 6400);
    RunUnfolds(probs, 6, c);
    assert Run(probs, 7, c) == Scan([], true, true, 0, 9600, 1600, 6400);
    RunUnfolds(probs, 7, c);
  }

  lemma RunsOn(probs: seq<real>, c: Settings)
    requires probs == [1.0, 0.0, 0.0, 0.0, 1.0, 1.0, 0.0, 0.0, 0.0, 0.0, 1.0]
    requires c == Settings(1600, 0.5, 0.35, 9600, 4800, 0, 2400)
    requires Run(probs, 8, c) == Scan([Segment(0, 1600)], true, true, 6400, 11200, 0, 0)
    ensures Run(probs, 11, c) == Scan([Segment(0, 1600)], true, true, 6400, 0, 11200, 16000)
  {
    RunUnfolds(probs, 8, c);
    assert Run(probs, 9, c) == Scan([Segment(0, 1600)], true, true, 6400, 11200, 11200, 0);
    RunUnfolds(probs, 9, c);
    assert Run(probs, 10, c) == Scan([Segment(0, 1600)], true, true, 6400, 11200, 11200, 0);
    RunUnfolds(probs, 10, c);
  }
}
