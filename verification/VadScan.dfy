/**
 Voice activity detection, first pass: a state machine over the speech probabilities of the
 frames that cuts the audio into raw speech segments, in samples.
 */
module VadScan {

  datatype Segment = Segment(start: int, end: int)

  const SAMPLE_RATE := 16000
  const INT_MAX := 0x7FFF_FFFF
  // Half of INT_MAX, rounded down.
  const UNLIMITED := 0x3FFF_FFFF

  const SAMPLES_PER_MS := 16

  // Milliseconds to samples, at 16000 samples a second.
  function Samples(ms: nat): nat { SAMPLES_PER_MS * ms }

  // Silence longer than this marks a place where an overlong segment may be split.
  const SPLIT_SILENCE := Samples(98)

  // What the caller chooses; the maximum duration is in seconds.
  datatype Params = Params(threshold: real, minSpeechMs: nat, minSilenceMs: nat, maxSpeechSeconds: real, padMs: nat)

  // What the scan works with, in samples.
  datatype Settings = Settings(window: nat, threshold: real, negThreshold: real,
                               maxSpeech: nat, minSilence: nat, minSpeech: nat, pad: nat)

  predicate ValidParams(p: Params) { p.threshold >= 0.01 && p.maxSpeechSeconds >= 0.0 }

  function MaxSpeech(seconds: real, window: nat, pad: nat): nat {
    if seconds > 100000.0 then UNLIMITED
    else
      var temp := SAMPLE_RATE * seconds.Floor - window - 2 * pad;
      var n := if temp > INT_MAX then UNLIMITED else temp;
      if n < 0 then UNLIMITED else n
  }

  function Configure(p: Params, window: nat): (c: Settings)
    ensures ValidParams(p) ==> c.negThreshold <= c.threshold
    ensures c.window == window
  {
    var neg := if p.threshold - 0.15 < 0.01 then 0.01 else p.threshold - 0.15;
    Settings(window, p.threshold, neg, MaxSpeech(p.maxSpeechSeconds, window, Samples(p.padMs)),
             Samples(p.minSilenceMs), Samples(p.minSpeechMs), Samples(p.padMs))
  }

  /* ---- the state machine ---- */

  // The local variables of the scan; 0 stands for "none" in the last three.
  datatype Scan = Scan(speeches: seq<Segment>, isSpeech: bool, hasCurr: bool, start: int, tempEnd: int, prevEnd: int,
                       nextStart: int)

  const START := Scan([], false, false, 0, 0, 0, 0)

  function Idle(s: Scan): Scan {
    s.(prevEnd := 0, nextStart := 0, tempEnd := 0, isSpeech := false, hasCurr := false)
  }

  // A frame of speech ends a silence.
  function Resume(s: Scan, curr: real, cur: int, c: Settings): Scan {
    if curr >= c.threshold && s.tempEnd != 0 then
      s.(tempEnd := 0, nextStart := if s.nextStart < s.prevEnd then cur else s.nextStart)
    else s
  }

  // An overlong segment is split at its last long silence.
  function Split(s: Scan): Scan {
    var cut := s.(speeches := s.speeches + [Segment(s.start, s.prevEnd)]);
    if s.nextStart < s.prevEnd then Idle(cut)
    else cut.(hasCurr := true, start := s.nextStart, prevEnd := 0, nextStart := 0, tempEnd := 0)
  }

  // Without a long silence it is cut at this frame.
  function Cut(s: Scan, cur: int): Scan {
    Idle(s.(speeches := s.speeches + [Segment(s.start, cur)]))
  }

  predicate Overlong(s: Scan, cur: int, c: Settings) { s.isSpeech && cur - s.start > c.maxSpeech }

  // Silence, which ends the segment once it has lasted long enough.
  function Silence(s: Scan, curr: real, cur: int, c: Settings): Scan {
    if !(curr < c.negThreshold && s.isSpeech) then s
    else
      var a := if s.tempEnd == 0 then s.(tempEnd := cur) else s;
      var b := if cur - a.tempEnd > SPLIT_SILENCE then a.(prevEnd := a.tempEnd) else a;
      if cur - b.tempEnd < c.minSilence then b
      else if b.tempEnd - b.start > c.minSpeech then Idle(b.(speeches := b.speeches + [Segment(b.start, b.tempEnd)]))
      else Idle(b)
  }

  // The state on which silence is looked for.
  function Trim(s: Scan, cur: int, c: Settings): Scan { if Overlong(s, cur, c) then Split(s) else s }

  // One frame.
  function Step(s0: Scan, curr: real, cur: int, c: Settings): Scan {
    var s := Resume(s0, curr, cur, c);
    if curr >= c.threshold && !s.isSpeech then s.(isSpeech := true, start := cur, hasCurr := true)
    else if Overlong(s, cur, c) && s.prevEnd == 0 then Cut(s, cur)
    else Silence(Trim(s, cur, c), curr, cur, c)
  }

  // The state after the first k frames.
  function Run(probs: seq<real>, k: nat, c: Settings): Scan
    requires k <= |probs|
  {
    if k == 0 then START else Step(Run(probs, k - 1, c), probs[k - 1], c.window * (k - 1), c)
  }

  // The raw segments of the whole audio.
  function RawSegments(probs: seq<real>, c: Settings): seq<Segment> {
    var s := Run(probs, |probs|, c);
    var length := c.window * |probs|;
    if s.hasCurr && length - s.start > c.minSpeech then s.speeches + [Segment(s.start, length)] else s.speeches
  }

  // Silence after speech, on the scan's variables.
  method OnSilence(s: Scan, cur: int, c: Settings) returns (t: Scan)
    requires s.isSpeech
    ensures forall curr :: curr < c.negThreshold ==> t == Silence(s, curr, cur, c)
  {
    t := s;
    if t.tempEnd == 0 {
      t := t.(tempEnd := cur);
    }
    if cur - t.tempEnd > SPLIT_SILENCE {
      t := t.(prevEnd := t.tempEnd);
    }
    if cur - t.tempEnd < c.minSilence {
      return;
    }
    if t.tempEnd - t.start > c.minSpeech {
      t := t.(speeches := t.speeches + [Segment(t.start, t.tempEnd)]);
    }
    t := t.(prevEnd := 0, nextStart := 0, tempEnd := 0, isSpeech := false, hasCurr := false);
  }

  // Maximum duration reached with a long silence on record.
  method OnOverlong(s: Scan) returns (t: Scan)
    ensures t == Split(s)
  {
    t := s.(speeches := s.speeches + [Segment(s.start, s.prevEnd)], hasCurr := true);
    if t.nextStart < t.prevEnd {
      t := t.(isSpeech := false, hasCurr := false);
    } else {
      t := t.(start := t.nextStart);
    }
    t := t.(prevEnd := 0, nextStart := 0, tempEnd := 0);
  }

  method ScanProbs(probs: seq<real>, nWindow: nat, p: Params) returns (speeches: seq<Segment>)
    ensures speeches == RawSegments(probs, Configure(p, nWindow))
  {
    var c := Configure(p, nWindow);
    var audioLength := nWindow * |probs|;
    var s := START;
    hide Configure, Split, Silence;
    for i := 0 to |probs|
      invariant s == Run(probs, i, c)
    {
      var curr, cur := probs[i], nWindow * i;
      // back to speech
      if curr >= c.threshold && s.tempEnd != 0 {
        s := s.(tempEnd := 0);
        if s.nextStart < s.prevEnd {
          s := s.(nextStart := cur);
        }
      }
      // a new segment
      if curr >= c.threshold && !s.isSpeech {
        s := s.(isSpeech := true, start := cur, hasCurr := true);
        continue;
      }
      if s.isSpeech && cur - s.start > c.maxSpeech {
        if s.prevEnd != 0 {
          s := OnOverlong(s);
        } else {
          s := Idle(s.(speeches := s.speeches + [Segment(s.start, cur)]));
          continue;
        }
      }
      if curr < c.negThreshold && s.isSpeech {
        s := OnSilence(s, cur, c);
      } else {
        NoSilence(s, curr, cur, c);
      }
    }
    // still in speech at the end
    speeches := s.speeches;
    if s.hasCurr && audioLength - s.start > c.minSpeech {
      speeches := speeches + [Segment(s.start, audioLength)];
    }
  }

  lemma NoSilence(s: Scan, curr: real, cur: int, c: Settings)
    requires !(curr < c.negThreshold && s.isSpeech)
    ensures Silence(s, curr, cur, c) == s
  {
  }

  /* ---- raw segments ---- */

  // Sample x starts a frame of speech.
  ghost predicate Speech(probs: seq<real>, c: Settings, x: int) {
    exists f :: 0 <= f < |probs| && x == c.window * f && probs[f] >= c.threshold
  }

  // Sample x starts a frame of silence.
  ghost predicate Silent(probs: seq<real>, c: Settings, x: int) {
    exists f :: 0 <= f < |probs| && x == c.window * f && probs[f] < c.negThreshold
  }

  // A segment starts with speech, is at least a frame long and not overlong, and ends at silence,
  // at the end of the audio, or because it was overlong.
  ghost predicate RawSegment(g: Segment, probs: seq<real>, c: Settings) {
    && Speech(probs, c, g.start)
    && 0 <= g.start < g.end && c.window <= g.end - g.start <= c.maxSpeech + c.window
    && (Silent(probs, c, g.end) || g.end == c.window * |probs| || g.end - g.start > c.maxSpeech)
  }

  function LastEnd(segs: seq<Segment>): int {
    if segs == [] then 0 else segs[|segs| - 1].end
  }

  // The silence before segment i.
  function Gap(segs: seq<Segment>, i: int): int
    requires 0 < i < |segs|
  {
    segs[i].start - segs[i - 1].end
  }

  // Non-empty segments inside [0, limit], each at least `gap` after the one before it.
  predicate Spaced(segs: seq<Segment>, gap: int, limit: int) {
    && (forall i :: 0 <= i < |segs| ==> 0 <= segs[i].start < segs[i].end <= limit)
    && forall i :: 0 < i < |segs| ==> Gap(segs, i) >= gap
  }

  lemma SpacedAppend(segs: seq<Segment>, g: Segment, gap: int, limit: int, limit': int)
    requires Spaced(segs, gap, limit) && limit <= limit'
    requires 0 <= g.start < g.end <= limit' && (segs != [] ==> g.start - LastEnd(segs) >= gap)
    ensures Spaced(segs + [g], gap, limit')
  {
    forall i | 0 < i < |segs| + 1
      ensures Gap(segs + [g], i) >= gap
    {
      assert i < |segs| ==> Gap(segs + [g], i) == Gap(segs, i);
    }
  }

  ghost predicate RawSegs(segs: seq<Segment>, limit: int, probs: seq<real>, c: Settings) {
    && Spaced(segs, 1, limit)
    && forall i :: 0 <= i < |segs| ==> RawSegment(segs[i], probs, c)
  }

  lemma AppendRaw(segs: seq<Segment>, g: Segment, limit: int, limit': int, probs: seq<real>, c: Settings)
    requires RawSegs(segs, limit, probs, c) && limit <= limit'
    ensures RawSegs(segs, limit', probs, c) && (0 <= limit' ==> LastEnd(segs) <= limit')
    ensures (segs != [] ==> LastEnd(segs) < g.start) && g.end <= limit' && RawSegment(g, probs, c) ==>
              RawSegs(segs + [g], limit', probs, c) && LastEnd(segs + [g]) == g.end
  {
    hide Speech, Silent;
    if (segs != [] ==> LastEnd(segs) < g.start) && g.end <= limit' && RawSegment(g, probs, c) {
      SpacedAppend(segs, g, 1, limit, limit');
    }
  }

  /* ---- what every frame keeps ---- */

  // The scan after the frame that starts at `cur`.
  ghost predicate Inv(s: Scan, cur: int, probs: seq<real>, c: Settings) {
    && RawSegs(s.speeches, cur, probs, c)
    && Fields(s, cur, c) && Ends(s, probs, c)
    && (s.isSpeech ==> cur - s.start <= c.maxSpeech)
  }

  predicate Fields(s: Scan, cur: int, c: Settings) {
    && s.hasCurr == s.isSpeech
    && (s.isSpeech ==> 0 <= s.start <= cur && (s.speeches != [] ==> LastEnd(s.speeches) < s.start))
    && (!s.isSpeech ==> s.tempEnd == 0 && s.prevEnd == 0 && s.nextStart == 0)
    && (s.tempEnd == 0 || s.start + c.window <= s.tempEnd <= cur)
    && (s.prevEnd == 0 || s.start + c.window <= s.prevEnd <= cur)
    && (s.nextStart == 0 || (s.prevEnd != 0 && s.start + c.window <= s.nextStart <= cur && s.nextStart != s.prevEnd))
    && (s.nextStart != 0 && s.tempEnd != 0 ==> s.nextStart < s.tempEnd)
    && (s.prevEnd != 0 && s.nextStart < s.prevEnd ==> s.tempEnd == s.prevEnd)
  }

  ghost predicate Ends(s: Scan, probs: seq<real>, c: Settings) {
    && (s.isSpeech ==> Speech(probs, c, s.start))
    && (s.tempEnd == 0 || Silent(probs, c, s.tempEnd))
    && (s.prevEnd == 0 || Silent(probs, c, s.prevEnd))
    && (s.nextStart == 0 || Speech(probs, c, s.nextStart))
  }

  // In the middle of a frame: silence found now would begin after everything recorded.
  ghost predicate Mid(s: Scan, curr: real, cur: int, probs: seq<real>, c: Settings) {
    && RawSegs(s.speeches, cur, probs, c)
    && Fields(s, cur, c) && Ends(s, probs, c)
    && (curr < c.negThreshold && s.isSpeech ==>
         s.start + c.window <= cur && (s.nextStart != 0 ==> s.nextStart + c.window <= cur))
  }

  lemma ResumeKeeps(s: Scan, curr: real, cur: int, before: int, probs: seq<real>, c: Settings)
    requires c.window > 0 && before + c.window == cur && 0 <= cur && c.negThreshold <= c.threshold
    requires Inv(s, before, probs, c)
    requires curr >= c.threshold ==> Speech(probs, c, cur)
    ensures Mid(Resume(s, curr, cur, c), curr, cur, probs, c)
    ensures Resume(s, curr, cur, c).isSpeech == s.isSpeech && Resume(s, curr, cur, c).start == s.start
    ensures s.speeches != [] ==> LastEnd(Resume(s, curr, cur, c).speeches) < cur
    ensures Resume(s, curr, cur, c).speeches == s.speeches
  {
    hide Speech, Silent;
    AppendRaw(s.speeches, Segment(0, 0), before, cur, probs, c);
  }

  lemma SplitKeeps(s: Scan, curr: real, cur: int, probs: seq<real>, c: Settings)
    requires Mid(s, curr, cur, probs, c) && s.prevEnd != 0 && c.window > 0
    requires cur - s.start <= c.maxSpeech + c.window
    ensures Mid(Split(s), curr, cur, probs, c)
    ensures Split(s).isSpeech ==> s.start + c.window <= Split(s).start
  {
    hide RawSegs, Speech, Silent;
    AppendRaw(s.speeches, Segment(s.start, s.prevEnd), cur, cur, probs, c);
  }

  lemma CutKeeps(s: Scan, curr: real, cur: int, probs: seq<real>, c: Settings)
    requires Mid(s, curr, cur, probs, c) && s.isSpeech && s.start + c.window <= cur && c.window > 0
    requires c.maxSpeech < cur - s.start <= c.maxSpeech + c.window
    ensures Inv(Cut(s, cur), cur, probs, c)
  {
    hide RawSegs, Speech, Silent;
    AppendRaw(s.speeches, Segment(s.start, cur), cur, cur, probs, c);
  }

  lemma SilenceKeeps(s: Scan, curr: real, cur: int, probs: seq<real>, c: Settings)
    requires Mid(s, curr, cur, probs, c) && c.window > 0
    requires s.isSpeech ==> cur - s.start <= c.maxSpeech
    requires curr < c.negThreshold ==> Silent(probs, c, cur)
    ensures Inv(Silence(s, curr, cur, c), cur, probs, c)
  {
    hide RawSegs, Speech, Silent;
    var temp := if s.tempEnd == 0 then cur else s.tempEnd;
    AppendRaw(s.speeches, Segment(s.start, temp), cur, cur, probs, c);
  }

  lemma StepKeeps(s: Scan, curr: real, cur: int, probs: seq<real>, c: Settings)
    requires c.window > 0 && 0 <= cur && c.negThreshold <= c.threshold
    requires Inv(s, cur - c.window, probs, c)
    requires curr >= c.threshold ==> Speech(probs, c, cur)
    requires curr < c.negThreshold ==> Silent(probs, c, cur)
    ensures Inv(Step(s, curr, cur, c), cur, probs, c)
  {
    hide RawSegs, Speech, Silent, Silence, Split, Resume, Cut;
    ResumeKeeps(s, curr, cur, cur - c.window, probs, c);
    var r := Resume(s, curr, cur, c);
    if curr >= c.threshold && !r.isSpeech {
    } else if r.isSpeech && cur - r.start > c.maxSpeech {
      if r.prevEnd != 0 {
        SplitKeeps(r, curr, cur, probs, c);
        SilenceKeeps(Split(r), curr, cur, probs, c);
      } else {
        CutKeeps(r, curr, cur, probs, c);
      }
    } else {
      SilenceKeeps(r, curr, cur, probs, c);
    }
  }

  // Every step of every scan: the two speech flags agree, and the segments so far are raw.
  lemma {:induction false} RunKeeps(probs: seq<real>, k: nat, c: Settings)
    requires c.window > 0 && c.negThreshold <= c.threshold && k <= |probs|
    ensures Inv(Run(probs, k, c), c.window * k - c.window, probs, c)
    ensures Run(probs, k, c).hasCurr == Run(probs, k, c).isSpeech
  {
    hide Speech, Silent, Step;
    if k > 0 {
      RunKeeps(probs, k - 1, c);
      var cur := c.window * (k - 1);
      assert cur - c.window == c.window * (k - 1) - c.window && c.window * k - c.window == cur && 0 <= cur;
      FrameKinds(probs, k - 1, c);
      StepKeeps(Run(probs, k - 1, c), probs[k - 1], cur, probs, c);
    }
  }

  lemma FrameKinds(probs: seq<real>, f: nat, c: Settings)
    requires f < |probs|
    ensures probs[f] >= c.threshold ==> Speech(probs, c, c.window * f)
    ensures probs[f] < c.negThreshold ==> Silent(probs, c, c.window * f)
  {
  }

  // For any probabilities the raw segments are non-empty, in order, apart, inside the audio and
  // of bounded length, and each starts and ends for a reason.
  lemma SegmentsAreRaw(probs: seq<real>, nWindow: nat, p: Params)
    requires nWindow > 0 && ValidParams(p)
    ensures RawSegs(RawSegments(probs, Configure(p, nWindow)), nWindow * |probs|, probs, Configure(p, nWindow))
  {
    hide Speech, Silent, Configure, RawSegs;
    var c := Configure(p, nWindow);
    RunKeeps(probs, |probs|, c);
    var s, length := Run(probs, |probs|, c), nWindow * |probs|;
    AppendRaw(s.speeches, Segment(s.start, length), length - nWindow, length, probs, c);
  }
}
