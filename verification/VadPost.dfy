/**
 Voice activity detection, second pass: raw segments closer than 200 ms are merged, short ones
 dropped, the rest padded and rounded to centiseconds.
 */
module VadPost {
  import opened VadScan

  // 200 ms.
  const MERGE_GAP := Samples(200)

  // Samples per centisecond.
  const CS := 160

  function SamplesToCs(s: nat): nat { (s + CS / 2) / CS }

  function CsToSamples(c: nat): nat { c * CS }

  function Last(segs: seq<Segment>): Segment
    requires segs != []
  {
    segs[|segs| - 1]
  }

  function Init(segs: seq<Segment>): seq<Segment>
    requires segs != []
  {
    segs[..|segs| - 1]
  }

  lemma SpacedInit(segs: seq<Segment>, gap: int, limit: int)
    requires Spaced(segs, gap, limit) && segs != []
    ensures Spaced(Init(segs), gap, limit)
    ensures 0 <= Last(segs).start < Last(segs).end <= limit
    ensures Init(segs) != [] ==> Last(segs).start - Last(Init(segs)).end >= gap
  {
    forall i | 0 < i < |Init(segs)|
      ensures Gap(Init(segs), i) >= gap
    {
      assert Gap(Init(segs), i) == Gap(segs, i);
    }
    if |segs| > 1 {
      assert Gap(segs, |segs| - 1) >= gap;
    }
  }

  lemma RawIsSpaced(segs: seq<Segment>, limit: int, probs: seq<real>, c: Settings)
    requires RawSegs(segs, limit, probs, c)
    ensures Spaced(segs, 0, limit)
  {
  }

  /* ---- merging ---- */

  function Merged(segs: seq<Segment>): (m: seq<Segment>)
    ensures segs != [] ==> m != [] && Last(m).end == Last(segs).end
    ensures |m| <= |segs|
  {
    if |segs| <= 1 then segs
    else
      var m, next := Merged(Init(segs)), Last(segs);
      if next.start - Last(m).end < MERGE_GAP then Init(m) + [Segment(Last(m).start, next.end)] else m + [next]
  }

  // Run i of m is made of the segments cuts[i] to cuts[i + 1], and reaches from the start of the
  // first to the end of the last.
  predicate IsRun(segs: seq<Segment>, cuts: seq<int>, m: seq<Segment>, i: int)
    requires |cuts| == |m| + 1 && 0 <= i < |m|
  {
    0 <= cuts[i] < cuts[i + 1] <= |segs| && m[i] == Segment(segs[cuts[i]].start, segs[cuts[i + 1] - 1].end)
  }

  // m consists of the maximal runs of segments less than 200 ms apart.
  ghost predicate Runs(segs: seq<Segment>, cuts: seq<int>, m: seq<Segment>) {
    && |cuts| == |m| + 1 && cuts[0] == 0 && cuts[|m|] == |segs|
    && (forall i :: 0 <= i < |m| ==> IsRun(segs, cuts, m, i))
    && (forall j :: 0 < j < |segs| ==> (Gap(segs, j) >= MERGE_GAP <==> j in cuts))
  }

  lemma JoinRun(segs: seq<Segment>, cuts: seq<int>, m: seq<Segment>, next: Segment)
    requires segs != [] && m != [] && Runs(segs, cuts, m)
    requires next.start - Last(segs).end < MERGE_GAP
    ensures Runs(segs + [next], cuts[|m| := |segs| + 1], Init(m) + [Segment(Last(m).start, next.end)])
  {
    var all, cuts', m' := segs + [next], cuts[|m| := |segs| + 1], Init(m) + [Segment(Last(m).start, next.end)];
    forall i | 0 <= i < |m'|
      ensures IsRun(all, cuts', m', i)
    {
      assert IsRun(segs, cuts, m, i);
    }
    forall j | 0 < j < |all|
      ensures Gap(all, j) >= MERGE_GAP <==> j in cuts'
    {
      if j < |segs| {
        assert Gap(all, j) == Gap(segs, j);
        if j in cuts {
          var i :| 0 <= i < |cuts| && cuts[i] == j;
          assert cuts'[i] == j;
        }
      } else {
        forall i | 0 <= i < |m|
          ensures cuts'[i] < |segs|
        {
          assert IsRun(segs, cuts, m, i);
        }
      }
    }
  }

  lemma NewRun(segs: seq<Segment>, cuts: seq<int>, m: seq<Segment>, next: Segment)
    requires segs != [] && m != [] && Runs(segs, cuts, m)
    requires next.start - Last(segs).end >= MERGE_GAP
    ensures Runs(segs + [next], cuts + [|segs| + 1], m + [next])
  {
    var all, cuts', m' := segs + [next], cuts + [|segs| + 1], m + [next];
    forall i | 0 <= i < |m'|
      ensures IsRun(all, cuts', m', i)
    {
      assert i < |m| ==> IsRun(segs, cuts, m, i);
    }
    forall j | 0 < j < |all|
      ensures Gap(all, j) >= MERGE_GAP <==> j in cuts'
    {
      if j < |segs| {
        assert Gap(all, j) == Gap(segs, j);
      } else {
        assert cuts'[|m|] == j;
      }
    }
  }

  // Merging forms exactly the maximal runs.
  lemma {:induction false} MergedRuns(segs: seq<Segment>) returns (cuts: seq<int>)
    ensures Runs(segs, cuts, Merged(segs))
  {
    if |segs| == 0 {
      cuts := [0];
    } else if |segs| == 1 {
      cuts := [0, 1];
      assert IsRun(segs, cuts, segs, 0);
    } else {
      var m, next := Merged(Init(segs)), Last(segs);
      cuts := MergedRuns(Init(segs));
      assert segs == Init(segs) + [next];
      cuts := ExtendRuns(Init(segs), cuts, m, next);
    }
  }

  lemma ExtendRuns(segs: seq<Segment>, cuts: seq<int>, m: seq<Segment>, next: Segment) returns (cuts': seq<int>)
    requires segs != [] && m != [] && Last(m).end == Last(segs).end && Runs(segs, cuts, m)
    ensures Runs(segs + [next], cuts',
                 if next.start - Last(m).end < MERGE_GAP then Init(m) + [Segment(Last(m).start, next.end)]
                 else m + [next])
  {
    if next.start - Last(m).end < MERGE_GAP {
      JoinRun(segs, cuts, m, next);
      cuts' := cuts[|m| := |segs| + 1];
    } else {
      NewRun(segs, cuts, m, next);
      cuts' := cuts + [|segs| + 1];
    }
  }

  // Merging leaves every gap at least 200 ms wide.
  lemma {:induction false} MergedSpaced(segs: seq<Segment>, limit: int)
    requires Spaced(segs, 0, limit)
    ensures Spaced(Merged(segs), MERGE_GAP, limit)
  {
    if |segs| > 1 {
      hide Spaced;
      var m, next := Merged(Init(segs)), Last(segs);
      SpacedInit(segs, 0, limit);
      MergedSpaced(Init(segs), limit);
      SpacedInit(m, MERGE_GAP, limit);
      if next.start - Last(m).end < MERGE_GAP {
        SpacedAppend(Init(m), Segment(Last(m).start, next.end), MERGE_GAP, limit, limit);
      } else {
        SpacedAppend(m, next, MERGE_GAP, limit, limit);
      }
    }
  }

  lemma MergedOneMore(segs: seq<Segment>, k: nat)
    requires 1 <= k < |segs|
    ensures Merged(segs[..k]) != []
    ensures var m := Merged(segs[..k]);
            Merged(segs[..k + 1])
            == if segs[k].start - Last(m).end < MERGE_GAP then Init(m) + [Segment(Last(m).start, segs[k].end)]
               else m + [segs[k]]
  {
    var t := segs[..k + 1];
    assert Init(t) == segs[..k] && Last(t) == segs[k] && |t| > 1;
    MergedUnfolds(t);
    hide Merged, Init, Last;
  }

  lemma MergedUnfolds(t: seq<Segment>)
    requires |t| > 1
    ensures Merged(Init(t)) != []
    ensures var m, next := Merged(Init(t)), Last(t);
            Merged(t) == if next.start - Last(m).end < MERGE_GAP then Init(m) + [Segment(Last(m).start, next.end)]
                         else m + [next]
  {
  }

  // The right neighbour of segment i is absorbed.
  method Absorb(speeches: seq<Segment>, i: nat) returns (s: seq<Segment>)
    requires i + 1 < |speeches|
    ensures s == speeches[..i] + [Segment(speeches[i].start, speeches[i + 1].end)] + speeches[i + 2..]
  {
    s := speeches[i := Segment(speeches[i].start, speeches[i + 1].end)];
    s := s[..i + 1] + s[i + 2..];
  }

  // Merging as the source does it: each segment absorbs its right neighbour for as long as the
  // gap is small.
  method MergeAdjacent(raw: seq<Segment>) returns (speeches: seq<Segment>)
    ensures speeches == Merged(raw)
  {
    speeches := raw;
    if |speeches| > 1 {
      var i := 0;
      ghost var k := 1;
      MergingAt(raw, 1);
      hide Merged, Merging;
      while i < |speeches| - 1
        invariant 1 <= k <= |raw| && Merging(raw, k, i, speeches)
        decreases |raw| - k
      {
        MergingStep(raw, k, i, speeches);
        if speeches[i + 1].start - speeches[i].end < MERGE_GAP {
          speeches := Absorb(speeches, i);
          i := i - 1;
        }
        i := i + 1;
        k := k + 1;
      }
      MergingDone(raw, k, i, speeches);
    }
  }

  // The first k segments have been merged into i + 1.
  ghost predicate Merging(raw: seq<Segment>, k: nat, i: int, speeches: seq<Segment>)
    requires k <= |raw|
  {
    i >= 0 && i + 1 == |Merged(raw[..k])| && speeches == Merged(raw[..k]) + raw[k..]
  }

  lemma MergingAt(raw: seq<Segment>, k: nat)
    requires k == 1 <= |raw|
    ensures Merging(raw, 1, 0, raw)
  {
    assert raw[..1] + raw[1..] == raw;
  }

  lemma MergingStep(raw: seq<Segment>, k: nat, i: int, speeches: seq<Segment>)
    requires 1 <= k <= |raw| && Merging(raw, k, i, speeches) && i < |speeches| - 1
    ensures 0 <= i && k < |raw|
    ensures if speeches[i + 1].start - speeches[i].end < MERGE_GAP
            then Merging(raw, k + 1, i,
                speeches[..i] + [Segment(speeches[i].start, speeches[i + 1].end)] + speeches[i + 2..])
            else Merging(raw, k + 1, i + 1, speeches)
  {
    hide Merged;
    MergedOneMore(raw, k);
    var m := Merged(raw[..k]);
    assert speeches[..i] == Init(m) && speeches[i] == Last(m);
    assert speeches[i + 1] == raw[k];
    assert speeches[i + 2..] == raw[k + 1..];
    assert m + [raw[k]] + raw[k + 1..] == m + raw[k..];
  }

  lemma MergingDone(raw: seq<Segment>, k: nat, i: int, speeches: seq<Segment>)
    requires 1 <= k <= |raw| && Merging(raw, k, i, speeches) && i >= |speeches| - 1
    ensures speeches == Merged(raw)
  {
    hide Merged;
    assert raw[..k] == raw;
  }

  /* ---- dropping short segments ---- */

  function Kept(segs: seq<Segment>, minSpeech: nat): seq<Segment> {
    if segs == [] then []
    else Kept(Init(segs), minSpeech) + if Last(segs).end - Last(segs).start < minSpeech then [] else [Last(segs)]
  }

  lemma KeptOneMore(segs: seq<Segment>, k: nat, minSpeech: nat)
    requires k < |segs|
    ensures Kept(segs[..k + 1], minSpeech)
         == Kept(segs[..k], minSpeech) + if segs[k].end - segs[k].start < minSpeech then [] else [segs[k]]
  {
    assert Init(segs[..k + 1]) == segs[..k];
  }

  // The first k segments have been looked at, and i of them kept.
  ghost predicate Dropping(segs: seq<Segment>, minSpeech: nat, k: nat, i: int, speeches: seq<Segment>)
    requires k <= |segs|
  {
    i == |Kept(segs[..k], minSpeech)| && speeches == Kept(segs[..k], minSpeech) + segs[k..]
  }

  lemma DroppingStep(segs: seq<Segment>, minSpeech: nat, k: nat, i: int, speeches: seq<Segment>)
    requires k <= |segs| && Dropping(segs, minSpeech, k, i, speeches) && i < |speeches|
    ensures 0 <= i && k < |segs|
    ensures if speeches[i].end - speeches[i].start < minSpeech
            then Dropping(segs, minSpeech, k + 1, i, speeches[..i] + speeches[i + 1..])
            else Dropping(segs, minSpeech, k + 1, i + 1, speeches)
  {
    hide Kept;
    KeptOneMore(segs, k, minSpeech);
    assert speeches[..i] == Kept(segs[..k], minSpeech) && speeches[i] == segs[k];
    assert speeches[i + 1..] == segs[k + 1..];
    assert speeches[..i] + [segs[k]] + segs[k + 1..] == speeches;
  }

  lemma DroppingEnds(segs: seq<Segment>, minSpeech: nat)
    ensures Dropping(segs, minSpeech, 0, 0, segs)
    ensures forall k: nat, i: nat, s: seq<Segment> :: k <= |segs| && Dropping(segs, minSpeech, k, i, s) && i >= |s| ==>
              s == Kept(segs, minSpeech)
  {
    forall k: nat, i: nat, s: seq<Segment> | k <= |segs| && Dropping(segs, minSpeech, k, i, s) && i >= |s|
      ensures s == Kept(segs, minSpeech)
    {
      assert segs[..k] == segs;
    }
  }

  method DropShort(segs: seq<Segment>, minSpeech: nat) returns (speeches: seq<Segment>)
    ensures speeches == Kept(segs, minSpeech)
  {
    speeches := segs;
    var i := 0;
    ghost var k := 0;
    DroppingEnds(segs, minSpeech);
    hide Kept, Dropping;
    while i < |speeches|
      invariant 0 <= k <= |segs| && i >= 0 && Dropping(segs, minSpeech, k, i, speeches)
      decreases |segs| - k
    {
      DroppingStep(segs, minSpeech, k, i, speeches);
      if speeches[i].end - speeches[i].start < minSpeech {
        speeches := speeches[..i] + speeches[i + 1..];
        i := i - 1;
      }
      i := i + 1;
      k := k + 1;
    }
  }

  // Dropping segments keeps the others in order and the gaps at least as wide.
  lemma {:induction false} KeptSpaced(segs: seq<Segment>, minSpeech: nat, gap: nat, limit: int)
    requires Spaced(segs, gap, limit)
    ensures Spaced(Kept(segs, minSpeech), gap, limit)
    ensures Kept(segs, minSpeech) != [] ==> Last(Kept(segs, minSpeech)).end <= Last(segs).end
  {
    if segs != [] {
      SpacedInit(segs, gap, limit);
      KeptSpaced(Init(segs), minSpeech, gap, limit);
      assert segs == Init(segs) + [Last(segs)];
      hide Spaced;
      if Last(segs).end - Last(segs).start >= minSpeech {
        SpacedAppend(Kept(Init(segs), minSpeech), Last(segs), gap, limit, limit);
      } else {
        assert Kept(segs, minSpeech) == Kept(Init(segs), minSpeech);
      }
    }
  }

  // Exactly the segments that are long enough are kept.
  lemma {:induction false} KeptExactly(segs: seq<Segment>, minSpeech: nat, g: Segment)
    ensures g in Kept(segs, minSpeech) <==> g in segs && g.end - g.start >= minSpeech
  {
    if segs != [] {
      KeptExactly(Init(segs), minSpeech, g);
      assert segs == Init(segs) + [Last(segs)];
      assert g in segs <==> g in Init(segs) || g == Last(segs);
      var tail := if Last(segs).end - Last(segs).start < minSpeech then [] else [Last(segs)];
      assert Kept(segs, minSpeech) == Kept(Init(segs), minSpeech) + tail;
      assert g in Kept(segs, minSpeech) <==> g in Kept(Init(segs), minSpeech) || g in tail;
    }
  }

  /* ---- padding ---- */

  function Before(x: int, n: int): int { if x > n then x - n else 0 }

  function Upto(x: int, limit: int): int { if x < limit then x else limit }

  // The bounds of segment i after padding: a full pad on both sides, or half of the silence
  // when that is shorter than two pads.
  function PaddedStart(segs: seq<Segment>, i: nat, pad: nat): int
    requires i < |segs|
  {
    if i == 0 then Before(segs[0].start, pad)
    else
      var silence := segs[i].start - segs[i - 1].end;
      Before(segs[i].start, if silence < 2 * pad then silence / 2 else pad)
  }

  function PaddedEnd(segs: seq<Segment>, i: nat, pad: nat, length: int): int
    requires i < |segs|
  {
    if i == |segs| - 1 then Upto(segs[i].end + pad, length)
    else
      var silence := segs[i + 1].start - segs[i].end;
      if silence < 2 * pad then segs[i].end + silence / 2 else Upto(segs[i].end + pad, length)
  }

  function Padded(segs: seq<Segment>, pad: nat, length: int): seq<Segment> {
    seq(|segs|, i requires 0 <= i < |segs| => Segment(PaddedStart(segs, i, pad), PaddedEnd(segs, i, pad, length)))
  }

  lemma PaddedAt(segs: seq<Segment>, i: nat, pad: nat, length: int)
    requires Spaced(segs, 0, length) && i < |segs|
    ensures 0 <= PaddedStart(segs, i, pad) <= segs[i].start < segs[i].end <= PaddedEnd(segs, i, pad, length) <= length
    ensures i > 0 ==> PaddedEnd(segs, i - 1, pad, length) <= PaddedStart(segs, i, pad)
  {
    if i > 0 {
      assert Gap(segs, i) >= 0;
    }
    if i + 1 < |segs| {
      assert Gap(segs, i + 1) >= 0;
    }
  }

  // Padding keeps every segment, inside the audio, and never makes two overlap.
  lemma PaddedSpaced(segs: seq<Segment>, pad: nat, length: int)
    requires Spaced(segs, 0, length)
    ensures Spaced(Padded(segs, pad, length), 0, length)
    ensures forall i :: 0 <= i < |segs| ==>
              Padded(segs, pad, length)[i].start <= segs[i].start < segs[i].end <= Padded(segs, pad, length)[i].end
  {
    hide PaddedStart, PaddedEnd;
    var p := Padded(segs, pad, length);
    forall i: nat | i < |segs|
      ensures 0 <= p[i].start <= segs[i].start < segs[i].end <= p[i].end <= length
      ensures i > 0 ==> Gap(p, i) >= 0
    {
      PaddedAt(segs, i, pad, length);
    }
  }

  // The outer ends move by a full pad, or to the ends of the audio. A gap of at least two pads
  // shrinks by one on each side; a shorter one by half of itself on each side, so that at most one
  // sample of it is left.
  lemma PaddedExactly(segs: seq<Segment>, pad: nat, length: int, i: nat)
    requires Spaced(segs, 0, length) && i < |segs|
    ensures var p := Padded(segs, pad, length);
            && (i == 0 ==> p[0].start == if segs[0].start >= pad then segs[0].start - pad else 0)
            && (i + 1 == |segs| ==> p[i].end == if segs[i].end + pad <= length then segs[i].end + pad else length)
    ensures var p := Padded(segs, pad, length);
            i + 1 < |segs| ==>
              var left, right := p[i].end - segs[i].end, segs[i + 1].start - p[i + 1].start;
              if Gap(segs, i + 1) >= 2 * pad then left == right == pad
              else left == right && 0 <= Gap(p, i + 1) <= 1
  {
    PaddedAt(segs, i, pad, length);
    if i + 1 < |segs| {
      assert Gap(segs, i + 1) >= 0;
      PaddedAt(segs, i + 1, pad, length);
    }
  }

  // Pads segment i on the right and its successor on the left.
  method PadFrom(speeches: seq<Segment>, i: nat, pad: nat, length: int) returns (s: seq<Segment>)
    requires i < |speeches|
    ensures |s| == |speeches|
    ensures s[i].end == PaddedEnd(speeches, i, pad, length)
    ensures s[i].start == if i == 0 then PaddedStart(speeches, 0, pad) else speeches[i].start
    ensures i + 1 < |s| ==> s[i + 1] == Segment(PaddedStart(speeches, i + 1, pad), speeches[i + 1].end)
    ensures s[i + 1..] == (if i + 1 < |s| then [s[i + 1]] + speeches[i + 2..] else [])
  {
    s := speeches;
    if i == 0 {
      s := s[i := s[i].(start := if s[i].start > pad then s[i].start - pad else 0)];
    }
    if i < |s| - 1 {
      var silence := s[i + 1].start - s[i].end;
      if silence < 2 * pad {
        s := s[i := s[i].(end := s[i].end + silence / 2)];
        s := s[i + 1 := s[i + 1].(start := if s[i + 1].start > silence / 2 then s[i + 1].start - silence / 2 else 0)];
      } else {
        s := s[i := s[i].(end := if s[i].end + pad < length then s[i].end + pad else length)];
        s := s[i + 1 := s[i + 1].(start := if s[i + 1].start > pad then s[i + 1].start - pad else 0)];
      }
    } else {
      s := s[i := s[i].(end := if s[i].end + pad < length then s[i].end + pad else length)];
    }
  }

  // Segments from i on are as they were, but for the start of segment i.
  ghost predicate Pending(speeches: seq<Segment>, segs: seq<Segment>, i: nat, pad: nat) {
    |speeches| == |segs|
    && (i < |segs| ==>
          speeches[i..]
          == [Segment(if i == 0 then segs[0].start else PaddedStart(segs, i, pad), segs[i].end)] + segs[i + 1..])
  }

  lemma PendingStep(speeches: seq<Segment>, s: seq<Segment>, segs: seq<Segment>, i: nat, pad: nat, length: int)
    requires i < |segs| && |s| == |speeches| && Pending(speeches, segs, i, pad)
    requires s[i + 1..] == (if i + 1 < |s| then [s[i + 1]] + speeches[i + 2..] else [])
    requires i + 1 < |s| ==> s[i + 1] == Segment(PaddedStart(speeches, i + 1, pad), speeches[i + 1].end)
    requires s[i].end == PaddedEnd(speeches, i, pad, length)
    requires s[i].start == if i == 0 then PaddedStart(speeches, 0, pad) else speeches[i].start
    ensures Pending(s, segs, i + 1, pad)
    ensures s[i] == Segment(PaddedStart(segs, i, pad), PaddedEnd(segs, i, pad, length))
  {
    hide Before, Upto;
    assert speeches[i] == speeches[i..][0];
    if i + 1 < |segs| {
      assert speeches[i + 1] == speeches[i..][1] == segs[i + 1];
      assert speeches[i + 2..] == speeches[i..][2..] == segs[i + 2..];
    }
  }

  // Padding in place, left to right, with the conversion to centiseconds.
  method PadAndConvert(segs: seq<Segment>, pad: nat, length: int) returns (segments: seq<Segment>)
    requires Spaced(segs, 0, length)
    ensures segments == InCs(Padded(segs, pad, length))
  {
    var speeches := segs;
    segments := [];
    hide Spaced, PaddedStart, PaddedEnd, SamplesToCs;
    for i := 0 to |speeches|
      invariant Pending(speeches, segs, i, pad) && |segments| == i
      invariant forall j :: 0 <= j < i ==> segments[j] == CsOf(Padded(segs, pad, length)[j])
    {
      var s := PadFrom(speeches, i, pad, length);
      PendingStep(speeches, s, segs, i, pad, length);
      PaddedAt(segs, i, pad, length);
      hide Pending;
      speeches := s;
      segments := segments + [Segment(SamplesToCs(speeches[i].start), SamplesToCs(speeches[i].end))];
    }
  }

  /* ---- centiseconds ---- */

  function CsOf(g: Segment): Segment {
    if g.start < 0 || g.end < 0 then g else Segment(SamplesToCs(g.start), SamplesToCs(g.end))
  }

  function InCs(segs: seq<Segment>): seq<Segment> {
    seq(|segs|, i requires 0 <= i < |segs| => CsOf(segs[i]))
  }

  // Rounding keeps order, and moves a time by at most half a centisecond.
  lemma RoundingMonotone(a: nat, b: nat)
    requires a <= b
    ensures SamplesToCs(a) <= SamplesToCs(b)
    ensures a + CS <= b ==> SamplesToCs(a) < SamplesToCs(b)
    ensures -CS / 2 <= CsToSamples(SamplesToCs(a)) - a <= CS / 2
  {
  }

  // Centisecond segments in order, inside the audio.
  predicate Timed(segs: seq<Segment>, length: nat) {
    && (forall i :: 0 <= i < |segs| ==> 0 <= segs[i].start <= segs[i].end <= SamplesToCs(length))
    && forall i :: 0 < i < |segs| ==> Gap(segs, i) >= 0
  }

  lemma RoundedTimed(segs: seq<Segment>, length: nat)
    requires Spaced(segs, 0, length)
    ensures Timed(InCs(segs), length)
    ensures forall i :: 0 <= i < |segs| && segs[i].end - segs[i].start >= CS ==> InCs(segs)[i].start < InCs(segs)[i].end
  {
    forall i | 0 <= i < |segs|
      ensures var g := InCs(segs)[i]; 0 <= g.start <= g.end <= SamplesToCs(length)
      ensures segs[i].end - segs[i].start >= CS ==> InCs(segs)[i].start < InCs(segs)[i].end
    {
      RoundingMonotone(segs[i].start, segs[i].end);
      RoundingMonotone(segs[i].end, length);
    }
    forall i | 0 < i < |segs|
      ensures Gap(InCs(segs), i) >= 0
    {
      assert Gap(segs, i) >= 0;
      RoundingMonotone(segs[i - 1].end, segs[i].start);
    }
  }

  /* ---- the whole detector ---- */

  // The padded segments, in samples.
  function Detected(probs: seq<real>, c: Settings): seq<Segment> {
    Padded(Kept(Merged(RawSegments(probs, c)), c.minSpeech), c.pad, c.window * |probs|)
  }

  method SegmentsFromProbs(probs: seq<real>, nWindow: nat, p: Params) returns (segments: seq<Segment>)
    requires nWindow > 0 && ValidParams(p)
    ensures segments == InCs(Detected(probs, Configure(p, nWindow)))
  {
    hide RawSegments, Spaced;
    var speeches := ScanProbs(probs, nWindow, p);
    DetectedSpaced(probs, nWindow, p);
    speeches := MergeAdjacent(speeches);
    speeches := DropShort(speeches, Samples(p.minSpeechMs));
    segments := PadAndConvert(speeches, Samples(p.padMs), nWindow * |probs|);
  }

  function AudioLength(nWindow: nat, frames: nat): nat { nWindow * frames }

  // The final segments are in order, do not overlap and lie inside the audio.
  lemma DetectedTimed(probs: seq<real>, nWindow: nat, p: Params)
    requires nWindow > 0 && ValidParams(p)
    ensures Timed(InCs(Detected(probs, Configure(p, nWindow))), AudioLength(nWindow, |probs|))
  {
    hide Configure, Detected, Spaced, Timed, InCs;
    DetectedSpaced(probs, nWindow, p);
    RoundedTimed(Detected(probs, Configure(p, nWindow)), nWindow * |probs|);
  }

  lemma DetectedSpaced(probs: seq<real>, nWindow: nat, p: Params)
    requires nWindow > 0 && ValidParams(p)
    ensures var c := Configure(p, nWindow);
            var kept, length := Kept(Merged(RawSegments(probs, c)), c.minSpeech), nWindow * |probs|;
            Spaced(kept, MERGE_GAP, length) && Spaced(kept, 0, length) && Spaced(Detected(probs, c), 0, length)
  {
    hide Configure, RawSegments, RawSegs, Merged, Kept;
    var c := Configure(p, nWindow);
    var raw, length := RawSegments(probs, c), nWindow * |probs|;
    SegmentsAreRaw(probs, nWindow, p);
    RawIsSpaced(raw, length, probs, c);
    MergedSpaced(raw, length);
    KeptSpaced(Merged(raw), c.minSpeech, MERGE_GAP, length);
    PaddedSpaced(Kept(Merged(raw), c.minSpeech), c.pad, length);
  }

  // Every raw segment of at least the minimum duration lies inside a detected one.
  lemma LongSpeechSurvives(probs: seq<real>, nWindow: nat, p: Params, k: nat)
    requires nWindow > 0 && ValidParams(p)
    requires k < |RawSegments(probs, Configure(p, nWindow))|
    requires var g := RawSegments(probs, Configure(p, nWindow))[k]; g.end - g.start >= Samples(p.minSpeechMs)
    ensures var g := RawSegments(probs, Configure(p, nWindow))[k];
            exists d :: d in Detected(probs, Configure(p, nWindow)) && d.start <= g.start && g.end <= d.end
  {
    hide RawSegments, RawSegs, Merged, Kept, Spaced;
    var c := Configure(p, nWindow);
    var raw, length := RawSegments(probs, c), nWindow * |probs|;
    SegmentsAreRaw(probs, nWindow, p);
    RawIsSpaced(raw, length, probs, c);
    MergedSpaced(raw, length);
    var m := MergedCovers(raw, k, length);
    KeptExactly(Merged(raw), c.minSpeech, m);
    DetectedSpaced(probs, nWindow, p);
    var kept := Kept(Merged(raw), c.minSpeech);
    PaddedSpaced(kept, c.pad, length);
    assert m in kept;
    var i :| 0 <= i < |kept| && kept[i] == m;
    assert Detected(probs, c)[i] in Detected(probs, c);
  }

  lemma LastRun(segs: seq<Segment>, limit: int)
    requires Spaced(segs, 0, limit) && segs != []
    ensures Last(Merged(segs)).start <= Last(segs).start && Last(Merged(segs)).end == Last(segs).end
    ensures |segs| > 1 ==> Last(Merged(Init(segs))).end <= Last(segs).end
  {
    if |segs| > 1 {
      hide Spaced, Merged;
      MergedUnfolds(segs);
      SpacedInit(segs, 0, limit);
      MergedSpaced(Init(segs), limit);
      SpacedInit(Merged(Init(segs)), MERGE_GAP, limit);
    }
  }

  // Every segment lies inside a merged one.
  lemma {:induction false} MergedCovers(segs: seq<Segment>, k: nat, limit: int) returns (m: Segment)
    requires Spaced(segs, 0, limit) && k < |segs|
    ensures m in Merged(segs) && m.start <= segs[k].start && segs[k].end <= m.end
  {
    hide Spaced, Merged;
    if |segs| == 1 {
      MergedOne(segs);
      m := segs[0];
    } else {
      SpacedInit(segs, 0, limit);
      LastRun(segs, limit);
      if k == |segs| - 1 {
        m := Last(Merged(segs));
      } else {
        m := MergedCovers(Init(segs), k, limit);
        var before := Merged(Init(segs));
        var i :| 0 <= i < |before| && before[i] == m;
        MergedGrows(segs, i);
        m := Merged(segs)[i];
      }
    }
  }

  lemma MergedOne(segs: seq<Segment>)
    requires |segs| == 1
    ensures Merged(segs) == segs
  {
  }

  // What was merged stays, but the last may grow.
  lemma MergedGrows(segs: seq<Segment>, i: nat)
    requires |segs| > 1 && i < |Merged(Init(segs))| && Last(Merged(Init(segs))).end <= Last(segs).end
    ensures i < |Merged(segs)| && Merged(segs)[i].start == Merged(Init(segs))[i].start
    ensures Merged(Init(segs))[i].end <= Merged(segs)[i].end
  {
    hide Merged;
    MergedUnfolds(segs);
  }

  /* ---- no detected segment is empty ---- */

  ghost predicate AllLong(segs: seq<Segment>, w: int) {
    forall i :: 0 <= i < |segs| ==> segs[i].end - segs[i].start >= w
  }

  lemma {:induction false} MergedLong(segs: seq<Segment>, w: int, limit: int)
    requires Spaced(segs, 0, limit) && AllLong(segs, w)
    ensures AllLong(Merged(segs), w)
  {
    if |segs| <= 1 {
      assert Merged(segs) == segs;
    } else {
      var m, next := Merged(Init(segs)), Last(segs);
      hide Merged, Spaced;
      SpacedInit(segs, 0, limit);
      MergedLong(Init(segs), w, limit);
      LastRun(segs, limit);
      MergedUnfolds(segs);
      assert Last(m).end - Last(m).start >= w && next.end - next.start >= w;
    }
  }

  lemma KeptLong(segs: seq<Segment>, minSpeech: nat, w: int)
    requires AllLong(segs, w)
    ensures AllLong(Kept(segs, minSpeech), w)
  {
    hide Kept;
    var kept := Kept(segs, minSpeech);
    forall i | 0 <= i < |kept|
      ensures kept[i].end - kept[i].start >= w
    {
      KeptExactly(segs, minSpeech, kept[i]);
    }
  }

  lemma RawLong(segs: seq<Segment>, limit: int, probs: seq<real>, c: Settings)
    requires RawSegs(segs, limit, probs, c)
    ensures AllLong(segs, c.window)
  {
    hide Speech, Silent, Spaced;
  }

  // With windows of at least a centisecond every detected segment has a length, also once it
  // is rounded.
  lemma DetectedNotEmpty(probs: seq<real>, nWindow: nat, p: Params)
    requires nWindow >= CS && ValidParams(p)
    ensures forall g :: g in InCs(Detected(probs, Configure(p, nWindow))) ==> g.start < g.end
  {
    hide Configure, RawSegments, RawSegs, Merged, Kept, Padded, Spaced, AllLong;
    var c := Configure(p, nWindow);
    var raw, length := RawSegments(probs, c), nWindow * |probs|;
    SegmentsAreRaw(probs, nWindow, p);
    RawIsSpaced(raw, length, probs, c);
    RawLong(raw, length, probs, c);
    MergedLong(raw, c.window, length);
    KeptLong(Merged(raw), c.minSpeech, c.window);
    DetectedSpaced(probs, nWindow, p);
    var kept := Kept(Merged(raw), c.minSpeech);
    PaddedLong(kept, c.pad, length, c.window);
    RoundedLong(Detected(probs, c), length);
  }

  lemma PaddedLong(segs: seq<Segment>, pad: nat, length: int, w: int)
    requires Spaced(segs, 0, length) && AllLong(segs, w)
    ensures AllLong(Padded(segs, pad, length), w)
  {
    hide PaddedStart, PaddedEnd;
    PaddedSpaced(segs, pad, length);
  }

  lemma RoundedLong(segs: seq<Segment>, length: nat)
    requires Spaced(segs, 0, length) && exists w :: w >= CS && AllLong(segs, w)
    ensures forall g :: g in InCs(segs) ==> g.start < g.end
  {
    RoundedTimed(segs, length);
    hide Timed, CsOf;
  }
}
