/**
 The loop over the audio: window after window is decoded, and its segments join the transcript.
 */
module Transcription {
  import opened Timestamps
  import opened Segments

  // What the model makes of the audio at a position and the tokens of a window so far: the scores,
  // the most likely timestamp, and whether there is no speech.
  datatype Model = Model(scores: Scores, timestamp: (int, seq<nat>) -> int, silent: (int, seq<nat>) -> bool)

  // What is being transcribed, and how it is printed.
  datatype Job = Job(v: Vocab, p: Params, m: Model, words: nat -> Text, e: Output, seekEnd: int, maxSteps: nat)

  // A timestamp carries itself, any other token the timestamp that was most likely beside it.
  function Sampled(ids: seq<nat>, seek: int, v: Vocab, m: Model): seq<Token> {
    seq(|ids|, j requires 0 <= j < |ids| =>
      Token(ids[j], if ids[j] >= v.beg then ids[j] else m.timestamp(seek, ids[..j]), -1))
  }

  // The tokens a window adds to the transcript.
  function Shown(s: State, seek: int, job: Job): seq<Token>
    requires s.resultLen <= |s.tokens|
  {
    if job.p.loaded && !job.m.silent(seek, s.tokens) then Sampled(Result(s), seek, job.v, job.m) else []
  }

  predicate HaveResults(windows: seq<State>) {
    forall i :: 0 <= i < |windows| ==> windows[i].resultLen <= |windows[i].tokens|
  }

  // Those of all windows.
  function AllShown(seeks: seq<int>, windows: seq<State>, job: Job): seq<Token>
    requires |seeks| == |windows| + 1 && HaveResults(windows)
  {
    if windows == [] then []
    else
      var n := |windows| - 1;
      AllShown(seeks[..n + 1], windows[..n], job) + Shown(windows[n], seeks[n], job)
  }

  function WindowEmission(before: seq<Segment>, s: State, seek: int, job: Job): Emission
    requires s.resultLen <= |s.tokens|
  {
    Emission(before, Shown(s, seek, job), seek, s.seekDelta, job.v, job.words, job.e)
  }

  // No pick of the window was masked, and text before its first timestamp starts in the window.
  ghost predicate Regular(s: State, seek: int, job: Job) {
    s.resultLen <= |s.tokens| && (Shown(s, seek, job) == [] || (
      && Unmasked(s.tokens, job.v, job.p, Window(seek, job.seekEnd, job.maxSteps), job.m.scores)
      && Opens(WindowEmission([], s, seek, job))))
  }

  ghost predicate AllRegular(seeks: seq<int>, windows: seq<State>, job: Job)
    requires |seeks| == |windows| + 1
  {
    forall i :: 0 <= i < |windows| ==> Regular(windows[i], seeks[i], job)
  }

  // Segments that never go back in time, from a start on.
  ghost predicate InOrder(all: seq<Segment>, start: int) {
    InTime(all, 0) && (all != [] ==> start <= all[0].t0 <= all[0].t1)
  }

  // The windows so far, and the segments they have added.
  ghost predicate Transcribed(all: seq<Segment>, seeks: seq<int>, windows: seq<State>, job: Job) {
    && |seeks| == |windows| + 1 && HaveResults(windows) && seeks[0] <= seeks[|windows|]
    && (!job.e.printSpecial ==> Texts(all) == TextOf(AllShown(seeks, windows, job), job.v, job.words))
    && (Loaded(job.v) && !job.e.tokenTimestamps && AllRegular(seeks, windows, job) ==>
          InOrder(all, seeks[0])
          && (all != [] && seeks[|windows|] < job.seekEnd ==> all[|all| - 1].t1 <= seeks[|windows|]))
  }

  // Window i adds the segments from marks[i] to marks[i + 1]: none if it holds no speech, and else
  // those that spell the tokens up to its last timestamp, or all of them if decoding failed.
  ghost predicate Adds(all: seq<Segment>, marks: seq<int>, seeks: seq<int>, windows: seq<State>, job: Job, i: int)
    requires 0 <= i < |windows| == |marks| - 1 == |seeks| - 1
  {
    var s := windows[i];
    && 0 <= marks[i] <= marks[i + 1] <= |all| && s.resultLen <= |s.tokens|
    && var ids := if s.failed then s.tokens else s.tokens[..s.resultLen];
       if job.m.silent(seeks[i], s.tokens) || !job.p.loaded || ids == [] then marks[i] == marks[i + 1]
       else !job.e.printSpecial ==>
              Texts(all[marks[i]..marks[i + 1]]) == TextOf(Sampled(ids, seeks[i], job.v, job.m), job.v, job.words)
  }

  ghost predicate Marked(all: seq<Segment>, marks: seq<int>, seeks: seq<int>, windows: seq<State>, job: Job) {
    && |seeks| == |windows| + 1 == |marks| && marks[0] == 0 && marks[|windows|] == |all|
    && forall i :: 0 <= i < |windows| ==> Adds(all, marks, seeks, windows, job, i)
  }

  // What one window has added.
  ghost predicate Added(before: seq<Segment>, all: seq<Segment>, s: State, seek: int, job: Job)
    requires s.resultLen <= |s.tokens|
  {
    var ids := if s.failed then s.tokens else s.tokens[..s.resultLen];
    && |before| <= |all| && all[..|before|] == before
    && if job.m.silent(seek, s.tokens) || !job.p.loaded || ids == [] then all == before
       else !job.e.printSpecial ==>
              Texts(all[|before|..]) == TextOf(Sampled(ids, seek, job.v, job.m), job.v, job.words)
  }

  // A window without tokens or speech adds nothing.
  method EmitWindow(t: Transcript, d: Decoder, seek: int, job: Job, stamp: (nat, nat) -> int)
    requires ValidVocab(job.v) && d.resultLen <= |d.tokens|
    modifies t
    ensures Emitted(WindowEmission(old(t.all), d.Value(), seek, job), t.all)
    ensures Added(old(t.all), t.all, d.Value(), seek, job)
  {
    hide Emitted;
    ghost var before := t.all;
    var tokensCur := if d.failed then d.tokens else d.tokens[..d.resultLen];
    var tokens := Sampled(tokensCur, seek, job.v, job.m);
    if tokens != [] && job.p.loaded && !job.m.silent(seek, d.tokens) {
      t.Emit(tokens, seek, d.seekDelta, job.v, job.words, job.e, stamp);
      EmittedTexts(Emission(before, tokens, seek, d.seekDelta, job.v, job.words, job.e), t.all);
    } else {
      NothingEmitted(t.all, [], seek, d.seekDelta, job.v, job.words, job.e);
    }
  }

  // Decoding the window at `seek` has led to s: each token was picked, and if no pick was masked,
  // they are a safe run.
  ghost predicate Done(s: State, seek: int, job: Job) {
    var w, tokens := Window(seek, job.seekEnd, job.maxSteps), s.tokens;
    && s.resultLen <= |tokens| <= w.maxSteps && (Active(s) ==> |tokens| == w.maxSteps)
    && s == After(tokens, job.v, job.p, w) && IsDecoding(tokens, job.v, job.p, w, job.m.scores)
    && (NeverStuck(tokens, job.v, job.p, w, job.m.scores) ==> Unmasked(tokens, job.v, job.p, w, job.m.scores))
    && (Unmasked(tokens, job.v, job.p, w, job.m.scores)
        ==> IsRun(tokens, job.v, job.p, w) && Safe(tokens, job.v, job.p, w))
    && Advance(s, job.v, job.p, w) >= 2
  }

  // Decodes a window and emits its segments.
  method DoWindow(t: Transcript, seek: int, job: Job, stamp: (nat, nat) -> int) returns (s: State, seekDelta: int)
    requires ValidVocab(job.v) && seek + DELTA_MIN < job.seekEnd
    modifies t
    ensures Done(s, seek, job) && seekDelta == Advance(s, job.v, job.p, Window(seek, job.seekEnd, job.maxSteps)) >= 2
    ensures Emitted(WindowEmission(old(t.all), s, seek, job), t.all) && Added(old(t.all), t.all, s, seek, job)
  {
    hide Advance, After, IsRun, IsDecoding, Unmasked, NeverStuck, Safe, Emitted, Added, Shown, Result;
    var w := Window(seek, job.seekEnd, job.maxSteps);
    var d, _ := DecodeWindow(job.v, job.p, w, job.m.scores);
    s := d.Value();
    EmitWindow(t, d, seek, job, stamp);
    seekDelta := SeekDelta(d, job.v, job.p, w);
  }

  // Decodes window after window, and emits the segments of each. It always ends, with less than
  // 100 ms left.
  method Transcribe(job: Job, seekStart: int, stamp: (nat, nat) -> int)
    returns (t: Transcript, seeks: seq<int>, windows: seq<State>, ghost marks: seq<int>)
    requires ValidVocab(job.v)
    ensures fresh(t)
    ensures Chained(seeks, windows, job.v, job.p, job.m.scores, job.seekEnd, job.maxSteps)
    ensures |seeks| == |windows| + 1 && seeks[0] == seekStart && seeks[|windows|] + DELTA_MIN >= job.seekEnd
    ensures Transcribed(t.all, seeks, windows, job) && Marked(t.all, marks, seeks, windows, job)
  {
    var seek := seekStart;
    t := new Transcript();
    seeks, windows, marks := [seek], [], [0];
    StartsUnderway(seek, job);
    hide Underway, Done, Chained, Transcribed, Marked, Advance, Emitted, Added, Shown, Result, ValidVocab;
    while true
      invariant fresh(t) && Underway(t.all, marks, seeks, windows, job, seekStart, seek)
      decreases job.seekEnd - seek
    {
      hide Underway, Done, Chained, Transcribed, Marked, Advance, Emitted, Added, Shown, Result, ValidVocab;
      if seek + DELTA_MIN >= job.seekEnd {
        break;
      }
      ghost var before := t.all;
      var s, seekDelta := DoWindow(t, seek, job, stamp);
      UnderwayMore(before, t.all, marks, seeks, windows, job, seekStart, seek, s);
      seek := seek + seekDelta;
      seeks, windows, marks := seeks + [seek], windows + [s], marks + [|t.all|];
    }
    UnderwayEnds(t.all, marks, seeks, windows, job, seekStart, seek);
  }

  // The windows before position `seek` are done.
  ghost predicate Underway(all: seq<Segment>, marks: seq<int>, seeks: seq<int>, windows: seq<State>, job: Job,
                           start: int, seek: int) {
    && Chained(seeks, windows, job.v, job.p, job.m.scores, job.seekEnd, job.maxSteps)
    && Transcribed(all, seeks, windows, job) && Marked(all, marks, seeks, windows, job)
    && seeks[0] == start && seeks[|windows|] == seek
  }

  lemma StartsUnderway(seek: int, job: Job)
    ensures Underway([], [0], [seek], [], job, seek, seek)
  {
    NothingTranscribed(seek, job);
  }

  lemma UnderwayEnds(all: seq<Segment>, marks: seq<int>, seeks: seq<int>, windows: seq<State>, job: Job, start: int,
                     seek: int)
    requires Underway(all, marks, seeks, windows, job, start, seek)
    ensures Chained(seeks, windows, job.v, job.p, job.m.scores, job.seekEnd, job.maxSteps)
    ensures |seeks| == |windows| + 1 && seeks[0] == start && seeks[|windows|] == seek
    ensures Transcribed(all, seeks, windows, job) && Marked(all, marks, seeks, windows, job)
  {
    hide Link, Transcribed, Marked;
  }

  lemma UnderwayMore(before: seq<Segment>, all: seq<Segment>, marks: seq<int>, seeks: seq<int>, windows: seq<State>,
                     job: Job, start: int, seek: int, s: State)
    requires ValidVocab(job.v) && Underway(before, marks, seeks, windows, job, start, seek)
             && seek + DELTA_MIN < job.seekEnd
    requires Done(s, seek, job)
    requires Emitted(WindowEmission(before, s, seek, job), all) && Added(before, all, s, seek, job)
    ensures var next := seek + Advance(s, job.v, job.p, Window(seek, job.seekEnd, job.maxSteps));
            Underway(all, marks + [|all|], seeks + [next], windows + [s], job, start, next)
  {
    hide Link, Advance, After, IsRun, IsDecoding, Unmasked, NeverStuck, Safe, Emitted, Added, Transcribed, Marked;
    var w := Window(seek, job.seekEnd, job.maxSteps);
    ChainGrows(seeks, windows, s, job.v, job.p, w, job.m.scores);
    TranscribedMore(before, all, seeks, windows, s, w, job);
    MarkedMore(before, all, marks, seeks, windows, s, seek, seek + Advance(s, job.v, job.p, w), job);
  }

  lemma EmittedTexts(x: Emission, all: seq<Segment>)
    requires Emitted(x, all)
    ensures |x.before| <= |all| && all[..|x.before|] == x.before
    ensures !x.e.printSpecial ==> Texts(all[|x.before|..]) == TextOf(x.tokens, x.v, x.words)
  {
    hide Texts, TextOf, AllMade, Ordered, Clean, Reaches, FirstStarts, EarlyText;
    var n := |x.before|;
    assert all == all[..n] + all[n..];
    TextsAppend(x.before, all[n..]);
    SameBack(Texts(x.before), Texts(all[n..]), TextOf(x.tokens, x.v, x.words));
  }

  lemma SameBack<T>(a: seq<T>, b: seq<T>, c: seq<T>)
    ensures a + b == a + c ==> b == c
  {
    assert b == (a + b)[|a|..] && c == (a + c)[|a|..];
  }

  lemma MarkedMore(before: seq<Segment>, all: seq<Segment>, marks: seq<int>, seeks: seq<int>, windows: seq<State>,
                   s: State, seek: int, next: int, job: Job)
    requires Marked(before, marks, seeks, windows, job) && seeks[|windows|] == seek && s.resultLen <= |s.tokens|
    requires Added(before, all, s, seek, job)
    ensures Marked(all, marks + [|all|], seeks + [next], windows + [s], job)
  {
    hide Texts, TextOf, Sampled;
    var n := |windows|;
    forall i | 0 <= i < n + 1
      ensures Adds(all, marks + [|all|], seeks + [next], windows + [s], job, i)
    {
      if i < n {
        assert Adds(before, marks, seeks, windows, job, i);
        assert before[marks[i]..marks[i + 1]] == all[marks[i]..marks[i + 1]];
      } else {
        assert all[|before|..|all|] == all[|before|..];
      }
    }
  }

  lemma NothingTranscribed(seek: int, job: Job)
    ensures Transcribed([], [seek], [], job) && Marked([], [0], [seek], [], job)
  {
  }

  // One window more.
  lemma TranscribedMore(all: seq<Segment>, all': seq<Segment>, seeks: seq<int>, windows: seq<State>, s: State,
                        w: Window, job: Job)
    requires ValidVocab(job.v) && w == Window(w.seek, job.seekEnd, job.maxSteps) && w.seek < w.seekEnd
    requires Transcribed(all, seeks, windows, job) && seeks[|windows|] == w.seek
    requires s.resultLen <= |s.tokens| && s == After(s.tokens, job.v, job.p, w)
    requires IsDecoding(s.tokens, job.v, job.p, w, job.m.scores) && Advance(s, job.v, job.p, w) >= 0
    requires Emitted(WindowEmission(all, s, w.seek, job), all')
    ensures Transcribed(all', seeks + [w.seek + Advance(s, job.v, job.p, w)], windows + [s], job)
  {
    hide Advance, After, IsDecoding, Emitted, InOrder, Regular, Shown, Texts, TextOf;
    var seeks', windows' := seeks + [w.seek + Advance(s, job.v, job.p, w)], windows + [s];
    var n := |windows|;
    assert seeks'[..n + 1] == seeks && windows'[..n] == windows && seeks'[n] == w.seek;
    if !job.e.printSpecial {
      TextsGrow(all, all', seeks, windows, s, w.seek, job);
    }
    if Loaded(job.v) && !job.e.tokenTimestamps && AllRegular(seeks', windows', job) {
      forall i | 0 <= i < n
        ensures Regular(windows[i], seeks[i], job)
      {
        assert Regular(windows'[i], seeks'[i], job);
      }
      assert Regular(windows'[n], seeks'[n], job);
      WindowInOrder(all, all', seeks[0], s, w, job);
    }
  }

  lemma TextsGrow(all: seq<Segment>, all': seq<Segment>, seeks: seq<int>, windows: seq<State>, s: State, seek: int,
                  job: Job)
    requires |seeks| == |windows| + 1 && HaveResults(windows) && s.resultLen <= |s.tokens| && !job.e.printSpecial
    requires Texts(all) == TextOf(AllShown(seeks, windows, job), job.v, job.words)
    requires Emitted(WindowEmission(all, s, seek, job), all')
    ensures Texts(all')
            == TextOf(AllShown(seeks, windows, job) + Shown(s, seek, job), job.v, job.words)
  {
    hide Shown, AllShown, Texts, TextOf;
    TextAppend(AllShown(seeks, windows, job), Shown(s, seek, job), job.v, job.words);
  }

  // The window's segments come after those before it, and before the next window.
  lemma WindowInOrder(all: seq<Segment>, all': seq<Segment>, start: int, s: State, w: Window, job: Job)
    requires Loaded(job.v) && !job.e.tokenTimestamps && w == Window(w.seek, job.seekEnd, job.maxSteps)
    requires s.resultLen <= |s.tokens| && s == After(s.tokens, job.v, job.p, w)
    requires IsDecoding(s.tokens, job.v, job.p, w, job.m.scores) && Advance(s, job.v, job.p, w) >= 0
    requires Regular(s, w.seek, job) && Emitted(WindowEmission(all, s, w.seek, job), all')
    requires start <= w.seek && InOrder(all, start) && (all != [] ==> all[|all| - 1].t1 <= w.seek)
    ensures InOrder(all', start)
    ensures var next := w.seek + Advance(s, job.v, job.p, w);
            all' != [] && next < w.seekEnd ==> all'[|all'| - 1].t1 <= next
  {
    hide Advance, After, IsDecoding, IsRun, Unmasked, Clean, Reaches, Opens, Bounded;
    var x := WindowEmission(all, s, w.seek, job);
    if x.tokens == [] {
      NothingNew(x, all');
    } else {
      OpensAlike(all, s, w.seek, job);
      hide Emitted, Shown;
      UnmaskedIsRun(s.tokens, job.v, job.p, w, job.m.scores);
      ShownInTime(s, w, job);
      InsideIff(x, all');
      AppendInOrder(x, all', start);
      RunBounded(s.tokens, job.v, job.p, w);
      BoundedAdvance(s, job.v, job.p, w);
    }
  }

  lemma BoundedAdvance(s: State, v: Vocab, p: Params, w: Window)
    requires s.resultLen <= |s.tokens| && Bounded(s, v)
    ensures Advance(s, v, p, w) >= s.seekDelta || w.seek + Advance(s, v, p, w) == w.seekEnd
  {
    AdvancePasses(s, v, p, w);
  }

  lemma NothingNew(x: Emission, all: seq<Segment>)
    requires Emitted(x, all) && x.tokens == [] && !x.e.tokenTimestamps
    ensures all == x.before
  {
    assert |all| > |x.before| ==> Made(all[|x.before|], x);
    assert all[..|x.before|] == x.before;
  }

  lemma OpensAlike(all: seq<Segment>, s: State, seek: int, job: Job)
    requires s.resultLen <= |s.tokens|
    ensures Opens(WindowEmission([], s, seek, job)) <==> Opens(WindowEmission(all, s, seek, job))
  {
    hide Shown;
    var x, y := WindowEmission([], s, seek, job), WindowEmission(all, s, seek, job);
    forall j
      ensures IsEarly(x, j) <==> IsEarly(y, j)
    {
    }
  }

  lemma ShownInTime(s: State, w: Window, job: Job)
    requires Loaded(job.v) && s.resultLen <= |s.tokens| && s == After(s.tokens, job.v, job.p, w)
    requires IsRun(s.tokens, job.v, job.p, w) && Shown(s, w.seek, job) != []
    ensures Clean(Shown(s, w.seek, job), job.v) && Reaches(Shown(s, w.seek, job), s.seekDelta, job.v)
  {
    hide After, IsRun, Clean, Reaches, Result;
    var tokens := Shown(s, w.seek, job);
    assert Ids(tokens) == Result(s);
    SampledInTime(tokens, s, job.v, job.p, w);
  }

  lemma AppendInOrder(x: Emission, all: seq<Segment>, start: int)
    requires |all| >= |x.before| && all[..|x.before|] == x.before && Inside(x, all) && start <= x.seek
    requires forall k :: |x.before| < k < |all| ==> NotBefore(all, k)
    requires InOrder(x.before, start) && (x.before != [] ==> x.before[|x.before| - 1].t1 <= x.seek)
    ensures InOrder(all, start)
  {
    var n := |x.before|;
    forall k | 0 < k < |all|
      ensures NotBefore(all, k)
    {
      if k < n {
        assert NotBefore(x.before, k);
        assert all[k] == x.before[k] && all[k - 1] == x.before[k - 1];
      } else if k == n {
        assert all[k - 1] == x.before[n - 1];
      }
    }
    assert n > 0 ==> all[0] == x.before[0];
  }
}
