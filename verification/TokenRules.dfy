/**
 The token automaton without its state: which sequences of tokens are runs, when they end, and
 where the next window starts, all read off the tokens themselves.
 */
module TokenRules {
  import opened Arithmetic
  import opened Timestamps

  // Token k may follow the tokens before it.
  predicate LegalAt(tokens: seq<nat>, k: int, v: Vocab, p: Params)
    requires 0 <= k < |tokens|
  {
    && tokens[k] < v.size && tokens[k] !in p.always
    && (k == 0 && p.suppressBlank ==> tokens[0] != v.eot && tokens[0] != v.space)
    && (k == 0 && p.maxInitial.Some? ==> tokens[0] <= v.beg + p.maxInitial.value)
    && (p.noTimestamps ==> tokens[k] < v.beg)
    && (!p.noTimestamps && !p.singleSegment && 0 < p.maxTokens <= k ==> tokens[k] >= v.eot)
    && Fits(tokens, k, v)
    && (tokens[k] >= v.beg ==> forall i :: 0 <= i < k && tokens[i] > v.beg ==> tokens[i] <= tokens[k])
  }

  // Some timestamp among the first n tokens is at least this late, in centiseconds.
  ghost predicate Reached(tokens: seq<nat>, n: int, v: Vocab, time: int)
    requires 0 <= n <= |tokens|
  {
    exists k :: 0 <= k < n && tokens[k] > v.beg && 2 * (tokens[k] - v.beg) >= time
  }

  // The text has ended with the first n tokens, or is long enough, or has reached the end.
  ghost predicate HasEnded(tokens: seq<nat>, n: int, v: Vocab, p: Params, w: Window)
    requires 0 < n <= |tokens|
  {
    || tokens[n - 1] == v.eot
    || (p.maxTokens > 0 && n > p.maxTokens)
    || Reached(tokens, n, v, w.seekEnd - DELTA_MIN - w.seek)
  }

  // Decoding goes on after the first n tokens; at the last step it does only if half of the chunk
  // has been covered.
  ghost predicate GoesOn(tokens: seq<nat>, n: int, v: Vocab, p: Params, w: Window)
    requires 0 < n <= |tokens|
  {
    p.loaded && !HasEnded(tokens, n, v, p, w) && (n == w.maxSteps ==> Reached(tokens, n, v, CHUNK / 2))
  }

  ghost predicate Legal(tokens: seq<nat>, v: Vocab, p: Params, w: Window) {
    forall k :: 0 <= k < |tokens| ==> LegalAt(tokens, k, v, p) && (k > 0 ==> GoesOn(tokens, k, v, p, w))
  }

  // While a decoder is active, its position is the latest timestamp.
  lemma LatestReached(s: State, v: Vocab, time: int)
    requires Follows(s, v) && TimesRise(s.tokens, v)
    ensures Reached(s.tokens, |s.tokens|, v, time) <==> s.hasTs && s.seekDelta >= time
  {
    if s.hasTs {
      var last := s.resultLen - 1;
      forall k | 0 <= k < |s.tokens| && s.tokens[k] > v.beg
        ensures s.tokens[k] <= s.tokens[last]
      {
      }
      assert s.seekDelta >= time ==> 2 * (s.tokens[last] - v.beg) >= time;
    }
  }

  lemma SlideFollows(s: State, id: nat, v: Vocab)
    requires Follows(s, v)
    ensures Follows(Slide(s.(tokens := s.tokens + [id]), v), v)
  {
  }

  // An unmasked pick leaves the decoder active exactly if decoding goes on.
  lemma NextActive(s: State, id: nat, v: Vocab, p: Params, w: Window)
    requires ValidVocab(v) && Active(s) && Follows(s, v) && TimesRise(s.tokens, v) && !MaskedByTime(v, p, s, id)
    ensures var all := s.tokens + [id];
            Active(Next(s, id, v, p, w)) <==> GoesOn(all, |all|, v, p, w)
  {
    var all := s.tokens + [id];
    var t := Slide(s.(tokens := all), v);
    UnmaskedFits(s, id, v, p);
    SlideKeepsTokens(s.(tokens := all), v);
    SlideFollows(s, id, v);
    LatestReached(t, v, w.seekEnd - DELTA_MIN - w.seek);
    LatestReached(t, v, CHUNK / 2);
    hide TimesRise, MaskedByTime, Fits, Reached, GoesBack;
    NothingReached(t, v);
  }

  lemma NothingReached(t: State, v: Vocab)
    requires Follows(t, v)
    ensures t.resultLen == 0 <==> !t.hasTs
    ensures !t.hasTs ==> t.seekDelta == CHUNK
  {
  }

  // The masks allow exactly the legal tokens.
  lemma MaskedIff(s: State, id: nat, v: Vocab, p: Params)
    requires ValidVocab(v) && Follows(s, v) && TimesRise(s.tokens, v) && id < v.size
    ensures var all := s.tokens + [id];
            !Masked(v, p, s, false, id) <==> LegalAt(all, |s.tokens|, v, p)
  {
    var all := s.tokens + [id];
    LatestReached(s, v, 2 * (id - v.beg) + 1);
    hide TimesRise, Follows;
    if id >= v.beg {
      assert s.hasTs && id < v.beg + s.seekDelta / 2 <==> s.hasTs && s.seekDelta >= 2 * (id - v.beg) + 1 by {
        EvenDelta(s, v);
      }
      LaterSeen(s.tokens, id, v);
    }
  }

  lemma LaterSeen(tokens: seq<nat>, id: nat, v: Vocab)
    ensures Reached(tokens, |tokens|, v, 2 * (id - v.beg) + 1)
            <==> !forall i :: 0 <= i < |tokens| && (tokens + [id])[i] > v.beg ==> (tokens + [id])[i] <= id
  {
    var all := tokens + [id];
    if Reached(tokens, |tokens|, v, 2 * (id - v.beg) + 1) {
      var k :| 0 <= k < |tokens| && tokens[k] > v.beg && 2 * (tokens[k] - v.beg) >= 2 * (id - v.beg) + 1;
      assert all[k] > v.beg && all[k] > id;
    }
    if i :| 0 <= i < |tokens| && all[i] > v.beg && all[i] > id {
      assert tokens[i] > v.beg && 2 * (tokens[i] - v.beg) >= 2 * (id - v.beg) + 1;
    }
  }

  lemma EvenDelta(s: State, v: Vocab)
    requires Follows(s, v)
    ensures s.hasTs ==> s.seekDelta % 2 == 0
  {
  }

  /* ---- runs ---- */

  // After a run that is not over, decoding goes on, and a token may follow exactly if it is legal.
  lemma ActiveExactly(tokens: seq<nat>, v: Vocab, p: Params, w: Window)
    requires ValidVocab(v) && IsRun(tokens, v, p, w) && tokens != []
    ensures Active(After(tokens, v, p, w)) <==> GoesOn(tokens, |tokens|, v, p, w)
  {
    hide Masked, Next, GoesOn, TimesRise, Safe, Follows;
    var n := |tokens| - 1;
    var before := tokens[..n];
    RunsAreSafe(before, v, p, w);
    SafeRises(before, v, p, w);
    UnmaskedByTime(v, p, After(before, v, p, w), tokens[n]);
    hide MaskedByTime;
    assert before + [tokens[n]] == tokens;
    NextActive(After(before, v, p, w), tokens[n], v, p, w);
  }

  lemma UnmaskedByTime(v: Vocab, p: Params, s: State, id: nat)
    ensures !Masked(v, p, s, false, id) ==> !MaskedByTime(v, p, s, id)
  {
  }

  lemma LegalPrefix(tokens: seq<nat>, n: nat, k: nat, v: Vocab, p: Params, w: Window)
    requires k < n <= |tokens|
    ensures LegalAt(tokens[..n], k, v, p) <==> LegalAt(tokens, k, v, p)
    ensures k > 0 ==> (GoesOn(tokens[..n], k, v, p, w) <==> GoesOn(tokens, k, v, p, w))
  {
    assert tokens[..n][..k] == tokens[..k];
    if k > 0 {
      forall time
        ensures Reached(tokens[..n], k, v, time) <==> Reached(tokens, k, v, time)
      {
        ReachedPrefix(tokens, n, k, v, time);
      }
    }
  }

  lemma ReachedPrefix(tokens: seq<nat>, n: nat, k: nat, v: Vocab, time: int)
    requires k <= n <= |tokens|
    ensures Reached(tokens[..n], k, v, time) <==> Reached(tokens, k, v, time)
  {
    var some := tokens[..n];
    if Reached(tokens, k, v, time) {
      var i :| 0 <= i < k && tokens[i] > v.beg && 2 * (tokens[i] - v.beg) >= time;
      assert some[i] > v.beg && 2 * (some[i] - v.beg) >= time;
    }
  }

  lemma LegalGrows(tokens: seq<nat>, v: Vocab, p: Params, w: Window)
    requires tokens != []
    ensures var n := |tokens| - 1;
            Legal(tokens, v, p, w) <==> Legal(tokens[..n], v, p, w) && LegalAt(tokens, n, v, p)
                                        && (n > 0 ==> GoesOn(tokens[..n], n, v, p, w))
  {
    hide LegalAt, GoesOn;
    var n := |tokens| - 1;
    forall k: nat | k < n
      ensures LegalAt(tokens[..n], k, v, p) <==> LegalAt(tokens, k, v, p)
      ensures k > 0 ==> (GoesOn(tokens[..n], k, v, p, w) <==> GoesOn(tokens, k, v, p, w))
    {
      LegalPrefix(tokens, n, k, v, p, w);
    }
    if n > 0 {
      GoesOnPrefix(tokens, n, v, p, w);
    }
  }

  lemma GoesOnPrefix(tokens: seq<nat>, n: nat, v: Vocab, p: Params, w: Window)
    requires 0 < n <= |tokens|
    ensures GoesOn(tokens[..n], n, v, p, w) <==> GoesOn(tokens, n, v, p, w)
  {
    forall time
      ensures Reached(tokens[..n], n, v, time) <==> Reached(tokens, n, v, time)
    {
      ReachedPrefix(tokens, n, n, v, time);
    }
  }

  // A sequence of tokens is a run, each token picked by an active decoder and unmasked, if and only
  // if it is legal.
  lemma {:induction false} RunExactly(tokens: seq<nat>, v: Vocab, p: Params, w: Window)
    requires ValidVocab(v)
    ensures IsRun(tokens, v, p, w) <==> Legal(tokens, v, p, w)
  {
    hide Masked, Next, GoesOn, LegalAt, TimesRise, Safe, Follows, Legal, After;
    if tokens == [] {
      NoTokens(v, p, w);
    } else {
      var n := |tokens| - 1;
      var before, id := tokens[..n], tokens[n];
      RunExactly(before, v, p, w);
      LegalGrows(tokens, v, p, w);
      assert before + [id] == tokens;
      if IsRun(before, v, p, w) {
        RunsAreSafe(before, v, p, w);
        SafeRises(before, v, p, w);
        NoTokens(v, p, w);
        if n > 0 {
          ActiveExactly(before, v, p, w);
        }
        if Active(After(before, v, p, w)) {
          if id < v.size {
            MaskedIff(After(before, v, p, w), id, v, p);
          } else {
            TooLarge(tokens, n, v, p);
          }
        }
      }
    }
  }

  lemma NoTokens(v: Vocab, p: Params, w: Window)
    ensures IsRun([], v, p, w) && Legal([], v, p, w) && Active(After([], v, p, w))
  {
  }

  lemma TooLarge(tokens: seq<nat>, k: nat, v: Vocab, p: Params)
    requires k < |tokens| && tokens[k] >= v.size
    ensures !LegalAt(tokens, k, v, p)
  {
  }

  // Timestamps that are together more likely than any text mask all text besides.
  lemma WinsMaskText(v: Vocab, p: Params, s: State, id: nat)
    ensures Masked(v, p, s, true, id) <==> Masked(v, p, s, false, id) || id < v.beg
  {
  }

  // A masked timestamp that is earlier than the last one: after text it fails the decoder, right
  // after that one it moves the window back.
  lemma GoingBack(s: State, id: nat, v: Vocab, p: Params, w: Window)
    requires Active(s) && Follows(s, v) && s.hasTs && v.beg < id < s.tokens[s.resultLen - 1]
    ensures var r := Next(s, id, v, p, w);
            if s.resultLen < |s.tokens| then r.failed && r.seekDelta == s.seekDelta
            else Active(r) ==> r.seekDelta == 2 * (id - v.beg) && r.resultLen == |s.tokens| + 1
  {
  }

  /* ---- the end of a window ---- */

  // A run that is over has failed if it ended without a timestamp before the end of the audio, or
  // was stopped at the last step; else it is complete. A complete one hands over its tokens up to
  // the last timestamp and the window moves there, or all tokens and a whole chunk if there is no
  // timestamp, or none is wanted.
  lemma EndsExactly(tokens: seq<nat>, v: Vocab, p: Params, w: Window)
    requires ValidVocab(v) && IsRun(tokens, v, p, w) && tokens != [] && p.loaded
    requires !GoesOn(tokens, |tokens|, v, p, w)
    ensures var s, timed := After(tokens, v, p, w), Reached(tokens, |tokens|, v, 0);
            && (s.failed <==> (HasEnded(tokens, |tokens|, v, p, w) ==>
                                 !timed && !p.noTimestamps && w.seek + CHUNK + DELTA_MIN < w.seekEnd))
            && s.completed == !s.failed
            && (s.completed ==>
                 if p.singleSegment || p.noTimestamps || !timed then s.resultLen == |tokens| && s.seekDelta == CHUNK
                 else Follows(s, v) && s.hasTs)
  {
    hide Masked, TimesRise, Safe, Follows, GoesOn;
    var n := |tokens| - 1;
    var before, id := tokens[..n], tokens[n];
    ActiveExactly(tokens, v, p, w);
    RunsAreSafe(before, v, p, w);
    SafeRises(before, v, p, w);
    var s := After(before, v, p, w);
    UnmaskedByTime(v, p, s, id);
    assert before + [id] == tokens;
    NextEnds(s, id, v, p, w);
  }

  lemma NextEnds(s: State, id: nat, v: Vocab, p: Params, w: Window)
    requires ValidVocab(v) && Active(s) && Follows(s, v) && TimesRise(s.tokens, v) && !MaskedByTime(v, p, s, id)
    requires p.loaded && !Active(Next(s, id, v, p, w))
    ensures var r, all := Next(s, id, v, p, w), s.tokens + [id];
            var timed := Reached(all, |all|, v, 0);
            && (r.failed <==> (HasEnded(all, |all|, v, p, w) ==>
                                 !timed && !p.noTimestamps && w.seek + CHUNK + DELTA_MIN < w.seekEnd))
            && r.completed == !r.failed
            && (r.completed ==>
                 if p.singleSegment || p.noTimestamps || !timed then r.resultLen == |all| && r.seekDelta == CHUNK
                 else Follows(r, v) && r.hasTs)
  {
    var all := s.tokens + [id];
    var t := Slide(s.(tokens := all), v);
    UnmaskedFits(s, id, v, p);
    SlideKeepsTokens(s.(tokens := all), v);
    SlideFollows(s, id, v);
    LatestReached(t, v, w.seekEnd - DELTA_MIN - w.seek);
    LatestReached(t, v, 0);
    NothingReached(t, v);
    hide TimesRise, MaskedByTime, Fits, Reached, GoesBack;
    SameFollows(t, v);
  }

  lemma SameFollows(t: State, v: Vocab)
    requires Follows(t, v)
    ensures Follows(t.(completed := true), v) && (t.hasTs ==> t.seekDelta >= 0)
  {
  }

  // The next window after a complete run with a timestamp starts at its last timestamp; but a
  // chunk later, or at the end of the audio, if the result ends with text and one timestamp and
  // is not too long.
  lemma NextWindow(tokens: seq<nat>, v: Vocab, p: Params, w: Window)
    requires ValidVocab(v) && IsRun(tokens, v, p, w) && tokens != [] && p.loaded
    requires !p.singleSegment && !p.noTimestamps
    requires After(tokens, v, p, w).completed && Reached(tokens, |tokens|, v, 0)
    ensures var s := After(tokens, v, p, w);
            s.resultLen <= |s.tokens| && Result(s) != [] &&
            var r, n := Result(s), |Result(s)|;
            && r <= tokens && r[n - 1] > v.beg && (forall k :: n <= k < |tokens| ==> tokens[k] <= v.beg)
            && Advance(s, v, p, w)
               == if n > 1 && r[n - 2] < v.beg && !(0 < p.maxTokens < n) then Min(w.seekEnd - w.seek, CHUNK)
                  else 2 * (r[n - 1] - v.beg)
  {
    hide Masked, TimesRise, Safe, GoesOn, Next, IsRun;
    OverIsOver(tokens, v, p, w);
    EndsExactly(tokens, v, p, w);
  }

  lemma OverIsOver(tokens: seq<nat>, v: Vocab, p: Params, w: Window)
    requires ValidVocab(v) && IsRun(tokens, v, p, w) && tokens != [] && After(tokens, v, p, w).completed
    ensures !GoesOn(tokens, |tokens|, v, p, w)
  {
    hide GoesOn, IsRun, After;
    ActiveExactly(tokens, v, p, w);
  }
}
