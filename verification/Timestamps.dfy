/**
 The token automaton: which tokens may follow which, how the sliding window follows the
 timestamp tokens, and how one window leads to the next.
 */
module Timestamps {

  // 30 seconds, in centiseconds.
  const CHUNK := 3000
  // Less than 100 ms left is not decoded.
  const DELTA_MIN := 10

  // Ids below eot are text; ids from beg on are timestamps, 20 ms apart.
  datatype Vocab = Vocab(eot: nat, space: nat, beg: nat, size: nat)

  predicate ValidVocab(v: Vocab) { v.space < v.eot < v.beg < v.size }

  // Every vocabulary is given 1501 timestamps, from 0 to the length of a chunk.
  predicate Loaded(v: Vocab) { ValidVocab(v) && v.size == v.beg + CHUNK / 2 + 1 }

  datatype Option<T> = None | Some(value: T)

  // `always` are the ids masked at every step; `maxInitial` limits the first timestamp.
  datatype Params = Params(always: seq<nat>, suppressBlank: bool, noTimestamps: bool, singleSegment: bool,
                           maxTokens: int, maxInitial: Option<nat>, loaded: bool)

  // The part of the audio being decoded: its position, the end of the audio, and the limit on
  // the number of tokens.
  datatype Window = Window(seek: int, seekEnd: int, maxSteps: nat)

  datatype State = State(tokens: seq<nat>, hasTs: bool, seekDelta: int, resultLen: nat, failed: bool, completed: bool)

  const FRESH := State([], false, CHUNK, 0, false, false)

  predicate Active(s: State) { !s.failed && !s.completed }

  predicate IsTime(v: Vocab, id: nat) { id >= v.beg }

  /* ---- masks ---- */

  function LastIsTime(s: State, v: Vocab): bool { s.tokens != [] && IsTime(v, s.tokens[|s.tokens| - 1]) }

  function PenultimateIsTime(s: State, v: Vocab): bool { |s.tokens| < 2 || IsTime(v, s.tokens[|s.tokens| - 2]) }

  // Masked by the rules for timestamps.
  predicate MaskedByTime(v: Vocab, p: Params, s: State, id: nat) {
    || (LastIsTime(s, v) && PenultimateIsTime(s, v) && id >= v.beg)
    || (LastIsTime(s, v) && !PenultimateIsTime(s, v) && id < v.eot)
    || (s.tokens == [] && p.maxInitial.Some? && id > v.beg + p.maxInitial.value)
    || (s.hasTs && v.beg <= id < v.beg + s.seekDelta / 2)
  }

  // `timesWin`: timestamps are together more likely than any text.
  predicate Masked(v: Vocab, p: Params, s: State, timesWin: bool, id: nat) {
    || id in p.always
    || (p.suppressBlank && s.tokens == [] && (id == v.eot || id == v.space))
    || (!p.noTimestamps && !p.singleSegment && p.maxTokens > 0 && |s.tokens| >= p.maxTokens && id < v.eot)
    || (p.noTimestamps && id >= v.beg)
    || MaskedByTime(v, p, s, id)
    || (timesWin && id < v.beg)
  }

  /* ---- following the timestamps ---- */

  // A timestamp before the one the window stands at.
  predicate GoesBack(s: State, v: Vocab) {
    s.tokens != [] &&
    var id := s.tokens[|s.tokens| - 1];
    id > v.beg && s.hasTs && s.seekDelta > 2 * (id - v.beg) && s.resultLen < |s.tokens| - 1
  }

  function Slide(s: State, v: Vocab): State
    requires s.tokens != []
  {
    var id := s.tokens[|s.tokens| - 1];
    if id > v.beg then s.(seekDelta := 2 * (id - v.beg), resultLen := |s.tokens|, hasTs := true) else s
  }

  predicate AtEnd(s: State, v: Vocab, p: Params, w: Window)
    requires s.tokens != []
  {
    || s.tokens[|s.tokens| - 1] == v.eot
    || (p.maxTokens > 0 && |s.tokens| - 1 >= p.maxTokens)
    || (s.hasTs && w.seek + s.seekDelta + DELTA_MIN >= w.seekEnd)
  }

  function Complete(s: State, p: Params, w: Window): State {
    var reachesEnd := w.seek + s.seekDelta + DELTA_MIN >= w.seekEnd;
    if s.resultLen == 0 && !p.noTimestamps && !reachesEnd then s.(failed := true)
    else
      var t := if s.resultLen == 0 && !p.noTimestamps then s.(resultLen := |s.tokens|) else s;
      var u := if p.singleSegment || p.noTimestamps then t.(resultLen := |t.tokens|, seekDelta := CHUNK) else t;
      u.(completed := true)
  }

  // What the model makes of the audio at a position and the tokens so far: the probability of
  // each token, and whether timestamps are together more likely than any text.
  datatype Scores = Scores(timesWin: (int, seq<nat>) -> bool, probability: (int, seq<nat>, int) -> real)

  // A token that is not masked and not impossible.
  predicate Possible(v: Vocab, p: Params, s: State, w: Window, q: Scores, id: nat) {
    && id < v.size && !Masked(v, p, s, q.timesWin(w.seek, s.tokens), id)
    && q.probability(w.seek, s.tokens, id) > 0.0
  }

  // The first of the most likely possible tokens; 0 if none is possible.
  ghost predicate IsPick(v: Vocab, p: Params, s: State, w: Window, q: Scores, id: nat) {
    if exists i: nat :: Possible(v, p, s, w, q, i) then
      Possible(v, p, s, w, q, id)
      && forall i: nat | Possible(v, p, s, w, q, i) ::
           && q.probability(w.seek, s.tokens, i) <= q.probability(w.seek, s.tokens, id)
           && (i < id ==> q.probability(w.seek, s.tokens, i) < q.probability(w.seek, s.tokens, id))
    else id == 0
  }

  // The state after the token that was just appended.
  function Updated(s: State, v: Vocab, p: Params, w: Window): State
    requires s.tokens != []
  {
    if GoesBack(s, v) then s.(failed := true)
    else
      var t := Slide(s, v);
      if AtEnd(t, v, p, w) then Complete(t, p, w)
      else if !p.loaded then t.(seekDelta := CHUNK, completed := true)
      else if |t.tokens| == w.maxSteps && (t.resultLen == 0 || t.seekDelta < CHUNK / 2) then t.(failed := true)
      else t
  }

  function Next(s: State, id: nat, v: Vocab, p: Params, w: Window): (r: State)
    ensures r.tokens == s.tokens + [id]
  {
    Updated(s.(tokens := s.tokens + [id]), v, p, w)
  }

  // One decoder: mask, sample, update.
  class Decoder {
    var tokens: seq<nat>
    var hasTs: bool
    var seekDelta: int
    var resultLen: nat
    var failed: bool
    var completed: bool

    function Value(): State
      reads this
    {
      State(tokens, hasTs, seekDelta, resultLen, failed, completed)
    }

    constructor ()
      ensures Value() == FRESH
    {
      tokens, hasTs, seekDelta, resultLen, failed, completed := [], false, CHUNK, 0, false, false;
    }

    // Fills in which logits are masked.
    method ProcessLogits(v: Vocab, p: Params, timesWin: bool, masked: array<bool>)
      requires ValidVocab(v) && masked.Length == v.size
      requires hasTs ==> 0 <= seekDelta / 2 < v.size - v.beg
      modifies masked
      ensures forall id :: 0 <= id < v.size ==> (masked[id] <==> Masked(v, p, Value(), timesWin, id))
    {
      var initial := |tokens| == 0;
      Clear(masked);
      if p.suppressBlank {
        if initial {
          masked[v.eot] := true;
          masked[v.space] := true;
        }
      }
      if p.noTimestamps {
        MaskRange(masked, v.beg, v.size);
      }
      if !p.noTimestamps && !p.singleSegment && p.maxTokens > 0 && |tokens| >= p.maxTokens {
        MaskRange(masked, 0, v.eot);
      }
      MaskAll(masked, p.always);
      if timesWin {
        MaskRange(masked, 0, v.beg);
      }
      hide MaskedByTime;
      MaskTimes(v, p, masked);
    }

    // The rules for timestamps.
    method MaskTimes(v: Vocab, p: Params, masked: array<bool>)
      requires ValidVocab(v) && masked.Length == v.size
      requires hasTs ==> 0 <= seekDelta / 2 < v.size - v.beg
      modifies masked
      ensures forall id :: 0 <= id < v.size ==> (masked[id] <==> old(masked[id]) || MaskedByTime(v, p, Value(), id))
    {
      var initial := |tokens| == 0;
      var lastWasTimestamp := |tokens| > 0 && tokens[|tokens| - 1] >= v.beg;
      var penultimateWasTimestamp := |tokens| < 2 || tokens[|tokens| - 2] >= v.beg;
      if lastWasTimestamp {
        if penultimateWasTimestamp {
          MaskRange(masked, v.beg, v.size);
        } else {
          MaskRange(masked, 0, v.eot);
        }
      }
      if initial && p.maxInitial.Some? {
        MaskRange(masked, v.beg + p.maxInitial.value + 1, v.size);
      }
      if hasTs {
        MaskRange(masked, v.beg, v.beg + seekDelta / 2);
      }
    }

    // The first of the most likely tokens, 0 if all are impossible.
    method Sample(masked: array<bool>, probability: int -> real) returns (id: nat)
      requires masked.Length > 0
      ensures id < masked.Length
      ensures (exists i :: 0 <= i < masked.Length && !masked[i] && probability(i) > 0.0) ==>
                !masked[id] && probability(id) > 0.0
      ensures (forall i :: 0 <= i < masked.Length && !masked[i] ==> probability(i) <= 0.0) ==> id == 0
      ensures forall i :: 0 <= i < masked.Length && !masked[i] && probability(i) > 0.0 ==>
                probability(i) <= probability(id) && (i < id ==> probability(i) < probability(id))
    {
      id := 0;
      var best := 0.0;
      for i := 0 to masked.Length
        invariant id < masked.Length && 0.0 <= best
        invariant if best > 0.0 then id < i && !masked[id] && best == probability(id) else id == 0
        invariant forall k :: 0 <= k < i && !masked[k] ==> probability(k) <= best
        invariant forall k :: 0 <= k < id && !masked[k] ==> probability(k) < best
      {
        var prob := if masked[i] then 0.0 else probability(i);
        if best < prob {
          id, best := i, prob;
        }
      }
    }

    // End of the segment.
    method Close(p: Params, w: Window)
      requires tokens != []
      modifies this
      ensures Value() == Complete(old(Value()), p, w)
    {
      if resultLen == 0 && !p.noTimestamps {
        if w.seek + seekDelta + DELTA_MIN >= w.seekEnd {
          resultLen := |tokens|;
        } else {
          failed := true;
          return;
        }
      }
      if p.singleSegment || p.noTimestamps {
        resultLen := |tokens|;
        seekDelta := CHUNK;
      }
      completed := true;
    }

    // A timestamp token moves the window; going back is a failure.
    method FollowTimestamp(v: Vocab)
      requires tokens != []
      modifies this
      ensures Value() == if GoesBack(old(Value()), v) then old(Value()).(failed := true) else Slide(old(Value()), v)
    {
      var i := |tokens| - 1;
      if tokens[i] > v.beg {
        var seekDeltaNew := 2 * (tokens[i] - v.beg);
        if hasTs && seekDelta > seekDeltaNew && resultLen < i {
          failed := true;
          return;
        }
        seekDelta := seekDeltaNew;
        resultLen := i + 1;
        hasTs := true;
      }
    }

    // Appends the token and updates the sliding window.
    method Accept(id: nat, v: Vocab, p: Params, w: Window)
      requires !failed
      modifies this
      ensures Value() == Next(old(Value()), id, v, p, w)
    {
      hide Complete, Slide, GoesBack;
      tokens := tokens + [id];
      var i := |tokens| - 1;
      SlideKeepsTokens(Value(), v);
      FollowTimestamp(v);
      if failed {
        return;
      }
      if id == v.eot || (p.maxTokens > 0 && i >= p.maxTokens)
          || (hasTs && w.seek + seekDelta + DELTA_MIN >= w.seekEnd) {
        Close(p, w);
        return;
      }
      if !p.loaded {
        seekDelta := CHUNK;
        completed := true;
        return;
      }
      if i == w.maxSteps - 1 && (resultLen == 0 || seekDelta < CHUNK / 2) {
        failed := true;
      }
    }
  }

  lemma SlideKeepsTokens(s: State, v: Vocab)
    requires s.tokens != []
    ensures Slide(s, v).tokens == s.tokens && Slide(s, v).failed == s.failed
  {
  }

  method Clear(masked: array<bool>)
    modifies masked
    ensures forall i :: 0 <= i < masked.Length ==> !masked[i]
  {
    for i := 0 to masked.Length
      invariant forall k :: 0 <= k < i ==> !masked[k]
    {
      masked[i] := false;
    }
  }

  method MaskRange(masked: array<bool>, low: nat, high: nat)
    requires high <= masked.Length
    modifies masked
    ensures forall i :: 0 <= i < masked.Length ==> (masked[i] <==> old(masked[i]) || low <= i < high)
  {
    var i := low;
    while i < high
      invariant low <= i
      invariant forall k :: 0 <= k < masked.Length ==> (masked[k] <==> old(masked[k]) || (low <= k < i && k < high))
    {
      masked[i] := true;
      i := i + 1;
    }
  }

  method MaskAll(masked: array<bool>, ids: seq<nat>)
    modifies masked
    ensures forall i :: 0 <= i < masked.Length ==> (masked[i] <==> old(masked[i]) || i in ids)
  {
    for k := 0 to |ids|
      invariant forall i :: 0 <= i < masked.Length ==> (masked[i] <==> old(masked[i]) || i in ids[..k])
    {
      assert forall i :: i in ids[..k + 1] <==> i in ids[..k] || i == ids[k];
      if ids[k] < masked.Length {
        masked[ids[k]] := true;
      }
    }
    assert ids[..|ids|] == ids;
  }

  /* ---- runs ---- */

  // The state after a sequence of picks.
  function After(tokens: seq<nat>, v: Vocab, p: Params, w: Window): (s: State)
    ensures s.tokens == tokens
  {
    if tokens == [] then FRESH
    else
      var s := After(tokens[..|tokens| - 1], v, p, w);
      Next(s, tokens[|tokens| - 1], v, p, w)
  }

  // Every token was picked by an active decoder and was not masked when it was picked.
  ghost predicate IsRun(tokens: seq<nat>, v: Vocab, p: Params, w: Window)
  {
    tokens != [] ==>
      var before := tokens[..|tokens| - 1];
      IsRun(before, v, p, w) && Active(After(before, v, p, w))
      && tokens[|tokens| - 1] < v.size && !Masked(v, p, After(before, v, p, w), false, tokens[|tokens| - 1])
  }

  // While a decoder is active, the window stands exactly at its last timestamp after beg, and the
  // result reaches up to that token.
  ghost predicate Follows(s: State, v: Vocab) {
    && (!s.hasTs ==> s.seekDelta == CHUNK && s.resultLen == 0)
    && (s.hasTs ==> 0 < s.resultLen <= |s.tokens| && s.tokens[s.resultLen - 1] > v.beg
                    && s.seekDelta == 2 * (s.tokens[s.resultLen - 1] - v.beg))
    && forall k :: s.resultLen <= k < |s.tokens| ==> s.tokens[k] <= v.beg
  }

  ghost predicate TimesRise(tokens: seq<nat>, v: Vocab) {
    forall i, j :: 0 <= i < j < |tokens| && tokens[i] >= v.beg && tokens[j] >= v.beg ==> tokens[i] <= tokens[j]
  }

  // What may follow at position k: not a third timestamp, nor a second one at the very start;
  // after text and then a timestamp, no text.
  predicate Fits(tokens: seq<nat>, k: int, v: Vocab)
    requires 0 <= k < |tokens|
  {
    && (k == 1 ==> !(tokens[0] >= v.beg && tokens[1] >= v.beg))
    && (k >= 2 ==> !(tokens[k - 2] >= v.beg && tokens[k - 1] >= v.beg && tokens[k] >= v.beg))
    && (k >= 2 && tokens[k - 2] < v.beg && tokens[k - 1] >= v.beg ==> tokens[k] >= v.eot)
  }

  // Any pick, masked or not, either goes back or is followed.
  lemma NextFollows(s: State, id: nat, v: Vocab, p: Params, w: Window)
    requires Active(s) && Follows(s, v)
    ensures Active(Next(s, id, v, p, w)) ==> Follows(Next(s, id, v, p, w), v)
    ensures Next(s, id, v, p, w).seekDelta >= 2 && Next(s, id, v, p, w).resultLen <= |s.tokens| + 1
    ensures Next(s, id, v, p, w).hasTs && id < v.size && (s.hasTs ==> s.seekDelta / 2 < v.size - v.beg)
            && Active(Next(s, id, v, p, w)) ==>
              0 <= Next(s, id, v, p, w).seekDelta / 2 < v.size - v.beg
  {
  }

  // A token that is not masked never goes back, and keeps the timestamps in order and in pairs.
  lemma UnmaskedFits(s: State, id: nat, v: Vocab, p: Params)
    requires ValidVocab(v) && Follows(s, v) && TimesRise(s.tokens, v)
    requires !MaskedByTime(v, p, s, id)
    ensures !GoesBack(s.(tokens := s.tokens + [id]), v)
    ensures TimesRise(s.tokens + [id], v) && Fits(s.tokens + [id], |s.tokens|, v)
  {
    if id >= v.beg {
      forall i | 0 <= i < |s.tokens| && s.tokens[i] >= v.beg
        ensures s.tokens[i] <= id
      {
      }
    }
  }

  // What holds of a run of unmasked picks: timestamps never decrease, never come in threes, no
  // text follows a closing one, and the decoder never fails for going back in time.
  ghost predicate Safe(tokens: seq<nat>, v: Vocab, p: Params, w: Window) {
    && TimesRise(tokens, v)
    && forall k :: 0 <= k < |tokens| ==> Fits(tokens, k, v) && NotBack(tokens, k, v, p, w)
  }

  ghost predicate NotBack(tokens: seq<nat>, k: int, v: Vocab, p: Params, w: Window)
    requires 0 <= k < |tokens|
  {
    !GoesBack(After(tokens[..k], v, p, w).(tokens := tokens[..k + 1]), v)
  }

  lemma SafeStep(tokens: seq<nat>, id: nat, v: Vocab, p: Params, w: Window)
    requires Safe(tokens, v, p, w) && TimesRise(tokens + [id], v) && Fits(tokens + [id], |tokens|, v)
    requires !GoesBack(After(tokens, v, p, w).(tokens := tokens + [id]), v)
    ensures Safe(tokens + [id], v, p, w)
  {
    hide GoesBack, TimesRise, After;
    var all := tokens + [id];
    forall k | 0 <= k < |all|
      ensures Fits(all, k, v) && NotBack(all, k, v, p, w)
    {
      if k < |tokens| {
        assert Fits(tokens, k, v) && NotBack(tokens, k, v, p, w);
        assert tokens[..k] == all[..k] && tokens[..k + 1] == all[..k + 1];
      } else {
        assert all[..k] == tokens && all[..k + 1] == all;
      }
    }
  }

  lemma {:induction false} RunsAreSafe(tokens: seq<nat>, v: Vocab, p: Params, w: Window)
    requires ValidVocab(v) && IsRun(tokens, v, p, w)
    ensures Safe(tokens, v, p, w)
    ensures Active(After(tokens, v, p, w)) ==> Follows(After(tokens, v, p, w), v)
    ensures After(tokens, v, p, w).seekDelta >= 2
  {
    hide GoesBack, TimesRise, Follows, Next, Safe, MaskedByTime, Fits;
    if tokens == [] {
      EmptySafe(v, p, w);
    } else {
      var n := |tokens| - 1;
      var before, id := tokens[..n], tokens[n];
      var s := After(before, v, p, w);
      RunsAreSafe(before, v, p, w);
      SafeRises(before, v, p, w);
      UnmaskedFits(s, id, v, p);
      NextFollows(s, id, v, p, w);
      assert before + [id] == tokens;
      SafeStep(before, id, v, p, w);
    }
  }

  // A decoder that completes after a timestamp: its result ends at its last timestamp, which is
  // where the window will stand.
  lemma ResultEndsAtTimestamp(tokens: seq<nat>, v: Vocab, p: Params, w: Window)
    requires ValidVocab(v) && IsRun(tokens, v, p, w) && tokens != []
    requires !p.singleSegment && !p.noTimestamps && p.loaded
    requires After(tokens, v, p, w).completed && After(tokens, v, p, w).hasTs
    ensures Follows(After(tokens, v, p, w), v)
  {
    var before := tokens[..|tokens| - 1];
    RunsAreSafe(before, v, p, w);
    CompletingFollows(After(before, v, p, w), tokens[|tokens| - 1], v, p, w);
  }

  lemma CompletingFollows(s: State, id: nat, v: Vocab, p: Params, w: Window)
    requires Active(s) && Follows(s, v)
    requires !p.singleSegment && !p.noTimestamps && p.loaded && Next(s, id, v, p, w).completed
             && Next(s, id, v, p, w).hasTs
    ensures Follows(Next(s, id, v, p, w), v)
  {
  }

  // The window's new position is in the chunk, and no timestamp is past it.
  ghost predicate Bounded(s: State, v: Vocab) {
    s.seekDelta <= CHUNK
    && forall k :: 0 <= k < |s.tokens| && s.tokens[k] > v.beg ==> 2 * (s.tokens[k] - v.beg) <= s.seekDelta
  }

  lemma NextBounded(s: State, id: nat, v: Vocab, p: Params, w: Window)
    requires Active(s) && Bounded(s, v) && id < v.size <= v.beg + CHUNK / 2 + 1
    requires TimesRise(s.tokens + [id], v) && !GoesBack(s.(tokens := s.tokens + [id]), v) && Follows(s, v)
    ensures Bounded(Next(s, id, v, p, w), v)
  {
    var all := s.tokens + [id];
    forall k | 0 <= k < |all| && all[k] > v.beg
      ensures id > v.beg ==> all[k] <= id
      ensures id <= v.beg ==> k < |s.tokens| && all[k] == s.tokens[k]
      ensures 2 * (all[k] - v.beg) <= CHUNK
    {
      assert k == |s.tokens| ==> all[k] == id;
      assert all[|s.tokens|] == id;
    }
  }

  lemma {:induction false} RunBounded(tokens: seq<nat>, v: Vocab, p: Params, w: Window)
    requires Loaded(v) && IsRun(tokens, v, p, w)
    ensures Bounded(After(tokens, v, p, w), v)
  {
    hide GoesBack, TimesRise, Follows, Next, Safe, MaskedByTime, Fits;
    if tokens == [] {
    } else {
      var n := |tokens| - 1;
      var before, id := tokens[..n], tokens[n];
      var s := After(before, v, p, w);
      RunBounded(before, v, p, w);
      RunsAreSafe(before, v, p, w);
      SafeRises(before, v, p, w);
      UnmaskedFits(s, id, v, p);
      assert before + [id] == tokens;
      NextBounded(s, id, v, p, w);
    }
  }

  lemma EmptySafe(v: Vocab, p: Params, w: Window)
    ensures Safe([], v, p, w) && Follows(FRESH, v)
  {
  }

  lemma SafeRises(tokens: seq<nat>, v: Vocab, p: Params, w: Window)
    requires Safe(tokens, v, p, w)
    ensures TimesRise(tokens, v)
  {
  }

  /* ---- the loop over the audio ---- */

  // Each token was picked by an active decoder.
  ghost predicate IsDecoding(tokens: seq<nat>, v: Vocab, p: Params, w: Window, q: Scores) {
    tokens != [] ==>
      var before := tokens[..|tokens| - 1];
      && IsDecoding(before, v, p, w, q) && Active(After(before, v, p, w))
      && IsPick(v, p, After(before, v, p, w), w, q, tokens[|tokens| - 1])
  }

  // No token was masked when it was picked.
  ghost predicate Unmasked(tokens: seq<nat>, v: Vocab, p: Params, w: Window, q: Scores) {
    tokens != [] ==>
      var before := tokens[..|tokens| - 1];
      && Unmasked(before, v, p, w, q)
      && !Masked(v, p, After(before, v, p, w), q.timesWin(w.seek, before), tokens[|tokens| - 1])
  }

  // Whenever a token was picked, some token was possible.
  ghost predicate NeverStuck(tokens: seq<nat>, v: Vocab, p: Params, w: Window, q: Scores) {
    tokens != [] ==>
      var before := tokens[..|tokens| - 1];
      && NeverStuck(before, v, p, w, q)
      && exists id: nat :: Possible(v, p, After(before, v, p, w), w, q, id)
  }

  // A decoder that is never stuck picks no masked token.
  lemma {:induction false} NeverStuckUnmasked(tokens: seq<nat>, v: Vocab, p: Params, w: Window, q: Scores)
    requires IsDecoding(tokens, v, p, w, q) && NeverStuck(tokens, v, p, w, q)
    ensures Unmasked(tokens, v, p, w, q)
  {
    hide Masked, Next;
    if tokens != [] {
      NeverStuckUnmasked(tokens[..|tokens| - 1], v, p, w, q);
    }
  }

  // And one that picks no masked token is safe.
  lemma {:induction false} UnmaskedIsRun(tokens: seq<nat>, v: Vocab, p: Params, w: Window, q: Scores)
    requires ValidVocab(v) && IsDecoding(tokens, v, p, w, q) && Unmasked(tokens, v, p, w, q)
    ensures IsRun(tokens, v, p, w)
  {
    hide Masked, Next, IsPick;
    if tokens != [] {
      var before := tokens[..|tokens| - 1];
      UnmaskedIsRun(before, v, p, w, q);
      WinsMasksMore(v, p, After(before, v, p, w), q.timesWin(w.seek, before), tokens[|tokens| - 1]);
      PickExists(v, p, After(before, v, p, w), w, q, tokens[|tokens| - 1]);
    }
  }

  lemma PickExists(v: Vocab, p: Params, s: State, w: Window, q: Scores, id: nat)
    requires ValidVocab(v) && IsPick(v, p, s, w, q, id)
    ensures id < v.size
  {
    hide Masked;
  }

  // Decodes one window. `legal` says whether every pick was unmasked.
  method DecodeWindow(v: Vocab, p: Params, w: Window, q: Scores) returns (d: Decoder, legal: bool)
    requires ValidVocab(v)
    ensures fresh(d) && d.Value() == After(d.tokens, v, p, w) && IsDecoding(d.tokens, v, p, w, q)
    ensures legal <==> Unmasked(d.tokens, v, p, w, q)
    ensures NeverStuck(d.tokens, v, p, w, q) ==> legal
    ensures legal ==> IsRun(d.tokens, v, p, w) && Safe(d.tokens, v, p, w)
    ensures |d.tokens| <= w.maxSteps && (Active(d.Value()) ==> |d.tokens| == w.maxSteps)
    ensures d.seekDelta >= 2 && d.resultLen <= |d.tokens|
  {
    d := new Decoder();
    legal := true;
    var masked := new bool[v.size];
    EmptySafe(v, p, w);
    hide Masked, Next, Follows, IsDecoding, Unmasked, NeverStuck, After, IsRun, Safe;
    NothingDecoded(v, p, w, q);
    for i := 0 to w.maxSteps
      invariant |d.tokens| == i && Active(d.Value()) && d.Value() == After(d.tokens, v, p, w)
      invariant fresh(d) && fresh(masked) && masked.Length == v.size
      invariant IsDecoding(d.tokens, v, p, w, q) && (legal <==> Unmasked(d.tokens, v, p, w, q))
      invariant Ready(d.Value(), v)
    {
      var ok := StepDecoder(d, masked, v, p, w, q);
      legal := legal && ok;
      if d.completed || d.failed {
        break;
      }
    }
    LegalIsSafe(d.tokens, v, p, w, q);
  }

  lemma NothingDecoded(v: Vocab, p: Params, w: Window, q: Scores)
    ensures IsDecoding([], v, p, w, q) && Unmasked([], v, p, w, q) && After([], v, p, w) == FRESH
  {
  }

  lemma LegalIsSafe(tokens: seq<nat>, v: Vocab, p: Params, w: Window, q: Scores)
    requires ValidVocab(v) && IsDecoding(tokens, v, p, w, q)
    ensures NeverStuck(tokens, v, p, w, q) ==> Unmasked(tokens, v, p, w, q)
    ensures Unmasked(tokens, v, p, w, q) ==> IsRun(tokens, v, p, w) && Safe(tokens, v, p, w)
  {
    hide Safe, After, IsRun, Unmasked, NeverStuck, IsDecoding;
    if NeverStuck(tokens, v, p, w, q) {
      NeverStuckUnmasked(tokens, v, p, w, q);
    }
    if Unmasked(tokens, v, p, w, q) {
      UnmaskedIsRun(tokens, v, p, w, q);
      RunsAreSafe(tokens, v, p, w);
    }
  }

  // An active decoder between two tokens.
  ghost predicate Ready(s: State, v: Vocab) {
    Follows(s, v) && s.seekDelta >= 2 && s.resultLen <= |s.tokens| && (s.hasTs ==> s.seekDelta / 2 < v.size - v.beg)
  }

  // One token. `ok` says whether it was unmasked.
  method StepDecoder(d: Decoder, masked: array<bool>, v: Vocab, p: Params, w: Window, q: Scores) returns (ok: bool)
    requires ValidVocab(v) && masked.Length == v.size
    requires Active(d.Value()) && Ready(d.Value(), v) && d.Value() == After(d.tokens, v, p, w)
    requires IsDecoding(d.tokens, v, p, w, q)
    modifies d, masked
    ensures |d.tokens| == |old(d.tokens)| + 1 && d.Value() == After(d.tokens, v, p, w)
    ensures Active(d.Value()) ==> Ready(d.Value(), v)
    ensures d.seekDelta >= 2 && d.resultLen <= |d.tokens|
    ensures IsDecoding(d.tokens, v, p, w, q)
    ensures Unmasked(d.tokens, v, p, w, q) <==> ok && Unmasked(old(d.tokens), v, p, w, q)
  {
    hide Masked, Next, Ready, After, IsPick, IsDecoding, Unmasked;
    ghost var s := d.Value();
    var tokens := d.tokens;
    var wins := q.timesWin(w.seek, tokens);
    ReadyMasks(s, v);
    d.ProcessLogits(v, p, wins, masked);
    var id := d.Sample(masked, k => q.probability(w.seek, tokens, k));
    ok := !masked[id];
    SampleIsPick(masked[..], v, p, s, w, q, id);
    d.Accept(id, v, p, w);
    NextReady(s, id, v, p, w);
    DecodingStep(tokens, id, v, p, w, q);
  }

  lemma SampleIsPick(masked: seq<bool>, v: Vocab, p: Params, s: State, w: Window, q: Scores, id: nat)
    requires ValidVocab(v) && |masked| == v.size && id < v.size
    requires forall i :: 0 <= i < v.size ==> (masked[i] <==> Masked(v, p, s, q.timesWin(w.seek, s.tokens), i))
    requires (exists i :: 0 <= i < v.size && !masked[i] && q.probability(w.seek, s.tokens, i) > 0.0) ==>
               !masked[id] && q.probability(w.seek, s.tokens, id) > 0.0
    requires (forall i :: 0 <= i < v.size && !masked[i] ==> q.probability(w.seek, s.tokens, i) <= 0.0) ==> id == 0
    requires forall i :: 0 <= i < v.size && !masked[i] && q.probability(w.seek, s.tokens, i) > 0.0 ==>
               && q.probability(w.seek, s.tokens, i) <= q.probability(w.seek, s.tokens, id)
               && (i < id ==> q.probability(w.seek, s.tokens, i) < q.probability(w.seek, s.tokens, id))
    ensures IsPick(v, p, s, w, q, id)
  {
    hide Masked;
    if i: nat :| Possible(v, p, s, w, q, i) {
      assert !masked[i];
    } else {
      forall i | 0 <= i < v.size && !masked[i]
        ensures q.probability(w.seek, s.tokens, i) <= 0.0
      {
        assert !Possible(v, p, s, w, q, i);
      }
    }
  }

  lemma ReadyMasks(s: State, v: Vocab)
    requires Ready(s, v)
    ensures s.hasTs ==> 0 <= s.seekDelta / 2 < v.size - v.beg
  {
  }

  lemma DecodingStep(tokens: seq<nat>, id: nat, v: Vocab, p: Params, w: Window, q: Scores)
    requires IsDecoding(tokens, v, p, w, q) && Active(After(tokens, v, p, w))
    requires IsPick(v, p, After(tokens, v, p, w), w, q, id)
    ensures After(tokens + [id], v, p, w) == Next(After(tokens, v, p, w), id, v, p, w)
    ensures IsDecoding(tokens + [id], v, p, w, q)
    ensures Unmasked(tokens + [id], v, p, w, q)
            <==> Unmasked(tokens, v, p, w, q) && !Masked(v, p, After(tokens, v, p, w), q.timesWin(w.seek, tokens), id)
  {
    assert (tokens + [id])[..|tokens|] == tokens;
    hide Masked, Next, IsPick;
  }

  lemma WinsMasksMore(v: Vocab, p: Params, s: State, wins: bool, id: nat)
    ensures Masked(v, p, s, false, id) ==> Masked(v, p, s, wins, id)
  {
  }

  lemma NextReady(s: State, id: nat, v: Vocab, p: Params, w: Window)
    requires Active(s) && Ready(s, v) && id < v.size && v.beg < v.size
    ensures Active(Next(s, id, v, p, w)) ==> Ready(Next(s, id, v, p, w), v)
    ensures Next(s, id, v, p, w).seekDelta >= 2 && Next(s, id, v, p, w).resultLen <= |s.tokens| + 1
  {
    NextFollows(s, id, v, p, w);
    hide Next, Follows;
  }

  // The tokens a window contributes: those up to the last timestamp, unless decoding failed.
  function Result(s: State): seq<nat>
    requires s.resultLen <= |s.tokens|
  {
    if s.failed then s.tokens else s.tokens[..s.resultLen]
  }

  // How far the window moves: to the last timestamp, but over the whole chunk when the result
  // ends with a single timestamp after text.
  function Advance(s: State, v: Vocab, p: Params, w: Window): int
    requires s.resultLen <= |s.tokens|
  {
    var tokens := Result(s);
    var overflow := p.maxTokens > 0 && !p.singleSegment && |tokens| > p.maxTokens;
    if |tokens| > 1 && !overflow && tokens[|tokens| - 2] < v.beg && tokens[|tokens| - 1] > v.beg then
      if w.seekEnd - w.seek < CHUNK then w.seekEnd - w.seek else CHUNK
    else s.seekDelta
  }

  // A window that is not the last moves at least to its last timestamp.
  lemma AdvancePasses(s: State, v: Vocab, p: Params, w: Window)
    requires s.resultLen <= |s.tokens| && s.seekDelta <= CHUNK
    ensures Advance(s, v, p, w) >= s.seekDelta || w.seek + Advance(s, v, p, w) == w.seekEnd
  {
  }

  // Window i ends where the next one starts, at least 20 ms later. Its tokens are those picked;
  // if it was never stuck, none was masked, and if none was masked, they are a safe run.
  ghost predicate Link(seeks: seq<int>, windows: seq<State>, i: int, v: Vocab, p: Params, q: Scores, seekEnd: int,
                       maxSteps: nat)
    requires |seeks| == |windows| + 1 && 0 <= i < |windows|
  {
    var w, tokens := Window(seeks[i], seekEnd, maxSteps), windows[i].tokens;
    && windows[i].resultLen <= |tokens|
    && seeks[i] + DELTA_MIN < seekEnd
    && windows[i] == After(tokens, v, p, w) && IsDecoding(tokens, v, p, w, q)
    && |tokens| <= maxSteps && (Active(windows[i]) ==> |tokens| == maxSteps)
    && (NeverStuck(tokens, v, p, w, q) ==> Unmasked(tokens, v, p, w, q))
    && (Unmasked(tokens, v, p, w, q) ==> IsRun(tokens, v, p, w) && Safe(tokens, v, p, w))
    && seeks[i + 1] == seeks[i] + Advance(windows[i], v, p, w)
    && seeks[i + 1] >= seeks[i] + 2
  }

  ghost predicate Chained(seeks: seq<int>, windows: seq<State>, v: Vocab, p: Params, q: Scores, seekEnd: int,
                          maxSteps: nat) {
    && |seeks| == |windows| + 1
    && forall i :: 0 <= i < |windows| ==> Link(seeks, windows, i, v, p, q, seekEnd, maxSteps)
  }

  method SeekDelta(d: Decoder, v: Vocab, p: Params, w: Window) returns (seekDelta: int)
    requires d.resultLen <= |d.tokens| && d.seekDelta >= 2 && w.seek + DELTA_MIN < w.seekEnd
    ensures seekDelta == Advance(d.Value(), v, p, w) >= 2
  {
    var tokens := if d.failed then d.tokens else d.tokens[..d.resultLen];
    seekDelta := d.seekDelta;
    var maxTokensTimestampEnding := p.maxTokens > 0 && !p.singleSegment && |tokens| > p.maxTokens;
    var singleTimestampEnding := |tokens| > 1 && !maxTokensTimestampEnding
                                 && tokens[|tokens| - 2] < v.beg && tokens[|tokens| - 1] > v.beg;
    if singleTimestampEnding {
      seekDelta := if w.seekEnd - w.seek < CHUNK then w.seekEnd - w.seek else CHUNK;
    }
  }

  lemma ChainGrows(seeks: seq<int>, windows: seq<State>, s: State, v: Vocab, p: Params, w: Window, q: Scores)
    requires Chained(seeks, windows, v, p, q, w.seekEnd, w.maxSteps) && seeks[|windows|] == w.seek
    requires s.resultLen <= |s.tokens| && w.seek + DELTA_MIN < w.seekEnd && Advance(s, v, p, w) >= 2
    requires s == After(s.tokens, v, p, w) && IsDecoding(s.tokens, v, p, w, q)
    requires |s.tokens| <= w.maxSteps && (Active(s) ==> |s.tokens| == w.maxSteps)
    requires NeverStuck(s.tokens, v, p, w, q) ==> Unmasked(s.tokens, v, p, w, q)
    requires Unmasked(s.tokens, v, p, w, q) ==> IsRun(s.tokens, v, p, w) && Safe(s.tokens, v, p, w)
    ensures Chained(seeks + [w.seek + Advance(s, v, p, w)], windows + [s], v, p, q, w.seekEnd, w.maxSteps)
  {
    hide Advance, After, IsRun, IsDecoding, Unmasked, NeverStuck, Safe;
    var seeks', windows' := seeks + [w.seek + Advance(s, v, p, w)], windows + [s];
    forall i | 0 <= i < |windows'|
      ensures Link(seeks', windows', i, v, p, q, w.seekEnd, w.maxSteps)
    {
      if i < |windows| {
        assert Link(seeks, windows, i, v, p, q, w.seekEnd, w.maxSteps);
      }
    }
  }
}
