/**
 Greedy decoding of a token-and-duration transducer, and the refinement of its token times.
 */
module Tdt {
  import opened Arithmetic

  // frames counts encoder frames; a token ends `duration` frames after it starts.
  datatype TokenData = TokenData(id: nat, duration: nat, frame: nat, t0: int, t1: int)

  // The network: its prediction state after one more token, and the logits it gives together
  // with a frame, those of the tokens first and those of the durations after them.
  datatype Network<!P(!new)> = Network(predict: (P, nat) -> P, joint: (P, nat) -> (nat -> real))

  // The blank token comes after all others; maxTokens limits the tokens of one frame.
  datatype Model = Model(blank: nat, durations: seq<nat>, maxTokens: int, subsampling: nat)

  predicate ValidModel(m: Model) { m.durations != [] }

  const FLOOR := -10000000000.0

  // The most tokens one frame can emit.
  function PerFrame(m: Model): nat { if m.maxTokens > 1 then m.maxTokens else 1 }

  /* ---- choosing the best ---- */

  // The first of the largest logits, 0 if none is above the floor.
  function Best(logits: nat -> real, from: nat, n: nat): (b: nat)
    ensures n > 0 ==> b < n
  {
    if n == 0 then 0
    else
      var b := Best(logits, from, n - 1);
      var best := BestLogit(logits, from, n - 1);
      if logits(from + n - 1) > best then n - 1 else b
  }

  function BestLogit(logits: nat -> real, from: nat, n: nat): real {
    if n == 0 then FLOOR
    else if logits(from + n - 1) > BestLogit(logits, from, n - 1) then logits(from + n - 1)
    else BestLogit(logits, from, n - 1)
  }

  // No logit above the floor is larger, and no earlier one is as large.
  lemma {:induction false} BestIsLargest(logits: nat -> real, from: nat, n: nat, i: nat)
    requires i < n && logits(from + i) > FLOOR
    ensures logits(from + i) <= logits(from + Best(logits, from, n)) == BestLogit(logits, from, n)
    ensures i < Best(logits, from, n) ==> logits(from + i) < logits(from + Best(logits, from, n))
    decreases n
  {
    if i < n - 1 {
      BestIsLargest(logits, from, n - 1, i);
    } else {
      BestAbove(logits, from, n - 1);
    }
  }

  lemma {:induction false} BestAbove(logits: nat -> real, from: nat, n: nat)
    ensures BestLogit(logits, from, n) >= FLOOR
    ensures BestLogit(logits, from, n) > FLOOR
            ==> n > 0 && BestLogit(logits, from, n) == logits(from + Best(logits, from, n))
  {
    if n > 0 {
      BestAbove(logits, from, n - 1);
    }
  }

  method ArgMax(logits: nat -> real, from: nat, n: nat) returns (b: nat)
    ensures b == Best(logits, from, n)
  {
    b := 0;
    var max := FLOOR;
    for i := 0 to n
      invariant b == Best(logits, from, i) && max == BestLogit(logits, from, i)
    {
      if logits(from + i) > max {
        max := logits(from + i);
        b := i;
      }
    }
  }

  /* ---- decoding ---- */

  // The prediction state after a sequence of tokens.
  function Predicted<P(!new)>(net: Network<P>, start: P, tokens: seq<nat>): P {
    if tokens == [] then start
    else (net.predict)(Predicted(net, start, tokens[..|tokens| - 1]), tokens[|tokens| - 1])
  }

  function TokenAt<P(!new)>(net: Network<P>, m: Model, p: P, t: nat): nat {
    Best((net.joint)(p, t), 0, m.blank + 1)
  }

  function DurationAt<P(!new)>(net: Network<P>, m: Model, p: P, t: nat): nat
    requires ValidModel(m)
  {
    m.durations[Best((net.joint)(p, t), m.blank + 1, |m.durations|)]
  }

  function Data(m: Model, id: nat, duration: nat, frame: nat): TokenData {
    TokenData(id, duration, frame, frame * m.subsampling, (frame + duration) * m.subsampling)
  }

  // Where decoding stands after a frame has been looked at: frame, tokens emitted there, and
  // what was emitted.
  datatype Step = Step(t: nat, emitted: nat, token: seq<TokenData>)

  function Advance<P(!new)>(net: Network<P>, m: Model, p: P, t: nat, emitted: nat): Step
    requires ValidModel(m)
  {
    var id, d := TokenAt(net, m, p, t), DurationAt(net, m, p, t);
    if id == m.blank then Step(t + if d == 0 then 1 else d, 0, [])
    else if d > 0 then Step(t + d, 0, [Data(m, id, d, t)])
    else if emitted + 1 >= m.maxTokens then Step(t + 1, 0, [Data(m, id, d, t)])
    else Step(t, emitted + 1, [Data(m, id, d, t)])
  }

  lemma AdvanceProgresses<P(!new)>(net: Network<P>, m: Model, p: P, t: nat, emitted: nat)
    requires ValidModel(m) && emitted < PerFrame(m)
    ensures var s := Advance(net, m, p, t, emitted);
            s.emitted < PerFrame(m) && |s.token| <= 1 && (s.t > t || (s.t == t && s.emitted == emitted + 1))
            && forall d :: d in s.token ==>
                 d.frame == t && d.frame + d.duration <= s.t && d == Data(m, d.id, d.duration, d.frame)
  {
  }

  // The prediction state after what was emitted.
  function After<P(!new)>(net: Network<P>, p: P, token: seq<TokenData>): P {
    if token == [] then p else (net.predict)(p, token[0].id)
  }

  // Everything emitted from frame t on. That this ends is a theorem of its own: every step
  // moves to a later frame or uses up one of the tokens the frame may emit.
  function Decoded<P(!new)>(net: Network<P>, m: Model, frames: nat, p: P, t: nat, emitted: nat): seq<TokenData>
    requires ValidModel(m) && emitted < PerFrame(m)
    decreases if t < frames then frames - t else 0, PerFrame(m) - emitted
  {
    if t >= frames then []
    else
      AdvanceProgresses(net, m, p, t, emitted);
      var s := Advance(net, m, p, t, emitted);
      s.token + Decoded(net, m, frames, After(net, p, s.token), s.t, s.emitted)
  }

  function Ids(data: seq<TokenData>): seq<nat> { seq(|data|, i requires 0 <= i < |data| => data[i].id) }

  class Decoder<P(!new)> {
    var tokens: seq<nat>
    var data: seq<TokenData>
    var predictor: P

    constructor (start: P)
      ensures tokens == [] && data == [] && predictor == start
    {
      tokens, data, predictor := [], [], start;
    }

    // Looks at one frame: picks a token and a duration, and moves on.
    method Frame(net: Network<P>, m: Model, t: nat, emitted: nat) returns (t': nat, emitted': nat)
      requires ValidModel(m)
      modifies this
      ensures var s := Advance(net, m, old(predictor), t, emitted);
              t' == s.t && emitted' == s.emitted && data == old(data) + s.token && tokens == old(tokens) + Ids(s.token)
              && predictor == After(net, old(predictor), s.token)
    {
      t', emitted' := t, emitted;
      var logits := (net.joint)(predictor, t);
      var bestToken := ArgMax(logits, 0, m.blank + 1);
      var bestDuration := ArgMax(logits, m.blank + 1, |m.durations|);
      var duration := m.durations[bestDuration];
      if bestToken == m.blank {
        if duration == 0 {
          duration := 1;
        }
        t' := t + duration;
        emitted' := 0;
        return;
      }
      tokens := tokens + [bestToken];
      data := data + [TokenData(bestToken, duration, t, t * m.subsampling, (t + duration) * m.subsampling)];
      predictor := (net.predict)(predictor, bestToken);
      if duration > 0 {
        t' := t + duration;
        emitted' := 0;
        return;
      }
      emitted' := emitted + 1;
      if emitted' >= m.maxTokens {
        t' := t + 1;
        emitted' := 0;
      }
    }

    // Decodes all frames. It always ends.
    method Decode(net: Network<P>, m: Model, frames: nat)
      requires ValidModel(m)
      modifies this
      ensures var added := Decoded(net, m, frames, (net.predict)(old(predictor), m.blank), 0, 0);
              data == old(data) + added && tokens == old(tokens) + Ids(added)
              && predictor == Predicted(net, old(predictor), [m.blank] + Ids(added))
    {
      var t: nat, tokensEmitted: nat := 0, 0;
      ghost var start, all := predictor, Decoded(net, m, frames, (net.predict)(predictor, m.blank), 0, 0);
      ghost var data0, tokens0, done: seq<TokenData> := data, tokens, [];
      predictor := (net.predict)(predictor, m.blank);
      PredictedStart(net, start, m.blank);
      hide Advance, Predicted, Data, Decoding;
      DecodingStart(net, m, frames, start, all, data, tokens, predictor);
      while t < frames
        invariant tokensEmitted < PerFrame(m)
        invariant Decoding(net, m, frames, start, all, data0, tokens0, done, data, tokens, predictor, t, tokensEmitted)
        decreases if t < frames then frames - t else 0, PerFrame(m) - tokensEmitted
      {
        AdvanceProgresses(net, m, predictor, t, tokensEmitted);
        ghost var s := Advance(net, m, predictor, t, tokensEmitted);
        DecodingStep(net, m, frames, start, all, data0, tokens0, done, data, tokens, predictor, t, tokensEmitted);
        t, tokensEmitted := Frame(net, m, t, tokensEmitted);
        done := done + s.token;
      }
      DecodingEnd(net, m, frames, start, all, data0, tokens0, done, data, tokens, predictor, t, tokensEmitted);
    }
  }

  // `done` has been emitted since data0 and tokens0, and the rest of `all` is still to come.
  ghost predicate Decoding<P(!new)>(net: Network<P>, m: Model, frames: nat, start: P, all: seq<TokenData>,
                                    data0: seq<TokenData>, tokens0: seq<nat>, done: seq<TokenData>,
                                    data: seq<TokenData>, tokens: seq<nat>, p: P, t: nat, emitted: nat)
    requires ValidModel(m) && emitted < PerFrame(m)
  {
    && data == data0 + done && tokens == tokens0 + Ids(done)
    && p == Predicted(net, start, [m.blank] + Ids(done))
    && all == done + Decoded(net, m, frames, p, t, emitted)
  }

  lemma DecodingStart<P(!new)>(net: Network<P>, m: Model, frames: nat, start: P, all: seq<TokenData>,
                               data: seq<TokenData>, tokens: seq<nat>, p: P)
    requires ValidModel(m) && p == Predicted(net, start, [m.blank] + Ids([])) && all == Decoded(net, m, frames, p, 0, 0)
    ensures Decoding(net, m, frames, start, all, data, tokens, [], data, tokens, p, 0, 0)
  {
    hide Decoded, Predicted;
    assert data + [] == data && tokens + Ids([]) == tokens && [] + all == all;
  }

  lemma DecodingStep<P(!new)>(net: Network<P>, m: Model, frames: nat, start: P, all: seq<TokenData>,
                              data0: seq<TokenData>, tokens0: seq<nat>, done: seq<TokenData>,
                              data: seq<TokenData>, tokens: seq<nat>, p: P, t: nat, emitted: nat)
    requires ValidModel(m) && emitted < PerFrame(m) && t < frames
    requires Decoding(net, m, frames, start, all, data0, tokens0, done, data, tokens, p, t, emitted)
    ensures var s := Advance(net, m, p, t, emitted);
            s.emitted < PerFrame(m)
            && Decoding(net, m, frames, start, all, data0, tokens0, done + s.token, data + s.token,
                tokens + Ids(s.token),
                        After(net, p, s.token), s.t, s.emitted)
  {
    AdvanceProgresses(net, m, p, t, emitted);
    DecodedStep(net, m, frames, p, t, emitted);
    hide Advance, Decoded, Predicted, Ids, After, Data;
    var s := Advance(net, m, p, t, emitted);
    DoneGrows(net, start, m, done, s.token);
    Associative(data0, done, s.token);
    Associative(tokens0, Ids(done), Ids(s.token));
    Associative(done, s.token, Decoded(net, m, frames, After(net, p, s.token), s.t, s.emitted));
  }

  lemma Associative<T>(a: seq<T>, b: seq<T>, c: seq<T>)
    ensures (a + b) + c == a + (b + c)
  {
  }

  lemma DecodingEnd<P(!new)>(net: Network<P>, m: Model, frames: nat, start: P, all: seq<TokenData>,
                             data0: seq<TokenData>, tokens0: seq<nat>, done: seq<TokenData>,
                             data: seq<TokenData>, tokens: seq<nat>, p: P, t: nat, emitted: nat)
    requires ValidModel(m) && emitted < PerFrame(m) && t >= frames
    requires Decoding(net, m, frames, start, all, data0, tokens0, done, data, tokens, p, t, emitted)
    ensures data == data0 + all && tokens == tokens0 + Ids(all) && p == Predicted(net, start, [m.blank] + Ids(all))
  {
    assert done + [] == done;
  }

  lemma PredictedStart<P(!new)>(net: Network<P>, start: P, blank: nat)
    ensures Predicted(net, start, [blank] + Ids([])) == (net.predict)(start, blank)
  {
    assert [blank] + Ids([]) == [blank] && [blank][..0] == [];
  }

  lemma PredictedGrows<P(!new)>(net: Network<P>, start: P, tokens: seq<nat>, id: nat)
    ensures Predicted(net, start, tokens + [id]) == (net.predict)(Predicted(net, start, tokens), id)
  {
    assert (tokens + [id])[..|tokens|] == tokens;
  }

  lemma DoneGrows<P(!new)>(net: Network<P>, start: P, m: Model, done: seq<TokenData>, token: seq<TokenData>)
    requires |token| <= 1
    ensures Ids(done + token) == Ids(done) + Ids(token)
    ensures Predicted(net, start, [m.blank] + Ids(done + token))
         == After(net, Predicted(net, start, [m.blank] + Ids(done)), token)
  {
    if token == [] {
      assert done + token == done;
    } else {
      assert [m.blank] + Ids(done + token) == ([m.blank] + Ids(done)) + [token[0].id];
      PredictedGrows(net, start, [m.blank] + Ids(done), token[0].id);
    }
  }

  /* ---- the frames that are looked at ---- */

  // A look at a frame, in a prediction state.
  datatype Visit<P> = Visit(frame: nat, p: P)

  // What a look emits: nothing for blank, else the best token with the best duration.
  function Emission<P(!new)>(net: Network<P>, m: Model, v: Visit<P>): seq<TokenData>
    requires ValidModel(m)
  {
    var id, d := TokenAt(net, m, v.p, v.frame), DurationAt(net, m, v.p, v.frame);
    if id == m.blank then []
    else [TokenData(id, d, v.frame, v.frame * m.subsampling, (v.frame + d) * m.subsampling)]
  }

  function Emissions<P(!new)>(net: Network<P>, m: Model, visits: seq<Visit<P>>): seq<TokenData>
    requires ValidModel(m)
  {
    if visits == [] then []
    else Emissions(net, m, visits[..|visits| - 1]) + Emission(net, m, visits[|visits| - 1])
  }

  // The looks at the same frame directly before look k.
  function Repeats<P(!new)>(visits: seq<Visit<P>>, k: nat): nat
    requires k < |visits|
  {
    if k > 0 && visits[k - 1].frame == visits[k].frame then Repeats(visits, k - 1) + 1 else 0
  }

  // The frame after a look: the best duration further; and with duration 0 one further after
  // blank and after as many looks as a frame may have tokens, but the same frame otherwise.
  function NextFrame<P(!new)>(net: Network<P>, m: Model, v: Visit<P>, repeats: nat): nat
    requires ValidModel(m)
  {
    var d := DurationAt(net, m, v.p, v.frame);
    if d > 0 then v.frame + d
    else if TokenAt(net, m, v.p, v.frame) == m.blank || repeats + 1 >= m.maxTokens then v.frame + 1
    else v.frame
  }

  // Look k is at a frame of the audio, in the state predicted from the tokens emitted before it,
  // and leads to the next look, the last one to frame `end`.
  ghost predicate IsVisit<P(!new)>(net: Network<P>, m: Model, frames: nat, p: P, visits: seq<Visit<P>>, end: nat,
                                   k: int)
    requires ValidModel(m) && 0 <= k < |visits|
  {
    && visits[k].frame < frames
    && visits[k].p == Predicted(net, p, Ids(Emissions(net, m, visits[..k])))
    && NextFrame(net, m, visits[k], Repeats(visits, k)) == if k + 1 < |visits| then visits[k + 1].frame else end
  }

  // Looks from frame 0 on that lead to frame `end`.
  ghost predicate IsWalk<P(!new)>(net: Network<P>, m: Model, frames: nat, p: P, visits: seq<Visit<P>>, end: nat)
    requires ValidModel(m)
  {
    && (if visits == [] then end else visits[0].frame) == 0
    && forall k :: 0 <= k < |visits| ==> IsVisit(net, m, frames, p, visits, end, k)
  }

  // The tokens emitted at frame `end` so far.
  function RepeatsAt<P(!new)>(visits: seq<Visit<P>>, end: nat): nat {
    if visits != [] && visits[|visits| - 1].frame == end then Repeats(visits, |visits| - 1) + 1 else 0
  }

  // What has been emitted on a walk, and what is emitted from its end on, is all that is decoded.
  lemma {:induction false} WalkDecodes<P(!new)>(net: Network<P>, m: Model, frames: nat, p: P, visits: seq<Visit<P>>,
                                                end: nat)
    requires ValidModel(m) && IsWalk(net, m, frames, p, visits, end)
    ensures RepeatsAt(visits, end) < PerFrame(m)
    ensures Decoded(net, m, frames, p, 0, 0)
            == Emissions(net, m, visits)
               + Decoded(net, m, frames, Predicted(net, p, Ids(Emissions(net, m, visits))), end, RepeatsAt(visits, end))
    decreases |visits|
  {
    hide Predicted, TokenAt, DurationAt;
    if visits == [] {
      EmptyWalk(net, m, frames, p, visits);
    } else {
      var n := |visits| - 1;
      var before, v := visits[..n], visits[n];
      assert IsVisit(net, m, frames, p, visits, end, n);
      WalkFront(net, m, frames, p, visits, end);
      WalkDecodes(net, m, frames, p, before, v.frame);
      VisitAdvances(net, m, visits, end);
      DecodedStep(net, m, frames, v.p, v.frame, RepeatsAt(before, v.frame));
      var a := Advance(net, m, v.p, v.frame, RepeatsAt(before, v.frame));
      hide Decoded, Advance, Repeats, RepeatsAt, IsWalk, NextFrame, Emission, After, Ids;
      DoneMore(net, p, Emissions(net, m, before), a.token);
      Associative(Emissions(net, m, before), a.token,
                  Decoded(net, m, frames, After(net, v.p, a.token), a.t, a.emitted));
    }
  }

  lemma EmptyWalk<P(!new)>(net: Network<P>, m: Model, frames: nat, p: P, visits: seq<Visit<P>>)
    requires ValidModel(m) && visits == []
    ensures RepeatsAt(visits, 0) == 0 < PerFrame(m) && Emissions(net, m, visits) == []
    ensures Predicted(net, p, Ids(Emissions(net, m, visits))) == p
  {
  }

  // A walk without its last look.
  lemma WalkFront<P(!new)>(net: Network<P>, m: Model, frames: nat, p: P, visits: seq<Visit<P>>, end: nat)
    requires ValidModel(m) && visits != [] && IsWalk(net, m, frames, p, visits, end)
    ensures IsWalk(net, m, frames, p, visits[..|visits| - 1], visits[|visits| - 1].frame)
    ensures Repeats(visits, |visits| - 1) == RepeatsAt(visits[..|visits| - 1], visits[|visits| - 1].frame)
  {
    hide Predicted, Emissions, NextFrame, Repeats;
    var n := |visits| - 1;
    var before := visits[..n];
    forall k | 0 <= k < n
      ensures IsVisit(net, m, frames, p, before, visits[n].frame, k)
    {
      assert IsVisit(net, m, frames, p, visits, end, k);
      assert before[..k] == visits[..k];
      RepeatsFront(visits, n, k);
    }
    LastRepeats(visits);
  }

  lemma {:induction false} RepeatsFront<P(!new)>(visits: seq<Visit<P>>, n: nat, k: nat)
    requires k < n <= |visits|
    ensures Repeats(visits[..n], k) == Repeats(visits, k)
  {
    if k > 0 {
      RepeatsFront(visits, n, k - 1);
    }
  }

  lemma LastRepeats<P(!new)>(visits: seq<Visit<P>>)
    requires visits != []
    ensures Repeats(visits, |visits| - 1) == RepeatsAt(visits[..|visits| - 1], visits[|visits| - 1].frame)
  {
    var n := |visits| - 1;
    if n > 0 {
      RepeatsFront(visits, n, n - 1);
    }
  }

  // The last look is a step of decoding.
  lemma VisitAdvances<P(!new)>(net: Network<P>, m: Model, visits: seq<Visit<P>>, end: nat)
    requires ValidModel(m) && visits != []
    requires Repeats(visits, |visits| - 1) < PerFrame(m)
    requires end == NextFrame(net, m, visits[|visits| - 1], Repeats(visits, |visits| - 1))
    ensures var v, e := visits[|visits| - 1], Repeats(visits, |visits| - 1);
            Advance(net, m, v.p, v.frame, e) == Step(end, RepeatsAt(visits, end), Emission(net, m, v))
    ensures Emissions(net, m, visits)
            == Emissions(net, m, visits[..|visits| - 1]) + Emission(net, m, visits[|visits| - 1])
  {
  }

  lemma DoneMore<P(!new)>(net: Network<P>, p: P, done: seq<TokenData>, token: seq<TokenData>)
    requires |token| <= 1
    ensures Predicted(net, p, Ids(done + token)) == After(net, Predicted(net, p, Ids(done)), token)
  {
    if token == [] {
      assert done + token == done;
    } else {
      assert Ids(done + token) == Ids(done) + [token[0].id];
      PredictedGrows(net, p, Ids(done), token[0].id);
    }
  }

  // Decoding looks at frames along a walk that starts at frame 0 and leaves the audio, and what is
  // decoded is exactly what these looks emit, in order.
  lemma DecodedWalks<P(!new)>(net: Network<P>, m: Model, frames: nat, p: P) returns (visits: seq<Visit<P>>, end: nat)
    requires ValidModel(m)
    ensures end >= frames && IsWalk(net, m, frames, p, visits, end)
    ensures Decoded(net, m, frames, p, 0, 0) == Emissions(net, m, visits)
  {
    EmptyWalk(net, m, frames, p, []);
    visits, end := WalkOn(net, m, frames, p, [], 0);
    WalkIsDecoded(net, m, frames, p, visits, end);
  }

  // And what is decoded is what the looks of any such walk emit.
  lemma WalkIsDecoded<P(!new)>(net: Network<P>, m: Model, frames: nat, p: P, visits: seq<Visit<P>>, end: nat)
    requires ValidModel(m) && end >= frames && IsWalk(net, m, frames, p, visits, end)
    ensures Decoded(net, m, frames, p, 0, 0) == Emissions(net, m, visits)
  {
    hide IsWalk, Emissions, Predicted;
    WalkDecodes(net, m, frames, p, visits, end);
    assert Emissions(net, m, visits) + [] == Emissions(net, m, visits);
  }

  // A walk that has not left the audio goes on.
  lemma {:induction false} WalkOn<P(!new)>(net: Network<P>, m: Model, frames: nat, p: P, visits: seq<Visit<P>>,
                                           end: nat)
    returns (all: seq<Visit<P>>, last: nat)
    requires ValidModel(m) && IsWalk(net, m, frames, p, visits, end) && RepeatsAt(visits, end) < PerFrame(m)
    ensures last >= frames && IsWalk(net, m, frames, p, all, last)
    decreases if end < frames then frames - end else 0, PerFrame(m) - RepeatsAt(visits, end)
  {
    if end >= frames {
      all, last := visits, end;
    } else {
      hide IsWalk, Predicted;
      var v := Visit(end, Predicted(net, p, Ids(Emissions(net, m, visits))));
      var more := visits + [v];
      assert more[..|visits|] == visits;
      LastRepeats(more);
      var next := NextFrame(net, m, v, RepeatsAt(visits, end));
      WalkMore(net, m, frames, p, visits, v, end, next);
      VisitAdvances(net, m, more, next);
      AdvanceProgresses(net, m, v.p, end, RepeatsAt(visits, end));
      hide NextFrame, RepeatsAt, Repeats, Advance, PerFrame;
      all, last := WalkOn(net, m, frames, p, more, next);
    }
  }

  lemma WalkMore<P(!new)>(net: Network<P>, m: Model, frames: nat, p: P, visits: seq<Visit<P>>, v: Visit<P>, end: nat,
                          next: nat)
    requires ValidModel(m) && IsWalk(net, m, frames, p, visits, end) && end < frames
    requires v == Visit(end, Predicted(net, p, Ids(Emissions(net, m, visits))))
    requires next == NextFrame(net, m, v, Repeats(visits + [v], |visits|))
    ensures IsWalk(net, m, frames, p, visits + [v], next)
  {
    hide Predicted, Emissions, NextFrame, Repeats;
    var more := visits + [v];
    forall k | 0 <= k < |more|
      ensures IsVisit(net, m, frames, p, more, next, k)
    {
      if k < |visits| {
        assert IsVisit(net, m, frames, p, visits, end, k);
        assert more[..k] == visits[..k] && more[..|visits|] == visits;
        RepeatsFront(more, |visits|, k);
      } else {
        assert more[..k] == visits;
      }
    }
  }

  /* ---- properties of what is emitted ---- */

  // At most maxTokens tokens a frame, or one if that is not positive.
  lemma {:induction false} FewTokens<P(!new)>(net: Network<P>, m: Model, frames: nat, p: P, t: nat, emitted: nat)
    requires ValidModel(m) && emitted < PerFrame(m)
    ensures t < frames ==> |Decoded(net, m, frames, p, t, emitted)| <= (frames - t) * PerFrame(m) - emitted
    ensures |Decoded(net, m, frames, p, t, emitted)| <= frames * PerFrame(m)
    decreases if t < frames then frames - t else 0, PerFrame(m) - emitted
  {
    ProductLe(0, frames, PerFrame(m));
    if t < frames {
      AdvanceProgresses(net, m, p, t, emitted);
      var s := Advance(net, m, p, t, emitted);
      FewTokens(net, m, frames, After(net, p, s.token), s.t, s.emitted);
      DecodedStep(net, m, frames, p, t, emitted);
      hide Advance, Data, Decoded, PerFrame;
      ProductLe(frames - t, frames, PerFrame(m));
      FrameBudget(frames - t, if s.t < frames then frames - s.t else 0, PerFrame(m), emitted, s.emitted);
    }
  }

  lemma DecodedStep<P(!new)>(net: Network<P>, m: Model, frames: nat, p: P, t: nat, emitted: nat)
    requires ValidModel(m) && emitted < PerFrame(m) && t < frames
    ensures Advance(net, m, p, t, emitted).emitted < PerFrame(m)
    ensures var s := Advance(net, m, p, t, emitted);
            Decoded(net, m, frames, p, t, emitted)
                == s.token + Decoded(net, m, frames, After(net, p, s.token), s.t, s.emitted)
            && (s.t >= frames ==> Decoded(net, m, frames, After(net, p, s.token), s.t, s.emitted) == [])
  {
    AdvanceProgresses(net, m, p, t, emitted);
  }

  lemma Distribute(a: nat, n: nat)
    ensures (a + 1) * n == a * n + n
  {
  }

  // What a step leaves of the tokens that may still be emitted: one less at least.
  lemma FrameBudget(left: nat, left': nat, n: nat, emitted: nat, emitted': nat)
    requires emitted < n && emitted' < n && (left' < left || (left' == left && emitted' == emitted + 1))
    ensures left' > 0 ==> left' * n - emitted' + 1 <= left * n - emitted
    ensures left > 0 ==> 1 <= left * n - emitted
  {
    Distribute(left', n);
    ProductLe(left' + 1, left, n);
    ProductLe(1, left, n);
  }

  // The token emitted at step k is the greedy choice at its frame after the tokens before it,
  // and never blank.
  lemma {:induction false} GreedyChoice<P(!new)>(net: Network<P>, m: Model, frames: nat, p: P, t: nat, emitted: nat,
                                          k: nat)
    requires ValidModel(m) && emitted < PerFrame(m) && k < |Decoded(net, m, frames, p, t, emitted)|
    ensures var d := Decoded(net, m, frames, p, t, emitted);
            var q := Predicted(net, p, Ids(d[..k]));
            t <= d[k].frame < frames
                && d[k] == Data(m, TokenAt(net, m, q, d[k].frame), DurationAt(net, m, q, d[k].frame), d[k].frame)
            && d[k].id < m.blank
    decreases if t < frames then frames - t else 0, PerFrame(m) - emitted
  {
    AdvanceProgresses(net, m, p, t, emitted);
    DecodedStep(net, m, frames, p, t, emitted);
    var s := Advance(net, m, p, t, emitted);
    var rest := Decoded(net, m, frames, After(net, p, s.token), s.t, s.emitted);
    if k >= |s.token| {
      hide Advance, Decoded, Data, PerFrame, After, Predicted, Ids, TokenAt, DurationAt;
      GreedyChoice(net, m, frames, After(net, p, s.token), s.t, s.emitted, k - |s.token|);
      PredictedAfter(net, p, s.token, rest, k);
    } else {
      hide Decoded;
      assert Ids((s.token + rest)[..0]) == [];
    }
  }

  lemma PredictedAfter<P(!new)>(net: Network<P>, p: P, token: seq<TokenData>, rest: seq<TokenData>, k: nat)
    requires |token| <= 1 && |token| <= k <= |token| + |rest|
    ensures Predicted(net, p, Ids((token + rest)[..k]))
            == Predicted(net, After(net, p, token), Ids(rest[..k - |token|]))
  {
    assert (token + rest)[..k] == token + rest[..k - |token|];
    if token == [] {
      assert token + rest[..k] == rest[..k];
    } else {
      IdsAppend(token, rest[..k - 1]);
      PredictedAppend(net, p, Ids(token), Ids(rest[..k - 1]));
      PredictedOne(net, p, token);
    }
  }

  lemma IdsAppend(a: seq<TokenData>, b: seq<TokenData>)
    ensures Ids(a + b) == Ids(a) + Ids(b)
  {
  }

  lemma PredictedOne<P(!new)>(net: Network<P>, p: P, token: seq<TokenData>)
    requires |token| == 1
    ensures Predicted(net, p, Ids(token)) == (net.predict)(p, token[0].id)
  {
    assert Ids(token)[..0] == [];
  }

  lemma {:induction false} PredictedAppend<P(!new)>(net: Network<P>, p: P, a: seq<nat>, b: seq<nat>)
    ensures Predicted(net, p, a + b) == Predicted(net, Predicted(net, p, a), b)
  {
    if b == [] {
      assert a + b == a;
    } else {
      PredictedAppend(net, p, a, b[..|b| - 1]);
      assert (a + b)[..|a + b| - 1] == a + b[..|b| - 1];
    }
  }

  /* ---- token times ---- */

  predicate Follows(data: seq<TokenData>, k: int)
    requires 0 < k < |data|
  {
    data[k - 1].t1 <= data[k].t0
  }

  // Times are not negative, and no token starts before the one before it ended.
  predicate InTime(data: seq<TokenData>) {
    && (forall k :: 0 <= k < |data| ==> 0 <= data[k].t0 <= data[k].t1)
    && forall k :: 0 < k < |data| ==> Follows(data, k)
  }

  lemma {:induction false} DecodedInTime<P(!new)>(net: Network<P>, m: Model, frames: nat, p: P, t: nat, emitted: nat)
    requires ValidModel(m) && emitted < PerFrame(m)
    ensures InTime(Decoded(net, m, frames, p, t, emitted))
    ensures forall d :: d in Decoded(net, m, frames, p, t, emitted) ==> t * m.subsampling <= d.t0
    decreases if t < frames then frames - t else 0, PerFrame(m) - emitted
  {
    if t < frames {
      AdvanceProgresses(net, m, p, t, emitted);
      var s := Advance(net, m, p, t, emitted);
      DecodedInTime(net, m, frames, After(net, p, s.token), s.t, s.emitted);
      InTimeCons(s.token, Decoded(net, m, frames, After(net, p, s.token), s.t, s.emitted), m, t, s.t);
    }
  }

  lemma InTimeCons(token: seq<TokenData>, rest: seq<TokenData>, m: Model, t: nat, t': nat)
    requires InTime(rest) && |token| <= 1 && t <= t' && forall d :: d in rest ==> t' * m.subsampling <= d.t0
    requires forall d :: d in token ==>
               d.frame == t && d.frame + d.duration <= t' && d == Data(m, d.id, d.duration, d.frame)
    ensures InTime(token + rest) && forall d :: d in token + rest ==> t * m.subsampling <= d.t0
  {
    ProductLe(t, t', m.subsampling);
    if token != [] {
      var d := token[0];
      ProductLe(d.frame + d.duration, t', m.subsampling);
      ProductLe(d.frame, d.frame + d.duration, m.subsampling);
      var all := token + rest;
      forall k | 0 < k < |all|
        ensures Follows(all, k)
      {
        if k > 1 {
          assert Follows(rest, k - 1);
        } else {
          assert all[k] == rest[0] && rest[0] in rest;
        }
      }
    } else {
      assert token + rest == rest;
    }
  }

  /* ---- refining ---- */

  // The end of the last spoken token among the first k, -1 if there is none.
  function LastSpoken(data: seq<TokenData>, k: nat, punctuation: nat -> bool): int
    requires k <= |data|
  {
    if k == 0 then -1
    else if punctuation(data[k - 1].id) then LastSpoken(data, k - 1, punctuation)
    else data[k - 1].t1
  }

  // Punctuation takes no time: it sits at the end of the spoken token before it.
  function RefinedAt(data: seq<TokenData>, k: nat, punctuation: nat -> bool): TokenData
    requires k < |data|
  {
    var last := LastSpoken(data, k, punctuation);
    if punctuation(data[k].id) && last >= 0 then data[k].(t0 := last, t1 := last) else data[k]
  }

  function Refined(data: seq<TokenData>, punctuation: nat -> bool): seq<TokenData> {
    seq(|data|, k requires 0 <= k < |data| => RefinedAt(data, k, punctuation))
  }

  method RefineTimestamps(tokens: array<TokenData>, punctuation: nat -> bool)
    modifies tokens
    ensures tokens[..] == Refined(old(tokens[..]), punctuation)
  {
    if tokens.Length == 0 {
      return;
    }
    var lastNonPunctT1 := -1;
    ghost var was := tokens[..];
    for i := 0 to tokens.Length
      invariant lastNonPunctT1 == LastSpoken(was, i, punctuation)
      invariant forall k :: 0 <= k < i ==> tokens[k] == RefinedAt(was, k, punctuation)
      invariant forall k :: i <= k < tokens.Length ==> tokens[k] == was[k]
    {
      if punctuation(tokens[i].id) {
        if lastNonPunctT1 >= 0 {
          tokens[i] := tokens[i].(t0 := lastNonPunctT1, t1 := lastNonPunctT1);
        }
      } else {
        lastNonPunctT1 := tokens[i].t1;
      }
    }
  }

  lemma {:induction false} LastSpokenIs(data: seq<TokenData>, j: int, k: nat, punctuation: nat -> bool)
    requires -1 <= j < k <= |data| && (j >= 0 ==> !punctuation(data[j].id))
    requires forall i :: j < i < k ==> punctuation(data[i].id)
    ensures LastSpoken(data, k, punctuation) == if j < 0 then -1 else data[j].t1
  {
    if j < k - 1 {
      assert punctuation(data[k - 1].id);
      if k > 1 {
        LastSpokenIs(data, j, k - 1, punctuation);
      }
    }
  }

  // Punctuation after speech is moved to where the last spoken token, j, ended; everything else
  // stays where it was.
  lemma RefinedExactly(data: seq<TokenData>, j: int, k: nat, punctuation: nat -> bool)
    requires -1 <= j < k < |data| && (j >= 0 ==> !punctuation(data[j].id) && data[j].t1 >= 0)
    requires forall i :: j < i < k ==> punctuation(data[i].id)
    ensures Refined(data, punctuation)[k]
            == if punctuation(data[k].id) && j >= 0 then data[k].(t0 := data[j].t1, t1 := data[j].t1) else data[k]
  {
    LastSpokenIs(data, j, k, punctuation);
  }

  lemma {:induction false} LastSpokenBefore(data: seq<TokenData>, k: nat, punctuation: nat -> bool)
    requires InTime(data) && k < |data|
    ensures -1 <= LastSpoken(data, k, punctuation) <= data[k].t0
  {
    if k > 0 {
      assert Follows(data, k);
      LastSpokenBefore(data, k - 1, punctuation);
    }
  }

  // Refining keeps the order of times.
  lemma RefinedInTime(data: seq<TokenData>, punctuation: nat -> bool)
    requires InTime(data)
    ensures InTime(Refined(data, punctuation))
  {
    var r := Refined(data, punctuation);
    forall k | 0 <= k < |data|
      ensures 0 <= r[k].t0 <= r[k].t1 && (k > 0 ==> Follows(r, k))
    {
      LastSpokenBefore(data, k, punctuation);
      if k > 0 {
        LastSpokenBefore(data, k - 1, punctuation);
        assert Follows(data, k);
      }
    }
  }
}
