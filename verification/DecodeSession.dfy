/**
 The decoding loop as it runs: a session holds the cache and the decoders, and a run is a trace
 of snapshots, one before each step.
 */
module DecodeSession {
  import opened Arithmetic
  import opened KvCache
  import opened KvRefinement
  import opened Sampling
  import opened DecodeLoop

  /* ---- traces ---- */

  // Before a step: what the decoders have generated and cached, the rows they sample from, and
  // the cache.
  datatype Snapshot<Kv> = Snapshot(tokens: seq<seq<int>>, finished: seq<bool>, cached: seq<seq<int>>, seen: seq<Kv>,
                                   cells: seq<Cell>, kv: seq<Kv>)

  // The first snapshot: every decoder is live, has the prompt in the cache and nothing else.
  ghost predicate Starts<Kv>(net: Net<Kv>, prompt: seq<int>, nDec: nat, s: Snapshot<Kv>)
    requires prompt != []
  {
    && |s.tokens| == |s.finished| == |s.cached| == |s.seen| == nDec
    && forall j :: 0 <= j < nDec ==>
         s.tokens[j] == [] && !s.finished[j] && s.cached[j] == prompt && s.seen[j] == Isolated(net, prompt)
  }

  // The snapshot before step i: every live decoder has i tokens, its history is in the cache, and
  // it samples from the row an isolated decoder would have; the cells after a row for each token
  // of each decoder are free; some decoder is live.
  ghost predicate Sound<Kv>(net: Net<Kv>, prompt: seq<int>, nDec: nat, s: Snapshot<Kv>, i: nat) {
    && SharedState(net, s.cells, s.kv, s.cached) && ReadyState(net, prompt, s.tokens, s.finished, s.cached, s.seen, i)
    && |s.tokens| == nDec && FreeFrom(s.cells, |prompt| + nDec * i)
    && exists j :: 0 <= j < nDec && !s.finished[j]
  }

  // Step i from snapshot s: the winners' tokens, who is finished after them, and what the decoders
  // have cached once they follow their sources.
  ghost predicate Samples<Kv>(s: Snapshot<Kv>, now: seq<seq<int>>, finished: seq<bool>, cached: seq<seq<int>>,
                              i: nat, strategy: Strategy, choices: Choices) {
    && |s.tokens| == |s.finished| == |s.cached|
    && now == NextTokens(s.tokens, s.finished, i, strategy, choices)
    && finished == NextFinished(s.finished, i, choices)
    && var src := Sources(s.tokens, s.finished, i, strategy, choices);
       Chosen(s.tokens, s.finished, now, src, i, Size(strategy), choices)
       && cached == Follow(s.cached, src, Live(s.finished))
  }

  // Snapshot k follows from the one before it.
  ghost predicate Advances<Kv>(prompt: seq<int>, trace: seq<Snapshot<Kv>>, k: int, strategy: Strategy, choices: Choices)
    requires 0 < k < |trace|
  {
    var s := trace[k];
    exists cached ::
      && Samples(trace[k - 1], s.tokens, s.finished, cached, k - 1, strategy, choices)
      && |s.tokens| == |s.finished| == |cached| && s.cached == Fed(prompt, s.tokens, s.finished, cached)
  }

  ghost predicate IsTrace<Kv>(net: Net<Kv>, prompt: seq<int>, nDec: nat, strategy: Strategy, choices: Choices,
                              trace: seq<Snapshot<Kv>>)
    requires prompt != []
  {
    && (trace != [] ==> Starts(net, prompt, nDec, trace[0]))
    && (forall k :: 0 <= k < |trace| ==> Sound(net, prompt, nDec, trace[k], k))
    && forall k :: 0 < k < |trace| ==> Advances(prompt, trace, k, strategy, choices)
  }

  lemma FirstSnapshot<Kv>(net: Net<Kv>, prompt: seq<int>, nDec: nat, strategy: Strategy, choices: Choices,
                          s: Snapshot<Kv>)
    requires prompt != [] && Starts(net, prompt, nDec, s) && Sound(net, prompt, nDec, s, 0)
    ensures IsTrace(net, prompt, nDec, strategy, choices, [s])
  {
  }

  lemma NextSnapshot<Kv>(net: Net<Kv>, prompt: seq<int>, nDec: nat, strategy: Strategy, choices: Choices,
                         trace: seq<Snapshot<Kv>>, s: Snapshot<Kv>, cached: seq<seq<int>>)
    requires prompt != [] && trace != [] && IsTrace(net, prompt, nDec, strategy, choices, trace)
    requires Sound(net, prompt, nDec, s, |trace|) && |s.tokens| == |s.finished| == |cached|
    requires Samples(trace[|trace| - 1], s.tokens, s.finished, cached, |trace| - 1, strategy, choices)
    requires s.cached == Fed(prompt, s.tokens, s.finished, cached)
    ensures IsTrace(net, prompt, nDec, strategy, choices, trace + [s])
  {
    hide Sound, Samples, Starts;
    var all := trace + [s];
    forall k | 0 < k < |all|
      ensures Advances(prompt, all, k, strategy, choices)
    {
      assert k < |trace| ==> Advances(prompt, trace, k, strategy, choices);
    }
  }

  /* ---- taking the winners ---- */

  // The decoders below j have taken their candidates.
  ghost predicate Taken(sorted: seq<Candidate>, finished: seq<bool>, i: nat, was: seq<seq<int>>, now: seq<seq<int>>,
                        src: seq<nat>, j: nat)
    requires sorted != [] && j <= |finished|
  {
    && |was| == |now| == |src| == |finished| && (forall k :: 0 <= k < |src| ==> src[k] < |src|)
    && forall k :: 0 <= k < |src| ==>
         Candidate(src[k], now[k]) ==
           if k >= j || finished[k] then Candidate(k, was[k]) else sorted[WinnerIndex(sorted, finished, i, k)]
  }

  lemma TakenNothing(sorted: seq<Candidate>, finished: seq<bool>, i: nat, was: seq<seq<int>>)
    requires sorted != [] && |was| == |finished|
    ensures Taken(sorted, finished, i, was, was, seq(|was|, j => j), 0)
  {
  }

  lemma TakenStep(sorted: seq<Candidate>, finished: seq<bool>, i: nat, was: seq<seq<int>>, now: seq<seq<int>>,
                  src: seq<nat>, j: nat)
    requires sorted != [] && j < |finished| && Taken(sorted, finished, i, was, now, src, j)
    ensures |now| == |src| == |finished|
    ensures finished[j] ==> Taken(sorted, finished, i, was, now, src, j + 1)
    ensures var w := sorted[WinnerIndex(sorted, finished, i, j)];
            !finished[j] && w.decoderIdx < |src| ==>
              Taken(sorted, finished, i, was, now[j := w.tokens], src[j := w.decoderIdx], j + 1)
  {
    hide WinnerIndex;
  }

  // The cells once those under decoder j's temporary id are its own.
  function Returned(cells: seq<Cell>, j: nat): seq<Cell> {
    var t := WHISPER_MAX_DECODERS + j;
    RmCells(CpCells(RmCells(cells, j, -1, -1), t, j, -1, -1), t, -1, -1)
  }

  lemma TokensLeft(prompt: seq<int>, tokens: seq<seq<int>>, finished: seq<bool>, cached: seq<seq<int>>, i: nat)
    requires SampledState(prompt, tokens, finished, cached, i)
    ensures |tokens| == |finished| && forall k :: 0 <= k < |tokens| && !finished[k] ==> tokens[k] != []
  {
  }

  lemma MoveBackStep(cells: seq<Cell>, live: seq<bool>, j: nat)
    requires j < |live|
    ensures MoveBack(cells, live, 0) == cells
    ensures MoveBack(cells, live, j + 1)
         == if live[j] then Returned(MoveBack(cells, live, j), j) else MoveBack(cells, live, j)
  {
  }

  lemma LiveAt(finished: seq<bool>, j: nat)
    requires j < |finished|
    ensures Live(finished)[j] == !finished[j]
  {
  }

  lemma CopyOutStep(cells: seq<Cell>, src: seq<nat>, live: seq<bool>, j: nat)
    requires j < |src| == |live|
    ensures CopyOut(cells, src, live, 0) == cells
    ensures !live[j] ==> CopyOut(cells, src, live, j + 1) == CopyOut(cells, src, live, j)
  {
  }

  lemma CopyOutUpdate(cells: seq<Cell>, src: seq<nat>, live: seq<bool>, j: nat, from: nat)
    requires j < |src| == |live| && live[j]
    ensures CopyOut(cells, src[j := from], live, j + 1)
         == CpCells(CopyOut(cells, src, live, j), from, WHISPER_MAX_DECODERS + j, -1, -1)
  {
    CopyOutPrefix(cells, src, src[j := from], live, j);
  }

  /* ---- what the decoders read ---- */

  // Decoder `decoder` was given the logits in `row` after the tokens `hist`.
  datatype Read<Kv> = Read(step: nat, decoder: nat, hist: seq<int>, row: Kv)

  ghost predicate Shaped<Kv>(s: Snapshot<Kv>) { |s.tokens| == |s.finished| == |s.seen| }

  ghost function ReadsOf<Kv>(step: nat, prompt: seq<int>, s: Snapshot<Kv>, j: nat): seq<Read<Kv>>
    requires Shaped(s) && j <= |s.tokens|
  {
    if j == 0 then []
    else
      ReadsOf(step, prompt, s, j - 1)
      + if s.finished[j - 1] then [] else [Read(step, j - 1, prompt + s.tokens[j - 1], s.seen[j - 1])]
  }

  // Everything read in a run.
  ghost function LogOf<Kv>(prompt: seq<int>, trace: seq<Snapshot<Kv>>): seq<Read<Kv>>
    requires forall k :: 0 <= k < |trace| ==> Shaped(trace[k])
  {
    if trace == [] then []
    else
      var last := |trace| - 1;
      LogOf(prompt, trace[..last]) + ReadsOf(last, prompt, trace[last], |trace[last].tokens|)
  }

  lemma {:induction false} ReadsExactly<Kv>(step: nat, prompt: seq<int>, s: Snapshot<Kv>, j: nat, r: Read<Kv>)
    requires Shaped(s) && j <= |s.tokens|
    ensures r in ReadsOf(step, prompt, s, j)
            <==> r.decoder < j && !s.finished[r.decoder]
                 && r == Read(step, r.decoder, prompt + s.tokens[r.decoder], s.seen[r.decoder])
  {
    if j > 0 {
      ReadsExactly(step, prompt, s, j - 1, r);
    }
  }

  // Decoder r.decoder was live before step r.step of the trace, and was given that row after
  // those tokens.
  ghost predicate Recorded<Kv>(prompt: seq<int>, trace: seq<Snapshot<Kv>>, r: Read<Kv>)
  {
    r.step < |trace| && Shaped(trace[r.step]) && r.decoder < |trace[r.step].tokens|
    && !trace[r.step].finished[r.decoder]
    && r == Read(r.step, r.decoder, prompt + trace[r.step].tokens[r.decoder], trace[r.step].seen[r.decoder])
  }

  lemma RecordedLast<Kv>(prompt: seq<int>, trace: seq<Snapshot<Kv>>, r: Read<Kv>)
    requires trace != [] && forall k :: 0 <= k < |trace| ==> Shaped(trace[k])
    ensures var last := |trace| - 1;
            Recorded(prompt, trace, r)
            <==> Recorded(prompt, trace[..last], r) || r in ReadsOf(last, prompt, trace[last], |trace[last].tokens|)
  {
    ReadsExactly(|trace| - 1, prompt, trace[|trace| - 1], |trace[|trace| - 1].tokens|, r);
    hide ReadsOf;
  }

  // The log holds exactly the reads of every live decoder before every step.
  lemma {:induction false} LogExactly<Kv>(prompt: seq<int>, trace: seq<Snapshot<Kv>>, r: Read<Kv>)
    requires forall k :: 0 <= k < |trace| ==> Shaped(trace[k])
    ensures r in LogOf(prompt, trace) <==> Recorded(prompt, trace, r)
  {
    hide ReadsOf;
    if trace != [] {
      hide Recorded;
      LogExactly(prompt, trace[..|trace| - 1], r);
      RecordedLast(prompt, trace, r);
    }
  }

  // Every row read in a run is the row of an isolated decoder for the prompt and the tokens that
  // this decoder had at that step.
  lemma ReadsAreIsolated<Kv>(net: Net<Kv>, prompt: seq<int>, nDec: nat, strategy: Strategy, choices: Choices,
                             trace: seq<Snapshot<Kv>>, r: Read<Kv>)
    requires prompt != [] && IsTrace(net, prompt, nDec, strategy, choices, trace)
    ensures forall k :: 0 <= k < |trace| ==> Shaped(trace[k])
    ensures r in LogOf(prompt, trace) ==>
              r.step < |trace| && r.decoder < nDec && |trace[r.step].tokens[r.decoder]| == r.step
              && r.hist == prompt + trace[r.step].tokens[r.decoder] && r.row == Isolated(net, r.hist)
  {
    hide Isolated, SharedState, LogOf, Advances;
    assert forall k :: 0 <= k < |trace| ==> Sound(net, prompt, nDec, trace[k], k);
    LogExactly(prompt, trace, r);
  }

  lemma DecodedPlaces<Kv>(net: Net<Kv>, cells0: seq<Cell>, kv0: seq<Kv>, cells1: seq<Cell>, kv1: seq<Kv>,
                          n: nat, head: nat, batch: seq<Entry>)
    requires Decoded(net, cells0, kv0, cells1, kv1, n, head, batch)
    ensures head + |batch| <= |cells0| && cells1 == Place(cells0, head, batch)
  {
    hide Forward, FlatMask, Place;
  }

  // While a decoder is live there is a candidate, and every candidate names a decoder.
  lemma DrawsSorted(tokens: seq<seq<int>>, finished: seq<bool>, i: nat, size: nat, choices: Choices)
    requires |tokens| == |finished| && size >= 1 && Sorts(choices.order)
    requires exists j :: 0 <= j < |tokens| && !finished[j]
    ensures var sorted := choices.order(i, Draws(tokens, finished, i, size, choices, |tokens|));
            sorted != [] && forall c :: c in sorted ==> c.decoderIdx < |tokens|
  {
    var draws := Draws(tokens, finished, i, size, choices, |tokens|);
    hide Draws, Extends, Extended, Sorts;
    SortedKeeps(choices.order, i, draws);
    var j :| 0 <= j < |tokens| && !finished[j];
    FirstDraw(tokens, finished, i, size, choices, j);
    DrawsExactly(tokens, finished, Extended(tokens, i, choices, j, 0), i, size, choices, |tokens|);
    forall c | c in draws
      ensures c.decoderIdx < |tokens|
    {
      DrawsExactly(tokens, finished, c, i, size, choices, |tokens|);
    }
  }

  // After the winners are taken, and in beam search the cells re-parented, the decoders' tokens
  // and the cache are consistent.
  lemma SampledFrom<Kv>(net: Net<Kv>, prompt: seq<int>, s: Snapshot<Kv>, i: nat, strategy: Strategy, choices: Choices)
    requires SharedState(net, s.cells, s.kv, s.cached)
             && ReadyState(net, prompt, s.tokens, s.finished, s.cached, s.seen, i)
    requires Size(strategy) >= 1 && Sorts(choices.order)
    ensures |s.tokens| == |s.finished| == |s.cached| == |s.seen|
    ensures var now := NextTokens(s.tokens, s.finished, i, strategy, choices);
            var src, live := Sources(s.tokens, s.finished, i, strategy, choices), Live(s.finished);
            && Chosen(s.tokens, s.finished, now, src, i, Size(strategy), choices)
            && SampledState(prompt, now, s.finished, Follow(s.cached, src, live), i)
            && (strategy.Greedy? ==> Follow(s.cached, src, live) == s.cached)
            && (strategy.Beam? ==>
                 SharedState(net, MoveBack(CopyOut(s.cells, src, live, |src|), live, |src|), s.kv,
                     Follow(s.cached, src, live)))
  {
    hide SharedState, Sorts, Extends;
    var now := NextTokens(s.tokens, s.finished, i, strategy, choices);
    var src, live := Sources(s.tokens, s.finished, i, strategy, choices), Live(s.finished);
    WinnersAreChosen(s.tokens, s.finished, i, strategy, choices);
    ChosenIsSampled(net, prompt, s.tokens, s.finished, s.cached, s.seen, now, src, i, Size(strategy), choices);
    ReparentShared(net, s.cells, s.kv, s.cached, src, live);
  }

  lemma StartIsSound<Kv>(net: Net<Kv>, prompt: seq<int>, nDec: nat, s: Snapshot<Kv>)
    requires prompt != [] && nDec >= 1 && Starts(net, prompt, nDec, s) && FreeFrom(s.cells, |prompt|)
    requires SharedState(net, s.cells, s.kv, s.cached)
             && ReadyState(net, prompt, s.tokens, s.finished, s.cached, s.seen, 0)
    ensures Sound(net, prompt, nDec, s, 0)
  {
    assert !s.finished[0];
  }

  // A step cannot fail for want of room before the cells run out.
  lemma EnoughRoom(cells: seq<Cell>, prompt: nat, nDec: nat, i: nat, nMax: nat, finished: seq<bool>)
    requires |finished| == nDec && i < nMax && FreeFrom(cells, prompt + nDec * i) && prompt + nDec * nMax <= |cells|
    ensures IsSlot(cells, prompt + nDec * i, RowOf(finished, nDec))
  {
    RowOfBounds(finished, nDec);
    ProductLe(i + 1, nMax, nDec);
    OneMoreEach(nDec, i);
  }

  lemma SharedLabelled<Kv>(net: Net<Kv>, s: Snapshot<Kv>)
    requires SharedState(net, s.cells, s.kv, s.cached)
    ensures WellLabelled(s.cells)
  {
  }

  lemma SoundShape<Kv>(net: Net<Kv>, prompt: seq<int>, nDec: nat, s: Snapshot<Kv>, i: nat)
    requires Sound(net, prompt, nDec, s, i)
    ensures |s.tokens| == |s.finished| == |s.cached| == |s.seen| == nDec
  {
  }

  lemma OneMoreEach(nDec: nat, i: nat)
    ensures nDec * (i + 1) == nDec * i + nDec
  {
  }

  lemma FreeLater(cells: seq<Cell>, f: int, g: int)
    ensures FreeFrom(cells, f) && f <= g ==> FreeFrom(cells, g)
  {
  }

  lemma MoreFinished(prompt: seq<int>, tokens: seq<seq<int>>, finished: seq<bool>, cached: seq<seq<int>>, i: nat,
                     choices: Choices)
    requires SampledState(prompt, tokens, finished, cached, i)
    ensures SampledState(prompt, tokens, NextFinished(finished, i, choices), cached, i)
  {
  }

  // How a step ends: with the next one, with all decoders finished, or with a full cache.
  datatype Outcome = Continue | Complete | Full

  // What step i leaves, if `mid` was cached after sampling.
  ghost predicate Ends<Kv>(net: Net<Kv>, prompt: seq<int>, outcome: Outcome, s: Snapshot<Kv>, mid: seq<seq<int>>,
                           i: nat) {
    && |s.tokens| == |s.finished| == |mid|
    && (outcome == Complete <==> forall j :: 0 <= j < |s.finished| ==> s.finished[j])
    && (outcome != Continue ==> s.cached == mid)
    && (outcome == Continue ==>
         Sound(net, prompt, |s.tokens|, s, i + 1) && s.cached == Fed(prompt, s.tokens, s.finished, mid))
    && (outcome == Full ==> FreeFrom(s.cells, |prompt| + |s.tokens| * i) && NoRoom(s))
  }

  // No run of free cells is long enough for the rows of the live decoders.
  ghost predicate NoRoom<Kv>(s: Snapshot<Kv>) {
    forall c :: !IsSlot(s.cells, c, RowOf(s.finished, |s.finished|))
  }

  // What a run is: it was given `size` cells and at most nMax steps, its snapshots are `trace`,
  // and it ended in state s.
  ghost predicate Ran<Kv>(net: Net<Kv>, prompt: seq<int>, nDec: nat, nMax: nat, strategy: Strategy, choices: Choices,
                          size: nat, ok: bool, trace: seq<Snapshot<Kv>>, s: Snapshot<Kv>)
    requires prompt != []
  {
    && IsTrace(net, prompt, nDec, strategy, choices, trace) && |trace| <= nMax + 1
    // it starts exactly if the prompt fits
    && (trace == [] <==> |prompt| > size)
    // all steps were made, or one more was sampled than fed
    && (|trace| == nMax + 1 ==> s == trace[nMax])
    && (0 < |trace| <= nMax ==>
         Samples(trace[|trace| - 1], s.tokens, s.finished, s.cached, |trace| - 1, strategy, choices))
    // it succeeds exactly if all steps were made or all decoders finished; else the cache is full
    && (ok <==> |trace| == nMax + 1 || (trace != [] && forall j :: 0 <= j < |s.finished| ==> s.finished[j]))
    && (trace != [] ==> |s.tokens| == |s.finished| == nDec && |s.cells| == size)
    && (trace != [] && !ok ==> NoRoom(s) && FreeFrom(s.cells, |prompt| + nDec * (|trace| - 1)))
  }

  lemma SoundAt<Kv>(net: Net<Kv>, prompt: seq<int>, nDec: nat, strategy: Strategy, choices: Choices,
                    trace: seq<Snapshot<Kv>>, i: nat)
    requires prompt != [] && i < |trace| && IsTrace(net, prompt, nDec, strategy, choices, trace)
    ensures Sound(net, prompt, nDec, trace[i], i)
  {
    hide Sound, Advances, Starts;
  }

  lemma TraceGrows<Kv>(net: Net<Kv>, prompt: seq<int>, nDec: nat, strategy: Strategy, choices: Choices,
                       trace: seq<Snapshot<Kv>>, s: Snapshot<Kv>, mid: seq<seq<int>>)
    requires prompt != [] && trace != [] && IsTrace(net, prompt, nDec, strategy, choices, trace) && |s.tokens| == nDec
    requires Samples(trace[|trace| - 1], s.tokens, s.finished, mid, |trace| - 1, strategy, choices)
    requires Ends(net, prompt, Continue, s, mid, |trace| - 1)
    ensures IsTrace(net, prompt, nDec, strategy, choices, trace + [s])
  {
    hide IsTrace, Samples, Sound;
    NextSnapshot(net, prompt, nDec, strategy, choices, trace, s, mid);
  }

  lemma RanNowhere<Kv>(net: Net<Kv>, prompt: seq<int>, nDec: nat, nMax: nat, strategy: Strategy, choices: Choices,
                       size: nat, s: Snapshot<Kv>)
    requires prompt != [] && |prompt| > size
    ensures Ran(net, prompt, nDec, nMax, strategy, choices, size, false, [], s)
  {
  }

  lemma RanToTheEnd<Kv>(net: Net<Kv>, prompt: seq<int>, nDec: nat, nMax: nat, strategy: Strategy, choices: Choices,
                        size: nat, trace: seq<Snapshot<Kv>>, s: Snapshot<Kv>)
    requires prompt != [] && |prompt| <= size && |trace| == nMax + 1 && s == trace[nMax] && |s.cells| == size
    requires IsTrace(net, prompt, nDec, strategy, choices, trace)
    ensures Ran(net, prompt, nDec, nMax, strategy, choices, size, true, trace, s)
  {
    SoundShape(net, prompt, nDec, s, nMax);
    hide IsTrace, Samples, NoRoom;
  }

  // The last step was not fed.
  lemma RanUntil<Kv>(net: Net<Kv>, prompt: seq<int>, nDec: nat, nMax: nat, strategy: Strategy, choices: Choices,
                     size: nat, trace: seq<Snapshot<Kv>>, s: Snapshot<Kv>, outcome: Outcome, mid: seq<seq<int>>)
    requires prompt != [] && |prompt| <= size && 0 < |trace| <= nMax && |s.cells| == size
    requires IsTrace(net, prompt, nDec, strategy, choices, trace) && |s.tokens| == nDec
    requires Samples(trace[|trace| - 1], s.tokens, s.finished, mid, |trace| - 1, strategy, choices)
    requires outcome != Continue && Ends(net, prompt, outcome, s, mid, |trace| - 1)
    ensures Ran(net, prompt, nDec, nMax, strategy, choices, size, outcome == Complete, trace, s)
  {
    hide IsTrace, Samples, NoRoom, Sound;
  }

  /* ---- who stops, and when ---- */

  // One of the first k stopping decisions about decoder j was to stop.
  ghost predicate StoppedBefore(choices: Choices, j: nat, k: nat) {
    exists i: nat :: i < k && choices.finish(i, j)
  }

  // Some decoder had no such decision.
  ghost predicate SomeGoOn(choices: Choices, nDec: nat, k: nat) {
    exists j: nat :: j < nDec && !StoppedBefore(choices, j, k)
  }

  lemma StoppedLater(choices: Choices, j: nat, k: nat)
    ensures !StoppedBefore(choices, j, 0)
    ensures StoppedBefore(choices, j, k + 1) <==> StoppedBefore(choices, j, k) || choices.finish(k, j)
  {
    if StoppedBefore(choices, j, k) {
      var i: nat :| i < k && choices.finish(i, j);
      assert i < k + 1;
    }
  }

  // One step: nobody stops but by a decision about himself.
  lemma FinishedStep<Kv>(s: Snapshot<Kv>, now: seq<seq<int>>, finished: seq<bool>, cached: seq<seq<int>>,
                         i: nat, strategy: Strategy, choices: Choices, j: nat)
    requires Samples(s, now, finished, cached, i, strategy, choices) && j < |s.finished|
    ensures |finished| == |s.finished| && (finished[j] <==> s.finished[j] || choices.finish(i, j))
  {
    hide NextTokens, Sources, Chosen, Follow;
  }

  // Before step k of a run a decoder is finished exactly if a decision about it, in a step before,
  // was to stop.
  lemma {:induction false} FinishedExactly<Kv>(net: Net<Kv>, prompt: seq<int>, nDec: nat, strategy: Strategy,
                                               choices: Choices, trace: seq<Snapshot<Kv>>, k: nat, j: nat)
    requires prompt != [] && IsTrace(net, prompt, nDec, strategy, choices, trace) && k < |trace| && j < nDec
    ensures |trace[k].finished| == nDec && (trace[k].finished[j] <==> StoppedBefore(choices, j, k))
  {
    SoundAt(net, prompt, nDec, strategy, choices, trace, k);
    SoundShape(net, prompt, nDec, trace[k], k);
    hide Sound, Samples, StoppedBefore;
    if k == 0 {
      StoppedLater(choices, j, 0);
    } else {
      FinishedExactly(net, prompt, nDec, strategy, choices, trace, k - 1, j);
      StoppedLater(choices, j, k - 1);
      assert Advances(prompt, trace, k, strategy, choices);
      var s := trace[k];
      var cached :| Samples(trace[k - 1], s.tokens, s.finished, cached, k - 1, strategy, choices)
                    && |s.tokens| == |s.finished| == |cached| && s.cached == Fed(prompt, s.tokens, s.finished, cached);
      FinishedStep(trace[k - 1], s.tokens, s.finished, cached, k - 1, strategy, choices, j);
    }
  }

  // The run goes on to the next step exactly as long as some decoder has had no decision to stop:
  // so it was before every step; and a run that ends before its last step ends well exactly if
  // each decoder has had one.
  lemma StopsExactly<Kv>(net: Net<Kv>, prompt: seq<int>, nDec: nat, nMax: nat, strategy: Strategy, choices: Choices,
                         size: nat, ok: bool, trace: seq<Snapshot<Kv>>, s: Snapshot<Kv>)
    requires prompt != [] && Ran(net, prompt, nDec, nMax, strategy, choices, size, ok, trace, s)
    ensures forall k :: 0 <= k < |trace| ==> SomeGoOn(choices, nDec, k)
    ensures 0 < |trace| <= nMax ==> (ok <==> forall j: nat :: j < nDec ==> StoppedBefore(choices, j, |trace|))
    ensures 0 < |trace| <= nMax ==>
              && |s.finished| == nDec
              && forall j: nat :: j < nDec ==> (s.finished[j] <==> StoppedBefore(choices, j, |trace|))
  {
    hide Sound, Samples, StoppedBefore, IsTrace, NoRoom, FreeFrom;
    forall k | 0 <= k < |trace|
      ensures SomeGoOn(choices, nDec, k)
    {
      var j := SomeoneLive(net, prompt, nDec, strategy, choices, trace, k);
      FinishedExactly(net, prompt, nDec, strategy, choices, trace, k, j);
    }
    if 0 < |trace| <= nMax {
      var k := |trace| - 1;
      forall j: nat | j < nDec
        ensures s.finished[j] <==> StoppedBefore(choices, j, |trace|)
      {
        FinishedExactly(net, prompt, nDec, strategy, choices, trace, k, j);
        StoppedLater(choices, j, k);
        FinishedStep(trace[k], s.tokens, s.finished, s.cached, k, strategy, choices, j);
      }
    }
  }

  lemma SomeoneLive<Kv>(net: Net<Kv>, prompt: seq<int>, nDec: nat, strategy: Strategy, choices: Choices,
                        trace: seq<Snapshot<Kv>>, k: nat) returns (j: nat)
    requires prompt != [] && IsTrace(net, prompt, nDec, strategy, choices, trace) && k < |trace|
    ensures j < nDec == |trace[k].finished| && !trace[k].finished[j]
  {
    SoundAt(net, prompt, nDec, strategy, choices, trace, k);
    SoundShape(net, prompt, nDec, trace[k], k);
    j :| 0 <= j < nDec && !trace[k].finished[j];
  }

  // If a failed run fed as many steps as this, the cells were too few for one more.
  lemma FailsOnlyWhenFull<Kv>(net: Net<Kv>, prompt: seq<int>, nDec: nat, nMax: nat, strategy: Strategy,
                              choices: Choices, size: nat, trace: seq<Snapshot<Kv>>, s: Snapshot<Kv>)
    requires prompt != [] && Ran(net, prompt, nDec, nMax, strategy, choices, size, false, trace, s)
    ensures size < |prompt| + nDec * |trace|
  {
    hide IsTrace, Samples, FreeFrom;
    if trace != [] && |prompt| + nDec * |trace| <= size {
      EnoughRoom(s.cells, |prompt|, nDec, |trace| - 1, |trace|, s.finished);
    }
  }

  // With a cell for each token of the prompt and for a token of every decoder in every step, no
  // step fails.
  lemma LargeCacheNeverFails<Kv>(net: Net<Kv>, prompt: seq<int>, nDec: nat, nMax: nat, strategy: Strategy,
                                 choices: Choices, size: nat, ok: bool, trace: seq<Snapshot<Kv>>, s: Snapshot<Kv>)
    requires prompt != [] && Ran(net, prompt, nDec, nMax, strategy, choices, size, ok, trace, s)
    requires |prompt| + nDec * nMax <= size
    ensures ok
  {
    hide IsTrace, Samples, FreeFrom, NoRoom;
    if !ok {
      FailsOnlyWhenFull(net, prompt, nDec, nMax, strategy, choices, size, trace, s);
      ProductLe(|trace|, nMax, nDec);
    }
  }

  // The cells allocated for nDec decoders and a text context of nCtx tokens.
  function Allocated(nCtx: nat, nDec: nat): nat {
    Pad(nCtx, 256) * if nDec > 1 then nDec + 2 else 1
  }

  // The steps of a run, and the longest prompt: half the context, and the initial tokens.
  function MaxSteps(nCtx: nat): int { nCtx / 2 - 4 }

  function MaxPrompt(nCtx: nat): nat { nCtx / 2 + 4 }

  lemma AllocatedSuffices(nCtx: nat, nDec: nat, nAlloc: nat, prompt: nat)
    requires nCtx >= 8 && 1 <= nDec <= nAlloc && prompt <= MaxPrompt(nCtx)
    ensures prompt + nDec * MaxSteps(nCtx) <= Allocated(nCtx, nAlloc)
  {
    var half, padded := nCtx / 2, Pad(nCtx, 256);
    var steps: nat := half - 4;
    if nAlloc == 1 {
      assert nDec * steps == steps;
    } else {
      ProductLe(nDec, nAlloc, steps);
      ProductLe(steps, padded, nAlloc);
      assert padded * (nAlloc + 2) == nAlloc * padded + 2 * padded;
    }
  }

  // So in the cache that is allocated, for at least as many decoders as are used, no step of a
  // run fails.
  lemma AllocatedNeverFails<Kv>(net: Net<Kv>, prompt: seq<int>, nCtx: nat, nDec: nat, nAlloc: nat, strategy: Strategy,
                                choices: Choices, ok: bool, trace: seq<Snapshot<Kv>>, s: Snapshot<Kv>)
    requires nCtx >= 8 && 1 <= nDec <= nAlloc && 0 < |prompt| <= MaxPrompt(nCtx)
    requires Ran(net, prompt, nDec, MaxSteps(nCtx), strategy, choices, Allocated(nCtx, nAlloc), ok, trace, s)
    ensures ok
  {
    hide Ran, Allocated;
    AllocatedSuffices(nCtx, nDec, nAlloc, |prompt|);
    LargeCacheNeverFails(net, prompt, nDec, MaxSteps(nCtx), strategy, choices, Allocated(nCtx, nAlloc), ok, trace, s);
  }

  // Every decoder starts from the prompt.
  lemma StartIsReady<Kv>(net: Net<Kv>, cells: seq<Cell>, kv: seq<Kv>, prompt: seq<int>, nDec: nat,
                         tokens: seq<seq<int>>, finished: seq<bool>, cached: seq<seq<int>>, seen: seq<Kv>)
    requires prompt != [] && |kv| == |cells| && 1 <= nDec <= WHISPER_MAX_DECODERS && OnlyDecoders(cells, nDec)
    requires forall j :: 0 <= j < nDec ==> Spells(net, cells, kv, j, prompt)
    requires |tokens| == |finished| == |cached| == |seen| == nDec
    requires forall j :: 0 <= j < nDec ==>
               tokens[j] == [] && !finished[j] && cached[j] == prompt && seen[j] == Isolated(net, prompt)
    ensures SharedState(net, cells, kv, cached) && ReadyState(net, prompt, tokens, finished, cached, seen, 0)
    ensures Starts(net, prompt, nDec, Snapshot(tokens, finished, cached, seen, cells, kv))
  {
    hide Spells, Isolated, OnlyDecoders;
    assert prompt + [] == prompt;
  }

  class Session<Kv(==)> {
    ghost const net: Net<Kv>
    const pad: nat
    const cache: Cache<Kv>
    var prompt: seq<int>
    var tokens: seq<seq<int>>
    var finished: seq<bool>
    // what each decoder has in the cache, and the row it samples from next
    ghost var cached: seq<seq<int>>
    ghost var seen: seq<Kv>

    ghost predicate Shared()
      reads this, cache, cache.cells
    {
      cache.Valid() && pad >= 1 && SharedState(net, cache.cells[..], cache.kv, cached)
    }

    ghost predicate Ready(i: nat)
      reads this, cache, cache.cells
    {
      Shared() && ReadyState(net, prompt, tokens, finished, cached, seen, i)
    }

    ghost function Snap(): Snapshot<Kv>
      reads this, cache, cache.cells
    {
      Snapshot(tokens, finished, cached, seen, cache.cells[..], cache.kv)
    }

    ghost predicate Sampled(i: nat)
      reads this, cache, cache.cells
    {
      Shared() && SampledState(prompt, tokens, finished, cached, i) && |seen| == |cached|
    }

    constructor (ghost net: Net<Kv>, pad: nat, cache: Cache<Kv>)
      ensures this.net == net && this.pad == pad && this.cache == cache
    {
      this.net, this.pad, this.cache := net, pad, cache;
      prompt, tokens, finished, cached, seen := [], [], [], [], [];
    }

    // Clears the cache and evaluates the prompt as sequence 0.
    method EvaluatePrompt(prompt: seq<int>) returns (ok: bool, ghost row: Kv)
      requires cache.Valid() && pad >= 1 && 0 < |prompt| < POS_MAX
      modifies cache, cache.cells
      ensures cache.Valid() && cache.cells == old(cache.cells)
      ensures ok <==> |prompt| <= cache.cells.Length
      ensures ok ==> Spells(net, cache.cells[..], cache.kv, 0, prompt) && OnlyDecoders(cache.cells[..], 1)
      ensures ok ==> row == Isolated(net, prompt) && cache.frontier <= |prompt|
    {
      cache.Clear();
      ghost var cells0, kv0 := cache.cells[..], cache.kv;
      var batch := LegacyBatch(prompt, 0);
      ghost var logits;
      ok, logits := DecodeInternal(net, cache, batch, pad);
      assert |prompt| <= |cells0| ==> IsSlot(cells0, 0, |prompt|);
      row := kv0[0];
      if ok {
        PromptSpells(net, cells0, kv0, cache.cells[..], cache.kv, cache.n, cache.head, prompt);
        PlaceOnlyDecoders(cells0, cache.head, batch, 1);
        row := logits[|prompt| - 1];
        assert row == cache.kv[cache.head + |prompt| - 1];
      }
    }

    // Shares the cells of sequence 0 with decoders 1 .. nDec-1.
    method ShareFirst(nDec: nat, ghost hist: seq<int>)
      requires cache.Valid() && 1 <= nDec && OnlyDecoders(cache.cells[..], 1)
      requires Spells(net, cache.cells[..], cache.kv, 0, hist)
      modifies cache`head, cache.cells
      ensures cache.Valid() && OnlyDecoders(cache.cells[..], nDec)
      ensures forall j :: 0 <= j < nDec ==> Spells(net, cache.cells[..], cache.kv, j, hist)
    {
      ghost var cells1 := cache.cells[..];
      for j := 1 to nDec
        invariant cache.Valid()
        invariant forall i :: 0 <= i < |cells1| ==> cache.cells[i].pos == cells1[i].pos
        invariant forall i, k :: 0 <= i < |cells1| ==>
          (k in cache.cells[i].seqId <==> 0 in cells1[i].seqId && 0 <= k < j)
      {
        cache.SeqCp(0, j, -1, -1);
      }
      forall j | 0 <= j < nDec ensures Spells(net, cache.cells[..], cache.kv, j, hist) {
        SpellsTransfers(net, cells1, 0, cache.cells[..], j, cache.kv, hist);
      }
    }

    // Evaluates the prompt once and lets every decoder start from it.
    method Start(prompt: seq<int>, nDec: nat) returns (ok: bool)
      requires cache.Valid() && pad >= 1
      requires 0 < |prompt| < POS_MAX && 1 <= nDec <= WHISPER_MAX_DECODERS
      modifies this, cache, cache.cells
      ensures cache.cells == old(cache.cells) && cache.Valid()
      ensures ok <==> |prompt| <= cache.cells.Length
      ensures ok ==> Ready(0) && this.prompt == prompt && Starts(net, prompt, nDec, Snap())
      ensures ok ==> cache.frontier <= |prompt|
    {
      ghost var row;
      ok, row := EvaluatePrompt(prompt);
      if ok {
        ShareFirst(nDec, prompt);
        this.prompt := prompt;
        tokens, finished := seq(nDec, _ => []), seq(nDec, _ => false);
        cached, seen := seq(nDec, _ => prompt), seq(nDec, _ => row);
        hide SharedState, ReadyState, Starts, Spells, Isolated, OnlyDecoders;
        StartIsReady(net, cache.cells[..], cache.kv, prompt, nDec, tokens, finished, cached, seen);
      }
    }

    // Greedy sampling: every live decoder appends one token.
    method SampleGreedy(i: nat, choices: Choices)
      requires |tokens| == |finished|
      modifies this`tokens
      ensures tokens == NextTokens(old(tokens), finished, i, Greedy, choices)
    {
      var was := tokens;
      for j := 0 to |tokens|
        invariant |tokens| == |was|
        invariant forall k :: 0 <= k < j ==> tokens[k] == Winner(was, finished, i, Greedy, choices, k).tokens
        invariant forall k :: j <= k < |was| ==> tokens[k] == was[k]
      {
        if finished[j] {
          continue;
        }
        tokens := tokens[j := tokens[j] + [choices.draw(i, j, 0)]];
      }
    }

    // The last token of every live decoder.
    method MakeBatch(nPast: nat) returns (batch: seq<Entry>)
      requires |tokens| == |finished| && forall k :: 0 <= k < |tokens| && !finished[k] ==> tokens[k] != []
      ensures batch == StepBatch(tokens, finished, nPast, |tokens|)
    {
      batch := [];
      for j := 0 to |tokens|
        invariant batch == StepBatch(tokens, finished, nPast, j)
      {
        if finished[j] {
          continue;
        }
        batch := batch + [Entry(tokens[j][|tokens[j]| - 1], nPast, [j])];
      }
    }

    // Feeds the last token of every live decoder as one batch.
    method Feed(i: nat) returns (ok: bool)
      requires Sampled(i) && |prompt| + i < POS_MAX
      modifies this`cached, this`seen, cache, cache.cells
      ensures cache.cells == old(cache.cells) && cache.Valid()
      ensures ok ==> Ready(i + 1)
      ensures ok ==> cached == Fed(prompt, tokens, finished, old(cached))
      ensures cache.frontier <= old(cache.frontier) + |tokens|
      ensures !ok ==> cache.cells[..] == old(cache.cells[..]) && cache.kv == old(cache.kv)
                      && cached == old(cached) && seen == old(seen)
      ensures ok <==> exists s :: IsSlot(old(cache.cells[..]), s, RowOf(finished, |finished|))
    {
      hide SharedState, ReadyState, Decoded, StepBatch, Fed, Place, RowsRead, WellLabelled;
      var nPast := |prompt| + i;
      TokensLeft(prompt, tokens, finished, cached, i);
      var batch := MakeBatch(nPast);
      StepBatchSize(tokens, finished, nPast, |tokens|);
      ghost var cells0, kv0 := cache.cells[..], cache.kv;
      ghost var logits;
      ok, logits := DecodeInternal(net, cache, batch, pad);
      if ok {
        assert cache.cells[..] == Place(cells0, cache.head, batch) by {
          DecodedPlaces(net, cells0, kv0, cache.cells[..], cache.kv, cache.n, cache.head, batch);
        }
        FeedIsReady(net, cells0, kv0, cache.cells[..], cache.kv, cache.n, cache.head,
                    prompt, tokens, finished, cached, seen, i, logits);
        cached, seen := Fed(prompt, tokens, finished, cached), RowsRead(finished, seen, logits);
      }
    }

    // The candidates of step i: every draw of every live decoder, in order.
    method Candidates(i: nat, size: nat, choices: Choices) returns (cands: seq<Candidate>)
      requires |tokens| == |finished|
      ensures cands == Draws(tokens, finished, i, size, choices, |tokens|)
    {
      cands := [];
      for j := 0 to |tokens|
        invariant cands == Draws(tokens, finished, i, size, choices, j)
      {
        if finished[j] {
          continue;
        }
        ghost var before := cands;
        for k := 0 to size
          invariant cands == before + DrawsOf(tokens, i, choices, j, k)
        {
          cands := cands + [Candidate(j, tokens[j] + [choices.draw(i, j, k)])];
        }
      }
    }

    // Halfway through: the decoders below j have their candidates, and the cells of their
    // sources are copied.
    ghost predicate Copying(i: nat, sorted: seq<Candidate>, j: nat, curC: nat, toks: seq<seq<int>>, src: seq<nat>,
                            cells0: seq<Cell>)
      reads this, cache, cache.cells
    {
      && cache.Valid() && sorted != [] && j <= |tokens| == |finished| == |src| == |toks|
      && curC == Cursor(sorted, finished, i, j) && Taken(sorted, finished, i, toks, tokens, src, j)
      && cache.cells[..] == CopyOut(cells0, src, Live(finished), j)
    }

    lemma CopyingNothing(i: nat, sorted: seq<Candidate>)
      requires cache.Valid() && sorted != [] && |tokens| == |finished|
      ensures Copying(i, sorted, 0, 0, tokens, seq(|tokens|, j => j), cache.cells[..])
    {
      TakenNothing(sorted, finished, i, tokens);
      hide Taken;
    }

    lemma CopyingDone(i: nat, sorted: seq<Candidate>, curC: nat, toks: seq<seq<int>>, src: seq<nat>, cells0: seq<Cell>)
      requires Copying(i, sorted, |tokens|, curC, toks, src, cells0)
      ensures cache.Valid() && |tokens| == |src| == |finished| && sorted != []
      ensures Taken(sorted, finished, i, toks, tokens, src, |src|)
      ensures cache.cells[..] == CopyOut(cells0, src, Live(finished), |src|)
    {
      hide Taken, CopyOut, Cursor;
    }

    // Gives every live decoder a candidate and copies the cells of its source to a temporary id.
    method BeamCopy(i: nat, sorted: seq<Candidate>) returns (ghost src: seq<nat>)
      requires cache.Valid() && sorted != [] && |tokens| == |finished|
      requires forall c :: c in sorted ==> c.decoderIdx < |tokens|
      modifies this`tokens, cache`head, cache.cells
      ensures cache.Valid() && |tokens| == |old(tokens)| == |src|
      ensures Taken(sorted, finished, i, old(tokens), tokens, src, |src|)
      ensures cache.cells[..] == CopyOut(old(cache.cells[..]), src, Live(finished), |src|)
    {
      hide Copying, Taken, CopyOut, Cursor, FreeFrom, WellLabelled, Live;
      CopyingNothing(i, sorted);
      ghost var cells0, toks := cache.cells[..], tokens;
      src := seq(|tokens|, j => j);
      var curC := 0;
      for j := 0 to |tokens|
        invariant |tokens| == |toks| && Copying(i, sorted, j, curC, toks, src, cells0)
      {
        hide Copying, Taken, CopyOut, Cursor, FreeFrom, WellLabelled, Live;
        curC, src := Take(i, sorted, j, curC, toks, src, cells0);
      }
      CopyingDone(i, sorted, curC, toks, src, cells0);
    }

    // Gives decoder j its candidate, if it is live.
    method Take(i: nat, sorted: seq<Candidate>, j: nat, curC: nat, ghost toks: seq<seq<int>>, ghost src: seq<nat>,
                ghost cells0: seq<Cell>)
      returns (nextC: nat, ghost nextSrc: seq<nat>)
      requires j < |tokens| && Copying(i, sorted, j, curC, toks, src, cells0)
      requires forall c :: c in sorted ==> c.decoderIdx < |tokens|
      modifies this`tokens, cache`head, cache.cells
      ensures |tokens| == |toks| && Copying(i, sorted, j + 1, nextC, toks, nextSrc, cells0)
    {
      hide Cursor, After, CpCells, CopyOut, Taken, WellLabelled, Live;
      CursorStep(sorted, finished, i, j);
      LiveAt(finished, j);
      TakenStep(sorted, finished, i, toks, tokens, src, j);
      CopyOutStep(cells0, src, Live(finished), j);
      nextC, nextSrc := curC, src;
      if finished[j] {
        return;
      }
      if nextC >= |sorted| {
        nextC := 0;
      }
      var cur := sorted[nextC];
      assert cur in sorted;
      CopyOutUpdate(cells0, src, Live(finished), j, cur.decoderIdx);
      nextC := NextCursor(sorted, i, nextC);
      tokens := tokens[j := cur.tokens];
      nextSrc := src[j := cur.decoderIdx];
      cache.SeqCp(cur.decoderIdx, WHISPER_MAX_DECODERS + j, -1, -1);
    }

    // Moves the cells under the temporary ids back to the decoders.
    method BeamMove()
      requires cache.Valid()
      modifies cache`head, cache.cells
      ensures cache.Valid()
      ensures cache.cells[..] == MoveBack(old(cache.cells[..]), Live(finished), |finished|)
    {
      ghost var mid := cache.cells[..];
      for j := 0 to |finished|
        invariant cache.Valid()
        invariant cache.cells[..] == MoveBack(mid, Live(finished), j)
      {
        MoveBackStep(mid, Live(finished), j);
        LiveAt(finished, j);
        if finished[j] {
          continue;
        }
        TakeBack(j);
      }
    }

    // Moves the cells under its temporary id to decoder j.
    method TakeBack(j: nat)
      requires cache.Valid()
      modifies cache`head, cache.cells
      ensures cache.Valid() && cache.cells[..] == Returned(old(cache.cells[..]), j)
    {
      hide RmCells, CpCells, WellLabelled;
      cache.SeqRm(j, -1, -1);
      cache.SeqCp(WHISPER_MAX_DECODERS + j, j, -1, -1);
      cache.SeqRm(WHISPER_MAX_DECODERS + j, -1, -1);
    }

    // Beam search: candidates compete, and the cache follows the winners.
    method SampleBeam(i: nat, size: nat, choices: Choices)
      requires cache.Valid() && |tokens| == |finished| && size >= 1 && Sorts(choices.order)
      requires exists j :: 0 <= j < |tokens| && !finished[j]
      modifies this`tokens, cache`head, cache.cells
      ensures cache.Valid() && |tokens| == |old(tokens)|
      ensures tokens == NextTokens(old(tokens), finished, i, Beam(size), choices)
      ensures var src := Sources(old(tokens), finished, i, Beam(size), choices);
              cache.cells[..]
              == MoveBack(CopyOut(old(cache.cells[..]), src, Live(finished), |src|), Live(finished), |src|)
    {
      hide SharedState, CopyOut, MoveBack, Extends, Extended, WinnerIndex, Sorts;
      ghost var toks := tokens;
      var cands := Candidates(i, size, choices);
      var sorted := choices.order(i, cands);
      DrawsSorted(tokens, finished, i, size, choices);
      ghost var src := BeamCopy(i, sorted);
      BeamMove();
      assert tokens == NextTokens(toks, finished, i, Beam(size), choices);
      assert src == Sources(toks, finished, i, Beam(size), choices);
    }

    // One step's sampling. Each live decoder then has all its tokens but the last in the cache.
    method Sample(i: nat, strategy: Strategy, choices: Choices)
      requires Ready(i) && Size(strategy) >= 1 && Sorts(choices.order)
      requires exists j :: 0 <= j < |tokens| && !finished[j]
      modifies this`tokens, this`cached, cache`head, cache.cells
      ensures cache.cells == old(cache.cells) && Sampled(i)
      ensures |tokens| == |finished| == |cached| == |seen| == |old(tokens)|
      ensures Samples(old(Snap()), tokens, NextFinished(finished, i, choices), cached, i, strategy, choices)
    {
      hide SharedState, CopyOut, MoveBack, NextTokens, Sources, NextFinished, Sorts, ReadyState, Extends,
          SampledState;
      ghost var s := Snap();
      SampledFrom(net, prompt, s, i, strategy, choices);
      ghost var src := Sources(tokens, finished, i, strategy, choices);
      SharedLabelled(net, s);
      if strategy.Beam? {
        SampleBeam(i, strategy.size, choices);
      } else {
        SampleGreedy(i, choices);
      }
      cached := Follow(cached, src, Live(finished));
    }

    // After a step some decoders complete or fail.
    method UpdateFinished(i: nat, choices: Choices)
      requires Sampled(i) && |tokens| == |finished|
      modifies this`finished
      ensures Sampled(i) && finished == NextFinished(old(finished), i, choices)
      ensures |finished| == |old(finished)|
      ensures forall j :: 0 <= j < |finished| ==> (finished[j] <==> old(finished[j]) || choices.finish(i, j))
    {
      hide SharedState, SampledState;
      MoreFinished(prompt, tokens, finished, cached, i, choices);
      var was := finished;
      for j := 0 to |tokens|
        invariant |finished| == |was|
        invariant forall k :: 0 <= k < |was| ==> finished[k] == (was[k] || (k < j && choices.finish(i, k)))
      {
        if finished[j] {
          continue;
        }
        if choices.finish(i, j) {
          finished := finished[j := true];
        }
      }
      assert finished == NextFinished(was, i, choices);
    }

    method AllFinished() returns (all: bool)
      ensures all <==> forall j :: 0 <= j < |finished| ==> finished[j]
    {
      all := true;
      for j := 0 to |finished|
        invariant all <==> forall k :: 0 <= k < j ==> finished[k]
      {
        if finished[j] {
          continue;
        }
        all := false;
      }
    }

    // A step of the loop.
    method Step(i: nat, strategy: Strategy, choices: Choices) returns (outcome: Outcome, ghost mid: seq<seq<int>>)
      requires Sound(net, prompt, |tokens|, Snap(), i) && cache.Valid() && pad >= 1
      requires Size(strategy) >= 1 && Sorts(choices.order) && |prompt| + i < POS_MAX
      requires cache.frontier <= |prompt| + |tokens| * i
      modifies this`tokens, this`finished, this`cached, this`seen, cache, cache.cells
      ensures cache.cells == old(cache.cells) && cache.Valid() && Shared() && |tokens| == |old(tokens)|
      ensures Samples(old(Snap()), tokens, finished, mid, i, strategy, choices)
      ensures Ends(net, prompt, outcome, Snap(), mid, i)
      ensures outcome == Continue ==> cache.frontier <= |prompt| + |tokens| * (i + 1)
    {
      hide Sound, Sorts, Samples, Ends, SampledState, SharedState;
      SoundShape(net, prompt, |tokens|, Snap(), i);
      Turn(i, strategy, choices);
      mid := cached;
      outcome := Finish(i, |tokens|);
    }

    // Sampling, and the stopping rules.
    method Turn(i: nat, strategy: Strategy, choices: Choices)
      requires Sound(net, prompt, |tokens|, Snap(), i) && cache.Valid() && pad >= 1
      requires Size(strategy) >= 1 && Sorts(choices.order)
      modifies this`tokens, this`finished, this`cached, cache`head, cache.cells
      ensures Sampled(i) && |tokens| == |finished| == |cached| == |seen| == |old(tokens)|
      ensures Samples(old(Snap()), tokens, finished, cached, i, strategy, choices)
    {
      SoundShape(net, prompt, |tokens|, Snap(), i);
      hide SharedState, ReadyState, Sampled, Shared, Sorts, Samples, NextFinished;
      Sample(i, strategy, choices);
      UpdateFinished(i, choices);
    }

    // The end of a step: all are finished, or the sampled tokens are fed.
    method Finish(i: nat, ghost nDec: nat) returns (outcome: Outcome)
      requires Sampled(i) && |prompt| + i < POS_MAX && |tokens| == |finished| == |cached| == |seen| == nDec
      requires cache.frontier <= |prompt| + nDec * i
      modifies this`cached, this`seen, cache, cache.cells
      ensures cache.cells == old(cache.cells) && cache.Valid() && Shared()
      ensures Ends(net, prompt, outcome, Snap(), old(cached), i)
      ensures outcome == Continue ==> cache.frontier <= |prompt| + nDec * (i + 1)
    {
      hide SharedState, ReadyState, SampledState, RowOf, FreeFrom;
      FreeLater(cache.cells[..], cache.frontier, |prompt| + nDec * i);
      var all := AllFinished();
      if all {
        outcome := Complete;
        return;
      }
      OneMoreEach(nDec, i);
      var ok := Feed(i);
      outcome := if ok then Continue else Full;
      FreeLater(cache.cells[..], cache.frontier, |prompt| + nDec * (i + 1));
      if !ok {
        forall c
          ensures !IsSlot(cache.cells[..], c, RowOf(finished, |finished|))
        {
          assert !IsSlot(old(cache.cells[..]), c, RowOf(finished, |finished|));
        }
      }
    }

    // A whole run of the loop at one temperature, as a trace.
    method Run(prompt: seq<int>, nDec: nat, nMax: nat, strategy: Strategy, choices: Choices)
      returns (ok: bool, ghost trace: seq<Snapshot<Kv>>)
      requires cache.Valid() && pad >= 1
      requires 0 < |prompt| && |prompt| + nMax < POS_MAX && 1 <= nDec <= WHISPER_MAX_DECODERS
      requires Size(strategy) >= 1 && Sorts(choices.order)
      modifies this, cache, cache.cells
      ensures cache.cells == old(cache.cells)
      ensures Ran(net, prompt, nDec, nMax, strategy, choices, cache.cells.Length, ok, trace, Snap())
      ensures trace != [] ==> this.prompt == prompt && Shared()
    {
      hide Sound, Samples, Starts, IsTrace, SharedState, Sorts, ReadyState, Ran, Ends;
      trace := [];
      ok := Start(prompt, nDec);
      if !ok {
        RanNowhere(net, prompt, nDec, nMax, strategy, choices, cache.cells.Length, Snap());
        return;
      }
      FreeLater(cache.cells[..], cache.frontier, |prompt|);
      StartIsSound(net, prompt, nDec, Snap());
      trace := [Snap()];
      FirstSnapshot(net, prompt, nDec, strategy, choices, Snap());
      for i := 0 to nMax
        invariant cache.cells == old(cache.cells) && Shared() && this.prompt == prompt && |tokens| == nDec
        invariant cache.frontier <= |prompt| + nDec * i
        invariant |trace| == i + 1 && trace[i] == Snap() && IsTrace(net, prompt, nDec, strategy, choices, trace)
      {
        SoundAt(net, prompt, nDec, strategy, choices, trace, i);
        var outcome;
        ghost var mid;
        outcome, mid := Step(i, strategy, choices);
        if outcome != Continue {
          ok := outcome == Complete;
          RanUntil(net, prompt, nDec, nMax, strategy, choices, cache.cells.Length, trace, Snap(), outcome, mid);
          return;
        }
        TraceGrows(net, prompt, nDec, strategy, choices, trace, Snap(), mid);
        trace := trace + [Snap()];
      }
      RanToTheEnd(net, prompt, nDec, nMax, strategy, choices, cache.cells.Length, trace, Snap());
    }
  }
}
