/**
 How the decoders get their next tokens: every live decoder draws one token, or, in beam search,
 the draws of all live decoders compete and each live decoder continues one of the best.
 */
module Sampling {

  // A decoder's tokens and one draw.
  datatype Candidate = Candidate(decoderIdx: nat, tokens: seq<int>)

  // The network and sampler's decisions at a given step.
  datatype Choices = Choices(
    draw: (nat, nat, nat) -> int,        // step, decoder, k-th draw
    order: (nat, seq<Candidate>) -> seq<Candidate>, // how the candidates sort at a step
    finish: (nat, nat) -> bool)          // does the decoder complete or fail after this step

  datatype Strategy = Greedy | Beam(size: nat)

  // Sorting only permutes.
  ghost predicate Sorts(order: (nat, seq<Candidate>) -> seq<Candidate>) {
    forall i: nat, c: seq<Candidate> :: multiset(order(i, c)) == multiset(c)
  }

  function Extended(tokens: seq<seq<int>>, i: nat, choices: Choices, j: nat, k: nat): Candidate
    requires j < |tokens|
  {
    Candidate(j, tokens[j] + [choices.draw(i, j, k)])
  }

  // The first n draws of decoder j.
  function DrawsOf(tokens: seq<seq<int>>, i: nat, choices: Choices, j: nat, n: nat): (r: seq<Candidate>)
    requires j < |tokens|
    ensures |r| == n
  {
    seq(n, k requires 0 <= k => Extended(tokens, i, choices, j, k))
  }

  // The draws of the live decoders below j, in order.
  function Draws(tokens: seq<seq<int>>, finished: seq<bool>, i: nat, size: nat, choices: Choices,
                 j: nat): seq<Candidate>
    requires j <= |tokens| == |finished|
  {
    if j == 0 then []
    else
      Draws(tokens, finished, i, size, choices, j - 1)
      + if finished[j - 1] then [] else DrawsOf(tokens, i, choices, j - 1, size)
  }

  // c is one of `size` draws of a live decoder.
  ghost predicate Extends(tokens: seq<seq<int>>, finished: seq<bool>, c: Candidate, i: nat, size: nat, choices: Choices)
    requires |tokens| == |finished|
  {
    && c.decoderIdx < |tokens| && !finished[c.decoderIdx]
    && exists k :: 0 <= k < size && c == Extended(tokens, i, choices, c.decoderIdx, k)
  }

  // The candidates are exactly the draws of the live decoders.
  lemma {:induction false} DrawsExactly(tokens: seq<seq<int>>, finished: seq<bool>, c: Candidate, i: nat, size: nat,
                                        choices: Choices, j: nat)
    requires j <= |tokens| == |finished|
    ensures c in Draws(tokens, finished, i, size, choices, j)
            <==> c.decoderIdx < j && Extends(tokens, finished, c, i, size, choices)
  {
    if j > 0 {
      DrawsExactly(tokens, finished, c, i, size, choices, j - 1);
      if !finished[j - 1] {
        OwnDraws(tokens, c, i, size, choices, j - 1);
      }
      hide Extended;
    }
  }

  lemma OwnDraws(tokens: seq<seq<int>>, c: Candidate, i: nat, size: nat, choices: Choices, j: nat)
    requires j < |tokens|
    ensures c in DrawsOf(tokens, i, choices, j, size)
            <==> c.decoderIdx == j && exists k :: 0 <= k < size && c == Extended(tokens, i, choices, j, k)
  {
    var s := DrawsOf(tokens, i, choices, j, size);
    if c.decoderIdx == j && exists k :: 0 <= k < size && c == Extended(tokens, i, choices, j, k) {
      var k :| 0 <= k < size && c == Extended(tokens, i, choices, j, k);
      assert s[k] == c;
    }
    if c in s {
      var k :| 0 <= k < |s| && s[k] == c;
      assert c == Extended(tokens, i, choices, j, k);
    }
  }

  /* ---- who wins ---- */

  // The first index from c on whose candidate has other tokens.
  function SkipEqual(sorted: seq<Candidate>, c: nat, tokens: seq<int>): (r: nat)
    requires c <= |sorted|
    ensures c <= r <= |sorted| && (r < |sorted| ==> sorted[r].tokens != tokens)
    ensures forall k :: c <= k < r ==> sorted[k].tokens == tokens
    decreases |sorted| - c
  {
    if c < |sorted| && sorted[c].tokens == tokens then SkipEqual(sorted, c + 1, tokens) else c
  }

  // Past the last candidate it starts over.
  function Wrap(sorted: seq<Candidate>, c: nat): nat { if c >= |sorted| then 0 else c }

  function After(sorted: seq<Candidate>, i: nat, w: nat): (r: nat)
    requires w < |sorted|
    ensures w < r <= |sorted|
  {
    if i > 0 then SkipEqual(sorted, w + 1, sorted[w].tokens) else w + 1
  }

  // The position in the sorted candidates when it is decoder j's turn.
  function Cursor(sorted: seq<Candidate>, finished: seq<bool>, i: nat, j: nat): (c: nat)
    requires sorted != [] && j <= |finished|
    ensures c <= |sorted|
  {
    if j == 0 then 0
    else
      var c := Cursor(sorted, finished, i, j - 1);
      if finished[j - 1] then c else After(sorted, i, Wrap(sorted, c))
  }

  function WinnerIndex(sorted: seq<Candidate>, finished: seq<bool>, i: nat, j: nat): (w: nat)
    requires sorted != [] && j <= |finished|
    ensures w < |sorted|
  {
    Wrap(sorted, Cursor(sorted, finished, i, j))
  }

  lemma CursorStep(sorted: seq<Candidate>, finished: seq<bool>, i: nat, j: nat)
    requires sorted != [] && j < |finished|
    ensures Cursor(sorted, finished, i, 0) == 0
    ensures Cursor(sorted, finished, i, j + 1) ==
              if finished[j] then Cursor(sorted, finished, i, j)
              else After(sorted, i, WinnerIndex(sorted, finished, i, j))
  {
  }

  // Past the candidates with the tokens just taken.
  method NextCursor(sorted: seq<Candidate>, i: nat, w: nat) returns (c: nat)
    requires w < |sorted|
    ensures c == After(sorted, i, w)
  {
    c := w + 1;
    while c < |sorted| && sorted[c].tokens == sorted[w].tokens && i > 0
      invariant w < c <= |sorted| && (i == 0 ==> c == w + 1)
      invariant SkipEqual(sorted, c, sorted[w].tokens) == SkipEqual(sorted, w + 1, sorted[w].tokens)
    {
      c := c + 1;
    }
  }

  lemma {:induction false} CursorKept(sorted: seq<Candidate>, finished: seq<bool>, i: nat, j: nat, k: nat)
    requires sorted != [] && j <= k <= |finished| && forall q :: j <= q < k ==> finished[q]
    ensures Cursor(sorted, finished, i, k) == Cursor(sorted, finished, i, j)
    decreases k
  {
    if j < k {
      CursorKept(sorted, finished, i, j, k - 1);
    }
  }

  // Whose turn is next after decoder j, when those between are finished: the best candidate
  // left that has other tokens.
  lemma NextInOrder(sorted: seq<Candidate>, finished: seq<bool>, i: nat, j: nat, k: nat)
    requires sorted != [] && j < k <= |finished| && !finished[j] && forall q :: j < q < k ==> finished[q]
    ensures Cursor(sorted, finished, i, k) == After(sorted, i, WinnerIndex(sorted, finished, i, j))
    ensures WinnerIndex(sorted, finished, i, k) == Wrap(sorted, Cursor(sorted, finished, i, k))
  {
    CursorStep(sorted, finished, i, j);
    CursorKept(sorted, finished, i, j + 1, k);
  }

  // The best candidate goes to the first live decoder. From then on, as long as the candidates
  // last, each live decoder gets the best one left whose tokens are not those just taken.
  lemma WinnersInOrder(sorted: seq<Candidate>, finished: seq<bool>, i: nat, j: nat, k: nat)
    requires sorted != [] && j < k <= |finished| && !finished[j] && forall q :: j < q < k ==> finished[q]
    ensures (forall q :: 0 <= q < j ==> finished[q]) ==> WinnerIndex(sorted, finished, i, j) == 0
    ensures var w, next := WinnerIndex(sorted, finished, i, j), Cursor(sorted, finished, i, k);
            && w < next <= |sorted|
            && (next < |sorted| ==> WinnerIndex(sorted, finished, i, k) == next)
            && (next == |sorted| ==> WinnerIndex(sorted, finished, i, k) == 0)
            && (i == 0 ==> next == w + 1)
            && (i > 0 ==> (forall q :: w <= q < next ==> sorted[q].tokens == sorted[w].tokens)
                          && (next < |sorted| ==> sorted[next].tokens != sorted[w].tokens))
  {
    NextInOrder(sorted, finished, i, j, k);
    if forall q :: 0 <= q < j ==> finished[q] {
      FirstInOrder(sorted, finished, i, j);
    }
    hide Cursor, SkipEqual, WinnerIndex;
  }

  lemma FirstInOrder(sorted: seq<Candidate>, finished: seq<bool>, i: nat, j: nat)
    requires sorted != [] && j <= |finished| && forall q :: 0 <= q < j ==> finished[q]
    ensures WinnerIndex(sorted, finished, i, j) == 0
  {
    CursorKept(sorted, finished, i, 0, j);
  }

  // What decoder j continues with after step i.
  function Winner(tokens: seq<seq<int>>, finished: seq<bool>, i: nat, strategy: Strategy, choices: Choices,
                  j: nat): Candidate
    requires j < |tokens| == |finished|
  {
    if finished[j] then Candidate(j, tokens[j])
    else match strategy
      case Greedy => Extended(tokens, i, choices, j, 0)
      case Beam(size) =>
        var sorted := choices.order(i, Draws(tokens, finished, i, size, choices, |tokens|));
        if sorted == [] then Candidate(j, tokens[j]) else sorted[WinnerIndex(sorted, finished, i, j)]
  }

  function NextTokens(tokens: seq<seq<int>>, finished: seq<bool>, i: nat, strategy: Strategy,
                      choices: Choices): (r: seq<seq<int>>)
    requires |tokens| == |finished|
    ensures |r| == |tokens|
  {
    seq(|tokens|, j requires 0 <= j < |tokens| => Winner(tokens, finished, i, strategy, choices, j).tokens)
  }

  // The decoders whose tokens are continued.
  function Sources(tokens: seq<seq<int>>, finished: seq<bool>, i: nat, strategy: Strategy,
                   choices: Choices): (r: seq<nat>)
    requires |tokens| == |finished|
    ensures |r| == |tokens|
  {
    seq(|tokens|, j requires 0 <= j < |tokens| => Winner(tokens, finished, i, strategy, choices, j).decoderIdx)
  }

  function NextFinished(finished: seq<bool>, i: nat, choices: Choices): (r: seq<bool>)
    ensures |r| == |finished|
  {
    seq(|finished|, j requires 0 <= j < |finished| => finished[j] || choices.finish(i, j))
  }

  lemma SortedKeeps(order: (nat, seq<Candidate>) -> seq<Candidate>, i: nat, c: seq<Candidate>)
    requires Sorts(order)
    ensures |order(i, c)| == |c| && forall x :: x in order(i, c) <==> x in c
  {
    var r := order(i, c);
    assert multiset(r) == multiset(c);
    assert |multiset(r)| == |r| && |multiset(c)| == |c|;
    forall x ensures x in r <==> x in c {
      assert x in r <==> x in multiset(r);
      assert x in c <==> x in multiset(c);
    }
  }

  // The draws a strategy considers.
  function Size(strategy: Strategy): nat { if strategy.Greedy? then 1 else strategy.size }

  // Whoever wins, a live decoder continues a live decoder's tokens by one of its draws.
  lemma WinnerExtends(tokens: seq<seq<int>>, finished: seq<bool>, i: nat, strategy: Strategy, choices: Choices, j: nat)
    requires |tokens| == |finished| && j < |tokens| && !finished[j] && Size(strategy) >= 1 && Sorts(choices.order)
    ensures Extends(tokens, finished, Winner(tokens, finished, i, strategy, choices, j), i, Size(strategy), choices)
  {
    var w := Winner(tokens, finished, i, strategy, choices, j);
    if strategy.Greedy? {
      assert w == Extended(tokens, i, choices, j, 0);
    } else {
      var size := strategy.size;
      var draws := Draws(tokens, finished, i, size, choices, |tokens|);
      hide Draws, Extended, WinnerIndex, Sorts;
      SortedKeeps(choices.order, i, draws);
      var first := Extended(tokens, i, choices, j, 0);
      FirstDraw(tokens, finished, i, size, choices, j);
      DrawsExactly(tokens, finished, first, i, size, choices, |tokens|);
      DrawsExactly(tokens, finished, w, i, size, choices, |tokens|);
    }
  }

  lemma FirstDraw(tokens: seq<seq<int>>, finished: seq<bool>, i: nat, size: nat, choices: Choices, j: nat)
    requires |tokens| == |finished| && j < |tokens| && !finished[j] && size >= 1
    ensures Extends(tokens, finished, Extended(tokens, i, choices, j, 0), i, size, choices)
    ensures Extended(tokens, i, choices, j, 0).decoderIdx == j
  {
  }
}
