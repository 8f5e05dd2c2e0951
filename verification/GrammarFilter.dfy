/**
 Finding the tokens that the grammar rejects: all candidates are pushed through the stacks
 together, one code point at a time, and what every stack refuses is rejected.
 */
module GrammarFilter {
  import opened Grammar
  import opened GrammarLanguage
  import opened GrammarEngine
  import opened Utf8

  // A token: its id, its decoded text closed by a zero, how far into the text we are, and the
  // bytes left over at its end.
  datatype Candidate = Candidate(id: int, codePoints: seq<nat>, off: nat, partial: Partial)

  predicate InText(c: Candidate) {
    c.off < |c.codePoints| && c.codePoints[|c.codePoints| - 1] == 0
  }

  predicate AllInText(cands: seq<Candidate>) {
    forall i :: 0 <= i < |cands| ==> InText(cands[i])
  }

  // The text from an offset to the next zero.
  function TextFrom(codePoints: seq<nat>, off: nat): seq<nat>
    requires off <= |codePoints|
    decreases |codePoints| - off
  {
    if off == |codePoints| || codePoints[off] == 0 then [] else [codePoints[off]] + TextFrom(codePoints, off + 1)
  }

  function Text(c: Candidate): seq<nat>
    requires InText(c)
  {
    TextFrom(c.codePoints, c.off)
  }

  // A token may end with this stack: nothing pending, or a class on top that the pending bytes
  // may still match.
  predicate MayEnd(rules: seq<Rule>, stack: Stack, partial: Partial)
    requires WellFormed(rules) && Settled(rules, stack)
  {
    partial.n == 0 || (stack != [] && MatchPartial(rules, stack[|stack| - 1], partial.value, partial.n))
  }

  predicate SomeMayEnd(rules: seq<Rule>, stacks: seq<Stack>, partial: Partial)
    requires WellFormed(rules) && AllSettled(rules, stacks)
  {
    exists i :: 0 <= i < |stacks| && MayEnd(rules, stacks[i], partial)
  }

  // The grammar can continue with the token: reading its text code point by code point leaves
  // a stack on which it may end.
  predicate Survives(rules: seq<Rule>, stacks: seq<Stack>, w: seq<nat>, partial: Partial, ghost rk: Ranking)
    requires WellFormed(rules) && Ranked(rules, rk) && AllSettled(rules, stacks)
  {
    SomeMayEnd(rules, AcceptAll(rules, stacks, w, rk), partial)
  }

  // Without pending bytes, a token survives exactly when reading it leaves any stack at all.
  lemma SurvivesComplete(rules: seq<Rule>, stacks: seq<Stack>, w: seq<nat>, partial: Partial, rk: Ranking)
    requires WellFormed(rules) && Ranked(rules, rk) && AllSettled(rules, stacks) && partial.n == 0
    ensures Survives(rules, stacks, w, partial, rk) <==> AcceptAll(rules, stacks, w, rk) != []
  {
    var r := AcceptAll(rules, stacks, w, rk);
    if r != [] {
      assert MayEnd(rules, r[0], partial);
    }
  }

  /* ---- how survival distributes over stacks ---- */

  lemma {:induction false} AcceptAppend(rules: seq<Rule>, a: seq<Stack>, b: seq<Stack>, chr: nat, rk: Ranking)
    requires WellFormed(rules) && Ranked(rules, rk) && AllSettled(rules, a) && AllSettled(rules, b)
    ensures AllSettled(rules, a + b)
    ensures Accept(rules, a + b, chr, rk) == Accept(rules, a, chr, rk) + Accept(rules, b, chr, rk)
  {
    hide AcceptOne, Settled;
    if b == [] {
      assert a + b == a;
    } else {
      var m := |b| - 1;
      AcceptAppend(rules, a, b[..m], chr, rk);
      assert (a + b)[..|a + b| - 1] == a + b[..m];
    }
  }

  lemma {:induction false} AcceptAllAppend(rules: seq<Rule>, a: seq<Stack>, b: seq<Stack>, w: seq<nat>, rk: Ranking)
    requires WellFormed(rules) && Ranked(rules, rk) && AllSettled(rules, a) && AllSettled(rules, b)
    ensures AllSettled(rules, a + b)
    ensures AcceptAll(rules, a + b, w, rk) == AcceptAll(rules, a, w, rk) + AcceptAll(rules, b, w, rk)
    decreases |w|
  {
    hide Accept, Settled;
    if w != [] {
      AcceptAppend(rules, a, b, w[0], rk);
      AcceptAllAppend(rules, Accept(rules, a, w[0], rk), Accept(rules, b, w[0], rk), w[1..], rk);
    }
  }

  // A token survives on some stacks together exactly when it survives on some of them.
  lemma SurvivesAppend(rules: seq<Rule>, a: seq<Stack>, b: seq<Stack>, w: seq<nat>, partial: Partial, rk: Ranking)
    requires WellFormed(rules) && Ranked(rules, rk) && AllSettled(rules, a) && AllSettled(rules, b)
    ensures AllSettled(rules, a + b)
    ensures Survives(rules, a + b, w, partial, rk)
            <==> Survives(rules, a, w, partial, rk) || Survives(rules, b, w, partial, rk)
  {
    hide AcceptAll, Settled, MayEnd;
    AcceptAllAppend(rules, a, b, w, rk);
    SomeMayEndAppend(rules, AcceptAll(rules, a, w, rk), AcceptAll(rules, b, w, rk), partial);
  }

  lemma SomeMayEndAppend(rules: seq<Rule>, a: seq<Stack>, b: seq<Stack>, partial: Partial)
    requires WellFormed(rules) && AllSettled(rules, a) && AllSettled(rules, b)
    ensures AllSettled(rules, a + b)
    ensures SomeMayEnd(rules, a + b, partial) <==> SomeMayEnd(rules, a, partial) || SomeMayEnd(rules, b, partial)
  {
    hide Settled, MayEnd;
    var c := a + b;
    assert AllSettled(rules, c);
    forall i | 0 <= i < |a| ensures c[i] == a[i] {}
    forall i | 0 <= i < |b| ensures c[|a| + i] == b[i] {}
    if SomeMayEnd(rules, a, partial) {
      var i :| 0 <= i < |a| && MayEnd(rules, a[i], partial);
      assert MayEnd(rules, c[i], partial);
    }
    if SomeMayEnd(rules, b, partial) {
      var i :| 0 <= i < |b| && MayEnd(rules, b[i], partial);
      assert MayEnd(rules, c[|a| + i], partial);
    }
  }

  lemma OneSettled(rules: seq<Rule>, stack: Stack)
    requires Settled(rules, stack)
    ensures AllSettled(rules, [stack])
  {
  }

  // Reading the first code point of a token on one stack.
  lemma SurvivesStep(rules: seq<Rule>, stack: Stack, w: seq<nat>, partial: Partial, rk: Ranking)
    requires WellFormed(rules) && Ranked(rules, rk) && Settled(rules, stack)
    ensures AllSettled(rules, [stack])
    ensures w == [] ==> (Survives(rules, [stack], w, partial, rk) <==> MayEnd(rules, stack, partial))
    ensures w != [] ==> (Survives(rules, [stack], w, partial, rk)
                         <==> stack != [] && Accepts(rules, stack[|stack| - 1], w[0])
                              && Survives(rules, Advance(rules, PopClass(rules, stack), rk), w[1..], partial, rk))
  {
    hide Accepts, MatchPartial, Advance, PopClass;
    OneSettled(rules, stack);
    if w == [] {
      assert [stack][0] == stack;
    } else {
      assert [stack][..0] == [];
      assert Accept(rules, [stack], w[0], rk) == AcceptOne(rules, stack, w[0], rk);
      if stack == [] || !Accepts(rules, stack[|stack| - 1], w[0]) {
        NoStacks(rules, w[1..], rk);
      }
    }
  }

  /* ---- the filter ---- */

  // The rejected candidates: with the same multiplicity as before, or not at all.
  ghost predicate Rejected(rules: seq<Rule>, stacks: seq<Stack>, cands: seq<Candidate>, rejects: seq<Candidate>,
                           rk: Ranking)
    requires WellFormed(rules) && Ranked(rules, rk) && AllSettled(rules, stacks)
  {
    && AllInText(rejects)
    && forall c {:trigger multiset(rejects)[c]} :: InText(c) ==>
         multiset(rejects)[c] == if Survives(rules, stacks, Text(c), c.partial, rk) then 0 else multiset(cands)[c]
  }

  function Shift(c: Candidate): Candidate {
    c.(off := c.off + 1)
  }

  // The text left of the longest candidate.
  function Longest(cands: seq<Candidate>): nat
    requires AllInText(cands)
  {
    if cands == [] then 0
    else
      var m := |cands| - 1;
      var rest, own := Longest(cands[..m]), |cands[m].codePoints| - cands[m].off;
      if own > rest then own else rest
  }

  lemma {:induction false} LongestBounds(cands: seq<Candidate>, n: nat)
    requires AllInText(cands)
    ensures Longest(cands) <= n <==> forall i :: 0 <= i < |cands| ==> |cands[i].codePoints| - cands[i].off <= n
  {
    if cands != [] {
      LongestBounds(cands[..|cands| - 1], n);
    }
  }

  // Rejected candidates are among the candidates.
  lemma RejectedAmong(rules: seq<Rule>, stacks: seq<Stack>, cands: seq<Candidate>, rejects: seq<Candidate>, rk: Ranking)
    requires WellFormed(rules) && Ranked(rules, rk) && AllSettled(rules, stacks)
    requires AllInText(cands) && Rejected(rules, stacks, cands, rejects, rk)
    ensures AllInText(rejects) && Longest(rejects) <= Longest(cands)
  {
    hide Survives, Longest;
    forall i | 0 <= i < |rejects| ensures |rejects[i].codePoints| - rejects[i].off <= Longest(cands) {
      var c := rejects[i];
      assert c in multiset(rejects);
      assert multiset(rejects)[c] > 0;
      assert c in multiset(cands);
      var k :| 0 <= k < |cands| && cands[k] == c;
      LongestBounds(cands, Longest(cands));
    }
    LongestBounds(rejects, Longest(cands));
  }

  // What one stack makes of a candidate at once: reject it, keep it, or move on to the next
  // code point.
  predicate MovesOn(rules: seq<Rule>, stack: Stack, c: Candidate)
    requires WellFormed(rules) && Settled(rules, stack) && InText(c)
  {
    stack != [] && c.codePoints[c.off] != 0 && Accepts(rules, stack[|stack| - 1], c.codePoints[c.off])
  }

  predicate DropsNow(rules: seq<Rule>, stack: Stack, c: Candidate)
    requires WellFormed(rules) && Settled(rules, stack) && InText(c)
  {
    if c.codePoints[c.off] == 0 then !MayEnd(rules, stack, c.partial)
    else stack == [] || !Accepts(rules, stack[|stack| - 1], c.codePoints[c.off])
  }

  // A candidate is rejected by one stack now, or later by the stacks after its first code point.
  lemma SurvivesCandidate(rules: seq<Rule>, stack: Stack, c: Candidate, rk: Ranking)
    requires WellFormed(rules) && Ranked(rules, rk) && Settled(rules, stack) && InText(c)
    ensures AllSettled(rules, [stack])
    ensures MovesOn(rules, stack, c) ==>
              InText(Shift(c))
              && (Survives(rules, [stack], Text(c), c.partial, rk)
                  <==> Survives(rules, Advance(rules, PopClass(rules, stack), rk), Text(Shift(c)), c.partial, rk))
    ensures !MovesOn(rules, stack, c) ==>
              (Survives(rules, [stack], Text(c), c.partial, rk) <==> !DropsNow(rules, stack, c))
  {
    hide Survives, Accepts, MayEnd, Advance, PopClass;
    SurvivesStep(rules, stack, Text(c), c.partial, rk);
    if c.codePoints[c.off] != 0 {
      assert Text(c) == [c.codePoints[c.off]] + Text(Shift(c));
    }
  }

  // The candidates split by one stack: those rejected at once, and those that move on.
  ghost predicate Split(rules: seq<Rule>, stack: Stack, cands: seq<Candidate>, rejects: seq<Candidate>,
                        next: seq<Candidate>)
    requires WellFormed(rules) && Settled(rules, stack)
  {
    && AllInText(rejects) && AllInText(next)
    && (forall i :: 0 <= i < |next| ==> next[i].off > 0)
    && (forall c {:trigger multiset(rejects)[c]} :: InText(c) ==>
          multiset(rejects)[c] == if DropsNow(rules, stack, c) then multiset(cands)[c] else 0)
    && (forall c {:trigger multiset(next)[Shift(c)]} :: InText(c) ==>
          multiset(next)[Shift(c)] == if MovesOn(rules, stack, c) then multiset(cands)[c] else 0)
  }

  lemma SplitDrop(rules: seq<Rule>, stack: Stack, cands: seq<Candidate>, rejects: seq<Candidate>,
                  next: seq<Candidate>, c: Candidate)
    requires WellFormed(rules) && Settled(rules, stack) && Split(rules, stack, cands, rejects, next) && InText(c)
    requires DropsNow(rules, stack, c) && !MovesOn(rules, stack, c)
    ensures Split(rules, stack, cands + [c], rejects + [c], next)
  {
    hide DropsNow, MovesOn, Settled;
  }

  lemma SplitMove(rules: seq<Rule>, stack: Stack, cands: seq<Candidate>, rejects: seq<Candidate>,
                  next: seq<Candidate>, c: Candidate)
    requires WellFormed(rules) && Settled(rules, stack) && Split(rules, stack, cands, rejects, next) && InText(c)
    requires !DropsNow(rules, stack, c) && MovesOn(rules, stack, c) && InText(Shift(c))
    ensures Split(rules, stack, cands + [c], rejects, next + [Shift(c)])
  {
    hide DropsNow, MovesOn, Settled;
  }

  lemma SplitKeep(rules: seq<Rule>, stack: Stack, cands: seq<Candidate>, rejects: seq<Candidate>,
                  next: seq<Candidate>, c: Candidate)
    requires WellFormed(rules) && Settled(rules, stack) && Split(rules, stack, cands, rejects, next) && InText(c)
    requires !DropsNow(rules, stack, c) && !MovesOn(rules, stack, c)
    ensures Split(rules, stack, cands + [c], rejects, next)
  {
    hide DropsNow, MovesOn, Settled;
  }

  // One pass over the candidates with a stack.
  method Sort(rules: seq<Rule>, stack: Stack, cands: seq<Candidate>)
    returns (rejects: seq<Candidate>, next: seq<Candidate>)
    requires WellFormed(rules) && Settled(rules, stack) && AllInText(cands)
    ensures Split(rules, stack, cands, rejects, next)
    ensures AllInText(next) && (next != [] ==> Longest(next) < Longest(cands))
    ensures cands == [] ==> next == []
  {
    hide Split, DropsNow, MovesOn, Longest, WellFormed, Settled;
    rejects, next := [], [];
    LongestBounds(cands, Longest(cands));
    SplitNothing(rules, stack);
    for i := 0 to |cands|
      invariant i == 0 ==> next == []
      invariant AllInText(next) && forall k :: 0 <= k < |next| ==> |next[k].codePoints| - next[k].off < Longest(cands)
      invariant Split(rules, stack, cands[..i], rejects, next)
    {
      var tok := cands[i];
      var move, drop := Judge(rules, stack, tok);
      assert cands[..i + 1] == cands[..i] + [tok];
      if drop {
        SplitDrop(rules, stack, cands[..i], rejects, next, tok);
        rejects := rejects + [tok];
      } else if move {
        SplitMove(rules, stack, cands[..i], rejects, next, tok);
        next := next + [Shift(tok)];
      } else {
        SplitKeep(rules, stack, cands[..i], rejects, next, tok);
      }
    }
    assert cands[..|cands|] == cands;
    if next != [] {
      assert InText(next[0]);
      LongestBounds(next, Longest(cands) - 1);
    }
  }

  lemma SplitNothing(rules: seq<Rule>, stack: Stack)
    requires WellFormed(rules) && Settled(rules, stack)
    ensures Split(rules, stack, [], [], [])
  {
  }

  lemma AppendCounts(cands: seq<Candidate>, i: nat)
    requires i < |cands|
    ensures cands[..i + 1] == cands[..i] + [cands[i]]
    ensures multiset(cands[..i + 1]) == multiset(cands[..i]) + multiset{cands[i]}
  {
    assert cands[..i + 1] == cands[..i] + [cands[i]];
  }

  method Judge(rules: seq<Rule>, stack: Stack, tok: Candidate) returns (move: bool, drop: bool)
    requires WellFormed(rules) && Settled(rules, stack) && InText(tok)
    ensures move == MovesOn(rules, stack, tok) && drop == DropsNow(rules, stack, tok) && !(move && drop)
    ensures move ==> InText(Shift(tok))
  {
    var chr := tok.codePoints[tok.off];
    if stack == [] {
      return false, chr != 0 || tok.partial.n != 0;
    }
    var pos := stack[|stack| - 1];
    if chr == 0 {
      if tok.partial.n == 0 {
        return false, false;
      }
      var matches := MatchPartialChar(rules, pos, tok.partial.value, tok.partial.n);
      return false, !matches;
    }
    var matched, _ := MatchChar(rules, pos, chr);
    return matched, !matched;
  }

  // Moves the rejects of the next stacks back to the code point they came from.
  method Unshift(rejects: seq<Candidate>, nextRejects: seq<Candidate>) returns (r: seq<Candidate>)
    requires AllInText(rejects) && AllInText(nextRejects)
    requires forall i :: 0 <= i < |nextRejects| ==> nextRejects[i].off > 0
    ensures AllInText(r)
    ensures forall c {:trigger multiset(r)[c]} ::
              multiset(r)[c] == multiset(rejects)[c] + multiset(nextRejects)[Shift(c)]
  {
    r := rejects;
    for i := 0 to |nextRejects|
      invariant AllInText(r)
      invariant forall c {:trigger multiset(r)[c]} ::
                  multiset(r)[c] == multiset(rejects)[c] + multiset(nextRejects[..i])[Shift(c)]
    {
      var tok := nextRejects[i];
      AppendCounts(nextRejects, i);
      var back := tok.(off := tok.off - 1);
      assert Shift(back) == tok;
      r := r + [back];
    }
    assert nextRejects[..|nextRejects|] == nextRejects;
  }

  // Putting together what a stack rejects at once and what the stacks after it reject.
  lemma CombineRejects(rules: seq<Rule>, stack: Stack, cands: seq<Candidate>, now: seq<Candidate>, next: seq<Candidate>,
                       later: seq<Candidate>, all: seq<Candidate>, rk: Ranking)
    requires WellFormed(rules) && Ranked(rules, rk) && Settled(rules, stack) && stack != []
    requires AllInText(all) && AllInText(later)
    requires Split(rules, stack, cands, now, next)
    requires Rejected(rules, Advance(rules, PopClass(rules, stack), rk), next, later, rk)
    requires forall c {:trigger multiset(all)[c]} :: multiset(all)[c] == multiset(now)[c] + multiset(later)[Shift(c)]
    ensures AllSettled(rules, [stack]) && Rejected(rules, [stack], cands, all, rk)
  {
    hide Survives, DropsNow, Advance, PopClass, Ranked, Settled, AllSettled, Text;
    OneSettled(rules, stack);
    forall c | InText(c)
      ensures multiset(all)[c] == if Survives(rules, [stack], Text(c), c.partial, rk) then 0 else multiset(cands)[c]
    {
      SurvivesCandidate(rules, stack, c, rk);
      MovesOrDrops(rules, stack, c);
      var d := Shift(c);
      assert multiset(all)[c] == multiset(now)[c] + multiset(later)[d];
      assert multiset(next)[Shift(c)] == if MovesOn(rules, stack, c) then multiset(cands)[c] else 0;
      if !InText(d) {
        NotAmong(later, d);
      }
    }
  }

  lemma MovesOrDrops(rules: seq<Rule>, stack: Stack, c: Candidate)
    requires WellFormed(rules) && Settled(rules, stack) && InText(c)
    ensures !(MovesOn(rules, stack, c) && DropsNow(rules, stack, c))
  {
  }

  lemma NotAmong(cands: seq<Candidate>, d: Candidate)
    requires AllInText(cands) && !InText(d)
    ensures multiset(cands)[d] == 0
  {
    assert d in multiset(cands) <==> d in cands;
  }

  // What the empty stack rejects: anything with text or bytes left.
  lemma EmptyRejects(rules: seq<Rule>, cands: seq<Candidate>, now: seq<Candidate>, next: seq<Candidate>, rk: Ranking)
    requires WellFormed(rules) && Ranked(rules, rk) && Settled(rules, [])
    requires Split(rules, [], cands, now, next)
    ensures AllSettled(rules, [[]]) && Rejected(rules, [[]], cands, now, rk)
  {
    hide Survives, DropsNow, Ranked, Text;
    OneSettled(rules, []);
    forall c | InText(c)
      ensures multiset(now)[c] == if Survives(rules, [[]], Text(c), c.partial, rk) then 0 else multiset(cands)[c]
    {
      SurvivesCandidate(rules, [], c, rk);
    }
  }

  // The candidates one stack rejects.
  method RejectForStack(rules: seq<Rule>, stack: Stack, cands: seq<Candidate>, ghost rk: Ranking)
    returns (rejects: seq<Candidate>)
    requires WellFormed(rules) && Ranked(rules, rk) && Settled(rules, stack) && AllInText(cands)
    ensures AllSettled(rules, [stack]) && Rejected(rules, [stack], cands, rejects, rk)
    decreases Longest(cands), if cands == [] then 1 else 2
  {
    hide Ranked, WellFormed, Advance, Rejected, DropsNow, MovesOn, AllSettled;
    var next;
    assert stack != [] ==> InRules(rules, stack[|stack| - 1]);
    rejects, next := Sort(rules, stack, cands);
    if stack == [] {
      EmptyRejects(rules, cands, rejects, next, rk);
      return;
    }
    var _, after := MatchChar(rules, stack[|stack| - 1], 0);
    var stackAfter := stack[..|stack| - 1];
    if !IsEnd(At(rules, after)) {
      stackAfter := stackAfter + [after];
    }
    assert stackAfter == PopClass(rules, stack);
    var nextStacks := AdvanceStack(rules, stackAfter, [], rk);
    assert nextStacks == Advance(rules, PopClass(rules, stack), rk);
    var nextRejects := Reject(rules, nextStacks, next, rk);
    RejectsShifted(rules, nextStacks, next, nextRejects, rk);
    ghost var now := rejects;
    rejects := Unshift(rejects, nextRejects);
    CombineRejects(rules, stack, cands, now, next, nextRejects, rejects, rk);
  }

  lemma RejectsShifted(rules: seq<Rule>, stacks: seq<Stack>, next: seq<Candidate>, rejects: seq<Candidate>, rk: Ranking)
    requires WellFormed(rules) && Ranked(rules, rk) && AllSettled(rules, stacks)
    requires AllInText(next) && Rejected(rules, stacks, next, rejects, rk)
    requires forall i :: 0 <= i < |next| ==> next[i].off > 0
    ensures AllInText(rejects) && forall i :: 0 <= i < |rejects| ==> rejects[i].off > 0
  {
    hide Survives;
    forall i | 0 <= i < |rejects| ensures rejects[i].off > 0 {
      var c := rejects[i];
      assert c in multiset(rejects) && multiset(rejects)[c] > 0;
      assert c in multiset(next);
    }
  }

  // The candidates every stack rejects; nothing is rejected when there are no stacks.
  method Reject(rules: seq<Rule>, stacks: seq<Stack>, cands: seq<Candidate>, ghost rk: Ranking)
    returns (rejects: seq<Candidate>)
    requires WellFormed(rules) && Ranked(rules, rk) && AllSettled(rules, stacks) && AllInText(cands)
    ensures stacks == [] ==> rejects == []
    ensures stacks != [] ==> Rejected(rules, stacks, cands, rejects, rk)
    decreases Longest(cands), if cands == [] then 0 else 3
  {
    hide Ranked, WellFormed, Rejected, Settled, AllSettled;
    if cands == [] || stacks == [] {
      NothingRejected(rules, stacks, rk);
      return [];
    }
    PrefixSettled(rules, stacks, 0);
    PrefixSettled(rules, stacks, 1);
    rejects := RejectForStack(rules, stacks[0], cands, rk);
    assert stacks[..1] == [stacks[0]];
    RejectedAmong(rules, stacks[..1], cands, rejects, rk);
    for i := 1 to |stacks|
      invariant AllInText(rejects) && Longest(rejects) <= Longest(cands)
      invariant AllSettled(rules, stacks[..i]) && Rejected(rules, stacks[..i], cands, rejects, rk)
    {
      PrefixSettled(rules, stacks, i);
      PrefixSettled(rules, stacks, i + 1);
      ghost var before := rejects;
      rejects := RejectForStack(rules, stacks[i], rejects, rk);
      assert stacks[..i] + [stacks[i]] == stacks[..i + 1];
      RejectedByMore(rules, stacks[..i], stacks[i], cands, before, rejects, rk);
      RejectedAmong(rules, stacks[..i + 1], cands, rejects, rk);
    }
    assert stacks[..|stacks|] == stacks;
  }

  lemma PrefixSettled(rules: seq<Rule>, stacks: seq<Stack>, i: nat)
    requires AllSettled(rules, stacks) && i <= |stacks|
    ensures AllSettled(rules, stacks[..i]) && (i < |stacks| ==> Settled(rules, stacks[i]))
  {
  }

  lemma NothingRejected(rules: seq<Rule>, stacks: seq<Stack>, rk: Ranking)
    requires WellFormed(rules) && Ranked(rules, rk) && AllSettled(rules, stacks)
    ensures Rejected(rules, stacks, [], [], rk)
  {
    hide Survives;
  }

  // Filtering the rejects by one more stack.
  lemma RejectedByMore(rules: seq<Rule>, stacks: seq<Stack>, stack: Stack, cands: seq<Candidate>, some: seq<Candidate>,
                       all: seq<Candidate>, rk: Ranking)
    requires WellFormed(rules) && Ranked(rules, rk) && AllSettled(rules, stacks) && AllSettled(rules, [stack])
    requires Rejected(rules, stacks, cands, some, rk) && Rejected(rules, [stack], some, all, rk)
    ensures AllSettled(rules, stacks + [stack]) && Rejected(rules, stacks + [stack], cands, all, rk)
  {
    hide Survives, Ranked, Settled, Text;
    forall c | InText(c)
      ensures multiset(all)[c]
              == if Survives(rules, stacks + [stack], Text(c), c.partial, rk) then 0 else multiset(cands)[c]
    {
      SurvivesAppend(rules, stacks, [stack], Text(c), c.partial, rk);
      assert multiset(some)[c] == if Survives(rules, stacks, Text(c), c.partial, rk) then 0 else multiset(cands)[c];
    }
  }

  /* ---- the filter and the engine ---- */

  // A token as the filter sees it.
  predicate Decoded(c: Candidate, text: seq<Byte>, pending: Partial) {
    var d := Decode(text, pending);
    c.off == 0 && c.codePoints == d.cps + [0] && c.partial == d.partial
  }

  // The filter reads code points up to a zero.
  function BeforeZero(w: seq<nat>): seq<nat> { TextFrom(w, 0) }

  // A token is rejected exactly when no stack left by its code points up to the first zero may
  // be followed by its pending bytes; and so always when its text is invalid.
  lemma FilterRejectsExactly(rules: seq<Rule>, stacks: seq<Stack>, cands: seq<Candidate>, rejects: seq<Candidate>,
                             c: Candidate, text: seq<Byte>, pending: Partial, rk: Ranking)
    requires WellFormed(rules) && Ranked(rules, rk) && AllSettled(rules, stacks)
    requires Rejected(rules, stacks, cands, rejects, rk) && c in cands && Decoded(c, text, pending)
    ensures var left := AcceptAll(rules, stacks, BeforeZero(Decode(text, pending).cps), rk);
            && (c in rejects <==> !SomeMayEnd(rules, left, c.partial))
            && (c.partial.n == 0 ==> (c in rejects <==> left == []))
    ensures Meaning(text, pending).Bad? ==> c in rejects
  {
    hide AcceptAll, Decode, Ranked, MayEnd;
    var w := Decode(text, pending).cps;
    assert c in multiset(rejects) <==> c in rejects;
    assert c in multiset(cands);
    assert multiset(rejects)[c] == if Survives(rules, stacks, Text(c), c.partial, rk) then 0 else multiset(cands)[c];
    TerminatorEnds(w, 0);
    SurvivesComplete(rules, stacks, BeforeZero(w), c.partial.(n := 0), rk);
    if Meaning(text, pending).Bad? {
      BadLeaves(text, pending);
      NeverEnds(rules, AcceptAll(rules, stacks, Text(c), rk), c.partial);
    }
  }

  lemma BadLeaves(text: seq<Byte>, pending: Partial)
    requires Meaning(text, pending).Bad?
    ensures Decode(text, pending).partial.n < 0
  {
  }

  // After invalid bytes no token may end.
  lemma NeverEnds(rules: seq<Rule>, stacks: seq<Stack>, partial: Partial)
    requires WellFormed(rules) && AllSettled(rules, stacks) && partial.n < 0
    ensures !SomeMayEnd(rules, stacks, partial)
  {
  }

  lemma {:induction false} TerminatorEnds(w: seq<nat>, off: nat)
    requires off <= |w|
    ensures TextFrom(w + [0], off) == TextFrom(w, off)
    decreases |w| - off
  {
    if off < |w| {
      TerminatorEnds(w, off + 1);
    }
  }

  lemma {:induction false} TextIsPrefix(w: seq<nat>, off: nat)
    requires off <= |w|
    ensures TextFrom(w, off) <= w[off..]
    ensures 0 !in w[off..] <==> TextFrom(w, off) == w[off..]
    decreases |w| - off
  {
    if off < |w| {
      assert w[off..] == [w[off]] + w[off + 1..];
      TextIsPrefix(w, off + 1);
    }
  }

  // When the filter and the engine agree on a token, that is, it is rejected if and only if
  // accepting it would leave no stack. A special text, which the engine skips: exactly when it
  // is not rejected. Any other: exactly when its code points are refused before the first zero,
  // or the filter passes it and the engine reads the rest, or neither. Without pending bytes
  // the filter passes what is not refused.
  lemma FilterAgreesWithEngine(rules: seq<Rule>, stacks: seq<Stack>, cands: seq<Candidate>, rejects: seq<Candidate>,
                               c: Candidate, text: seq<Byte>, pending: Partial, rk: Ranking)
    requires WellFormed(rules) && Ranked(rules, rk) && AllSettled(rules, stacks) && rules != [] && stacks != []
    requires Rejected(rules, stacks, cands, rejects, rk) && c in cands && Decoded(c, text, pending)
    ensures var w := Decode(text, pending).cps;
            var left := AcceptAll(rules, stacks, BeforeZero(w), rk);
            |BeforeZero(w)| <= |w| &&
            var readsRest := AcceptAll(rules, left, w[|BeforeZero(w)|..], rk) != [];
            var agree := c in rejects <==> AfterToken(rules, stacks, text, pending, rk).0 == [];
            && (agree <==> if IsSpecial(text) then SomeMayEnd(rules, left, c.partial)
                           else left == [] || (SomeMayEnd(rules, left, c.partial) <==> readsRest))
            && (c.partial.n == 0 ==>
                  (agree <==> if IsSpecial(text) then left != [] else 0 !in w || left == [] || readsRest))
  {
    hide Decode, Ranked, Rejected, Accept, TextFrom, MayEnd;
    var w := Decode(text, pending).cps;
    var u := BeforeZero(w);
    FilterRejectsExactly(rules, stacks, cands, rejects, c, text, pending, rk);
    TextIsPrefix(w, 0);
    assert w[0..] == w && w == u + w[|u|..];
    AcceptInParts(rules, stacks, u, w[|u|..], rk);
    NoStacks(rules, w[|u|..], rk);
    NoneMayEnd(rules, c.partial);
  }

  lemma NoneMayEnd(rules: seq<Rule>, partial: Partial)
    requires WellFormed(rules)
    ensures !SomeMayEnd(rules, [], partial)
  {
  }

  // A special text is rejected where the grammar asks for an 'a', but skipped by the engine.
  lemma FilterRejectsSpecial(rules: seq<Rule>, rk: Ranking, text: seq<Byte>, rejects: seq<Candidate>)
    requires rules == [[Element(CHAR, 0x61), Element(END, 0)]] && rk == Ranking([false], [0], 3)
    requires text == [0x5B, 0x5F]
    ensures var stacks, c := [[Pos(0, 0)]], Candidate(0, [0x5B, 0x5F, 0], 0, Partial(0x5F, 0));
            && WellFormed(rules) && Ranked(rules, rk) && AllSettled(rules, stacks)
            && Decoded(c, text, Partial(0, 0)) && AfterToken(rules, stacks, text, Partial(0, 0), rk).0 == stacks
            && (Rejected(rules, stacks, [c], rejects, rk) ==> c in rejects)
  {
    var stacks, c := [[Pos(0, 0)]], Candidate(0, [0x5B, 0x5F, 0], 0, Partial(0x5F, 0));
    OneRuleRanked(rules, rk);
    TwoAscii(text);
    if Rejected(rules, stacks, [c], rejects, rk) {
      FilterRejectsExactly(rules, stacks, [c], rejects, c, text, Partial(0, 0), rk);
      assert [0x5B, 0x5F][1..] == [0x5F];
      assert TextFrom([0x5B, 0x5F], 2) == [];
      assert BeforeZero([0x5B, 0x5F]) == [0x5B, 0x5F];
      assert stacks[..0] == [] && !Accepts(rules, Pos(0, 0), 0x5B);
      assert Accept(rules, stacks, 0x5B, rk) == [];
      NoStacks(rules, [0x5F], rk);
    }
  }

  lemma TwoAscii(text: seq<Byte>)
    requires text == [0x5B, 0x5F]
    ensures Decode(text, Partial(0, 0)) == Reading([0x5B, 0x5F], Partial(0x5F, 0))
  {
    assert text[1..] == [0x5F] && text[1..][1..] == [];
    assert Scan(text[1..], 0x5B, 0, false, false) == Run([0x5F], 0x5F, 0);
    assert Scan(text, 0, 0, true, false) == Run([0x5B, 0x5F], 0x5F, 0);
  }

  // They do not always agree: an overlong encoding of zero is accepted by the filter where the
  // grammar asks for an 'a', and would leave the engine without stacks.
  lemma FilterMissesZero(rules: seq<Rule>, rk: Ranking, text: seq<Byte>, rejects: seq<Candidate>)
    requires rules == [[Element(CHAR, 0x61), Element(END, 0)]] && rk == Ranking([false], [0], 3)
    requires text == [0xC0, 0x80]
    ensures var stacks, c := [[Pos(0, 0)]], Candidate(0, [0, 0], 0, Partial(0, 0));
            && WellFormed(rules) && Ranked(rules, rk) && AllSettled(rules, stacks)
            && Decoded(c, text, Partial(0, 0)) && AfterToken(rules, stacks, text, Partial(0, 0), rk).0 == []
            && (Rejected(rules, stacks, [c], rejects, rk) ==> c !in rejects)
  {
    var stacks, c := [[Pos(0, 0)]], Candidate(0, [0, 0], 0, Partial(0, 0));
    OneRuleRanked(rules, rk);
    OverlongZero(text);
    assert stacks[..0] == [];
    assert !Accepts(rules, Pos(0, 0), 0);
    assert Accept(rules, stacks, 0, rk) == [];
    assert MayEnd(rules, stacks[0], c.partial);
    assert [0] == [0] + [];
    if Rejected(rules, stacks, [c], rejects, rk) {
      assert multiset(rejects)[c] == 0;
      assert c in multiset(rejects) <==> c in rejects;
    }
  }

  lemma OneRuleRanked(rules: seq<Rule>, rk: Ranking)
    requires rules == [[Element(CHAR, 0x61), Element(END, 0)]] && rk == Ranking([false], [0], 3)
    ensures WellFormed(rules) && Ranked(rules, rk)
  {
    assert WellFormedRule(rules[0], 1);
    assert RankedAlternate(rules, rk, 0, 0);
  }

  lemma OverlongZero(text: seq<Byte>)
    requires text == [0xC0, 0x80]
    ensures Meaning(text, Partial(0, 0)) == Run([0], 0, 0)
  {
    assert Following(0xC0) == 1 && LeadBits(0xC0) == 0;
    assert Push(0, 0x80) == 0;
    assert text[1..] == [0x80] && text[1..][1..] == [];
    assert Scan([], 0, 0, false, false) == Run([], 0, 0);
    assert Scan(text[1..], 0, 1, false, false) == Run([0], 0, 0);
    assert Scan(text, 0, 0, true, false) == Run([0], 0, 0);
  }
}
