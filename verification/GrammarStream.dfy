/**
 What the engine makes of a whole stream of tokens, whose texts may end inside a character.
 */
module GrammarStream {
  import opened Utf8
  import opened Grammar
  import opened GrammarLanguage
  import opened GrammarEngine

  // The texts of the tokens that are not special, joined.
  function Joined(texts: seq<seq<Byte>>): seq<Byte> {
    if texts == [] then []
    else (if IsSpecial(texts[0]) then [] else texts[0]) + Joined(texts[1..])
  }

  // Token after token is accepted, each with the bytes the one before it left pending.
  function AfterTokens(rules: seq<Rule>, stacks: seq<Stack>, texts: seq<seq<Byte>>, pending: Partial,
                       ghost rk: Ranking)
    : (r: (seq<Stack>, Partial))
    requires WellFormed(rules) && Ranked(rules, rk) && AllSettled(rules, stacks)
    ensures AllSettled(rules, r.0)
    decreases |texts|
  {
    if texts == [] then (stacks, pending)
    else
      var (newStacks, partial) := AfterToken(rules, stacks, texts[0], pending, rk);
      AfterTokens(rules, newStacks, texts[1..], partial, rk)
  }

  // However well-formed text is cut into tokens, the engine reads its code points; and while some
  // stack is left, the bytes of an incomplete character at its end are pending.
  lemma {:induction false} TokensRead(rules: seq<Rule>, stacks: seq<Stack>, texts: seq<seq<Byte>>, pending: Partial,
                                      cps: seq<nat>, left: Partial, rk: Ranking)
    requires WellFormed(rules) && Ranked(rules, rk) && AllSettled(rules, stacks) && rules != []
    requires Scan(Joined(texts), pending.value, pending.n, true, true) == Run(cps, left.value, left.n)
    ensures AfterTokens(rules, stacks, texts, pending, rk).0 == AcceptAll(rules, stacks, cps, rk)
    ensures AcceptAll(rules, stacks, cps, rk) != [] ==> AfterTokens(rules, stacks, texts, pending, rk).1 == left
    decreases |texts|
  {
    hide Scan, Ranked, AllSettled, AcceptAll, Decode;
    if texts == [] {
      NothingJoined(pending);
      NothingAccepted(rules, stacks, rk);
    } else if IsSpecial(texts[0]) {
      assert Joined(texts) == Joined(texts[1..]);
      TokensRead(rules, stacks, texts[1..], pending, cps, left, rk);
    } else {
      var first, rest := FirstToken(texts[0], Joined(texts[1..]), pending, cps, left);
      AcceptInParts(rules, stacks, first.cps, rest, rk);
      if stacks == [] {
        NoStacks(rules, first.cps, rk);
      }
      var after := AfterToken(rules, stacks, texts[0], pending, rk);
      if stacks == [] {
        OutOfStacks(rules, texts[1..], pending, rk);
        NoStacks(rules, rest, rk);
      } else {
        TokensRead(rules, after.0, texts[1..], after.1, rest, left, rk);
      }
    }
  }

  lemma NothingJoined(pending: Partial)
    ensures Scan(Joined([]), pending.value, pending.n, true, true) == Run([], pending.value, pending.n)
  {
  }

  lemma NothingAccepted(rules: seq<Rule>, stacks: seq<Stack>, rk: Ranking)
    requires WellFormed(rules) && Ranked(rules, rk) && AllSettled(rules, stacks)
    ensures AcceptAll(rules, stacks, [], rk) == stacks
  {
  }

  // The first piece of well-formed text is decoded as a part of the whole.
  lemma FirstToken(a: seq<Byte>, b: seq<Byte>, pending: Partial, cps: seq<nat>, left: Partial)
    returns (first: Reading, rest: seq<nat>)
    requires Scan(a + b, pending.value, pending.n, true, true) == Run(cps, left.value, left.n)
    ensures first == Decode(a, pending) && cps == first.cps + rest
    ensures Scan(b, first.partial.value, first.partial.n, true, true) == Run(rest, left.value, left.n)
  {
    first := Decode(a, pending);
    var inner := ScanAppend(a, b, pending.value, pending.n, true, true);
    StrictIsLoose(a, pending.value, pending.n, true);
    var r := Scan(b, first.partial.value, first.partial.n, true, true);
    rest := r.cps;
  }

  lemma {:induction false} OutOfStacks(rules: seq<Rule>, texts: seq<seq<Byte>>, pending: Partial, rk: Ranking)
    requires WellFormed(rules) && Ranked(rules, rk)
    ensures AfterTokens(rules, [], texts, pending, rk).0 == []
    decreases |texts|
  {
    if texts != [] {
      OutOfStacks(rules, texts[1..], pending, rk);
    }
  }

  // Whole characters: the engine reads exactly the code points, and nothing is pending.
  lemma TokensSpell(rules: seq<Rule>, stacks: seq<Stack>, texts: seq<seq<Byte>>, cps: seq<CodePoint>, rk: Ranking)
    requires WellFormed(rules) && Ranked(rules, rk) && AllSettled(rules, stacks) && rules != []
    requires Joined(texts) == EncodeAll(cps)
    ensures AfterTokens(rules, stacks, texts, Partial(0, 0), rk).0 == AcceptAll(rules, stacks, cps, rk)
    ensures AcceptAll(rules, stacks, cps, rk) != [] ==> AfterTokens(rules, stacks, texts, Partial(0, 0), rk).1.n == 0
  {
    hide Scan, Ranked, AllSettled, AcceptAll, AfterTokens;
    ScanEncodedAll(cps, 0);
    TokensRead(rules, stacks, texts, Partial(0, 0), cps, Partial(Last(cps, 0), 0), rk);
  }

  // So the engine decides the language of the start rule on tokens: it leaves an empty stack if
  // and only if the text they spell is a word, wherever the tokens cut it.
  lemma TokensDecideLanguage(rules: seq<Rule>, start: nat, texts: seq<seq<Byte>>, cps: seq<CodePoint>, rk: Ranking)
    requires WellFormed(rules) && Ranked(rules, rk) && start < |rules| && Joined(texts) == EncodeAll(cps)
    ensures IsAlternate(rules[start], 0)
    ensures [] in AfterTokens(rules, InitStacks(rules, start, 0, rk), texts, Partial(0, 0), rk).0
            <==> InLanguage(rules, start, cps)
  {
    hide Ranked, AcceptAll, AfterTokens, InitStacks, InLanguage;
    EngineDecidesLanguage(rules, start, rk, cps);
    TokensSpell(rules, InitStacks(rules, start, 0, rk), texts, cps, rk);
  }
}
