/**
 The engine that runs while tokens are sampled: it starts, steps over code points, and finds
 the tokens whose text the grammar cannot continue with.
 */
module GrammarEngine {
  import opened Grammar
  import opened GrammarLanguage
  import opened Utf8

  // Appends to `newStacks` the stacks that `stack` expands to.
  method AdvanceStack(rules: seq<Rule>, stack: Stack, newStacks: seq<Stack>, ghost rk: Ranking) returns (r: seq<Stack>)
    requires WellFormed(rules) && Ranked(rules, rk) && Proper(rules, stack)
    ensures r == newStacks + Advance(rules, stack, rk)
    decreases Measure(rules, rk, stack)
  {
    hide Measure, Ranked, Parseable, AdvanceAlternates;
    if stack == [] {
      return newStacks + [[]];
    }
    var pos := stack[|stack| - 1];
    if IsClass(At(rules, pos)) {
      return newStacks + [stack];
    }
    AfterRef(rules, pos);
    var rule := TopRule(rules, stack);
    var subpos := 0;
    r := newStacks;
    ghost var total := newStacks + Advance(rules, stack, rk);
    while true
      invariant IsAlternate(rule, subpos)
      invariant r + AdvanceAlternates(rules, stack, subpos, rk) == total
      decreases |rule| - subpos
    {
      ghost var from, before := subpos, r;
      AlternateParseable(rules, At(rules, pos).value, subpos);
      // the stack without its top, then what follows the reference, then the alternate
      var newStack := stack[..|stack| - 1];
      if !IsEnd(At(rules, Next(pos))) {
        newStack := newStack + [Next(pos)];
      }
      if !IsEnd(rule[subpos]) {
        newStack := newStack + [Pos(At(rules, pos).value, subpos)];
      }
      assert newStack == Replace(rules, stack, subpos);
      ReplaceLighter(rules, rk, stack, subpos);
      r := AdvanceStack(rules, newStack, r, rk);
      subpos := ScanAlternate(rules, rule, subpos);
      AlternatesUnfold(rules, stack, from, subpos, rk, before, r, total);
      if rule[subpos].kind == ALT {
        subpos := subpos + 1;
      } else {
        break;
      }
    }
  }

  // One turn of the loop over alternates.
  lemma AlternatesUnfold(rules: seq<Rule>, stack: Stack, a: nat, e: nat, rk: Ranking, before: seq<Stack>,
                         after: seq<Stack>, total: seq<Stack>)
    requires WellFormed(rules) && Ranked(rules, rk) && RefTop(rules, stack) && IsAlternate(TopRule(rules, stack), a)
    requires e == AltEnd(TopRule(rules, stack), |rules|, a)
    requires before + AdvanceAlternates(rules, stack, a, rk) == total
    requires after == before + Advance(rules, Replace(rules, stack, a), rk)
    ensures if TopRule(rules, stack)[e].kind == ALT then
              IsAlternate(TopRule(rules, stack), e + 1) && after + AdvanceAlternates(rules, stack, e + 1, rk) == total
            else after == total
  {
    hide Advance, Measure, Replace, AllSettled, Ranked;
  }

  lemma InitUnfold(rules: seq<Rule>, start: nat, a: nat, e: nat, rk: Ranking, before: seq<Stack>, after: seq<Stack>,
                   total: seq<Stack>)
    requires WellFormed(rules) && Ranked(rules, rk) && start < |rules| && IsAlternate(rules[start], a)
    requires Parseable(rules, Pos(start, a)) && WellFormedRule(rules[start], |rules|)
             && e == AltEnd(rules[start], |rules|, a)
    requires before + InitStacks(rules, start, a, rk) == total
    requires after == before + Advance(rules, PushUnlessEnd(rules, [], Pos(start, a)), rk)
    ensures if rules[start][e].kind == ALT then
              IsAlternate(rules[start], e + 1) && after + InitStacks(rules, start, e + 1, rk) == total
            else after == total
  {
    hide Advance, AllSettled, Ranked, PushUnlessEnd;
  }

  // Scans to the end of the alternate.
  method ScanAlternate(rules: seq<Rule>, rule: Rule, from: nat) returns (subpos: nat)
    requires WellFormedRule(rule, |rules|) && from < |rule|
    ensures subpos == AltEnd(rule, |rules|, from)
  {
    subpos := from;
    while !IsEnd(rule[subpos])
      invariant from <= subpos < |rule| && AltEnd(rule, |rules|, subpos) == AltEnd(rule, |rules|, from)
      decreases |rule| - subpos
    {
      subpos := subpos + 1;
    }
  }

  // Appends to `newStacks` what becomes of one stack when chr is read.
  method AcceptStack(rules: seq<Rule>, stack: Stack, chr: nat, newStacks: seq<Stack>, ghost rk: Ranking)
    returns (r: seq<Stack>)
    requires WellFormed(rules) && Ranked(rules, rk) && Settled(rules, stack)
    ensures r == newStacks + AcceptOne(rules, stack, chr, rk)
  {
    hide Ranked, Advance;
    r := newStacks;
    if stack != [] {
      var matched, pos := MatchChar(rules, stack[|stack| - 1], chr);
      if matched {
        var newStack := stack[..|stack| - 1];
        if !IsEnd(At(rules, pos)) {
          newStack := newStack + [pos];
        }
        r := AdvanceStack(rules, newStack, r, rk);
      }
    }
  }

  // The stacks after reading chr, in order.
  method AcceptChar(rules: seq<Rule>, stacks: seq<Stack>, chr: nat, ghost rk: Ranking) returns (newStacks: seq<Stack>)
    requires WellFormed(rules) && Ranked(rules, rk) && AllSettled(rules, stacks)
    ensures newStacks == Accept(rules, stacks, chr, rk)
  {
    hide Ranked, AcceptOne, Settled;
    newStacks := [];
    for i := 0 to |stacks|
      invariant AllSettled(rules, stacks[..i])
      invariant newStacks == Accept(rules, stacks[..i], chr, rk)
    {
      assert stacks[..i + 1][..i] == stacks[..i] && stacks[..i + 1][i] == stacks[i];
      newStacks := AcceptStack(rules, stacks[i], chr, newStacks, rk);
    }
    assert stacks[..|stacks|] == stacks;
  }

  // Appends the stacks for one alternate of the start rule and finds where it ends.
  method InitAlternate(rules: seq<Rule>, start: nat, pos: nat, stacks: seq<Stack>, ghost rk: Ranking,
                       ghost total: seq<Stack>)
    returns (r: seq<Stack>, e: nat)
    requires WellFormed(rules) && Ranked(rules, rk) && start < |rules| && IsAlternate(rules[start], pos)
    requires stacks + InitStacks(rules, start, pos, rk) == total
    ensures pos <= e < |rules[start]|
    ensures if rules[start][e].kind == ALT then
              IsAlternate(rules[start], e + 1) && r + InitStacks(rules, start, e + 1, rk) == total
            else r == total
  {
    hide Ranked, Advance, WellFormed, InitStacks;
    AlternateParseable(rules, start, pos);
    var stack := [];
    if !IsEnd(rules[start][pos]) {
      stack := stack + [Pos(start, pos)];
    }
    assert stack == PushUnlessEnd(rules, [], Pos(start, pos));
    r := AdvanceStack(rules, stack, stacks, rk);
    RuleWellFormed(rules, start);
    e := ScanAlternate(rules, rules[start], pos);
    InitUnfold(rules, start, pos, e, rk, stacks, r, total);
  }

  lemma RuleWellFormed(rules: seq<Rule>, v: nat)
    requires WellFormed(rules) && v < |rules|
    ensures WellFormedRule(rules[v], |rules|) && IsAlternate(rules[v], 0)
  {
    assert WellFormedRule(rules[v], |rules|);
  }

  // The stacks the engine starts with.
  method Init(rules: seq<Rule>, start: nat, ghost rk: Ranking) returns (stacks: seq<Stack>)
    requires WellFormed(rules) && Ranked(rules, rk) && start < |rules|
    ensures IsAlternate(rules[start], 0) && stacks == InitStacks(rules, start, 0, rk)
  {
    RuleWellFormed(rules, start);
    hide InitStacks, AllSettled, Ranked, WellFormed, IsAlternate;
    var pos, more := 0, true;
    stacks := [];
    ghost var total := InitStacks(rules, start, 0, rk);
    while more
      invariant more ==> IsAlternate(rules[start], pos) && stacks + InitStacks(rules, start, pos, rk) == total
      invariant !more ==> stacks == total
      decreases |rules[start]| - pos, more
    {
      stacks, pos := InitAlternate(rules, start, pos, stacks, rk, total);
      more := rules[start][pos].kind == ALT;
      if more {
        pos := pos + 1;
      }
    }
  }

  // The texts of special tokens start with "[_".
  predicate IsSpecial(text: seq<Byte>) { |text| >= 2 && text[0] == 0x5B && text[1] == 0x5F }

  // What a token leaves of the stacks, and of the bytes pending. Special tokens are skipped, and
  // so is every token once no stack is left.
  function AfterToken(rules: seq<Rule>, stacks: seq<Stack>, text: seq<Byte>, pending: Partial, ghost rk: Ranking)
    : (r: (seq<Stack>, Partial))
    requires WellFormed(rules) && Ranked(rules, rk) && AllSettled(rules, stacks)
    ensures AllSettled(rules, r.0)
  {
    if rules == [] || stacks == [] || IsSpecial(text) then (stacks, pending)
    else
      var d := Decode(text, pending);
      (AcceptAll(rules, stacks, d.cps, rk), d.partial)
  }

  // Advances the engine over the text of a token.
  method AcceptToken(rules: seq<Rule>, stacks: seq<Stack>, text: seq<Byte>, pending: Partial, ghost rk: Ranking)
    returns (newStacks: seq<Stack>, partial: Partial)
    requires WellFormed(rules) && Ranked(rules, rk) && AllSettled(rules, stacks)
    ensures (newStacks, partial) == AfterToken(rules, stacks, text, pending, rk)
  {
    hide Ranked;
    if rules == [] || stacks == [] || IsSpecial(text) {
      return stacks, pending;
    }
    var codePoints;
    codePoints, partial := DecodeUtf8(text, pending);
    newStacks := AcceptString(rules, stacks, codePoints[..|codePoints| - 1], rk);
  }

  method AcceptString(rules: seq<Rule>, stacks: seq<Stack>, w: seq<nat>, ghost rk: Ranking)
    returns (newStacks: seq<Stack>)
    requires WellFormed(rules) && Ranked(rules, rk) && AllSettled(rules, stacks)
    ensures newStacks == AcceptAll(rules, stacks, w, rk)
  {
    newStacks := stacks;
    for i := 0 to |w|
      invariant AllSettled(rules, newStacks)
      invariant AcceptAll(rules, newStacks, w[i..], rk) == AcceptAll(rules, stacks, w, rk)
    {
      assert w[i..][1..] == w[i + 1..];
      newStacks := AcceptChar(rules, newStacks, w[i], rk);
    }
  }
}
