/**
 The language of a grammar, defined by parse trees, and the pushdown functions the engine
 computes with: expanding a stack down to terminals and stepping over one code point.
 */
module GrammarLanguage {
  import opened Arithmetic
  import opened Grammar

  /* ---- parses ---- */

  // A parse of the rest of an alternate: nothing left, a character, or a rule reference with
  // the alternate chosen for it.
  datatype Forest = Nil | Chr(c: nat, rest: Forest) | Ref(alt: nat, sub: Forest, rest: Forest)

  ghost predicate Parses(rules: seq<Rule>, p: Pos, f: Forest)
    requires WellFormed(rules)
    decreases f
  {
    Parseable(rules, p) &&
    match f
    case Nil => IsEnd(At(rules, p))
    case Chr(c, rest) => IsClass(At(rules, p)) && Accepts(rules, p, c) && Parses(rules, AfterClass(rules, p), rest)
    case Ref(a, sub, rest) =>
      At(rules, p).kind == RULE_REF && At(rules, p).value < |rules|
      && IsAlternate(rules[At(rules, p).value], a)
      && Parses(rules, Pos(At(rules, p).value, a), sub) && Parses(rules, Next(p), rest)
  }

  ghost function Yield(f: Forest): seq<nat> {
    match f
    case Nil => []
    case Chr(c, rest) => [c] + Yield(rest)
    case Ref(_, sub, rest) => Yield(sub) + Yield(rest)
  }

  // w is a word of rule v.
  ghost predicate InLanguage(rules: seq<Rule>, v: nat, w: seq<nat>)
    requires WellFormed(rules) && v < |rules|
  {
    exists a :: IsAlternate(rules[v], a) && AlternateDerives(rules, v, a, w)
  }

  ghost predicate AlternateDerives(rules: seq<Rule>, v: nat, a: nat, w: seq<nat>)
    requires WellFormed(rules)
  {
    exists f :: Parses(rules, Pos(v, a), f) && Yield(f) == w
  }

  /* ---- stacks ---- */

  // Every entry of a stack points at an item.
  predicate Proper(rules: seq<Rule>, stack: Stack) {
    forall i :: 0 <= i < |stack| ==> InRules(rules, stack[i]) && IsItem(At(rules, stack[i]))
  }

  // A stack the engine may stop at: empty, or a character class on top.
  predicate Settled(rules: seq<Rule>, stack: Stack) {
    Proper(rules, stack) && (stack != [] ==> IsClass(At(rules, stack[|stack| - 1])))
  }

  // One parse per entry.
  ghost predicate StackParses(rules: seq<Rule>, stack: Stack, fs: seq<Forest>)
    requires WellFormed(rules)
  {
    |fs| == |stack| && forall i :: 0 <= i < |stack| ==> Parses(rules, stack[i], fs[i])
  }

  // The top is read first.
  ghost function StackYield(fs: seq<Forest>): seq<nat> {
    if fs == [] then [] else Yield(fs[|fs| - 1]) + StackYield(fs[..|fs| - 1])
  }

  // w can be read from the stack.
  ghost predicate Reads(rules: seq<Rule>, stack: Stack, w: seq<nat>)
    requires WellFormed(rules)
  {
    exists fs :: StackParses(rules, stack, fs) && StackYield(fs) == w
  }

  ghost predicate SomeReads(rules: seq<Rule>, stacks: seq<Stack>, w: seq<nat>)
    requires WellFormed(rules)
  {
    exists i :: 0 <= i < |stacks| && Reads(rules, stacks[i], w)
  }

  // Pushes the position unless the alternate ends there.
  function PushUnlessEnd(rules: seq<Rule>, stack: Stack, p: Pos): (r: Stack)
    requires Parseable(rules, p)
    ensures Proper(rules, stack) ==> Proper(rules, r)
  {
    if IsEnd(At(rules, p)) then stack else stack + [p]
  }

  lemma {:induction false} EndYieldsNothing(rules: seq<Rule>, p: Pos, f: Forest)
    requires WellFormed(rules) && Parses(rules, p, f) && IsEnd(At(rules, p))
    ensures f == Nil
  {
  }

  // Reading a stack with a position pushed is reading the position, then the stack.
  lemma PushReads(rules: seq<Rule>, stack: Stack, p: Pos, f: Forest, fs: seq<Forest>) returns (gs: seq<Forest>)
    requires WellFormed(rules) && Parseable(rules, p) && Parses(rules, p, f) && StackParses(rules, stack, fs)
    ensures StackParses(rules, PushUnlessEnd(rules, stack, p), gs)
    ensures StackYield(gs) == Yield(f) + StackYield(fs)
  {
    if IsEnd(At(rules, p)) {
      EndYieldsNothing(rules, p, f);
      gs := fs;
    } else {
      gs := fs + [f];
      assert gs[..|gs| - 1] == fs;
    }
  }

  lemma UnpushReads(rules: seq<Rule>, stack: Stack, p: Pos, gs: seq<Forest>) returns (f: Forest, fs: seq<Forest>)
    requires WellFormed(rules) && Parseable(rules, p) && StackParses(rules, PushUnlessEnd(rules, stack, p), gs)
    ensures Parses(rules, p, f) && StackParses(rules, stack, fs)
    ensures StackYield(gs) == Yield(f) + StackYield(fs)
  {
    if IsEnd(At(rules, p)) {
      f, fs := Nil, gs;
    } else {
      f, fs := gs[|gs| - 1], gs[..|gs| - 1];
    }
  }

  /* ---- no left recursion ---- */

  // Evidence that no rule can reach itself without consuming: which rules may derive the
  // empty word, a rank that drops along every left-most reference (past nullable ones), and
  // a bound on the length of the rules.
  datatype Ranking = Ranking(nullable: seq<bool>, rank: seq<nat>, bound: nat)

  // From p to the end of its alternate there are only nullable references.
  predicate NullableFrom(rules: seq<Rule>, rk: Ranking, p: Pos)
    requires WellFormed(rules) && Parseable(rules, p) && |rk.nullable| == |rules|
    decreases |rules[p.rule]| - p.idx
  {
    if IsEnd(At(rules, p)) then true
    else if IsClass(At(rules, p)) then false
    else AfterRef(rules, p); rk.nullable[At(rules, p).value] && NullableFrom(rules, rk, Next(p))
  }

  // Every reference that can be reached from p without consuming has a rank below k.
  predicate RefsBelow(rules: seq<Rule>, rk: Ranking, p: Pos, k: nat)
    requires WellFormed(rules) && Parseable(rules, p) && |rk.nullable| == |rk.rank| == |rules|
    decreases |rules[p.rule]| - p.idx
  {
    if !IsItem(At(rules, p)) || IsClass(At(rules, p)) then true
    else
      AfterRef(rules, p);
      var v := At(rules, p).value;
      rk.rank[v] < k && (rk.nullable[v] ==> RefsBelow(rules, rk, Next(p), k))
  }

  predicate RankedAlternate(rules: seq<Rule>, rk: Ranking, v: nat, a: nat)
    requires WellFormed(rules) && v < |rules| && |rk.nullable| == |rk.rank| == |rules| && IsAlternate(rules[v], a)
  {
    AlternateParseable(rules, v, a);
    && (NullableFrom(rules, rk, Pos(v, a)) ==> rk.nullable[v])
    && RefsBelow(rules, rk, Pos(v, a), rk.rank[v])
  }

  predicate Ranked(rules: seq<Rule>, rk: Ranking)
    requires WellFormed(rules)
  {
    && |rk.nullable| == |rk.rank| == |rules|
    && (forall v :: 0 <= v < |rules| ==> |rules[v]| < rk.bound)
    && forall v, a {:trigger RankedAlternate(rules, rk, v, a)} ::
         0 <= v < |rules| && 0 <= a < |rules[v]| && IsAlternate(rules[v], a) ==> RankedAlternate(rules, rk, v, a)
  }

  function Power(b: nat, k: nat): nat {
    if k == 0 then 1 else b * Power(b, k - 1)
  }

  lemma {:induction false} PowerMonotone(b: nat, j: nat, k: nat)
    requires b >= 1 && j <= k
    ensures 1 <= Power(b, j) <= Power(b, k)
    decreases k
  {
    if j < k {
      PowerMonotone(b, j, k - 1);
      assert b * Power(b, k - 1) >= Power(b, k - 1);
    } else if k > 0 {
      PowerMonotone(b, k - 1, k - 1);
      assert b * Power(b, k - 1) >= 1;
    }
  }

  // Bounds the expansions of what is left of one alternate.
  function Weight(rules: seq<Rule>, rk: Ranking, p: Pos): nat
    requires WellFormed(rules) && Parseable(rules, p) && |rk.nullable| == |rk.rank| == |rules|
    decreases |rules[p.rule]| - p.idx
  {
    if !IsItem(At(rules, p)) || IsClass(At(rules, p)) then 0
    else
      AfterRef(rules, p);
      var v := At(rules, p).value;
      Power(rk.bound, rk.rank[v]) + if rk.nullable[v] then Weight(rules, rk, Next(p)) else 0
  }

  // Bounds the expansions of a whole stack: an entry matters only if all above it can vanish.
  function Measure(rules: seq<Rule>, rk: Ranking, stack: Stack): nat
    requires WellFormed(rules) && Ranked(rules, rk) && Proper(rules, stack)
  {
    if stack == [] then 0
    else
      var top, rest := stack[|stack| - 1], stack[..|stack| - 1];
      Weight(rules, rk, top) + if NullableFrom(rules, rk, top) then Measure(rules, rk, rest) else 0
  }

  lemma {:induction false} WeightBelow(rules: seq<Rule>, rk: Ranking, p: Pos, k: nat)
    requires WellFormed(rules) && Parseable(rules, p) && |rk.nullable| == |rk.rank| == |rules| && rk.bound >= 1
    requires RefsBelow(rules, rk, p, k)
    ensures k == 0 ==> Weight(rules, rk, p) == 0
    ensures k > 0 ==> Weight(rules, rk, p) <= (|rules[p.rule]| - p.idx) * Power(rk.bound, k - 1)
    decreases |rules[p.rule]| - p.idx
  {
    var len := |rules[p.rule]| - p.idx;
    assert WellFormedRule(rules[p.rule], |rules|);
    if k > 0 {
      PowerMonotone(rk.bound, k - 1, k - 1);
      var b := Power(rk.bound, k - 1);
      assert len * b == (len - 1) * b + b;
      assert (len - 1) * b >= 0;
      if At(rules, p).kind == RULE_REF {
        AfterRef(rules, p);
        var v := At(rules, p).value;
        PowerMonotone(rk.bound, rk.rank[v], k - 1);
        if rk.nullable[v] {
          WeightBelow(rules, rk, Next(p), k);
        }
      }
    }
  }

  // An alternate weighs less than a reference to its rule.
  lemma AlternateLighter(rules: seq<Rule>, rk: Ranking, v: nat, a: nat)
    requires WellFormed(rules) && Ranked(rules, rk) && v < |rules| && IsAlternate(rules[v], a)
    ensures Parseable(rules, Pos(v, a)) && Weight(rules, rk, Pos(v, a)) < Power(rk.bound, rk.rank[v])
  {
    AlternateParseable(rules, v, a);
    assert RankedAlternate(rules, rk, v, a);
    var k := rk.rank[v];
    WeightBelow(rules, rk, Pos(v, a), k);
    if k > 0 {
      PowerMonotone(rk.bound, k - 1, k - 1);
      ProductLess(|rules[v]| - a, rk.bound, Power(rk.bound, k - 1));
    }
  }

  lemma PushMeasure(rules: seq<Rule>, rk: Ranking, stack: Stack, p: Pos)
    requires WellFormed(rules) && Ranked(rules, rk) && Proper(rules, stack) && Parseable(rules, p)
    ensures Measure(rules, rk, PushUnlessEnd(rules, stack, p)) ==
              Weight(rules, rk, p) + if NullableFrom(rules, rk, p) then Measure(rules, rk, stack) else 0
  {
    if !IsEnd(At(rules, p)) {
      assert (stack + [p])[..|stack|] == stack;
    }
  }

  /* ---- expanding a stack ---- */

  // The stack with the reference on top replaced by the alternate a of its rule.
  function Replace(rules: seq<Rule>, stack: Stack, a: nat): (r: Stack)
    requires WellFormed(rules) && Proper(rules, stack) && stack != []
    requires At(rules, stack[|stack| - 1]).kind == RULE_REF
    requires At(rules, stack[|stack| - 1]).value < |rules| && IsAlternate(rules[At(rules, stack[|stack| - 1]).value], a)
    ensures Proper(rules, r)
  {
    var top, rest := stack[|stack| - 1], stack[..|stack| - 1];
    AfterRef(rules, top);
    AlternateParseable(rules, At(rules, top).value, a);
    PushUnlessEnd(rules, PushUnlessEnd(rules, rest, Next(top)), Pos(At(rules, top).value, a))
  }

  lemma ReplaceLighter(rules: seq<Rule>, rk: Ranking, stack: Stack, a: nat)
    requires WellFormed(rules) && Ranked(rules, rk) && Proper(rules, stack) && stack != []
    requires At(rules, stack[|stack| - 1]).kind == RULE_REF
    requires At(rules, stack[|stack| - 1]).value < |rules| && IsAlternate(rules[At(rules, stack[|stack| - 1]).value], a)
    ensures Measure(rules, rk, Replace(rules, stack, a)) < Measure(rules, rk, stack)
  {
    var top, rest := stack[|stack| - 1], stack[..|stack| - 1];
    var v := At(rules, top).value;
    AfterRef(rules, top);
    AlternateParseable(rules, v, a);
    PushMeasure(rules, rk, rest, Next(top));
    PushMeasure(rules, rk, PushUnlessEnd(rules, rest, Next(top)), Pos(v, a));
    AlternateLighter(rules, rk, v, a);
    assert RankedAlternate(rules, rk, v, a);
  }

  // The end of the alternate that contains position i of a rule.
  function AltEnd(r: Rule, nRules: nat, i: nat): (e: nat)
    requires WellFormedRule(r, nRules) && i < |r|
    ensures i <= e < |r| && IsEnd(r[e]) && (forall k :: i <= k < e ==> !IsEnd(r[k]))
    decreases |r| - i
  {
    if IsEnd(r[i]) then i else AltEnd(r, nRules, i + 1)
  }

  // Where the alternate after the one starting at a starts, or |r| if there is none.
  function NextAlternate(r: Rule, nRules: nat, a: nat): (n: nat)
    requires WellFormedRule(r, nRules) && a < |r|
    ensures a < n <= |r| && (n < |r| ==> IsAlternate(r, n))
  {
    var e := AltEnd(r, nRules, a);
    if r[e].kind == ALT then e + 1 else |r|
  }

  predicate RefTop(rules: seq<Rule>, stack: Stack) {
    stack != [] && Proper(rules, stack) && At(rules, stack[|stack| - 1]).kind == RULE_REF
    && At(rules, stack[|stack| - 1]).value < |rules|
  }

  function TopRule(rules: seq<Rule>, stack: Stack): (r: Rule)
    requires WellFormed(rules) && RefTop(rules, stack)
    ensures WellFormedRule(r, |rules|)
  {
    rules[At(rules, stack[|stack| - 1]).value]
  }

  predicate AllSettled(rules: seq<Rule>, stacks: seq<Stack>) {
    forall i :: 0 <= i < |stacks| ==> Settled(rules, stacks[i])
  }

  // All stacks the stack can expand to.
  function Advance(rules: seq<Rule>, stack: Stack, ghost rk: Ranking): (r: seq<Stack>)
    requires WellFormed(rules) && Ranked(rules, rk) && Proper(rules, stack)
    ensures AllSettled(rules, r) && |r| > 0
    decreases Measure(rules, rk, stack), 1, 0
  {
    if stack == [] then [[]]
    else if IsClass(At(rules, stack[|stack| - 1])) then [stack]
    else
      AfterRef(rules, stack[|stack| - 1]);
      AdvanceAlternates(rules, stack, 0, rk)
  }

  // Those of the alternates from a on.
  function AdvanceAlternates(rules: seq<Rule>, stack: Stack, a: nat, ghost rk: Ranking): (r: seq<Stack>)
    requires WellFormed(rules) && Ranked(rules, rk) && RefTop(rules, stack)
    requires IsAlternate(TopRule(rules, stack), a)
    ensures AllSettled(rules, r) && |r| > 0
    decreases Measure(rules, rk, stack), 0, |TopRule(rules, stack)| - a
  {
    ReplaceLighter(rules, rk, stack, a);
    var r := TopRule(rules, stack);
    var n := NextAlternate(r, |rules|, a);
    Advance(rules, Replace(rules, stack, a), rk) + if n < |r| then AdvanceAlternates(rules, stack, n, rk) else []
  }

  /* ---- expansion preserves the language ---- */

  // The expansions of the alternate at a, and of those after it.
  lemma AlternatesSplit(rules: seq<Rule>, stack: Stack, a: nat, rk: Ranking)
    requires WellFormed(rules) && Ranked(rules, rk) && RefTop(rules, stack) && IsAlternate(TopRule(rules, stack), a)
    ensures var r := TopRule(rules, stack);
            var n := NextAlternate(r, |rules|, a);
            AdvanceAlternates(rules, stack, a, rk)
            == Advance(rules, Replace(rules, stack, a), rk)
               + if n < |r| then AdvanceAlternates(rules, stack, n, rk) else []
  {
    hide Measure, Replace, Ranked, Proper, Advance, WellFormed, Settled, NextAlternate;
  }

  // No alternate starts between one and the next.
  lemma NextIsNext(r: Rule, nRules: nat, from: nat, a: nat)
    requires WellFormedRule(r, nRules) && from < a && IsAlternate(r, a)
    ensures NextAlternate(r, nRules, from) <= a
  {
    assert r[a - 1].kind == ALT;
    assert AltEnd(r, nRules, from) < a;
  }

  // Alternates from a on include every later one.
  lemma {:induction false} AlternateCovered(rules: seq<Rule>, stack: Stack, from: nat, a: nat, rk: Ranking, k: nat)
    returns (i: nat)
    requires WellFormed(rules) && Ranked(rules, rk) && RefTop(rules, stack)
    requires IsAlternate(TopRule(rules, stack), from) && IsAlternate(TopRule(rules, stack), a) && from <= a
    requires k < |Advance(rules, Replace(rules, stack, a), rk)|
    ensures i < |AdvanceAlternates(rules, stack, from, rk)|
    ensures AdvanceAlternates(rules, stack, from, rk)[i] == Advance(rules, Replace(rules, stack, a), rk)[k]
    decreases a - from
  {
    hide Measure, Replace, Ranked, Advance, WellFormed, Settled, AllSettled, AdvanceAlternates, NextAlternate;
    AlternatesSplit(rules, stack, from, rk);
    if from == a {
      i := k;
    } else {
      NextIsNext(TopRule(rules, stack), |rules|, from, a);
      var n := NextAlternate(TopRule(rules, stack), |rules|, from);
      i := AlternateCovered(rules, stack, n, a, rk, k);
      i := i + |Advance(rules, Replace(rules, stack, from), rk)|;
    }
  }

  // Each of the stacks comes from one alternate.
  lemma {:induction false} AlternateOf(rules: seq<Rule>, stack: Stack, from: nat, rk: Ranking, i: nat)
    returns (a: nat, k: nat)
    requires WellFormed(rules) && Ranked(rules, rk) && RefTop(rules, stack) && IsAlternate(TopRule(rules, stack), from)
    requires i < |AdvanceAlternates(rules, stack, from, rk)|
    ensures IsAlternate(TopRule(rules, stack), a) && k < |Advance(rules, Replace(rules, stack, a), rk)|
    ensures AdvanceAlternates(rules, stack, from, rk)[i] == Advance(rules, Replace(rules, stack, a), rk)[k]
    decreases |TopRule(rules, stack)| - from
  {
    hide Measure, Replace, Ranked, Advance, WellFormed, Settled, AllSettled, AdvanceAlternates, NextAlternate;
    AlternatesSplit(rules, stack, from, rk);
    var first := Advance(rules, Replace(rules, stack, from), rk);
    if i < |first| {
      a, k := from, i;
    } else {
      var n := NextAlternate(TopRule(rules, stack), |rules|, from);
      a, k := AlternateOf(rules, stack, n, rk, i - |first|);
    }
  }

  // A parse of the stack chooses an alternate for the reference on top.
  lemma ReplaceParse(rules: seq<Rule>, stack: Stack, fs: seq<Forest>) returns (a: nat, gs: seq<Forest>)
    requires WellFormed(rules) && RefTop(rules, stack) && StackParses(rules, stack, fs)
    ensures IsAlternate(TopRule(rules, stack), a) && StackParses(rules, Replace(rules, stack, a), gs)
    ensures StackYield(gs) == StackYield(fs)
  {
    var m := |stack| - 1;
    var top, rest := stack[m], stack[..m];
    assert Parses(rules, top, fs[m]);
    var f := fs[m];
    a := f.alt;
    AfterRef(rules, top);
    AlternateParseable(rules, At(rules, top).value, a);
    gs := PushReads(rules, rest, Next(top), f.rest, fs[..m]);
    gs := PushReads(rules, PushUnlessEnd(rules, rest, Next(top)), Pos(At(rules, top).value, a), f.sub, gs);
    assert Yield(f.sub) + (Yield(f.rest) + StackYield(fs[..m])) == Yield(f) + StackYield(fs[..m]);
  }

  lemma RefYield(a: nat, sub: Forest, rest: Forest, w: seq<nat>)
    ensures Yield(Ref(a, sub, rest)) + w == Yield(sub) + (Yield(rest) + w)
  {
  }

  // A parse of the replaced stack is one of the stack.
  lemma UnreplaceParse(rules: seq<Rule>, stack: Stack, a: nat, gs: seq<Forest>) returns (fs: seq<Forest>)
    requires WellFormed(rules) && RefTop(rules, stack) && IsAlternate(TopRule(rules, stack), a)
    requires StackParses(rules, Replace(rules, stack, a), gs)
    ensures StackParses(rules, stack, fs) && StackYield(fs) == StackYield(gs)
  {
    hide WellFormed, PushUnlessEnd, Yield;
    var m := |stack| - 1;
    var top, rest := stack[m], stack[..m];
    AfterRef(rules, top);
    AlternateParseable(rules, At(rules, top).value, a);
    var sub, hs := UnpushReads(rules, PushUnlessEnd(rules, rest, Next(top)), Pos(At(rules, top).value, a), gs);
    var after, es := UnpushReads(rules, rest, Next(top), hs);
    var f := Ref(a, sub, after);
    assert Parses(rules, top, f);
    fs := es + [f];
    assert fs[..m] == es;
    RefYield(a, sub, after, StackYield(es));
  }

  // Every word read from the stack is read from one of its expansions.
  lemma {:induction false} AdvanceComplete(rules: seq<Rule>, stack: Stack, rk: Ranking, fs: seq<Forest>)
    returns (i: nat, gs: seq<Forest>)
    requires WellFormed(rules) && Ranked(rules, rk) && Proper(rules, stack) && StackParses(rules, stack, fs)
    ensures i < |Advance(rules, stack, rk)| && StackParses(rules, Advance(rules, stack, rk)[i], gs)
    ensures StackYield(gs) == StackYield(fs)
    decreases Measure(rules, rk, stack)
  {
    if stack == [] || IsClass(At(rules, stack[|stack| - 1])) {
      i, gs := 0, fs;
    } else {
      AfterRef(rules, stack[|stack| - 1]);
      var a, hs := ReplaceParse(rules, stack, fs);
      ReplaceLighter(rules, rk, stack, a);
      var k;
      k, gs := AdvanceComplete(rules, Replace(rules, stack, a), rk, hs);
      i := AlternateCovered(rules, stack, 0, a, rk, k);
    }
  }

  // And no others are.
  lemma {:induction false} AdvanceSound(rules: seq<Rule>, stack: Stack, rk: Ranking, i: nat, gs: seq<Forest>)
    returns (fs: seq<Forest>)
    requires WellFormed(rules) && Ranked(rules, rk) && Proper(rules, stack)
    requires i < |Advance(rules, stack, rk)| && StackParses(rules, Advance(rules, stack, rk)[i], gs)
    ensures StackParses(rules, stack, fs) && StackYield(fs) == StackYield(gs)
    decreases Measure(rules, rk, stack)
  {
    if stack == [] || IsClass(At(rules, stack[|stack| - 1])) {
      fs := gs;
    } else {
      AfterRef(rules, stack[|stack| - 1]);
      var a, k := AlternateOf(rules, stack, 0, rk, i);
      ReplaceLighter(rules, rk, stack, a);
      var hs := AdvanceSound(rules, Replace(rules, stack, a), rk, k, gs);
      fs := UnreplaceParse(rules, stack, a, hs);
    }
  }

  // Expanding a stack preserves what can be read from it.
  lemma AdvanceReads(rules: seq<Rule>, stack: Stack, rk: Ranking, w: seq<nat>)
    requires WellFormed(rules) && Ranked(rules, rk) && Proper(rules, stack)
    ensures SomeReads(rules, Advance(rules, stack, rk), w) <==> Reads(rules, stack, w)
  {
    if Reads(rules, stack, w) {
      var fs: seq<Forest> :| StackParses(rules, stack, fs) && StackYield(fs) == w;
      var i, gs := AdvanceComplete(rules, stack, rk, fs);
      assert Reads(rules, Advance(rules, stack, rk)[i], w);
    }
    if SomeReads(rules, Advance(rules, stack, rk), w) {
      var i :| 0 <= i < |Advance(rules, stack, rk)| && Reads(rules, Advance(rules, stack, rk)[i], w);
      var gs: seq<Forest> :| StackParses(rules, Advance(rules, stack, rk)[i], gs) && StackYield(gs) == w;
      var fs := AdvanceSound(rules, stack, rk, i, gs);
    }
  }

  /* ---- one code point ---- */

  // The stack once the class on top has been read.
  function PopClass(rules: seq<Rule>, stack: Stack): (r: Stack)
    requires WellFormed(rules) && Settled(rules, stack) && stack != []
    ensures Proper(rules, r)
  {
    PushUnlessEnd(rules, stack[..|stack| - 1], AfterClass(rules, stack[|stack| - 1]))
  }

  // The stacks after reading chr.
  function AcceptOne(rules: seq<Rule>, stack: Stack, chr: nat, ghost rk: Ranking): (r: seq<Stack>)
    requires WellFormed(rules) && Ranked(rules, rk) && Settled(rules, stack)
    ensures AllSettled(rules, r)
  {
    if stack == [] || !Accepts(rules, stack[|stack| - 1], chr) then []
    else Advance(rules, PopClass(rules, stack), rk)
  }

  function Accept(rules: seq<Rule>, stacks: seq<Stack>, chr: nat, ghost rk: Ranking): (r: seq<Stack>)
    requires WellFormed(rules) && Ranked(rules, rk) && AllSettled(rules, stacks)
    ensures AllSettled(rules, r)
  {
    if stacks == [] then []
    else
      Accept(rules, stacks[..|stacks| - 1], chr, rk) + AcceptOne(rules, stacks[|stacks| - 1], chr, rk)
  }

  // A word read from a stack with a class on top starts with a character the class accepts.
  lemma PopParse(rules: seq<Rule>, stack: Stack, fs: seq<Forest>) returns (gs: seq<Forest>, c: nat)
    requires WellFormed(rules) && Settled(rules, stack) && stack != [] && StackParses(rules, stack, fs)
    ensures Accepts(rules, stack[|stack| - 1], c) && StackParses(rules, PopClass(rules, stack), gs)
    ensures StackYield(fs) == [c] + StackYield(gs)
  {
    hide Accepts, WellFormed, PushUnlessEnd, Yield;
    var m := |stack| - 1;
    var f := fs[m];
    assert Parses(rules, stack[m], f);
    c := f.c;
    gs := PushReads(rules, stack[..m], AfterClass(rules, stack[m]), f.rest, fs[..m]);
    ChrYield(c, f.rest, StackYield(fs[..m]));
  }

  lemma ChrYield(c: nat, rest: Forest, w: seq<nat>)
    ensures Yield(Chr(c, rest)) + w == [c] + (Yield(rest) + w)
  {
  }

  lemma UnpopParse(rules: seq<Rule>, stack: Stack, gs: seq<Forest>, c: nat) returns (fs: seq<Forest>)
    requires WellFormed(rules) && Settled(rules, stack) && stack != [] && StackParses(rules, PopClass(rules, stack), gs)
    requires Accepts(rules, stack[|stack| - 1], c)
    ensures StackParses(rules, stack, fs) && StackYield(fs) == [c] + StackYield(gs)
  {
    hide Accepts, WellFormed, PushUnlessEnd, Yield;
    var m := |stack| - 1;
    var f, es := UnpushReads(rules, stack[..m], AfterClass(rules, stack[m]), gs);
    assert Parses(rules, stack[m], Chr(c, f));
    fs := es + [Chr(c, f)];
    assert fs[..m] == es;
    ChrYield(c, f, StackYield(es));
  }

  // After popping a class, a stack reads w exactly if it read some accepted character and w.
  lemma PopReads(rules: seq<Rule>, stack: Stack, chr: nat, w: seq<nat>)
    requires WellFormed(rules) && Settled(rules, stack) && stack != []
    ensures Reads(rules, stack, [chr] + w) <==>
              Accepts(rules, stack[|stack| - 1], chr) && Reads(rules, PopClass(rules, stack), w)
  {
    hide Accepts, StackParses, StackYield, PopClass;
    if Reads(rules, stack, [chr] + w) {
      var fs: seq<Forest> :| StackParses(rules, stack, fs) && StackYield(fs) == [chr] + w;
      var gs, c := PopParse(rules, stack, fs);
      assert ([c] + StackYield(gs))[0] == chr && ([c] + StackYield(gs))[1..] == w;
    }
    if Accepts(rules, stack[|stack| - 1], chr) && Reads(rules, PopClass(rules, stack), w) {
      var gs: seq<Forest> :| StackParses(rules, PopClass(rules, stack), gs) && StackYield(gs) == w;
      var fs := UnpopParse(rules, stack, gs, chr);
    }
  }

  lemma EmptyStackReads(rules: seq<Rule>, w: seq<nat>)
    requires WellFormed(rules)
    ensures Reads(rules, [], w) <==> w == []
  {
    if w == [] {
      assert StackParses(rules, [], []) && StackYield([]) == w;
    }
  }

  // A settled stack that can stop here is the empty one.
  lemma SettledStops(rules: seq<Rule>, stack: Stack)
    requires WellFormed(rules) && Settled(rules, stack)
    ensures Reads(rules, stack, []) <==> stack == []
  {
    EmptyStackReads(rules, []);
    if stack != [] {
      forall fs | StackParses(rules, stack, fs) ensures StackYield(fs) != [] {
        var gs, c := PopParse(rules, stack, fs);
      }
    }
  }

  lemma AcceptOneReads(rules: seq<Rule>, stack: Stack, chr: nat, rk: Ranking, w: seq<nat>)
    requires WellFormed(rules) && Ranked(rules, rk) && Settled(rules, stack)
    ensures SomeReads(rules, AcceptOne(rules, stack, chr, rk), w) <==> Reads(rules, stack, [chr] + w)
  {
    if stack == [] {
      EmptyStackReads(rules, [chr] + w);
    } else {
      PopReads(rules, stack, chr, w);
      AdvanceReads(rules, PopClass(rules, stack), rk, w);
    }
  }

  lemma SomeReadsAppend(rules: seq<Rule>, a: seq<Stack>, b: seq<Stack>, w: seq<nat>)
    requires WellFormed(rules)
    ensures SomeReads(rules, a + b, w) <==> SomeReads(rules, a, w) || SomeReads(rules, b, w)
  {
    hide Reads;
    if SomeReads(rules, a, w) {
      var i :| 0 <= i < |a| && Reads(rules, a[i], w);
      assert (a + b)[i] == a[i];
    }
    if SomeReads(rules, b, w) {
      var i :| 0 <= i < |b| && Reads(rules, b[i], w);
      assert (a + b)[|a| + i] == b[i];
    }
  }

  // Stepping over a code point is the derivative of the language of the stacks.
  lemma {:induction false} AcceptIsDerivative(rules: seq<Rule>, stacks: seq<Stack>, chr: nat, rk: Ranking, w: seq<nat>)
    requires WellFormed(rules) && Ranked(rules, rk) && AllSettled(rules, stacks)
    ensures SomeReads(rules, Accept(rules, stacks, chr, rk), w) <==> SomeReads(rules, stacks, [chr] + w)
  {
    if stacks != [] {
      var m := |stacks| - 1;
      AcceptIsDerivative(rules, stacks[..m], chr, rk, w);
      AcceptOneReads(rules, stacks[m], chr, rk, w);
      SomeReadsAppend(rules, Accept(rules, stacks[..m], chr, rk), AcceptOne(rules, stacks[m], chr, rk), w);
      SomeReadsAppend(rules, stacks[..m], [stacks[m]], [chr] + w);
      SomeReadsOne(rules, stacks[m], [chr] + w);
      assert stacks[..m] + [stacks[m]] == stacks;
    }
  }

  lemma SomeReadsOne(rules: seq<Rule>, stack: Stack, w: seq<nat>)
    requires WellFormed(rules)
    ensures SomeReads(rules, [stack], w) <==> Reads(rules, stack, w)
  {
    hide Reads;
    if Reads(rules, stack, w) {
      assert [stack][0] == stack;
    }
  }

  /* ---- whole words ---- */

  function AcceptAll(rules: seq<Rule>, stacks: seq<Stack>, w: seq<nat>, ghost rk: Ranking): (r: seq<Stack>)
    requires WellFormed(rules) && Ranked(rules, rk) && AllSettled(rules, stacks)
    ensures AllSettled(rules, r)
    decreases |w|
  {
    if w == [] then stacks else AcceptAll(rules, Accept(rules, stacks, w[0], rk), w[1..], rk)
  }

  lemma {:induction false} AcceptAllReads(rules: seq<Rule>, stacks: seq<Stack>, w: seq<nat>, rk: Ranking, u: seq<nat>)
    requires WellFormed(rules) && Ranked(rules, rk) && AllSettled(rules, stacks)
    ensures SomeReads(rules, AcceptAll(rules, stacks, w, rk), u) <==> SomeReads(rules, stacks, w + u)
    decreases |w|
  {
    if w == [] {
      assert [] + u == u;
    } else {
      AcceptAllReads(rules, Accept(rules, stacks, w[0], rk), w[1..], rk, u);
      AcceptIsDerivative(rules, stacks, w[0], rk, w[1..] + u);
      assert [w[0]] + (w[1..] + u) == w + u;
    }
  }

  // The stacks for the alternates of the start rule from a on.
  function InitStacks(rules: seq<Rule>, start: nat, a: nat, ghost rk: Ranking): (r: seq<Stack>)
    requires WellFormed(rules) && Ranked(rules, rk) && start < |rules| && IsAlternate(rules[start], a)
    ensures AllSettled(rules, r) && |r| > 0
    decreases |rules[start]| - a
  {
    AlternateParseable(rules, start, a);
    var r := rules[start];
    assert WellFormedRule(r, |rules|);
    var n := NextAlternate(r, |rules|, a);
    Advance(rules, PushUnlessEnd(rules, [], Pos(start, a)), rk)
        + if n < |r| then InitStacks(rules, start, n, rk) else []
  }

  // w is a word of one of the alternates of the rule from a on.
  ghost predicate InAlternates(rules: seq<Rule>, v: nat, from: nat, w: seq<nat>)
    requires WellFormed(rules) && v < |rules|
  {
    exists a :: from <= a && IsAlternate(rules[v], a) && AlternateDerives(rules, v, a, w)
  }

  lemma OneAlternateReads(rules: seq<Rule>, v: nat, a: nat, w: seq<nat>)
    requires WellFormed(rules) && v < |rules| && IsAlternate(rules[v], a)
    ensures Parseable(rules, Pos(v, a))
    ensures Reads(rules, PushUnlessEnd(rules, [], Pos(v, a)), w) <==> AlternateDerives(rules, v, a, w)
  {
    AlternateParseable(rules, v, a);
    var stack := PushUnlessEnd(rules, [], Pos(v, a));
    if Reads(rules, stack, w) {
      var gs: seq<Forest> :| StackParses(rules, stack, gs) && StackYield(gs) == w;
      var f, fs := UnpushReads(rules, [], Pos(v, a), gs);
      assert Parses(rules, Pos(v, a), f) && Yield(f) == w;
    }
    if AlternateDerives(rules, v, a, w) {
      var f :| Parses(rules, Pos(v, a), f) && Yield(f) == w;
      var gs := PushReads(rules, [], Pos(v, a), f, []);
      assert StackYield(gs) == w;
    }
  }

  lemma {:induction false} InitReads(rules: seq<Rule>, v: nat, from: nat, rk: Ranking, w: seq<nat>)
    requires WellFormed(rules) && Ranked(rules, rk) && v < |rules| && IsAlternate(rules[v], from)
    ensures SomeReads(rules, InitStacks(rules, v, from, rk), w) <==> InAlternates(rules, v, from, w)
    decreases |rules[v]| - from
  {
    hide Reads, AlternateDerives, Advance;
    var r := rules[v];
    assert WellFormedRule(r, |rules|);
    AlternateParseable(rules, v, from);
    var n, e := NextAlternate(r, |rules|, from), AltEnd(r, |rules|, from);
    var stack := PushUnlessEnd(rules, [], Pos(v, from));
    var rest := if n < |r| then InitStacks(rules, v, n, rk) else [];
    OneAlternateReads(rules, v, from, w);
    AdvanceReads(rules, stack, rk, w);
    forall a | from < a && IsAlternate(r, a) ensures n < |r| && n <= a {
      assert r[a - 1].kind == ALT;
      assert e < a;
    }
    SomeReadsAppend(rules, Advance(rules, stack, rk), rest, w);
    if n < |r| {
      InitReads(rules, v, n, rk, w);
    }
    assert InitStacks(rules, v, from, rk) == Advance(rules, stack, rk) + rest;
    if InAlternates(rules, v, from, w) {
      var a :| from <= a && IsAlternate(r, a) && AlternateDerives(rules, v, a, w);
    }
  }

  // After the engine starts and reads any string of code points, one of its stacks is empty
  // exactly when the string is a word of the start rule.
  lemma EngineDecidesLanguage(rules: seq<Rule>, start: nat, rk: Ranking, w: seq<nat>)
    requires WellFormed(rules) && Ranked(rules, rk) && start < |rules|
    ensures IsAlternate(rules[start], 0)
    ensures (exists i :: 0 <= i < |AcceptAll(rules, InitStacks(rules, start, 0, rk), w, rk)|
                         && AcceptAll(rules, InitStacks(rules, start, 0, rk), w, rk)[i] == [])
            <==> InLanguage(rules, start, w)
  {
    assert WellFormedRule(rules[start], |rules|);
    var stacks := AcceptAll(rules, InitStacks(rules, start, 0, rk), w, rk);
    AcceptAllReads(rules, InitStacks(rules, start, 0, rk), w, rk, []);
    assert w + [] == w;
    InitReads(rules, start, 0, rk, w);
    assert InAlternates(rules, start, 0, w) <==> InLanguage(rules, start, w);
    forall i | 0 <= i < |stacks| ensures Reads(rules, stacks[i], []) <==> stacks[i] == [] {
      SettledStops(rules, stacks[i]);
    }
  }

  lemma {:induction false} NoStacks(rules: seq<Rule>, w: seq<nat>, rk: Ranking)
    requires WellFormed(rules) && Ranked(rules, rk)
    ensures AcceptAll(rules, [], w, rk) == []
    decreases |w|
  {
    if w != [] {
      NoStacks(rules, w[1..], rk);
    }
  }

  lemma {:induction false} AcceptInParts(rules: seq<Rule>, stacks: seq<Stack>, u: seq<nat>, v: seq<nat>, rk: Ranking)
    requires WellFormed(rules) && Ranked(rules, rk) && AllSettled(rules, stacks)
    ensures AcceptAll(rules, stacks, u + v, rk) == AcceptAll(rules, AcceptAll(rules, stacks, u, rk), v, rk)
    decreases |u|
  {
    hide Accept, Ranked;
    if u == [] {
      assert u + v == v;
    } else {
      assert (u + v)[1..] == u[1..] + v;
      AcceptInParts(rules, Accept(rules, stacks, u[0], rk), u[1..], v, rk);
    }
  }
}
