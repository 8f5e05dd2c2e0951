/**
 What the filter makes of tokens that end inside a character.
 */
module GrammarPending {
  import opened Utf8
  import opened Grammar
  import opened GrammarLanguage
  import opened GrammarFilter
  import opened Completion

  // The class on top of the stack leaves room for the pending bytes: an ordinary class if it
  // accepts one of their completions, a negated one if it accepts all of them; but for ranges
  // written backwards. No character starts with the bytes C0 and C1.
  ghost predicate MayContinue(rules: seq<Rule>, stack: Stack, value: nat, n: nat)
    requires WellFormed(rules) && Settled(rules, stack)
  {
    stack != [] && !(n == 1 && value < 2) &&
    var p := stack[|stack| - 1];
    if At(rules, p).kind == CHAR then
      (exists chr :: Completes(value, n, chr) && Accepts(rules, p, chr)) || Misread(rules, p, value, n)
    else (forall chr :: Completes(value, n, chr) ==> Accepts(rules, p, chr)) && !Misread(rules, p, value, n)
  }

  ghost predicate SomeMayContinue(rules: seq<Rule>, stacks: seq<Stack>, value: nat, n: nat)
    requires WellFormed(rules) && AllSettled(rules, stacks)
  {
    exists i :: 0 <= i < |stacks| && MayContinue(rules, stacks[i], value, n)
  }

  // A candidate with n bytes missing is rejected exactly if none of the stacks left by its code
  // points leaves room for the bytes it has.
  lemma PendingRejectsExactly(rules: seq<Rule>, stacks: seq<Stack>, cands: seq<Candidate>, rejects: seq<Candidate>,
                              c: Candidate, rk: Ranking)
    requires WellFormed(rules) && Ranked(rules, rk) && AllSettled(rules, stacks)
    requires Rejected(rules, stacks, cands, rejects, rk) && c in cands && InText(c) && c.partial.n > 0
    ensures var left := AcceptAll(rules, stacks, Text(c), rk);
            c in rejects <==> !SomeMayContinue(rules, left, c.partial.value, c.partial.n)
  {
    hide AcceptAll, Ranked, MatchPartial, Text, SomeMayContinue, Settled, SomeMayEnd;
    var left := AcceptAll(rules, stacks, Text(c), rk);
    assert c in multiset(rejects) <==> c in rejects;
    assert c in multiset(cands);
    assert multiset(rejects)[c] == if Survives(rules, stacks, Text(c), c.partial, rk) then 0 else multiset(cands)[c];
    SomeRoomMeans(rules, left, c.partial);
    if SomeMayEnd(rules, left, c.partial) {
      assert multiset(rejects)[c] == 0;
    } else {
      assert multiset(rejects)[c] == multiset(cands)[c] > 0;
    }
  }

  lemma SomeRoomMeans(rules: seq<Rule>, stacks: seq<Stack>, partial: Partial)
    requires WellFormed(rules) && AllSettled(rules, stacks) && partial.n > 0
    ensures SomeMayEnd(rules, stacks, partial) <==> SomeMayContinue(rules, stacks, partial.value, partial.n)
  {
    hide MayContinue, MayEnd, Settled;
    forall i | 0 <= i < |stacks|
      ensures MayEnd(rules, stacks[i], partial) <==> MayContinue(rules, stacks[i], partial.value, partial.n)
    {
      RoomMeans(rules, stacks[i], partial);
    }
    if SomeMayEnd(rules, stacks, partial) {
      var i :| 0 <= i < |stacks| && MayEnd(rules, stacks[i], partial);
      assert MayContinue(rules, stacks[i], partial.value, partial.n);
    }
  }

  lemma RoomMeans(rules: seq<Rule>, stack: Stack, partial: Partial)
    requires WellFormed(rules) && Settled(rules, stack) && partial.n > 0
    ensures MayEnd(rules, stack, partial) <==> MayContinue(rules, stack, partial.value, partial.n)
  {
    hide Misread, Accepts, Completes, WellFormed;
    if stack != [] {
      var p := stack[|stack| - 1];
      assert InRules(rules, p);
      if partial.n == 1 && partial.value < 2 {
        NoSuchBytes(rules, p, partial);
      } else {
        hide MatchPartial;
        PartialMeaning(rules, p, partial.value, partial.n);
      }
    }
  }

  lemma NoSuchBytes(rules: seq<Rule>, p: Pos, partial: Partial)
    requires WellFormed(rules) && InRules(rules, p) && IsClass(At(rules, p)) && partial.n == 1 && partial.value < 2
    ensures !MatchPartial(rules, p, partial.value, partial.n)
  {
  }

  // Ordinary classes with proper ranges only.
  predicate Ordinary(rules: seq<Rule>) {
    forall v :: 0 <= v < |rules| ==>
      ProperRanges(rules[v]) && forall k :: 0 <= k < |rules[v]| ==> rules[v][k].kind != CHAR_NOT
  }

  // In such a grammar it is rejected exactly if no completion of its bytes is accepted.
  lemma OrdinaryRejectsExactly(rules: seq<Rule>, stacks: seq<Stack>, cands: seq<Candidate>, rejects: seq<Candidate>,
                               c: Candidate, rk: Ranking)
    requires WellFormed(rules) && Ranked(rules, rk) && AllSettled(rules, stacks) && Ordinary(rules)
    requires Rejected(rules, stacks, cands, rejects, rk) && c in cands && InText(c) && c.partial.n > 0
    ensures var left := AcceptAll(rules, stacks, Text(c), rk);
            c in rejects <==> forall i, chr :: 0 <= i < |left| && Completes(c.partial.value, c.partial.n, chr) ==>
                                (c.partial.n == 1 && c.partial.value < 2) || Refuses(rules, left[i], chr)
  {
    hide AcceptAll, Ranked, Text, Settled, Rejected, MayContinue, Refuses, Ordinary;
    PendingRejectsExactly(rules, stacks, cands, rejects, c, rk);
    var left := AcceptAll(rules, stacks, Text(c), rk);
    forall i | 0 <= i < |left|
      ensures MayContinue(rules, left[i], c.partial.value, c.partial.n)
              <==> !(c.partial.n == 1 && c.partial.value < 2)
                   && exists chr :: Completes(c.partial.value, c.partial.n, chr) && !Refuses(rules, left[i], chr)
    {
      OrdinaryRoom(rules, left[i], c.partial.value, c.partial.n);
    }
  }

  predicate Refuses(rules: seq<Rule>, stack: Stack, chr: nat)
    requires WellFormed(rules) && Settled(rules, stack)
  {
    stack == [] || !Accepts(rules, stack[|stack| - 1], chr)
  }

  lemma OrdinaryRoom(rules: seq<Rule>, stack: Stack, value: nat, n: nat)
    requires WellFormed(rules) && Settled(rules, stack) && Ordinary(rules)
    ensures MayContinue(rules, stack, value, n)
            <==> !(n == 1 && value < 2) && exists chr :: Completes(value, n, chr) && !Refuses(rules, stack, chr)
  {
    hide Misread, Accepts, Completes, WellFormed;
    if stack != [] && !(n == 1 && value < 2) {
      var p := stack[|stack| - 1];
      assert InRules(rules, p) && At(rules, p).kind == CHAR;
      PartialMeaning(rules, p, value, n);
    }
  }

  /* ---- tokens that can be continued ---- */

  // A piece of encoded text ends after some characters, or inside the next one.
  lemma {:induction false} CutEncoded(w: seq<CodePoint>, a: seq<Byte>, more: seq<Byte>) returns (k: nat, p: seq<Byte>)
    requires a + more == EncodeAll(w)
    ensures k <= |w| && a == EncodeAll(w[..k]) + p
    ensures p != [] ==> k < |w| && IsPending(p) && p <= Encode(w[k])
  {
    hide Encode, EncodeAll, IsPending;
    NothingEncoded(w);
    if a == [] {
      k, p := 0, [];
    } else {
      EncodeMore(w);
      var e := Encode(w[0]);
      SameFront(a, more, e, EncodeAll(w[1..]));
      if |a| >= |e| {
        k, p := CutEncoded(w[1..], a[|e|..], more);
        EncodeMore(w[..k + 1]);
        assert w[..k + 1][1..] == w[1..][..k];
        k := k + 1;
      } else {
        k, p := 0, a;
        PartPending(w[0], p);
      }
    }
  }

  lemma PartPending(c: CodePoint, p: seq<Byte>)
    requires p <= Encode(c) && 0 < |p| < |Encode(c)|
    ensures IsPending(p)
  {
    var e := Encode(c);
    EncodedBytes(c);
    hide Encode;
    forall i | 0 <= i < |p[1..]|
      ensures IsContinuation(p[1..][i])
    {
      assert p[1..][i] == e[i + 1];
    }
  }

  lemma SameFront<T>(a: seq<T>, b: seq<T>, c: seq<T>, d: seq<T>)
    requires a + b == c + d
    ensures |a| >= |c| ==> a == c + a[|c|..] && a[|c|..] + b == d
    ensures |a| < |c| ==> a == c[..|a|]
  {
    if |a| >= |c| {
      assert c == (c + d)[..|c|] && d == (c + d)[|c|..] && a[|c|..] + b == (a + b)[|c|..];
      assert a == a[..|c|] + a[|c|..] && a[..|c|] == (a + b)[..|c|];
    } else {
      assert a == (a + b)[..|a|];
    }
  }

  lemma EncodeMore(w: seq<CodePoint>)
    ensures w != [] ==> EncodeAll(w) == Encode(w[0]) + EncodeAll(w[1..])
    ensures EncodeAll(w) != [] ==> w != []
  {
  }

  lemma NothingEncoded(w: seq<CodePoint>)
    ensures EncodeAll(w[..0]) == []
  {
  }

  // What two calls read of encoded text, the first `before` and the second `text`.
  lemma ReadSoFar(w: seq<CodePoint>, before: seq<Byte>, text: seq<Byte>, more: seq<Byte>, k: nat, p: seq<Byte>)
    requires before + text + more == EncodeAll(w) && k <= |w| && before + text == EncodeAll(w[..k]) + p
    requires p != [] ==> IsPending(p)
    ensures var first := Decode(before, Partial(0, 0));
            var second := Decode(text, first.partial);
            && first.cps + second.cps == w[..k]
            && second.partial == if p == [] then Partial(Last(w[..k], 0), 0)
                                 else Decode(p, Partial(Last(w[..k], 0), 0)).partial
  {
    hide Scan, EncodeAll;
    ScanEncodedAll(w, 0);
    ScanEncodedAll(w[..k], 0);
    var inner := ScanAppend(before + text, more, 0, 0, true, true);
    inner := ScanAppend(before, text, 0, 0, true, true);
    inner := ScanAppend(EncodeAll(w[..k]), p, 0, 0, true, true);
    var last := Last(w[..k], 0);
    var first := Scan(before, 0, 0, true, true);
    StrictIsLoose(before, 0, 0, true);
    StrictIsLoose(text, first.value, first.n, true);
    if p == [] {
      EndOfText(last);
    } else {
      StrictIsLoose(p, last, 0, true);
      PendingState(p, last);
    }
  }

  lemma EndOfText(value: nat)
    ensures Scan([], value, 0, true, true) == Run([], value, 0)
  {
  }

  // Whoever survives a character has a class on top that accepts it.
  lemma {:induction false} SomeAccepts(rules: seq<Rule>, stacks: seq<Stack>, chr: nat, rk: Ranking)
    requires WellFormed(rules) && Ranked(rules, rk) && AllSettled(rules, stacks) && Accept(rules, stacks, chr, rk) != []
    ensures exists i :: 0 <= i < |stacks| && !Refuses(rules, stacks[i], chr)
  {
    hide Advance, Accepts, Ranked, Settled;
    var n := |stacks| - 1;
    assert stacks != [];
    if AcceptOne(rules, stacks[n], chr, rk) != [] {
      assert !Refuses(rules, stacks[n], chr);
    } else {
      SomeAccepts(rules, stacks[..n], chr, rk);
      var i :| 0 <= i < n && !Refuses(rules, stacks[..n][i], chr);
      assert !Refuses(rules, stacks[i], chr);
    }
  }

  // In an ordinary grammar a token is never rejected if some continuation of it is accepted:
  // `before` has been read, and the token's text and `more` after it complete the characters w.
  lemma KeepsContinuable(rules: seq<Rule>, stacks: seq<Stack>, cands: seq<Candidate>, rejects: seq<Candidate>,
                         c: Candidate, before: seq<Byte>, text: seq<Byte>, more: seq<Byte>, w: seq<CodePoint>,
                         rk: Ranking)
    requires WellFormed(rules) && Ranked(rules, rk) && AllSettled(rules, stacks) && Ordinary(rules)
    requires Rejected(rules, stacks, cands, rejects, rk) && c in cands
    requires Decoded(c, text, Decode(before, Partial(0, 0)).partial) && before + text + more == EncodeAll(w)
    requires var read := |Decode(before, Partial(0, 0)).cps|;
             read <= |w| && AcceptAll(rules, stacks, w[read..], rk) != []
    ensures c !in rejects
  {
    hide AcceptAll, Ranked, Decode, EncodeAll, Encode, Settled, Rejected, Ordinary;
    var k, p := CutEncoded(w, before + text, more);
    ReadSoFar(w, before, text, more, k, p);
    var first := Decode(before, Partial(0, 0));
    var second := Decode(text, first.partial);
    assert w[|first.cps|..] == second.cps + w[k..];
    AcceptInParts(rules, stacks, second.cps, w[k..], rk);
    var left := AcceptAll(rules, stacks, second.cps, rk);
    NoZero(w, |first.cps|, k);
    TextOfDecoded(c, text, first.partial);
    NoStacks(rules, w[k..], rk);
    if p == [] {
      FilterRejectsExactly(rules, stacks, cands, rejects, c, text, first.partial, rk);
    } else {
      LookAheadExactly(p, Last(w[..k], 0), w[k]);
      FirstAccepted(rules, left, w[k..], rk);
      SomeAccepts(rules, left, w[k], rk);
      OrdinaryRejectsExactly(rules, stacks, cands, rejects, c, rk);
    }
  }

  lemma NoZero(w: seq<CodePoint>, i: nat, k: nat)
    requires i <= k <= |w|
    ensures forall x :: x in w[i..k] ==> x != 0
  {
  }

  lemma TextOfDecoded(c: Candidate, text: seq<Byte>, pending: Partial)
    requires Decoded(c, text, pending) && 0 !in Decode(text, pending).cps
    ensures InText(c) && Text(c) == Decode(text, pending).cps == BeforeZero(Decode(text, pending).cps)
  {
    hide Decode;
    var w := Decode(text, pending).cps;
    TerminatorEnds(w, 0);
    TextIsPrefix(w, 0);
    assert w[0..] == w;
  }

  lemma FirstAccepted(rules: seq<Rule>, stacks: seq<Stack>, w: seq<nat>, rk: Ranking)
    requires WellFormed(rules) && Ranked(rules, rk) && AllSettled(rules, stacks) && w != []
    requires AcceptAll(rules, stacks, w, rk) != []
    ensures Accept(rules, stacks, w[0], rk) != []
  {
    hide Accept, Ranked;
    NoStacks(rules, w[1..], rk);
  }
}
