/**
 Grammars as the engine stores them: a rule is a vector of elements, its alternates separated
 by ALT and closed by END; a character class is a CHAR or CHAR_NOT element followed by
 CHAR_ALT elements, each optionally followed by the upper end of a range.
 */
module Grammar {

  datatype Kind = END | ALT | RULE_REF | CHAR | CHAR_NOT | CHAR_RNG_UPPER | CHAR_ALT

  datatype Element = Element(kind: Kind, value: nat)

  type Rule = seq<Element>

  // A pointer into a rule.
  datatype Pos = Pos(rule: nat, idx: nat)

  // A pushdown stack; the top is the last element.
  type Stack = seq<Pos>

  predicate IsEnd(e: Element) { e.kind == END || e.kind == ALT }

  predicate IsClass(e: Element) { e.kind == CHAR || e.kind == CHAR_NOT }

  predicate IsItem(e: Element) { IsClass(e) || e.kind == RULE_REF }

  // The vectors the grammar parser produces.
  predicate WellFormedRule(r: Rule, nRules: nat) {
    && |r| > 0 && r[|r| - 1].kind == END
    && (forall i :: 0 <= i < |r| - 1 ==> r[i].kind != END)
    && (forall i :: 0 <= i < |r| && r[i].kind == RULE_REF ==> r[i].value < nRules)
    && (forall i :: 0 <= i < |r| && r[i].kind == CHAR_RNG_UPPER ==>
          i > 0 && (IsClass(r[i - 1]) || r[i - 1].kind == CHAR_ALT))
    && (forall i :: 0 <= i < |r| && r[i].kind == CHAR_ALT ==>
          i > 0 && (IsClass(r[i - 1]) || r[i - 1].kind == CHAR_ALT || r[i - 1].kind == CHAR_RNG_UPPER))
  }

  predicate WellFormed(rules: seq<Rule>) {
    forall v {:trigger WellFormedRule(rules[v], |rules|)} :: 0 <= v < |rules| ==> WellFormedRule(rules[v], |rules|)
  }

  predicate InRules(rules: seq<Rule>, p: Pos) {
    p.rule < |rules| && p.idx < |rules[p.rule]|
  }

  function At(rules: seq<Rule>, p: Pos): Element
    requires InRules(rules, p)
  {
    rules[p.rule][p.idx]
  }

  // The start of an item or the end of an alternate: what a parse can be at.
  predicate Parseable(rules: seq<Rule>, p: Pos) {
    InRules(rules, p) && (IsItem(At(rules, p)) || IsEnd(At(rules, p)))
  }

  // An alternate of a rule starts at its beginning or after an ALT.
  predicate IsAlternate(r: Rule, a: nat) {
    a < |r| && (a == 0 || r[a - 1].kind == ALT)
  }

  lemma AlternateParseable(rules: seq<Rule>, v: nat, a: nat)
    requires WellFormed(rules) && v < |rules| && IsAlternate(rules[v], a)
    ensures Parseable(rules, Pos(v, a))
  {
    assert WellFormedRule(rules[v], |rules|);
  }

  function Next(p: Pos): Pos { Pos(p.rule, p.idx + 1) }

  lemma AfterRef(rules: seq<Rule>, p: Pos)
    requires WellFormed(rules) && InRules(rules, p) && At(rules, p).kind == RULE_REF
    ensures Parseable(rules, Next(p)) && At(rules, p).value < |rules|
  {
    assert WellFormedRule(rules[p.rule], |rules|);
  }

  /* ---- character classes ---- */

  // Length of the range or character listed at i.
  function EntryLength(r: Rule, i: nat): nat
    requires i + 1 < |r|
  {
    if r[i + 1].kind == CHAR_RNG_UPPER then 2 else 1
  }

  predicate EntryHas(r: Rule, i: nat, chr: nat)
    requires i + 1 < |r|
  {
    if r[i + 1].kind == CHAR_RNG_UPPER then r[i].value <= chr <= r[i + 1].value else r[i].value == chr
  }

  predicate IsEntry(r: Rule, i: nat) {
    i + 1 < |r| && (IsClass(r[i]) || r[i].kind == CHAR_ALT)
  }

  lemma EntryFollowed(r: Rule, nRules: nat, i: nat)
    requires WellFormedRule(r, nRules) && IsEntry(r, i)
    ensures i + EntryLength(r, i) < |r|
    ensures r[i + EntryLength(r, i)].kind != CHAR_RNG_UPPER
  {
  }

  // One past the class that has an entry at i.
  function ClassEnd(r: Rule, nRules: nat, i: nat): (e: nat)
    requires WellFormedRule(r, nRules) && IsEntry(r, i)
    ensures i < e < |r| && (IsItem(r[e]) || IsEnd(r[e]))
    decreases |r| - i
  {
    EntryFollowed(r, nRules, i);
    var j := i + EntryLength(r, i);
    if r[j].kind == CHAR_ALT then ClassEnd(r, nRules, j) else j
  }

  // chr is listed by an entry from i on.
  predicate Listed(r: Rule, i: nat, e: nat, chr: nat)
    requires e < |r|
  {
    exists k :: i <= k < e && r[k].kind != CHAR_RNG_UPPER && EntryHas(r, k, chr)
  }

  // The class at p accepts chr.
  predicate Accepts(rules: seq<Rule>, p: Pos, chr: nat)
    requires WellFormed(rules) && InRules(rules, p) && IsClass(At(rules, p))
  {
    var r := rules[p.rule];
    assert WellFormedRule(r, |rules|);
    Listed(r, p.idx, ClassEnd(r, |rules|, p.idx), chr) <==> r[p.idx].kind == CHAR
  }

  function AfterClass(rules: seq<Rule>, p: Pos): (q: Pos)
    requires WellFormed(rules) && InRules(rules, p) && IsClass(At(rules, p))
    ensures Parseable(rules, q) && q.rule == p.rule && q.idx > p.idx
  {
    assert WellFormedRule(rules[p.rule], |rules|);
    Pos(p.rule, ClassEnd(rules[p.rule], |rules|, p.idx))
  }

  // Whether the class at p accepts chr, and where it ends.
  method MatchChar(rules: seq<Rule>, p: Pos, chr: nat) returns (matched: bool, after: Pos)
    requires WellFormed(rules) && InRules(rules, p) && IsClass(At(rules, p))
    ensures matched <==> Accepts(rules, p, chr)
    ensures after == AfterClass(rules, p)
  {
    var r := rules[p.rule];
    assert WellFormedRule(r, |rules|);
    hide WellFormed, WellFormedRule, Listed;
    ghost var e := ClassEnd(r, |rules|, p.idx);
    var found, pos, more := false, p.idx, true;
    ListedNone(r, p.idx, chr);
    while more
      invariant p.idx <= pos <= e
      invariant more ==> IsEntry(r, pos) && ClassEnd(r, |rules|, pos) == e
      invariant !more ==> pos == e
      invariant found <==> Listed(r, p.idx, pos, chr)
      decreases |r| - pos, more
    {
      EntryFollowed(r, |rules|, pos);
      ghost var old_pos, old_found := pos, found;
      if r[pos + 1].kind == CHAR_RNG_UPPER {
        found := found || (r[pos].value <= chr && chr <= r[pos + 1].value);
        pos := pos + 2;
      } else {
        found := found || r[pos].value == chr;
        pos := pos + 1;
      }
      ListedStep(r, p.idx, old_pos, pos, chr);
      more := r[pos].kind == CHAR_ALT;
    }
    matched := found == (r[p.idx].kind == CHAR);
    after := Pos(p.rule, pos);
  }

  lemma ListedNone(r: Rule, i: nat, chr: nat)
    requires i < |r|
    ensures !Listed(r, i, i, chr)
  {
  }

  lemma ListedStep(r: Rule, i: nat, k: nat, k': nat, chr: nat)
    requires i <= k && IsEntry(r, k) && k' == k + EntryLength(r, k) < |r|
    ensures Listed(r, i, k', chr) <==> Listed(r, i, k, chr) || EntryHas(r, k, chr)
  {
    if EntryHas(r, k, chr) {
      assert i <= k < k' && r[k].kind != CHAR_RNG_UPPER && EntryHas(r, k, chr);
    }
  }

  /* ---- a character cut by the end of a token ---- */

  function Pow64(n: nat): (r: nat)
    ensures r >= 1
  {
    if n == 0 then 1 else 64 * Pow64(n - 1)
  }

  // The code points a sequence with `value` so far and n bytes missing can still become.
  function PartialLow(value: nat, n: nat): nat {
    var low := value * Pow64(n);
    if low == 0 && n == 2 then 0x800 else if low == 0 && n == 3 then 0x10000 else low
  }

  function PartialHigh(value: nat, n: nat): nat {
    value * Pow64(n) + (Pow64(n) - 1)
  }

  predicate Completes(value: nat, n: nat, chr: nat) {
    PartialLow(value, n) <= chr <= PartialHigh(value, n)
  }

  // Every range in the class at p is non-empty.
  predicate ProperRanges(r: Rule) {
    forall k :: 0 <= k < |r| - 1 && r[k + 1].kind == CHAR_RNG_UPPER ==> r[k].value <= r[k + 1].value
  }

  method MatchPartialChar(rules: seq<Rule>, p: Pos, value: nat, n: int) returns (matched: bool)
    requires WellFormed(rules) && InRules(rules, p) && IsClass(At(rules, p))
    ensures matched == MatchPartial(rules, p, value, n)
  {
    var r := rules[p.rule];
    assert WellFormedRule(r, |rules|);
    var positive := r[p.idx].kind == CHAR;
    if n < 0 || (n == 1 && value < 2) {
      return false;
    }
    var low, high := PartialLow(value, n), PartialHigh(value, n);
    hide Overlaps, ClassEnd, PartialLow, PartialHigh, WellFormed, WellFormedRule;
    ghost var e := ClassEnd(r, |rules|, p.idx);
    var pos, more := p.idx, true;
    while more
      invariant p.idx <= pos <= e
      invariant more ==> IsEntry(r, pos) && ClassEnd(r, |rules|, pos) == e
      invariant !more ==> pos == e
      invariant Overlaps(r, |rules|, p.idx, low, high) == (more && Overlaps(r, |rules|, pos, low, high))
      decreases |r| - pos, more
    {
      EntryFollowed(r, |rules|, pos);
      EntryUnfolds(r, |rules|, pos, low, high);
      if r[pos + 1].kind == CHAR_RNG_UPPER {
        if r[pos].value <= high && low <= r[pos + 1].value {
          return positive;
        }
        pos := pos + 2;
      } else {
        if low <= r[pos].value && r[pos].value <= high {
          return positive;
        }
        pos := pos + 1;
      }
      more := r[pos].kind == CHAR_ALT;
    }
    return !positive;
  }

  predicate EntryOverlaps(r: Rule, i: nat, low: nat, high: int)
    requires i + 1 < |r|
  {
    if r[i + 1].kind == CHAR_RNG_UPPER then r[i].value <= high && low <= r[i + 1].value else low <= r[i].value <= high
  }

  // Some entry from i to the end of its class meets [low, high].
  predicate Overlaps(r: Rule, nRules: nat, i: nat, low: nat, high: int)
    requires WellFormedRule(r, nRules) && IsEntry(r, i)
    decreases |r| - i
  {
    EntryFollowed(r, nRules, i);
    var j := i + EntryLength(r, i);
    EntryOverlaps(r, i, low, high) || (r[j].kind == CHAR_ALT && Overlaps(r, nRules, j, low, high))
  }

  lemma EntryUnfolds(r: Rule, nRules: nat, i: nat, low: nat, high: int)
    requires WellFormedRule(r, nRules) && IsEntry(r, i)
    ensures var j := i + EntryLength(r, i);
            && j < |r| && (r[j].kind == CHAR_ALT ==> IsEntry(r, j))
            && ClassEnd(r, nRules, i) == (if r[j].kind == CHAR_ALT then ClassEnd(r, nRules, j) else j)
            && Overlaps(r, nRules, i, low, high)
               == (EntryOverlaps(r, i, low, high) || (r[j].kind == CHAR_ALT && Overlaps(r, nRules, j, low, high)))
  {
    EntryFollowed(r, nRules, i);
  }

  predicate MatchPartial(rules: seq<Rule>, p: Pos, value: nat, n: int)
    requires WellFormed(rules) && InRules(rules, p) && IsClass(At(rules, p))
  {
    assert WellFormedRule(rules[p.rule], |rules|);
    n >= 0 && !(n == 1 && value < 2)
    && (Overlaps(rules[p.rule], |rules|, p.idx, PartialLow(value, n), PartialHigh(value, n))
        <==> At(rules, p).kind == CHAR)
  }

  // Some code point of [low, high] is listed.
  ghost predicate Meets(r: Rule, i: nat, e: nat, low: nat, high: int)
    requires e < |r|
  {
    exists chr :: low <= chr <= high && Listed(r, i, e, chr)
  }

  // A range written backwards, which lists nothing, has both ends in [low, high].
  ghost predicate Straddled(r: Rule, i: nat, e: nat, low: nat, high: int)
    requires e < |r|
  {
    exists k :: i <= k < e && r[k].kind != CHAR_RNG_UPPER && Backwards(r, k, low, high)
  }

  predicate Backwards(r: Rule, k: nat, low: nat, high: int)
    requires k + 1 < |r|
  {
    r[k + 1].kind == CHAR_RNG_UPPER && low <= r[k + 1].value < r[k].value <= high
  }

  // An entry meets [low, high] as the engine tests it: it lists a code point of it, or is a
  // backwards range inside it.
  lemma EntryMeets(r: Rule, i: nat, low: nat, high: int)
    requires IsEntry(r, i) && low <= high
    ensures EntryOverlaps(r, i, low, high)
            <==> (exists chr :: low <= chr <= high && EntryHas(r, i, chr)) || Backwards(r, i, low, high)
  {
    if EntryOverlaps(r, i, low, high) && !Backwards(r, i, low, high) {
      var chr := if low <= r[i].value then r[i].value else low;
      assert low <= chr <= high && EntryHas(r, i, chr);
    }
  }

  lemma StraddledFirst(r: Rule, i: nat, j: nat, e: nat, low: nat, high: int)
    requires IsEntry(r, i) && j == i + EntryLength(r, i) <= e < |r|
    ensures Straddled(r, i, e, low, high) <==> Backwards(r, i, low, high) || Straddled(r, j, e, low, high)
  {
    if Backwards(r, i, low, high) {
      assert r[i].kind != CHAR_RNG_UPPER;
    }
  }

  lemma MeetsFirst(r: Rule, i: nat, j: nat, e: nat, low: nat, high: int)
    requires IsEntry(r, i) && j == i + EntryLength(r, i) <= e < |r|
    ensures Meets(r, i, e, low, high)
            <==> (exists chr :: low <= chr <= high && EntryHas(r, i, chr)) || Meets(r, j, e, low, high)
  {
    hide Listed, EntryHas;
    if chr :| low <= chr <= high && EntryHas(r, i, chr) {
      ListedFirst(r, i, j, e, chr);
    }
    if Meets(r, j, e, low, high) {
      var chr :| low <= chr <= high && Listed(r, j, e, chr);
      ListedFirst(r, i, j, e, chr);
    }
    if Meets(r, i, e, low, high) {
      var chr :| low <= chr <= high && Listed(r, i, e, chr);
      ListedFirst(r, i, j, e, chr);
    }
  }

  lemma {:induction false} OverlapsMeets(r: Rule, nRules: nat, i: nat, low: nat, high: int)
    requires WellFormedRule(r, nRules) && IsEntry(r, i) && low <= high
    ensures Overlaps(r, nRules, i, low, high)
            <==> Meets(r, i, ClassEnd(r, nRules, i), low, high) || Straddled(r, i, ClassEnd(r, nRules, i), low, high)
    decreases |r| - i
  {
    hide EntryOverlaps, Meets, Straddled, Backwards, EntryHas;
    EntryFollowed(r, nRules, i);
    var j, e := i + EntryLength(r, i), ClassEnd(r, nRules, i);
    EntryMeets(r, i, low, high);
    MeetsFirst(r, i, j, e, low, high);
    StraddledFirst(r, i, j, e, low, high);
    if r[j].kind == CHAR_ALT {
      OverlapsMeets(r, nRules, j, low, high);
    } else {
      MeetsNothing(r, e, low, high);
    }
  }

  lemma MeetsNothing(r: Rule, e: nat, low: nat, high: int)
    requires e < |r|
    ensures !Meets(r, e, e, low, high) && !Straddled(r, e, e, low, high)
  {
  }

  lemma ListedFirst(r: Rule, i: nat, j: nat, e: nat, chr: nat)
    requires IsEntry(r, i) && j == i + EntryLength(r, i) <= e < |r|
    ensures Listed(r, i, e, chr) <==> EntryHas(r, i, chr) || Listed(r, j, e, chr)
  {
    if EntryHas(r, i, chr) {
      assert r[i].kind != CHAR_RNG_UPPER;
    }
  }

  lemma {:induction false} PowerAtLeast(n: nat)
    ensures n >= 2 ==> Pow64(n) >= 0x1000
    ensures n >= 3 ==> Pow64(n) >= 0x40000
  {
    if n > 0 {
      PowerAtLeast(n - 1);
      assert Pow64(n) == 64 * Pow64(n - 1);
    }
  }

  // Some code point completes the bytes.
  lemma PartialInterval(value: nat, n: nat)
    ensures PartialLow(value, n) <= PartialHigh(value, n)
  {
    PowerAtLeast(n);
  }

  // A range of the class at p is written backwards, between code points that complete the bytes.
  ghost predicate Misread(rules: seq<Rule>, p: Pos, value: nat, n: nat)
    requires WellFormed(rules) && InRules(rules, p) && IsClass(At(rules, p))
  {
    Straddled(rules[p.rule], p.idx, AfterClass(rules, p).idx, PartialLow(value, n), PartialHigh(value, n))
  }

  // For an ordinary class: can the pending bytes still become a listed character? For a
  // negated class: must they become an unlisted one? So a negated class rejects a token some
  // of whose completions it would accept. A range written backwards lists nothing, but counts
  // as listed if both its ends are completions.
  lemma PartialMeaning(rules: seq<Rule>, p: Pos, value: nat, n: nat)
    requires WellFormed(rules) && InRules(rules, p) && IsClass(At(rules, p)) && !(n == 1 && value < 2)
    ensures MatchPartial(rules, p, value, n)
            <==> if At(rules, p).kind == CHAR then
                   (exists chr :: Completes(value, n, chr) && Accepts(rules, p, chr)) || Misread(rules, p, value, n)
                 else
                   (forall chr :: Completes(value, n, chr) ==> Accepts(rules, p, chr)) && !Misread(rules, p, value, n)
    ensures ProperRanges(rules[p.rule]) ==> !Misread(rules, p, value, n)
  {
    var r := rules[p.rule];
    assert WellFormedRule(r, |rules|);
    var e := ClassEnd(r, |rules|, p.idx);
    PartialInterval(value, n);
    OverlapsMeets(r, |rules|, p.idx, PartialLow(value, n), PartialHigh(value, n));
    assert forall chr :: Accepts(rules, p, chr) <==> (Listed(r, p.idx, e, chr) <==> r[p.idx].kind == CHAR);
    hide Listed, Overlaps, PartialLow, PartialHigh;
  }

  // The class of everything but U+00E9 refuses the first byte of a letter, though it accepts
  // U+00E8, which starts with that byte.
  lemma NegatedClassRefuses(rules: seq<Rule>)
    requires rules == [[Element(CHAR_NOT, 0xE9), Element(END, 0)]]
    ensures WellFormed(rules) && !MatchPartial(rules, Pos(0, 0), 3, 1)
    ensures Completes(3, 1, 0xE8) && Accepts(rules, Pos(0, 0), 0xE8)
  {
    var r := rules[0];
    assert WellFormedRule(r, 1);
    assert Pow64(0) == 1 && Pow64(1) == 64;
    assert ClassEnd(r, 1, 0) == 1;
    assert EntryOverlaps(r, 0, 192, 255);
  }

  // A class of one range written backwards accepts no character, but does accept the first
  // byte of one.
  lemma BackwardsRangeMisread(rules: seq<Rule>)
    requires rules == [[Element(CHAR, 0xE9), Element(CHAR_RNG_UPPER, 0xE8), Element(END, 0)]]
    ensures WellFormed(rules) && MatchPartial(rules, Pos(0, 0), 3, 1)
    ensures forall chr :: !Accepts(rules, Pos(0, 0), chr)
  {
    var r := rules[0];
    assert WellFormedRule(r, 1);
    assert Pow64(0) == 1 && Pow64(1) == 64;
    assert ClassEnd(r, 1, 0) == 2;
    assert EntryOverlaps(r, 0, 192, 255);
  }
}
