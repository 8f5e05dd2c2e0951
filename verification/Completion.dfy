/**
 What a character cut by the end of a token can become: the code points that the grammar's
 look-ahead counts as completions of the pending bytes, against those that the decoder reads
 from continuation bytes and those that have a well-formed encoding.
 */
module Completion {
  import opened Arithmetic
  import opened Utf8
  import opened Grammar

  // n continuation bytes.
  predicate IsTail(bs: seq<Byte>, n: nat) {
    |bs| == n && Continues(bs, n)
  }

  // The pending value with the bits of the bytes appended.
  function Value(value: nat, bs: seq<Byte>): nat
    decreases |bs|
  {
    if bs == [] then value else Value(Push(value, bs[0]), bs[1..])
  }

  // Some n continuation bytes complete the pending bytes to chr.
  ghost predicate CanBecome(value: nat, n: nat, chr: nat) {
    exists bs :: IsTail(bs, n) && Decode(bs, Partial(value, n)).cps == [chr]
  }

  // The value does not outgrow 32 bits before the character is complete.
  predicate Fits(value: nat, n: int) {
    n > 0 ==> (value + 1) * Pow64(n) <= 0x1_0000_0000
  }

  lemma {:induction false} TailScan(bs: seq<Byte>, n: nat, value: nat)
    requires IsTail(bs, n) && n > 0
    ensures Scan(bs, value, n, true, false) == Run([Value(value, bs)], Value(value, bs), 0)
  {
    var v := Push(value, bs[0]);
    if n == 1 {
      assert bs[1..] == [];
    } else {
      assert IsTail(bs[1..], n - 1) by {
        assert forall i :: 0 <= i < n - 1 ==> bs[1..][i] == bs[i + 1];
      }
      TailScan(bs[1..], n - 1, v);
      JoinNothing(Scan(bs[1..], v, n - 1, true, false));
    }
  }

  // One more byte narrows the interval; p is what the bytes after it are worth.
  lemma NarrowBy(value: nat, p: nat, d: nat)
    requires p > 0 && d < 64 && (value + 1) * (64 * p) <= 0x1_0000_0000
    ensures var v := value * 64 + d;
            && v < 0x1_0000_0000 && (v + 1) * p <= 0x1_0000_0000
            && value * (64 * p) <= v * p && (v + 1) * p <= (value + 1) * (64 * p)
  {
    var v := value * 64 + d;
    Regroup(value, p);
    Regroup(value + 1, p);
    ProductLe(value * 64, v, p);
    ProductLe(v + 1, (value + 1) * 64, p);
    ProductLe(1, p, v + 1);
  }

  lemma Regroup(a: nat, p: nat)
    ensures a * (64 * p) == a * 64 * p
  {
  }

  lemma Narrow(value: nat, n: nat, d: nat)
    requires n > 0 && d < 64 && Fits(value, n)
    ensures var v := value * 64 + d;
            && v < 0x1_0000_0000 && Fits(v, n - 1) && Pow64(n) == 64 * Pow64(n - 1)
            && value * Pow64(n) <= v * Pow64(n - 1) && (v + 1) * Pow64(n - 1) <= (value + 1) * Pow64(n)
  {
    NarrowBy(value, Pow64(n - 1), d);
  }

  lemma EmptyTail(bs: seq<Byte>, value: nat)
    ensures IsTail(bs, 0) <==> bs == []
    ensures Value(value, []) == value && Pow64(0) == 1
  {
  }

  lemma TailStep(bs: seq<Byte>, n: nat, value: nat)
    requires IsTail(bs, n) && n > 0
    ensures bs != [] && IsTail(bs[1..], n - 1) && Value(value, bs) == Value(Push(value, bs[0]), bs[1..])
    ensures value * 64 + bs[0] as int % 64 < 0x1_0000_0000 ==> Push(value, bs[0]) == value * 64 + bs[0] as int % 64
  {
    assert forall i :: 0 <= i < n - 1 ==> bs[1..][i] == bs[i + 1];
  }

  lemma {:induction false} ValueInInterval(bs: seq<Byte>, n: nat, value: nat)
    requires IsTail(bs, n) && Fits(value, n)
    ensures value * Pow64(n) <= Value(value, bs) < (value + 1) * Pow64(n)
  {
    hide Fits, Pow64, IsTail;
    if n == 0 {
      EmptyTail(bs, value);
    } else {
      TailStep(bs, n, value);
      Narrow(value, n, bs[0] as int % 64);
      ValueInInterval(bs[1..], n - 1, value * 64 + bs[0] as int % 64);
    }
  }

  lemma {:induction false} TailFor(value: nat, n: nat, chr: nat) returns (bs: seq<Byte>)
    requires Fits(value, n) && value * Pow64(n) <= chr < (value + 1) * Pow64(n)
    ensures IsTail(bs, n) && Value(value, bs) == chr
    decreases n
  {
    hide Fits, Pow64, IsTail, Value;
    if n == 0 {
      bs := [];
      EmptyTail(bs, value);
    } else {
      var v := NextValue(value, n, chr);
      var rest := TailFor(v, n - 1, chr);
      bs := [0x80 + (v - value * 64)] + rest;
      TailExtends(value, n, bs, rest, v);
    }
  }

  // The value after the byte that leads to chr.
  lemma NextValue(value: nat, n: nat, chr: nat) returns (v: nat)
    requires n > 0 && Fits(value, n) && value * Pow64(n) <= chr < (value + 1) * Pow64(n)
    ensures value * 64 <= v < value * 64 + 64 && v < 0x1_0000_0000
    ensures Fits(v, n - 1) && v * Pow64(n - 1) <= chr < (v + 1) * Pow64(n - 1)
  {
    var p := Pow64(n - 1);
    v := chr / p;
    Regroup(value, p);
    Regroup(value + 1, p);
    QuotientBetween(value * 64, (value + 1) * 64, p, chr);
    hide Fits;
    Narrow(value, n, v - value * 64);
  }

  lemma TailExtends(value: nat, n: nat, bs: seq<Byte>, rest: seq<Byte>, v: nat)
    requires n > 0 && value * 64 <= v < value * 64 + 64 && v < 0x1_0000_0000
    requires IsTail(rest, n - 1) && bs == [0x80 + (v - value * 64)] + rest
    ensures IsTail(bs, n) && Value(value, bs) == Value(v, rest)
  {
    assert bs[1..] == rest && Push(value, bs[0]) == v;
    assert forall i :: 1 <= i < n ==> bs[i] == rest[i - 1];
  }

  // What continuation bytes can make of the pending ones is an interval.
  lemma CanBecomeInterval(value: nat, n: nat, chr: nat)
    requires n > 0 && Fits(value, n)
    ensures CanBecome(value, n, chr) <==> value * Pow64(n) <= chr < (value + 1) * Pow64(n)
  {
    hide IsTail, Fits, Pow64, Value, Decode, CanBecome;
    if CanBecome(value, n, chr) {
      BecomesValue(value, n, chr);
    }
    if value * Pow64(n) <= chr < (value + 1) * Pow64(n) {
      var bs := TailFor(value, n, chr);
      ValueBecomes(value, n, bs);
    }
  }

  lemma BecomesValue(value: nat, n: nat, chr: nat)
    requires n > 0 && Fits(value, n) && CanBecome(value, n, chr)
    ensures value * Pow64(n) <= chr < (value + 1) * Pow64(n)
  {
    hide IsTail, Fits, Pow64, Value, Scan;
    var bs :| IsTail(bs, n) && Decode(bs, Partial(value, n)).cps == [chr];
    TailScan(bs, n, value);
    ValueInInterval(bs, n, value);
  }

  lemma ValueBecomes(value: nat, n: nat, bs: seq<Byte>)
    requires n > 0 && IsTail(bs, n)
    ensures CanBecome(value, n, Value(value, bs))
  {
    hide IsTail, Value, Scan;
    TailScan(bs, n, value);
    assert Decode(bs, Partial(value, n)).cps == [Value(value, bs)];
  }

  // The look-ahead's completions are exactly those, but for the code points below U+0800 after
  // E0, and below U+10000 after F0.
  lemma CompletesExactly(value: nat, n: nat, chr: nat)
    requires n > 0 && Fits(value, n)
    ensures CanBecome(value, n, chr) <==> value * Pow64(n) <= chr < (value + 1) * Pow64(n)
    ensures Completes(value, n, chr)
            <==> CanBecome(value, n, chr) && !(value == 0 && ((n == 2 && chr < 0x800) || (n == 3 && chr < 0x10000)))
  {
    hide CanBecome, Fits, Pow64;
    CanBecomeInterval(value, n, chr);
    assert (value + 1) * Pow64(n) == value * Pow64(n) + Pow64(n);
    PowerAtLeast(n);
    ProductLess(0, value, Pow64(n));
  }

  /* ---- against well-formed encodings ---- */

  // The bytes of a sequence that is not complete: a first byte and continuation bytes.
  predicate IsPending(p: seq<Byte>) {
    p != [] && |p| <= Following(p[0]) && Continues(p[1..], |p|)
  }

  lemma {:induction false} PartScan(bs: seq<Byte>, value: nat, n: nat)
    requires |bs| < n
    ensures Scan(bs, value, n, false, false) == Run([], Value(value, bs), n - |bs|)
    decreases n
  {
    if bs != [] {
      PartScan(bs[1..], Push(value, bs[0]), n - 1);
      JoinNothing(Scan(bs[1..], Push(value, bs[0]), n - 1, false, false));
    }
  }

  // The state that pending bytes leave.
  lemma PendingState(p: seq<Byte>, start: nat)
    requires IsPending(p)
    ensures var s := Decode(p, Partial(start, 0)).partial;
            s.n == Following(p[0]) + 1 - |p| > 0 && s.value == Value(LeadBits(p[0]), p[1..])
    ensures Decode(p, Partial(start, 0)).cps == []
  {
    PartScan(p[1..], LeadBits(p[0]), Following(p[0]));
    JoinNothing(Scan(p[1..], LeadBits(p[0]), Following(p[0]), false, false));
  }

  lemma {:induction false} ValueAppend(value: nat, a: seq<Byte>, b: seq<Byte>)
    ensures Value(value, a + b) == Value(Value(value, a), b)
    decreases |a|
  {
    if a == [] {
      assert a + b == b;
    } else {
      assert (a + b)[1..] == a[1..] + b;
      ValueAppend(Push(value, a[0]), a[1..], b);
    }
  }

  lemma {:induction false} TailFits(bs: seq<Byte>, value: nat, n: nat)
    requires IsTail(bs, |bs|) && |bs| <= n && Fits(value, n)
    ensures Fits(Value(value, bs), n - |bs|)
    decreases n
  {
    if bs != [] {
      TailStep(bs, |bs|, value);
      Narrow(value, n, bs[0] as int % 64);
      hide Fits, Pow64, IsTail;
      TailFits(bs[1..], Push(value, bs[0]), n - 1);
    }
  }

  lemma LeadFits(b: Byte)
    requires Following(b) > 0
    ensures Fits(LeadBits(b), Following(b))
  {
    assert Pow64(0) == 1 && Pow64(1) == 64 && Pow64(2) == 4096 && Pow64(3) == 262144;
  }

  // Values of whole sequences.
  lemma WholeValue(q: seq<Byte>, v: nat)
    requires 2 <= |q| <= 4
    ensures |q| == 2 ==> Value(v, q[1..]) == Push(v, q[1])
    ensures |q| == 3 ==> Value(v, q[1..]) == Push(Push(v, q[1]), q[2])
    ensures |q| == 4 ==> Value(v, q[1..]) == Push(Push(Push(v, q[1]), q[2]), q[3])
  {
    hide Push;
    assert Value(v, q[1..]) == Value(Push(v, q[1]), q[1..][1..]);
    assert q[1..][1..] == q[2..];
    if |q| >= 3 {
      assert Value(Push(v, q[1]), q[2..]) == Value(Push(Push(v, q[1]), q[2]), q[2..][1..]);
      assert q[2..][1..] == q[3..];
      if |q| == 4 {
        assert Value(Push(Push(v, q[1]), q[2]), q[3..]) == Value(Push(Push(Push(v, q[1]), q[2]), q[3]), q[3..][1..]);
        assert q[3..][1..] == [];
      }
    }
  }

  // Taking the last six bits off again.
  lemma Unpush(v: nat, b: Byte)
    requires IsContinuation(b) && v < 0x40_0000
    ensures Push(v, b) == v * 64 + (b - 0x80) && Push(v, b) / 64 == v && 0x80 + Push(v, b) % 64 == b
  {
  }

  lemma SixteenthOf(c: nat)
    ensures c / 4096 == c / 64 / 64 && c / 262144 == c / 64 / 64 / 64
  {
  }

  lemma Digits(v: nat, b: Byte, c: nat)
    requires IsContinuation(b) && c == v * 64 + (b - 0x80)
    ensures c / 64 == v && 0x80 + c % 64 == b
  {
  }

  lemma TwoBytes(a: Byte, b: Byte, chr: CodePoint)
    requires Following(a) == 1 && IsContinuation(b) && chr == (a - 0xC0) * 64 + (b - 0x80) && |Encode(chr)| == 2
    ensures Encode(chr) == [a, b]
  {
    Digits(a - 0xC0, b, chr);
  }

  lemma ThreeBytes(a: Byte, b: Byte, c: Byte, v: nat, chr: CodePoint)
    requires Following(a) == 2 && IsContinuation(b) && IsContinuation(c) && |Encode(chr)| == 3
    requires v == (a - 0xE0) * 64 + (b - 0x80) && chr == v * 64 + (c - 0x80)
    ensures Encode(chr) == [a, b, c]
  {
    Digits(a - 0xE0, b, v);
    Digits(v, c, chr);
    SixteenthOf(chr);
    hide IsContinuation;
  }

  lemma FourBytes(a: Byte, b: Byte, c: Byte, d: Byte, v: nat, w: nat, chr: CodePoint)
    requires Following(a) == 3 && IsContinuation(b) && IsContinuation(c) && IsContinuation(d) && |Encode(chr)| == 4
    requires v == (a - 0xF0) * 64 + (b - 0x80) && w == v * 64 + (c - 0x80) && chr == w * 64 + (d - 0x80)
    ensures Encode(chr) == [a, b, c, d]
  {
    Digits(a - 0xF0, b, v);
    Digits(v, c, w);
    Digits(w, d, chr);
    SixteenthOf(chr);
    hide IsContinuation;
  }

  lemma LeadOf(b: Byte)
    ensures Following(b) == 1 ==> LeadBits(b) == b - 0xC0
    ensures Following(b) == 2 ==> LeadBits(b) == b - 0xE0
    ensures Following(b) == 3 ==> LeadBits(b) == b - 0xF0
    ensures Following(b) > 0 ==> LeadBits(b) < 32
  {
  }

  // A complete sequence that is no longer than it need be is the encoding of its value.
  lemma EncodingIsUnique(q: seq<Byte>, chr: CodePoint)
    requires |q| >= 2 && Following(q[0]) == |q| - 1 && Continues(q[1..], |q|)
    requires chr == Value(LeadBits(q[0]), q[1..]) && |Encode(chr)| == |q|
    ensures q == Encode(chr)
  {
    hide Value, Continues, Push, LeadBits, IsContinuation, Encode;
    FollowingRange(q[0]);
    var v := LeadBits(q[0]);
    LeadOf(q[0]);
    WholeValue(q, v);
    ContinuesAt(q, 1);
    Unpush(v, q[1]);
    var w := Push(v, q[1]);
    if |q| == 2 {
      TwoBytes(q[0], q[1], chr);
    } else {
      ContinuesAt(q, 2);
      Unpush(w, q[2]);
      if |q| == 3 {
        ThreeBytes(q[0], q[1], q[2], w, chr);
      } else {
        ContinuesAt(q, 3);
        Unpush(Push(w, q[2]), q[3]);
        FourBytes(q[0], q[1], q[2], q[3], w, Push(w, q[2]), chr);
      }
    }
  }

  lemma FollowingRange(b: Byte)
    ensures -1 <= Following(b) <= 3
  {
  }

  lemma ContinuesAt(q: seq<Byte>, i: nat)
    requires 1 <= i < |q| && Continues(q[1..], |q|)
    ensures IsContinuation(q[i])
  {
    assert q[1..][i - 1] == q[i];
  }

  // The bytes of an encoding.
  lemma EncodedBytes(chr: CodePoint)
    ensures var e := Encode(chr); 1 <= |e| <= 4 && Following(e[0]) == |e| - 1
    ensures forall i :: 1 <= i < |Encode(chr)| ==> IsContinuation(Encode(chr)[i])
  {
    EncodedBits(chr);
  }

  // And the value they add up to.
  lemma EncodedValue(chr: CodePoint)
    requires |Encode(chr)| >= 2
    ensures LeadBits(Encode(chr)[0]) < 32 && Value(LeadBits(Encode(chr)[0]), Encode(chr)[1..]) == chr
  {
    var e := Encode(chr);
    EncodedBits(chr);
    WholeValue(e, LeadBits(e[0]));
    SixteenthOf(chr);
    hide Value;
    if |e| == 2 {
      PushBits(chr / 64, chr);
    } else if |e| == 3 {
      PushBits(chr / 4096, chr / 64);
      PushBits(chr / 64, chr);
    } else {
      PushBits(chr / 262144, chr / 4096);
      PushBits(chr / 4096, chr / 64);
      PushBits(chr / 64, chr);
    }
  }

  // Splitting an encoding after some of its bytes: the value of the rest.
  lemma EncodedRest(p: seq<Byte>, chr: CodePoint) returns (bs: seq<Byte>)
    requires IsPending(p) && p <= Encode(chr) && |p| < |Encode(chr)|
    ensures p + bs == Encode(chr) && Following(p[0]) == |Encode(chr)| - 1
    ensures IsTail(bs, |Encode(chr)| - |p|) && Value(Value(LeadBits(p[0]), p[1..]), bs) == chr
  {
    var e := Encode(chr);
    EncodedBytes(chr);
    EncodedValue(chr);
    bs := e[|p|..];
    assert p + bs == e && p[0] == e[0] && p[1..] + bs == e[1..];
    ValueAppend(LeadBits(p[0]), p[1..], bs);
    hide Encode, Value;
  }

  lemma PendingFits(p: seq<Byte>)
    requires IsPending(p)
    ensures Fits(Value(LeadBits(p[0]), p[1..]), Following(p[0]) + 1 - |p|)
  {
    LeadFits(p[0]);
    TailFits(p[1..], LeadBits(p[0]), Following(p[0]));
  }

  // A code point whose encoding is not longer than this many bytes is below a bound.
  lemma ShortEncoding(chr: CodePoint)
    ensures |Encode(chr)| == if chr < 0x80 then 1 else if chr < 0x800 then 2 else if chr < 0x10000 then 3 else 4
  {
  }

  // What the look-ahead counts as completions of the bytes of an incomplete sequence: the code
  // points whose encoding starts with these bytes are exactly those it counts whose encoding has
  // the length announced by the first byte. So it misses none, and those it counts besides are
  // overlong or out of range.
  lemma LookAheadExactly(p: seq<Byte>, start: nat, chr: CodePoint)
    requires IsPending(p)
    ensures var s := Decode(p, Partial(start, 0)).partial;
            && s.n == Following(p[0]) + 1 - |p| > 0
            && (p <= Encode(chr)
                <==> !(s.n == 1 && s.value < 2) && Completes(s.value, s.n, chr) && |Encode(chr)| == Following(p[0]) + 1)
  {
    var s := Decode(p, Partial(start, 0)).partial;
    PendingState(p, start);
    PendingFits(p);
    hide Decode, Value, LeadBits, Encode, Continues, IsTail, Fits, Completes, IsContinuation, Pow64;
    FollowingRange(p[0]);
    EncodedBytes(chr);
    if p <= Encode(chr) {
      var bs := EncodedRest(p, chr);
      TailCounts(s.value, s.n, bs, chr);
    }
    if Completes(s.value, s.n, chr) && |Encode(chr)| == Following(p[0]) + 1 {
      CountedHasTail(p, s.value, s.n, chr);
    }
  }

  // The value of a tail is counted unless its encoding is shorter.
  lemma TailCounts(value: nat, n: nat, bs: seq<Byte>, chr: CodePoint)
    requires n > 0 && Fits(value, n) && IsTail(bs, n) && Value(value, bs) == chr && |Encode(chr)| > n
    ensures Completes(value, n, chr) && !(n == 1 && value < 2)
  {
    ValueBecomes(value, n, bs);
    CompletesExactly(value, n, chr);
    ShortEncoding(chr);
    assert Pow64(1) == 64 * Pow64(0);
  }

  // A counted code point of the right length has the pending bytes in its encoding.
  lemma CountedHasTail(p: seq<Byte>, value: nat, n: nat, chr: CodePoint)
    requires IsPending(p) && n == Following(p[0]) + 1 - |p| && value == Value(LeadBits(p[0]), p[1..])
    requires n > 0 && Fits(value, n) && Completes(value, n, chr) && |Encode(chr)| == |p| + n
    ensures p <= Encode(chr)
  {
    hide Completes, Fits, Encode, Push, Value, LeadBits, Pow64, IsContinuation;
    CompletesExactly(value, n, chr);
    var bs := TailFor(value, n, chr);
    var q := p + bs;
    ValueAppend(LeadBits(p[0]), p[1..], bs);
    assert q[1..] == p[1..] + bs;
    EncodingIsUnique(q, chr);
  }

  // It does count overlong sequences: after E0 9F, of which no encoding starts, U+07C0; and
  // sequences out of range: after F5, all of what follows U+13FFFF.
  lemma LookAheadCountsMore()
    ensures var s := Decode([0xE0, 0x9F], Partial(0, 0)).partial;
            s == Partial(31, 1) && Completes(s.value, s.n, 0x7C0)
            && forall chr: CodePoint :: !([0xE0, 0x9F] <= Encode(chr))
    ensures var s := Decode([0xF5], Partial(0, 0)).partial;
            s == Partial(5, 3) && Completes(s.value, s.n, 0x140000)
            && forall chr: CodePoint :: !([0xF5] <= Encode(chr))
  {
    var p: seq<Byte> := [0xE0, 0x9F];
    assert p[1..] == [0x9F] && p[1..][1..] == [];
    assert Scan(p[1..], 0, 2, false, false) == Run([], 31, 1);
    var f5: seq<Byte> := [0xF5];
    assert f5[1..] == [];
    assert Pow64(0) == 1 && Pow64(1) == 64 && Pow64(2) == 4096 && Pow64(3) == 262144;
    forall chr: CodePoint
      ensures !([0xE0, 0x9F] <= Encode(chr)) && !([0xF5] <= Encode(chr))
    {
      if |Encode(chr)| == 3 {
        assert Encode(chr)[0] == 0xE0 ==> chr < 4096 && Encode(chr)[1] >= 0x80 + 0x20;
      }
    }
  }
}
