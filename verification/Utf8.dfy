/**
 The streaming UTF-8 decoder of the grammar engine. Text arrives in pieces, and a sequence cut
 by the end of a piece is carried over as its value so far and the number of missing bytes.
 */
module Utf8 {

  // A byte of a C string: the terminating zero is the end of the sequence.
  type Byte = b: int | 0 < b < 0x100 witness 1

  // n is the number of bytes missing, or -1 after an invalid sequence.
  datatype Partial = Partial(value: nat, n: int)

  // Sequence length by the high four bits of the first byte, less one; -1 for a byte that
  // cannot start a sequence.
  function Following(b: Byte): int {
    if b < 0x80 then 0 else if b < 0xC0 then -1 else if b < 0xE0 then 1 else if b < 0xF0 then 2 else 3
  }

  predicate IsContinuation(b: Byte) { b / 64 == 2 }

  // The bits of a first byte that belong to the code point.
  function LeadBits(b: Byte): nat
    requires Following(b) >= 0
  {
    match Following(b)
    case 0 => b % 128
    case 1 => b % 64
    case 2 => b % 32
    case _ => b % 16
  }

  // A 32-bit shift by six and an addition.
  function Push(value: nat, b: Byte): nat {
    (value * 64 + b % 64) % 0x1_0000_0000
  }

  /* ---- the meaning of a piece of text ---- */

  datatype Run = Run(cps: seq<nat>, value: nat, n: int) | Bad

  function Join(cps: seq<nat>, r: Run): Run {
    match r
    case Bad => Bad
    case Run(c, v, n) => Run(cps + c, v, n)
  }

  // Scanning byte by byte. `checked` says whether the bytes of the current sequence must be
  // continuation bytes; the decoder checks them only in a sequence it resumes, so it scans
  // later sequences with `strict` false.
  function Scan(src: seq<Byte>, value: nat, n: int, checked: bool, strict: bool): Run {
    if src == [] then Run([], value, n)
    else if n > 0 then
      if checked && !IsContinuation(src[0]) then Bad
      else
        var v := Push(value, src[0]);
        Join(if n == 1 then [v] else [], Scan(src[1..], v, n - 1, if n == 1 then strict else checked, strict))
    else if Following(src[0]) < 0 then Bad
    else
      var v, k := LeadBits(src[0]), Following(src[0]);
      Join(if k == 0 then [v] else [], Scan(src[1..], v, k, strict, strict))
  }

  // What the decoder makes of a piece.
  function Meaning(src: seq<Byte>, start: Partial): Run {
    Scan(src, start.value, start.n, true, false)
  }

  // What a call hands over: the code points, and the state for the next call. An invalid piece
  // contributes nothing and leaves -1 bytes missing.
  datatype Reading = Reading(cps: seq<nat>, partial: Partial)

  function Decode(src: seq<Byte>, start: Partial): Reading {
    match Meaning(src, start)
    case Bad => Reading([], Partial(0, -1))
    case Run(cps, v, n) => Reading(cps, Partial(v, n))
  }

  // Two calls, the second resuming from what the first one left.
  function DecodeTwice(a: seq<Byte>, b: seq<Byte>, start: Partial): Reading {
    var first := Decode(a, start);
    var second := Decode(b, first.partial);
    Reading(first.cps + second.cps, second.partial)
  }

  // The bytes that complete the current sequence are continuation bytes.
  predicate Continues(src: seq<Byte>, n: int) {
    forall i :: 0 <= i < n && i < |src| ==> IsContinuation(src[i])
  }

  lemma ScanFrom(src: seq<Byte>, pos: nat, value: nat, n: int, checked: bool)
    requires pos < |src|
    ensures Scan(src[pos..], value, n, checked, false) ==
              if n > 0 then
                if checked && !IsContinuation(src[pos]) then Bad
                else
                  var v := Push(value, src[pos]);
                  Join(if n == 1 then [v] else [], Scan(src[pos + 1..], v, n - 1, n != 1 && checked, false))
              else if Following(src[pos]) < 0 then Bad
              else
                var v, k := LeadBits(src[pos]), Following(src[pos]);
                Join(if k == 0 then [v] else [], Scan(src[pos + 1..], v, k, false, false))
  {
    assert src[pos..][1..] == src[pos + 1..];
  }

  lemma ScanEnd(value: nat, n: int, checked: bool)
    ensures Scan([], value, n, checked, false) == Run([], value, n)
  {
  }

  /* ---- the decoder ---- */

  // On an invalid piece the result is empty, with -1 bytes missing. The final zero is the
  // terminator callers rely on.
  method DecodeUtf8(src: seq<Byte>, start: Partial) returns (codePoints: seq<nat>, partial: Partial)
    ensures codePoints != [] && codePoints[|codePoints| - 1] == 0
    ensures codePoints == Decode(src, start).cps + [0] && partial == Decode(src, start).partial
  {
    hide Scan, Push, LeadBits, Join;
    ghost var all := Meaning(src, start);
    var pos, value, nRemain := 0, start.value, start.n;
    codePoints := [];
    assert src[0..] == src;
    // first what completes a sequence cut earlier
    while pos < |src| && nRemain > 0
      invariant 0 <= pos <= |src| && nRemain <= start.n
      invariant start.n > 0 ==> nRemain >= 0
      invariant all == if start.n > 0 && nRemain == 0 then Join([value], Scan(src[pos..], value, 0, false, false))
                       else Scan(src[pos..], value, nRemain, true, false)
    {
      ScanFrom(src, pos, value, nRemain, true);
      if !IsContinuation(src[pos]) {
        return [0], Partial(0, -1);
      }
      value := Push(value, src[pos]);
      pos := pos + 1;
      nRemain := nRemain - 1;
      JoinNothing(Scan(src[pos..], value, nRemain, true, false));
    }
    LooseStart(src[pos..], value, nRemain);
    if start.n > 0 && nRemain == 0 {
      codePoints := codePoints + [value];
      assert codePoints == [value];
    }
    // then sequence by sequence; the last may be cut
    while pos < |src|
      invariant 0 <= pos <= |src|
      invariant pos < |src| ==> nRemain <= 0
      invariant all == Join(codePoints, Scan(src[pos..], value, nRemain, false, false))
      decreases |src| - pos
    {
      ScanFrom(src, pos, value, nRemain, false);
      JoinBad(codePoints);
      nRemain := Following(src[pos]);
      if nRemain < 0 {
        return [0], Partial(0, nRemain);
      }
      value := LeadBits(src[pos]);
      pos := pos + 1;
      ghost var k := nRemain;
      JoinNothing(Scan(src[pos..], value, nRemain, false, false));
      while pos < |src| && nRemain > 0
        invariant 0 <= pos <= |src| && 0 <= nRemain <= k
        invariant all == Join(codePoints, Join(if nRemain == 0 then [value] else [],
                                               Scan(src[pos..], value, nRemain, false, false)))
        decreases |src| - pos
      {
        ScanFrom(src, pos, value, nRemain, false);
        JoinNothing(Scan(src[pos..], value, nRemain, false, false));
        value := Push(value, src[pos]);
        pos := pos + 1;
        nRemain := nRemain - 1;
      }
      JoinTwice(codePoints, if nRemain == 0 then [value] else [], Scan(src[pos..], value, nRemain, false, false));
      if nRemain == 0 {
        codePoints := codePoints + [value];
      }
      assert nRemain > 0 ==> codePoints + [] == codePoints;
    }
    assert src[pos..] == [];
    ScanEnd(value, nRemain, false);
    JoinEnd(codePoints, value, nRemain);
    codePoints := codePoints + [0];
    partial := Partial(value, nRemain);
  }

  lemma JoinBad(a: seq<nat>)
    ensures Join(a, Bad) == Bad
  {
  }

  lemma JoinEnd(a: seq<nat>, value: nat, n: int)
    ensures Join(a, Run([], value, n)) == Run(a, value, n)
  {
    assert a + [] == a;
  }

  lemma JoinTwice(a: seq<nat>, b: seq<nat>, r: Run)
    ensures Join(a, Join(b, r)) == Join(a + b, r)
  {
    if r.Run? {
      assert a + (b + r.cps) == a + b + r.cps;
    }
  }

  // With no sequence pending, or nothing left, the check is irrelevant.
  lemma LooseStart(src: seq<Byte>, value: nat, n: int)
    requires src == [] || n <= 0
    ensures Scan(src, value, n, true, false) == Scan(src, value, n, false, false)
    ensures Join([], Scan(src, value, n, false, false)) == Scan(src, value, n, false, false)
  {
  }

  /* ---- splitting ---- */

  // Scanning is compositional: what is left of a sequence and whether it is checked carry over.
  lemma {:induction false} ScanAppend(a: seq<Byte>, b: seq<Byte>, value: nat, n: int, checked: bool, strict: bool)
    returns (inner: bool)
    ensures Scan(a, value, n, checked, strict).Bad? ==> Scan(a + b, value, n, checked, strict).Bad?
    ensures Scan(a, value, n, checked, strict).Run? ==>
              var r := Scan(a, value, n, checked, strict);
              Scan(a + b, value, n, checked, strict) == Join(r.cps, Scan(b, r.value, r.n, inner, strict))
    ensures checked == strict ==> inner == strict
    ensures |a| < n ==> inner == checked
    ensures a != [] && |a| >= n ==> inner == strict
  {
    if a == [] {
      assert a + b == b;
      assert Join([], Scan(b, value, n, checked, strict)) == Scan(b, value, n, checked, strict) by {
        var r := Scan(b, value, n, checked, strict);
        assert r.Run? ==> [] + r.cps == r.cps;
      }
      inner := checked;
    } else {
      assert (a + b)[1..] == a[1..] + b && (a + b)[0] == a[0];
      if n > 0 {
        var v := Push(value, a[0]);
        inner := ScanAppend(a[1..], b, v, n - 1, if n == 1 then strict else checked, strict);
        var r := Scan(a[1..], v, n - 1, if n == 1 then strict else checked, strict);
        if r.Run? {
          JoinTwice(if n == 1 then [v] else [], r.cps, Scan(b, r.value, r.n, inner, strict));
        }
      } else if Following(a[0]) >= 0 {
        var v, k := LeadBits(a[0]), Following(a[0]);
        inner := ScanAppend(a[1..], b, v, k, strict, strict);
        var r := Scan(a[1..], v, k, strict, strict);
        if r.Run? {
          JoinTwice(if k == 0 then [v] else [], r.cps, Scan(b, r.value, r.n, inner, strict));
        }
      } else {
        inner := strict;
      }
    }
  }

  // Checking the rest of a sequence rejects it or changes nothing.
  lemma {:induction false} CheckedScan(src: seq<Byte>, value: nat, n: int)
    ensures Scan(src, value, n, true, false) == if Continues(src, n) then Scan(src, value, n, false, false) else Bad
  {
    if src != [] && n > 0 && IsContinuation(src[0]) {
      CheckedScan(src[1..], Push(value, src[0]), n - 1);
      assert Continues(src, n) <==> Continues(src[1..], n - 1) by {
        assert forall i :: 0 <= i < n - 1 && i < |src| - 1 ==> src[1..][i] == src[i + 1];
        assert forall i :: 1 <= i < n && i < |src| ==> src[i] == src[1..][i - 1];
      }
    }
  }

  // A piece after the first byte of which nothing is pending has a known number of missing bytes.
  lemma {:induction false} ScanLeaves(src: seq<Byte>, value: nat, n: int, checked: bool, strict: bool)
    ensures var r := Scan(src, value, n, checked, strict);
            r.Run? && src != [] ==> r.n >= 0
  {
    if src != [] {
      if n > 0 {
        var v := Push(value, src[0]);
        ScanLeaves(src[1..], v, n - 1, if n == 1 then strict else checked, strict);
      } else if Following(src[0]) >= 0 {
        ScanLeaves(src[1..], LeadBits(src[0]), Following(src[0]), strict, strict);
      }
    }
  }

  // After a valid first piece, reading on is reading the whole, but that the bytes still missing
  // are checked: exactly when they are continuation bytes does that make no difference.
  lemma ReadingOn(a: seq<Byte>, b: seq<Byte>, start: Partial)
    requires Meaning(a, start).Run?
    ensures var r := Meaning(a, start);
            var second := Meaning(b, Partial(r.value, r.n));
            && (Meaning(a + b, start).Bad? ==> second.Bad?)
            && (Meaning(a + b, start).Run? ==>
                  if Continues(b, r.n) then Meaning(a + b, start) == Join(r.cps, second)
                  else second.Bad? && b != [])
  {
    var inner := ScanAppend(a, b, start.value, start.n, true, false);
    var r := Meaning(a, start);
    CheckedScan(b, r.value, r.n);
    hide Scan;
  }

  // Two calls hand over what one call on the whole text does exactly in these cases: the first
  // piece is invalid, and the second is empty or invalid too; or only the whole is invalid, and
  // the first piece completed no code point; or the whole is valid, and the second piece starts
  // with the continuation bytes that the first one left open.
  lemma SplitAgrees(a: seq<Byte>, b: seq<Byte>, start: Partial)
    ensures var r := Meaning(a, start);
            DecodeTwice(a, b, start) == Decode(a + b, start)
            <==> if r.Bad? then b == [] || Meaning(b, Partial(0, -1)).Bad?
                 else if Meaning(a + b, start).Bad? then r.cps == []
                 else Continues(b, r.n)
  {
    hide Scan, Continues;
    var r := Meaning(a, start);
    var inner := ScanAppend(a, b, start.value, start.n, true, false);
    ScanLeaves(a + b, start.value, start.n, true, false);
    if r.Bad? {
      ScanLeaves(b, 0, -1, true, false);
      NothingRead();
    } else {
      ReadingOn(a, b, start);
    }
  }

  lemma NothingRead()
    ensures Decode([], Partial(0, -1)) == Reading([], Partial(0, -1))
  {
  }

  // Text on which the two ways differ: a character in place of a continuation byte is taken for
  // one when the text is whole.
  lemma SplitDiffers()
    ensures Decode([0xC3, 0x41], Partial(0, 0)) == Reading([0xC1], Partial(0xC1, 0))
    ensures DecodeTwice([0xC3], [0x41], Partial(0, 0)) == Reading([], Partial(0, -1))
  {
    assert Scan([0x41], 3, 1, false, false) == Run([0xC1], 0xC1, 0) by {
      assert [0x41][1..] == [];
    }
    assert [0xC3, 0x41][1..] == [0x41];
    assert [0xC3][1..] == [];
    assert Decode([0xC3], Partial(0, 0)) == Reading([], Partial(3, 1));
    assert Decode([0x41], Partial(3, 1)) == Reading([], Partial(0, -1));
  }

  // After an invalid piece the next one is read afresh, where the whole is refused.
  lemma SplitRecovers()
    ensures Decode([0x80, 0x41], Partial(0, 0)) == Reading([], Partial(0, -1))
    ensures DecodeTwice([0x80], [0x41], Partial(0, 0)) == Reading([0x41], Partial(0x41, 0))
  {
    OneAscii(-1);
    assert Decode([0x80], Partial(0, 0)) == Reading([], Partial(0, -1));
  }

  // And a valid piece before an invalid one has been handed over already.
  lemma SplitKeeps()
    ensures Decode([0x41, 0x80], Partial(0, 0)) == Reading([], Partial(0, -1))
    ensures DecodeTwice([0x41], [0x80], Partial(0, 0)) == Reading([0x41], Partial(0, -1))
  {
    OneAscii(0);
    assert [0x41, 0x80][1..] == [0x80];
    assert Scan([0x80], 0x41, 0, false, false) == Bad;
    assert Decode([0x80], Partial(0x41, 0)) == Reading([], Partial(0, -1));
  }

  lemma OneAscii(n: int)
    requires n <= 0
    ensures Decode([0x41], Partial(0, n)) == Reading([0x41], Partial(0x41, 0))
  {
    assert [0x41][1..] == [];
    assert Scan([], 0x41, 0, false, false) == Run([], 0x41, 0);
    assert [0x41] + [] == [0x41];
  }

  // Text whose sequences are all complete and checked reads the same either way.
  lemma {:induction false} StrictIsLoose(src: seq<Byte>, value: nat, n: int, checked: bool)
    requires Scan(src, value, n, true, true).Run?
    ensures Scan(src, value, n, checked, false) == Scan(src, value, n, true, true)
  {
    if src != [] {
      if n > 0 {
        StrictIsLoose(src[1..], Push(value, src[0]), n - 1, if n == 1 then false else checked);
      } else {
        StrictIsLoose(src[1..], LeadBits(src[0]), Following(src[0]), false);
      }
    }
  }

  /* ---- RFC 3629, section 3 ---- */

  type CodePoint = c: int | 0 < c < 0x110000 witness 1

  function Encode(c: CodePoint): seq<Byte> {
    if c < 0x80 then [c]
    else if c < 0x800 then [0xC0 + c / 64, 0x80 + c % 64]
    else if c < 0x10000 then [0xE0 + c / 4096, 0x80 + c / 64 % 64, 0x80 + c % 64]
    else [0xF0 + c / 262144, 0x80 + c / 4096 % 64, 0x80 + c / 64 % 64, 0x80 + c % 64]
  }

  function EncodeAll(cps: seq<CodePoint>): seq<Byte> {
    if cps == [] then [] else Encode(cps[0]) + EncodeAll(cps[1..])
  }

  lemma ScanOne(b: Byte, rest: seq<Byte>, value: nat, n: int)
    requires n > 0 ==> IsContinuation(b)
    requires n <= 0 ==> Following(b) >= 0
    ensures var v := if n > 0 then Push(value, b) else LeadBits(b);
            var k := if n > 0 then n - 1 else Following(b);
            Scan([b] + rest, value, n, true, true) == Join(if k == 0 then [v] else [], Scan(rest, v, k, true, true))
  {
    assert ([b] + rest)[1..] == rest;
  }

  lemma JoinNothing(r: Run)
    ensures Join([], r) == r
  {
  }

  // The bits of an encoding reassemble the code point.
  lemma EncodedBits(c: CodePoint)
    ensures c < 0x80 ==> Following(c) == 0 && LeadBits(c) == c
    ensures 0x80 <= c < 0x800 ==> Following(0xC0 + c / 64) == 1 && LeadBits(0xC0 + c / 64) == c / 64
    ensures 0x800 <= c < 0x10000 ==> Following(0xE0 + c / 4096) == 2 && LeadBits(0xE0 + c / 4096) == c / 4096
    ensures 0x10000 <= c ==> Following(0xF0 + c / 262144) == 3 && LeadBits(0xF0 + c / 262144) == c / 262144
  {
  }

  // A continuation byte appends six bits.
  lemma PushBits(v: nat, c: nat)
    requires v == c / 64 && c < 0x110000
    ensures IsContinuation(0x80 + c % 64) && Push(v, 0x80 + c % 64) == c
  {
    assert c == v * 64 + c % 64;
  }

  // One encoded code point is scanned as that code point.
  lemma ScanEncoded(c: CodePoint, rest: seq<Byte>, value: nat)
    ensures Scan(Encode(c) + rest, value, 0, true, true) == Join([c], Scan(rest, c, 0, true, true))
  {
    hide Scan, Push, LeadBits, Join, IsContinuation, Following;
    var e := Encode(c);
    var after := Scan(rest, c, 0, true, true);
    EncodedBits(c);
    JoinNothing(Join([c], after));
    PushBits(c / 64, c);
    if c < 0x80 {
      ScanOne(e[0], rest, value, 0);
    } else if c < 0x800 {
      assert e + rest == [e[0]] + ([e[1]] + rest);
      ScanOne(e[0], [e[1]] + rest, value, 0);
      ScanOne(e[1], rest, c / 64, 1);
    } else if c < 0x10000 {
      PushBits(c / 4096, c / 64);
      assert e + rest == [e[0]] + ([e[1]] + ([e[2]] + rest));
      ScanOne(e[0], [e[1]] + ([e[2]] + rest), value, 0);
      ScanOne(e[1], [e[2]] + rest, c / 4096, 2);
      ScanOne(e[2], rest, c / 64, 1);
    } else {
      PushBits(c / 4096, c / 64);
      PushBits(c / 262144, c / 4096);
      assert e + rest == [e[0]] + ([e[1]] + ([e[2]] + ([e[3]] + rest)));
      ScanOne(e[0], [e[1]] + ([e[2]] + ([e[3]] + rest)), value, 0);
      ScanOne(e[1], [e[2]] + ([e[3]] + rest), c / 262144, 3);
      ScanOne(e[2], [e[3]] + rest, c / 4096, 2);
      ScanOne(e[3], rest, c / 64, 1);
    }
  }

  function Last(cps: seq<CodePoint>, value: nat): nat {
    if cps == [] then value else cps[|cps| - 1]
  }

  lemma {:induction false} ScanEncodedAll(cps: seq<CodePoint>, value: nat)
    ensures Scan(EncodeAll(cps), value, 0, true, true) == Run(cps, Last(cps, value), 0)
  {
    hide Encode;
    if cps == [] {
      assert EncodeAll(cps) == [];
    } else {
      hide Scan;
      ScanEncoded(cps[0], EncodeAll(cps[1..]), value);
      ScanEncodedAll(cps[1..], cps[0]);
      assert [cps[0]] + cps[1..] == cps;
    }
  }

  // Decoding inverts encoding, however the text is cut into two pieces: the second call
  // resumes from what the first one left.
  lemma DecodeEncoded(cps: seq<CodePoint>, a: seq<Byte>, b: seq<Byte>, value: nat)
    requires a + b == EncodeAll(cps)
    ensures Meaning(a + b, Partial(value, 0)) == Run(cps, Last(cps, value), 0)
    ensures Decode(a + b, Partial(value, 0)) == Reading(cps, Partial(Last(cps, value), 0))
    ensures DecodeTwice(a, b, Partial(value, 0)) == Reading(cps, Partial(Last(cps, value), 0))
  {
    ScanEncodedAll(cps, value);
    StrictIsLoose(a + b, value, 0, true);
    var inner := ScanAppend(a, b, value, 0, true, true);
    StrictIsLoose(a, value, 0, true);
    var r := Scan(a, value, 0, true, true);
    StrictIsLoose(b, r.value, r.n, true);
  }
}
