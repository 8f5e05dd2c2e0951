/**
 From the tokens of a decoded window to segments of text, and wrapping a segment into pieces of
 limited length.
 */
module Segments {
  import opened Timestamps
  import Utf8

  type Text = seq<Utf8.Byte>

  // tid is the most likely timestamp at the token, or the token itself if it is one; t0 is the
  // start of the token.
  datatype Token = Token(id: nat, tid: int, t0: int)

  datatype Segment = Segment(t0: int, t1: int, text: Text, tokens: seq<Token>, turn: bool)

  // Characters, not bytes: continuation bytes do not count.
  function Length(text: Text): nat {
    if text == [] then 0 else Length(text[..|text| - 1]) + if 0x80 <= text[|text| - 1] < 0xC0 then 0 else 1
  }

  // The text of the tokens that stand for text.
  function TextOf(tokens: seq<Token>, v: Vocab, words: nat -> Text): Text {
    if tokens == [] then []
    else
      var last := tokens[|tokens| - 1];
      TextOf(tokens[..|tokens| - 1], v, words) + if last.id < v.eot then words(last.id) else []
  }

  // The text of all tokens.
  function Spelled(tokens: seq<Token>, words: nat -> Text): Text {
    if tokens == [] then [] else Spelled(tokens[..|tokens| - 1], words) + words(tokens[|tokens| - 1].id)
  }

  function Count(tokens: seq<Token>, v: Vocab): nat {
    if tokens == [] then 0 else Count(tokens[..|tokens| - 1], v) + if tokens[|tokens| - 1].id < v.eot then 1 else 0
  }

  function Texts(segments: seq<Segment>): Text {
    if segments == [] then [] else Texts(segments[..|segments| - 1]) + segments[|segments| - 1].text
  }

  function Tokens(segments: seq<Segment>): seq<Token> {
    if segments == [] then [] else Tokens(segments[..|segments| - 1]) + segments[|segments| - 1].tokens
  }

  lemma {:induction false} LengthAppend(a: Text, b: Text)
    ensures Length(a + b) == Length(a) + Length(b)
  {
    if b == [] {
      assert a + b == a;
    } else {
      LengthAppend(a, b[..|b| - 1]);
      assert (a + b)[..|a + b| - 1] == a + b[..|b| - 1];
    }
  }

  lemma {:induction false} TextAppend(a: seq<Token>, b: seq<Token>, v: Vocab, words: nat -> Text)
    ensures TextOf(a + b, v, words) == TextOf(a, v, words) + TextOf(b, v, words)
  {
    if b == [] {
      assert a + b == a;
    } else {
      TextAppend(a, b[..|b| - 1], v, words);
      assert (a + b)[..|a + b| - 1] == a + b[..|b| - 1];
    }
  }

  lemma EmptyLength()
    ensures Length([]) == 0
  {
  }

  lemma OneMore(tokens: seq<Token>, i: nat, v: Vocab, words: nat -> Text)
    requires i < |tokens|
    ensures TextOf(tokens[..i + 1], v, words)
            == TextOf(tokens[..i], v, words) + if tokens[i].id < v.eot then words(tokens[i].id) else []
    ensures Count(tokens[..i + 1], v) == Count(tokens[..i], v) + if tokens[i].id < v.eot then 1 else 0
  {
    assert tokens[..i + 1][..i] == tokens[..i];
  }

  /* ---- wrapping ---- */

  // A piece may be cut before a text token; before the start of a word only, if asked to.
  predicate MayCut(token: Token, v: Vocab, words: nat -> Text, onWord: bool) {
    token.id < v.eot && (onWord ==> words(token.id) != [] && words(token.id)[0] == ' ' as int)
  }

  // Token i of a piece fits, if the piece might have been cut before it.
  ghost predicate FitsAt(tokens: seq<Token>, i: int, v: Vocab, words: nat -> Text, maxLen: nat, onWord: bool)
    requires 0 <= i < |tokens|
  {
    MayCut(tokens[i], v, words, onWord) ==>
      Length(TextOf(tokens[..i], v, words)) + Length(words(tokens[i].id)) <= maxLen
  }

  // No cut was missed among the first n tokens.
  ghost predicate Uncut(tokens: seq<Token>, n: int, v: Vocab, words: nat -> Text, maxLen: nat, onWord: bool)
    requires n <= |tokens|
  {
    forall i :: 0 < i < n ==> FitsAt(tokens, i, v, words, maxLen, onWord)
  }

  lemma UncutFront(tokens: seq<Token>, n: nat, v: Vocab, words: nat -> Text, maxLen: nat, onWord: bool)
    requires n <= |tokens| && Uncut(tokens, n, v, words, maxLen, onWord)
    ensures Uncut(tokens[..n], n, v, words, maxLen, onWord)
  {
    forall i | 0 < i < n
      ensures FitsAt(tokens[..n], i, v, words, maxLen, onWord)
    {
      assert FitsAt(tokens, i, v, words, maxLen, onWord);
      assert tokens[..n][..i] == tokens[..i];
    }
  }

  // A finished piece, with the token that begins the next one.
  ghost predicate Piece(s: Segment, next: Token, v: Vocab, words: nat -> Text, maxLen: nat, onWord: bool) {
    && s.tokens != [] && s.text == TextOf(s.tokens, v, words) && !s.turn
    && s.t1 == next.t0 && MayCut(next, v, words, onWord)
    // the next token did not fit, but all before it did
    && Length(s.text) + Length(words(next.id)) > maxLen
    && Uncut(s.tokens, |s.tokens|, v, words, maxLen, onWord)
    && (!onWord ==> Length(s.text) <= maxLen || Count(s.tokens, v) == 1)
  }

  // What wrapping a segment produces.
  ghost predicate IsWrapped(s: Segment, pieces: seq<Segment>, v: Vocab, words: nat -> Text, maxLen: nat, onWord: bool) {
    && pieces != [] && Tokens(pieces) == s.tokens
    && pieces[0].t0 == s.t0
    && Finished(s, pieces[..|pieces| - 1], pieces[|pieces| - 1], v, words, maxLen, onWord)
    && var last := pieces[|pieces| - 1];
       last.text == TextOf(last.tokens, v, words) && Uncut(last.tokens, |last.tokens|, v, words, maxLen, onWord)
           && (!onWord ==> Length(last.text) <= maxLen || Count(last.tokens, v) == 1)
  }

  // Finished pieces, and the segment that is left.
  ghost predicate Finished(s: Segment, done: seq<Segment>, rest: Segment, v: Vocab, words: nat -> Text, maxLen: nat,
                           onWord: bool) {
    && rest.t1 == s.t1 && rest.turn == s.turn
    && (done != [] ==> rest.tokens != [])
    && forall k :: 0 <= k < |done| ==> LinkedTo(done, rest, k, v, words, maxLen, onWord)
  }

  ghost predicate LinkedTo(done: seq<Segment>, rest: Segment, k: int, v: Vocab, words: nat -> Text, maxLen: nat,
                           onWord: bool)
    requires 0 <= k < |done|
  {
    var next := if k + 1 < |done| then done[k + 1] else rest;
    next.tokens != [] && next.t0 == next.tokens[0].t0 && Piece(done[k], next.tokens[0], v, words, maxLen, onWord)
  }

  // What is printed, and how segments are cut.
  datatype Output = Output(printSpecial: bool, singleSegment: bool, tokenTimestamps: bool, maxLen: nat, onWord: bool,
                           turnToken: Option<nat>)

  class Transcript {
    var all: seq<Segment>

    constructor ()
      ensures all == []
    {
      all := [];
    }

    // Wraps the last segment to maxLen characters; returns the number of pieces.
    method WrapLast(v: Vocab, words: nat -> Text, maxLen: nat, onWord: bool) returns (res: nat)
      requires all != []
      modifies this
      ensures |old(all)| - 1 + res == |all| && all[..|old(all)| - 1] == old(all)[..|old(all)| - 1]
      ensures IsWrapped(old(all)[|old(all)| - 1], all[|old(all)| - 1..], v, words, maxLen, onWord)
    {
      var segment := all[|all| - 1];
      res := 1;
      var acc := 0;
      var text: Text := [];
      ghost var whole, before, done: seq<Segment> := segment, all[..|all| - 1], [];
      var i := 0;
      WrapStart(whole, v, words, maxLen, onWord);
      hide Wrapping, IsWrapped, Length, TextOf;
      while i < |segment.tokens|
        invariant 0 <= i <= |segment.tokens| && res == |done| + 1
        invariant all == before + done + [segment]
        invariant acc >= 0 && Wrapping(whole, done, segment, i, acc, text, v, words, maxLen, onWord)
        decreases |segment.tokens|, |segment.tokens| - i
      {
        var token := segment.tokens[i];
        if token.id >= v.eot {
          WrapRead(whole, done, segment, i, acc, text, v, words, maxLen, onWord);
          i := i + 1;
          continue;
        }
        var txt := words(token.id);
        var cur := Length(txt);
        var piece := segment.(text := text, t1 := token.t0, tokens := segment.tokens[..i], turn := false);
        var rest := Segment(token.t0, segment.t1, [], segment.tokens[i..], segment.turn);
        if acc + cur > maxLen && i > 0 && (!onWord || (txt != [] && txt[0] == ' ' as int)) {
          WrapCut(whole, done, segment, i, acc, text, v, words, maxLen, onWord);
          SplitLast(before + done, segment, piece, rest);
          all := all[..|all| - 1] + [piece];
          all := all + [rest];
          acc, text, segment := 0, [], rest;
          i := 0;
          res := res + 1;
          Regroup(before, done, piece, rest);
          done := done + [piece];
        } else {
          WrapRead(whole, done, segment, i, acc, text, v, words, maxLen, onWord);
          acc := acc + cur;
          text := text + txt;
          i := i + 1;
        }
      }
      WrapEnd(whole, done, segment, acc, text, v, words, maxLen, onWord);
      Regroup(before, done, segment.(text := text), segment);
      SplitLast(before + done, segment, segment.(text := text), segment);
      all := all[..|all| - 1] + [all[|all| - 1].(text := text)];
    }

    // Adds a segment, stamps its tokens with times if asked to, and wraps it.
    method Push(s: Segment, v: Vocab, words: nat -> Text, e: Output, stamp: (nat, nat) -> int)
      modifies this
      ensures Pushed(old(all), all, s, v, words, e)
      ensures e.tokenTimestamps ==>
                var n, stamped := |old(all)|, s.(tokens := Stamped(s.tokens, |old(all)|, stamp));
                if e.maxLen == 0 then all == old(all) + [stamped]
                else n <= |all| && all[..n] == old(all) && IsWrapped(stamped, all[n..], v, words, e.maxLen, e.onWord)
    {
      var n := |all|;
      all := all + [s];
      TextsAppend(old(all), [s]);
      assert Texts([s]) == s.text by {
        assert [s][..0] == [];
      }
      hide Texts, TextOf, IsWrapped;
      if e.tokenTimestamps {
        var stamped := s.(tokens := Stamped(s.tokens, n, stamp));
        SameIdsSameText(s.tokens, stamped.tokens, v, words);
        all := all[n := stamped];
        SplitLast(old(all), s, stamped, s);
        TextsAppend(old(all), [stamped]);
        OneText(s);
        OneText(stamped);
        if e.maxLen > 0 {
          var before := all;
          var res := WrapLast(v, words, e.maxLen, e.onWord);
          assert before[..n] == old(all) && before[n] == stamped;
          WrapKeepsText(stamped, all[n..], v, words, e.maxLen, e.onWord);
          TextsAppend(old(all), all[n..]);
          assert all == old(all) + all[n..];
        }
      }
    }

    // The segments of a decoded window.
    method Emit(tokens: seq<Token>, seek: int, seekDelta: int, v: Vocab, words: nat -> Text, e: Output,
                stamp: (nat, nat) -> int)
      requires v.eot < v.beg
      modifies this
      ensures Emitted(Emission(old(all), tokens, seek, seekDelta, v, words, e), all)
    {
      hide Progress, Emitted, Pushed;
      if tokens == [] {
        NothingEmitted(all, tokens, seek, seekDelta, v, words, e);
        return;
      }
      ghost var before := all;
      var i, i0 := 0, 0;
      var t0 := seek + 2 * (tokens[0].tid - v.beg);
      var text: Text := [];
      var turn := false;
      ghost var x := Emission(before, tokens, seek, seekDelta, v, words, e);
      ProgressStart(x, t0);
      while i < |tokens|
        invariant 0 <= i0 <= i <= |tokens| && Progress(x, all, i0, i, text, turn, t0)
        invariant NoTime(x, i0, i)
        decreases |tokens| - i
      {
        ProgressRead(x, all, i0, i, text, turn, t0);
        if e.printSpecial || tokens[i].id < v.eot {
          text := text + words(tokens[i].id);
        }
        if e.turnToken == Some(tokens[i].id) {
          turn := true;
        }
        i := i + 1;
        if tokens[i - 1].id > v.beg && !e.singleSegment {
          var t1 := seek + 2 * (tokens[i - 1].tid - v.beg);
          CloseAt(x, tokens, i0, i, t0, t1, text, turn, v, words, e, stamp);
          i, text, t0 := SkipTimes(x, tokens, i, seek, t1, v, words, e);
          i0 := i;
          turn := false;
        }
      }
      Flush(x, tokens, i0, t0, seek + seekDelta, text, turn, v, words, e, stamp);
    }

    // What is left makes the last segment.
    method Flush(ghost x: Emission, tokens: seq<Token>, i0: nat, t0: int, t1: int, text: Text, turn: bool,
                 v: Vocab, words: nat -> Text, e: Output, stamp: (nat, nat) -> int)
      requires x.tokens == tokens && x.v == v && x.words == words && x.e == e
      requires i0 <= |tokens| && Progress(x, all, i0, |tokens|, text, turn, t0) && t1 == x.seek + x.seekDelta
      requires NoTime(x, i0, |tokens|)
      modifies this
      ensures Emitted(x, all)
    {
      hide Progress, Pushed, Emitted;
      if text != [] {
        ghost var all0 := all;
        Push(Segment(t0, t1, text, tokens[i0..], turn), v, words, e, stamp);
        ProgressEnd(x, all0, all, i0, text, t0, turn);
      } else {
        ProgressEmpty(x, all, i0, turn, t0);
      }
    }

    // A timestamp ends the text before it, if there is any.
    method CloseAt(ghost x: Emission, tokens: seq<Token>, i0: nat, i: nat, t0: int, t1: int, text: Text, turn: bool,
                   v: Vocab, words: nat -> Text, e: Output, stamp: (nat, nat) -> int)
      requires x.tokens == tokens && x.v == v && x.words == words && x.e == e
      requires i0 < i <= |tokens| && Progress(x, all, i0, i, text, turn, t0)
      requires tokens[i - 1].id > v.beg && t1 == x.seek + 2 * (tokens[i - 1].tid - v.beg)
      requires NoTime(x, i0, i - 1) && !e.singleSegment
      modifies this
      ensures Progress(x, all, i, i, [], false, t1)
    {
      hide Progress, Pushed;
      if text != [] {
        ghost var all0 := all;
        Push(Segment(t0, t1, text, tokens[i0..i], turn), v, words, e, stamp);
        ProgressPush(x, all0, all, i0, i, text, t0, turn);
      } else {
        ProgressMove(x, all, i0, i, turn, t0);
      }
    }

    // Timestamps after a timestamp only move the start.
    method SkipTimes(ghost x: Emission, tokens: seq<Token>, from: nat, seek: int, start: int, v: Vocab,
                     words: nat -> Text, e: Output)
      returns (i: nat, text: Text, t0: int)
      requires x.tokens == tokens && x.seek == seek && x.v == v && x.words == words && x.e == e && v.eot < v.beg
      requires 0 < from <= |tokens| && Progress(x, all, from, from, [], false, start) && !e.singleSegment
      ensures from <= i <= |tokens| && Progress(x, all, i, i, text, false, t0)
      ensures e.printSpecial || text == []
    {
      i, text, t0 := from, [], start;
      hide Progress;
      while i < |tokens| && tokens[i].id > v.beg
        invariant from <= i <= |tokens| && Progress(x, all, i, i, text, false, t0)
        invariant e.printSpecial || text == []
      {
        ProgressSkip(x, all, i, text, t0);
        if e.printSpecial {
          text := text + words(tokens[i].id);
        }
        t0 := seek + 2 * (tokens[i].tid - v.beg);
        i := i + 1;
      }
    }
  }

  // What an emission works on: the segments before it, the tokens, and how they are printed.
  datatype Emission = Emission(before: seq<Segment>, tokens: seq<Token>, seek: int, seekDelta: int, v: Vocab,
                               words: nat -> Text, e: Output)

  // A speaker turn was predicted in the tokens.
  predicate Turns(tokens: seq<Token>, e: Output) {
    exists j :: 0 <= j < |tokens| && e.turnToken == Some(tokens[j].id)
  }

  // The time at which a segment starts that begins with token a: that of the token before.
  function StartAt(x: Emission, a: int): int
    requires x.tokens != [] && 0 <= a <= |x.tokens|
  {
    x.seek + 2 * (x.tokens[if a == 0 then 0 else a - 1].tid - x.v.beg)
  }

  // None of the tokens a to b ends a segment.
  predicate NoTime(x: Emission, a: int, b: int)
    requires 0 <= a && b <= |x.tokens|
  {
    x.e.singleSegment || forall j :: a <= j < b ==> x.tokens[j].id <= x.v.beg
  }

  // A segment of tokens a to b: it ends with the first timestamp, or with the window.
  predicate Slice(s: Segment, x: Emission, a: int, b: int) {
    && x.tokens != [] && 0 <= a <= b <= |x.tokens| && s.tokens == x.tokens[a..b] && s.t0 == StartAt(x, a)
    && NoTime(x, a, b - 1)
    && if a < b && !x.e.singleSegment && x.tokens[b - 1].id > x.v.beg
       then s.t1 == x.seek + 2 * (x.tokens[b - 1].tid - x.v.beg)
       else b == |x.tokens| && s.t1 == x.seek + x.seekDelta
  }

  // A segment carries the times, the text and the speaker turn of its own tokens.
  ghost predicate Made(s: Segment, x: Emission) {
    && (exists a, b :: Slice(s, x, a, b))
    && (!x.e.printSpecial ==> s.text == TextOf(s.tokens, x.v, x.words)) && (s.turn <==> Turns(s.tokens, x.e))
  }

  ghost predicate AllMade(all: seq<Segment>, x: Emission) {
    !x.e.tokenTimestamps ==> forall k :: |x.before| <= k < |all| ==> Made(all[k], x)
  }

  // i tokens have been read, and those from i0 on are not in a segment yet.
  ghost predicate Progress(x: Emission, all: seq<Segment>, i0: int, i: int, text: Text, turn: bool, t0: int) {
    && x.tokens != [] && 0 <= i0 <= i <= |x.tokens| && |x.before| <= |all| && all[..|x.before|] == x.before
    && t0 == StartAt(x, i0) && (!x.e.tokenTimestamps ==> First(x, all, i0, i, text))
    && (!x.e.printSpecial ==> Emitting(x.before, all, x.tokens, i0, i, text, x.v, x.words))
    && Printing(x, all, i, text)
    && (!x.e.tokenTimestamps && Clean(x.tokens, x.v) ==> Timing(x, all, i0, t0))
    && AllMade(all, x) && (turn <==> Turns(x.tokens[i0..i], x.e))
  }

  // With specials, the text of the first i tokens is in the segments and in `text`.
  ghost predicate Printing(x: Emission, all: seq<Segment>, i: int, text: Text)
    requires 0 <= i <= |x.tokens|
  {
    x.e.printSpecial && !x.e.tokenTimestamps ==>
      Texts(all) + text == Texts(x.before) + Spelled(x.tokens[..i], x.words)
  }

  lemma PrintStart(x: Emission)
    ensures Printing(x, x.before, 0, [])
  {
    assert x.tokens[..0] == [];
  }

  lemma PrintRead(x: Emission, all: seq<Segment>, i: nat, text: Text)
    requires i < |x.tokens| && Printing(x, all, i, text)
    ensures x.e.printSpecial ==> Printing(x, all, i + 1, text + x.words(x.tokens[i].id))
    ensures !x.e.printSpecial ==>
              Printing(x, all, i + 1, text) && Printing(x, all, i + 1, text + x.words(x.tokens[i].id))
  {
    hide Texts;
    var w := x.words(x.tokens[i].id);
    assert x.tokens[..i + 1][..i] == x.tokens[..i];
    Associate(Texts(all), text, w);
    Associate(Texts(x.before), Spelled(x.tokens[..i], x.words), w);
  }

  lemma PrintPush(x: Emission, all: seq<Segment>, all': seq<Segment>, i: nat, text: Text)
    requires i <= |x.tokens| && Printing(x, all, i, text) && (!x.e.tokenTimestamps ==> Texts(all') == Texts(all) + text)
    ensures Printing(x, all', i, [])
  {
    hide Texts;
  }

  lemma PushedTexts(all: seq<Segment>, all': seq<Segment>, s: Segment, v: Vocab, words: nat -> Text, e: Output)
    requires Pushed(all, all', s, v, words, e)
    ensures !e.tokenTimestamps ==> Texts(all') == Texts(all) + s.text
  {
    hide Texts;
    OneText(s);
    TextsAppend(all, [s]);
  }

  lemma PrintDone(x: Emission, all: seq<Segment>)
    requires Printing(x, all, |x.tokens|, [])
    ensures x.e.printSpecial && !x.e.tokenTimestamps ==> Texts(all) == Texts(x.before) + Spelled(x.tokens, x.words)
  {
    hide Texts;
    assert x.tokens[..|x.tokens|] == x.tokens && Texts(all) + [] == Texts(all);
  }

  // Token j is printed.
  predicate Says(x: Emission, j: int)
    requires 0 <= j < |x.tokens|
  {
    (x.e.printSpecial || x.tokens[j].id < x.v.eot) && x.words(x.tokens[j].id) != []
  }

  ghost predicate IsEarly(x: Emission, j: int) {
    0 <= j < |x.tokens| && Says(x, j) && NoTime(x, 0, j)
  }

  // Something is printed before the first timestamp.
  ghost predicate EarlyText(x: Emission) {
    exists j :: IsEarly(x, j)
  }

  // The first segment starts with the window's first token exactly if there is early text.
  ghost predicate First(x: Emission, all: seq<Segment>, i0: int, i: int, text: Text)
    requires 0 <= i0 <= i <= |x.tokens|
  {
    && |x.before| <= |all|
    && (i0 == 0 ==> |all| == |x.before| && (text != [] <==> exists j :: 0 <= j < i && Says(x, j)))
    && (i0 > 0 && |all| == |x.before| ==> !EarlyText(x))
    && FirstStarts(x, all)
  }

  ghost predicate FirstStarts(x: Emission, all: seq<Segment>) {
    |all| > |x.before| && EarlyText(x) ==> exists b :: Slice(all[|x.before|], x, 0, b)
  }

  lemma FirstRead(x: Emission, all: seq<Segment>, i0: nat, i: nat, text: Text)
    requires i0 <= i < |x.tokens| && First(x, all, i0, i, text)
    ensures var id := x.tokens[i].id;
            First(x, all, i0, i + 1, if x.e.printSpecial || id < x.v.eot then text + x.words(id) else text)
  {
    hide FirstStarts, EarlyText;
    var id := x.tokens[i].id;
    var text' := if x.e.printSpecial || id < x.v.eot then text + x.words(id) else text;
    assert text' != [] <==> text != [] || Says(x, i);
    if i0 == 0 {
      if text != [] {
        var j :| 0 <= j < i && Says(x, j);
        assert 0 <= j < i + 1 && Says(x, j);
      }
      assert text' != [] <==> exists j :: 0 <= j < i + 1 && Says(x, j);
    }
  }

  lemma FirstPush(x: Emission, all: seq<Segment>, s: Segment, i0: nat, i: nat, text: Text)
    requires i0 <= i <= |x.tokens| && i > 0 && First(x, all, i0, i, text) && Slice(s, x, i0, i) && text != []
    ensures First(x, all + [s], i, i, [])
  {
    hide Slice, EarlyText;
    var n := |x.before|;
    if EarlyText(x) {
      var b := if |all| == n then i else var b :| Slice(all[n], x, 0, b); b;
      assert Slice((all + [s])[n], x, 0, b);
    }
  }

  lemma FirstMove(x: Emission, all: seq<Segment>, i0: nat, i: nat)
    requires i0 < i <= |x.tokens| && x.tokens[i - 1].id > x.v.beg && !x.e.singleSegment
    requires First(x, all, i0, i, [])
    ensures First(x, all, i, i, [])
  {
    hide Slice;
  }

  lemma FirstSkip(x: Emission, all: seq<Segment>, i: nat, text: Text, text': Text)
    requires 0 < i < |x.tokens| && First(x, all, i, i, text)
    ensures First(x, all, i + 1, i + 1, text')
  {
  }

  lemma FirstEnd(x: Emission, all: seq<Segment>, i0: nat)
    requires i0 <= |x.tokens| && First(x, all, i0, |x.tokens|, [])
    ensures FirstStarts(x, all) && (|all| == |x.before| ==> !EarlyText(x))
  {
    hide Slice;
  }

  lemma ProgressStart(x: Emission, t0: int)
    requires x.tokens != [] && t0 == x.seek + 2 * (x.tokens[0].tid - x.v.beg)
    ensures Progress(x, x.before, 0, 0, [], false, t0)
  {
    EmitStart(x.before, x.tokens, x.v, x.words);
    PrintStart(x);
  }

  lemma ProgressRead(x: Emission, all: seq<Segment>, i0: nat, i: nat, text: Text, turn: bool, t0: int)
    requires i0 <= i < |x.tokens| && Progress(x, all, i0, i, text, turn, t0)
    ensures var id := x.tokens[i].id;
            Progress(x, all, i0, i + 1, if x.e.printSpecial || id < x.v.eot then text + x.words(id) else text,
                     turn || x.e.turnToken == Some(id), t0)
  {
    hide Emitting, Timing, Clean, AllMade, First, Printing;
    PrintRead(x, all, i, text);
    TurnsMore(x.tokens, i0, i, x.e);
    hide Turns;
    if !x.e.tokenTimestamps {
      FirstRead(x, all, i0, i, text);
    }
    if !x.e.printSpecial {
      EmitRead(x.before, all, x.tokens, i0, i, text, x.v, x.words);
    }
  }

  lemma TurnsMore(tokens: seq<Token>, i0: nat, i: nat, e: Output)
    requires i0 <= i < |tokens|
    ensures Turns(tokens[i0..i + 1], e) <==> Turns(tokens[i0..i], e) || e.turnToken == Some(tokens[i].id)
    ensures !Turns(tokens[i + 1..i + 1], e) && !Turns(tokens[i..i], e)
  {
    var all, part := tokens[i0..i + 1], tokens[i0..i];
    assert all[i - i0] == tokens[i];
    if Turns(part, e) {
      var j :| 0 <= j < |part| && e.turnToken == Some(part[j].id);
      assert all[j] == part[j];
    }
    if Turns(all, e) && e.turnToken != Some(tokens[i].id) {
      var j :| 0 <= j < |all| && e.turnToken == Some(all[j].id);
      assert part[j] == all[j];
    }
  }

  lemma NoTurns(tokens: seq<Token>, i: nat, e: Output)
    requires i <= |tokens|
    ensures !Turns(tokens[i..i], e)
  {
  }

  lemma MadeMore(all: seq<Segment>, s: Segment, x: Emission)
    requires AllMade(all, x) && |x.before| <= |all| && Made(s, x)
    ensures AllMade(all + [s], x)
  {
    hide Made;
  }

  // A segment has been added, and perhaps wrapped.
  ghost predicate Pushed(all: seq<Segment>, all': seq<Segment>, s: Segment, v: Vocab, words: nat -> Text, e: Output) {
    && (!e.tokenTimestamps ==> all' == all + [s])
    && |all'| > |all| && all'[..|all|] == all
    && (s.text == TextOf(s.tokens, v, words) ==> Texts(all') == Texts(all) + s.text)
  }

  lemma ProgressPush(x: Emission, all: seq<Segment>, all': seq<Segment>, i0: nat, i: nat, text: Text, t0: int,
                     turn: bool)
    requires i0 < i <= |x.tokens| && Progress(x, all, i0, i, text, turn, t0) && x.tokens[i - 1].id > x.v.beg
    requires NoTime(x, i0, i - 1) && !x.e.singleSegment && text != []
    requires Pushed(all, all', Segment(t0, x.seek + 2 * (x.tokens[i - 1].tid - x.v.beg), text, x.tokens[i0..i], turn),
                    x.v, x.words, x.e)
    ensures Progress(x, all', i, i, [], false, x.seek + 2 * (x.tokens[i - 1].tid - x.v.beg))
  {
    hide Timing, Clean, TextOf, Texts, First, Printing;
    PushedTexts(all, all', Segment(t0, x.seek + 2 * (x.tokens[i - 1].tid - x.v.beg), text, x.tokens[i0..i], turn),
                x.v, x.words, x.e);
    PrintPush(x, all, all', i, text);
    var s := Segment(t0, x.seek + 2 * (x.tokens[i - 1].tid - x.v.beg), text, x.tokens[i0..i], turn);
    if !x.e.printSpecial {
      EmitText(x.before, all, x.tokens, i0, i, text, x.v, x.words);
    }
    hide Emitting;
    NoTurns(x.tokens, i, x.e);
    hide Turns;
    assert Slice(s, x, i0, i);
    if !x.e.tokenTimestamps {
      FirstPush(x, all, s, i0, i, text);
    }
    MadeMore(all, s, x);
    hide AllMade;
    assert all'[..|x.before|] == all[..|x.before|];
    if !x.e.printSpecial {
      EmitPush(x.before, all, all', x.tokens, i0, i, text, x.v, x.words);
    }
    if !x.e.tokenTimestamps && Clean(x.tokens, x.v) {
      TimePush(x, all, s, i0, i, text);
    }
  }

  lemma ProgressMove(x: Emission, all: seq<Segment>, i0: nat, i: nat, turn: bool, t0: int)
    requires i0 < i <= |x.tokens| && Progress(x, all, i0, i, [], turn, t0) && x.tokens[i - 1].id > x.v.beg
    requires !x.e.singleSegment
    ensures Progress(x, all, i, i, [], false, x.seek + 2 * (x.tokens[i - 1].tid - x.v.beg))
  {
    hide Emitting, Timing, Clean, AllMade, First, Printing;
    NoTurns(x.tokens, i, x.e);
    hide Turns;
    if !x.e.tokenTimestamps {
      FirstMove(x, all, i0, i);
    }
    if !x.e.printSpecial {
      EmitEmpty(x.before, all, x.tokens, i0, i, x.v, x.words);
    }
    if !x.e.tokenTimestamps && Clean(x.tokens, x.v) {
      TimeMove(x, all, i0, i);
    }
  }

  lemma ProgressSkip(x: Emission, all: seq<Segment>, i: nat, text: Text, t0: int)
    requires 0 < i < |x.tokens| && Progress(x, all, i, i, text, false, t0) && x.tokens[i].id > x.v.beg > x.v.eot
    requires !x.e.singleSegment
    requires x.e.printSpecial || text == []
    ensures Progress(x, all, i + 1, i + 1, if x.e.printSpecial then text + x.words(x.tokens[i].id) else text, false,
                     x.seek + 2 * (x.tokens[i].tid - x.v.beg))
  {
    hide Emitting, Timing, Clean, AllMade, First, Printing;
    PrintRead(x, all, i, text);
    NoTurns(x.tokens, i + 1, x.e);
    hide Turns;
    if !x.e.tokenTimestamps {
      FirstSkip(x, all, i, text, if x.e.printSpecial then text + x.words(x.tokens[i].id) else text);
    }
    if !x.e.printSpecial {
      EmitRead(x.before, all, x.tokens, i, i, text, x.v, x.words);
      EmitEmpty(x.before, all, x.tokens, i, i + 1, x.v, x.words);
    }
    if !x.e.tokenTimestamps && Clean(x.tokens, x.v) {
      TimeMove(x, all, i, i + 1);
    }
  }

  // What the whole emission leaves behind.
  ghost predicate Emitted(x: Emission, all: seq<Segment>) {
    && |all| >= |x.before| && all[..|x.before|] == x.before
    && (!x.e.printSpecial ==> Texts(all) == Texts(x.before) + TextOf(x.tokens, x.v, x.words))
    && (x.e.printSpecial && !x.e.tokenTimestamps ==> Texts(all) == Texts(x.before) + Spelled(x.tokens, x.words))
    && (!x.e.tokenTimestamps && Clean(x.tokens, x.v) && Reaches(x.tokens, x.seekDelta, x.v) ==> Ordered(x, all))
    && AllMade(all, x)
    && (!x.e.tokenTimestamps ==> FirstStarts(x, all) && (|all| == |x.before| ==> !EarlyText(x)))
  }

  lemma ProgressEnd(x: Emission, all: seq<Segment>, all': seq<Segment>, i0: nat, text: Text, t0: int, turn: bool)
    requires i0 <= |x.tokens| && Progress(x, all, i0, |x.tokens|, text, turn, t0)
    requires Pushed(all, all', Segment(t0, x.seek + x.seekDelta, text, x.tokens[i0..], turn), x.v, x.words, x.e)
    requires NoTime(x, i0, |x.tokens|) && text != []
    ensures Emitted(x, all')
  {
    hide Timing, Clean, TextOf, Texts, Reaches, Ordered, First, Printing, Spelled;
    PushedTexts(all, all', Segment(t0, x.seek + x.seekDelta, text, x.tokens[i0..], turn), x.v, x.words, x.e);
    PrintPush(x, all, all', |x.tokens|, text);
    PrintDone(x, all');
    var s := Segment(t0, x.seek + x.seekDelta, text, x.tokens[i0..], turn);
    var i := |x.tokens|;
    assert all'[..|x.before|] == all[..|x.before|] && x.tokens[i0..] == x.tokens[i0..i];
    if !x.e.printSpecial {
      EmitText(x.before, all, x.tokens, i0, i, text, x.v, x.words);
    }
    hide Emitting;
    assert Slice(s, x, i0, i);
    if !x.e.tokenTimestamps {
      FirstPush(x, all, s, i0, i, text);
      FirstEnd(x, all', i);
    }
    MadeMore(all, s, x);
    hide AllMade, Turns;
    if !x.e.printSpecial {
      EmitPush(x.before, all, all', x.tokens, i0, i, text, x.v, x.words);
      EmitDone(x.before, all', x.tokens, i, x.v, x.words);
    }
    if !x.e.tokenTimestamps && Clean(x.tokens, x.v) && Reaches(x.tokens, x.seekDelta, x.v) {
      TimeEnd(x, all, s, i0, text);
    }
  }

  lemma ProgressEmpty(x: Emission, all: seq<Segment>, i0: nat, turn: bool, t0: int)
    requires i0 <= |x.tokens| && Progress(x, all, i0, |x.tokens|, [], turn, t0)
    ensures Emitted(x, all)
  {
    hide Emitting, Timing, Clean, TextOf, Texts, Reaches, Ordered, AllMade, Turns, First, Printing, Spelled;
    PrintDone(x, all);
    if !x.e.tokenTimestamps {
      FirstEnd(x, all, i0);
    }
    if !x.e.printSpecial {
      EmitEmpty(x.before, all, x.tokens, i0, |x.tokens|, x.v, x.words);
      EmitDone(x.before, all, x.tokens, |x.tokens|, x.v, x.words);
    }
    if !x.e.tokenTimestamps && Clean(x.tokens, x.v) && Reaches(x.tokens, x.seekDelta, x.v) {
      TimeKept(x, all, i0);
    }
  }

  // The state of wrapping: pieces done, the segment that is left, and its first i tokens read.
  ghost predicate Wrapping(whole: Segment, done: seq<Segment>, segment: Segment, i: int, acc: nat, text: Text,
                           v: Vocab, words: nat -> Text, maxLen: nat, onWord: bool)
  {
    && 0 <= i <= |segment.tokens|
    && Finished(whole, done, segment, v, words, maxLen, onWord)
    && Tokens(done) + segment.tokens == whole.tokens
    && (if done == [] then segment.t0 else done[0].t0) == whole.t0
    && text == TextOf(segment.tokens[..i], v, words) && acc == Length(text)
    && Uncut(segment.tokens, i, v, words, maxLen, onWord)
    && (!onWord ==> acc <= maxLen || Count(segment.tokens[..i], v) == 1)
  }

  lemma SplitLast(a: seq<Segment>, last: Segment, piece: Segment, rest: Segment)
    ensures var all := a + [last]; all[..|all| - 1] + [piece] == a + [piece] && all[|all| - 1] == last
  {
  }

  lemma Regroup(a: seq<Segment>, b: seq<Segment>, piece: Segment, rest: Segment)
    ensures (a + b) + [piece] + [rest] == a + (b + [piece]) + [rest]
    ensures ((a + b) + [piece])[|a|..] == b + [piece] && ((a + b) + [piece])[..|a|] == a
  {
  }

  lemma WrapStart(s: Segment, v: Vocab, words: nat -> Text, maxLen: nat, onWord: bool)
    ensures Wrapping(s, [], s, 0, 0, [], v, words, maxLen, onWord)
  {
    assert s.tokens[..0] == [];
    assert Tokens([]) + s.tokens == s.tokens;
  }

  // A token is read without a cut.
  lemma WrapRead(s: Segment, done: seq<Segment>, rest: Segment, i: nat, acc: nat, text: Text,
                 v: Vocab, words: nat -> Text, maxLen: nat, onWord: bool)
    requires Wrapping(s, done, rest, i, acc, text, v, words, maxLen, onWord) && i < |rest.tokens|
    ensures rest.tokens[i].id >= v.eot ==> Wrapping(s, done, rest, i + 1, acc, text, v, words, maxLen, onWord)
    ensures var txt := words(rest.tokens[i].id);
            rest.tokens[i].id < v.eot
            && (acc + Length(txt) <= maxLen || i == 0 || !MayCut(rest.tokens[i], v, words, onWord)) ==>
              Wrapping(s, done, rest, i + 1, acc + Length(txt), text + txt, v, words, maxLen, onWord)
  {
    hide Finished, Length;
    OneMore(rest.tokens, i, v, words);
    LengthAppend(text, words(rest.tokens[i].id));
    assert i == 0 ==> Count(rest.tokens[..i], v) == 0;
  }

  lemma NoText(v: Vocab, words: nat -> Text)
    ensures TextOf([], v, words) == []
  {
  }

  // A cut before token i.
  lemma WrapCut(s: Segment, done: seq<Segment>, rest: Segment, i: nat, acc: nat, text: Text,
                v: Vocab, words: nat -> Text, maxLen: nat, onWord: bool)
    requires Wrapping(s, done, rest, i, acc, text, v, words, maxLen, onWord) && 0 < i < |rest.tokens|
    requires var token := rest.tokens[i];
             acc + Length(words(token.id)) > maxLen && MayCut(token, v, words, onWord)
    ensures var token := rest.tokens[i];
            var piece := rest.(text := text, t1 := token.t0, tokens := rest.tokens[..i], turn := false);
            var rest' := Segment(token.t0, rest.t1, [], rest.tokens[i..], rest.turn);
            Wrapping(s, done + [piece], rest', 0, 0, [], v, words, maxLen, onWord)
  {
    hide Length, TextOf;
    UncutFront(rest.tokens, i, v, words, maxLen, onWord);
    hide FitsAt;
    NoText(v, words);
    var token := rest.tokens[i];
    var piece := rest.(text := text, t1 := token.t0, tokens := rest.tokens[..i], turn := false);
    var rest' := Segment(token.t0, rest.t1, [], rest.tokens[i..], rest.turn);
    var done' := done + [piece];
    assert done'[..|done|] == done && rest.tokens[..i] + rest.tokens[i..] == rest.tokens;
    assert Tokens(done') + rest'.tokens == Tokens(done) + rest.tokens;
    assert rest'.tokens[..0] == [];
    EmptyLength();
    forall k | 0 <= k < |done'|
      ensures LinkedTo(done', rest', k, v, words, maxLen, onWord)
    {
      if k < |done| {
        assert LinkedTo(done, rest, k, v, words, maxLen, onWord);
      }
    }
  }

  lemma WrapEnd(s: Segment, done: seq<Segment>, rest: Segment, acc: nat, text: Text,
                v: Vocab, words: nat -> Text, maxLen: nat, onWord: bool)
    requires Wrapping(s, done, rest, |rest.tokens|, acc, text, v, words, maxLen, onWord)
    ensures IsWrapped(s, done + [rest.(text := text)], v, words, maxLen, onWord)
  {
    hide Length;
    var last := rest.(text := text);
    var pieces := done + [last];
    assert rest.tokens[..|rest.tokens|] == rest.tokens && pieces[..|done|] == done;
    forall k | 0 <= k < |done|
      ensures LinkedTo(done, last, k, v, words, maxLen, onWord)
    {
      assert LinkedTo(done, rest, k, v, words, maxLen, onWord);
    }
  }

  lemma {:induction false} TextsAppend(a: seq<Segment>, b: seq<Segment>)
    ensures Texts(a + b) == Texts(a) + Texts(b)
  {
    hide Texts;
    if b == [] {
      assert a + b == a;
      NoTexts();
    } else {
      TextsAppend(a, b[..|b| - 1]);
      assert (a + b)[..|a + b| - 1] == a + b[..|b| - 1] && (a + b)[|a + b| - 1] == b[|b| - 1];
      TextsLast(a + b);
      TextsLast(b);
      Associate(Texts(a), Texts(b[..|b| - 1]), b[|b| - 1].text);
    }
  }

  lemma NoTexts()
    ensures Texts([]) == []
  {
  }

  lemma TextsLast(segments: seq<Segment>)
    requires segments != []
    ensures Texts(segments) == Texts(segments[..|segments| - 1]) + segments[|segments| - 1].text
  {
  }

  lemma Associate<T>(a: seq<T>, b: seq<T>, c: seq<T>)
    ensures a + (b + c) == a + b + c
  {
  }

  lemma OneText(s: Segment)
    ensures Texts([s]) == s.text
  {
    assert [s][..0] == [];
  }

  // Wrapping loses no text.
  lemma WrapKeepsText(s: Segment, pieces: seq<Segment>, v: Vocab, words: nat -> Text, maxLen: nat, onWord: bool)
    requires IsWrapped(s, pieces, v, words, maxLen, onWord)
    ensures Texts(pieces) == TextOf(s.tokens, v, words)
  {
    hide TextOf;
    forall k | 0 <= k < |pieces|
      ensures pieces[k].text == TextOf(pieces[k].tokens, v, words)
    {
      if k < |pieces| - 1 {
        assert LinkedTo(pieces[..|pieces| - 1], pieces[|pieces| - 1], k, v, words, maxLen, onWord);
      }
    }
    TextOfPieces(pieces, v, words);
  }

  lemma {:induction false} TextOfPieces(pieces: seq<Segment>, v: Vocab, words: nat -> Text)
    requires forall k :: 0 <= k < |pieces| ==> pieces[k].text == TextOf(pieces[k].tokens, v, words)
    ensures Texts(pieces) == TextOf(Tokens(pieces), v, words)
  {
    if pieces != [] {
      var n := |pieces| - 1;
      TextOfPieces(pieces[..n], v, words);
      TextAppend(Tokens(pieces[..n]), pieces[n].tokens, v, words);
    }
  }

  function Stamped(tokens: seq<Token>, k: nat, stamp: (nat, nat) -> int): seq<Token> {
    seq(|tokens|, j requires 0 <= j < |tokens| => tokens[j].(t0 := stamp(k, j)))
  }

  lemma {:induction false} SameIdsSameText(a: seq<Token>, b: seq<Token>, v: Vocab, words: nat -> Text)
    requires |a| == |b| && forall j :: 0 <= j < |a| ==> a[j].id == b[j].id
    ensures TextOf(a, v, words) == TextOf(b, v, words)
  {
    if a != [] {
      SameIdsSameText(a[..|a| - 1], b[..|b| - 1], v, words);
    }
  }

  /* ---- emission ---- */

  // The text of the first i tokens is in the segments, but for that of tokens i0 to i.
  ghost predicate Emitting(before: seq<Segment>, all: seq<Segment>, tokens: seq<Token>, i0: int, i: int, text: Text,
                           v: Vocab, words: nat -> Text)
    requires 0 <= i0 <= i <= |tokens|
  {
    Texts(all) + text == Texts(before) + TextOf(tokens[..i], v, words) && text == TextOf(tokens[i0..i], v, words)
  }

  lemma EmitRead(before: seq<Segment>, all: seq<Segment>, tokens: seq<Token>, i0: nat, i: nat, text: Text,
                 v: Vocab, words: nat -> Text)
    requires i0 <= i < |tokens| && Emitting(before, all, tokens, i0, i, text, v, words)
    ensures Emitting(before, all, tokens, i0, i + 1,
                     text + if tokens[i].id < v.eot then words(tokens[i].id) else [], v, words)
    ensures tokens[i].id >= v.eot ==> Emitting(before, all, tokens, i0, i + 1, text, v, words)
  {
    hide Texts;
    OneMore(tokens, i, v, words);
    assert tokens[i0..][..i - i0] == tokens[i0..i] && tokens[i0..][..i + 1 - i0] == tokens[i0..i + 1];
    OneMore(tokens[i0..], i - i0, v, words);
    var w := if tokens[i].id < v.eot then words(tokens[i].id) else [];
    assert Texts(all) + (text + w) == (Texts(all) + text) + w;
    assert Texts(before) + (TextOf(tokens[..i], v, words) + w) == (Texts(before) + TextOf(tokens[..i], v, words)) + w;
    assert text + [] == text;
  }

  lemma EmitText(before: seq<Segment>, all: seq<Segment>, tokens: seq<Token>, i0: nat, i: nat, text: Text,
                 v: Vocab, words: nat -> Text)
    requires i0 <= i <= |tokens| && Emitting(before, all, tokens, i0, i, text, v, words)
    ensures text == TextOf(tokens[i0..i], v, words)
  {
  }

  lemma EmitPush(before: seq<Segment>, all: seq<Segment>, all': seq<Segment>, tokens: seq<Token>, i0: nat, i: nat,
                 text: Text, v: Vocab, words: nat -> Text)
    requires i0 <= i <= |tokens| && Emitting(before, all, tokens, i0, i, text, v, words)
    requires Texts(all') == Texts(all) + text
    ensures Emitting(before, all', tokens, i, i, [], v, words)
  {
    assert tokens[i..i] == [];
  }

  lemma EmitEmpty(before: seq<Segment>, all: seq<Segment>, tokens: seq<Token>, i0: nat, i: nat, v: Vocab,
                  words: nat -> Text)
    requires i0 <= i <= |tokens| && Emitting(before, all, tokens, i0, i, [], v, words)
    ensures Emitting(before, all, tokens, i, i, [], v, words)
  {
    assert tokens[i..i] == [];
  }

  lemma EmitDone(before: seq<Segment>, all: seq<Segment>, tokens: seq<Token>, i: nat, v: Vocab, words: nat -> Text)
    requires i == |tokens| && Emitting(before, all, tokens, i, i, [], v, words)
    ensures Texts(all) == Texts(before) + TextOf(tokens, v, words)
  {
    assert tokens[..i] == tokens;
  }

  lemma EmitStart(all: seq<Segment>, tokens: seq<Token>, v: Vocab, words: nat -> Text)
    ensures Emitting(all, all, tokens, 0, 0, [], v, words)
  {
    assert tokens[..0] == [] && tokens[0..0] == [];
  }

  /* ---- times ---- */

  function Ids(tokens: seq<Token>): seq<nat> { seq(|tokens|, j requires 0 <= j < |tokens| => tokens[j].id) }

  // Timestamp tokens carry themselves, and do not decrease: what unmasked sampling gives.
  ghost predicate Clean(tokens: seq<Token>, v: Vocab) {
    (forall k :: 0 <= k < |tokens| && tokens[k].id >= v.beg ==> tokens[k].tid == tokens[k].id)
        && TimesRise(Ids(tokens), v)
  }

  ghost predicate Reaches(tokens: seq<Token>, seekDelta: int, v: Vocab) {
    forall k :: 0 <= k < |tokens| && tokens[k].id > v.beg ==> 2 * (tokens[k].id - v.beg) <= seekDelta
  }

  predicate NotBefore(all: seq<Segment>, k: int)
    requires 0 < k < |all|
  {
    all[k - 1].t1 <= all[k].t0 <= all[k].t1
  }

  // From n on, no segment starts before the one before it ended.
  ghost predicate InTime(all: seq<Segment>, n: nat) {
    forall k :: n < k < |all| ==> NotBefore(all, k)
  }

  // Text before the first timestamp has a start of its own: the timestamp that is most likely at
  // the window's first token. It must lie in the window, and no timestamp may be before it.
  ghost predicate Opens(x: Emission) {
    EarlyText(x) ==>
      && x.tokens != [] && 0 <= 2 * (x.tokens[0].tid - x.v.beg) <= x.seekDelta
      && (x.e.singleSegment
          || forall k :: 0 <= k < |x.tokens| && x.tokens[k].id > x.v.beg ==> x.tokens[0].tid <= x.tokens[k].tid)
  }

  // The new segments are in order and end inside the window; the first starts inside it if the
  // window opens well.
  ghost predicate Ordered(x: Emission, all: seq<Segment>) {
    var n := |x.before|;
    && InTime(all, n)
    && (|all| > n ==> all[|all| - 1].t1 <= x.seek + x.seekDelta)
    && (|all| > n && Opens(x) ==> x.seek <= all[n].t0 <= all[n].t1)
  }

  // The new segments end before the next one starts.
  ghost predicate Timing(x: Emission, all: seq<Segment>, i0: int, t0: int)
  {
    var n := |x.before|;
    && n <= |all| && InTime(all, n) && 0 <= i0 <= |x.tokens|
    && (i0 == 0 ==> |all| == n)
    && (i0 > 0 ==> x.tokens[i0 - 1].id > x.v.beg)
    && (|all| > n ==> all[|all| - 1].t1 <= t0)
    && (|all| > n && Opens(x) ==> x.seek <= all[n].t0 <= all[n].t1)
  }

  lemma NothingEmitted(all: seq<Segment>, tokens: seq<Token>, seek: int, seekDelta: int, v: Vocab, words: nat -> Text,
                       e: Output)
    requires tokens == []
    ensures Emitted(Emission(all, tokens, seek, seekDelta, v, words, e), all)
  {
    assert Texts(all) + [] == Texts(all) && all[..|all|] == all;
  }

  lemma InTimeAppend(all: seq<Segment>, s: Segment, n: nat)
    requires InTime(all, n) && n <= |all| && (|all| > n ==> all[|all| - 1].t1 <= s.t0 <= s.t1)
    ensures InTime(all + [s], n)
  {
    forall k | n < k < |all + [s]|
      ensures NotBefore(all + [s], k)
    {
      assert k < |all| ==> NotBefore(all, k);
    }
  }

  lemma LaterTime(tokens: seq<Token>, i: nat, j: nat, v: Vocab)
    requires Clean(tokens, v) && i < j < |tokens| && tokens[i].id > v.beg && tokens[j].id > v.beg
    ensures tokens[i].id <= tokens[j].id && tokens[j].tid == tokens[j].id
  {
    assert Ids(tokens)[i] == tokens[i].id && Ids(tokens)[j] == tokens[j].id;
  }

  // Token i - 1 is a timestamp, and becomes the new start.
  lemma TimeMove(x: Emission, all: seq<Segment>, i0: nat, i: nat)
    requires i0 < i <= |x.tokens| && x.tokens[i - 1].id > x.v.beg && !x.e.singleSegment
    requires Timing(x, all, i0, StartAt(x, i0)) && Clean(x.tokens, x.v)
    ensures Timing(x, all, i, StartAt(x, i))
    ensures i0 > 0 ==> StartAt(x, i0) <= StartAt(x, i)
    ensures i0 > 0 || (EarlyText(x) && Opens(x)) ==> x.seek <= StartAt(x, i0) <= StartAt(x, i)
  {
    hide EarlyText;
    if i0 > 0 {
      LaterTime(x.tokens, i0 - 1, i - 1, x.v);
    }
    hide InTime, TimesRise;
  }

  lemma TimePush(x: Emission, all: seq<Segment>, s: Segment, i0: nat, i: nat, text: Text)
    requires i0 < i <= |x.tokens| && x.tokens[i - 1].id > x.v.beg && !x.e.singleSegment
    requires First(x, all, i0, i, text) && text != [] && NoTime(x, i0, i - 1)
    requires Timing(x, all, i0, StartAt(x, i0)) && Clean(x.tokens, x.v)
    requires s.t0 == StartAt(x, i0) && s.t1 == StartAt(x, i)
    ensures Timing(x, all + [s], i, s.t1)
  {
    hide TimesRise, Opens, Clean;
    EarlyAt(x, all, i0, i, text);
    hide First, NoTime, EarlyText;
    TimeMove(x, all, i0, i);
    InTimeAppend(all, s, |x.before|);
    hide InTime;
  }

  lemma EarlyAt(x: Emission, all: seq<Segment>, i0: nat, i: nat, text: Text)
    requires i0 < i <= |x.tokens| && First(x, all, i0, i, text) && text != [] && NoTime(x, i0, i - 1)
    ensures i0 > 0 || EarlyText(x)
  {
    if i0 == 0 {
      var j :| 0 <= j < i && Says(x, j);
      assert IsEarly(x, j);
    }
  }

  lemma TimeEnd(x: Emission, all: seq<Segment>, s: Segment, i0: nat, text: Text)
    requires i0 <= |x.tokens| && First(x, all, i0, |x.tokens|, text) && text != [] && NoTime(x, i0, |x.tokens|)
    requires x.tokens != [] && Timing(x, all, i0, StartAt(x, i0))
    requires Clean(x.tokens, x.v) && Reaches(x.tokens, x.seekDelta, x.v)
    requires s.t0 == StartAt(x, i0) && s.t1 == x.seek + x.seekDelta
    ensures Ordered(x, all + [s])
  {
    hide TimesRise;
    if i0 < |x.tokens| {
      EarlyAt(x, all, i0, |x.tokens|, text);
    }
    hide First, EarlyText, NoTime;
    InTimeAppend(all, s, |x.before|);
    hide InTime;
  }

  lemma TimeKept(x: Emission, all: seq<Segment>, i0: nat)
    requires i0 <= |x.tokens| && x.tokens != [] && Timing(x, all, i0, StartAt(x, i0))
    requires Clean(x.tokens, x.v) && Reaches(x.tokens, x.seekDelta, x.v)
    ensures Ordered(x, all)
  {
    hide TimesRise, InTime;
  }

  // Every new segment starts in the window, and not after its own end.
  ghost predicate Inside(x: Emission, all: seq<Segment>) {
    forall k :: |x.before| <= k < |all| ==> x.seek <= all[k].t0 <= all[k].t1
  }

  // The segments of an unmasked window lie inside it if and only if it opens well.
  lemma InsideIff(x: Emission, all: seq<Segment>)
    requires Emitted(x, all) && !x.e.tokenTimestamps && Clean(x.tokens, x.v) && Reaches(x.tokens, x.seekDelta, x.v)
    ensures Inside(x, all) <==> Opens(x)
    ensures Inside(x, all) ==> forall k :: |x.before| < k < |all| ==> NotBefore(all, k)
    ensures |all| > |x.before| ==> all[|all| - 1].t1 <= x.seek + x.seekDelta
  {
    hide TextOf, Texts, AllMade;
    var n := |x.before|;
    if Opens(x) {
      OrderedInside(x, all);
    }
    if Inside(x, all) && EarlyText(x) {
      var b :| Slice(all[n], x, 0, b);
      InsideOpens(x, all[n], b);
    }
  }

  lemma OrderedInside(x: Emission, all: seq<Segment>)
    requires Ordered(x, all) && Opens(x)
    ensures Inside(x, all)
  {
    hide Opens;
    forall k | |x.before| <= k < |all|
      ensures x.seek <= all[k].t0 <= all[k].t1
    {
      StartsAfter(x, all, k);
    }
  }

  lemma {:induction false} StartsAfter(x: Emission, all: seq<Segment>, k: nat)
    requires Ordered(x, all) && Opens(x) && |x.before| <= k < |all|
    ensures x.seek <= all[k].t0 <= all[k].t1
  {
    hide Opens;
    if k > |x.before| {
      StartsAfter(x, all, k - 1);
      assert NotBefore(all, k);
    }
  }

  lemma InsideOpens(x: Emission, s: Segment, b: int)
    requires Slice(s, x, 0, b) && Clean(x.tokens, x.v) && Reaches(x.tokens, x.seekDelta, x.v)
    requires x.seek <= s.t0 <= s.t1
    ensures Opens(x)
  {
    hide TimesRise;
    forall k | 0 <= k < |x.tokens| && x.tokens[k].id > x.v.beg && !x.e.singleSegment
      ensures x.tokens[0].tid <= x.tokens[k].tid
    {
      if k > b - 1 {
        LaterTime(x.tokens, b - 1, k, x.v);
      }
    }
  }

  // The token with no timestamp beside it (id 0, as when timestamps are masked) puts the segment
  // far before the window.
  lemma StartsBeforeWindow(x: Emission, all: seq<Segment>)
    requires Emitted(x, all) && !x.e.tokenTimestamps && EarlyText(x)
    requires x.tokens != [] && x.tokens[0].tid == 0 < x.v.beg
    ensures |all| > |x.before| && all[|x.before|].t0 == x.seek - 2 * x.v.beg < x.seek
  {
    hide Texts, TextOf, AllMade, Clean, Reaches;
    var b :| Slice(all[|x.before|], x, 0, b);
  }

  // A window of one word, next to which 200 ms is most likely, and a timestamp of 40 ms.
  function LateStart(): Emission {
    Emission([], [Token(1, 30, -1), Token(22, 22, -1)], 0, 4, Vocab(10, 5, 20, 1521), (id: nat) => [97],
             Output(false, false, false, 0, false, None))
  }

  // Its only segment ends before it starts.
  lemma StartsAfterItsEnd(all: seq<Segment>)
    requires Emitted(LateStart(), all)
    ensures Clean(LateStart().tokens, LateStart().v) && Reaches(LateStart().tokens, 4, LateStart().v)
    ensures all != [] && all[0].t0 == 20 && all[0].t1 == 4
  {
    hide Texts, TextOf, AllMade, Ordered;
    var x := LateStart();
    assert IsEarly(x, 0);
    var b :| Slice(all[0], x, 0, b);
    assert b != 0;
    assert b == 1 || b == 2;
  }

  // A run of unmasked picks satisfies what that needs: its timestamps do not decrease, and none is
  // past the window's new position.
  lemma SampledInTime(tokens: seq<Token>, s: State, v: Vocab, p: Params, w: Window)
    requires Loaded(v) && IsRun(s.tokens, v, p, w) && s == After(s.tokens, v, p, w) && s.resultLen <= |s.tokens|
    requires Ids(tokens) == Result(s)
    requires forall k :: 0 <= k < |tokens| && tokens[k].id >= v.beg ==> tokens[k].tid == tokens[k].id
    ensures Clean(tokens, v) && Reaches(tokens, s.seekDelta, v)
  {
    hide IsRun, Safe, After, Bounded, TimesRise, Clean, Reaches;
    RunsAreSafe(s.tokens, v, p, w);
    SafeRises(s.tokens, v, p, w);
    RunBounded(s.tokens, v, p, w);
    ResultClean(tokens, s, v);
  }

  lemma ResultClean(tokens: seq<Token>, s: State, v: Vocab)
    requires Bounded(s, v) && s.resultLen <= |s.tokens| && TimesRise(s.tokens, v)
    requires Ids(tokens) == Result(s)
    requires forall k :: 0 <= k < |tokens| && tokens[k].id >= v.beg ==> tokens[k].tid == tokens[k].id
    ensures Clean(tokens, v) && Reaches(tokens, s.seekDelta, v)
  {
    forall k | 0 <= k < |tokens|
      ensures tokens[k].id == s.tokens[k]
    {
      assert Ids(tokens)[k] == tokens[k].id;
    }
  }
}
