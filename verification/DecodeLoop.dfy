/**
 The decoding loop at one temperature: several decoders advance in lock step over the shared
 cache. Sampling, scoring and the stopping rules are arbitrary choices; what is proved is that
 every decoder is always shown the logits it would get from a cache of its own.
 */
module DecodeLoop {
  import opened Arithmetic
  import opened KvCache
  import opened KvRefinement
  import opened Sampling

  const WHISPER_MAX_DECODERS := 8

  /* ---- one evaluation ---- */

  // (cells1, kv1) is the cache after the batch was placed at `head` and evaluated over n cells.
  ghost predicate Decoded<Kv>(net: Net<Kv>, cells0: seq<Cell>, kv0: seq<Kv>, cells1: seq<Cell>, kv1: seq<Kv>,
                              n: nat, head: nat, batch: seq<Entry>) {
    && |kv0| == |cells0| && n <= |cells0| && ProperBatch(batch)
    && IsSlot(cells0, head, |batch|)
    && cells1 == Place(cells0, head, batch)
    && (forall i :: n <= i < |cells1| ==> cells1[i].seqId == {})
    && kv1 == Forward(net, FlatMask(cells1, n, batch), n, kv0, head, batch, |batch|)
  }

  // A free cell becomes the cell of one token of one sequence.
  lemma PlacedEntry(cells: seq<Cell>, head: nat, batch: seq<Entry>, j: nat)
    requires IsSlot(cells, head, |batch|) && WellLabelled(cells) && j < |batch| && |batch[j].seqIds| == 1
    ensures Place(cells, head, batch)[head + j] == Cell(batch[j].pos, {batch[j].seqIds[0]})
  {
    assert cells[head + j].pos < 0;
    hide IsSlot, WellLabelled;
  }

  lemma FedPosition(batch: seq<Entry>, id: int, hist: seq<int>, base: nat, j: nat)
    requires ProperBatch(batch) && Feeds(batch, id, hist, base) && j < |batch|
    ensures |batch[j].seqIds| == 1 && (batch[j].seqIds[0] == id ==> batch[j].pos >= base)
  {
  }

  lemma OldOrLater(cells: seq<Cell>, head: nat, batch: seq<Entry>, id: int, hist: seq<int>, base: nat, i: nat)
    requires ProperBatch(batch) && IsSlot(cells, head, |batch|) && WellLabelled(cells) && Feeds(batch, id, hist, base)
    requires i < |cells| && id in Place(cells, head, batch)[i].seqId
    ensures Place(cells, head, batch)[i] == cells[i] || Place(cells, head, batch)[i].pos >= base
  {
    if head <= i < head + |batch| {
      FedPosition(batch, id, hist, base, i - head);
      PlacedEntry(cells, head, batch, i - head);
    }
  }

  // Cells of a sequence below its first new position were there before.
  lemma OldRowsSurvive<Kv>(net: Net<Kv>, cells: seq<Cell>, kv: seq<Kv>, head: nat, batch: seq<Entry>,
                           id: int, hist: seq<int>, base: nat)
    requires ProperBatch(batch) && IsSlot(cells, head, |batch|) && WellLabelled(cells) && |kv| == |cells|
    requires Feeds(batch, id, hist, base) && Rows(net, cells, kv, id, hist[..base], base)
    ensures PlacedAt(Place(cells, head, batch), head, batch)
    ensures Rows(net, Place(cells, head, batch), kv, id, hist, base)
  {
    var cells1 := Place(cells, head, batch);
    forall j | 0 <= j < |batch|
      ensures |batch[j].seqIds| == 1 && cells1[head + j] == Cell(batch[j].pos, {batch[j].seqIds[0]})
    {
      FedPosition(batch, id, hist, base, j);
      PlacedEntry(cells, head, batch, j);
    }
    hide Isolated, WellLabelled, IsSlot, Feeds, ProperBatch;
    forall i | 0 <= i < |cells1| && id in cells1[i].seqId && 0 <= cells1[i].pos < base
      ensures kv[i] == Isolated(net, hist[..cells1[i].pos + 1])
    {
      OldOrLater(cells, head, batch, id, hist, base, i);
      assert hist[..base][..cells1[i].pos + 1] == hist[..cells1[i].pos + 1];
    }
  }

  lemma FedAll(batch: seq<Entry>, id: int, hist: seq<int>, base: nat)
    requires ProperBatch(batch) && Feeds(batch, id, hist, base)
    ensures base + Count(batch, |batch|, id) == |hist|
  {
  }

  // Evaluating a batch extends what each sequence spells by exactly the tokens fed to it.
  lemma DecodedSpells<Kv>(net: Net<Kv>, cells0: seq<Cell>, kv0: seq<Kv>, cells1: seq<Cell>, kv1: seq<Kv>,
                          n: nat, head: nat, batch: seq<Entry>, id: int, hist: seq<int>, base: nat)
    requires Decoded(net, cells0, kv0, cells1, kv1, n, head, batch) && WellLabelled(cells0)
    requires Feeds(batch, id, hist, base) && Spells(net, cells0, kv0, id, hist[..base])
    ensures Spells(net, cells1, kv1, id, hist)
  {
    hide Decoded, Isolated, Past, FlatMask, Forward, Feeds, Layout, Rows, WellLabelled, Place, AbsentFrom, PlacedAt,
         IsSlot, ProperBatch, Count;
    DecodedShape(net, cells0, kv0, cells1, kv1, n, head, batch, id);
    FedAll(batch, id, hist, base);
    PlaceExtendsLayout(cells0, head, batch, id, hist, base);
    OldRowsSurvive(net, cells0, kv0, head, batch, id, hist, base);
    ForwardRefines(net, cells1, n, kv0, head, batch, |batch|, id, hist, base);
  }

  lemma DecodedShape<Kv>(net: Net<Kv>, cells0: seq<Cell>, kv0: seq<Kv>, cells1: seq<Cell>, kv1: seq<Kv>,
                         n: nat, head: nat, batch: seq<Entry>, id: int)
    requires Decoded(net, cells0, kv0, cells1, kv1, n, head, batch)
    ensures |kv0| == |cells0| == |cells1| && n <= |cells0| && ProperBatch(batch) && IsSlot(cells0, head, |batch|)
    ensures head + |batch| <= |cells0| && cells1 == Place(cells0, head, batch) && AbsentFrom(cells1, id, n)
    ensures |FlatMask(cells1, n, batch)| == |batch| * n
    ensures kv1 == Forward(net, FlatMask(cells1, n, batch), n, kv0, head, batch, |batch|)
  {
    hide Forward, FlatMask;
  }

  // Every token of the batch is also shown its own cell, which is among those evaluated over.
  lemma OwnCellShown<Kv>(net: Net<Kv>, cells0: seq<Cell>, kv0: seq<Kv>, cells1: seq<Cell>, kv1: seq<Kv>,
                         n: nat, head: nat, batch: seq<Entry>, j: nat)
    requires Decoded(net, cells0, kv0, cells1, kv1, n, head, batch) && WellLabelled(cells0)
    requires j < |batch| && |batch[j].seqIds| == 1
    ensures head + j < n <= |cells1| && !MaskRow(cells1, n, batch[j])[head + j]
  {
    hide Forward, FlatMask;
    PlacedEntry(cells0, head, batch, j);
    hide Place, IsSlot, WellLabelled;
    assert batch[j].seqIds[0] in cells1[head + j].seqId;
  }

  // The row computed for the last token of a history.
  lemma LastRow<Kv>(net: Net<Kv>, cells0: seq<Cell>, cells1: seq<Cell>, kv1: seq<Kv>, head: nat, batch: seq<Entry>,
                    k: nat, id: int, hist: seq<int>)
    requires ProperBatch(batch) && IsSlot(cells0, head, |batch|) && WellLabelled(cells0) && |kv1| == |cells1|
    requires cells1 == Place(cells0, head, batch) && Spells(net, cells1, kv1, id, hist)
    requires k < |batch| && batch[k].seqIds == [id] && batch[k].pos == |hist| - 1
    ensures kv1[head + k] == Isolated(net, hist)
  {
    hide Isolated, Past, Layout;
    assert cells0[head + k].pos < 0;
    assert cells1[head + k] == Cell(|hist| - 1, {id});
    assert hist[..|hist|] == hist;
  }

  // Finds a slot, sizes the attention window, builds the mask and evaluates the batch.
  method DecodeInternal<Kv>(ghost net: Net<Kv>, cache: Cache<Kv>, batch: seq<Entry>, pad: nat)
    returns (ok: bool, ghost logits: seq<Kv>)
    requires cache.Valid() && ProperBatch(batch) && pad >= 1
    modifies cache, cache.cells
    ensures cache.Valid() && cache.cells == old(cache.cells)
    ensures ok <==> exists s :: IsSlot(old(cache.cells[..]), s, |batch|)
    ensures cache.frontier <= old(cache.frontier) + |batch|
    ensures !ok ==> cache.cells[..] == old(cache.cells[..]) && cache.kv == old(cache.kv)
    ensures ok ==> Decoded(net, old(cache.cells[..]), old(cache.kv), cache.cells[..], cache.kv, cache.n, cache.head,
            batch)
    ensures ok ==> cache.head + |batch| <= |cache.kv| && logits == cache.kv[cache.head..cache.head + |batch|]
  {
    hide IsSlot, WellLabelled, Forward, FlatMask, PlaceCell;
    ghost var cells0, kv0 := cache.cells[..], cache.kv;
    logits := [];
    ok := cache.FindSlot(batch);
    if !ok {
      return;
    }
    PlaceKeepsLabelling(cells0, cache.head, batch);
    var used := cache.CellMax();
    cache.n := Min(cache.cells.Length, Max(pad, Pad(used, pad)));
    var mask := cache.BuildMask(batch);
    cache.kv := Forward(net, mask[..], cache.n, kv0, cache.head, batch, |batch|);
    logits := cache.kv[cache.head..cache.head + |batch|];
    var cells1 := cache.cells[..];
    assert forall i :: cache.n <= i < |cells1| ==> cells1[i] == cache.cells[i];
  }

  /* ---- re-parenting decoders ---- */

  // Copying each live decoder's source to the decoder's temporary id.
  function CopyOut(cells: seq<Cell>, src: seq<nat>, live: seq<bool>, j: nat): (r: seq<Cell>)
    requires j <= |src| == |live|
    ensures |r| == |cells|
  {
    if j == 0 then cells
    else
      var r := CopyOut(cells, src, live, j - 1);
      if live[j - 1] then CpCells(r, src[j - 1], WHISPER_MAX_DECODERS + (j - 1), -1, -1) else r
  }

  // Replacing each live decoder's cells by those under its temporary id.
  function MoveBack(cells: seq<Cell>, live: seq<bool>, j: nat): (r: seq<Cell>)
    requires j <= |live|
    ensures |r| == |cells|
  {
    if j == 0 then cells
    else
      var r := MoveBack(cells, live, j - 1);
      if live[j - 1] then
        RmCells(CpCells(RmCells(r, j - 1, -1, -1), WHISPER_MAX_DECODERS + (j - 1), j - 1, -1, -1),
                WHISPER_MAX_DECODERS + (j - 1), -1, -1)
      else r
  }

  // The same step as one simultaneous assignment.
  ghost function Reparented(c: Cell, src: seq<nat>, live: seq<bool>): Cell
    requires |src| == |live|
  {
    var taken := set j | 0 <= j < |live| && live[j] && src[j] in c.seqId;
    var kept := set k | k in c.seqId && !(0 <= k < |live| && live[k]);
    Cell(if taken + kept == {} then -1 else c.pos, taken + kept)
  }

  // Copies for the first j decoders do not look at the other sources.
  lemma {:induction false} CopyOutPrefix(cells: seq<Cell>, a: seq<nat>, b: seq<nat>, live: seq<bool>, j: nat)
    requires j <= |a| == |b| == |live| && forall k :: 0 <= k < j ==> a[k] == b[k]
    ensures CopyOut(cells, a, live, j) == CopyOut(cells, b, live, j)
  {
    if j > 0 {
      CopyOutPrefix(cells, a, b, live, j - 1);
    }
  }

  // Only decoder ids are in use, and positions are proper.
  predicate OnlyDecoders(cells: seq<Cell>, nDec: nat) {
    && WellLabelled(cells)
    && forall i :: 0 <= i < |cells| ==> cells[i].pos < POS_MAX && forall k :: k in cells[i].seqId ==> 0 <= k < nDec
  }

  // Labels after the first j copies.
  ghost function OutLabels(c: Cell, src: seq<nat>, live: seq<bool>, j: nat): set<int>
    requires j <= |src| == |live|
  {
    c.seqId + set k | 0 <= k < j && live[k] && src[k] in c.seqId :: WHISPER_MAX_DECODERS + k
  }

  lemma {:induction false} CopyOutLabels(cells: seq<Cell>, src: seq<nat>, live: seq<bool>, j: nat, i: nat)
    requires j <= |src| == |live| <= WHISPER_MAX_DECODERS && i < |cells|
    requires forall k :: 0 <= k < |src| ==> src[k] < |src|
    requires OnlyDecoders(cells, |src|)
    ensures CopyOut(cells, src, live, j)[i] == Cell(cells[i].pos, OutLabels(cells[i], src, live, j))
  {
    if j > 0 {
      CopyOutLabels(cells, src, live, j - 1, i);
      var r := CopyOut(cells, src, live, j - 1);
      var k := j - 1;
      assert src[k] in r[i].seqId <==> src[k] in cells[i].seqId;
      if live[k] && src[k] in cells[i].seqId {
        assert OutLabels(cells[i], src, live, j) == OutLabels(cells[i], src, live, k) + {WHISPER_MAX_DECODERS + k};
      } else {
        assert OutLabels(cells[i], src, live, j) == OutLabels(cells[i], src, live, k);
      }
    }
  }

  // Labels after the first j decoders were moved back.
  ghost function BackLabels(c: Cell, src: seq<nat>, live: seq<bool>, j: nat): set<int>
    requires j <= |src| == |live|
  {
    (set k | k in c.seqId && !(0 <= k < j && live[k]))
    + (set k | 0 <= k < j && live[k] && src[k] in c.seqId)
    + (set k | j <= k < |live| && live[k] && src[k] in c.seqId :: WHISPER_MAX_DECODERS + k)
  }

  ghost function WithLabels(c: Cell, labels: set<int>): Cell {
    Cell(if labels == {} then -1 else c.pos, labels)
  }

  // Moving one decoder back, on one cell.
  lemma MoveOne(c: Cell, labels: set<int>, k: int, t: int)
    requires 0 <= c.pos < POS_MAX && 0 <= k < t
    ensures RmCell(CpCell(RmCell(WithLabels(c, labels), k, -1, -1), t, k, -1, -1), t, -1, -1)
            == WithLabels(c, labels - {k} - {t} + if t in labels then {k} else {})
  {
  }

  lemma MoveBackNothing(cells: seq<Cell>, src: seq<nat>, live: seq<bool>, i: nat)
    requires |src| == |live| <= WHISPER_MAX_DECODERS && i < |cells|
    requires forall k :: 0 <= k < |src| ==> src[k] < |src|
    requires OnlyDecoders(cells, |src|) && cells[i].pos >= 0
    ensures MoveBack(CopyOut(cells, src, live, |src|), live, 0)[i]
            == WithLabels(cells[i], BackLabels(cells[i], src, live, 0))
  {
    var c := cells[i];
    CopyOutLabels(cells, src, live, |src|, i);
    hide CopyOut;
    assert OutLabels(c, src, live, |src|) == BackLabels(c, src, live, 0);
  }

  lemma {:induction false} MoveBackLabels(cells: seq<Cell>, src: seq<nat>, live: seq<bool>, j: nat, i: nat)
    requires j <= |src| == |live| <= WHISPER_MAX_DECODERS && i < |cells|
    requires forall k :: 0 <= k < |src| ==> src[k] < |src|
    requires OnlyDecoders(cells, |src|) && cells[i].pos >= 0
    ensures MoveBack(CopyOut(cells, src, live, |src|), live, j)[i]
            == WithLabels(cells[i], BackLabels(cells[i], src, live, j))
  {
    var c := cells[i];
    if j == 0 {
      MoveBackNothing(cells, src, live, i);
    } else {
      hide CopyOut, RmCell, CpCell, BackLabels, OnlyDecoders;
      var k := j - 1;
      var t := WHISPER_MAX_DECODERS + k;
      MoveBackLabels(cells, src, live, k, i);
      BackLabelsStep(c, src, live, j);
      if live[k] {
        MoveOne(c, BackLabels(c, src, live, k), k, t);
      }
    }
  }

  lemma BackLabelsStep(c: Cell, src: seq<nat>, live: seq<bool>, j: nat)
    requires 1 <= j <= |src| == |live| <= WHISPER_MAX_DECODERS
    requires forall k :: k in c.seqId ==> 0 <= k < |src|
    ensures var k, t, before := j - 1, WHISPER_MAX_DECODERS + (j - 1), BackLabels(c, src, live, j - 1);
            BackLabels(c, src, live, j) ==
              if live[k] then before - {k} - {t} + (if t in before then {k} else {}) else before
  {
    var k := j - 1;
    assert WHISPER_MAX_DECODERS + k in BackLabels(c, src, live, k) <==> live[k] && src[k] in c.seqId;
  }

  // The copy, remove, copy back, remove sequence re-parents all live decoders at once: no
  // temporary id survives, finished decoders keep their cells, and exactly the cells nobody
  // wants any more become free.
  lemma ReparentIsSimultaneous(cells: seq<Cell>, src: seq<nat>, live: seq<bool>, i: nat)
    requires |src| == |live| <= WHISPER_MAX_DECODERS && i < |cells|
    requires forall k :: 0 <= k < |src| ==> src[k] < |src|
    requires OnlyDecoders(cells, |src|)
    ensures MoveBack(CopyOut(cells, src, live, |src|), live, |src|)[i] == Reparented(cells[i], src, live)
  {
    var c := cells[i];
    if c.pos >= 0 {
      MoveBackLabels(cells, src, live, |src|, i);
      assert BackLabels(c, src, live, |src|) == Reparented(c, src, live).seqId;
    } else {
      FreeCopied(cells, src, live, |src|, i);
      FreeMoved(CopyOut(cells, src, live, |src|), live, |src|, i);
      assert Reparented(c, src, live).seqId == {};
    }
  }

  lemma {:induction false} FreeCopied(cells: seq<Cell>, src: seq<nat>, live: seq<bool>, j: nat, i: nat)
    requires j <= |src| == |live| && i < |cells| && cells[i] == EMPTY_CELL
    ensures CopyOut(cells, src, live, j)[i] == EMPTY_CELL
  {
    if j > 0 {
      FreeCopied(cells, src, live, j - 1, i);
    }
  }

  lemma {:induction false} FreeMoved(cells: seq<Cell>, live: seq<bool>, j: nat, i: nat)
    requires j <= |live| && i < |cells| && cells[i] == EMPTY_CELL
    ensures MoveBack(cells, live, j)[i] == EMPTY_CELL
  {
    if j > 0 {
      FreeMoved(cells, live, j - 1, i);
    }
  }

  /* ---- transferring what a sequence spells ---- */

  // Sequence idB in `b` labels the cells that idA labels in `a`.
  ghost predicate SameCells(a: seq<Cell>, idA: int, b: seq<Cell>, idB: int) {
    && |a| == |b|
    && forall i :: 0 <= i < |a| ==>
         (idA in a[i].seqId <==> idB in b[i].seqId) && (idA in a[i].seqId ==> a[i].pos == b[i].pos)
  }

  lemma SpellsTransfers<Kv>(net: Net<Kv>, a: seq<Cell>, idA: int, b: seq<Cell>, idB: int, kv: seq<Kv>, hist: seq<int>)
    requires SameCells(a, idA, b, idB) && |kv| == |a| && Spells(net, a, kv, idA, hist)
    ensures Spells(net, b, kv, idB, hist)
  {
    forall p | 0 <= p < |hist| ensures Holds(b, idB, p) {
      assert Holds(a, idA, p);
      var i :| 0 <= i < |a| && At(a[i], idA, p);
      assert At(b[i], idB, p);
    }
    forall i | 0 <= i < |b| && idB in b[i].seqId ensures kv[i] == Isolated(net, hist[..b[i].pos + 1]) {
      assert idA in a[i].seqId;
    }
  }

  // Cells of sequence id at positions p0 to p1 are relabelled; the others keep their labels.
  ghost predicate Keeps(a: seq<Cell>, b: seq<Cell>, id: int, m: nat) {
    && |a| == |b|
    && forall i :: 0 <= i < |a| ==>
         (id in b[i].seqId <==> id in a[i].seqId && a[i].pos < m) && (id in b[i].seqId ==> a[i].pos == b[i].pos)
  }

  lemma KeepsSpells<Kv>(net: Net<Kv>, a: seq<Cell>, b: seq<Cell>, kv: seq<Kv>, id: int, hist: seq<int>, m: nat)
    requires Keeps(a, b, id, m) && |kv| == |a| && m <= |hist| && Spells(net, a, kv, id, hist)
    ensures Spells(net, b, kv, id, hist[..m])
  {
    hide Isolated;
    forall p | 0 <= p < m
      ensures Holds(b, id, p)
    {
      assert Holds(a, id, p);
      var i :| 0 <= i < |a| && At(a[i], id, p);
      assert At(b[i], id, p);
    }
    forall i | 0 <= i < |b| && id in b[i].seqId
      ensures kv[i] == Isolated(net, hist[..m][..b[i].pos + 1])
    {
      assert hist[..m][..b[i].pos + 1] == hist[..b[i].pos + 1];
    }
  }

  // Removing a sequence from a position on leaves what it spells before that position.
  lemma RemoveSpells<Kv>(net: Net<Kv>, cells: seq<Cell>, kv: seq<Kv>, id: nat, from: nat, hist: seq<int>)
    requires |kv| == |cells| && from <= |hist| <= POS_MAX && Spells(net, cells, kv, id, hist)
    ensures Spells(net, RmCells(cells, id, from, -1), kv, id, hist[..from])
  {
    var r := RmCells(cells, id, from, -1);
    assert Keeps(cells, r, id, from);
    KeepsSpells(net, cells, r, kv, id, hist, from);
  }

  // Whatever is removed of a sequence or copied to one, the others spell what they did.
  lemma OthersSpell<Kv>(net: Net<Kv>, cells: seq<Cell>, kv: seq<Kv>, id: nat, src: int, p0: int, p1: int, other: int,
                        hist: seq<int>)
    requires |kv| == |cells| && other != id && Spells(net, cells, kv, other, hist)
    ensures Spells(net, RmCells(cells, id, p0, p1), kv, other, hist)
    ensures Spells(net, CpCells(cells, src, id, p0, p1), kv, other, hist)
  {
    var r, c := RmCells(cells, id, p0, p1), CpCells(cells, src, id, p0, p1);
    assert SameCells(cells, other, r, other) && SameCells(cells, other, c, other);
    SpellsTransfers(net, cells, other, r, other, kv, hist);
    SpellsTransfers(net, cells, other, c, other, kv, hist);
  }

  // Copying positions p0 to p1 of a sequence to one that spells the same up to p0 makes that one
  // spell the same up to p1.
  lemma CopySpells<Kv>(net: Net<Kv>, cells: seq<Cell>, kv: seq<Kv>, src: int, dst: int, p0: nat, p1: nat,
                       hist: seq<int>)
    requires |kv| == |cells| && p0 <= p1 <= |hist| && Spells(net, cells, kv, src, hist)
    requires Spells(net, cells, kv, dst, hist[..p0])
    ensures Spells(net, CpCells(cells, src, dst, p0, p1), kv, dst, hist[..p1])
  {
    var r := CpCells(cells, src, dst, p0, p1);
    CopiedLayout(cells, src, dst, p0, p1, |hist|);
    hide Isolated, Layout;
    assert |hist[..p0]| == p0;
    forall i | 0 <= i < |r| && dst in r[i].seqId && 0 <= r[i].pos < p1
      ensures kv[i] == Isolated(net, hist[..p1][..r[i].pos + 1])
    {
      assert hist[..p1][..r[i].pos + 1] == hist[..r[i].pos + 1];
      if dst in cells[i].seqId && r[i].pos < p0 {
        assert hist[..p0][..r[i].pos + 1] == hist[..r[i].pos + 1];
      } else {
        InLayout(cells, dst, p0, i);
      }
    }
  }

  lemma InLayout(cells: seq<Cell>, id: int, m: nat, i: nat)
    requires Layout(cells, id, m) && i < |cells|
    ensures id in cells[i].seqId ==> 0 <= cells[i].pos < m
  {
  }

  lemma CopiedLayout(cells: seq<Cell>, src: int, dst: int, p0: nat, p1: nat, m: nat)
    requires Layout(cells, src, m) && Layout(cells, dst, p0) && p0 <= p1 <= m
    ensures Layout(CpCells(cells, src, dst, p0, p1), dst, p1)
  {
    var r := CpCells(cells, src, dst, p0, p1);
    forall p | 0 <= p < p1
      ensures Holds(r, dst, p)
    {
      var id := if p < p0 then dst else src;
      assert Holds(cells, id, p);
      var i :| 0 <= i < |cells| && At(cells[i], id, p);
      assert At(r[i], dst, p);
    }
  }

  // A live decoder inherits what its source spelled; a finished one keeps its own.
  lemma ReparentSpells<Kv>(net: Net<Kv>, cells: seq<Cell>, kv: seq<Kv>, src: seq<nat>, live: seq<bool>, j: nat,
                           hist: seq<int>)
    requires |src| == |live| <= WHISPER_MAX_DECODERS && j < |src| && |kv| == |cells|
    requires forall k :: 0 <= k < |src| ==> src[k] < |src|
    requires OnlyDecoders(cells, |src|)
    requires Spells(net, cells, kv, if live[j] then src[j] else j, hist)
    ensures Spells(net, MoveBack(CopyOut(cells, src, live, |src|), live, |src|), kv, j, hist)
  {
    var r := MoveBack(CopyOut(cells, src, live, |src|), live, |src|);
    var from := if live[j] then src[j] else j;
    forall i | 0 <= i < |cells|
      ensures (from in cells[i].seqId <==> j in r[i].seqId) && (from in cells[i].seqId ==> cells[i].pos == r[i].pos)
    {
      ReparentIsSimultaneous(cells, src, live, i);
    }
    SpellsTransfers(net, cells, from, r, j, kv, hist);
  }

  lemma ReparentOnlyDecoders(cells: seq<Cell>, src: seq<nat>, live: seq<bool>)
    requires |src| == |live| <= WHISPER_MAX_DECODERS
    requires forall k :: 0 <= k < |src| ==> src[k] < |src|
    requires OnlyDecoders(cells, |src|)
    ensures OnlyDecoders(MoveBack(CopyOut(cells, src, live, |src|), live, |src|), |src|)
  {
    forall i | 0 <= i < |cells| {
      ReparentIsSimultaneous(cells, src, live, i);
    }
  }

  /* ---- the batch of one step ---- */

  function Front(s: seq<int>): seq<int>
    requires s != []
  {
    s[..|s| - 1]
  }

  // The rows fed for the decoders below j that are still live.
  function StepBatch(tokens: seq<seq<int>>, finished: seq<bool>, nPast: nat, j: nat): (r: seq<Entry>)
    requires j <= |tokens| == |finished|
    requires forall k :: 0 <= k < j && !finished[k] ==> tokens[k] != []
    ensures ProperBatch(r) && |r| <= j
    ensures forall k :: 0 <= k < |r| ==> |r[k].seqIds| == 1 && 0 <= r[k].seqIds[0] < j && r[k].pos == nPast
  {
    if j == 0 then []
    else
      var r := StepBatch(tokens, finished, nPast, j - 1);
      if finished[j - 1] then r else r + [Entry(tokens[j - 1][|tokens[j - 1]| - 1], nPast, [j - 1])]
  }

  // Position of decoder j's row in the batch.
  function RowOf(finished: seq<bool>, j: nat): nat
    requires j <= |finished|
  {
    if j == 0 then 0 else RowOf(finished, j - 1) + if finished[j - 1] then 0 else 1
  }

  lemma {:induction false} StepBatchSize(tokens: seq<seq<int>>, finished: seq<bool>, nPast: nat, j: nat)
    requires j <= |tokens| == |finished|
    requires forall k :: 0 <= k < j && !finished[k] ==> tokens[k] != []
    ensures |StepBatch(tokens, finished, nPast, j)| == RowOf(finished, j)
  {
    if j > 0 {
      StepBatchSize(tokens, finished, nPast, j - 1);
    }
  }

  // A live decoder's row is at its place in the batch.
  lemma {:induction false} StepBatchRow(tokens: seq<seq<int>>, finished: seq<bool>, nPast: nat, j: nat, id: nat)
    requires id < j <= |tokens| == |finished| && !finished[id]
    requires forall k :: 0 <= k < j && !finished[k] ==> tokens[k] != []
    ensures RowOf(finished, id) < |StepBatch(tokens, finished, nPast, j)|
    ensures StepBatch(tokens, finished, nPast, j)[RowOf(finished, id)]
            == Entry(tokens[id][|tokens[id]| - 1], nPast, [id])
  {
    hide RowOf, ProperBatch;
    StepBatchSize(tokens, finished, nPast, j - 1);
    if id < j - 1 {
      StepBatchRow(tokens, finished, nPast, j - 1, id);
    }
  }

  lemma {:induction false} RowOwner(tokens: seq<seq<int>>, finished: seq<bool>, nPast: nat, j: nat, k: nat)
    requires j <= |tokens| == |finished|
    requires forall q :: 0 <= q < j && !finished[q] ==> tokens[q] != []
    requires k < |StepBatch(tokens, finished, nPast, j)|
    ensures var id := StepBatch(tokens, finished, nPast, j)[k].seqIds[0];
            0 <= id < j && !finished[id] && k == RowOf(finished, id)
  {
    StepBatchSize(tokens, finished, nPast, j - 1);
    if k < |StepBatch(tokens, finished, nPast, j - 1)| {
      RowOwner(tokens, finished, nPast, j - 1, k);
    }
  }

  // It has no other row, and a finished decoder has none.
  lemma StepBatchOthers(tokens: seq<seq<int>>, finished: seq<bool>, nPast: nat, j: nat, id: nat)
    requires j <= |tokens| == |finished| && id < |tokens|
    requires forall k :: 0 <= k < j && !finished[k] ==> tokens[k] != []
    ensures forall k :: 0 <= k < |StepBatch(tokens, finished, nPast, j)| ==>
              StepBatch(tokens, finished, nPast, j)[k].seqIds[0] == id ==>
                id < j && !finished[id] && k == RowOf(finished, id)
  {
    hide StepBatch, RowOf;
    var batch := StepBatch(tokens, finished, nPast, j);
    forall k | 0 <= k < |batch| && batch[k].seqIds[0] == id
      ensures id < j && !finished[id] && k == RowOf(finished, id)
    {
      RowOwner(tokens, finished, nPast, j, k);
    }
  }

  lemma {:induction false} CountRows(batch: seq<Entry>, k: nat, id: int, m: nat)
    requires ProperBatch(batch) && k <= |batch|
    requires forall q :: 0 <= q < |batch| && q != m ==> batch[q].seqIds[0] != id
    ensures Count(batch, k, id) == if m < k && batch[m].seqIds[0] == id then 1 else 0
  {
    if k > 0 {
      CountRows(batch, k - 1, id, m);
    }
  }

  // Each live decoder feeds its last token; a finished one feeds nothing.
  lemma StepBatchFeeds(tokens: seq<seq<int>>, finished: seq<bool>, nPast: nat, id: nat, hist: seq<int>)
    requires id < |tokens| == |finished|
    requires forall k :: 0 <= k < |tokens| && !finished[k] ==> tokens[k] != []
    requires !finished[id] ==> |hist| == nPast + 1 && hist[nPast] == tokens[id][|tokens[id]| - 1]
    ensures Feeds(StepBatch(tokens, finished, nPast, |tokens|), id, hist, if finished[id] then |hist| else nPast)
  {
    var batch := StepBatch(tokens, finished, nPast, |tokens|);
    var m := RowOf(finished, id);
    StepBatchOthers(tokens, finished, nPast, |tokens|, id);
    if !finished[id] {
      StepBatchRow(tokens, finished, nPast, |tokens|, id);
    }
    forall k | 0 <= k <= |batch|
      ensures Count(batch, k, id) == if m < k && batch[m].seqIds[0] == id then 1 else 0
    {
      CountRows(batch, k, id, m);
    }
  }

  // After a step each decoder spells its history with its last token, and its row of the
  // logits is the isolated one; a finished decoder is left as it was.
  lemma StepSpells<Kv>(net: Net<Kv>, cells0: seq<Cell>, kv0: seq<Kv>, cells1: seq<Cell>, kv1: seq<Kv>, n: nat,
                       head: nat,
                       tokens: seq<seq<int>>, finished: seq<bool>, nPast: nat, j: nat, was: seq<int>, hist: seq<int>)
    requires j < |tokens| == |finished| && forall k :: 0 <= k < |tokens| && !finished[k] ==> tokens[k] != []
    requires Decoded(net, cells0, kv0, cells1, kv1, n, head, StepBatch(tokens, finished, nPast, |tokens|))
    requires WellLabelled(cells0) && Spells(net, cells0, kv0, j, was)
    requires if finished[j] then hist == was else |was| == nPast && hist == was + [tokens[j][|tokens[j]| - 1]]
    ensures Spells(net, cells1, kv1, j, hist)
    ensures !finished[j] ==> RowOf(finished, j) < |StepBatch(tokens, finished, nPast, |tokens|)|
                             && kv1[head + RowOf(finished, j)] == Isolated(net, hist)
  {
    hide Isolated, Past, Layout, Rows, Forward, FlatMask, Count;
    var batch := StepBatch(tokens, finished, nPast, |tokens|);
    var base := if finished[j] then |hist| else nPast;
    StepBatchFeeds(tokens, finished, nPast, j, hist);
    assert hist[..base] == was;
    DecodedSpells(net, cells0, kv0, cells1, kv1, n, head, batch, j, hist, base);
    if !finished[j] {
      StepBatchRow(tokens, finished, nPast, |tokens|, j);
      LastRow(net, cells0, cells1, kv1, head, batch, RowOf(finished, j), j, hist);
    }
  }

  lemma PlaceOnlyDecoders(cells: seq<Cell>, head: nat, batch: seq<Entry>, nDec: nat)
    requires OnlyDecoders(cells, nDec) && ProperBatch(batch) && IsSlot(cells, head, |batch|)
    requires forall k :: 0 <= k < |batch| ==>
               batch[k].pos < POS_MAX && |batch[k].seqIds| == 1 && 0 <= batch[k].seqIds[0] < nDec
    ensures OnlyDecoders(Place(cells, head, batch), nDec)
  {
    PlaceKeepsLabelling(cells, head, batch);
    var r := Place(cells, head, batch);
    forall i | head <= i < head + |batch| ensures r[i] == Cell(batch[i - head].pos, {batch[i - head].seqIds[0]}) {
      assert cells[i].pos < 0;
    }
  }

  lemma EmptySpells<Kv>(net: Net<Kv>, cells: seq<Cell>, kv: seq<Kv>, id: int)
    requires |kv| == |cells| && OnlyDecoders(cells, 0)
    ensures Spells(net, cells, kv, id, [])
  {
  }

  /* ---- decoding one sequence ---- */

  // Tokens for sequence 0 from position nPast on.
  function LegacyBatch(tokens: seq<int>, nPast: nat): (r: seq<Entry>)
    ensures |r| == |tokens| && ProperBatch(r)
  {
    seq(|tokens|, i requires 0 <= i < |tokens| => Entry(tokens[i], nPast + i, [0]))
  }

  lemma {:induction false} LegacyCount(tokens: seq<int>, nPast: nat, k: nat)
    requires k <= |tokens|
    ensures Count(LegacyBatch(tokens, nPast), k, 0) == k
  {
    if k > 0 {
      LegacyCount(tokens, nPast, k - 1);
    }
  }

  lemma LegacyFeeds(hist: seq<int>, tokens: seq<int>)
    ensures Feeds(LegacyBatch(tokens, |hist|), 0, hist + tokens, |hist|)
  {
    forall k | 0 <= k <= |tokens| {
      LegacyCount(tokens, |hist|, k);
    }
  }

  // Evaluates tokens of sequence 0 from position nPast on, in place of those that were there.
  method DecodeWithState<Kv>(ghost net: Net<Kv>, cache: Cache<Kv>, tokens: seq<int>, nPast: nat, pad: nat,
                             ghost hist: seq<int>)
    returns (ok: bool, ghost logits: seq<Kv>)
    requires cache.Valid() && pad >= 1 && nPast <= |hist| <= POS_MAX
    requires Spells(net, cache.cells[..], cache.kv, 0, hist)
    modifies cache, cache.cells
    ensures cache.Valid() && cache.cells == old(cache.cells) && |cache.kv| == cache.cells.Length
    ensures !ok ==> Spells(net, cache.cells[..], cache.kv, 0, hist[..nPast])
    ensures ok ==> Spells(net, cache.cells[..], cache.kv, 0, hist[..nPast] + tokens)
    ensures ok && tokens != [] ==>
              |logits| == |tokens| && logits[|tokens| - 1] == Isolated(net, hist[..nPast] + tokens)
  {
    hide Spells, Isolated, Decoded, RmCells, ProperBatch, Feeds, IsSlot;
    var batch := LegacyBatch(tokens, nPast);
    ghost var kv0 := cache.kv;
    RemoveSpells(net, cache.cells[..], kv0, 0, nPast, hist);
    cache.SeqRm(0, nPast, -1);
    ghost var cells0 := cache.cells[..];
    ok, logits := DecodeInternal(net, cache, batch, pad);
    if ok {
      LegacyDecoded(net, cells0, kv0, cache.cells[..], cache.kv, cache.n, cache.head, hist[..nPast], tokens);
    }
  }

  lemma LegacyDecoded<Kv>(net: Net<Kv>, cells0: seq<Cell>, kv0: seq<Kv>, cells1: seq<Cell>, kv1: seq<Kv>, n: nat,
                          head: nat, hist: seq<int>, tokens: seq<int>)
    requires WellLabelled(cells0) && |kv0| == |cells0| && Spells(net, cells0, kv0, 0, hist)
    requires Decoded(net, cells0, kv0, cells1, kv1, n, head, LegacyBatch(tokens, |hist|))
    ensures |kv1| == |cells1| && Spells(net, cells1, kv1, 0, hist + tokens)
    ensures tokens != [] ==>
              head + |tokens| <= |kv1| && kv1[head + |tokens| - 1] == Isolated(net, hist + tokens)
  {
    var batch := LegacyBatch(tokens, |hist|);
    hide Isolated, Past, FlatMask, Forward, Spells, Feeds, WellLabelled;
    LegacyFeeds(hist, tokens);
    assert (hist + tokens)[..|hist|] == hist;
    DecodedSpells(net, cells0, kv0, cells1, kv1, n, head, batch, 0, hist + tokens, |hist|);
    if tokens != [] {
      LastRow(net, cells0, cells1, kv1, head, batch, |tokens| - 1, 0, hist + tokens);
    }
  }

  lemma NothingBefore<T>(s: seq<T>)
    ensures [] + s == s
  {
  }

  // After the prompt is evaluated in an empty cache, sequence 0 spells it.
  lemma PromptSpells<Kv>(net: Net<Kv>, cells0: seq<Cell>, kv0: seq<Kv>, cells1: seq<Cell>, kv1: seq<Kv>, n: nat,
                         head: nat, prompt: seq<int>)
    requires WellLabelled(cells0) && OnlyDecoders(cells0, 0)
    requires Decoded(net, cells0, kv0, cells1, kv1, n, head, LegacyBatch(prompt, 0))
    ensures |kv1| == |cells1| && Spells(net, cells1, kv1, 0, prompt)
    ensures prompt != [] ==> head + |prompt| <= |kv1| && kv1[head + |prompt| - 1] == Isolated(net, prompt)
  {
    hide Isolated, Forward, FlatMask, Spells, Decoded, WellLabelled, OnlyDecoders, AbsentFrom, IsSlot, LegacyBatch;
    DecodedShape(net, cells0, kv0, cells1, kv1, n, head, LegacyBatch(prompt, 0), 0);
    EmptySpells(net, cells0, kv0, 0);
    NothingBefore(prompt);
    LegacyDecoded(net, cells0, kv0, cells1, kv1, n, head, [], prompt);
  }

  /* ---- the loop ---- */

  lemma FrontOfExtension(tokens: seq<seq<int>>, finished: seq<bool>, c: Candidate, i: nat, size: nat, choices: Choices)
    requires |tokens| == |finished| && Extends(tokens, finished, c, i, size, choices)
    ensures c.decoderIdx < |tokens| && !finished[c.decoderIdx]
    ensures c.tokens != [] && Front(c.tokens) == tokens[c.decoderIdx]
  {
  }

  function Live(finished: seq<bool>): (r: seq<bool>)
    ensures |r| == |finished|
  {
    seq(|finished|, j requires 0 <= j < |finished| => !finished[j])
  }

  /* ---- the state of the loop, as values ---- */

  // Every decoder's history is in the cache, and nothing else is.
  ghost predicate SharedState<Kv>(net: Net<Kv>, cells: seq<Cell>, kv: seq<Kv>, cached: seq<seq<int>>) {
    && |kv| == |cells| && 1 <= |cached| <= WHISPER_MAX_DECODERS
    && OnlyDecoders(cells, |cached|)
    && forall j :: 0 <= j < |cached| ==> Spells(net, cells, kv, j, cached[j])
  }

  // Before step i samples: a live decoder has cached its prompt and i tokens, and is about to
  // sample from the row an isolated decoder would have.
  ghost predicate ReadyState<Kv>(net: Net<Kv>, prompt: seq<int>, tokens: seq<seq<int>>, finished: seq<bool>,
                                 cached: seq<seq<int>>, seen: seq<Kv>, i: nat) {
    && |tokens| == |finished| == |cached| == |seen|
    && forall j :: 0 <= j < |tokens| && !finished[j] ==>
         |tokens[j]| == i && cached[j] == prompt + tokens[j] != [] && seen[j] == Isolated(net, cached[j])
  }

  // After step i sampled: the last token of a live decoder is not in the cache yet.
  ghost predicate SampledState(prompt: seq<int>, tokens: seq<seq<int>>, finished: seq<bool>, cached: seq<seq<int>>,
                               i: nat) {
    && |tokens| == |finished| == |cached|
    && forall j :: 0 <= j < |tokens| && !finished[j] ==> |tokens[j]| == i + 1 && cached[j] == prompt + Front(tokens[j])
  }

  // Histories and rows after the step is fed.
  ghost function Fed(prompt: seq<int>, tokens: seq<seq<int>>, finished: seq<bool>, cached: seq<seq<int>>): seq<seq<int>>
    requires |tokens| == |finished| == |cached|
  {
    seq(|tokens|, j requires 0 <= j < |tokens| => if finished[j] then cached[j] else prompt + tokens[j])
  }

  ghost function RowsRead<Kv>(finished: seq<bool>, seen: seq<Kv>, logits: seq<Kv>): (r: seq<Kv>)
    requires |finished| == |seen|
    ensures |r| == |seen|
  {
    seq(|seen|, j requires 0 <= j < |seen| =>
      if finished[j] || RowOf(finished, j) >= |logits| then seen[j] else logits[RowOf(finished, j)])
  }

  // What feeding does for one decoder.
  lemma DecoderFed<Kv>(net: Net<Kv>, cells0: seq<Cell>, kv0: seq<Kv>, cells1: seq<Cell>, kv1: seq<Kv>, n: nat,
                       head: nat, prompt: seq<int>, tokens: seq<seq<int>>, finished: seq<bool>, cached: seq<seq<int>>,
                           seen: seq<Kv>, i: nat, logits: seq<Kv>, j: nat)
    requires SharedState(net, cells0, kv0, cached) && SampledState(prompt, tokens, finished, cached, i)
    requires |seen| == |tokens| && |prompt| + i < POS_MAX && j < |tokens|
    requires Decoded(net, cells0, kv0, cells1, kv1, n, head, StepBatch(tokens, finished, |prompt| + i, |tokens|))
    requires head + |StepBatch(tokens, finished, |prompt| + i, |tokens|)| <= |kv1|
    requires logits == kv1[head..head + |StepBatch(tokens, finished, |prompt| + i, |tokens|)|]
    ensures |kv1| == |cells1|
    ensures var fed, rows := Fed(prompt, tokens, finished, cached), RowsRead(finished, seen, logits);
            && Spells(net, cells1, kv1, j, fed[j])
            && (!finished[j] ==> fed[j] != [] && rows[j] == Isolated(net, fed[j]))
  {
    hide Isolated, Past, Spells, Forward, FlatMask, Feeds, Count, Place, PlaceCell;
    var fed := Fed(prompt, tokens, finished, cached);
    assert !finished[j] ==> fed[j] == cached[j] + [tokens[j][|tokens[j]| - 1]];
    StepSpells(net, cells0, kv0, cells1, kv1, n, head, tokens, finished, |prompt| + i, j, cached[j], fed[j]);
  }

  // Feeding the sampled tokens makes the loop ready for the next step.
  lemma FeedIsReady<Kv>(net: Net<Kv>, cells0: seq<Cell>, kv0: seq<Kv>, cells1: seq<Cell>, kv1: seq<Kv>, n: nat,
                        head: nat, prompt: seq<int>, tokens: seq<seq<int>>, finished: seq<bool>, cached: seq<seq<int>>,
                            seen: seq<Kv>, i: nat, logits: seq<Kv>)
    requires SharedState(net, cells0, kv0, cached) && SampledState(prompt, tokens, finished, cached, i)
    requires |seen| == |tokens| && |prompt| + i < POS_MAX
    requires Decoded(net, cells0, kv0, cells1, kv1, n, head, StepBatch(tokens, finished, |prompt| + i, |tokens|))
    requires head + |StepBatch(tokens, finished, |prompt| + i, |tokens|)| <= |kv1|
    requires logits == kv1[head..head + |StepBatch(tokens, finished, |prompt| + i, |tokens|)|]
    ensures SharedState(net, cells1, kv1, Fed(prompt, tokens, finished, cached))
    ensures ReadyState(net, prompt, tokens, finished, Fed(prompt, tokens, finished, cached),
            RowsRead(finished, seen, logits), i + 1)
  {
    hide Isolated, Past, Spells, Forward, FlatMask, Feeds, Count, RowsRead;
    var fed, rows := Fed(prompt, tokens, finished, cached), RowsRead(finished, seen, logits);
    PlaceOnlyDecoders(cells0, head, StepBatch(tokens, finished, |prompt| + i, |tokens|), |tokens|);
    forall j | 0 <= j < |tokens|
      ensures Spells(net, cells1, kv1, j, fed[j])
      ensures !finished[j] ==> fed[j] != [] && rows[j] == Isolated(net, fed[j])
    {
      DecoderFed(net, cells0, kv0, cells1, kv1, n, head, prompt, tokens, finished, cached, seen, i, logits, j);
    }
  }

  // What each decoder has cached once it follows its source.
  ghost function Follow(cached: seq<seq<int>>, src: seq<nat>, live: seq<bool>): seq<seq<int>>
    requires |cached| == |src| == |live| && forall k :: 0 <= k < |src| ==> src[k] < |src|
  {
    seq(|src|, j requires 0 <= j < |src| => if live[j] then cached[src[j]] else cached[j])
  }

  // Re-parenting hands every live decoder the history of its source.
  lemma ReparentShared<Kv>(net: Net<Kv>, cells: seq<Cell>, kv: seq<Kv>, cached: seq<seq<int>>, src: seq<nat>,
                           live: seq<bool>)
    requires SharedState(net, cells, kv, cached)
    requires |cached| == |src| == |live| && forall k :: 0 <= k < |src| ==> src[k] < |src|
    ensures SharedState(net, MoveBack(CopyOut(cells, src, live, |src|), live, |src|), kv, Follow(cached, src, live))
  {
    hide Spells;
    forall j | 0 <= j < |src| {
      ReparentSpells(net, cells, kv, src, live, j, Follow(cached, src, live)[j]);
    }
    ReparentOnlyDecoders(cells, src, live);
  }

  // A live decoder's new tokens extend those of its live source by one draw.
  ghost predicate Chosen(tokens: seq<seq<int>>, finished: seq<bool>, now: seq<seq<int>>, src: seq<nat>,
                         i: nat, size: nat, choices: Choices) {
    && |tokens| == |finished| == |now| == |src|
    && (forall k :: 0 <= k < |src| ==> src[k] < |src|)
    && forall j :: 0 <= j < |src| ==>
         if finished[j] then now[j] == tokens[j]
         else Extends(tokens, finished, Candidate(src[j], now[j]), i, size, choices)
  }

  lemma ChosenIsSampled<Kv>(net: Net<Kv>, prompt: seq<int>, tokens: seq<seq<int>>, finished: seq<bool>,
                            cached: seq<seq<int>>,
                            seen: seq<Kv>, now: seq<seq<int>>, src: seq<nat>, i: nat, size: nat, choices: Choices)
    requires ReadyState(net, prompt, tokens, finished, cached, seen, i)
    requires Chosen(tokens, finished, now, src, i, size, choices)
    ensures SampledState(prompt, now, finished, Follow(cached, src, Live(finished)), i)
  {
    hide Extends, Isolated;
    forall j | 0 <= j < |src| && !finished[j]
      ensures |now[j]| == i + 1 && Follow(cached, src, Live(finished))[j] == prompt + Front(now[j])
    {
      FrontOfExtension(tokens, finished, Candidate(src[j], now[j]), i, size, choices);
    }
  }

  // The winners of a step are chosen, whatever the strategy.
  lemma WinnersAreChosen(tokens: seq<seq<int>>, finished: seq<bool>, i: nat, strategy: Strategy, choices: Choices)
    requires |tokens| == |finished| && Size(strategy) >= 1 && Sorts(choices.order)
    ensures Chosen(tokens, finished, NextTokens(tokens, finished, i, strategy, choices),
                   Sources(tokens, finished, i, strategy, choices), i, Size(strategy), choices)
  {
    hide Extends, Sorts;
    forall j: nat | j < |tokens|
      ensures var w := Winner(tokens, finished, i, strategy, choices, j);
              w.decoderIdx < |tokens|
              && if finished[j] then w.tokens == tokens[j] else Extends(tokens, finished, w, i, Size(strategy), choices)
    {
      if !finished[j] {
        WinnerExtends(tokens, finished, i, strategy, choices, j);
        var w := Winner(tokens, finished, i, strategy, choices, j);
        FrontOfExtension(tokens, finished, w, i, Size(strategy), choices);
      }
    }
    hide Winner;
  }

  // A step feeds at most one row a decoder.
  lemma {:induction false} RowOfBounds(finished: seq<bool>, j: nat)
    requires j <= |finished|
    ensures RowOf(finished, j) <= j
    ensures (exists k :: 0 <= k < j && !finished[k]) ==> RowOf(finished, j) >= 1
  {
    if j > 0 {
      RowOfBounds(finished, j - 1);
    }
  }
}
