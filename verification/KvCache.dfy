/**
 The self-attention cache that every decoder shares: one array of cells, each holding the
 position of a token and the set of sequence ids (decoders) that may see it.

 Operations are methods of the class `Cache` that update the cells in place; each one is tied
 to a function on `seq<Cell>`, and the properties are stated about those functions.
 */
module KvCache {
  import opened Arithmetic

  // A cell is free when its position is negative.
  datatype Cell = Cell(pos: int, seqId: set<int>)

  // One row of a batch: the token fed, its position, and the sequences it belongs to.
  datatype Entry = Entry(token: int, pos: int, seqIds: seq<int>)

  const EMPTY_CELL := Cell(-1, {})

  // numeric_limits<int32_t>::max()
  const POS_MAX := 0x7FFF_FFFF

  // The library never leaves a positioned cell without a label, or a label on a free cell.
  predicate WellLabelled(cells: seq<Cell>) {
    forall i :: 0 <= i < |cells| ==> cells[i].pos >= -1 && (cells[i].pos == -1 <==> cells[i].seqId == {})
  }

  /* ---- removing and copying labels ---- */

  function Lo(p0: int): int { if p0 < 0 then 0 else p0 }

  function Hi(p1: int): int { if p1 < 0 then POS_MAX else p1 }

  predicate InRange(c: Cell, p0: int, p1: int) {
    Lo(p0) <= c.pos < Hi(p1)
  }

  predicate TouchedByRm(c: Cell, id: int, p0: int, p1: int) {
    InRange(c, p0, p1) && (id < 0 || id in c.seqId)
  }

  function RmCell(c: Cell, id: int, p0: int, p1: int): Cell {
    if !TouchedByRm(c, id, p0, p1) then c
    else
      var rest := if id < 0 then {} else c.seqId - {id};
      Cell(if rest == {} then -1 else c.pos, rest)
  }

  predicate FreedByRm(c: Cell, id: int, p0: int, p1: int) {
    TouchedByRm(c, id, p0, p1) && RmCell(c, id, p0, p1).pos == -1
  }

  function RmCells(cells: seq<Cell>, id: int, p0: int, p1: int): (r: seq<Cell>)
    ensures |r| == |cells|
    ensures WellLabelled(cells) ==> WellLabelled(r)
  {
    seq(|cells|, i requires 0 <= i < |cells| => RmCell(cells[i], id, p0, p1))
  }

  function CpCell(c: Cell, src: int, dst: int, p0: int, p1: int): Cell {
    if src in c.seqId && InRange(c, p0, p1) then Cell(c.pos, c.seqId + {dst}) else c
  }

  function CpCells(cells: seq<Cell>, src: int, dst: int, p0: int, p1: int): (r: seq<Cell>)
    ensures |r| == |cells|
    ensures WellLabelled(cells) ==> WellLabelled(r)
  {
    seq(|cells|, i requires 0 <= i < |cells| => CpCell(cells[i], src, dst, p0, p1))
  }

  /* ---- slots ---- */

  // The n cells from s on exist and are free.
  predicate IsSlot(cells: seq<Cell>, s: int, n: nat) {
    0 <= s && s + n <= |cells| && forall k :: s <= k < s + n ==> cells[k].pos < 0
  }

  function PlaceCell(c: Cell, e: Entry): Cell {
    Cell(e.pos, c.seqId + set x | x in e.seqIds)
  }

  // No cell from f on is in use.
  predicate FreeFrom(cells: seq<Cell>, f: int) {
    forall i :: 0 <= i < |cells| && f <= i ==> cells[i].pos < 0
  }

  // The cells after `batch` is written to the slot starting at `head`.
  function Place(cells: seq<Cell>, head: nat, batch: seq<Entry>): (r: seq<Cell>)
    requires head + |batch| <= |cells|
    ensures |r| == |cells|
  {
    seq(|cells|, i requires 0 <= i < |cells| =>
      if head <= i < head + |batch| then PlaceCell(cells[i], batch[i - head]) else cells[i])
  }

  lemma PlaceFrontier(cells: seq<Cell>, head: nat, batch: seq<Entry>, f: nat)
    requires head + |batch| <= |cells| && head <= f && FreeFrom(cells, f)
    ensures FreeFrom(Place(cells, head, batch), if f < head + |batch| then head + |batch| else f)
  {
  }

  // What a caller must respect for the labelling to survive a placement.
  predicate ProperBatch(batch: seq<Entry>) {
    forall k :: 0 <= k < |batch| ==> batch[k].pos >= 0 && |batch[k].seqIds| > 0
  }

  lemma PlaceKeepsLabelling(cells: seq<Cell>, head: nat, batch: seq<Entry>)
    requires WellLabelled(cells) && ProperBatch(batch)
    requires IsSlot(cells, head, |batch|)
    ensures WellLabelled(Place(cells, head, batch))
  {
    var r := Place(cells, head, batch);
    forall i | 0 <= i < |r| ensures r[i].pos >= -1 && (r[i].pos == -1 <==> r[i].seqId == {}) {
      if head <= i < head + |batch| {
        assert batch[i - head].seqIds[0] in r[i].seqId;
      }
    }
  }

  function Occupied(cells: seq<Cell>): nat {
    if cells == [] then 0 else Occupied(cells[1..]) + if cells[0].pos >= 0 then 1 else 0
  }

  lemma {:induction false} OccupiedSplit(cells: seq<Cell>, k: nat)
    requires k <= |cells|
    ensures Occupied(cells) == Occupied(cells[..k]) + Occupied(cells[k..])
  {
    if k == 0 {
      assert cells[0..] == cells;
    } else {
      OccupiedSplit(cells[1..], k - 1);
      assert cells[..k][1..] == cells[1..][..k - 1];
      assert cells[1..][k - 1..] == cells[k..];
    }
  }

  lemma {:induction false} OccupiedSome(cells: seq<Cell>)
    requires exists k :: 0 <= k < |cells| && cells[k].pos >= 0
    ensures Occupied(cells) >= 1
  {
    if cells[0].pos < 0 {
      var k :| 0 <= k < |cells| && cells[k].pos >= 0;
      assert cells[1..][k - 1].pos >= 0;
      OccupiedSome(cells[1..]);
    }
  }

  lemma SlotInSuffix(cells: seq<Cell>, k: nat, s: int, n: nat)
    requires k <= |cells|
    ensures IsSlot(cells[k..], s, n) ==> IsSlot(cells, s + k, n)
  {
    assert forall q :: k <= q < |cells| ==> cells[q] == cells[k..][q - k];
  }

  // A cache with no run of n free cells has an occupied cell in each block of n.
  lemma {:induction false} NoSlotMeansCrowded(cells: seq<Cell>, n: nat, blocks: nat)
    requires n >= 1 && blocks * n <= |cells|
    requires forall s :: !IsSlot(cells, s, n)
    ensures Occupied(cells) >= blocks
    decreases blocks
  {
    if blocks > 0 {
      assert blocks * n == (blocks - 1) * n + n;
      assert n <= |cells| by { assert (blocks - 1) * n >= 0; }
      assert !IsSlot(cells, 0, n);
      var k :| 0 <= k < n && cells[k].pos >= 0;
      assert cells[..n][k].pos >= 0;
      OccupiedSome(cells[..n]);
      OccupiedSplit(cells, n);
      forall s ensures !IsSlot(cells[n..], s, n) {
        SlotInSuffix(cells, n, s, n);
      }
      NoSlotMeansCrowded(cells[n..], n, blocks - 1);
    }
  }

  // A batch always finds a slot while fewer than size / n cells are occupied.
  lemma SlotExists(cells: seq<Cell>, n: nat)
    requires n >= 1 && Occupied(cells) < |cells| / n
    ensures exists s :: IsSlot(cells, s, n)
  {
    if forall s :: !IsSlot(cells, s, n) {
      assert |cells| / n * n <= |cells|;
      NoSlotMeansCrowded(cells, n, |cells| / n);
    }
  }

  /* ---- the attention mask ---- */

  // What row e may attend to.
  predicate Shown(c: Cell, e: Entry)
    requires |e.seqIds| > 0
  {
    e.seqIds[0] in c.seqId && c.pos <= e.pos
  }

  function MaskRow(cells: seq<Cell>, n: nat, e: Entry): (r: seq<bool>)
    requires n <= |cells| && |e.seqIds| > 0
    ensures |r| == n
  {
    seq(n, i requires 0 <= i < n => !Shown(cells[i], e))
  }

  // All rows, one after the other; `true` stands for minus infinity.
  function FlatMask(cells: seq<Cell>, n: nat, batch: seq<Entry>): (r: seq<bool>)
    requires n <= |cells| && ProperBatch(batch)
    ensures |r| == |batch| * n
  {
    if batch == [] then []
    else
      var m := |batch| - 1;
      assert |batch| * n == m * n + n;
      FlatMask(cells, n, batch[..m]) + MaskRow(cells, n, batch[m])
  }

  lemma RowBounds(j: nat, m: nat, n: nat)
    requires j < m
    ensures 0 <= j * n && j * n + n <= m * n
  {
    assert m * n == j * n + n + (m - j - 1) * n;
  }

  lemma {:induction false} FlatMaskRow(cells: seq<Cell>, n: nat, batch: seq<Entry>, j: nat, lo: nat)
    requires n <= |cells| && ProperBatch(batch) && j < |batch| && lo == j * n
    ensures lo + n <= |FlatMask(cells, n, batch)|
    ensures FlatMask(cells, n, batch)[lo..lo + n] == MaskRow(cells, n, batch[j])
  {
    var m := |batch| - 1;
    var front := FlatMask(cells, n, batch[..m]);
    if j < m {
      FlatMaskRow(cells, n, batch[..m], j, lo);
      assert front[lo..lo + n] == (front + MaskRow(cells, n, batch[m]))[lo..lo + n];
    }
  }

  lemma FlatMaskSnoc(cells: seq<Cell>, n: nat, batch: seq<Entry>, j: nat)
    requires n <= |cells| && ProperBatch(batch) && j < |batch|
    ensures (j + 1) * n == j * n + n
    ensures FlatMask(cells, n, batch[..j + 1]) == FlatMask(cells, n, batch[..j]) + MaskRow(cells, n, batch[j])
  {
    assert batch[..j + 1][..j] == batch[..j];
  }

  function Max(a: int, b: int): int { if a < b then b else a }

  // GGML_PAD: round up to a multiple of n.
  function Pad(x: nat, n: nat): (r: nat)
    requires n >= 1
    ensures x <= r < x + n
  {
    (x + n - 1) / n * n
  }

  // Every start in the cyclic interval of `tested` positions from `start` on fails.
  predicate Excluded(cells: seq<Cell>, n: nat, start: nat, tested: nat) {
    forall s :: 0 <= s < |cells| && (start <= s < start + tested || s < start + tested - |cells|) ==>
      !IsSlot(cells, s, n)
  }

  // An occupied cell at head + i rules out the starts head .. head + i.
  lemma ExcludeBlocked(cells: seq<Cell>, n: nat, start: nat, tested: nat, head: nat, i: nat)
    requires Excluded(cells, n, start, tested)
    requires i < n && head + i < |cells| && cells[head + i].pos >= 0
    requires head == start + tested || head == start + tested - |cells| || head <= start + tested - 2 * |cells|
    requires start <= |cells|
    ensures Excluded(cells, n, start, tested + i + 1)
  {
    forall s | 0 <= s < |cells| && (start <= s < start + tested + i + 1 || s < start + tested + i + 1 - |cells|)
      ensures !IsSlot(cells, s, n)
    {
      if head <= s <= head + i {
        var k := head + i;
        assert cells[k].pos >= 0;
      }
    }
  }

  // Starts too close to the end fail.
  lemma ExcludeTail(cells: seq<Cell>, n: nat, start: nat, tested: nat, head: nat)
    requires Excluded(cells, n, start, tested)
    requires head <= |cells| < head + n && start <= |cells|
    requires head == start + tested || head == start + tested - |cells| || head == start + tested - 2 * |cells|
    ensures Excluded(cells, n, start, tested + |cells| - head)
  {
  }

  lemma AllExcluded(cells: seq<Cell>, n: nat, start: nat, tested: nat)
    requires Excluded(cells, n, start, tested) && tested >= |cells| >= start && n > 0
    ensures !exists s :: IsSlot(cells, s, n)
  {
    forall s
      ensures !IsSlot(cells, s, n)
    {
      if 0 <= s < |cells| {
        assert start <= s < start + tested || s < start + tested - |cells|;
      }
    }
  }

  class Cache<Kv> {
    var cells: array<Cell>
    var head: nat
    // number of cells the next graph attends over
    var n: nat
    // the key/value rows of the tensors, one per cell, and what a cleared row holds
    ghost var kv: seq<Kv>
    ghost const zero: Kv
    // no cell from here on was ever used, and the next search starts before
    ghost var frontier: nat

    ghost predicate Valid()
      reads this, cells
    {
      && cells.Length > 0
      && head <= frontier <= cells.Length
      && FreeFrom(cells[..], frontier)
      && n <= cells.Length
      && |kv| == cells.Length
      && WellLabelled(cells[..])
    }

    constructor (size: nat, ghost zero: Kv)
      requires size > 0
      ensures Valid() && fresh(cells)
      ensures head == 0 && frontier == 0 && cells.Length == size
      ensures forall i :: 0 <= i < size ==> cells[i] == EMPTY_CELL && kv[i] == zero
    {
      cells := new Cell[size](_ => EMPTY_CELL);
      head, n, frontier := 0, 0, 0;
      this.zero := zero;
      kv := seq(size, _ => zero);
    }

    // Frees every cell and clears the tensors.
    method Clear()
      requires Valid()
      modifies this`head, this`kv, this`frontier, cells
      ensures Valid() && head == 0 && frontier == 0
      ensures forall i :: 0 <= i < cells.Length ==> cells[i] == EMPTY_CELL && kv[i] == zero
    {
      for i := 0 to cells.Length
        invariant forall k :: 0 <= k < i ==> cells[k] == EMPTY_CELL
      {
        cells[i] := EMPTY_CELL;
      }
      head, frontier := 0, 0;
      kv := seq(cells.Length, _ => zero);
    }

    // How many of the n cells from s on are free before the first that is not.
    method CountFree(s: nat, n: nat) returns (i: nat)
      requires s + n <= cells.Length
      ensures i <= n
      ensures i == n ==> IsSlot(cells[..], s, n)
      ensures i < n ==> cells[s + i].pos >= 0
    {
      for k := 0 to n
        invariant forall x :: s <= x < s + k ==> cells[x].pos < 0
      {
        if cells[s + k].pos >= 0 {
          return k;
        }
      }
      return n;
    }

    // Looks for a run of n free cells from `head` on, wrapping at the end.
    method SearchSlot(nTokens: nat) returns (ok: bool)
      requires Valid()
      modifies this`head
      ensures head <= frontier
      ensures ok <==> exists s :: IsSlot(cells[..], s, nTokens)
      ensures ok ==> IsSlot(cells[..], head, nTokens)
    {
      var size := cells.Length;
      ghost var was := cells[..];
      if nTokens > size {
        return false;
      }
      var nTested := 0;
      // base is the starting head, less the size for each wrap
      ghost var start, base := head, head;
      while true
        invariant head <= frontier <= size && base + nTested == head
        invariant base == start || base == start - size || base == start - 2 * size
        invariant Excluded(was, nTokens, start, nTested)
        invariant nTested < size || (head == 0 && nTested <= 2 * size)
        decreases 2 * size - nTested, head
      {
        if head + nTokens > size {
          ExcludeTail(was, nTokens, start, nTested, head);
          nTested := nTested + size - head;
          base := base - size;
          head := 0;
          continue;
        }
        var free := CountFree(head, nTokens);
        if free == nTokens {
          assert cells[..] == was;
          return true;
        }
        ExcludeBlocked(was, nTokens, start, nTested, head, free);
        head := head + free + 1;
        nTested := nTested + free + 1;
        if nTested >= size {
          assert cells[..] == was;
          AllExcluded(was, nTokens, start, nTested);
          return false;
        }
      }
    }

    // Succeeds exactly when some run of |batch| free cells exists, and writes only that run. So the
    // cells in use reach at most |batch| further.
    method FindSlot(batch: seq<Entry>) returns (ok: bool)
      requires Valid()
      modifies this`head, this`frontier, cells
      ensures head <= frontier <= cells.Length && FreeFrom(cells[..], frontier)
      ensures frontier <= old(frontier) + |batch|
      ensures ok <==> exists s :: IsSlot(old(cells[..]), s, |batch|)
      ensures !ok ==> cells[..] == old(cells[..])
      ensures ok ==> IsSlot(old(cells[..]), head, |batch|) && cells[..] == Place(old(cells[..]), head, batch)
    {
      ghost var was := cells[..];
      ok := SearchSlot(|batch|);
      assert cells[..] == was;
      if ok {
        ghost var h, f := head, frontier;
        assert IsSlot(was, h, |batch|);
        for i := 0 to |batch|
          invariant head == h && frontier == f
          invariant cells[..] == Place(was, head, batch[..i])
        {
          cells[head + i] := PlaceCell(cells[head + i], batch[i]);
        }
        assert batch[..|batch|] == batch;
        PlaceFrontier(was, head, batch, f);
        frontier := Max(frontier, head + |batch|);
      }
    }

    // One past the last cell in use, or 1.
    method CellMax() returns (m: nat)
      requires Valid()
      ensures 1 <= m <= cells.Length
      ensures forall i :: m <= i < cells.Length ==> cells[i].pos < 0 || cells[i].seqId == {}
      ensures m > 1 ==> cells[m - 1].pos >= 0 && cells[m - 1].seqId != {}
    {
      var i := cells.Length - 1;
      while i > 0
        invariant 0 <= i < cells.Length
        invariant forall k :: i < k < cells.Length ==> cells[k].pos < 0 || cells[k].seqId == {}
      {
        if cells[i].pos >= 0 && cells[i].seqId != {} {
          return i + 1;
        }
        i := i - 1;
      }
      return 1;
    }

    method SeqRm(id: int, p0: int, p1: int)
      requires Valid()
      modifies this`head, cells
      ensures Valid()
      ensures cells[..] == RmCells(old(cells[..]), id, p0, p1)
      // the search for the next slot resumes at the first cell this call freed
      ensures (exists i :: 0 <= i < cells.Length && FreedByRm(old(cells[i]), id, p0, p1)) ==>
                head < cells.Length && FreedByRm(old(cells[..])[head], id, p0, p1)
                && forall i :: 0 <= i < head ==> !FreedByRm(old(cells[i]), id, p0, p1)
      ensures (forall i :: 0 <= i < cells.Length ==> !FreedByRm(old(cells[i]), id, p0, p1)) ==> head == old(head)
    {
      ghost var was := cells[..];
      var newHead := cells.Length;
      var lo, hi := if p0 < 0 then 0 else p0, if p1 < 0 then POS_MAX else p1;
      for i := 0 to cells.Length
        invariant head == old(head)
        invariant forall k :: 0 <= k < i ==> cells[k] == RmCell(was[k], id, p0, p1)
        invariant forall k :: i <= k < cells.Length ==> cells[k] == was[k]
        invariant newHead == cells.Length || 0 <= newHead < i
        invariant newHead < i ==> FreedByRm(was[newHead], id, p0, p1)
        invariant forall k :: 0 <= k < i && k < newHead ==> !FreedByRm(was[k], id, p0, p1)
      {
        var c := cells[i];
        if lo <= c.pos < hi {
          if id < 0 {
            c := c.(seqId := {});
          } else if id in c.seqId {
            c := c.(seqId := c.seqId - {id});
          } else {
            continue;
          }
          if c.seqId == {} {
            c := c.(pos := -1);
            if newHead == cells.Length {
              newHead := i;
            }
          }
          cells[i] := c;
        }
      }
      if newHead != cells.Length {
        head := newHead;
      }
      assert cells[..] == RmCells(was, id, p0, p1);
    }

    method SeqCp(src: int, dst: int, p0: int, p1: int)
      requires Valid()
      modifies this`head, cells
      ensures Valid() && head == 0
      ensures cells[..] == CpCells(old(cells[..]), src, dst, p0, p1)
    {
      ghost var was := cells[..];
      var lo, hi := if p0 < 0 then 0 else p0, if p1 < 0 then POS_MAX else p1;
      head := 0;
      for i := 0 to cells.Length
        invariant head == 0
        invariant forall k :: 0 <= k < i ==> cells[k] == CpCell(was[k], src, dst, p0, p1)
        invariant forall k :: i <= k < cells.Length ==> cells[k] == was[k]
      {
        if src in cells[i].seqId && lo <= cells[i].pos < hi {
          cells[i] := cells[i].(seqId := cells[i].seqId + {dst});
        }
      }
      assert cells[..] == CpCells(was, src, dst, p0, p1);
    }

    // One row of the mask, in place; the row must still be all zero.
    method MaskInto(data: array<bool>, lo: nat, e: Entry)
      requires Valid() && |e.seqIds| > 0
      requires lo + n <= data.Length && (forall k :: lo <= k < lo + n ==> !data[k])
      modifies data
      ensures data[..] == old(data[..lo]) + MaskRow(old(cells[..]), n, e) + old(data[lo + n..])
      ensures forall k :: lo + n <= k < data.Length ==> data[k] == old(data[k])
    {
      var pos, seqId := e.pos, e.seqIds[0];
      for i := 0 to n
        invariant forall k :: 0 <= k < i ==> data[lo + k] == !Shown(cells[k], e)
        invariant forall k :: 0 <= k < data.Length && !(lo <= k < lo + i) ==> data[k] == old(data[k])
      {
        if !(seqId in cells[i].seqId) || cells[i].pos > pos {
          data[lo + i] := true;
        }
      }
    }

    // Fills the mask the attention kernel reads: `true` stands for minus infinity.
    method BuildMask(batch: seq<Entry>) returns (data: array<bool>)
      requires Valid() && ProperBatch(batch)
      ensures fresh(data) && data[..] == FlatMask(cells[..], n, batch)
    {
      ghost var was := cells[..];
      var nKv := n;
      data := new bool[|batch| * nKv](_ => false);
      for j := 0 to |batch|
        invariant cells[..] == was && n == nKv
        invariant 0 <= j * nKv <= data.Length
        invariant data[..j * nKv] == FlatMask(was, nKv, batch[..j])
        invariant forall k :: j * nKv <= k < data.Length ==> !data[k]
      {
        hide FreeFrom, WellLabelled;
        RowBounds(j, |batch|, nKv);
        FlatMaskSnoc(was, nKv, batch, j);
        var lo := j * nKv;
        MaskInto(data, lo, batch[j]);
        assert data[..lo + nKv] == FlatMask(was, nKv, batch[..j + 1]);
        assert forall k :: lo + nKv <= k < data.Length ==> !data[k];
      }
      assert batch[..|batch|] == batch;
    }
  }
}
