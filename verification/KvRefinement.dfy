/**
 What the shared cache stands for. The network is an arbitrary function `net` from the
 key/value rows a token may attend to, the token and its position, to that token's own row
 (from which its logits are read as well). `Isolated` runs it on one history alone; the lemmas
 show that rows computed in the shared cache through the mask are the same.
 */
module KvRefinement {
  import opened KvCache

  type Net<!Kv> = (multiset<Kv>, int, nat) -> Kv

  // The row of the last token of `hist` when a decoder has a cache to itself.
  ghost function Isolated<Kv>(net: Net<Kv>, hist: seq<int>): Kv
    requires hist != []
    decreases |hist|, 0
  {
    var p := |hist| - 1;
    net(Past(net, hist, p), hist[p], p)
  }

  // The rows of the first p tokens of `hist`.
  ghost function Past<Kv>(net: Net<Kv>, hist: seq<int>, p: nat): multiset<Kv>
    requires p <= |hist|
    decreases p, 1
  {
    if p == 0 then multiset{} else Past(net, hist, p - 1) + multiset{Isolated(net, hist[..p])}
  }

  lemma {:induction false} PastOfPrefix<Kv>(net: Net<Kv>, hist: seq<int>, q: nat, p: nat)
    requires p <= q <= |hist|
    ensures Past(net, hist[..q], p) == Past(net, hist, p)
  {
    hide Isolated;
    if p > 0 {
      PastOfPrefix(net, hist, q, p - 1);
      assert hist[..q][..p] == hist[..p];
    }
  }

  /* ---- what the cells of one sequence spell ---- */

  predicate At(c: Cell, id: int, p: int) {
    id in c.seqId && c.pos == p
  }

  predicate Holds(cells: seq<Cell>, id: int, p: int) {
    exists i :: 0 <= i < |cells| && At(cells[i], id, p)
  }

  // The cells labelled id hold each of the positions 0 .. m-1 exactly once, and no other.
  ghost predicate Layout(cells: seq<Cell>, id: int, m: nat) {
    && (forall i :: 0 <= i < |cells| && id in cells[i].seqId ==> 0 <= cells[i].pos < m)
    && (forall p :: 0 <= p < m ==> Holds(cells, id, p))
    && (forall i, k :: 0 <= i < k < |cells| && id in cells[i].seqId && id in cells[k].seqId ==>
          cells[i].pos != cells[k].pos)
  }

  // Cells labelled id below position p hold the rows an isolated decoder would have.
  ghost predicate Rows<Kv>(net: Net<Kv>, cells: seq<Cell>, kv: seq<Kv>, id: int, hist: seq<int>, p: nat)
    requires |kv| == |cells|
  {
    forall i :: 0 <= i < |cells| && id in cells[i].seqId && 0 <= cells[i].pos < p && cells[i].pos < |hist| ==>
      kv[i] == Isolated(net, hist[..cells[i].pos + 1])
  }

  // Sequence id is cached: its cells spell exactly `hist`.
  ghost predicate Spells<Kv>(net: Net<Kv>, cells: seq<Cell>, kv: seq<Kv>, id: int, hist: seq<int>)
    requires |kv| == |cells|
  {
    Layout(cells, id, |hist|) && Rows(net, cells, kv, id, hist, |hist|)
  }

  /* ---- what the mask shows ---- */

  // The rows a mask row leaves visible, other than the token's own cell.
  ghost function Visible<Kv>(row: seq<bool>, kv: seq<Kv>, own: nat): multiset<Kv>
    requires |row| <= |kv|
  {
    if row == [] then multiset{}
    else
      var i := |row| - 1;
      Visible(row[..i], kv, own) + if row[i] || i == own then multiset{} else multiset{kv[i]}
  }

  lemma {:induction false} VisibleNothing<Kv>(row: seq<bool>, kv: seq<Kv>, own: nat)
    requires |row| <= |kv|
    requires forall i :: 0 <= i < |row| ==> row[i] || i == own
    ensures Visible(row, kv, own) == multiset{}
  {
    if row != [] {
      VisibleNothing(row[..|row| - 1], kv, own);
    }
  }

  predicate Hidden(row: seq<bool>, own: nat, i: nat)
    requires i < |row|
  {
    row[i] || i == own
  }

  // Two rows hide the same cells, but perhaps for cell k.
  ghost predicate Alike(a: seq<bool>, b: seq<bool>, own: nat, own': nat, k: int) {
    |a| == |b| && forall i: nat :: i < |a| && i != k ==> (Hidden(a, own, i) <==> Hidden(b, own', i))
  }

  lemma AlikePrefix(a: seq<bool>, b: seq<bool>, own: nat, own': nat, k: int)
    requires Alike(a, b, own, own', k) && a != []
    ensures var m := |a| - 1;
            && Alike(a[..m], b[..m], own, own', if k == m then -1 else k)
            && (k != m ==> (Hidden(a, own, m) <==> Hidden(b, own', m)))
            && (0 <= k < m ==> Hidden(a[..m], own, k) == Hidden(a, own, k))
            && (0 <= k < m ==> Hidden(b[..m], own', k) == Hidden(b, own', k))
  {
    var m := |a| - 1;
    forall i: nat | i < m && i != k
      ensures Hidden(a[..m], own, i) <==> Hidden(b[..m], own', i)
    {
      assert Hidden(a, own, i) <==> Hidden(b, own', i);
    }
  }

  lemma {:induction false} VisibleSame<Kv>(a: seq<bool>, b: seq<bool>, kv: seq<Kv>, own: nat, own': nat)
    requires |a| == |b| <= |kv| && Alike(a, b, own, own', -1)
    ensures Visible(b, kv, own') == Visible(a, kv, own)
  {
    hide Alike, Hidden, Visible;
    if a == [] {
      VisibleNothing([], kv, own);
      VisibleNothing([], kv, own');
    } else {
      AlikePrefix(a, b, own, own', -1);
      LastVisible(a, kv, own);
      LastVisible(b, kv, own');
      VisibleSame(a[..|a| - 1], b[..|a| - 1], kv, own, own');
    }
  }

  // Uncovering one cell adds its row.
  lemma {:induction false} VisibleOneMore<Kv>(a: seq<bool>, b: seq<bool>, kv: seq<Kv>, own: nat, own': nat, k: nat)
    requires |a| == |b| <= |kv| && Alike(a, b, own, own', k)
    requires k < |a| && Hidden(a, own, k) && !Hidden(b, own', k)
    ensures Visible(b, kv, own') == Visible(a, kv, own) + multiset{kv[k]}
  {
    hide Visible, Alike, Hidden;
    var m := |a| - 1;
    AlikePrefix(a, b, own, own', k);
    LastVisible(a, kv, own);
    LastVisible(b, kv, own');
    if k == m {
      VisibleSame(a[..m], b[..m], kv, own, own');
    } else {
      VisibleOneMore(a[..m], b[..m], kv, own, own', k);
      if !Hidden(a, own, m) {
        AddInOrder(Visible(a[..m], kv, own), kv[k], kv[m]);
      }
    }
  }

  lemma AddInOrder<T>(a: multiset<T>, x: T, y: T)
    ensures a + multiset{x} + multiset{y} == a + multiset{y} + multiset{x}
  {
  }

  lemma LastVisible<Kv>(row: seq<bool>, kv: seq<Kv>, own: nat)
    requires 0 < |row| <= |kv|
    ensures var i := |row| - 1;
            if Hidden(row, own, i) then Visible(row, kv, own) == Visible(row[..i], kv, own)
            else Visible(row, kv, own) == Visible(row[..i], kv, own) + multiset{kv[i]}
  {
  }

  // A row for sequence id at position p, attending over the first n cells.
  function RowFor(cells: seq<Cell>, n: nat, id: int, p: int): seq<bool>
    requires n <= |cells|
  {
    seq(n, i requires 0 <= i < n => !(id in cells[i].seqId && cells[i].pos <= p))
  }

  // No cell from n on belongs to sequence id.
  ghost predicate AbsentFrom(cells: seq<Cell>, id: int, n: nat) {
    forall i :: n <= i < |cells| ==> id !in cells[i].seqId
  }

  // Moving on to position p uncovers just the cell at position p - 1.
  lemma MaskGrows<Kv>(cells: seq<Cell>, kv: seq<Kv>, n: nat, id: int, m: nat, p: nat, before: nat, own: nat)
    requires |kv| == |cells| && n <= |cells| && Layout(cells, id, m) && 1 <= p < m
    requires before < |cells| && At(cells[before], id, p - 1) && own < |cells| && At(cells[own], id, p)
    requires AbsentFrom(cells, id, n)
    ensures Visible(RowFor(cells, n, id, p), kv, own) ==
            Visible(RowFor(cells, n, id, p - 1), kv, before) + multiset{kv[before]}
  {
    var a, b := RowFor(cells, n, id, p - 1), RowFor(cells, n, id, p);
    forall i: nat | i < n && i != before
      ensures Hidden(a, before, i) <==> Hidden(b, own, i)
    {
    }
    VisibleOneMore(a, b, kv, before, own, before);
  }

  lemma HeldAt(cells: seq<Cell>, id: int, m: nat, p: nat) returns (i: nat)
    requires Layout(cells, id, m) && p < m
    ensures i < |cells| && At(cells[i], id, p)
  {
    assert Holds(cells, id, p);
    i :| 0 <= i < |cells| && At(cells[i], id, p);
  }

  lemma RowHeld<Kv>(net: Net<Kv>, cells: seq<Cell>, kv: seq<Kv>, id: int, hist: seq<int>, p: nat, i: nat)
    requires |kv| == |cells| && i < |cells| && 0 < p <= |hist|
    requires Rows(net, cells, kv, id, hist, p) && At(cells[i], id, p - 1)
    ensures kv[i] == Isolated(net, hist[..p]) && Rows(net, cells, kv, id, hist, p - 1)
  {
    hide Isolated;
  }

  // The mask shows a token at position p exactly the rows of its history before p.
  lemma {:induction false} MaskShowsHistory<Kv>(
    net: Net<Kv>, cells: seq<Cell>, kv: seq<Kv>, n: nat, id: int, hist: seq<int>, p: nat, own: nat)
    requires |kv| == |cells| && n <= |cells|
    requires Layout(cells, id, |hist|) && p < |hist| && own < |cells| && At(cells[own], id, p)
    requires Rows(net, cells, kv, id, hist, p)
    requires AbsentFrom(cells, id, n)
    ensures Visible(RowFor(cells, n, id, p), kv, own) == Past(net, hist, p)
  {
    hide Isolated;
    if p == 0 {
      VisibleNothing(RowFor(cells, n, id, p), kv, own);
    } else {
      var before := HeldAt(cells, id, |hist|, p - 1);
      RowHeld(net, cells, kv, id, hist, p, before);
      hide Visible, RowFor, Layout, Rows, AbsentFrom;
      MaskShowsHistory(net, cells, kv, n, id, hist, p - 1, before);
      MaskGrows(cells, kv, n, id, |hist|, p, before, own);
    }
  }

  /* ---- evaluating a batch ---- */

  // The rows of the cache after the first k rows of the batch have been evaluated; the new
  // rows go to the cells from `head` on.
  ghost function Forward<Kv>(net: Net<Kv>, mask: seq<bool>, n: nat, kv: seq<Kv>, head: nat, batch: seq<Entry>,
                             k: nat): (r: seq<Kv>)
    requires ProperBatch(batch) && k <= |batch| && head + |batch| <= |kv| && n <= |kv|
    requires |mask| == |batch| * n
    ensures |r| == |kv|
    decreases k
  {
    if k == 0 then kv
    else
      var j := k - 1;
      var r := Forward(net, mask, n, kv, head, batch, j);
      RowBounds(j, |batch|, n);
      var row := mask[j * n..j * n + n];
      r[head + j := net(Visible(row, r, head + j), batch[j].token, batch[j].pos)]
  }

  // The cells from head on are those of the batch, each for one sequence.
  ghost predicate PlacedAt(cells: seq<Cell>, head: nat, batch: seq<Entry>) {
    head + |batch| <= |cells|
    && forall j :: 0 <= j < |batch| ==>
         |batch[j].seqIds| == 1 && cells[head + j] == Cell(batch[j].pos, {batch[j].seqIds[0]})
  }

  // How many of the first k rows of the batch belong to sequence id.
  function Count(batch: seq<Entry>, k: nat, id: int): nat
    requires k <= |batch| && ProperBatch(batch)
  {
    if k == 0 then 0 else Count(batch, k - 1, id) + if batch[k - 1].seqIds[0] == id then 1 else 0
  }

  // The rows for sequence id carry, in order, the tokens of hist from position `base` on.
  ghost predicate Feeds(batch: seq<Entry>, id: int, hist: seq<int>, base: nat)
    requires ProperBatch(batch)
  {
    && (forall k :: 0 <= k < |batch| ==> |batch[k].seqIds| == 1)
    && |hist| == base + Count(batch, |batch|, id)
    && forall k :: 0 <= k < |batch| && batch[k].seqIds[0] == id ==>
         batch[k].pos == base + Count(batch, k, id) < |hist| && batch[k].token == hist[batch[k].pos]
  }

  lemma {:induction false} CountMonotone(batch: seq<Entry>, j: nat, k: nat, id: int)
    requires j <= k <= |batch| && ProperBatch(batch)
    ensures Count(batch, j, id) <= Count(batch, k, id)
    decreases k
  {
    if j < k {
      CountMonotone(batch, j, k - 1, id);
    }
  }

  lemma {:induction false} CountReaches(batch: seq<Entry>, k: nat, id: int, c: nat) returns (j: nat)
    requires k <= |batch| && ProperBatch(batch)
    requires c < Count(batch, k, id)
    ensures j < k && batch[j].seqIds[0] == id && Count(batch, j, id) == c
    decreases k
  {
    if Count(batch, k - 1, id) == c {
      j := k - 1;
    } else {
      j := CountReaches(batch, k - 1, id, c);
    }
  }

  // A cell labelled id after a placement is new and holds the next position fed, or is an old one.
  lemma PlacedCell(cells: seq<Cell>, head: nat, batch: seq<Entry>, id: int, hist: seq<int>, base: nat, i: nat)
    requires ProperBatch(batch) && WellLabelled(cells) && IsSlot(cells, head, |batch|)
    requires Layout(cells, id, base) && Feeds(batch, id, hist, base)
    requires i < |cells| && id in Place(cells, head, batch)[i].seqId
    ensures var c := Place(cells, head, batch)[i];
            && 0 <= c.pos < |hist|
            && if head <= i < head + |batch| then
                 batch[i - head].seqIds[0] == id && c.pos == base + Count(batch, i - head, id)
               else id in cells[i].seqId && c == cells[i] && c.pos < base
  {
    if head <= i < head + |batch| {
      assert cells[i].seqId == {};
    }
  }

  lemma PlacedHolds(cells: seq<Cell>, head: nat, batch: seq<Entry>, id: int, hist: seq<int>, base: nat, p: nat)
    requires ProperBatch(batch) && WellLabelled(cells) && IsSlot(cells, head, |batch|)
    requires Layout(cells, id, base) && Feeds(batch, id, hist, base) && p < |hist|
    ensures Holds(Place(cells, head, batch), id, p)
  {
    var r := Place(cells, head, batch);
    if p < base {
      assert Holds(cells, id, p);
      var i :| 0 <= i < |cells| && At(cells[i], id, p);
      assert At(r[i], id, p);
    } else {
      var j := CountReaches(batch, |batch|, id, p - base);
      assert At(r[head + j], id, p);
    }
  }

  lemma PlacedApart(cells: seq<Cell>, head: nat, batch: seq<Entry>, id: int, hist: seq<int>, base: nat, i: nat, k: nat)
    requires ProperBatch(batch) && WellLabelled(cells) && IsSlot(cells, head, |batch|)
    requires Layout(cells, id, base) && Feeds(batch, id, hist, base) && i < k < |cells|
    requires id in Place(cells, head, batch)[i].seqId && id in Place(cells, head, batch)[k].seqId
    ensures Place(cells, head, batch)[i].pos != Place(cells, head, batch)[k].pos
  {
    PlacedCell(cells, head, batch, id, hist, base, i);
    PlacedCell(cells, head, batch, id, hist, base, k);
    if head <= i && k < head + |batch| {
      CountMonotone(batch, i - head + 1, k - head, id);
    }
    hide Place, WellLabelled, IsSlot, Feeds, Holds;
  }

  // Placing a batch extends the layout of each sequence it feeds.
  lemma PlaceExtendsLayout(cells: seq<Cell>, head: nat, batch: seq<Entry>, id: int, hist: seq<int>, base: nat)
    requires ProperBatch(batch) && WellLabelled(cells) && IsSlot(cells, head, |batch|)
    requires Layout(cells, id, base) && Feeds(batch, id, hist, base)
    ensures Layout(Place(cells, head, batch), id, |hist|)
  {
    var r := Place(cells, head, batch);
    assert Layout(r, id, |hist|) by {
      hide Place, WellLabelled, Feeds, Holds, ProperBatch;
      forall i | 0 <= i < |r| && id in r[i].seqId ensures 0 <= r[i].pos < |hist| {
        PlacedCell(cells, head, batch, id, hist, base, i);
      }
      forall p | 0 <= p < |hist| ensures Holds(r, id, p) {
        PlacedHolds(cells, head, batch, id, hist, base, p);
      }
      forall i, k | 0 <= i < k < |r| && id in r[i].seqId && id in r[k].seqId ensures r[i].pos != r[k].pos {
        PlacedApart(cells, head, batch, id, hist, base, i, k);
      }
    }
  }

  // One evaluated row: what it stores is the row of an isolated decoder.
  lemma RowRefines<Kv>(
    net: Net<Kv>, cells: seq<Cell>, n: nat, kv: seq<Kv>, own: nat, token: int, id: int, hist: seq<int>, p: nat)
    requires n <= |cells| == |kv| && own < |cells| && p < |hist| && hist[p] == token && At(cells[own], id, p)
    requires AbsentFrom(cells, id, n)
    requires Layout(cells, id, |hist|) && Rows(net, cells, kv, id, hist, p)
    ensures Rows(net, cells, kv[own := net(Visible(RowFor(cells, n, id, p), kv, own), token, p)], id, hist, p + 1)
  {
    hide Visible;
    MaskShowsHistory(net, cells, kv, n, id, hist, p, own);
    PastOfPrefix(net, hist, p + 1, p);
    var kv' := kv[own := net(Past(net, hist, p), token, p)];
    assert kv'[own] == Isolated(net, hist[..p + 1]);
  }

  lemma ForwardStep<Kv>(net: Net<Kv>, cells: seq<Cell>, n: nat, kv: seq<Kv>, head: nat, batch: seq<Entry>, j: nat)
    requires ProperBatch(batch) && j < |batch| && head + |batch| <= |cells| == |kv| && n <= |cells|
    ensures var mask := FlatMask(cells, n, batch);
            var r := Forward(net, mask, n, kv, head, batch, j);
            Forward(net, mask, n, kv, head, batch, j + 1) ==
            r[head + j := net(Visible(MaskRow(cells, n, batch[j]), r, head + j), batch[j].token, batch[j].pos)]
  {
    hide FlatMask, Visible;
    FlatMaskRow(cells, n, batch, j, j * n);
    RowBounds(j, |batch|, n);
  }

  // Evaluating a batch in the shared cache gives each sequence it feeds the rows of an
  // isolated decoder, whatever the other sequences in the cache and in the batch are.
  lemma {:induction false} ForwardRefines<Kv>(
    net: Net<Kv>, cells: seq<Cell>, n: nat, kv: seq<Kv>, head: nat, batch: seq<Entry>, k: nat,
    id: int, hist: seq<int>, base: nat)
    requires ProperBatch(batch) && k <= |batch| && head + |batch| <= |cells| == |kv| && n <= |cells|
    requires PlacedAt(cells, head, batch)
    requires AbsentFrom(cells, id, n)
    requires Layout(cells, id, |hist|) && Feeds(batch, id, hist, base) && Rows(net, cells, kv, id, hist, base)
    ensures Rows(net, cells, Forward(net, FlatMask(cells, n, batch), n, kv, head, batch, k), id, hist,
            base + Count(batch, k, id))
    decreases k
  {
    hide Isolated, Past, FlatMask, Visible, Layout, AbsentFrom, PlacedAt, Feeds, Forward, Rows, RowFor, MaskRow, Count;
    if k == 0 {
      ForwardNothing(net, FlatMask(cells, n, batch), n, kv, head, batch, id);
    } else {
      var j := k - 1;
      ForwardRefines(net, cells, n, kv, head, batch, j, id, hist, base);
      ForwardStep(net, cells, n, kv, head, batch, j);
      BatchRow(cells, n, head, batch, j, id, hist, base);
      var before, own := Forward(net, FlatMask(cells, n, batch), n, kv, head, batch, j), head + j;
      if batch[j].seqIds[0] == id {
        RowRefines(net, cells, n, before, own, batch[j].token, id, hist, batch[j].pos);
      } else {
        var row := net(Visible(MaskRow(cells, n, batch[j]), before, own), batch[j].token, batch[j].pos);
        OtherRow(net, cells, before, own, row, id, hist, base + Count(batch, j, id));
      }
    }
  }

  lemma ForwardNothing<Kv>(net: Net<Kv>, mask: seq<bool>, n: nat, kv: seq<Kv>, head: nat, batch: seq<Entry>, id: int)
    requires ProperBatch(batch) && head + |batch| <= |kv| && n <= |kv| && |mask| == |batch| * n
    ensures Forward(net, mask, n, kv, head, batch, 0) == kv && Count(batch, 0, id) == 0
  {
  }

  // Row j of the batch, for the sequence it belongs to.
  lemma BatchRow(cells: seq<Cell>, n: nat, head: nat, batch: seq<Entry>, j: nat, id: int, hist: seq<int>, base: nat)
    requires ProperBatch(batch) && j < |batch| && n <= |cells| && PlacedAt(cells, head, batch)
             && Feeds(batch, id, hist, base)
    ensures Count(batch, j + 1, id) == Count(batch, j, id) + if batch[j].seqIds[0] == id then 1 else 0
    ensures batch[j].seqIds[0] == id ==>
              var p := batch[j].pos;
              p == base + Count(batch, j, id) < |hist| && hist[p] == batch[j].token
              && At(cells[head + j], id, p) && MaskRow(cells, n, batch[j]) == RowFor(cells, n, id, p)
    ensures batch[j].seqIds[0] != id ==> id !in cells[head + j].seqId
  {
    hide Count;
    CountStep(batch, j, id);
    assert cells[head + j] == Cell(batch[j].pos, {batch[j].seqIds[0]});
  }

  lemma CountStep(batch: seq<Entry>, j: nat, id: int)
    requires ProperBatch(batch) && j < |batch|
    ensures Count(batch, j + 1, id) == Count(batch, j, id) + if batch[j].seqIds[0] == id then 1 else 0
  {
  }

  // Writing a row of another sequence.
  lemma OtherRow<Kv>(net: Net<Kv>, cells: seq<Cell>, kv: seq<Kv>, own: nat, row: Kv, id: int, hist: seq<int>, p: nat)
    requires |kv| == |cells| && own < |cells| && id !in cells[own].seqId && Rows(net, cells, kv, id, hist, p)
    ensures Rows(net, cells, kv[own := row], id, hist, p)
  {
    hide Isolated;
  }
}
