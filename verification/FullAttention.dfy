/**
 Attention over all frames, as it is built for short audio: every query is scored against every
 key, with the position scores shifted into line. It computes the same scores as attention
 within a band, and is attention within the widest band.
 */
module FullAttention {
  import opened Tensors
  import opened LocalAttention
  import opened RelativeShift

  /* ---- relative positions ---- */

  // An entry of the position table for a relative position, one dimension of one head.
  type Embedding = (int, nat, nat) -> real

  // The table for all n frames: entry t stands for relative position n - 1 - t.
  ghost predicate IsFullTable(pos: Tensor, e: Embedding, n: nat) {
    && pos.n1 == 2 * n - 1
    && forall d: nat, t: nat, h: nat :: d < pos.n0 && t < 2 * n - 1 ==> Get(pos, d, t, h, 0) == e(n - 1 - t, d, h)
  }

  // The table for a band of w frames on each side: entry t stands for w - t.
  ghost predicate IsLocalTable(pos: Tensor, e: Embedding, w: nat) {
    && pos.n1 == 2 * w + 1
    && forall d: nat, t: nat, h: nat :: d < pos.n0 && t < 2 * w + 1 ==> Get(pos, d, t, h, 0) == e(w - t, d, h)
  }

  /* ---- scores ---- */

  // The extents of the layer's inputs for n frames.
  predicate FullInputs(qU: Tensor, qV: Tensor, k: Tensor, pos: Tensor, n: nat) {
    && n > 0 && qU.n3 == 1 && qV.n3 == 1 && k.n3 == 1 && qU.n2 > 0
    && k.n0 == qU.n0 && k.n1 == qU.n1 == qV.n1 == n && k.n2 == qU.n2 == qV.n2 && pos.n1 == 2 * n - 1
  }

  // Position scores of all relative positions, shifted so that row q has one entry per key.
  function PositionScores(qV: Tensor, pos: Tensor, n: nat, z: real): (r: Tensor)
    requires n > 0 && qV.n1 == n && qV.n2 > 0 && qV.n3 == 1 && pos.n1 == 2 * n - 1
    ensures r.n0 == n && r.n1 == n && r.n2 == qV.n2 && r.n3 == 1
  {
    Shifted(MulMat(pos, qV), n, z)
  }

  // z is the value the library pads with.
  function FullScores(qU: Tensor, qV: Tensor, k: Tensor, pos: Tensor, n: nat, z: real): (r: Tensor)
    requires FullInputs(qU, qV, k, pos, n)
    ensures r.n0 == n && r.n1 == n && r.n2 == qU.n2 && r.n3 == 1
  {
    AddT(MulMat(k, qU), PositionScores(qV, pos, n, z))
  }

  lemma {:induction false} SameRows(a: Tensor, b: Tensor, q: Tensor, i: nat, i': nat, j: nat, h: nat, m: nat)
    requires forall d: nat :: d < m ==> Get(a, d, i, h, 0) == Get(b, d, i', h, 0)
    ensures Dot(a, q, i, j, h, 0, m) == Dot(b, q, i', j, h, 0, m)
  {
    hide Get;
    if m > 0 {
      SameRows(a, b, q, i, i', j, h, m - 1);
    }
  }

  // The two paths give a query and a key of its band the same position score.
  lemma PositionScoresAgree(qV: Tensor, full: Tensor, local: Tensor, e: Embedding, n: nat, w: nat, z: real,
                            key: nat, q: nat, h: nat)
    requires n > 0 && qV.n1 == n && qV.n3 == 1 && IsFullTable(full, e, n) && IsLocalTable(local, e, w)
    requires full.n0 == local.n0 && key < n && q < n && h < qV.n2 && q - w <= key <= q + w
    ensures Get(PositionScores(qV, full, n, z), key, q, h, 0) == Dot(local, qV, key - q + w, q, h, 0, local.n0)
  {
    hide Get, Contiguous, Shifted;
    ShiftAligns(MulMat(full, qV), n, z, key, q, h);
    MulMatGet(full, qV, n - 1 + key - q, q, h, 0);
    assert n - 1 - (n - 1 + key - q) == w - (key - q + w);
    SameRows(full, local, qV, n - 1 + key - q, key - q + w, q, h, full.n0);
  }

  // The content score is the similarity that the band's entry holds.
  lemma ContentScoresAgree(qU: Tensor, k: Tensor, w: nat, key: nat, q: nat, h: nat)
    requires k.n0 == qU.n0 && k.n3 == 1 && qU.n3 == 1 && key < k.n1 && q < qU.n1 && h < qU.n2
    requires q - w <= key <= q + w
    ensures Get(MulMat(k, qU), key, q, h, 0) == Content(qU, k, w, key - q + w, q, h)
  {
    hide Get, SumTo, Dot;
    MulMatGet(k, qU, key, q, h, 0);
    var f := (d: nat) => FrameAt(k, d, q - w + (key - q + w), h) * Get(qU, d, q, h, 0);
    DotIsSum(k, qU, key, q, h, 0, qU.n0, f);
  }

  // Both attention paths score a key in the band of a query alike, if both tables hold the same
  // embedding of relative positions.
  lemma ScoresAgree(qU: Tensor, qV: Tensor, k: Tensor, full: Tensor, local: Tensor, e: Embedding, n: nat, w: nat,
                    z: real, key: nat, q: nat, h: nat)
    requires FullInputs(qU, qV, k, full, n) && IsFullTable(full, e, n) && IsLocalTable(local, e, w)
    requires full.n0 == local.n0 && key < n && q < n && h < qU.n2 && q - w <= key <= q + w
    ensures Get(FullScores(qU, qV, k, full, n, z), key, q, h, 0)
         == BandScores(qU, qV, k, local, w, 2 * w + 1, q, h)[key - q + w]
  {
    hide Get, Content, Dot, PositionScores, IsFullTable, IsLocalTable;
    AddGet(MulMat(k, qU), PositionScores(qV, full, n, z), key, q, h, 0);
    ContentScoresAgree(qU, k, w, key, q, h);
    PositionScoresAgree(qV, full, local, e, n, w, z, key, q, h);
  }

  /* ---- the whole layer ---- */

  // Every query weighs every key; `soft` is the masked softmax of a row.
  function FullAttend(soft: RowFunction, qU: Tensor, qV: Tensor, k: Tensor, v: Tensor, pos: Tensor, mask: Tensor,
                      n: nat, z: real): Tensor
    requires FullInputs(qU, qV, k, pos, n)
  {
    MulMat(SoftMaxExt(soft, FullScores(qU, qV, k, pos, n, z), mask), Cont(Transpose(v)))
  }

  // Outside [lo, hi) everything is masked, inside something is not.
  ghost predicate MaskedOutside(mask: seq<real>, lo: nat, hi: nat) {
    && lo <= hi <= |mask| && (forall x :: 0 <= x < |mask| && !(lo <= x < hi) ==> mask[x] == MASKED)
    && exists x :: lo <= x < hi && mask[x] == 0.0
  }

  // Masked entries at the ends of the row can be dropped without changing the other weights.
  ghost predicate SameWeights(soft: RowFunction, row: seq<real>, mask: seq<real>, lo: nat, hi: nat) {
    |row| == |mask| && MaskedOutside(mask, lo, hi) ==>
      forall i: nat :: i < hi - lo ==> Nth(soft(row[lo..hi], mask[lo..hi]), i) == Nth(soft(row, mask), lo + i)
  }

  // What the softmax is trusted with, for the scores of one query in its widest band: the frames
  // outside the audio, which are masked, get no weight.
  ghost predicate IgnoresOutside(soft: RowFunction, qU: Tensor, qV: Tensor, k: Tensor, pos: Tensor, band: Tensor,
                                 n: nat, q: nat, h: nat)
    requires q < n
  {
    SameWeights(soft, BandScores(qU, qV, k, pos, n - 1, 2 * n - 1, q, h), Column(band, 2 * n - 1, q, 0),
                n - 1 - q, 2 * n - 1 - q)
  }

  // The mask over all keys, and the mask over a band.
  ghost predicate IsFullMask(m: Tensor, n: nat, nReal: nat) {
    forall k: nat, q: nat :: k < n && q < n ==> Get(m, k, q, 0, 0) == if k >= nReal then MASKED else 0.0
  }

  ghost predicate IsBandMask(m: Tensor, w: nat, n: nat, nReal: nat) {
    forall j: nat, t: nat :: j < 2 * w + 1 && t < n ==>
      Get(m, j, t, 0, 0) == if 0 <= t - w + j < nReal then 0.0 else MASKED
  }

  method FullMask(n: nat, nReal: nat) returns (m: Tensor)
    ensures IsFullMask(m, n, nReal)
  {
    m := FillRows(n, n, (k: nat, q: nat) => if k >= nReal then MASKED else 0.0);
  }

  // A query's mask in the widest band is masked outside the audio, and inside it is the mask
  // over all keys.
  lemma MaskRow(full: Tensor, band: Tensor, n: nat, nReal: nat, q: nat)
    requires 0 < nReal <= n && q < n && IsFullMask(full, n, nReal) && IsBandMask(band, n - 1, n, nReal)
    ensures var row := Column(band, 2 * n - 1, q, 0);
            MaskedOutside(row, n - 1 - q, 2 * n - 1 - q) && row[n - 1 - q..2 * n - 1 - q] == Column(full, n, q, 0)
  {
    hide Get;
    var row, lo := Column(band, 2 * n - 1, q, 0), n - 1 - q;
    assert row[lo] == Get(band, lo, q, 0, 0) == 0.0;
    forall x | 0 <= x < n
      ensures row[lo..2 * n - 1 - q][x] == Column(full, n, q, 0)[x]
    {
      assert row[lo + x] == Get(band, lo + x, q, 0, 0);
      assert Column(full, n, q, 0)[x] == Get(full, x, q, 0, 0);
    }
  }

  // A query's scores are the part of its widest band that lies in the audio.
  lemma ScoreRow(qU: Tensor, qV: Tensor, k: Tensor, pos: Tensor, n: nat, z: real, q: nat, h: nat)
    requires FullInputs(qU, qV, k, pos, n) && q < n && h < qU.n2
    ensures Column(FullScores(qU, qV, k, pos, n, z), n, q, h)
         == BandScores(qU, qV, k, pos, n - 1, 2 * n - 1, q, h)[n - 1 - q..2 * n - 1 - q]
  {
    hide Get, Content, Dot, PositionScores, FullScores;
    var e := (x: int, d: nat, i: nat) => if x <= n - 1 then Get(pos, d, n - 1 - x, i, 0) else 0.0;
    var scores, row := FullScores(qU, qV, k, pos, n, z), BandScores(qU, qV, k, pos, n - 1, 2 * n - 1, q, h);
    forall key: nat | key < n
      ensures Column(scores, n, q, h)[key] == row[n - 1 - q..2 * n - 1 - q][key]
    {
      ScoresAgree(qU, qV, k, pos, pos, e, n, n - 1, z, key, q, h);
      assert 2 * (n - 1) + 1 == 2 * n - 1 && key - q + (n - 1) == n - 1 - q + key;
    }
  }

  // So are its weights.
  lemma WeightsAgree(soft: RowFunction, qU: Tensor, qV: Tensor, k: Tensor, pos: Tensor, full: Tensor, band: Tensor,
                     n: nat, nReal: nat, z: real, key: nat, q: nat, h: nat)
    requires FullInputs(qU, qV, k, pos, n) && key < n && q < n && h < qU.n2
    requires 0 < nReal <= n && IsFullMask(full, n, nReal) && IsBandMask(band, n - 1, n, nReal)
    requires IgnoresOutside(soft, qU, qV, k, pos, band, n, q, h)
    ensures Get(SoftMaxExt(soft, FullScores(qU, qV, k, pos, n, z), full), key, q, h, 0)
         == BandWeight(soft, qU, qV, k, pos, band, n - 1, 2 * n - 1, n - 1 - q + key, q, h)
  {
    hide Get, FullScores, Nth, IsFullMask, IsBandMask, MaskedOutside, Content, Dot;
    var scores := FullScores(qU, qV, k, pos, n, z);
    SoftMaxGet(soft, scores, full, key, q, h);
    MaskRow(full, band, n, nReal, q);
    ScoreRow(qU, qV, k, pos, n, z, q, h);
  }

  // Attention over all frames is attention within the band of n - 1 frames on each side.
  lemma FullIsBanded(soft: RowFunction, qU: Tensor, qV: Tensor, k: Tensor, v: Tensor, pos: Tensor, full: Tensor,
                     band: Tensor, n: nat, nReal: nat, z: real, d: nat, q: nat, h: nat)
    requires FullInputs(qU, qV, k, pos, n) && v.n1 == n && v.n2 == qU.n2 && v.n3 == 1
    requires 0 < nReal <= n && IsFullMask(full, n, nReal) && IsBandMask(band, n - 1, n, nReal)
    requires d < v.n0 && q < n && h < qU.n2 && IgnoresOutside(soft, qU, qV, k, pos, band, n, q, h)
    ensures Get(FullAttend(soft, qU, qV, k, v, pos, full, n, z), q, d, h, 0)
         == Banded(soft, qU, qV, k, v, pos, band, n - 1, 2 * n - 1, d, q, h)
  {
    hide Get, FullScores, BandWeight, SumTo, Dot, IgnoresOutside, IsFullMask, IsBandMask, SoftMaxExt;
    var weights, values := SoftMaxExt(soft, FullScores(qU, qV, k, pos, n, z), full), Cont(Transpose(v));
    assert weights.n0 == n && weights.n1 == n && weights.n2 == qU.n2 && weights.n3 == 1;
    MulMatGet(weights, values, q, d, h, 0);
    var lo := n - 1 - q;
    var bandTerm := (j: nat) => FrameAt(v, d, q - (n - 1) + j, h)
                             * BandWeight(soft, qU, qV, k, pos, band, n - 1, 2 * n - 1, j, q, h);
    var keyTerm := (key: nat) => Get(weights, key, q, h, 0) * Get(values, key, d, h, 0);
    forall key: nat | key < n
      ensures keyTerm(key) == bandTerm(lo + key)
    {
      WeightsAgree(soft, qU, qV, k, pos, full, band, n, nReal, z, key, q, h);
      ContGet(Transpose(v), key, d, h, 0);
      TransposeGet(v, key, d, h, 0);
    }
    DotIsSum(weights, values, q, d, h, 0, n, keyTerm);
    forall j: nat | j < 2 * n - 1 && !(lo <= j < lo + n)
      ensures bandTerm(j) == 0.0
    {
      assert FrameAt(v, d, q - (n - 1) + j, h) == 0.0;
    }
    SumWindow(bandTerm, keyTerm, lo, n, 2 * n - 1);
  }

  // The two ways of building the layer agree: on any audio of at least two frames, attention in
  // chunks with a band that reaches everywhere is attention over all frames.
  lemma PathsAgree(soft: RowFunction, qU: Tensor, qV: Tensor, k: Tensor, v: Tensor, pos: Tensor, full: Tensor,
                   band: Tensor, localMask: Tensor, n: nat, nReal: nat, z: real, d: nat, q: nat, h: nat)
    requires n >= 2 && Inputs(qU, qV, k, v, pos, n - 1, n - 1) && qU.n1 == n
    requires 0 < nReal <= n && IsFullMask(full, n, nReal) && IsBandMask(band, n - 1, n, nReal)
    requires IsLocalMask(localMask, n - 1 + (n - 1)) && d < v.n0 && q < n && h < qU.n2
    requires IgnoresOutside(soft, qU, qV, k, pos, band, n, q, h)
    ensures Get(FullAttend(soft, qU, qV, k, v, pos, full, n, z), q, d, h, 0)
         == Get(Attend(soft, qU, qV, k, v, pos, band, localMask, n - 1, n - 1), d, q, h, 0)
  {
    hide Get, FullAttend, Attend, Banded, IsLocalMask, IsFullMask, IsBandMask, IgnoresOutside, Contiguous;
    FullIsBanded(soft, qU, qV, k, v, pos, full, band, n, nReal, z, d, q, h);
    AttendIsBanded(soft, qU, qV, k, v, pos, band, localMask, n - 1, n - 1, d, q, h);
  }
}
