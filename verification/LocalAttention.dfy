/**
 Attention within a band of `left` frames before and `right` frames after each frame. Queries
 are cut into chunks of left + right frames; each chunk is multiplied with a dense window of
 keys, and the band is cut out of the dense product, and later put back, by reading the same
 buffer with another row stride.
 */
module LocalAttention {
  import opened Arithmetic
  import opened Tensors

  /* ---- what is to be computed ---- */

  // Element of a sequence of frames; zero before the first and after the last frame.
  function FrameAt(x: Tensor, d: nat, frame: int, h: nat): real {
    if 0 <= frame < x.n1 then Get(x, d, frame, h, 0) else 0.0
  }

  // Similarity of frame t with the frame j places into its band.
  function Content(qU: Tensor, k: Tensor, left: nat, j: nat, t: nat, h: nat): real {
    SumTo((d: nat) => FrameAt(k, d, t - left + j, h) * Get(qU, d, t, h, 0), qU.n0)
  }

  type RowFunction = (seq<real>, seq<real>) -> seq<real>

  function Nth(s: seq<real>, i: nat): real {
    if i < |s| then s[i] else 0.0
  }

  function Column(t: Tensor, n: nat, i1: nat, i2: nat): seq<real> {
    seq(n, (i0: int) requires i0 >= 0 => Get(t, i0, i1, i2, 0))
  }

  // The scores of the band of frame t.
  function BandScores(qU: Tensor, qV: Tensor, k: Tensor, pos: Tensor, left: nat, window: nat, t: nat,
                      h: nat): seq<real> {
    seq(window, (j: int) requires j >= 0 => Content(qU, k, left, j, t, h) + Dot(pos, qV, j, t, h, 0, pos.n0))
  }

  // The weight of the j-th frame of the band of frame t; `soft` is the masked softmax of a row.
  function BandWeight(soft: RowFunction, qU: Tensor, qV: Tensor, k: Tensor, pos: Tensor, mask: Tensor,
                      left: nat, window: nat, j: nat, t: nat, h: nat): real {
    Nth(soft(BandScores(qU, qV, k, pos, left, window, t, h), Column(mask, window, t, 0)), j)
  }

  // Banded attention: the weighted sum of the frames in the band.
  function Banded(soft: RowFunction, qU: Tensor, qV: Tensor, k: Tensor, v: Tensor, pos: Tensor, mask: Tensor,
                  left: nat, window: nat, d: nat, t: nat, h: nat): real {
    SumTo((j: nat) => FrameAt(v, d, t - left + j, h) * BandWeight(soft, qU, qV, k, pos, mask, left, window, j, t, h),
        window)
  }

  /* ---- chunks ---- */

  function Groups(nTime: nat, chunk: nat): nat
    requires chunk > 0
  {
    Quotient(nTime + chunk - 1, chunk)
  }

  lemma GroupsCover(nTime: nat, chunk: nat)
    requires chunk > 0
    ensures nTime <= Groups(nTime, chunk) * chunk < nTime + chunk
  {
    var x := nTime + chunk - 1;
    assert x == x / chunk * chunk + x % chunk;
  }

  // Frame t is query q of chunk g.
  lemma ChunkOf(nTime: nat, chunk: nat, t: nat)
    requires chunk > 0 && t < nTime
    ensures t / chunk < Groups(nTime, chunk) && t == t / chunk * chunk + t % chunk && t % chunk < chunk
  {
    GroupsCover(nTime, chunk);
    var g := t / chunk;
    assert t == g * chunk + t % chunk;
    ProductGap(Groups(nTime, chunk), g, chunk);
  }

  /* ---- keys and values ---- */

  // Frames with zeros for the band of the first and last frames, and for the last window.
  function PadFrames(x: Tensor, left: nat, right: nat, dense: nat): Tensor {
    var p := PadExt(x, 0, 0, left, right, 0.0);
    if dense > p.n1 then PadExt(p, 0, 0, 0, dense - p.n1, 0.0) else p
  }

  lemma PadFramesGet(x: Tensor, left: nat, right: nat, dense: nat, d: nat, i: nat, h: nat)
    requires d < x.n0 && h < x.n2 && x.n3 == 1
    ensures var p := PadFrames(x, left, right, dense);
            Contiguous(p) && p.n0 == x.n0 && p.n1 >= dense && p.n1 >= x.n1 + left + right && p.n2 == x.n2 && p.n3 == 1
            && (i < p.n1 ==> Get(p, d, i, h, 0) == FrameAt(x, d, i - left, h))
  {
    hide Get, Fill, Addr;
    var p := PadExt(x, 0, 0, left, right, 0.0);
    var f := (i0: nat, i1: nat, i2: nat, i3: nat) => Padded(x, 0, left, 0.0, i0, i1, i2, i3);
    if i < p.n1 {
      FillGet(x.n0, x.n1 + left + right, x.n2, x.n3, f, d, i, h, 0);
    }
    if dense > p.n1 && i < dense {
      var f2 := (i0: nat, i1: nat, i2: nat, i3: nat) => Padded(p, 0, 0, 0.0, i0, i1, i2, i3);
      FillGet(p.n0, p.n1 + 0 + (dense - p.n1), p.n2, p.n3, f2, d, i, h, 0);
    }
  }

  // A window of nKv frames for each chunk, each starting one chunk after the last: the
  // windows overlap in the buffer.
  function ChunkKeys(p: Tensor, nKv: nat, chunk: nat, groups: nat): Tensor
    requires Accepted(p, p.n0, nKv, groups, p.n2, 0)
  {
    View(p, p.n0, nKv, groups, p.n2, p.s1, chunk * p.s1, p.s2, 0)
  }

  // The padding makes the view acceptable.
  lemma DenseFits(p: Tensor, nKv: nat, groups: nat)
    requires Contiguous(p) && p.n3 == 1 && p.n1 >= nKv * groups
    ensures Accepted(p, p.n0, nKv, groups, p.n2, 0)
  {
    assert groups * (nKv * p.n0) == nKv * groups * p.n0;
    ProductLe(nKv * groups, p.n1, p.n0);
    Commute(p.n2, groups * (nKv * p.n0));
    Commute(p.n2, p.n1 * p.n0);
    ProductLe(groups * (nKv * p.n0), p.n1 * p.n0, p.n2);
  }

  lemma WindowInside(nKv: nat, chunk: nat, groups: nat, g: nat, j: nat)
    requires chunk <= nKv && j < nKv && g < groups
    ensures Place(g, chunk, j) < nKv * groups
  {
    ProductLe(chunk, nKv, g);
    Commute(g, chunk);
    ProductGap(g, groups, nKv);
    Commute(groups, nKv);
    Commute(g, nKv);
  }

  // An element of a chunk's window is a frame of the padded sequence, inside the buffer.
  lemma ChunkKeysGet(p: Tensor, nKv: nat, chunk: nat, groups: nat, d: nat, j: nat, g: nat, h: nat)
    requires Contiguous(p) && p.n3 == 1 && p.n1 >= nKv * groups && chunk <= nKv
    requires d < p.n0 && j < nKv && g < groups && h < p.n2
    requires Accepted(p, p.n0, nKv, groups, p.n2, 0)
    ensures Place(g, chunk, j) < p.n1
    ensures Addr(ChunkKeys(p, nKv, chunk, groups), d, j, g, h) < |p.buf|
    ensures Get(ChunkKeys(p, nKv, chunk, groups), d, j, g, h) == Get(p, d, Place(g, chunk, j), h, 0)
  {
    WindowInside(nKv, chunk, groups, g, j);
    KeysAddr(p, nKv, chunk, groups, d, j, g, h);
    ContiguousInBounds(p);
    assert InRange(p, d, Place(g, chunk, j), h, 0);
  }

  lemma KeysAddr(p: Tensor, nKv: nat, chunk: nat, groups: nat, d: nat, j: nat, g: nat, h: nat)
    requires Accepted(p, p.n0, nKv, groups, p.n2, 0)
    ensures Addr(ChunkKeys(p, nKv, chunk, groups), d, j, g, h) == Addr(p, d, Place(g, chunk, j), h, 0)
  {
    hide Accepted;
    var s1 := p.s1;
    Distribute(g, chunk, j, s1);
  }

  // Values are transposed before they are cut into windows.
  function ChunkValues(p: Tensor, nKv: nat, chunk: nat, groups: nat): Tensor
    requires Accepted(p, nKv, p.n1, groups, p.n2, 0)
  {
    View(p, nKv, p.n1, groups, p.n2, p.s1, chunk * p.s0, p.s2, 0)
  }

  lemma ChunkValuesGet(p: Tensor, nKv: nat, chunk: nat, groups: nat, j: nat, d: nat, g: nat, h: nat)
    requires Contiguous(p) && p.n3 == 1 && p.n0 >= nKv * groups && chunk <= nKv
    requires j < nKv && d < p.n1 && g < groups && h < p.n2
    requires Accepted(p, nKv, p.n1, groups, p.n2, 0)
    ensures Place(g, chunk, j) < p.n0
    ensures Addr(ChunkValues(p, nKv, chunk, groups), j, d, g, h) < |p.buf|
    ensures Get(ChunkValues(p, nKv, chunk, groups), j, d, g, h) == Get(p, Place(g, chunk, j), d, h, 0)
  {
    WindowInside(nKv, chunk, groups, g, j);
    assert Addr(ChunkValues(p, nKv, chunk, groups), j, d, g, h) == Addr(p, Place(g, chunk, j), d, h, 0);
    ContiguousInBounds(p);
    assert InRange(p, Place(g, chunk, j), d, h, 0);
  }

  lemma DenseFitsTransposed(p: Tensor, nKv: nat, groups: nat)
    requires Contiguous(p) && p.n3 == 1 && p.n0 >= nKv * groups
    ensures Accepted(p, nKv, p.n1, groups, p.n2, 0)
  {
    var n := p.n1;
    assert groups * (n * nKv) == nKv * groups * n;
    ProductLe(nKv * groups, p.n0, n);
    Commute(p.n0, n);
    Commute(p.n2, groups * (n * nKv));
    Commute(p.n2, n * p.n0);
    ProductLe(groups * (n * nKv), n * p.n0, p.n2);
  }

  /* ---- cutting the band out ---- */

  // Rows one element longer than they are: row q starts q elements into the dense row q.
  function Skew(s: Tensor, window: nat): Tensor
    requires Contiguous(s) && window <= s.n0
  {
    SkewAccepted(s, window);
    View(s, window, s.n1, s.n2, s.n3, s.n0 + 1, s.s2, s.s3, 0)
  }

  lemma SkewAccepted(s: Tensor, window: nat)
    requires Contiguous(s) && window <= s.n0
    ensures Accepted(s, window, s.n1, s.n2, s.n3, 0)
  {
    ShrinkRow(s.n3, s.n2, s.n1, window, s.n0);
  }

  lemma ShrinkRow(n3: nat, n2: nat, n1: nat, a: nat, b: nat)
    requires a <= b
    ensures n3 * (n2 * (n1 * a)) <= n3 * (n2 * (n1 * b))
  {
    Commute(n1, a);
    Commute(n1, b);
    ProductLe(a, b, n1);
    Commute(n2, n1 * a);
    Commute(n2, n1 * b);
    ProductLe(n1 * a, n1 * b, n2);
    Commute(n3, n2 * (n1 * a));
    Commute(n3, n2 * (n1 * b));
    ProductLe(n2 * (n1 * a), n2 * (n1 * b), n3);
  }

  lemma SkewGet(s: Tensor, window: nat, j: nat, q: nat, g: nat, h: nat)
    requires Contiguous(s) && window <= s.n0 && j + q < s.n0 && q < s.n1 && g < s.n2 && h < s.n3
    ensures Addr(Skew(s, window), j, q, g, h) < |s.buf|
    ensures Get(Skew(s, window), j, q, g, h) == Get(s, j + q, q, g, h)
  {
    SkewAddr(s.n0, j, q);
    assert Addr(Skew(s, window), j, q, g, h) == Addr(s, j + q, q, g, h);
    ContiguousInBounds(s);
    assert InRange(s, j + q, q, g, h);
  }

  lemma SkewAddr(n0: nat, j: nat, q: nat)
    ensures j + q * (n0 + 1) == (j + q) + q * n0
  {
  }

  /* ---- putting the weights back ---- */

  // Rows padded to window + chunk and then read as rows one element shorter: row q starts q
  // elements before the padded row q.
  function Unskew(p: Tensor, nKv: nat): Tensor
    requires Contiguous(p) && p.n0 == nKv + 1
  {
    ShrinkRow(p.n3, p.n2, p.n1, nKv, p.n0);
    View(p, nKv, p.n1, p.n2, p.n3, nKv, p.s2, p.s3, 0)
  }

  // At and after the diagonal the weights of row q; before it the padding of the row above.
  lemma UnskewGet(p: Tensor, nKv: nat, j: nat, q: nat, g: nat, h: nat)
    requires Contiguous(p) && p.n0 == nKv + 1 && j < nKv && q < p.n1 && g < p.n2 && h < p.n3 && q <= nKv
    ensures Addr(Unskew(p, nKv), j, q, g, h) < |p.buf|
    ensures j >= q ==> Get(Unskew(p, nKv), j, q, g, h) == Get(p, j - q, q, g, h)
    ensures j < q ==> Get(Unskew(p, nKv), j, q, g, h) == Get(p, nKv + 1 + j - q, q - 1, g, h)
  {
    var u := Unskew(p, nKv);
    ContiguousInBounds(p);
    assert q * (nKv + 1) == q * nKv + q;
    if j >= q {
      assert Addr(u, j, q, g, h) == Addr(p, j - q, q, g, h);
      assert InRange(p, j - q, q, g, h);
    } else {
      assert (q - 1) * (nKv + 1) == q * nKv + q - nKv - 1;
      assert Addr(u, j, q, g, h) == Addr(p, nKv + 1 + j - q, q - 1, g, h);
      assert InRange(p, nKv + 1 + j - q, q - 1, g, h);
    }
  }

  /* ---- the pipeline ---- */

  // Zero frames up to a whole number of chunks.
  function PadTime(x: Tensor, n: nat): Tensor {
    if n > x.n1 then PadExt(x, 0, 0, 0, n - x.n1, 0.0) else x
  }

  lemma PadTimeGet(x: Tensor, n: nat, i0: nat, i: nat, h: nat)
    requires Contiguous(x) && x.n1 <= n && i0 < x.n0 && i < x.n1 && h < x.n2 && x.n3 == 1
    ensures Contiguous(PadTime(x, n)) && PadTime(x, n).n1 == n && PadTime(x, n).n0 == x.n0
    ensures PadTime(x, n).n2 == x.n2 && PadTime(x, n).n3 == 1
    ensures Get(PadTime(x, n), i0, i, h, 0) == Get(x, i0, i, h, 0)
  {
    hide Get, Fill, Addr;
    if n > x.n1 {
      var f := (i0: nat, i1: nat, i2: nat, i3: nat) => Padded(x, 0, 0, 0.0, i0, i1, i2, i3);
      FillGet(x.n0, x.n1 + 0 + (n - x.n1), x.n2, x.n3, f, i0, i, h, 0);
    }
  }

  // Grouping the frames into chunks, and back.
  function Group(x: Tensor, chunk: nat, groups: nat): Tensor
    requires Contiguous(x) && x.n3 == 1 && x.n1 == groups * chunk
  {
    Regrouped(x.n2, groups, chunk, x.n0);
    Reshape(x, x.n0, chunk, groups, x.n2)
  }

  function Ungroup(x: Tensor): Tensor
    requires Contiguous(x)
  {
    Regrouped(x.n3, x.n2, x.n1, x.n0);
    Reshape(x, x.n0, x.n2 * x.n1, x.n3, 1)
  }

  lemma Regrouped(h: nat, groups: nat, chunk: nat, n0: nat)
    ensures h * (groups * (chunk * n0)) == 1 * (h * (groups * chunk * n0))
  {
    assert groups * (chunk * n0) == groups * chunk * n0;
  }

  lemma GroupGet(x: Tensor, chunk: nat, groups: nat, i0: nat, q: nat, g: nat, h: nat)
    requires Contiguous(x) && x.n3 == 1 && x.n1 == groups * chunk
    ensures Get(Group(x, chunk, groups), i0, q, g, h) == Get(x, i0, Place(g, chunk, q), h, 0)
  {
    RegroupGet(x, Group(x, chunk, groups), chunk, groups, i0, q, g, h);
  }

  lemma UngroupGet(x: Tensor, i0: nat, q: nat, g: nat, h: nat)
    requires Contiguous(x)
    ensures Get(Ungroup(x), i0, Place(g, x.n1, q), h, 0) == Get(x, i0, q, g, h)
  {
    RegroupGet(Ungroup(x), x, x.n1, x.n2, i0, q, g, h);
  }

  // The first n frames.
  function TakeTime(x: Tensor, n: nat): Tensor
    requires Contiguous(x) && x.n3 == 1 && n <= x.n1
  {
    ProductLe(n, x.n1, x.n0);
    Commute(x.n2, n * x.n0);
    Commute(x.n2, x.n1 * x.n0);
    ProductLe(n * x.n0, x.n1 * x.n0, x.n2);
    View(x, x.n0, n, x.n2, x.n3, x.s1, x.s2, x.s3, 0)
  }

  // The queries, a chunk at a time.
  function QueryChunks(qU: Tensor, chunk: nat): (r: Tensor)
    requires Contiguous(qU) && qU.n3 == 1 && chunk > 0
    ensures Contiguous(r) && r.n0 == qU.n0 && r.n1 == chunk && r.n2 == Groups(qU.n1, chunk) && r.n3 == qU.n2
  {
    var groups := Groups(qU.n1, chunk);
    GroupsCover(qU.n1, chunk);
    Group(PadTime(qU, groups * chunk), chunk, groups)
  }

  lemma QueryChunksGet(qU: Tensor, chunk: nat, d: nat, q: nat, g: nat, h: nat)
    requires Contiguous(qU) && qU.n3 == 1 && chunk > 0 && d < qU.n0 && h < qU.n2 && Place(g, chunk, q) < qU.n1
    ensures Get(QueryChunks(qU, chunk), d, q, g, h) == Get(qU, d, Place(g, chunk, q), h, 0)
  {
    var groups := Groups(qU.n1, chunk);
    GroupsCover(qU.n1, chunk);
    PadTimeGet(qU, groups * chunk, d, Place(g, chunk, q), h);
    GroupGet(PadTime(qU, groups * chunk), chunk, groups, d, q, g, h);
  }

  // A window of keys for each chunk.
  function KeyWindows(k: Tensor, left: nat, right: nat, groups: nat): (r: Tensor)
    requires Contiguous(k) && k.n3 == 1
    ensures Contiguous(r) && r.n0 == k.n0 && r.n1 == 2 * (left + right) && r.n2 == groups && r.n3 == k.n2
  {
    var chunk, nKv := left + right, 2 * (left + right);
    var p := PadFrames(k, left, right, nKv * groups);
    DenseFits(p, nKv, groups);
    Cont(ChunkKeys(p, nKv, chunk, groups))
  }

  lemma KeyWindowsGet(k: Tensor, left: nat, right: nat, groups: nat, d: nat, j: nat, g: nat, h: nat)
    requires Contiguous(k) && k.n3 == 1 && d < k.n0 && j < 2 * (left + right) && g < groups && h < k.n2
    ensures Get(KeyWindows(k, left, right, groups), d, j, g, h) == FrameAt(k, d, Place(g, left + right, j) - left, h)
  {
    hide Get, Fill, Addr;
    var chunk, nKv := left + right, 2 * (left + right);
    var p := PadFrames(k, left, right, nKv * groups);
    DenseFits(p, nKv, groups);
    ContGet(ChunkKeys(p, nKv, chunk, groups), d, j, g, h);
    PadFramesGet(k, left, right, nKv * groups, d, Place(g, chunk, j), h);
    ChunkKeysGet(p, nKv, chunk, groups, d, j, g, h);
  }

  // Similarities: dense products with the windows, the band cut out, chunks joined.
  function ContentScores(qU: Tensor, k: Tensor, left: nat, right: nat): (r: Tensor)
    requires Contiguous(qU) && Contiguous(k) && qU.n3 == 1 && k.n3 == 1 && left + right > 0
    requires k.n0 == qU.n0 && k.n1 == qU.n1 && k.n2 == qU.n2
    ensures r.n0 == left + right + 1 && r.n1 == qU.n1 && r.n2 == qU.n2 && r.n3 == 1
  {
    var chunk, window := left + right, left + right + 1;
    var groups := Groups(qU.n1, chunk);
    GroupsCover(qU.n1, chunk);
    var dense := MulMat(KeyWindows(k, left, right, groups), QueryChunks(qU, chunk));
    TakeTime(Ungroup(Cont(Skew(dense, window))), qU.n1)
  }

  // A term of the dense product is a term of the similarity.
  lemma ContentTerm(qU: Tensor, k: Tensor, left: nat, right: nat, j: nat, q: nat, g: nat, h: nat, d: nat)
    requires Contiguous(qU) && Contiguous(k) && qU.n3 == 1 && k.n3 == 1 && left + right > 0
    requires k.n0 == qU.n0 && k.n1 == qU.n1 && k.n2 == qU.n2
    requires j <= left + right && q < left + right && Place(g, left + right, q) < qU.n1 && h < qU.n2 && d < qU.n0
    requires g < Groups(qU.n1, left + right)
    ensures Get(KeyWindows(k, left, right, Groups(qU.n1, left + right)), d, j + q, g, h)
            * Get(QueryChunks(qU, left + right), d, q, g, h)
            == FrameAt(k, d, Place(g, left + right, q) - left + j, h) * Get(qU, d, Place(g, left + right, q), h, 0)
  {
    hide Get, FrameAt, Contiguous, KeyWindows, QueryChunks;
    KeyWindowsGet(k, left, right, Groups(qU.n1, left + right), d, j + q, g, h);
    QueryChunksGet(qU, left + right, d, q, g, h);
    assert Place(g, left + right, j + q) - left == Place(g, left + right, q) - left + j;
  }

  // Every score is the similarity of a frame with a frame of its own band.
  lemma ContentScoresGet(qU: Tensor, k: Tensor, left: nat, right: nat, j: nat, t: nat, h: nat)
    requires Contiguous(qU) && Contiguous(k) && qU.n3 == 1 && k.n3 == 1 && left + right > 0
    requires k.n0 == qU.n0 && k.n1 == qU.n1 && k.n2 == qU.n2
    requires j <= left + right && t < qU.n1 && h < qU.n2
    ensures Get(ContentScores(qU, k, left, right), j, t, h, 0) == Content(qU, k, left, j, t, h)
  {
    hide Get, Addr, KeyWindows, QueryChunks, FrameAt, Contiguous, Groups, SumTo;
    var chunk, window := left + right, left + right + 1;
    var groups := Groups(qU.n1, chunk);
    GroupsCover(qU.n1, chunk);
    ChunkOf(qU.n1, chunk, t);
    var g, q := t / chunk, t % chunk;
    var keys, queries := KeyWindows(k, left, right, groups), QueryChunks(qU, chunk);
    var dense := MulMat(keys, queries);
    var cut := Cont(Skew(dense, window));
    TakeTimeGet(Ungroup(cut), qU.n1, j, t, h);
    UngroupGet(cut, j, q, g, h);
    ContGet(Skew(dense, window), j, q, g, h);
    SkewGet(dense, window, j, q, g, h);
    MulMatGet(keys, queries, j + q, q, g, h);
    var f := (d: nat) => FrameAt(k, d, t - left + j, h) * Get(qU, d, t, h, 0);
    forall d: nat | d < qU.n0 ensures f(d) == Get(keys, d, j + q, g, h) * Get(queries, d, q, g, h) {
      ContentTerm(qU, k, left, right, j, q, g, h, d);
    }
    DotIsSum(keys, queries, j + q, q, g, h, qU.n0, f);
  }

  lemma TakeTimeGet(x: Tensor, n: nat, i0: nat, i: nat, h: nat)
    requires Contiguous(x) && x.n3 == 1 && n <= x.n1
    ensures Get(TakeTime(x, n), i0, i, h, 0) == Get(x, i0, i, h, 0)
  {
  }

  lemma ContGet(t: Tensor, i0: nat, i1: nat, i2: nat, i3: nat)
    requires InRange(t, i0, i1, i2, i3)
    ensures Get(Cont(t), i0, i1, i2, i3) == Get(t, i0, i1, i2, i3)
  {
    FillGet(t.n0, t.n1, t.n2, t.n3, (i0: nat, i1: nat, i2: nat, i3: nat) => Get(t, i0, i1, i2, i3), i0, i1, i2, i3);
  }

  lemma MulMatGet(a: Tensor, b: Tensor, i: nat, j: nat, i2: nat, i3: nat)
    requires i < a.n1 && j < b.n1 && i2 < b.n2 && i3 < b.n3
    ensures Get(MulMat(a, b), i, j, i2, i3) == Dot(a, b, i, j, i2, i3, a.n0)
  {
    FillGet(a.n1, b.n1, b.n2, b.n3, (i: nat, j: nat, i2: nat, i3: nat) => Dot(a, b, i, j, i2, i3, a.n0), i, j, i2, i3);
  }

  /* ---- weights ---- */

  // The masked softmax of every row.
  function SoftMaxExt(soft: RowFunction, scores: Tensor, mask: Tensor): (r: Tensor)
    ensures r.n0 == scores.n0 && r.n1 == scores.n1 && r.n2 == scores.n2 && r.n3 == scores.n3
  {
    Fill(scores.n0, scores.n1, scores.n2, scores.n3, (i0: nat, i1: nat, i2: nat, i3: nat) =>
      Nth(soft(Column(scores, scores.n0, i1, i2), Column(mask, scores.n0, i1, 0)), i0))
  }

  lemma SoftMaxGet(soft: RowFunction, scores: Tensor, mask: Tensor, i0: nat, i1: nat, i2: nat)
    requires InRange(scores, i0, i1, i2, 0)
    ensures Get(SoftMaxExt(soft, scores, mask), i0, i1, i2, 0) ==
            Nth(soft(Column(scores, scores.n0, i1, i2), Column(mask, scores.n0, i1, 0)), i0)
  {
    FillGet(scores.n0, scores.n1, scores.n2, scores.n3, (i0: nat, i1: nat, i2: nat, i3: nat) =>
      Nth(soft(Column(scores, scores.n0, i1, i2), Column(mask, scores.n0, i1, 0)), i0), i0, i1, i2, 0);
  }

  lemma AddGet(a: Tensor, b: Tensor, i0: nat, i1: nat, i2: nat, i3: nat)
    requires InRange(a, i0, i1, i2, i3)
    ensures Get(AddT(a, b), i0, i1, i2, i3) == Get(a, i0, i1, i2, i3) + Get(b, i0, i1, i2, i3)
  {
    FillGet(a.n0, a.n1, a.n2, a.n3,
        (i0: nat, i1: nat, i2: nat, i3: nat) => Get(a, i0, i1, i2, i3) + Get(b, i0, i1, i2, i3), i0, i1, i2, i3);
  }

  // The extents of the layer's inputs.
  predicate Inputs(qU: Tensor, qV: Tensor, k: Tensor, v: Tensor, pos: Tensor, left: nat, right: nat) {
    && left + right > 0
    && Contiguous(qU) && Contiguous(k) && Contiguous(v)
    && qU.n3 == 1 && qV.n3 == 1 && k.n3 == 1 && v.n3 == 1
    && k.n0 == v.n0 == qU.n0 && k.n1 == v.n1 == qU.n1 == qV.n1 && k.n2 == v.n2 == qU.n2 == qV.n2
    && pos.n1 == left + right + 1
  }

  // Content and position scores, turned into weights.
  function Weights(soft: RowFunction, qU: Tensor, qV: Tensor, k: Tensor, v: Tensor, pos: Tensor, mask: Tensor,
                   left: nat, right: nat): (r: Tensor)
    requires Inputs(qU, qV, k, v, pos, left, right)
    ensures Contiguous(r) && r.n0 == left + right + 1 && r.n1 == qU.n1 && r.n2 == qU.n2 && r.n3 == 1
  {
    SoftMaxExt(soft, AddT(ContentScores(qU, k, left, right), MulMat(pos, qV)), mask)
  }

  lemma WeightsGet(soft: RowFunction, qU: Tensor, qV: Tensor, k: Tensor, v: Tensor, pos: Tensor, mask: Tensor,
                   left: nat, right: nat, j: nat, t: nat, h: nat)
    requires Inputs(qU, qV, k, v, pos, left, right) && j <= left + right && t < qU.n1 && h < qU.n2
    ensures Get(Weights(soft, qU, qV, k, v, pos, mask, left, right), j, t, h, 0) ==
            BandWeight(soft, qU, qV, k, pos, mask, left, left + right + 1, j, t, h)
  {
    hide Get, Content, ContentScores, Dot;
    var window := left + right + 1;
    var content, rel := ContentScores(qU, k, left, right), MulMat(pos, qV);
    var scores := AddT(content, rel);
    SoftMaxGet(soft, scores, mask, j, t, h);
    var row := BandScores(qU, qV, k, pos, left, window, t, h);
    forall i: nat | i < window ensures Get(scores, i, t, h, 0) == row[i] {
      AddGet(content, rel, i, t, h, 0);
      ContentScoresGet(qU, k, left, right, i, t, h);
      MulMatGet(pos, qV, i, t, h, 0);
    }
    assert Column(scores, window, t, h) == row;
  }

  // Padded, cut into chunks and read with the shorter row stride.
  function BandOfZeros(weights: Tensor, chunk: nat): (r: Tensor)
    requires Contiguous(weights) && weights.n3 == 1 && chunk > 0 && weights.n0 > 0
    ensures Contiguous(r) && r.n0 == weights.n0 + chunk - 1 && r.n1 == chunk && r.n2 == Groups(weights.n1, chunk)
            && r.n3 == weights.n2
  {
    Cont(Unskew(PadExt(QueryChunks(weights, chunk), 0, chunk, 0, 0, 0.0), weights.n0 + chunk - 1))
  }

  // The weights are back in place, with zeros outside the window: the mask that follows changes
  // nothing.
  lemma BandOfZerosGet(weights: Tensor, chunk: nat, j: nat, q: nat, g: nat, h: nat)
    requires Contiguous(weights) && weights.n3 == 1 && weights.n0 == chunk + 1 && j < 2 * chunk && q < chunk
    requires Place(g, chunk, q) < weights.n1 && h < weights.n2 && g < Groups(weights.n1, chunk)
    ensures Get(BandOfZeros(weights, chunk), j, q, g, h) ==
            if q <= j < q + weights.n0 then Get(weights, j - q, Place(g, chunk, q), h, 0) else 0.0
  {
    hide Get, Fill, Addr, QueryChunks;
    var c := QueryChunks(weights, chunk);
    var p := PadExt(c, 0, chunk, 0, 0, 0.0);
    var nKv := weights.n0 + chunk - 1;
    ContGet(Unskew(p, nKv), j, q, g, h);
    UnskewGet(p, nKv, j, q, g, h);
    if j >= q {
      PadRowGet(c, chunk, j - q, q, g, h);
      if j - q < weights.n0 {
        QueryChunksGet(weights, chunk, j - q, q, g, h);
      }
    } else {
      PadRowGet(c, chunk, nKv + 1 + j - q, q - 1, g, h);
    }
  }

  lemma PadRowGet(c: Tensor, chunk: nat, i0: nat, i1: nat, i2: nat, i3: nat)
    requires i0 < c.n0 + chunk && i1 < c.n1 && i2 < c.n2 && i3 < c.n3
    ensures Get(PadExt(c, 0, chunk, 0, 0, 0.0), i0, i1, i2, i3) == if i0 < c.n0 then Get(c, i0, i1, i2, i3) else 0.0
  {
    hide Get, Fill;
    FillGet(c.n0 + 0 + chunk, c.n1 + 0 + 0, c.n2, c.n3,
            (i0: nat, i1: nat, i2: nat, i3: nat) => Padded(c, 0, 0, 0.0, i0, i1, i2, i3), i0, i1, i2, i3);
  }

  // 1 inside the window of each query of a chunk, 0 outside.
  predicate IsLocalMask(m: Tensor, chunk: nat) {
    forall j: nat, q: nat :: j < 2 * chunk && q < chunk ==>
      Get(m, j, q, 0, 0) == if q <= j < q + (chunk + 1) then 1.0 else 0.0
  }

  lemma MulBroadcastGet(a: Tensor, m: Tensor, i0: nat, i1: nat, i2: nat, i3: nat)
    requires InRange(a, i0, i1, i2, i3)
    ensures Get(MulBroadcast(a, m), i0, i1, i2, i3) == Get(a, i0, i1, i2, i3) * Get(m, i0, i1, 0, 0)
  {
    hide Get;
    FillGet(a.n0, a.n1, a.n2, a.n3,
        (i0: nat, i1: nat, i2: nat, i3: nat) => Get(a, i0, i1, i2, i3) * Get(m, i0, i1, 0, 0), i0, i1, i2, i3);
  }

  lemma MaskedBandGet(weights: Tensor, m: Tensor, chunk: nat, j: nat, q: nat, g: nat, h: nat)
    requires Contiguous(weights) && weights.n3 == 1 && weights.n0 == chunk + 1 && j < 2 * chunk && q < chunk
    requires Place(g, chunk, q) < weights.n1 && h < weights.n2 && g < Groups(weights.n1, chunk) && IsLocalMask(m, chunk)
    ensures Get(MulBroadcast(BandOfZeros(weights, chunk), m), j, q, g, h) ==
            if q <= j < q + (chunk + 1) then Get(weights, j - q, Place(g, chunk, q), h, 0) else 0.0
  {
    hide Get, BandOfZeros;
    MulBroadcastGet(BandOfZeros(weights, chunk), m, j, q, g, h);
    BandOfZerosGet(weights, chunk, j, q, g, h);
  }

  /* ---- the weighted sums ---- */

  function ValueWindows(v: Tensor, left: nat, right: nat, groups: nat): (r: Tensor)
    requires Contiguous(v) && v.n3 == 1
    ensures Contiguous(r) && r.n0 == 2 * (left + right) && r.n1 == v.n0 && r.n2 == groups && r.n3 == v.n2
  {
    var chunk, nKv := left + right, 2 * (left + right);
    var p := Cont(Transpose(PadFrames(v, left, right, nKv * groups)));
    DenseFitsTransposed(p, nKv, groups);
    Cont(ChunkValues(p, nKv, chunk, groups))
  }

  lemma TransposeGet(t: Tensor, i0: nat, i1: nat, i2: nat, i3: nat)
    ensures Get(Transpose(t), i0, i1, i2, i3) == Get(t, i1, i0, i2, i3)
  {
  }

  lemma ValueWindowsGet(v: Tensor, left: nat, right: nat, groups: nat, j: nat, d: nat, g: nat, h: nat)
    requires Contiguous(v) && v.n3 == 1 && d < v.n0 && j < 2 * (left + right) && g < groups && h < v.n2
    ensures Get(ValueWindows(v, left, right, groups), j, d, g, h) == FrameAt(v, d, Place(g, left + right, j) - left, h)
  {
    hide Get, Fill, Addr;
    var chunk, nKv := left + right, 2 * (left + right);
    var padded := PadFrames(v, left, right, nKv * groups);
    var p := Cont(Transpose(padded));
    DenseFitsTransposed(p, nKv, groups);
    ContGet(ChunkValues(p, nKv, chunk, groups), j, d, g, h);
    ChunkValuesGet(p, nKv, chunk, groups, j, d, g, h);
    ContGet(Transpose(padded), Place(g, chunk, j), d, h, 0);
    TransposeGet(padded, Place(g, chunk, j), d, h, 0);
    PadFramesGet(v, left, right, nKv * groups, d, Place(g, chunk, j), h);
  }

  // The whole layer, for all heads, up to the output projection.
  function Attend(soft: RowFunction, qU: Tensor, qV: Tensor, k: Tensor, v: Tensor, pos: Tensor, mask: Tensor,
                  localMask: Tensor, left: nat, right: nat): (r: Tensor)
    requires Inputs(qU, qV, k, v, pos, left, right)
    ensures r.n0 == v.n0 && r.n1 == qU.n1 && r.n2 == qU.n2 && r.n3 == 1
  {
    var chunk := left + right;
    var band := AttendBand(soft, qU, qV, k, v, pos, mask, localMask, left, right);
    var groups := Groups(qU.n1, chunk);
    GroupsCover(qU.n1, chunk);
    TakeTime(Ungroup(MulMat(ValueWindows(v, left, right, groups), band)), qU.n1)
  }

  // A row of the chunked product is the row of banded attention.
  lemma ChunkRowIsBanded(soft: RowFunction, qU: Tensor, qV: Tensor, k: Tensor, v: Tensor, pos: Tensor, mask: Tensor,
                         localMask: Tensor, left: nat, right: nat, d: nat, q: nat, g: nat, h: nat)
    requires Inputs(qU, qV, k, v, pos, left, right) && IsLocalMask(localMask, left + right)
    requires d < v.n0 && q < left + right && Place(g, left + right, q) < qU.n1 && h < qU.n2
    requires g < Groups(qU.n1, left + right)
    ensures Dot(ValueWindows(v, left, right, Groups(qU.n1, left + right)),
                AttendBand(soft, qU, qV, k, v, pos, mask, localMask, left, right), d, q, g, h, 2 * (left + right))
            == Banded(soft, qU, qV, k, v, pos, mask, left, left + right + 1, d, Place(g, left + right, q), h)
  {
    hide Get, Addr, AttendBand, ValueWindows, BandWeight, FrameAt, IsLocalMask, Contiguous, Dot, Groups, SumTo, Place;
    var chunk, window := left + right, left + right + 1;
    var t := Place(g, chunk, q);
    var band := AttendBand(soft, qU, qV, k, v, pos, mask, localMask, left, right);
    var values := ValueWindows(v, left, right, Groups(qU.n1, chunk));
    var term := (j: nat) => Get(values, j, d, g, h) * Get(band, j, q, g, h);
    var wanted := (j: nat) => FrameAt(v, d, t - left + j, h)
                              * BandWeight(soft, qU, qV, k, pos, mask, left, window, j, t, h);
    DotIsSum(values, band, d, q, g, h, 2 * chunk, term);
    forall j: nat | j < 2 * chunk ensures term(j) == if q <= j < q + window then wanted(j - q) else 0.0 {
      AttendTerm(soft, qU, qV, k, v, pos, mask, localMask, left, right, d, q, g, h, j);
    }
    SumWindow(term, wanted, q, window, 2 * chunk);
  }

  // Chunked attention is banded attention, for every frame of any number of frames.
  lemma AttendIsBanded(soft: RowFunction, qU: Tensor, qV: Tensor, k: Tensor, v: Tensor, pos: Tensor, mask: Tensor,
                       localMask: Tensor, left: nat, right: nat, d: nat, t: nat, h: nat)
    requires Inputs(qU, qV, k, v, pos, left, right) && IsLocalMask(localMask, left + right)
    requires d < v.n0 && t < qU.n1 && h < qU.n2
    ensures Get(Attend(soft, qU, qV, k, v, pos, mask, localMask, left, right), d, t, h, 0) ==
            Banded(soft, qU, qV, k, v, pos, mask, left, left + right + 1, d, t, h)
  {
    hide Get, Addr, AttendBand, ValueWindows, Banded, IsLocalMask, Groups, Dot, Contiguous;
    var chunk := left + right;
    GroupsCover(qU.n1, chunk);
    ChunkOf(qU.n1, chunk, t);
    var g, q := t / chunk, t % chunk;
    var band := AttendBand(soft, qU, qV, k, v, pos, mask, localMask, left, right);
    var values := ValueWindows(v, left, right, Groups(qU.n1, chunk));
    var out := MulMat(values, band);
    TakeTimeGet(Ungroup(out), qU.n1, d, t, h);
    UngroupGet(out, d, q, g, h);
    MulMatGet(values, band, d, q, g, h);
    ChunkRowIsBanded(soft, qU, qV, k, v, pos, mask, localMask, left, right, d, q, g, h);
  }

  function AttendBand(soft: RowFunction, qU: Tensor, qV: Tensor, k: Tensor, v: Tensor, pos: Tensor, mask: Tensor,
                      localMask: Tensor, left: nat, right: nat): (r: Tensor)
    requires Inputs(qU, qV, k, v, pos, left, right)
    ensures Contiguous(r) && r.n0 == 2 * (left + right) && r.n1 == left + right
    ensures r.n2 == Groups(qU.n1, left + right) && r.n3 == qU.n2
  {
    MulBroadcast(BandOfZeros(Weights(soft, qU, qV, k, v, pos, mask, left, right), left + right), localMask)
  }

  // A term of a weighted sum over a chunk's window.
  lemma AttendTerm(soft: RowFunction, qU: Tensor, qV: Tensor, k: Tensor, v: Tensor, pos: Tensor, mask: Tensor,
                   localMask: Tensor, left: nat, right: nat, d: nat, q: nat, g: nat, h: nat, j: nat)
    requires Inputs(qU, qV, k, v, pos, left, right) && IsLocalMask(localMask, left + right)
    requires d < v.n0 && q < left + right && Place(g, left + right, q) < qU.n1 && h < qU.n2 && j < 2 * (left + right)
    requires g < Groups(qU.n1, left + right)
    ensures Get(ValueWindows(v, left, right, Groups(qU.n1, left + right)), j, d, g, h)
            * Get(AttendBand(soft, qU, qV, k, v, pos, mask, localMask, left, right), j, q, g, h)
            == if q <= j < q + (left + right + 1) then
                 FrameAt(v, d, Place(g, left + right, q) - left + (j - q), h)
                 * BandWeight(soft, qU, qV, k, pos, mask, left, left + right + 1, j - q, Place(g, left + right, q), h)
               else 0.0
  {
    hide Get, Weights, BandOfZeros, ValueWindows, BandWeight, FrameAt, IsLocalMask, Contiguous;
    var chunk := left + right;
    var t := Place(g, chunk, q);
    var weights := Weights(soft, qU, qV, k, v, pos, mask, left, right);
    ValueWindowsGet(v, left, right, Groups(qU.n1, chunk), j, d, g, h);
    MaskedBandGet(weights, localMask, chunk, j, q, g, h);
    if q <= j < q + (chunk + 1) {
      WeightsGet(soft, qU, qV, k, v, pos, mask, left, right, j - q, t, h);
      assert Place(g, chunk, j) - left == t - left + (j - q);
    }
  }

  /* ---- the masks and the layer as it is built ---- */

  // Fills a matrix row by row.
  method FillRows(nK: nat, nQ: nat, f: (nat, nat) -> real) returns (m: Tensor)
    ensures Contiguous(m) && m.n0 == nK && m.n1 == nQ && m.n2 == 1 && m.n3 == 1
    ensures forall k: nat, q: nat :: k < nK && q < nQ ==> Get(m, k, q, 0, 0) == f(k, q)
  {
    var data := new real[nQ * nK](_ => 0.0);
    for q := 0 to nQ
      invariant RowsAre(data[..], nK, f, q)
    {
      ProductGap(q, nQ, nK);
      ghost var before := data[..];
      FillRow(data, q * nK, nK, q, f);
      RowsGrow(before, data[..], nK, f, q);
    }
    m := Tensor(data[..], nK, nQ, 1, 1, 1, nK, nQ * nK, 1 * (nQ * nK), 0);
    RowsRead(m, f);
  }

  ghost predicate RowIs(data: seq<real>, nK: nat, f: (nat, nat) -> real, q: nat) {
    var lo := Place(q, nK, 0);
    lo + nK <= |data| && forall k: nat :: k < nK ==> data[lo + k] == f(k, q)
  }

  ghost predicate RowsAre(data: seq<real>, nK: nat, f: (nat, nat) -> real, q: nat) {
    forall r: nat :: r < q ==> RowIs(data, nK, f, r)
  }

  lemma RowsGrow(a: seq<real>, b: seq<real>, nK: nat, f: (nat, nat) -> real, q: nat)
    requires RowsAre(a, nK, f, q) && |a| == |b| && Place(q, nK, 0) + nK <= |a|
    requires forall i :: 0 <= i < Place(q, nK, 0) ==> a[i] == b[i]
    requires forall k: nat :: k < nK ==> b[Place(q, nK, 0) + k] == f(k, q)
    ensures RowsAre(b, nK, f, q + 1)
  {
    forall r: nat | r < q ensures RowIs(b, nK, f, r) {
      ProductGap(r, q, nK);
      assert RowIs(a, nK, f, r);
    }
    assert RowIs(b, nK, f, q);
  }

  lemma RowsRead(m: Tensor, f: (nat, nat) -> real)
    requires RowsAre(m.buf, m.n0, f, m.n1) && m.s0 == 1 && m.s1 == m.n0 && m.off == 0
    ensures forall k: nat, q: nat :: k < m.n0 && q < m.n1 ==> Get(m, k, q, 0, 0) == f(k, q)
  {
    forall k: nat, q: nat | k < m.n0 && q < m.n1 ensures Get(m, k, q, 0, 0) == f(k, q) {
      assert RowIs(m.buf, m.n0, f, q);
    }
  }

  method FillRow(data: array<real>, lo: nat, nK: nat, q: nat, f: (nat, nat) -> real)
    requires lo + nK <= data.Length
    modifies data
    ensures forall k: nat :: k < nK ==> data[lo + k] == f(k, q)
    ensures forall i :: 0 <= i < data.Length && !(lo <= i < lo + nK) ==> data[i] == old(data[i])
  {
    for k := 0 to nK
      invariant forall i: nat :: i < k ==> data[lo + i] == f(i, q)
      invariant forall i :: 0 <= i < data.Length && !(lo <= i < lo + k) ==> data[i] == old(data[i])
    {
      data[lo + k] := f(k, q);
    }
  }

  // The skew mask of a chunk.
  method LocalMask(chunk: nat) returns (m: Tensor)
    ensures IsLocalMask(m, chunk)
  {
    var nK, nQ := 2 * chunk, chunk;
    var windowSize := nK - nQ + 1;
    m := FillRows(nK, nQ, (k: nat, q: nat) => if 0 <= k - q < windowSize then 1.0 else 0.0);
  }

  const MASKED := -1000000000000000000000000000000.0

  // The band positions that fall outside the audio are masked.
  method AttnMask(nK: nat, nQ: nat, nTokensReal: nat) returns (m: Tensor)
    ensures forall k: nat, q: nat :: k < nK && q < nQ ==>
              Get(m, k, q, 0, 0) == if 0 <= q - nK / 2 + k < nTokensReal then 0.0 else MASKED
  {
    var attLeft := nK / 2;
    m := FillRows(nK, nQ, (k: nat, q: nat) => if 0 <= q - attLeft + k < nTokensReal then 0.0 else MASKED);
  }

  // The steps of the graph, for a symmetric band of w frames on each side.
  method BuildLocalAttention(soft: RowFunction, qU: Tensor, qV: Tensor, k: Tensor, v: Tensor, pos: Tensor,
                             nTokensReal: nat, w: nat)
    returns (cur: Tensor, mask: Tensor)
    requires Inputs(qU, qV, k, v, pos, w, w)
    ensures forall j: nat, t: nat :: j < 2 * w + 1 && t < qU.n1 ==>
              Get(mask, j, t, 0, 0) == if 0 <= t - w + j < nTokensReal then 0.0 else MASKED
    ensures forall d: nat, t: nat, h: nat :: d < v.n0 && t < qU.n1 && h < qU.n2 ==>
              Get(cur, d, t, h, 0) == Banded(soft, qU, qV, k, v, pos, mask, w, 2 * w + 1, d, t, h)
  {
    hide Get, Contiguous, IsLocalMask, Attend, Banded;
    var windowSize := w + w + 1;
    mask := AttnMask(windowSize, qU.n1, nTokensReal);
    var localMask := LocalMask(w + w);
    cur := Attend(soft, qU, qV, k, v, pos, mask, localMask, w, w);
    forall d: nat, t: nat, h: nat | d < v.n0 && t < qU.n1 && h < qU.n2
      ensures Get(cur, d, t, h, 0) == Banded(soft, qU, qV, k, v, pos, mask, w, 2 * w + 1, d, t, h)
    {
      AttendIsBanded(soft, qU, qV, k, v, pos, mask, localMask, w, w, d, t, h);
    }
  }
}
