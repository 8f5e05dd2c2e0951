/**
 Full attention scores every query against all relative positions and then lines the scores up
 with the keys: pad the rows by one, rotate them by one, and read the result with a row stride
 one short, starting after the first row's worth of elements.
 */
module RelativeShift {
  import opened Arithmetic
  import opened Tensors

  // What the graph does to the position scores of n frames; z is the padding value.
  function Shifted(scores: Tensor, n: nat, z: real): Tensor
    requires Contiguous(scores) && scores.n0 == 2 * n - 1 && scores.n1 == n && scores.n2 > 0 && scores.n3 == 1 && n > 0
  {
    var first := FirstView(scores, n, z);
    FinalAccepted(first, n);
    AlignedRows(first, n)
  }

  function Rotated(scores: Tensor, z: real): (r: Tensor)
    ensures Contiguous(r) && r.n0 == scores.n0 + 1 && r.n1 == scores.n1 && r.n2 == scores.n2 && r.n3 == scores.n3
  {
    RollOne(PadExt(scores, 0, 1, 0, 0, z))
  }

  // The rotated scores as rows of n elements, read from the middle with the stride of the
  // position window.
  function FirstView(scores: Tensor, n: nat, z: real): (r: Tensor)
    requires Contiguous(scores) && scores.n0 == 2 * n - 1 && scores.n1 == n && scores.n2 > 0 && scores.n3 == 1 && n > 0
    ensures r.n0 == n && r.n1 == 2 * n - 1 && r.n2 == scores.n2 && r.n3 == 1 && r.s0 == 1 && r.s1 == 2 * n - 1
            && r.off == n
    ensures r.buf == Rotated(scores, z).buf && r.s2 == 2 * n * n
    ensures |r.buf| == scores.n2 * (2 * n * n)
  {
    var posWindow := scores.n0;
    var rotated := Rotated(scores, z);
    RowsSwapped(n, scores.n2);
    var reshaped := Reshape(rotated, n, posWindow + 1, scores.n2, 1);
    var center := posWindow / 2;
    FirstAccepted(n, scores.n2);
    View(reshaped, n, posWindow, scores.n2, 1, posWindow, reshaped.s2, reshaped.s3, center + 1)
  }

  lemma RowsSwapped(n: nat, heads: nat)
    ensures 1 * (heads * (2 * n * n)) == 1 * (heads * (n * (2 * n)))
  {
    assert 2 * n * n == n * (2 * n);
  }

  lemma FirstAccepted(n: nat, heads: nat)
    requires n > 0 && heads > 0
    ensures 1 * (heads * ((2 * n - 1) * n)) + n <= heads * (2 * n * n)
  {
    assert (2 * n - 1) * n == 2 * n * n - n;
    assert heads * (2 * n * n - n) == heads * (2 * n * n) - heads * n;
    assert heads * n >= n by {
      ProductGap(0, heads, n);
    }
  }

  // The part of the view that is used: one row per query, one element per key.
  function AlignedRows(first: Tensor, n: nat): Tensor
    requires Accepted(first, n, n, first.n2, first.n3, 0)
  {
    Cont(View(first, n, n, first.n2, first.n3, first.s1, first.s2, first.s3, 0))
  }

  lemma FinalAccepted(first: Tensor, n: nat)
    requires n > 0 && first.n3 == 1 && |first.buf| == first.n2 * (2 * n * n)
    ensures Accepted(first, n, n, first.n2, first.n3, 0)
  {
    assert n * n <= 2 * n * n;
    var a, b, h := n * n, 2 * n * n, first.n2;
    assert h * b == h * a + h * (b - a);
    assert h * (b - a) >= 0;
  }

  // Column j of a rotated row is the score with index j - 1; the padding is in column 0.
  lemma RotatedGet(scores: Tensor, z: real, j: nat, q: nat, h: nat)
    requires Contiguous(scores) && 0 < j <= scores.n0 && q < scores.n1 && h < scores.n2 && scores.n3 == 1
    ensures Get(Rotated(scores, z), j, q, h, 0) == Get(scores, j - 1, q, h, 0)
  {
    hide Get;
    var p := PadExt(scores, 0, 1, 0, 0, z);
    FillGet(p.n0, p.n1, p.n2, p.n3, (i0: nat, i1: nat, i2: nat, i3: nat) => Rolled(p, i0, i1, i2, i3), j, q, h, 0);
    FillGet(scores.n0 + 0 + 1, scores.n1 + 0 + 0, scores.n2, scores.n3,
            (i0: nat, i1: nat, i2: nat, i3: nat) => Padded(scores, 0, 0, z, i0, i1, i2, i3), j - 1, q, h, 0);
  }

  // Stepping by one less than a row moves one column to the left on the next row.
  lemma ShortStride(n: nat, k: nat, q: nat, h: nat)
    requires k < n && q < n
    ensures n + k + q * (2 * n - 1) + h * (2 * n * n) == (n + k - q) + q * (2 * n) + h * (n * (2 * n))
  {
    assert q * (2 * n - 1) == q * (2 * n) - q;
    assert 2 * n * n == n * (2 * n);
  }

  // After the shift the entry of key k and query q is the score of query q for the relative
  // position with index n - 1 + k - q, whatever the padding was; and it is read from inside
  // the buffer.
  lemma ShiftAligns(scores: Tensor, n: nat, z: real, k: nat, q: nat, h: nat)
    requires Contiguous(scores) && scores.n0 == 2 * n - 1 && scores.n1 == n && scores.n2 > 0 && scores.n3 == 1
    requires k < n && q < n && h < scores.n2
    ensures Get(Shifted(scores, n, z), k, q, h, 0) == Get(scores, n - 1 + k - q, q, h, 0)
    ensures Addr(FirstView(scores, n, z), k, q, h, 0) < |FirstView(scores, n, z).buf|
  {
    hide Contiguous, Fill, PadExt, RollOne;
    var first, rotated := FirstView(scores, n, z), Rotated(scores, z);
    FinalAccepted(first, n);
    var view := View(first, n, n, first.n2, first.n3, first.s1, first.s2, first.s3, 0);
    FillGet(view.n0, view.n1, view.n2, view.n3, (i0: nat, i1: nat, i2: nat, i3: nat) => Get(view, i0, i1, i2, i3), k,
        q, h, 0);
    assert Get(Shifted(scores, n, z), k, q, h, 0) == Get(view, k, q, h, 0) by {
      assert Shifted(scores, n, z) == Cont(view);
    }
    FirstGet(scores, n, z, k, q, h);
    RotatedGet(scores, z, n + k - q, q, h);
  }

  lemma FirstGet(scores: Tensor, n: nat, z: real, k: nat, q: nat, h: nat)
    requires Contiguous(scores) && scores.n0 == 2 * n - 1 && scores.n1 == n && scores.n2 > 0 && scores.n3 == 1
    requires k < n && q < n && h < scores.n2
    ensures Get(FirstView(scores, n, z), k, q, h, 0) == Get(Rotated(scores, z), n + k - q, q, h, 0)
    ensures Addr(FirstView(scores, n, z), k, q, h, 0) < |FirstView(scores, n, z).buf|
  {
    var rotated := Rotated(scores, z);
    ShortStride(n, k, q, h);
    assert Addr(FirstView(scores, n, z), k, q, h, 0) == Addr(rotated, n + k - q, q, h, 0);
    ContiguousInBounds(rotated);
    assert InRange(rotated, n + k - q, q, h, 0);
  }

  // The larger view it is taken from stays inside the buffer for a single frame only: for more,
  // its last row lies beyond the end. Only the first n rows of it are ever read.
  lemma FirstViewInBounds(scores: Tensor, n: nat, z: real)
    requires Contiguous(scores) && scores.n0 == 2 * n - 1 && scores.n1 == n && scores.n2 > 0 && scores.n3 == 1 && n > 0
    ensures InBounds(FirstView(scores, n, z)) <==> n == 1
  {
    var first := FirstView(scores, n, z);
    if n == 1 {
      forall i0: nat, i1: nat, i2: nat, i3: nat | InRange(first, i0, i1, i2, i3)
        ensures Addr(first, i0, i1, i2, i3) < |first.buf|
      {
        assert Addr(first, i0, i1, i2, i3) == 1 + i2 * 2;
      }
    } else {
      LastRowOverruns(scores, n, z);
      assert InRange(first, n - 1, 2 * n - 2, scores.n2 - 1, 0);
    }
  }

  lemma LastRowOverruns(scores: Tensor, n: nat, z: real)
    requires Contiguous(scores) && scores.n0 == 2 * n - 1 && scores.n1 == n && scores.n2 > 0 && scores.n3 == 1 && n >= 2
    ensures Addr(FirstView(scores, n, z), n - 1, 2 * n - 2, scores.n2 - 1, 0) >= |FirstView(scores, n, z).buf|
  {
    var m := 2 * n * n;
    assert scores.n2 * m == (scores.n2 - 1) * m + m;
    LastRow(n);
  }

  lemma LastRow(n: nat)
    requires n >= 2
    ensures n + (n - 1) + (2 * n - 2) * (2 * n - 1) >= 2 * n * n
  {
    assert (2 * n - 2) * (2 * n - 1) + (2 * n - 1) == (2 * n - 1) * (2 * n - 1);
    assert (2 * n - 1) * (2 * n - 1) == 4 * (n * n) - 4 * n + 1;
    assert n * n >= 2 * n;
  }
}
