/**
 Tensors as the compute library lays them out: a flat buffer read through four extents, four
 strides and an offset. Views and reshapes share the buffer; the other operations build a new
 contiguous one.
 */
module Tensors {
  import opened Arithmetic

  datatype Tensor = Tensor(buf: seq<real>, n0: nat, n1: nat, n2: nat, n3: nat, s0: nat, s1: nat, s2: nat, s3: nat,
                           off: nat)

  function Addr(t: Tensor, i0: nat, i1: nat, i2: nat, i3: nat): nat {
    t.off + i0 * t.s0 + i1 * t.s1 + i2 * t.s2 + i3 * t.s3
  }

  predicate InRange(t: Tensor, i0: nat, i1: nat, i2: nat, i3: nat) {
    i0 < t.n0 && i1 < t.n1 && i2 < t.n2 && i3 < t.n3
  }

  // Every element of the tensor is inside its buffer.
  ghost predicate InBounds(t: Tensor) {
    forall i0: nat, i1: nat, i2: nat, i3: nat {:trigger Addr(t, i0, i1, i2, i3)} ::
      InRange(t, i0, i1, i2, i3) ==> Addr(t, i0, i1, i2, i3) < |t.buf|
  }

  function Cell(buf: seq<real>, i: nat): real {
    if i < |buf| then buf[i] else 0.0
  }

  // The element, read through the strides.
  function Get(t: Tensor, i0: nat, i1: nat, i2: nat, i3: nat): real {
    Cell(t.buf, Addr(t, i0, i1, i2, i3))
  }

  predicate Contiguous(t: Tensor) {
    t.s0 == 1 && t.s1 == t.n0 && t.s2 == t.n1 * t.n0 && t.s3 == t.n2 * (t.n1 * t.n0) && t.off == 0
    && |t.buf| == t.n3 * (t.n2 * (t.n1 * t.n0))
  }

  /* ---- flat indices ---- */

  // The flat index of an element of a contiguous tensor.
  function Flat(n0: nat, n1: nat, n2: nat, i0: nat, i1: nat, i2: nat, i3: nat): nat {
    ((i3 * n2 + i2) * n1 + i1) * n0 + i0
  }

  lemma FlatDecodes(n0: nat, n1: nat, n2: nat, i0: nat, i1: nat, i2: nat, i3: nat)
    requires i0 < n0 && i1 < n1 && i2 < n2
    ensures var x := Flat(n0, n1, n2, i0, i1, i2, i3);
            x % n0 == i0 && x / n0 % n1 == i1 && x / n0 / n1 % n2 == i2 && x / n0 / n1 / n2 == i3
  {
    DivModUnique(Flat(n0, n1, n2, i0, i1, i2, i3), (i3 * n2 + i2) * n1 + i1, i0, n0);
    DivModUnique((i3 * n2 + i2) * n1 + i1, i3 * n2 + i2, i1, n1);
    DivModUnique(i3 * n2 + i2, i3, i2, n2);
  }

  lemma Distribute(a: nat, b: nat, c: nat, n: nat)
    ensures (a * b + c) * n == a * (b * n) + c * n
  {
    assert (a * b + c) * n == a * b * n + c * n;
    assert a * b * n == a * (b * n);
  }

  // The address of an element of a contiguous tensor is its flat index.
  lemma ContiguousAddr(t: Tensor, i0: nat, i1: nat, i2: nat, i3: nat)
    requires Contiguous(t)
    ensures Addr(t, i0, i1, i2, i3) == Flat(t.n0, t.n1, t.n2, i0, i1, i2, i3)
  {
    Distribute(i3 * t.n2 + i2, t.n1, i1, t.n0);
    Distribute(i3, t.n2, i2, t.n1 * t.n0);
  }

  lemma FlatInBuffer(n0: nat, n1: nat, n2: nat, n3: nat, i0: nat, i1: nat, i2: nat, i3: nat)
    requires i0 < n0 && i1 < n1 && i2 < n2 && i3 < n3
    ensures Flat(n0, n1, n2, i0, i1, i2, i3) < n3 * (n2 * (n1 * n0))
  {
    var j, k := i3 * n2 + i2, (i3 * n2 + i2) * n1 + i1;
    ProductGap(i3, n3, n2);
    assert j < n3 * n2;
    ProductGap(j, n3 * n2, n1);
    assert k < n3 * n2 * n1;
    ProductGap(k, n3 * n2 * n1, n0);
    assert n3 * n2 * n1 * n0 == n3 * (n2 * (n1 * n0));
  }

  lemma ContiguousInBounds(t: Tensor)
    requires Contiguous(t)
    ensures InBounds(t)
  {
    forall i0: nat, i1: nat, i2: nat, i3: nat | InRange(t, i0, i1, i2, i3)
      ensures Addr(t, i0, i1, i2, i3) < |t.buf|
    {
      ContiguousAddr(t, i0, i1, i2, i3);
      FlatInBuffer(t.n0, t.n1, t.n2, t.n3, i0, i1, i2, i3);
    }
  }

  /* ---- operations ---- */

  // A new contiguous tensor with the given elements.
  function Fill(n0: nat, n1: nat, n2: nat, n3: nat, f: (nat, nat, nat, nat) -> real): (r: Tensor)
    ensures Contiguous(r) && r.n0 == n0 && r.n1 == n1 && r.n2 == n2 && r.n3 == n3
  {
    Tensor(seq(n3 * (n2 * (n1 * n0)), x requires 0 <= x => Element(n0, n1, n2, f, x)),
           n0, n1, n2, n3, 1, n0, n1 * n0, n2 * (n1 * n0), 0)
  }

  function Quotient(x: nat, n: nat): (r: nat)
    requires n > 0
  {
    x / n
  }

  function Element(n0: nat, n1: nat, n2: nat, f: (nat, nat, nat, nat) -> real, x: nat): real {
    if n0 == 0 || n1 == 0 || n2 == 0 then 0.0
    else
      var y := Quotient(x, n0);
      var z := Quotient(y, n1);
      f(x % n0, y % n1, z % n2, Quotient(z, n2))
  }

  lemma FillGet(n0: nat, n1: nat, n2: nat, n3: nat, f: (nat, nat, nat, nat) -> real, i0: nat, i1: nat, i2: nat, i3: nat)
    requires i0 < n0 && i1 < n1 && i2 < n2 && i3 < n3
    ensures Get(Fill(n0, n1, n2, n3, f), i0, i1, i2, i3) == f(i0, i1, i2, i3)
  {
    var t := Fill(n0, n1, n2, n3, f);
    ContiguousAddr(t, i0, i1, i2, i3);
    FlatInBuffer(n0, n1, n2, n3, i0, i1, i2, i3);
    FlatDecodes(n0, n1, n2, i0, i1, i2, i3);
  }

  function Cont(t: Tensor): Tensor {
    Fill(t.n0, t.n1, t.n2, t.n3, (i0: nat, i1: nat, i2: nat, i3: nat) => Get(t, i0, i1, i2, i3))
  }

  // Zeros (or another value) before and after, in the first two dimensions.
  function PadExt(t: Tensor, l0: nat, r0: nat, l1: nat, r1: nat, z: real): Tensor {
    Fill(t.n0 + l0 + r0, t.n1 + l1 + r1, t.n2, t.n3,
        (i0: nat, i1: nat, i2: nat, i3: nat) => Padded(t, l0, l1, z, i0, i1, i2, i3))
  }

  function Padded(t: Tensor, l0: nat, l1: nat, z: real, i0: nat, i1: nat, i2: nat, i3: nat): real {
    if l0 <= i0 < l0 + t.n0 && l1 <= i1 < l1 + t.n1 then Get(t, i0 - l0, i1 - l1, i2, i3) else z
  }

  // A shift by one along the first dimension, wrapping around.
  function RollOne(t: Tensor): Tensor {
    Fill(t.n0, t.n1, t.n2, t.n3, (i0: nat, i1: nat, i2: nat, i3: nat) => Rolled(t, i0, i1, i2, i3))
  }

  function Rolled(t: Tensor, i0: nat, i1: nat, i2: nat, i3: nat): real {
    if i0 > 0 then Get(t, i0 - 1, i1, i2, i3) else if t.n0 > 0 then Get(t, t.n0 - 1, i1, i2, i3) else 0.0
  }

  function Dot(a: Tensor, b: Tensor, i: nat, j: nat, i2: nat, i3: nat, n: nat): real {
    if n == 0 then 0.0 else Dot(a, b, i, j, i2, i3, n - 1) + Get(a, n - 1, i, i2, i3) * Get(b, n - 1, j, i2, i3)
  }

  // Products of the rows of a with the rows of b.
  function MulMat(a: Tensor, b: Tensor): Tensor {
    Fill(a.n1, b.n1, b.n2, b.n3, (i: nat, j: nat, i2: nat, i3: nat) => Dot(a, b, i, j, i2, i3, a.n0))
  }

  function Transpose(t: Tensor): Tensor {
    Tensor(t.buf, t.n1, t.n0, t.n2, t.n3, t.s1, t.s0, t.s2, t.s3, t.off)
  }

  function AddT(a: Tensor, b: Tensor): Tensor {
    Fill(a.n0, a.n1, a.n2, a.n3,
        (i0: nat, i1: nat, i2: nat, i3: nat) => Get(a, i0, i1, i2, i3) + Get(b, i0, i1, i2, i3))
  }

  // Elementwise product with a matrix repeated over the outer dimensions.
  function MulBroadcast(a: Tensor, m: Tensor): Tensor {
    Fill(a.n0, a.n1, a.n2, a.n3, (i0: nat, i1: nat, i2: nat, i3: nat) => Get(a, i0, i1, i2, i3) * Get(m, i0, i1, 0, 0))
  }

  // The size check the library makes before it hands out a view.
  predicate Accepted(t: Tensor, n0: nat, n1: nat, n2: nat, n3: nat, offset: nat) {
    n3 * (n2 * (n1 * n0)) + offset <= |t.buf|
  }

  function View(t: Tensor, n0: nat, n1: nat, n2: nat, n3: nat, s1: nat, s2: nat, s3: nat, offset: nat): Tensor
    requires Accepted(t, n0, n1, n2, n3, offset)
  {
    Tensor(t.buf, n0, n1, n2, n3, t.s0, s1, s2, s3, t.off + offset)
  }

  // The same elements in order, other extents.
  function Reshape(t: Tensor, n0: nat, n1: nat, n2: nat, n3: nat): (r: Tensor)
    requires Contiguous(t) && n3 * (n2 * (n1 * n0)) == |t.buf|
    ensures Contiguous(r) && r.n0 == n0 && r.n1 == n1 && r.n2 == n2 && r.n3 == n3
  {
    Tensor(t.buf, n0, n1, n2, n3, 1, n0, n1 * n0, n2 * (n1 * n0), 0)
  }

  // Place i of chunk g.
  function Place(g: nat, chunk: nat, i: nat): nat {
    g * chunk + i
  }

  // Splitting or joining the second and third dimension.
  lemma RegroupGet(t: Tensor, r: Tensor, chunk: nat, groups: nat, i0: nat, q: nat, g: nat, h: nat)
    requires Contiguous(t) && Contiguous(r) && t.buf == r.buf && t.n0 == r.n0
    requires t.n1 == groups * chunk && r.n1 == chunk && r.n2 == groups && t.n2 == r.n3 && t.n3 == 1
    ensures Get(r, i0, q, g, h) == Get(t, i0, Place(g, chunk, q), h, 0)
  {
    ContiguousAddr(t, i0, g * chunk + q, h, 0);
    ContiguousAddr(r, i0, q, g, h);
    Distribute(h, groups, g, chunk);
    var row := (h * groups + g) * chunk + q;
    assert Flat(r.n0, r.n1, r.n2, i0, q, g, h) == row * t.n0 + i0;
    assert Flat(t.n0, t.n1, t.n2, i0, g * chunk + q, h, 0) == row * t.n0 + i0;
  }

  /* ---- sums ---- */

  function SumTo(f: nat -> real, n: nat): real {
    if n == 0 then 0.0 else SumTo(f, n - 1) + f(n - 1)
  }

  // A sum whose terms vanish outside [q, q + w) is the sum over that window.
  lemma {:induction false} SumWindow(f: nat -> real, g: nat -> real, q: nat, w: nat, n: nat)
    requires q + w <= n
    requires forall i: nat :: i < n ==> f(i) == if q <= i < q + w then g(i - q) else 0.0
    ensures SumTo(f, n) == SumTo(g, w)
  {
    if n > 0 {
      if n > q + w {
        SumWindow(f, g, q, w, n - 1);
      } else if w > 0 {
        SumWindow(f, g, q, w - 1, n - 1);
      } else {
        SumZero(f, n);
      }
    }
  }

  lemma {:induction false} SumZero(f: nat -> real, n: nat)
    requires forall i: nat :: i < n ==> f(i) == 0.0
    ensures SumTo(f, n) == 0.0
  {
    if n > 0 {
      SumZero(f, n - 1);
    }
  }

  lemma {:induction false} DotIsSum(a: Tensor, b: Tensor, i: nat, j: nat, i2: nat, i3: nat, n: nat, f: nat -> real)
    requires forall k: nat :: k < n ==> f(k) == Get(a, k, i, i2, i3) * Get(b, k, j, i2, i3)
    ensures Dot(a, b, i, j, i2, i3, n) == SumTo(f, n)
  {
    if n > 0 {
      DotIsSum(a, b, i, j, i2, i3, n - 1, f);
    }
  }
}
