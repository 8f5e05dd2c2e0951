/**
 The recursive Fourier transform of both spectrogram front ends. It works in two flat buffers
 and keeps its intermediate results in their tails; the even and the odd half use the same
 scratch, one after the other. Arithmetic is exact, over `real`, and the cosine and sine
 tables are any tables that obey the addition theorem.
 */
module Fft {
  import opened Arithmetic

  /* ---- complex numbers ---- */

  datatype Cx = Cx(re: real, im: real)

  const ZERO := Cx(0.0, 0.0)

  function Add(a: Cx, b: Cx): Cx { Cx(a.re + b.re, a.im + b.im) }

  function Neg(a: Cx): Cx { Cx(-a.re, -a.im) }

  function Mul(a: Cx, b: Cx): Cx { Cx(a.re * b.re - a.im * b.im, a.re * b.im + a.im * b.re) }

  function Scale(x: real, a: Cx): Cx { Cx(x * a.re, x * a.im) }

  lemma MulAdd(w: Cx, a: Cx, b: Cx)
    ensures Mul(w, Add(a, b)) == Add(Mul(w, a), Mul(w, b))
  {
    assert w.re * (a.re + b.re) == w.re * a.re + w.re * b.re;
    assert w.im * (a.im + b.im) == w.im * a.im + w.im * b.im;
    assert w.re * (a.im + b.im) == w.re * a.im + w.re * b.im;
    assert w.im * (a.re + b.re) == w.im * a.re + w.im * b.re;
  }

  lemma MulScale(w: Cx, x: real, a: Cx)
    ensures Mul(w, Scale(x, a)) == Scale(x, Mul(a, w))
  {
    Commute3(w.re, x, a.re);
    Commute3(w.im, x, a.im);
    Commute3(w.re, x, a.im);
    Commute3(w.im, x, a.re);
    assert x * (a.re * w.re - a.im * w.im) == x * (a.re * w.re) - x * (a.im * w.im);
    assert x * (a.re * w.im + a.im * w.re) == x * (a.re * w.im) + x * (a.im * w.re);
  }

  lemma Commute3(a: real, x: real, b: real)
    ensures a * (x * b) == x * (b * a)
  {
  }

  /* ---- the tables ---- */

  // cos and sin at the multiples of a full turn over t.
  datatype Table = Table(cosVals: seq<real>, sinVals: seq<real>)

  ghost predicate Sums(tab: Table, a: nat, b: nat)
    requires |tab.cosVals| == |tab.sinVals| > 0 && a < |tab.cosVals| && b < |tab.cosVals|
  {
    var s := (a + b) % |tab.cosVals|;
    && tab.cosVals[s] == tab.cosVals[a] * tab.cosVals[b] - tab.sinVals[a] * tab.sinVals[b]
    && tab.sinVals[s] == tab.sinVals[a] * tab.cosVals[b] + tab.cosVals[a] * tab.sinVals[b]
  }

  // What makes the tables the sine and the cosine: the addition theorem, a start and a half turn.
  ghost predicate Trigonometric(tab: Table) {
    var t := |tab.cosVals|;
    && |tab.sinVals| == t > 0
    && tab.cosVals[0] == 1.0 && tab.sinVals[0] == 0.0
    && (t % 2 == 0 ==> tab.cosVals[t / 2] == -1.0 && tab.sinVals[t / 2] == 0.0)
    && forall a, b :: 0 <= a < t && 0 <= b < t ==> Sums(tab, a, b)
  }

  // The root of unity with index i.
  ghost function Root(tab: Table, i: nat): Cx
    requires Trigonometric(tab)
  {
    var j := i % |tab.cosVals|;
    Cx(tab.cosVals[j], -tab.sinVals[j])
  }

  lemma RootSum(tab: Table, a: nat, b: nat)
    requires Trigonometric(tab)
    ensures Root(tab, a + b) == Mul(Root(tab, a), Root(tab, b))
  {
    var t := |tab.cosVals|;
    var i, j := a % t, b % t;
    assert Sums(tab, i, j);
    ModSum(a, b, t);
    var c, s, c', s' := tab.cosVals[i], tab.sinVals[i], tab.cosVals[j], tab.sinVals[j];
    assert -s * -s' == s * s';
    assert c * -s' + -s * c' == -(s * c' + c * s');
  }

  lemma ModSum(a: nat, b: nat, t: nat)
    requires t > 0
    ensures (a % t + b % t) % t == (a + b) % t
  {
    var qa, qb := a / t, b / t;
    assert a == qa * t + a % t && b == qb * t + b % t;
    assert a + b == (qa + qb) * t + (a % t + b % t);
    ModShift(a % t + b % t, qa + qb, t);
  }

  lemma ModShift(x: nat, q: nat, t: nat)
    requires t > 0
    ensures (q * t + x) % t == x % t
  {
    var d, r := x / t, x % t;
    assert x == d * t + r;
    assert q * t + x == (q + d) * t + r;
    DivModUnique(q * t + x, q + d, r, t);
  }

  // A whole number of turns changes nothing.
  lemma RootPeriod(tab: Table, i: nat, q: nat)
    requires Trigonometric(tab)
    ensures Root(tab, q * |tab.cosVals| + i) == Root(tab, i)
  {
    ModShift(i, q, |tab.cosVals|);
  }

  /* ---- the discrete Fourier transform ---- */

  // The first m terms of coefficient k, for a transform whose root is `step` table entries.
  ghost function Sum(tab: Table, x: seq<real>, m: nat, k: nat, step: nat): Cx
    requires Trigonometric(tab) && m <= |x|
  {
    if m == 0 then ZERO
    else Add(Sum(tab, x, m - 1, k, step), Scale(x[m - 1], Root(tab, k * (m - 1) * step)))
  }

  // Coefficient k of the transform of x.
  ghost function Dft(tab: Table, x: seq<real>, k: nat, step: nat): Cx
    requires Trigonometric(tab)
  {
    Sum(tab, x, |x|, k, step)
  }

  function Evens(x: seq<real>): (r: seq<real>) {
    seq(|x| / 2, i requires 0 <= i < |x| / 2 => x[2 * i])
  }

  function Odds(x: seq<real>): (r: seq<real>) {
    seq(|x| / 2, i requires 0 <= i < |x| / 2 => x[2 * i + 1])
  }

  lemma Regroup(a: Cx, b: Cx, c: Cx, d: Cx)
    ensures Add(Add(Add(a, b), c), d) == Add(Add(a, c), Add(b, d))
  {
  }

  lemma EvenIndex(k: nat, m: nat, step: nat)
    ensures k * (2 * m) * step == k * m * (2 * step)
  {
    assert k * (2 * m) == 2 * (k * m);
    assert 2 * (k * m) * step == (k * m) * (2 * step);
  }

  lemma OddIndex(k: nat, m: nat, step: nat)
    ensures k * (2 * m + 1) * step == k * m * (2 * step) + k * step
  {
    assert k * (2 * m + 1) == k * (2 * m) + k;
    assert (k * (2 * m) + k) * step == k * (2 * m) * step + k * step;
    EvenIndex(k, m, step);
  }

  // Decimation in time: 2m terms are m even terms, and m odd terms times a twiddle factor.
  lemma {:induction false} SumSplits(tab: Table, x: seq<real>, m: nat, k: nat, step: nat)
    requires Trigonometric(tab) && 2 * m <= |x|
    ensures Sum(tab, x, 2 * m, k, step) ==
            Add(Sum(tab, Evens(x), m, k, 2 * step), Mul(Root(tab, k * step), Sum(tab, Odds(x), m, k, 2 * step)))
  {
    hide Root, Trigonometric, Mul, Scale;
    var w := Root(tab, k * step);
    if m == 0 {
      MulZero(w);
    } else {
      var n := m - 1;
      SumSplits(tab, x, n, k, step);
      EvenIndex(k, n, step);
      OddIndex(k, n, step);
      var r := Root(tab, k * n * (2 * step));
      RootSum(tab, k * n * (2 * step), k * step);
      var e, o := Sum(tab, Evens(x), n, k, 2 * step), Sum(tab, Odds(x), n, k, 2 * step);
      var te, to := Scale(x[2 * n], r), Scale(x[2 * n + 1], r);
      MulScale(w, x[2 * n + 1], r);
      MulAdd(w, o, to);
      Regroup(e, Mul(w, o), te, Mul(w, to));
      assert Sum(tab, x, 2 * m - 1, k, step) == Add(Sum(tab, x, 2 * n, k, step), te);
    }
  }

  lemma MulZero(w: Cx)
    ensures Mul(w, ZERO) == ZERO
  {
  }

  // Coefficients k and k + h of a transform of length h are the same.
  lemma {:induction false} SumPeriod(tab: Table, x: seq<real>, m: nat, k: nat, h: nat, step: nat)
    requires Trigonometric(tab) && m <= |x| && h * step == |tab.cosVals|
    ensures Sum(tab, x, m, k + h, step) == Sum(tab, x, m, k, step)
  {
    hide Root, Trigonometric, Mul, Scale, Add;
    if m > 0 {
      var n := m - 1;
      SumPeriod(tab, x, n, k, h, step);
      PeriodIndex(k, h, n, step);
      RootPeriod(tab, k * n * step, n);
    }
  }

  lemma PeriodIndex(k: nat, h: nat, n: nat, step: nat)
    ensures (k + h) * n * step == n * (h * step) + k * n * step
  {
    assert (k + h) * n == k * n + h * n;
    assert (k * n + h * n) * step == k * n * step + h * n * step;
    assert h * n * step == n * (h * step);
  }

  lemma HalfTurn(tab: Table)
    requires Trigonometric(tab) && |tab.cosVals| % 2 == 0
    ensures Root(tab, |tab.cosVals| / 2) == Cx(-1.0, 0.0)
  {
    RootInTable(tab, |tab.cosVals| / 2);
  }

  lemma MulMinusOne(w: Cx)
    ensures Mul(w, Cx(-1.0, 0.0)) == Neg(w)
  {
  }

  lemma HalfIndex(k: nat, h: nat, step: nat, t: nat)
    requires 2 * h * step == t
    ensures (k + h) * step == k * step + t / 2 && t % 2 == 0
  {
    assert 2 * h * step == 2 * (h * step);
    assert (k + h) * step == k * step + h * step;
  }

  // Half a turn further the twiddle factor changes sign.
  lemma RootHalf(tab: Table, k: nat, h: nat, step: nat)
    requires Trigonometric(tab) && 2 * h * step == |tab.cosVals|
    ensures Root(tab, (k + h) * step) == Neg(Root(tab, k * step))
  {
    hide Root, Trigonometric, Mul;
    var t := |tab.cosVals|;
    HalfIndex(k, h, step, t);
    RootSum(tab, k * step, t / 2);
    HalfTurn(tab);
    MulMinusOne(Root(tab, k * step));
  }

  lemma MulNeg(w: Cx, a: Cx)
    ensures Mul(Neg(w), a) == Neg(Mul(w, a))
  {
    assert -w.re * a.re == -(w.re * a.re) && -w.im * a.im == -(w.im * a.im);
    assert -w.re * a.im == -(w.re * a.im) && -w.im * a.re == -(w.im * a.re);
  }

  // The butterfly: both halves of the spectrum from the spectra of the even and odd samples.
  lemma Butterfly(tab: Table, x: seq<real>, h: nat, k: nat, step: nat)
    requires Trigonometric(tab) && |x| == 2 * h && 2 * h * step == |tab.cosVals|
    ensures var e, o := Dft(tab, Evens(x), k, 2 * step), Dft(tab, Odds(x), k, 2 * step);
            var w := Root(tab, k * step);
            && Dft(tab, x, k, step) == Add(e, Mul(w, o))
            && Dft(tab, x, k + h, step) == Add(e, Neg(Mul(w, o)))
  {
    hide Root, Trigonometric, Mul, Sum, Add;
    SumSplits(tab, x, h, k, step);
    SumSplits(tab, x, h, k + h, step);
    assert h * (2 * step) == 2 * h * step;
    SumPeriod(tab, Evens(x), h, k, h, 2 * step);
    SumPeriod(tab, Odds(x), h, k, h, 2 * step);
    RootHalf(tab, k, h, step);
    MulNeg(Root(tab, k * step), Sum(tab, Odds(x), h, k, 2 * step));
  }

  /* ---- the code ---- */

  // The complex number stored at out[q + 2k], out[q + 2k + 1].
  ghost function Stored(out: seq<real>, q: nat, k: nat): Cx
    requires q + 2 * k + 1 < |out|
  {
    Cx(out[q + 2 * k], out[q + 2 * k + 1])
  }

  // out holds the whole transform of x from q on.
  ghost predicate Holds(tab: Table, out: seq<real>, q: nat, x: seq<real>, step: nat)
    requires Trigonometric(tab) && q + 2 * |x| <= |out|
  {
    forall k :: 0 <= k < |x| ==> Stored(out, q, k) == Dft(tab, x, k, step)
  }

  // The naive transform of the n samples from p on.
  method DftInto(tab: Table, inp: array<real>, p: nat, n: nat, out: array<real>, q: nat)
    requires Trigonometric(tab) && inp != out && n >= 1 && p + n <= inp.Length && q + 2 * n <= out.Length
    modifies out
    ensures Holds(tab, out[..], q, inp[p..p + n], |tab.cosVals| / n)
    ensures forall i :: 0 <= i < out.Length && !(q <= i < q + 2 * n) ==> out[i] == old(out[i])
  {
    hide Trigonometric, Sum;
    ghost var x := inp[p..p + n];
    var t := |tab.cosVals|;
    TableSize(tab);
    var step := t / n;
    for k := 0 to n
      invariant forall j :: 0 <= j < k ==> Stored(out[..], q, j) == Dft(tab, x, j, step)
      invariant forall i :: 0 <= i < out.Length && !(q <= i < q + 2 * n) ==> out[i] == old(out[i])
    {
      var c := Coefficient(tab, inp, p, n, k, step);
      out[q + k * 2 + 0] := c.re;
      out[q + k * 2 + 1] := c.im;
    }
  }

  lemma TableSize(tab: Table)
    requires Trigonometric(tab)
    ensures |tab.cosVals| == |tab.sinVals| > 0
  {
  }

  // One coefficient of the naive transform.
  method Coefficient(tab: Table, inp: array<real>, p: nat, n: nat, k: nat, step: nat) returns (c: Cx)
    requires Trigonometric(tab) && n >= 1 && p + n <= inp.Length
    ensures c == Dft(tab, inp[p..p + n], k, step)
  {
    var re, im := 0.0, 0.0;
    ghost var x := inp[p..p + n];
    for i := 0 to n
      invariant Cx(re, im) == Sum(tab, x, i, k, step)
    {
      var idx := (k * i * step) % |tab.cosVals|;
      re := re + inp[p + i] * tab.cosVals[idx];
      im := im - inp[p + i] * tab.sinVals[idx];
    }
    c := Cx(re, im);
  }

  // How many table entries one step of a transform of length n is.
  ghost predicate Divides(n: nat, step: nat, tab: Table) {
    n >= 1 && n * step == |tab.cosVals|
  }

  lemma StepOf(n: nat, step: nat, t: nat)
    requires n >= 1 && n * step == t
    ensures t / n == step
  {
    var d, r := t / n, t % n;
    assert t == d * n + r;
    ProductGap(d, step, n);
    ProductGap(step, d, n);
  }

  // Copies every other sample from p + from on to the scratch after the samples.
  method Gather(inp: array<real>, p: nat, n: nat, from: nat)
    requires n % 2 == 0 && from < 2 && p + n + n / 2 <= inp.Length
    modifies inp
    ensures inp[p + n..p + n + n / 2] == if from == 0 then Evens(old(inp[p..p + n])) else Odds(old(inp[p..p + n]))
    ensures forall i :: 0 <= i < inp.Length && !(p + n <= i < p + n + n / 2) ==> inp[i] == old(inp[i])
  {
    ghost var x := inp[p..p + n];
    for i := 0 to n / 2
      invariant forall j :: 0 <= j < i ==> inp[p + n + j] == x[2 * j + from]
      invariant forall j :: 0 <= j < inp.Length && !(p + n <= j < p + n + i) ==> inp[j] == old(inp[j])
    {
      assert inp[p + 2 * i + from] == x[2 * i + from];
      inp[p + n + i] := inp[p + 2 * i + from];
    }
    if from == 0 {
      assert inp[p + n..p + n + n / 2] == Evens(x);
    } else {
      assert inp[p + n..p + n + n / 2] == Odds(x);
    }
  }

  // Transforms the n samples from p on. Everything else in the input buffer is kept except the
  // n cells after the samples; everything in the output buffer except 6n cells from q on.
  method Fft(tab: Table, inp: array<real>, p: nat, n: nat, out: array<real>, q: nat, ghost step: nat)
    requires Trigonometric(tab) && inp != out && Divides(n, step, tab)
    requires p + 2 * n <= inp.Length && q + 6 * n <= out.Length
    modifies inp, out
    ensures Holds(tab, out[..], q, old(inp[p..p + n]), step)
    ensures forall i :: 0 <= i < inp.Length && !(p + n <= i < p + 2 * n) ==> inp[i] == old(inp[i])
    ensures forall i :: 0 <= i < out.Length && !(q <= i < q + 6 * n) ==> out[i] == old(out[i])
    decreases n
  {
    hide Trigonometric, Dft, Root, Holds;
    TableSize(tab);
    StepOf(n, step, |tab.cosVals|);
    ghost var x := inp[p..p + n];
    if n == 1 {
      out[q] := inp[p];
      out[q + 1] := 0.0;
      Single(tab, out[..], q, x, step);
      return;
    }
    var halfN := n / 2;
    if n - halfN * 2 == 1 {
      DftInto(tab, inp, p, n, out, q);
      return;
    }
    HalfStep(n, halfN, step, |tab.cosVals|);
    var evenFft := q + 2 * n;
    Gather(inp, p, n, 0);
    Fft(tab, inp, p + n, halfN, out, evenFft, 2 * step);
    ghost var afterEven := out[..];
    assert inp[p..p + n] == x;
    Gather(inp, p, n, 1);
    var oddFft := evenFft + n;
    Fft(tab, inp, p + n, halfN, out, oddFft, 2 * step);
    HoldsKept(tab, afterEven, out[..], evenFft, Evens(x), 2 * step);
    Combine(tab, out, q, n, step, x);
  }

  lemma HalfStep(n: nat, h: nat, step: nat, t: nat)
    requires n == 2 * h && n * step == t
    ensures h * (2 * step) == t
  {
  }

  lemma Single(tab: Table, out: seq<real>, q: nat, x: seq<real>, step: nat)
    requires Trigonometric(tab) && |x| == 1 && q + 2 <= |out| && out[q] == x[0] && out[q + 1] == 0.0
    ensures Holds(tab, out, q, x, step)
  {
    assert Sum(tab, x, 0, 0, step) == ZERO;
    assert 0 * (1 - 1) * step == 0;
    assert Root(tab, 0) == Cx(1.0, 0.0);
  }

  lemma HoldsKept(tab: Table, a: seq<real>, b: seq<real>, q: nat, x: seq<real>, step: nat)
    requires Trigonometric(tab) && q + 2 * |x| <= |a| == |b| && Holds(tab, a, q, x, step)
    requires forall i :: q <= i < q + 2 * |x| ==> a[i] == b[i]
    ensures Holds(tab, b, q, x, step)
  {
    hide Dft, Trigonometric;
    forall k | 0 <= k < |x| ensures Stored(b, q, k) == Dft(tab, x, k, step) {
      assert Stored(a, q, k) == Stored(b, q, k);
    }
  }

  // Only the complex cells j and k from q on differ.
  ghost predicate OnlyPair(a: seq<real>, b: seq<real>, q: nat, j: nat, k: nat) {
    && |a| == |b|
    && forall i :: 0 <= i < |a| && !(q + 2 * j <= i < q + 2 * j + 2) && !(q + 2 * k <= i < q + 2 * k + 2) ==>
         b[i] == a[i]
  }

  lemma PairKeeps(a: seq<real>, b: seq<real>, q: nat, j: nat, k: nat, p: nat, i: nat)
    requires OnlyPair(a, b, q, j, k) && p + 2 * i + 1 < |a|
    requires p == q ==> i != j && i != k
    requires p != q ==> p >= q + 2 * j + 2 && p >= q + 2 * k + 2
    ensures Stored(a, p, i) == Stored(b, p, i)
  {
  }

  lemma CrossValues(e: Cx, o: Cx, re: real, im: real)
    ensures Add(e, Mul(Cx(re, im), o)) == Cx(e.re + re * o.re - im * o.im, e.im + re * o.im + im * o.re)
    ensures Add(e, Neg(Mul(Cx(re, im), o))) == Cx(e.re - re * o.re + im * o.im, e.im - re * o.im - im * o.re)
  {
  }

  // One butterfly: coefficients k and k + n/2 from the k-th ones in the scratch.
  method Cross(out: array<real>, q: nat, n: nat, k: nat, re: real, im: real)
    requires n % 2 == 0 && k < n / 2 && q + 4 * n <= out.Length
    modifies out
    ensures var e, o := Stored(old(out[..]), q + 2 * n, k), Stored(old(out[..]), q + 3 * n, k);
            && Stored(out[..], q, k) == Add(e, Mul(Cx(re, im), o))
            && Stored(out[..], q, k + n / 2) == Add(e, Neg(Mul(Cx(re, im), o)))
    ensures OnlyPair(old(out[..]), out[..], q, k, k + n / 2)
  {
    hide Mul, Add, Neg;
    var halfN, evenFft, oddFft := n / 2, q + 2 * n, q + 3 * n;
    CrossValues(Stored(out[..], evenFft, k), Stored(out[..], oddFft, k), re, im);
    var reOdd, imOdd := out[oddFft + 2 * k + 0], out[oddFft + 2 * k + 1];

    out[q + 2 * k + 0] := out[evenFft + 2 * k + 0] + re * reOdd - im * imOdd;
    out[q + 2 * k + 1] := out[evenFft + 2 * k + 1] + re * imOdd + im * reOdd;

    out[q + 2 * (k + halfN) + 0] := out[evenFft + 2 * k + 0] - re * reOdd + im * imOdd;
    out[q + 2 * (k + halfN) + 1] := out[evenFft + 2 * k + 1] - re * imOdd - im * reOdd;
  }

  // Coefficients k and k + n/2, when the k-th coefficients of the halves are in the scratch.
  method CombineAt(tab: Table, out: array<real>, q: nat, n: nat, k: nat, ghost step: nat, ghost x: seq<real>)
    requires Trigonometric(tab) && Divides(n, step, tab) && n % 2 == 0 && |x| == n && k < n / 2
             && q + 4 * n <= out.Length
    requires Stored(out[..], q + 2 * n, k) == Dft(tab, Evens(x), k, 2 * step)
    requires Stored(out[..], q + 3 * n, k) == Dft(tab, Odds(x), k, 2 * step)
    modifies out
    ensures Stored(out[..], q, k) == Dft(tab, x, k, step)
            && Stored(out[..], q, k + n / 2) == Dft(tab, x, k + n / 2, step)
    ensures OnlyPair(old(out[..]), out[..], q, k, k + n / 2)
  {
    hide Trigonometric, Dft, Root, Mul, Add, Neg, Stored;
    TableSize(tab);
    StepOf(n, step, |tab.cosVals|);
    Twiddle(tab, k, n / 2, step);
    Butterfly(tab, x, n / 2, k, step);
    var sinCosStep := |tab.cosVals| / n;
    var idx := k * sinCosStep;
    ghost var was := out[..];
    ghost var e, o, w := Stored(was, q + 2 * n, k), Stored(was, q + 3 * n, k), Root(tab, k * step);
    assert e == Dft(tab, Evens(x), k, 2 * step) && o == Dft(tab, Odds(x), k, 2 * step);
    Cross(out, q, n, k, tab.cosVals[idx], -tab.sinVals[idx]);
    assert Stored(out[..], q, k) == Add(e, Mul(w, o)) == Dft(tab, x, k, step);
    assert Stored(out[..], q, k + n / 2) == Add(e, Neg(Mul(w, o))) == Dft(tab, x, k + n / 2, step);
  }

  // The butterflies, from the two half transforms in the scratch.
  method Combine(tab: Table, out: array<real>, q: nat, n: nat, ghost step: nat, ghost x: seq<real>)
    requires Trigonometric(tab) && Divides(n, step, tab) && n % 2 == 0 && |x| == n && q + 4 * n <= out.Length
    requires Holds(tab, out[..], q + 2 * n, Evens(x), 2 * step)
    requires Holds(tab, out[..], q + 3 * n, Odds(x), 2 * step)
    modifies out
    ensures Holds(tab, out[..], q, x, step)
    ensures forall i :: 0 <= i < out.Length && !(q <= i < q + 2 * n) ==> out[i] == old(out[i])
  {
    hide Trigonometric, Dft;
    var h := n / 2;
    ghost var was := out[..];
    for k := 0 to h
      invariant forall i :: 0 <= i < out.Length && !(q <= i < q + 2 * n) ==> out[i] == was[i]
      invariant forall j :: 0 <= j < k ==> Stored(out[..], q, j) == Dft(tab, x, j, step)
      invariant forall j :: h <= j < h + k ==> Stored(out[..], q, j) == Dft(tab, x, j, step)
    {
      ghost var before := out[..];
      assert Stored(before, q + 2 * n, k) == Stored(was, q + 2 * n, k);
      assert Stored(before, q + 3 * n, k) == Stored(was, q + 3 * n, k);
      CombineAt(tab, out, q, n, k, step, x);
      ghost var after := out[..];
      forall j | 0 <= j < k || h <= j < h + k ensures Stored(after, q, j) == Dft(tab, x, j, step) {
        PairKeeps(before, after, q, k, k + h, q, j);
      }
    }
  }

  lemma RootInTable(tab: Table, i: nat)
    requires Trigonometric(tab) && i < |tab.cosVals|
    ensures i < |tab.sinVals| && Root(tab, i) == Cx(tab.cosVals[i], -tab.sinVals[i])
  {
    DivModUnique(i, 0, i, |tab.cosVals|);
  }

  // The table index of a twiddle factor needs no reduction.
  lemma Twiddle(tab: Table, k: nat, h: nat, step: nat)
    requires Trigonometric(tab) && k < h && Divides(2 * h, step, tab)
    ensures k * step < |tab.cosVals| == |tab.sinVals|
    ensures Root(tab, k * step) == Cx(tab.cosVals[k * step], -tab.sinVals[k * step])
  {
    hide Trigonometric, Root;
    TableSize(tab);
    ProductGap(k, 2 * h, step);
    assert step == 0 ==> 2 * h * step == 0;
    RootInTable(tab, k * step);
  }

  /* ---- one frame of the spectrogram ---- */

  // The squared modulus of the first half of the spectrum, written over it.
  method PowerInPlace(out: array<real>, nFft: nat)
    requires 2 * nFft <= out.Length
    modifies out
    ensures forall j :: 0 <= j < nFft ==> out[j] == Modulus2(Stored(old(out[..]), 0, j))
  {
    for j := 0 to nFft
      invariant forall i :: 0 <= i < j ==> out[i] == Modulus2(Stored(old(out[..]), 0, i))
      invariant forall i :: j <= i < out.Length ==> out[i] == old(out[i])
    {
      out[j] := out[2 * j + 0] * out[2 * j + 0] + out[2 * j + 1] * out[2 * j + 1];
    }
  }

  // A worker's buffers, of 2n and 8n cells, are large enough for the transform of a frame.
  method FrameSpectrum(tab: Table, frame: seq<real>, ghost step: nat) returns (fftOut: array<real>)
    requires Trigonometric(tab) && Divides(|frame|, step, tab)
    ensures fresh(fftOut) && fftOut.Length == 8 * |frame| && |frame| >= 1
    ensures Holds(tab, fftOut[..], 0, frame, step)
  {
    hide Trigonometric, Dft, Root, Holds;
    var n := |frame|;
    var fftIn := new real[n * 2](_ => 0.0);
    fftOut := new real[n * 2 * 2 * 2](_ => 0.0);
    for j := 0 to n
      invariant forall i :: 0 <= i < j ==> fftIn[i] == frame[i]
    {
      fftIn[j] := frame[j];
    }
    assert fftIn[0..0 + n] == frame;
    Fft(tab, fftIn, 0, n, fftOut, 0, step);
  }

  // The power spectrum of a frame, up to the middle frequency.
  method FramePower(tab: Table, frame: seq<real>, ghost step: nat) returns (power: seq<real>)
    requires Trigonometric(tab) && Divides(|frame|, step, tab) && |frame| > 1
    ensures |power| == 1 + |frame| / 2
    ensures forall j :: 0 <= j < |power| ==> power[j] == Modulus2(Dft(tab, frame, j, step))
  {
    hide Trigonometric, Dft, Root;
    var fftOut := FrameSpectrum(tab, frame, step);
    ghost var spectrum := fftOut[..];
    var nFft := 1 + |frame| / 2;
    PowerInPlace(fftOut, nFft);
    power := fftOut[..nFft];
    forall j | 0 <= j < |power| ensures power[j] == Modulus2(Dft(tab, frame, j, step)) {
      assert Stored(spectrum, 0, j) == Dft(tab, frame, j, step);
    }
  }

  function Modulus2(c: Cx): real {
    c.re * c.re + c.im * c.im
  }
}
