/**
 Dynamic time warping over a cost matrix and the trace back to the alignment: a staircase from
 the first to the last cell. The three-way choice does not treat ties alike, so the staircase
 is cheapest exactly under a condition on those ties.
 */
module Dtw {

  // A single precision number as far as it matters here: a finite one, or plus infinity.
  datatype Cost = Inf | Fin(v: real)

  predicate Less(a: Cost, b: Cost) {
    a.Fin? && (b.Inf? || a.v < b.v)
  }

  function Plus(x: real, c: Cost): Cost {
    if c.Inf? then Inf else Fin(x + c.v)
  }

  type Matrix = seq<seq<real>>

  predicate IsMatrix(x: Matrix, n: nat, m: nat) {
    |x| == n && forall i :: 0 <= i < n ==> |x[i]| == m
  }

  // The direction taken from (i, j): 0 both back, 1 to (i-1, j), 2 to (i, j-1).
  function Choose(c0: Cost, c1: Cost, c2: Cost): nat {
    if Less(c0, c1) && Less(c0, c2) then 0
    else if Less(c1, c0) && Less(c1, c2) then 1
    else 2
  }

  function Pick(c0: Cost, c1: Cost, c2: Cost): Cost {
    match Choose(c0, c1, c2)
    case 0 => c0
    case 1 => c1
    case _ => c2
  }

  // The accumulated cost of cell (i, j) of the table, whose row and column 0 are the border.
  function CostAt(x: Matrix, n: nat, m: nat, i: nat, j: nat): Cost
    requires IsMatrix(x, n, m) && i <= n && j <= m
    decreases i + j
  {
    if i == 0 && j == 0 then Fin(0.0)
    else if i == 0 || j == 0 then Inf
    else Plus(x[i - 1][j - 1],
        Pick(CostAt(x, n, m, i - 1, j - 1), CostAt(x, n, m, i - 1, j), CostAt(x, n, m, i, j - 1)))
  }

  function TraceAt(x: Matrix, n: nat, m: nat, i: nat, j: nat): nat
    requires IsMatrix(x, n, m) && i <= n && j <= m
  {
    if j == 0 then 1
    else if i == 0 then 2
    else Choose(CostAt(x, n, m, i - 1, j - 1), CostAt(x, n, m, i - 1, j), CostAt(x, n, m, i, j - 1))
  }

  // Inside the border every cost is finite.
  lemma {:induction false} InnerFinite(x: Matrix, n: nat, m: nat, i: nat, j: nat)
    requires IsMatrix(x, n, m) && i <= n && j <= m && i > 0 && j > 0
    ensures CostAt(x, n, m, i, j).Fin?
    decreases i + j
  {
    if i > 1 {
      InnerFinite(x, n, m, i - 1, j);
    }
    if j > 1 {
      InnerFinite(x, n, m, i, j - 1);
    }
  }

  // The trace leaves the inside only at (1, 1), and then straight to the corner.
  lemma TraceStaysInside(x: Matrix, n: nat, m: nat, i: nat, j: nat)
    requires IsMatrix(x, n, m) && 0 < i <= n && 0 < j <= m
    ensures TraceAt(x, n, m, i, j) == 0 ==> (i == 1 && j == 1) || (i > 1 && j > 1)
    ensures TraceAt(x, n, m, i, j) == 1 ==> i > 1
    ensures TraceAt(x, n, m, i, j) == 2 ==> j > 1
    ensures TraceAt(x, n, m, i, j) <= 2
  {
    if i > 1 {
      InnerFinite(x, n, m, i - 1, j);
    }
    if j > 1 {
      InnerFinite(x, n, m, i, j - 1);
    }
  }

  /* ---- staircases ---- */

  type Path = seq<(nat, nat)>

  predicate UnitStep(a: (nat, nat), b: (nat, nat)) {
    b == (a.0 + 1, a.1 + 1) || b == (a.0 + 1, a.1) || b == (a.0, a.1 + 1)
  }

  // A staircase from (0, 0) to (i, j) by unit steps.
  predicate Staircase(p: Path, i: nat, j: nat) {
    && p != [] && p[0] == (0, 0) && p[|p| - 1] == (i, j)
    && forall k :: 0 <= k < |p| - 1 ==> UnitStep(p[k], p[k + 1])
  }

  // Every cell of the path is a cell of the matrix.
  predicate Within(p: Path, n: nat, m: nat) {
    forall k :: 0 <= k < |p| ==> p[k].0 < n && p[k].1 < m
  }

  function Total(x: Matrix, n: nat, m: nat, p: Path): real
    requires IsMatrix(x, n, m) && Within(p, n, m)
  {
    if p == [] then 0.0
    else
      var last := p[|p| - 1];
      Total(x, n, m, p[..|p| - 1]) + x[last.0][last.1]
  }

  // The cell the trace leads to.
  function Prev(x: Matrix, n: nat, m: nat, i: nat, j: nat): (r: (nat, nat))
    requires IsMatrix(x, n, m) && 0 < i <= n && 0 < j <= m
    ensures (r.0 > 0 <==> r.1 > 0) && UnitStep(r, (i, j))
  {
    TraceStaysInside(x, n, m, i, j);
    var t := TraceAt(x, n, m, i, j);
    if t == 0 then (i - 1, j - 1) else if t == 1 then (i - 1, j) else (i, j - 1)
  }

  lemma PrevCost(x: Matrix, n: nat, m: nat, i: nat, j: nat)
    requires IsMatrix(x, n, m) && 0 < i <= n && 0 < j <= m
    ensures var p := Prev(x, n, m, i, j);
            CostAt(x, n, m, i, j) == Plus(x[i - 1][j - 1], CostAt(x, n, m, p.0, p.1))
  {
  }

  // The staircase read off the trace.
  function Back(x: Matrix, n: nat, m: nat, i: nat, j: nat): Path
    requires IsMatrix(x, n, m) && i <= n && j <= m && (i > 0 <==> j > 0)
    decreases i + j
  {
    if i == 0 then []
    else
      var p := Prev(x, n, m, i, j);
      Back(x, n, m, p.0, p.1) + [(i - 1, j - 1)]
  }

  // It is a staircase, short enough for the table of rows, and its cost is the accumulated one.
  lemma {:induction false} BackIsStaircase(x: Matrix, n: nat, m: nat, i: nat, j: nat)
    requires IsMatrix(x, n, m) && 0 < i <= n && 0 < j <= m
    ensures var p := Back(x, n, m, i, j);
            && Staircase(p, i - 1, j - 1) && |p| <= i + j - 1
            && Within(p, n, m)
            && CostAt(x, n, m, i, j) == Fin(Total(x, n, m, p))
    decreases i + j
  {
    hide CostAt, Prev, Back, Staircase, Within, Total;
    var c := Prev(x, n, m, i, j);
    PrevCost(x, n, m, i, j);
    BackStep(x, n, m, i, j);
    if c.0 == 0 {
      CornerCost(x, n, m);
      OneCell(x, n, m);
      assert c == (0, 0) && i == 1 && j == 1 && Back(x, n, m, i, j) == [(0, 0)];
    } else {
      BackIsStaircase(x, n, m, c.0, c.1);
      Prolong(x, n, m, Back(x, n, m, c.0, c.1), c.0 - 1, c.1 - 1, i - 1, j - 1);
    }
  }

  lemma BackStep(x: Matrix, n: nat, m: nat, i: nat, j: nat)
    requires IsMatrix(x, n, m) && 0 < i <= n && 0 < j <= m
    ensures Back(x, n, m, 0, 0) == []
    ensures Back(x, n, m, i, j) == Back(x, n, m, Prev(x, n, m, i, j).0, Prev(x, n, m, i, j).1) + [(i - 1, j - 1)]
  {
    hide Prev;
  }

  lemma OneCell(x: Matrix, n: nat, m: nat)
    requires IsMatrix(x, n, m) && n > 0 && m > 0
    ensures Staircase([(0, 0)], 0, 0) && Within([(0, 0)], n, m) && Total(x, n, m, [(0, 0)]) == x[0][0]
  {
    assert [(0, 0)][..0] == [];
  }

  lemma CornerCost(x: Matrix, n: nat, m: nat)
    requires IsMatrix(x, n, m)
    ensures CostAt(x, n, m, 0, 0) == Fin(0.0)
  {
  }

  lemma ExtendStaircase(p: Path, i: nat, j: nat, c: (nat, nat))
    requires Staircase(p, i, j) && UnitStep((i, j), c)
    ensures Staircase(p + [c], c.0, c.1)
  {
  }

  // A staircase prolonged by one cell.
  lemma Prolong(x: Matrix, n: nat, m: nat, q: Path, a: nat, b: nat, i: nat, j: nat)
    requires IsMatrix(x, n, m) && i < n && j < m && Staircase(q, a, b) && Within(q, n, m) && UnitStep((a, b), (i, j))
    ensures Staircase(q + [(i, j)], i, j) && Within(q + [(i, j)], n, m)
    ensures Total(x, n, m, q + [(i, j)]) == Total(x, n, m, q) + x[i][j]
  {
    ExtendStaircase(q, a, b, (i, j));
    assert (q + [(i, j)])[..|q|] == q;
  }

  /* ---- ties ---- */

  // At cell (i, j) of the matrix the two ways from the row before tie below the third, which
  // is nevertheless taken.
  predicate BadTie(x: Matrix, n: nat, m: nat, i: nat, j: nat)
    requires IsMatrix(x, n, m) && i < n && j < m
  {
    var c0, c1, c2 := CostAt(x, n, m, i, j), CostAt(x, n, m, i, j + 1), CostAt(x, n, m, i + 1, j);
    c0 == c1 && Less(c0, c2)
  }

  predicate TieFree(x: Matrix, n: nat, m: nat, p: Path)
    requires IsMatrix(x, n, m) && Within(p, n, m)
  {
    forall k :: 0 <= k < |p| ==> !BadTie(x, n, m, p[k].0, p[k].1)
  }

  lemma PickIsLeast(c0: Cost, c1: Cost, c2: Cost, c: Cost)
    requires !(c0 == c1 && Less(c0, c2)) && (c == c0 || c == c1 || c == c2) && c.Fin?
    ensures Pick(c0, c1, c2).Fin? && Pick(c0, c1, c2).v <= c.v
  {
  }

  lemma NotTied(x: Matrix, n: nat, m: nat, i: nat, j: nat)
    requires IsMatrix(x, n, m) && i < n && j < m && !BadTie(x, n, m, i, j)
    ensures |x| == n && |x[i]| == m
    ensures !(CostAt(x, n, m, i, j) == CostAt(x, n, m, i, j + 1)
            && Less(CostAt(x, n, m, i, j), CostAt(x, n, m, i + 1, j)))
  {
    hide CostAt;
  }

  // Without a bad tie at a cell, coming from a neighbour costs no less.
  lemma NoTieStep(x: Matrix, n: nat, m: nat, a: nat, b: nat, i: nat, j: nat)
    requires IsMatrix(x, n, m) && i < n && j < m && UnitStep((a, b), (i, j)) && !BadTie(x, n, m, i, j)
    ensures CostAt(x, n, m, i + 1, j + 1).Fin? && CostAt(x, n, m, a + 1, b + 1).Fin?
    ensures CostAt(x, n, m, i + 1, j + 1).v <= CostAt(x, n, m, a + 1, b + 1).v + x[i][j]
  {
    hide CostAt, Pick, Choose, BadTie, Less, IsMatrix;
    InnerFinite(x, n, m, a + 1, b + 1);
    CellUnfold(x, n, m, i + 1, j + 1);
    NotTied(x, n, m, i, j);
    var c0, c1, c2 := CostAt(x, n, m, i, j), CostAt(x, n, m, i, j + 1), CostAt(x, n, m, i + 1, j);
    if i == a + 1 && j == b + 1 {
      PickIsLeast(c0, c1, c2, c0);
    } else if i == a + 1 {
      PickIsLeast(c0, c1, c2, c1);
    } else {
      PickIsLeast(c0, c1, c2, c2);
    }
  }

  lemma FirstCost(x: Matrix, n: nat, m: nat)
    requires IsMatrix(x, n, m) && n > 0 && m > 0
    ensures CostAt(x, n, m, 1, 1) == Fin(x[0][0])
  {
  }

  // The accumulated cost is no more than that of any staircase without bad ties.
  lemma {:induction false} NoMoreThanTieFree(x: Matrix, n: nat, m: nat, p: Path, i: nat, j: nat)
    requires IsMatrix(x, n, m) && i < n && j < m && Staircase(p, i, j)
    requires Within(p, n, m) && TieFree(x, n, m, p)
    ensures CostAt(x, n, m, i + 1, j + 1).Fin? && CostAt(x, n, m, i + 1, j + 1).v <= Total(x, n, m, p)
    decreases |p|
  {
    hide CostAt, BadTie;
    var q := p[..|p| - 1];
    assert !BadTie(x, n, m, p[|p| - 1].0, p[|p| - 1].1);
    if |p| == 1 {
      assert q == [];
      FirstCost(x, n, m);
    } else {
      var a, b := p[|p| - 2].0, p[|p| - 2].1;
      assert UnitStep(p[|p| - 2], p[|p| - 1]);
      PrefixStaircase(p, i, j);
      assert TieFree(x, n, m, q) by {
        assert forall k :: 0 <= k < |q| ==> q[k] == p[k];
      }
      NoMoreThanTieFree(x, n, m, q, a, b);
      NoTieStep(x, n, m, a, b, i, j);
    }
  }

  lemma PrefixStaircase(p: Path, i: nat, j: nat)
    requires Staircase(p, i, j) && |p| > 1
    ensures Staircase(p[..|p| - 1], p[|p| - 2].0, p[|p| - 2].1)
  {
    var q := p[..|p| - 1];
    forall k | 0 <= k < |q| - 1 ensures UnitStep(q[k], q[k + 1]) {
      assert UnitStep(p[k], p[k + 1]);
    }
  }

  // No staircase to (i, j) is cheaper than `cost`.
  ghost predicate Cheapest(x: Matrix, n: nat, m: nat, i: nat, j: nat, cost: real)
    requires IsMatrix(x, n, m) && i < n && j < m
  {
    forall p: Path :: Staircase(p, i, j) && Within(p, n, m) ==> cost <= Total(x, n, m, p)
  }

  // The accumulated cost of inner cell (i, j) is the least.
  ghost predicate LeastAt(x: Matrix, n: nat, m: nat, i: nat, j: nat)
    requires IsMatrix(x, n, m) && 0 < i <= n && 0 < j <= m
  {
    CostAt(x, n, m, i, j).Fin? && Cheapest(x, n, m, i - 1, j - 1, CostAt(x, n, m, i, j).v)
  }

  // If the accumulated cost of a cell is the least, so is that of the cell it was traced to.
  lemma LeastBefore(x: Matrix, n: nat, m: nat, i: nat, j: nat)
    requires IsMatrix(x, n, m) && 0 < i <= n && 0 < j <= m && LeastAt(x, n, m, i, j)
    requires Prev(x, n, m, i, j).0 > 0
    ensures var p := Prev(x, n, m, i, j); LeastAt(x, n, m, p.0, p.1)
  {
    hide CostAt, Prev, Total, Staircase, Within;
    var p := Prev(x, n, m, i, j);
    PrevCost(x, n, m, i, j);
    InnerFinite(x, n, m, p.0, p.1);
    forall q: Path | Staircase(q, p.0 - 1, p.1 - 1) && Within(q, n, m)
      ensures CostAt(x, n, m, p.0, p.1).v <= Total(x, n, m, q)
    {
      Prolong(x, n, m, q, p.0 - 1, p.1 - 1, i - 1, j - 1);
    }
  }

  // And there is no bad tie at the cell: with one, the staircase through the tied cell would
  // be cheaper.
  lemma LeastHasNoTie(x: Matrix, n: nat, m: nat, i: nat, j: nat)
    requires IsMatrix(x, n, m) && 0 < i <= n && 0 < j <= m && LeastAt(x, n, m, i, j)
    ensures !BadTie(x, n, m, i - 1, j - 1)
  {
    hide Total, Staircase, Within;
    TieCost(x, n, m, i, j);
    if i > 1 && j > 1 {
      BackIsStaircase(x, n, m, i - 1, j - 1);
      Prolong(x, n, m, Back(x, n, m, i - 1, j - 1), i - 2, j - 2, i - 1, j - 1);
    }
  }

  // With a bad tie the cell costs more than by way of the tied cell, which is an inner one.
  lemma TieCost(x: Matrix, n: nat, m: nat, i: nat, j: nat)
    requires IsMatrix(x, n, m) && 0 < i <= n && 0 < j <= m
    ensures BadTie(x, n, m, i - 1, j - 1) ==>
              i > 1 && j > 1 && CostAt(x, n, m, i - 1, j - 1).Fin? && CostAt(x, n, m, i, j).Fin?
              && CostAt(x, n, m, i, j).v > CostAt(x, n, m, i - 1, j - 1).v + x[i - 1][j - 1]
  {
    InnerFinite(x, n, m, i, j);
    if i > 1 && j > 1 {
      InnerFinite(x, n, m, i - 1, j - 1);
    }
    if j > 1 {
      InnerFinite(x, n, m, i, j - 1);
    }
  }

  // So a cheapest trace meets no bad tie.
  lemma {:induction false} LeastIsTieFree(x: Matrix, n: nat, m: nat, i: nat, j: nat)
    requires IsMatrix(x, n, m) && 0 < i <= n && 0 < j <= m && LeastAt(x, n, m, i, j)
    ensures Within(Back(x, n, m, i, j), n, m) && TieFree(x, n, m, Back(x, n, m, i, j))
    decreases i + j
  {
    hide CostAt, Prev, LeastAt, BadTie, Staircase, Total;
    BackIsStaircase(x, n, m, i, j);
    LeastHasNoTie(x, n, m, i, j);
    var p := Prev(x, n, m, i, j);
    if p.0 > 0 {
      LeastBefore(x, n, m, i, j);
      LeastIsTieFree(x, n, m, p.0, p.1);
    }
  }

  // The staircase returned is a cheapest one if and only if some cheapest staircase avoids the
  // bad ties.
  lemma BackIsCheapestIff(x: Matrix, n: nat, m: nat)
    requires IsMatrix(x, n, m) && n > 0 && m > 0
    ensures Staircase(Back(x, n, m, n, m), n - 1, m - 1) && Within(Back(x, n, m, n, m), n, m)
    ensures Cheapest(x, n, m, n - 1, m - 1, Total(x, n, m, Back(x, n, m, n, m)))
            <==> exists q: Path :: Staircase(q, n - 1, m - 1) && Within(q, n, m) && TieFree(x, n, m, q)
                                   && Cheapest(x, n, m, n - 1, m - 1, Total(x, n, m, q))
  {
    hide CostAt, Back, BadTie;
    var p := Back(x, n, m, n, m);
    BackIsStaircase(x, n, m, n, m);
    if Cheapest(x, n, m, n - 1, m - 1, Total(x, n, m, p)) {
      assert LeastAt(x, n, m, n, m);
      LeastIsTieFree(x, n, m, n, m);
    }
    forall q: Path | Staircase(q, n - 1, m - 1) && Within(q, n, m) && TieFree(x, n, m, q)
      ensures Total(x, n, m, p) <= Total(x, n, m, q)
    {
      NoMoreThanTieFree(x, n, m, q, n - 1, m - 1);
    }
  }

  // In particular it is cheapest when no cell has a bad tie.
  lemma BackIsCheapestWithoutTies(x: Matrix, n: nat, m: nat)
    requires IsMatrix(x, n, m) && n > 0 && m > 0
    requires forall i, j :: 0 <= i < n && 0 <= j < m ==> !BadTie(x, n, m, i, j)
    ensures Staircase(Back(x, n, m, n, m), n - 1, m - 1) && Within(Back(x, n, m, n, m), n, m)
    ensures Cheapest(x, n, m, n - 1, m - 1, Total(x, n, m, Back(x, n, m, n, m)))
  {
    hide CostAt, Back, BadTie;
    BackIsStaircase(x, n, m, n, m);
    forall q: Path | Staircase(q, n - 1, m - 1) && Within(q, n, m)
      ensures Total(x, n, m, Back(x, n, m, n, m)) <= Total(x, n, m, q)
    {
      NoMoreThanTieFree(x, n, m, q, n - 1, m - 1);
    }
  }

  // A matrix on which the returned staircase costs 1 although one of cost 0 exists.
  lemma TieSpoils()
    ensures var x: Matrix := [[0.0, 0.0], [1.0, 0.0]];
            CostAt(x, 2, 2, 2, 2) == Fin(1.0) && Staircase([(0, 0), (1, 1)], 1, 1)
                && Total(x, 2, 2, [(0, 0), (1, 1)]) == 0.0
  {
    var x: Matrix := [[0.0, 0.0], [1.0, 0.0]];
    assert CostAt(x, 2, 2, 1, 1) == Fin(0.0);
    assert CostAt(x, 2, 2, 1, 2) == Fin(0.0);
    assert CostAt(x, 2, 2, 2, 1) == Fin(1.0);
    var p: Path := [(0, 0), (1, 1)];
    assert p[..1] == [(0, 0)];
    assert Total(x, 2, 2, [(0, 0)]) == 0.0 by {
      assert [(0, 0)][..0] == [];
    }
  }

  /* ---- the code ---- */

  // Fills the accumulated costs and the directions.
  method Accumulate(x: Matrix, n: nat, m: nat) returns (cost: array2<Cost>, trace: array2<nat>)
    requires IsMatrix(x, n, m)
    ensures fresh(cost) && fresh(trace)
    ensures cost.Length0 == trace.Length0 == n + 1 && cost.Length1 == trace.Length1 == m + 1
    ensures forall i, j :: 0 <= i <= n && 0 <= j <= m ==> cost[i, j] == CostAt(x, n, m, i, j)
    ensures forall i, j :: 0 < i <= n && 0 < j <= m ==> trace[i, j] == TraceAt(x, n, m, i, j)
  {
    cost := new Cost[n + 1, m + 1]((_, _) => Inf);
    trace := new nat[n + 1, m + 1]((_, _) => 3);
    cost[0, 0] := Fin(0.0);
    for j := 1 to m + 1
      invariant FilledTo(x, n, m, cost, trace, j, 1)
    {
      for i := 1 to n + 1
        invariant FilledTo(x, n, m, cost, trace, j, i)
      {
        AccumulateCell(x, n, m, cost, trace, i, j);
      }
    }
  }

  // The border and the cells of the columns before j, and of column j above row i, are filled.
  ghost predicate FilledTo(x: Matrix, n: nat, m: nat, cost: array2<Cost>, trace: array2<nat>, j: nat, i: nat)
    requires IsMatrix(x, n, m)
    reads cost, trace
  {
    && cost.Length0 == trace.Length0 == n + 1 && cost.Length1 == trace.Length1 == m + 1
    && (forall a, b :: 0 <= a <= n && 0 <= b <= m && (a == 0 || b < j || (b == j && a < i)) ==>
          cost[a, b] == CostAt(x, n, m, a, b))
    && forall a, b :: 0 < a <= n && 0 < b <= m && (b < j || (b == j && a < i)) ==> trace[a, b] == TraceAt(x, n, m, a, b)
  }

  method AccumulateCell(x: Matrix, n: nat, m: nat, cost: array2<Cost>, trace: array2<nat>, i: nat, j: nat)
    requires IsMatrix(x, n, m) && 0 < i <= n && 0 < j <= m && FilledTo(x, n, m, cost, trace, j, i)
    modifies cost, trace
    ensures FilledTo(x, n, m, cost, trace, j, i + 1)
  {
    var c0, c1, c2 := cost[i - 1, j - 1], cost[i - 1, j], cost[i, j - 1];
    assert c0 == CostAt(x, n, m, i - 1, j - 1) && c1 == CostAt(x, n, m, i - 1, j) && c2 == CostAt(x, n, m, i, j - 1);
    CellUnfold(x, n, m, i, j);
    hide CostAt, TraceAt;
    var c, t;
    if Less(c0, c1) && Less(c0, c2) {
      c, t := c0, 0;
    } else if Less(c1, c0) && Less(c1, c2) {
      c, t := c1, 1;
    } else {
      c, t := c2, 2;
    }
    cost[i, j] := Plus(x[i - 1][j - 1], c);
    trace[i, j] := t;
  }

  lemma CellUnfold(x: Matrix, n: nat, m: nat, i: nat, j: nat)
    requires IsMatrix(x, n, m) && 0 < i <= n && 0 < j <= m
    ensures var c0, c1, c2 := CostAt(x, n, m, i - 1, j - 1), CostAt(x, n, m, i - 1, j), CostAt(x, n, m, i, j - 1);
            CostAt(x, n, m, i, j) == Plus(x[i - 1][j - 1], Pick(c0, c1, c2))
                && TraceAt(x, n, m, i, j) == Choose(c0, c1, c2)
  {
  }

  // The inner directions are those of the accumulation.
  ghost predicate Traced(x: Matrix, n: nat, m: nat, trace: array2<nat>)
    requires IsMatrix(x, n, m)
    reads trace
  {
    && trace.Length0 == n + 1 && trace.Length1 == m + 1
    && forall a, b :: 0 < a <= n && 0 < b <= m ==> trace[a, b] == TraceAt(x, n, m, a, b)
  }

  method SetBorders(x: Matrix, n: nat, m: nat, trace: array2<nat>)
    requires IsMatrix(x, n, m) && Traced(x, n, m, trace)
    modifies trace
    ensures Traced(x, n, m, trace)
    ensures forall b :: 0 < b <= m ==> trace[0, b] == 2
    ensures forall a :: 0 <= a <= n ==> trace[a, 0] == 1
  {
    hide TraceAt;
    for i := 0 to m + 1
      invariant Traced(x, n, m, trace)
      invariant forall b :: 0 <= b < i ==> trace[0, b] == 2
    {
      trace[0, i] := 2;
    }
    for i := 0 to n + 1
      invariant Traced(x, n, m, trace)
      invariant forall b :: 0 < b <= m ==> trace[0, b] == 2
      invariant forall a :: 0 <= a < i ==> trace[a, 0] == 1
    {
      trace[i, 0] := 1;
    }
  }

  // One step of the walk.
  method StepBack(x: Matrix, n: nat, m: nat, trace: array2<nat>, i: nat, j: nat) returns (a: nat, b: nat)
    requires IsMatrix(x, n, m) && 0 < i <= n && 0 < j <= m && Traced(x, n, m, trace)
    ensures (a, b) == Prev(x, n, m, i, j)
  {
    hide CostAt;
    PrevByTrace(x, n, m, i, j);
    a, b := i, j;
    var t := trace[i, j];
    if t == 0 {
      a := a - 1;
      b := b - 1;
    } else if t == 1 {
      a := a - 1;
    } else {
      b := b - 1;
    }
  }

  // Follows the trace from the last cell, filling the table of rows from its end, and returns
  // the part filled. The table never overflows, and the walk ends at the corner.
  method DtwAndBacktrace(x: Matrix, n: nat, m: nat) returns (r: Path)
    requires IsMatrix(x, n, m) && n > 0 && m > 0
    ensures r == Back(x, n, m, n, m)
  {
    hide CostAt, TraceAt, Prev, Back, Walked;
    var cost, trace := Accumulate(x, n, m);
    SetBorders(x, n, m, trace);
    var maxRows := n + m - 1;
    var bt := new (nat, nat)[maxRows](_ => (0, 0));
    var rowIdx := maxRows - 1;
    var i, j := n, m;
    ghost var done: Path := [];
    assert bt[rowIdx + 1..] == done;
    WalkedNothing(x, n, m);
    while i > 0 || j > 0
      invariant Traced(x, n, m, trace)
      invariant 0 <= i <= n && 0 <= j <= m && (i > 0 <==> j > 0)
      invariant -1 <= rowIdx < maxRows && bt[rowIdx + 1..] == done
      invariant Walked(x, n, m, i, j, done)
      decreases i + j
    {
      WalkedStep(x, n, m, i, j, done);
      bt[rowIdx] := (i - 1, j - 1);
      done := [(i - 1, j - 1)] + done;
      assert bt[rowIdx..] == done;
      rowIdx := rowIdx - 1;
      i, j := StepBack(x, n, m, trace, i, j);
    }
    r := bt[rowIdx + 1..];
    WalkedAll(x, n, m, done);
  }

  // The cells in `done` and what is left of the walk from (i, j) make up the whole staircase.
  ghost predicate Walked(x: Matrix, n: nat, m: nat, i: nat, j: nat, done: Path)
    requires IsMatrix(x, n, m) && i <= n && j <= m && (i > 0 <==> j > 0) && (n > 0 <==> m > 0)
  {
    Back(x, n, m, i, j) + done == Back(x, n, m, n, m)
  }

  lemma WalkedNothing(x: Matrix, n: nat, m: nat)
    requires IsMatrix(x, n, m) && (n > 0 <==> m > 0)
    ensures Walked(x, n, m, n, m, [])
  {
    hide Back;
  }

  lemma WalkedStep(x: Matrix, n: nat, m: nat, i: nat, j: nat, done: Path)
    requires IsMatrix(x, n, m) && 0 < i <= n && 0 < j <= m && Walked(x, n, m, i, j, done)
    ensures |done| < n + m - 1
    ensures var p := Prev(x, n, m, i, j); Walked(x, n, m, p.0, p.1, [(i - 1, j - 1)] + done)
  {
    hide Prev, TraceAt, CostAt, Back, Staircase;
    BackUnfold(x, n, m, i, j, done);
    BackIsStaircase(x, n, m, n, m);
    assert |Back(x, n, m, i, j) + done| == |Back(x, n, m, i, j)| + |done|;
  }

  lemma WalkedAll(x: Matrix, n: nat, m: nat, done: Path)
    requires IsMatrix(x, n, m) && (n > 0 <==> m > 0) && Walked(x, n, m, 0, 0, done)
    ensures done == Back(x, n, m, n, m)
  {
    hide Prev, TraceAt, CostAt;
    BackEmpty(x, n, m);
  }

  lemma BackEmpty(x: Matrix, n: nat, m: nat)
    requires IsMatrix(x, n, m)
    ensures Back(x, n, m, 0, 0) == []
  {
  }

  lemma BackUnfold(x: Matrix, n: nat, m: nat, i: nat, j: nat, done: Path)
    requires IsMatrix(x, n, m) && 0 < i <= n && 0 < j <= m
    ensures var p := Prev(x, n, m, i, j);
            && |Back(x, n, m, i, j)| == |Back(x, n, m, p.0, p.1)| + 1
            && Back(x, n, m, p.0, p.1) + ([(i - 1, j - 1)] + done) == Back(x, n, m, i, j) + done
  {
    hide Prev, TraceAt;
  }

  lemma PrevByTrace(x: Matrix, n: nat, m: nat, i: nat, j: nat)
    requires IsMatrix(x, n, m) && 0 < i <= n && 0 < j <= m
    ensures Prev(x, n, m, i, j) ==
            if TraceAt(x, n, m, i, j) == 0 then (i - 1, j - 1)
            else if TraceAt(x, n, m, i, j) == 1 then (i - 1, j)
            else (i, j - 1)
  {
  }
}
