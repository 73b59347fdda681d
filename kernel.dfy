/** The Gray–Scott kernel: the 3×3 Laplacian, the reaction kinetics and the
    clamp, as pure functions of the current concentrations. */
module Kernel {
  import opened Topology
  import opened Grids

  /** Diffusion rate of chemical A. */
  const DA: real := 1.0
  /** Diffusion rate of chemical B. */
  const DB: real := 0.5
  /** Feed rate. */
  const Feed: real := 0.0545
  /** Kill rate. */
  const Kill: real := 0.062
  /** Time-scale factor, applied to the whole new value, not only the increment. */
  const TimeScale: real := 1.5

  /** Laplacian weights in neighbour-list order: corners, edges, centre. */
  const Coeffs: seq<real> := [0.05, 0.2, 0.05, 0.2, -1.0, 0.2, 0.05, 0.2, 0.05]

  /** One concentration per tile, indexed [row][column]. */
  type Field = Grid<real>

  /** All values of `f` lie in [0,1]. */
  predicate InUnitRange(f: Field)
  {
    forall y, x :: 0 <= y < |f| && 0 <= x < |f[y]| ==> 0.0 <= f[y][x] <= 1.0
  }

  /** The values of `f` at the positions `nbs`, in order. */
  function Gather(f: Field, nbs: seq<Coord>): seq<real>
    requires forall i :: 0 <= i < |nbs| ==> 0 <= nbs[i].r < |f| && 0 <= nbs[i].c < |f[nbs[i].r]|
  {
    seq(|nbs|, i requires 0 <= i < |nbs| => f[nbs[i].r][nbs[i].c])
  }

  /** Sum of the first `n` products `vs[i] * ws[i]`, accumulated left to right. */
  function WeightedSum(vs: seq<real>, ws: seq<real>, n: nat): real
    requires n <= |vs| && n <= |ws|
  {
    if n == 0 then 0.0 else WeightedSum(vs, ws, n - 1) + vs[n - 1] * ws[n - 1]
  }

  /** The discrete Laplacian of a neighbourhood given in neighbour-list order. */
  function Laplacian(vs: seq<real>): real
    requires |vs| == 9
  {
    WeightedSum(vs, Coeffs, |vs|)
  }

  /** The weight the kernel gives to the neighbour at offset (dx, dy):
      -1 for the tile itself, 0.2 for the four sharing an edge, 0.05 for the corners. */
  function StencilWeight(dx: int, dy: int): real
  {
    if dx == 0 && dy == 0 then -1.0
    else if dx == 0 || dy == 0 then 0.2
    else 0.05
  }

  /** The weight vector is the stencil read out in neighbour-list order. */
  lemma CoeffsAreStencil(i: int)
    requires 0 <= i < 9
    ensures Coeffs[i] == StencilWeight(Dx(i), Dy(i))
  {
    assert Dx(i) == [-1, 0, 1, -1, 0, 1, -1, 0, 1][i];
    assert Dy(i) == [-1, -1, -1, 0, 0, 0, 1, 1, 1][i];
  }

  /** The Laplacian written out term by term with the documented weights. */
  lemma LaplacianTerms(vs: seq<real>)
    requires |vs| == 9
    ensures Laplacian(vs) == 0.05 * vs[0] + 0.2 * vs[1] + 0.05 * vs[2]
                           + 0.2 * vs[3] - vs[4] + 0.2 * vs[5]
                           + 0.05 * vs[6] + 0.2 * vs[7] + 0.05 * vs[8]
  {
    assert WeightedSum(vs, Coeffs, 1) == 0.05 * vs[0];
    assert WeightedSum(vs, Coeffs, 2) == WeightedSum(vs, Coeffs, 1) + 0.2 * vs[1];
    assert WeightedSum(vs, Coeffs, 3) == WeightedSum(vs, Coeffs, 2) + 0.05 * vs[2];
    assert WeightedSum(vs, Coeffs, 4) == WeightedSum(vs, Coeffs, 3) + 0.2 * vs[3];
    assert WeightedSum(vs, Coeffs, 5) == WeightedSum(vs, Coeffs, 4) - vs[4];
    assert WeightedSum(vs, Coeffs, 6) == WeightedSum(vs, Coeffs, 5) + 0.2 * vs[5];
    assert WeightedSum(vs, Coeffs, 7) == WeightedSum(vs, Coeffs, 6) + 0.05 * vs[6];
    assert WeightedSum(vs, Coeffs, 8) == WeightedSum(vs, Coeffs, 7) + 0.2 * vs[7];
  }

  /** The weights sum to zero, so a uniform neighbourhood has Laplacian 0. */
  lemma LaplacianUniform(vs: seq<real>, v: real)
    requires |vs| == 9
    requires forall i :: 0 <= i < 9 ==> vs[i] == v
    ensures Laplacian(vs) == 0.0
  {
    LaplacianTerms(vs);
  }

  /** Sum of the first `n` values of `ts`, accumulated left to right. */
  function Sum(ts: seq<real>, n: nat): real
    requires n <= |ts|
  {
    if n == 0 then 0.0 else Sum(ts, n - 1) + ts[n - 1]
  }

  /** A weighted sum is the plain sum of its products, whatever the weights. */
  lemma {:induction false} WeightedSumTerms(vs: seq<real>, ws: seq<real>, ts: seq<real>, n: nat)
    requires n <= |vs| && n <= |ws| && n <= |ts|
    requires forall i :: 0 <= i < n ==> vs[i] * ws[i] == ts[i]
    ensures WeightedSum(vs, ws, n) == Sum(ts, n)
  {
    if n > 0 {
      WeightedSumTerms(vs, ws, ts, n - 1);
    }
  }

  /** The nine terms of the 3×3 stencil around (c, r) on the torus, written from
      the offsets and the documented weights rather than from the neighbour list. */
  function StencilTerms(f: Field, c: int, r: int, w: int, h: int): (ts: seq<real>)
    requires IsGrid(f, w, h) && 0 <= c < w && 0 <= r < h
    ensures |ts| == 9
  {
    seq(9, i requires 0 <= i < 9 => f[(r + Dy(i)) % h][(c + Dx(i)) % w] * StencilWeight(Dx(i), Dy(i)))
  }

  /** Term `i` of the neighbour-list sum is term `i` of the stencil. */
  lemma StencilTerm(f: Field, c: int, r: int, w: int, h: int, i: int)
    requires IsGrid(f, w, h) && 0 <= c < w && 0 <= r < h && 0 <= i < 9
    ensures Gather(f, NeighborList(c, r, w, h))[i] * Coeffs[i] == StencilTerms(f, c, r, w, h)[i]
  {
    var q := NeighborList(c, r, w, h)[i];
    NeighborListWrap(c, r, w, h, i);
    CoeffsAreStencil(i);
    assert Gather(f, NeighborList(c, r, w, h))[i] == f[q.r][q.c];
  }

  /** The Laplacian of a tile's neighbourhood is the torus stencil around it:
      -1 times the tile, 0.2 times each edge neighbour, 0.05 times each corner,
      all positions taken modulo the grid size. */
  lemma LaplacianIsStencil(f: Field, c: int, r: int, w: int, h: int)
    requires IsGrid(f, w, h) && 0 <= c < w && 0 <= r < h
    ensures Laplacian(Gather(f, NeighborList(c, r, w, h))) == Sum(StencilTerms(f, c, r, w, h), 9)
  {
    forall i | 0 <= i < 9
      ensures Gather(f, NeighborList(c, r, w, h))[i] * Coeffs[i] == StencilTerms(f, c, r, w, h)[i]
    {
      StencilTerm(f, c, r, w, h, i);
    }
    WeightedSumTerms(Gather(f, NeighborList(c, r, w, h)), Coeffs, StencilTerms(f, c, r, w, h), 9);
  }

  /** The kinetics of chemical A before clamping, as `increaseChem` computes it
      (the time scale multiplies the whole of A plus its increment). */
  function RawA(a: real, b: real, lapA: real): real
  {
    (a + DA * lapA - a * b * b + Feed * (1.0 - a)) * TimeScale
  }

  /** The kinetics of chemical B before clamping. */
  function RawB(a: real, b: real, lapB: real): real
  {
    (b + DB * lapB + a * b * b - (Kill + Feed) * b) * TimeScale
  }

  /** The two-step constraint: values <= 0 become 0, then values >= 1 become 1. */
  function Clamp(v: real): (r: real)
    ensures 0.0 <= r <= 1.0
    ensures v <= 0.0 ==> r == 0.0
    ensures v >= 1.0 ==> r == 1.0
    ensures 0.0 < v < 1.0 ==> r == v
  {
    var lo := if v <= 0.0 then 0.0 else v;
    if lo >= 1.0 then 1.0 else lo
  }

  /** Next-step A of the tile at `p`, computed from the current fields only. */
  function NextA(A: Field, B: Field, w: int, h: int, p: Coord): (v: real)
    requires IsGrid(A, w, h) && IsGrid(B, w, h) && InGrid(p, w, h)
    ensures 0.0 <= v <= 1.0
  {
    var lapA := Laplacian(Gather(A, NeighborList(p.c, p.r, w, h)));
    Clamp(RawA(A[p.r][p.c], B[p.r][p.c], lapA))
  }

  /** Next-step B of the tile at `p`, computed from the current fields only. */
  function NextB(A: Field, B: Field, w: int, h: int, p: Coord): (v: real)
    requires IsGrid(A, w, h) && IsGrid(B, w, h) && InGrid(p, w, h)
    ensures 0.0 <= v <= 1.0
  {
    var lapB := Laplacian(Gather(B, NeighborList(p.c, p.r, w, h)));
    Clamp(RawB(A[p.r][p.c], B[p.r][p.c], lapB))
  }

  /** The next-step A of every tile. */
  function NextFieldA(A: Field, B: Field, w: nat, h: nat): (f: Field)
    requires IsGrid(A, w, h) && IsGrid(B, w, h)
    ensures IsGrid(f, w, h)
  {
    seq(h, y requires 0 <= y < h => seq(w, x requires 0 <= x < w => NextA(A, B, w, h, Coord(x, y))))
  }

  /** The next-step B of every tile. */
  function NextFieldB(A: Field, B: Field, w: nat, h: nat): (f: Field)
    requires IsGrid(A, w, h) && IsGrid(B, w, h)
    ensures IsGrid(f, w, h)
  {
    seq(h, y requires 0 <= y < h => seq(w, x requires 0 <= x < w => NextB(A, B, w, h, Coord(x, y))))
  }

  /** A next-step A field holds, at every tile, that tile's next-step A. */
  lemma NextFieldACells(A: Field, B: Field, w: nat, h: nat)
    requires IsGrid(A, w, h) && IsGrid(B, w, h)
    ensures forall y, x :: 0 <= y < h && 0 <= x < w ==>
              NextFieldA(A, B, w, h)[y][x] == NextA(A, B, w, h, Coord(x, y))
  {
    var f := NextFieldA(A, B, w, h);
    forall y, x | 0 <= y < h && 0 <= x < w
      ensures f[y][x] == NextA(A, B, w, h, Coord(x, y))
    {
    }
  }

  /** A next-step B field holds, at every tile, that tile's next-step B. */
  lemma NextFieldBCells(A: Field, B: Field, w: nat, h: nat)
    requires IsGrid(A, w, h) && IsGrid(B, w, h)
    ensures forall y, x :: 0 <= y < h && 0 <= x < w ==>
              NextFieldB(A, B, w, h)[y][x] == NextB(A, B, w, h, Coord(x, y))
  {
    var f := NextFieldB(A, B, w, h);
    forall y, x | 0 <= y < h && 0 <= x < w
      ensures f[y][x] == NextB(A, B, w, h, Coord(x, y))
    {
    }
  }

  /** Every value of a next-step field lies in [0,1]. */
  lemma NextFieldsInUnitRange(A: Field, B: Field, w: nat, h: nat)
    requires IsGrid(A, w, h) && IsGrid(B, w, h)
    ensures InUnitRange(NextFieldA(A, B, w, h)) && InUnitRange(NextFieldB(A, B, w, h))
  {
    var na, nb := NextFieldA(A, B, w, h), NextFieldB(A, B, w, h);
    assert forall y, x :: 0 <= y < h && 0 <= x < w ==> 0.0 <= na[y][x] <= 1.0;
    assert forall y, x :: 0 <= y < h && 0 <= x < w ==> 0.0 <= nb[y][x] <= 1.0;
  }

  /** A tile whose nine neighbour-list entries are all at A = 1, B = 0 stays at A = 1, B = 0:
      the kinetics give A = 1.5 (clamped to 1) and B = 0. */
  lemma RestingTile(A: Field, B: Field, w: int, h: int, p: Coord)
    requires IsGrid(A, w, h) && IsGrid(B, w, h) && InGrid(p, w, h)
    requires var nbs := NeighborList(p.c, p.r, w, h);
             forall i :: 0 <= i < 9 ==> A[nbs[i].r][nbs[i].c] == 1.0 && B[nbs[i].r][nbs[i].c] == 0.0
    ensures Laplacian(Gather(A, NeighborList(p.c, p.r, w, h))) == 0.0
    ensures Laplacian(Gather(B, NeighborList(p.c, p.r, w, h))) == 0.0
    ensures RawA(1.0, 0.0, 0.0) == 1.5 && RawB(1.0, 0.0, 0.0) == 0.0
    ensures NextA(A, B, w, h, p) == 1.0 && NextB(A, B, w, h, p) == 0.0
  {
    var nbs := NeighborList(p.c, p.r, w, h);
    LaplacianUniform(Gather(A, nbs), 1.0);
    LaplacianUniform(Gather(B, nbs), 0.0);
  }

  /** The 3×3 scenario: every tile at A = 1, B = 0 except the centre at A = B = 0.5.
      The centre's Laplacians are 0.5 and -0.5; its raw kinetics give A = 1.353375,
      clamped to 1, and B = 0.475125, left as it is. */
  lemma CentreOfThreeByThree()
    ensures var A := [[1.0, 1.0, 1.0], [1.0, 0.5, 1.0], [1.0, 1.0, 1.0]];
            var B := [[0.0, 0.0, 0.0], [0.0, 0.5, 0.0], [0.0, 0.0, 0.0]];
            IsGrid(A, 3, 3) && IsGrid(B, 3, 3) &&
            Laplacian(Gather(A, NeighborList(1, 1, 3, 3))) == 0.5 &&
            Laplacian(Gather(B, NeighborList(1, 1, 3, 3))) == -0.5 &&
            RawA(0.5, 0.5, 0.5) == 1.353375 && RawB(0.5, 0.5, -0.5) == 0.475125 &&
            NextA(A, B, 3, 3, Coord(1, 1)) == 1.0 &&
            NextB(A, B, 3, 3, Coord(1, 1)) == 0.475125
  {
    var A := [[1.0, 1.0, 1.0], [1.0, 0.5, 1.0], [1.0, 1.0, 1.0]];
    var B := [[0.0, 0.0, 0.0], [0.0, 0.5, 0.0], [0.0, 0.0, 0.0]];
    assert IsGrid(A, 3, 3) && IsGrid(B, 3, 3);
    var nbs := NeighborList(1, 1, 3, 3);
    assert nbs == [Coord(0, 0), Coord(1, 0), Coord(2, 0), Coord(0, 1), Coord(1, 1),
                   Coord(2, 1), Coord(0, 2), Coord(1, 2), Coord(2, 2)];
    var ga, gb := Gather(A, nbs), Gather(B, nbs);
    assert ga == [1.0, 1.0, 1.0, 1.0, 0.5, 1.0, 1.0, 1.0, 1.0];
    assert gb == [0.0, 0.0, 0.0, 0.0, 0.5, 0.0, 0.0, 0.0, 0.0];
    LaplacianTerms(ga);
    LaplacianTerms(gb);
    assert RawA(0.5, 0.5, 0.5) == 1.353375;
    assert RawB(0.5, 0.5, -0.5) == 0.475125;
  }
}
