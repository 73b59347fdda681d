/** The tile grid of the simulation script as an object whose attribute grids
    (one value per tile, indexed [row][column]) its methods update in place,
    by the same loops the script runs. */
module Simulation {
  import opened Topology
  import opened Grids
  import opened Kernel
  import opened Staging

  /** The grid dimensions of the script (DIMS). */
  const Width: nat := 160
  const Height: nat := 160
  /** Side of the square the script seeds with B = 1. */
  const SeedSize: nat := 60

  /** Whether `p` lies in the size×size square whose corner is at
      (w // 2 - size // 2, h // 2 - size // 2). */
  predicate InSeed(w: int, h: int, size: int, p: Coord)
  {
    var ox, oy := w / 2 - size / 2, h / 2 - size / 2;
    ox <= p.c < ox + size && oy <= p.r < oy + size
  }

  /** A seed square no larger than the grid lies inside it, so seeding never
      indexes outside the grid. */
  lemma SeedSquareInGrid(w: nat, h: nat, size: nat)
    requires size <= w && size <= h
    ensures 0 <= w / 2 - size / 2 && w / 2 - size / 2 + size <= w
    ensures 0 <= h / 2 - size / 2 && h / 2 - size / 2 + size <= h
  {
  }

  /** The script's seed square is the 60×60 block of columns and rows 50 to 109. */
  lemma ScriptSeedSquare(p: Coord)
    ensures InSeed(Width, Height, SeedSize, p) <==> 50 <= p.c < 110 && 50 <= p.r < 110
  {
  }

  /** Every tile's resolved neighbour list. */
  function NeighborGrid(w: nat, h: nat): (g: Grid<seq<Coord>>)
    ensures IsGrid(g, w, h)
    ensures forall y, x :: 0 <= y < h && 0 <= x < w ==> g[y][x] == NeighborList(x, y, w, h)
  {
    seq(h, y requires 0 <= y < h => seq(w, x requires 0 <= x < w => NeighborList(x, y, w, h)))
  }

  /** In the resolved neighbour grid, entry `i` of the tile at (x, y) is the tile
      at ((x + dx) mod W, (y + dy) mod H), with (dx, dy) the offset of entry `i`. */
  lemma NeighborGridWrap(w: nat, h: nat, x: int, y: int, i: int)
    requires 0 <= x < w && 0 <= y < h && 0 <= i < 9
    ensures |NeighborGrid(w, h)[y][x]| == 9
    ensures NeighborGrid(w, h)[y][x][i] == Coord((x + Dx(i)) % w, (y + Dy(i)) % h)
  {
    NeighborListWrap(x, y, w, h, i);
  }

  class TileGrid {
    const width: nat
    const height: nat
    /** tile.c and tile.r of every tile. */
    const col: Grid<int>
    const row: Grid<int>
    /** Current concentrations (tile.A, tile.B). */
    var a: Field
    var b: Field
    /** Staged concentrations (tile.Ap, tile.Bp). */
    var ap: Field
    var bp: Field
    /** tile.neighbors, as the positions of the neighbouring tiles; the empty
        list stands for the script's None until it is resolved. */
    var neighbors: Grid<seq<Coord>>

    ghost predicate Valid()
      reads this
    {
      && IsGrid(col, width, height) && IsGrid(row, width, height)
      && IsGrid(a, width, height) && IsGrid(b, width, height)
      && IsGrid(ap, width, height) && IsGrid(bp, width, height)
      && IsGrid(neighbors, width, height)
      && forall y, x :: 0 <= y < height && 0 <= x < width ==> col[y][x] == x && row[y][x] == y
    }

    /** Every tile's neighbour list has been resolved. */
    ghost predicate Linked()
      reads this
    {
      neighbors == NeighborGrid(width, height)
    }

    /** The chemical attributes of the whole grid as a value. */
    function State(): Tiles
      reads this
    {
      Tiles(a, b, ap, bp)
    }

    /** Builds the grid row by row, each row tile by tile; every tile starts with
        A = 1, B = 0, Ap = Bp = 0, knows its own column and row, and has no
        neighbour list yet. */
    constructor (w: nat, h: nat)
      ensures Valid() && width == w && height == h
      ensures forall y, x :: 0 <= y < h && 0 <= x < w ==>
                a[y][x] == 1.0 && b[y][x] == 0.0 && ap[y][x] == 0.0 && bp[y][x] == 0.0 &&
                neighbors[y][x] == []
    {
      var cs, rs: Grid<int> := [], [];
      var aGrid, bGrid, apGrid, bpGrid: Field := [], [], [], [];
      var ns: Grid<seq<Coord>> := [];
      for y := 0 to h
        invariant IsGrid(cs, w, y) && IsGrid(rs, w, y) && IsGrid(ns, w, y)
        invariant IsGrid(aGrid, w, y) && IsGrid(bGrid, w, y) && IsGrid(apGrid, w, y) && IsGrid(bpGrid, w, y)
        invariant forall j, i :: 0 <= j < y && 0 <= i < w ==> cs[j][i] == i && rs[j][i] == j
        invariant forall j, i :: 0 <= j < y && 0 <= i < w ==>
                    aGrid[j][i] == 1.0 && bGrid[j][i] == 0.0 && apGrid[j][i] == 0.0 && bpGrid[j][i] == 0.0 && ns[j][i] == []
      {
        var cRow, rRow: seq<int> := [], [];
        var aRow, bRow, apRow, bpRow: seq<real> := [], [], [], [];
        var nRow: seq<seq<Coord>> := [];
        for x := 0 to w
          invariant |cRow| == |rRow| == |aRow| == |bRow| == |apRow| == |bpRow| == |nRow| == x
          invariant forall i :: 0 <= i < x ==> cRow[i] == i && rRow[i] == y
          invariant forall i :: 0 <= i < x ==>
                      aRow[i] == 1.0 && bRow[i] == 0.0 && apRow[i] == 0.0 && bpRow[i] == 0.0 && nRow[i] == []
        {
          cRow, rRow := cRow + [x], rRow + [y];
          aRow, bRow, apRow, bpRow := aRow + [1.0], bRow + [0.0], apRow + [0.0], bpRow + [0.0];
          nRow := nRow + [[]];
        }
        cs, rs := cs + [cRow], rs + [rRow];
        aGrid, bGrid, apGrid, bpGrid := aGrid + [aRow], bGrid + [bRow], apGrid + [apRow], bpGrid + [bpRow];
        ns := ns + [nRow];
      }
      width, height := w, h;
      col, row := cs, rs;
      a, b, ap, bp := aGrid, bGrid, apGrid, bpGrid;
      neighbors := ns;
    }

    /** Resolves the neighbour list of the tile at (x, y) from the tile's own
        column and row; nothing else changes. */
    method GetNeighbors(x: int, y: int)
      requires Valid() && 0 <= x < width && 0 <= y < height
      modifies this
      ensures Valid() && State() == old(State())
      ensures neighbors == SetCell(old(neighbors), Coord(x, y), NeighborList(x, y, width, height))
    {
      var r, c := row[y][x], col[y][x];
      neighbors := SetCell(neighbors, Coord(x, y), NeighborList(c, r, width, height));
    }

    /** `fn_for_tileGrid(getNeighbors)`: resolves every tile's neighbour list,
        row by row. */
    method LinkNeighbors()
      requires Valid()
      modifies this
      ensures Valid() && Linked() && State() == old(State())
    {
      ghost var n0, ng := neighbors, NeighborGrid(width, height);
      RowsFromEnds(ng, n0, width, height);
      for y := 0 to height
        invariant Valid() && State() == old(State())
        invariant neighbors == RowsFrom(ng, n0, y)
      {
        CellsFromRow(ng, n0, width, height, y);
        for x := 0 to width
          invariant Valid() && State() == old(State())
          invariant neighbors == CellsFrom(ng, n0, y, x)
        {
          CellsFromStep(ng, n0, width, height, y, x);
          GetNeighbors(x, y);
        }
      }
    }

    /** Sets B = 1 on the centred size×size square and leaves every other tile
        and every other attribute as it was. */
    method Seed(size: nat)
      requires Valid() && size <= width && size <= height
      modifies this
      ensures Valid() && a == old(a) && ap == old(ap) && bp == old(bp) && neighbors == old(neighbors)
      ensures forall y, x :: 0 <= y < height && 0 <= x < width ==>
                b[y][x] == if InSeed(width, height, size, Coord(x, y)) then 1.0 else old(b[y][x])
    {
      SeedSquareInGrid(width, height, size);
      var oy, ox := height / 2 - size / 2, width / 2 - size / 2;
      for y := 0 to size
        invariant Valid() && a == old(a) && ap == old(ap) && bp == old(bp) && neighbors == old(neighbors)
        invariant forall j, i :: 0 <= j < height && 0 <= i < width ==>
                    b[j][i] == if oy <= j < oy + y && ox <= i < ox + size then 1.0 else old(b[j][i])
      {
        for x := 0 to size
          invariant Valid() && a == old(a) && ap == old(ap) && bp == old(bp) && neighbors == old(neighbors)
          invariant forall j, i :: 0 <= j < height && 0 <= i < width ==>
                      b[j][i] == if (oy <= j < oy + y && ox <= i < ox + size) || (j == oy + y && ox <= i < ox + x)
                                 then 1.0 else old(b[j][i])
        {
          b := SetCell(b, Coord(ox + x, oy + y), 1.0);
        }
      }
    }

    /** Accumulates the weighted sums of the current A and B over the tile's
        neighbour list. */
    method Laplace(x: int, y: int) returns (sumA: real, sumB: real)
      requires Valid() && Linked() && 0 <= x < width && 0 <= y < height
      ensures sumA == Laplacian(Gather(a, NeighborList(x, y, width, height)))
      ensures sumB == Laplacian(Gather(b, NeighborList(x, y, width, height)))
    {
      var nbs := neighbors[y][x];
      ghost var va, vb := Gather(a, nbs), Gather(b, nbs);
      sumA, sumB := 0.0, 0.0;
      for ix := 0 to |Coeffs|
        invariant sumA == WeightedSum(va, Coeffs, ix)
        invariant sumB == WeightedSum(vb, Coeffs, ix)
      {
        var n := Coeffs[ix];
        sumA := sumA + a[nbs[ix].r][nbs[ix].c] * n;
        sumB := sumB + b[nbs[ix].r][nbs[ix].c] * n;
      }
    }

    /** Stages the next A and B of the tile at (x, y): the kinetics of the
        current grid, clamped to [0,1]. Only this tile's Ap and Bp change. */
    method IncreaseChem(x: int, y: int)
      requires Valid() && Linked() && 0 <= x < width && 0 <= y < height
      modifies this
      ensures Valid() && Linked()
      ensures State() == StageCell(old(State()), width, height, Coord(x, y))
    {
      var lapA, lapB := Laplace(x, y);
      var nextA, nextB := Kinetics(a[y][x], b[y][x], lapA, lapB);
      ap := SetCell(ap, Coord(x, y), nextA);
      bp := SetCell(bp, Coord(x, y), nextB);
    }

    /** Commits the staged values of the tile at (x, y): its A takes its Ap and
        its B its Bp; no other tile and no staged value changes. */
    method Swap(x: int, y: int)
      requires Valid() && 0 <= x < width && 0 <= y < height
      modifies this
      ensures Valid() && neighbors == old(neighbors)
      ensures State() == SwapCell(old(State()), width, height, Coord(x, y))
    {
      a := SetCell(a, Coord(x, y), ap[y][x]);
      b := SetCell(b, Coord(x, y), bp[y][x]);
    }

    /** `increaseChem` on every tile of row `y`, left to right. */
    method StageRow(y: int)
      requires Valid() && Linked() && 0 <= y < height
      modifies this
      ensures Valid() && Linked()
      ensures State() == StagingPass(old(State()), width, height, Row(width, y))
    {
      ghost var t0 := State();
      assert Row(width, y)[..0] == [];
      for x := 0 to width
        invariant Valid() && Linked()
        invariant AllInGrid(Row(width, y)[..x], width, height)
        invariant State() == StagingPass(t0, width, height, Row(width, y)[..x])
      {
        RowPrefixStep(width, height, y, x);
        StagingPassSnoc(t0, width, height, Row(width, y)[..x], Coord(x, y));
        IncreaseChem(x, y);
      }
      assert Row(width, y)[..width] == Row(width, y);
    }

    /** `fn_for_tileGrid(increaseChem)`: stages every tile, row by row, each
        row left to right. */
    method StageAll()
      requires Valid() && Linked()
      modifies this
      ensures Valid() && Linked()
      ensures State() == StagingPass(old(State()), width, height, RowMajor(width, height))
    {
      ghost var t0 := State();
      for y := 0 to height
        invariant Valid() && Linked()
        invariant State() == StagingPass(t0, width, height, RowMajor(width, y))
      {
        RowMajorWithin(width, y, height);
        StagingPassAppend(t0, width, height, RowMajor(width, y), Row(width, y));
        StageRow(y);
      }
    }

    /** `swap` on every tile of row `y`, left to right. */
    method SwapRow(y: int)
      requires Valid() && 0 <= y < height
      modifies this
      ensures Valid() && neighbors == old(neighbors)
      ensures State() == SwapPass(old(State()), width, height, Row(width, y))
    {
      ghost var t0 := State();
      assert Row(width, y)[..0] == [];
      for x := 0 to width
        invariant Valid() && neighbors == old(neighbors)
        invariant AllInGrid(Row(width, y)[..x], width, height)
        invariant State() == SwapPass(t0, width, height, Row(width, y)[..x])
      {
        RowPrefixStep(width, height, y, x);
        SwapPassSnoc(t0, width, height, Row(width, y)[..x], Coord(x, y));
        Swap(x, y);
      }
      assert Row(width, y)[..width] == Row(width, y);
    }

    /** `fn_for_tileGrid(swap)`: commits every tile, row by row, each row left
        to right. */
    method SwapAll()
      requires Valid()
      modifies this
      ensures Valid() && neighbors == old(neighbors)
      ensures State() == SwapPass(old(State()), width, height, RowMajor(width, height))
    {
      ghost var t0 := State();
      for y := 0 to height
        invariant Valid() && neighbors == old(neighbors)
        invariant State() == SwapPass(t0, width, height, RowMajor(width, y))
      {
        RowMajorWithin(width, y, height);
        SwapPassAppend(t0, width, height, RowMajor(width, y), Row(width, y));
        SwapRow(y);
      }
    }

    /** One simulation step: the staging pass, then the commit pass. Afterwards
        A and Ap hold the clamped kinetics of the pre-step grid, and B and Bp
        likewise; the neighbour lists are untouched. */
    method UpdateTiles()
      requires Valid() && Linked()
      modifies this
      ensures Valid() && Linked()
      ensures State() == UpdateTilesSpec(old(State()), width, height)
      ensures a == NextFieldA(old(a), old(b), width, height)
      ensures b == NextFieldB(old(a), old(b), width, height)
    {
      ghost var t0 := State();
      StageAll();
      SwapAll();
      UpdateTilesSpecCells(t0, width, height);
    }

    /** `n` frames of the script's main loop, without the drawing and the input
        polling: `n` steps, each on the grid the previous one committed. */
    method Run(n: nat)
      requires Valid() && Linked()
      modifies this
      ensures Valid() && Linked()
      ensures State() == Evolve(old(State()), width, height, n)
      ensures n > 0 ==> InUnitRange(a) && InUnitRange(b)
    {
      ghost var t0 := State();
      for i := 0 to n
        invariant Valid() && Linked()
        invariant State() == Evolve(t0, width, height, i)
      {
        UpdateTiles();
      }
      if n > 0 {
        EvolveInUnitRange(t0, width, height, n);
      }
    }
  }

  /** The arithmetic of `increaseChem` for one tile, step by step as the script
      writes it: the kinetics from the tile's own A and B and its Laplacians, the
      time scale, then the two clamping reassignments. */
  method Kinetics(a: real, b: real, lapA: real, lapB: real) returns (ap: real, bp: real)
    ensures ap == Clamp(RawA(a, b, lapA)) && bp == Clamp(RawB(a, b, lapB))
    ensures 0.0 <= ap <= 1.0 && 0.0 <= bp <= 1.0
  {
    ap := a + DA * lapA - a * b * b + Feed * (1.0 - a);
    ap := ap * TimeScale;
    bp := b + DB * lapB + a * b * b - (Kill + Feed) * b;
    bp := bp * TimeScale;
    assert ap == RawA(a, b, lapA) && bp == RawB(a, b, lapB);
    ap := if ap <= 0.0 then 0.0 else ap;
    ap := if ap >= 1.0 then 1.0 else ap;
    bp := if bp <= 0.0 then 0.0 else bp;
    bp := if bp >= 1.0 then 1.0 else bp;
  }

  /** The script's start-up: a 160×160 grid, every neighbour list resolved,
      a 60×60 square seeded with B = 1. */
  method Setup() returns (g: TileGrid)
    ensures g.Valid() && g.Linked() && g.width == Width && g.height == Height
    ensures forall y, x :: 0 <= y < Height && 0 <= x < Width ==>
              g.a[y][x] == 1.0 && g.ap[y][x] == 0.0 && g.bp[y][x] == 0.0 &&
              g.b[y][x] == if InSeed(Width, Height, SeedSize, Coord(x, y)) then 1.0 else 0.0
    ensures g.a[80][80] == 1.0 && g.b[80][80] == 1.0
    ensures g.a[0][0] == 1.0 && g.b[0][0] == 0.0
  {
    g := new TileGrid(Width, Height);
    g.LinkNeighbors();
    g.Seed(SeedSize);
    assert InSeed(Width, Height, SeedSize, Coord(80, 80));
    assert !InSeed(Width, Height, SeedSize, Coord(0, 0));
  }
}
