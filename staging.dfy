/** A value model of one `updateTiles` pass: the staging pass (`increaseChem` on
    every tile, in some visit order) followed by the commit (`swap` on every tile). */
module Staging {
  import opened Topology
  import opened Grids
  import opened Kernel

  /** The four per-tile chemical attributes of the whole grid: current A and B,
      staged Ap and Bp. */
  datatype Tiles = Tiles(a: Field, b: Field, ap: Field, bp: Field)

  predicate WellFormed(t: Tiles, w: int, h: int)
  {
    IsGrid(t.a, w, h) && IsGrid(t.b, w, h) && IsGrid(t.ap, w, h) && IsGrid(t.bp, w, h)
  }

  predicate AllInGrid(order: seq<Coord>, w: int, h: int)
  {
    forall i :: 0 <= i < |order| ==> InGrid(order[i], w, h)
  }

  /** `f` with the value of `g` copied in at every position of `order`, first to last. */
  function Overwrite(f: Field, g: Field, w: nat, h: nat, order: seq<Coord>): (f': Field)
    requires IsGrid(f, w, h) && IsGrid(g, w, h) && AllInGrid(order, w, h)
    ensures IsGrid(f', w, h)
    decreases |order|
  {
    if order == [] then f
    else
      var p := order[|order| - 1];
      SetCell(Overwrite(f, g, w, h, order[..|order| - 1]), p, g[p.r][p.c])
  }

  /** A position takes `g`'s value exactly when the order visits it. */
  lemma {:induction false} OverwriteEffect(f: Field, g: Field, w: nat, h: nat, order: seq<Coord>)
    requires IsGrid(f, w, h) && IsGrid(g, w, h) && AllInGrid(order, w, h)
    ensures forall y, x :: 0 <= y < h && 0 <= x < w ==>
              Overwrite(f, g, w, h, order)[y][x] == if Coord(x, y) in order then g[y][x] else f[y][x]
    decreases |order|
  {
    if order != [] {
      var prefix, last := order[..|order| - 1], order[|order| - 1];
      OverwriteEffect(f, g, w, h, prefix);
      assert order == prefix + [last];
      forall y, x | 0 <= y < h && 0 <= x < w
        ensures Coord(x, y) in order <==> Coord(x, y) == last || Coord(x, y) in prefix
      {
      }
    }
  }

  /** Only the set of visited positions matters, not the order of the visits. */
  lemma OverwriteOrderIndependent(f: Field, g: Field, w: nat, h: nat, o1: seq<Coord>, o2: seq<Coord>)
    requires IsGrid(f, w, h) && IsGrid(g, w, h) && AllInGrid(o1, w, h) && AllInGrid(o2, w, h)
    requires forall p :: p in o1 <==> p in o2
    ensures Overwrite(f, g, w, h, o1) == Overwrite(f, g, w, h, o2)
  {
    OverwriteEffect(f, g, w, h, o1);
    OverwriteEffect(f, g, w, h, o2);
    GridExt(Overwrite(f, g, w, h, o1), Overwrite(f, g, w, h, o2), w, h);
  }

  /** An order that visits every position copies all of `g`. */
  lemma OverwriteAll(f: Field, g: Field, w: nat, h: nat, order: seq<Coord>)
    requires IsGrid(f, w, h) && IsGrid(g, w, h) && AllInGrid(order, w, h)
    requires forall y, x :: 0 <= y < h && 0 <= x < w ==> Coord(x, y) in order
    ensures Overwrite(f, g, w, h, order) == g
  {
    OverwriteEffect(f, g, w, h, order);
    GridExt(Overwrite(f, g, w, h, order), g, w, h);
  }

  /** `increaseChem` on the tile at `p`. */
  function StageCell(t: Tiles, w: nat, h: nat, p: Coord): (t': Tiles)
    requires WellFormed(t, w, h) && InGrid(p, w, h)
    ensures WellFormed(t', w, h)
  {
    t.(ap := SetCell(t.ap, p, NextA(t.a, t.b, w, h, p)),
       bp := SetCell(t.bp, p, NextB(t.a, t.b, w, h, p)))
  }

  /** The staging pass visiting the tiles in `order`, first to last. */
  function StagingPass(t: Tiles, w: nat, h: nat, order: seq<Coord>): (t': Tiles)
    requires WellFormed(t, w, h) && AllInGrid(order, w, h)
    ensures WellFormed(t', w, h)
    decreases |order|
  {
    if order == [] then t
    else StageCell(StagingPass(t, w, h, order[..|order| - 1]), w, h, order[|order| - 1])
  }

  /** Whatever the visit order, the staging pass leaves A and B as they were and
      copies the kinetics of the pre-pass grid into Ap and Bp on exactly the
      visited tiles: no tile's kinetics observes another tile's staged output. */
  lemma {:induction false} StagingPassOverwrites(t: Tiles, w: nat, h: nat, order: seq<Coord>)
    requires WellFormed(t, w, h) && AllInGrid(order, w, h)
    ensures StagingPass(t, w, h, order) ==
            t.(ap := Overwrite(t.ap, NextFieldA(t.a, t.b, w, h), w, h, order),
               bp := Overwrite(t.bp, NextFieldB(t.a, t.b, w, h), w, h, order))
    decreases |order|
  {
    if order != [] {
      var prefix, p := order[..|order| - 1], order[|order| - 1];
      var na, nb := NextFieldA(t.a, t.b, w, h), NextFieldB(t.a, t.b, w, h);
      StagingPassOverwrites(t, w, h, prefix);
      assert na[p.r][p.c] == NextA(t.a, t.b, w, h, p);
      assert nb[p.r][p.c] == NextB(t.a, t.b, w, h, p);
    }
  }

  /** Staging, per tile: A and B are untouched; a visited tile's Ap and Bp are the
      kinetics of the pre-pass grid, an unvisited tile's are as before. */
  lemma StagingPassEffect(t: Tiles, w: nat, h: nat, order: seq<Coord>)
    requires WellFormed(t, w, h) && AllInGrid(order, w, h)
    ensures var t' := StagingPass(t, w, h, order);
            && t'.a == t.a && t'.b == t.b
            && forall y, x :: 0 <= y < h && 0 <= x < w ==>
                 && t'.ap[y][x] == (if Coord(x, y) in order then NextA(t.a, t.b, w, h, Coord(x, y)) else t.ap[y][x])
                 && t'.bp[y][x] == (if Coord(x, y) in order then NextB(t.a, t.b, w, h, Coord(x, y)) else t.bp[y][x])
  {
    StagingPassOverwrites(t, w, h, order);
    NextFieldACells(t.a, t.b, w, h);
    NextFieldBCells(t.a, t.b, w, h);
    OverwriteEffect(t.ap, NextFieldA(t.a, t.b, w, h), w, h, order);
    OverwriteEffect(t.bp, NextFieldB(t.a, t.b, w, h), w, h, order);
  }

  /** Two visit orders that reach the same tiles stage exactly the same values. */
  lemma StagingOrderIndependent(t: Tiles, w: nat, h: nat, o1: seq<Coord>, o2: seq<Coord>)
    requires WellFormed(t, w, h) && AllInGrid(o1, w, h) && AllInGrid(o2, w, h)
    requires forall p :: p in o1 <==> p in o2
    ensures StagingPass(t, w, h, o1) == StagingPass(t, w, h, o2)
  {
    StagingPassOverwrites(t, w, h, o1);
    StagingPassOverwrites(t, w, h, o2);
    OverwriteOrderIndependent(t.ap, NextFieldA(t.a, t.b, w, h), w, h, o1, o2);
    OverwriteOrderIndependent(t.bp, NextFieldB(t.a, t.b, w, h), w, h, o1, o2);
  }

  /** Staging one more tile after a pass is the pass over the longer order. */
  lemma StagingPassSnoc(t: Tiles, w: nat, h: nat, order: seq<Coord>, p: Coord)
    requires WellFormed(t, w, h) && AllInGrid(order, w, h) && InGrid(p, w, h)
    ensures AllInGrid(order + [p], w, h)
    ensures StagingPass(t, w, h, order + [p]) == StageCell(StagingPass(t, w, h, order), w, h, p)
  {
    assert (order + [p])[..|order|] == order;
  }

  /** Staging along `o1` and then along `o2` is staging along `o1 + o2`. */
  lemma {:induction false} StagingPassAppend(t: Tiles, w: nat, h: nat, o1: seq<Coord>, o2: seq<Coord>)
    requires WellFormed(t, w, h) && AllInGrid(o1, w, h) && AllInGrid(o2, w, h)
    ensures AllInGrid(o1 + o2, w, h)
    ensures StagingPass(t, w, h, o1 + o2) == StagingPass(StagingPass(t, w, h, o1), w, h, o2)
    decreases |o2|
  {
    if o2 == [] {
      assert o1 + o2 == o1;
    } else {
      var prefix := o2[..|o2| - 1];
      StagingPassAppend(t, w, h, o1, prefix);
      assert (o1 + o2)[..|o1 + o2| - 1] == o1 + prefix;
    }
  }

  /** `swap` on the tile at `p`: its A takes its Ap and its B takes its Bp. */
  function SwapCell(t: Tiles, w: nat, h: nat, p: Coord): (t': Tiles)
    requires WellFormed(t, w, h) && InGrid(p, w, h)
    ensures WellFormed(t', w, h)
  {
    t.(a := SetCell(t.a, p, t.ap[p.r][p.c]), b := SetCell(t.b, p, t.bp[p.r][p.c]))
  }

  /** The commit pass visiting the tiles in `order`, first to last. */
  function SwapPass(t: Tiles, w: nat, h: nat, order: seq<Coord>): (t': Tiles)
    requires WellFormed(t, w, h) && AllInGrid(order, w, h)
    ensures WellFormed(t', w, h)
    decreases |order|
  {
    if order == [] then t
    else SwapCell(SwapPass(t, w, h, order[..|order| - 1]), w, h, order[|order| - 1])
  }

  /** The commit pass copies Ap and Bp into A and B on exactly the visited tiles
      and leaves the staging fields alone. */
  lemma {:induction false} SwapPassOverwrites(t: Tiles, w: nat, h: nat, order: seq<Coord>)
    requires WellFormed(t, w, h) && AllInGrid(order, w, h)
    ensures SwapPass(t, w, h, order) ==
            t.(a := Overwrite(t.a, t.ap, w, h, order), b := Overwrite(t.b, t.bp, w, h, order))
    decreases |order|
  {
    if order != [] {
      SwapPassOverwrites(t, w, h, order[..|order| - 1]);
    }
  }

  /** Committing one more tile after a pass is the pass over the longer order. */
  lemma SwapPassSnoc(t: Tiles, w: nat, h: nat, order: seq<Coord>, p: Coord)
    requires WellFormed(t, w, h) && AllInGrid(order, w, h) && InGrid(p, w, h)
    ensures AllInGrid(order + [p], w, h)
    ensures SwapPass(t, w, h, order + [p]) == SwapCell(SwapPass(t, w, h, order), w, h, p)
  {
    assert (order + [p])[..|order|] == order;
  }

  /** Committing along `o1` and then along `o2` is committing along `o1 + o2`. */
  lemma {:induction false} SwapPassAppend(t: Tiles, w: nat, h: nat, o1: seq<Coord>, o2: seq<Coord>)
    requires WellFormed(t, w, h) && AllInGrid(o1, w, h) && AllInGrid(o2, w, h)
    ensures AllInGrid(o1 + o2, w, h)
    ensures SwapPass(t, w, h, o1 + o2) == SwapPass(SwapPass(t, w, h, o1), w, h, o2)
    decreases |o2|
  {
    if o2 == [] {
      assert o1 + o2 == o1;
    } else {
      var prefix := o2[..|o2| - 1];
      SwapPassAppend(t, w, h, o1, prefix);
      assert (o1 + o2)[..|o1 + o2| - 1] == o1 + prefix;
    }
  }

  /** Row `y` of the grid, left to right. */
  function Row(w: nat, y: int): (row: seq<Coord>)
    ensures |row| == w
    ensures forall x :: 0 <= x < w ==> row[x] == Coord(x, y)
  {
    seq(w, x => Coord(x, y))
  }

  /** The first `h` rows of the grid in the order `fn_for_tileGrid` visits them:
      top to bottom, each row left to right. */
  function RowMajor(w: nat, h: nat): (cells: seq<Coord>)
    ensures AllInGrid(cells, w, h)
  {
    if h == 0 then [] else RowMajor(w, h - 1) + Row(w, h - 1)
  }

  /** The first `y` rows of a grid of height `h >= y` lie inside that grid. */
  lemma RowMajorWithin(w: nat, y: nat, h: nat)
    requires y <= h
    ensures AllInGrid(RowMajor(w, y), w, h)
  {
    var cells := RowMajor(w, y);
    assert forall i :: 0 <= i < |cells| ==> InGrid(cells[i], w, y);
  }

  /** The first `x` tiles of row `y` of a grid of height `h > y` lie inside that
      grid, and visiting tile (x, y) next extends them by that tile. */
  lemma RowPrefixStep(w: nat, h: nat, y: nat, x: nat)
    requires y < h && x < w
    ensures AllInGrid(Row(w, y)[..x], w, h) && AllInGrid(Row(w, y)[..x + 1], w, h)
    ensures Row(w, y)[..x + 1] == Row(w, y)[..x] + [Coord(x, y)]
  {
  }

  /** The row-major walk visits exactly the tiles of the grid. */
  lemma {:induction false} RowMajorCells(w: nat, h: nat, p: Coord)
    ensures p in RowMajor(w, h) <==> InGrid(p, w, h)
  {
    if h > 0 {
      RowMajorCells(w, h - 1, p);
      if InGrid(p, w, h) && p.r == h - 1 {
        assert Row(w, h - 1)[p.c] == p;
      }
    }
  }

  /** One `updateTiles`: the row-major staging pass, then the row-major commit pass. */
  function UpdateTilesSpec(t: Tiles, w: nat, h: nat): (t': Tiles)
    requires WellFormed(t, w, h)
    ensures WellFormed(t', w, h)
  {
    var order := RowMajor(w, h);
    SwapPass(StagingPass(t, w, h, order), w, h, order)
  }

  /** The row-major walk reaches every tile of the grid. */
  lemma RowMajorCoversGrid(w: nat, h: nat)
    ensures forall y, x :: 0 <= y < h && 0 <= x < w ==> Coord(x, y) in RowMajor(w, h)
  {
    forall y, x | 0 <= y < h && 0 <= x < w
      ensures Coord(x, y) in RowMajor(w, h)
    {
      RowMajorCells(w, h, Coord(x, y));
    }
  }

  /** A row-major commit pass copies all of Ap into A and all of Bp into B. */
  lemma CommitAll(t: Tiles, w: nat, h: nat)
    requires WellFormed(t, w, h)
    ensures SwapPass(t, w, h, RowMajor(w, h)) == t.(a := t.ap, b := t.bp)
  {
    var order := RowMajor(w, h);
    RowMajorCoversGrid(w, h);
    SwapPassOverwrites(t, w, h, order);
    OverwriteAll(t.a, t.ap, w, h, order);
    OverwriteAll(t.b, t.bp, w, h, order);
  }

  /** After one update A and Ap both hold the clamped kinetics of the pre-step
      grid, and B and Bp likewise. */
  lemma UpdateTilesSpecCells(t: Tiles, w: nat, h: nat)
    requires WellFormed(t, w, h)
    ensures var na, nb := NextFieldA(t.a, t.b, w, h), NextFieldB(t.a, t.b, w, h);
            UpdateTilesSpec(t, w, h) == Tiles(na, nb, na, nb)
  {
    var order := RowMajor(w, h);
    var na, nb := NextFieldA(t.a, t.b, w, h), NextFieldB(t.a, t.b, w, h);
    RowMajorCoversGrid(w, h);
    StagingPassOverwrites(t, w, h, order);
    OverwriteAll(t.ap, na, w, h, order);
    OverwriteAll(t.bp, nb, w, h, order);
    CommitAll(t.(ap := na, bp := nb), w, h);
  }

  /** Every concentration lies in [0,1] after an update, whatever the values before. */
  lemma UpdateTilesSpecInUnitRange(t: Tiles, w: nat, h: nat)
    requires WellFormed(t, w, h)
    ensures InUnitRange(UpdateTilesSpec(t, w, h).a) && InUnitRange(UpdateTilesSpec(t, w, h).b)
  {
    UpdateTilesSpecCells(t, w, h);
    NextFieldsInUnitRange(t.a, t.b, w, h);
  }

  /** The 3×3 scenario over one whole step: starting with the centre at A = B = 0.5,
      the rest at A = 1, B = 0 and nothing staged, one update leaves the centre at
      A = 1 and B = 0.475125. */
  lemma CentreOfThreeByThreeStep()
    ensures var A := [[1.0, 1.0, 1.0], [1.0, 0.5, 1.0], [1.0, 1.0, 1.0]];
            var B := [[0.0, 0.0, 0.0], [0.0, 0.5, 0.0], [0.0, 0.0, 0.0]];
            var Z := [[0.0, 0.0, 0.0], [0.0, 0.0, 0.0], [0.0, 0.0, 0.0]];
            WellFormed(Tiles(A, B, Z, Z), 3, 3) &&
            UpdateTilesSpec(Tiles(A, B, Z, Z), 3, 3).a[1][1] == 1.0 &&
            UpdateTilesSpec(Tiles(A, B, Z, Z), 3, 3).b[1][1] == 0.475125
  {
    var A := [[1.0, 1.0, 1.0], [1.0, 0.5, 1.0], [1.0, 1.0, 1.0]];
    var B := [[0.0, 0.0, 0.0], [0.0, 0.5, 0.0], [0.0, 0.0, 0.0]];
    var Z := [[0.0, 0.0, 0.0], [0.0, 0.0, 0.0], [0.0, 0.0, 0.0]];
    assert WellFormed(Tiles(A, B, Z, Z), 3, 3);
    UpdateTilesSpecCells(Tiles(A, B, Z, Z), 3, 3);
    NextFieldACells(A, B, 3, 3);
    NextFieldBCells(A, B, 3, 3);
    CentreOfThreeByThree();
  }

  /** `n` successive updates. */
  function Evolve(t: Tiles, w: nat, h: nat, n: nat): (t': Tiles)
    requires WellFormed(t, w, h)
    ensures WellFormed(t', w, h)
  {
    if n == 0 then t else UpdateTilesSpec(Evolve(t, w, h, n - 1), w, h)
  }

  /** After at least one update, every concentration lies in [0,1],
      whatever the starting values. */
  lemma EvolveInUnitRange(t: Tiles, w: nat, h: nat, n: nat)
    requires WellFormed(t, w, h) && n > 0
    ensures InUnitRange(Evolve(t, w, h, n).a) && InUnitRange(Evolve(t, w, h, n).b)
  {
    UpdateTilesSpecInUnitRange(Evolve(t, w, h, n - 1), w, h);
  }
}
