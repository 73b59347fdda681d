/** Row-major grids of values (the shape of the script's `tileGrid`, one value
    per tile) and the prefix splices that describe a grid part-way through a
    row-by-row sweep. */
module Grids {
  import opened Topology

  /** One value per tile, indexed [row][column]. */
  type Grid<T> = seq<seq<T>>

  /** `g` has `h` rows of `w` values each. */
  predicate IsGrid<T>(g: Grid<T>, w: int, h: int)
  {
    |g| == h && forall y :: 0 <= y < h ==> |g[y]| == w
  }

  /** `g` with the value of the tile at `p` replaced by `v`. */
  function SetCell<T>(g: Grid<T>, p: Coord, v: T): Grid<T>
    requires 0 <= p.r < |g| && 0 <= p.c < |g[p.r]|
  {
    g[p.r := g[p.r][p.c := v]]
  }

  /** Two grids of the same shape that agree on every tile are equal. */
  lemma {:induction false} GridExt<T>(f: Grid<T>, g: Grid<T>, w: int, h: int)
    requires IsGrid(f, w, h) && IsGrid(g, w, h)
    requires forall y, x :: 0 <= y < h && 0 <= x < w ==> f[y][x] == g[y][x]
    ensures f == g
  {
    forall y | 0 <= y < h
      ensures f[y] == g[y]
    {
      assert |f[y]| == |g[y]| == w;
    }
  }

  /** The first `y` rows of `g` followed by the remaining rows of `f`. */
  function RowsFrom<T>(g: Grid<T>, f: Grid<T>, y: nat): Grid<T>
    requires y <= |g| && y <= |f|
  {
    g[..y] + f[y..]
  }

  /** The first `y` rows and the first `x` tiles of row `y` taken from `g`, the
      rest from `f`: how a sweep from `f` towards `g` stands before tile (x, y). */
  function CellsFrom<T>(g: Grid<T>, f: Grid<T>, y: nat, x: nat): Grid<T>
    requires y < |g| && y < |f| && x <= |g[y]| && x <= |f[y]|
  {
    g[..y] + [g[y][..x] + f[y][x..]] + f[y + 1..]
  }

  /** A sweep that has taken no rows still has `f`; one that has taken them all has `g`. */
  lemma RowsFromEnds<T>(g: Grid<T>, f: Grid<T>, w: nat, h: nat)
    requires IsGrid(g, w, h) && IsGrid(f, w, h)
    ensures RowsFrom(g, f, 0) == f && RowsFrom(g, f, h) == g
  {
    assert g[..0] + f[0..] == f;
    assert g[..h] + f[h..] == g;
  }

  /** Starting row `y` takes nothing new from `g`; finishing it is the same as
      taking the first `y + 1` rows. */
  lemma CellsFromRow<T>(g: Grid<T>, f: Grid<T>, w: nat, h: nat, y: nat)
    requires IsGrid(g, w, h) && IsGrid(f, w, h) && y < h
    ensures CellsFrom(g, f, y, 0) == RowsFrom(g, f, y)
    ensures CellsFrom(g, f, y, w) == RowsFrom(g, f, y + 1)
  {
    assert g[y][..0] + f[y][0..] == f[y];
    assert f[y..] == [f[y]] + f[y + 1..];
    assert g[y][..w] + f[y][w..] == g[y];
    assert g[..y + 1] == g[..y] + [g[y]];
  }

  /** Taking one more tile of row `y` from `g` is writing `g`'s value there. */
  lemma CellsFromStep<T>(g: Grid<T>, f: Grid<T>, w: nat, h: nat, y: nat, x: nat)
    requires IsGrid(g, w, h) && IsGrid(f, w, h) && y < h && x < w
    ensures IsGrid(CellsFrom(g, f, y, x), w, h)
    ensures SetCell(CellsFrom(g, f, y, x), Coord(x, y), g[y][x]) == CellsFrom(g, f, y, x + 1)
  {
    var c := CellsFrom(g, f, y, x);
    assert forall j :: 0 <= j < h ==> c[j] == if j < y then g[j] else if j == y then g[y][..x] + f[y][x..] else f[j];
    assert (g[y][..x] + f[y][x..])[x := g[y][x]] == g[y][..x + 1] + f[y][x + 1..];
  }
}
