/** Grid positions on the W×H torus and each tile's 9-entry neighbour list. */
module Topology {

  /** A tile's place in the grid: column `c` (tile.c) and row `r` (tile.r). */
  datatype Coord = Coord(c: int, r: int)

  predicate InGrid(p: Coord, w: int, h: int)
  {
    0 <= p.c < w && 0 <= p.r < h
  }

  /** Python's subscript `xs[i]` on a list of length `n`, for `-n <= i < n`:
      a negative index counts back from the end of the list. */
  function PyIndex(i: int, n: int): (k: int)
    requires 0 < n && -n <= i < n
    ensures 0 <= k < n
    ensures k == i % n
  {
    if i < 0 then i + n else i
  }

  /** Column offset of neighbour-list entry `i` (entries run row-major over {-1,0,1}²). */
  function Dx(i: int): int { i % 3 - 1 }

  /** Row offset of neighbour-list entry `i`. */
  function Dy(i: int): int { i / 3 - 1 }

  /** The neighbour list `getNeighbors` builds for the tile at column `c`, row `r`:
      the `-1` side wraps by Python negative indexing, the `+1` side by `%`. */
  function NeighborList(c: int, r: int, w: int, h: int): (nbs: seq<Coord>)
    requires 0 <= c < w && 0 <= r < h
    ensures |nbs| == 9
    ensures nbs[4] == Coord(c, r)
    ensures forall i :: 0 <= i < |nbs| ==> InGrid(nbs[i], w, h)
  {
    var up, down := PyIndex(r - 1, h), (r + 1) % h;
    var left, right := PyIndex(c - 1, w), (c + 1) % w;
    [Coord(left, up), Coord(c, up), Coord(right, up),
     Coord(left, r), Coord(c, r), Coord(right, r),
     Coord(left, down), Coord(c, down), Coord(right, down)]
  }

  lemma ModOfInRange(x: int, n: int)
    requires 0 <= x < n
    ensures x % n == x
  {
  }

  /** Entry `i` of a neighbour list is the tile at ((c + dx) mod W, (r + dy) mod H). */
  lemma {:induction false} NeighborListWrap(c: int, r: int, w: int, h: int, i: int)
    requires 0 <= c < w && 0 <= r < h && 0 <= i < 9
    ensures NeighborList(c, r, w, h)[i] == Coord((c + Dx(i)) % w, (r + Dy(i)) % h)
  {
    ModOfInRange(c, w);
    ModOfInRange(r, h);
    assert PyIndex(c - 1, w) == (c - 1) % w;
    assert PyIndex(r - 1, h) == (r - 1) % h;
    assert Dx(i) == [-1, 0, 1, -1, 0, 1, -1, 0, 1][i];
    assert Dy(i) == [-1, -1, -1, 0, 0, 0, 1, 1, 1][i];
  }

  /** The corners wrap diagonally: the top-left neighbour of (0,0) is (W-1,H-1),
      and the bottom-right neighbour of (W-1,H-1) is (0,0). */
  lemma CornerWrap(w: int, h: int)
    requires 0 < w && 0 < h
    ensures NeighborList(0, 0, w, h)[0] == Coord(w - 1, h - 1)
    ensures NeighborList(w - 1, h - 1, w, h)[8] == Coord(0, 0)
  {
    assert w % w == 0 && h % h == 0;
  }

  /** Adjacency is symmetric: if q is entry `i` of p's list, p is entry `8 - i` of q's. */
  lemma {:induction false} NeighborListSymmetric(c: int, r: int, w: int, h: int, i: int)
    requires 0 <= c < w && 0 <= r < h && 0 <= i < 9
    ensures var q := NeighborList(c, r, w, h)[i];
            NeighborList(q.c, q.r, w, h)[8 - i] == Coord(c, r)
  {
    var q := NeighborList(c, r, w, h)[i];
    NeighborListWrap(c, r, w, h, i);
    NeighborListWrap(q.c, q.r, w, h, 8 - i);
    OppositeOffsets(i);
    WrapBack(c, Dx(i), w);
    WrapBack(r, Dy(i), h);
  }

  /** Entries `i` and `8 - i` of a neighbour list lie in opposite directions. */
  lemma OppositeOffsets(i: int)
    requires 0 <= i < 9
    ensures Dx(8 - i) == -Dx(i) && Dy(8 - i) == -Dy(i)
  {
    assert Dx(i) == [-1, 0, 1, -1, 0, 1, -1, 0, 1][i];
    assert Dy(i) == [-1, -1, -1, 0, 0, 0, 1, 1, 1][i];
    assert Dx(8 - i) == [-1, 0, 1, -1, 0, 1, -1, 0, 1][8 - i];
    assert Dy(8 - i) == [-1, -1, -1, 0, 0, 0, 1, 1, 1][8 - i];
  }

  /** Stepping by `d` in {-1,0,1} and then by `-d` on a cycle of length `n` returns home. */
  lemma WrapBack(x: int, d: int, n: int)
    requires 0 <= x < n && -1 <= d <= 1
    ensures ((x + d) % n - d) % n == x
  {
    ModOfInRange(x, n);
    if d == 0 {
    } else if d == 1 && x + 1 < n {
      ModOfInRange(x + 1, n);
    } else if d == 1 {
      ModSelf(n);
      ModMinusOne(n);
    } else if x > 0 {
      ModOfInRange(x - 1, n);
    } else {
      ModMinusOne(n);
      ModSelf(n);
    }
  }

  lemma ModSelf(n: int)
    requires 0 < n
    ensures n % n == 0
  {
  }

  lemma ModMinusOne(n: int)
    requires 0 < n
    ensures (-1) % n == n - 1
  {
  }
}
