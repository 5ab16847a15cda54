/// The two lattice geometries: grid extents, periodic wrap (`boundary`), the
/// neighbour offsets each `deltaE` visits, and how a trial picks its site.
module Lattice {

  datatype Geometry = Square | Hexagonal

  // Square lattice: one cell of `SquareSize` pixels per grid point.
  const ScreenWidth: nat := 800
  const ScreenHeight: nat := 600
  const SquareSize: nat := 2
  // Hexagonal lattice: fixed extents.
  const HexWidth: nat := 190
  const HexHeight: nat := 130

  /** Nx: the extent of the first index. */
  function Width(g: Geometry): nat {
    match g
    case Square => ScreenWidth / SquareSize
    case Hexagonal => HexWidth
  }

  /** Ny: the extent of the second index. */
  function Height(g: Geometry): nat {
    match g
    case Square => ScreenHeight / SquareSize
    case Hexagonal => HexHeight
  }

  /** `boundary`: periodic wrap that handles only the two indices one step
      outside [0, n); every other index is returned as it is. On [-1, n] it
      agrees with reduction modulo n. */
  function Boundary(i: int, n: int): (r: int)
    ensures i != -1 && i != n ==> r == i
    ensures 1 <= n && -1 <= i <= n ==> 0 <= r < n
  {
    if i == -1 then n - 1
    else if i == n then 0
    else i
  }

  /** On [-1, n] the wrap is reduction modulo n: -1 goes to n - 1, n to 0. */
  lemma BoundaryIsModulo(i: int, n: int)
    requires 1 <= n && -1 <= i <= n
    ensures Boundary(i, n) == i % n
  {
    if i == -1 {
      assert (n - 1) % n == n - 1;
      assert -1 == -1 * n + (n - 1);
    } else if i == n {
      assert n % n == 0;
    }
  }

  /** Wrapping one step away and one step back returns to the start. */
  lemma BoundaryStepBack(i: int, n: int, d: int)
    requires 0 <= i < n && -1 <= d <= 1
    ensures Boundary(Boundary(i + d, n) - d, n) == i
  {
  }

  /** The site a trial picks from the first draw. On the square lattice the
      macro `Nx` expands without outer parentheses, so `rand() % Nx` is
      `(rand() % 800) / 2`. */
  function PickRow(g: Geometry, r: nat): (i: nat)
    ensures i < Width(g)
  {
    match g
    case Square => (r % ScreenWidth) / SquareSize
    case Hexagonal => r % HexWidth
  }

  /** The site a trial picks from the second draw: `(rand() % 600) / 2` on
      the square lattice, `rand() % 130` on the hexagonal one. */
  function PickCol(g: Geometry, r: nat): (j: nat)
    ensures j < Height(g)
  {
    match g
    case Square => (r % ScreenHeight) / SquareSize
    case Hexagonal => r % HexHeight
  }

  /** Every row and every column can be picked. */
  lemma PickReachesEverySite(g: Geometry, i: nat, j: nat)
    requires i < Width(g) && j < Height(g)
    ensures exists r: nat :: PickRow(g, r) == i
    ensures exists r: nat :: PickCol(g, r) == j
  {
    match g
    case Square =>
      assert PickRow(g, SquareSize * i) == i;
      assert PickCol(g, SquareSize * j) == j;
    case Hexagonal =>
      assert PickRow(g, i) == i;
      assert PickCol(g, j) == j;
  }

  /** A relative neighbour position and the weight of its coupling. */
  datatype Offset = Offset(di: int, dj: int, weight: real)

  /** The neighbours `deltaE` visits, in the order it visits them. Square:
      4 axis neighbours at full weight, then 4 diagonal neighbours at half
      weight. Hexagonal: 6 neighbours at full weight. */
  function Offsets(g: Geometry): (os: seq<Offset>)
    ensures forall k :: 0 <= k < |os| ==> UnitOffset(os[k])
  {
    match g
    case Square =>
      [Offset(1, 0, 1.0), Offset(-1, 0, 1.0), Offset(0, 1, 1.0), Offset(0, -1, 1.0),
       Offset(1, 1, 0.5), Offset(-1, 1, 0.5), Offset(-1, -1, 0.5), Offset(1, -1, 0.5)]
    case Hexagonal =>
      [Offset(1, 0, 1.0), Offset(-1, 0, 1.0), Offset(1, -1, 1.0), Offset(-1, -1, 1.0),
       Offset(0, -1, 1.0), Offset(0, 1, 1.0)]
  }

  /** One step in each direction at most, and never zero. */
  predicate UnitOffset(o: Offset) {
    -1 <= o.di <= 1 && -1 <= o.dj <= 1 && (o.di != 0 || o.dj != 0)
  }

  /** The wrapped site an offset designates from (i, j). */
  function Target(g: Geometry, i: int, j: int, o: Offset): (t: (int, int))
    requires 0 <= i < Width(g) && 0 <= j < Height(g) && UnitOffset(o)
    ensures 0 <= t.0 < Width(g) && 0 <= t.1 < Height(g)
    ensures t != (i, j)
  {
    (Boundary(i + o.di, Width(g)), Boundary(j + o.dj, Height(g)))
  }

  /** (p, q) is among the sites `deltaE` reads for site (i, j). */
  ghost predicate IsNeighbour(g: Geometry, i: int, j: int, p: int, q: int)
    requires 0 <= i < Width(g) && 0 <= j < Height(g)
  {
    exists k :: 0 <= k < |Offsets(g)| && Target(g, i, j, Offsets(g)[k]) == (p, q)
  }

  /** On the square lattice, being a neighbour is a symmetric relation: the
      offsets come in opposite pairs. */
  lemma SquareNeighbourSymmetric(i: int, j: int, p: int, q: int)
    requires 0 <= i < Width(Square) && 0 <= j < Height(Square)
    requires 0 <= p < Width(Square) && 0 <= q < Height(Square)
    requires IsNeighbour(Square, i, j, p, q)
    ensures IsNeighbour(Square, p, q, i, j)
  {
    var os := Offsets(Square);
    var k :| 0 <= k < |os| && Target(Square, i, j, os[k]) == (p, q);
    var back := [1, 0, 3, 2, 6, 7, 4, 5][k];
    assert os[back].di == -os[k].di && os[back].dj == -os[k].dj;
    BoundaryStepBack(i, Width(Square), os[k].di);
    BoundaryStepBack(j, Height(Square), os[k].dj);
    assert Target(Square, p, q, os[back]) == (i, j);
  }

  /** On the hexagonal lattice it is not: (2, 0) is a neighbour of (1, 1),
      but (1, 1) is not a neighbour of (2, 0), because the offset (1, -1)
      is listed while its opposite (-1, 1) is not. */
  lemma HexNeighbourNotSymmetric()
    ensures IsNeighbour(Hexagonal, 1, 1, 2, 0)
    ensures !IsNeighbour(Hexagonal, 2, 0, 1, 1)
  {
    var os := Offsets(Hexagonal);
    assert Target(Hexagonal, 1, 1, os[2]) == (2, 0);
    forall k | 0 <= k < |os|
      ensures Target(Hexagonal, 2, 0, os[k]) != (1, 1)
    {
    }
  }
}
