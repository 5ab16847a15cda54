/// The energy change of one trial (`deltaE`), written per geometry as the
/// source computes it, and its reading as "spin change times local field"
/// over the neighbour offsets of the geometry.
module Energy {
  import opened Lattice

  /** The grid a geometry's functions index: Nx rows of Ny cells. */
  predicate Fits(g: Geometry, spins: array2<int>) {
    spins.Length0 == Width(g) && spins.Length1 == Height(g)
  }

  /** Weighted sum of the neighbours listed from position k of Offsets(g)
      onwards, each read through the periodic wrap. */
  function SumFrom(g: Geometry, spins: array2<int>, i: int, j: int, k: nat): real
    reads spins
    requires Fits(g, spins) && 0 <= i < Width(g) && 0 <= j < Height(g)
    requires k <= |Offsets(g)|
    decreases |Offsets(g)| - k
  {
    if k == |Offsets(g)| then 0.0
    else
      var o := Offsets(g)[k];
      var t := Target(g, i, j, o);
      o.weight * (spins[t.0, t.1] as real) + SumFrom(g, spins, i, j, k + 1)
  }

  /** The weighted neighbour sum of site (i, j). */
  function WeightedSum(g: Geometry, spins: array2<int>, i: int, j: int): real
    reads spins
    requires Fits(g, spins) && 0 <= i < Width(g) && 0 <= j < Height(g)
  {
    SumFrom(g, spins, i, j, 0)
  }

  /** The field acting on site (i, j): coupling times weighted neighbour
      sum, plus the external field. */
  function LocalField(g: Geometry, spins: array2<int>, i: int, j: int, J: real, MB: real): real
    reads spins
    requires Fits(g, spins) && 0 <= i < Width(g) && 0 <= j < Height(g)
  {
    J * WeightedSum(g, spins, i, j) + MB
  }

  /** `deltaE` of the square lattice: 4 axis neighbours at weight J and 4
      diagonal neighbours at weight J/2, times the spin change at (i, j),
      minus the external field times that change. */
  function SquareDeltaE(spins: array2<int>, i: int, j: int, originalSpin: int, J: real, MB: real): (delta: real)
    reads spins
    requires Fits(Square, spins) && 0 <= i < Width(Square) && 0 <= j < Height(Square)
    ensures spins[i, j] == originalSpin ==> delta == 0.0
  {
    var nx, ny := Width(Square), Height(Square);
    var neighbours := spins[Boundary(i + 1, nx), j] + spins[Boundary(i - 1, nx), j]
                      + spins[i, Boundary(j + 1, ny)] + spins[i, Boundary(j - 1, ny)];
    var deltaSpin := spins[i, j] - originalSpin;
    var secondNeighbours := spins[Boundary(i + 1, nx), Boundary(j + 1, ny)]
                            + spins[Boundary(i - 1, nx), Boundary(j + 1, ny)]
                            + spins[Boundary(i - 1, nx), Boundary(j - 1, ny)]
                            + spins[Boundary(i + 1, nx), Boundary(j - 1, ny)];
    -(deltaSpin as real) * J * (neighbours as real)
      - J * (deltaSpin as real) * (secondNeighbours as real) / 2.0
      - MB * (deltaSpin as real)
  }

  /** `deltaE` of the hexagonal lattice: the 6 neighbours (i+1, j), (i-1, j),
      (i+1, j-1), (i-1, j-1), (i, j-1), (i, j+1) at weight J. */
  function HexDeltaE(spins: array2<int>, i: int, j: int, originalSpin: int, J: real, MB: real): (delta: real)
    reads spins
    requires Fits(Hexagonal, spins) && 0 <= i < Width(Hexagonal) && 0 <= j < Height(Hexagonal)
    ensures spins[i, j] == originalSpin ==> delta == 0.0
  {
    var nx, ny := Width(Hexagonal), Height(Hexagonal);
    var neighbours := spins[Boundary(i + 1, nx), j] + spins[Boundary(i - 1, nx), j]
                      + spins[Boundary(i + 1, nx), Boundary(j - 1, ny)]
                      + spins[Boundary(i - 1, nx), Boundary(j - 1, ny)]
                      + spins[i, Boundary(j - 1, ny)]
                      + spins[i, Boundary(j + 1, ny)];
    var deltaSpin := spins[i, j] - originalSpin;
    -(deltaSpin as real) * J * (neighbours as real) - MB * (deltaSpin as real)
  }

  /** `deltaE` of either geometry. */
  function DeltaE(g: Geometry, spins: array2<int>, i: int, j: int, originalSpin: int, J: real, MB: real): real
    reads spins
    requires Fits(g, spins) && 0 <= i < Width(g) && 0 <= j < Height(g)
  {
    match g
    case Square => SquareDeltaE(spins, i, j, originalSpin, J, MB)
    case Hexagonal => HexDeltaE(spins, i, j, originalSpin, J, MB)
  }

  /** The square `deltaE` is the spin change times the local field over the
      8 listed offsets, negated. */
  lemma SquareDeltaEIsLocal(spins: array2<int>, i: int, j: int, originalSpin: int, J: real, MB: real)
    requires Fits(Square, spins) && 0 <= i < Width(Square) && 0 <= j < Height(Square)
    ensures SquareDeltaE(spins, i, j, originalSpin, J, MB)
            == -((spins[i, j] - originalSpin) as real) * LocalField(Square, spins, i, j, J, MB)
  {
    var nx, ny := Width(Square), Height(Square);
    var a := spins[Boundary(i + 1, nx), j] as real;
    var b := spins[Boundary(i - 1, nx), j] as real;
    var c := spins[i, Boundary(j + 1, ny)] as real;
    var d := spins[i, Boundary(j - 1, ny)] as real;
    var e := spins[Boundary(i + 1, nx), Boundary(j + 1, ny)] as real;
    var f := spins[Boundary(i - 1, nx), Boundary(j + 1, ny)] as real;
    var h := spins[Boundary(i - 1, nx), Boundary(j - 1, ny)] as real;
    var l := spins[Boundary(i + 1, nx), Boundary(j - 1, ny)] as real;
    assert SumFrom(Square, spins, i, j, 8) == 0.0;
    assert SumFrom(Square, spins, i, j, 7) == 0.5 * l;
    assert SumFrom(Square, spins, i, j, 6) == 0.5 * h + 0.5 * l;
    assert SumFrom(Square, spins, i, j, 5) == 0.5 * f + 0.5 * h + 0.5 * l;
    assert SumFrom(Square, spins, i, j, 4) == 0.5 * (e + f + h + l);
    assert SumFrom(Square, spins, i, j, 3) == d + 0.5 * (e + f + h + l);
    assert SumFrom(Square, spins, i, j, 2) == c + d + 0.5 * (e + f + h + l);
    assert SumFrom(Square, spins, i, j, 1) == b + c + d + 0.5 * (e + f + h + l);
    var n := a + b + c + d;
    var s := e + f + h + l;
    assert WeightedSum(Square, spins, i, j) == n + s / 2.0;
    var x := (spins[i, j] - originalSpin) as real;
    assert SquareDeltaE(spins, i, j, originalSpin, J, MB) == -x * J * n - J * x * s / 2.0 - MB * x;
    assert -x * J * n - J * x * s / 2.0 - MB * x == -x * (J * (n + s / 2.0) + MB);
  }

  /** The hexagonal `deltaE` is the spin change times the local field over
      the 6 listed offsets, negated. */
  lemma HexDeltaEIsLocal(spins: array2<int>, i: int, j: int, originalSpin: int, J: real, MB: real)
    requires Fits(Hexagonal, spins) && 0 <= i < Width(Hexagonal) && 0 <= j < Height(Hexagonal)
    ensures HexDeltaE(spins, i, j, originalSpin, J, MB)
            == -((spins[i, j] - originalSpin) as real) * LocalField(Hexagonal, spins, i, j, J, MB)
  {
    var nx, ny := Width(Hexagonal), Height(Hexagonal);
    var a := spins[Boundary(i + 1, nx), j] as real;
    var b := spins[Boundary(i - 1, nx), j] as real;
    var c := spins[Boundary(i + 1, nx), Boundary(j - 1, ny)] as real;
    var d := spins[Boundary(i - 1, nx), Boundary(j - 1, ny)] as real;
    var e := spins[i, Boundary(j - 1, ny)] as real;
    var f := spins[i, Boundary(j + 1, ny)] as real;
    assert SumFrom(Hexagonal, spins, i, j, 6) == 0.0;
    assert SumFrom(Hexagonal, spins, i, j, 5) == f;
    assert SumFrom(Hexagonal, spins, i, j, 4) == e + f;
    assert SumFrom(Hexagonal, spins, i, j, 3) == d + e + f;
    assert SumFrom(Hexagonal, spins, i, j, 2) == c + d + e + f;
    assert SumFrom(Hexagonal, spins, i, j, 1) == b + c + d + e + f;
    var n := a + b + c + d + e + f;
    assert WeightedSum(Hexagonal, spins, i, j) == n;
    var x := (spins[i, j] - originalSpin) as real;
    assert HexDeltaE(spins, i, j, originalSpin, J, MB) == -x * J * n - MB * x;
    assert -x * J * n - MB * x == -x * (J * n + MB);
  }

  /** `deltaE` of either geometry as spin change times local field. */
  lemma DeltaEIsLocal(g: Geometry, spins: array2<int>, i: int, j: int, originalSpin: int, J: real, MB: real)
    requires Fits(g, spins) && 0 <= i < Width(g) && 0 <= j < Height(g)
    ensures DeltaE(g, spins, i, j, originalSpin, J, MB)
            == -((spins[i, j] - originalSpin) as real) * LocalField(g, spins, i, j, J, MB)
  {
    match g
    case Square => SquareDeltaEIsLocal(spins, i, j, originalSpin, J, MB);
    case Hexagonal => HexDeltaEIsLocal(spins, i, j, originalSpin, J, MB);
  }

  /** Two grids that differ at most at (i, j) have the same neighbour sums
      around (i, j): no offset designates the site itself. */
  lemma {:induction false} SumFromIgnoresSite(g: Geometry, a: array2<int>, b: array2<int>, i: int, j: int, k: nat)
    requires Fits(g, a) && Fits(g, b) && 0 <= i < Width(g) && 0 <= j < Height(g)
    requires k <= |Offsets(g)|
    requires forall p, q :: 0 <= p < Width(g) && 0 <= q < Height(g) && (p != i || q != j) ==> a[p, q] == b[p, q]
    ensures SumFrom(g, a, i, j, k) == SumFrom(g, b, i, j, k)
    decreases |Offsets(g)| - k
  {
    if k < |Offsets(g)| {
      SumFromIgnoresSite(g, a, b, i, j, k + 1);
      var t := Target(g, i, j, Offsets(g)[k]);
      assert a[t.0, t.1] == b[t.0, t.1];
    }
  }

  /** Swapping the value held at (i, j) with `original_spin` negates
      `deltaE`: the trial that undoes a change costs the opposite energy. */
  lemma DeltaEAntisymmetric(g: Geometry, a: array2<int>, b: array2<int>, i: int, j: int, J: real, MB: real)
    requires Fits(g, a) && Fits(g, b) && 0 <= i < Width(g) && 0 <= j < Height(g)
    requires forall p, q :: 0 <= p < Width(g) && 0 <= q < Height(g) && (p != i || q != j) ==> a[p, q] == b[p, q]
    ensures DeltaE(g, a, i, j, b[i, j], J, MB) == -DeltaE(g, b, i, j, a[i, j], J, MB)
  {
    SumFromIgnoresSite(g, a, b, i, j, 0);
    DeltaEIsLocal(g, a, i, j, b[i, j], J, MB);
    DeltaEIsLocal(g, b, i, j, a[i, j], J, MB);
    var h := LocalField(g, a, i, j, J, MB);
    assert LocalField(g, b, i, j, J, MB) == h;
    var x := (a[i, j] - b[i, j]) as real;
    assert -x * h == -(-(-x) * h);
  }

  /** DeltaEIsLocal with the local field given by its value. */
  lemma DeltaEWithField(g: Geometry, spins: array2<int>, i: int, j: int, originalSpin: int, J: real, MB: real, field: real)
    requires Fits(g, spins) && 0 <= i < Width(g) && 0 <= j < Height(g)
    requires LocalField(g, spins, i, j, J, MB) == field
    ensures DeltaE(g, spins, i, j, originalSpin, J, MB) == -((spins[i, j] - originalSpin) as real) * field
  {
    DeltaEIsLocal(g, spins, i, j, originalSpin, J, MB);
  }
}
