/// The Monte Carlo engine: the spin grid and the run-time parameters, one
/// Metropolis trial (`step`), a batch of trials, re-initialisation, and the
/// per-frame tick that applies the keyboard commands.
module Metropolis {
  import opened Spin
  import opened Lattice
  import opened Energy

  /** Trials run per displayed frame. */
  const TrialsPerTick: nat := 2000
  /** Increments of the keyboard commands (dT, dJ, dMB). */
  const TemperatureStep: real := 0.1
  const CouplingStep: real := 0.1
  const FieldStep: real := 0.2

  /** The random numbers one trial consumes: the two site draws, the draw
      `random_spin` reduces, and the outcome of the Boltzmann test:
      `reject` stands for `r > exp(-delta / T)`, consulted only when
      `delta >= 0`. */
  datatype TrialDraw = TrialDraw(row: nat, col: nat, spin: nat, reject: bool)

  /** The keys pressed during one frame. */
  datatype Keys = Keys(
    lowerT: bool,      // J: T -= dT
    raiseT: bool,      // K: T += dT
    raiseField: bool,  // M: MB += dMB
    lowerField: bool,  // N: MB -= dMB
    raiseJ: bool,      // O: J += dJ
    lowerJ: bool,      // I: J -= dJ
    two: bool,         // TWO: states = 2, re-initialise
    three: bool)       // THREE: states = 3, re-initialise

  /** The acceptance rule: a lower energy is always kept; otherwise the
      proposal is kept unless the Boltzmann test rejects it. */
  predicate Keeps(delta: real, reject: bool) {
    delta < 0.0 || !reject
  }

  /** The site a trial visits. */
  function Site(g: Geometry, t: TrialDraw): (s: (int, int))
    ensures 0 <= s.0 < Width(g) && 0 <= s.1 < Height(g)
  {
    (PickRow(g, t.row), PickCol(g, t.col))
  }

  /** The sites a sequence of trials visits. */
  function Sites(g: Geometry, ts: seq<TrialDraw>): (s: set<(int, int)>)
    ensures forall t :: t in ts ==> Site(g, t) in s
    ensures forall c :: c in s ==> exists t :: t in ts && Site(g, t) == c
  {
    if ts == [] then {} else Sites(g, ts[..|ts| - 1]) + {Site(g, ts[|ts| - 1])}
  }

  /** One draw per cell, in the row-major order `initialize_spins` visits the
      cells. */
  predicate CellDraws(g: Geometry, draws: seq<seq<nat>>) {
    |draws| == Width(g) && forall p :: 0 <= p < |draws| ==> |draws[p]| == Height(g)
  }

  ghost predicate AllInValueSet(spins: array2<int>, states: nat)
    reads spins
  {
    forall p, q :: 0 <= p < spins.Length0 && 0 <= q < spins.Length1 ==> InValueSet(states, spins[p, q])
  }

  /** Sum of cells 0 .. n-1 of row p. */
  function RowSum(spins: array2<int>, p: nat, n: nat): int
    reads spins
    requires p < spins.Length0 && n <= spins.Length1
  {
    if n == 0 then 0 else RowSum(spins, p, n - 1) + spins[p, n - 1]
  }

  /** Sum of rows 0 .. m-1. */
  function GridSum(spins: array2<int>, m: nat): int
    reads spins
    requires m <= spins.Length0
  {
    if m == 0 then 0 else GridSum(spins, m - 1) + RowSum(spins, m - 1, spins.Length1)
  }

  /** `mag_field`: the total magnetisation, the sum of every cell. */
  method MagField(spins: array2<int>) returns (field: int)
    ensures field == GridSum(spins, spins.Length0)
  {
    field := 0;
    var i := 0;
    while i < spins.Length0
      invariant 0 <= i <= spins.Length0
      invariant field == GridSum(spins, i)
    {
      var j := 0;
      while j < spins.Length1
        invariant 0 <= j <= spins.Length1
        invariant field == GridSum(spins, i) + RowSum(spins, i, j)
      {
        field := field + spins[i, j];
        j := j + 1;
      }
      i := i + 1;
    }
  }

  lemma {:induction false} RowSumBound(spins: array2<int>, p: nat, n: nat, states: nat)
    requires states >= 1 && AllInValueSet(spins, states)
    requires p < spins.Length0 && n <= spins.Length1
    ensures -(n * MaxSpin(states)) <= RowSum(spins, p, n) <= n * MaxSpin(states)
  {
    if n > 0 {
      RowSumBound(spins, p, n - 1, states);
      assert InValueSet(states, spins[p, n - 1]);
      assert n * MaxSpin(states) == (n - 1) * MaxSpin(states) + MaxSpin(states);
    }
  }

  /** When every cell is in the value set, the magnetisation of m rows is at
      most m * Ny * MaxSpin(states) in magnitude. */
  lemma {:induction false} GridSumBound(spins: array2<int>, m: nat, states: nat)
    requires states >= 1 && AllInValueSet(spins, states)
    requires m <= spins.Length0
    ensures -(m * (spins.Length1 * MaxSpin(states))) <= GridSum(spins, m) <= m * (spins.Length1 * MaxSpin(states))
  {
    if m > 0 {
      GridSumBound(spins, m - 1, states);
      RowSumBound(spins, m - 1, spins.Length1, states);
      var row := spins.Length1 * MaxSpin(states);
      assert m * row == (m - 1) * row + row;
    }
  }

  /** The simulation: the spin grid and the global parameters T, J, MB and
      `states`. The geometry is fixed for a run. */
  class Simulation {
    const geometry: Geometry
    const spins: array2<int>
    var T: real
    var J: real
    var MB: real
    var states: nat

    /** Every cell is in the value set of the current state count, which is
        one of the two the program offers. */
    ghost predicate Valid()
      reads this, spins
    {
      Fits(geometry, spins) && (states == 2 || states == 3) && AllInValueSet(spins, states)
    }

    /** Start-up: T = 1, J = 1, MB = 0, three states, and a freshly
        initialised grid. */
    constructor (g: Geometry, draws: seq<seq<nat>>)
      requires CellDraws(g, draws)
      ensures Valid() && fresh(spins)
      ensures geometry == g && T == 1.0 && J == 1.0 && MB == 0.0 && states == 3
      ensures forall p, q :: 0 <= p < Width(g) && 0 <= q < Height(g) ==> spins[p, q] == RandomSpin(3, draws[p][q])
    {
      geometry := g;
      spins := new int[Width(g), Height(g)];
      T, J, MB, states := 1.0, 1.0, 0.0, 3;
      new;
      InitializeSpins(draws);
    }

    /** `initialize_spins`: every cell receives `random_spin` of its own draw. */
    method InitializeSpins(draws: seq<seq<nat>>)
      requires Fits(geometry, spins) && states >= 1 && CellDraws(geometry, draws)
      modifies spins
      ensures forall p, q :: 0 <= p < Width(geometry) && 0 <= q < Height(geometry) ==> spins[p, q] == RandomSpin(states, draws[p][q])
      ensures AllInValueSet(spins, states)
    {
      var i := 0;
      while i < Width(geometry)
        invariant 0 <= i <= Width(geometry)
        invariant forall p, q :: 0 <= p < i && 0 <= q < Height(geometry) ==> spins[p, q] == RandomSpin(states, draws[p][q])
      {
        var j := 0;
        while j < Height(geometry)
          invariant 0 <= j <= Height(geometry)
          invariant forall p, q :: 0 <= p < i && 0 <= q < Height(geometry) ==> spins[p, q] == RandomSpin(states, draws[p][q])
          invariant forall q :: 0 <= q < j ==> spins[i, q] == RandomSpin(states, draws[i][q])
        {
          spins[i, j] := RandomSpin(states, draws[i][j]);
          j := j + 1;
        }
        i := i + 1;
      }
    }

    /** The in-place write of a proposal at (i, j): a value of the value
        set, so the invariant is kept. No neighbour offset designates (i, j)
        itself, so the local field there is unchanged. */
    method Propose(i: nat, j: nat, proposed: int)
      requires Valid() && i < Width(geometry) && j < Height(geometry)
      requires InValueSet(states, proposed)
      modifies spins
      ensures Valid()
      ensures spins[i, j] == proposed
      ensures forall p, q :: 0 <= p < Width(geometry) && 0 <= q < Height(geometry) && (p != i || q != j)
                ==> spins[p, q] == old(spins[p, q])
      ensures LocalField(geometry, spins, i, j, J, MB) == old(LocalField(geometry, spins, i, j, J, MB))
    {
      spins[i, j] := proposed;
      // Proof only: the neighbour sum is unchanged, offset by offset, since
      // no offset designates (i, j) itself.
      ghost var k := |Offsets(geometry)|;
      while k > 0
        invariant 0 <= k <= |Offsets(geometry)|
        invariant SumFrom(geometry, spins, i, j, k) == old(SumFrom(geometry, spins, i, j, k))
        modifies {}
      {
        k := k - 1;
        var p := Target(geometry, i, j, Offsets(geometry)[k]).0;
        var q := Target(geometry, i, j, Offsets(geometry)[k]).1;
        assert spins[p, q] == old(spins[p, q]);
      }
    }

    /** `step`: one Metropolis trial. Pick a site, save its spin, write the
        proposal in place, evaluate `deltaE`, and restore the saved spin
        when the trial is rejected. Returns the energy change and whether
        the proposal was kept. */
    method Step(t: TrialDraw) returns (delta: real, kept: bool)
      requires Valid()
      modifies spins
      ensures Valid()
      ensures var i, j := PickRow(geometry, t.row), PickCol(geometry, t.col);
        && delta == -((RandomSpin(states, t.spin) - old(spins[i, j])) as real) * old(LocalField(geometry, spins, i, j, J, MB))
        && kept == Keeps(delta, t.reject)
        && spins[i, j] == (if kept then RandomSpin(states, t.spin) else old(spins[i, j]))
      ensures forall p, q :: 0 <= p < Width(geometry) && 0 <= q < Height(geometry)
                && (p != PickRow(geometry, t.row) || q != PickCol(geometry, t.col))
                ==> spins[p, q] == old(spins[p, q])
      ensures RandomSpin(states, t.spin) == old(spins[PickRow(geometry, t.row), PickCol(geometry, t.col)]) ==>
                delta == 0.0 && forall p, q :: 0 <= p < Width(geometry) && 0 <= q < Height(geometry) ==> spins[p, q] == old(spins[p, q])
    {
      var i := PickRow(geometry, t.row);
      var j := PickCol(geometry, t.col);
      var originalSpin := spins[i, j];
      ghost var field := LocalField(geometry, spins, i, j, J, MB);

      Propose(i, j, RandomSpin(states, t.spin));
      delta := DeltaE(geometry, spins, i, j, originalSpin, J, MB);
      DeltaEWithField(geometry, spins, i, j, originalSpin, J, MB, field);

      kept := true;
      if delta < 0.0 {
        return;
      }
      if t.reject {
        Propose(i, j, originalSpin);
        kept := false;
      }
    }

    /** The trial batch of one frame: the trials run one after the other.
        Every cell stays in the value set, and a cell no trial visits keeps
        its value. */
    method RunBatch(trials: seq<TrialDraw>)
      requires Valid()
      modifies spins
      ensures Valid()
      ensures forall p, q :: 0 <= p < Width(geometry) && 0 <= q < Height(geometry) && (p, q) !in Sites(geometry, trials)
                ==> spins[p, q] == old(spins[p, q])
    {
      var n := 0;
      while n < |trials|
        invariant 0 <= n <= |trials|
        invariant Valid()
        invariant forall p, q :: 0 <= p < Width(geometry) && 0 <= q < Height(geometry) && (p, q) !in Sites(geometry, trials[..n])
                    ==> spins[p, q] == old(spins[p, q])
      {
        assert trials[..n + 1][..n] == trials[..n];
        var _, _ := Step(trials[n]);
        n := n + 1;
      }
      assert trials[..n] == trials;
    }

    /** The parameter keys of one frame, in the order the main loop tests
        them: J/K move T, M/N move MB, O/I move J. The grid and `states`
        are untouched. */
    method AdjustParameters(keys: Keys)
      requires Valid()
      modifies this
      ensures Valid()
      ensures T == old(T) - (if keys.lowerT then TemperatureStep else 0.0) + (if keys.raiseT then TemperatureStep else 0.0)
      ensures MB == old(MB) + (if keys.raiseField then FieldStep else 0.0) - (if keys.lowerField then FieldStep else 0.0)
      ensures J == old(J) + (if keys.raiseJ then CouplingStep else 0.0) - (if keys.lowerJ then CouplingStep else 0.0)
      ensures states == old(states)
    {
      if keys.lowerT {
        T := T - TemperatureStep;
      }
      if keys.raiseT {
        T := T + TemperatureStep;
      }
      if keys.raiseField {
        MB := MB + FieldStep;
      }
      if keys.lowerField {
        MB := MB - FieldStep;
      }
      if keys.raiseJ {
        J := J + CouplingStep;
      }
      if keys.lowerJ {
        J := J - CouplingStep;
      }
    }

    /** The TWO and THREE keys: each sets `states` and re-initialises the
        grid from fresh draws; when both are pressed THREE, tested last,
        wins. T, J and MB are untouched. */
    method SwitchStates(keys: Keys, drawsTwo: seq<seq<nat>>, drawsThree: seq<seq<nat>>)
      requires Valid()
      requires CellDraws(geometry, drawsTwo) && CellDraws(geometry, drawsThree)
      modifies this, spins
      ensures Valid()
      ensures T == old(T) && J == old(J) && MB == old(MB)
      ensures states == (if keys.three then 3 else if keys.two then 2 else old(states))
      ensures keys.three ==>
                forall p, q :: 0 <= p < Width(geometry) && 0 <= q < Height(geometry) ==> spins[p, q] == RandomSpin(3, drawsThree[p][q])
      ensures keys.two && !keys.three ==>
                forall p, q :: 0 <= p < Width(geometry) && 0 <= q < Height(geometry) ==> spins[p, q] == RandomSpin(2, drawsTwo[p][q]) && spins[p, q] != 0
      ensures !keys.two && !keys.three ==>
                forall p, q :: 0 <= p < Width(geometry) && 0 <= q < Height(geometry) ==> spins[p, q] == old(spins[p, q])
    {
      if keys.two {
        states := 2;
        InitializeSpins(drawsTwo);
      }
      if keys.three {
        states := 3;
        InitializeSpins(drawsThree);
      }
    }

    /** The keyboard commands of one frame: the parameter keys, then the
        TWO and THREE keys, as the main loop tests them. */
    method ApplyKeys(keys: Keys, drawsTwo: seq<seq<nat>>, drawsThree: seq<seq<nat>>)
      requires Valid()
      requires CellDraws(geometry, drawsTwo) && CellDraws(geometry, drawsThree)
      modifies this, spins
      ensures Valid()
      ensures T == old(T) - (if keys.lowerT then TemperatureStep else 0.0) + (if keys.raiseT then TemperatureStep else 0.0)
      ensures MB == old(MB) + (if keys.raiseField then FieldStep else 0.0) - (if keys.lowerField then FieldStep else 0.0)
      ensures J == old(J) + (if keys.raiseJ then CouplingStep else 0.0) - (if keys.lowerJ then CouplingStep else 0.0)
      ensures states == (if keys.three then 3 else if keys.two then 2 else old(states))
      ensures keys.three ==>
                forall p, q :: 0 <= p < Width(geometry) && 0 <= q < Height(geometry) ==> spins[p, q] == RandomSpin(3, drawsThree[p][q])
      ensures keys.two && !keys.three ==>
                forall p, q :: 0 <= p < Width(geometry) && 0 <= q < Height(geometry) ==> spins[p, q] == RandomSpin(2, drawsTwo[p][q]) && spins[p, q] != 0
      ensures !keys.two && !keys.three ==>
                forall p, q :: 0 <= p < Width(geometry) && 0 <= q < Height(geometry) ==> spins[p, q] == old(spins[p, q])
    {
      AdjustParameters(keys);
      SwitchStates(keys, drawsTwo, drawsThree);
    }

    /** One frame of the main loop: the trial batch, then the keyboard
        commands. Without the TWO and THREE keys the grid is that of the
        batch: a cell no trial visited keeps its value. */
    method Tick(keys: Keys, trials: seq<TrialDraw>, drawsTwo: seq<seq<nat>>, drawsThree: seq<seq<nat>>)
      requires Valid()
      requires |trials| == TrialsPerTick
      requires CellDraws(geometry, drawsTwo) && CellDraws(geometry, drawsThree)
      modifies this, spins
      ensures Valid()
      ensures T == old(T) - (if keys.lowerT then TemperatureStep else 0.0) + (if keys.raiseT then TemperatureStep else 0.0)
      ensures MB == old(MB) + (if keys.raiseField then FieldStep else 0.0) - (if keys.lowerField then FieldStep else 0.0)
      ensures J == old(J) + (if keys.raiseJ then CouplingStep else 0.0) - (if keys.lowerJ then CouplingStep else 0.0)
      ensures states == (if keys.three then 3 else if keys.two then 2 else old(states))
      ensures keys.three ==>
                forall p, q :: 0 <= p < Width(geometry) && 0 <= q < Height(geometry) ==> spins[p, q] == RandomSpin(3, drawsThree[p][q])
      ensures keys.two && !keys.three ==>
                forall p, q :: 0 <= p < Width(geometry) && 0 <= q < Height(geometry) ==> spins[p, q] == RandomSpin(2, drawsTwo[p][q]) && spins[p, q] != 0
      ensures !keys.two && !keys.three ==>
                forall p, q :: 0 <= p < Width(geometry) && 0 <= q < Height(geometry) && (p, q) !in Sites(geometry, trials)
                  ==> spins[p, q] == old(spins[p, q])
    {
      RunBatch(trials);
      ApplyKeys(keys, drawsTwo, drawsThree);
    }
  }
}
