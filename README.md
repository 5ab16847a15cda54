# Ising model Monte Carlo engine

A Dafny model of the update engine of `ising_in_c`. The program runs a
Metropolis simulation of a discrete-spin Ising model and draws it with
raylib. It comes in two variants:

- `rectangular.c`: a 400 x 300 square lattice. Each site couples to its 4
  axis neighbours at weight J and to its 4 diagonal neighbours at weight J/2.
- `hexagonal.c`: a 190 x 130 lattice whose `deltaE` reads 6 neighbours.

Both variants share everything but the grid extents, the site pick and the
neighbour set, so the model is one model parameterised by
`Lattice.Geometry`.

| module | file | contents |
|---|---|---|
| `Spin` | `spin.dfy` | the value set of a `states`-state spin, `random_spin`, and its inverse |
| `Lattice` | `lattice.dfy` | grid extents, the periodic wrap `boundary`, site selection, the neighbour offsets of each geometry |
| `Energy` | `energy.dfy` | `deltaE` for both geometries, and its relation to the local field at a site |
| `Metropolis` | `metropolis.dfy` | the simulation state as a class over an `array2<int>`, plus `initialize_spins`, `step`, the 2000-trial batch, the keyboard commands, and `mag_field` |

Each `rand()` draw is an input:

- a site pick or a `random_spin` draw is a `nat`;
- the Boltzmann test `r > exp(-delta/T)` is the boolean `reject` of a `TrialDraw`.

J, MB and T are `real`. Spins are mathematical integers.

The central invariant is `Metropolis.Simulation.Valid`: `states` is 2 or 3,
and every cell holds a value of that state count's value set. The
constructor establishes it, and every state-changing method preserves it.

For even `states` the code (`rectangular.c:24`, `hexagonal.c:25`) returns
`2k - states + 1`: the odd integers in [-(states-1), states-1]. So 0 is never
drawn, and `states = 2` gives {-1, 1} (`Spin.InValueSet`,
`Spin.ValueSetIsImage`).

## Model

| member | source | states |
|---|---|---|
| Spin.RandomSpin | rectangular.c:21-25 | the spin drawn for any draw lies in the value set of `states`; for even `states` it is never 0; for 2 states it is -1 or 1; for 3 states it lies in [-1, 1] |
| Spin.SpinIndex | hexagonal.c:22-26 | every value of the value set is `random_spin` of some residue `k < states`: the inverse of `random_spin` |
| Spin.SpinIndexOfRandomSpin | rectangular.c:23-24 | the inverse applied to `random_spin(r)` gives back `r % states`, the residue the draw was reduced to |
| Spin.RandomSpinInjective | rectangular.c:23-24 | distinct residues below `states` give distinct spins, so a uniform residue gives a uniform spin |
| Spin.ValueSetIsImage | rectangular.c:21-25 | a value is in the value set exactly when some draw produces it (both directions) |
| Spin.TwoAndThreeStates | hexagonal.c:22-26 | 2 states is exactly {-1, 1}; 3 states is exactly {-1, 0, 1} |
| Lattice.Boundary | rectangular.c:63-68 | an index other than -1 and N is returned unchanged; for N >= 1 and -1 <= i <= N the result lies in [0, N) |
| Lattice.BoundaryIsModulo | hexagonal.c:65-70 | on [-1, N] the wrap equals reduction modulo N: -1 goes to N-1, N to 0 |
| Lattice.PickRow | rectangular.c:10-11 | the first index a trial picks is below Nx in both geometries, with `rand()%Nx` read as `(rand()%800)/2` on the square lattice |
| Lattice.PickCol | hexagonal.c:83-84 | the second index a trial picks is below Ny in both geometries |
| Lattice.PickReachesEverySite | rectangular.c:111-112 | every row and every column of the grid is picked by some draw |
| Lattice.Offsets | rectangular.c:100-105 | every neighbour offset moves at most one step along each axis, and never zero steps along both |
| Lattice.Target | hexagonal.c:74-76 | the wrapped neighbour of an in-range site is in range and is never the site itself |
| Lattice.SquareNeighbourSymmetric | rectangular.c:100-105 | on the square lattice, if (p, q) is among the sites `deltaE` reads for (i, j), then (i, j) is among those it reads for (p, q) |
| Lattice.HexNeighbourNotSymmetric | hexagonal.c:74-76 | on the hexagonal lattice the neighbour relation is not symmetric: (2, 0) is read for (1, 1), but (1, 1) is not read for (2, 0) |
| Energy.SquareDeltaE | rectangular.c:98-107 | `deltaE` is 0 when the current spin equals the original one |
| Energy.HexDeltaE | hexagonal.c:72-79 | `deltaE` is 0 when the current spin equals the original one |
| Energy.SquareDeltaEIsLocal | rectangular.c:98-107 | the square `deltaE` equals `-d * (J * (axis sum + diagonal sum / 2) + MB)` with `d = spins[i][j] - original_spin`: the change of spin times the local field of its neighbours |
| Energy.HexDeltaEIsLocal | hexagonal.c:72-79 | the hexagonal `deltaE` equals `-d * (J * (sum of the 6 neighbours) + MB)` |
| Energy.DeltaEIsLocal | rectangular.c:98-107 | in both geometries `deltaE` is `-d` times the weighted neighbour sum of `Lattice.Offsets`, times J, plus MB |
| Energy.SumFromIgnoresSite | hexagonal.c:73-76 | the neighbour sum for (i, j) does not read cell (i, j): two grids that agree elsewhere give the same sum |
| Energy.DeltaEAntisymmetric | rectangular.c:104-106 | exchanging the current and the original spin changes the sign of `deltaE` |
| Energy.DeltaEWithField | hexagonal.c:77-78 | `deltaE` is `-d` times the local field, for the field value given by the caller |
| Metropolis.MagField | rectangular.c:85-96 | `mag_field` returns the sum of all cells of the grid |
| Metropolis.RowSumBound | rectangular.c:90-94 | the sum of one row is bounded by the row length times the largest spin magnitude of the value set |
| Metropolis.GridSumBound | rectangular.c:85-96 | the magnetisation is bounded by the number of cells times the largest spin magnitude of the value set |
| Metropolis.Sites | rectangular.c:144-145 | the set of sites a trial sequence visits holds exactly the site of each of its trials |
| Metropolis.Simulation.constructor | rectangular.c:13-16 | start-up: T = 1, J = 1, MB = 0, 3 states, every cell `random_spin` of its draw, and the invariant holds |
| Metropolis.Simulation.InitializeSpins | rectangular.c:27-34 | every cell receives `random_spin` of its own draw, so every cell is in the value set of the current `states` |
| Metropolis.Simulation.Propose | rectangular.c:113-117 | writing a value of the value set changes cell (i, j) only, keeps the invariant, and leaves the local field at (i, j) unchanged; `step` uses it for the proposal and for the rollback |
| Metropolis.Simulation.Step | rectangular.c:109-124 | the trial picks (i, j) and returns `deltaE`, which is the spin change times the local field before the trial. The proposal is kept when delta < 0 or the test does not reject. Otherwise the original spin is restored exactly. No other cell changes, a proposal equal to the original leaves the whole grid unchanged, and the invariant is kept |
| Metropolis.Simulation.RunBatch | hexagonal.c:116-117 | the 2000-trial batch keeps the invariant, and a cell no trial visits keeps its value |
| Metropolis.Simulation.AdjustParameters | rectangular.c:147-164 | J/K move T by 0.1; M/N move MB by 0.2; O/I move J by 0.1. `states` and the grid are untouched, and the invariant is kept |
| Metropolis.Simulation.SwitchStates | hexagonal.c:137-144 | TWO then THREE set `states` and re-initialise the grid from fresh draws, and the later key wins. After TWO alone no cell is 0. Without either key the grid and `states` are unchanged. T, J and MB are untouched, and the invariant is kept |
| Metropolis.Simulation.ApplyKeys | hexagonal.c:119-144 | J/K move T by 0.1; M/N move MB by 0.2; O/I move J by 0.1. TWO then THREE set `states` and re-initialise from fresh draws, and the later key wins. After TWO alone no cell is 0. Without TWO or THREE the grid is unchanged. The invariant is kept |
| Metropolis.Simulation.Tick | rectangular.c:140-172 | one frame: the batch, then the commands. The same parameter and `states` updates as `ApplyKeys` apply, and the invariant is kept. Without TWO or THREE, a cell no trial visited keeps its value |

## Left out

- Rendering and input: `draw_spins`, the raylib window, the text overlay and the frame loop are not part of this model. Key presses are the boolean inputs of `Keys`.
- Concurrency: the `#pragma omp parallel for` on the trial batch (`rectangular.c:144`, `hexagonal.c:116`) and in `mag_field` lets trials and the sum race. The model runs both sequentially.
- Randomness and floating point: `rand()`, `(float)rand()/RAND_MAX` and `exp(-delta/T)` are not part of this model. Draws are inputs, and the test's outcome is the oracle `reject`. The model does not constrain `reject` by T, so T is stored and updated but never read.
- Metropolis.Simulation.Step: the oracle `reject` may be true when delta is exactly 0 and the proposal differs from the original spin, so the model may roll such a trial back. In the source `r = rand()/RAND_MAX` is at most 1 = `exp(0)`, so such a trial is always kept. The model does not relate `reject` to delta or T.
- Metropolis.Simulation.Step: the oracle `reject` is an input even when delta < 0. The source draws its third random number only when delta >= 0, so the model does not capture the order in which `rand()` values are consumed.
- Float rounding of `deltaE` and of the T, J and MB increments: the model uses exact `real` arithmetic.
- Behaviour at T <= 0 (a division by zero in the acceptance test) is not modelled.
- `size_t` wrap-around in `random_spin`: for `states` 2 and 3 the value converts back to the mathematical integer, which the model uses.
- `energy()`, the `E` and `M` averaging buffers, `N_avg` and `counter` are unused by the main loop and are not modelled.
- Metropolis.Simulation.Tick: the grid after the batch is stated by its invariant and by the cells no trial visited, not as a function of the draws.
- Metropolis.Simulation.RunBatch: as for `Tick`, the grid after the batch is stated by its invariant and frame, not cell by cell.
