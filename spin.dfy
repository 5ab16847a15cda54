/// Discrete spin values: the value set for a given number of states and the
/// rule that turns one random draw into a spin (`random_spin`).
module Spin {

  /** The spin values a cell may hold when the lattice has `states` states.
      Odd `states`: every integer in [-(states-1)/2, (states-1)/2].
      Even `states`: every odd integer in [-(states-1), states-1]. */
  predicate InValueSet(states: nat, v: int) {
    if states % 2 != 0 then -((states - 1) / 2) <= v <= (states - 1) / 2
    else v % 2 == 1 && -(states - 1) <= v <= states - 1
  }

  /** The largest magnitude a spin of the value set can have. */
  function MaxSpin(states: nat): (m: nat)
    requires states >= 1
    ensures forall v :: InValueSet(states, v) ==> -(m as int) <= v <= m
  {
    if states % 2 != 0 then (states - 1) / 2 else states - 1
  }

  /** `random_spin`: the raw draw `r` (the result of `rand()`) is reduced
      modulo `states`, and the residue is mapped onto the value set. */
  function RandomSpin(states: nat, r: nat): (v: int)
    requires states >= 1
    ensures InValueSet(states, v)
    ensures states % 2 == 0 ==> v != 0
    ensures states == 2 ==> v == -1 || v == 1
    ensures states == 3 ==> -1 <= v <= 1
  {
    var k := r % states;
    if states % 2 != 0 then k - (states - 1) / 2
    else 2 * k - states / 2 - states / 2 + 1
  }

  /** The residue of `rand()` that `random_spin` maps to `v`: the inverse of
      RandomSpin on the value set. */
  function SpinIndex(states: nat, v: int): (k: nat)
    requires states >= 1 && InValueSet(states, v)
    ensures k < states
    ensures RandomSpin(states, k) == v
  {
    if states % 2 != 0 then
      var k := v + (states - 1) / 2;
      SmallResidue(k, states);
      k
    else
      var k := (v + states - 1) / 2;
      assert v == 2 * (v / 2) + 1 && states == 2 * (states / 2);
      assert k == v / 2 + states / 2;
      SmallResidue(k, states);
      k
  }

  lemma SmallResidue(k: int, n: int)
    requires 0 <= k < n
    ensures k % n == k
  {
  }

  /** SpinIndex recovers the residue a draw was reduced to. */
  lemma SpinIndexOfRandomSpin(states: nat, r: nat)
    requires states >= 1
    ensures SpinIndex(states, RandomSpin(states, r)) == r % states
  {
    var k := r % states;
    if states % 2 == 0 {
      assert states == 2 * (states / 2);
      assert RandomSpin(states, r) + states - 1 == 2 * k;
    }
  }

  /** Distinct residues give distinct spins, so a uniform residue gives a
      uniform spin over the whole value set. */
  lemma RandomSpinInjective(states: nat, k1: nat, k2: nat)
    requires states >= 1 && k1 < states && k2 < states
    requires RandomSpin(states, k1) == RandomSpin(states, k2)
    ensures k1 == k2
  {
    SpinIndexOfRandomSpin(states, k1);
    SpinIndexOfRandomSpin(states, k2);
    SmallResidue(k1, states);
    SmallResidue(k2, states);
  }

  /** The value set is exactly the image of RandomSpin. */
  lemma ValueSetIsImage(states: nat, v: int)
    requires states >= 1
    ensures InValueSet(states, v) <==> exists r: nat :: RandomSpin(states, r) == v
  {
    if InValueSet(states, v) {
      var k := SpinIndex(states, v);
      assert RandomSpin(states, k) == v;
    }
  }

  /** The two state counts the program switches between. */
  lemma TwoAndThreeStates(v: int)
    ensures InValueSet(2, v) <==> v == -1 || v == 1
    ensures InValueSet(3, v) <==> v == -1 || v == 0 || v == 1
  {
  }
}
