/** calibrateOscillator of main.cpp: a binary search and a neighbourhood search over an
    8-bit register, against a measurement that grows with it. */
module Oscillator {

  /** (unsigned)(1499 * (double)F_CPU / 10.5e6 + 0.5) for 16 MHz. */
  const TARGET: int := 2284

  /** The target is the integer nearest to 1499 F_CPU / 10.5e6 = 1499 * 160 / 105. */
  lemma TargetIsNearest()
    ensures -105 <= 2 * (105 * TARGET - 1499 * 160) <= 105
  {
  }

  /** The frame length measured for each setting; more frequency counts more cycles. */
  ghost predicate Monotone(f: nat -> nat) {
    forall a: nat, b: nat :: a <= b <= 255 ==> f(a) <= f(b)
  }

  function Dev(f: nat -> nat, v: nat): nat {
    if f(v) < TARGET then TARGET - f(v) else f(v) - TARGET
  }

  /** The largest setting that is still too slow, or 0. */
  ghost predicate Below(f: nat -> nat, trial: nat) {
    && trial <= 255
    && (forall v: nat :: 1 <= v <= trial ==> f(v) < TARGET)
    && forall v: nat :: trial < v <= 255 ==> f(v) >= TARGET
  }

  /** No setting comes closer. */
  ghost predicate Optimal(f: nat -> nat, v: nat) {
    v <= 255 && forall u: nat :: u <= 255 ==> Dev(f, v) <= Dev(f, u)
  }

  /** The setting measured last by the first loop when it ends at `trial`: it is odd, the
      last step being 1. */
  function Last(trial: nat): nat { if trial % 2 == 1 then trial else trial + 1 }

  /** The first loop: OSCCAL = trialValue + step, step halved eight times. It also leaves
      the last measurement behind, that of the result or of the setting above it. */
  method BinarySearch(f: nat -> nat) returns (trialValue: nat, x: nat)
    requires Monotone(f)
    ensures Below(f, trialValue)
    ensures x == f(Last(trialValue))
  {
    var step: nat := 128;
    trialValue, x := 0, 0;
    while step > 0
      invariant step in {128, 64, 32, 16, 8, 4, 2, 1, 0}
      invariant trialValue + (if step == 0 then 0 else 2 * step - 1) <= 255
      invariant forall v: nat :: 1 <= v <= trialValue ==> f(v) < TARGET
      invariant forall v: nat :: trialValue + (if step == 0 then 1 else 2 * step) <= v <= 255 ==> f(v) >= TARGET
      invariant step > 0 ==> trialValue % 2 == 0
      invariant step == 0 ==> x == f(Last(trialValue))
    {
      var osccal := trialValue + step;
      x := f(osccal);
      if x < TARGET {
        assert forall v: nat :: v <= osccal ==> f(v) <= f(osccal);
        trialValue := trialValue + step;
      } else {
        assert forall v: nat :: osccal <= v <= 255 ==> f(osccal) <= f(v);
      }
      step := step / 2;
    }
  }

  /** The guard of the second loop, OSCCAL <= trialValue + 1, in the n-th round: the
      register is 8 bits wide, the right-hand side is not. */
  predicate Guard(trialValue: nat, n: nat) { (trialValue + 255 + n) % 256 <= trialValue + 1 }

  /** The loop never ends exactly for the two highest settings; for 0 it never starts,
      and otherwise it has three rounds. */
  lemma NeighbourhoodRounds(trialValue: nat)
    requires trialValue <= 255
    ensures (forall n: nat :: Guard(trialValue, n)) <==> trialValue >= 254
    ensures !Guard(trialValue, 0) <==> trialValue == 0
    ensures 1 <= trialValue <= 253 ==>
      Guard(trialValue, 0) && Guard(trialValue, 1) && Guard(trialValue, 2) && !Guard(trialValue, 3)
  {
    if trialValue == 0 {
      assert !Guard(0, 0);
    } else if trialValue < 254 {
      assert !Guard(trialValue, 3);
    }
  }

  lemma {:induction false} BestIsNearby(f: nat -> nat, trial: nat, v: nat)
    requires Monotone(f) && Below(f, trial) && 1 <= trial < 255 && v <= 255
    ensures Dev(f, trial) <= Dev(f, v) || Dev(f, trial + 1) <= Dev(f, v)
    ensures v < trial ==> Dev(f, trial) <= Dev(f, v)
  {
    if v <= trial {
      assert f(v) <= f(trial) < TARGET;
    } else {
      assert TARGET <= f(trial + 1) <= f(v);
    }
  }

  /** No deviation around the setting found is less than the one to beat. */
  predicate Unbeaten(f: nat -> nat, trialValue: nat, x: nat)
    requires trialValue > 0
  {
    x <= Dev(f, trialValue - 1) && x <= Dev(f, trialValue) && x <= Dev(f, trialValue + 1)
  }

  /** The second loop, where it ends, and the final assignment. The deviation to beat
      starts as the raw measurement, not as a deviation: the result is the best of all
      256 settings exactly if that is more than the best deviation, or the binary search
      had already found the best setting. */
  method NeighbourhoodSearch(f: nat -> nat, trialValue: nat, x: nat) returns (osccal: nat)
    requires Monotone(f) && Below(f, trialValue) && trialValue < 254
    ensures trialValue == 0 ==> osccal == 0 && (Optimal(f, 0) <==> Dev(f, 0) <= Dev(f, 1))
    ensures trialValue > 0 ==>
      (Optimal(f, osccal) <==>
         Optimal(f, trialValue) || x > Dev(f, trialValue + 1))
    ensures trialValue > 0 && Unbeaten(f, trialValue, x) ==> osccal == trialValue
  {
    var optimumValue, optimumDev: int := trialValue, x;
    osccal := (trialValue + 255) % 256;
    ghost var n := 0;
    ghost var lo := trialValue - 1;
    while osccal <= trialValue + 1
      invariant osccal == (trialValue + 255 + n) % 256 && 0 <= n <= 3
      invariant trialValue == 0 ==> n == 0 && optimumValue == 0
      invariant trialValue > 0 ==> osccal == lo + n
      invariant 0 <= optimumDev <= x
      invariant optimumDev == x ==> optimumValue == trialValue
      invariant optimumDev < x ==> lo <= optimumValue < lo + n && optimumDev == Dev(f, optimumValue)
      invariant trialValue > 0 ==>
        forall k: nat :: lo <= k < lo + n ==> optimumDev <= Dev(f, k) || optimumDev == x <= Dev(f, k)
      decreases 3 - n
    {
      var d: int := f(osccal) - TARGET;
      if d < 0 { d := -d; }
      if d < optimumDev {
        optimumDev := d;
        optimumValue := osccal;
      }
      osccal := (osccal + 1) % 256;
      n := n + 1;
    }
    osccal := optimumValue;
    if trialValue == 0 {
      forall v: nat | 1 <= v <= 255 ensures Dev(f, 1) <= Dev(f, v) { assert TARGET <= f(1) <= f(v); }
    } else {
      forall v: nat | v <= 255 ensures Dev(f, trialValue) <= Dev(f, v) || Dev(f, trialValue + 1) <= Dev(f, v) {
        BestIsNearby(f, trialValue, v);
      }
    }
  }

  lemma SearchedBest(f: nat -> nat, trialValue: nat)
    requires Monotone(f) && Below(f, trialValue) && 0 < trialValue < 254
    ensures Optimal(f, trialValue) <==> Dev(f, trialValue) <= Dev(f, trialValue + 1)
  {
    if Dev(f, trialValue) <= Dev(f, trialValue + 1) {
      forall v: nat | v <= 255 ensures Dev(f, trialValue) <= Dev(f, v) { BestIsNearby(f, trialValue, v); }
    }
  }

  /** calibrateOscillator, where it ends, with exactly when the result is the best of all
      settings: always if the search ends at an even setting but 0, and otherwise unless
      the raw measurement that the second search starts from is no larger than the
      deviation to be found. */
  method CalibrateOscillator(f: nat -> nat) returns (osccal: nat, trialValue: nat)
    requires Monotone(f) && f(254) >= TARGET
    ensures Below(f, trialValue) && trialValue < 254
    ensures 0 < trialValue && trialValue % 2 == 0 ==> Optimal(f, osccal)
    ensures trialValue % 2 == 1 ==>
      (Optimal(f, osccal) <==>
         Dev(f, trialValue) <= Dev(f, trialValue + 1) || f(trialValue) > Dev(f, trialValue + 1))
    ensures trialValue % 2 == 1 && Unbeaten(f, trialValue, f(trialValue)) ==> osccal == trialValue
    ensures trialValue == 0 ==> osccal == 0 && (Optimal(f, 0) <==> Dev(f, 0) <= Dev(f, 1))
  {
    var x;
    trialValue, x := BinarySearch(f);
    osccal := NeighbourhoodSearch(f, trialValue, x);
    if trialValue > 0 { SearchedBest(f, trialValue); }
    if 0 < trialValue && trialValue % 2 == 0 { assert f(trialValue + 1) >= TARGET; }
  }

  /** A measurement for which it is not: far too slow at 0 and 1, too fast by less above. */
  function Steep(v: nat): nat { if v < 2 then 100 else 3000 }

  lemma SteepIsMonotone()
    ensures Monotone(Steep) && Steep(254) >= TARGET
  {
  }

  method FarFromOptimum() returns (osccal: nat)
    ensures osccal == 1 && !Optimal(Steep, osccal) && Optimal(Steep, 2)
  {
    SteepIsMonotone();
    var trialValue;
    osccal, trialValue := CalibrateOscillator(Steep);
    assert Steep(1) < TARGET <= Steep(2);
    assert trialValue == 1;
    forall u: nat | u <= 255 ensures Dev(Steep, 2) <= Dev(Steep, u) {}
  }
}
