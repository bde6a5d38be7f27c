/** Signage-point and infusion-point arithmetic within a sub-slot. */
module PotIterations {
  import opened Coins
  import opened Arith

  /** The consensus constants the chain rules read. */
  datatype Constants = Constants(
    numSps: nat,                  // NUM_SPS_SUB_SLOT
    extra: nat,                   // NUM_SP_INTERVALS_EXTRA
    minBlocks: nat,               // MIN_BLOCKS_PER_CHALLENGE_BLOCK
    maxSlotBlocks: nat,           // MAX_SUB_SLOT_BLOCKS
    subEpochBlocks: nat,          // SUB_EPOCH_BLOCKS
    epochBlocks: nat,             // EPOCH_BLOCKS
    ssiStarting: nat,             // SUB_SLOT_ITERS_STARTING
    difficultyStarting: nat,      // DIFFICULTY_STARTING
    maxFactor: nat,               // DIFFICULTY_CHANGE_MAX_FACTOR
    significantBits: nat,         // SIGNIFICANT_BITS
    timeTarget: nat,              // SUB_SLOT_TIME_TARGET
    slotBlocksTarget: nat)        // SLOT_BLOCKS_TARGET
  {
    /** The relations the constants are chosen to satisfy. */
    predicate Ok() {
      && 0 < extra < numSps && IsPow2(numSps)
      && 2 <= minBlocks && 2 * minBlocks + 1 < maxSlotBlocks
      && 2 * maxSlotBlocks + minBlocks < subEpochBlocks - 1
      && 2 * subEpochBlocks <= epochBlocks && epochBlocks % subEpochBlocks == 0
      && ssiStarting >= numSps && ssiStarting % numSps == 0
      && difficultyStarting >= 1 && maxFactor >= 1 && significantBits >= 1
      && timeTarget >= 1 && slotBlocksTarget >= 1
    }
  }

  function Pow2(k: nat): (r: nat)
    ensures r >= 1
  {
    if k == 0 then 1 else 2 * Pow2(k - 1)
  }

  predicate IsPow2(n: nat) { exists k: nat | k <= n :: Pow2(k) == n }

  const DEFAULT := Constants(64, 3, 16, 128, 384, 4608, 0x800_0000, 7, 3, 8, 600, 32)

  /** The default constants satisfy the relations. */
  lemma DefaultOk()
    ensures DEFAULT.Ok()
  {
    assert Pow2(6) == 64;
  }

  // ---- Functions of the source, with their guard errors -----------------------------------------------

  function IsOverflowBlock(k: Constants, spIndex: nat): Option<bool>
  {
    if spIndex >= k.numSps then None else Some(spIndex >= k.numSps - k.extra)
  }

  function SpIntervalIters(k: Constants, ssi: nat): Option<nat>
  {
    if k.numSps == 0 || ssi % k.numSps != 0 then None else Some(ssi / k.numSps)
  }

  function CalculateSpIters(k: Constants, ssi: nat, spIndex: nat): Option<nat>
  {
    if spIndex >= k.numSps || SpIntervalIters(k, ssi).None? then None
    else Some(SpIntervalIters(k, ssi).value * spIndex)
  }

  function CalculateIpIters(k: Constants, ssi: nat, spIndex: nat, requiredIters: nat): Option<nat>
  {
    if CalculateSpIters(k, ssi, spIndex).None? then None
    else
      var sp := CalculateSpIters(k, ssi, spIndex).value;
      var interval := SpIntervalIters(k, ssi).value;
      if interval == 0 || sp % interval != 0 || sp >= ssi then None
      else if requiredIters >= interval || requiredIters == 0 then None
      else Some((sp + k.extra * interval + requiredIters) % ssi)
  }

  // ---- What they compute ---------------------------------------------------------------------------------

  /** The inputs the guards let through, for a sub-slot length that is a positive multiple. */
  predicate Admissible(k: Constants, ssi: nat, spIndex: nat, requiredIters: nat)
  {
    && k.numSps > 0 && ssi % k.numSps == 0 && ssi >= k.numSps
    && spIndex < k.numSps && 0 < requiredIters < ssi / k.numSps
  }

  function Interval(k: Constants, ssi: nat): nat
    requires k.numSps > 0
  {
    ssi / k.numSps
  }

  predicate Overflows(k: Constants, spIndex: nat) { spIndex + k.extra >= k.numSps }

  function SpIters(k: Constants, ssi: nat, spIndex: nat): nat
    requires k.numSps > 0
  {
    Interval(k, ssi) * spIndex
  }

  /** Infusion lies `extra` intervals and the required iterations after the signage point, counted
      from the start of the infusion's sub-slot: one sub-slot less exactly for an overflow block. */
  function IpIters(k: Constants, ssi: nat, spIndex: nat, requiredIters: nat): int
    requires k.numSps > 0
  {
    SpIters(k, ssi, spIndex) + k.extra * Interval(k, ssi) + requiredIters - (if Overflows(k, spIndex) then ssi else 0)
  }

  lemma IntervalTiles(k: Constants, ssi: nat)
    requires k.numSps > 0 && ssi % k.numSps == 0
    ensures Interval(k, ssi) * k.numSps == ssi
    ensures ssi >= k.numSps ==> Interval(k, ssi) > 0
  {
    DivExact(ssi, k.numSps);
  }

  /** A signage point lies in its sub-slot, with at least one interval to the end. */
  lemma SpItersInSlot(k: Constants, ssi: nat, spIndex: nat)
    requires k.numSps > 0 && ssi % k.numSps == 0 && spIndex < k.numSps
    ensures SpIters(k, ssi, spIndex) + Interval(k, ssi) <= ssi
  {
    var i := Interval(k, ssi);
    IntervalTiles(k, ssi);
    MulMono(spIndex + 1, k.numSps, i);
    MulSum(i, spIndex, 1);
  }

  lemma OffsetInSlot(i: nat, n: nat, x: nat, e: nat, r: nat)
    requires x < n && e < n && 0 < r < i
    ensures if x + e >= n then i * n < i * x + e * i + r < i * n + i * n else 0 < i * x + e * i + r < i * n
  {
    assert e * i == i * e;
    MulSum(i, x, e);
    MulSum(i, x + e, 1);
    if x + e >= n {
      MulMono(n, x + e, i);
      MulMono(x + e + 1, n + n, i);
      MulSum(i, n, n);
    } else {
      MulMono(x + e + 1, n, i);
    }
  }

  lemma IpItersInSlot(k: Constants, ssi: nat, spIndex: nat, requiredIters: nat)
    requires Admissible(k, ssi, spIndex, requiredIters) && k.extra < k.numSps
    ensures 0 < IpIters(k, ssi, spIndex, requiredIters) < ssi
  {
    IntervalTiles(k, ssi);
    OffsetInSlot(Interval(k, ssi), k.numSps, spIndex, k.extra, requiredIters);
  }

  /** The modulus takes off a sub-slot exactly for overflow blocks, and the guards reject nothing
      admissible. */
  lemma IpItersExact(k: Constants, ssi: nat, spIndex: nat, requiredIters: nat)
    requires k.numSps > 0 && k.extra < k.numSps && ssi >= k.numSps
    ensures CalculateIpIters(k, ssi, spIndex, requiredIters).Some? <==> Admissible(k, ssi, spIndex, requiredIters)
    ensures Admissible(k, ssi, spIndex, requiredIters) ==>
      CalculateIpIters(k, ssi, spIndex, requiredIters).value == IpIters(k, ssi, spIndex, requiredIters)
  {
    if ssi % k.numSps == 0 && spIndex < k.numSps {
      var i, sp := Interval(k, ssi), SpIters(k, ssi, spIndex);
      IntervalTiles(k, ssi);
      SpItersInSlot(k, ssi, spIndex);
      ModMultiple(spIndex, i);
      assert sp % i == 0;
      if Admissible(k, ssi, spIndex, requiredIters) {
        IpItersInSlot(k, ssi, spIndex, requiredIters);
        var ip := IpIters(k, ssi, spIndex, requiredIters);
        DivModIs(sp + k.extra * i + requiredIters, ssi, if Overflows(k, spIndex) then 1 else 0, ip);
      }
    }
  }
}
