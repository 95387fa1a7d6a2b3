// The deer agent's update rule: each month the herd moves one animal
// toward the carrying capacity that the grain height allows, and the
// count never drops below zero.

module Deer {

  const Int32Min: int := -0x8000_0000
  const Int32Max: int := 0x7FFF_FFFF

  predicate InInt32(x: int) {
    Int32Min <= x <= Int32Max
  }

  function Abs(x: int): (a: nat) {
    if x < 0 then -x else x
  }

  /** How far the herd is from the carrying capacity. */
  function Distance(numDeer: int, capacity: int): (d: nat) {
    Abs(numDeer - capacity)
  }

  /** The step toward the capacity, before the clamp at zero. */
  function StepTowards(numDeer: int, capacity: int): (stepped: int)
    ensures Distance(stepped, capacity) == if numDeer == capacity then 0 else Distance(numDeer, capacity) - 1
    ensures -1 <= stepped - numDeer <= 1
  {
    if numDeer < capacity then numDeer + 1
    else if numDeer > capacity then numDeer - 1
    else numDeer
  }

  /** The deer count for the next month, given this month's count and the
    * carrying capacity (the grain height truncated to an integer). */
  function NextNumDeer(numDeer: int, capacity: int): (next: int)
    ensures next >= 0
    ensures numDeer >= 0 ==> -1 <= next - numDeer <= 1
  {
    var stepped := StepTowards(numDeer, capacity);
    if stepped < 0 then 0 else stepped
  }

  /** For the non-negative counts and capacities the simulation produces the
    * stepped count is never negative, so the clamp at zero never fires. */
  lemma ClampIdleForSimulationInputs(numDeer: int, capacity: int)
    requires numDeer >= 0 && capacity >= 0
    ensures StepTowards(numDeer, capacity) >= 0
    ensures NextNumDeer(numDeer, capacity) == StepTowards(numDeer, capacity)
  {
  }

  /** Which way the herd moves, as an if-and-only-if in each direction, for
    * the non-negative counts and capacities the simulation produces. */
  lemma NextNumDeerDirection(numDeer: int, capacity: int)
    requires numDeer >= 0 && capacity >= 0
    ensures NextNumDeer(numDeer, capacity) == numDeer + 1 <==> numDeer < capacity
    ensures NextNumDeer(numDeer, capacity) == numDeer - 1 <==> numDeer > capacity
    ensures NextNumDeer(numDeer, capacity) == numDeer <==> numDeer == capacity
  {
  }

  /** Above the capacity the herd loses exactly one animal unless the clamp
    * at zero applies; this holds for any capacity, including a negative one. */
  lemma NextNumDeerAboveCapacity(numDeer: int, capacity: int)
    requires numDeer > capacity
    ensures NextNumDeer(numDeer, capacity) == if numDeer - 1 < 0 then 0 else numDeer - 1
  {
  }

  /** The carrying capacity is a fixed point of the step. */
  lemma CapacityIsFixedPoint(capacity: int)
    requires capacity >= 0
    ensures NextNumDeer(capacity, capacity) == capacity
  {
  }

  /** The step never moves the herd further from the capacity, and strictly
    * closer whenever it is not already there. */
  lemma DistanceShrinks(numDeer: int, capacity: int)
    requires numDeer >= 0 && capacity >= 0
    ensures Distance(NextNumDeer(numDeer, capacity), capacity) <= Distance(numDeer, capacity)
    ensures numDeer != capacity ==>
      Distance(NextNumDeer(numDeer, capacity), capacity) == Distance(numDeer, capacity) - 1
  {
  }

  /** With 32-bit operands neither the increment nor the decrement of the
    * source can overflow, so the unbounded model agrees with C's int. */
  lemma StepStaysInInt32(numDeer: int, capacity: int)
    requires InInt32(numDeer) && InInt32(capacity)
    ensures InInt32(StepTowards(numDeer, capacity))
    ensures InInt32(NextNumDeer(numDeer, capacity))
  {
  }

  /** The count after `months` steps against a fixed capacity: never
    * negative once a step has been taken, and from a non-negative count at
    * most `months` animals away from where it started. */
  function DeerAfter(numDeer: int, capacity: int, months: nat): (count: int)
    ensures months > 0 || numDeer >= 0 ==> count >= 0
    ensures numDeer >= 0 ==> Distance(count, numDeer) <= months
    decreases months
  {
    if months == 0 then numDeer
    else DeerAfter(NextNumDeer(numDeer, capacity), capacity, months - 1)
  }

  /** Against a fixed capacity the distance falls by exactly one each month
    * until the herd reaches the capacity, then stays at zero. */
  lemma {:induction false} DistanceAfter(numDeer: int, capacity: int, months: nat)
    requires numDeer >= 0 && capacity >= 0
    ensures DeerAfter(numDeer, capacity, months) >= 0
    ensures Distance(DeerAfter(numDeer, capacity, months), capacity) ==
      if months <= Distance(numDeer, capacity) then Distance(numDeer, capacity) - months else 0
    decreases months
  {
    if months > 0 {
      DistanceShrinks(numDeer, capacity);
      DistanceAfter(NextNumDeer(numDeer, capacity), capacity, months - 1);
    }
  }

  /** The herd reaches the carrying capacity after as many months as it
    * started away from it, and no sooner. */
  lemma ReachesCapacity(numDeer: int, capacity: int, months: nat)
    requires numDeer >= 0 && capacity >= 0
    ensures DeerAfter(numDeer, capacity, months) == capacity <==> months >= Distance(numDeer, capacity)
  {
    DistanceAfter(numDeer, capacity, months);
  }
}
