/** Integer arithmetic of the EEVDF scheduler: weights, virtual time, lag and timer conversions.

    Machine integers are mathematical ones; every saturation and cap of the 64-bit and 128-bit
    operations is written out.
 */
module EevdfArith {

  const U64_MAX: nat := 0xFFFF_FFFF_FFFF_FFFF
  const I64_MAX: nat := 0x7FFF_FFFF_FFFF_FFFF
  const U128_MAX: nat := 0xFFFF_FFFF_FFFF_FFFF_FFFF_FFFF_FFFF_FFFF

  const NICE_0_WEIGHT: nat := 1024
  const RT_TIME_SLICE_NS: nat := 50_000_000
  const MAX_WEIGHT: nat := 88761

  const NICE_TO_WEIGHT: seq<nat> := [
    88761, 71755, 56483, 46273, 36291, 29154, 23254, 18705, 14949, 11916, 9548, 7620, 6100, 4904,
    3906, 3121, 2501, 1991, 1586, 1277, 1024, 820, 655, 526, 423, 335, 272, 215, 172, 137, 110, 87,
    70, 56, 45, 36, 29, 23, 18, 15]

  function Min(a: int, b: int): int { if a < b then a else b }

  function Max(a: int, b: int): int { if a < b then b else a }

  function SaturatingAdd(a: nat, b: nat, limit: nat): nat {
    Min(a + b, limit)
  }

  function SaturatingSub(a: nat, b: nat): nat {
    if a < b then 0 else a - b
  }

  predicate IsRtPriority(priority: int) { 1 <= priority <= 99 }

  predicate IsNormalPriority(priority: int) { -120 <= priority <= -81 }

  predicate ValidPriority(priority: int) { IsRtPriority(priority) || IsNormalPriority(priority) }

  function Weight(priority: int): (w: nat)
    ensures 15 <= w <= MAX_WEIGHT
  {
    if IsNormalPriority(priority) then
      assert |NICE_TO_WEIGHT| == 40;
      NICE_TO_WEIGHT[priority + 120]
    else NICE_0_WEIGHT
  }

  /** A nice level more costs between a sixth and a quarter of the weight; nice 0 weighs 1024. */
  lemma WeightsFall(priority: int)
    requires -120 <= priority < -81
    ensures var w, next := Weight(priority), Weight(priority + 1); Falls(w, next)
    ensures Weight(-100) == 1024 && Weight(-120) == 88761 && Weight(-81) == 15
  {
    assert |NICE_TO_WEIGHT| == 40;
    if priority < -100 { HeavyFalls(priority + 120); } else { LightFalls(priority + 120); }
  }

  predicate Falls(w: nat, next: nat) { 6 * next <= 5 * w && 4 * next >= 3 * w }

  lemma HeavyFalls(i: nat)
    requires i < 20
    ensures Falls(NICE_TO_WEIGHT[i], NICE_TO_WEIGHT[i + 1])
  {}

  lemma LightFalls(i: nat)
    requires 20 <= i < 39
    ensures Falls(NICE_TO_WEIGHT[i], NICE_TO_WEIGHT[i + 1])
  {}

  /** The virtual request size of a task: one base slice scaled by its weight, never zero. */
  function VirtualSlice(baseSlice: nat, priority: int): (slice: nat)
    requires 0 < baseSlice <= U64_MAX
    ensures 1 <= slice <= U64_MAX
  {
    if IsNormalPriority(priority) then
      Max(Min(baseSlice * NICE_0_WEIGHT / Weight(priority), U64_MAX), 1)
    else baseSlice
  }

  function LagLimit(baseSlice: nat, priority: int): (limit: nat)
    requires 0 < baseSlice <= U64_MAX
    ensures limit <= 2 * VirtualSlice(baseSlice, priority) && limit <= I64_MAX
  {
    Min(Min(2 * VirtualSlice(baseSlice, priority), U64_MAX), I64_MAX)
  }

  function CalcDeltaFair(deltaExec: nat, weight: nat): nat
    requires weight > 0
  {
    Min(deltaExec * NICE_0_WEIGHT / weight, U64_MAX)
  }

  function CappedQuotient(value: nat, divisor: nat): (r: nat)
    requires divisor > 0
    ensures r <= U64_MAX
  {
    Min(value / divisor, U64_MAX)
  }

  function CeilDiv(value: nat, divisor: nat): nat
    requires divisor > 0
  {
    value / divisor + if value % divisor == 0 then 0 else 1
  }

  function SignedDifference(lhs: nat, rhs: nat): int {
    if lhs >= rhs then Min(lhs - rhs, I64_MAX) else -Min(rhs - lhs, I64_MAX)
  }

  function ApplyLag(virtualTime: nat, lag: int): (v: nat)
    requires virtualTime <= U64_MAX
    ensures v <= U64_MAX
    ensures 0 <= virtualTime - lag <= U64_MAX ==> v == virtualTime - lag
    ensures lag >= 0 ==> virtualTime - lag <= v <= virtualTime
    ensures lag <= 0 ==> virtualTime <= v <= virtualTime - lag
  {
    if lag >= 0 then SaturatingSub(virtualTime, lag) else SaturatingAdd(virtualTime, -lag, U64_MAX)
  }

  function Clamp(x: int, limit: int): (r: int)
    requires limit >= 0
    ensures -limit <= r <= limit
    ensures -limit <= x <= limit ==> r == x
  {
    if x < -limit then -limit else if x > limit then limit else x
  }

  /** Decay of saved lag while asleep. */
  function DecayedLag(lag: int, slept: nat): int {
    var decay := Min(slept, I64_MAX);
    if lag > 0 then Max(lag - decay, 0) else Min(lag + decay, 0)
  }

  /** Decay never flips the sign of saved lag and never increases its magnitude; a long sleep clears it. */
  lemma DecayShrinksLag(lag: int, slept: nat)
    ensures lag >= 0 ==> 0 <= DecayedLag(lag, slept) <= lag
    ensures lag <= 0 ==> lag <= DecayedLag(lag, slept) <= 0
    ensures -(I64_MAX as int) <= lag <= I64_MAX && (slept >= lag && slept >= -lag) ==> DecayedLag(lag, slept) == 0
  {}

  /** A timer that rounds up never fires before virtual runtime, which rounds down, reaches the deadline. */
  lemma TimerReachesDeadline(unaccounted: nat, vruntime: nat, deadline: nat, weight: nat)
    requires weight > 0 && deadline <= U64_MAX && vruntime <= U64_MAX
    ensures var now := SaturatingAdd(vruntime, CalcDeltaFair(unaccounted, weight), U64_MAX);
            var wait := CeilDiv(SaturatingSub(deadline, now) * weight, NICE_0_WEIGHT);
            SaturatingAdd(vruntime, CalcDeltaFair(unaccounted + wait, weight), U64_MAX) >= deadline
  {
    var ran := unaccounted * NICE_0_WEIGHT / weight;
    var now := SaturatingAdd(vruntime, Min(ran, U64_MAX), U64_MAX);
    var missing := SaturatingSub(deadline, now);
    var wait := CeilDiv(missing * weight, NICE_0_WEIGHT);
    CeilDivCovers(missing * weight, NICE_0_WEIGHT);
    SumOfQuotients(unaccounted * NICE_0_WEIGHT, wait * NICE_0_WEIGHT, weight, missing);
    assert (unaccounted + wait) * NICE_0_WEIGHT == unaccounted * NICE_0_WEIGHT + wait * NICE_0_WEIGHT;
  }

  /** Charged runtime reaches the deadline exactly when the time run, unrounded, is worth the rest of the request. */
  lemma RuntimeReaches(delta: nat, vruntime: nat, deadline: nat, weight: nat)
    requires weight > 0 && deadline <= U64_MAX
    ensures SaturatingAdd(vruntime, CalcDeltaFair(delta, weight), U64_MAX) >= deadline <==>
            SaturatingSub(deadline, vruntime) * weight <= delta * NICE_0_WEIGHT
  {
    var need, ran := SaturatingSub(deadline, vruntime), delta * NICE_0_WEIGHT / weight;
    if need * weight <= delta * NICE_0_WEIGHT {
      QuotientAtLeast(delta * NICE_0_WEIGHT, weight, need);
    } else {
      QuotientBelow(delta * NICE_0_WEIGHT, weight, need);
    }
  }

  lemma QuotientBelow(a: nat, w: nat, q: nat)
    requires w > 0 && a < q * w
    ensures a / w < q
  {
    assert a == a / w * w + a % w;
    MulCancel(a / w, q, w);
  }

  /** Rounding up gives the least number of whole divisors that covers the value. */
  lemma CeilDivCovers(value: nat, divisor: nat)
    requires divisor > 0
    ensures CeilDiv(value, divisor) * divisor >= value
    ensures (CeilDiv(value, divisor) - 1) * divisor < value || value == 0 == CeilDiv(value, divisor)
  {
    var q := value / divisor;
    assert value == q * divisor + value % divisor;
    MulSum(q, 1, divisor);
    MulSum(q, -1, divisor);
    if value == 0 { assert q == 0; }
  }

  lemma SumOfQuotients(a: nat, b: nat, w: nat, missing: nat)
    requires w > 0 && b >= missing * w
    ensures (a + b) / w >= a / w + missing
  {
    assert a == a / w * w + a % w;
    var q := a / w + missing;
    assert q * w == a / w * w + missing * w;
    QuotientAtLeast(a + b, w, q);
  }

  /** Dividing in two parts loses at most one. */
  lemma SplitQuotient(a: nat, b: nat, w: nat)
    requires w > 0
    ensures a / w + b / w <= (a + b) / w <= a / w + b / w + 1
  {
    var x, y := a / w, b / w;
    assert a == x * w + a % w;
    assert b == y * w + b % w;
    MulSum(x, y, w);
    MulSum(x + y, 2, w);
    QuotientAtLeast(a + b, w, x + y);
    QuotientBelow(a + b, w, x + y + 2);
  }

  lemma MulSum(x: int, y: int, w: int)
    ensures (x + y) * w == x * w + y * w
  {}

  lemma QuotientAtLeast(a: nat, w: nat, q: nat)
    requires w > 0 && a >= q * w
    ensures a / w >= q
  {
    assert a == a / w * w + a % w;
    assert (a / w + 1) * w == a / w * w + w;
    MulCancel(q, a / w + 1, w);
  }

  lemma QuotientAtMost(a: nat, w: nat, q: nat)
    requires w > 0 && a <= q * w
    ensures a / w <= q
  {
    assert a == a / w * w + a % w;
    assert (q + 1) * w == q * w + w;
    MulCancel(a / w, q + 1, w);
  }

  lemma MulCancel(a: int, b: int, w: nat)
    requires a * w < b * w
    ensures a < b
  {}
}
