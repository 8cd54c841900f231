/** The ordinary-task half of the run queue as a value, with the scan every fast structure must agree with.

    `Fair` is a snapshot of the two trees, the running sums, the stale-low deadline bound, the
    preemption cache and the virtual time. `FairOk` says that each of them is what a scan of the
    queued tasks would compute. The lemmas show that the five ways in which the scheduler changes
    this state keep it so.
 */
module EevdfFair {
  import opened Options
  import opened EevdfArith
  import opened Sums

  datatype RtPolicy = Fifo | RoundRobin

  datatype Task = Task(
    priority: int, vruntime: nat, deadline: nat, execStart: nat, running: bool,
    savedVlag: int, lagVtime: nat, hasSavedLag: bool, queueId: nat,
    rtPolicy: RtPolicy, rtRemaining: nat)
  {
    predicate IsRt() { IsRtPriority(priority) }
  }

  datatype Cache = Cache(hasEligible: bool, deadline: nat, threshold: Option<nat>) {
    predicate Covers(virtualTime: nat) {
      hasEligible || threshold.None? || virtualTime < threshold.value
    }
  }

  datatype Fair = Fair(
    tasks: map<nat, Task>, eligible: set<nat>, ineligible: set<nat>, bound: Option<nat>,
    count: nat, totalWeight: nat, weightedVruntime: nat, cache: Option<Cache>, virtualTime: nat)
  {
    function Queued(): set<nat> { eligible + ineligible }
  }

  /** With fewer queued tasks than this, no 128-bit sum saturates. */
  const MAX_QUEUED: nat := 0x8000_0000_0000

  predicate TaskOk(t: Task) {
    && ValidPriority(t.priority)
    && t.vruntime <= U64_MAX && t.deadline <= U64_MAX && t.execStart <= U64_MAX
    && -(I64_MAX as int) <= t.savedVlag <= I64_MAX && t.lagVtime <= U64_MAX
    && t.queueId <= U64_MAX && t.rtRemaining <= U64_MAX
  }

  // ----- The scan

  ghost function Weights(tasks: map<nat, Task>): map<nat, int> {
    map x | x in tasks :: Weight(tasks[x].priority)
  }

  ghost function Loads(tasks: map<nat, Task>): map<nat, int> {
    map x | x in tasks :: tasks[x].vruntime * Weight(tasks[x].priority)
  }

  lemma WeightPositive(tasks: map<nat, Task>, s: set<nat>)
    requires s <= tasks.Keys
    ensures Sum(Weights(tasks), s) >= |s|
    ensures Sum(Weights(tasks), s) <= MAX_WEIGHT * |s|
    ensures s != {} ==> Sum(Weights(tasks), s) > 0
  {
    SumBetween(Weights(tasks), s, 1, MAX_WEIGHT);
    if s != {} { assert |s| > 0; }
  }

  /** The weighted average of virtual runtimes, rounded down. */
  ghost function Average(tasks: map<nat, Task>, s: set<nat>): int
    requires s <= tasks.Keys && s != {}
  {
    WeightPositive(tasks, s);
    Sum(Loads(tasks), s) / Sum(Weights(tasks), s)
  }

  lemma AverageBetween(tasks: map<nat, Task>, s: set<nat>, lo: nat, hi: nat)
    requires s <= tasks.Keys && s != {} && forall x :: x in s ==> lo <= tasks[x].vruntime <= hi
    ensures lo <= Average(tasks, s) <= hi
  {
    var w, l := Weights(tasks), Loads(tasks);
    WeightPositive(tasks, s);
    forall x | x in s
      ensures lo * w[x] <= l[x] <= hi * w[x]
    {
      MulBetween(lo, tasks[x].vruntime, hi, w[x]);
    }
    SumScaled(l, w, s, lo);
    SumScaled(l, w, s, hi);
    assert 0 <= lo * Sum(w, s) by { MulBetween(0, lo, lo, Sum(w, s)); }
    QuotientAtLeast(Sum(l, s), Sum(w, s), lo);
    QuotientAtMost(Sum(l, s), Sum(w, s), hi);
  }

  lemma MulBetween(lo: int, v: int, hi: int, w: int)
    requires lo <= v <= hi && 0 <= w
    ensures lo * w <= v * w <= hi * w
  {}

  /** Some task is never ahead of the weighted average, however it is rounded. */
  lemma {:induction false} SomeTaskNotAhead(tasks: map<nat, Task>, s: set<nat>)
    requires s <= tasks.Keys && s != {}
    ensures exists x :: x in s && tasks[x].vruntime <= Average(tasks, s)
  {
    hide Average;
    var x := SmallestVruntime(tasks, s);
    var y := LargestVruntime(tasks, s);
    AverageBetween(tasks, s, tasks[x].vruntime, tasks[y].vruntime);
  }

  lemma {:induction false} SmallestVruntime(tasks: map<nat, Task>, s: set<nat>) returns (x: nat)
    requires s <= tasks.Keys && s != {}
    ensures x in s && forall y :: y in s ==> tasks[x].vruntime <= tasks[y].vruntime
    decreases |s|
  {
    x :| x in s;
    if s != {x} {
      var z := SmallestVruntime(tasks, s - {x});
      if tasks[z].vruntime < tasks[x].vruntime { x := z; }
    }
  }

  lemma {:induction false} LargestVruntime(tasks: map<nat, Task>, s: set<nat>) returns (x: nat)
    requires s <= tasks.Keys && s != {}
    ensures x in s && forall y :: y in s ==> tasks[y].vruntime <= tasks[x].vruntime
    decreases |s|
  {
    x :| x in s;
    if s != {x} {
      var z := LargestVruntime(tasks, s - {x});
      if tasks[x].vruntime < tasks[z].vruntime { x := z; }
    }
  }

  // ----- Tree order

  type Key = (int, int, int)

  predicate KeyAtMost(a: Key, b: Key) {
    a.0 < b.0 || (a.0 == b.0 && (a.1 < b.1 || (a.1 == b.1 && a.2 <= b.2)))
  }

  /** Key of the eligible tree: `(deadline, queue id)`. */
  function EligibleKey(t: Task): Key { (0, t.deadline, t.queueId) }

  /** Key of the ineligible tree: `(vruntime, deadline, queue id)`. */
  function IneligibleKey(t: Task): Key { (t.vruntime, t.deadline, t.queueId) }

  predicate IsFirst(tasks: map<nat, Task>, s: set<nat>, key: Task -> Key, x: nat)
    requires s <= tasks.Keys
  {
    x in s && forall y :: y in s ==> KeyAtMost(key(tasks[x]), key(tasks[y]))
  }

  lemma {:induction false} LeastExists(keys: map<nat, Key>, s: set<nat>)
    requires s <= keys.Keys && s != {}
    ensures exists x :: x in s && forall y :: y in s ==> KeyAtMost(keys[x], keys[y])
    decreases |s|
  {
    var x :| x in s;
    if s == {x} {
      assert forall y :: y in s ==> KeyAtMost(keys[x], keys[y]);
    } else {
      LeastExists(keys, s - {x});
      var z :| z in s - {x} && forall y :: y in s - {x} ==> KeyAtMost(keys[z], keys[y]);
      var least := if KeyAtMost(keys[x], keys[z]) then x else z;
      forall y | y in s
        ensures KeyAtMost(keys[least], keys[y])
      {}
    }
  }

  lemma FirstExists(tasks: map<nat, Task>, s: set<nat>, key: Task -> Key)
    requires s <= tasks.Keys && s != {}
    ensures exists x :: IsFirst(tasks, s, key, x)
  {
    hide KeyAtMost;
    var keys := map x | x in tasks :: key(tasks[x]);
    LeastExists(keys, s);
    var x :| x in s && forall y :: y in s ==> KeyAtMost(keys[x], keys[y]);
    forall y | y in s
      ensures KeyAtMost(key(tasks[x]), key(tasks[y]))
    {
      assert KeyAtMost(keys[x], keys[y]);
    }
    assert IsFirst(tasks, s, key, x);
  }

  lemma FirstIn(tasks: map<nat, Task>, s: set<nat>, key: Task -> Key, x: nat)
    requires s <= tasks.Keys && IsFirst(tasks, s, key, x)
    ensures x in s
  {}

  /** The front of a tree. */
  method Front(tasks: map<nat, Task>, s: set<nat>, key: Task -> Key) returns (x: nat)
    requires s <= tasks.Keys && s != {}
    ensures IsFirst(tasks, s, key, x)
  {
    FirstExists(tasks, s, key);
    x :| x in s && IsFirst(tasks, s, key, x);
  }

  // ----- Invariant

  /** What a scan answers: some queued task is eligible and has an earlier deadline. */
  ghost predicate HasEligible(f: Fair, deadline: nat)
    requires f.Queued() <= f.tasks.Keys
  {
    exists x :: x in f.Queued() && f.tasks[x].vruntime <= f.virtualTime && f.tasks[x].deadline < deadline
  }

  ghost predicate CacheOk(f: Fair)
    requires f.Queued() <= f.tasks.Keys
  {
    f.cache.Some? ==>
      var c := f.cache.value;
      if c.hasEligible then HasEligible(f, c.deadline)
      else forall x :: x in f.Queued() && f.tasks[x].deadline < c.deadline ==>
                       c.threshold.Some? && c.threshold.value <= f.tasks[x].vruntime
  }

  /** The bound is absent exactly for an empty ineligible tree and never above a deadline in it. */
  ghost predicate BoundOk(f: Fair)
    requires f.Queued() <= f.tasks.Keys
  {
    && (f.bound.None? <==> f.ineligible == {})
    && (f.bound.Some? ==> forall x :: x in f.ineligible ==> f.bound.value <= f.tasks[x].deadline)
  }

  ghost predicate SumsOk(f: Fair)
    requires f.Queued() <= f.tasks.Keys
  {
    && f.count == |f.Queued()|
    && f.totalWeight == Sum(Weights(f.tasks), f.Queued())
    && f.weightedVruntime == Sum(Loads(f.tasks), f.Queued())
  }

  ghost predicate TreesOk(f: Fair) {
    && (forall x :: x in f.tasks ==> TaskOk(f.tasks[x]))
    && f.eligible !! f.ineligible && f.Queued() <= f.tasks.Keys
    && (forall x :: x in f.Queued() ==> IsNormalPriority(f.tasks[x].priority))
    && (forall x :: x in f.eligible ==> f.tasks[x].vruntime <= f.virtualTime)
    && f.virtualTime <= U64_MAX
  }

  ghost predicate FairOk(f: Fair) {
    TreesOk(f) && SumsOk(f) && BoundOk(f) && CacheOk(f) && f.count < MAX_QUEUED
  }

  // ----- Virtual time

  ghost function Participants(f: Fair, current: Option<nat>): set<nat>
    requires current.Some? ==> current.value in f.tasks
  {
    f.Queued() + if current.Some? && !f.tasks[current.value].IsRt() then {current.value} else {}
  }

  /** Virtual time is pulled up to the weighted average of the queued tasks and the running one. */
  ghost function VirtualTimeAfter(f: Fair, current: Option<nat>): int
    requires current.Some? ==> current.value in f.tasks
    requires f.Queued() <= f.tasks.Keys
  {
    var s := Participants(f, current);
    if s == {} then f.virtualTime else Max(f.virtualTime, Average(f.tasks, s))
  }

  lemma VirtualTimeBounds(f: Fair, current: Option<nat>)
    requires TreesOk(f) && (current.Some? ==> current.value in f.tasks)
    ensures f.virtualTime <= VirtualTimeAfter(f, current) <= U64_MAX
  {
    var s := Participants(f, current);
    if s != {} { CapUnreached(f, s); }
  }

  lemma LoadBound(tasks: map<nat, Task>, s: set<nat>)
    requires s <= tasks.Keys && forall x :: x in s ==> tasks[x].vruntime <= U64_MAX
    ensures 0 <= Sum(Loads(tasks), s) <= U64_MAX * MAX_WEIGHT * |s|
  {
    forall x | x in s
      ensures 0 <= Loads(tasks)[x] <= U64_MAX * MAX_WEIGHT
    {
      MulBetween(0, tasks[x].vruntime, U64_MAX, Weight(tasks[x].priority));
      MulBetween(0, Weight(tasks[x].priority), MAX_WEIGHT, U64_MAX);
    }
    SumBetween(Loads(tasks), s, 0, U64_MAX * MAX_WEIGHT);
  }

  /** No 128-bit sum saturates while fewer than 2^47 tasks are queued. */
  lemma NoSaturation(tasks: map<nat, Task>, s: set<nat>)
    requires s <= tasks.Keys && |s| <= MAX_QUEUED && forall x :: x in s ==> tasks[x].vruntime <= U64_MAX
    ensures 0 <= Sum(Weights(tasks), s) <= U128_MAX && 0 <= Sum(Loads(tasks), s) <= U128_MAX
  {
    WeightPositive(tasks, s);
    LoadBound(tasks, s);
    MulBetween(0, |s|, MAX_QUEUED, U64_MAX * MAX_WEIGHT);
  }

  lemma SumsWithCurrent(f: Fair, c: nat)
    requires FairOk(f) && c in f.tasks && c !in f.Queued()
    ensures |f.Queued() + {c}| <= MAX_QUEUED
    ensures Sum(Weights(f.tasks), f.Queued() + {c}) == f.totalWeight + Weight(f.tasks[c].priority)
    ensures Sum(Loads(f.tasks), f.Queued() + {c}) == f.weightedVruntime + LoadOf(f.tasks[c])
    ensures f.totalWeight + Weight(f.tasks[c].priority) <= U128_MAX
    ensures f.weightedVruntime + LoadOf(f.tasks[c]) <= U128_MAX && LoadOf(f.tasks[c]) <= U128_MAX
  {
    SumInsert(Weights(f.tasks), f.Queued(), c);
    SumInsert(Loads(f.tasks), f.Queued(), c);
    forall x | x in f.Queued() + {c}
      ensures f.tasks[x].vruntime <= U64_MAX
    {
      assert TaskOk(f.tasks[x]);
    }
    NoSaturation(f.tasks, f.Queued() + {c});
    NoSaturation(f.tasks, f.Queued());
  }

  lemma AdvanceKeeps(f: Fair, virtualTime: nat)
    requires FairOk(f) && f.virtualTime <= virtualTime <= U64_MAX
    ensures FairOk(f.(virtualTime := virtualTime))
  {
    var g := f.(virtualTime := virtualTime);
    assert g.Queued() == f.Queued();
    if f.cache.Some? && f.cache.value.hasEligible {
      var x :| x in f.Queued() && f.tasks[x].vruntime <= f.virtualTime && f.tasks[x].deadline < f.cache.value.deadline;
      assert x in g.Queued() && g.tasks[x].vruntime <= g.virtualTime;
    }
  }

  /** The incremental sums give the scanned average: nothing saturates and the cap is not reached. */
  lemma VirtualTimeComputed(f: Fair, current: Option<nat>, total: nat, weighted: nat)
    requires FairOk(f) && (current.Some? ==> current.value in f.tasks && current.value !in f.Queued())
    requires if current.Some? && !f.tasks[current.value].IsRt() then
               var c := f.tasks[current.value];
               && total == SaturatingAdd(f.totalWeight, Weight(c.priority), U128_MAX)
               && weighted == SaturatingAdd(f.weightedVruntime, Min(LoadOf(c), U128_MAX), U128_MAX)
             else total == f.totalWeight && weighted == f.weightedVruntime
    ensures VirtualTimeAfter(f, current) ==
            if total == 0 then f.virtualTime else Max(f.virtualTime, CappedQuotient(weighted, total))
    ensures f.virtualTime <= VirtualTimeAfter(f, current) <= U64_MAX
    ensures FairOk(f.(virtualTime := VirtualTimeAfter(f, current)))
  {
    hide Sum, Weight, LoadOf, CacheOk, BoundOk;
    var s := Participants(f, current);
    if current.Some? && !f.tasks[current.value].IsRt() {
      SumsWithCurrent(f, current.value);
    } else {
      assert s == f.Queued();
    }
    assert total == Sum(Weights(f.tasks), s) && weighted == Sum(Loads(f.tasks), s);
    WeightPositive(f.tasks, s);
    VirtualTimeBounds(f, current);
    AdvanceKeeps(f, VirtualTimeAfter(f, current));
    if s != {} { CapUnreached(f, s); }
  }

  lemma CapUnreached(f: Fair, s: set<nat>)
    requires TreesOk(f) && s <= f.tasks.Keys && s != {}
    ensures 0 <= Average(f.tasks, s) <= U64_MAX
  {
    forall x | x in s
      ensures 0 <= f.tasks[x].vruntime <= U64_MAX
    {
      assert TaskOk(f.tasks[x]);
    }
    AverageBetween(f.tasks, s, 0, U64_MAX);
  }

  // ----- Promotion

  /** One task moves from the ineligible tree to the eligible one. */
  lemma PromoteOneKeeps(f: Fair, x: nat)
    requires TreesOk(f) && SumsOk(f) && CacheOk(f) && f.count < MAX_QUEUED
    requires x in f.ineligible && f.tasks[x].vruntime <= f.virtualTime
    ensures var g := f.(eligible := f.eligible + {x}, ineligible := f.ineligible - {x});
            TreesOk(g) && SumsOk(g) && CacheOk(g) && g.Queued() == f.Queued()
  {
    hide Sum, Weights, Loads, Weight, TaskOk;
    var g := f.(eligible := f.eligible + {x}, ineligible := f.ineligible - {x});
    assert g.Queued() == f.Queued();
    if f.cache.Some? && f.cache.value.hasEligible {
      var y :| y in f.Queued() && f.tasks[y].vruntime <= f.virtualTime && f.tasks[y].deadline < f.cache.value.deadline;
      assert y in g.Queued();
    }
  }

  /** The trees are split exactly at the virtual time. */
  ghost predicate Settled(f: Fair)
    requires f.Queued() <= f.tasks.Keys
  {
    forall x :: x in f.ineligible ==> f.tasks[x].vruntime > f.virtualTime
  }

  /** State of the promotion loop; the deadline bound is settled after it. */
  ghost predicate PromoteLoop(f: Fair, g: Fair) {
    && g == f.(eligible := g.eligible, ineligible := g.ineligible)
    && TreesOk(g) && SumsOk(g) && CacheOk(g) && g.count < MAX_QUEUED
    && g.Queued() == f.Queued() && g.ineligible <= f.ineligible
  }

  lemma PromoteStart(f: Fair)
    requires FairOk(f)
    ensures PromoteLoop(f, f)
  {}

  lemma LoopKeys(f: Fair, g: Fair)
    requires PromoteLoop(f, g)
    ensures g.ineligible <= g.tasks.Keys
  {}

  lemma PromoteStep(f: Fair, g: Fair, x: nat)
    requires PromoteLoop(f, g) && x in g.ineligible && g.tasks[x].vruntime <= g.virtualTime
    ensures PromoteLoop(f, g.(eligible := g.eligible + {x}, ineligible := g.ineligible - {x}))
  {
    PromoteOneKeeps(g, x);
  }

  lemma PromoteEnd(f: Fair, g: Fair, promoted: bool)
    requires FairOk(f) && PromoteLoop(f, g) && (!promoted ==> g == f)
    requires g.ineligible == {} ||
             exists x :: IsFirst(g.tasks, g.ineligible, IneligibleKey, x) && g.tasks[x].vruntime > g.virtualTime
    ensures var h := g.(bound := if promoted && g.ineligible == {} then None else g.bound);
            FairOk(h) && Settled(h) && h.Queued() == f.Queued()
  {
    hide Sum, Weights, Loads, TaskOk;
    var h := g.(bound := if promoted && g.ineligible == {} then None else g.bound);
    assert h.Queued() == f.Queued();
    if g.ineligible != {} {
      var x :| IsFirst(g.tasks, g.ineligible, IneligibleKey, x) && g.tasks[x].vruntime > g.virtualTime;
      forall y | y in g.ineligible
        ensures g.tasks[y].vruntime > g.virtualTime
      {
        assert KeyAtMost(IneligibleKey(g.tasks[x]), IneligibleKey(g.tasks[y]));
      }
    }
    assert CacheOk(h) <==> CacheOk(g) by { assert HasEligibleSame(g, h); }
  }

  ghost predicate HasEligibleSame(g: Fair, h: Fair)
    requires g.Queued() <= g.tasks.Keys && h.Queued() <= h.tasks.Keys
  {
    g.tasks == h.tasks && g.Queued() == h.Queued() && g.virtualTime == h.virtualTime && g.cache == h.cache
  }

  // ----- Changing the queue

  lemma SameSums(f: Fair, g: Fair)
    requires f.Queued() <= f.tasks.Keys && f.Queued() <= g.tasks.Keys
    requires forall x :: x in f.Queued() ==> g.tasks[x] == f.tasks[x]
    ensures Sum(Weights(g.tasks), f.Queued()) == Sum(Weights(f.tasks), f.Queued())
    ensures Sum(Loads(g.tasks), f.Queued()) == Sum(Loads(f.tasks), f.Queued())
  {
    SumAgree(Weights(g.tasks), Weights(f.tasks), f.Queued());
    SumAgree(Loads(g.tasks), Loads(f.tasks), f.Queued());
  }

  /** Changing a task that is in neither tree. */
  lemma TouchKeeps(f: Fair, id: nat, t: Task)
    requires FairOk(f) && id !in f.Queued() && TaskOk(t)
    ensures FairOk(f.(tasks := f.tasks[id := t]))
  {
    hide Sum, Weights, Loads;
    var g := f.(tasks := f.tasks[id := t]);
    assert g.Queued() == f.Queued();
    SameSums(f, g);
    forall x | x in f.Queued()
      ensures g.tasks[x] == f.tasks[x]
    {}
    if f.cache.Some? && f.cache.value.hasEligible {
      var x :| x in f.Queued() && f.tasks[x].vruntime <= f.virtualTime && f.tasks[x].deadline < f.cache.value.deadline;
      assert x in g.Queued() && g.tasks[x].vruntime <= g.virtualTime;
    }
  }

  lemma AdoptKeeps(f: Fair, id: nat, t: Task)
    requires FairOk(f) && id !in f.tasks && TaskOk(t)
    ensures FairOk(f.(tasks := f.tasks[id := t])) && id !in f.Queued()
  {
    TouchKeeps(f, id, t);
  }

  /** Changing fields that neither tree nor sum looks at, as saving lag does. */
  lemma TouchUnkeyedKeeps(f: Fair, id: nat, t: Task)
    requires FairOk(f) && id in f.tasks && TaskOk(t)
    requires t.priority == f.tasks[id].priority && t.vruntime == f.tasks[id].vruntime
    requires t.deadline == f.tasks[id].deadline && t.queueId == f.tasks[id].queueId
    ensures FairOk(f.(tasks := f.tasks[id := t]))
  {
    hide Sum, Weight;
    var g := f.(tasks := f.tasks[id := t]);
    assert g.Queued() == f.Queued();
    assert forall x :: x in f.tasks ==> SameKeys(f.tasks[x], g.tasks[x]);
    assert Weights(g.tasks) == Weights(f.tasks) && Loads(g.tasks) == Loads(f.tasks);
    hide Weights, Loads;
    UnkeyedTrees(f, g, id);
    UnkeyedCache(f, g);
    hide TreesOk, BoundOk, CacheOk, TaskOk;
  }

  lemma UnkeyedTrees(f: Fair, g: Fair, id: nat)
    requires TreesOk(f) && BoundOk(f) && id in f.tasks && id in g.tasks
    requires g == f.(tasks := f.tasks[id := g.tasks[id]])
    requires TaskOk(g.tasks[id]) && SameKeys(f.tasks[id], g.tasks[id])
    ensures TreesOk(g) && BoundOk(g)
  {
    hide TaskOk;
    assert g.Queued() == f.Queued();
  }

  predicate SameKeys(t: Task, u: Task) {
    t.priority == u.priority && t.vruntime == u.vruntime && t.deadline == u.deadline
  }

  lemma UnkeyedCache(f: Fair, g: Fair)
    requires f.Queued() <= f.tasks.Keys && CacheOk(f)
    requires g.tasks.Keys == f.tasks.Keys && f == g.(tasks := f.tasks)
    requires forall x :: x in f.tasks ==> SameKeys(f.tasks[x], g.tasks[x])
    ensures CacheOk(g)
  {
    assert g.Queued() == f.Queued();
    if f.cache.Some? && f.cache.value.hasEligible {
      var x :| x in f.Queued() && f.tasks[x].vruntime <= f.virtualTime && f.tasks[x].deadline < f.cache.value.deadline;
      assert SameKeys(f.tasks[x], g.tasks[x]) && x in g.Queued() && g.tasks[x].vruntime <= g.virtualTime;
    }
    assert forall x :: x in f.Queued() ==> SameKeys(f.tasks[x], g.tasks[x]);
  }

  /** The queue with `id` added on the side its virtual runtime calls for. */
  ghost function Inserted(f: Fair, id: nat): Fair
    requires id in f.tasks
  {
    var t := f.tasks[id];
    var g := f.(count := f.count + 1, cache := None,
                totalWeight := f.totalWeight + Weight(t.priority),
                weightedVruntime := f.weightedVruntime + LoadOf(t));
    if t.vruntime <= f.virtualTime then g.(eligible := f.eligible + {id})
    else g.(ineligible := f.ineligible + {id},
            bound := Some(if f.bound.Some? then Min(f.bound.value, t.deadline) else t.deadline))
  }

  function LoadOf(t: Task): (load: nat) {
    MulBetween(0, t.vruntime, t.vruntime, Weight(t.priority));
    t.vruntime * Weight(t.priority)
  }

  /** The statements of an insertion compute `Inserted`. */
  lemma InsertedFields(f: Fair, id: nat, g: Fair)
    requires id in f.tasks && f.count + 1 <= U64_MAX
    requires f.totalWeight + Weight(f.tasks[id].priority) <= U128_MAX
    requires LoadOf(f.tasks[id]) <= U128_MAX && f.weightedVruntime + LoadOf(f.tasks[id]) <= U128_MAX
    requires g.tasks == f.tasks && g.virtualTime == f.virtualTime && g.cache == None
    requires g.count == SaturatingAdd(f.count, 1, U64_MAX)
    requires g.totalWeight == SaturatingAdd(f.totalWeight, Weight(f.tasks[id].priority), U128_MAX)
    requires g.weightedVruntime == SaturatingAdd(f.weightedVruntime, Min(LoadOf(f.tasks[id]), U128_MAX), U128_MAX)
    requires var t := f.tasks[id];
             if t.vruntime <= f.virtualTime then
               g.eligible == f.eligible + {id} && g.ineligible == f.ineligible && g.bound == f.bound
             else
               && g.eligible == f.eligible && g.ineligible == f.ineligible + {id}
               && g.bound == Some(if f.bound.Some? then Min(f.bound.value, t.deadline) else t.deadline)
    ensures g == Inserted(f, id)
  {}

  lemma QueueIdOk(f: Fair, id: nat, queueId: nat)
    requires FairOk(f) && id in f.tasks && queueId <= U64_MAX
    ensures TaskOk(f.tasks[id].(queueId := queueId))
  {
    assert TaskOk(f.tasks[id]);
  }

  lemma InsertedTrees(f: Fair, id: nat)
    requires TreesOk(f) && BoundOk(f) && id in f.tasks && id !in f.Queued() && IsNormalPriority(f.tasks[id].priority)
    ensures TreesOk(Inserted(f, id)) && BoundOk(Inserted(f, id)) && Inserted(f, id).Queued() == f.Queued() + {id}
    ensures var g, t := Inserted(f, id), f.tasks[id];
            && g.tasks == f.tasks && g.count == f.count + 1 && g.cache == None
            && g.totalWeight == f.totalWeight + Weight(t.priority)
            && g.weightedVruntime == f.weightedVruntime + LoadOf(t)
  {
    hide Weight, TaskOk, LoadOf;
    assert Inserted(f, id).Queued() == f.Queued() + {id};
  }

  lemma InsertKeeps(f: Fair, id: nat)
    requires FairOk(f) && id in f.tasks && id !in f.Queued() && IsNormalPriority(f.tasks[id].priority)
    requires f.count + 1 < MAX_QUEUED
    ensures FairOk(Inserted(f, id)) && Inserted(f, id).Queued() == f.Queued() + {id}
    ensures f.totalWeight + Weight(f.tasks[id].priority) <= U128_MAX
    ensures LoadOf(f.tasks[id]) <= U128_MAX && f.weightedVruntime + LoadOf(f.tasks[id]) <= U128_MAX
  {
    InsertedTrees(f, id);
    SumsWithCurrent(f, id);
    hide Sum, Weights, Loads, TreesOk, BoundOk, LoadOf, Weight, Inserted;
    var g := Inserted(f, id);
    assert |g.Queued()| == |f.Queued()| + 1;
  }

  /** The queue with `id` taken out of whichever tree holds it. */
  ghost function Removed(f: Fair, id: nat): Fair
    requires id in f.tasks && f.count > 0
    requires Weight(f.tasks[id].priority) <= f.totalWeight && LoadOf(f.tasks[id]) <= f.weightedVruntime
  {
    f.(count := f.count - 1, cache := None,
       totalWeight := f.totalWeight - Weight(f.tasks[id].priority),
       weightedVruntime := f.weightedVruntime - LoadOf(f.tasks[id]),
       eligible := f.eligible - {id}, ineligible := f.ineligible - {id},
       bound := if f.ineligible - {id} == {} then None else f.bound)
  }

  lemma RemovedSums(f: Fair, id: nat)
    requires TreesOk(f) && SumsOk(f) && f.count < MAX_QUEUED && id in f.Queued()
    ensures f.count > 0
    ensures Weight(f.tasks[id].priority) <= f.totalWeight && LoadOf(f.tasks[id]) <= f.weightedVruntime
    ensures var s := f.Queued() - {id};
            && |s| == f.count - 1
            && Sum(Weights(f.tasks), s) == f.totalWeight - Weight(f.tasks[id].priority)
            && Sum(Loads(f.tasks), s) == f.weightedVruntime - LoadOf(f.tasks[id])
  {
    SumRemove(Weights(f.tasks), f.Queued(), id);
    SumRemove(Loads(f.tasks), f.Queued(), id);
    forall x | x in f.Queued() - {id}
      ensures f.tasks[x].vruntime <= U64_MAX
    {
      assert TaskOk(f.tasks[x]);
    }
    assert |f.Queued()| == |f.Queued() - {id}| + 1;
    NoSaturation(f.tasks, f.Queued() - {id});
  }

  lemma RemovedTrees(f: Fair, id: nat)
    requires TreesOk(f) && BoundOk(f) && id in f.Queued() && f.count > 0
    requires Weight(f.tasks[id].priority) <= f.totalWeight && LoadOf(f.tasks[id]) <= f.weightedVruntime
    ensures TreesOk(Removed(f, id)) && BoundOk(Removed(f, id)) && Removed(f, id).Queued() == f.Queued() - {id}
    ensures var g, t := Removed(f, id), f.tasks[id];
            && g.tasks == f.tasks && g.count == f.count - 1 && g.cache == None
            && g.totalWeight == f.totalWeight - Weight(t.priority)
            && g.weightedVruntime == f.weightedVruntime - LoadOf(t)
  {
    hide Weight, LoadOf, TaskOk;
    assert Removed(f, id).Queued() == f.Queued() - {id};
    assert f.ineligible - {id} != {} ==> f.ineligible != {};
  }

  lemma RemoveKeeps(f: Fair, id: nat)
    requires FairOk(f) && id in f.Queued()
    ensures f.count > 0
    ensures Weight(f.tasks[id].priority) <= f.totalWeight && LoadOf(f.tasks[id]) <= f.weightedVruntime
    ensures FairOk(Removed(f, id)) && Removed(f, id).Queued() == f.Queued() - {id}
  {
    RemovedSums(f, id);
    RemovedTrees(f, id);
    hide Sum, Weights, Loads, Weight, LoadOf, TreesOk, BoundOk, Removed;
  }

  lemma QueuedKeys(f: Fair)
    requires FairOk(f)
    ensures f.Queued() <= f.tasks.Keys
  {}

  lemma TasksOk(f: Fair, id: nat)
    requires FairOk(f) && id in f.tasks
    ensures TreesOk(f) && TaskOk(f.tasks[id])
  {}

  lemma EligibleApart(f: Fair, id: nat)
    requires FairOk(f) && id in f.eligible
    ensures f.ineligible - {id} == f.ineligible
    ensures (if f.ineligible == {} then None else f.bound) == f.bound
  {}

  // ----- Selection

  /** The reference rule: among the eligible the earliest deadline, and of equal deadlines the one queued first; if none
      is eligible the least runtime, then the earliest deadline, then the one queued first. */
  ghost predicate BestNormal(tasks: map<nat, Task>, q: set<nat>, virtualTime: nat, x: nat)
    requires q <= tasks.Keys
  {
    && x in q
    && if exists y :: y in q && tasks[y].vruntime <= virtualTime then
         && tasks[x].vruntime <= virtualTime
         && forall y :: y in q && tasks[y].vruntime <= virtualTime ==>
              || tasks[x].deadline < tasks[y].deadline
              || (tasks[x].deadline == tasks[y].deadline && tasks[x].queueId <= tasks[y].queueId)
       else forall y :: y in q ==>
              || tasks[x].vruntime < tasks[y].vruntime
              || (tasks[x].vruntime == tasks[y].vruntime && tasks[x].deadline < tasks[y].deadline)
              || (&& tasks[x].vruntime == tasks[y].vruntime && tasks[x].deadline == tasks[y].deadline
                  && tasks[x].queueId <= tasks[y].queueId)
  }

  /** With the trees settled, the front of the eligible part, else of the rest, is the reference choice. */
  lemma FrontIsBestOf(f: Fair, first: set<nat>, second: set<nat>, x: nat)
    requires FairOk(f) && Settled(f) && first <= f.eligible && second <= f.ineligible && first + second != {}
    requires if first != {} then IsFirst(f.tasks, first, EligibleKey, x)
             else IsFirst(f.tasks, second, IneligibleKey, x)
    ensures BestNormal(f.tasks, first + second, f.virtualTime, x)
    ensures first != {} ==> f.tasks[x].vruntime <= f.virtualTime
  {
    hide SumsOk, BoundOk, CacheOk;
    var q := first + second;
    assert forall y :: y in q && f.tasks[y].vruntime <= f.virtualTime ==> y in first;
    if first != {} {
      assert x in q && f.tasks[x].vruntime <= f.virtualTime;
      forall y | y in first
        ensures KeyAtMost(EligibleKey(f.tasks[x]), EligibleKey(f.tasks[y]))
      {}
    } else {
      forall y | y in second
        ensures KeyAtMost(IneligibleKey(f.tasks[x]), IneligibleKey(f.tasks[y]))
      {}
    }
  }

  /** With no ordinary task running, some queued task is always eligible. */
  lemma EligibleExists(f: Fair, g: Fair, current: Option<nat>)
    requires FairOk(f) && FairOk(g) && Settled(g) && f.Queued() != {}
    requires current.Some? ==> current.value in f.tasks && f.tasks[current.value].IsRt()
    requires g.tasks == f.tasks && g.Queued() == f.Queued() && g.virtualTime == VirtualTimeAfter(f, current)
    ensures g.eligible != {}
  {
    hide SumsOk, BoundOk, CacheOk, Average;
    var s := Participants(f, current);
    assert s == f.Queued();
    SomeTaskNotAhead(f.tasks, s);
    var x :| x in s && f.tasks[x].vruntime <= Average(f.tasks, s);
    assert x in g.Queued() && x !in g.ineligible;
  }

  ghost function Accepted(tasks: map<nat, Task>, q: set<nat>, accepts: Task -> bool): (r: set<nat>)
    requires q <= tasks.Keys
    ensures r <= q
  {
    set x | x in q && accepts(tasks[x])
  }

  /** Walks the eligible tree, then the ineligible one, for the first accepted task. */
  method ChooseAccepted(f: Fair, accepts: Task -> bool) returns (r: Option<nat>)
    requires FairOk(f) && Settled(f)
    ensures f.Queued() <= f.tasks.Keys
    ensures r.None? <==> Accepted(f.tasks, f.Queued(), accepts) == {}
    ensures r.Some? ==> r.value in f.Queued() && !f.tasks[r.value].IsRt()
    ensures r.Some? ==> BestNormal(f.tasks, Accepted(f.tasks, f.Queued(), accepts), f.virtualTime, r.value)
  {
    hide SumsOk, BoundOk, CacheOk;
    QueuedKeys(f);
    var first := set x | x in f.eligible && accepts(f.tasks[x]);
    var second := set x | x in f.ineligible && accepts(f.tasks[x]);
    assert first + second == Accepted(f.tasks, f.Queued(), accepts);
    if first == {} && second == {} {
      return None;
    }
    assert forall x :: x in f.Queued() ==> !f.tasks[x].IsRt();
    hide FairOk, Settled, BestNormal, IsFirst, Accepted;
    var x;
    if first != {} {
      x := Front(f.tasks, first, EligibleKey);
      FirstIn(f.tasks, first, EligibleKey, x);
    } else {
      x := Front(f.tasks, second, IneligibleKey);
      FirstIn(f.tasks, second, IneligibleKey, x);
    }
    FrontIsBestOf(f, first, second, x);
    return Some(x);
  }

  // ----- The preemption cache

  /** A covering cache entry gives the answer of the scan. */
  lemma CachedAnswer(f: Fair, deadline: nat)
    requires FairOk(f) && f.cache.Some? && f.cache.value.deadline == deadline && f.cache.value.Covers(f.virtualTime)
    ensures f.cache.value.hasEligible <==> HasEligible(f, deadline)
  {}

  lemma FrontDecides(tasks: map<nat, Task>, s: set<nat>, front: nat, deadline: nat)
    requires s <= tasks.Keys && IsFirst(tasks, s, EligibleKey, front)
    ensures tasks[front].deadline < deadline <==> exists x :: x in s && tasks[x].deadline < deadline
  {
    forall x | x in s
      ensures tasks[front].deadline <= tasks[x].deadline
    {
      assert KeyAtMost(EligibleKey(tasks[front]), EligibleKey(tasks[x]));
    }
  }

  lemma FrontIsEarliest(tasks: map<nat, Task>, s: set<nat>, front: nat)
    requires s <= tasks.Keys && IsFirst(tasks, s, IneligibleKey, front)
    ensures forall x :: x in s ==> tasks[front].vruntime <= tasks[x].vruntime
  {
    forall x | x in s
      ensures tasks[front].vruntime <= tasks[x].vruntime
    {
      assert KeyAtMost(IneligibleKey(tasks[front]), IneligibleKey(tasks[x]));
    }
  }

  /** A bound at or above the deadline rules out every ineligible task. */
  lemma BoundRulesOut(f: Fair, deadline: nat)
    requires FairOk(f)
    ensures (if f.bound.Some? then f.bound.value >= deadline else f.ineligible == {}) ==>
            forall x :: x in f.ineligible ==> f.tasks[x].deadline >= deadline
  {}

  /** With promotion done, the head of the eligible tree decides, and the scan of the other tree only fills the
      cache. */
  lemma FreshAnswer(f: Fair, deadline: nat, hasEligible: bool, threshold: Option<nat>)
    requires FairOk(f) && forall x :: x in f.ineligible ==> f.tasks[x].vruntime > f.virtualTime
    requires hasEligible <==> exists x :: x in f.eligible && f.tasks[x].deadline < deadline
    requires !hasEligible ==> forall x :: x in f.ineligible && f.tasks[x].deadline < deadline ==>
                                          threshold.Some? && threshold.value <= f.tasks[x].vruntime
    ensures hasEligible <==> HasEligible(f, deadline)
    ensures FairOk(f.(cache := Some(Cache(hasEligible, deadline, threshold))))
    ensures HasEligible(f.(cache := Some(Cache(hasEligible, deadline, threshold))), deadline) <==>
              HasEligible(f, deadline)
  {
    if hasEligible {
      var x :| x in f.eligible && f.tasks[x].deadline < deadline;
      assert x in f.Queued();
    }
    var g := f.(cache := Some(Cache(hasEligible, deadline, threshold)));
    assert g.Queued() == f.Queued();
    assert HasEligible(g, deadline) <==> HasEligible(f, deadline);
  }

  /** The least virtual runtime of the queued tasks with an earlier deadline; absent when there is none. */
  ghost predicate IsThreshold(f: Fair, deadline: nat, threshold: Option<nat>)
    requires f.Queued() <= f.tasks.Keys
  {
    && (threshold.None? <==> forall x :: x in f.Queued() ==> f.tasks[x].deadline >= deadline)
    && (threshold.Some? ==>
          && (exists x :: x in f.Queued() && f.tasks[x].deadline < deadline && f.tasks[x].vruntime == threshold.value)
          && forall x :: x in f.Queued() && f.tasks[x].deadline < deadline ==> threshold.value <= f.tasks[x].vruntime)
  }

  lemma ThresholdFound(f: Fair, deadline: nat, threshold: Option<nat>)
    requires f.Queued() <= f.tasks.Keys && forall x :: x in f.eligible ==> f.tasks[x].deadline >= deadline
    requires threshold.None? ==> forall x :: x in f.ineligible ==> f.tasks[x].deadline >= deadline
    requires threshold.Some? ==>
               && (exists x :: && x in f.ineligible && f.tasks[x].deadline < deadline
                               && f.tasks[x].vruntime == threshold.value)
               && forall x :: x in f.ineligible && f.tasks[x].deadline < deadline ==>
                              threshold.value <= f.tasks[x].vruntime
    ensures IsThreshold(f, deadline, threshold)
  {
    if threshold.Some? {
      var x :| x in f.ineligible && f.tasks[x].deadline < deadline && f.tasks[x].vruntime == threshold.value;
      assert x in f.Queued();
    }
  }

  /** Looks at the eligible front, then, unless the bound rules it out, for the earliest ineligible preemptor. */
  method ScanForPreemption(f: Fair, deadline: nat) returns (hasEligible: bool, threshold: Option<nat>)
    requires FairOk(f) && Settled(f)
    ensures hasEligible <==> HasEligible(f, deadline)
    ensures FairOk(f.(cache := Some(Cache(hasEligible, deadline, threshold))))
    ensures HasEligible(f.(cache := Some(Cache(hasEligible, deadline, threshold))), deadline) <==>
              HasEligible(f, deadline)
    ensures f.Queued() <= f.tasks.Keys && (!hasEligible ==> IsThreshold(f, deadline, threshold))
  {
    QueuedKeys(f);
    BoundRulesOut(f, deadline);
    hide FairOk, IsFirst, HasEligible, IsThreshold;
    hasEligible, threshold := false, None;
    if f.eligible != {} {
      var front := Front(f.tasks, f.eligible, EligibleKey);
      FirstIn(f.tasks, f.eligible, EligibleKey, front);
      FrontDecides(f.tasks, f.eligible, front, deadline);
      hasEligible := f.tasks[front].deadline < deadline;
    }
    var mayHave := if f.bound.Some? then f.bound.value < deadline else f.ineligible != {};
    if !hasEligible && mayHave {
      var candidates := set x | x in f.ineligible && f.tasks[x].deadline < deadline;
      if candidates != {} {
        var first := Front(f.tasks, candidates, IneligibleKey);
        FirstIn(f.tasks, candidates, IneligibleKey, first);
        FrontIsEarliest(f.tasks, candidates, first);
        threshold := Some(f.tasks[first].vruntime);
        assert first in f.ineligible && f.tasks[first].deadline < deadline;
      }
    }
    if !hasEligible {
      ThresholdFound(f, deadline, threshold);
    }
    FreshAnswer(f, deadline, hasEligible, threshold);
  }
}
