/** What the operations of the scheduler do to one task, and what that comes to in the fields of its record. */
module EevdfTask {
  import opened Options
  import opened EevdfArith
  import opened EevdfFair

  datatype EnqueueReason = Spawn | Wake | Yield | Preempt | Migration {
    predicate Places() { Spawn? || Wake? || Migration? }
  }

  /** A new task has nice 0, has run and asked for nothing, and a full slice should it become a real-time task. */
  function NewTask(): (t: Task)
    ensures TaskOk(t) && Weight(t.priority) == 1024 && t.vruntime == t.deadline == 0 && t.rtRemaining == 50_000_000
    ensures !t.running && !t.hasSavedLag && t.rtPolicy.RoundRobin?
  {
    Task(-100, 0, 0, 0, false, 0, 0, false, 0, RoundRobin, RT_TIME_SLICE_NS)
  }

  /** Charges execution through `now`: slice for round-robin tasks, virtual runtime for ordinary ones. */
  function AccountRuntime(t: Task, now: nat, keepRunning: bool): (r: Task)
    requires TaskOk(t) && now <= U64_MAX
    ensures TaskOk(r) && r.priority == t.priority && r.deadline == t.deadline && r.rtPolicy == t.rtPolicy
    ensures r.vruntime >= t.vruntime && r.rtRemaining <= t.rtRemaining
    ensures r.running == (t.running && keepRunning)
  {
    if !t.running then t
    else
      var delta := SaturatingSub(now, t.execStart);
      var u := t.(execStart := now, running := keepRunning);
      if t.IsRt() then
        if t.rtPolicy.RoundRobin? then u.(rtRemaining := SaturatingSub(t.rtRemaining, delta)) else u
      else
        u.(vruntime := SaturatingAdd(t.vruntime, CalcDeltaFair(delta, Weight(t.priority)), U64_MAX))
  }

  function UnaccountedRuntime(t: Task, now: nat): nat {
    if t.running then SaturatingSub(now, t.execStart) else 0
  }

  function SaveLag(baseSlice: nat, t: Task, virtualTime: nat): (r: Task)
    requires 0 < baseSlice <= U64_MAX && TaskOk(t) && virtualTime <= U64_MAX
    ensures TaskOk(r) && r.(savedVlag := t.savedVlag, lagVtime := t.lagVtime, hasSavedLag := t.hasSavedLag) == t
  {
    if t.IsRt() then t
    else
      t.(savedVlag := Clamp(SignedDifference(virtualTime, t.vruntime), LagLimit(baseSlice, t.priority)),
         lagVtime := virtualTime, hasSavedLag := true)
  }

  function RefreshDeadline(baseSlice: nat, t: Task, force: bool): (r: Task)
    requires 0 < baseSlice <= U64_MAX && TaskOk(t)
    ensures TaskOk(r) && r.(deadline := t.deadline) == t
    ensures r.vruntime < r.deadline || r.deadline == U64_MAX
  {
    if force || t.deadline == 0 || t.vruntime >= t.deadline then
      t.(deadline := SaturatingAdd(t.vruntime, VirtualSlice(baseSlice, t.priority), U64_MAX))
    else t
  }

  /** Lag carried into the queue. */
  function PlacementLag(baseSlice: nat, t: Task, reason: EnqueueReason, virtualTime: nat): (lag: int)
    requires 0 < baseSlice <= U64_MAX
    ensures -(LagLimit(baseSlice, t.priority) as int) <= lag <= LagLimit(baseSlice, t.priority)
  {
    var saved := if (reason.Wake? || reason.Migration?) && t.hasSavedLag then t.savedVlag else 0;
    var decayed := if reason.Wake? then DecayedLag(saved, SaturatingSub(virtualTime, t.lagVtime)) else saved;
    Clamp(decayed, LagLimit(baseSlice, t.priority))
  }

  function Place(baseSlice: nat, t: Task, reason: EnqueueReason, virtualTime: nat): (r: Task)
    requires 0 < baseSlice <= U64_MAX && TaskOk(t) && virtualTime <= U64_MAX
    ensures TaskOk(r) && r.priority == t.priority && r.running == t.running
  {
    var v := ApplyLag(virtualTime, PlacementLag(baseSlice, t, reason, virtualTime));
    t.(hasSavedLag := if reason.Wake? || reason.Migration? then false else t.hasSavedLag,
       vruntime := v,
       deadline := SaturatingAdd(v, VirtualSlice(baseSlice, t.priority), U64_MAX))
  }

  /** A yielding task that is eligible gives up the rest of its request. */
  function GiveUpRequest(t: Task, virtualTime: nat): (r: Task)
    requires TaskOk(t)
    ensures TaskOk(r) && r.(vruntime := t.vruntime) == t
    ensures r.vruntime > virtualTime || r.vruntime >= t.deadline
  {
    if t.vruntime <= virtualTime then t.(vruntime := Max(t.deadline, t.vruntime)) else t
  }

  predicate NeedsRequest(t: Task) { !t.IsRt() && t.deadline == 0 }

  /** A task that starts running; one without a request gets one at the current virtual time. */
  function Started(baseSlice: nat, t: Task, virtualTime: nat, now: nat): (r: Task)
    requires 0 < baseSlice <= U64_MAX && TaskOk(t) && virtualTime <= U64_MAX && now <= U64_MAX
    ensures TaskOk(r) && r.priority == t.priority && (!r.IsRt() ==> r.deadline > 0)
  {
    var u := if NeedsRequest(t) then RefreshDeadline(baseSlice, t.(vruntime := virtualTime), true) else t;
    u.(execStart := now, running := true)
  }

  /** The running task once a tick has charged it; a FIFO task already running is not charged. */
  function Charged(t: Task, running: bool, now: nat): (r: Task)
    requires TaskOk(t) && now <= U64_MAX
    ensures TaskOk(r) && r.priority == t.priority && r.rtPolicy == t.rtPolicy
  {
    if !running then t.(execStart := now, running := true)
    else if t.IsRt() && t.rtPolicy.Fifo? then t
    else AccountRuntime(t, now, true)
  }

  /** What a tick leaves of the charged task: a used-up slice is renewed unless the task must give way, and a used-up
      request is replaced unless a real-time task is ready. */
  function Renewed(baseSlice: nat, t: Task, resched: bool, rtReady: bool): (r: Task)
    requires 0 < baseSlice <= U64_MAX && TaskOk(t)
    ensures TaskOk(r) && r.(rtRemaining := t.rtRemaining, deadline := t.deadline) == t
    ensures !t.IsRt() && !rtReady ==> r.vruntime < r.deadline || r.deadline == U64_MAX
  {
    if t.IsRt() then
      if t.rtPolicy.RoundRobin? && t.rtRemaining == 0 && !resched then t.(rtRemaining := RT_TIME_SLICE_NS) else t
    else if !rtReady && t.vruntime >= t.deadline then RefreshDeadline(baseSlice, t, true)
    else t
  }

  /** The record of a task under a new priority: a real-time one starts with a full slice and no saved lag, a running
      ordinary one at virtual time `v`, and a queued ordinary one where a migration at `v` would place it. */
  function Reprioritized(baseSlice: nat, t: Task, priority: int, running: bool, queued: bool, v: nat): (r: Task)
    requires 0 < baseSlice <= U64_MAX && TaskOk(t) && ValidPriority(priority) && v <= U64_MAX
    ensures TaskOk(r) && r.priority == priority && r.running == t.running
  {
    var u := t.(priority := priority);
    if IsRtPriority(priority) then
      u.(hasSavedLag := false, rtRemaining := if t.rtPolicy.RoundRobin? then RT_TIME_SLICE_NS else t.rtRemaining)
    else if running then RefreshDeadline(baseSlice, u.(vruntime := v), true)
    else if queued then Place(baseSlice, u, Migration, v)
    else u
  }

  lemma PriorityOk(t: Task, priority: int)
    requires TaskOk(t) && ValidPriority(priority)
    ensures TaskOk(t.(priority := priority))
  {}

  /** Assigning the priority and then requeueing gives the record of a queued task. */
  lemma ReprioritizedInSteps(baseSlice: nat, t: Task, priority: int, w: nat, v: nat)
    requires 0 < baseSlice <= U64_MAX && TaskOk(t) && ValidPriority(priority) && v <= U64_MAX && w <= U64_MAX
    ensures var u := Reprioritized(baseSlice, t, priority, false, false, w);
            var r := Reprioritized(baseSlice, t, priority, false, true, v);
            && u == Reprioritized(baseSlice, t, priority, false, false, v)
            && u.IsRt() == r.IsRt() == IsRtPriority(priority)
            && (!u.IsRt() ==> u == t.(priority := priority) && Place(baseSlice, u, Migration, v) == r)
            && (u.IsRt() ==> u == r && u == if u.rtPolicy.RoundRobin? then u.(rtRemaining := RT_TIME_SLICE_NS) else u)
  {}

  // ----- Lag

  /** Placement never leaves a task further from virtual time than two of its virtual slices. */
  lemma PlacementBoundsLag(baseSlice: nat, t: Task, reason: EnqueueReason, virtualTime: nat)
    requires 0 < baseSlice <= U64_MAX && TaskOk(t) && virtualTime <= U64_MAX
    ensures var distance := virtualTime - Place(baseSlice, t, reason, virtualTime).vruntime;
            var limit := 2 * VirtualSlice(baseSlice, t.priority);
            -limit <= distance <= limit
  {}

  /** A migrated task has the same lag on its new queue exactly when the lag was within the limit and fits. */
  lemma MigrationKeepsLag(baseSlice: nat, t: Task, source: nat, destination: nat)
    requires 0 < baseSlice <= U64_MAX && TaskOk(t) && !t.IsRt() && source <= U64_MAX && destination <= U64_MAX
    ensures var lag := source - t.vruntime;
            var limit: int := LagLimit(baseSlice, t.priority);
            var moved := Place(baseSlice, SaveLag(baseSlice, t, source), Migration, destination);
            destination - moved.vruntime == lag <==>
            -limit <= lag <= limit && 0 <= destination - lag <= U64_MAX
  {}

  // ----- The same in fields

  /** The length of a request of an ordinary task: a base slice scaled by its weight, at least one unit. */
  ghost function RequestLength(baseSlice: nat, priority: int): nat {
    Max(1, baseSlice * 1024 / Weight(priority))
  }

  lemma SliceIsRequest(baseSlice: nat, priority: int, v: nat)
    requires 0 < baseSlice <= U64_MAX && IsNormalPriority(priority)
    ensures SaturatingAdd(v, VirtualSlice(baseSlice, priority), U64_MAX) ==
            Min(v + RequestLength(baseSlice, priority), U64_MAX)
    ensures LagLimit(baseSlice, priority) == Min(2 * RequestLength(baseSlice, priority), I64_MAX)
  {
    hide Weight;
  }

  /** How the record `t` of a detached ordinary task enters the queue as `r` at virtual time `v`. A new task starts at
      virtual time. A migrated one keeps its lag, and a woken one what is left of it after moving towards zero by the
      virtual time slept, both within two requests. A preempted task keeps its request unless it is used up, and a
      yielding one that is eligible moves to its deadline. */
  ghost predicate EntersAs(baseSlice: nat, t: Task, reason: EnqueueReason, v: nat, r: Task) {
    var request := RequestLength(baseSlice, t.priority);
    var limit := Min(2 * request, I64_MAX);
    var lag := if !reason.Spawn? && t.hasSavedLag then t.savedVlag else 0;
    var slept := if reason.Wake? && t.lagVtime < v then v - t.lagVtime else 0;
    var left := if lag >= 0 then Max(lag - slept, 0) else Min(lag + slept, 0);
    && r == t.(vruntime := r.vruntime, deadline := r.deadline, hasSavedLag := r.hasSavedLag, queueId := r.queueId)
    && r.hasSavedLag == (t.hasSavedLag && !reason.Wake? && !reason.Migration?)
    && match reason
       case Preempt =>
         && r.vruntime == t.vruntime
         && r.deadline == if t.vruntime < t.deadline then t.deadline else Min(t.vruntime + request, U64_MAX)
       case Yield =>
         && r.vruntime == (if t.vruntime <= v && t.vruntime < t.deadline then t.deadline else t.vruntime)
         && r.deadline == Min(r.vruntime + request, U64_MAX)
       case _ =>
         && r.vruntime == Max(0, Min(U64_MAX, v - Max(-limit, Min(limit, left))))
         && r.deadline == Min(r.vruntime + request, U64_MAX)
  }

  lemma PlaceEnters(baseSlice: nat, t: Task, reason: EnqueueReason, v: nat)
    requires 0 < baseSlice <= U64_MAX && TaskOk(t) && !t.IsRt() && v <= U64_MAX && reason.Places()
    ensures EntersAs(baseSlice, t, reason, v, Place(baseSlice, t, reason, v))
  {
    hide Weight, RequestLength, VirtualSlice, LagLimit;
    SliceIsRequest(baseSlice, t.priority, Place(baseSlice, t, reason, v).vruntime);
  }

  lemma PreemptEnters(baseSlice: nat, t: Task, v: nat)
    requires 0 < baseSlice <= U64_MAX && TaskOk(t) && !t.IsRt()
    ensures EntersAs(baseSlice, t, Preempt, v, RefreshDeadline(baseSlice, t, false))
  {
    hide Weight, RequestLength, VirtualSlice;
    SliceIsRequest(baseSlice, t.priority, t.vruntime);
  }

  lemma YieldEnters(baseSlice: nat, t: Task, v: nat)
    requires 0 < baseSlice <= U64_MAX && TaskOk(t) && !t.IsRt()
    ensures EntersAs(baseSlice, t, Yield, v, RefreshDeadline(baseSlice, GiveUpRequest(t, v), true))
  {
    hide Weight, RequestLength, VirtualSlice;
    SliceIsRequest(baseSlice, t.priority, GiveUpRequest(t, v).vruntime);
  }

  /** What charging a running task through `now` does: the start mark moves to `now`, a round-robin task loses the time
      run from its slice, and an ordinary one gains it, scaled by its weight, in virtual runtime. */
  ghost predicate ChargedAs(t: Task, now: nat, r: Task) {
    var ran := if t.execStart < now then now - t.execStart else 0;
    && r == t.(execStart := now, running := r.running, rtRemaining := r.rtRemaining, vruntime := r.vruntime)
    && r.rtRemaining == (if t.IsRt() && t.rtPolicy.RoundRobin? then Max(t.rtRemaining - ran, 0) else t.rtRemaining)
    && r.vruntime == if t.IsRt() then t.vruntime else Min(t.vruntime + ran * 1024 / Weight(t.priority), U64_MAX)
  }

  lemma AccountCharges(t: Task, now: nat, keepRunning: bool)
    requires TaskOk(t) && now <= U64_MAX && t.running
    ensures ChargedAs(t, now, AccountRuntime(t, now, keepRunning))
  {
    hide Weight;
  }

  /** Charging a round-robin task in two steps takes as much as charging it once. */
  lemma ChargesAddUp(t: Task, a: nat, b: nat, keepRunning: bool)
    requires TaskOk(t) && t.running && t.IsRt() && t.rtPolicy.RoundRobin? && t.execStart <= a <= b <= U64_MAX
    ensures AccountRuntime(AccountRuntime(t, a, true), b, keepRunning) == AccountRuntime(t, b, keepRunning)
    ensures AccountRuntime(t, b, keepRunning).rtRemaining == Max(t.rtRemaining - (b - t.execStart), 0)
  {}

  /** Charging an ordinary task in two steps loses at most one unit to rounding, and never gains. */
  lemma FairChargesAddUp(t: Task, a: nat, b: nat, keepRunning: bool)
    requires TaskOk(t) && t.running && !t.IsRt() && t.execStart <= a <= b <= U64_MAX
    ensures var once := AccountRuntime(t, b, keepRunning).vruntime;
            var twice := AccountRuntime(AccountRuntime(t, a, true), b, keepRunning).vruntime;
            twice <= once <= twice + 1
  {
    hide Weight;
    SplitQuotient((a - t.execStart) * 1024, (b - a) * 1024, Weight(t.priority));
  }

  /** What saving the lag at virtual time `v` does. */
  ghost predicate SavesLag(baseSlice: nat, t: Task, v: nat, r: Task) {
    var limit := Min(2 * RequestLength(baseSlice, t.priority), I64_MAX);
    if t.IsRt() then r == t
    else r == t.(hasSavedLag := true, lagVtime := v, savedVlag := Max(-limit, Min(limit, v - t.vruntime)))
  }

  lemma SaveLagSaves(baseSlice: nat, t: Task, v: nat)
    requires 0 < baseSlice <= U64_MAX && TaskOk(t) && v <= U64_MAX
    ensures SavesLag(baseSlice, t, v, SaveLag(baseSlice, t, v))
  {
    hide Weight, RequestLength, VirtualSlice, LagLimit;
    if !t.IsRt() { SliceIsRequest(baseSlice, t.priority, 0); }
  }

  /** A task with this lag that sleeps without virtual time moving, or is moved to another queue, has it again. */
  lemma LagComesBack(baseSlice: nat, t: Task, v: nat, slept: nat)
    requires 0 < baseSlice <= U64_MAX && TaskOk(t) && !t.IsRt() && v + slept <= U64_MAX
    ensures var lag, limit := v - t.vruntime, Min(2 * RequestLength(baseSlice, t.priority), I64_MAX);
            var left := if lag >= 0 then Max(lag - slept, 0) else Min(lag + slept, 0);
            var woken := Place(baseSlice, SaveLag(baseSlice, t, v), Wake, v + slept);
            -limit <= lag <= limit && 0 <= v + slept - left <= U64_MAX ==> v + slept - woken.vruntime == left
  {
    hide RequestLength, Place, SaveLag;
    SaveLagSaves(baseSlice, t, v);
    PlaceEnters(baseSlice, SaveLag(baseSlice, t, v), Wake, v + slept);
  }

  /** What starting a task does: without a request it gets one from the current virtual time. */
  lemma StartedMeans(baseSlice: nat, t: Task, v: nat, now: nat)
    requires 0 < baseSlice <= U64_MAX && TaskOk(t) && v <= U64_MAX && now <= U64_MAX
    ensures var r := Started(baseSlice, t, v, now);
            r == if t.IsRt() || t.deadline > 0 then t.(execStart := now, running := true)
                 else t.(execStart := now, running := true, vruntime := v,
                         deadline := Min(v + RequestLength(baseSlice, t.priority), U64_MAX))
  {
    hide Weight, RequestLength, VirtualSlice;
    if !t.IsRt() { SliceIsRequest(baseSlice, t.priority, v); }
  }

  /** What a tick does to the running task `t`: it starts one that was not known to run, charges one that was unless
      it is a FIFO task, renews a used-up slice unless the task must give way, and a used-up request unless a
      real-time task is ready. */
  ghost predicate TicksTo(baseSlice: nat, t: Task, known: bool, now: nat, resched: bool, rtReady: bool, r: Task) {
    exists c ::
      && (if !known then c == t.(execStart := now, running := true)
          else if t.IsRt() && t.rtPolicy.Fifo? then c == t
          else ChargedAs(t, now, c) && c.running)
      && r == if c.IsRt() then
                if c.rtPolicy.RoundRobin? && c.rtRemaining == 0 && !resched then c.(rtRemaining := 50_000_000) else c
              else
                if !rtReady && c.deadline <= c.vruntime
                then c.(deadline := Min(c.vruntime + RequestLength(baseSlice, c.priority), U64_MAX)) else c
  }

  lemma RenewedTicks(baseSlice: nat, t: Task, known: bool, now: nat, resched: bool, rtReady: bool)
    requires 0 < baseSlice <= U64_MAX && TaskOk(t) && now <= U64_MAX && (known ==> t.running)
    ensures TicksTo(baseSlice, t, known, now, resched, rtReady,
                    Renewed(baseSlice, Charged(t, known, now), resched, rtReady))
  {
    hide Weight, RequestLength, VirtualSlice, ChargedAs;
    var c := Charged(t, known, now);
    if known { AccountCharges(t, now, true); }
    if !c.IsRt() { SliceIsRequest(baseSlice, c.priority, c.vruntime); }
  }

  /** What a new priority does to the record `t`. */
  lemma ReprioritizedMeans(baseSlice: nat, t: Task, priority: int, running: bool, queued: bool, v: nat)
    requires 0 < baseSlice <= U64_MAX && TaskOk(t) && ValidPriority(priority) && v <= U64_MAX
    ensures var r, u := Reprioritized(baseSlice, t, priority, running, queued, v), t.(priority := priority);
            if 1 <= priority then
              r == u.(hasSavedLag := false, rtRemaining := if t.rtPolicy.RoundRobin? then 50_000_000 else t.rtRemaining)
            else if running then
              r == u.(vruntime := v, deadline := Min(v + RequestLength(baseSlice, priority), U64_MAX))
            else if queued then EntersAs(baseSlice, u, Migration, v, r)
            else r == u
  {
    hide Weight, RequestLength, VirtualSlice, Place, EntersAs;
    if IsNormalPriority(priority) {
      SliceIsRequest(baseSlice, priority, v);
      PlaceEnters(baseSlice, t.(priority := priority), Migration, v);
    }
  }
}
