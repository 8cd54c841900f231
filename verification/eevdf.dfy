/** The EEVDF run queue: real-time queues with their bitmap, the two ordinary trees, and the running task.

    Tasks are records in an arena and a task reference is its id, so reference equality is id
    equality. Atomic fields are plain fields: the scheduler lock is held. The real-time bitmap is
    the set of its one bits, so its trailing-zero count is the least member.

    Caller discipline: a task is queued, current or detached, never two of these.
 */
module Eevdf {
  import opened Options
  import opened EevdfArith
  import opened EevdfFair
  import opened EevdfTask
  import opened Sums

  // ----- Real-time queues

  ghost predicate RtOk(tasks: map<nat, Task>, queues: seq<seq<nat>>, bitmap: set<nat>) {
    && |queues| == 99
    && (forall i :: i in bitmap <==> 0 <= i < 99 && queues[i] != [])
    && (forall i, k :: 0 <= i < 99 && 0 <= k < |queues[i]| ==>
          queues[i][k] in tasks && tasks[queues[i][k]].priority == 99 - i)
    && (forall i, k, l :: 0 <= i < 99 && 0 <= k < l < |queues[i]| ==> queues[i][k] != queues[i][l])
  }

  predicate RtQueued(tasks: map<nat, Task>, queues: seq<seq<nat>>, id: nat) {
    && id in tasks && tasks[id].IsRt() && |queues| == 99 && id in queues[99 - tasks[id].priority]
  }

  lemma RtTouch(tasks: map<nat, Task>, queues: seq<seq<nat>>, bitmap: set<nat>, id: nat, t: Task)
    requires RtOk(tasks, queues, bitmap)
    requires (id !in tasks || !RtQueued(tasks, queues, id) || t.priority == tasks[id].priority)
    ensures RtOk(tasks[id := t], queues, bitmap)
  {
    forall i, k | 0 <= i < 99 && 0 <= k < |queues[i]|
      ensures queues[i][k] in tasks[id := t] && tasks[id := t][queues[i][k]].priority == 99 - i
    {
      assert queues[i][k] in tasks && tasks[queues[i][k]].priority == 99 - i;
      if queues[i][k] == id { assert RtQueued(tasks, queues, id); }
    }
  }

  lemma RtIndex(tasks: map<nat, Task>, queues: seq<seq<nat>>, bitmap: set<nat>, id: nat)
    requires RtOk(tasks, queues, bitmap) && id in tasks && tasks[id].IsRt()
    ensures |queues| == 99 && 0 <= 99 - tasks[id].priority < 99
    ensures RtQueued(tasks, queues, id) <==> id in queues[99 - tasks[id].priority]
  {}

  lemma RtPush(tasks: map<nat, Task>, queues: seq<seq<nat>>, bitmap: set<nat>, id: nat, i: nat, q: seq<nat>)
    requires RtOk(tasks, queues, bitmap) && id in tasks && tasks[id].IsRt() && i == 99 - tasks[id].priority
    requires !RtQueued(tasks, queues, id) && (q == [id] + queues[i] || q == queues[i] + [id])
    ensures RtOk(tasks, queues[i := q], bitmap + {i}) && RtQueued(tasks, queues[i := q], id)
    ensures forall y :: y != id ==> (RtQueued(tasks, queues[i := q], y) <==> RtQueued(tasks, queues, y))
  {}

  lemma RtDrop(tasks: map<nat, Task>, queues: seq<seq<nat>>, bitmap: set<nat>, i: nat, k: nat)
    requires RtOk(tasks, queues, bitmap) && i < 99 && k < |queues[i]|
    ensures var q := queues[i][..k] + queues[i][k + 1..];
            && RtOk(tasks, queues[i := q], if q == [] then bitmap - {i} else bitmap)
            && queues[i][k] !in q
  {}

  /** A queue without `id`, the rest in order. */
  function Dropped(queue: seq<nat>, id: nat): (r: seq<nat>)
    ensures id !in queue ==> r == queue
  {
    if queue == [] then [] else if queue[0] == id then queue[1..] else [queue[0]] + Dropped(queue[1..], id)
  }

  lemma {:induction false} DroppedAt(queue: seq<nat>, k: nat)
    requires k < |queue| && queue[k] !in queue[..k]
    ensures Dropped(queue, queue[k]) == queue[..k] + queue[k + 1..]
  {
    if k > 0 {
      assert queue[1..][..k - 1] == queue[..k][1..];
      assert queue[0] == queue[..k][0];
      DroppedAt(queue[1..], k - 1);
      assert queue[..k] + queue[k + 1..] == [queue[0]] + (queue[1..][..k - 1] + queue[1..][k..]);
    }
  }

  /** Every real-time queue loses `id` and keeps its order; the one of level `tail` gets it back at its end. */
  ghost predicate Requeues(before: seq<seq<nat>>, after: seq<seq<nat>>, id: nat, tail: Option<int>) {
    && |before| == 99 && |after| == 99
    && forall i :: 0 <= i < 99 ==> after[i] == Dropped(before[i], id) + if tail == Some(99 - i) then [id] else []
  }

  lemma RtUnlinked(tasks: map<nat, Task>, queues: seq<seq<nat>>, bitmap: set<nat>, id: nat)
    requires RtOk(tasks, queues, bitmap) && !RtQueued(tasks, queues, id)
    ensures Requeues(queues, queues, id, None)
  {
    forall i | 0 <= i < 99
      ensures id !in queues[i]
    {
      assert forall k :: 0 <= k < |queues[i]| ==> tasks[queues[i][k]].priority == 99 - i;
    }
  }

  lemma RtDropRequeues(tasks: map<nat, Task>, queues: seq<seq<nat>>, bitmap: set<nat>, i: nat, k: nat)
    requires RtOk(tasks, queues, bitmap) && i < 99 && k < |queues[i]|
    ensures Requeues(queues, queues[i := queues[i][..k] + queues[i][k + 1..]], queues[i][k], None)
  {
    var id := queues[i][k];
    DroppedAt(queues[i], k);
    assert tasks[id].priority == 99 - i;
    forall j | 0 <= j < 99 && j != i
      ensures id !in queues[j]
    {
      assert forall l :: 0 <= l < |queues[j]| ==> tasks[queues[j][l]].priority == 99 - j;
    }
  }

  lemma RequeuesAtTail(before: seq<seq<nat>>, middle: seq<seq<nat>>, id: nat, priority: int)
    requires Requeues(before, middle, id, None) && IsRtPriority(priority)
    ensures var i := 99 - priority; Requeues(before, middle[i := middle[i] + [id]], id, Some(priority))
  {}

  lemma RtDropQueued(tasks: map<nat, Task>, queues: seq<seq<nat>>, bitmap: set<nat>, i: nat, k: nat)
    requires RtOk(tasks, queues, bitmap) && i < 99 && k < |queues[i]|
    ensures var after := queues[i := queues[i][..k] + queues[i][k + 1..]];
            forall y :: RtQueued(tasks, after, y) <==> RtQueued(tasks, queues, y) && y != queues[i][k]
  {
    var id, q := queues[i][k], queues[i][..k] + queues[i][k + 1..];
    assert queues[i] == queues[i][..k] + [id] + queues[i][k + 1..];
    forall y
      ensures y in q <==> y in queues[i] && y != id
    {}
    assert tasks[id].priority == 99 - i;
  }

  /** `trailing_zeros`: the lowest index is the highest priority. */
  lemma LowestBit(bitmap: set<nat>) returns (i: nat)
    requires bitmap != {}
    ensures i in bitmap && forall j :: j in bitmap ==> i <= j
    decreases |bitmap|
  {
    i :| i in bitmap;
    assert forall j :: j in bitmap ==> j == i || j in bitmap - {i};
    if bitmap - {i} != {} {
      var j := LowestBit(bitmap - {i});
      if j < i { i := j; }
    }
  }

  lemma LowestExists(bitmap: set<nat>)
    requires bitmap != {}
    ensures exists i :: IsLowest(bitmap, i)
  {
    var i := LowestBit(bitmap);
    assert IsLowest(bitmap, i);
  }

  /** `x` is taken from the head of the first non-empty queue, which is the highest priority. */
  ghost predicate PopsHighest(before: seq<seq<nat>>, after: seq<seq<nat>>, x: nat) {
    exists i :: HeadOfFirst(before, i, x) && after == before[i := before[i][1..]]
  }

  ghost predicate HeadOfFirst(queues: seq<seq<nat>>, i: int, x: nat) {
    0 <= i < |queues| && queues[i] != [] && x == queues[i][0] && forall j :: 0 <= j < i ==> queues[j] == []
  }

  /** The head of the lowest set bit's queue has the highest queued priority. */
  lemma HighestPriority(tasks: map<nat, Task>, queues: seq<seq<nat>>, bitmap: set<nat>, i: nat)
    requires RtOk(tasks, queues, bitmap) && IsLowest(bitmap, i)
    ensures i < 99 && queues[i] != [] && HeadOfFirst(queues, i, queues[i][0])
    ensures queues[i][0] in tasks && tasks[queues[i][0]].priority == 99 - i
    ensures forall y :: RtQueued(tasks, queues, y) ==> tasks[y].priority <= 99 - i
  {}

  lemma NoneRtQueued(tasks: map<nat, Task>, queues: seq<seq<nat>>, bitmap: set<nat>)
    requires RtOk(tasks, queues, bitmap) && bitmap == {}
    ensures forall y :: !RtQueued(tasks, queues, y)
  {}

  lemma NormalOnly(f: Fair)
    requires FairOk(f)
    ensures forall y :: y in f.Queued() ==> y in f.tasks && !f.tasks[y].IsRt()
  {}

  lemma QueuedNormal(f: Fair, id: nat)
    requires FairOk(f) && id in f.Queued()
    ensures id in f.tasks && !f.tasks[id].IsRt()
  {}

  lemma NotFair(f: Fair, id: nat)
    requires FairOk(f) && id in f.tasks && f.tasks[id].IsRt()
    ensures id !in f.Queued()
  {}

  lemma RtSubset(tasks: map<nat, Task>, before: seq<seq<nat>>, after: seq<seq<nat>>, i: nat)
    requires |before| == 99 && i < 99 && before[i] != [] && after == before[i := before[i][1..]]
    ensures forall y :: RtQueued(tasks, after, y) ==> RtQueued(tasks, before, y)
  {}

  lemma ResetSliceOk(f: Fair, id: nat)
    requires FairOk(f) && id in f.tasks
    ensures TaskOk(f.tasks[id].(rtRemaining := RT_TIME_SLICE_NS))
  {
    assert TaskOk(f.tasks[id]);
  }

  lemma NormalOf(t: Task)
    requires TaskOk(t) && !t.IsRt()
    ensures IsNormalPriority(t.priority)
  {}

  lemma RtQueuedSame(tasks: map<nat, Task>, queues: seq<seq<nat>>, id: nat, t: Task)
    requires id in tasks && t.priority == tasks[id].priority
    ensures forall y :: RtQueued(tasks[id := t], queues, y) <==> RtQueued(tasks, queues, y)
  {}

  lemma NotRtQueued(tasks: map<nat, Task>, queues: seq<seq<nat>>, id: nat)
    requires id in tasks && !tasks[id].IsRt()
    ensures !RtQueued(tasks, queues, id)
  {}

  lemma StaysUnlinked(tasks: map<nat, Task>, queues: seq<seq<nat>>, bitmap: set<nat>, id: nat, t: Task)
    requires RtOk(tasks, queues, bitmap) && id in tasks && !RtQueued(tasks, queues, id)
    ensures !RtQueued(tasks[id := t], queues, id)
  {
    forall i | 0 <= i < 99
      ensures id !in queues[i]
    {
      assert forall k :: 0 <= k < |queues[i]| ==> tasks[queues[i][k]].priority == 99 - i;
    }
  }

  predicate IsLowest(bitmap: set<nat>, i: nat) {
    i in bitmap && forall j :: j in bitmap ==> i <= j
  }

  /** A task at the moment it stops running, and the virtual time its lag is measured against. */
  ghost function Stopped(baseSlice: nat, f: Fair, id: nat, now: nat): (r: (Task, nat))
    requires 0 < baseSlice <= U64_MAX && now <= U64_MAX && TreesOk(f) && id in f.tasks
    ensures TaskOk(r.0) && !r.0.running && r.0.priority == f.tasks[id].priority && f.virtualTime <= r.1 <= U64_MAX
  {
    assert TaskOk(f.tasks[id]);
    var t := AccountRuntime(f.tasks[id], now, false);
    if t.IsRt() then (t, f.virtualTime)
    else
      var g := f.(tasks := f.tasks[id := t]);
      StoppedBounds(f, id, t);
      var v := VirtualTimeAfter(g, Some(id));
      (SaveLag(baseSlice, t, v), v)
  }

  lemma StoppedBounds(f: Fair, id: nat, t: Task)
    requires TreesOk(f) && id in f.tasks && TaskOk(t)
    ensures var g := f.(tasks := f.tasks[id := t]);
            g.Queued() <= g.tasks.Keys && f.virtualTime <= VirtualTimeAfter(g, Some(id)) <= U64_MAX
  {
    var g := f.(tasks := f.tasks[id := t]);
    var s := Participants(g, Some(id));
    if s != {} {
      forall x | x in s
        ensures 0 <= g.tasks[x].vruntime <= U64_MAX
      {
        assert TaskOk(g.tasks[x]);
      }
      AverageBetween(g.tasks, s, 0, U64_MAX);
    }
  }

  /** The record with which a task goes to the queue, stopped if it was running, and the virtual time it meets. */
  ghost function Entering(baseSlice: nat, f: Fair, current: Option<nat>, id: nat, now: nat): (r: (Task, nat))
    requires 0 < baseSlice <= U64_MAX && now <= U64_MAX && TreesOk(f) && id in f.tasks
    requires current.Some? ==> current.value in f.tasks
    ensures TaskOk(r.0) && r.0.priority == f.tasks[id].priority && r.1 <= U64_MAX
  {
    assert TaskOk(f.tasks[id]);
    var stops := current == Some(id);
    var after := Stopped(baseSlice, f, id, now);
    var t := if stops then after.0 else f.tasks[id];
    var g := if stops then f.(tasks := f.tasks[id := t], virtualTime := after.1) else f;
    var rest := if stops then None else current;
    assert g.Queued() <= g.tasks.Keys;
    StoppedTreesBounds(f, g, id, rest);
    (t, VirtualTimeAfter(g, rest))
  }

  /** The record of an ordinary task as it enters the queue, before its queue id is assigned. */
  ghost function EnqueuedTask(baseSlice: nat, f: Fair, current: Option<nat>, id: nat, reason: EnqueueReason,
                              now: nat): (r: Task)
    requires 0 < baseSlice <= U64_MAX && now <= U64_MAX && TreesOk(f) && id in f.tasks
    requires current.Some? ==> current.value in f.tasks
    ensures TaskOk(r) && r.priority == f.tasks[id].priority
  {
    var before := Entering(baseSlice, f, current, id, now);
    match reason
    case Preempt => RefreshDeadline(baseSlice, before.0, false)
    case Yield => RefreshDeadline(baseSlice, GiveUpRequest(before.0, before.1), true)
    case _ => Place(baseSlice, before.0, reason, before.1)
  }

  /** In fields: how the record enters the queue, whatever its queue id. */
  lemma EnqueuedEnters(baseSlice: nat, f: Fair, current: Option<nat>, id: nat, reason: EnqueueReason, now: nat,
                       queueId: nat)
    requires 0 < baseSlice <= U64_MAX && now <= U64_MAX && TreesOk(f) && id in f.tasks && !f.tasks[id].IsRt()
    requires current.Some? ==> current.value in f.tasks
    ensures var before := Entering(baseSlice, f, current, id, now);
            EntersAs(baseSlice, before.0, reason, before.1,
                     EnqueuedTask(baseSlice, f, current, id, reason, now).(queueId := queueId))
  {
    hide Entering, Place, RefreshDeadline, GiveUpRequest, RequestLength, TaskOk, TreesOk;
    var before := Entering(baseSlice, f, current, id, now);
    match reason
    case Preempt => PreemptEnters(baseSlice, before.0, before.1);
    case Yield => YieldEnters(baseSlice, before.0, before.1);
    case _ => PlaceEnters(baseSlice, before.0, reason, before.1);
  }

  /** In fields: how a running task stops. */
  ghost predicate StopsAs(baseSlice: nat, t: Task, now: nat, v: nat, r: Task) {
    exists c :: ChargedAs(t, now, c) && !c.running && SavesLag(baseSlice, c, v, r)
  }

  lemma StoppedStops(baseSlice: nat, f: Fair, id: nat, now: nat)
    requires 0 < baseSlice <= U64_MAX && now <= U64_MAX && TreesOk(f) && id in f.tasks && f.tasks[id].running
    ensures var after := Stopped(baseSlice, f, id, now); StopsAs(baseSlice, f.tasks[id], now, after.1, after.0)
  {
    assert TaskOk(f.tasks[id]);
    var t, v := AccountRuntime(f.tasks[id], now, false), Stopped(baseSlice, f, id, now).1;
    AccountCharges(f.tasks[id], now, false);
    SaveLagSaves(baseSlice, t, v);
    hide ChargedAs, SavesLag, AccountRuntime, SaveLag, TreesOk, VirtualTimeAfter;
    assert ChargedAs(f.tasks[id], now, t) && !t.running && SavesLag(baseSlice, t, v, Stopped(baseSlice, f, id, now).0);
  }

  /** The record a priority change starts from: the running task charged, any other with its lag saved. */
  ghost function Withdrawn(baseSlice: nat, f: Fair, current: Option<nat>, id: nat, now: nat): (r: Task)
    requires 0 < baseSlice <= U64_MAX && now <= U64_MAX && TreesOk(f) && id in f.tasks
    requires current.Some? ==> current.value in f.tasks
    ensures TaskOk(r) && r.priority == f.tasks[id].priority
  {
    assert TaskOk(f.tasks[id]);
    if current == Some(id) then AccountRuntime(f.tasks[id], now, true)
    else
      VirtualTimeBounds(f, current);
      SaveLag(baseSlice, f.tasks[id], VirtualTimeAfter(f, current))
  }

  /** Virtual time once `id`, now recorded as `t`, has left the queue. */
  ghost function TimeWithout(f: Fair, current: Option<nat>, id: nat, t: Task): (v: nat)
    requires TreesOk(f) && id in f.tasks && TaskOk(t)
    requires current.Some? ==> current.value in f.tasks
    ensures VirtualTimeAfter(f, current) <= v <= U64_MAX
  {
    VirtualTimeBounds(f, current);
    var g := Without(f, id, t, VirtualTimeAfter(f, current));
    StoppedTreesBounds(f, g, id, current);
    VirtualTimeAfter(g, current)
  }

  /** Virtual time once the running task, charged to `t` under its old weight, has its new priority. */
  ghost function TimeAtChange(f: Fair, id: nat, t: Task, priority: int): (v: nat)
    requires TreesOk(f) && id in f.tasks && TaskOk(t) && ValidPriority(priority)
    ensures f.virtualTime <= v <= U64_MAX
  {
    StoppedBounds(f, id, t);
    var charged := ChargedTime(f, id, t);
    var g := f.(tasks := f.tasks[id := t.(priority := priority)], virtualTime := charged);
    PriorityOk(t, priority);
    StoppedTreesBounds(f, g, id, Some(id));
    if IsRtPriority(priority) then charged else VirtualTimeAfter(g, Some(id))
  }

  ghost function ChargedTime(f: Fair, id: nat, t: Task): (v: nat)
    requires TreesOk(f) && id in f.tasks && TaskOk(t)
    ensures f.virtualTime <= v <= U64_MAX
  {
    StoppedBounds(f, id, t);
    if f.tasks[id].IsRt() then f.virtualTime else VirtualTimeAfter(f.(tasks := f.tasks[id := t]), Some(id))
  }

  ghost function Without(f: Fair, id: nat, t: Task, virtualTime: nat): Fair {
    f.(tasks := f.tasks[id := t], eligible := f.eligible - {id}, ineligible := f.ineligible - {id},
       virtualTime := virtualTime)
  }

  /** Virtual time looks only at the records, at who is queued and at itself. */
  lemma SameTime(f: Fair, g: Fair, current: Option<nat>)
    requires f.tasks == g.tasks && f.Queued() == g.Queued() && f.virtualTime == g.virtualTime
    requires f.Queued() <= f.tasks.Keys && (current.Some? ==> current.value in f.tasks)
    ensures VirtualTimeAfter(f, current) == VirtualTimeAfter(g, current)
  {}

  lemma WithoutTime(f: Fair, g: Fair, current: Option<nat>, id: nat)
    requires TreesOk(f) && id in f.tasks && id in g.tasks && TaskOk(g.tasks[id])
    requires current.Some? ==> current.value in f.tasks
    requires g.tasks == f.tasks[id := g.tasks[id]] && g.Queued() == f.Queued() - {id}
    requires g.virtualTime == VirtualTimeAfter(f, current)
    ensures g.Queued() <= g.tasks.Keys && VirtualTimeAfter(g, current) == TimeWithout(f, current, id, g.tasks[id])
  {
    SameTime(g, Without(f, id, g.tasks[id], g.virtualTime), current);
  }

  lemma ChangeTime(f: Fair, g: Fair, id: nat, priority: int)
    requires TreesOk(f) && id in f.tasks && id in g.tasks && TaskOk(g.tasks[id]) && ValidPriority(priority)
    requires g.tasks == f.tasks[id := g.tasks[id]] && g.Queued() == f.Queued() - {id} && id !in f.Queued()
    requires g.virtualTime == ChargedTime(f, id, g.tasks[id])
    ensures g.Queued() <= g.tasks.Keys
    ensures TimeAtChange(f, id, g.tasks[id], priority) ==
            if IsRtPriority(priority) then g.virtualTime
            else VirtualTimeAfter(g.(tasks := g.tasks[id := g.tasks[id].(priority := priority)]), Some(id))
  {
    var t := g.tasks[id].(priority := priority);
    SameTime(g.(tasks := g.tasks[id := t]), f.(tasks := f.tasks[id := t], virtualTime := g.virtualTime), Some(id));
  }

  /** Stopping the running task first leads to the same record. */
  lemma EnqueuedAfterStop(baseSlice: nat, f: Fair, g: Fair, id: nat, reason: EnqueueReason, now: nat)
    requires 0 < baseSlice <= U64_MAX && now <= U64_MAX && TreesOk(f) && TreesOk(g) && id in f.tasks
    requires var after := Stopped(baseSlice, f, id, now);
             g.tasks == f.tasks[id := after.0] && g.virtualTime == after.1 && g.Queued() == f.Queued()
    ensures EnqueuedTask(baseSlice, f, Some(id), id, reason, now) == EnqueuedTask(baseSlice, g, None, id, reason, now)
  {
    hide Place, RefreshDeadline, Stopped, TaskOk;
    var after := Stopped(baseSlice, f, id, now);
    SameTime(f.(tasks := f.tasks[id := after.0], virtualTime := after.1), g, None);
  }

  lemma EnqueuedPlaced(baseSlice: nat, f: Fair, current: Option<nat>, id: nat, reason: EnqueueReason, now: nat)
    requires 0 < baseSlice <= U64_MAX && now <= U64_MAX && TreesOk(f) && id in f.tasks && reason.Places()
    requires current.Some? ==> current.value in f.tasks && current.value != id
    ensures TaskOk(f.tasks[id]) && f.virtualTime <= VirtualTimeAfter(f, current) <= U64_MAX
    ensures EnqueuedTask(baseSlice, f, current, id, reason, now) ==
            Place(baseSlice, f.tasks[id], reason, VirtualTimeAfter(f, current))
  {
    hide Place, VirtualTimeAfter, Stopped;
    VirtualTimeBounds(f, current);
  }

  lemma StoppedTreesBounds(f: Fair, g: Fair, id: nat, current: Option<nat>)
    requires TreesOk(f) && id in f.tasks && g.tasks.Keys == f.tasks.Keys && TaskOk(g.tasks[id])
    requires forall x :: x in f.tasks && x != id ==> g.tasks[x] == f.tasks[x]
    requires g.Queued() <= f.Queued() && f.virtualTime <= g.virtualTime <= U64_MAX
    requires current.Some? ==> current.value in g.tasks
    ensures g.virtualTime <= VirtualTimeAfter(g, current) <= U64_MAX
  {
    var s := Participants(g, current);
    if s != {} {
      forall x | x in s
        ensures 0 <= g.tasks[x].vruntime <= U64_MAX
      {
        assert x == id || TaskOk(f.tasks[x]);
      }
      AverageBetween(g.tasks, s, 0, U64_MAX);
    }
  }

  // ----- Ticks and timers

  /** A queued real-time task has a higher priority. */
  ghost predicate HigherReady(bitmap: set<nat>, priority: int) {
    exists i :: i in bitmap && 99 - i > priority
  }

  /** The highest queued real-time priority is this one. */
  ghost predicate LevelReady(bitmap: set<nat>, priority: int) {
    !HigherReady(bitmap, priority) && exists i :: i in bitmap && 99 - i == priority
  }

  lemma HighestReady(bitmap: set<nat>, i: nat, priority: int)
    requires IsLowest(bitmap, i)
    ensures 99 - i > priority <==> HigherReady(bitmap, priority)
    ensures 99 - i == priority <==> LevelReady(bitmap, priority)
  {}

  /** Whether the running task, charged up to now, must give way: the rule a tick implements, stated over a scan. */
  ghost predicate ReschedNow(f: Fair, bitmap: set<nat>, id: nat)
    requires id in f.tasks && f.Queued() <= f.tasks.Keys
  {
    var t := f.tasks[id];
    if t.IsRt() then
      HigherReady(bitmap, t.priority) || (t.rtPolicy.RoundRobin? && LevelReady(bitmap, t.priority) &&
        t.rtRemaining == 0)
    else
      || bitmap != {}
      || (f.count != 0 && (t.vruntime >= t.deadline || EligibleAt(f, VirtualTimeAfter(f, Some(id)), t.deadline)))
  }

  /** The same at a later time. */
  ghost predicate ReschedWanted(f: Fair, bitmap: set<nat>, id: nat, now: nat)
    requires id in f.tasks && TaskOk(f.tasks[id]) && now <= U64_MAX && f.Queued() <= f.tasks.Keys
  {
    ReschedNow(f.(tasks := f.tasks[id := AccountRuntime(f.tasks[id], now, true)]), bitmap, id)
  }

  ghost predicate EligibleAt(f: Fair, virtualTime: int, deadline: nat)
    requires f.Queued() <= f.tasks.Keys
  {
    exists x :: x in f.Queued() && f.tasks[x].vruntime <= virtualTime && f.tasks[x].deadline < deadline
  }

  lemma EligibleSame(f: Fair, g: Fair, deadline: nat)
    requires f.Queued() <= f.tasks.Keys && g.tasks == f.tasks && g.Queued() == f.Queued()
    ensures HasEligible(g, deadline) <==> EligibleAt(f, g.virtualTime, deadline)
  {}

  lemma RefreshKeepsOrForces(baseSlice: nat, t: Task)
    requires 0 < baseSlice <= U64_MAX && TaskOk(t)
    ensures RefreshDeadline(baseSlice, t, false) ==
            if t.vruntime >= t.deadline then RefreshDeadline(baseSlice, t, true) else t
  {}

  /** Starting a task changes nothing the rule looks at. */
  lemma StartKeepsRule(f: Fair, bitmap: set<nat>, id: nat, t: Task)
    requires id in f.tasks && f.Queued() <= f.tasks.Keys && id !in f.Queued()
    requires t == f.tasks[id].(execStart := t.execStart, running := t.running)
    ensures ReschedNow(f.(tasks := f.tasks[id := t]), bitmap, id) <==> ReschedNow(f, bitmap, id)
  {
    var g := f.(tasks := f.tasks[id := t]);
    assert Weights(g.tasks) == Weights(f.tasks) && Loads(g.tasks) == Loads(f.tasks);
    assert Participants(g, Some(id)) == Participants(f, Some(id));
    var v := VirtualTimeAfter(f, Some(id));
    assert VirtualTimeAfter(g, Some(id)) == v;
    assert EligibleAt(g, v, t.deadline) <==> EligibleAt(f, v, t.deadline);
  }

  /** Nanoseconds from `now` to the next forced reschedule; absent when none is due while the queues stay as they
      are. */
  ghost function TimerWait(f: Fair, bitmap: set<nat>, id: nat, now: nat): Option<nat>
    requires id in f.tasks
  {
    var t := f.tasks[id];
    if t.IsRt() then
      if bitmap == {} then None
      else if HigherReady(bitmap, t.priority) then Some(0)
      else if !LevelReady(bitmap, t.priority) || t.rtPolicy.Fifo? then None
      else Some(SaturatingSub(t.rtRemaining, UnaccountedRuntime(t, now)))
    else if bitmap != {} then Some(0)
    else if f.count == 0 then None
    else
      var v := SaturatingAdd(t.vruntime, CalcDeltaFair(UnaccountedRuntime(t, now), Weight(t.priority)), U64_MAX);
      Some(CeilDiv(SaturatingSub(t.deadline, v) * Weight(t.priority), NICE_0_WEIGHT))
  }

  ghost function PreemptionDeadline(f: Fair, bitmap: set<nat>, id: nat, now: nat): Option<nat>
    requires id in f.tasks
  {
    var wait := TimerWait(f, bitmap, id, now);
    if wait.None? then None else Some(SaturatingAdd(now, Min(wait.value, U64_MAX), U64_MAX))
  }

  /** A tick at the announced deadline reschedules, unless the clock itself overflows before it. */
  lemma TimerAgreesWithTick(f: Fair, bitmap: set<nat>, id: nat, now: nat)
    requires id in f.tasks && TaskOk(f.tasks[id]) && f.Queued() <= f.tasks.Keys
    requires f.tasks[id].running && f.tasks[id].execStart <= now
    requires var wait := TimerWait(f, bitmap, id, now); wait.Some? && now + wait.value <= U64_MAX
    ensures PreemptionDeadline(f, bitmap, id, now) == Some(now + TimerWait(f, bitmap, id, now).value)
    ensures ReschedWanted(f, bitmap, id, PreemptionDeadline(f, bitmap, id, now).value)
  {
    var t := f.tasks[id];
    if !t.IsRt() {
      hide Weight, CalcDeltaFair, CeilDiv;
      TimerReachesDeadline(now - t.execStart, t.vruntime, t.deadline, Weight(t.priority));
    }
  }

  /** What is left of the slice or of the request ends before the clock does. */
  predicate EndsOnClock(t: Task)
    requires t.execStart <= U64_MAX
  {
    if t.IsRt() then t.rtRemaining <= U64_MAX - t.execStart
    else SaturatingSub(t.deadline, t.vruntime) * Weight(t.priority) <= (U64_MAX - t.execStart) * NICE_0_WEIGHT
  }

  /** When the clock ends, a queued task with an earlier deadline than that of `id` is eligible. */
  ghost predicate OvertakenAtEnd(f: Fair, id: nat)
    requires id in f.tasks && TaskOk(f.tasks[id]) && f.Queued() <= f.tasks.Keys
  {
    var g := f.(tasks := f.tasks[id := AccountRuntime(f.tasks[id], U64_MAX, true)]);
    EligibleAt(g, VirtualTimeAfter(g, Some(id)), f.tasks[id].deadline)
  }

  /** Exactly when a tick at the announced time reschedules, saturated announcements included. */
  lemma TimerExactly(f: Fair, bitmap: set<nat>, id: nat, now: nat)
    requires id in f.tasks && TaskOk(f.tasks[id]) && f.Queued() <= f.tasks.Keys
    requires f.tasks[id].running && f.tasks[id].execStart <= now <= U64_MAX
    requires TimerWait(f, bitmap, id, now).Some?
    ensures ReschedWanted(f, bitmap, id, PreemptionDeadline(f, bitmap, id, now).value) <==>
            || TimerWait(f, bitmap, id, now).value == 0 || EndsOnClock(f.tasks[id])
            || (!f.tasks[id].IsRt() && OvertakenAtEnd(f, id))
  {
    var t, wait := f.tasks[id], TimerWait(f, bitmap, id, now).value;
    if !t.IsRt() {
      hide Weight, CalcDeltaFair, CeilDiv, EligibleAt, VirtualTimeAfter;
      RuntimeReaches(U64_MAX - t.execStart, t.vruntime, t.deadline, Weight(t.priority));
      if now + wait <= U64_MAX {
        TimerAgreesWithTick(f, bitmap, id, now);
        TimerReachesDeadline(now - t.execStart, t.vruntime, t.deadline, Weight(t.priority));
        RuntimeReaches(now + wait - t.execStart, t.vruntime, t.deadline, Weight(t.priority));
      }
    }
  }

  /** A round-robin task that starts as the clock runs out is announced a reschedule that no tick delivers. */
  lemma SaturatedTimerMissed(f: Fair)
    requires f.Queued() == {} && 0 in f.tasks
    requires f.tasks[0] == NewTask().(priority := 1, running := true, execStart := U64_MAX - 1)
    ensures PreemptionDeadline(f, {98}, 0, U64_MAX - 1) == Some(U64_MAX) && !ReschedWanted(f, {98}, 0, U64_MAX)
  {
    assert 98 in {98};
    assert !HigherReady({98}, 1);
    TimerExactly(f, {98}, 0, U64_MAX - 1);
  }

  /** With no deadline announced, no later tick reschedules while the queues are unchanged. */
  lemma NoTimerNoTick(f: Fair, bitmap: set<nat>, id: nat, now: nat, later: nat)
    requires id in f.tasks && TaskOk(f.tasks[id]) && f.Queued() <= f.tasks.Keys
    requires PreemptionDeadline(f, bitmap, id, now).None? && later <= U64_MAX
    ensures !ReschedWanted(f, bitmap, id, later)
  {}

  /** Whether a timer is needed does not depend on the time, nor on what ticks change. */
  lemma NoTimerPersists(f: Fair, g: Fair, bitmap: set<nat>, id: nat, now: nat, later: nat)
    requires id in f.tasks && id in g.tasks && g.count == f.count
    requires g.tasks[id].priority == f.tasks[id].priority && g.tasks[id].rtPolicy == f.tasks[id].rtPolicy
    ensures PreemptionDeadline(g, bitmap, id, later).None? <==> PreemptionDeadline(f, bitmap, id, now).None?
  {}

  /** What callers ask of a scheduler. */
  datatype Operation =
    | Adopts(id: nat, t: Task)
    | Enqueues(id: nat, reason: EnqueueReason, now: nat)
    | Removes(id: nat)
    | Detaches(accepts: Task -> bool)
    | Picks(now: nat)
    | Starts(id: nat, now: nat)
    | Stops(id: nat, now: nat)
    | Ticks(id: nat, now: nat)
    | SetsPriority(id: nat, priority: int, now: nat)

  class Scheduler {
    const baseSlice: nat

    var tasks: map<nat, Task>
    var rtQueues: seq<seq<nat>>
    var rtBitmap: set<nat>
    var eligible: set<nat>
    var ineligible: set<nat>
    var bound: Option<nat>
    var taskCount: nat
    var totalWeight: nat
    var weightedVruntime: nat
    var cache: Option<Cache>
    var current: Option<nat>
    var virtualTime: nat
    var sequence: nat
    var clock: nat

    function Snapshot(): Fair reads this {
      Fair(tasks, eligible, ineligible, bound, taskCount, totalWeight, weightedVruntime, cache, virtualTime)
    }

    predicate IsQueued(id: nat) reads this {
      id in eligible + ineligible || RtQueued(tasks, rtQueues, id)
    }

    /** All queued tasks, of either kind. */
    ghost function Queue(): set<nat> reads this {
      set y | y in tasks && IsQueued(y)
    }

    /** Everything but the running flags. */
    ghost predicate Core() reads this {
      && 0 < baseSlice <= U64_MAX && clock <= U64_MAX && sequence <= U64_MAX
      && FairOk(Snapshot())
      && RtOk(tasks, rtQueues, rtBitmap)
      && (current.Some? ==> current.value in tasks && !IsQueued(current.value))
    }

    /** The running task, and no other, has its flag set and a start mark the clock has passed. */
    ghost predicate RunningOk() reads this {
      && (forall id :: id in tasks ==> (tasks[id].running <==> current == Some(id)))
      && (current.Some? && current.value in tasks ==> tasks[current.value].execStart <= clock)
    }

    ghost predicate Valid() reads this { Core() && RunningOk() }

    constructor (baseSlice: nat)
      requires 0 < baseSlice <= U64_MAX
      ensures Valid() && this.baseSlice == baseSlice && tasks == map[] && current == None
      ensures virtualTime == clock == sequence == 0
    {
      this.baseSlice := baseSlice;
      tasks, rtQueues, rtBitmap := map[], seq(99, _ => []), {};
      eligible, ineligible, bound, taskCount := {}, {}, None, 0;
      totalWeight, weightedVruntime, cache := 0, 0, None;
      current, virtualTime, sequence, clock := None, 0, 0, 0;
    }

    /** Changing a task that is not queued keeps the run queue sound. */
    lemma TouchCore(id: nat, t: Task)
      requires Core() && id in tasks && !IsQueued(id) && TaskOk(t)
      ensures FairOk(Snapshot().(tasks := tasks[id := t])) && RtOk(tasks[id := t], rtQueues, rtBitmap)
      ensures forall y :: y != id || t.priority == tasks[id].priority ==>
                          (RtQueued(tasks[id := t], rtQueues, y) <==> RtQueued(tasks, rtQueues, y))
    {
      TouchKeeps(Snapshot(), id, t);
      RtTouch(tasks, rtQueues, rtBitmap, id, t);
    }

    lemma ValidTask(id: nat)
      requires Valid() && id in tasks
      ensures 0 < baseSlice <= U64_MAX && clock <= U64_MAX && TreesOk(Snapshot()) && TaskOk(tasks[id])
      ensures current.Some? ==> current.value in tasks && current.value !in Snapshot().Queued()
    {
      hide FairOk;
      TasksOk(Snapshot(), id);
    }

    /** A task becomes known to this scheduler, detached: a new one, or one handed over by another scheduler. */
    method Adopt(id: nat, t: Task)
      requires Valid() && id !in tasks && TaskOk(t) && !t.running
      modifies `tasks
      ensures Valid() && tasks == old(tasks)[id := t] && !IsQueued(id) && current != Some(id)
    {
      hide FairOk;
      AdoptKeeps(Snapshot(), id, t);
      RtTouch(tasks, rtQueues, rtBitmap, id, t);
      forall i | 0 <= i < 99
        ensures id !in rtQueues[i]
      {
        assert forall k :: 0 <= k < |rtQueues[i]| ==> rtQueues[i][k] in tasks;
      }
      tasks := tasks[id := t];
    }

    method AdvanceClock(now: nat)
      requires now <= U64_MAX
      modifies `clock
      ensures clock == Max(old(clock), now)
    {
      clock := Max(clock, now);
    }

    method NextSequence() returns (r: nat)
      requires sequence <= U64_MAX
      modifies `sequence
      ensures r == sequence && 0 < sequence <= U64_MAX
      ensures old(sequence) < U64_MAX ==> sequence == old(sequence) + 1
    {
      sequence := if sequence == U64_MAX then 0 else sequence + 1;
      if sequence == 0 {
        sequence := 1;
      }
      return sequence;
    }

    /** Virtual time follows the weighted average of queued and running ordinary tasks and never goes back. */
    method UpdateVirtualTime() returns (r: nat)
      requires Core()
      modifies `virtualTime
      ensures Core()
      ensures r == virtualTime == old(VirtualTimeAfter(Snapshot(), current)) && old(virtualTime) <= r <= U64_MAX
    {
      hide FairOk, VirtualTimeAfter, RtOk, Weight, LoadOf, RtQueued, CappedQuotient;
      ghost var f := Snapshot();
      var total, weighted := totalWeight, weightedVruntime;
      if current.Some? && !tasks[current.value].IsRt() {
        var c := tasks[current.value];
        weighted := SaturatingAdd(weighted, Min(LoadOf(c), U128_MAX), U128_MAX);
        total := SaturatingAdd(total, Weight(c.priority), U128_MAX);
      }
      VirtualTimeComputed(f, current, total, weighted);
      if total == 0 {
        return virtualTime;
      }
      var average := CappedQuotient(weighted, total);
      virtualTime := Max(virtualTime, average);
      return virtualTime;
    }

    /** Moves every task that virtual time has caught up with to the eligible tree. */
    method PromoteNormalEligible()
      requires Core()
      modifies `eligible, `ineligible, `bound
      ensures Core() && Settled(Snapshot())
      ensures eligible + ineligible == old(eligible + ineligible)
    {
      hide TreesOk, SumsOk, CacheOk, BoundOk, RtOk, RtQueued, IsFirst;
      ghost var f := Snapshot();
      PromoteStart(f);
      var promoted := false;
      while ineligible != {}
        invariant PromoteLoop(f, Snapshot()) && eligible + ineligible == old(eligible + ineligible)
        invariant !promoted ==> Snapshot() == f
        decreases ineligible
      {
        LoopKeys(f, Snapshot());
        var front := Front(tasks, ineligible, IneligibleKey);
        FirstIn(tasks, ineligible, IneligibleKey, front);
        if tasks[front].vruntime > virtualTime {
          break;
        }
        PromoteStep(f, Snapshot(), front);
        ineligible := ineligible - {front};
        eligible := eligible + {front};
        promoted := true;
      }
      PromoteEnd(f, Snapshot(), promoted);
      if promoted {
        NoteIneligibleRemove();
      }
    }

    method NoteIneligibleRemove()
      modifies `bound
      ensures bound == if ineligible == {} then None else old(bound)
    {
      if ineligible == {} {
        bound := None;
      }
    }

    /** Takes a queued ordinary task out of its tree and out of the running sums. */
    method TakeNormal(id: nat)
      requires Core() && id in eligible + ineligible
      modifies `eligible, `ineligible, `bound, `taskCount, `totalWeight, `weightedVruntime, `cache
      ensures Core() && eligible + ineligible == old(eligible + ineligible) - {id}
      ensures eligible == old(eligible) - {id} && ineligible == old(ineligible) - {id} && taskCount <= old(taskCount)
    {
      hide TreesOk, SumsOk, CacheOk, BoundOk, RtOk, RtQueued, Weight, LoadOf;
      ghost var f := Snapshot();
      RemoveKeeps(f, id);
      QueuedKeys(f);
      if id in eligible {
        EligibleApart(f, id);
        eligible := eligible - {id};
      } else {
        ineligible := ineligible - {id};
        NoteIneligibleRemove();
      }
      taskCount := SaturatingSub(taskCount, 1);
      totalWeight := SaturatingSub(totalWeight, Weight(tasks[id].priority));
      weightedVruntime := SaturatingSub(weightedVruntime, LoadOf(tasks[id]));
      cache := None;
      assert Snapshot() == Removed(f, id);
    }

    /** Adds an ordinary task to the running sums and to the tree its virtual runtime calls for. */
    method LinkNormal(id: nat)
      requires Core() && id in tasks && !IsQueued(id) && current != Some(id)
      requires IsNormalPriority(tasks[id].priority) && taskCount + 1 < MAX_QUEUED
      modifies `eligible, `ineligible, `bound, `taskCount, `totalWeight, `weightedVruntime, `cache
      ensures Core() && cache == None
      ensures eligible + ineligible == old(eligible + ineligible) + {id}
    {
      hide TreesOk, SumsOk, CacheOk, BoundOk, RtOk, Weight, LoadOf, Inserted;
      ghost var f := Snapshot();
      InsertKeeps(f, id);
      totalWeight := SaturatingAdd(totalWeight, Weight(tasks[id].priority), U128_MAX);
      weightedVruntime := SaturatingAdd(weightedVruntime, Min(LoadOf(tasks[id]), U128_MAX), U128_MAX);
      taskCount := SaturatingAdd(taskCount, 1, U64_MAX);
      if tasks[id].vruntime <= virtualTime {
        eligible := eligible + {id};
      } else {
        bound := Some(if bound.Some? then Min(bound.value, tasks[id].deadline) else tasks[id].deadline);
        ineligible := ineligible + {id};
      }
      // Reset here, not at the end of the insertion: what follows does not look at the cache.
      cache := None;
      InsertedFields(f, id, Snapshot());
    }

    /** Brings virtual time and both trees up to date. */
    method Settle() returns (r: nat)
      requires Core()
      modifies `eligible, `ineligible, `bound, `virtualTime
      ensures Core() && Settled(Snapshot()) && eligible + ineligible == old(eligible + ineligible)
      ensures r == virtualTime == old(VirtualTimeAfter(Snapshot(), current)) && old(virtualTime) <= r <= U64_MAX
    {
      hide FairOk, RtOk, RtQueued, VirtualTimeAfter, Settled;
      r := UpdateVirtualTime();
      PromoteNormalEligible();
    }

    /** Queues an ordinary task and settles both trees. */
    method InsertNormal(id: nat)
      requires Core() && id in tasks && !IsQueued(id) && current != Some(id)
      requires IsNormalPriority(tasks[id].priority) && taskCount + 1 < MAX_QUEUED
      modifies `tasks, `eligible, `ineligible, `bound, `taskCount, `totalWeight, `weightedVruntime, `cache,
               `virtualTime, `sequence
      ensures Core() && Settled(Snapshot()) && cache == None
      ensures eligible + ineligible == old(eligible + ineligible) + {id}
      ensures tasks == old(tasks)[id := old(tasks[id]).(queueId := sequence)]
      ensures virtualTime >= old(virtualTime)
      ensures old(sequence) < U64_MAX ==> sequence == old(sequence) + 1
    {
      hide FairOk, RtOk, VirtualTimeAfter, TaskOk, Settled;
      var _ := Settle();
      var seqno := NextSequence();
      QueueIdOk(Snapshot(), id, seqno);
      TouchCore(id, tasks[id].(queueId := seqno));
      tasks := tasks[id := tasks[id].(queueId := seqno)];
      LinkNormal(id);
      var _ := Settle();
    }

    /** Whether queued ordinary work may preempt a request, answered from the cache when it covers this moment. */
    method HasEligiblePreemption(deadline: nat) returns (r: bool)
      requires Core()
      modifies `eligible, `ineligible, `bound, `cache, `virtualTime
      ensures Core() && eligible + ineligible == old(eligible + ineligible)
      ensures virtualTime == old(VirtualTimeAfter(Snapshot(), current))
      ensures virtualTime >= old(virtualTime)
      ensures r <==> HasEligible(Snapshot(), deadline)
      ensures cache.Some? && cache.value.deadline == deadline && cache.value.hasEligible == r
    {
      hide FairOk, RtOk, RtQueued, VirtualTimeAfter, HasEligible, Settled;
      var _ := Settle();
      ghost var f := Snapshot();
      if cache.Some? && cache.value.Covers(virtualTime) && cache.value.deadline == deadline {
        CachedAnswer(f, deadline);
        return cache.value.hasEligible;
      }
      var threshold;
      r, threshold := ScanForPreemption(Snapshot(), deadline);
      cache := Some(Cache(r, deadline, threshold));
    }

    /** Ends the execution of the current task; any other task is left alone. */
    method StopTask(id: nat, now: nat)
      requires Valid() && id in tasks && now <= U64_MAX
      modifies `tasks, `current, `virtualTime
      ensures Valid() && forall y :: RtQueued(tasks, rtQueues, y) <==> old(RtQueued(tasks, rtQueues, y))
      ensures virtualTime >= old(virtualTime)
      ensures old(current) != Some(id) ==>
                tasks == old(tasks) && current == old(current) && virtualTime == old(virtualTime)
      ensures old(current) == Some(id) ==>
                && tasks == old(tasks)[id := old(Stopped(baseSlice, Snapshot(), id, now)).0]
                && current == None && virtualTime == old(Stopped(baseSlice, Snapshot(), id, now)).1
      ensures old(current) == Some(id) ==> StopsAs(baseSlice, old(tasks)[id], now, virtualTime, tasks[id])
    {
      hide FairOk, RtOk, RtQueued, VirtualTimeAfter, AccountRuntime, SaveLag, TaskOk, TreesOk, StopsAs;
      TasksOk(Snapshot(), id);
      if current != Some(id) && !tasks[id].running {
        return;
      }
      StoppedStops(baseSlice, Snapshot(), id, now);
      var t := AccountRuntime(tasks[id], now, false);
      TouchCore(id, t);
      tasks := tasks[id := t];
      if !t.IsRt() {
        var v := UpdateVirtualTime();
        TouchCore(id, SaveLag(baseSlice, t, v));
        tasks := tasks[id := SaveLag(baseSlice, t, v)];
      }
      current := None;
    }

    /** Picks among ordinary tasks. */
    method PickNormal() returns (r: Option<nat>)
      requires Valid()
      modifies `eligible, `ineligible, `bound, `taskCount, `totalWeight, `weightedVruntime, `cache, `virtualTime
      ensures Valid() && virtualTime == old(VirtualTimeAfter(Snapshot(), current))
      ensures virtualTime >= old(virtualTime)
      ensures r.None? <==> old(eligible + ineligible) == {}
      ensures r.None? ==> eligible + ineligible == {}
      ensures r.Some? ==> old(eligible + ineligible) <= tasks.Keys
      ensures r.Some? ==> BestNormal(tasks, old(eligible + ineligible), virtualTime, r.value)
      ensures r.Some? ==> eligible + ineligible == old(eligible + ineligible) - {r.value}
      ensures r.Some? && (current.None? || tasks[current.value].IsRt()) ==> tasks[r.value].vruntime <= virtualTime
    {
      hide FairOk, RtOk, VirtualTimeAfter, Settled, BestNormal, IsFirst, RtQueued;
      ghost var f := Snapshot();
      var _ := Settle();
      ghost var g := Snapshot();
      QueuedKeys(g);
      if eligible == {} && ineligible == {} {
        return None;
      }
      if current.None? || tasks[current.value].IsRt() {
        EligibleExists(f, g, current);
      }
      var x;
      if eligible != {} {
        x := Front(tasks, eligible, EligibleKey);
        FirstIn(tasks, eligible, EligibleKey, x);
      } else {
        x := Front(tasks, ineligible, IneligibleKey);
        FirstIn(tasks, ineligible, IneligibleKey, x);
      }
      FrontIsBestOf(g, eligible, ineligible, x);
      TakeNormal(x);
      return Some(x);
    }

    /** Pops the head of the highest-priority non-empty real-time queue. */
    method PickRt() returns (id: nat)
      requires Valid() && rtBitmap != {}
      modifies `rtQueues, `rtBitmap
      ensures Valid()
      ensures id in tasks && !IsQueued(id) && current != Some(id)
      ensures PopsHighest(old(rtQueues), rtQueues, id)
      ensures forall y :: old(RtQueued(tasks, rtQueues, y)) ==> tasks[y].priority <= tasks[id].priority
    {
      hide FairOk;
      LowestExists(rtBitmap);
      var index :| index in rtBitmap && IsLowest(rtBitmap, index);
      HighestPriority(tasks, rtQueues, rtBitmap, index);
      RtDrop(tasks, rtQueues, rtBitmap, index, 0);
      ghost var was := rtQueues;
      id := rtQueues[index][0];
      assert RtQueued(tasks, was, id) && id !in eligible + ineligible by { NotFair(Snapshot(), id); }
      assert rtQueues[index][..0] + rtQueues[index][1..] == rtQueues[index][1..];
      rtQueues := rtQueues[index := rtQueues[index][1..]];
      if rtQueues[index] == [] {
        rtBitmap := rtBitmap - {index};
      }
      assert HeadOfFirst(was, index, id);
      RtSubset(tasks, was, rtQueues, index);
    }

    /** The next task to run: highest real-time priority first, then the reference rule for ordinary tasks. */
    method PickAt(now: nat) returns (r: Option<nat>)
      requires Valid() && now <= U64_MAX
      modifies `clock, `rtQueues, `rtBitmap, `eligible, `ineligible, `bound, `taskCount, `totalWeight,
               `weightedVruntime, `cache, `virtualTime
      ensures Valid()
      ensures virtualTime >= old(virtualTime)
      ensures clock == Max(old(clock), now)
      ensures r.Some? ==> r.value in tasks && !IsQueued(r.value) && current != r
      ensures old(rtBitmap) != {} ==>
                r.Some? && PopsHighest(old(rtQueues), rtQueues, r.value) && Snapshot() == old(Snapshot())
      ensures old(rtBitmap) != {} ==>
                forall y :: old(RtQueued(tasks, rtQueues, y)) ==> tasks[y].priority <= tasks[r.value].priority
      ensures old(rtBitmap) == {} ==>
                && rtQueues == old(rtQueues) && virtualTime == old(VirtualTimeAfter(Snapshot(), current))
                && (r.None? <==> old(eligible + ineligible) == {})
                && (r.Some? ==> old(eligible + ineligible) <= tasks.Keys
                                && BestNormal(tasks, old(eligible + ineligible), virtualTime, r.value)
                                && eligible + ineligible == old(eligible + ineligible) - {r.value})
      ensures old(rtBitmap) == {} && r.Some? && (current.None? || tasks[current.value].IsRt()) ==>
                tasks[r.value].vruntime <= virtualTime
    {
      hide FairOk, RtOk, VirtualTimeAfter, PopsHighest;
      AdvanceClock(now);
      if rtBitmap != {} {
        var id := PickRt();
        return Some(id);
      } else {
        NoneRtQueued(tasks, rtQueues, rtBitmap);
        NormalOnly(Snapshot());
        r := PickNormal();
      }
    }

    method PushRt(id: nat, front: bool)
      requires Core() && id in tasks && tasks[id].IsRt() && !IsQueued(id) && current != Some(id)
      modifies `rtQueues, `rtBitmap
      ensures Core() && RtQueued(tasks, rtQueues, id)
      ensures var q, index := old(rtQueues), 99 - tasks[id].priority;
              && |q| == 99
              && rtQueues == q[index := if front then [id] + q[index] else q[index] + [id]]
    {
      hide FairOk, RtQueued, RtOk;
      RtIndex(tasks, rtQueues, rtBitmap, id);
      var index := 99 - tasks[id].priority;
      var q := if front then [id] + rtQueues[index] else rtQueues[index] + [id];
      RtPush(tasks, rtQueues, rtBitmap, id, index, q);
      rtQueues := rtQueues[index := q];
      rtBitmap := rtBitmap + {index};
    }

    /** Puts a real-time task at the head of its queue when it is preempted with slice left, else at the tail. */
    method EnqueueRt(id: nat, reason: EnqueueReason, now: nat)
      requires Valid() && id in tasks && tasks[id].IsRt() && !IsQueued(id) && now <= U64_MAX
      modifies `tasks, `current, `virtualTime, `rtQueues, `rtBitmap
      ensures Valid() && RtQueued(tasks, rtQueues, id)
      ensures virtualTime >= old(virtualTime)
      ensures current == if old(current) == Some(id) then None else old(current)
      ensures var t := if old(current) == Some(id) then old(Stopped(baseSlice, Snapshot(), id, now)).0
              else old(tasks[id]);
              var front := reason.Preempt? && (t.rtPolicy.Fifo? || t.rtRemaining > 0);
              var q, index := old(rtQueues), 99 - t.priority;
              && tasks == old(tasks)[id := if !front && t.rtPolicy.RoundRobin? then t.(rtRemaining := RT_TIME_SLICE_NS)
                 else t]
              && |q| == 99 && 0 <= index < 99
              && rtQueues == q[index := if front then [id] + q[index] else q[index] + [id]]
    {
      hide FairOk, RtOk, RtQueued, VirtualTimeAfter, Stopped;
      StopTask(id, now);
      var t := tasks[id];
      var roundRobin := t.rtPolicy.RoundRobin?;
      var keepSlice := roundRobin && reason.Preempt? && t.rtRemaining > 0;
      if reason.Preempt? && (!roundRobin || keepSlice) {
        PushRt(id, true);
      } else {
        if roundRobin {
          ResetSliceOk(Snapshot(), id);
          TouchCore(id, t.(rtRemaining := RT_TIME_SLICE_NS));
          tasks := tasks[id := t.(rtRemaining := RT_TIME_SLICE_NS)];
        }
        PushRt(id, false);
      }
    }

    /** Replaces the record of a task that is not queued. */
    method Store(id: nat, t: Task)
      requires Core() && id in tasks && !IsQueued(id) && TaskOk(t) && t.priority == tasks[id].priority
      modifies `tasks
      ensures Core() && tasks == old(tasks)[id := t]
      ensures forall y :: RtQueued(tasks, rtQueues, y) <==> old(RtQueued(tasks, rtQueues, y))
    {
      hide FairOk, RtOk, RtQueued;
      TouchCore(id, t);
      tasks := tasks[id := t];
    }

    /** Stops the task if it is running and gives it its virtual runtime and deadline for `reason`. */
    method PrepareNormal(id: nat, reason: EnqueueReason, now: nat)
      requires Valid() && id in tasks && !tasks[id].IsRt() && !IsQueued(id) && now <= U64_MAX
      requires reason.Spawn? ==> current != Some(id)
      modifies `tasks, `current, `virtualTime
      ensures Valid() && forall y :: RtQueued(tasks, rtQueues, y) <==> old(RtQueued(tasks, rtQueues, y))
      ensures current == if old(current) == Some(id) then None else old(current)
      ensures tasks == old(tasks)[id := old(EnqueuedTask(baseSlice, Snapshot(), current, id, reason, now))]
      ensures virtualTime >= old(virtualTime)
    {
      hide FairOk, RtOk, RtQueued, Stopped, EnqueuedTask, TreesOk, TaskOk;
      ghost var f := Snapshot();
      TasksOk(f, id);
      if reason.Preempt? || reason.Yield? || ((reason.Wake? || reason.Migration?) && current == Some(id)) {
        StopTask(id, now);
      }
      TasksOk(Snapshot(), id);
      if old(current) == Some(id) {
        EnqueuedAfterStop(baseSlice, f, Snapshot(), id, reason, now);
      }
      PrepareStopped(id, reason, now);
    }

    /** The same for a task that is not running. */
    method PrepareStopped(id: nat, reason: EnqueueReason, ghost now: nat)
      requires Valid() && id in tasks && !tasks[id].IsRt() && !IsQueued(id) && current != Some(id) && now <= U64_MAX
      modifies `tasks, `virtualTime
      ensures Valid() && forall y :: RtQueued(tasks, rtQueues, y) <==> old(RtQueued(tasks, rtQueues, y))
      ensures tasks == old(tasks)[id := old(EnqueuedTask(baseSlice, Snapshot(), current, id, reason, now))]
      ensures virtualTime >= old(virtualTime)
    {
      hide FairOk, RtOk, RtQueued, VirtualTimeAfter, Stopped, Place, RefreshDeadline, TreesOk, TaskOk;
      TasksOk(Snapshot(), id);
      if reason.Places() {
        var v := UpdateVirtualTime();
        TasksOk(Snapshot(), id);
        Store(id, Place(baseSlice, tasks[id], reason, v));
      } else if reason.Preempt? {
        Store(id, RefreshDeadline(baseSlice, tasks[id], false));
      } else {
        var v := UpdateVirtualTime();
        TasksOk(Snapshot(), id);
        Store(id, RefreshDeadline(baseSlice, GiveUpRequest(tasks[id], v), true));
      }
    }

    method EnqueueNormal(id: nat, reason: EnqueueReason, now: nat)
      requires Valid() && id in tasks && !tasks[id].IsRt() && !IsQueued(id) && now <= U64_MAX
      requires reason.Spawn? ==> current != Some(id)
      requires taskCount + 1 < MAX_QUEUED
      modifies `tasks, `current, `virtualTime, `sequence, `eligible, `ineligible, `bound, `taskCount, `totalWeight,
               `weightedVruntime, `cache
      ensures Valid() && eligible + ineligible == old(eligible + ineligible) + {id}
      ensures current == if old(current) == Some(id) then None else old(current)
      ensures tasks == old(tasks)[id := old(EnqueuedTask(baseSlice, Snapshot(), current, id, reason,
              now)).(queueId := sequence)]
      ensures virtualTime >= old(virtualTime)
      ensures old(sequence) < U64_MAX ==> sequence == old(sequence) + 1
    {
      hide FairOk, RtOk, RtQueued, EnqueuedTask, TreesOk, Settled, TaskOk;
      TasksOk(Snapshot(), id);
      PrepareNormal(id, reason, now);
      TasksOk(Snapshot(), id);
      NormalOf(tasks[id]);
      InsertNormal(id);
    }

    /** Queues a task for `reason`. */
    method EnqueueAt(id: nat, reason: EnqueueReason, now: nat)
      requires Valid() && id in tasks && !IsQueued(id) && now <= U64_MAX
      requires reason.Spawn? && !tasks[id].IsRt() ==> current != Some(id)
      requires taskCount + 1 < MAX_QUEUED
      modifies this
      ensures Valid() && IsQueued(id) && clock == Max(old(clock), now)
      ensures current == if old(current) == Some(id) then None else old(current)
      ensures virtualTime >= old(virtualTime)
      ensures tasks.Keys == old(tasks).Keys && tasks[id].priority == old(tasks)[id].priority
      ensures forall y :: y in tasks && y != id ==> tasks[y] == old(tasks)[y]
      ensures !old(tasks)[id].IsRt() ==>
                && eligible + ineligible == old(eligible + ineligible) + {id} && rtQueues == old(rtQueues)
                && tasks[id] == old(EnqueuedTask(baseSlice, Snapshot(), current, id, reason, now)).(queueId := sequence)
                && var before := old(Entering(baseSlice, Snapshot(), current, id, now));
                   EntersAs(baseSlice, before.0, reason, before.1, tasks[id])
      ensures !old(tasks)[id].IsRt() && old(sequence) < U64_MAX ==> sequence == old(sequence) + 1
      ensures old(tasks)[id].IsRt() ==>
                && eligible == old(eligible) && ineligible == old(ineligible)
                && var t := if old(current) == Some(id) then old(Stopped(baseSlice, Snapshot(), id, now)).0
                   else old(tasks[id]);
                   var front := reason.Preempt? && (t.rtPolicy.Fifo? || t.rtRemaining > 0);
                   var q, index := old(rtQueues), 99 - t.priority;
                   && tasks[id] == (if !front && t.rtPolicy.RoundRobin? then t.(rtRemaining := RT_TIME_SLICE_NS) else t)
                   && |q| == 99 && 0 <= index < 99
                   && rtQueues == q[index := if front then [id] + q[index] else q[index] + [id]]
    {
      hide FairOk, RtOk, VirtualTimeAfter, Stopped, EnqueuedTask, Entering, EntersAs, TreesOk, TaskOk;
      TasksOk(Snapshot(), id);
      ghost var f, was := Snapshot(), current;
      AdvanceClock(now);
      if tasks[id].IsRt() {
        EnqueueRt(id, reason, now);
      } else {
        EnqueueNormal(id, reason, now);
        EnqueuedEnters(baseSlice, f, was, id, reason, now, sequence);
      }
    }

    method RemoveRt(id: nat) returns (removed: bool)
      requires Core() && id in tasks && tasks[id].IsRt()
      modifies `rtQueues, `rtBitmap
      ensures Core() && removed == old(RtQueued(tasks, rtQueues, id))
      ensures Requeues(old(rtQueues), rtQueues, id, None)
      ensures forall y :: RtQueued(tasks, rtQueues, y) <==> old(RtQueued(tasks, rtQueues, y)) && y != id
    {
      hide FairOk, RtOk, RtQueued, Requeues;
      RtIndex(tasks, rtQueues, rtBitmap, id);
      var index := 99 - tasks[id].priority;
      var queue := rtQueues[index];
      removed := id in queue;
      if removed {
        var k :| 0 <= k < |queue| && queue[k] == id;
        RtDrop(tasks, rtQueues, rtBitmap, index, k);
        RtDropQueued(tasks, rtQueues, rtBitmap, index, k);
        RtDropRequeues(tasks, rtQueues, rtBitmap, index, k);
        rtQueues := rtQueues[index := queue[..k] + queue[k + 1..]];
        if rtQueues[index] == [] {
          rtBitmap := rtBitmap - {index};
        }
      } else {
        RtUnlinked(tasks, rtQueues, rtBitmap, id);
      }
    }

    /** Unlinks a task from whichever queue holds it; reports whether one did. */
    method RemoveQueued(id: nat) returns (removed: bool)
      requires Core() && id in tasks
      modifies `rtQueues, `rtBitmap, `eligible, `ineligible, `bound, `taskCount, `totalWeight, `weightedVruntime, `cache
      ensures Core() && removed == old(IsQueued(id)) && taskCount <= old(taskCount)
      ensures Queue() == old(Queue()) - {id}
      ensures eligible + ineligible == old(eligible + ineligible) - {id} && Requeues(old(rtQueues), rtQueues, id, None)
    {
      hide FairOk, RtOk, RtQueued, Requeues;
      if tasks[id].IsRt() {
        NotFair(Snapshot(), id);
        removed := RemoveRt(id);
      } else {
        NotRtQueued(tasks, rtQueues, id);
        RtUnlinked(tasks, rtQueues, rtBitmap, id);
        removed := id in eligible + ineligible;
        if removed {
          TakeNormal(id);
        }
      }
    }

    /** Saves the lag of any task; no queue order depends on it. */
    method SaveLagOf(id: nat)
      requires Core() && id in tasks
      modifies `tasks, `virtualTime
      ensures Core() && forall y :: RtQueued(tasks, rtQueues, y) <==> old(RtQueued(tasks, rtQueues, y))
      ensures virtualTime == old(VirtualTimeAfter(Snapshot(), current)) && virtualTime <= U64_MAX
      ensures virtualTime >= old(virtualTime)
      ensures TaskOk(old(tasks)[id]) && tasks == old(tasks)[id := SaveLag(baseSlice, old(tasks)[id], virtualTime)]
    {
      hide FairOk, RtOk, RtQueued, VirtualTimeAfter, TreesOk, SaveLag, TaskOk;
      var v := UpdateVirtualTime();
      TasksOk(Snapshot(), id);
      TouchUnkeyedKeeps(Snapshot(), id, SaveLag(baseSlice, tasks[id], v));
      RtTouch(tasks, rtQueues, rtBitmap, id, SaveLag(baseSlice, tasks[id], v));
      RtQueuedSame(tasks, rtQueues, id, SaveLag(baseSlice, tasks[id], v));
      tasks := tasks[id := SaveLag(baseSlice, tasks[id], v)];
    }

    /** Takes a task off the run queue with its lag saved; the running task is refused. */
    method Remove(id: nat) returns (removed: bool)
      requires Valid() && id in tasks
      modifies `tasks, `virtualTime, `rtQueues, `rtBitmap, `eligible, `ineligible, `bound, `taskCount, `totalWeight,
               `weightedVruntime, `cache
      ensures Valid() && removed == (old(IsQueued(id)) && current != Some(id))
      ensures virtualTime >= old(virtualTime)
      ensures Queue() == old(Queue()) - {id}
      ensures current == Some(id) ==> tasks == old(tasks)
      ensures eligible + ineligible == old(eligible + ineligible) - {id} && Requeues(old(rtQueues), rtQueues, id, None)
      ensures current != Some(id) ==>
                && virtualTime == old(VirtualTimeAfter(Snapshot(), current)) && virtualTime <= U64_MAX
                && TaskOk(old(tasks)[id]) && tasks == old(tasks)[id := SaveLag(baseSlice, old(tasks)[id], virtualTime)]
    {
      hide FairOk, RtOk, RtQueued, VirtualTimeAfter, SaveLag, TaskOk, Requeues;
      if current == Some(id) {
        RtUnlinked(tasks, rtQueues, rtBitmap, id);
        return false;
      }
      SaveLagOf(id);
      removed := RemoveQueued(id);
    }

    /** Takes a queued ordinary task out of its tree and saves its lag. */
    method TakeWithLag(id: nat, v: nat)
      requires Valid() && id in eligible + ineligible && v <= U64_MAX
      modifies `tasks, `eligible, `ineligible, `bound, `taskCount, `totalWeight, `weightedVruntime, `cache
      ensures Valid() && eligible + ineligible == old(eligible + ineligible) - {id}
      ensures id in old(tasks) && TaskOk(old(tasks)[id])
      ensures tasks == old(tasks)[id := SaveLag(baseSlice, old(tasks)[id], v)]
    {
      hide FairOk, RtOk, RtQueued, SaveLag, TaskOk, TreesOk;
      QueuedKeys(Snapshot());
      TasksOk(Snapshot(), id);
      QueuedNormal(Snapshot(), id);
      NotRtQueued(tasks, rtQueues, id);
      TakeNormal(id);
      Store(id, SaveLag(baseSlice, tasks[id], v));
    }

    /** Takes an accepted ordinary task for migration, in selection order, with its lag saved. */
    method DetachNormalTask(accepts: Task -> bool) returns (r: Option<nat>)
      requires Valid()
      modifies `tasks, `virtualTime, `eligible, `ineligible, `bound, `taskCount, `totalWeight, `weightedVruntime, `cache
      ensures Valid() && virtualTime == old(VirtualTimeAfter(Snapshot(), current)) && virtualTime <= U64_MAX
      ensures virtualTime >= old(virtualTime)
      ensures old(eligible + ineligible) <= old(tasks).Keys
      ensures r.None? <==> Accepted(old(tasks), old(eligible + ineligible), accepts) == {}
      ensures r.None? ==> tasks == old(tasks) && eligible + ineligible == old(eligible + ineligible)
      ensures r.Some? ==>
                var x, q := r.value, old(eligible + ineligible);
                && BestNormal(old(tasks), Accepted(old(tasks), q, accepts), virtualTime, x)
                && eligible + ineligible == q - {x} && TaskOk(old(tasks)[x])
                && tasks == old(tasks)[x := SaveLag(baseSlice, old(tasks)[x], virtualTime)]
    {
      hide FairOk, RtOk, RtQueued, VirtualTimeAfter, Settled, BestNormal, SaveLag, TaskOk, TreesOk, Accepted;
      var v := Settle();
      QueuedKeys(Snapshot());
      r := ChooseAccepted(Snapshot(), accepts);
      if r.None? {
        return;
      }
      TakeWithLag(r.value, v);
    }

    /** Like `Store`, with a new priority. */
    method StoreWithPriority(id: nat, t: Task)
      requires Core() && id in tasks && !IsQueued(id) && TaskOk(t)
      modifies `tasks
      ensures Core() && tasks == old(tasks)[id := t]
      ensures forall y :: RtQueued(tasks, rtQueues, y) <==> old(RtQueued(tasks, rtQueues, y))
    {
      hide FairOk, RtOk, RtQueued;
      TouchCore(id, t);
      StaysUnlinked(tasks, rtQueues, rtBitmap, id, t);
      tasks := tasks[id := t];
    }

    /** Charges the running task up to `now` and lets it run on. */
    method ChargeCurrent(id: nat, now: nat)
      requires Valid() && current == Some(id) && now <= clock
      modifies `tasks
      ensures Valid() && forall y :: RtQueued(tasks, rtQueues, y) <==> old(RtQueued(tasks, rtQueues, y))
      ensures TaskOk(old(tasks)[id]) && tasks == old(tasks)[id := AccountRuntime(old(tasks)[id], now, true)]
    {
      hide FairOk, RtOk, RtQueued, TaskOk, TreesOk;
      TasksOk(Snapshot(), id);
      Store(id, AccountRuntime(tasks[id], now, true));
    }

    /** The part of a priority change that concerns the task record itself. */
    method AssignPriority(id: nat, priority: int)
      requires Valid() && id in tasks && id !in Queue() && ValidPriority(priority)
      modifies `tasks, `virtualTime
      ensures Valid() && Queue() == old(Queue())
      ensures TaskOk(old(tasks)[id]) && old(virtualTime) <= virtualTime <= U64_MAX
      ensures tasks == old(tasks)[id := Reprioritized(baseSlice, old(tasks)[id], priority, current == Some(id), false,
              virtualTime)]
      ensures IsRtPriority(priority) || current != Some(id) ==> virtualTime == old(virtualTime)
      ensures !IsRtPriority(priority) && current == Some(id) ==>
                var f, t := old(Snapshot()), old(tasks)[id].(priority := priority);
                f.Queued() <= f.tasks.Keys && virtualTime == VirtualTimeAfter(f.(tasks := f.tasks[id := t]), current)
    {
      hide FairOk, RtOk, RtQueued, VirtualTimeAfter, TreesOk, RefreshDeadline;
      TasksOk(Snapshot(), id);
      QueuedKeys(Snapshot());
      var t := tasks[id].(priority := priority);
      StoreWithPriority(id, t);
      if IsRtPriority(priority) {
        Store(id, t.(hasSavedLag := false, rtRemaining := if t.rtPolicy.RoundRobin? then RT_TIME_SLICE_NS
          else t.rtRemaining));
      } else if current == Some(id) {
        var v := UpdateVirtualTime();
        Store(id, RefreshDeadline(baseSlice, t.(vruntime := v), true));
      }
    }

    /** Before a priority change: charges the running task, or saves the lag of any other and unlinks it. */
    method Withdraw(id: nat, now: nat) returns (queued: bool)
      requires Valid() && id in tasks && now <= clock
      modifies `tasks, `virtualTime, `rtQueues, `rtBitmap, `eligible, `ineligible, `bound, `taskCount, `totalWeight,
               `weightedVruntime, `cache
      ensures Valid() && queued == (id in old(Queue())) && taskCount <= old(taskCount)
      ensures virtualTime >= old(virtualTime)
      ensures queued ==> current != Some(id)
      ensures Queue() == old(Queue()) - {id}
      ensures tasks == old(tasks)[id := old(Withdrawn(baseSlice, Snapshot(), current, id, now))]
      ensures eligible + ineligible == old(eligible + ineligible) - {id} && Requeues(old(rtQueues), rtQueues, id, None)
      ensures current != Some(id) ==> virtualTime == old(VirtualTimeAfter(Snapshot(), current))
      ensures current == Some(id) ==> virtualTime == old(ChargedTime(Snapshot(), id, Withdrawn(baseSlice, Snapshot(),
                                                                                               current, id, now)))
    {
      hide FairOk, RtOk, RtQueued, VirtualTimeAfter, TaskOk, SaveLag, AccountRuntime, Requeues;
      if current == Some(id) {
        var wasRt := tasks[id].IsRt();
        ChargeCurrent(id, now);
        if !wasRt {
          var _ := UpdateVirtualTime();
        }
        RtUnlinked(tasks, rtQueues, rtBitmap, id);
        return false;
      } else {
        SaveLagOf(id);
        queued := RemoveQueued(id);
      }
    }

    /** A priority change of `id`, seen from the state before it: the record of the task, every other record, and
        the place of the task in the real-time queues. */
    ghost predicate Reprioritizes(f: Fair, queues: seq<seq<nat>>, queued: bool, id: nat, priority: int, now: nat)
      requires 0 < baseSlice <= U64_MAX && now <= U64_MAX && TreesOk(f) && id in f.tasks && ValidPriority(priority)
      requires current.Some? ==> current.value in f.tasks
      requires virtualTime <= U64_MAX
      reads this
    {
      var t := Withdrawn(baseSlice, f, current, id, now);
      var v := if current == Some(id) then virtualTime else TimeWithout(f, current, id, t.(priority := priority));
      var u := Reprioritized(baseSlice, t, priority, current == Some(id), queued, v);
      && (current == Some(id) ==> virtualTime == TimeAtChange(f, id, t, priority))
      && tasks == f.tasks[id := if queued && !u.IsRt() then u.(queueId := sequence) else u]
      && Requeues(queues, rtQueues, id, if queued && u.IsRt() then Some(priority) else None)
    }

    method ChangePriority(id: nat, priority: int, now: nat)
      requires Valid() && id in tasks && now <= clock && taskCount + 1 < MAX_QUEUED && ValidPriority(priority)
      modifies this
      ensures Valid() && current == old(current)
      ensures Reprioritizes(old(Snapshot()), old(rtQueues), old(id in Queue()), id, priority, now)
      ensures virtualTime >= old(virtualTime) && clock == old(clock)
      ensures Queue() == old(Queue())
    {
      hide Valid, Queue, TreesOk, TaskOk, VirtualTimeAfter, Withdrawn, Place,
           Reprioritized, TimeWithout, TimeAtChange, ChargedTime, Requeues;
      ghost var f, queues := Snapshot(), rtQueues;
      ValidTask(id);
      var queued := Withdraw(id, now);
      ghost var middle, g := rtQueues, Snapshot();
      AssignPriority(id, priority);
      if current == Some(id) {
        ChangeTime(f, g, id, priority);
      }
      if current != Some(id) {
        ghost var t := Withdrawn(baseSlice, f, current, id, now);
        PriorityOk(t, priority);
        ReprioritizedInSteps(baseSlice, t, priority, virtualTime,
                             TimeWithout(f, current, id, t.(priority := priority)));
      }
      if queued {
        g := Snapshot();
        RequeueMigrated(id, now);
        if IsRtPriority(priority) {
          RequeuesAtTail(queues, middle, id, priority);
        } else {
          WithoutTime(f, g, current, id);
        }
      }
    }

    /** Changes a priority; a queued task is requeued under the new one, a running task keeps running. */
    method SetPriority(id: nat, priority: int, now: nat) returns (ok: bool)
      requires Valid() && id in tasks && now <= U64_MAX && taskCount + 1 < MAX_QUEUED
      modifies this
      ensures Valid() && ok == ValidPriority(priority) && current == old(current)
      ensures !ok ==> Snapshot() == old(Snapshot()) && rtQueues == old(rtQueues) && clock == old(clock)
      ensures ok ==> Reprioritizes(old(Snapshot()), old(rtQueues), old(id in Queue()), id, priority, now)
      ensures virtualTime >= old(virtualTime)
      ensures ok ==> clock == Max(old(clock), now)
      ensures Queue() == old(Queue())
    {
      hide FairOk, RtOk, RtQueued;
      if !ValidPriority(priority) {
        return false;
      }
      AdvanceClock(now);
      ChangePriority(id, priority, now);
      return true;
    }

    method RequeueMigrated(id: nat, now: nat)
      requires Valid() && id in tasks && id !in Queue() && now <= clock && current != Some(id)
      requires taskCount + 1 < MAX_QUEUED
      modifies this
      ensures Valid() && current == old(current) && IsQueued(id)
      ensures old(TaskOk(tasks[id]) && Snapshot().Queued() <= tasks.Keys)
      ensures var v := old(VirtualTimeAfter(Snapshot(), current)); 0 <= v <= U64_MAX
      ensures !old(tasks)[id].IsRt() ==>
                var v := old(VirtualTimeAfter(Snapshot(), current));
                && tasks == old(tasks)[id := Place(baseSlice, old(tasks)[id], Migration, v).(queueId := sequence)]
                && rtQueues == old(rtQueues)
      ensures old(tasks)[id].IsRt() ==>
                var t, q, index := old(tasks)[id], old(rtQueues), 99 - old(tasks)[id].priority;
                && tasks == old(tasks)[id := if t.rtPolicy.RoundRobin? then t.(rtRemaining := RT_TIME_SLICE_NS) else t]
                && |q| == 99 && rtQueues == q[index := q[index] + [id]]
      ensures virtualTime >= old(virtualTime) && clock == old(clock)
      ensures Queue() == old(Queue()) + {id}
    {
      hide FairOk, RtOk, EnqueuedTask, Place, VirtualTimeAfter, Entering, EntersAs;
      TasksOk(Snapshot(), id);
      EnqueuedPlaced(baseSlice, Snapshot(), current, id, Migration, now);
      EnqueueAt(id, Migration, now);
    }

    /** Starts a detached task. */
    method OnTaskStart(id: nat, now: nat)
      requires Valid() && id in tasks && !IsQueued(id) && current == None && now <= U64_MAX
      modifies `clock, `tasks, `current, `virtualTime
      ensures Valid() && current == Some(id)
      ensures forall y :: RtQueued(tasks, rtQueues, y) <==> old(RtQueued(tasks, rtQueues, y))
      ensures virtualTime >= old(virtualTime)
      ensures clock == Max(old(clock), now)
      ensures tasks[id].running && tasks[id].execStart == now && tasks[id].priority == old(tasks)[id].priority
      ensures tasks.Keys == old(tasks).Keys && forall y :: y in tasks && y != id ==> tasks[y] == old(tasks)[y]
      ensures TaskOk(old(tasks)[id]) && virtualTime <= U64_MAX
      ensures virtualTime == old(if NeedsRequest(tasks[id]) then VirtualTimeAfter(Snapshot(), current) else virtualTime)
      ensures tasks == old(tasks)[id := Started(baseSlice, old(tasks)[id], virtualTime, now)]
      ensures old(tasks)[id].IsRt() || old(tasks)[id].deadline > 0 ==>
                tasks[id] == old(tasks)[id].(execStart := now, running := true)
      ensures !old(tasks)[id].IsRt() && old(tasks)[id].deadline == 0 ==>
                && tasks[id].vruntime == virtualTime
                && tasks[id].deadline == Min(virtualTime + RequestLength(baseSlice, tasks[id].priority), U64_MAX)
    {
      hide FairOk, RtOk, RtQueued, VirtualTimeAfter, TreesOk, RequestLength;
      TasksOk(Snapshot(), id);
      ghost var t := tasks[id];
      AdvanceClock(now);
      if NeedsRequest(tasks[id]) {
        var v := UpdateVirtualTime();
        Store(id, RefreshDeadline(baseSlice, tasks[id].(vruntime := v), true));
      }
      Store(id, tasks[id].(execStart := now, running := true));
      current := Some(id);
      StartedMeans(baseSlice, t, virtualTime, now);
    }

    /** Ends the execution of `task`. */
    method OnTaskStop(id: nat, now: nat)
      requires Valid() && id in tasks && now <= U64_MAX
      modifies `clock, `tasks, `current, `virtualTime
      ensures Valid() && current != Some(id)
      ensures forall y :: RtQueued(tasks, rtQueues, y) <==> old(RtQueued(tasks, rtQueues, y))
      ensures virtualTime >= old(virtualTime)
      ensures clock == Max(old(clock), now)
      ensures old(current) == Some(id) ==>
                var after := old(Stopped(baseSlice, Snapshot(), id, now));
                tasks == old(tasks)[id := after.0] && virtualTime == after.1 && current == None
      ensures old(current) != Some(id) ==>
                tasks == old(tasks) && current == old(current) && virtualTime == old(virtualTime)
      ensures old(current) == Some(id) ==> StopsAs(baseSlice, old(tasks)[id], now, virtualTime, tasks[id])
    {
      hide FairOk, RtOk, RtQueued, Stopped, StopsAs;
      AdvanceClock(now);
      StopTask(id, now);
    }

    /** The fair half of a tick: expiry of the request, or an earlier eligible deadline in the queue. */
    method TickNormal(id: nat) returns (r: bool)
      requires Valid() && current == Some(id) && !tasks[id].IsRt()
      modifies `tasks, `eligible, `ineligible, `bound, `cache, `virtualTime
      ensures Valid() && Queue() == old(Queue())
      ensures virtualTime >= old(virtualTime)
      ensures eligible + ineligible == old(eligible + ineligible)
      ensures TaskOk(old(tasks)[id])
      ensures tasks == old(tasks)[id := Renewed(baseSlice, old(tasks)[id], r, rtBitmap != {})]
      ensures old(Snapshot().Queued() <= tasks.Keys)
      ensures r <==> rtBitmap != {} || (taskCount != 0 &&
                       (|| old(tasks)[id].vruntime >= old(tasks)[id].deadline
                        || old(EligibleAt(Snapshot(), VirtualTimeAfter(Snapshot(), current), tasks[id].deadline))))
    {
      hide FairOk, RtOk, RtQueued, VirtualTimeAfter, TreesOk, TaskOk, RefreshDeadline;
      TasksOk(Snapshot(), id);
      QueuedKeys(Snapshot());
      if rtBitmap != {} {
        return true;
      }
      if taskCount == 0 {
        RefreshKeepsOrForces(baseSlice, tasks[id]);
        Store(id, RefreshDeadline(baseSlice, tasks[id], false));
        return false;
      }
      var deadline := tasks[id].deadline;
      if tasks[id].vruntime >= deadline {
        Store(id, RefreshDeadline(baseSlice, tasks[id], true));
        return true;
      }
      ghost var f := Snapshot();
      r := HasEligiblePreemption(deadline);
      EligibleSame(f, Snapshot(), deadline);
    }

    /** The real-time half of a tick. */
    method TickRt(id: nat) returns (r: bool)
      requires Valid() && current == Some(id) && tasks[id].IsRt()
      modifies `tasks
      ensures Valid() && Queue() == old(Queue())
      ensures TaskOk(old(tasks)[id])
      ensures tasks == old(tasks)[id := Renewed(baseSlice, old(tasks)[id], r, rtBitmap != {})]
      ensures var t := old(tasks)[id];
              r <==> HigherReady(rtBitmap, t.priority) ||
                     (t.rtPolicy.RoundRobin? && LevelReady(rtBitmap, t.priority) && t.rtRemaining == 0)
    {
      hide FairOk, RtOk, RtQueued, TreesOk, TaskOk;
      TasksOk(Snapshot(), id);
      var t := tasks[id];
      if rtBitmap != {} {
        LowestExists(rtBitmap);
        var index :| index in rtBitmap && IsLowest(rtBitmap, index);
        HighestReady(rtBitmap, index, t.priority);
        if 99 - index > t.priority {
          return true;
        }
        if t.rtPolicy.RoundRobin? && 99 - index == t.priority && t.rtRemaining == 0 {
          return true;
        }
      }
      if t.rtPolicy.RoundRobin? && t.rtRemaining == 0 {
        ResetSliceOk(Snapshot(), id);
        Store(id, t.(rtRemaining := RT_TIME_SLICE_NS));
      }
      return false;
    }

    /** What a tick does once the task is charged. */
    method TickCharged(id: nat) returns (r: bool)
      requires Valid() && current == Some(id)
      modifies `tasks, `eligible, `ineligible, `bound, `cache, `virtualTime
      ensures Valid() && Queue() == old(Queue())
      ensures virtualTime >= old(virtualTime)
      ensures TaskOk(old(tasks)[id])
      ensures tasks == old(tasks)[id := Renewed(baseSlice, old(tasks)[id], r, rtBitmap != {})]
      ensures old(Snapshot().Queued() <= tasks.Keys) && (r <==> old(ReschedNow(Snapshot(), rtBitmap, id)))
    {
      hide FairOk, RtOk, RtQueued, TreesOk, TaskOk, HigherReady, LevelReady, EligibleAt, VirtualTimeAfter,
           RefreshDeadline;
      QueuedKeys(Snapshot());
      if tasks[id].IsRt() {
        r := TickRt(id);
      } else {
        r := TickNormal(id);
      }
    }

    /** Advances to `now` and reports whether the running task must give way. */
    method TickAt(id: nat, now: nat) returns (r: bool)
      requires Valid() && id in tasks && now <= U64_MAX
      requires current == Some(id) || (current == None && !IsQueued(id))
      modifies this
      ensures Valid() && current == Some(id) && clock == Max(old(clock), now)
      ensures virtualTime >= old(virtualTime)
      ensures Queue() == old(Queue()) && rtQueues == old(rtQueues) && rtBitmap == old(rtBitmap)
      ensures taskCount == old(taskCount)
      ensures old(TaskOk(tasks[id]) && Snapshot().Queued() <= tasks.Keys)
      ensures var t := Charged(old(tasks)[id], old(current) == Some(id), now);
              tasks == old(tasks)[id := Renewed(baseSlice, t, r, rtBitmap != {})]
      ensures TicksTo(baseSlice, old(tasks)[id], old(current) == Some(id), now, r, rtBitmap != {}, tasks[id])
      ensures r <==> old(ReschedWanted(Snapshot(), rtBitmap, id, now))
      ensures old(PreemptionDeadline(Snapshot(), rtBitmap, id, now)).None? ==>
                !r && forall later :: PreemptionDeadline(Snapshot(), rtBitmap, id, later).None?
    {
      hide FairOk, RtOk, RtQueued, TreesOk, TaskOk, ReschedNow, PreemptionDeadline, AccountRuntime, TicksTo;
      ghost var f := Snapshot();
      TasksOk(f, id);
      QueuedKeys(f);
      AdvanceClock(now);
      if current != Some(id) {
        r := TickFresh(id, now);
      } else if tasks[id].IsRt() && tasks[id].rtPolicy.Fifo? {
        r := TickFifo(id, now);
      } else {
        ChargeCurrent(id, now);
        r := TickCharged(id);
      }
      RenewedTicks(baseSlice, f.tasks[id], old(current) == Some(id), now, r, rtBitmap != {});
      if PreemptionDeadline(f, rtBitmap, id, now).None? {
        NoTimerNoTick(f, rtBitmap, id, now, now);
        forall later
          ensures PreemptionDeadline(Snapshot(), rtBitmap, id, later).None?
        {
          NoTimerPersists(f, Snapshot(), rtBitmap, id, now, later);
        }
      }
    }

    /** A tick for a task the scheduler did not know to be running. */
    method TickFresh(id: nat, now: nat) returns (r: bool)
      requires Valid() && id in tasks && now <= clock && current == None && !IsQueued(id)
      modifies `tasks, `current, `eligible, `ineligible, `bound, `cache, `virtualTime
      ensures Valid() && current == Some(id) && Queue() == old(Queue())
      ensures virtualTime >= old(virtualTime)
      ensures old(TaskOk(tasks[id]) && Snapshot().Queued() <= tasks.Keys)
      ensures tasks == old(tasks)[id := Renewed(baseSlice, Charged(old(tasks)[id], false, now), r, rtBitmap != {})]
      ensures r <==> old(ReschedWanted(Snapshot(), rtBitmap, id, now))
    {
      hide FairOk, RtOk, RtQueued, TreesOk, ReschedNow;
      ghost var f := Snapshot();
      TasksOk(f, id);
      QueuedKeys(f);
      var t := tasks[id].(execStart := now, running := true);
      Store(id, t);
      current := Some(id);
      StartKeepsRule(f, rtBitmap, id, t);
      assert f.tasks[id := AccountRuntime(f.tasks[id], now, true)] == f.tasks;
      r := TickCharged(id);
    }

    /** A running FIFO task is not charged; only a higher priority takes the CPU from it. */
    method TickFifo(id: nat, now: nat) returns (r: bool)
      requires Valid() && now <= clock && current == Some(id) && tasks[id].IsRt() && tasks[id].rtPolicy.Fifo?
      ensures TaskOk(tasks[id]) && Snapshot().Queued() <= tasks.Keys
      ensures r <==> ReschedWanted(Snapshot(), rtBitmap, id, now)
    {
      TasksOk(Snapshot(), id);
      QueuedKeys(Snapshot());
      hide FairOk, RtOk, RtQueued, TreesOk, VirtualTimeAfter, EligibleAt;
      if rtBitmap == {} {
        return false;
      }
      LowestExists(rtBitmap);
      var index :| index in rtBitmap && IsLowest(rtBitmap, index);
      HighestReady(rtBitmap, index, tasks[id].priority);
      return 99 - index > tasks[id].priority;
    }

    /** The time of the next forced reschedule, computed without changing the scheduler. */
    method NextPreemption(id: nat, now: nat) returns (r: Option<nat>)
      requires Valid() && id in tasks
      ensures r == PreemptionDeadline(Snapshot(), rtBitmap, id, now)
    {
      hide FairOk, RtOk, RtQueued, HigherReady, LevelReady, CeilDiv, CalcDeltaFair, Weight;
      var t := tasks[id];
      if t.IsRt() {
        if rtBitmap == {} {
          return None;
        }
        LowestExists(rtBitmap);
        var index :| index in rtBitmap && IsLowest(rtBitmap, index);
        HighestReady(rtBitmap, index, t.priority);
        if 99 - index > t.priority {
          return Some(SaturatingAdd(now, 0, U64_MAX));
        }
        if 99 - index < t.priority || t.rtPolicy.Fifo? {
          return None;
        }
        var remaining := SaturatingSub(t.rtRemaining, UnaccountedRuntime(t, now));
        return Some(SaturatingAdd(now, Min(remaining, U64_MAX), U64_MAX));
      }
      if rtBitmap != {} {
        return Some(SaturatingAdd(now, 0, U64_MAX));
      }
      if taskCount == 0 {
        return None;
      }
      var weight := Weight(t.priority);
      var vruntime := SaturatingAdd(t.vruntime, CalcDeltaFair(UnaccountedRuntime(t, now), weight), U64_MAX);
      var wait := CeilDiv(SaturatingSub(t.deadline, vruntime) * weight, NICE_0_WEIGHT);
      return Some(SaturatingAdd(now, Min(wait, U64_MAX), U64_MAX));
    }

    // ----- Runs

    /** One call, made only where the caller discipline allows it. */
    method Perform(op: Operation)
      requires Valid()
      modifies this
      ensures Valid() && virtualTime >= old(virtualTime) && clock >= old(clock)
    {
      hide Valid, IsQueued, Queue, TaskOk, Reprioritizes, Requeues, Withdrawn, Stopped, EnqueuedTask, VirtualTimeAfter,
           ReschedWanted, PreemptionDeadline, BestNormal, SaveLag;
      match op
      case Adopts(id, t) =>
        if id !in tasks && TaskOk(t) && !t.running { Adopt(id, t); }
      case Enqueues(id, reason, now) =>
        if id in tasks && !IsQueued(id) && now <= U64_MAX && taskCount + 1 < MAX_QUEUED
           && (reason.Spawn? && !tasks[id].IsRt() ==> current != Some(id)) {
          EnqueueAt(id, reason, now);
        }
      case Removes(id) =>
        if id in tasks { var _ := Remove(id); }
      case Detaches(accepts) =>
        var _ := DetachNormalTask(accepts);
      case Picks(now) =>
        if now <= U64_MAX { var _ := PickAt(now); }
      case Starts(id, now) =>
        if id in tasks && !IsQueued(id) && current == None && now <= U64_MAX { OnTaskStart(id, now); }
      case Stops(id, now) =>
        if id in tasks && now <= U64_MAX { OnTaskStop(id, now); }
      case Ticks(id, now) =>
        if id in tasks && now <= U64_MAX && (current == Some(id) || (current == None && !IsQueued(id))) {
          var _ := TickAt(id, now);
        }
      case SetsPriority(id, priority, now) =>
        if id in tasks && now <= U64_MAX && taskCount + 1 < MAX_QUEUED { var _ := SetPriority(id, priority, now); }
    }

    /** Over every run of operations the queues stay what a scan computes and neither clock goes back. */
    method Run(operations: seq<Operation>)
      requires Valid()
      modifies this
      ensures Valid() && virtualTime >= old(virtualTime) && clock >= old(clock)
    {
      hide *;
      for i := 0 to |operations|
        invariant Valid() && virtualTime >= old(virtualTime) && clock >= old(clock)
      {
        Perform(operations[i]);
      }
    }
  }
}
