/** The lock table under concurrency: `set_lock`, `unlock_lock` and the release calls as interleaved steps.

    A step is one critical section of a shard lock, or one action on a wait queue. The entry
    vectors change as the methods of `RecordLockState` are proved to change them. A wait queue is
    a number; creating a state allocates the next one. `wait_until` evaluates its predicate and
    goes to sleep while it holds the queue's own lock, so `notify_all` on that queue waits for it,
    but the table may change in between.
 */
module RecordLockProtocol {
  import opened Options
  import opened RecordLock

  const SHARDS: nat := 32

  datatype Target = Location(fsId: nat, inode: nat) | FdObject(address: nat)

  datatype Request = Request(owner: Owner, start: int, end: int, lockType: LockType)

  datatype Slot = Slot(entries: seq<Entry>, queue: nat, waiters: nat)

  /** Where a thread is. */
  datatype Pc =
    | Idle
    | Attempt(target: Target, req: Request, blocking: bool)     // top of the `set_lock` loop
    | Registered(target: Target, req: Request, queue: nat)      // counted, about to run the predicate
    | Checked(target: Target, req: Request, queue: nat)         // predicate false, queue lock held
    | Asleep(target: Target, req: Request, queue: nat)
    | Finishing(target: Target, req: Request, again: bool)      // about to run `finish_wait`
    | Notifying(queues: seq<nat>)
    | Releasing(owner: Owner, shard: nat, queues: seq<nat>)     // `release_owner`, shard by shard

  datatype State = State(table: map<Target, Slot>, threads: map<nat, Pc>, nextQueue: nat)

  predicate HasConflict(entries: seq<Entry>, req: Request) {
    Conflict(entries, req.owner, req.start, req.end, req.lockType).Some?
  }

  predicate Parked(pc: Pc) {
    pc.Checked? || pc.Asleep?
  }

  predicate Waiting(pc: Pc) {
    pc.Registered? || pc.Checked? || pc.Asleep? || pc.Finishing?
  }

  predicate WaitsOn(pc: Pc, t: Target) {
    Waiting(pc) && pc.target == t
  }

  ghost function Waiters(threads: map<nat, Pc>, t: Target): set<nat> {
    set i | i in threads && WaitsOn(threads[i], t)
  }

  function Pending(pc: Pc): seq<nat> {
    match pc
    case Notifying(queues) => queues
    case Releasing(_, _, queues) => queues
    case _ => []
  }

  ghost predicate NotifyPending(threads: map<nat, Pc>, q: nat) {
    exists i :: i in threads && q in Pending(threads[i])
  }

  predicate QueueLocked(threads: map<nat, Pc>, q: nat) {
    exists i :: i in threads && threads[i].Checked? && threads[i].queue == q
  }

  // ----- Steps

  function SlotOf(s: State, t: Target): Slot {
    if t in s.table then s.table[t] else Slot([], s.nextQueue, 0)
  }

  /** A slot without locks and without waiters is dropped. */
  function StoreOrDrop(table: map<Target, Slot>, t: Target, slot: Slot): map<Target, Slot> {
    if slot.entries == [] && slot.waiters == 0 then table - {t} else table[t := slot]
  }

  ghost predicate Updates(s: State, s': State, i: nat, pc: Pc, t: Target, slot: Slot) {
    && s'.table == StoreOrDrop(s.table, t, slot)
    && s'.threads == s.threads[i := pc]
    && s'.nextQueue == if t in s.table then s.nextQueue else s.nextQueue + 1
  }

  ghost predicate Moves(s: State, s': State, i: nat, pc: Pc) {
    s' == s.(threads := s.threads[i := pc])
  }

  /** What `RecordLockState.ClearOwnerRange` does to a vector. */
  ghost predicate Clears(a: seq<Entry>, b: seq<Entry>, owner: Owner, start: int, end: int, changed: bool) {
    && Canonical(multiset(b)) && Rewrites(multiset(a), multiset(b), owner, start, end, None)
    && (changed <==> exists e :: e in a && Affected(e, owner, start, end))
    && (!changed ==> a == b)
  }

  /** The critical section at the top of the `set_lock` loop. */
  ghost predicate TryLock(s: State, s': State, i: nat)
    requires i in s.threads
  {
    var pc := s.threads[i];
    pc.Attempt? &&
    var slot := SlotOf(s, pc.target);
    var req := pc.req;
    if !HasConflict(slot.entries, req) then
      exists entries ::
        && Canonical(multiset(entries))
        && Rewrites(multiset(slot.entries), multiset(entries), req.owner, req.start, req.end, Some(req.lockType))
        && Updates(s, s', i, Notifying([slot.queue]), pc.target, slot.(entries := entries))
    else if !pc.blocking then
      Updates(s, s', i, Idle, pc.target, slot)
    else
      Updates(s, s', i, Registered(pc.target, req, slot.queue), pc.target, slot.(waiters := slot.waiters + 1))
  }

  /** One evaluation of the `wait_until` predicate, or the exit on a pending signal. Whether a thread that leaves tries
      again is free: the signal it left on may be gone by then. */
  ghost predicate Check(s: State, s': State, i: nat)
    requires i in s.threads
  {
    var pc := s.threads[i];
    pc.Registered? &&
    (|| (exists again :: Moves(s, s', i, Finishing(pc.target, pc.req, again)))
     || (&& !QueueLocked(s.threads, pc.queue)
         && pc.target in s.table && HasConflict(s.table[pc.target].entries, pc.req)
         && Moves(s, s', i, Checked(pc.target, pc.req, pc.queue))))
  }

  ghost predicate Sleep(s: State, s': State, i: nat)
    requires i in s.threads
  {
    var pc := s.threads[i];
    pc.Checked? && Moves(s, s', i, Asleep(pc.target, pc.req, pc.queue))
  }

  /** A wake-up that is not a notify: a signal. */
  ghost predicate Interrupt(s: State, s': State, i: nat)
    requires i in s.threads
  {
    var pc := s.threads[i];
    pc.Asleep? && Moves(s, s', i, Registered(pc.target, pc.req, pc.queue))
  }

  ghost predicate FinishWait(s: State, s': State, i: nat)
    requires i in s.threads
  {
    var pc := s.threads[i];
    pc.Finishing? &&
    var next := if pc.again then Attempt(pc.target, pc.req, true) else Idle;
    if pc.target !in s.table then Moves(s, s', i, next)
    else
      var slot := s.table[pc.target];
      Updates(s, s', i, next, pc.target, slot.(waiters := if slot.waiters > 0 then slot.waiters - 1 else 0))
  }

  ghost predicate Begin(s: State, s': State, i: nat)
    requires i in s.threads
  {
    s.threads[i].Idle? &&
    (|| (exists t, req: Request, blocking ::
          ValidRange(req.start, req.end) && Moves(s, s', i, Attempt(t, req, blocking)))
     || (exists owner :: Moves(s, s', i, Releasing(owner, 0, []))))
  }

  ghost predicate Unlock(s: State, s': State, i: nat)
    requires i in s.threads
  {
    s.threads[i].Idle? &&
    exists t, owner, start, end, entries, changed ::
      && ValidRange(start, end) && t in s.table
      && Clears(s.table[t].entries, entries, owner, start, end, changed)
      && Updates(s, s', i, if changed then Notifying([s.table[t].queue]) else Idle, t,
                 s.table[t].(entries := entries))
  }

  ghost predicate ReleaseTarget(s: State, s': State, i: nat)
    requires i in s.threads
  {
    s.threads[i].Idle? &&
    exists t, owner ::
      && t in s.table
      && var entries := Retain(s.table[t].entries, owner);
         var changed := |entries| != |s.table[t].entries|;
         Updates(s, s', i, if changed then Notifying([s.table[t].queue]) else Idle, t,
                 s.table[t].(entries := entries))
  }

  function Released(slot: Slot, owner: Owner): Slot {
    slot.(entries := Retain(slot.entries, owner))
  }

  /** `RecordLockState.ReleaseOwner` reports a change exactly when the vector gets shorter. */
  predicate Frees(slot: Slot, owner: Owner) {
    |Retain(slot.entries, owner)| != |slot.entries|
  }

  /** One shard of `release_owner`: drop the owner everywhere, collect the queues, then purge the shard. */
  ghost predicate ReleaseFinding(shardOf: Target -> nat, s: State, s': State, i: nat, found: seq<nat>)
    requires i in s.threads
  {
    var pc := s.threads[i];
    && pc.Releasing? && pc.shard < SHARDS
    && s'.nextQueue == s.nextQueue
    && s'.threads == s.threads[i := Releasing(pc.owner, pc.shard + 1, pc.queues + found)]
    && (forall t :: t in s'.table ==> t in s.table)
    && (forall t :: t in s.table && shardOf(t) != pc.shard ==> t in s'.table && s'.table[t] == s.table[t])
    && (forall t :: t in s.table && shardOf(t) == pc.shard ==>
          var slot := Released(s.table[t], pc.owner);
          if slot.entries != [] || slot.waiters != 0 then t in s'.table && s'.table[t] == slot else t !in s'.table)
    && (forall t :: t in s.table && shardOf(t) == pc.shard && Frees(s.table[t], pc.owner) ==> s.table[t].queue in found)
  }

  ghost predicate ReleaseShard(shardOf: Target -> nat, s: State, s': State, i: nat)
    requires i in s.threads
  {
    exists found :: ReleaseFinding(shardOf, s, s', i, found)
  }

  ghost predicate ReleaseDone(s: State, s': State, i: nat)
    requires i in s.threads
  {
    var pc := s.threads[i];
    pc.Releasing? && pc.shard == SHARDS && Moves(s, s', i, Notifying(pc.queues))
  }

  function Woken(pc: Pc, q: nat): Pc {
    if pc.Asleep? && pc.queue == q then Registered(pc.target, pc.req, pc.queue) else pc
  }

  /** `notify_all` on the first pending queue; it takes the queue lock. */
  ghost predicate Notify(s: State, s': State, i: nat)
    requires i in s.threads
  {
    var pc := s.threads[i];
    pc.Notifying? &&
    if pc.queues == [] then Moves(s, s', i, Idle)
    else
      && !QueueLocked(s.threads, pc.queues[0])
      && s' == s.(threads := (map j | j in s.threads ::
                                if j == i then Notifying(pc.queues[1..]) else Woken(s.threads[j], pc.queues[0])))
  }

  ghost predicate Next(shardOf: Target -> nat, s: State, s': State) {
    exists i :: i in s.threads &&
      (|| Begin(s, s', i) || TryLock(s, s', i) || Check(s, s', i) || Sleep(s, s', i) || Interrupt(s, s', i)
       || FinishWait(s, s', i) || Unlock(s, s', i) || ReleaseTarget(s, s', i)
       || ReleaseShard(shardOf, s, s', i) || ReleaseDone(s, s', i) || Notify(s, s', i))
  }

  ghost predicate Init(s: State) {
    s.table == map[] && forall i :: i in s.threads ==> s.threads[i] == Idle
  }

  ghost predicate IsRun(shardOf: Target -> nat, run: seq<State>) {
    && run != [] && Init(run[0])
    && forall k :: 0 <= k < |run| - 1 ==> Next(shardOf, run[k], run[k + 1])
  }

  // ----- The invariant

  /** A table entry has locks or waiters, its count is exact and its vector is canonical. */
  ghost predicate SlotOk(s: State, t: Target) {
    t in s.table ==>
      && Canonical(multiset(s.table[t].entries))
      && (s.table[t].entries != [] || s.table[t].waiters > 0)
      && s.table[t].waiters == |Waiters(s.threads, t)|
  }

  /** A counted thread's target is in the table under the queue it uses; a parked one will be woken. */
  ghost predicate ThreadOk(s: State, i: nat) {
    i in s.threads ==>
      var pc := s.threads[i];
      && (pc.Attempt? || pc.Registered? || Parked(pc) || pc.Finishing? ==> ValidRange(pc.req.start, pc.req.end))
      && (pc.Registered? || Parked(pc) || pc.Finishing? ==> pc.target in s.table)
      && (pc.Registered? || Parked(pc) ==> s.table[pc.target].queue == pc.queue)
      && (Parked(pc) ==> HasConflict(s.table[pc.target].entries, pc.req) || NotifyPending(s.threads, pc.queue))
  }

  ghost predicate Inv(s: State) {
    && (forall t :: SlotOk(s, t))
    && (forall i :: ThreadOk(s, i))
    && (forall t :: t in s.table ==> s.table[t].queue < s.nextQueue)
  }

  lemma InitInv(s: State)
    requires Init(s)
    ensures Inv(s)
  {}

  // ----- Preservation

  lemma WaitersAfter(threads: map<nat, Pc>, i: nat, pc: Pc, t: Target)
    requires i in threads
    ensures Waiters(threads[i := pc], t) ==
            if WaitsOn(pc, t) then Waiters(threads, t) + {i} else Waiters(threads, t) - {i}
  {}

  lemma PendingAfter(threads: map<nat, Pc>, i: nat, pc: Pc, q: nat)
    requires i in threads && NotifyPending(threads, q) && (q in Pending(threads[i]) ==> q in Pending(pc))
    ensures NotifyPending(threads[i := pc], q)
  {
    var j :| j in threads && q in Pending(threads[j]);
    assert j in threads[i := pc] && q in Pending(threads[i := pc][j]);
  }

  /** Steps that touch one slot: it keeps its queue, counts its waiters, and announces any change. */
  lemma UpdateKeepsInv(s: State, s': State, i: nat, pc: Pc, t: Target, slot: Slot)
    requires Inv(s) && i in s.threads && Updates(s, s', i, pc, t, slot)
    requires slot.queue == SlotOf(s, t).queue
    requires Canonical(multiset(slot.entries))
    requires slot.waiters == |Waiters(s.threads[i := pc], t)|
    requires forall u :: u != t ==> !WaitsOn(s.threads[i], u) && !WaitsOn(pc, u)
    requires Pending(s.threads[i]) == []
    requires slot.entries == SlotOf(s, t).entries || slot.queue in Pending(pc)
    requires ThreadOk(s', i)
    ensures Inv(s')
  {
    assert i in s'.threads && s'.threads[i] == pc;
    forall u
      ensures SlotOk(s', u)
    {
      assert SlotOk(s, u);
      if u != t { WaitersAfter(s.threads, i, pc, u); }
    }
    forall j
      ensures ThreadOk(s', j)
    {
      if j != i && j in s.threads {
        OtherThreadOk(s, s', i, pc, t, slot, j);
      }
    }
  }

  lemma OtherThreadOk(s: State, s': State, i: nat, pc: Pc, t: Target, slot: Slot, j: nat)
    requires Inv(s) && i in s.threads && Updates(s, s', i, pc, t, slot)
    requires slot.queue == SlotOf(s, t).queue
    requires slot.waiters == |Waiters(s.threads[i := pc], t)|
    requires Pending(s.threads[i]) == []
    requires slot.entries == SlotOf(s, t).entries || slot.queue in Pending(pc)
    requires j != i && j in s.threads
    ensures ThreadOk(s', j)
  {
    assert ThreadOk(s, j);
    var pj := s.threads[j];
    assert s'.threads[j] == pj;
    if WaitsOn(pj, t) {
      assert j in Waiters(s.threads[i := pc], t);
      assert t in s'.table && s'.table[t] == slot;
    }
    if Parked(pj) {
      if NotifyPending(s.threads, pj.queue) {
        PendingAfter(s.threads, i, pc, pj.queue);
      } else if pj.target == t && slot.entries != SlotOf(s, t).entries {
        assert i in s'.threads && pj.queue in Pending(s'.threads[i]);
      }
    }
  }

  /** Steps that only move one thread. */
  lemma MoveKeepsInv(s: State, s': State, i: nat, pc: Pc)
    requires Inv(s) && i in s.threads && Moves(s, s', i, pc)
    requires forall t :: WaitsOn(s.threads[i], t) <==> WaitsOn(pc, t)
    requires Pending(pc) == Pending(s.threads[i])
    requires ThreadOk(s', i)
    ensures Inv(s')
  {
    forall t
      ensures SlotOk(s', t)
    {
      assert SlotOk(s, t);
      assert Waiters(s'.threads, t) == Waiters(s.threads, t);
    }
    forall j
      ensures ThreadOk(s', j)
    {
      if j != i && j in s.threads {
        assert ThreadOk(s, j);
        var pj := s.threads[j];
        if Parked(pj) && NotifyPending(s.threads, pj.queue) {
          PendingAfter(s.threads, i, pc, pj.queue);
        }
      }
    }
  }

  lemma NewTargetUnused(s: State, t: Target)
    requires Inv(s) && t !in s.table
    ensures Waiters(s.threads, t) == {}
  {
    forall j | j in s.threads
      ensures !WaitsOn(s.threads[j], t)
    {
      assert ThreadOk(s, j);
    }
  }

  /** The slot `set_lock` works on, found or just created, counts every thread waiting on its target. */
  lemma AttemptSlot(s: State, i: nat)
    requires Inv(s) && i in s.threads && s.threads[i].Attempt?
    ensures var slot, t := SlotOf(s, s.threads[i].target), s.threads[i].target;
            && slot.waiters == |Waiters(s.threads, t)| && i !in Waiters(s.threads, t)
            && Canonical(multiset(slot.entries)) && ValidRange(s.threads[i].req.start, s.threads[i].req.end)
  {
    var t := s.threads[i].target;
    assert SlotOk(s, t) && ThreadOk(s, i);
    if t !in s.table { NewTargetUnused(s, t); }
  }

  lemma AttemptKeepsInv(s: State, s': State, i: nat, next: Pc, entries: seq<Entry>, waiters: nat)
    requires Inv(s) && i in s.threads && s.threads[i].Attempt?
    requires var slot, t := SlotOf(s, s.threads[i].target), s.threads[i].target;
             && Updates(s, s', i, next, t, slot.(entries := entries, waiters := waiters))
             && Canonical(multiset(entries))
             && ((next == Notifying([slot.queue]) && waiters == slot.waiters)
                 || (next == Idle && waiters == slot.waiters && entries == slot.entries)
                 || (next == Registered(t, s.threads[i].req, slot.queue) && waiters == slot.waiters + 1
                     && entries == slot.entries))
    ensures Inv(s')
  {
    var t, slot := s.threads[i].target, SlotOf(s, s.threads[i].target);
    AttemptSlot(s, i);
    WaitersAfter(s.threads, i, next, t);
    hide Inv, Canonical, Waiters, NotifyPending;
    UpdateKeepsInv(s, s', i, next, t, slot.(entries := entries, waiters := waiters));
  }

  lemma TryLockKeepsInv(s: State, s': State, i: nat)
    requires Inv(s) && i in s.threads && TryLock(s, s', i)
    ensures Inv(s')
  {
    AttemptSlot(s, i);
    hide Inv, Canonical, Rewrites, Conflict, Updates;
    var pc := s.threads[i];
    var t, req, slot := pc.target, pc.req, SlotOf(s, pc.target);
    if !HasConflict(slot.entries, req) {
      var entries :| && Canonical(multiset(entries))
        && Rewrites(multiset(slot.entries), multiset(entries), req.owner, req.start, req.end, Some(req.lockType))
        && Updates(s, s', i, Notifying([slot.queue]), t, slot.(entries := entries));
      AttemptKeepsInv(s, s', i, Notifying([slot.queue]), entries, slot.waiters);
    } else if !pc.blocking {
      AttemptKeepsInv(s, s', i, Idle, slot.entries, slot.waiters);
    } else {
      AttemptKeepsInv(s, s', i, Registered(t, req, slot.queue), slot.entries, slot.waiters + 1);
    }
  }

  lemma CheckKeepsInv(s: State, s': State, i: nat)
    requires Inv(s) && i in s.threads && Check(s, s', i)
    ensures Inv(s')
  {
    var pc := s.threads[i];
    assert ThreadOk(s, i);
    if again :| Moves(s, s', i, Finishing(pc.target, pc.req, again)) {
      MoveKeepsInv(s, s', i, Finishing(pc.target, pc.req, again));
    } else {
      MoveKeepsInv(s, s', i, Checked(pc.target, pc.req, pc.queue));
    }
  }

  lemma SleepKeepsInv(s: State, s': State, i: nat)
    requires Inv(s) && i in s.threads && (Sleep(s, s', i) || Interrupt(s, s', i))
    ensures Inv(s')
  {
    var pc := s.threads[i];
    assert ThreadOk(s, i);
    var next := if pc.Checked? then Asleep(pc.target, pc.req, pc.queue) else Registered(pc.target, pc.req, pc.queue);
    if NotifyPending(s.threads, pc.queue) { PendingAfter(s.threads, i, next, pc.queue); }
    MoveKeepsInv(s, s', i, next);
  }

  lemma FinishWaitKeepsInv(s: State, s': State, i: nat)
    requires Inv(s) && i in s.threads && FinishWait(s, s', i)
    ensures Inv(s')
  {
    var pc := s.threads[i];
    assert ThreadOk(s, i) && SlotOk(s, pc.target);
    var next := if pc.again then Attempt(pc.target, pc.req, true) else Idle;
    var slot := s.table[pc.target];
    assert i in Waiters(s.threads, pc.target);
    WaitersAfter(s.threads, i, next, pc.target);
    UpdateKeepsInv(s, s', i, next, pc.target, slot.(waiters := slot.waiters - 1));
  }

  lemma BeginKeepsInv(s: State, s': State, i: nat)
    requires Inv(s) && i in s.threads && Begin(s, s', i)
    ensures Inv(s')
  {
    MoveKeepsInv(s, s', i, s'.threads[i]);
  }

  lemma UnlockKeepsInv(s: State, s': State, i: nat)
    requires Inv(s) && i in s.threads && (Unlock(s, s', i) || ReleaseTarget(s, s', i))
    ensures Inv(s')
  {
    if Unlock(s, s', i) {
      var t, owner, start, end, entries, changed :|
        && ValidRange(start, end) && t in s.table
        && Clears(s.table[t].entries, entries, owner, start, end, changed)
        && Updates(s, s', i, if changed then Notifying([s.table[t].queue]) else Idle, t,
                   s.table[t].(entries := entries));
      ChangeKeepsInv(s, s', i, t, entries, changed);
    } else {
      var t, owner :| && t in s.table
        && var entries := Retain(s.table[t].entries, owner);
           var changed := |entries| != |s.table[t].entries|;
           Updates(s, s', i, if changed then Notifying([s.table[t].queue]) else Idle, t,
                   s.table[t].(entries := entries));
      assert SlotOk(s, t);
      RetainKeepsCanonical(s.table[t].entries, owner);
      var entries := Retain(s.table[t].entries, owner);
      ChangeKeepsInv(s, s', i, t, entries, |entries| != |s.table[t].entries|);
    }
  }

  lemma ChangeKeepsInv(s: State, s': State, i: nat, t: Target, entries: seq<Entry>, changed: bool)
    requires Inv(s) && i in s.threads && s.threads[i].Idle? && t in s.table
    requires Canonical(multiset(entries)) && (!changed ==> entries == s.table[t].entries)
    requires Updates(s, s', i, if changed then Notifying([s.table[t].queue]) else Idle, t,
                     s.table[t].(entries := entries))
    ensures Inv(s')
  {
    var next := if changed then Notifying([s.table[t].queue]) else Idle;
    assert SlotOk(s, t);
    WaitersAfter(s.threads, i, next, t);
    assert i !in Waiters(s.threads, t);
    UpdateKeepsInv(s, s', i, next, t, s.table[t].(entries := entries));
  }

  lemma ReleaseThreadOk(shardOf: Target -> nat, s: State, s': State, i: nat, found: seq<nat>, j: nat)
    requires Inv(s) && i in s.threads && ReleaseFinding(shardOf, s, s', i, found)
    requires j in s.threads && j != i
    ensures ThreadOk(s', j)
  {
    assert ThreadOk(s, j);
    var pj := s.threads[j];
    if pj.Registered? || Parked(pj) || pj.Finishing? {
      assert SlotOk(s, pj.target) && j in Waiters(s.threads, pj.target);
      assert s.table[pj.target].waiters > 0;
    }
    if Parked(pj) {
      if NotifyPending(s.threads, pj.queue) {
        PendingAfter(s.threads, i, s'.threads[i], pj.queue);
      } else if s'.table[pj.target].entries != s.table[pj.target].entries {
        assert i in s'.threads && pj.queue in Pending(s'.threads[i]);
      }
    }
  }

  lemma ReleaseShardKeepsInv(shardOf: Target -> nat, s: State, s': State, i: nat)
    requires Inv(s) && i in s.threads && ReleaseShard(shardOf, s, s', i)
    ensures Inv(s')
  {
    var found :| ReleaseFinding(shardOf, s, s', i, found);
    hide Canonical;
    forall t
      ensures SlotOk(s', t)
    {
      assert SlotOk(s, t);
      assert Waiters(s'.threads, t) == Waiters(s.threads, t);
      if t in s'.table { RetainKeepsCanonical(s.table[t].entries, s.threads[i].owner); }
    }
    forall j
      ensures ThreadOk(s', j)
    {
      if j in s.threads && j != i { ReleaseThreadOk(shardOf, s, s', i, found, j); }
    }
  }

  lemma NotifyKeepsInv(s: State, s': State, i: nat)
    requires Inv(s) && i in s.threads && (Notify(s, s', i) || ReleaseDone(s, s', i))
    ensures Inv(s')
  {
    var pc := s.threads[i];
    if pc.Releasing? || pc.queues == [] {
      MoveKeepsInv(s, s', i, if pc.Releasing? then Notifying(pc.queues) else Idle);
      return;
    }
    var q := pc.queues[0];
    forall t
      ensures SlotOk(s', t)
    {
      assert SlotOk(s, t);
      assert Waiters(s'.threads, t) == Waiters(s.threads, t);
    }
    forall j
      ensures ThreadOk(s', j)
    {
      if j in s.threads && j != i {
        assert ThreadOk(s, j);
        var pj := s.threads[j];
        if Parked(s'.threads[j]) && NotifyPending(s.threads, pj.queue) {
          assert pj.queue != q;
          var k :| k in s.threads && pj.queue in Pending(s.threads[k]);
          assert k in s'.threads && pj.queue in Pending(s'.threads[k]);
        }
      }
    }
  }

  lemma NextKeepsInv(shardOf: Target -> nat, s: State, s': State)
    requires Inv(s) && Next(shardOf, s, s')
    ensures Inv(s')
  {
    hide Inv, Begin, TryLock, Check, Sleep, Interrupt, FinishWait, Unlock, ReleaseTarget, ReleaseShard, ReleaseDone,
         Notify;
    var i :| i in s.threads &&
      (|| Begin(s, s', i) || TryLock(s, s', i) || Check(s, s', i) || Sleep(s, s', i) || Interrupt(s, s', i)
       || FinishWait(s, s', i) || Unlock(s, s', i) || ReleaseTarget(s, s', i)
       || ReleaseShard(shardOf, s, s', i) || ReleaseDone(s, s', i) || Notify(s, s', i));
    if Begin(s, s', i) { BeginKeepsInv(s, s', i); }
    else if TryLock(s, s', i) { TryLockKeepsInv(s, s', i); }
    else if Check(s, s', i) { CheckKeepsInv(s, s', i); }
    else if Sleep(s, s', i) || Interrupt(s, s', i) { SleepKeepsInv(s, s', i); }
    else if FinishWait(s, s', i) { FinishWaitKeepsInv(s, s', i); }
    else if Unlock(s, s', i) || ReleaseTarget(s, s', i) { UnlockKeepsInv(s, s', i); }
    else if ReleaseShard(shardOf, s, s', i) { ReleaseShardKeepsInv(shardOf, s, s', i); }
    else { NotifyKeepsInv(s, s', i); }
  }

  // ----- What every run keeps

  lemma {:induction false} RunKeepsInv(shardOf: Target -> nat, run: seq<State>, k: nat)
    requires IsRun(shardOf, run) && k < |run|
    ensures Inv(run[k])
  {
    if k == 0 {
      InitInv(run[0]);
    } else {
      RunKeepsInv(shardOf, run, k - 1);
      NextKeepsInv(shardOf, run[k - 1], run[k]);
    }
  }

  /** No lost wake-up: a sleeper sits on the installed queue, and is blocked for a reason or about to be woken. */
  lemma NoLostWakeup(shardOf: Target -> nat, run: seq<State>, k: nat, i: nat)
    requires IsRun(shardOf, run) && k < |run| && i in run[k].threads && run[k].threads[i].Asleep?
    ensures var s, pc := run[k], run[k].threads[i];
            && pc.target in s.table && s.table[pc.target].queue == pc.queue
            && (HasConflict(s.table[pc.target].entries, pc.req) || NotifyPending(s.threads, pc.queue))
  {
    RunKeepsInv(shardOf, run, k);
    assert ThreadOk(run[k], i);
  }

  /** The waiter count is the number of counted threads, so `finish_wait` always finds it positive. */
  lemma WaiterCountExact(shardOf: Target -> nat, run: seq<State>, k: nat, t: Target)
    requires IsRun(shardOf, run) && k < |run|
    ensures t in run[k].table ==> run[k].table[t].waiters == |Waiters(run[k].threads, t)|
    ensures t in run[k].table ==> run[k].table[t].entries != [] || run[k].table[t].waiters > 0
    ensures forall i :: i in run[k].threads && run[k].threads[i].Finishing? && run[k].threads[i].target == t ==>
                        t in run[k].table && run[k].table[t].waiters > 0
  {
    RunKeepsInv(shardOf, run, k);
    assert SlotOk(run[k], t);
    forall i | i in run[k].threads && run[k].threads[i].Finishing? && run[k].threads[i].target == t
      ensures t in run[k].table && run[k].table[t].waiters > 0
    {
      assert ThreadOk(run[k], i) && i in Waiters(run[k].threads, t);
    }
  }

  /** Mutual exclusion over all runs: every vector is canonical and no byte is held incompatibly by two owners. */
  lemma LocksStaySafe(shardOf: Target -> nat, run: seq<State>, k: nat, t: Target, o: Owner, p: Owner, b: int)
    requires IsRun(shardOf, run) && k < |run| && t in run[k].table && o != p
    ensures var m := multiset(run[k].table[t].entries);
            Canonical(m) && forall x, y :: Holds(m, o, b, x) && Holds(m, p, b, y) ==> x.Read? && y.Read?
  {
    RunKeepsInv(shardOf, run, k);
    assert SlotOk(run[k], t);
  }

  /** The locks on a target. */
  ghost function LocksOn(s: State, t: Target): multiset<Entry> {
    if t in s.table then multiset(s.table[t].entries) else multiset{}
  }

  /** What an attempt comes to, in every run. It is granted exactly when the bytes are not contended, and then
      writes exactly them; a contended one is refused if it may not block and becomes a waiter if it may, and
      changes no lock. */
  lemma AttemptOutcome(shardOf: Target -> nat, run: seq<State>, k: nat, i: nat)
    requires IsRun(shardOf, run) && k + 1 < |run| && i in run[k].threads && TryLock(run[k], run[k + 1], i)
    ensures i in run[k + 1].threads
    ensures var s, s', before, after := run[k], run[k + 1], run[k].threads[i], run[k + 1].threads[i];
            var req, t := before.req, before.target;
            var contended := Contended(LocksOn(s, t), req.owner, req.start, req.end, req.lockType);
            && (after.Notifying? <==> !contended)
            && (after.Idle? <==> contended && !before.blocking)
            && (after.Registered? <==> contended && before.blocking)
            && (!contended ==>
                  Rewrites(LocksOn(s, t), LocksOn(s', t), req.owner, req.start, req.end, Some(req.lockType)))
            && (contended ==> LocksOn(s', t) == LocksOn(s, t))
            && (after.Registered? ==> after.target == t && after.req == req)
            && forall u :: u != t ==> LocksOn(s', u) == LocksOn(s, u)
  {
    RunKeepsInv(shardOf, run, k);
    var s, pc := run[k], run[k].threads[i];
    assert SlotOk(s, pc.target) && ThreadOk(s, i);
    var slot, req := SlotOf(s, pc.target), pc.req;
    assert multiset(slot.entries) == LocksOn(s, pc.target);
    assert NonEmptyRanges(multiset(slot.entries));
    hide Inv, SlotOk, ThreadOk, Contended, Rewrites, NonEmptyRanges, Holds;
    ConflictIsByteConflict(slot.entries, req.owner, req.start, req.end, req.lockType);
  }

  /** `n` is `m` without the locks of `owner`. */
  ghost predicate Drops(m: multiset<Entry>, n: multiset<Entry>, owner: Owner) {
    forall o, b, t :: Holds(n, o, b, t) <==> Holds(m, o, b, t) && o != owner
  }

  /** A release takes every lock of the owner out of the shard, and changes no other lock. */
  lemma ReleaseOutcome(shardOf: Target -> nat, s: State, s': State, i: nat, t: Target)
    requires i in s.threads && ReleaseShard(shardOf, s, s', i)
    ensures var pc := s.threads[i];
            if shardOf(t) == pc.shard then Drops(LocksOn(s, t), LocksOn(s', t), pc.owner)
            else LocksOn(s', t) == LocksOn(s, t)
  {
    NothingHeld();
    var owner := s.threads[i].owner;
    if t in s.table && shardOf(t) == s.threads[i].shard {
      hide Holds, Retain;
      RetainDrops(s.table[t].entries, owner);
      assert LocksOn(s', t) == multiset(Retain(s.table[t].entries, owner));
    }
  }

  lemma NothingHeld()
    ensures forall o, b, t :: !Holds(multiset{}, o, b, t)
  {}

  /** An unlock takes exactly the bytes of its range from its owner on one target. */
  lemma UnlockOutcome(s: State, s': State, i: nat)
    requires i in s.threads && Unlock(s, s', i)
    ensures exists t, owner, start, end ::
              && Rewrites(LocksOn(s, t), LocksOn(s', t), owner, start, end, None)
              && forall u :: u != t ==> LocksOn(s', u) == LocksOn(s, u)
  {
    hide Rewrites, Canonical, Affected;
    var t, owner, start, end, entries, changed :|
      && ValidRange(start, end) && t in s.table
      && Clears(s.table[t].entries, entries, owner, start, end, changed)
      && Updates(s, s', i, if changed then Notifying([s.table[t].queue]) else Idle, t,
                 s.table[t].(entries := entries));
    assert Rewrites(LocksOn(s, t), LocksOn(s', t), owner, start, end, None);
  }

  lemma RetainDrops(entries: seq<Entry>, owner: Owner)
    ensures Drops(multiset(entries), multiset(Retain(entries, owner)), owner)
  {
    hide Holds, Retain;
    forall o, b, u
      ensures Holds(multiset(Retain(entries, owner)), o, b, u) <==> o != owner && Holds(multiset(entries), o, b, u)
    {
      RetainHolds(entries, owner, o, b, u);
    }
  }

  /** A release on one target takes every lock of one owner from it, and changes no other target. */
  lemma ReleaseTargetOutcome(s: State, s': State, i: nat)
    requires i in s.threads && ReleaseTarget(s, s', i)
    ensures exists t, owner ::
              Drops(LocksOn(s, t), LocksOn(s', t), owner) && forall u :: u != t ==> LocksOn(s', u) == LocksOn(s, u)
  {
    hide Drops, Retain;
    var t, owner :|
      && t in s.table
      && var entries := Retain(s.table[t].entries, owner);
         var changed := |entries| != |s.table[t].entries|;
         Updates(s, s', i, if changed then Notifying([s.table[t].queue]) else Idle, t,
                 s.table[t].(entries := entries));
    RetainDrops(s.table[t].entries, owner);
    assert Drops(LocksOn(s, t), LocksOn(s', t), owner);
  }

  /** A waiting thread keeps its request through every step of every thread. It leaves the wait only to try the same
      request again, still willing to block, or to give up. */
  lemma WaitKeepsRequest(shardOf: Target -> nat, s: State, s': State, i: nat)
    requires Next(shardOf, s, s') && i in s.threads && Waiting(s.threads[i])
    ensures i in s'.threads
    ensures var pc, after := s.threads[i], s'.threads[i];
            || (WaitsOn(after, pc.target) && after.req == pc.req)
            || (pc.Finishing? && after == if pc.again then Attempt(pc.target, pc.req, true) else Idle)
  {
    hide TryLock, ReleaseFinding, Unlock, ReleaseTarget, Begin;
    var j :| j in s.threads &&
      (|| Begin(s, s', j) || TryLock(s, s', j) || Check(s, s', j) || Sleep(s, s', j) || Interrupt(s, s', j)
       || FinishWait(s, s', j) || Unlock(s, s', j) || ReleaseTarget(s, s', j)
       || ReleaseShard(shardOf, s, s', j) || ReleaseDone(s, s', j) || Notify(s, s', j));
    if !Notify(s, s', j) {
      OthersStay(shardOf, s, s', j, i);
    }
  }

  lemma OthersStay(shardOf: Target -> nat, s: State, s': State, j: nat, i: nat)
    requires j in s.threads && i in s.threads && Waiting(s.threads[i])
    requires || Begin(s, s', j) || TryLock(s, s', j) || Check(s, s', j) || Sleep(s, s', j) || Interrupt(s, s', j)
             || FinishWait(s, s', j) || Unlock(s, s', j) || ReleaseTarget(s, s', j)
             || ReleaseShard(shardOf, s, s', j) || ReleaseDone(s, s', j)
    ensures i in s'.threads && (i != j ==> s'.threads[i] == s.threads[i])
    ensures i == j ==> Check(s, s', i) || Sleep(s, s', i) || Interrupt(s, s', i) || FinishWait(s, s', i)
  {
    hide Rewrites, Canonical, Clears, Retain, HasConflict, Conflict;
  }

  /** A notification leaves nobody asleep on its queue. */
  lemma NotifyWakes(s: State, s': State, i: nat, j: nat)
    requires i in s.threads && Notify(s, s', i) && s.threads[i].queues != [] && j in s.threads
    ensures j in s'.threads && !(s'.threads[j].Asleep? && s'.threads[j].queue == s.threads[i].queues[0])
    ensures j != i && s.threads[j].Asleep? && s.threads[j].queue == s.threads[i].queues[0] ==>
              s'.threads[j] == Registered(s.threads[j].target, s.threads[j].req, s.threads[j].queue)
    ensures s'.threads[i] == Notifying(s.threads[i].queues[1..])
  {}

  /** A release that has come to shard `n` has been through every shard before it. */
  lemma {:induction false} ReleaseVisitsAll(shardOf: Target -> nat, run: seq<State>, k: nat, i: nat, shard: nat)
    requires IsRun(shardOf, run) && k < |run| && i in run[k].threads && run[k].threads[i].Releasing?
    requires shard < run[k].threads[i].shard
    ensures exists m: nat :: m < k && Visits(shardOf, run, m, i, run[k].threads[i].owner, shard)
  {
    if k > 0 {
      var s, s' := run[k - 1], run[k];
      assert Next(shardOf, run[k - 1], run[k - 1 + 1]);
      ReleaseAdvances(shardOf, s, s', i);
      if ReleaseShard(shardOf, s, s', i) && s.threads[i].shard == shard {
        assert Visits(shardOf, run, k - 1, i, run[k].threads[i].owner, shard);
      } else {
        ReleaseVisitsAll(shardOf, run, k - 1, i, shard);
        var m: nat :| m < k - 1 && Visits(shardOf, run, m, i, run[k - 1].threads[i].owner, shard);
      }
    }
  }

  ghost predicate Visits(shardOf: Target -> nat, run: seq<State>, m: nat, i: nat, owner: Owner, shard: nat) {
    && m + 1 < |run| && i in run[m].threads && run[m].threads[i].Releasing?
    && run[m].threads[i].owner == owner && run[m].threads[i].shard == shard
    && ReleaseShard(shardOf, run[m], run[m + 1], i)
  }

  /** Where a releasing thread comes from: shard 0, itself, or the shard before. */
  lemma ReleaseAdvances(shardOf: Target -> nat, s: State, s': State, i: nat)
    requires Next(shardOf, s, s') && i in s'.threads && s'.threads[i].Releasing? && s'.threads[i].shard > 0
    ensures i in s.threads && s.threads[i].Releasing? && s.threads[i].owner == s'.threads[i].owner
    ensures s'.threads[i].shard == s.threads[i].shard ||
            (ReleaseShard(shardOf, s, s', i) && s'.threads[i].shard == s.threads[i].shard + 1)
  {
    hide TryLock, ReleaseFinding, Unlock, ReleaseTarget, Check, FinishWait;
    var j :| j in s.threads &&
      (|| Begin(s, s', j) || TryLock(s, s', j) || Check(s, s', j) || Sleep(s, s', j) || Interrupt(s, s', j)
       || FinishWait(s, s', j) || Unlock(s, s', j) || ReleaseTarget(s, s', j)
       || ReleaseShard(shardOf, s, s', j) || ReleaseDone(s, s', j) || Notify(s, s', j));
    if !Notify(s, s', j) && !ReleaseShard(shardOf, s, s', j) {
      NeverReleasing(shardOf, s, s', j);
    } else if ReleaseShard(shardOf, s, s', j) {
      ReleaseMoves(shardOf, s, s', j);
    }
  }

  lemma NeverReleasing(shardOf: Target -> nat, s: State, s': State, j: nat)
    requires j in s.threads
    requires || Begin(s, s', j) || TryLock(s, s', j) || Check(s, s', j) || Sleep(s, s', j) || Interrupt(s, s', j)
             || FinishWait(s, s', j) || Unlock(s, s', j) || ReleaseTarget(s, s', j) || ReleaseDone(s, s', j)
    ensures j in s'.threads && s'.threads == s.threads[j := s'.threads[j]]
    ensures s'.threads[j].Releasing? ==> s'.threads[j].shard == 0
  {
    hide Rewrites, Canonical, Clears, Retain, HasConflict, Conflict;
  }

  lemma ReleaseMoves(shardOf: Target -> nat, s: State, s': State, j: nat)
    requires j in s.threads && ReleaseShard(shardOf, s, s', j)
    ensures j in s'.threads && s'.threads == s.threads[j := s'.threads[j]]
    ensures s.threads[j].Releasing? && s'.threads[j].Releasing? && s'.threads[j].owner == s.threads[j].owner
    ensures s'.threads[j].shard == s.threads[j].shard + 1
  {
    hide Released, Frees;
  }

  // ----- The steps are what the methods of the lock state do

  method SetIsStep(state: RecordLockState, req: Request) returns (granted: bool)
    requires state.Valid() && ValidRange(req.start, req.end)
    modifies state
    ensures granted <==> !HasConflict(old(state.entries), req)
    ensures granted ==> Canonical(multiset(state.entries))
    ensures granted ==> Rewrites(old(multiset(state.entries)), multiset(state.entries), req.owner, req.start, req.end,
                                 Some(req.lockType))
    ensures !granted ==> state.entries == old(state.entries)
  {
    hide Rewrites, Contended;
    ConflictIsByteConflict(state.entries, req.owner, req.start, req.end, req.lockType);
    var r := state.Set(req.owner, req.start, req.end, req.lockType);
    match r {
      case Done =>
        granted := true;
      case Failed(errno) =>
        assert errno.EINVAL? || errno.EAGAIN?;
        granted := false;
    }
  }

  method ClearIsStep(state: RecordLockState, owner: Owner, start: int, end: int) returns (changed: bool)
    requires state.Valid() && ValidRange(start, end)
    modifies state
    ensures Clears(old(state.entries), state.entries, owner, start, end, changed)
  {
    hide Rewrites;
    changed := state.ClearOwnerRange(owner, start, end);
  }

  method ReleaseIsStep(state: RecordLockState, owner: Owner, queue: nat, waiters: nat) returns (changed: bool)
    requires state.Valid()
    modifies state
    ensures Slot(state.entries, queue, waiters) == Released(Slot(old(state.entries), queue, waiters), owner)
    ensures changed <==> Frees(Slot(old(state.entries), queue, waiters), owner)
  {
    changed := state.ReleaseOwner(owner);
  }
}
