/** Which intervals the statistics hold: one for each stretch from a switch to the next one on the same CPU. */
module StatsRuns {
  import opened Stats

  /** The next switch on the CPU from `k` on, or the number of events. */
  function NextFrom(events: seq<Event>, c: nat, k: nat): (j: nat)
    requires k <= |events|
    ensures k <= j <= |events| && (j < |events| ==> IsSwitch(events[j], c))
    ensures forall l :: k <= l < j ==> !IsSwitch(events[l], c)
    decreases |events| - k
  {
    if k == |events| then k else if IsSwitch(events[k], c) then k else NextFrom(events, c, k + 1)
  }

  /** The switch on the same CPU that follows switch `i`, or the number of events. */
  function NextSwitch(events: seq<Event>, i: nat): nat
    requires i < |events|
  {
    NextFrom(events, events[i].cpu, i + 1)
  }

  /** The task that came in with switch `i` ran for some time: until the next switch on the CPU, if that one names it as
      the task that leaves, or until the last event if there is no next switch. */
  ghost predicate HasRun(events: seq<Event>, i: nat) {
    && i < |events| && events[i].payload.Switch?
    && var j := NextSwitch(events, i);
       if j < |events| then events[j].payload.prev == events[i].payload.next && events[i].time < events[j].time
       else events[i].time < LastTime(events)
  }

  ghost function RunOf(events: seq<Event>, i: nat): Interval
    requires HasRun(events, i)
  {
    var j := NextSwitch(events, i);
    var end := if j < |events| then events[j].time else LastTime(events);
    Interval(events[i].cpu, events[i].payload.next, events[i].time, end, end - events[i].time)
  }

  /** The intervals are the runs of the switches listed in `origin`: of each switch with a run, once, and of no
      other. */
  ghost predicate AreRuns(events: seq<Event>, ivs: seq<Interval>, origin: seq<nat>) {
    && |origin| == |ivs|
    && (forall k :: 0 <= k < |ivs| ==> HasRun(events, origin[k]) && ivs[k] == RunOf(events, origin[k]))
    && (forall k, l :: 0 <= k < l < |origin| ==> origin[k] != origin[l])
    && (forall i: nat :: HasRun(events, i) ==> i in origin)
  }

  // While events come in, a run is complete once its CPU has switched again.

  ghost predicate RunEnded(events: seq<Event>, i: nat) {
    HasRun(events, i) && NextSwitch(events, i) < |events|
  }

  ghost predicate RunningAt(s: State, events: seq<Event>, c: nat) {
    var i := LastSwitch(events, c);
    && (c in s.running <==> i >= 0)
    && (i >= 0 ==> s.running[c] == Running(events[i].payload.next, events[i].time))
  }

  ghost predicate RunsSoFar(s: State, events: seq<Event>, origin: seq<nat>) {
    && (forall c: nat :: RunningAt(s, events, c))
    && |origin| == |s.intervals|
    && (forall k :: 0 <= k < |origin| ==> RunEnded(events, origin[k]) && s.intervals[k] == RunOf(events, origin[k]))
    && (forall k, l :: 0 <= k < l < |origin| ==> origin[k] != origin[l])
    && (forall i: nat :: RunEnded(events, i) ==> i in origin)
  }

  lemma RunsStart()
    ensures RunsSoFar(START, [], [])
  {}

  lemma {:induction false} LastIsLast(events: seq<Event>, c: nat, k: nat)
    requires LastSwitch(events, c) < k < |events|
    ensures !IsSwitch(events[k], c)
  {
    if k < |events| - 1 { LastIsLast(events[..|events| - 1], c, k); }
  }

  /** Exactly the last switch of a CPU has no next one. */
  lemma NoNextIsLast(events: seq<Event>, i: nat)
    requires i < |events| && events[i].payload.Switch?
    ensures NextSwitch(events, i) == |events| <==> i == LastSwitch(events, events[i].cpu)
  {
    var c := events[i].cpu;
    var last := LastSwitch(events, c);
    hide LastSwitch, NextFrom;
    if last < i {
      LastIsLast(events, c, i);
    }
    if i == last && NextSwitch(events, i) < |events| {
      LastIsLast(events, c, NextSwitch(events, i));
    }
  }

  lemma AppendNext(events: seq<Event>, e: Event, i: nat)
    requires i < |events|
    ensures var j := NextSwitch(events, i);
            NextSwitch(events + [e], i) ==
            if j < |events| then j else if IsSwitch(e, events[i].cpu) then |events| else |events| + 1
  {
    hide NextFrom;
    var all, c := events + [e], events[i].cpu;
    var j, k := NextSwitch(events, i), NextSwitch(all, i);
    assert forall l :: 0 <= l < |events| ==> all[l] == events[l];
    assert all[|events|] == e;
  }

  /** One more event ends the run of the CPU's last switch, if it is a switch there that names its task. */
  lemma AppendRun(events: seq<Event>, e: Event, i: nat)
    requires i < |events|
    ensures RunEnded(events, i) ==> RunEnded(events + [e], i) && RunOf(events + [e], i) == RunOf(events, i)
    ensures RunEnded(events + [e], i) && !RunEnded(events, i) ==> i == LastSwitch(events, e.cpu) && EndsRun(events, e)
  {
    hide NextFrom, LastSwitch;
    AppendNext(events, e, i);
    assert forall l :: 0 <= l < |events| ==> (events + [e])[l] == events[l];
    assert (events + [e])[|events|] == e;
    if events[i].payload.Switch? { NoNextIsLast(events, i); }
  }

  ghost predicate EndsRun(events: seq<Event>, e: Event) {
    && e.payload.Switch?
    && var i := LastSwitch(events, e.cpu);
       i >= 0 && events[i].payload.next == e.payload.prev && events[i].time < e.time
  }

  lemma EndedNow(events: seq<Event>, e: Event)
    requires EndsRun(events, e)
    ensures var i := LastSwitch(events, e.cpu);
            && !RunEnded(events, i) && RunEnded(events + [e], i)
            && RunOf(events + [e], i) ==
               Interval(e.cpu, e.payload.prev, events[i].time, e.time, e.time - events[i].time)
  {
    hide NextFrom;
    var i := LastSwitch(events, e.cpu);
    NoNextIsLast(events, i);
    AppendNext(events, e, i);
    assert (events + [e])[i] == events[i] && (events + [e])[|events|] == e;
  }

  lemma NotEndedYet(events: seq<Event>, e: Event)
    ensures !RunEnded(events + [e], |events|)
  {
    hide NextFrom;
  }

  /** What a step does to the list of intervals: it adds the run that ended, and nothing else. */
  lemma IntervalsStep(s: State, events: seq<Event>, e: Event)
    requires e.payload.Switch? ==> RunningAt(s, events, e.cpu)
    ensures var i := LastSwitch(events, e.cpu);
            Step(s, e).intervals == s.intervals +
              if EndsRun(events, e)
              then [Interval(e.cpu, e.payload.prev, events[i].time, e.time, e.time - events[i].time)] else []
    ensures Step(s, e).running ==
            if e.payload.Switch? then s.running[e.cpu := Running(e.payload.next, e.time)] else s.running
  {
    hide LastSwitch, Touch;
    TouchKeeps(s, e);
    if !e.payload.Switch? {
      hide Step;
      OthersKeep(s, e);
    }
  }

  lemma StepRunning(s: State, events: seq<Event>, e: Event, c: nat)
    requires forall x: nat :: RunningAt(s, events, x)
    ensures RunningAt(Step(s, e), events + [e], c)
  {
    assert RunningAt(s, events, e.cpu) && RunningAt(s, events, c);
    hide Step, LastSwitch, Matching, FirstSwitch;
    IntervalsStep(s, events, e);
    AppendSwitch(events, e, c);
    assert forall l :: 0 <= l < |events| ==> (events + [e])[l] == events[l];
  }

  lemma StepRuns(s: State, events: seq<Event>, origin: seq<nat>, e: Event) returns (after: seq<nat>)
    requires RunsSoFar(s, events, origin)
    ensures RunsSoFar(Step(s, e), events + [e], after)
  {
    var s', all := Step(s, e), events + [e];
    assert RunningAt(s, events, e.cpu);
    IntervalsStep(s, events, e);
    forall c: nat
      ensures RunningAt(s', all, c)
    {
      StepRunning(s, events, e, c);
    }
    hide Step, RunningAt, LastSwitch, HasRun, RunOf, NextFrom;
    var i := LastSwitch(events, e.cpu);
    after := if EndsRun(events, e) then origin + [i] else origin;
    forall k: nat | k < |events|
      ensures RunEnded(events, k) ==> RunEnded(all, k) && RunOf(all, k) == RunOf(events, k)
      ensures RunEnded(all, k) && !RunEnded(events, k) ==> k == i && EndsRun(events, e)
    {
      AppendRun(events, e, k);
    }
    NotEndedYet(events, e);
    if EndsRun(events, e) {
      EndedNow(events, e);
    }
    RunsGrow(s, s', events, all, origin, after, i);
  }

  /** Bookkeeping of the step, with the runs themselves out of sight. */
  lemma RunsGrow(s: State, s': State, events: seq<Event>, all: seq<Event>, origin: seq<nat>, after: seq<nat>, i: int)
    requires RunsSoFar(s, events, origin) && |all| == |events| + 1 && forall c: nat :: RunningAt(s', all, c)
    requires forall k: nat :: RunEnded(events, k) ==> k < |events|
    requires forall k: nat :: RunEnded(events, k) ==> RunEnded(all, k) && RunOf(all, k) == RunOf(events, k)
    requires forall k: nat :: RunEnded(all, k) && !RunEnded(events, k) ==> k == i && after == origin + [i]
    requires || (after == origin && s'.intervals == s.intervals)
             || (&& i >= 0 && after == origin + [i] && !RunEnded(events, i) && RunEnded(all, i)
                 && s'.intervals == s.intervals + [RunOf(all, i)])
    ensures RunsSoFar(s', all, after)
  {
    hide HasRun, RunOf, RunningAt, NextFrom, RunEnded;
    forall k: nat | RunEnded(all, k)
      ensures k in after
    {
      if !RunEnded(events, k) { assert after[|origin|] == k; } else { assert k in origin; }
    }
  }

  // At the end the runs still open are closed at the last event.

  ghost predicate RunsClosing(s: State, events: seq<Event>, origin: seq<nat>, done: set<nat>) {
    && (forall c: nat :: RunningAt(s, events, c))
    && |origin| == |s.intervals|
    && (forall k :: 0 <= k < |origin| ==>
          RunClosed(events, origin[k], done) && s.intervals[k] == RunOf(events, origin[k]))
    && (forall k, l :: 0 <= k < l < |origin| ==> origin[k] != origin[l])
    && (forall i: nat :: RunClosed(events, i, done) ==> i in origin)
  }

  ghost predicate RunClosed(events: seq<Event>, i: nat, done: set<nat>) {
    HasRun(events, i) && (NextSwitch(events, i) < |events| || events[i].cpu in done)
  }

  lemma RunsClosingStart(s: State, events: seq<Event>, origin: seq<nat>)
    requires RunsSoFar(s, events, origin)
    ensures RunsClosing(s, events, origin, {})
  {
    hide HasRun, RunOf, RunningAt, NextFrom;
    assert forall i: nat :: RunClosed(events, i, {}) <==> RunEnded(events, i);
  }

  lemma ClosedInterval(s: State, events: seq<Event>, c: nat)
    requires c in s.running && RunningAt(s, events, c)
    ensures var s', i := Close(s, c, s.running[c], LastTime(events)), LastSwitch(events, c);
            && s'.running == s.running
            && s'.intervals == s.intervals + if HasRun(events, i) then [RunOf(events, i)] else []
  {
    NoNextIsLast(events, LastSwitch(events, c));
    hide LastSwitch, NextFrom, LastTime;
  }

  lemma RunsClosingStep(s: State, events: seq<Event>, origin: seq<nat>, done: set<nat>, c: nat)
    returns (after: seq<nat>)
    requires RunsClosing(s, events, origin, done) && c in s.running && c !in done
    ensures RunsClosing(Close(s, c, s.running[c], LastTime(events)), events, after, done + {c})
  {
    assert RunningAt(s, events, c);
    var i := LastSwitch(events, c);
    var s' := Close(s, c, s.running[c], LastTime(events));
    after := if HasRun(events, i) then origin + [i] else origin;
    hide Close, LastSwitch, NextFrom, RunOf, LastTime;
    ClosedInterval(s, events, c);
    forall x: nat
      ensures RunningAt(s', events, x)
    {
      assert RunningAt(s, events, x);
    }
    NoNextIsLast(events, i);
    hide RunningAt, HasRun;
    forall k: nat | RunClosed(events, k, done + {c}) && !RunClosed(events, k, done)
      ensures k == i && HasRun(events, i)
    {
      NoNextIsLast(events, k);
    }
    assert !RunClosed(events, i, done);
    ClosedGrow(s, s', events, origin, after, done, c, i);
  }

  lemma ClosedGrow(s: State, s': State, events: seq<Event>, origin: seq<nat>, after: seq<nat>, done: set<nat>,
                   c: nat, i: nat)
    requires RunsClosing(s, events, origin, done) && forall x: nat :: RunningAt(s', events, x)
    requires forall k: nat :: RunClosed(events, k, done) ==> RunClosed(events, k, done + {c})
    requires forall k: nat :: RunClosed(events, k, done + {c}) && !RunClosed(events, k, done) ==>
                              k == i && after == origin + [i]
    requires || (after == origin && s'.intervals == s.intervals)
             || (&& after == origin + [i] && !RunClosed(events, i, done) && RunClosed(events, i, done + {c})
                 && s'.intervals == s.intervals + [RunOf(events, i)])
    ensures RunsClosing(s', events, after, done + {c})
  {
    hide HasRun, RunOf, RunningAt, NextFrom;
    forall k: nat | RunClosed(events, k, done + {c})
      ensures k in after
    {
      if !RunClosed(events, k, done) { assert after[|origin|] == k; } else { assert k in origin; }
    }
  }

  lemma RunsClosingEnd(s: State, events: seq<Event>, origin: seq<nat>)
    requires RunsClosing(s, events, origin, s.running.Keys)
    ensures AreRuns(events, s.intervals, origin)
  {
    forall i: nat | HasRun(events, i)
      ensures RunClosed(events, i, s.running.Keys)
    {
      assert RunningAt(s, events, events[i].cpu);
      NoNextIsLast(events, i);
    }
    hide HasRun, RunOf, RunningAt, NextFrom;
  }

  lemma SameRuns(s: State, s': State, events: seq<Event>, origin: seq<nat>, done: set<nat>)
    requires RunsClosing(s, events, origin, done) && s'.intervals == s.intervals && s'.running == s.running
    ensures RunsClosing(s', events, origin, done)
  {
    hide HasRun, RunOf, NextFrom, LastSwitch, RunClosed;
    forall c: nat
      ensures RunningAt(s', events, c)
    {
      assert RunningAt(s, events, c);
    }
  }
}
