/** The whole computation: all events, the intervals still open at the end, and the reported losses. */
module StatsCompute {
  import opened Bytes
  import opened Stats
  import opened StatsRuns
  import opened Sums

  /** The state after some events. */
  ghost predicate Loop(s: State, events: seq<Event>) {
    && Booked(s) && Listed(s) && WaitsOk(s, events) && Counted(s, events)
    && (InTimeOrder(events) ==> Chained(s, LastTime(events), {}) && forall c: nat :: CoveredAt(s, events, c))
  }

  lemma LoopStart()
    ensures Loop(START, [])
  {}

  lemma LoopStep(s: State, events: seq<Event>, e: Event)
    requires Loop(s, events)
    ensures Loop(Step(s, e), events + [e])
  {
    hide Booked, Listed, WaitsOk, Chained, CoveredAt, Step, Counted;
    StepCounted(s, events, e);
    StepBooks(s, e);
    StepLists(s, e);
    StepWaits(s, events, e);
    var all := events + [e];
    if InTimeOrder(all) {
      assert forall i :: 0 <= i < |events| ==> events[i] == all[i];
      assert InTimeOrder(events);
      assert events != [] ==> all[|events| - 1].time <= all[|events|].time;
      StepChains(s, e, LastTime(events));
      forall c: nat
        ensures CoveredAt(Step(s, e), all, c)
      {
        StepCovers(s, events, e, LastTime(events), c);
      }
    }
  }

  /** The state while the intervals still open at the end are closed: those of the CPUs in `done` are. */
  ghost predicate Closing(s: State, events: seq<Event>, done: set<nat>) {
    && Booked(s) && Listed(s) && WaitsOk(s, events) && Counted(s, events)
    && (InTimeOrder(events) ==> Chained(s, LastTime(events), done) && forall c: nat :: ClosedAt(s, events, c, done))
  }

  ghost predicate ClosedAt(s: State, events: seq<Event>, c: nat, done: set<nat>) {
    && (c in s.running <==> LastSwitch(events, c) >= 0)
    && (c in s.running && Matching(events, c) ==>
          BothTimes(s.intervals, c) + events[FirstSwitch(events, c)].time == if c in done then LastTime(events)
            else s.running[c].since)
  }

  lemma ClosingStart(s: State, events: seq<Event>)
    requires Loop(s, events)
    ensures Closing(s, events, {})
  {
    hide Booked, Listed, WaitsOk, Chained, Counted;
    if InTimeOrder(events) {
      forall c: nat
        ensures ClosedAt(s, events, c, {})
      {
        assert CoveredAt(s, events, c);
      }
    }
  }

  lemma ClosingStep(s: State, events: seq<Event>, done: set<nat>, c: nat)
    requires Closing(s, events, done) && c in s.running && c !in done
    ensures Closing(Close(s, c, s.running[c], LastTime(events)), events, done + {c})
  {
    var now := LastTime(events);
    var s' := Close(s, c, s.running[c], now);
    CloseKeepsRunning(s, c, s.running[c], now);
    hide LastTime, Close, Booked, LastSwitch, FirstSwitch, Matching, BothTimes, ActiveAt, PairedAt, PairedWakes,
         UnpairedWakes, Counter, Tally;
    forall k
      ensures Counter(s', k) == Tally(events, k)
    {
      CloseCounters(s, c, s.running[c], now, k);
    }
    CloseBooks(s, c, s.running[c], now);
    CloseLists(s, c, s.running[c], now);
    assert WaitsOk(s', events) by { SameWaits(s, s', events); }
    if InTimeOrder(events) {
      CloseChains(s, c, now, done);
      forall x: nat
        ensures ClosedAt(s', events, x, done + {c})
      {
        assert ClosedAt(s, events, x, done);
        CloseCovers(s, c, now, x);
      }
    }
  }

  lemma SameWaits(s: State, s': State, events: seq<Event>)
    requires WaitsOk(s, events) && s'.waits == s.waits && s'.active == s.active && s'.unpairedWakes == s.unpairedWakes
    ensures WaitsOk(s', events)
  {
    hide PairedAt, PairedWakes, UnpairedWakes;
    forall t: nat, q: nat
      ensures ActiveAt(s', events, t, q)
    {
      assert ActiveAt(s, events, t, q);
    }
  }

  // ----- The three loops

  /** Every event in turn. */
  method TakeEvents(events: seq<Event>) returns (s: State, ghost origin: seq<nat>)
    ensures Loop(s, events) && RunsSoFar(s, events, origin) && Entered(s, events)
    ensures s.total == |events| && s.unpairedBlocks == 0 && forall c: nat :: CpuOf(s, c).lost == 0
  {
    hide Loop, Step, RunsSoFar, Entered;
    s, origin := START, [];
    LoopStart();
    RunsStart();
    EnteredStart();
    for i := 0 to |events|
      invariant Loop(s, events[..i]) && RunsSoFar(s, events[..i], origin) && Entered(s, events[..i])
      invariant s.total == i && s.unpairedBlocks == 0 && forall c: nat :: CpuOf(s, c).lost == 0
    {
      LoopListed(s, events[..i]);
      StepEntered(s, events[..i], events[i]);
      LoopStep(s, events[..i], events[i]);
      StepCounts(s, events[i]);
      origin := StepRuns(s, events[..i], origin, events[i]);
      assert events[..i + 1] == events[..i] + [events[i]];
      s := Step(s, events[i]);
    }
    assert events[..|events|] == events;
  }

  /** The intervals still open are closed at the time of the last event. */
  method CloseOpen(start: State, events: seq<Event>, ghost origin: seq<nat>) returns (s: State, ghost all: seq<nat>)
    requires Closing(start, events, {}) && RunsClosing(start, events, origin, {}) && HasEntries(start, events, [])
    requires forall c: nat :: CpuOf(start, c).lost == 0
    ensures Closing(s, events, s.running.Keys) && RunsClosing(s, events, all, s.running.Keys)
    ensures HasEntries(s, events, []) && forall c: nat :: CpuOf(s, c).lost == 0
    ensures s.total == start.total && s.active == start.active && s.unpairedBlocks == start.unpairedBlocks
  {
    hide Closing, Close, LastTime, RunsClosing, HasEntries;
    s, all := start, origin;
    var now := LastTime(events);
    var cpus := s.running.Keys;
    ghost var every := cpus;
    assert every - cpus == {};
    while cpus != {}
      invariant cpus <= every == s.running.Keys && Closing(s, events, every - cpus)
      invariant RunsClosing(s, events, all, every - cpus) && HasEntries(s, events, [])
      invariant s.total == start.total && s.active == start.active && s.unpairedBlocks == start.unpairedBlocks
      invariant forall c: nat :: CpuOf(s, c).lost == 0
      decreases cpus
    {
      var c :| c in cpus;
      ClosingStep(s, events, every - cpus, c);
      CloseEntries(s, events, every - cpus, c);
      all := RunsClosingStep(s, events, all, every - cpus, c);
      CloseKeepsRunning(s, c, s.running[c], now);
      CloseCounts(s, c, s.running[c], now);
      assert every - cpus + {c} == every - (cpus - {c});
      s, cpus := Close(s, c, s.running[c], now), cpus - {c};
    }
    assert every - cpus == every;
  }

  /** The losses reported for each CPU; a later report for the same CPU replaces an earlier one. */
  method EnterLosses(start: State, events: seq<Event>, lost: seq<(nat, nat)>, ghost origin: seq<nat>)
    returns (s: State)
    requires Closing(start, events, start.running.Keys) && RunsClosing(start, events, origin, start.running.Keys)
    requires HasEntries(start, events, []) && forall c: nat :: CpuOf(start, c).lost == 0
    ensures Closing(s, events, s.running.Keys) && RunsClosing(s, events, origin, s.running.Keys)
    ensures HasEntries(s, events, lost) && forall c: nat :: CpuOf(s, c).lost == LastLost(lost, c)
    ensures s == start.(cpus := s.cpus)
  {
    hide Closing, RunsClosing, HasEntries;
    s := start;
    for i := 0 to |lost|
      invariant Closing(s, events, s.running.Keys) && RunsClosing(s, events, origin, s.running.Keys)
      invariant HasEntries(s, events, lost[..i]) && s == start.(cpus := s.cpus)
      invariant forall c: nat :: CpuOf(s, c).lost == LastLost(lost[..i], c)
    {
      ghost var before := s;
      assert lost[..i + 1][..i] == lost[..i];
      LostIsFree(s, events, s.running.Keys, lost[i].0, lost[i].1);
      s := s.(cpus := s.cpus[lost[i].0 := CpuOf(s, lost[i].0).(lost := lost[i].1)]);
      SameRuns(before, s, events, origin, s.running.Keys);
      LostEntry(before, s, events, lost, i);
    }
    assert lost[..|lost|] == lost;
  }

  method Compute(events: seq<Event>, lost: seq<(nat, nat)>) returns (s: State)
    ensures s.total == |events| && s.unpairedBlocks == |s.active|
    ensures Booked(s) && Listed(s)
    ensures Time(s.intervals) < U64 ==>
              Sum(OnCpuByTask(s), s.tasks.Keys) == Time(s.intervals) == Sum(BusyAndIdle(s), s.cpus.Keys)
    ensures exists origin :: AreRuns(events, s.intervals, origin)
    ensures InTimeOrder(events) ==> Apart(s.intervals)
    ensures InTimeOrder(events) ==> forall i :: 0 <= i < |s.intervals| ==> IntervalOk(s.intervals[i])
    ensures InTimeOrder(events) ==> forall c: nat :: FirstSwitch(events, c) >= 0 && Matching(events, c) ==>
              BothTimes(s.intervals, c) == LastTime(events) - events[FirstSwitch(events, c)].time
    ensures WaitsOk(s, events) && Counted(s, events)
    ensures forall c: nat :: CpuOf(s, c).lost == LastLost(lost, c)
    ensures forall t: nat :: t in s.tasks <==> TaskSeen(events, t)
    ensures forall c: nat :: c in s.cpus <==> CpuSeen(events, c) || LossSeen(lost, c)
  {
    hide Loop, Closing, LastTime, RunsSoFar, RunsClosing, AreRuns, Entered, Booked, Listed, WaitsOk, Counted;
    ghost var origin: seq<nat>;
    s, origin := TakeEvents(events);
    ghost var looped := s;
    ClosingStart(s, events);
    RunsClosingStart(s, events, origin);
    s := s.(unpairedBlocks := |s.active|);
    assert forall c: nat :: CpuOf(s, c) == CpuOf(looped, c);
    UnpairedIsFree(looped, events, |s.active|);
    SameRuns(looped, s, events, origin, {});
    EntriesStart(looped, s, events);
    s, origin := CloseOpen(s, events, origin);
    s := EnterLosses(s, events, lost, origin);
    ClosingEnd(s, events);
    RunsClosingEnd(s, events, origin);
  }

  lemma LoopListed(s: State, events: seq<Event>)
    requires Loop(s, events)
    ensures Listed(s)
  {}

  ghost predicate LossSeen(lost: seq<(nat, nat)>, c: nat) {
    exists i :: 0 <= i < |lost| && lost[i].0 == c
  }

  /** Entries once the reported losses so far have been entered too. */
  ghost predicate HasEntries(s: State, events: seq<Event>, lost: seq<(nat, nat)>) {
    && (forall t: nat :: t in s.tasks <==> TaskSeen(events, t))
    && (forall c: nat :: c in s.cpus <==> CpuSeen(events, c) || LossSeen(lost, c))
  }

  lemma EntriesStart(s: State, s': State, events: seq<Event>)
    requires Entered(s, events) && s'.tasks == s.tasks && s'.cpus == s.cpus
    ensures HasEntries(s', events, [])
  {
    hide TaskSeen, CpuSeen;
  }

  lemma CloseEntries(s: State, events: seq<Event>, done: set<nat>, c: nat)
    requires HasEntries(s, events, []) && Closing(s, events, done) && c in s.running
    ensures HasEntries(Close(s, c, s.running[c], LastTime(events)), events, [])
  {
    hide Close, TaskSeen, CpuSeen, Booked, WaitsOk, Counted, Chained, ClosedAt;
    CloseEnters(s, c, s.running[c], LastTime(events));
  }

  lemma LostEntry(s: State, s': State, events: seq<Event>, lost: seq<(nat, nat)>, i: nat)
    requires i < |lost| && HasEntries(s, events, lost[..i])
    requires s'.tasks == s.tasks && s'.cpus.Keys == s.cpus.Keys + {lost[i].0}
    ensures HasEntries(s', events, lost[..i + 1])
  {
    hide TaskSeen, CpuSeen;
    var some, more := lost[..i], lost[..i + 1];
    assert more == some + [lost[i]] && more[i] == lost[i];
    forall c: nat
      ensures LossSeen(more, c) <==> LossSeen(some, c) || lost[i].0 == c
    {
      if k :| 0 <= k < |some| && some[k].0 == c { assert more[k].0 == c; }
    }
  }

  lemma StepCounts(s: State, e: Event)
    ensures Step(s, e).total == s.total + 1 && Step(s, e).unpairedBlocks == s.unpairedBlocks
    ensures forall c: nat :: CpuOf(Step(s, e), c).lost == CpuOf(s, c).lost
  {
    var s1 := Touch(s, e);
    assert s1.total == s.total + 1 && s1.unpairedBlocks == s.unpairedBlocks &&
           forall c: nat :: CpuOf(s1, c).lost == CpuOf(s, c).lost;
    hide Touch;
    if e.payload.Switch? {
      var s2 := SwitchStart(s1, e);
      assert forall c: nat :: CpuOf(s2, c).lost == CpuOf(s1, c).lost;
      if e.cpu in s2.running {
        CloseCounts(s2, e.cpu, s2.running[e.cpu], e.time);
      }
      hide Close, SwitchStart;
    }
  }

  lemma CloseCounts(s: State, c: nat, run: Running, now: nat)
    ensures Close(s, c, run, now).total == s.total && Close(s, c, run, now).unpairedBlocks == s.unpairedBlocks
    ensures forall x: nat :: CpuOf(Close(s, c, run, now), x).lost == CpuOf(s, x).lost
  {}

  lemma UnpairedIsFree(s: State, events: seq<Event>, n: nat)
    requires Closing(s, events, {})
    ensures Closing(s.(unpairedBlocks := n), events, {})
  {
    var s' := s.(unpairedBlocks := n);
    assert forall k :: Counter(s', k) == Counter(s, k);
    hide LastSwitch, FirstSwitch, Matching, BothTimes, ActiveAt, PairedAt, PairedWakes, UnpairedWakes, LastTime;
    assert SameBooks(s, s');
    SameStayBooked(s, s');
    SameWaits(s, s', events);
    SameClosing(s, s', events, {});
  }

  lemma SameClosing(s: State, s': State, events: seq<Event>, done: set<nat>)
    requires s'.intervals == s.intervals && s'.running == s.running
    requires InTimeOrder(events) ==> Chained(s, LastTime(events), done) && forall c: nat :: ClosedAt(s, events, c, done)
    ensures InTimeOrder(events) ==> Chained(s', LastTime(events), done)
    ensures InTimeOrder(events) ==> forall c: nat :: ClosedAt(s', events, c, done)
  {
    hide LastSwitch, FirstSwitch, Matching, BothTimes, LastTime;
    if InTimeOrder(events) {
      forall c: nat
        ensures ClosedAt(s', events, c, done)
      {
        assert ClosedAt(s, events, c, done);
      }
      forall i | 0 <= i < |s.intervals|
        ensures EndsBefore(s', s.intervals[i], LastTime(events), done)
      {
        assert EndsBefore(s, s.intervals[i], LastTime(events), done);
      }
    }
  }

  lemma LostIsFree(s: State, events: seq<Event>, done: set<nat>, c: nat, count: nat)
    requires Closing(s, events, done)
    ensures Closing(s.(cpus := s.cpus[c := CpuOf(s, c).(lost := count)]), events, done)
  {
    var s' := s.(cpus := s.cpus[c := CpuOf(s, c).(lost := count)]);
    assert SameBooks(s, s');
    assert forall k :: Counter(s', k) == Counter(s, k);
    hide LastSwitch, FirstSwitch, Matching, BothTimes, ActiveAt, PairedAt, PairedWakes, UnpairedWakes, LastTime;
    SameStayBooked(s, s');
    SameWaits(s, s', events);
    SameClosing(s, s', events, done);
  }

  lemma ClosingEnd(s: State, events: seq<Event>)
    requires Closing(s, events, s.running.Keys)
    ensures Booked(s) && Listed(s) && WaitsOk(s, events) && Counted(s, events)
    ensures Time(s.intervals) < U64 ==>
              Sum(OnCpuByTask(s), s.tasks.Keys) == Time(s.intervals) == Sum(BusyAndIdle(s), s.cpus.Keys)
    ensures InTimeOrder(events) ==> Apart(s.intervals)
    ensures InTimeOrder(events) ==> forall i :: 0 <= i < |s.intervals| ==> IntervalOk(s.intervals[i])
    ensures InTimeOrder(events) ==> forall c: nat :: FirstSwitch(events, c) >= 0 && Matching(events, c) ==>
              BothTimes(s.intervals, c) == LastTime(events) - events[FirstSwitch(events, c)].time
  {
    hide LastSwitch, FirstSwitch, Matching, BothTimes, Booked, Listed, WaitsOk, LastTime, Time, Sum, IntervalOk, Apart,
         Counted;
    if Time(s.intervals) < U64 {
      TimeIsConserved(s);
    }
    if InTimeOrder(events) {
      forall c: nat | FirstSwitch(events, c) >= 0 && Matching(events, c)
        ensures BothTimes(s.intervals, c) == LastTime(events) - events[FirstSwitch(events, c)].time
      {
        assert ClosedAt(s, events, c, s.running.Keys);
      }
      forall i | 0 <= i < |s.intervals|
        ensures IntervalOk(s.intervals[i])
      {
        assert EndsBefore(s, s.intervals[i], LastTime(events), s.running.Keys);
      }
    }
  }
}
