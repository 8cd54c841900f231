/** Session statistics: on-CPU and blocked time accounted over a stream of scheduler events. */
module Stats {
  import opened Bytes
  import opened Sums

  datatype Payload =
    | Switch(prev: nat, next: nat)
    | Block(sequence: nat, reason: nat, resource: nat)
    | Wake(target: nat, sequence: nat, waker: nat)
    | Metadata(target: nat)
    | Sample
    | Other

  datatype Event = Event(time: nat, cpu: nat, task: nat, payload: Payload)

  datatype Cpu = Cpu(events: nat, samples: nat, switches: nat, lost: nat, busy: nat, idle: nat)

  datatype Task = Task(onCpu: nat, waited: nat, blocks: nat, wakes: nat, samples: nat)

  /** A stretch of time during which a task ran on a CPU. */
  datatype Interval = Interval(cpu: nat, task: nat, start: nat, end: nat, duration: nat)

  /** A stretch of time between a block and the wake with the same sequence number. */
  datatype Wait = Wait(task: nat, sequence: nat, reason: nat, resource: nat, start: nat, end: nat, duration: nat,
                       waker: nat)

  datatype Blocked = Blocked(start: nat, reason: nat, resource: nat)

  datatype Running = Running(task: nat, since: nat)

  datatype State = State(
    cpus: map<nat, Cpu>, tasks: map<nat, Task>, total: nat, unpairedWakes: nat, unpairedBlocks: nat,
    intervals: seq<Interval>, waits: seq<Wait>,
    running: map<nat, Running>, active: map<(nat, nat), Blocked>)

  const NEW_CPU := Cpu(0, 0, 0, 0, 0, 0)
  const NEW_TASK := Task(0, 0, 0, 0, 0)
  const START := State(map[], map[], 0, 0, 0, [], [], map[], map[])

  // ----- Saturating arithmetic

  /** The nearest 64-bit value. */
  function Sat(x: nat): (r: nat)
    ensures r <= x && r <= 0xFFFF_FFFF_FFFF_FFFF && (r < 0xFFFF_FFFF_FFFF_FFFF ==> r == x)
  {
    if x < U64 then x else U64 - 1
  }

  function SatAdd(x: nat, y: nat): nat { Sat(x + y) }

  function SatSub(x: nat, y: nat): (r: nat)
    ensures r + y >= x && (r > 0 ==> r + y == x)
  {
    if x < y then 0 else x - y
  }

  // ----- One event

  function CpuOf(s: State, c: nat): Cpu { if c in s.cpus then s.cpus[c] else NEW_CPU }

  function TaskOf(s: State, t: nat): Task { if t in s.tasks then s.tasks[t] else NEW_TASK }

  /** Adds an entry for a task unless there is one. */
  function Ensure(s: State, t: nat): State {
    s.(tasks := s.tasks[t := TaskOf(s, t)])
  }

  /** Counts the event and makes sure its CPU and task have entries. */
  function Touch(s: State, e: Event): State {
    var cpu := CpuOf(s, e.cpu);
    Ensure(s.(total := s.total + 1, cpus := s.cpus[e.cpu := cpu.(events := cpu.events + 1)]), e.task)
  }

  /** Closes an interval that is not empty and books its time to the task and the CPU; task 0 is the idle task. */
  function Close(s: State, c: nat, run: Running, now: nat): State {
    var duration := SatSub(now, run.since);
    if duration == 0 then s
    else
      var task, cpu := TaskOf(s, run.task), CpuOf(s, c);
      s.(intervals := s.intervals + [Interval(c, run.task, run.since, now, duration)],
         tasks := s.tasks[run.task := task.(onCpu := SatAdd(task.onCpu, duration))],
         cpus := s.cpus[c := if run.task == 0 then cpu.(idle := SatAdd(cpu.idle, duration))
                             else cpu.(busy := SatAdd(cpu.busy, duration))])
  }

  function OnSwitch(s: State, e: Event): State
    requires e.payload.Switch?
  {
    var s2 := SwitchStart(s, e);
    var s3 := if e.cpu in s2.running && s2.running[e.cpu].task == e.payload.prev
              then Close(s2, e.cpu, s2.running[e.cpu], e.time) else s2;
    s3.(running := s3.running[e.cpu := Running(e.payload.next, e.time)])
  }

  function OnBlock(s: State, e: Event): State
    requires e.payload.Block?
  {
    var task := TaskOf(s, e.task);
    s.(tasks := s.tasks[e.task := task.(blocks := task.blocks + 1)],
       active := s.active[(e.task, e.payload.sequence) := Blocked(e.time, e.payload.reason, e.payload.resource)])
  }

  function OnWake(s: State, e: Event): State
    requires e.payload.Wake?
  {
    var t := e.payload.target;
    var key := (t, e.payload.sequence);
    var task := TaskOf(s, t);
    var woken := task.(wakes := task.wakes + 1);
    if key in s.active then
      var b := s.active[key];
      var duration := SatSub(e.time, b.start);
      s.(tasks := s.tasks[t := woken.(waited := SatAdd(woken.waited, duration))],
         active := s.active - {key},
         waits := s.waits + [Wait(t, e.payload.sequence, b.reason, b.resource, b.start, e.time, duration,
           e.payload.waker)])
    else s.(tasks := s.tasks[t := woken], unpairedWakes := s.unpairedWakes + 1)
  }

  function OnSample(s: State, e: Event): State {
    var cpu, task := CpuOf(s, e.cpu), TaskOf(s, e.task);
    s.(cpus := s.cpus[e.cpu := cpu.(samples := cpu.samples + 1)],
      tasks := s.tasks[e.task := task.(samples := task.samples + 1)])
  }

  function Step(s: State, e: Event): State {
    var s1 := Touch(s, e);
    match e.payload
    case Switch(_, _) => OnSwitch(s1, e)
    case Block(_, _, _) => OnBlock(s1, e)
    case Wake(_, _, _) => OnWake(s1, e)
    case Metadata(target) => Ensure(s1, target)
    case Sample => OnSample(s1, e)
    case Other => s1
  }

  // ----- Time by task and by CPU

  function Time(ivs: seq<Interval>): nat {
    if ivs == [] then 0 else Time(ivs[..|ivs| - 1]) + ivs[|ivs| - 1].duration
  }

  function TaskTime(ivs: seq<Interval>, t: nat): nat {
    if ivs == [] then 0
    else TaskTime(ivs[..|ivs| - 1], t) + if ivs[|ivs| - 1].task == t then ivs[|ivs| - 1].duration else 0
  }

  /** Time on CPU `c`, of the idle task or of all others. */
  function CpuTime(ivs: seq<Interval>, c: nat, idle: bool): nat {
    if ivs == [] then 0
    else CpuTime(ivs[..|ivs| - 1], c, idle) +
         var last := ivs[|ivs| - 1]; if last.cpu == c && (last.task == 0) == idle then last.duration else 0
  }

  function WaitTime(ws: seq<Wait>, t: nat): nat {
    if ws == [] then 0
    else WaitTime(ws[..|ws| - 1], t) + if ws[|ws| - 1].task == t then ws[|ws| - 1].duration else 0
  }

  predicate TaskBooked(s: State, t: nat) {
    TaskOf(s, t).onCpu == Sat(TaskTime(s.intervals, t)) && TaskOf(s, t).waited == Sat(WaitTime(s.waits, t))
  }

  predicate CpuBooked(s: State, c: nat) {
    CpuOf(s, c).busy == Sat(CpuTime(s.intervals, c, false)) && CpuOf(s, c).idle == Sat(CpuTime(s.intervals, c, true))
  }

  /** Every counter is the saturated sum of the intervals it stands for. */
  ghost predicate Booked(s: State) {
    (forall t: nat :: TaskBooked(s, t)) && (forall c: nat :: CpuBooked(s, c))
  }

  /** Tasks and CPUs that run or ran have entries. */
  ghost predicate Listed(s: State) {
    && (forall c :: c in s.running ==> c in s.cpus && s.running[c].task in s.tasks)
    && (forall i :: 0 <= i < |s.intervals| ==> s.intervals[i].task in s.tasks && s.intervals[i].cpu in s.cpus)
  }

  lemma AppendTime(ivs: seq<Interval>, iv: Interval, x: nat, idle: bool)
    ensures Time(ivs + [iv]) == Time(ivs) + iv.duration
    ensures TaskTime(ivs + [iv], x) == TaskTime(ivs, x) + if iv.task == x then iv.duration else 0
    ensures CpuTime(ivs + [iv], x, idle) ==
            CpuTime(ivs, x, idle) + if iv.cpu == x && (iv.task == 0) == idle then iv.duration else 0
  {
    assert (ivs + [iv])[..|ivs|] == ivs;
  }

  lemma AppendWait(ws: seq<Wait>, w: Wait, t: nat)
    ensures WaitTime(ws + [w], t) == WaitTime(ws, t) + if w.task == t then w.duration else 0
  {
    assert (ws + [w])[..|ws|] == ws;
  }

  /** Neither the intervals nor the times of any task or CPU differ. */
  ghost predicate SameBooks(s: State, s': State) {
    && s'.intervals == s.intervals && s'.waits == s.waits
    && (forall t: nat :: TaskOf(s', t).onCpu == TaskOf(s, t).onCpu && TaskOf(s', t).waited == TaskOf(s, t).waited)
    && (forall c: nat :: CpuOf(s', c).busy == CpuOf(s, c).busy && CpuOf(s', c).idle == CpuOf(s, c).idle)
  }

  lemma SameStayBooked(s: State, s': State)
    requires Booked(s) && SameBooks(s, s')
    ensures Booked(s')
  {
    hide TaskOf, CpuOf, TaskTime, CpuTime, WaitTime, Sat;
    forall t: nat ensures TaskBooked(s', t) { assert TaskBooked(s, t); }
    forall c: nat ensures CpuBooked(s', c) { assert CpuBooked(s, c); }
  }

  lemma CloseBooks(s: State, c: nat, run: Running, now: nat)
    requires Booked(s)
    ensures Booked(Close(s, c, run, now))
  {
    hide TaskTime, CpuTime, WaitTime;
    var iv := Interval(c, run.task, run.since, now, SatSub(now, run.since));
    var s' := Close(s, c, run, now);
    forall t: nat
      ensures TaskBooked(s', t)
    {
      assert TaskBooked(s, t);
      AppendTime(s.intervals, iv, t, false);
    }
    forall x: nat
      ensures CpuBooked(s', x)
    {
      assert CpuBooked(s, x);
      AppendTime(s.intervals, iv, x, false);
      AppendTime(s.intervals, iv, x, true);
    }
  }

  lemma StepBooks(s: State, e: Event)
    requires Booked(s)
    ensures Booked(Step(s, e))
  {
    var s1 := Touch(s, e);
    assert SameBooks(s, s1);
    hide TaskTime, CpuTime, WaitTime, Close, Touch, Booked;
    SameStayBooked(s, s1);
    match e.payload
    case Switch(_, _) => SwitchBooks(s1, e);
    case Wake(_, _, _) => WakeBooks(s1, e);
    case Block(_, _, _) => SameStayBooked(s1, OnBlock(s1, e));
    case Metadata(target) => SameStayBooked(s1, Ensure(s1, target));
    case Sample => SameStayBooked(s1, OnSample(s1, e));
    case Other =>
  }

  /** A switch up to the closing of the running interval. */
  function SwitchStart(s: State, e: Event): State
    requires e.payload.Switch?
  {
    var cpu := CpuOf(s, e.cpu);
    var s1 := s.(cpus := s.cpus[e.cpu := cpu.(switches := cpu.switches + 1)]);
    Ensure(Ensure(s1, e.payload.prev), e.payload.next)
  }

  lemma SwitchBooks(s: State, e: Event)
    requires Booked(s) && e.payload.Switch?
    ensures Booked(OnSwitch(s, e))
  {
    var s2 := SwitchStart(s, e);
    assert SameBooks(s, s2);
    hide TaskTime, CpuTime, WaitTime, Close, Booked;
    SameStayBooked(s, s2);
    if e.cpu in s2.running && s2.running[e.cpu].task == e.payload.prev {
      CloseBooks(s2, e.cpu, s2.running[e.cpu], e.time);
      SameStayBooked(Close(s2, e.cpu, s2.running[e.cpu], e.time), OnSwitch(s, e));
    } else {
      SameStayBooked(s2, OnSwitch(s, e));
    }
  }

  lemma WakeBooks(s: State, e: Event)
    requires Booked(s) && e.payload.Wake?
    ensures Booked(OnWake(s, e))
  {
    hide TaskTime, CpuTime, WaitTime;
    var t, key := e.payload.target, (e.payload.target, e.payload.sequence);
    var s' := OnWake(s, e);
    forall x: nat ensures CpuBooked(s', x) { assert CpuBooked(s, x); }
    forall x: nat
      ensures TaskBooked(s', x)
    {
      assert TaskBooked(s, x);
      if key in s.active {
        var b := s.active[key];
        AppendWait(s.waits, Wait(t, e.payload.sequence, b.reason, b.resource, b.start, e.time, SatSub(e.time, b.start),
          e.payload.waker), x);
      }
    }
  }

  lemma CloseLists(s: State, c: nat, run: Running, now: nat)
    requires Listed(s) && run.task in s.tasks && c in s.cpus
    ensures Listed(Close(s, c, run, now))
  {}

  lemma SwitchLists(s: State, e: Event)
    requires Listed(s) && e.payload.Switch? && e.cpu in s.cpus
    ensures Listed(OnSwitch(s, e))
  {
    var s2 := SwitchStart(s, e);
    assert Listed(s2);
    if e.cpu in s2.running && s2.running[e.cpu].task == e.payload.prev {
      CloseLists(s2, e.cpu, s2.running[e.cpu], e.time);
    }
  }

  lemma StepLists(s: State, e: Event)
    requires Listed(s)
    ensures Listed(Step(s, e))
  {
    hide OnSwitch, Close;
    var s1 := Touch(s, e);
    assert Listed(s1);
    if e.payload.Switch? {
      SwitchLists(s1, e);
    }
  }

  // ----- Who has an entry

  function TasksOf(e: Event): set<nat> {
    {e.task} + match e.payload
               case Switch(prev, next) => {prev, next}
               case Wake(target, _, _) => {target}
               case Metadata(target) => {target}
               case _ => {}
  }

  ghost predicate TaskSeen(events: seq<Event>, t: nat) {
    exists i :: 0 <= i < |events| && t in TasksOf(events[i])
  }

  ghost predicate CpuSeen(events: seq<Event>, c: nat) {
    exists i :: 0 <= i < |events| && events[i].cpu == c
  }

  /** Every task and CPU that an event names has an entry, and no other. */
  ghost predicate Entered(s: State, events: seq<Event>) {
    && (forall t: nat :: t in s.tasks <==> TaskSeen(events, t))
    && (forall c: nat :: c in s.cpus <==> CpuSeen(events, c))
  }

  lemma StepEnters(s: State, e: Event)
    requires Listed(s)
    ensures Step(s, e).tasks.Keys == s.tasks.Keys + TasksOf(e) && Step(s, e).cpus.Keys == s.cpus.Keys + {e.cpu}
  {
    var s1 := Touch(s, e);
    assert s1.tasks.Keys == s.tasks.Keys + {e.task} && s1.cpus.Keys == s.cpus.Keys + {e.cpu};
    hide Touch, OnSwitch;
    if e.payload.Switch? {
      TouchKeeps(s, e);
      SwitchEnters(s1, e);
    }
  }

  lemma SwitchEnters(s: State, e: Event)
    requires e.payload.Switch? && e.cpu in s.cpus
    ensures OnSwitch(s, e).tasks.Keys == s.tasks.Keys + {e.payload.prev, e.payload.next}
    ensures OnSwitch(s, e).cpus.Keys == s.cpus.Keys
  {
    hide Close;
    var s2 := SwitchStart(s, e);
    if e.cpu in s2.running && s2.running[e.cpu].task == e.payload.prev {
      CloseEnters(s2, e.cpu, s2.running[e.cpu], e.time);
    }
  }

  lemma EnteredStart()
    ensures Entered(START, [])
  {}

  lemma CloseEnters(s: State, c: nat, run: Running, now: nat)
    requires run.task in s.tasks && c in s.cpus
    ensures Close(s, c, run, now).tasks.Keys == s.tasks.Keys && Close(s, c, run, now).cpus.Keys == s.cpus.Keys
  {}

  lemma AppendSeen(events: seq<Event>, e: Event, x: nat)
    ensures TaskSeen(events + [e], x) <==> TaskSeen(events, x) || x in TasksOf(e)
    ensures CpuSeen(events + [e], x) <==> CpuSeen(events, x) || x == e.cpu
  {
    hide TasksOf;
    var all := events + [e];
    assert all[|events|] == e;
    assert forall i :: 0 <= i < |events| ==> all[i] == events[i];
    if i :| 0 <= i < |events| && x in TasksOf(events[i]) { assert x in TasksOf(all[i]); }
    if i :| 0 <= i < |events| && events[i].cpu == x { assert all[i].cpu == x; }
  }

  lemma StepEntered(s: State, events: seq<Event>, e: Event)
    requires Listed(s) && Entered(s, events)
    ensures Entered(Step(s, e), events + [e])
  {
    hide Step, TasksOf, Listed, TaskSeen, CpuSeen;
    StepEnters(s, e);
    forall x: nat
      ensures x in Step(s, e).tasks <==> TaskSeen(events + [e], x)
      ensures x in Step(s, e).cpus <==> CpuSeen(events + [e], x)
    {
      AppendSeen(events, e, x);
    }
  }

  // ----- Totals

  /** Raising one value raises the sum. */
  lemma SumBump(w: map<nat, int>, v: map<nat, int>, keys: set<nat>, x: nat, d: int)
    requires keys <= w.Keys && keys <= v.Keys && x in keys && v[x] == w[x] + d
    requires forall y :: y in keys && y != x ==> v[y] == w[y]
    ensures Sum(v, keys) == Sum(w, keys) + d
  {
    SumRemove(w, keys, x);
    SumRemove(v, keys, x);
    SumAgree(w, v, keys - {x});
  }

  lemma {:induction false} SumZero(w: map<nat, int>, keys: set<nat>)
    requires keys <= w.Keys && forall x :: x in keys ==> w[x] == 0
    ensures Sum(w, keys) == 0
    decreases |keys|
  {
    if keys != {} {
      var x :| x in keys;
      SumRemove(w, keys, x);
      SumZero(w, keys - {x});
    }
  }

  ghost function TaskTimes(ivs: seq<Interval>, keys: set<nat>): map<nat, int> {
    map t | t in keys :: TaskTime(ivs, t)
  }

  ghost function CpuTimes(ivs: seq<Interval>, keys: set<nat>): map<nat, int> {
    map c | c in keys :: CpuTime(ivs, c, false) + CpuTime(ivs, c, true)
  }

  /** Time summed over tasks, or over CPUs, is the time of all intervals. */
  lemma {:induction false} TimeIsPartitioned(ivs: seq<Interval>, tasks: set<nat>, cpus: set<nat>)
    requires forall i :: 0 <= i < |ivs| ==> ivs[i].task in tasks && ivs[i].cpu in cpus
    ensures Sum(TaskTimes(ivs, tasks), tasks) == Time(ivs)
    ensures Sum(CpuTimes(ivs, cpus), cpus) == Time(ivs)
  {
    if ivs == [] {
      SumZero(TaskTimes(ivs, tasks), tasks);
      SumZero(CpuTimes(ivs, cpus), cpus);
    } else {
      var rest, last := ivs[..|ivs| - 1], ivs[|ivs| - 1];
      TimeIsPartitioned(rest, tasks, cpus);
      SumBump(TaskTimes(rest, tasks), TaskTimes(ivs, tasks), tasks, last.task, last.duration);
      SumBump(CpuTimes(rest, cpus), CpuTimes(ivs, cpus), cpus, last.cpu, last.duration);
    }
  }

  lemma {:induction false} PartsFit(ivs: seq<Interval>, x: nat)
    ensures TaskTime(ivs, x) <= Time(ivs) && CpuTime(ivs, x, false) + CpuTime(ivs, x, true) <= Time(ivs)
  {
    if ivs != [] {
      PartsFit(ivs[..|ivs| - 1], x);
    }
  }

  ghost function OnCpuByTask(s: State): map<nat, int> {
    map t | t in s.tasks :: s.tasks[t].onCpu
  }

  ghost function BusyAndIdle(s: State): map<nat, int> {
    map c | c in s.cpus :: s.cpus[c].busy + s.cpus[c].idle
  }

  /** Without saturation, time by task, time by CPU and the time of all intervals are the same. */
  lemma TimeIsConserved(s: State)
    requires Booked(s) && Listed(s) && Time(s.intervals) < U64
    ensures Sum(OnCpuByTask(s), s.tasks.Keys) == Time(s.intervals)
    ensures Sum(BusyAndIdle(s), s.cpus.Keys) == Time(s.intervals)
  {
    hide TaskTime, CpuTime, WaitTime, Sum;
    TimeIsPartitioned(s.intervals, s.tasks.Keys, s.cpus.Keys);
    forall t | t in s.tasks
      ensures OnCpuByTask(s)[t] == TaskTimes(s.intervals, s.tasks.Keys)[t]
    {
      assert TaskBooked(s, t);
      PartsFit(s.intervals, t);
    }
    forall c | c in s.cpus
      ensures BusyAndIdle(s)[c] == CpuTimes(s.intervals, s.cpus.Keys)[c]
    {
      assert CpuBooked(s, c);
      PartsFit(s.intervals, c);
    }
    SumAgree(OnCpuByTask(s), TaskTimes(s.intervals, s.tasks.Keys), s.tasks.Keys);
    SumAgree(BusyAndIdle(s), CpuTimes(s.intervals, s.cpus.Keys), s.cpus.Keys);
  }

  // ----- Order in time

  predicate IntervalOk(iv: Interval) {
    iv.start < iv.end && iv.duration == iv.end - iv.start
  }

  /** Intervals of one CPU follow each other without overlap. */
  ghost predicate Apart(ivs: seq<Interval>) {
    forall i, j :: 0 <= i < j < |ivs| && ivs[i].cpu == ivs[j].cpu ==> ivs[i].end <= ivs[j].start
  }

  /** `from` is the time since which CPU `c` is unaccounted for; `done` CPUs are accounted for up to `now`. */
  ghost predicate Chained(s: State, now: nat, done: set<nat>) {
    && Apart(s.intervals)
    && (forall i :: 0 <= i < |s.intervals| ==> EndsBefore(s, s.intervals[i], now, done))
    && (forall c :: c in s.running ==> s.running[c].since <= now)
  }

  ghost predicate EndsBefore(s: State, iv: Interval, now: nat, done: set<nat>) {
    IntervalOk(iv) && iv.cpu in s.running && iv.end <= if iv.cpu in done then now else s.running[iv.cpu].since
  }

  lemma CloseChains(s: State, c: nat, now: nat, done: set<nat>)
    requires Chained(s, now, done) && c in s.running && c !in done
    ensures Chained(Close(s, c, s.running[c], now), now, done + {c})
  {
    var s', run := Close(s, c, s.running[c], now), s.running[c];
    forall i | 0 <= i < |s'.intervals|
      ensures EndsBefore(s', s'.intervals[i], now, done + {c})
      ensures i < |s.intervals| && s.intervals[i].cpu == c ==> s.intervals[i].end <= run.since
    {
      if i < |s.intervals| {
        assert EndsBefore(s, s.intervals[i], now, done);
      }
    }
  }

  lemma StepChains(s: State, e: Event, now: nat)
    requires Chained(s, now, {}) && now <= e.time
    ensures Chained(Step(s, e), e.time, {})
  {
    var s1, s' := Touch(s, e), Step(s, e);
    hide Touch;
    TouchKeeps(s, e);
    if e.payload.Switch? {
      SwitchChains(s1, e, now);
    } else {
      hide Chained;
      OthersKeep(s, e);
      SameChains(s, s', now, e.time);
    }
  }

  lemma TouchKeeps(s: State, e: Event)
    ensures Touch(s, e).intervals == s.intervals && Touch(s, e).running == s.running
    ensures Touch(s, e).waits == s.waits && Touch(s, e).active == s.active
  {}

  lemma OthersKeep(s: State, e: Event)
    requires !e.payload.Switch?
    ensures Step(s, e).intervals == s.intervals && Step(s, e).running == s.running
  {}

  lemma SameChains(s: State, s': State, now: nat, later: nat)
    requires Chained(s, now, {}) && now <= later && s'.intervals == s.intervals && s'.running == s.running
    ensures Chained(s', later, {})
  {
    forall i | 0 <= i < |s'.intervals|
      ensures EndsBefore(s', s'.intervals[i], later, {})
    {
      assert EndsBefore(s, s.intervals[i], now, {});
    }
  }

  lemma SwitchChains(s: State, e: Event, now: nat)
    requires Chained(s, now, {}) && now <= e.time && e.payload.Switch?
    ensures Chained(OnSwitch(s, e), e.time, {})
  {
    var s2 := SwitchStart(s, e);
    SameChains(s, s2, now, e.time);
    var s' := OnSwitch(s, e);
    var closes := e.cpu in s2.running && s2.running[e.cpu].task == e.payload.prev;
    var s3 := if closes then Close(s2, e.cpu, s2.running[e.cpu], e.time) else s2;
    if closes {
      CloseChains(s2, e.cpu, e.time, {});
    }
    hide Close;
    forall i | 0 <= i < |s'.intervals|
      ensures EndsBefore(s', s'.intervals[i], e.time, {})
    {
      assert EndsBefore(s3, s3.intervals[i], e.time, if closes then {} + {e.cpu} else {});
    }
  }

  ghost predicate InTimeOrder(events: seq<Event>) {
    forall i, j :: 0 <= i < j < |events| ==> events[i].time <= events[j].time
  }

  function LastTime(events: seq<Event>): nat {
    if events == [] then 0 else events[|events| - 1].time
  }

  // ----- Switches of one CPU

  predicate IsSwitch(e: Event, c: nat) {
    e.payload.Switch? && e.cpu == c
  }

  function LastSwitch(events: seq<Event>, c: nat): (i: int)
    ensures -1 <= i < |events| && (i >= 0 ==> IsSwitch(events[i], c))
  {
    if events == [] then -1
    else if IsSwitch(events[|events| - 1], c) then |events| - 1
    else LastSwitch(events[..|events| - 1], c)
  }

  function FirstSwitch(events: seq<Event>, c: nat): (i: int)
    ensures -1 <= i < |events| && (i >= 0 ==> IsSwitch(events[i], c))
    ensures i >= 0 <==> LastSwitch(events, c) >= 0
  {
    if events == [] then -1
    else
      var i := FirstSwitch(events[..|events| - 1], c);
      if i >= 0 then i else if IsSwitch(events[|events| - 1], c) then |events| - 1 else -1
  }

  /** Every switch on the CPU but the first names, as the task that leaves, the task that came last. */
  ghost predicate Matching(events: seq<Event>, c: nat) {
    forall j :: 0 <= j < |events| ==> MatchesAt(events, c, j)
  }

  predicate MatchesAt(events: seq<Event>, c: nat, j: nat)
    requires j < |events|
  {
    var i := LastSwitch(events[..j], c);
    IsSwitch(events[j], c) && i >= 0 ==> events[i].payload.next == events[j].payload.prev
  }

  lemma AppendSwitch(events: seq<Event>, e: Event, c: nat)
    ensures LastSwitch(events + [e], c) == if IsSwitch(e, c) then |events| else LastSwitch(events, c)
    ensures FirstSwitch(events + [e], c) ==
            if FirstSwitch(events, c) >= 0 then FirstSwitch(events, c) else if IsSwitch(e, c) then |events| else -1
    ensures Matching(events + [e], c) ==> Matching(events, c)
    ensures Matching(events + [e], c) && IsSwitch(e, c) && LastSwitch(events, c) >= 0 ==>
              events[LastSwitch(events, c)].payload.next == e.payload.prev
  {
    var all := events + [e];
    assert all[..|events|] == events;
    hide LastSwitch, FirstSwitch;
    if Matching(all, c) {
      assert MatchesAt(all, c, |events|);
      forall j | 0 <= j < |events|
        ensures MatchesAt(events, c, j)
      {
        assert all[..j] == events[..j];
        assert MatchesAt(all, c, j);
      }
    }
  }

  function BothTimes(ivs: seq<Interval>, c: nat): nat {
    CpuTime(ivs, c, false) + CpuTime(ivs, c, true)
  }

  lemma AppendBoth(ivs: seq<Interval>, iv: Interval, c: nat)
    ensures BothTimes(ivs + [iv], c) == BothTimes(ivs, c) + if iv.cpu == c then iv.duration else 0
  {
    AppendTime(ivs, iv, c, false);
    AppendTime(ivs, iv, c, true);
  }

  /** What is known of CPU `c`: the task that came last, and, when all switches match, all time since the first. */
  ghost predicate CoveredAt(s: State, events: seq<Event>, c: nat) {
    var i := LastSwitch(events, c);
    && (c in s.running <==> i >= 0)
    && (i >= 0 ==> s.running[c] == Running(events[i].payload.next, events[i].time))
    && (i >= 0 && Matching(events, c) ==>
          BothTimes(s.intervals, c) + events[FirstSwitch(events, c)].time == s.running[c].since)
    && (i < 0 ==> BothTimes(s.intervals, c) == 0)
  }

  lemma CloseCovers(s: State, c: nat, now: nat, x: nat)
    requires c in s.running && s.running[c].since <= now
    ensures BothTimes(Close(s, c, s.running[c], now).intervals, x) ==
            BothTimes(s.intervals, x) + if x == c then now - s.running[c].since else 0
  {
    hide CpuTime;
    var run := s.running[c];
    AppendBoth(s.intervals, Interval(c, run.task, run.since, now, SatSub(now, run.since)), x);
  }

  lemma StepCovers(s: State, events: seq<Event>, e: Event, now: nat, c: nat)
    requires CoveredAt(s, events, c) && Chained(s, now, {}) && now <= e.time
    ensures CoveredAt(Step(s, e), events + [e], c)
  {
    hide LastSwitch, FirstSwitch, Matching, BothTimes;
    AppendSwitch(events, e, c);
    if e.payload.Switch? {
      var s1 := Touch(s, e);
      assert s1.intervals == s.intervals && s1.running == s.running;
      SwitchCovers(s1, events, e, now, c);
    } else {
      OthersKeep(s, e);
    }
  }

  lemma SwitchCovers(s: State, events: seq<Event>, e: Event, now: nat, c: nat)
    requires CoveredAt(s, events, c) && now <= e.time && e.payload.Switch?
    requires forall x :: x in s.running ==> s.running[x].since <= now
    ensures CoveredAt(OnSwitch(s, e), events + [e], c)
  {
    hide LastSwitch, FirstSwitch, Matching, BothTimes, Close;
    AppendSwitch(events, e, c);
    var s2, s' := SwitchStart(s, e), OnSwitch(s, e);
    if e.cpu in s2.running && s2.running[e.cpu].task == e.payload.prev {
      CloseCovers(s2, e.cpu, e.time, c);
      CloseKeepsRunning(s2, e.cpu, s2.running[e.cpu], e.time);
    }
    if c != e.cpu {
      assert (events + [e])[..|events|] == events;
    }
  }

  lemma CloseKeepsRunning(s: State, c: nat, run: Running, now: nat)
    ensures Close(s, c, run, now).running == s.running
    ensures Close(s, c, run, now).waits == s.waits && Close(s, c, run, now).active == s.active
    ensures Close(s, c, run, now).unpairedWakes == s.unpairedWakes
  {}

  // ----- Blocks and wakes

  predicate Concerns(e: Event, t: nat, q: nat) {
    || (e.payload.Block? && e.task == t && e.payload.sequence == q)
    || (e.payload.Wake? && e.payload.target == t && e.payload.sequence == q)
  }

  function LastConcerning(events: seq<Event>, t: nat, q: nat): (i: int)
    ensures -1 <= i < |events| && (i >= 0 ==> Concerns(events[i], t, q))
  {
    if events == [] then -1
    else if Concerns(events[|events| - 1], t, q) then |events| - 1
    else LastConcerning(events[..|events| - 1], t, q)
  }

  /** The block that a wake after these events would end. */
  function OpenBlock(events: seq<Event>, t: nat, q: nat): (i: int)
    ensures -1 <= i < |events| && (i >= 0 ==> events[i].payload.Block? && Concerns(events[i], t, q))
  {
    var i := LastConcerning(events, t, q);
    if i >= 0 && events[i].payload.Block? then i else -1
  }

  lemma AppendConcerning(events: seq<Event>, e: Event, t: nat, q: nat)
    ensures OpenBlock(events + [e], t, q) ==
            if !Concerns(e, t, q) then OpenBlock(events, t, q) else if e.payload.Block? then |events| else -1
  {
    assert (events + [e])[..|events|] == events;
  }

  /** A block is active exactly while it is open. */
  ghost predicate ActiveAt(s: State, events: seq<Event>, t: nat, q: nat) {
    var i := OpenBlock(events, t, q);
    && ((t, q) in s.active <==> i >= 0)
    && (i >= 0 ==> s.active[(t, q)] == Blocked(events[i].time, events[i].payload.reason, events[i].payload.resource))
  }

  /** Wake `j` ended the block that was open, and the wait spans the time between the two. */
  ghost predicate PairedAt(events: seq<Event>, w: Wait, j: nat) {
    && j < |events| && events[j].payload.Wake?
    && events[j].payload.target == w.task && events[j].payload.sequence == w.sequence
    && events[j].payload.waker == w.waker && events[j].time == w.end
    && var i := OpenBlock(events[..j], w.task, w.sequence);
       && i >= 0 && events[i].time == w.start && events[i].payload.reason == w.reason &&
          events[i].payload.resource == w.resource
       && w.duration == SatSub(w.end, w.start)
  }

  function Wakes(events: seq<Event>): nat {
    if events == [] then 0 else Wakes(events[..|events| - 1]) + if events[|events| - 1].payload.Wake? then 1 else 0
  }

  /** A wake that finds the block it names open. */
  predicate EndsBlock(before: seq<Event>, e: Event) {
    e.payload.Wake? && OpenBlock(before, e.payload.target, e.payload.sequence) >= 0
  }

  /** The wakes that end a block, in order. */
  function PairedWakes(events: seq<Event>): (r: seq<nat>)
    ensures forall k :: 0 <= k < |r| ==> r[k] < |events|
  {
    if events == [] then []
    else
      var n := |events| - 1;
      PairedWakes(events[..n]) + if EndsBlock(events[..n], events[n]) then [n] else []
  }

  /** The number of wakes that end none. */
  function UnpairedWakes(events: seq<Event>): nat {
    if events == [] then 0
    else
      var n := |events| - 1;
      UnpairedWakes(events[..n]) + if events[n].payload.Wake? && !EndsBlock(events[..n], events[n]) then 1 else 0
  }

  lemma {:induction false} WakesAddUp(events: seq<Event>)
    ensures |PairedWakes(events)| + UnpairedWakes(events) == Wakes(events)
  {
    hide OpenBlock;
    if events != [] {
      WakesAddUp(events[..|events| - 1]);
    }
  }

  /** `PairedWakes` lists each wake that ends a block, and nothing else, once and in order. */
  lemma {:induction false} PairedWakesExact(events: seq<Event>)
    ensures forall j: nat :: j in PairedWakes(events) <==> j < |events| && EndsBlock(events[..j], events[j])
    ensures forall k, l :: 0 <= k < l < |PairedWakes(events)| ==> PairedWakes(events)[k] < PairedWakes(events)[l]
    ensures |PairedWakes(events)| + UnpairedWakes(events) == Wakes(events)
  {
    WakesAddUp(events);
    hide EndsBlock, UnpairedWakes, Wakes;
    if events != [] {
      var n := |events| - 1;
      PairedWakesExact(events[..n]);
      assert PairedWakes(events) ==
             PairedWakes(events[..n]) + if EndsBlock(events[..n], events[n]) then [n] else [];
      hide PairedWakes;
      forall j: nat
        ensures j in PairedWakes(events) <==> j < |events| && EndsBlock(events[..j], events[j])
      {
        if j < n {
          assert events[..n][..j] == events[..j] && events[..n][j] == events[j];
        }
      }
    }
  }

  /** Block by block: the k-th wait is the k-th wake that ended a block, and every other wake is counted. */
  ghost predicate WaitsOk(s: State, events: seq<Event>) {
    && (forall t: nat, q: nat :: ActiveAt(s, events, t, q))
    && |s.waits| == |PairedWakes(events)|
    && (forall k :: 0 <= k < |s.waits| ==> PairedAt(events, s.waits[k], PairedWakes(events)[k]))
    && s.unpairedWakes == UnpairedWakes(events)
  }

  lemma PairedStays(events: seq<Event>, e: Event, w: Wait, j: nat)
    requires PairedAt(events, w, j)
    ensures PairedAt(events + [e], w, j)
  {
    hide OpenBlock;
    assert (events + [e])[..j] == events[..j];
  }

  lemma StepActive(s: State, events: seq<Event>, e: Event, t: nat, q: nat)
    requires ActiveAt(s, events, t, q)
    ensures ActiveAt(Step(s, e), events + [e], t, q)
  {
    hide OpenBlock, Touch, OnSwitch;
    AppendConcerning(events, e, t, q);
    TouchKeeps(s, e);
    if e.payload.Switch? {
      SwitchKeepsWaits(Touch(s, e), e);
    }
  }

  lemma SwitchKeepsWaits(s: State, e: Event)
    requires e.payload.Switch?
    ensures OnSwitch(s, e).waits == s.waits && OnSwitch(s, e).active == s.active
    ensures OnSwitch(s, e).unpairedWakes == s.unpairedWakes
  {
    hide Close;
    var s2 := SwitchStart(s, e);
    if e.cpu in s2.running {
      CloseKeepsRunning(s2, e.cpu, s2.running[e.cpu], e.time);
    }
  }

  lemma WakesStep(events: seq<Event>, e: Event)
    ensures PairedWakes(events + [e]) == PairedWakes(events) + if EndsBlock(events, e) then [|events|] else []
    ensures UnpairedWakes(events + [e]) ==
            UnpairedWakes(events) + if e.payload.Wake? && !EndsBlock(events, e) then 1 else 0
  {
    assert (events + [e])[..|events|] == events;
  }

  lemma StepWaits(s: State, events: seq<Event>, e: Event)
    requires WaitsOk(s, events)
    ensures WaitsOk(Step(s, e), events + [e])
  {
    hide OpenBlock, Step, PairedAt, ActiveAt, EndsBlock, PairedWakes, UnpairedWakes;
    WakesStep(events, e);
    WaitsStep(s, events, e);
    var s' := Step(s, e);
    forall t: nat, q: nat
      ensures ActiveAt(s', events + [e], t, q)
    {
      StepActive(s, events, e, t, q);
    }
    forall k | 0 <= k < |s'.waits|
      ensures PairedAt(events + [e], s'.waits[k], PairedWakes(events + [e])[k])
    {
      if k < |s.waits| {
        PairedStays(events, e, s.waits[k], PairedWakes(events)[k]);
      }
    }
  }

  /** What a step does to the list of waits: a wake that ends a block adds the wait it ends, any other wake is
      counted. */
  lemma WaitsStep(s: State, events: seq<Event>, e: Event)
    requires e.payload.Wake? ==> ActiveAt(s, events, e.payload.target, e.payload.sequence)
    ensures var s' := Step(s, e);
            && |s'.waits| == |s.waits| + (if EndsBlock(events, e) then 1 else 0) && s'.waits[..|s.waits|] == s.waits
            && (EndsBlock(events, e) ==> PairedAt(events + [e], s'.waits[|s.waits|], |events|))
            && s'.unpairedWakes == s.unpairedWakes + if e.payload.Wake? && !EndsBlock(events, e) then 1 else 0
  {
    hide OpenBlock, Touch, OnSwitch;
    TouchKeeps(s, e);
    TouchCounts(s, e);
    if e.payload.Switch? {
      SwitchKeepsWaits(Touch(s, e), e);
    }
    assert (events + [e])[..|events|] == events;
  }

  lemma TouchCounts(s: State, e: Event)
    ensures Touch(s, e).unpairedWakes == s.unpairedWakes && Touch(s, e).total == s.total + 1
  {}

  // ----- Counts

  datatype Kind =
    | EventsOn(cpu: nat) | SwitchesOn(cpu: nat) | SamplesOn(cpu: nat)
    | BlocksBy(task: nat) | WakesOf(task: nat) | SamplesOf(task: nat)

  predicate Is(k: Kind, e: Event) {
    match k
    case EventsOn(c) => e.cpu == c
    case SwitchesOn(c) => e.cpu == c && e.payload.Switch?
    case SamplesOn(c) => e.cpu == c && e.payload.Sample?
    case BlocksBy(t) => e.task == t && e.payload.Block?
    case WakesOf(t) => e.payload.Wake? && e.payload.target == t
    case SamplesOf(t) => e.task == t && e.payload.Sample?
  }

  function Tally(events: seq<Event>, k: Kind): nat {
    if events == [] then 0 else Tally(events[..|events| - 1], k) + if Is(k, events[|events| - 1]) then 1 else 0
  }

  /** What a state says about a kind of event. */
  function Counter(s: State, k: Kind): nat {
    match k
    case EventsOn(c) => CpuOf(s, c).events
    case SwitchesOn(c) => CpuOf(s, c).switches
    case SamplesOn(c) => CpuOf(s, c).samples
    case BlocksBy(t) => TaskOf(s, t).blocks
    case WakesOf(t) => TaskOf(s, t).wakes
    case SamplesOf(t) => TaskOf(s, t).samples
  }

  ghost predicate Counted(s: State, events: seq<Event>) {
    forall k :: Counter(s, k) == Tally(events, k)
  }

  lemma CloseCounters(s: State, c: nat, run: Running, now: nat, k: Kind)
    ensures Counter(Close(s, c, run, now), k) == Counter(s, k)
  {}

  lemma TouchCounters(s: State, e: Event, k: Kind)
    ensures Counter(Touch(s, e), k) == Counter(s, k) + if k == EventsOn(e.cpu) then 1 else 0
  {}

  lemma SwitchCounters(s: State, e: Event, k: Kind)
    requires e.payload.Switch?
    ensures Counter(OnSwitch(s, e), k) == Counter(s, k) + if k == SwitchesOn(e.cpu) then 1 else 0
  {
    hide Close;
    var s2 := SwitchStart(s, e);
    if e.cpu in s2.running {
      CloseCounters(s2, e.cpu, s2.running[e.cpu], e.time, k);
    }
  }

  lemma StepCounters(s: State, e: Event, k: Kind)
    ensures Counter(Step(s, e), k) == Counter(s, k) + if Is(k, e) then 1 else 0
  {
    hide Touch, OnSwitch, OnBlock, OnWake, OnSample, Counter;
    TouchCounters(s, e, k);
    var s1 := Touch(s, e);
    match e.payload
    case Switch(_, _) => SwitchCounters(s1, e, k);
    case Block(_, _, _) => BlockCounters(s1, e, k);
    case Wake(_, _, _) => WakeCounters(s1, e, k);
    case Metadata(target) => EnsureCounters(s1, target, k);
    case Sample => SampleCounters(s1, e, k);
    case Other =>
  }

  lemma BlockCounters(s: State, e: Event, k: Kind)
    requires e.payload.Block?
    ensures Counter(OnBlock(s, e), k) == Counter(s, k) + if k == BlocksBy(e.task) then 1 else 0
  {}

  lemma WakeCounters(s: State, e: Event, k: Kind)
    requires e.payload.Wake?
    ensures Counter(OnWake(s, e), k) == Counter(s, k) + if k == WakesOf(e.payload.target) then 1 else 0
  {}

  lemma EnsureCounters(s: State, t: nat, k: Kind)
    ensures Counter(Ensure(s, t), k) == Counter(s, k)
  {}

  lemma SampleCounters(s: State, e: Event, k: Kind)
    ensures Counter(OnSample(s, e), k) ==
            Counter(s, k) + if k == SamplesOn(e.cpu) || k == SamplesOf(e.task) then 1 else 0
  {}

  lemma TallyStep(events: seq<Event>, e: Event, k: Kind)
    ensures Tally(events + [e], k) == Tally(events, k) + if Is(k, e) then 1 else 0
  {
    assert (events + [e])[..|events|] == events;
  }

  lemma StepCounted(s: State, events: seq<Event>, e: Event)
    requires Counted(s, events)
    ensures Counted(Step(s, e), events + [e])
  {
    hide Step, Counter, Tally, Is;
    forall k
      ensures Counter(Step(s, e), k) == Tally(events + [e], k)
    {
      StepCounters(s, e, k);
      TallyStep(events, e, k);
    }
  }

  /** The count of the last loss entry for the CPU. */
  function LastLost(lost: seq<(nat, nat)>, c: nat): nat {
    if lost == [] then 0
    else if lost[|lost| - 1].0 == c then lost[|lost| - 1].1
    else LastLost(lost[..|lost| - 1], c)
  }
}
