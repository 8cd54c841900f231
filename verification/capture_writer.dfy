/** The capture writer: a session that accepts records, counts what is lost, and emits the finished file. */
module CaptureWriting {
  import opened Options
  import opened Bytes
  import opened CaptureCodec
  import opened CaptureSchema
  import opened CaptureSession
  import opened CaptureFile
  import CaptureChecksum

  const SOFTWARE_EVENT: nat := 0x1000
  const PERF_RECORD_LOST: nat := 2
  const PERF_RECORD_SAMPLE: nat := 9

  // ----- Counting

  /** Addition of 64-bit counters. */
  /** 64-bit addition that wraps. */
  function Plus(x: nat, n: nat): (r: nat)
    ensures x < U64 && n < U64 ==> r == x + n || r == x + n - 0x1_0000_0000_0000_0000
    ensures r <= 0xFFFF_FFFF_FFFF_FFFF
  {
    (x + n) % U64
  }

  /** The nearest 64-bit value. */
  function Saturate(x: nat): (r: nat)
    ensures r <= x && r <= 0xFFFF_FFFF_FFFF_FFFF && (r < 0xFFFF_FFFF_FFFF_FFFF ==> r == x)
  {
    if x < U64 then x else U64 - 1
  }

  function PairSum(p: seq<(nat, nat)>): nat {
    if p == [] then 0 else PairSum(p[..|p| - 1]) + p[|p| - 1].1
  }

  ghost predicate DistinctCpus(p: seq<(nat, nat)>) {
    forall i, j :: 0 <= i < j < |p| ==> p[i].0 != p[j].0
  }

  /** Adds a loss to the entry of its CPU, or to a new entry at the end. */
  method AddLost(p: seq<(nat, nat)>, cpu: nat, n: nat) returns (r: seq<(nat, nat)>)
    requires DistinctCpus(p) && cpu < U32 && n < U64 && forall i :: 0 <= i < |p| ==> p[i].0 < U32 && p[i].1 < U64
    ensures DistinctCpus(r) && forall i :: 0 <= i < |r| ==> r[i].0 < U32 && r[i].1 < U64
    ensures PairSum(p) + n < U64 ==> PairSum(r) == PairSum(p) + n
    ensures forall c :: c != cpu ==> LostOn(r, c) == LostOn(p, c)
    ensures LostOn(r, cpu) == Saturate(LostOn(p, cpu) + n)
  {
    hide PairSum, LostOn;
    for i := 0 to |p|
      invariant forall j :: 0 <= j < i ==> p[j].0 != cpu
    {
      if p[i].0 == cpu {
        r := p[i := (cpu, Saturate(p[i].1 + n))];
        PairSumAt(p, i, r[i].1);
        LostReplaced(p, i, cpu, r[i].1);
        return;
      }
    }
    r := p + [(cpu, n)];
    PairSumAppend(p, (cpu, n));
    LostAppended(p, cpu, n);
  }

  /** What `get_cpu_lost` answers: the count of the first entry for the CPU. */
  function LostOn(p: seq<(nat, nat)>, cpu: nat): nat {
    if p == [] then 0 else if p[0].0 == cpu then p[0].1 else LostOn(p[1..], cpu)
  }

  lemma {:induction false} LostReplaced(p: seq<(nat, nat)>, i: nat, cpu: nat, v: nat)
    requires i < |p| && p[i].0 == cpu && forall j :: 0 <= j < i ==> p[j].0 != cpu
    ensures LostOn(p, cpu) == p[i].1 && LostOn(p[i := (cpu, v)], cpu) == v
    ensures forall c :: c != cpu ==> LostOn(p[i := (cpu, v)], c) == LostOn(p, c)
  {
    var r := p[i := (cpu, v)];
    if i == 0 {
      assert r[1..] == p[1..];
    } else {
      LostReplaced(p[1..], i - 1, cpu, v);
      assert r[1..] == p[1..][i - 1 := (cpu, v)];
    }
  }

  lemma {:induction false} LostAppended(p: seq<(nat, nat)>, cpu: nat, n: nat)
    requires forall j :: 0 <= j < |p| ==> p[j].0 != cpu
    ensures LostOn(p, cpu) == 0 && LostOn(p + [(cpu, n)], cpu) == n
    ensures forall c :: c != cpu ==> LostOn(p + [(cpu, n)], c) == LostOn(p, c)
  {
    var r := p + [(cpu, n)];
    if p == [] {
      assert r[1..] == [];
    } else {
      LostAppended(p[1..], cpu, n);
      assert r[1..] == p[1..] + [(cpu, n)];
    }
  }

  lemma PairSumAppend(p: seq<(nat, nat)>, x: (nat, nat))
    ensures PairSum(p + [x]) == PairSum(p) + x.1
  {
    assert (p + [x])[..|p|] == p;
  }

  lemma {:induction false} PairSumAt(p: seq<(nat, nat)>, i: nat, v: nat)
    requires i < |p|
    ensures PairSum(p[i := (p[i].0, v)]) + p[i].1 == PairSum(p) + v && p[i].1 <= PairSum(p)
  {
    var n := |p| - 1;
    var r := p[i := (p[i].0, v)];
    if i == n {
      assert r[..n] == p[..n];
    } else {
      PairSumAt(p[..n], i, v);
      assert r[..n] == p[..n][i := (p[i].0, v)];
    }
  }

  // ----- Records from raw samples

  function FromPerfEvent(raw: seq<u8>): (r: Result<Event>)
    ensures r.Ok? <==> |raw| >= 48
  {
    if |raw| < 48 then Err(TruncatedRecord)
    else
      Ok(Event(SOFTWARE_EVENT, 1, Num(raw, 16, 8), Num(raw, 24, 4), Num(raw, 28, 4), Num(raw, 32, 4), Num(raw, 40, 8),
               U64Bytes(Num(raw, 0, 8)) + U64Bytes(Num(raw, 8, 8))))
  }

  function FromTracepoint(id: nat, raw: seq<u8>): (r: Result<Event>)
    ensures r.Ok? <==> |raw| >= 40
  {
    if |raw| < 40 then Err(TruncatedRecord)
    else Ok(Event(id, Num(raw, 4, 4), Num(raw, 8, 8), Num(raw, 16, 4), Num(raw, 20, 4), Num(raw, 24, 4),
         Num(raw, 32, 8), raw[40..]))
  }

  /** A tracepoint sample is the record it was made from: id, version, time, CPU, process, thread, four unused
      bytes, task and payload. */
  lemma TracepointCarries(e: Event, unused: nat)
    requires FieldsOk(e)
    ensures FromTracepoint(e.eventId, U32Bytes(e.eventId) + U32Bytes(e.version) + U64Bytes(e.timestamp)
                                      + U32Bytes(e.cpu) + U32Bytes(e.pid) + U32Bytes(e.tid) + U32Bytes(unused)
                                      + U64Bytes(e.task) + e.payload) == Ok(e)
  {
    hide U32Bytes, U64Bytes, Num;
    var a, b, c, d := U32Bytes(e.eventId), U32Bytes(e.version), U64Bytes(e.timestamp), U32Bytes(e.cpu);
    var f, g, z, h := U32Bytes(e.pid), U32Bytes(e.tid), U32Bytes(unused), U64Bytes(e.task);
    var raw := a + b + c + d + f + g + z + h + e.payload;
    assert raw[40..] == e.payload;
    AtWhole(raw, []);
    assert raw + [] == raw;
    hide At;
    AtConcat(raw, 0, a + b + c + d + f + g + z + h, e.payload);
    AtConcat(raw, 0, a + b + c + d + f + g + z, h);
    AtConcat(raw, 0, a + b + c + d + f + g, z);
    AtConcat(raw, 0, a + b + c + d + f, g);
    AtConcat(raw, 0, a + b + c + d, f);
    AtConcat(raw, 0, a + b + c, d);
    AtConcat(raw, 0, a + b, c);
    AtConcat(raw, 0, a, b);
    Num32At(raw, 4, e.version);
    Num64At(raw, 8, e.timestamp);
    Num32At(raw, 16, e.cpu);
    Num32At(raw, 20, e.pid);
    Num32At(raw, 24, e.tid);
    Num64At(raw, 32, e.task);
  }

  /** A software event sample is the record it was made from: period and address, which become the payload, time, CPU,
      process, thread, four unused bytes and task. */
  lemma PerfEventCarries(e: Event, period: nat, address: nat, unused: nat)
    requires FieldsOk(e) && period < U64 && address < U64
    requires e.eventId == SOFTWARE_EVENT && e.version == 1 && e.payload == U64Bytes(period) + U64Bytes(address)
    ensures FromPerfEvent(U64Bytes(period) + U64Bytes(address) + U64Bytes(e.timestamp) + U32Bytes(e.cpu)
                          + U32Bytes(e.pid) + U32Bytes(e.tid) + U32Bytes(unused) + U64Bytes(e.task)) == Ok(e)
  {
    hide U32Bytes, U64Bytes, Num;
    var a, b, c, d := U64Bytes(period), U64Bytes(address), U64Bytes(e.timestamp), U32Bytes(e.cpu);
    var f, g, z, h := U32Bytes(e.pid), U32Bytes(e.tid), U32Bytes(unused), U64Bytes(e.task);
    var raw := a + b + c + d + f + g + z + h;
    AtWhole(raw, []);
    assert raw + [] == raw;
    hide At;
    AtConcat(raw, 0, a + b + c + d + f + g + z, h);
    AtConcat(raw, 0, a + b + c + d + f + g, z);
    AtConcat(raw, 0, a + b + c + d + f, g);
    AtConcat(raw, 0, a + b + c + d, f);
    AtConcat(raw, 0, a + b + c, d);
    AtConcat(raw, 0, a + b, c);
    AtConcat(raw, 0, a, b);
    Num64At(raw, 0, period);
    Num64At(raw, 8, address);
    Num64At(raw, 16, e.timestamp);
    Num32At(raw, 24, e.cpu);
    Num32At(raw, 28, e.pid);
    Num32At(raw, 32, e.tid);
    Num64At(raw, 40, e.task);
  }

  /** All fields but the payload fit; the payload is checked against the schema. */
  predicate FieldsOk(e: Event) {
    e.eventId < U32 && e.version < U32 && e.timestamp < U64 && e.cpu < U32 && e.pid < U32 && e.tid < U32 && e.task < U64
  }

  lemma RawFields(raw: seq<u8>, id: nat, cpu: nat)
    requires id < U32 && cpu < U32
    ensures |raw| >= 48 ==> FieldsOk(FromPerfEvent(raw).value.(cpu := cpu))
    ensures |raw| >= 40 ==> FieldsOk(FromTracepoint(id, raw).value.(cpu := cpu))
  {
    Powers();
  }

  /** The record a sample stands for: a software event of exactly 48 bytes, or a tracepoint the registry knows. */
  function SampleOf(reg: Registry, cpu: nat, raw: seq<u8>): (r: Option<Event>)
    ensures r.Some? ==> r.value.cpu == cpu && Lookup(reg, r.value.eventId).Some?
  {
    if |raw| == 48 && Lookup(reg, SOFTWARE_EVENT).Some? then Some(FromPerfEvent(raw).value.(cpu := cpu))
    else if |raw| >= 40 && Num(raw, 4, 4) == 1 && 1 <= Num(raw, 0, 4) <= 7 && Lookup(reg, Num(raw, 0, 4)).Some?
    then Some(FromTracepoint(Num(raw, 0, 4), raw).value.(cpu := cpu))
    else None
  }

  datatype Frame = Sample(bytes: seq<u8>) | Lost(n: nat) | Discarded | Busy | Corrupt

  /** A frame of the perf buffer: type, size, then a sized sample or a loss count. */
  function PerfFrame(raw: seq<u8>): (f: Frame)
    ensures f.Lost? ==> f.n < U64
  {
    Powers();
    if |raw| < 8 || |raw| < Num(raw, 6, 2) then Corrupt
    else
      var kind, size := Num(raw, 0, 4), Num(raw, 6, 2);
      if kind == PERF_RECORD_SAMPLE then
        if size < 12 || size < 12 + Num(raw, 8, 4) then Corrupt else Sample(raw[12..12 + Num(raw, 8, 4)])
      else if kind == PERF_RECORD_LOST then
        if size < 24 then Corrupt else Lost(Num(raw, 16, 8))
      else Corrupt
  }

  /** A frame of the ring buffer; the two top bits of its header mark it busy or discarded. */
  function RingFrame(raw: seq<u8>): Frame {
    if |raw| < 8 then Corrupt
    else if Num(raw, 0, 4) >= 0x8000_0000 then Busy
    else if |raw| < 8 + Num(raw, 0, 4) % 0x4000_0000 then Corrupt
    else if Num(raw, 0, 4) >= 0x4000_0000 then Discarded
    else Sample(raw[8..8 + Num(raw, 0, 4)])
  }

  /** A committed ring buffer frame carries its payload, whatever the page offset and padding around it. */
  lemma RingFrameCarries(payload: seq<u8>, pageOffset: nat, padding: seq<u8>)
    requires |payload| < 0x4000_0000
    ensures RingFrame(U32Bytes(|payload|) + U32Bytes(pageOffset) + payload + padding) == Sample(payload)
    ensures RingFrame(U32Bytes(|payload| + 0x4000_0000) + U32Bytes(pageOffset) + payload + padding) == Discarded
    ensures RingFrame(U32Bytes(|payload| + 0x8000_0000) + U32Bytes(pageOffset) + payload + padding) == Busy
  {
    RingHead(|payload|, U32Bytes(pageOffset), payload, padding);
    RingHead(|payload| + 0x4000_0000, U32Bytes(pageOffset), payload, padding);
    RingHead(|payload| + 0x8000_0000, U32Bytes(pageOffset), payload, padding);
  }

  lemma RingHead(head: nat, page: seq<u8>, payload: seq<u8>, padding: seq<u8>)
    requires head < U32 && |page| == 4
    ensures var raw := U32Bytes(head) + page + payload + padding;
            Num(raw, 0, 4) == head && raw[8..8 + |payload|] == payload
  {
    hide U32Bytes, Num;
    var raw := U32Bytes(head) + page + payload + padding;
    AtWhole(U32Bytes(head), page + payload + padding);
    assert raw == U32Bytes(head) + (page + payload + padding);
    Num32At(raw, 0, head);
  }

  /** A loss frame of the perf buffer carries its count. */
  lemma PerfLossCarries(n: nat, misc: nat, id: nat, padding: seq<u8>)
    requires n < U64 && 24 + |padding| < U16
    ensures PerfFrame(U32Bytes(PERF_RECORD_LOST) + ToLe(misc, 2) + ToLe(24 + |padding|, 2)
                      + U64Bytes(id) + U64Bytes(n) + padding) == Lost(n)
  {
    hide U32Bytes, U64Bytes, Num, ToLe;
    Powers();
    var size := 24 + |padding|;
    var a, b, c, d, f := U32Bytes(PERF_RECORD_LOST), ToLe(misc, 2), ToLe(size, 2), U64Bytes(id), U64Bytes(n);
    var raw := a + b + c + d + f + padding;
    AtWhole(raw, []);
    assert raw + [] == raw;
    hide At;
    AtConcat(raw, 0, a + b + c + d + f, padding);
    AtConcat(raw, 0, a + b + c + d, f);
    AtConcat(raw, 0, a + b + c, d);
    AtConcat(raw, 0, a + b, c);
    AtConcat(raw, 0, a, b);
    Num32At(raw, 0, PERF_RECORD_LOST);
    NumAt(raw, 6, size, 2);
    Num64At(raw, 16, n);
  }

  /** A sample frame of the perf buffer carries its payload. */
  lemma PerfFrameCarries(payload: seq<u8>, misc: nat, padding: seq<u8>)
    requires 12 + |payload| + |padding| < U16
    ensures PerfFrame(U32Bytes(PERF_RECORD_SAMPLE) + ToLe(misc, 2) + ToLe(12 + |payload| + |padding|, 2)
                      + U32Bytes(|payload|) + payload + padding) == Sample(payload)
  {
    hide U32Bytes, Num, ToLe;
    Powers();
    var size := 12 + |payload| + |padding|;
    var a, b, c, d := U32Bytes(PERF_RECORD_SAMPLE), ToLe(misc, 2), ToLe(size, 2), U32Bytes(|payload|);
    var raw := a + b + c + d + payload + padding;
    AtWhole(raw, []);
    assert raw + [] == raw;
    AtConcat(raw, 0, a + b + c + d + payload, padding);
    AtConcat(raw, 0, a + b + c + d, payload);
    AtConcat(raw, 0, a + b + c, d);
    AtConcat(raw, 0, a + b, c);
    AtConcat(raw, 0, a, b);
    Num32At(raw, 0, PERF_RECORD_SAMPLE);
    NumAt(raw, 6, size, 2);
    Num32At(raw, 8, |payload|);
  }

  datatype SessionState = Created | Running(start: nat) | Stopped(start: nat, stop: nat)

  // ----- What the counters say

  /** One record attempted and delivered; counts wrap. */
  ghost function Delivered(c: Counters): Counters {
    c.(attempted := Plus(c.attempted, 1), delivered := Plus(c.delivered, 1))
  }

  ghost function Corrupted(c: Counters): Counters {
    c.(corruptRecords := Plus(c.corruptRecords, 1))
  }

  /** The counters after a sample: delivered when it was accepted, corrupt when a running session could not make a
      record of it, and otherwise as before. */
  ghost function Sampled(c: Counters, running: bool, e: Option<Event>, r: Result<()>): Counters {
    if r.Ok? then Delivered(c) else if running && e.None? then Corrupted(c) else c
  }

  /** `n` events were attempted and lost on one CPU; the other CPUs and counters stay. */
  ghost predicate Loses(before: Counters, after: Counters, cpu: nat, n: nat) {
    && after == before.(attempted := Plus(before.attempted, n), perCpuLost := after.perCpuLost,
                        lostTotal := Saturate(before.lostTotal + n))
    && forall c: nat :: LostOn(after.perCpuLost, c) ==
                        if c == cpu then Saturate(LostOn(before.perCpuLost, cpu) + n) else LostOn(before.perCpuLost, c)
  }

  /** What a file says of its session. It is complete unless an error was counted or, failing that, a loss. */
  ghost predicate RecordsSession(d: Data, reg: Registry, config: Config, start: nat, stop: nat, c: Counters,
                                 es: seq<Event>)
  {
    && d.registry == reg && d.records == es && d.header.recordsCount == |es| && d.header.arch == config.arch
    && d.metadata.config == config && d.metadata.start == start && d.metadata.stop == stop && d.metadata.counters == c
    && d.trailer.status == d.metadata.status
    && d.metadata.status ==
       if c.reEntryDrops + c.helperFailures + c.budgetFailures + c.verifierFailures + c.loadFailures +
          c.attachFailures + c.corruptRecords + c.outOfBounds > 0 then IncompleteError
       else if c.lostTotal + c.ringbufLost + c.discarded > 0 then IncompleteLoss
       else Complete
  }

  class CaptureWriter {
    const config: Config
    const registry: Registry
    var state: SessionState
    var counters: Counters
    var buf: seq<u8>
    var count: nat
    ghost var accepted: seq<Event>   // the records written so far
    ghost var attempts: nat          // attempts as a number without a bound

    ghost predicate Valid()
      reads this
    {
      && buf == EncodeEvents(accepted) && count == |accepted|
      && (forall i :: 0 <= i < |accepted| ==> EventOk(accepted[i]) && Validate(registry, accepted[i]).Ok?)
      && CountsOk(counters, attempts, count)
      && (forall i :: 0 <= i < |registry| ==> registry[i].payloadSize < U32)
      && (state.Running? ==> state.start < U64)
    }

    constructor (config: Config, registry: Registry)
      requires forall i :: 0 <= i < |registry| ==> registry[i].payloadSize < U32
      ensures Valid() && this.config == config && this.registry == registry
      ensures state.Created? && accepted == [] && attempts == 0
    {
      NothingCounted();
      hide EncodeEvents, CountsOk, Validate, EventOk;
      this.config, this.registry, this.state, this.counters := config, registry, Created, NO_COUNTS;
      this.buf, this.count, this.accepted, this.attempts := [], 0, [], 0;
    }

    method Start(now: nat) returns (r: Result<()>)
      requires Valid() && now < U64
      modifies `state
      ensures Valid()
      ensures r.Ok? <==> old(state).Created?
      ensures r.Ok? ==> state == Running(now)
      ensures r.Err? ==> state == old(state)
    {
      if !state.Created? {
        return Err(NotRunning);
      }
      state := Running(now);
      return Ok(());
    }

    /** Accepts a record that matches its schema while the session runs; otherwise nothing changes. */
    method WriteRecord(e: Event) returns (r: Result<()>)
      requires Valid() && FieldsOk(e)
      modifies `counters, `buf, `count, `accepted, `attempts
      ensures Valid()
      ensures r == if state.Running? then Validate(registry, e) else Err(NotRunning)
      ensures r.Ok? <==> state.Running? && FitsSchema(registry, e)
      ensures r.Ok? ==> accepted == old(accepted) + [e] && attempts == old(attempts) + 1
      ensures r.Ok? ==> counters == Delivered(old(counters))
      ensures r.Err? ==> accepted == old(accepted) && attempts == old(attempts) && counters == old(counters)
    {
      hide EncodeEvents, EncodeEvent, CountsOk, FitsSchema;
      ValidateMeans(registry, e);
      if !state.Running? {
        return Err(NotRunning);
      }
      var _ :- Validate(registry, e);
      ValidFits(registry, e);
      EncodeAppend(accepted, e);
      DeliverCounts(counters, attempts, count);
      buf, count := buf + EncodeEvent(e), count + 1;
      counters := counters.(attempted := Plus(counters.attempted, 1), delivered := Plus(counters.delivered, 1));
      accepted, attempts := accepted + [e], attempts + 1;
      return Ok(());
    }

    method RecordCorruption()
      requires Valid()
      modifies `counters
      ensures Valid() && counters == Corrupted(old(counters))
    {
      hide EncodeEvents;
      counters := counters.(corruptRecords := Plus(counters.corruptRecords, 1));
    }

    /** A sample becomes a record with the given CPU, or is counted as corrupt. */
    method IngestPerfSample(cpu: nat, raw: seq<u8>) returns (r: Result<()>)
      requires Valid() && cpu < U32
      modifies `counters, `buf, `count, `accepted, `attempts
      ensures Valid()
      ensures r == if !state.Running? then Err(NotRunning)
                   else if SampleOf(registry, cpu, raw).Some? then
                        Validate(registry, SampleOf(registry, cpu, raw).value)
                   else Err(TruncatedRecord)
      ensures r.Ok? ==>
                accepted == old(accepted) + [SampleOf(registry, cpu, raw).value] && attempts == old(attempts) + 1
      ensures r.Err? ==> accepted == old(accepted) && attempts == old(attempts)
      ensures counters == Sampled(old(counters), state.Running?, SampleOf(registry, cpu, raw), r)
    {
      hide EncodeEvents, CountsOk, Validate;
      if !state.Running? {
        return Err(NotRunning);
      }
      if |raw| == 48 && Lookup(registry, SOFTWARE_EVENT).Some? {
        RawFields(raw, 0, cpu);
        var e := FromPerfEvent(raw).value.(cpu := cpu);
        r := WriteRecord(e);
        return;
      }
      if |raw| >= 40 {
        var id, version := Num(raw, 0, 4), Num(raw, 4, 4);
        if version == 1 && 1 <= id <= 7 && Lookup(registry, id).Some? {
          RawFields(raw, id, cpu);
          var e := FromTracepoint(id, raw).value.(cpu := cpu);
          r := WriteRecord(e);
          return;
        }
      }
      RecordCorruption();
      return Err(TruncatedRecord);
    }

    method IngestPerfLost(cpu: nat, n: nat)
      requires Valid() && cpu < U32 && n < U64
      modifies `counters, `attempts
      ensures Valid() && attempts == old(attempts) + n
      ensures Loses(old(counters), counters, cpu, n)
    {
      hide EncodeEvents, PairSum;
      var lost := AddLost(counters.perCpuLost, cpu, n);
      counters := counters.(attempted := Plus(counters.attempted, n), perCpuLost := lost,
        lostTotal := Saturate(counters.lostTotal + n));
      attempts := attempts + n;
    }

    method IngestRingbufLost(n: nat)
      requires Valid() && n < U64
      modifies `counters, `attempts
      ensures Valid() && attempts == old(attempts) + n
      ensures counters == old(counters).(attempted := Plus(old(counters).attempted, n),
              ringbufLost := Saturate(old(counters).ringbufLost + n))
    {
      hide EncodeEvents, PairSum;
      counters := counters.(attempted := Plus(counters.attempted, n),
        ringbufLost := Saturate(counters.ringbufLost + n));
      attempts := attempts + n;
    }

    /** A frame of the perf buffer is ingested, counted as lost events, or counted as corrupt. */
    method IngestRawPerfFrame(cpu: nat, raw: seq<u8>) returns (r: Result<()>)
      requires Valid() && cpu < U32
      modifies `counters, `buf, `count, `accepted, `attempts
      ensures Valid()
      ensures PerfFrame(raw).Corrupt? ==> r == Err(TruncatedRecord) && counters == Corrupted(old(counters))
      ensures PerfFrame(raw).Lost? ==>
                && r.Ok? && attempts == old(attempts) + PerfFrame(raw).n && accepted == old(accepted)
                && Loses(old(counters), counters, cpu, PerfFrame(raw).n)
      ensures PerfFrame(raw).Sample? ==>
                var e := SampleOf(registry, cpu, PerfFrame(raw).bytes);
                && (r.Ok? <==> state.Running? && e.Some? && Validate(registry, e.value).Ok?)
                && (r.Ok? ==> accepted == old(accepted) + [e.value] && attempts == old(attempts) + 1)
                && counters == Sampled(old(counters), state.Running?, e, r)
      ensures r.Err? ==> accepted == old(accepted) && attempts == old(attempts)
    {
      hide EncodeEvents, CountsOk, Validate, SampleOf;
      if |raw| < 8 {
        RecordCorruption();
        return Err(TruncatedRecord);
      }
      var kind, size := Num(raw, 0, 4), Num(raw, 6, 2);
      if |raw| < size {
        RecordCorruption();
        return Err(TruncatedRecord);
      }
      if kind == PERF_RECORD_SAMPLE {
        if size < 12 {
          RecordCorruption();
          return Err(TruncatedRecord);
        }
        var length := Num(raw, 8, 4);
        if size < 12 + length {
          RecordCorruption();
          return Err(TruncatedRecord);
        }
        r := IngestPerfSample(cpu, raw[12..12 + length]);
      } else if kind == PERF_RECORD_LOST {
        if size < 24 {
          RecordCorruption();
          return Err(TruncatedRecord);
        }
        IngestPerfLost(cpu, Num(raw, 16, 8));
        return Ok(());
      } else {
        RecordCorruption();
        return Err(TruncatedRecord);
      }
    }

    /** A frame of the ring buffer is ingested, counted as discarded or corrupt, or left for later. */
    method IngestRawRingbufFrame(cpu: nat, raw: seq<u8>) returns (r: Result<()>)
      requires Valid() && cpu < U32
      modifies `counters, `buf, `count, `accepted, `attempts
      ensures Valid()
      ensures RingFrame(raw).Busy? ==> r == Err(TruncatedRecord) && counters == old(counters)
      ensures RingFrame(raw).Corrupt? ==> r == Err(TruncatedRecord) && counters == Corrupted(old(counters))
      ensures RingFrame(raw).Discarded? ==>
                r.Ok? && counters == old(counters).(discarded := Plus(old(counters).discarded, 1))
      ensures RingFrame(raw).Sample? ==>
                var e := SampleOf(registry, cpu, RingFrame(raw).bytes);
                && (r.Ok? <==> state.Running? && e.Some? && Validate(registry, e.value).Ok?)
                && (r.Ok? ==> accepted == old(accepted) + [e.value] && attempts == old(attempts) + 1)
                && counters == Sampled(old(counters), state.Running?, e, r)
      ensures !RingFrame(raw).Sample? || r.Err? ==> accepted == old(accepted) && attempts == old(attempts)
    {
      hide EncodeEvents, CountsOk, Validate, PairSum, SampleOf;
      if |raw| < 8 {
        RecordCorruption();
        return Err(TruncatedRecord);
      }
      var head := Num(raw, 0, 4);
      if head >= 0x8000_0000 {
        return Err(TruncatedRecord);
      }
      var length := head % 0x4000_0000;
      if |raw| < 8 + length {
        RecordCorruption();
        return Err(TruncatedRecord);
      }
      if head >= 0x4000_0000 {
        DiscardCounts(counters, attempts, count);
        counters := counters.(discarded := Plus(counters.discarded, 1));
        return Ok(());
      }
      r := IngestPerfSample(cpu, raw[8..8 + length]);
    }

    /** Stops a running session and emits the file; the reader gives back exactly what was accepted. */
    method Finish(stop: nat) returns (r: Result<seq<u8>>)
      requires Valid() && stop < U64
      modifies `state
      ensures Valid()
      ensures r.Ok? <==> old(state).Running?
      ensures r.Err? ==> state == old(state)
      ensures r.Ok? ==> state == Stopped(old(state).start, stop)
      ensures r.Ok? ==>
                r.value == FileBytes(registry, FinalMetadata(config, old(state).start, stop, counters), accepted)
      ensures r.Ok? ==>
                var md := FinalMetadata(config, old(state).start, stop, counters);
                var header, trailer := HeaderFor(registry, md, accepted), TrailerFor(registry, md, accepted);
                var data := Data(header, registry, md, accepted, trailer);
                && RecordsSession(data, registry, config, old(state).start, stop, counters, accepted)
                && forall utf8 :: FileOk(utf8, registry, md, accepted) ==> ReadCapture(utf8, r.value) == Ok(data)
    {
      hide EncodeEvents, CountsOk, Validate, EventOk, EncodeRegistry, EncodeMetadata, FileOk, ReadCapture,
           EncodeHeader, EncodeTrailer;
      if !state.Running? {
        return Err(NotRunning);
      }
      var start := state.start;
      state := Stopped(start, stop);
      var md := FinalMetadata(config, start, stop, counters);
      var reg := WriteRegistry(registry);
      var meta := WriteMetadata(md);
      var metaBuf := reg + meta;
      var recordsOffset := HEADER_SIZE + |metaBuf|;
      var trailerOffset := recordsOffset + |buf|;
      var header := Header(1, HEADER_SIZE, config.arch, HEADER_SIZE, |metaBuf|, recordsOffset, count, |buf|,
          trailerOffset, TRAILER_SIZE);
      var output := EncodeHeader(header) + metaBuf + buf;
      var sum := CaptureChecksum.ComputeChecksum(output);
      output := output + EncodeTrailer(Trailer(count, |buf|, sum, md.status, TRAILER_SIZE, 0));
      forall utf8 | FileOk(utf8, registry, md, accepted)
        ensures ReadCapture(utf8, output) ==
                Ok(Data(HeaderFor(registry, md, accepted), registry, md, accepted, TrailerFor(registry, md, accepted)))
      {
        ReadUndoesWrite(utf8, registry, md, accepted);
      }
      return Ok(output);
    }
  }

  function FinalStatus(c: Counters): Status {
    if HasError(c) then IncompleteError else if HasLoss(c) then IncompleteLoss else Complete
  }

  function FinalMetadata(config: Config, start: nat, stop: nat, c: Counters): Metadata {
    Metadata(config, start, stop, FinalStatus(c), c)
  }

  /** Counters are 64-bit. As long as the attempts fit, nothing wrapped or saturated, and every attempt was either
      delivered, lost on a CPU or lost in the ring buffer. */
  ghost predicate CountsOk(c: Counters, attempts: nat, count: nat) {
    && Fit64(c)
    && (forall i :: 0 <= i < |c.perCpuLost| ==> c.perCpuLost[i].0 < U32 && c.perCpuLost[i].1 < U64)
    && DistinctCpus(c.perCpuLost)
    && (attempts < U64 ==>
          && c.attempted == attempts == c.delivered + c.lostTotal + c.ringbufLost
          && c.delivered == count && PairSum(c.perCpuLost) == c.lostTotal)
  }

  lemma NothingCounted()
    ensures CountsOk(NO_COUNTS, 0, 0) && EncodeEvents([]) == []
  {
    hide EncodeEvent;
  }

  lemma ValidFits(reg: Registry, e: Event)
    requires Validate(reg, e).Ok? && FieldsOk(e) && forall i :: 0 <= i < |reg| ==> reg[i].payloadSize < U32
    ensures EventOk(e)
  {}

  lemma DeliverCounts(c: Counters, attempts: nat, count: nat)
    requires CountsOk(c, attempts, count)
    ensures CountsOk(c.(attempted := Plus(c.attempted, 1), delivered := Plus(c.delivered, 1)), attempts + 1, count + 1)
  {
    hide PairSum;
  }

  lemma DiscardCounts(c: Counters, attempts: nat, count: nat)
    requires CountsOk(c, attempts, count)
    ensures CountsOk(c.(discarded := Plus(c.discarded, 1)), attempts, count)
  {
    hide PairSum;
  }

  /** A finished session can be read back when its texts are valid, its lengths fit 32 bits and the file 64. */
  lemma WriterFileOk(utf8: Utf8, reg: Registry, config: Config, start: nat, stop: nat, c: Counters, es: seq<Event>,
                     attempts: nat)
    requires RegistryOk(utf8, reg) && ConfigOk(utf8, config) && start < U64 && stop < U64
    requires CountsOk(c, attempts, |es|) && |c.perCpuLost| < U32
    requires forall i :: 0 <= i < |es| ==> EventOk(es[i]) && Validate(reg, es[i]).Ok?
    requires |FileBytes(reg, FinalMetadata(config, start, stop, c), es)| < U64
    ensures FileOk(utf8, reg, FinalMetadata(config, start, stop, c), es)
  {
    hide RegistryOk, ConfigOk, EventOk, Validate, FileBytes, PairSum;
  }
}
