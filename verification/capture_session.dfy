/** Sampling sessions: configuration, loss counters and metadata, with their bytes. */
module CaptureSession {
  import opened Bytes
  import opened CaptureCodec

  // ----- Enumerations

  datatype Arch = Unknown | Riscv64 | LoongArch64

  function ArchCode(a: Arch): nat {
    match a
    case Unknown => 0
    case Riscv64 => 1
    case LoongArch64 => 2
  }

  function ArchFrom(code: nat): Arch {
    match code
    case 1 => Riscv64
    case 2 => LoongArch64
    case _ => Unknown
  }

  function StatusCode(s: Status): nat {
    match s
    case Complete => 0
    case IncompleteLoss => 1
    case IncompleteTruncated => 2
    case IncompleteError => 3
  }

  function StatusFrom(code: nat): Status {
    match code
    case 0 => Complete
    case 1 => IncompleteLoss
    case 2 => IncompleteTruncated
    case _ => IncompleteError
  }

  datatype Scope = AllCpus | PerCpu(cpu: nat) | OneTask(task: nat)

  function ScopeCode(s: Scope): (nat, nat) {
    match s
    case AllCpus => (0, 0)
    case PerCpu(cpu) => (1, cpu)
    case OneTask(task) => (2, task)
  }

  /** A CPU number is cut to 32 bits. */
  function ScopeFrom(code: nat, target: nat): Scope {
    match code
    case 1 => PerCpu(target % U32)
    case 2 => OneTask(target)
    case _ => AllCpus
  }

  predicate ScopeOk(s: Scope) {
    (s.PerCpu? ==> s.cpu < U32) && (s.OneTask? ==> s.task < U64)
  }

  lemma CodesRoundTrip(a: Arch, st: Status, sc: Scope)
    requires ScopeOk(sc)
    ensures ArchFrom(ArchCode(a)) == a && StatusFrom(StatusCode(st)) == st
    ensures ScopeFrom(ScopeCode(sc).0, ScopeCode(sc).1) == sc
    ensures ArchCode(a) < U32 && StatusCode(st) < U32 && ScopeCode(sc).0 < U32 && ScopeCode(sc).1 < U64
  {}

  // ----- Loss counters

  datatype Counters = Counters(
    attempted: nat, delivered: nat, lostTotal: nat, ringbufLost: nat, discarded: nat, reEntryDrops: nat,
    helperFailures: nat, budgetFailures: nat, verifierFailures: nat, loadFailures: nat, attachFailures: nat,
    corruptRecords: nat, outOfBounds: nat, perCpuLost: seq<(nat, nat)>)

  const NO_COUNTS := Counters(0, 0, 0, 0, 0, 0, 0, 0, 0, 0, 0, 0, 0, [])

  predicate HasLoss(c: Counters) {
    c.lostTotal > 0 || c.ringbufLost > 0 || c.discarded > 0
  }

  predicate HasError(c: Counters) {
    || c.reEntryDrops > 0 || c.helperFailures > 0 || c.budgetFailures > 0 || c.verifierFailures > 0
    || c.loadFailures > 0 || c.attachFailures > 0 || c.corruptRecords > 0 || c.outOfBounds > 0
  }

  /** The thirteen counters in the order they are written. */
  function Numbers(c: Counters): (r: seq<nat>)
    ensures |r| == 13
  {
    [c.attempted, c.delivered, c.lostTotal, c.ringbufLost, c.discarded, c.reEntryDrops, c.helperFailures,
     c.budgetFailures, c.verifierFailures, c.loadFailures, c.attachFailures, c.corruptRecords, c.outOfBounds]
  }

  function FromNumbers(n: seq<nat>, perCpu: seq<(nat, nat)>): Counters
    requires |n| == 13
  {
    Counters(n[0], n[1], n[2], n[3], n[4], n[5], n[6], n[7], n[8], n[9], n[10], n[11], n[12], perCpu)
  }

  function EncodeNumbers(n: seq<nat>): (b: seq<u8>)
    ensures |b| == 8 * |n|
  {
    if n == [] then [] else EncodeNumbers(n[..|n| - 1]) + U64Bytes(n[|n| - 1])
  }

  function DecodeNumbers(slice: seq<u8>, off: nat, n: nat): (r: Result<Parsed<seq<nat>>>)
    ensures r.Ok? ==> |r.value.value| == n && r.value.next == off + 8 * n
    ensures r.Err? ==> r.error == TruncatedMetadata
    decreases n
  {
    if n == 0 then Ok(Parsed([], off))
    else
      var before :- DecodeNumbers(slice, off, n - 1);
      var last :- Take64(slice, before.next);
      Ok(Parsed(before.value + [last.value], last.next))
  }

  lemma DecodeLast(slice: seq<u8>, off: nat, n: seq<nat>, last: nat, next: nat)
    requires DecodeNumbers(slice, off, |n|) == Ok(Parsed(n, next)) && Take64(slice, next) == Ok(Parsed(last, next + 8))
    ensures DecodeNumbers(slice, off, |n| + 1) == Ok(Parsed(n + [last], next + 8))
  {
    hide Take64;
  }

  lemma {:induction false} NumbersRoundTrip(slice: seq<u8>, off: nat, n: seq<nat>)
    requires At(slice, off, EncodeNumbers(n)) && forall i :: 0 <= i < |n| ==> n[i] < U64
    ensures DecodeNumbers(slice, off, |n|) == Ok(Parsed(n, off + 8 * |n|))
  {
    hide At, U64Bytes, Take64;
    if n != [] {
      var k := |n| - 1;
      AtConcat(slice, off, EncodeNumbers(n[..k]), U64Bytes(n[k]));
      hide EncodeNumbers, DecodeNumbers;
      NumbersRoundTrip(slice, off, n[..k]);
      Take64At(slice, off + 8 * k, n[k]);
      DecodeLast(slice, off, n[..k], n[k], off + 8 * k);
      assert n[..k] + [n[k]] == n;
    }
  }

  function EncodePairs(p: seq<(nat, nat)>): seq<u8> {
    if p == [] then [] else EncodePairs(p[..|p| - 1]) + (U32Bytes(p[|p| - 1].0) + U64Bytes(p[|p| - 1].1))
  }

  function DecodePairs(slice: seq<u8>, off: nat, n: nat): (r: Result<Parsed<seq<(nat, nat)>>>)
    ensures r.Ok? ==> r.value.next == off + 12 * n
    ensures r.Err? ==> r.error == TruncatedMetadata
    ensures r.Ok? && n > 0 ==> off + 12 * n <= |slice|
    decreases n
  {
    if n == 0 then Ok(Parsed([], off))
    else
      var before :- DecodePairs(slice, off, n - 1);
      var cpu :- Take32(slice, before.next);
      var count :- Take64(slice, cpu.next);
      Ok(Parsed(before.value + [(cpu.value, count.value)], count.next))
  }

  lemma {:induction false} PairsRoundTrip(slice: seq<u8>, off: nat, p: seq<(nat, nat)>)
    requires At(slice, off, EncodePairs(p)) && forall i :: 0 <= i < |p| ==> p[i].0 < U32 && p[i].1 < U64
    ensures DecodePairs(slice, off, |p|) == Ok(Parsed(p, off + |EncodePairs(p)|))
  {
    hide At, U32Bytes, U64Bytes, Take32, Take64;
    if p != [] {
      var rest, last := p[..|p| - 1], p[|p| - 1];
      AtConcat(slice, off, EncodePairs(rest), U32Bytes(last.0) + U64Bytes(last.1));
      PairsRoundTrip(slice, off, rest);
      AtConcat(slice, off + |EncodePairs(rest)|, U32Bytes(last.0), U64Bytes(last.1));
      Take32At(slice, off + |EncodePairs(rest)|, last.0);
      Take64At(slice, off + |EncodePairs(rest)| + 4, last.1);
      assert rest + [last] == p;
    }
  }

  function EncodeCounters(c: Counters): seq<u8> {
    EncodeNumbers(Numbers(c)) + U32Bytes(|c.perCpuLost|) + EncodePairs(c.perCpuLost)
  }

  function DecodeCounters(slice: seq<u8>, off: nat): Result<Parsed<Counters>> {
    var numbers :- DecodeNumbers(slice, off, 13);
    var count :- Take32(slice, numbers.next);
    var pairs :- DecodePairs(slice, count.next, count.value);
    Ok(Parsed(FromNumbers(numbers.value, pairs.value), pairs.next))
  }

  /** All counters are 64-bit. */
  predicate Fit64(c: Counters) {
    && c.attempted < U64 && c.delivered < U64 && c.lostTotal < U64 && c.ringbufLost < U64 && c.discarded < U64
    && c.reEntryDrops < U64 && c.helperFailures < U64 && c.budgetFailures < U64 && c.verifierFailures < U64
    && c.loadFailures < U64 && c.attachFailures < U64 && c.corruptRecords < U64 && c.outOfBounds < U64
  }

  /** All counters are 64-bit and there are fewer than 2^32 CPUs with losses. */
  ghost predicate CountersOk(c: Counters) {
    && Fit64(c) && |c.perCpuLost| < U32
    && forall i :: 0 <= i < |c.perCpuLost| ==> c.perCpuLost[i].0 < U32 && c.perCpuLost[i].1 < U64
  }

  lemma CountersRoundTrip(slice: seq<u8>, off: nat, c: Counters)
    requires At(slice, off, EncodeCounters(c)) && CountersOk(c)
    ensures DecodeCounters(slice, off) == Ok(Parsed(c, off + |EncodeCounters(c)|))
  {
    hide At, U32Bytes, Take32, EncodeNumbers, DecodeNumbers, EncodePairs, DecodePairs;
    AtConcat(slice, off, EncodeNumbers(Numbers(c)) + U32Bytes(|c.perCpuLost|), EncodePairs(c.perCpuLost));
    AtConcat(slice, off, EncodeNumbers(Numbers(c)), U32Bytes(|c.perCpuLost|));
    NumbersRoundTrip(slice, off, Numbers(c));
    Take32At(slice, off + 104, |c.perCpuLost|);
    PairsRoundTrip(slice, off + 108, c.perCpuLost);
  }

  // ----- Configuration

  datatype Config = Config(
    commit: Text, arch: Arch, elfPath: Text, elfHash: Text, imagePath: Text, imageHash: Text, fixtureVersion: Text,
    progId: nat, mapId: nat, linkId: nat, perfEventId: nat, outputPath: Text, scope: Scope,
    samplePeriod: nat, bufferPages: nat, clockName: Text, clockResolution: nat)

  function EncodeBuild(c: Config): seq<u8> {
    EncodeString(c.commit) + U32Bytes(ArchCode(c.arch)) + EncodeString(c.elfPath) + EncodeString(c.elfHash)
    + EncodeString(c.imagePath) + EncodeString(c.imageHash) + EncodeString(c.fixtureVersion)
  }

  function EncodeIds(c: Config): seq<u8> {
    U32Bytes(c.progId) + U32Bytes(c.mapId) + U32Bytes(c.linkId) + U32Bytes(c.perfEventId) + EncodeString(c.outputPath)
  }

  function EncodeSampling(c: Config): seq<u8> {
    U32Bytes(ScopeCode(c.scope).0) + U64Bytes(ScopeCode(c.scope).1) + U64Bytes(c.samplePeriod) + U64Bytes(c.bufferPages)
    + EncodeString(c.clockName) + U64Bytes(c.clockResolution)
  }

  function EncodeConfig(c: Config): seq<u8> {
    EncodeBuild(c) + EncodeIds(c) + EncodeSampling(c)
  }

  datatype Build = Build(commit: Text, arch: Arch, elfPath: Text, elfHash: Text, imagePath: Text, imageHash: Text,
                         fixtureVersion: Text)

  datatype Ids = Ids(progId: nat, mapId: nat, linkId: nat, perfEventId: nat, outputPath: Text)

  datatype Sampling = Sampling(scope: Scope, samplePeriod: nat, bufferPages: nat, clockName: Text, clockResolution: nat)

  function DecodeBuild(utf8: Utf8, slice: seq<u8>, off: nat): Result<Parsed<Build>> {
    var commit :- DecodeString(utf8, slice, off);
    var arch :- Take32(slice, commit.next);
    var elfPath :- DecodeString(utf8, slice, arch.next);
    var elfHash :- DecodeString(utf8, slice, elfPath.next);
    var imagePath :- DecodeString(utf8, slice, elfHash.next);
    var imageHash :- DecodeString(utf8, slice, imagePath.next);
    var fixture :- DecodeString(utf8, slice, imageHash.next);
    Ok(Parsed(Build(commit.value, ArchFrom(arch.value), elfPath.value, elfHash.value, imagePath.value,
                    imageHash.value, fixture.value),
              fixture.next))
  }

  function DecodeIds(utf8: Utf8, slice: seq<u8>, off: nat): Result<Parsed<Ids>> {
    var prog :- Take32(slice, off);
    var map_ :- Take32(slice, prog.next);
    var link :- Take32(slice, map_.next);
    var perf :- Take32(slice, link.next);
    var path :- DecodeString(utf8, slice, perf.next);
    Ok(Parsed(Ids(prog.value, map_.value, link.value, perf.value, path.value), path.next))
  }

  function DecodeSampling(utf8: Utf8, slice: seq<u8>, off: nat): Result<Parsed<Sampling>> {
    var code :- Take32(slice, off);
    var target :- Take64(slice, code.next);
    var period :- Take64(slice, target.next);
    var pages :- Take64(slice, period.next);
    var name :- DecodeString(utf8, slice, pages.next);
    var resolution :- Take64(slice, name.next);
    Ok(Parsed(Sampling(ScopeFrom(code.value, target.value), period.value, pages.value, name.value, resolution.value),
      resolution.next))
  }

  function DecodeConfig(utf8: Utf8, slice: seq<u8>, off: nat): Result<Parsed<Config>> {
    var b :- DecodeBuild(utf8, slice, off);
    var i :- DecodeIds(utf8, slice, b.next);
    var s :- DecodeSampling(utf8, slice, i.next);
    var build, ids, sampling := b.value, i.value, s.value;
    Ok(Parsed(Config(build.commit, build.arch, build.elfPath, build.elfHash, build.imagePath, build.imageHash,
                     build.fixtureVersion, ids.progId, ids.mapId, ids.linkId, ids.perfEventId, ids.outputPath,
                     sampling.scope, sampling.samplePeriod, sampling.bufferPages, sampling.clockName,
                     sampling.clockResolution),
              s.next))
  }

  predicate BuildOk(utf8: Utf8, c: Config) {
    && TextOk(utf8, c.commit) && TextOk(utf8, c.elfPath) && TextOk(utf8, c.elfHash) && TextOk(utf8, c.imagePath)
    && TextOk(utf8, c.imageHash) && TextOk(utf8, c.fixtureVersion)
  }

  predicate IdsOk(utf8: Utf8, c: Config) {
    c.progId < U32 && c.mapId < U32 && c.linkId < U32 && c.perfEventId < U32 && TextOk(utf8, c.outputPath)
  }

  predicate SamplingOk(utf8: Utf8, c: Config) {
    ScopeOk(c.scope) && c.samplePeriod < U64 && c.bufferPages < U64 && TextOk(utf8, c.clockName) &&
      c.clockResolution < U64
  }

  predicate ConfigOk(utf8: Utf8, c: Config) {
    BuildOk(utf8, c) && IdsOk(utf8, c) && SamplingOk(utf8, c)
  }

  lemma BuildRoundTrip(utf8: Utf8, slice: seq<u8>, off: nat, c: Config)
    requires At(slice, off, EncodeBuild(c)) && BuildOk(utf8, c)
    ensures DecodeBuild(utf8, slice, off) ==
            Ok(Parsed(Build(c.commit, c.arch, c.elfPath, c.elfHash, c.imagePath, c.imageHash, c.fixtureVersion),
                      off + |EncodeBuild(c)|))
  {
    hide At, U32Bytes, Take32, EncodeString, DecodeString, TextOk;
    var s1, s2, s3 := EncodeString(c.commit), U32Bytes(ArchCode(c.arch)), EncodeString(c.elfPath);
    var s4, s5, s6, s7 := EncodeString(c.elfHash), EncodeString(c.imagePath), EncodeString(c.imageHash),
        EncodeString(c.fixtureVersion);
    AtConcat(slice, off, s1 + s2 + s3 + s4 + s5 + s6, s7);
    AtConcat(slice, off, s1 + s2 + s3 + s4 + s5, s6);
    AtConcat(slice, off, s1 + s2 + s3 + s4, s5);
    AtConcat(slice, off, s1 + s2 + s3, s4);
    AtConcat(slice, off, s1 + s2, s3);
    AtConcat(slice, off, s1, s2);
    CodesRoundTrip(c.arch, Complete, AllCpus);
    StringRoundTrip(utf8, slice, off, c.commit);
    Take32At(slice, off + |s1|, ArchCode(c.arch));
    var o3 := off + |s1| + 4;
    StringRoundTrip(utf8, slice, o3, c.elfPath);
    StringRoundTrip(utf8, slice, o3 + |s3|, c.elfHash);
    StringRoundTrip(utf8, slice, o3 + |s3| + |s4|, c.imagePath);
    StringRoundTrip(utf8, slice, o3 + |s3| + |s4| + |s5|, c.imageHash);
    StringRoundTrip(utf8, slice, o3 + |s3| + |s4| + |s5| + |s6|, c.fixtureVersion);
  }

  lemma IdsRoundTrip(utf8: Utf8, slice: seq<u8>, off: nat, c: Config)
    requires At(slice, off, EncodeIds(c)) && IdsOk(utf8, c)
    ensures DecodeIds(utf8, slice, off) ==
            Ok(Parsed(Ids(c.progId, c.mapId, c.linkId, c.perfEventId, c.outputPath), off + |EncodeIds(c)|))
  {
    hide At, U32Bytes, Take32, EncodeString, DecodeString, TextOk;
    var s1, s2, s3, s4 := U32Bytes(c.progId), U32Bytes(c.mapId), U32Bytes(c.linkId), U32Bytes(c.perfEventId);
    AtConcat(slice, off, s1 + s2 + s3 + s4, EncodeString(c.outputPath));
    AtConcat(slice, off, s1 + s2 + s3, s4);
    AtConcat(slice, off, s1 + s2, s3);
    AtConcat(slice, off, s1, s2);
    Take32At(slice, off, c.progId);
    Take32At(slice, off + 4, c.mapId);
    Take32At(slice, off + 8, c.linkId);
    Take32At(slice, off + 12, c.perfEventId);
    StringRoundTrip(utf8, slice, off + 16, c.outputPath);
  }

  lemma SamplingRoundTrip(utf8: Utf8, slice: seq<u8>, off: nat, c: Config)
    requires At(slice, off, EncodeSampling(c)) && SamplingOk(utf8, c)
    ensures DecodeSampling(utf8, slice, off) ==
            Ok(Parsed(Sampling(c.scope, c.samplePeriod, c.bufferPages, c.clockName, c.clockResolution),
                      off + |EncodeSampling(c)|))
  {
    hide At, U32Bytes, U64Bytes, Take32, Take64, EncodeString, DecodeString, TextOk, ScopeCode, ScopeFrom, ScopeOk;
    var s1, s2, s3, s4 := U32Bytes(ScopeCode(c.scope).0), U64Bytes(ScopeCode(c.scope).1), U64Bytes(c.samplePeriod),
        U64Bytes(c.bufferPages);
    var s5, s6 := EncodeString(c.clockName), U64Bytes(c.clockResolution);
    AtConcat(slice, off, s1 + s2 + s3 + s4 + s5, s6);
    AtConcat(slice, off, s1 + s2 + s3 + s4, s5);
    AtConcat(slice, off, s1 + s2 + s3, s4);
    AtConcat(slice, off, s1 + s2, s3);
    AtConcat(slice, off, s1, s2);
    CodesRoundTrip(Unknown, Complete, c.scope);
    Take32At(slice, off, ScopeCode(c.scope).0);
    Take64At(slice, off + 4, ScopeCode(c.scope).1);
    Take64At(slice, off + 12, c.samplePeriod);
    Take64At(slice, off + 20, c.bufferPages);
    StringRoundTrip(utf8, slice, off + 28, c.clockName);
    Take64At(slice, off + 28 + |s5|, c.clockResolution);
  }

  lemma ConfigRoundTrip(utf8: Utf8, slice: seq<u8>, off: nat, c: Config)
    requires At(slice, off, EncodeConfig(c)) && ConfigOk(utf8, c)
    ensures DecodeConfig(utf8, slice, off) == Ok(Parsed(c, off + |EncodeConfig(c)|))
  {
    hide At, EncodeBuild, EncodeIds, EncodeSampling, DecodeBuild, DecodeIds, DecodeSampling, BuildOk, IdsOk, SamplingOk;
    AtConcat(slice, off, EncodeBuild(c) + EncodeIds(c), EncodeSampling(c));
    AtConcat(slice, off, EncodeBuild(c), EncodeIds(c));
    BuildRoundTrip(utf8, slice, off, c);
    IdsRoundTrip(utf8, slice, off + |EncodeBuild(c)|, c);
    SamplingRoundTrip(utf8, slice, off + |EncodeBuild(c)| + |EncodeIds(c)|, c);
  }

  // ----- Metadata

  datatype Metadata = Metadata(config: Config, start: nat, stop: nat, status: Status, counters: Counters)

  function EncodeMetadata(m: Metadata): seq<u8> {
    EncodeConfig(m.config) + U64Bytes(m.start) + U64Bytes(m.stop) + U32Bytes(StatusCode(m.status)) +
      EncodeCounters(m.counters)
  }

  function DecodeMetadata(utf8: Utf8, slice: seq<u8>, off: nat): Result<Parsed<Metadata>> {
    var config :- DecodeConfig(utf8, slice, off);
    var start :- Take64(slice, config.next);
    var stop :- Take64(slice, start.next);
    var status :- Take32(slice, stop.next);
    var counters :- DecodeCounters(slice, status.next);
    Ok(Parsed(Metadata(config.value, start.value, stop.value, StatusFrom(status.value), counters.value), counters.next))
  }

  ghost predicate MetadataOk(utf8: Utf8, m: Metadata) {
    ConfigOk(utf8, m.config) && m.start < U64 && m.stop < U64 && CountersOk(m.counters)
  }

  lemma MetadataRoundTrip(utf8: Utf8, slice: seq<u8>, off: nat, m: Metadata)
    requires At(slice, off, EncodeMetadata(m)) && MetadataOk(utf8, m)
    ensures DecodeMetadata(utf8, slice, off) == Ok(Parsed(m, off + |EncodeMetadata(m)|))
  {
    hide At, U32Bytes, U64Bytes, Take32, Take64, EncodeConfig, DecodeConfig, EncodeCounters, DecodeCounters, ConfigOk,
         CountersOk;
    var s1, s2, s3 := EncodeConfig(m.config), U64Bytes(m.start), U64Bytes(m.stop);
    var s4, s5 := U32Bytes(StatusCode(m.status)), EncodeCounters(m.counters);
    AtConcat(slice, off, s1 + s2 + s3 + s4, s5);
    AtConcat(slice, off, s1 + s2 + s3, s4);
    AtConcat(slice, off, s1 + s2, s3);
    AtConcat(slice, off, s1, s2);
    CodesRoundTrip(Unknown, m.status, AllCpus);
    ConfigRoundTrip(utf8, slice, off, m.config);
    Take64At(slice, off + |s1|, m.start);
    Take64At(slice, off + |s1| + 8, m.stop);
    Take32At(slice, off + |s1| + 16, StatusCode(m.status));
    CountersRoundTrip(slice, off + |s1| + 20, m.counters);
  }

  // ----- The loops

  method WriteCounters(c: Counters) returns (buf: seq<u8>)
    ensures buf == EncodeCounters(c)
  {
    hide U32Bytes, U64Bytes, EncodeNumbers, Numbers;
    buf := EncodeNumbers(Numbers(c)) + U32Bytes(|c.perCpuLost|);
    ghost var head := buf;
    for i := 0 to |c.perCpuLost|
      invariant buf == head + EncodePairs(c.perCpuLost[..i])
    {
      assert c.perCpuLost[..i + 1][..i] == c.perCpuLost[..i];
      buf := buf + (U32Bytes(c.perCpuLost[i].0) + U64Bytes(c.perCpuLost[i].1));
    }
    assert c.perCpuLost[..|c.perCpuLost|] == c.perCpuLost;
  }

  lemma {:induction false} PairsFail(slice: seq<u8>, off: nat, k: nat, n: nat)
    requires k <= n && DecodePairs(slice, off, k).Err?
    ensures DecodePairs(slice, off, n) == Err(TruncatedMetadata)
  {
    hide Take32, Take64;
    if k < n { PairsFail(slice, off, k, n - 1); }
  }

  method ReadCounters(slice: seq<u8>, off: nat) returns (r: Result<Parsed<Counters>>)
    ensures r == DecodeCounters(slice, off)
  {
    hide Take32, Take64, DecodeNumbers, FromNumbers;
    var numbers :- DecodeNumbers(slice, off, 13);
    var count :- Take32(slice, numbers.next);
    var n := count.value;
    var offset, pairs: seq<(nat, nat)> := count.next, [];
    for k := 0 to n
      invariant DecodePairs(slice, count.next, k) == Ok(Parsed(pairs, offset))
    {
      var cpu, lost := Take32(slice, offset), Take64(slice, offset + 4);
      if cpu.Err? || lost.Err? {
        PairsFail(slice, count.next, k + 1, n);
        return Err(TruncatedMetadata);
      }
      pairs, offset := pairs + [(cpu.value.value, lost.value.value)], lost.value.next;
    }
    return Ok(Parsed(FromNumbers(numbers.value, pairs), offset));
  }

  method WriteMetadata(m: Metadata) returns (buf: seq<u8>)
    ensures buf == EncodeMetadata(m)
  {
    hide U32Bytes, U64Bytes, EncodeConfig, EncodeCounters;
    buf := EncodeConfig(m.config) + U64Bytes(m.start) + U64Bytes(m.stop) + U32Bytes(StatusCode(m.status));
    var counters := WriteCounters(m.counters);
    buf := buf + counters;
  }

  method ReadMetadata(utf8: Utf8, slice: seq<u8>, off: nat) returns (r: Result<Parsed<Metadata>>)
    ensures r == DecodeMetadata(utf8, slice, off)
  {
    hide Take32, Take64, DecodeConfig, DecodeCounters;
    var config :- DecodeConfig(utf8, slice, off);
    var start :- Take64(slice, config.next);
    var stop :- Take64(slice, start.next);
    var status :- Take32(slice, stop.next);
    var counters :- ReadCounters(slice, status.next);
    return Ok(Parsed(Metadata(config.value, start.value, stop.value, StatusFrom(status.value), counters.value),
           counters.next));
  }
}
