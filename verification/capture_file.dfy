/** Capture files: record, header and trailer codecs, the layout of a finished file, and the reader. */
module CaptureFile {
  import opened Options
  import opened Bytes
  import opened CaptureCodec
  import opened CaptureSchema
  import opened CaptureSession
  import opened CaptureChecksum

  // ----- Fields at fixed places

  function Num(bytes: seq<u8>, at: nat, n: nat): (v: nat)
    requires at + n <= |bytes|
    ensures v < Power256(n)
  {
    FromLe(bytes[at..at + n])
  }

  lemma NumAt(bytes: seq<u8>, at: nat, v: nat, n: nat)
    requires At(bytes, at, ToLe(v, n)) && v < Power256(n)
    ensures Num(bytes, at, n) == v
  {
    LeRoundTrip(v, n);
  }

  lemma Num32At(bytes: seq<u8>, at: nat, v: nat)
    requires At(bytes, at, U32Bytes(v)) && v < U32
    ensures at + 4 <= |bytes| && Num(bytes, at, 4) == v
  {
    Powers();
    NumAt(bytes, at, v, 4);
  }

  lemma Num64At(bytes: seq<u8>, at: nat, v: nat)
    requires At(bytes, at, U64Bytes(v)) && v < U64
    ensures at + 8 <= |bytes| && Num(bytes, at, 8) == v
  {
    Powers();
    NumAt(bytes, at, v, 8);
  }

  // ----- Records

  const RECORD_HEADER: nat := 48

  function EncodeEventHead(e: Event): (b: seq<u8>)
    ensures |b| == RECORD_HEADER
  {
    U32Bytes(e.eventId) + U32Bytes(e.version) + U64Bytes(e.timestamp) + U32Bytes(e.cpu) + U32Bytes(e.pid)
    + U32Bytes(e.tid) + U32Bytes(0) + U64Bytes(e.task) + U32Bytes(|e.payload|) + U32Bytes(0)
  }

  function EncodeEvent(e: Event): (b: seq<u8>)
    ensures |b| == RECORD_HEADER + |e.payload|
  {
    EncodeEventHead(e) + e.payload
  }

  function DecodeEvent(bytes: seq<u8>): (r: Result<Parsed<Event>>)
    ensures r.Ok? ==> RECORD_HEADER <= r.value.next <= |bytes|
  {
    if |bytes| < RECORD_HEADER then Err(TruncatedRecord)
    else
      var end := RECORD_HEADER + Num(bytes, 40, 4);
      if |bytes| < end then Err(TruncatedRecord)
      else
        Ok(Parsed(Event(Num(bytes, 0, 4), Num(bytes, 4, 4), Num(bytes, 8, 8), Num(bytes, 16, 4), Num(bytes, 20, 4),
                        Num(bytes, 24, 4), Num(bytes, 32, 8), bytes[RECORD_HEADER..end]), end))
  }

  predicate EventOk(e: Event) {
    e.eventId < U32 && e.version < U32 && e.timestamp < U64 && e.cpu < U32 && e.pid < U32 && e.tid < U32 && e.task < U64
    && |e.payload| < U32
  }

  lemma EventHeadAt(bytes: seq<u8>, e: Event)
    requires At(bytes, 0, EncodeEventHead(e)) && EventOk(e)
    ensures |bytes| >= RECORD_HEADER && Num(bytes, 0, 4) == e.eventId && Num(bytes, 4, 4) == e.version
    ensures Num(bytes, 8, 8) == e.timestamp && Num(bytes, 16, 4) == e.cpu && Num(bytes, 20, 4) == e.pid
    ensures Num(bytes, 24, 4) == e.tid && Num(bytes, 32, 8) == e.task && Num(bytes, 40, 4) == |e.payload|
  {
    hide At, U32Bytes, U64Bytes, Num;
    var a, b, c, d := U32Bytes(e.eventId), U32Bytes(e.version), U64Bytes(e.timestamp), U32Bytes(e.cpu);
    var f, g, z, h, n := U32Bytes(e.pid), U32Bytes(e.tid), U32Bytes(0), U64Bytes(e.task), U32Bytes(|e.payload|);
    AtConcat(bytes, 0, a + b + c + d + f + g + z + h + n, z);
    AtConcat(bytes, 0, a + b + c + d + f + g + z + h, n);
    AtConcat(bytes, 0, a + b + c + d + f + g + z, h);
    AtConcat(bytes, 0, a + b + c + d + f + g, z);
    AtConcat(bytes, 0, a + b + c + d + f, g);
    AtConcat(bytes, 0, a + b + c + d, f);
    AtConcat(bytes, 0, a + b + c, d);
    AtConcat(bytes, 0, a + b, c);
    AtConcat(bytes, 0, a, b);
    Num32At(bytes, 0, e.eventId);
    Num32At(bytes, 4, e.version);
    Num64At(bytes, 8, e.timestamp);
    Num32At(bytes, 16, e.cpu);
    Num32At(bytes, 20, e.pid);
    Num32At(bytes, 24, e.tid);
    Num64At(bytes, 32, e.task);
    Num32At(bytes, 40, |e.payload|);
    AtEnd(bytes, EncodeEventHead(e));
  }

  lemma AtEnd(bytes: seq<u8>, head: seq<u8>)
    requires At(bytes, 0, head)
    ensures |head| <= |bytes|
  {}

  lemma EventRoundTrip(e: Event, rest: seq<u8>)
    requires EventOk(e)
    ensures DecodeEvent(EncodeEvent(e) + rest) == Ok(Parsed(e, |EncodeEvent(e)|))
  {
    hide Num, EncodeEventHead;
    var bytes := EncodeEvent(e) + rest;
    assert bytes == EncodeEventHead(e) + (e.payload + rest);
    AtWhole(EncodeEventHead(e), e.payload + rest);
    EventHeadAt(bytes, e);
    assert bytes[RECORD_HEADER..RECORD_HEADER + |e.payload|] == e.payload;
  }

  function EncodeEvents(es: seq<Event>): seq<u8> {
    if es == [] then [] else EncodeEvent(es[0]) + EncodeEvents(es[1..])
  }

  lemma {:induction false} EncodeAppend(es: seq<Event>, e: Event)
    ensures EncodeEvents(es + [e]) == EncodeEvents(es) + EncodeEvent(e)
  {
    hide EncodeEvent;
    if es == [] {
      assert es + [e] == [e] && [e][1..] == [];
    } else {
      assert (es + [e])[1..] == es[1..] + [e];
      EncodeAppend(es[1..], e);
    }
  }

  function DecodeEvents(reg: Registry, bytes: seq<u8>): Result<seq<Event>>
    decreases |bytes|
  {
    if bytes == [] then Ok([])
    else
      var e :- DecodeEvent(bytes);
      var _ :- Validate(reg, e.value);
      var rest :- DecodeEvents(reg, bytes[e.next..]);
      Ok([e.value] + rest)
  }

  lemma {:induction false} EventsRoundTrip(reg: Registry, es: seq<Event>)
    requires forall i :: 0 <= i < |es| ==> EventOk(es[i]) && Validate(reg, es[i]).Ok?
    ensures DecodeEvents(reg, EncodeEvents(es)) == Ok(es)
  {
    hide EncodeEvent, DecodeEvent, Validate, EventOk;
    if es != [] {
      var rest := EncodeEvents(es[1..]);
      EventRoundTrip(es[0], rest);
      EventsRoundTrip(reg, es[1..]);
      assert EncodeEvents(es)[|EncodeEvent(es[0])|..] == rest;
      assert [es[0]] + es[1..] == es;
    }
  }

  // ----- Header and trailer

  const HEADER_MAGIC: seq<u8> := [80, 66, 67, 65, 80, 48, 48, 49]
  const TRAILER_MAGIC: seq<u8> := [80, 66, 67, 65, 80, 84, 82, 76]
  const HEADER_SIZE: nat := 80
  const TRAILER_SIZE: nat := 40

  datatype Header = Header(
    schemaVersion: nat, headerSize: nat, arch: Arch, metadataOffset: nat, metadataSize: nat, recordsOffset: nat,
    recordsCount: nat, recordsSize: nat, trailerOffset: nat, trailerSize: nat)

  datatype Trailer = Trailer(recordsCount: nat, recordsBytes: nat, checksum: nat, status: Status, trailerSize: nat,
                             reserved: nat)

  function EncodeHeader(h: Header): (b: seq<u8>)
    ensures |b| == HEADER_SIZE
  {
    HEADER_MAGIC + U32Bytes(1) + U32Bytes(h.schemaVersion) + U32Bytes(h.headerSize) + U32Bytes(ArchCode(h.arch))
    + U64Bytes(h.metadataOffset) + U64Bytes(h.metadataSize) + U64Bytes(h.recordsOffset) + U64Bytes(h.recordsCount)
    + U64Bytes(h.recordsSize) + U64Bytes(h.trailerOffset) + U64Bytes(h.trailerSize)
  }

  function DecodeHeader(bytes: seq<u8>): (r: Result<Header>) {
    if |bytes| < HEADER_SIZE then Err(TruncatedHeader)
    else if bytes[..8] != HEADER_MAGIC then Err(BadMagic)
    else if Num(bytes, 8, 4) != 1 then Err(UnsupportedFormatVersion(Num(bytes, 8, 4)))
    else
      Ok(Header(Num(bytes, 12, 4), Num(bytes, 16, 4), ArchFrom(Num(bytes, 20, 4)), Num(bytes, 24, 8), Num(bytes, 32, 8),
                Num(bytes, 40, 8), Num(bytes, 48, 8), Num(bytes, 56, 8), Num(bytes, 64, 8), Num(bytes, 72, 8)))
  }

  predicate HeaderOk(h: Header) {
    && h.schemaVersion < U32 && h.headerSize < U32 && h.metadataOffset < U64 && h.metadataSize < U64
    && h.recordsOffset < U64 && h.recordsCount < U64 && h.recordsSize < U64
    && h.trailerOffset < U64 && h.trailerSize < U64
  }

  lemma HeaderRoundTrip(bytes: seq<u8>, h: Header)
    requires At(bytes, 0, EncodeHeader(h)) && HeaderOk(h)
    ensures DecodeHeader(bytes) == Ok(h)
  {
    hide U32Bytes, U64Bytes, Num;
    assert bytes[..8] == bytes[..HEADER_SIZE][..8] == HEADER_MAGIC;
    AtEnd(bytes, EncodeHeader(h));
    hide At;
    var m, v, s, z, a := HEADER_MAGIC, U32Bytes(1), U32Bytes(h.schemaVersion), U32Bytes(h.headerSize),
        U32Bytes(ArchCode(h.arch));
    var p := m + v + s + z + a;
    var b, c, d := U64Bytes(h.metadataOffset), U64Bytes(h.metadataSize), U64Bytes(h.recordsOffset);
    var e, f, g, t := U64Bytes(h.recordsCount), U64Bytes(h.recordsSize), U64Bytes(h.trailerOffset),
        U64Bytes(h.trailerSize);
    AtConcat(bytes, 0, p + b + c + d + e + f + g, t);
    AtConcat(bytes, 0, p + b + c + d + e + f, g);
    AtConcat(bytes, 0, p + b + c + d + e, f);
    AtConcat(bytes, 0, p + b + c + d, e);
    AtConcat(bytes, 0, p + b + c, d);
    AtConcat(bytes, 0, p + b, c);
    AtConcat(bytes, 0, p, b);
    AtConcat(bytes, 0, m + v + s + z, a);
    AtConcat(bytes, 0, m + v + s, z);
    AtConcat(bytes, 0, m + v, s);
    AtConcat(bytes, 0, m, v);
    CodesRoundTrip(h.arch, Complete, AllCpus);
    Num32At(bytes, 8, 1);
    Num32At(bytes, 12, h.schemaVersion);
    Num32At(bytes, 16, h.headerSize);
    Num32At(bytes, 20, ArchCode(h.arch));
    Num64At(bytes, 24, h.metadataOffset);
    Num64At(bytes, 32, h.metadataSize);
    Num64At(bytes, 40, h.recordsOffset);
    Num64At(bytes, 48, h.recordsCount);
    Num64At(bytes, 56, h.recordsSize);
    Num64At(bytes, 64, h.trailerOffset);
    Num64At(bytes, 72, h.trailerSize);
  }

  function EncodeTrailer(t: Trailer): (b: seq<u8>)
    ensures |b| == TRAILER_SIZE
  {
    TRAILER_MAGIC + U64Bytes(t.recordsCount) + U64Bytes(t.recordsBytes) + U32Bytes(t.checksum)
    + U32Bytes(StatusCode(t.status)) + U32Bytes(t.trailerSize) + U32Bytes(t.reserved)
  }

  function DecodeTrailer(bytes: seq<u8>): (r: Result<Trailer>) {
    if |bytes| < TRAILER_SIZE then Err(TruncatedTrailer)
    else if bytes[..8] != TRAILER_MAGIC then Err(BadTrailerMagic)
    else
      Ok(Trailer(Num(bytes, 8, 8), Num(bytes, 16, 8), Num(bytes, 24, 4), StatusFrom(Num(bytes, 28, 4)),
                 Num(bytes, 32, 4), Num(bytes, 36, 4)))
  }

  lemma TrailerRoundTrip(t: Trailer)
    requires t.recordsCount < U64 && t.recordsBytes < U64 && t.checksum < U32 && t.trailerSize < U32 && t.reserved < U32
    ensures DecodeTrailer(EncodeTrailer(t)) == Ok(t)
  {
    hide U32Bytes, U64Bytes, Num;
    var bytes := EncodeTrailer(t);
    assert bytes[..8] == TRAILER_MAGIC;
    assert At(bytes, 0, bytes);
    hide At;
    var m, a, b, c := TRAILER_MAGIC, U64Bytes(t.recordsCount), U64Bytes(t.recordsBytes), U32Bytes(t.checksum);
    var d, e, f := U32Bytes(StatusCode(t.status)), U32Bytes(t.trailerSize), U32Bytes(t.reserved);
    AtConcat(bytes, 0, m + a + b + c + d + e, f);
    AtConcat(bytes, 0, m + a + b + c + d, e);
    AtConcat(bytes, 0, m + a + b + c, d);
    AtConcat(bytes, 0, m + a + b, c);
    AtConcat(bytes, 0, m + a, b);
    AtConcat(bytes, 0, m, a);
    CodesRoundTrip(Unknown, t.status, AllCpus);
    Num64At(bytes, 8, t.recordsCount);
    Num64At(bytes, 16, t.recordsBytes);
    Num32At(bytes, 24, t.checksum);
    Num32At(bytes, 28, StatusCode(t.status));
    Num32At(bytes, 32, t.trailerSize);
    Num32At(bytes, 36, t.reserved);
  }

  function CheckIntegrity(t: Trailer, count: nat, size: nat, sum: nat): Result<()> {
    if t.recordsCount != count then Err(RecordCountMismatch(t.recordsCount, count))
    else if t.recordsBytes != size then Err(ByteCountMismatch(t.recordsBytes, size))
    else if t.checksum != sum then Err(ChecksumMismatch(t.checksum, sum))
    else Ok(())
  }

  // ----- Reading

  datatype Data = Data(header: Header, registry: Registry, metadata: Metadata, records: seq<Event>, trailer: Trailer)

  /** Header, trailer and checksum, before anything else is looked at. */
  function ReadFrame(bytes: seq<u8>): (r: Result<(Header, Trailer)>) {
    var h :- DecodeHeader(bytes);
    if |bytes| < h.trailerOffset + h.trailerSize then Err(TruncatedTrailer)
    else
      var t :- DecodeTrailer(bytes[h.trailerOffset..h.trailerOffset + h.trailerSize]);
      var _ :- CheckIntegrity(t, h.recordsCount, h.recordsSize, Checksum(bytes[..h.trailerOffset]));
      Ok((h, t))
  }

  function ReadSections(utf8: Utf8, bytes: seq<u8>, h: Header, t: Trailer): Result<Data> {
    if |bytes| < h.metadataOffset + h.metadataSize then Err(TruncatedMetadata)
    else
      var meta := bytes[h.metadataOffset..h.metadataOffset + h.metadataSize];
      var reg :- DecodeRegistry(utf8, meta);
      var md :- DecodeMetadata(utf8, meta, reg.next);
      if |bytes| < h.recordsOffset + h.recordsSize then Err(TruncatedRecord)
      else
        var records :- DecodeEvents(reg.value, bytes[h.recordsOffset..h.recordsOffset + h.recordsSize]);
        if |records| != h.recordsCount then Err(RecordCountMismatch(h.recordsCount, |records|))
        else Ok(Data(h, reg.value, md.value, records, t))
  }

  function ReadCapture(utf8: Utf8, bytes: seq<u8>): Result<Data> {
    var frame :- ReadFrame(bytes);
    ReadSections(utf8, bytes, frame.0, frame.1)
  }

  /** Decodes and validates records up to the end of their section. */
  method ReadRecords(reg: Registry, bytes: seq<u8>, start: nat, end: nat) returns (r: Result<seq<Event>>)
    requires start <= end <= |bytes|
    ensures r == DecodeEvents(reg, bytes[start..end])
  {
    hide DecodeEvent, Validate;
    var records: seq<Event>, pos := [], start;
    ghost var whole := DecodeEvents(reg, bytes[start..end]);
    assert whole.Ok? ==> [] + whole.value == whole.value;
    while pos < end
      invariant start <= pos <= end
      invariant var rest := DecodeEvents(reg, bytes[pos..end]);
                whole == if rest.Ok? then Ok(records + rest.value) else rest
      decreases end - pos
    {
      var slice := bytes[pos..end];
      var e :- DecodeEvent(slice);
      var _ :- Validate(reg, e.value);
      assert slice[e.next..] == bytes[pos + e.next..end];
      ghost var rest := DecodeEvents(reg, bytes[pos + e.next..end]);
      assert rest.Ok? ==> records + ([e.value] + rest.value) == records + [e.value] + rest.value;
      records, pos := records + [e.value], pos + e.next;
    }
    assert bytes[end..end] == [];
    assert records + [] == records;
    return Ok(records);
  }

  /** What a capture that was read can be relied on for, whatever the bytes were. */
  ghost predicate Sound(bytes: seq<u8>, d: Data) {
    && d.header.trailerOffset <= |bytes| && d.trailer.checksum == Checksum(bytes[..d.header.trailerOffset])
    && |d.records| == d.header.recordsCount == d.trailer.recordsCount
    && |EncodeEvents(d.records)| == d.header.recordsSize == d.trailer.recordsBytes
    && DistinctIds(d.registry)
    && forall i :: 0 <= i < |d.records| ==> EventOk(d.records[i]) && Validate(d.registry, d.records[i]).Ok?
  }

  lemma {:induction false} DecodedEvents(reg: Registry, bytes: seq<u8>)
    ensures var r := DecodeEvents(reg, bytes);
            r.Ok? ==>
              && |EncodeEvents(r.value)| == |bytes|
              && forall i :: 0 <= i < |r.value| ==> EventOk(r.value[i]) && Validate(reg, r.value[i]).Ok?
    decreases |bytes|
  {
    hide DecodeEvent, EncodeEvent, EventOk, Validate;
    if bytes != [] && DecodeEvents(reg, bytes).Ok? {
      var e := DecodeEvent(bytes);
      DecodedEvent(bytes);
      DecodedEvents(reg, bytes[e.value.next..]);
      var rest := DecodeEvents(reg, bytes[e.value.next..]).value;
      assert ([e.value.value] + rest)[1..] == rest;
    }
  }

  lemma DecodedEvent(bytes: seq<u8>)
    ensures var r := DecodeEvent(bytes);
            r.Ok? ==> EventOk(r.value.value) && |EncodeEvent(r.value.value)| == r.value.next
  {
    Powers();
  }

  lemma {:induction false} DecodedIds(utf8: Utf8, slice: seq<u8>, off: nat, n: nat)
    ensures var r := DecodeSchemas(utf8, slice, off, n); r.Ok? ==> DistinctIds(r.value.value)
  {
    hide DecodeSchema, CaptureSchema.Register;
    if n > 0 { DecodedIds(utf8, slice, off, n - 1); }
  }

  /** A capture is never accepted unless it is sound. */
  lemma AcceptedIsSound(utf8: Utf8, bytes: seq<u8>)
    requires ReadCapture(utf8, bytes).Ok?
    ensures Sound(bytes, ReadCapture(utf8, bytes).value)
  {
    hide DecodeHeader, DecodeTrailer, DecodeSchemas, DecodeMetadata, DecodeEvents, Checksum, EventOk, Validate,
         EncodeEvents;
    var h := DecodeHeader(bytes).value;
    var meta := bytes[h.metadataOffset..h.metadataOffset + h.metadataSize];
    var count := Take32(meta, 0).value;
    DecodedIds(utf8, meta, count.next, count.value);
    DecodedEvents(DecodeRegistry(utf8, meta).value.value, bytes[h.recordsOffset..h.recordsOffset + h.recordsSize]);
  }

  /** Reads a capture: whatever the bytes, what is returned without an error is sound. */
  method FromBytes(utf8: Utf8, bytes: seq<u8>) returns (r: Result<Data>)
    ensures r == ReadCapture(utf8, bytes)
    ensures r.Ok? ==> Sound(bytes, r.value)
  {
    hide DecodeHeader, DecodeTrailer, DecodeRegistry, DecodeMetadata, DecodeEvents, Checksum, Sound;
    if ReadCapture(utf8, bytes).Ok? {
      AcceptedIsSound(utf8, bytes);
    }
    var h :- DecodeHeader(bytes);
    if |bytes| < h.trailerOffset + h.trailerSize {
      return Err(TruncatedTrailer);
    }
    var t :- DecodeTrailer(bytes[h.trailerOffset..h.trailerOffset + h.trailerSize]);
    var sum := ComputeChecksum(bytes[..h.trailerOffset]);
    var _ :- CheckIntegrity(t, h.recordsCount, h.recordsSize, sum);
    if |bytes| < h.metadataOffset + h.metadataSize {
      return Err(TruncatedMetadata);
    }
    var meta := bytes[h.metadataOffset..h.metadataOffset + h.metadataSize];
    var reg :- ReadRegistry(utf8, meta);
    var md :- ReadMetadata(utf8, meta, reg.next);
    if |bytes| < h.recordsOffset + h.recordsSize {
      return Err(TruncatedRecord);
    }
    var records :- ReadRecords(reg.value, bytes, h.recordsOffset, h.recordsOffset + h.recordsSize);
    if |records| != h.recordsCount {
      return Err(RecordCountMismatch(h.recordsCount, |records|));
    }
    return Ok(Data(h, reg.value, md.value, records, t));
  }

  // ----- A finished file

  function MetaBytes(reg: Registry, md: Metadata): seq<u8> {
    EncodeRegistry(reg) + EncodeMetadata(md)
  }

  function HeaderFor(reg: Registry, md: Metadata, es: seq<Event>): Header {
    var meta, size := |MetaBytes(reg, md)|, |EncodeEvents(es)|;
    Header(1, HEADER_SIZE, md.config.arch, HEADER_SIZE, meta, HEADER_SIZE + meta, |es|, size,
           HEADER_SIZE + meta + size, TRAILER_SIZE)
  }

  function Body(reg: Registry, md: Metadata, es: seq<Event>): seq<u8> {
    EncodeHeader(HeaderFor(reg, md, es)) + MetaBytes(reg, md) + EncodeEvents(es)
  }

  function TrailerFor(reg: Registry, md: Metadata, es: seq<Event>): Trailer {
    Trailer(|es|, |EncodeEvents(es)|, Checksum(Body(reg, md, es)), md.status, TRAILER_SIZE, 0)
  }

  /** The bytes of a capture. */
  function FileBytes(reg: Registry, md: Metadata, es: seq<Event>): seq<u8> {
    Body(reg, md, es) + EncodeTrailer(TrailerFor(reg, md, es))
  }

  /** Everything fits its field, and every record matches its schema. */
  ghost predicate FileOk(utf8: Utf8, reg: Registry, md: Metadata, es: seq<Event>) {
    && RegistryOk(utf8, reg) && MetadataOk(utf8, md) && |FileBytes(reg, md, es)| < U64
    && forall i :: 0 <= i < |es| ==> EventOk(es[i]) && Validate(reg, es[i]).Ok?
  }

  lemma {:induction false} EventsAreLong(es: seq<Event>)
    ensures |EncodeEvents(es)| >= |es|
  {
    hide EncodeEvent;
    if es != [] {
      EventsAreLong(es[1..]);
    }
  }

  lemma HeaderFits(utf8: Utf8, reg: Registry, md: Metadata, es: seq<Event>)
    requires FileOk(utf8, reg, md, es)
    ensures HeaderOk(HeaderFor(reg, md, es))
    ensures |Body(reg, md, es)| == HeaderFor(reg, md, es).trailerOffset
  {
    hide EncodeEvents, MetaBytes, EncodeHeader, RegistryOk, MetadataOk, EncodeTrailer, EventOk, Validate, Checksum;
    EventsAreLong(es);
  }

  lemma TrailerFits(utf8: Utf8, reg: Registry, md: Metadata, es: seq<Event>)
    requires FileOk(utf8, reg, md, es)
    ensures DecodeTrailer(EncodeTrailer(TrailerFor(reg, md, es))) == Ok(TrailerFor(reg, md, es))
  {
    hide EncodeEvents, MetaBytes, EncodeHeader, RegistryOk, MetadataOk, EncodeTrailer, DecodeTrailer, EventOk,
         Validate, Checksum;
    HeaderFits(utf8, reg, md, es);
    ChecksumBound(Body(reg, md, es));
    TrailerRoundTrip(TrailerFor(reg, md, es));
  }

  /** What the frame of any file with an intact header and trailer comes to. */
  lemma FrameOf(utf8: Utf8, reg: Registry, md: Metadata, es: seq<Event>, body: seq<u8>)
    requires FileOk(utf8, reg, md, es)
    requires |body| == |Body(reg, md, es)| && body[..HEADER_SIZE] == EncodeHeader(HeaderFor(reg, md, es))
    ensures var h, t := HeaderFor(reg, md, es), TrailerFor(reg, md, es);
            var bytes := body + EncodeTrailer(t);
            ReadFrame(bytes) == if Checksum(body) == t.checksum then Ok((h, t))
              else Err(ChecksumMismatch(t.checksum, Checksum(body)))
  {
    hide EncodeEvents, MetaBytes, EncodeHeader, DecodeHeader, RegistryOk, MetadataOk, EncodeTrailer, DecodeTrailer,
         EventOk, Validate, Checksum, Body;
    var h, t := HeaderFor(reg, md, es), TrailerFor(reg, md, es);
    var bytes := body + EncodeTrailer(t);
    HeaderFits(utf8, reg, md, es);
    TrailerFits(utf8, reg, md, es);
    assert bytes[0..0 + HEADER_SIZE] == body[..HEADER_SIZE];
    HeaderRoundTrip(bytes, h);
    assert bytes[..h.trailerOffset] == body;
    assert bytes[h.trailerOffset..h.trailerOffset + h.trailerSize] == EncodeTrailer(t);
  }

  lemma SectionsOf(utf8: Utf8, reg: Registry, md: Metadata, es: seq<Event>)
    requires FileOk(utf8, reg, md, es)
    ensures var h, t := HeaderFor(reg, md, es), TrailerFor(reg, md, es);
            ReadSections(utf8, FileBytes(reg, md, es), h, t) == Ok(Data(h, reg, md, es, t))
  {
    hide EncodeEvents, EncodeHeader, RegistryOk, MetadataOk, EncodeTrailer, EventOk, Validate, Checksum, DecodeEvents;
    hide EncodeRegistry, EncodeMetadata, DecodeRegistry, DecodeMetadata;
    var h, bytes := HeaderFor(reg, md, es), FileBytes(reg, md, es);
    var meta, recs, tail := MetaBytes(reg, md), EncodeEvents(es), EncodeTrailer(TrailerFor(reg, md, es));
    assert bytes == EncodeHeader(h) + meta + recs + tail;
    assert bytes[h.metadataOffset..h.metadataOffset + h.metadataSize] == meta;
    assert bytes[h.recordsOffset..h.recordsOffset + h.recordsSize] == recs;
    RegistryRoundTrip(utf8, reg, EncodeMetadata(md));
    MetaAt(reg, md);
    MetadataRoundTrip(utf8, meta, |EncodeRegistry(reg)|, md);
    EventsRoundTrip(reg, es);
  }

  lemma MetaAt(reg: Registry, md: Metadata)
    ensures At(MetaBytes(reg, md), |EncodeRegistry(reg)|, EncodeMetadata(md))
  {
    hide EncodeRegistry, EncodeMetadata;
    var meta := MetaBytes(reg, md);
    assert meta[|EncodeRegistry(reg)|..|EncodeRegistry(reg)| + |EncodeMetadata(md)|] == EncodeMetadata(md);
  }

  /** Reading a finished file gives back the registry, the metadata, the status and the records in order. */
  lemma ReadUndoesWrite(utf8: Utf8, reg: Registry, md: Metadata, es: seq<Event>)
    requires FileOk(utf8, reg, md, es)
    ensures ReadCapture(utf8, FileBytes(reg, md, es)) ==
            Ok(Data(HeaderFor(reg, md, es), reg, md, es, TrailerFor(reg, md, es)))
  {
    hide EncodeEvents, EncodeHeader, FileOk, EncodeTrailer, Checksum, ReadFrame, ReadSections, MetaBytes, HeaderFor;
    var body := Body(reg, md, es);
    assert body[..HEADER_SIZE] == EncodeHeader(HeaderFor(reg, md, es));
    FrameOf(utf8, reg, md, es, body);
    SectionsOf(utf8, reg, md, es);
  }

  /** Any change of one byte between header and trailer is reported as a checksum mismatch. */
  lemma OneByteIsDetected(utf8: Utf8, reg: Registry, md: Metadata, es: seq<Event>, i: nat, b: u8)
    requires FileOk(utf8, reg, md, es)
    requires HEADER_SIZE <= i < |Body(reg, md, es)| && FileBytes(reg, md, es)[i] != b
    ensures var sum, actual := Checksum(Body(reg, md, es)), Checksum(Body(reg, md, es)[i := b]);
            ReadCapture(utf8, FileBytes(reg, md, es)[i := b]) == Err(ChecksumMismatch(sum, actual)) && sum != actual
  {
    hide EncodeEvents, EncodeHeader, FileOk, EncodeTrailer, Checksum, ReadFrame, ReadSections, MetaBytes, HeaderFor;
    var body := Body(reg, md, es);
    var changed := body[i := b];
    assert changed[..HEADER_SIZE] == body[..HEADER_SIZE] == EncodeHeader(HeaderFor(reg, md, es));
    OneByteChangesChecksum(body, i, b);
    FrameOf(utf8, reg, md, es, changed);
    assert FileBytes(reg, md, es)[i := b] == changed + EncodeTrailer(TrailerFor(reg, md, es));
  }

  /** The trailer offset, which says what the checksum covers. */
  predicate InTrailerOffset(i: nat) { 64 <= i < 72 }

  lemma ChangedOffset(bytes: seq<u8>, i: nat, b: u8)
    requires i < |bytes| && !InTrailerOffset(i) && DecodeHeader(bytes).Ok? && DecodeHeader(bytes[i := b]).Ok?
    ensures DecodeHeader(bytes[i := b]).value.trailerOffset == DecodeHeader(bytes).value.trailerOffset
  {
    assert bytes[i := b][64..64 + 8] == bytes[64..64 + 8];
  }

  /** A changed byte of the header, other than in the trailer offset, or between header and trailer, is always
      reported. */
  lemma OneByteIsRefused(utf8: Utf8, reg: Registry, md: Metadata, es: seq<Event>, i: nat, b: u8)
    requires FileOk(utf8, reg, md, es) && !InTrailerOffset(i)
    requires i < |Body(reg, md, es)| && FileBytes(reg, md, es)[i] != b
    ensures ReadCapture(utf8, FileBytes(reg, md, es)[i := b]).Err?
  {
    hide EncodeEvents, EncodeHeader, FileOk, EncodeTrailer, Checksum, ReadSections, MetaBytes, HeaderFor, DecodeHeader,
         DecodeTrailer;
    var body, t := Body(reg, md, es), TrailerFor(reg, md, es);
    var bytes := FileBytes(reg, md, es);
    var changed, h := body[i := b], HeaderFor(reg, md, es);
    assert body[..HEADER_SIZE] == EncodeHeader(h);
    FrameOf(utf8, reg, md, es, body);
    OneByteChangesChecksum(body, i, b);
    HeaderFits(utf8, reg, md, es);
    TrailerFits(utf8, reg, md, es);
    assert bytes[i := b] == changed + EncodeTrailer(t);
    var r := DecodeHeader(bytes[i := b]);
    if r.Ok? {
      ChangedOffset(bytes, i, b);
      assert bytes[i := b][..r.value.trailerOffset] == changed;
      if |changed| + r.value.trailerSize <= |bytes| {
        TrailerSlice(changed, EncodeTrailer(t), r.value.trailerSize);
      }
    }
  }

  lemma TrailerSlice(body: seq<u8>, trailer: seq<u8>, size: nat)
    requires |trailer| == TRAILER_SIZE && |body| + size <= |body + trailer|
    ensures var slice := (body + trailer)[|body|..|body| + size];
            if size == TRAILER_SIZE then slice == trailer else DecodeTrailer(slice).Err?
  {}

  // ----- Changes of the trailer

  lemma ChangedField(bytes: seq<u8>, i: nat, b: u8, at: nat, n: nat)
    requires i < |bytes| && bytes[i] != b && at + n <= |bytes|
    ensures Num(bytes[i := b], at, n) == Num(bytes, at, n) <==> !(at <= i < at + n)
  {
    var x, y := bytes[at..at + n], bytes[i := b][at..at + n];
    if at <= i < at + n {
      assert x[i - at] != y[i - at];
      LeInjective(x, y);
    } else {
      assert x == y;
    }
  }

  /** How a trailer with one changed byte reads: refused, or with the one field changed that holds the byte. */
  lemma ChangedTrailer(t: Trailer, i: nat, b: u8)
    requires DecodeTrailer(EncodeTrailer(t)) == Ok(t) && i < TRAILER_SIZE && EncodeTrailer(t)[i] != b
    ensures var r := DecodeTrailer(EncodeTrailer(t)[i := b]);
            if i < 8 then r == Err(BadTrailerMagic)
            else
              && r.Ok? && (r.value.recordsCount == t.recordsCount <==> !(8 <= i < 16))
              && (r.value.recordsBytes == t.recordsBytes <==> !(16 <= i < 24))
              && (r.value.checksum == t.checksum <==> !(24 <= i < 28))
  {
    var bytes := EncodeTrailer(t);
    var changed := bytes[i := b];
    hide EncodeTrailer, Num;
    assert bytes[..8] == TRAILER_MAGIC;
    if i < 8 {
      assert changed[..8][i] != bytes[..8][i];
    } else {
      assert changed[..8] == bytes[..8];
      ChangedField(bytes, i, b, 8, 8);
      ChangedField(bytes, i, b, 16, 8);
      ChangedField(bytes, i, b, 24, 4);
    }
  }

  /** A changed byte of the trailer is reported exactly when it lies in the magic, the two counts or the checksum; the
      status and the last two words are covered by nothing, and the records are then read unchanged. */
  lemma TrailerByte(utf8: Utf8, reg: Registry, md: Metadata, es: seq<Event>, i: nat, b: u8)
    requires FileOk(utf8, reg, md, es) && i < TRAILER_SIZE && EncodeTrailer(TrailerFor(reg, md, es))[i] != b
    ensures var bytes := Body(reg, md, es) + EncodeTrailer(TrailerFor(reg, md, es))[i := b];
            var r := ReadCapture(utf8, bytes);
            && (r.Err? <==> i < 28)
            && (8 <= i < 16 ==> r.error.RecordCountMismatch? && r.error.actualCount == |es| != r.error.expectedCount)
            && (16 <= i < 24 ==>
                  r.error.ByteCountMismatch? && r.error.actualBytes == |EncodeEvents(es)| != r.error.expectedBytes)
            && (24 <= i < 28 ==> r.error.ChecksumMismatch? && r.error.actualSum == Checksum(Body(reg, md, es)))
            && (r.Ok? ==> r.value.registry == reg && r.value.metadata == md && r.value.records == es)
  {
    hide EncodeEvents, EncodeHeader, FileOk, EncodeTrailer, Checksum, ReadSections, MetaBytes, DecodeHeader,
         DecodeTrailer;
    var body, t, h := Body(reg, md, es), TrailerFor(reg, md, es), HeaderFor(reg, md, es);
    var tail := EncodeTrailer(t)[i := b];
    var bytes := body + tail;
    HeaderFits(utf8, reg, md, es);
    TrailerFits(utf8, reg, md, es);
    ChangedTrailer(t, i, b);
    assert bytes[0..0 + HEADER_SIZE] == body[..HEADER_SIZE] == EncodeHeader(h);
    HeaderRoundTrip(bytes, h);
    assert bytes[..h.trailerOffset] == body;
    TrailerSlice(body, tail, h.trailerSize);
    if i >= 28 {
      SectionsOf(utf8, reg, md, es);
      SameSections(utf8, FileBytes(reg, md, es), bytes, h, t, DecodeTrailer(tail).value);
    }
  }

  /** The sections depend on the bytes before the trailer only. */
  lemma SameSections(utf8: Utf8, bytes: seq<u8>, other: seq<u8>, h: Header, t: Trailer, u: Trailer)
    requires |bytes| == |other| && ReadSections(utf8, bytes, h, t).Ok?
    requires h.metadataOffset + h.metadataSize <= h.trailerOffset <= |bytes|
    requires h.recordsOffset + h.recordsSize <= h.trailerOffset
    requires bytes[..h.trailerOffset] == other[..h.trailerOffset]
    ensures ReadSections(utf8, other, h, u) == Ok(ReadSections(utf8, bytes, h, t).value.(trailer := u))
  {
    hide DecodeRegistry, DecodeMetadata, DecodeEvents;
    var k := h.trailerOffset;
    assert forall i, j :: 0 <= i <= j <= k ==> bytes[i..j] == bytes[..k][i..j] && other[i..j] == other[..k][i..j];
  }
}
