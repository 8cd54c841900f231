/** Capture files: errors, little-endian fields at an offset, length-prefixed strings. */
module CaptureCodec {
  import opened Bytes

  datatype Status = Complete | IncompleteLoss | IncompleteTruncated | IncompleteError

  datatype CaptureError =
    | BadMagic
    | UnsupportedFormatVersion(version: nat)
    | TruncatedHeader
    | BadTrailerMagic
    | TruncatedTrailer
    | TruncatedMetadata
    | TruncatedRecord
    | SchemaMismatch(expectedVersion: nat, actualVersion: nat)
    | RecordCountMismatch(expectedCount: nat, actualCount: nat)
    | ByteCountMismatch(expectedBytes: nat, actualBytes: nat)
    | ChecksumMismatch(expectedSum: nat, actualSum: nat)
    | NotRunning

  datatype Result<+T> = Ok(value: T) | Err(error: CaptureError) {
    predicate IsFailure() { Err? }

    function PropagateFailure<U>(): Result<U>
      requires Err?
    {
      Err(error)
    }

    function Extract(): T
      requires Ok?
    {
      value
    }
  }

  /** A decoded value and the offset behind it. */
  datatype Parsed<+T> = Parsed(value: T, next: nat)

  /** `bytes` stands at `off` in the slice. */
  ghost predicate At(slice: seq<u8>, off: nat, bytes: seq<u8>) {
    off + |bytes| <= |slice| && slice[off..off + |bytes|] == bytes
  }

  lemma AtConcat(slice: seq<u8>, off: nat, a: seq<u8>, b: seq<u8>)
    requires At(slice, off, a + b)
    ensures At(slice, off, a) && At(slice, off + |a|, b)
  {
    var whole := slice[off..off + |a + b|];
    assert slice[off..off + |a|] == whole[..|a|] == a;
    assert slice[off + |a|..off + |a| + |b|] == whole[|a|..] == b;
  }

  lemma AtWhole(bytes: seq<u8>, rest: seq<u8>)
    ensures At(bytes + rest, 0, bytes)
  {}

  /** An unsigned field of `n` bytes. */
  function Take(slice: seq<u8>, off: nat, n: nat): (r: Result<Parsed<nat>>)
    ensures r.Ok? ==> r.value.next == off + n <= |slice| && r.value.value < Power256(n)
    ensures r.Err? <==> |slice| < off + n
    ensures r.Err? ==> r.error == TruncatedMetadata
  {
    if |slice| < off + n then Err(TruncatedMetadata) else Ok(Parsed(FromLe(slice[off..off + n]), off + n))
  }

  lemma TakeAt(slice: seq<u8>, off: nat, v: nat, n: nat)
    requires At(slice, off, ToLe(v, n)) && v < Power256(n)
    ensures Take(slice, off, n) == Ok(Parsed(v, off + n))
  {
    LeRoundTrip(v, n);
  }

  function U32Bytes(v: nat): (b: seq<u8>)
    ensures |b| == 4
  { ToLe(v, 4) }

  function U64Bytes(v: nat): (b: seq<u8>)
    ensures |b| == 8
  { ToLe(v, 8) }

  function Take32(slice: seq<u8>, off: nat): (r: Result<Parsed<nat>>)
    ensures r.Ok? ==> r.value.next == off + 4 <= |slice| && r.value.value < U32
    ensures r.Err? <==> |slice| < off + 4
    ensures r.Err? ==> r.error == TruncatedMetadata
  {
    Powers();
    Take(slice, off, 4)
  }

  function Take64(slice: seq<u8>, off: nat): (r: Result<Parsed<nat>>)
    ensures r.Ok? ==> r.value.next == off + 8 <= |slice| && r.value.value < U64
    ensures r.Err? <==> |slice| < off + 8
    ensures r.Err? ==> r.error == TruncatedMetadata
  {
    Powers();
    Take(slice, off, 8)
  }

  lemma Take32At(slice: seq<u8>, off: nat, v: nat)
    requires At(slice, off, U32Bytes(v)) && v < U32
    ensures Take32(slice, off) == Ok(Parsed(v, off + 4))
  {
    Powers();
    TakeAt(slice, off, v, 4);
  }

  lemma Take64At(slice: seq<u8>, off: nat, v: nat)
    requires At(slice, off, U64Bytes(v)) && v < U64
    ensures Take64(slice, off) == Ok(Parsed(v, off + 8))
  {
    Powers();
    TakeAt(slice, off, v, 8);
  }

  // ----- Strings

  /** A string is its bytes; which byte sequences are valid text is a parameter of the decoders. */
  type Text = seq<u8>

  type Utf8 = Text -> bool

  /** The length is cut to 32 bits. */
  function EncodeString(s: Text): (b: seq<u8>)
    ensures |b| == 4 + |s|
  {
    U32Bytes(|s|) + s
  }

  function DecodeString(utf8: Utf8, slice: seq<u8>, off: nat): (r: Result<Parsed<Text>>)
    ensures r.Ok? ==> off + 4 <= r.value.next <= |slice|
  {
    var len :- Take32(slice, off);
    var end := len.next + len.value;
    if |slice| < end then Err(TruncatedMetadata)
    else if !utf8(slice[len.next..end]) then Err(TruncatedMetadata)
    else Ok(Parsed(slice[len.next..end], end))
  }

  predicate TextOk(utf8: Utf8, s: Text) {
    |s| < U32 && utf8(s)
  }

  /** Decoding a string gives back what was encoded, wherever it stands. */
  lemma StringRoundTrip(utf8: Utf8, slice: seq<u8>, off: nat, s: Text)
    requires At(slice, off, EncodeString(s)) && TextOk(utf8, s)
    ensures DecodeString(utf8, slice, off) == Ok(Parsed(s, off + |EncodeString(s)|))
  {
    hide U32Bytes, Take32;
    AtConcat(slice, off, U32Bytes(|s|), s);
    Take32At(slice, off, |s|);
  }
}
