/** Event schemas and their registry: registration, validation, and the registry's bytes. */
module CaptureSchema {
  import opened Options
  import opened Bytes
  import opened CaptureCodec

  datatype FieldType = FU8 | FU16 | FU32 | FU64 | FI32 | FI64 | ByteArray(length: nat)

  datatype Field = Field(name: Text, offset: nat, size: nat, fieldType: FieldType)

  datatype Schema = Schema(eventId: nat, category: Text, name: Text, version: nat, payloadSize: nat, fields: seq<Field>)

  /** Schemas in the order of their first registration. */
  type Registry = seq<Schema>

  datatype Event = Event(eventId: nat, version: nat, timestamp: nat, cpu: nat, pid: nat, tid: nat, task: nat,
                         payload: seq<u8>)

  // ----- Registration

  ghost predicate DistinctIds(reg: Registry) {
    forall i, j :: 0 <= i < j < |reg| ==> reg[i].eventId != reg[j].eventId
  }

  function Position(reg: Registry, id: nat): (r: Option<nat>)
    ensures r.Some? ==> r.value < |reg| && reg[r.value].eventId == id
    ensures r.Some? ==> forall i :: 0 <= i < r.value ==> reg[i].eventId != id
    ensures r.None? <==> forall i :: 0 <= i < |reg| ==> reg[i].eventId != id
  {
    if reg == [] then None
    else if reg[0].eventId == id then Some(0)
    else
      var rest := Position(reg[1..], id);
      assert forall i :: 0 < i < |reg| ==> reg[i] == reg[1..][i - 1];
      if rest.None? then None else Some(rest.value + 1)
  }

  /** A schema replaces the one with its id, or goes to the end. */
  function Register(reg: Registry, s: Schema): (r: Registry)
    ensures DistinctIds(reg) ==> DistinctIds(r)
    ensures Position(reg, s.eventId).None? ==> r == reg + [s]
  {
    var p := Position(reg, s.eventId);
    if p.Some? then reg[p.value := s] else reg + [s]
  }

  function Lookup(reg: Registry, id: nat): Option<Schema> {
    var p := Position(reg, id);
    if p.Some? then Some(reg[p.value]) else None
  }

  /** The registered schema is the one found, and no other id is affected. */
  lemma RegisterFinds(reg: Registry, s: Schema, id: nat)
    requires DistinctIds(reg)
    ensures Lookup(Register(reg, s), id) == if id == s.eventId then Some(s) else Lookup(reg, id)
  {
    var r := Register(reg, s);
    var p, q := Position(reg, id), Position(r, id);
    if id == s.eventId {
      var i := if Position(reg, s.eventId).Some? then Position(reg, s.eventId).value else |reg|;
      assert r[i] == s;
    } else {
      assert forall i :: 0 <= i < |reg| && reg[i].eventId == id ==> r[i] == reg[i];
      if p.Some? { assert r[p.value].eventId == id; }
    }
  }

  /** The first schema with the event's id has its version and the length of its payload. */
  ghost predicate FitsSchema(reg: Registry, e: Event) {
    exists i :: 0 <= i < |reg| && IsSchemaOf(reg, i, e.eventId) && reg[i].version == e.version &&
                reg[i].payloadSize == |e.payload|
  }

  ghost predicate IsSchemaOf(reg: Registry, i: nat, id: nat)
    requires i < |reg|
  {
    reg[i].eventId == id && forall j :: 0 <= j < i ==> reg[j].eventId != id
  }

  function Validate(reg: Registry, e: Event): Result<()> {
    var s := Lookup(reg, e.eventId);
    if s.None? then Err(SchemaMismatch(0, e.eventId))
    else if e.version != s.value.version then Err(SchemaMismatch(s.value.version, e.version))
    else if |e.payload| != s.value.payloadSize then Err(ByteCountMismatch(s.value.payloadSize, |e.payload|))
    else Ok(())
  }

  /** A record passes exactly when it fits its schema; otherwise the version is reported before the length. */
  lemma ValidateMeans(reg: Registry, e: Event)
    ensures Validate(reg, e).Ok? <==> FitsSchema(reg, e)
    ensures Validate(reg, e).Err? ==>
              var error := Validate(reg, e).error;
              || ((forall i :: 0 <= i < |reg| ==> reg[i].eventId != e.eventId) && error == SchemaMismatch(0, e.eventId))
              || exists i :: 0 <= i < |reg| && IsSchemaOf(reg, i, e.eventId) &&
                   error == if reg[i].version != e.version then SchemaMismatch(reg[i].version, e.version)
                            else ByteCountMismatch(reg[i].payloadSize, |e.payload|)
  {
    var p := Position(reg, e.eventId);
    if p.Some? {
      assert IsSchemaOf(reg, p.value, e.eventId);
    }
  }

  // ----- Encoding

  function TypeCode(t: FieldType): (r: (nat, nat)) {
    match t
    case FU8 => (1, 1)
    case FU16 => (2, 2)
    case FU32 => (3, 4)
    case FU64 => (4, 8)
    case FI32 => (5, 4)
    case FI64 => (6, 8)
    case ByteArray(n) => (7, n)
  }

  function TypeFrom(code: nat, extra: nat): FieldType {
    match code
    case 1 => FU8
    case 2 => FU16
    case 3 => FU32
    case 4 => FU64
    case 5 => FI32
    case 6 => FI64
    case _ => ByteArray(extra)
  }

  lemma TypeRoundTrip(t: FieldType)
    ensures TypeFrom(TypeCode(t).0, TypeCode(t).1) == t
  {}

  function EncodeField(f: Field): seq<u8> {
    EncodeString(f.name) + U32Bytes(f.offset) + U32Bytes(f.size) + U32Bytes(TypeCode(f.fieldType).0) +
      U32Bytes(TypeCode(f.fieldType).1)
  }

  function EncodeFields(fs: seq<Field>): seq<u8> {
    if fs == [] then [] else EncodeFields(fs[..|fs| - 1]) + EncodeField(fs[|fs| - 1])
  }

  function EncodeSchema(s: Schema): seq<u8> {
    U32Bytes(s.eventId) + U32Bytes(s.version) + U32Bytes(s.payloadSize) + EncodeString(s.category) +
      EncodeString(s.name)
    + U32Bytes(|s.fields|) + EncodeFields(s.fields)
  }

  function EncodeSchemas(reg: Registry): seq<u8> {
    if reg == [] then [] else EncodeSchemas(reg[..|reg| - 1]) + EncodeSchema(reg[|reg| - 1])
  }

  function EncodeRegistry(reg: Registry): seq<u8> {
    U32Bytes(|reg|) + EncodeSchemas(reg)
  }

  // ----- Decoding

  function DecodeField(utf8: Utf8, slice: seq<u8>, off: nat): (r: Result<Parsed<Field>>)
    ensures r.Ok? ==> off <= r.value.next <= |slice|
  {
    var name :- DecodeString(utf8, slice, off);
    var offset :- Take32(slice, name.next);
    var size :- Take32(slice, offset.next);
    var code :- Take32(slice, size.next);
    var extra :- Take32(slice, code.next);
    Ok(Parsed(Field(name.value, offset.value, size.value, TypeFrom(code.value, extra.value)), extra.next))
  }

  function DecodeFields(utf8: Utf8, slice: seq<u8>, off: nat, n: nat): (r: Result<Parsed<seq<Field>>>)
    ensures r.Ok? ==> off <= r.value.next && |r.value.value| == n
    decreases n
  {
    if n == 0 then Ok(Parsed([], off))
    else
      var before :- DecodeFields(utf8, slice, off, n - 1);
      var last :- DecodeField(utf8, slice, before.next);
      Ok(Parsed(before.value + [last.value], last.next))
  }

  function DecodeSchema(utf8: Utf8, slice: seq<u8>, off: nat): (r: Result<Parsed<Schema>>)
    ensures r.Ok? ==> off <= r.value.next
  {
    var id :- Take32(slice, off);
    var version :- Take32(slice, id.next);
    var size :- Take32(slice, version.next);
    var category :- DecodeString(utf8, slice, size.next);
    var name :- DecodeString(utf8, slice, category.next);
    var count :- Take32(slice, name.next);
    var fields :- DecodeFields(utf8, slice, count.next, count.value);
    Ok(Parsed(Schema(id.value, category.value, name.value, version.value, size.value, fields.value), fields.next))
  }

  function DecodeSchemas(utf8: Utf8, slice: seq<u8>, off: nat, n: nat): (r: Result<Parsed<Registry>>)
    ensures r.Ok? ==> off <= r.value.next
    decreases n
  {
    if n == 0 then Ok(Parsed([], off))
    else
      var before :- DecodeSchemas(utf8, slice, off, n - 1);
      var last :- DecodeSchema(utf8, slice, before.next);
      Ok(Parsed(Register(before.value, last.value), last.next))
  }

  function DecodeRegistry(utf8: Utf8, slice: seq<u8>): (r: Result<Parsed<Registry>>) {
    var count :- Take32(slice, 0);
    DecodeSchemas(utf8, slice, count.next, count.value)
  }

  // ----- Round trip

  predicate FieldOk(utf8: Utf8, f: Field) {
    TextOk(utf8, f.name) && f.offset < U32 && f.size < U32 && (f.fieldType.ByteArray? ==> f.fieldType.length < U32)
  }

  predicate SchemaOk(utf8: Utf8, s: Schema) {
    && s.eventId < U32 && s.version < U32 && s.payloadSize < U32 && TextOk(utf8, s.category) && TextOk(utf8, s.name)
    && |s.fields| < U32 && forall i :: 0 <= i < |s.fields| ==> FieldOk(utf8, s.fields[i])
  }

  ghost predicate RegistryOk(utf8: Utf8, reg: Registry) {
    DistinctIds(reg) && |reg| < U32 && forall i :: 0 <= i < |reg| ==> SchemaOk(utf8, reg[i])
  }

  lemma FieldRoundTrip(utf8: Utf8, slice: seq<u8>, off: nat, f: Field)
    requires At(slice, off, EncodeField(f)) && FieldOk(utf8, f)
    ensures DecodeField(utf8, slice, off) == Ok(Parsed(f, off + |EncodeField(f)|))
  {
    hide At, U32Bytes, Take32, EncodeString, DecodeString;
    var c := TypeCode(f.fieldType);
    var a, o, s, t, x := EncodeString(f.name), U32Bytes(f.offset), U32Bytes(f.size), U32Bytes(c.0), U32Bytes(c.1);
    AtConcat(slice, off, a + o + s + t, x);
    AtConcat(slice, off, a + o + s, t);
    AtConcat(slice, off, a + o, s);
    AtConcat(slice, off, a, o);
    StringRoundTrip(utf8, slice, off, f.name);
    Take32At(slice, off + |a|, f.offset);
    Take32At(slice, off + |a| + 4, f.size);
    Take32At(slice, off + |a| + 8, c.0);
    Take32At(slice, off + |a| + 12, c.1);
    TypeRoundTrip(f.fieldType);
  }

  lemma {:induction false} FieldsRoundTrip(utf8: Utf8, slice: seq<u8>, off: nat, fs: seq<Field>)
    requires At(slice, off, EncodeFields(fs)) && forall i :: 0 <= i < |fs| ==> FieldOk(utf8, fs[i])
    ensures DecodeFields(utf8, slice, off, |fs|) == Ok(Parsed(fs, off + |EncodeFields(fs)|))
  {
    hide At, EncodeField, DecodeField, FieldOk;
    if fs != [] {
      var rest, last := fs[..|fs| - 1], fs[|fs| - 1];
      AtConcat(slice, off, EncodeFields(rest), EncodeField(last));
      FieldsRoundTrip(utf8, slice, off, rest);
      FieldRoundTrip(utf8, slice, off + |EncodeFields(rest)|, last);
      assert rest + [last] == fs;
    }
  }

  lemma SchemaRoundTrip(utf8: Utf8, slice: seq<u8>, off: nat, s: Schema)
    requires At(slice, off, EncodeSchema(s)) && SchemaOk(utf8, s)
    ensures DecodeSchema(utf8, slice, off) == Ok(Parsed(s, off + |EncodeSchema(s)|))
  {
    hide At, U32Bytes, Take32, EncodeString, DecodeString, EncodeFields, DecodeFields, FieldOk;
    var a, b, c := U32Bytes(s.eventId), U32Bytes(s.version), U32Bytes(s.payloadSize);
    var d, e, f, g := EncodeString(s.category), EncodeString(s.name), U32Bytes(|s.fields|), EncodeFields(s.fields);
    AtConcat(slice, off, a + b + c + d + e + f, g);
    AtConcat(slice, off, a + b + c + d + e, f);
    AtConcat(slice, off, a + b + c + d, e);
    AtConcat(slice, off, a + b + c, d);
    AtConcat(slice, off, a + b, c);
    AtConcat(slice, off, a, b);
    Take32At(slice, off, s.eventId);
    Take32At(slice, off + 4, s.version);
    Take32At(slice, off + 8, s.payloadSize);
    StringRoundTrip(utf8, slice, off + 12, s.category);
    StringRoundTrip(utf8, slice, off + 12 + |d|, s.name);
    Take32At(slice, off + 12 + |d| + |e|, |s.fields|);
    FieldsRoundTrip(utf8, slice, off + 16 + |d| + |e|, s.fields);
  }

  lemma {:induction false} SchemasRoundTrip(utf8: Utf8, slice: seq<u8>, off: nat, reg: Registry)
    requires At(slice, off, EncodeSchemas(reg)) && DistinctIds(reg)
    requires forall i :: 0 <= i < |reg| ==> SchemaOk(utf8, reg[i])
    ensures DecodeSchemas(utf8, slice, off, |reg|) == Ok(Parsed(reg, off + |EncodeSchemas(reg)|))
  {
    hide At, EncodeSchema, DecodeSchema, SchemaOk, Position;
    if reg != [] {
      var rest, last := reg[..|reg| - 1], reg[|reg| - 1];
      AtConcat(slice, off, EncodeSchemas(rest), EncodeSchema(last));
      SchemasRoundTrip(utf8, slice, off, rest);
      SchemaRoundTrip(utf8, slice, off + |EncodeSchemas(rest)|, last);
      assert Position(rest, last.eventId).None?;
      assert rest + [last] == reg;
    }
  }

  /** A registry with distinct ids survives encoding, whatever follows it. */
  lemma RegistryRoundTrip(utf8: Utf8, reg: Registry, rest: seq<u8>)
    requires RegistryOk(utf8, reg)
    ensures DecodeRegistry(utf8, EncodeRegistry(reg) + rest) == Ok(Parsed(reg, |EncodeRegistry(reg)|))
  {
    hide At, U32Bytes, Take32, SchemaOk, EncodeSchemas, DecodeSchemas;
    var slice := EncodeRegistry(reg) + rest;
    AtWhole(EncodeRegistry(reg), rest);
    AtConcat(slice, 0, U32Bytes(|reg|), EncodeSchemas(reg));
    Take32At(slice, 0, |reg|);
    SchemasRoundTrip(utf8, slice, 4, reg);
  }

  // ----- The loops

  method WriteSchema(s: Schema) returns (buf: seq<u8>)
    ensures buf == EncodeSchema(s)
  {
    hide U32Bytes, EncodeString;
    buf := U32Bytes(s.eventId) + U32Bytes(s.version) + U32Bytes(s.payloadSize);
    buf := buf + EncodeString(s.category) + EncodeString(s.name) + U32Bytes(|s.fields|);
    ghost var head := buf;
    for k := 0 to |s.fields|
      invariant buf == head + EncodeFields(s.fields[..k])
    {
      var f := s.fields[k];
      assert s.fields[..k + 1][..k] == s.fields[..k];
      ghost var before := buf;
      buf := buf + EncodeString(f.name) + U32Bytes(f.offset) + U32Bytes(f.size);
      buf := buf + U32Bytes(TypeCode(f.fieldType).0) + U32Bytes(TypeCode(f.fieldType).1);
      assert buf == before + EncodeField(f);
    }
    assert s.fields[..|s.fields|] == s.fields;
  }

  method WriteRegistry(reg: Registry) returns (buf: seq<u8>)
    ensures buf == EncodeRegistry(reg)
  {
    hide U32Bytes, EncodeSchema;
    buf := U32Bytes(|reg|);
    for i := 0 to |reg|
      invariant buf == U32Bytes(|reg|) + EncodeSchemas(reg[..i])
    {
      var bytes := WriteSchema(reg[i]);
      assert reg[..i + 1][..i] == reg[..i];
      buf := buf + bytes;
    }
    assert reg[..|reg|] == reg;
  }

  lemma {:induction false} FieldsFail(utf8: Utf8, slice: seq<u8>, off: nat, k: nat, n: nat)
    requires k <= n && DecodeFields(utf8, slice, off, k).Err?
    ensures DecodeFields(utf8, slice, off, n) == Err(DecodeFields(utf8, slice, off, k).error)
  {
    hide DecodeField;
    if k < n { FieldsFail(utf8, slice, off, k, n - 1); }
  }

  lemma {:induction false} SchemasFail(utf8: Utf8, slice: seq<u8>, off: nat, k: nat, n: nat)
    requires k <= n && DecodeSchemas(utf8, slice, off, k).Err?
    ensures DecodeSchemas(utf8, slice, off, n) == Err(DecodeSchemas(utf8, slice, off, k).error)
  {
    hide DecodeSchema;
    if k < n { SchemasFail(utf8, slice, off, k, n - 1); }
  }

  method ReadFields(utf8: Utf8, slice: seq<u8>, off: nat, n: nat) returns (r: Result<Parsed<seq<Field>>>)
    ensures r == DecodeFields(utf8, slice, off, n)
  {
    hide DecodeField;
    var fields: seq<Field>, offset := [], off;
    for k := 0 to n
      invariant DecodeFields(utf8, slice, off, k) == Ok(Parsed(fields, offset))
    {
      var f := DecodeField(utf8, slice, offset);
      if f.Err? {
        FieldsFail(utf8, slice, off, k + 1, n);
        return Err(f.error);
      }
      fields, offset := fields + [f.value.value], f.value.next;
    }
    return Ok(Parsed(fields, offset));
  }

  method ReadRegistry(utf8: Utf8, slice: seq<u8>) returns (r: Result<Parsed<Registry>>)
    ensures r == DecodeRegistry(utf8, slice)
  {
    hide DecodeFields, DecodeString, Take32, Register;
    var count := Take32(slice, 0);
    if count.Err? {
      return Err(count.error);
    }
    var reg: Registry, offset := [], count.value.next;
    var n := count.value.value;
    for k := 0 to n
      invariant DecodeSchemas(utf8, slice, count.value.next, k) == Ok(Parsed(reg, offset))
    {
      var s := ReadSchema(utf8, slice, offset);
      if s.Err? {
        SchemasFail(utf8, slice, count.value.next, k + 1, n);
        return Err(s.error);
      }
      reg, offset := Register(reg, s.value.value), s.value.next;
    }
    return Ok(Parsed(reg, offset));
  }

  method ReadSchema(utf8: Utf8, slice: seq<u8>, off: nat) returns (r: Result<Parsed<Schema>>)
    ensures r == DecodeSchema(utf8, slice, off)
  {
    hide DecodeFields, DecodeString, Take32;
    var id :- Take32(slice, off);
    var version :- Take32(slice, id.next);
    var size :- Take32(slice, version.next);
    var category :- DecodeString(utf8, slice, size.next);
    var name :- DecodeString(utf8, slice, category.next);
    var count :- Take32(slice, name.next);
    var fields := ReadFields(utf8, slice, count.next, count.value);
    if fields.Err? {
      return Err(fields.error);
    }
    return Ok(Parsed(Schema(id.value, category.value, name.value, version.value, size.value, fields.value.value),
           fields.value.next));
  }
}
