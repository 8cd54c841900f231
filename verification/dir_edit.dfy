/** In-place edits of one directory block: writing an entry, inserting, removing, packing, reading back. */
module DirEdit {
  import opened Options
  import opened Bytes
  import opened DirRecords
  import opened DirBytes

  // ----- Writing into a buffer

  method Load(b: seq<u8>) returns (a: array<u8>)
    ensures fresh(a) && a[..] == b
  {
    a := new u8[|b|];
    for i := 0 to |b|
      invariant a[..i] == b[..i]
    {
      a[i] := b[i];
    }
  }

  /** Overwrites part of a buffer. */
  method Write(a: array<u8>, at: nat, bytes: seq<u8>)
    requires at + |bytes| <= a.Length
    modifies a
    ensures a[..] == Patch(old(a[..]), at, bytes)
  {
    for i := 0 to |bytes|
      invariant a[..at] == old(a[..at]) && a[at..at + i] == bytes[..i]
      invariant a[at + i..] == old(a[at + i..])
    {
      a[at + i] := bytes[i];
      assert bytes[..i + 1] == bytes[..i] + [bytes[i]];
      assert a[at..at + i + 1] == a[at..at + i] + [bytes[i]];
    }
    assert a[..] == a[..at] + a[at..at + |bytes|] + a[at + |bytes|..];
  }

  datatype WriteResult = Written | TooShort | OutOfBlock | TooLong

  /** Writes a live record of `recLen` bytes, padding included. A record too short for the name or past the end of
      the block is refused with the buffer untouched; a length that does not fit its field is noticed with the inode
      already written. */
  method WriteDirEntryBytes(a: array<u8>, off: nat, recLen: nat, e: Entry) returns (r: WriteResult)
    requires ValidEntry(e)
    modifies a
    ensures r.Written? <==> MinSize(|e.name|) <= recLen < U16 && off + recLen <= a.Length
    ensures r.TooShort? <==> recLen < MinSize(|e.name|)
    ensures r.OutOfBlock? <==> MinSize(|e.name|) <= recLen && off + recLen > a.Length
    ensures r.TooLong? <==> recLen >= U16 && off + recLen <= a.Length
    ensures r.Written? ==> a[..] == Patch(old(a[..]), off, EntryBytes(recLen, e))
    ensures r.TooLong? ==> a[..] == Patch(old(a[..]), off, ToLe(e.inode, 4))
    ensures r.TooShort? || r.OutOfBlock? ==> a[..] == old(a[..])
  {
    hide ToLe, Patch, EntryBytes, Zeros, MinSize;
    if recLen < MinSize(|e.name|) {
      return TooShort;
    }
    if off + recLen > a.Length {
      return OutOfBlock;
    }
    var n := |e.name|;
    Write(a, off, ToLe(e.inode, 4));
    if recLen >= U16 {
      return TooLong;
    }
    Write(a, off + 4, ToLe(recLen, 2));
    Write(a, off + 6, [n as u8]);
    Write(a, off + 7, [e.fileType as u8]);
    Write(a, off + 8, e.name);
    Write(a, off + 8 + n, Zeros(recLen - 8 - n));
    FieldsAreEntry(old(a[..]), off, recLen, e);
    return Written;
  }

  lemma PatchTwice(b: seq<u8>, at: nat, x: seq<u8>, y: seq<u8>)
    requires at + |x| + |y| <= |b|
    ensures Patch(Patch(b, at, x), at + |x|, y) == Patch(b, at, x + y)
  {
    PatchFacts(b, at, x);
    var p := Patch(b, at, x);
    assert p[..at + |x|] == b[..at] + x;
    assert p[at + |x| + |y|..] == p[at + |x|..][|y|..] == b[at + |x|..][|y|..] == b[at + |x| + |y|..];
  }

  lemma FieldsAreEntry(b: seq<u8>, off: nat, recLen: nat, e: Entry)
    requires ValidEntry(e) && MinSize(|e.name|) <= recLen < U16 && off + recLen <= |b|
    ensures var n := |e.name|;
            Patch(Patch(Patch(Patch(Patch(Patch(b, off, ToLe(e.inode, 4)), off + 4, ToLe(recLen, 2)), off + 6,
              [n as u8]),
                              off + 7, [e.fileType as u8]), off + 8, e.name), off + 8 + n, Zeros(recLen - 8 - n))
            == Patch(b, off, EntryBytes(recLen, e))
  {
    hide Patch, ToLe, Zeros;
    var n := |e.name|;
    var s1, s2, s3 := ToLe(e.inode, 4), ToLe(recLen, 2), [n as u8];
    var s4, s5, s6 := [e.fileType as u8], e.name, Zeros(recLen - 8 - n);
    PatchTwice(b, off, s1, s2);
    PatchTwice(b, off, s1 + s2, s3);
    PatchTwice(b, off, s1 + s2 + s3, s4);
    PatchTwice(b, off, s1 + s2 + s3 + s4, s5);
    PatchTwice(b, off, s1 + s2 + s3 + s4 + s5, s6);
  }

  // ----- Blocks

  /** The usable part of a block is tiled by well-formed records. */
  ghost predicate BodyOk(b: seq<u8>) {
    Parse(b).Some? && Tiles(Parse(b).value, |b|)
  }

  ghost function LiveBody(b: seq<u8>): seq<Entry> {
    if Parse(b).Some? then Live(Parse(b).value) else []
  }

  /** Record `i` of the block starts at `off`. */
  ghost predicate At(b: seq<u8>, i: nat, off: nat) {
    Parse(b).Some? && i < |Parse(b).value| && off == Offset(Parse(b).value, i)
  }

  lemma ThreeParts(b: seq<u8>, off: nat, n: nat)
    requires off + n <= |b|
    ensures b == b[..off] + b[off..off + n] + b[off + n..]
  {}

  /** The bytes after an insertion into record `i`: the record shortened, then the new entry. */
  ghost function AfterInsert(b: seq<u8>, off: nat, r: Record, e: Entry): seq<u8>
    requires ValidEntry(e) && RecordOk(r) && HasRoom(r, MinSize(|e.name|)) && off + r.recLen <= |b|
  {
    Patch(Patch(b, off + 4, ToLe(if r.entry.Some? then Used(r) else r.recLen, 2)), off + Used(r),
      EntryBytes(r.recLen - Used(r), e))
  }

  lemma InsertInBlock(b: seq<u8>, i: nat, off: nat, e: Entry)
    requires BodyOk(b) && At(b, i, off) && ValidEntry(e) && HasRoom(Parse(b).value[i], MinSize(|e.name|))
    ensures var r := Parse(b).value[i];
            && RecordOk(r) && off + r.recLen <= |b|
            && var after := AfterInsert(b, off, r, e);
               |after| == |b| && BodyOk(after) && OneInserted(LiveBody(b), LiveBody(after), e)
  {
    var recs := Parse(b).value;
    var r := recs[i];
    assert RecordOk(r);
    hide EntryBytes, ToLe, Parse, ReadRecord, Tiles, Middle, RecordOk, HasRoom, Used, MinSize, Live, OneInserted,
         TotalLen;
    RecordBytes(b, i);
    var pre, x, post := b[..off], b[off..off + r.recLen], b[off + r.recLen..];
    ThreeParts(b, off, r.recLen);
    PatchRecord(b, off, x, r, e);
    InsertBytesMeaning(x, r, e);
    Replace(pre, InsertBytes(x, r, e), post);
    InsertAtMeaning(recs, i, e, |b|);
  }

  lemma PatchRecord(b: seq<u8>, off: nat, x: seq<u8>, r: Record, e: Entry)
    requires off + r.recLen <= |b| && x == b[off..off + r.recLen] && ReadRecord(x) == Some(r)
    requires RecordOk(r) && ValidEntry(e) && HasRoom(r, MinSize(|e.name|))
    ensures AfterInsert(b, off, r, e) == b[..off] + InsertBytes(x, r, e) + b[off + r.recLen..]
  {
    hide EntryBytes, ToLe, ReadRecord, Patch;
    var pre, post := b[..off], b[off + r.recLen..];
    var len := ToLe(if r.entry.Some? then Used(r) else r.recLen, 2);
    ThreeParts(b, off, r.recLen);
    PatchMiddle(pre, x, post, 4, len);
    PatchMiddle(pre, Patch(x, 4, len), post, Used(r), EntryBytes(r.recLen - Used(r), e));
  }

  /** The bytes after a removal, given where the previous record starts. */
  ghost function AfterRemove(b: seq<u8>, off: nat, prev: Option<nat>, total: nat): seq<u8>
    requires off + 4 <= |b| && (prev.Some? ==> prev.value + 6 <= |b|)
  {
    if prev.Some? then Patch(Patch(b, prev.value + 4, ToLe(total, 2)), off, Zeros(4)) else Patch(b, off, Zeros(4))
  }

  lemma RecordLong(b: seq<u8>, i: nat)
    requires BodyOk(b) && i < |Parse(b).value|
    ensures Parse(b).value[i].recLen >= 8
  {
    hide Parse;
    assert RecordOk(Parse(b).value[i]);
  }

  /** A removal at the level of bytes is a removal at the level of records. */
  lemma RemoveParses(b: seq<u8>, i: nat, off: nat, prev: Option<nat>, total: nat)
    requires BodyOk(b) && At(b, i, off)
    requires if i == 0 then prev.None? else prev.Some? && At(b, i - 1, prev.value)
    requires i > 0 ==> total == Parse(b).value[i - 1].recLen + Parse(b).value[i].recLen < U16
    ensures off + 8 <= |b| && (prev.Some? ==> prev.value + 8 <= off)
    ensures var after := AfterRemove(b, off, prev, total);
            |after| == |b| && Parse(after) == Some(RemoveAt(Parse(b).value, i))
  {
    hide Parse, ReadRecord, RecordOk, Live, TotalLen, RemoveAt, Patch, ToLe, Zeros, Tiles, Offset, BodyOk;
    var recs := Parse(b).value;
    RecordBytes(b, i);
    RecordLong(b, i);
    if i == 0 {
      RemoveFirst(b, off, total);
    } else {
      RecordBytes(b, i - 1);
      RecordLong(b, i - 1);
      OffsetStep(recs, i - 1);
      RemoveLater(b, i, off, prev.value, total);
    }
  }

  lemma RemoveInBlock(b: seq<u8>, i: nat, off: nat, prev: Option<nat>, total: nat)
    requires BodyOk(b) && At(b, i, off) && Parse(b).value[i].entry.Some?
    requires if i == 0 then prev.None? else prev.Some? && At(b, i - 1, prev.value)
    requires i > 0 ==> total == Parse(b).value[i - 1].recLen + Parse(b).value[i].recLen < U16
    ensures off + 8 <= |b| && (prev.Some? ==> prev.value + 8 <= off)
    ensures var after := AfterRemove(b, off, prev, total);
            && |after| == |b| && BodyOk(after)
            && OneInserted(LiveBody(after), LiveBody(b), Parse(b).value[i].entry.value)
  {
    hide Parse, ReadRecord, Live, OneInserted, RemoveAt, AfterRemove, Tiles, Offset;
    var recs := Parse(b).value;
    RemoveParses(b, i, off, prev, total);
    RemoveAtMeaning(recs, i, |b|);
    InsertedBetween(Live(recs[..i]), Live(recs[i + 1..]), recs[i].entry.value);
  }

  lemma RemoveFirst(b: seq<u8>, off: nat, total: nat)
    requires BodyOk(b) && At(b, 0, off) && off + 8 <= |b|
    ensures Parse(AfterRemove(b, off, None, total)) == Some(RemoveAt(Parse(b).value, 0))
  {
    hide Parse, ReadRecord, Tiles, Patch, Zeros, TotalLen;
    var recs := Parse(b).value;
    var r := recs[0];
    RecordBytes(b, 0);
    var x, post := b[off..off + r.recLen], b[off + r.recLen..];
    UnusedBytes(x, r);
    ThreeParts(b, off, r.recLen);
    PatchMiddle(b[..off], x, post, 0, Zeros(4));
    Replace(b[..off], Patch(x, 0, Zeros(4)), post);
    assert recs[..0] + [Record(r.recLen, None)] + recs[1..] == RemoveAt(recs, 0);
  }

  lemma RemoveLater(b: seq<u8>, i: nat, off: nat, prev: nat, total: nat)
    requires BodyOk(b) && 0 < i && At(b, i, off) && At(b, i - 1, prev) && prev + 8 <= off && off + 8 <= |b|
    requires total == Parse(b).value[i - 1].recLen + Parse(b).value[i].recLen < U16
    ensures Parse(AfterRemove(b, off, Some(prev), total)) == Some(RemoveAt(Parse(b).value, i))
  {
    hide Parse, ReadRecord, Tiles, Patch, Zeros, ToLe, TotalLen, RecordOk, Live, RecLenOf, BodyOk, Offset;
    var recs := Parse(b).value;
    var p, r := recs[i - 1], recs[i];
    RecordBytes(b, i);
    RecordBytes(b, i - 1);
    RecordLong(b, i);
    RecordLong(b, i - 1);
    OffsetStep(recs, i - 1);
    var x, post := b[prev..prev + total], b[prev + total..];
    assert x[..p.recLen] == b[prev..prev + p.recLen];
    MergeBytesMeaning(x, p, r);
    ThreeParts(b, prev, total);
    PatchMiddle(b[..prev], x, post, 4, ToLe(total, 2));
    PatchMiddle(b[..prev], Patch(x, 4, ToLe(total, 2)), post, p.recLen, Zeros(4));
    Replace(b[..prev], MergeBytes(x, p, r), post);
  }

  // ----- Packing and reading back

  /** The 12-byte record that holds the block's checksum. */
  const TAIL: seq<u8> := [0, 0, 0, 0, 12, 0, 0, 0xDE, 0, 0, 0, 0]

  lemma TailIsUnused()
    ensures ReadRecord(TAIL) == Some(Record(12, None)) && Parse(TAIL) == Some([Record(12, None)])
  {
    Powers();
    ZeroInode();
    assert TAIL[..4] == [0, 0, 0, 0] && TAIL[4..6] == [12, 0];
    LeRoundTrip(12, 2);
    assert ToLe(12, 2) == [12, 0];
    ParseOne(TAIL);
  }

  ghost predicate TailOk(t: seq<u8>) {
    Parse(t).Some? && Live(Parse(t).value) == []
  }

  lemma TailHoldsNothing()
    ensures TailOk(TAIL) && TailOk([])
  {
    TailIsUnused();
    One(Record(12, None));
  }

  /** The state of packing after `k` entries: `done` is written, the rest is what packing the rest would give. */
  ghost predicate PackLoop(entries: seq<Entry>, usable: nat, b: seq<u8>, k: nat, off: nat, done: seq<Record>)
    requires usable < U16
  {
    && k <= |entries| && off <= usable <= |b| && Parse(b[..off]) == Some(done)
    && (k < |entries| ==>
          && (Pack(entries, usable).Some? <==> Pack(entries[k..], usable - off).Some?)
          && (Pack(entries, usable).Some? ==>
                Pack(entries, usable).value == done + Pack(entries[k..], usable - off).value))
    && (k == |entries| ==> off == usable && Pack(entries, usable) == Some(done))
  }

  lemma PackStep(entries: seq<Entry>, usable: nat, b: seq<u8>, k: nat, off: nat, done: seq<Record>, recLen: nat)
    requires usable < U16 && PackLoop(entries, usable, b, k, off, done) && k < |entries| && ValidEntry(entries[k])
    requires recLen == if k + 1 == |entries| then usable - off else MinSize(|entries[k].name|)
    requires MinSize(|entries[k].name|) <= recLen && off + recLen <= usable
    ensures PackLoop(entries, usable, Patch(b, off, EntryBytes(recLen, entries[k])), k + 1, off + recLen,
                     done + [Record(recLen, Some(entries[k]))])
  {
    hide EntryBytes, ReadRecord, MinSize, Pack, Parse, Live, ValidEntry;
    var r := Record(recLen, Some(entries[k]));
    RecordWritten(b, off, done, recLen, entries[k]);
    assert entries[k..][1..] == entries[k + 1..] && entries[k..][0] == entries[k];
    PackOne(entries[k..], usable - off);
    if Pack(entries, usable).Some? && k + 1 < |entries| {
      var rest := Pack(entries[k + 1..], usable - off - recLen).value;
      assert done + ([r] + rest) == done + [r] + rest;
    }
  }

  lemma RecordWritten(b: seq<u8>, off: nat, done: seq<Record>, recLen: nat, e: Entry)
    requires off + recLen <= |b| && Parse(b[..off]) == Some(done) && ValidEntry(e) && MinSize(|e.name|) <= recLen < U16
    ensures Parse(Patch(b, off, EntryBytes(recLen, e))[..off + recLen]) == Some(done + [Record(recLen, Some(e))])
  {
    hide EntryBytes, ReadRecord, MinSize, Parse;
    var bytes := EntryBytes(recLen, e);
    EntryReads(recLen, e);
    ParseOne(bytes);
    ParseConcat(b[..off], bytes);
    assert Patch(b, off, bytes)[..off + recLen] == b[..off] + bytes;
  }

  lemma PackOne(entries: seq<Entry>, usable: nat)
    requires usable < U16 && entries != []
    ensures var size := MinSize(|entries[0].name|);
            && (|entries| == 1 ==> Pack(entries, usable) == if usable < size then None
               else Some([Record(usable, Some(entries[0]))]))
            && (|entries| > 1 && size <= usable ==>
                  && (Pack(entries, usable).Some? <==> Pack(entries[1..], usable - size).Some?)
                  && (Pack(entries, usable).Some? ==>
                        Pack(entries, usable).value == [Record(size, Some(entries[0]))] +
                          Pack(entries[1..], usable - size).value))
            && (usable < size ==> Pack(entries, usable) == None)
  {}

  /** Packs entries into a fresh block, the last record stretched to the end of the usable part. */
  method PackLeafBlock(entries: seq<Entry>, blockSize: nat, tail: bool) returns (r: Option<seq<u8>>)
    requires 12 <= blockSize && blockSize - (if tail then 12 else 0) < U16
    requires forall e :: e in entries ==> ValidEntry(e)
    ensures var usable := blockSize - if tail then 12 else 0;
            && (r.Some? <==> Pack(entries, usable).Some?)
            && (r.Some? ==> |r.value| == blockSize && Parse(r.value[..usable]) == Some(Pack(entries, usable).value))
    ensures r.Some? ==> Parse(r.value).Some? && Live(Parse(r.value).value) == entries
    ensures r.Some? ==> TailOk(r.value[blockSize - (if tail then 12 else 0)..])
  {
    hide PackLoop, EntryBytes, Parse, ReadRecord, Live, Pack;
    var usable := blockSize - if tail then 12 else 0;
    if entries == [] {
      return None;
    }
    var a := Load(Zeros(blockSize));
    var off: nat := 0;
    ghost var done: seq<Record> := [];
    PackStart(entries, usable, a[..]);
    for k := 0 to |entries|
      invariant fresh(a) && a.Length == blockSize && off <= usable && PackLoop(entries, usable, a[..], k, off, done)
    {
      var size := MinSize(|entries[k].name|);
      var recLen := if k + 1 == |entries| then usable - off else size;
      assert entries[k] in entries;
      if off + recLen > usable || recLen < size {
        PackFails(entries, usable, a[..], k, off, done);
        return None;
      }
      PackStep(entries, usable, a[..], k, off, done, recLen);
      var w := WriteDirEntryBytes(a, off, recLen, entries[k]);
      done := done + [Record(recLen, Some(entries[k]))];
      off := off + recLen;
    }
    PackEnds(entries, usable, a[..], off, done);
    ghost var body := a[..usable];
    if tail {
      Write(a, usable, TAIL);
    }
    assert a[..usable] == body;
    PackedWhole(a[..], usable, entries);
    TailHoldsNothing();
    assert a[..][usable..] == if tail then TAIL else [];
    return Some(a[..]);
  }

  lemma PackStart(entries: seq<Entry>, usable: nat, b: seq<u8>)
    requires usable < U16 && entries != [] && usable <= |b|
    ensures PackLoop(entries, usable, b, 0, 0, [])
  {
    hide Pack, Live;
    assert entries[0..] == entries && b[..0] == [];
  }

  lemma PackFails(entries: seq<Entry>, usable: nat, b: seq<u8>, k: nat, off: nat, done: seq<Record>)
    requires usable < U16 && PackLoop(entries, usable, b, k, off, done) && k < |entries|
    requires usable - off < MinSize(|entries[k].name|)
    ensures Pack(entries, usable) == None
  {
    PackOne(entries[k..], usable - off);
  }

  lemma PackEnds(entries: seq<Entry>, usable: nat, b: seq<u8>, off: nat, done: seq<Record>)
    requires usable < U16 && PackLoop(entries, usable, b, |entries|, off, done)
    ensures usable <= |b| && Pack(entries, usable).Some? && Parse(b[..usable]) == Some(Pack(entries, usable).value)
  {
    hide Pack, Parse;
  }

  lemma PackedWhole(b: seq<u8>, usable: nat, entries: seq<Entry>)
    requires usable <= |b| && Parse(b[..usable]).Some? && Live(Parse(b[..usable]).value) == entries
    requires b[usable..] == [] || b[usable..] == TAIL
    ensures Parse(b).Some? && Live(Parse(b).value) == entries
  {
    hide ReadRecord;
    var body, t := b[..usable], b[usable..];
    assert b == body + t;
    TailIsUnused();
    assert Parse(t).Some?;
    ParseConcat(body, t);
    LiveConcat(Parse(body).value, Parse(t).value);
    One(Record(12, None));
    assert entries + [] == entries;
  }

  /** Reads all live entries of a block, in order. */
  method ReadLeafEntries(b: seq<u8>) returns (r: Option<seq<Entry>>)
    ensures r == if Parse(b).Some? then Some(Live(Parse(b).value)) else None
  {
    hide ReadRecord, Live;
    var entries: seq<Entry> := [];
    var off := 0;
    ghost var done: seq<Record> := [];
    assert b[..0] == [] && b[0..] == b;
    NoRecords();
    assert Parse(b).Some? ==> [] + Parse(b).value == Parse(b).value;
    while off < |b|
      invariant off <= |b| && Parse(b[..off]) == Some(done) && entries == Live(done)
      invariant Parse(b) == if Parse(b[off..]).Some? then Some(done + Parse(b[off..]).value) else None
    {
      var rec := ReadRecord(b[off..]);
      if rec.None? {
        return None;
      }
      ReadStep(b, off, done);
      One(rec.value);
      LiveConcat(done, [rec.value]);
      done := done + [rec.value];
      entries := entries + LiveOf(rec.value);
      off := off + rec.value.recLen;
    }
    assert b[off..] == [];
    assert done + [] == done;
    return Some(entries);
  }

  lemma NoRecords()
    ensures Parse([]) == Some([]) && Live([]) == []
  {}

  lemma ReadStep(b: seq<u8>, off: nat, done: seq<Record>)
    requires off < |b| && Parse(b[..off]) == Some(done) && ReadRecord(b[off..]).Some?
    ensures var r := ReadRecord(b[off..]).value;
            && off + r.recLen <= |b| && Parse(b[..off + r.recLen]) == Some(done + [r])
            && (Parse(b[off..]).Some? <==> Parse(b[off + r.recLen..]).Some?)
            && (Parse(b[off..]).Some? ==> done + Parse(b[off..]).value == done + [r] + Parse(b[off + r.recLen..]).value)
  {
    hide ReadRecord;
    var rest := b[off..];
    var r := ReadRecord(rest).value;
    ReadExact(rest);
    ParseOne(rest[..r.recLen]);
    ParseConcat(b[..off], rest[..r.recLen]);
    assert b[..off] + rest[..r.recLen] == b[..off + r.recLen] && rest[r.recLen..] == b[off + r.recLen..];
    if Parse(rest).Some? {
      assert done + ([r] + Parse(b[off + r.recLen..]).value) == done + [r] + Parse(b[off + r.recLen..]).value;
    }
  }
}
