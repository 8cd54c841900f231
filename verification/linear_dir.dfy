/** Directories without an index: a scan for duplicates and a slot, insertion, removal with truncation. */
module LinearDir {
  import opened Options
  import opened Bytes
  import opened DirRecords
  import opened DirBytes
  import opened DirEdit

  // ----- Scanning for a name

  datatype Scan = Clean | Duplicate | Malformed

  /** What the scan of one block comes to: the first duplicate or malformed record decides. */
  function ScanBody(b: seq<u8>, name: Name): Scan
    decreases |b|
  {
    if b == [] then Clean
    else
      var r := ReadRecord(b);
      if r.None? then Malformed
      else if Named(r.value, name) then Duplicate
      else if Used(r.value) > r.value.recLen then Malformed
      else ScanBody(b[r.value.recLen..], name)
  }

  function ScanBlocks(bodies: seq<seq<u8>>, name: Name): Scan {
    if bodies == [] then Clean
    else
      var first := ScanBody(bodies[0], name);
      if first.Clean? then ScanBlocks(bodies[1..], name) else first
  }

  lemma ReadIsOk(b: seq<u8>)
    requires ReadRecord(b).Some? && Used(ReadRecord(b).value) <= ReadRecord(b).value.recLen
    ensures RecordOk(ReadRecord(b).value)
  {
    Powers();
  }

  /** A scan is clean exactly when the records tile the block and none has the name. */
  lemma {:induction false} CleanMeans(b: seq<u8>, name: Name)
    ensures ScanBody(b, name).Clean? <==> BodyOk(b) && NoneNamed(Parse(b).value, name)
    decreases |b|
  {
    if b != [] && ReadRecord(b).Some? {
      var r := ReadRecord(b).value;
      var rest := b[r.recLen..];
      CleanMeans(rest, name);
      hide ReadRecord, RecordOk, Used, Live;
      if Used(r) <= r.recLen {
        ReadIsOk(b);
      }
      if Parse(rest).Some? {
        var recs := Parse(b).value;
        assert recs[0] == r && recs[1..] == Parse(rest).value;
        CleanStep(recs, |b|, name);
      }
    }
  }

  lemma CleanStep(recs: seq<Record>, n: nat, name: Name)
    requires recs != [] && recs[0].recLen <= n
    ensures Tiles(recs, n) && NoneNamed(recs, name) <==>
            RecordOk(recs[0]) && !Named(recs[0], name) && Tiles(recs[1..], n - recs[0].recLen) &&
              NoneNamed(recs[1..], name)
  {
    hide RecordOk, Named;
    if Tiles(recs[1..], n - recs[0].recLen) && RecordOk(recs[0]) {
      assert forall i :: 0 < i < |recs| ==> recs[i] == recs[1..][i - 1];
    }
    if NoneNamed(recs[1..], name) && !Named(recs[0], name) {
      assert forall i :: 0 < i < |recs| ==> recs[i] == recs[1..][i - 1];
    }
  }

  /** No record has so many bytes to spare. */
  ghost predicate Crowded(b: seq<u8>, need: nat) {
    Parse(b).Some? ==> forall r :: r in Parse(b).value ==> Spare(r) < need
  }

  /** What an insertion does to the blocks: it rewrites the first block with room, or appends one if there is none. */
  ghost predicate FirstFit(bodies: seq<seq<u8>>, before: seq<seq<u8>>, after: seq<seq<u8>>, need: nat) {
    |bodies| == |before| &&
    if forall k :: 0 <= k < |bodies| ==> Crowded(bodies[k], need)
    then |after| == |before| + 1 && after[..|before|] == before
    else exists k ::
           && 0 <= k < |bodies| && !Crowded(bodies[k], need) && |after| == |before| && after == before[k := after[k]]
           && forall j :: 0 <= j < k ==> Crowded(bodies[j], need)
  }

  /** Scans one block, remembering the first record with room for the new entry. */
  method ScanBlock(b: seq<u8>, name: Name, need: nat) returns (outcome: Scan, slot: Option<nat>, ghost at: nat)
    ensures outcome == ScanBody(b, name)
    ensures outcome.Clean? && slot.Some? ==> && At(b, at, slot.value) && HasRoom(Parse(b).value[at], need)
                                             && Spare(Parse(b).value[at]) >= need
                                             && forall j :: 0 <= j < at ==> Spare(Parse(b).value[j]) < need
    ensures outcome.Clean? && slot.None? ==> Parse(b).Some? && forall r :: r in Parse(b).value ==> Spare(r) < need
    ensures outcome.Clean? ==> (slot.None? <==> Crowded(b, need))
  {
    hide ReadRecord, HasRoom, Used, Spare;
    slot, at := None, 0;
    var off: nat := 0;
    ghost var done: seq<Record> := [];
    assert b[..0] == [] && b[0..] == b;
    NoRecords();
    while off < |b|
      invariant off <= |b| && Parse(b[..off]) == Some(done) && ScanBody(b, name) == ScanBody(b[off..], name)
      invariant off == TotalLen(done)
      invariant slot.Some? ==> at < |done| && slot.value == Offset(done, at) && HasRoom(done[at], need)
      invariant slot.Some? ==> Spare(done[at]) >= need && forall j :: 0 <= j < at ==> Spare(done[j]) < need
      invariant slot.None? ==> forall r :: r in done ==> Spare(r) < need
    {
      var read := ReadRecord(b[off..]);
      if read.None? {
        return Malformed, slot, at;
      }
      var r := read.value;
      if Named(r, name) {
        return Duplicate, slot, at;
      }
      if Used(r) > r.recLen {
        return Malformed, slot, at;
      }
      ReadStep(b, off, done);
      OffsetGrows(done, r, at);
      RoomIsSpare(r, need);
      if slot.None? && HasRoom(r, need) {
        slot, at := Some(off), |done|;
      }
      assert b[off..][r.recLen..] == b[off + r.recLen..];
      done := done + [r];
      off := off + r.recLen;
    }
    assert b[..off] == b && b[off..] == [];
    return Clean, slot, at;
  }

  lemma OffsetGrows(done: seq<Record>, r: Record, at: nat)
    ensures TotalLen(done + [r]) == TotalLen(done) + r.recLen && Offset(done + [r], |done|) == TotalLen(done)
    ensures at < |done| ==> Offset(done + [r], at) == Offset(done, at)
  {
    TotalLenConcat(done, [r]);
    One(r);
    assert (done + [r])[..|done|] == done;
    if at < |done| {
      assert (done + [r])[..at] == done[..at];
    }
  }

  // ----- Contents of a directory

  ghost function LiveAll(bodies: seq<seq<u8>>): seq<Entry> {
    if bodies == [] then [] else LiveBody(bodies[0]) + LiveAll(bodies[1..])
  }

  lemma {:induction false} LiveAllConcat(a: seq<seq<u8>>, b: seq<seq<u8>>)
    ensures LiveAll(a + b) == LiveAll(a) + LiveAll(b)
  {
    hide LiveBody;
    if a == [] {
      assert a + b == b;
    } else {
      assert (a + b)[1..] == a[1..] + b;
      LiveAllConcat(a[1..], b);
    }
  }

  lemma LiveAllOne(b: seq<u8>)
    ensures LiveAll([b]) == LiveBody(b)
  {
    hide LiveBody;
    assert [b][1..] == [];
  }

  lemma LiveAllAround(bodies: seq<seq<u8>>, k: nat, b: seq<u8>)
    requires k < |bodies|
    ensures LiveAll(bodies) == LiveAll(bodies[..k]) + LiveBody(bodies[k]) + LiveAll(bodies[k + 1..])
    ensures LiveAll(bodies[k := b]) == LiveAll(bodies[..k]) + LiveBody(b) + LiveAll(bodies[k + 1..])
  {
    hide LiveBody, LiveAll;
    Around3(bodies[..k], bodies[k], bodies[k + 1..]);
    Around3(bodies[..k], b, bodies[k + 1..]);
    assert bodies == bodies[..k] + [bodies[k]] + bodies[k + 1..];
    assert bodies[k := b] == bodies[..k] + [b] + bodies[k + 1..];
  }

  lemma Around3(a: seq<seq<u8>>, b: seq<u8>, c: seq<seq<u8>>)
    ensures LiveAll(a + [b] + c) == LiveAll(a) + LiveBody(b) + LiveAll(c)
  {
    hide LiveBody, LiveAll;
    LiveAllConcat(a + [b], c);
    LiveAllConcat(a, [b]);
    LiveAllOne(b);
  }

  lemma InsertedInside(p: seq<Entry>, before: seq<Entry>, after: seq<Entry>, q: seq<Entry>, e: Entry)
    requires OneInserted(before, after, e)
    ensures OneInserted(p + before + q, p + after + q, e)
  {
    var k :| 0 <= k <= |before| && after == before[..k] + [e] + before[k..];
    InsertedBetween(p + before[..k], before[k..] + q, e);
    assert p + before[..k] + (before[k..] + q) == p + before + q;
    assert p + before[..k] + [e] + (before[k..] + q) == p + after + q;
  }

  ghost predicate NamesOnce(s: seq<Entry>) {
    forall i, j :: 0 <= i < j < |s| ==> s[i].name != s[j].name
  }

  /** A name that was not there can be inserted without making a duplicate. */
  lemma InsertKeepsOnce(before: seq<Entry>, after: seq<Entry>, e: Entry)
    requires OneInserted(before, after, e) && NamesOnce(before) && !HasName(before, e.name)
    ensures NamesOnce(after)
  {
    var k :| 0 <= k <= |before| && after == before[..k] + [e] + before[k..];
    forall i, j | 0 <= i < j < |after|
      ensures after[i].name != after[j].name
    {
      assert after[i] == if i < k then before[i] else if i == k then e else before[i - 1];
      assert after[j] == if j < k then before[j] else if j == k then e else before[j - 1];
      assert i == k ==> before[j - 1] in before;
      assert j == k ==> before[i] in before;
    }
  }

  /** Taking one away leaves no duplicate, and no entry of that name. */
  lemma RemoveKeepsOnce(before: seq<Entry>, after: seq<Entry>, e: Entry)
    requires OneInserted(after, before, e) && NamesOnce(before)
    ensures NamesOnce(after) && !HasName(after, e.name)
  {
    var k :| 0 <= k <= |after| && before == after[..k] + [e] + after[k..];
    forall i | 0 <= i < |after|
      ensures after[i] == (if i < k then before[i] else before[i + 1]) && after[i].name != e.name
    {
      assert before[k] == e;
    }
    forall i, j | 0 <= i < j < |after|
      ensures after[i].name != after[j].name
    {
      var x, y := if i < k then i else i + 1, if j < k then j else j + 1;
      assert after[i] == before[x] && after[j] == before[y];
    }
  }

  lemma {:induction false} AllNamed(bodies: seq<seq<u8>>, name: Name)
    ensures HasName(LiveAll(bodies), name) <==> exists k :: 0 <= k < |bodies| && HasName(LiveBody(bodies[k]), name)
  {
    hide LiveBody;
    if bodies != [] {
      AllNamed(bodies[1..], name);
      var rest := bodies[1..];
      if HasName(LiveAll(bodies), name) {
        var e :| e in LiveAll(bodies) && e.name == name;
        if e in LiveBody(bodies[0]) {
          assert HasName(LiveBody(bodies[0]), name);
        } else {
          assert HasName(LiveAll(rest), name);
          var k :| 0 <= k < |rest| && HasName(LiveBody(rest[k]), name);
          assert HasName(LiveBody(bodies[k + 1]), name);
        }
      }
      if k :| 0 <= k < |bodies| && HasName(LiveBody(bodies[k]), name) {
        if k > 0 {
          assert rest[k - 1] == bodies[k];
          var e :| e in LiveAll(rest) && e.name == name;
          assert e in LiveAll(bodies);
        } else {
          var e :| e in LiveBody(bodies[0]) && e.name == name;
          assert e in LiveAll(bodies);
        }
      }
    }
  }

  // ----- Blocks with a checksum tail

  ghost function Bodies(blocks: seq<seq<u8>>, usable: nat): (r: seq<seq<u8>>)
    ensures |r| == |blocks|
  {
    seq(|blocks|, k requires 0 <= k < |blocks| => if usable <= |blocks[k]| then blocks[k][..usable] else blocks[k])
  }

  lemma PatchFront(b: seq<u8>, usable: nat, at: nat, bytes: seq<u8>)
    requires at + |bytes| <= usable <= |b|
    ensures Patch(b, at, bytes)[..usable] == Patch(b[..usable], at, bytes)
    ensures Patch(b, at, bytes)[usable..] == b[usable..]
  {
    PatchMiddle([], b[..usable], b[usable..], at, bytes);
    assert b == [] + b[..usable] + b[usable..];
    assert [] + Patch(b[..usable], at, bytes) + b[usable..] == Patch(b[..usable], at, bytes) + b[usable..];
  }

  /** All blocks are tiled and their tails hold no entries. */
  ghost predicate WellFormed(blocks: seq<seq<u8>>, usable: nat) {
    forall k :: 0 <= k < |blocks| ==>
      usable <= |blocks[k]| && BodyOk(blocks[k][..usable]) && TailOk(blocks[k][usable..])
  }

  lemma CleanBodies(bodies: seq<seq<u8>>, name: Name)
    requires forall k :: 0 <= k < |bodies| ==> ScanBody(bodies[k], name).Clean?
    ensures !HasName(LiveAll(bodies), name)
    ensures forall k :: 0 <= k < |bodies| ==> BodyOk(bodies[k])
  {
    hide ScanBody, BodyOk, HasName;
    AllNamed(bodies, name);
    forall k | 0 <= k < |bodies|
      ensures BodyOk(bodies[k]) && !HasName(LiveBody(bodies[k]), name)
    {
      CleanMeans(bodies[k], name);
      CleanBody(bodies[k], name);
    }
  }

  lemma CleanBody(b: seq<u8>, name: Name)
    requires BodyOk(b) && NoneNamed(Parse(b).value, name)
    ensures !HasName(LiveBody(b), name)
  {
    LiveNamed(Parse(b).value, name);
  }

  /** Replacing one body by one with an entry more. */
  lemma BodyGains(bodies: seq<seq<u8>>, k: nat, b: seq<u8>, e: Entry)
    requires k < |bodies| && OneInserted(LiveBody(bodies[k]), LiveBody(b), e)
    ensures OneInserted(LiveAll(bodies), LiveAll(bodies[k := b]), e)
  {
    hide LiveBody, LiveAll, OneInserted;
    LiveAllAround(bodies, k, b);
    InsertedInside(LiveAll(bodies[..k]), LiveBody(bodies[k]), LiveBody(b), LiveAll(bodies[k + 1..]), e);
  }

  lemma BodyLoses(bodies: seq<seq<u8>>, k: nat, b: seq<u8>, e: Entry)
    requires k < |bodies| && OneInserted(LiveBody(b), LiveBody(bodies[k]), e)
    ensures OneInserted(LiveAll(bodies[k := b]), LiveAll(bodies), e)
  {
    hide LiveBody, LiveAll, OneInserted;
    LiveAllAround(bodies, k, b);
    InsertedInside(LiveAll(bodies[..k]), LiveBody(b), LiveBody(bodies[k]), LiveAll(bodies[k + 1..]), e);
  }

  lemma BodiesUpdate(blocks: seq<seq<u8>>, usable: nat, k: nat, b: seq<u8>)
    requires k < |blocks| && usable <= |b|
    ensures Bodies(blocks[k := b], usable) == Bodies(blocks, usable)[k := b[..usable]]
  {}

  lemma BodiesAppend(blocks: seq<seq<u8>>, usable: nat, b: seq<u8>)
    requires usable <= |b|
    ensures Bodies(blocks + [b], usable) == Bodies(blocks, usable) + [b[..usable]]
  {}

  /** A fresh block that holds only the new entry. */
  lemma NewBody(bodies: seq<seq<u8>>, b: seq<u8>, e: Entry)
    requires ValidEntry(e) && MinSize(|e.name|) <= |b| < U16 && b == EntryBytes(|b|, e)
    ensures BodyOk(b) && OneInserted(LiveAll(bodies), LiveAll(bodies + [b]), e)
  {
    hide EntryBytes, ReadRecord, LiveAll, OneInserted, MinSize;
    EntryReads(|b|, e);
    ParseOne(b);
    var r := Record(|b|, Some(e));
    One(r);
    LiveAllConcat(bodies, [b]);
    LiveAllOne(b);
    InsertedBetween(LiveAll(bodies), [], e);
    assert LiveAll(bodies) + [] == LiveAll(bodies) && LiveAll(bodies) + [e] + [] == LiveAll(bodies) + [e];
  }

  /** Rewrites a block that has room, in a buffer. */
  method InsertAtSlot(b: seq<u8>, usable: nat, off: nat, e: Entry, ghost at: nat) returns (after: seq<u8>)
    requires usable <= |b| && ValidEntry(e) && BodyOk(b[..usable]) && SlotAt(b[..usable], at, off, MinSize(|e.name|))
    ensures |after| == |b| && after[usable..] == b[usable..] && BodyOk(after[..usable])
    ensures OneInserted(LiveBody(b[..usable]), LiveBody(after[..usable]), e)
  {
    hide ReadRecord, Parse, BodyOk, OneInserted, Patch, EntryBytes, ToLe, SlotAt, At, RecordOk, HasRoom, MinSize,
         ValidEntry, LiveBody;
    ghost var body := b[..usable];
    SlotRecord(body, at, off, MinSize(|e.name|));
    var r := ReadRecord(b[..usable][off..]).value;
    InsertInBlock(body, at, off, e);
    SlotSizes(r, e);
    var keep := Used(r);
    var len := if r.entry.Some? then keep else r.recLen;
    var a := Load(b);
    Write(a, off + 4, ToLe(len, 2));
    PatchFront(b, usable, off + 4, ToLe(len, 2));
    ghost var resized := a[..];
    var w := WriteDirEntryBytes(a, off + keep, r.recLen - keep, e);
    PatchFront(resized, usable, off + keep, EntryBytes(r.recLen - keep, e));
    after := a[..];
  }

  lemma SlotFits(b: seq<u8>, at: nat, off: nat, need: nat)
    requires BodyOk(b) && SlotAt(b, at, off, need)
    ensures need <= |b|
  {
    SlotRecord(b, at, off, need);
  }

  lemma SlotSizes(r: Record, e: Entry)
    requires RecordOk(r) && ValidEntry(e) && HasRoom(r, MinSize(|e.name|))
    ensures 8 <= r.recLen && Used(r) <= r.recLen && MinSize(|e.name|) <= r.recLen - Used(r) < U16
  {}

  datatype AddResult = Added | AlreadyExists | Corrupt

  datatype RemoveResult = Removed | NotFound | Readonly | Broken

  class LinearDirectory {
    const blockSize: nat
    const tail: bool
    var blocks: seq<seq<u8>>

    function Usable(): nat
      requires blockSize >= 12
    {
      blockSize - if tail then 12 else 0
    }

    /** Blocks of the right size, with a usable part whose length fits a record's length field. */
    ghost predicate Sized()
      reads this
    {
      12 <= blockSize && Usable() < U16 && forall k :: 0 <= k < |blocks| ==> |blocks[k]| == blockSize
    }

    /** A new directory, with the entries for itself and its parent. */
    constructor Init(blockSize: nat, tail: bool, self: Entry, parent: Entry)
      requires 36 <= blockSize && blockSize - (if tail then 12 else 0) < U16
      requires ValidEntry(self) && self.name == DOT && ValidEntry(parent) && parent.name == DOT_DOT
      ensures this.blockSize == blockSize && this.tail == tail && Sized() && WellFormed(blocks, Usable())
      ensures LiveAll(Bodies(blocks, Usable())) == [self, parent] && NamesOnce(LiveAll(Bodies(blocks, Usable())))
    {
      hide Parse, Live, Pack, LiveAll, BodyOk, TailOk;
      var usable := blockSize - if tail then 12 else 0;
      TwoEntries(self, parent);
      var packed := PackLeafBlock([self, parent], blockSize, tail);
      this.blockSize, this.tail, this.blocks := blockSize, tail, [packed.value];
      new;
      FirstBlock(packed.value, usable, [self, parent]);
    }

    /** Adds an entry after checking the whole directory; on any error nothing is written. */
    method Add(e: Entry) returns (r: AddResult)
      requires Sized() && ValidEntry(e)
      modifies this
      ensures Sized()
      ensures !r.Added? ==> blocks == old(blocks)
      ensures r.AlreadyExists? <==> ScanBlocks(old(Bodies(blocks, Usable())), e.name).Duplicate?
      ensures r.Added? <==> ScanBlocks(old(Bodies(blocks, Usable())), e.name).Clean? && MinSize(|e.name|) <= Usable()
      ensures r.Added? ==> && !HasName(old(LiveAll(Bodies(blocks, Usable()))), e.name)
                           && OneInserted(old(LiveAll(Bodies(blocks, Usable()))), LiveAll(Bodies(blocks, Usable())), e)
      ensures r.Added? ==> FirstFit(old(Bodies(blocks, Usable())), old(blocks), blocks, MinSize(|e.name|))
      ensures r.Added? && old(WellFormed(blocks, Usable())) ==> WellFormed(blocks, Usable())
      ensures old(NamesOnce(LiveAll(Bodies(blocks, Usable())))) ==> NamesOnce(LiveAll(Bodies(blocks, Usable())))
    {
      hide ScanBlocks, ScanBody, HasRoom, BodyOk, TailOk, LiveAll, OneInserted, NamesOnce, HasName, Patch, ValidEntry,
           At, Parse, Crowded;
      var usable := Usable();
      ghost var bodies := Bodies(blocks, usable);
      var need := MinSize(|e.name|);
      var found, block, off := false, 0, 0;
      ghost var at: nat := 0;
      assert bodies[0..] == bodies;
      for k := 0 to |blocks|
        invariant blocks == old(blocks) && ScanBlocks(bodies, e.name) == ScanBlocks(bodies[k..], e.name)
        invariant forall j :: 0 <= j < k ==> ScanBody(bodies[j], e.name).Clean?
        invariant found ==> 0 <= block < k && SlotAt(bodies[block], at, off, need) && !Crowded(bodies[block], need)
        invariant forall j :: 0 <= j < (if found then block else k) ==> Crowded(bodies[j], need)
      {
        ScanStep(bodies, k, e.name);
        var outcome, slot, i := ScanBlock(blocks[k][..usable], e.name, need);
        if outcome.Duplicate? {
          return AlreadyExists;
        }
        if outcome.Malformed? {
          return Corrupt;
        }
        if !found && slot.Some? {
          found, block, off, at := true, k, slot.value, i;
        }
      }
      ScanEmpty(bodies, e.name);
      CleanBodies(bodies, e.name);
      if found {
        SlotFits(bodies[block], at, off, need);
        var after := InsertAtSlot(blocks[block], usable, off, e, at);
        BodyGains(bodies, block, after[..usable], e);
        BodiesUpdate(blocks, usable, block, after);
        blocks := blocks[block := after];
        assert blocks == old(blocks)[block := blocks[block]];
      } else {
        if need > usable {
          return Corrupt;
        }
        AppendBlock(e);
        NewBody(bodies, blocks[|blocks| - 1][..usable], e);
        BodiesAppend(old(blocks), usable, blocks[|blocks| - 1]);
        assert blocks == old(blocks) + [blocks[|blocks| - 1]];
      }
      AddKeepsOnce(old(LiveAll(Bodies(blocks, Usable()))), LiveAll(Bodies(blocks, usable)), e);
      return Added;
    }

    /** Appends a block that holds one entry. */
    method AppendBlock(e: Entry)
      requires Sized() && ValidEntry(e) && MinSize(|e.name|) <= Usable()
      modifies this
      ensures Sized() && |blocks| == |old(blocks)| + 1 && blocks[..|old(blocks)|] == old(blocks)
      ensures blocks[|old(blocks)|][..Usable()] == EntryBytes(Usable(), e) && TailOk(blocks[|old(blocks)|][Usable()..])
    {
      hide EntryBytes, Parse, ReadRecord, Live, MinSize;
      var usable := Usable();
      var a := Load(Zeros(blockSize));
      var w := WriteDirEntryBytes(a, 0, usable, e);
      assert a[..usable] == EntryBytes(usable, e);
      if tail {
        Write(a, usable, TAIL);
      }
      TailHoldsNothing();
      assert a[..][usable..] == if tail then TAIL else [];
      assert a[..][..usable] == EntryBytes(usable, e);
      blocks := blocks + [a[..]];
    }

    /** Removes a name; a last block left without entries is cut off, unless it is the first. */
    method Remove(name: Name) returns (r: RemoveResult)
      requires Sized()
      modifies this
      ensures Sized()
      ensures !r.Removed? ==> blocks == old(blocks)
      ensures r.Removed? && old(WellFormed(blocks, Usable())) ==>
                || (1 <= |blocks| == |old(blocks)| - 1 && blocks == old(blocks)[..|blocks|])
                || (exists k: nat :: OneRewritten(old(blocks), blocks, k) &&
                      (k > 0 && k + 1 == |blocks| ==> LiveBody(Bodies(blocks, Usable())[k]) != []))
      ensures old(WellFormed(blocks, Usable())) ==>
                && (r.NotFound? <==> !HasName(old(LiveAll(Bodies(blocks, Usable()))), name))
                && (r.Readonly? ==> name == DOT || name == DOT_DOT)
                && (r.Removed? ==> name != DOT && name != DOT_DOT && WellFormed(blocks, Usable()))
                && (r.Removed? ==> exists e: Entry :: e.name == name && OneInserted(LiveAll(Bodies(blocks, Usable())),
                                                                           old(LiveAll(Bodies(blocks, Usable()))), e))
                && !r.Broken?
      ensures r.Removed? && old(WellFormed(blocks, Usable()) && NamesOnce(LiveAll(Bodies(blocks, Usable())))) ==>
                NamesOnce(LiveAll(Bodies(blocks, Usable()))) && !HasName(LiveAll(Bodies(blocks, Usable())), name)
    {
      hide BodyOk, TailOk, LiveAll, OneInserted, NamesOnce, HasName, FoundAt, Parse, Live, LiveBody, Bodies;
      var usable := Usable();
      ghost var good, bodies := WellFormed(blocks, usable), Bodies(blocks, usable);
      BodyOf(blocks, usable);
      for k := 0 to |blocks|
        invariant blocks == old(blocks) && (good ==> forall j :: 0 <= j < k ==> !HasName(LiveBody(bodies[j]), name))
      {
        var f, i := FindInBlock(blocks[k], name);
        if f.Bad? {
          if good { WholeBlock(blocks[k], usable); }
          return Broken;
        }
        if good {
          WholeNamed(blocks[k], usable, name);
        }
        if f.Found? {
          AllNamed(bodies, name);
          if good { FoundName(blocks[k], name, i, f.off, f.prev); }
          if name == DOT || name == DOT_DOT {
            return Readonly;
          }
          var total := (if f.prev.Some? then RecLenOf(blocks[k][f.prev.value..]) else 0) + RecLenOf(blocks[k][f.off..]);
          if f.prev.Some? && total >= U16 {
            if good { FoundFits(blocks[k], usable, name, i, f.off, f.prev, total); }
            return Broken;
          }
          var after := Erase(blocks[k], f.off, f.prev, total);
          var empty := AllEmpty(after);
          if good {
            RemoveFound(blocks, usable, k, name, i, f.off, f.prev, total);
            if k + 1 == |blocks| && empty { TruncateEmpty(blocks, usable, k, after); }
          }
          if empty && k + 1 == |blocks| && k > 0 {
            blocks := blocks[..k];
          } else {
            if good { LeftOver(blocks, usable, k, after, empty); }
            blocks := blocks[k := after];
            assert good ==> OneRewritten(old(blocks), blocks, k);
          }
          return Removed;
        }
      }
      AllNamed(bodies, name);
      return NotFound;
    }
  }

  /** Only block `k` differs. */
  ghost predicate OneRewritten(before: seq<seq<u8>>, after: seq<seq<u8>>, k: nat) {
    k < |before| == |after| && after == before[k := after[k]]
  }

  lemma LeftOver(blocks: seq<seq<u8>>, usable: nat, k: nat, after: seq<u8>, empty: bool)
    requires k < |blocks| && WellFormed(blocks[k := after], usable)
    requires Parse(after).Some? ==> (empty <==> Live(Parse(after).value) == [])
    ensures !empty ==> LiveBody(Bodies(blocks[k := after], usable)[k]) != []
  {
    hide BodyOk, TailOk, Live, Parse, LiveBody;
    assert blocks[k := after][k] == after;
    WholeBlock(after, usable);
    BodyOf(blocks[k := after], usable);
  }

  lemma BodyOf(blocks: seq<seq<u8>>, usable: nat)
    ensures forall k :: 0 <= k < |blocks| && usable <= |blocks[k]| ==> Bodies(blocks, usable)[k] == blocks[k][..usable]
  {}

  lemma TwoEntries(a: Entry, b: Entry)
    requires a.name == DOT && b.name == DOT_DOT
    ensures SizeOf([a, b]) == 24 && NamesOnce([a, b])
  {
    assert [a, b][1..] == [b] && [b][1..] == [];
    assert SizeOf([b]) == 12;
  }

  lemma FirstBlock(b: seq<u8>, usable: nat, entries: seq<Entry>)
    requires usable < U16 && usable <= |b| && Pack(entries, usable).Some? && forall e :: e in entries ==> ValidEntry(e)
    requires Parse(b[..usable]) == Some(Pack(entries, usable).value) && TailOk(b[usable..])
    ensures WellFormed([b], usable) && LiveAll(Bodies([b], usable)) == entries
  {
    hide Parse, Live, Pack, LiveAll;
    BodiesAppend([], usable, b);
    assert [] + [b] == [b] && Bodies([], usable) + [b[..usable]] == [b[..usable]];
    LiveAllOne(b[..usable]);
  }

  ghost predicate SlotAt(b: seq<u8>, at: nat, off: nat, need: nat) {
    At(b, at, off) && HasRoom(Parse(b).value[at], need)
  }

  lemma SlotRecord(b: seq<u8>, at: nat, off: nat, need: nat)
    requires BodyOk(b) && SlotAt(b, at, off, need)
    ensures off <= |b| && ReadRecord(b[off..]) == Some(Parse(b).value[at]) && At(b, at, off)
    ensures HasRoom(Parse(b).value[at], need) && RecordOk(Parse(b).value[at]) && off + Parse(b).value[at].recLen <= |b|
  {
    RecordBytes(b, at);
  }

  lemma ScanStep(bodies: seq<seq<u8>>, k: nat, name: Name)
    requires k < |bodies|
    ensures var first := ScanBody(bodies[k], name);
            ScanBlocks(bodies[k..], name) == if first.Clean? then ScanBlocks(bodies[k + 1..], name) else first
  {
    hide ScanBody;
    assert bodies[k..][0] == bodies[k] && bodies[k..][1..] == bodies[k + 1..];
  }

  lemma ScanEmpty(bodies: seq<seq<u8>>, name: Name)
    ensures ScanBlocks(bodies[|bodies|..], name).Clean?
  {}

  lemma AddKeepsOnce(before: seq<Entry>, after: seq<Entry>, e: Entry)
    requires OneInserted(before, after, e) && !HasName(before, e.name)
    ensures NamesOnce(before) ==> NamesOnce(after)
  {
    hide OneInserted, HasName;
    if NamesOnce(before) {
      InsertKeepsOnce(before, after, e);
    }
  }

  // ----- Removal from one block

  datatype Finding = Missing | Bad | Found(off: nat, prev: Option<nat>)

  /** Record `i` has the name, starts at `off`, and follows a record at `prev` unless it is the first. */
  ghost predicate FoundAt(b: seq<u8>, name: Name, i: nat, off: nat, prev: Option<nat>) {
    && At(b, i, off) && Named(Parse(b).value[i], name)
    && if i == 0 then prev.None? else prev.Some? && At(b, i - 1, prev.value)
  }

  lemma RawHeader(x: seq<u8>, name: Name)
    requires ReadRecord(x).Some?
    ensures var r := ReadRecord(x).value;
            && |x| >= 8 && RecLenOf(x) == r.recLen && (InodeOf(x) == 0 <==> r.entry.None?)
            && (r.entry.Some? ==> 8 + NameLenOf(x) <= r.recLen && r.entry.value.name == x[8..8 + NameLenOf(x)])
  {}

  /** Looks for a name in a whole block, checksum tail included. */
  method FindInBlock(b: seq<u8>, name: Name) returns (f: Finding, ghost i: nat)
    ensures f.Found? ==> f.off + 8 <= |b| && (f.prev.Some? ==> f.prev.value + 8 <= f.off)
    ensures Parse(b).Some? ==> && !f.Bad? && (f.Missing? ==> NoneNamed(Parse(b).value, name))
                               && (f.Found? ==> FoundAt(b, name, i, f.off, f.prev))
  {
    hide ReadRecord, Parse, TotalLen;
    ghost var ok, recs := Parse(b).Some?, if Parse(b).Some? then Parse(b).value else [];
    var off: nat, prev: Option<nat> := 0, None;
    i := 0;
    NoLength(recs);
    while off < |b|
      invariant off <= |b| && (prev.Some? ==> prev.value + 8 <= off)
      invariant ok ==> i <= |recs| && off == Offset(recs, i) && forall j :: 0 <= j < i ==> !Named(recs[j], name)
      invariant ok ==> if i == 0 then prev.None? else prev.Some? && prev.value == Offset(recs, i - 1)
      decreases |b| - off
    {
      if ok {
        NotAtEnd(b, i);
        RecordBytes(b, i);
        RawHeader(b[off..], name);
        OffsetStep(recs, i);
      }
      if off + 8 > |b| {
        return Bad, i;
      }
      var x := b[off..];
      if RecLenOf(x) < 8 || off + RecLenOf(x) > |b| {
        return Bad, i;
      }
      if InodeOf(x) != 0 {
        if 8 + NameLenOf(x) > RecLenOf(x) {
          return Bad, i;
        }
        if x[8..8 + NameLenOf(x)] == name {
          return Found(off, prev), i;
        }
      }
      prev := Some(off);
      off, i := off + RecLenOf(x), i + 1;
    }
    if ok {
      AtEnd(b, i);
    }
    return Missing, i;
  }

  lemma NoLength(recs: seq<Record>)
    ensures Offset(recs, 0) == 0
  {}

  lemma NotAtEnd(b: seq<u8>, i: nat)
    requires Parse(b).Some? && i <= |Parse(b).value| && Offset(Parse(b).value, i) < |b|
    ensures i < |Parse(b).value|
  {
    ParseTotal(b);
    assert Parse(b).value[..|Parse(b).value|] == Parse(b).value;
  }

  lemma AtEnd(b: seq<u8>, i: nat)
    requires Parse(b).Some? && i <= |Parse(b).value| && Offset(Parse(b).value, i) == |b|
    ensures i == |Parse(b).value|
  {
    var recs := Parse(b).value;
    if i < |recs| {
      RecordBytes(b, i);
    }
  }

  /** Marks the record unused and lends its space to the one before it. */
  method Erase(b: seq<u8>, off: nat, prev: Option<nat>, total: nat) returns (after: seq<u8>)
    requires off + 8 <= |b| && (prev.Some? ==> prev.value + 8 <= off)
    ensures after == AfterRemove(b, off, prev, total)
  {
    hide Patch, ToLe;
    var a := Load(b);
    if prev.Some? {
      Write(a, prev.value + 4, ToLe(total, 2));
    }
    Write(a, off, Zeros(4));
    after := a[..];
  }

  /** Whether a block holds no live record. */
  method AllEmpty(b: seq<u8>) returns (empty: bool)
    ensures Parse(b).Some? ==> (empty <==> Live(Parse(b).value) == [])
  {
    hide ReadRecord, Parse, TotalLen, Live;
    ghost var ok, recs := Parse(b).Some?, if Parse(b).Some? then Parse(b).value else [];
    var off: nat := 0;
    ghost var i := 0;
    NoLength(recs);
    while off < |b|
      invariant off <= |b| && 0 <= i
      invariant ok ==> i <= |recs| && off == Offset(recs, i) && forall j :: 0 <= j < i ==> recs[j].entry.None?
      decreases |b| - off
    {
      if ok {
        NotAtEnd(b, i);
        RecordBytes(b, i);
        RawHeader(b[off..], []);
        OffsetStep(recs, i);
      }
      if off + 8 > |b| || RecLenOf(b[off..]) == 0 {
        break;
      }
      if InodeOf(b[off..]) != 0 {
        if ok { SomeLive(recs, i); }
        return false;
      }
      if off + RecLenOf(b[off..]) > |b| {
        break;
      }
      off, i := off + RecLenOf(b[off..]), i + 1;
    }
    if ok {
      AtEnd(b, i);
      NoneLive(recs);
    }
    return true;
  }

  lemma {:induction false} SomeLive(recs: seq<Record>, i: nat)
    requires i < |recs| && recs[i].entry.Some?
    ensures Live(recs) != []
  {
    if i > 0 {
      SomeLive(recs[1..], i - 1);
    }
  }

  lemma {:induction false} NoneLive(recs: seq<Record>)
    requires forall j :: 0 <= j < |recs| ==> recs[j].entry.None?
    ensures Live(recs) == []
  {
    if recs != [] {
      NoneLive(recs[1..]);
    }
  }

  lemma WholeBlock(b: seq<u8>, usable: nat)
    requires usable <= |b| && BodyOk(b[..usable]) && TailOk(b[usable..])
    ensures Parse(b) == Some(Parse(b[..usable]).value + Parse(b[usable..]).value)
    ensures Live(Parse(b).value) == LiveBody(b[..usable])
  {
    hide Live, Tiles;
    assert b == b[..usable] + b[usable..];
    ParseConcat(b[..usable], b[usable..]);
    LiveConcat(Parse(b[..usable]).value, Parse(b[usable..]).value);
    assert LiveBody(b[..usable]) + [] == LiveBody(b[..usable]);
  }

  lemma WholeNamed(b: seq<u8>, usable: nat, name: Name)
    requires usable <= |b| && BodyOk(b[..usable]) && TailOk(b[usable..])
    ensures Parse(b).Some? && (HasName(LiveBody(b[..usable]), name) <==> !NoneNamed(Parse(b).value, name))
  {
    hide HasName, NoneNamed;
    WholeBlock(b, usable);
    LiveNamed(Parse(b).value, name);
  }

  lemma FoundName(b: seq<u8>, name: Name, i: nat, off: nat, prev: Option<nat>)
    requires FoundAt(b, name, i, off, prev)
    ensures !NoneNamed(Parse(b).value, name)
  {}

  /** A record found in the whole block lies in its usable part. */
  lemma FoundInBody(b: seq<u8>, usable: nat, name: Name, i: nat, off: nat, prev: Option<nat>)
    requires usable <= |b| && BodyOk(b[..usable]) && TailOk(b[usable..]) && FoundAt(b, name, i, off, prev)
    ensures FoundAt(b[..usable], name, i, off, prev)
    ensures Parse(b).value[i] == Parse(b[..usable]).value[i]
    ensures (i > 0 ==> Parse(b).value[i - 1] == Parse(b[..usable]).value[i - 1])
  {
    hide Tiles, Parse, Live, TotalLen, Named;
    WholeBlock(b, usable);
    var recs, body, rest := Parse(b).value, Parse(b[..usable]).value, Parse(b[usable..]).value;
    NamedIsLive(recs[i], name);
    if i >= |body| {
      assert rest[i - |body|] == recs[i];
      SomeLive(rest, i - |body|);
    }
    assert recs[..i] == body[..i];
    assert i > 0 ==> recs[..i - 1] == body[..i - 1];
  }

  lemma NamedIsLive(r: Record, name: Name)
    requires Named(r, name)
    ensures r.entry.Some?
  {}

  lemma FoundLengths(b: seq<u8>, name: Name, i: nat, off: nat, prev: Option<nat>)
    requires FoundAt(b, name, i, off, prev)
    ensures off + 8 <= |b| && RecLenOf(b[off..]) == Parse(b).value[i].recLen
    ensures i > 0 ==> prev.value + 8 <= |b| && RecLenOf(b[prev.value..]) == Parse(b).value[i - 1].recLen
  {
    hide Parse, ReadRecord, TotalLen, RecLenOf, InodeOf, NameLenOf;
    RecordBytes(b, i);
    RawHeader(b[off..], name);
    if i > 0 {
      RecordBytes(b, i - 1);
      RawHeader(b[prev.value..], name);
    }
  }

  lemma FoundFits(b: seq<u8>, usable: nat, name: Name, i: nat, off: nat, prev: Option<nat>, total: nat)
    requires usable <= |b| && usable < U16 && BodyOk(b[..usable]) && TailOk(b[usable..])
    requires FoundAt(b, name, i, off, prev)
    requires prev.Some? && prev.value + 8 <= |b| && off + 8 <= |b|
    requires total == RecLenOf(b[prev.value..]) + RecLenOf(b[off..])
    ensures total < U16
  {
    hide Parse, ReadRecord, TotalLen, RecLenOf, BodyOk, TailOk;
    FoundInBody(b, usable, name, i, off, prev);
    FoundLengths(b, name, i, off, prev);
    var body := b[..usable];
    RecordBytes(body, i);
    OffsetStep(Parse(body).value, i - 1);
  }

  lemma EraseFront(b: seq<u8>, usable: nat, off: nat, prev: Option<nat>, total: nat)
    requires off + 8 <= usable <= |b| && (prev.Some? ==> prev.value + 8 <= off)
    ensures |AfterRemove(b, off, prev, total)| == |b|
    ensures AfterRemove(b, off, prev, total)[..usable] == AfterRemove(b[..usable], off, prev, total)
    ensures AfterRemove(b, off, prev, total)[usable..] == b[usable..]
  {
    hide Patch, ToLe;
    if prev.Some? {
      PatchFront(b, usable, prev.value + 4, ToLe(total, 2));
      PatchFront(Patch(b, prev.value + 4, ToLe(total, 2)), usable, off, Zeros(4));
    } else {
      PatchFront(b, usable, off, Zeros(4));
    }
  }

  /** One block after the removal. */
  lemma BlockErased(b: seq<u8>, usable: nat, name: Name, i: nat, off: nat, prev: Option<nat>, total: nat)
    requires usable <= |b| && usable < U16 && BodyOk(b[..usable]) && TailOk(b[usable..])
    requires FoundAt(b, name, i, off, prev)
    requires off + 8 <= |b| && (prev.Some? ==> prev.value + 8 <= off)
    requires total == (if prev.Some? then RecLenOf(b[prev.value..]) else 0) + RecLenOf(b[off..])
    ensures var after := AfterRemove(b, off, prev, total);
            && |after| == |b| && BodyOk(after[..usable]) && after[usable..] == b[usable..]
            && exists e: Entry :: e.name == name && OneInserted(LiveBody(after[..usable]), LiveBody(b[..usable]), e)
  {
    FoundInBody(b, usable, name, i, off, prev);
    FoundLengths(b, name, i, off, prev);
    if i > 0 { FoundFits(b, usable, name, i, off, prev, total); }
    var body := b[..usable];
    var e := Parse(body).value[i].entry.value;
    hide Parse, BodyOk, OneInserted, RecLenOf, AfterRemove;
    RemoveInBlock(body, i, off, prev, total);
    EraseFront(b, usable, off, prev, total);
    assert OneInserted(LiveBody(AfterRemove(b, off, prev, total)[..usable]), LiveBody(body), e);
  }

  lemma RemoveFound(blocks: seq<seq<u8>>, usable: nat, k: nat, name: Name, i: nat, off: nat, prev: Option<nat>,
                    total: nat)
    requires WellFormed(blocks, usable) && usable < U16 && k < |blocks| && FoundAt(blocks[k], name, i, off, prev)
    requires off + 8 <= |blocks[k]| && (prev.Some? ==> prev.value + 8 <= off)
    requires total == (if prev.Some? then RecLenOf(blocks[k][prev.value..]) else 0) + RecLenOf(blocks[k][off..])
    ensures var after := AfterRemove(blocks[k], off, prev, total);
            var bodies, bodies' := Bodies(blocks, usable), Bodies(blocks[k := after], usable);
            && |after| == |blocks[k]| && WellFormed(blocks[k := after], usable)
            && (exists e: Entry :: e.name == name && OneInserted(LiveAll(bodies'), LiveAll(bodies), e))
            && (NamesOnce(LiveAll(bodies)) ==> NamesOnce(LiveAll(bodies')) && !HasName(LiveAll(bodies'), name))
  {
    hide BodyOk, TailOk, OneInserted, RecLenOf, AfterRemove, LiveAll, LiveBody, FoundAt, NamesOnce, HasName;
    BlockErased(blocks[k], usable, name, i, off, prev, total);
    var after := AfterRemove(blocks[k], off, prev, total);
    var e: Entry :| e.name == name && OneInserted(LiveBody(after[..usable]), LiveBody(blocks[k][..usable]), e);
    BodyOf(blocks, usable);
    BodyLoses(Bodies(blocks, usable), k, after[..usable], e);
    BodiesUpdate(blocks, usable, k, after);
    if NamesOnce(LiveAll(Bodies(blocks, usable))) {
      RemoveKeepsOnce(LiveAll(Bodies(blocks, usable)), LiveAll(Bodies(blocks[k := after], usable)), e);
    }
  }

  /** Cutting off a last block without entries changes no contents. */
  lemma TruncateEmpty(blocks: seq<seq<u8>>, usable: nat, k: nat, after: seq<u8>)
    requires k + 1 == |blocks| && WellFormed(blocks[k := after], usable)
    requires Parse(after).Some? ==> Live(Parse(after).value) == []
    ensures LiveAll(Bodies(blocks[..k], usable)) == LiveAll(Bodies(blocks[k := after], usable))
    ensures WellFormed(blocks[..k], usable)
  {
    hide BodyOk, TailOk, LiveAll, Live, Parse, LiveBody;
    var bs := blocks[k := after];
    assert bs[k] == after;
    WholeBlock(after, usable);
    assert blocks[..k] + [after] == bs;
    BodiesAppend(blocks[..k], usable, after);
    LiveAllConcat(Bodies(blocks[..k], usable), [after[..usable]]);
    LiveAllOne(after[..usable]);
    forall j | 0 <= j < k
      ensures usable <= |blocks[j]| && BodyOk(blocks[j][..usable]) && TailOk(blocks[j][usable..])
    {
      assert blocks[j] == bs[j];
    }
  }
}
