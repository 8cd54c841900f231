/** Directory records as bytes: reading, writing, and what in-place edits mean for the records. */
module DirBytes {
  import opened Options
  import opened Bytes
  import opened DirRecords

  function InodeOf(b: seq<u8>): nat
    requires |b| >= 8
  { FromLe(b[..4]) }

  function RecLenOf(b: seq<u8>): (n: nat)
    requires |b| >= 8
    ensures n < U16
  {
    Powers();
    FromLe(b[4..6])
  }

  function NameLenOf(b: seq<u8>): nat
    requires |b| >= 8
  { b[6] as nat }

  function TypeOf(b: seq<u8>): nat
    requires |b| >= 8
  { b[7] as nat }

  /** One record, read from the front of a slice; absent when the bytes are malformed. */
  function ReadRecord(b: seq<u8>): (r: Option<Record>)
    ensures r.Some? ==> 8 <= r.value.recLen <= |b| && r.value.recLen < U16
  {
    if |b| < 8 || RecLenOf(b) < 8 || RecLenOf(b) > |b| then None
    else if InodeOf(b) == 0 then Some(Record(RecLenOf(b), None))
    else if 8 + NameLenOf(b) > RecLenOf(b) || !(1 <= TypeOf(b) <= 7) || !ValidName(b[8..8 + NameLenOf(b)]) then None
    else Some(Record(RecLenOf(b), Some(Entry(InodeOf(b), b[8..8 + NameLenOf(b)], TypeOf(b)))))
  }

  /** All records of a block. */
  function Parse(b: seq<u8>): (r: Option<seq<Record>>)
    decreases |b|
  {
    if b == [] then Some([])
    else
      var first := ReadRecord(b);
      if first.None? then None
      else
        var rest := Parse(b[first.value.recLen..]);
        if rest.None? then None else Some([first.value] + rest.value)
  }

  lemma ReadPrefix(x: seq<u8>, y: seq<u8>)
    requires ReadRecord(x).Some?
    ensures ReadRecord(x + y) == ReadRecord(x)
  {
    var b := x + y;
    assert b[..4] == x[..4] && b[4..6] == x[4..6] && b[6] == x[6] && b[7] == x[7];
    if InodeOf(x) != 0 {
      assert b[8..8 + NameLenOf(x)] == x[8..8 + NameLenOf(x)];
    }
  }

  lemma {:induction false} ParseConcat(x: seq<u8>, y: seq<u8>)
    requires Parse(x).Some? && Parse(y).Some?
    ensures Parse(x + y) == Some(Parse(x).value + Parse(y).value)
    decreases |x|
  {
    hide ReadRecord, Parse;
    if x == [] {
      assert x + y == y && [] + Parse(y).value == Parse(y).value;
      ParseNothing();
    } else {
      ParseUnfold(x);
      var r := ReadRecord(x).value;
      ReadPrefix(x, y);
      var rest := x[r.recLen..];
      ParseConcat(rest, y);
      assert (x + y)[r.recLen..] == rest + y;
      ParseUnfold(x + y);
      assert [r] + (Parse(rest).value + Parse(y).value) == ([r] + Parse(rest).value) + Parse(y).value;
    }
  }

  lemma ParseNothing()
    ensures Parse([]) == Some([])
  {}

  lemma ParseUnfold(b: seq<u8>)
    requires b != []
    ensures Parse(b).Some? <==> ReadRecord(b).Some? && Parse(b[ReadRecord(b).value.recLen..]).Some?
    ensures Parse(b).Some? ==> Parse(b).value == [ReadRecord(b).value] + Parse(b[ReadRecord(b).value.recLen..]).value
  {
    hide ReadRecord;
  }

  lemma ParseOne(x: seq<u8>)
    requires ReadRecord(x).Some? && ReadRecord(x).value.recLen == |x|
    ensures Parse(x) == Some([ReadRecord(x).value])
  {
    hide ReadRecord;
    assert x[|x|..] == [];
    assert [ReadRecord(x).value] + [] == [ReadRecord(x).value];
  }

  lemma {:induction false} ParseTotal(b: seq<u8>)
    requires Parse(b).Some?
    ensures TotalLen(Parse(b).value) == |b|
    decreases |b|
  {
    if b != [] {
      var n := ReadRecord(b).value.recLen;
      ParseTotal(b[n..]);
      assert Parse(b).value[1..] == Parse(b[n..]).value;
    }
  }

  /** Shortening a slice to the record at its front changes nothing. */
  lemma ReadExact(b: seq<u8>)
    requires ReadRecord(b).Some?
    ensures ReadRecord(b[..ReadRecord(b).value.recLen]) == ReadRecord(b)
  {
    var x := b[..ReadRecord(b).value.recLen];
    assert b[..4] == x[..4] && b[4..6] == x[4..6] && b[6] == x[6] && b[7] == x[7];
    if InodeOf(x) != 0 {
      assert b[8..8 + NameLenOf(x)] == x[8..8 + NameLenOf(x)];
    }
  }

  ghost function Offset(recs: seq<Record>, i: nat): nat
    requires i <= |recs|
  {
    TotalLen(recs[..i])
  }

  lemma OffsetStep(recs: seq<Record>, i: nat)
    requires i < |recs|
    ensures Offset(recs, i + 1) == Offset(recs, i) + recs[i].recLen
  {
    assert recs[..i + 1] == recs[..i] + [recs[i]];
    TotalLenConcat(recs[..i], [recs[i]]);
    One(recs[i]);
  }

  lemma EmptyLen()
    ensures TotalLen([]) == 0
  {}

  /** A block falls apart at every record boundary. */
  lemma {:induction false} CutAt(b: seq<u8>, i: nat)
    requires Parse(b).Some? && i <= |Parse(b).value|
    ensures var recs := Parse(b).value;
            var off := Offset(recs, i);
            && off <= |b| && Parse(b[..off]) == Some(recs[..i]) && Parse(b[off..]) == Some(recs[i..])
  {
    hide ReadRecord, TotalLen;
    var recs := Parse(b).value;
    if i == 0 {
      assert TotalLen([]) == 0 by { EmptyLen(); }
      assert b[..0] == [] && b[0..] == b && recs[..0] == [] && recs[0..] == recs;
    } else {
      CutAt(b, i - 1);
      var off := Offset(recs, i - 1);
      var rest := b[off..];
      var n := ReadRecord(rest).value.recLen;
      assert recs[i - 1..][0] == recs[i - 1] && recs[i - 1..][1..] == recs[i..];
      OffsetStep(recs, i - 1);
      ReadExact(rest);
      ParseOne(rest[..n]);
      ParseConcat(b[..off], rest[..n]);
      assert b[..off] + rest[..n] == b[..off + n] && rest[n..] == b[off + n..];
      assert recs[..i - 1] + [recs[i - 1]] == recs[..i];
    }
  }

  /** The bytes of record `i` on their own. */
  lemma RecordBytes(b: seq<u8>, i: nat)
    requires Parse(b).Some? && i < |Parse(b).value|
    ensures var recs := Parse(b).value;
            var off := Offset(recs, i);
            && off + recs[i].recLen <= |b|
            && ReadRecord(b[off..]) == Some(recs[i]) && ReadRecord(b[off..off + recs[i].recLen]) == Some(recs[i])
            && Parse(b[..off]) == Some(recs[..i]) && Parse(b[off + recs[i].recLen..]) == Some(recs[i + 1..])
  {
    hide ReadRecord, TotalLen;
    var recs := Parse(b).value;
    var off := Offset(recs, i);
    CutAt(b, i);
    CutAt(b, i + 1);
    OffsetStep(recs, i);
    assert recs[i..][0] == recs[i];
    ReadExact(b[off..]);
    assert b[off..][..recs[i].recLen] == b[off..off + recs[i].recLen];
  }

  /** Replacing the bytes between two boundaries replaces the records between them. */
  lemma Replace(pre: seq<u8>, mid: seq<u8>, post: seq<u8>)
    requires Parse(pre).Some? && Parse(mid).Some? && Parse(post).Some?
    ensures Parse(pre + mid + post) == Some(Parse(pre).value + Parse(mid).value + Parse(post).value)
  {
    ParseConcat(pre, mid);
    ParseConcat(pre + mid, post);
  }

  // ----- Writing

  function Zeros(n: nat): (z: seq<u8>)
    ensures |z| == n
  { seq(n, _ => 0) }

  /** The bytes of a live record. */
  function EntryBytes(recLen: nat, e: Entry): (b: seq<u8>)
    requires ValidEntry(e) && MinSize(|e.name|) <= recLen < U16
    ensures |b| == recLen
  {
    ToLe(e.inode, 4) + ToLe(recLen, 2) + [|e.name| as u8] + [e.fileType as u8] + e.name + Zeros(recLen - 8 - |e.name|)
  }

  lemma EntryReads(recLen: nat, e: Entry)
    requires ValidEntry(e) && MinSize(|e.name|) <= recLen < U16
    ensures ReadRecord(EntryBytes(recLen, e)) == Some(Record(recLen, Some(e)))
  {
    var b := EntryBytes(recLen, e);
    Powers();
    LeRoundTrip(e.inode, 4);
    LeRoundTrip(recLen, 2);
    assert b[..4] == ToLe(e.inode, 4) && b[4..6] == ToLe(recLen, 2);
    assert b[8..8 + |e.name|] == e.name;
  }

  function Patch(b: seq<u8>, at: nat, bytes: seq<u8>): (r: seq<u8>)
    requires at + |bytes| <= |b|
    ensures |r| == |b|
  {
    b[..at] + bytes + b[at + |bytes|..]
  }

  lemma PatchFacts(b: seq<u8>, at: nat, bytes: seq<u8>)
    requires at + |bytes| <= |b|
    ensures var r := Patch(b, at, bytes);
            r[..at] == b[..at] && r[at..at + |bytes|] == bytes && r[at + |bytes|..] == b[at + |bytes|..]
  {}

  /** A patch inside the middle of three parts. */
  lemma PatchMiddle(pre: seq<u8>, mid: seq<u8>, post: seq<u8>, at: nat, bytes: seq<u8>)
    requires at + |bytes| <= |mid|
    ensures Patch(pre + mid + post, |pre| + at, bytes) == pre + Patch(mid, at, bytes) + post
  {
    var b := pre + mid + post;
    assert b[..|pre| + at] == pre + mid[..at];
    assert b[|pre| + at + |bytes|..] == mid[at + |bytes|..] + post;
  }

  /** A record with its length field rewritten, cut to that length or followed by more bytes. */
  lemma Relength(x: seq<u8>, r: Record, n: nat, rest: seq<u8>)
    requires ReadRecord(x) == Some(r) && |x| == r.recLen && 8 <= n < U16 && n == |rest|
    requires |rest| >= 8 && rest[..4] == x[..4] && rest[4..6] == ToLe(n, 2)
    requires var m := if r.entry.Some? then 8 + |r.entry.value.name| else 8;
             m <= |rest| && m <= |x| && rest[6..m] == x[6..m]
    ensures ReadRecord(rest) == Some(Record(n, r.entry))
  {
    Powers();
    LeRoundTrip(n, 2);
    var m := if r.entry.Some? then 8 + |r.entry.value.name| else 8;
    assert rest[6] == rest[6..m][0] == x[6] && rest[7] == rest[6..m][1] == x[7];
    if r.entry.Some? {
      assert rest[8..m] == rest[6..m][2..] == x[6..m][2..] == x[8..m];
    }
  }

  // ----- Insertion

  /** What insertion writes over the bytes of one record. */
  function InsertBytes(x: seq<u8>, r: Record, e: Entry): (y: seq<u8>)
    requires ReadRecord(x) == Some(r) && |x| == r.recLen && RecordOk(r) && ValidEntry(e)
    requires HasRoom(r, MinSize(|e.name|))
    ensures |y| == |x|
  {
    var keep := Used(r);
    var resized := Patch(x, 4, ToLe(if r.entry.Some? then keep else r.recLen, 2));
    Patch(resized, keep, EntryBytes(r.recLen - keep, e))
  }

  lemma Shrunk(x: seq<u8>, r: Record, keep: nat)
    requires ReadRecord(x) == Some(r) && |x| == r.recLen && r.entry.Some? && 8 + |r.entry.value.name| <= keep <= |x|
    ensures ReadRecord(Patch(x, 4, ToLe(keep, 2))[..keep]) == Some(Record(keep, r.entry))
  {
    hide ToLe;
    var head := Patch(x, 4, ToLe(keep, 2))[..keep];
    var m := 8 + |r.entry.value.name|;
    assert head[..4] == x[..4] && head[4..6] == ToLe(keep, 2);
    assert head[6..m] == x[6..m];
    Relength(x, r, keep, head);
  }

  lemma InsertBytesMeaning(x: seq<u8>, r: Record, e: Entry)
    requires ReadRecord(x) == Some(r) && |x| == r.recLen && RecordOk(r) && ValidEntry(e)
    requires HasRoom(r, MinSize(|e.name|))
    ensures Parse(InsertBytes(x, r, e)) == Some(Middle(r, e))
  {
    hide EntryBytes, ToLe, Parse, MinSize;
    var keep := Used(r);
    var bytes := EntryBytes(r.recLen - keep, e);
    var y := InsertBytes(x, r, e);
    EntryReads(r.recLen - keep, e);
    ParseOne(bytes);
    if r.entry.None? {
      assert y == bytes;
    } else {
      var head := Patch(x, 4, ToLe(keep, 2))[..keep];
      Shrunk(x, r, keep);
      hide ReadRecord;
      ParseOne(head);
      assert y == head + bytes;
      ParseConcat(head, bytes);
      assert Middle(r, e) == [Record(keep, r.entry)] + [Record(r.recLen - keep, Some(e))];
    }
  }

  // ----- Removal

  /** What removal writes over the bytes of two adjacent records. */
  function MergeBytes(x: seq<u8>, p: Record, r: Record): (y: seq<u8>)
    requires |x| == p.recLen + r.recLen < U16 && p.recLen >= 8 && r.recLen >= 8
    ensures |y| == |x|
  {
    Patch(Patch(x, 4, ToLe(p.recLen + r.recLen, 2)), p.recLen, Zeros(4))
  }

  lemma TakeSlice(x: seq<u8>, n: nat, lo: nat, hi: nat)
    requires lo <= hi <= n <= |x|
    ensures x[..n][lo..hi] == x[lo..hi]
  {}

  /** Outside the two patches a merged record reads as before. */
  lemma MergedFields(x: seq<u8>, at: nat, m: nat, len: seq<u8>)
    requires |len| == 2 && 8 <= m <= at && at + 4 <= |x|
    ensures var y := Patch(Patch(x, 4, len), at, Zeros(4));
            |y| == |x| && y[..4] == x[..4] && y[4..6] == len && y[6..m] == x[6..m]
  {
    var resized := Patch(x, 4, len);
    PatchFacts(x, 4, len);
    PatchFacts(resized, at, Zeros(4));
    var y := Patch(resized, at, Zeros(4));
    hide Patch, Zeros;
    forall i | 0 <= i < at
      ensures y[i] == resized[i]
    {
      assert y[i] == y[..at][i] && resized[i] == resized[..at][i];
    }
    forall i | 6 <= i < at
      ensures resized[i] == x[i]
    {
      assert resized[i] == resized[6..][i - 6] && x[i] == x[6..][i - 6];
    }
    assert resized[..4] == x[..4] && resized[4..6] == len;
    assert y[..4] == resized[..4];
    assert y[4..6] == resized[4..6];
    assert y[6..m] == x[6..m];
  }

  lemma MergeBytesMeaning(x: seq<u8>, p: Record, r: Record)
    requires |x| == p.recLen + r.recLen < U16 && r.recLen >= 8 && ReadRecord(x[..p.recLen]) == Some(p)
    ensures Parse(MergeBytes(x, p, r)) == Some([Record(p.recLen + r.recLen, p.entry)])
  {
    var y, head := MergeBytes(x, p, r), x[..p.recLen];
    var m := if p.entry.Some? then 8 + |p.entry.value.name| else 8;
    MergedFields(x, p.recLen, m, ToLe(|x|, 2));
    hide ToLe, Patch, Zeros, Parse;
    TakeSlice(x, p.recLen, 0, 4);
    TakeSlice(x, p.recLen, 6, m);
    Relength(head, p, |x|, y);
    hide ReadRecord;
    ParseOne(y);
  }

  lemma UnusedBytes(x: seq<u8>, r: Record)
    requires ReadRecord(x) == Some(r) && |x| == r.recLen
    ensures Parse(Patch(x, 0, Zeros(4))) == Some([Record(r.recLen, None)])
  {
    var y := Patch(x, 0, Zeros(4));
    assert y[..4] == Zeros(4) == [0, 0, 0, 0] && y[4..6] == x[4..6];
    ZeroInode();
    ParseOne(y);
  }

  lemma ZeroInode()
    ensures FromLe([0, 0, 0, 0]) == 0
  {
    Powers();
    LeRoundTrip(0, 4);
    assert ToLe(0, 4) == [0, 0, 0, 0];
  }
}
