/** The records of one directory block, below the level of bytes: slots, insertion, packing and leaf splits. */
module DirRecords {
  import opened Options
  import opened Bytes

  type Name = seq<u8>

  const DOT: Name := [46]
  const DOT_DOT: Name := [46, 46]

  /** Names are 1 to 255 bytes without a null byte or a path separator. */
  predicate ValidName(name: Name) {
    0 < |name| <= 255 && forall i :: 0 <= i < |name| ==> name[i] != 0 && name[i] != 47
  }

  datatype Entry = Entry(inode: nat, name: Name, fileType: nat)

  predicate ValidEntry(e: Entry) {
    0 < e.inode < U32 && ValidName(e.name) && 1 <= e.fileType <= 7
  }

  /** A record is live exactly when its inode is not zero; an unused record has only a length. */
  datatype Record = Record(recLen: nat, entry: Option<Entry>)

  /** Space a name needs: an 8-byte header and the name, rounded up to 4. */
  function MinSize(nameLen: nat): (size: nat)
    ensures 8 + nameLen <= size <= 8 + nameLen + 3 && size % 4 == 0
  {
    (nameLen + 11) / 4 * 4
  }

  function Used(r: Record): nat {
    if r.entry.None? then 0 else MinSize(|r.entry.value.name|)
  }

  predicate RecordOk(r: Record) {
    8 <= r.recLen < U16 && Used(r) <= r.recLen && (r.entry.Some? ==> ValidEntry(r.entry.value))
  }

  function TotalLen(recs: seq<Record>): (n: nat) {
    if recs == [] then 0 else recs[0].recLen + TotalLen(recs[1..])
  }

  /** Records tile the usable area of a block. */
  ghost predicate Tiles(recs: seq<Record>, usable: nat) {
    TotalLen(recs) == usable && forall i :: 0 <= i < |recs| ==> RecordOk(recs[i])
  }

  function Live(recs: seq<Record>): seq<Entry> {
    if recs == [] then []
    else (if recs[0].entry.Some? then [recs[0].entry.value] else []) + Live(recs[1..])
  }

  function SizeOf(entries: seq<Entry>): nat {
    if entries == [] then 0 else MinSize(|entries[0].name|) + SizeOf(entries[1..])
  }

  // ----- Concatenation

  lemma {:induction false} TotalLenConcat(a: seq<Record>, b: seq<Record>)
    ensures TotalLen(a + b) == TotalLen(a) + TotalLen(b)
  {
    if a == [] { assert a + b == b; }
    else {
      assert (a + b)[1..] == a[1..] + b;
      TotalLenConcat(a[1..], b);
    }
  }

  lemma {:induction false} LiveConcat(a: seq<Record>, b: seq<Record>)
    ensures Live(a + b) == Live(a) + Live(b)
  {
    if a == [] { assert a + b == b; }
    else {
      assert (a + b)[1..] == a[1..] + b && (a + b)[0] == a[0];
      LiveConcat(a[1..], b);
      var head := LiveOf(a[0]);
      assert Live(a + b) == head + (Live(a[1..]) + Live(b));
      assert Live(a) == head + Live(a[1..]);
      assert head + (Live(a[1..]) + Live(b)) == (head + Live(a[1..])) + Live(b);
    }
  }

  lemma {:induction false} SizeConcat(a: seq<Entry>, b: seq<Entry>)
    ensures SizeOf(a + b) == SizeOf(a) + SizeOf(b)
  {
    if a == [] { assert a + b == b; }
    else {
      assert (a + b)[1..] == a[1..] + b;
      SizeConcat(a[1..], b);
    }
  }

  lemma {:induction false} LiveFits(recs: seq<Record>)
    requires forall i :: 0 <= i < |recs| ==> RecordOk(recs[i])
    ensures SizeOf(Live(recs)) <= TotalLen(recs)
    ensures forall e :: e in Live(recs) ==> ValidEntry(e)
  {
    if recs != [] {
      LiveFits(recs[1..]);
      var head := if recs[0].entry.Some? then [recs[0].entry.value] else [];
      SizeConcat(head, Live(recs[1..]));
      assert SizeOf(head) == Used(recs[0]);
    }
  }

  // ----- Names

  predicate Named(r: Record, name: Name) {
    r.entry.Some? && r.entry.value.name == name
  }

  ghost predicate NoneNamed(recs: seq<Record>, name: Name) {
    forall i :: 0 <= i < |recs| ==> !Named(recs[i], name)
  }

  ghost predicate HasName(s: seq<Entry>, name: Name) {
    exists e :: e in s && e.name == name
  }

  lemma {:induction false} LiveNamed(recs: seq<Record>, name: Name)
    ensures HasName(Live(recs), name) <==> !NoneNamed(recs, name)
  {
    if recs != [] {
      LiveNamed(recs[1..], name);
      assert Live(recs) == LiveOf(recs[0]) + Live(recs[1..]);
      if HasName(Live(recs), name) {
        var e :| e in Live(recs) && e.name == name;
        if e in Live(recs[1..]) {
          assert HasName(Live(recs[1..]), name);
          var i :| 0 <= i < |recs[1..]| && Named(recs[1..][i], name);
          assert Named(recs[i + 1], name);
        } else {
          assert Named(recs[0], name);
        }
      }
      if !NoneNamed(recs, name) {
        var i :| 0 <= i < |recs| && Named(recs[i], name);
        if i == 0 {
          assert recs[0].entry.value in Live(recs);
        } else {
          assert recs[1..][i - 1] == recs[i];
          var e :| e in Live(recs[1..]) && e.name == name;
          assert e in Live(recs);
        }
      }
    }
  }

  // ----- Insertion into a free slot

  /** Bytes of a record beyond what its entry needs. */
  ghost function Spare(r: Record): int {
    if r.entry.Some? then r.recLen - MinSize(|r.entry.value.name|) else r.recLen
  }

  predicate HasRoom(r: Record, need: nat) {
    r.recLen >= Used(r) + need
  }

  lemma RoomIsSpare(r: Record, need: nat)
    ensures HasRoom(r, need) <==> Spare(r) >= need
  {}

  /** Splits record `i`, or takes it over when it is unused. */
  function InsertAt(recs: seq<Record>, i: nat, e: Entry): seq<Record>
    requires i < |recs| && HasRoom(recs[i], MinSize(|e.name|))
  {
    recs[..i] + Middle(recs[i], e) + recs[i + 1..]
  }

  function LiveOf(r: Record): seq<Entry> {
    if r.entry.Some? then [r.entry.value] else []
  }

  lemma One(r: Record)
    ensures TotalLen([r]) == r.recLen && Live([r]) == LiveOf(r)
  {
    assert [r][1..] == [];
    assert Live([r]) == LiveOf(r) + Live([]);
  }

  /** A block with the record between `a` and `b` singled out. */
  lemma Around(a: seq<Record>, mid: seq<Record>, b: seq<Record>)
    ensures TotalLen(a + mid + b) == TotalLen(a) + TotalLen(mid) + TotalLen(b)
    ensures Live(a + mid + b) == Live(a) + Live(mid) + Live(b)
  {
    TotalLenConcat(a + mid, b); TotalLenConcat(a, mid);
    LiveConcat(a + mid, b); LiveConcat(a, mid);
  }

  function Middle(r: Record, e: Entry): (mid: seq<Record>)
    requires HasRoom(r, MinSize(|e.name|))
    ensures RecordOk(r) && ValidEntry(e) ==> forall x :: x in mid ==> RecordOk(x)
  {
    if r.entry.None? then [Record(r.recLen, Some(e))]
    else [Record(Used(r), r.entry), Record(r.recLen - Used(r), Some(e))]
  }

  lemma MiddleMeaning(r: Record, e: Entry)
    requires RecordOk(r) && HasRoom(r, MinSize(|e.name|))
    ensures TotalLen(Middle(r, e)) == r.recLen && Live(Middle(r, e)) == LiveOf(r) + [e]
  {
    if r.entry.None? {
      One(Record(r.recLen, Some(e)));
    } else {
      var x, y := Record(Used(r), r.entry), Record(r.recLen - Used(r), Some(e));
      One(x); One(y);
      TotalLenConcat([x], [y]);
      LiveConcat([x], [y]);
      assert Middle(r, e) == [x] + [y];
    }
  }

  /** `after` is `before` with `e` inserted somewhere. */
  ghost predicate OneInserted(before: seq<Entry>, after: seq<Entry>, e: Entry) {
    exists k :: 0 <= k <= |before| && after == before[..k] + [e] + before[k..]
  }

  lemma InsertedBetween(p: seq<Entry>, q: seq<Entry>, e: Entry)
    ensures OneInserted(p + q, p + [e] + q, e)
  {
    assert (p + q)[..|p|] == p && (p + q)[|p|..] == q;
  }

  lemma OneMore(before: seq<Entry>, after: seq<Entry>, e: Entry)
    requires OneInserted(before, after, e)
    ensures multiset(after) == multiset(before) + multiset{e}
  {
    var k :| 0 <= k <= |before| && after == before[..k] + [e] + before[k..];
    assert before == before[..k] + before[k..];
  }

  /** Insertion keeps the tiling and adds exactly the one entry. */
  lemma {:induction false} InsertAtMeaning(recs: seq<Record>, i: nat, e: Entry, usable: nat)
    requires Tiles(recs, usable) && i < |recs| && HasRoom(recs[i], MinSize(|e.name|)) && ValidEntry(e)
    ensures Tiles(InsertAt(recs, i, e), usable)
    ensures OneInserted(Live(recs), Live(InsertAt(recs, i, e)), e)
  {
    var a, r, b := recs[..i], recs[i], recs[i + 1..];
    var mid := Middle(r, e);
    assert recs == a + [r] + b;
    assert RecordOk(r);
    MiddleMeaning(r, e);
    hide RecordOk, HasRoom, MinSize, Used, Middle, ValidEntry, TotalLen, Live, OneInserted;
    assert forall x :: x in a || x in b ==> x in recs;
    Around(a, [r], b);
    Around(a, mid, b);
    One(r);
    InsertedBetween(Live(a) + LiveOf(r), Live(b), e);
    assert Live(a) + (LiveOf(r) + [e]) + Live(b) == Live(a) + LiveOf(r) + [e] + Live(b);
  }

  // ----- Removal

  /** Merges record `i` into the one before it, or marks it unused when it is the first. */
  function RemoveAt(recs: seq<Record>, i: nat): seq<Record>
    requires i < |recs|
  {
    if i == 0 then [Record(recs[0].recLen, None)] + recs[1..]
    else recs[..i - 1] + [Record(recs[i - 1].recLen + recs[i].recLen, recs[i - 1].entry)] + recs[i + 1..]
  }

  /** Removal keeps the tiling and takes exactly that one entry away. */
  lemma {:induction false} RemoveAtMeaning(recs: seq<Record>, i: nat, usable: nat)
    requires Tiles(recs, usable) && i < |recs| && recs[i].entry.Some?
    requires i > 0 ==> recs[i - 1].recLen + recs[i].recLen < U16
    ensures Tiles(RemoveAt(recs, i), usable)
    ensures Live(recs) == Live(recs[..i]) + [recs[i].entry.value] + Live(recs[i + 1..])
    ensures Live(RemoveAt(recs, i)) == Live(recs[..i]) + Live(recs[i + 1..])
  {
    var r, b := recs[i], recs[i + 1..];
    assert recs == recs[..i] + [r] + b;
    hide Live, TotalLen;
    Replaced(recs[..i], r, b);
    if i == 0 {
      RemoveFirstMeaning(recs, usable);
    } else {
      MergeMeaning(recs, i, usable);
    }
  }

  lemma RemoveFirstMeaning(recs: seq<Record>, usable: nat)
    requires Tiles(recs, usable) && recs != []
    ensures Tiles(RemoveAt(recs, 0), usable) && Live(RemoveAt(recs, 0)) == Live(recs[..0]) + Live(recs[1..])
  {
    var r, x, b := recs[0], Record(recs[0].recLen, None), recs[1..];
    assert RecordOk(r);
    assert RecordOk(x);
    assert [] + [x] + b == RemoveAt(recs, 0) && [] + [r] + b == recs && recs[..0] == [];
    hide RecordOk, Live, TotalLen, RemoveAt;
    AllOk(recs, [], x, b);
    Replaced([], x, b);
    Replaced([], r, b);
  }

  lemma MergeMeaning(recs: seq<Record>, i: nat, usable: nat)
    requires Tiles(recs, usable) && 0 < i < |recs| && recs[i - 1].recLen + recs[i].recLen < U16
    ensures Tiles(RemoveAt(recs, i), usable) && Live(RemoveAt(recs, i)) == Live(recs[..i]) + Live(recs[i + 1..])
  {
    var a, p, r, b := recs[..i - 1], recs[i - 1], recs[i], recs[i + 1..];
    var x := Record(p.recLen + r.recLen, p.entry);
    assert RecordOk(p) && RecordOk(r);
    assert RecordOk(x);
    assert RemoveAt(recs, i) == a + [x] + b && recs[..i] == a + [p] && recs == (a + [p]) + [r] + b;
    hide RecordOk, Live, TotalLen, RemoveAt;
    AllOk(recs, a, x, b);
    Replaced(a, x, b);
    Replaced(a + [p], r, b);
    One(p);
    LiveConcat(a, [p]);
    TotalLenConcat(a, [p]);
  }

  lemma AllOk(recs: seq<Record>, a: seq<Record>, x: Record, b: seq<Record>)
    requires forall i :: 0 <= i < |recs| ==> RecordOk(recs[i])
    requires a <= recs && |b| <= |recs| && b == recs[|recs| - |b|..] && RecordOk(x)
    ensures forall i :: 0 <= i < |a + [x] + b| ==> RecordOk((a + [x] + b)[i])
  {
    hide RecordOk;
    forall i | 0 <= i < |a + [x] + b|
      ensures RecordOk((a + [x] + b)[i])
    {
      if i < |a| { assert (a + [x] + b)[i] == recs[i]; }
      else if i > |a| { assert (a + [x] + b)[i] == recs[|recs| - |b| + (i - |a| - 1)]; }
    }
  }

  lemma Replaced(a: seq<Record>, x: Record, b: seq<Record>)
    ensures TotalLen(a + [x] + b) == TotalLen(a) + x.recLen + TotalLen(b)
    ensures Live(a + [x] + b) == Live(a) + LiveOf(x) + Live(b)
    ensures a == [] ==> TotalLen(a) == 0 && Live(a) == []
  {
    One(x);
    Around(a, [x], b);
  }

  // ----- Packing

  /** Minimal records, the last one stretched to the end; absent when the entries do not fit or there are none. */
  function Pack(entries: seq<Entry>, usable: nat): (r: Option<seq<Record>>)
    requires usable < U16
    ensures r.Some? <==> entries != [] && SizeOf(entries) <= usable
    ensures r.Some? ==> Live(r.value) == entries && TotalLen(r.value) == usable
    ensures r.Some? && (forall e :: e in entries ==> ValidEntry(e)) ==> Tiles(r.value, usable)
  {
    if entries == [] then None
    else
      var size := MinSize(|entries[0].name|);
      if usable < size then None
      else if |entries| == 1 then
        assert entries == [entries[0]];
        var r := [Record(usable, Some(entries[0]))];
        assert Live(r) == entries;
        Some(r)
      else
        var rest := Pack(entries[1..], usable - size);
        if rest.None? then None
        else
          var r := [Record(size, Some(entries[0]))] + rest.value;
          assert r[1..] == rest.value;
          assert entries == [entries[0]] + entries[1..];
          Some(r)
  }

  // ----- Sorting and splitting an overflowing leaf

  /** Hashes are even 32-bit values. */
  ghost predicate HashOk(hash: Name -> nat) {
    forall n :: HashedOk(hash, n)
  }

  predicate HashedOk(hash: Name -> nat, n: Name) {
    hash(n) % 2 == 0 && hash(n) < U32
  }

  predicate NameAtMost(a: Name, b: Name) {
    if a == [] then true
    else if b == [] then false
    else a[0] < b[0] || (a[0] == b[0] && NameAtMost(a[1..], b[1..]))
  }

  /** Byte by byte: `a` is a prefix of `b`, or has the smaller byte where they first differ. */
  ghost predicate Alphabetical(a: Name, b: Name) {
    a <= b || exists k :: 0 <= k < |a| && k < |b| && a[..k] == b[..k] && a[k] < b[k]
  }

  lemma {:induction false} NamesAreAlphabetical(a: Name, b: Name)
    ensures NameAtMost(a, b) <==> Alphabetical(a, b)
  {
    if a != [] && b != [] {
      if a[0] == b[0] {
        NamesAreAlphabetical(a[1..], b[1..]);
        TailAlphabetical(a, b);
      } else {
        assert a[..0] == b[..0];
        assert forall k :: 0 < k < |a| && k < |b| ==> a[..k][0] != b[..k][0];
      }
    }
  }

  lemma TailAlphabetical(a: Name, b: Name)
    requires a != [] && b != [] && a[0] == b[0]
    ensures Alphabetical(a, b) <==> Alphabetical(a[1..], b[1..])
  {
    assert a == [a[0]] + a[1..] && b == [b[0]] + b[1..];
    if k :| 0 <= k < |a| && k < |b| && a[..k] == b[..k] && a[k] < b[k] {
      assert a[1..][..k - 1] == a[..k][1..] == b[..k][1..] == b[1..][..k - 1];
      assert a[1..][k - 1] < b[1..][k - 1];
    }
    if k :| 0 <= k < |a[1..]| && k < |b[1..]| && a[1..][..k] == b[1..][..k] && a[1..][k] < b[1..][k] {
      assert a[..k + 1] == [a[0]] + a[1..][..k] == b[..k + 1];
      assert a[k + 1] < b[k + 1];
    }
  }

  predicate SortsBefore(hash: Name -> nat, a: Entry, b: Entry) {
    hash(a.name) < hash(b.name) || (hash(a.name) == hash(b.name) && NameAtMost(a.name, b.name))
  }

  ghost predicate HashSorted(hash: Name -> nat, s: seq<Entry>) {
    forall i, j :: 0 <= i < j < |s| ==> hash(s[i].name) <= hash(s[j].name)
  }

  /** By hash, and by name where hashes are equal. */
  ghost predicate InOrder(hash: Name -> nat, s: seq<Entry>) {
    forall i, j :: 0 <= i < j < |s| ==> SortsBefore(hash, s[i], s[j])
  }

  lemma {:induction false} NamesTransitive(a: Name, b: Name, c: Name)
    requires NameAtMost(a, b) && NameAtMost(b, c)
    ensures NameAtMost(a, c)
  {
    if a != [] && a[0] == b[0] == c[0] { NamesTransitive(a[1..], b[1..], c[1..]); }
  }

  lemma {:induction false} NamesTotal(a: Name, b: Name)
    ensures NameAtMost(a, b) || NameAtMost(b, a)
  {
    if a != [] && b != [] && a[0] == b[0] { NamesTotal(a[1..], b[1..]); }
  }

  lemma BeforeTransitive(hash: Name -> nat, a: Entry, b: Entry, c: Entry)
    requires SortsBefore(hash, a, b) && SortsBefore(hash, b, c)
    ensures SortsBefore(hash, a, c)
  {
    hide NameAtMost;
    if hash(a.name) == hash(c.name) { NamesTransitive(a.name, b.name, c.name); }
  }

  function InsertSorted(hash: Name -> nat, e: Entry, s: seq<Entry>): (r: seq<Entry>)
    ensures multiset(r) == multiset(s) + multiset{e}
    ensures SizeOf(r) == SizeOf(s) + MinSize(|e.name|)
    ensures |r| == |s| + 1
  {
    if s == [] || SortsBefore(hash, e, s[0]) then
      assert ([e] + s)[1..] == s;
      [e] + s
    else
      var rest := InsertSorted(hash, e, s[1..]);
      assert s == [s[0]] + s[1..] && ([s[0]] + rest)[1..] == rest;
      [s[0]] + rest
  }

  lemma {:induction false} InsertSortedSorts(hash: Name -> nat, e: Entry, s: seq<Entry>)
    requires InOrder(hash, s)
    ensures InOrder(hash, InsertSorted(hash, e, s))
  {
    if s == [] {
    } else if SortsBefore(hash, e, s[0]) {
      forall j | 0 < j < |s|
        ensures SortsBefore(hash, e, s[j])
      {
        BeforeTransitive(hash, e, s[0], s[j]);
      }
    } else {
      NamesTotal(e.name, s[0].name);
      InsertSortedSorts(hash, e, s[1..]);
      var r := InsertSorted(hash, e, s[1..]);
      assert InsertSorted(hash, e, s) == [s[0]] + r;
      assert SortsBefore(hash, s[0], e);
      hide InsertSorted, SizeOf, NameAtMost, SortsBefore;
      forall j | 0 <= j < |r|
        ensures SortsBefore(hash, s[0], r[j])
      {
        assert r[j] in multiset(r);
        assert r[j] == e || r[j] in s[1..];
      }
    }
  }

  /** The order in which an overflowing leaf is redistributed: by hash, then by name. */
  function SortByHash(hash: Name -> nat, s: seq<Entry>): (r: seq<Entry>)
    ensures multiset(r) == multiset(s) && SizeOf(r) == SizeOf(s) && |r| == |s|
    ensures InOrder(hash, r) && HashSorted(hash, r)
  {
    if s == [] then []
    else
      assert s == [s[0]] + s[1..];
      InsertSortedSorts(hash, s[0], SortByHash(hash, s[1..]));
      InsertSorted(hash, s[0], SortByHash(hash, s[1..]))
  }

  datatype SplitChoice = Fits | NoSpace | Split(index: nat, separator: nat)

  /** Where to cut a sorted list, and the separator: odd when equal hashes fall on both sides. */
  method ChooseSplit(hash: Name -> nat, entries: seq<Entry>, usable: nat) returns (r: SplitChoice)
    requires HashOk(hash)
    ensures r.Fits? <==> SizeOf(entries) <= usable
    ensures r.NoSpace? <==> SizeOf(entries) > usable && MinSize(|entries[0].name|) > usable / 2
    ensures r.Split? ==> 0 < r.index < |entries|
                         && SizeOf(entries[..r.index]) <= usable / 2 < SizeOf(entries[..r.index + 1])
    ensures r.Split? ==> r.separator == SeparatorAt(hash, entries, r.index)
  {
    var total := 0;
    for k := 0 to |entries|
      invariant total == SizeOf(entries[..k])
    {
      SizeStep(entries, k);
      total := total + MinSize(|entries[k].name|);
    }
    assert entries[..|entries|] == entries;
    if total <= usable {
      return Fits;
    }
    var half := usable / 2;
    var left, index := 0, 0;
    while index < |entries|
      invariant 0 <= index <= |entries| && left == SizeOf(entries[..index]) <= half
    {
      SizeStep(entries, index);
      var next := left + MinSize(|entries[index].name|);
      if next > half {
        break;
      }
      left, index := next, index + 1;
    }
    assert entries[..|entries|] == entries;
    if index == 0 || index >= |entries| {
      assert SizeOf(entries[..1]) == MinSize(|entries[0].name|) by { SizeStep(entries, 0); }
      return NoSpace;
    }
    FirstFits(entries, index);
    var separator := hash(entries[index].name);
    assert HashedOk(hash, entries[index].name);
    if hash(entries[index - 1].name) == separator {
      if separator + 1 >= U32 {
        return NoSpace;
      }
      separator := separator + 1;
    }
    return Split(index, separator);
  }

  function SeparatorAt(hash: Name -> nat, entries: seq<Entry>, i: nat): nat
    requires 0 < i < |entries|
  {
    var h := hash(entries[i].name);
    if hash(entries[i - 1].name) == h then h + 1 else h
  }

  lemma SizeStep(entries: seq<Entry>, k: nat)
    requires k < |entries|
    ensures SizeOf(entries[..k + 1]) == SizeOf(entries[..k]) + MinSize(|entries[k].name|)
  {
    assert entries[..k + 1] == entries[..k] + [entries[k]];
    SizeConcat(entries[..k], [entries[k]]);
    assert [entries[k]][1..] == [];
  }

  lemma FirstFits(entries: seq<Entry>, index: nat)
    requires 0 < index <= |entries|
    ensures MinSize(|entries[0].name|) <= SizeOf(entries[..index])
  {
    assert entries[..index] == [entries[0]] + entries[1..index];
    SizeConcat([entries[0]], entries[1..index]);
    assert [entries[0]][1..] == [];
  }

  /** Every hash on the left is below the separator; on the right none is below it with its low bit cleared. */
  lemma SeparatorSeparates(hash: Name -> nat, entries: seq<Entry>, i: nat)
    requires HashOk(hash) && HashSorted(hash, entries) && 0 < i < |entries|
    ensures forall k :: 0 <= k < i ==> hash(entries[k].name) < SeparatorAt(hash, entries, i)
    ensures forall k :: i <= k < |entries| ==> hash(entries[k].name) >= Floor(SeparatorAt(hash, entries, i))
  {
    assert HashedOk(hash, entries[i].name);
  }

  /** A separator with its low bit cleared. */
  function Floor(separator: nat): nat { separator - separator % 2 }

  /** From this many usable bytes on, both halves of an overfull leaf always fit. */
  const SPLIT_FITS: nat := 1048

  /** The entries of a full leaf together with one more. */
  ghost predicate Overfull(entries: seq<Entry>, usable: nat) {
    && usable < SizeOf(entries) <= usable + 264
    && forall k :: 0 <= k < |entries| ==> 0 < |entries[k].name| <= 255
  }

  /** Where the split falls: the last entry up to which the left half stays within half a block. */
  ghost predicate IsCut(entries: seq<Entry>, i: int, usable: nat) {
    0 < i < |entries| && SizeOf(entries[..i]) <= usable / 2 < SizeOf(entries[..i + 1])
  }

  lemma {:induction false} SizeIsMultiple(entries: seq<Entry>)
    ensures SizeOf(entries) % 4 == 0
  {
    if entries != [] { SizeIsMultiple(entries[1..]); }
  }

  /** Splitting an overfull leaf of at least 1048 usable bytes always gives two halves that fit. */
  lemma SplitHalvesFit(entries: seq<Entry>, i: nat, usable: nat)
    requires usable >= SPLIT_FITS && Overfull(entries, usable) && IsCut(entries, i, usable)
    ensures SizeOf(entries[..i]) <= usable && SizeOf(entries[i..]) <= usable
  {
    assert entries == entries[..i] + entries[i..];
    SizeConcat(entries[..i], entries[i..]);
    SizeStep(entries, i);
    SizeIsMultiple(entries[..i + 1]);
    SizeIsMultiple(entries[i..]);
  }

  /** A leaf that overflows by one entry always has a cut when half a block holds a record of the largest size. */
  lemma SplitExists(entries: seq<Entry>, usable: nat) returns (i: nat)
    requires usable >= 528 && Overfull(entries, usable)
    ensures IsCut(entries, i, usable)
  {
    assert entries == entries[..1] + entries[1..] && entries[..1] == [entries[0]] && [entries[0]][1..] == [];
    SizeConcat(entries[..1], entries[1..]);
    assert entries[..|entries|] == entries;
    i := 1;
    while SizeOf(entries[..i + 1]) <= usable / 2
      invariant 0 < i < |entries| && SizeOf(entries[..i]) <= usable / 2
      decreases |entries| - i
    {
      i := i + 1;
    }
  }

  // ----- Leaves whose split overflows

  /** An entry whose record takes `size` bytes; different letters give different names. */
  function Filler(letter: u8, size: nat): (e: Entry)
    requires 12 <= size <= 264 && size % 4 == 0
    ensures 0 < |e.name| <= 255 && MinSize(|e.name|) == size && e.name[0] == letter
    ensures letter != 0 && letter != 47 ==> ValidEntry(e)
  {
    Entry(1, seq(if size == 264 then 255 else size - 8, _ => letter), 1)
  }

  /** About a third of what is left of a block beside the first filler. */
  function Part(usable: nat): int { (usable / 4 * 4 - (usable / 8 * 4 - 260)) / 12 * 4 }

  lemma FillerSizes(usable: nat)
    requires 544 <= usable < SPLIT_FITS
    ensures var left, part := usable / 8 * 4 - 260, Part(usable);
            && 12 <= left <= 260 && left % 4 == 0 && 12 <= part <= 264 && part % 4 == 0
            && 12 <= usable / 4 * 4 - left - 2 * part <= 264 && (usable / 4 * 4 - left - 2 * part) % 4 == 0
  {
    var a, b := usable / 4, usable / 8;
    assert 2 * b <= a <= 2 * b + 1 && 68 <= b <= 130;
    var rest := a - b + 65;
    assert (usable / 4 * 4 - (usable / 8 * 4 - 260)) == 4 * rest;
    assert 4 * rest / 12 == rest / 3;
  }

  /** A leaf that overflows by one entry and cannot be split in two: the right half does not fit. */
  function Unsplittable(usable: nat): (r: seq<Entry>)
    requires 544 <= usable < SPLIT_FITS
    ensures |r| == 5 && forall k :: 0 <= k < 5 ==> ValidEntry(r[k])
  {
    FillerSizes(usable);
    var left := usable / 8 * 4 - 260;
    var part := Part(usable);
    [Filler(97, left), Filler(98, 264), Filler(99, part), Filler(100, part),
     Filler(101, usable / 4 * 4 - left - 2 * part)]
  }

  lemma UnsplittableOverflows(usable: nat)
    requires 544 <= usable < SPLIT_FITS
    ensures var r := Unsplittable(usable);
            && Overfull(r, usable) && IsCut(r, 1, usable) && SizeOf(r[1..]) > usable
            && forall j, k :: 0 <= j < k < |r| ==> r[j].name != r[k].name
  {
    hide Filler, Part;
    FillerSizes(usable);
    FiveSizes(Unsplittable(usable));
  }

  lemma FiveSizes(r: seq<Entry>)
    requires |r| == 5
    ensures SizeOf(r[..1]) == MinSize(|r[0].name|)
    ensures SizeOf(r[..2]) == MinSize(|r[0].name|) + MinSize(|r[1].name|)
    ensures SizeOf(r[1..]) == MinSize(|r[1].name|) + MinSize(|r[2].name|) + MinSize(|r[3].name|) + MinSize(|r[4].name|)
    ensures SizeOf(r) == MinSize(|r[0].name|) + SizeOf(r[1..])
  {
    assert r[..0] == [];
    SizeStep(r, 0);
    SizeStep(r, 1);
    SizeStep(r, 2);
    SizeStep(r, 3);
    SizeStep(r, 4);
    assert r == r[..5];
  }

  /** Both halves of every overfull leaf fit exactly from 1048 usable bytes on. */
  lemma SplitThreshold(usable: nat)
    requires usable >= 544
    ensures usable >= SPLIT_FITS <==>
            forall entries, i: nat :: Overfull(entries, usable) && IsCut(entries, i, usable) ==>
              SizeOf(entries[..i]) <= usable && SizeOf(entries[i..]) <= usable
  {
    if usable >= SPLIT_FITS {
      forall entries, i: nat | Overfull(entries, usable) && IsCut(entries, i, usable)
        ensures SizeOf(entries[..i]) <= usable && SizeOf(entries[i..]) <= usable
      {
        SplitHalvesFit(entries, i, usable);
      }
    } else {
      UnsplittableOverflows(usable);
      var r := Unsplittable(usable);
      assert IsCut(r, 1, usable) && SizeOf(r[1..]) > usable;
    }
  }
}
