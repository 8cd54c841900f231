/** Byte-range record locks of one lock target: the entry vector and its four operations.

    The vector is specified by the bytes it covers: `Holds(m, o, b, t)` says that owner `o`
    holds byte `b` with type `t`. Every operation is proved to change that relation in exactly
    the requested way, and to keep the vector in the one form that represents it.
 */
module RecordLock {
  import opened Options

  datatype LockType = Read | Write

  datatype Owner = Posix(pid: nat) | Ofd(description: nat)

  /** Half-open byte range `[start, end)` held by `owner`. */
  datatype Entry = Entry(owner: Owner, start: int, end: int, lockType: LockType)

  datatype Errno = EINVAL | EAGAIN

  datatype Outcome = Done | Failed(errno: Errno)

  predicate RangesOverlap(aStart: int, aEnd: int, bStart: int, bEnd: int) {
    aStart < bEnd && bStart < aEnd
  }

  predicate TypesConflict(a: LockType, b: LockType) {
    !(a.Read? && b.Read?)
  }

  predicate ValidRange(start: int, end: int) {
    0 <= start < end
  }

  // ----- What a vector means, byte by byte

  predicate Covers(e: Entry, o: Owner, b: int, t: LockType) {
    e.owner == o && e.lockType == t && e.start <= b < e.end
  }

  ghost predicate Holds(m: multiset<Entry>, o: Owner, b: int, t: LockType) {
    exists e :: e in m && Covers(e, o, b, t)
  }

  ghost predicate SameHolds(m: multiset<Entry>, n: multiset<Entry>) {
    forall o, b, t :: Holds(n, o, b, t) <==> Holds(m, o, b, t)
  }

  /** `n` is `m` with the bytes `[start, end)` of `owner` set to `held`, and nothing else changed. */
  ghost predicate Rewrites(m: multiset<Entry>, n: multiset<Entry>,
                           owner: Owner, start: int, end: int, held: Option<LockType>)
  {
    forall o, b, t :: Holds(n, o, b, t) <==>
                      if o == owner && start <= b < end then held == Some(t) else Holds(m, o, b, t)
  }

  // ----- The invariant

  ghost predicate NonEmptyRanges(m: multiset<Entry>) {
    forall e :: e in m ==> ValidRange(e.start, e.end)
  }

  /** Entries of one owner and type neither overlap nor touch, and none is listed twice. */
  ghost predicate Apart(m: multiset<Entry>) {
    && (forall e :: e in m ==> m[e] == 1)
    && (forall e, f :: e in m && f in m && e != f && e.owner == f.owner && e.lockType == f.lockType ==>
                       e.end < f.start || f.end < e.start)
  }

  /** One owner holds a byte with at most one type. */
  ghost predicate OneType(m: multiset<Entry>) {
    forall o, b, t, u :: Holds(m, o, b, t) && Holds(m, o, b, u) ==> t == u
  }

  /** Two owners share a byte only as readers. */
  ghost predicate Safe(m: multiset<Entry>) {
    forall o, p, b, t, u :: o != p && Holds(m, o, b, t) && Holds(m, p, b, u) ==> t.Read? && u.Read?
  }

  ghost predicate Canonical(m: multiset<Entry>) {
    NonEmptyRanges(m) && Apart(m) && OneType(m) && Safe(m)
  }

  // ----- Conflicts

  predicate ConflictsWith(e: Entry, owner: Owner, start: int, end: int, t: LockType) {
    e.owner != owner && RangesOverlap(e.start, e.end, start, end) && TypesConflict(e.lockType, t)
  }

  predicate OwnerAtMost(a: Owner, b: Owner) {
    match (a, b)
    case (Posix(p), Posix(q)) => p <= q
    case (Posix(_), Ofd(_)) => true
    case (Ofd(_), Posix(_)) => false
    case (Ofd(p), Ofd(q)) => p <= q
  }

  /** Order of `(start, end, owner)`. */
  predicate ReportedBefore(a: Entry, b: Entry) {
    a.start < b.start || (a.start == b.start && (a.end < b.end || (a.end == b.end && OwnerAtMost(a.owner, b.owner))))
  }

  /** In the way of a request: another owner's, with a byte in common, and one of the two is a write lock. */
  ghost predicate InTheWay(e: Entry, owner: Owner, start: int, end: int, t: LockType) {
    e.owner != owner && e.start < end && start < e.end && (e.lockType.Write? || t.Write?)
  }

  /** Process owners come before open file descriptions, each by number. */
  function Rank(o: Owner): (nat, nat) {
    match o
    case Posix(pid) => (0, pid)
    case Ofd(description) => (1, description)
  }

  /** The lock in the way that starts lowest, then ends lowest, then has the first owner. */
  function Conflict(s: seq<Entry>, owner: Owner, start: int, end: int, t: LockType): (r: Option<Entry>)
    ensures r.None? ==> forall e :: e in s ==> !InTheWay(e, owner, start, end, t)
    ensures r.Some? ==> r.value in s && InTheWay(r.value, owner, start, end, t)
    ensures r.Some? ==> forall e :: e in s && InTheWay(e, owner, start, end, t) ==>
              || r.value.start < e.start || (r.value.start == e.start && r.value.end < e.end)
              || (&& r.value.start == e.start && r.value.end == e.end
                  && var a, b := Rank(r.value.owner), Rank(e.owner);
                     a.0 < b.0 || (a.0 == b.0 && a.1 <= b.1))
  {
    if s == [] then None
    else
      var rest := Conflict(s[..|s| - 1], owner, start, end, t);
      var last := s[|s| - 1];
      if !ConflictsWith(last, owner, start, end, t) then rest
      else if rest.Some? && ReportedBefore(rest.value, last) then rest
      else Some(last)
  }

  /** Another owner holds a byte of the range, and one of the two types is a write lock. */
  ghost predicate Contended(m: multiset<Entry>, owner: Owner, start: int, end: int, t: LockType) {
    exists o, b, u :: o != owner && start <= b < end && Holds(m, o, b, u) && (u.Write? || t.Write?)
  }

  /** A conflict is found exactly when the bytes are contended. */
  lemma ConflictIsByteConflict(s: seq<Entry>, owner: Owner, start: int, end: int, t: LockType)
    requires NonEmptyRanges(multiset(s)) && ValidRange(start, end)
    ensures Conflict(s, owner, start, end, t).Some? <==> Contended(multiset(s), owner, start, end, t)
  {
    var c := Conflict(s, owner, start, end, t);
    if c.Some? {
      var e := c.value;
      var b := if e.start < start then start else e.start;
      assert e in multiset(s) && Covers(e, e.owner, b, e.lockType);
      assert Holds(multiset(s), e.owner, b, e.lockType);
    } else {
      forall o, b, u | o != owner && start <= b < end && Holds(multiset(s), o, b, u)
        ensures !u.Write? && !t.Write?
      {
        var e :| e in multiset(s) && Covers(e, o, b, u);
        assert !InTheWay(e, owner, start, end, t);
      }
    }
  }

  // ----- Clearing a range

  /** `Vec::swap_remove`: the last element takes the place of the removed one. */
  function SwapRemove(s: seq<Entry>, i: nat): (r: seq<Entry>)
    requires i < |s|
    ensures |r| == |s| - 1 && r[..i] == s[..i]
    ensures multiset(r) == multiset(s) - multiset{s[i]}
  {
    var n := |s| - 1;
    assert s == s[..n] + [s[n]];
    if i == n then s[..n]
    else
      var r := s[..n][i := s[n]];
      assert r == s[..i] + [s[n]] + s[i + 1..n];
      assert s[..n] == s[..i] + [s[i]] + s[i + 1..n];
      r
  }

  predicate Affected(e: Entry, owner: Owner, start: int, end: int) {
    e.owner == owner && RangesOverlap(e.start, e.end, start, end)
  }

  ghost predicate NoneAffected(s: seq<Entry>, owner: Owner, start: int, end: int) {
    forall e :: e in s ==> !Affected(e, owner, start, end)
  }

  lemma NoneAffectedPush(s: seq<Entry>, i: nat, owner: Owner, start: int, end: int)
    requires i < |s| && NoneAffected(s[..i], owner, start, end) && !Affected(s[i], owner, start, end)
    ensures NoneAffected(s[..i + 1], owner, start, end)
  {
    assert s[..i + 1] == s[..i] + [s[i]];
  }

  /** `p` is what is left of `e` below or above `[start, end)`. */
  predicate IsPiece(p: Entry, e: Entry, start: int, end: int) {
    (e.start < start && p == e.(end := start)) || (e.end > end && p == e.(start := end))
  }

  ghost function CutBag(m: multiset<Entry>, e: Entry, start: int, end: int): multiset<Entry> {
    m - multiset{e}
      + (if e.start < start then multiset{e.(end := start)} else multiset{})
      + (if e.end > end then multiset{e.(start := end)} else multiset{})
  }

  /** Pushing what is left of `e` onto the end of the vector. */
  lemma PushPieces(m: multiset<Entry>, r: seq<Entry>, e: Entry, start: int, end: int, n: nat, s: seq<Entry>)
    requires n <= |r| && multiset(r) == m - multiset{e}
    requires s == var l := if e.start < start then r + [e.(end := start)] else r;
                  if e.end > end then l + [e.(start := end)] else l
    ensures multiset(s) == CutBag(m, e, start, end)
    ensures n <= |s| && s[..n] == r[..n]
  {}

  /** Membership after a cut; every entry is still listed once. */
  lemma InCut(m: multiset<Entry>, e: Entry, start: int, end: int, f: Entry)
    requires NonEmptyRanges(m) && Apart(m) && e in m
    requires ValidRange(start, end) && Affected(e, e.owner, start, end)
    ensures f in CutBag(m, e, start, end) <==> (f in m && f != e) || IsPiece(f, e, start, end)
    ensures f in CutBag(m, e, start, end) ==> CutBag(m, e, start, end)[f] == 1
  {
    if IsPiece(f, e, start, end) {
      assert f.owner == e.owner && f.lockType == e.lockType && f != e && !(f.end < e.start || e.end < f.start);
      assert f !in m;
    }
  }

  lemma CutApart(m: multiset<Entry>, e: Entry, start: int, end: int)
    requires NonEmptyRanges(m) && Apart(m) && e in m
    requires ValidRange(start, end) && Affected(e, e.owner, start, end)
    ensures NonEmptyRanges(CutBag(m, e, start, end)) && Apart(CutBag(m, e, start, end))
  {
    var n := CutBag(m, e, start, end);
    hide CutBag;
    forall f | f in n
      ensures (f in m && f != e) || IsPiece(f, e, start, end)
      ensures n[f] == 1 && ValidRange(f.start, f.end)
    {
      InCut(m, e, start, end, f);
    }
    assert ValidRange(e.start, e.end);
  }

  lemma CutHolds(m: multiset<Entry>, e: Entry, start: int, end: int, o: Owner, b: int, t: LockType)
    requires NonEmptyRanges(m) && Apart(m) && e in m
    requires ValidRange(start, end) && Affected(e, e.owner, start, end)
    ensures Holds(CutBag(m, e, start, end), o, b, t) ==> Holds(m, o, b, t)
    ensures Holds(m, o, b, t) && !(o == e.owner && start <= b < end) ==> Holds(CutBag(m, e, start, end), o, b, t)
  {
    var n := CutBag(m, e, start, end);
    hide CutBag, Apart, NonEmptyRanges;
    if Holds(n, o, b, t) {
      var f :| f in n && Covers(f, o, b, t);
      InCut(m, e, start, end, f);
      assert Covers(e, o, b, t) || f in m;
    }
    if Holds(m, o, b, t) && !(o == e.owner && start <= b < end) {
      var f :| f in m && Covers(f, o, b, t);
      var g := if f != e then f else if b < start then e.(end := start) else e.(start := end);
      InCut(m, e, start, end, g);
      assert g in n && Covers(g, o, b, t);
    }
  }

  /** The entries still to be cut: the loop's termination measure. */
  ghost function AffectedEntries(m: multiset<Entry>, owner: Owner, start: int, end: int): set<Entry> {
    set e | e in m && Affected(e, owner, start, end)
  }

  lemma CutShrinks(m: multiset<Entry>, e: Entry, start: int, end: int)
    requires NonEmptyRanges(m) && Apart(m) && e in m
    requires ValidRange(start, end) && Affected(e, e.owner, start, end)
    ensures AffectedEntries(CutBag(m, e, start, end), e.owner, start, end)
         == AffectedEntries(m, e.owner, start, end) - {e}
    ensures e in AffectedEntries(m, e.owner, start, end)
  {
    forall f
      ensures f in AffectedEntries(CutBag(m, e, start, end), e.owner, start, end) <==>
              f in AffectedEntries(m, e.owner, start, end) - {e}
    {
      InCut(m, e, start, end, f);
    }
  }

  /** `n` may have lost bytes of `owner` inside `[start, end)` and nothing else. */
  ghost predicate Narrows(m: multiset<Entry>, n: multiset<Entry>, owner: Owner, start: int, end: int) {
    && (forall o, b, t :: Holds(n, o, b, t) ==> Holds(m, o, b, t))
    && (forall o, b, t :: Holds(m, o, b, t) && !(o == owner && start <= b < end) ==> Holds(n, o, b, t))
  }

  lemma CutNarrows(m: multiset<Entry>, n: multiset<Entry>, e: Entry, start: int, end: int)
    requires NonEmptyRanges(n) && Apart(n) && e in n
    requires ValidRange(start, end) && Affected(e, e.owner, start, end)
    requires Narrows(m, n, e.owner, start, end)
    ensures Narrows(m, CutBag(n, e, start, end), e.owner, start, end)
  {
    forall o, b, t
      ensures Holds(CutBag(n, e, start, end), o, b, t) ==> Holds(m, o, b, t)
      ensures Holds(m, o, b, t) && !(o == e.owner && start <= b < end) ==> Holds(CutBag(n, e, start, end), o, b, t)
    {
      CutHolds(n, e, start, end, o, b, t);
    }
  }

  /** Nothing of `owner` is left in the range once no entry is affected. */
  lemma ClearedHolds(m: multiset<Entry>, s: seq<Entry>, owner: Owner, start: int, end: int)
    requires NoneAffected(s, owner, start, end)
    requires Narrows(m, multiset(s), owner, start, end)
    ensures Rewrites(m, multiset(s), owner, start, end, None)
    ensures forall e :: e in s ==> !Affected(e, owner, start, end)
  {
    forall e, b, t | e in multiset(s) && start <= b < end
      ensures !Covers(e, owner, b, t)
    {
      assert e in s && !Affected(e, owner, start, end);
    }
  }

  // ----- Coalescing

  predicate GroupLess(a: Entry, b: Entry) {
    if a.owner != b.owner then OwnerAtMost(a.owner, b.owner) else a.lockType.Read? && b.lockType.Write?
  }

  predicate SameGroup(a: Entry, b: Entry) {
    a.owner == b.owner && a.lockType == b.lockType
  }

  /** Order of `(owner, lock_type, start, end)`. */
  predicate SortsBefore(a: Entry, b: Entry) {
    GroupLess(a, b) || (SameGroup(a, b) && (a.start < b.start || (a.start == b.start && a.end <= b.end)))
  }

  ghost predicate Sorted(s: seq<Entry>) {
    forall i, j :: 0 <= i < j < |s| ==> SortsBefore(s[i], s[j])
  }

  lemma SortsTransitively(a: Entry, b: Entry, c: Entry)
    requires SortsBefore(a, b) && SortsBefore(b, c)
    ensures SortsBefore(a, c)
  {}

  function InsertSorted(e: Entry, s: seq<Entry>): (r: seq<Entry>)
    ensures multiset(r) == multiset(s) + multiset{e}
  {
    if s == [] then [e]
    else if SortsBefore(e, s[0]) then [e] + s
    else
      assert s == [s[0]] + s[1..];
      [s[0]] + InsertSorted(e, s[1..])
  }

  lemma {:induction false} InsertSortedSorts(e: Entry, s: seq<Entry>)
    requires Sorted(s)
    ensures Sorted(InsertSorted(e, s))
  {
    if s != [] && SortsBefore(e, s[0]) {
      forall j | 0 < j < |s|
        ensures SortsBefore(e, s[j])
      {
        SortsTransitively(e, s[0], s[j]);
      }
    } else if s != [] {
      InsertSortedSorts(e, s[1..]);
      var r := InsertSorted(e, s[1..]);
      forall j | 0 <= j < |r|
        ensures SortsBefore(s[0], r[j])
      {
        assert r[j] in multiset(r);
        if r[j] != e {
          assert r[j] in s[1..];
          var k :| 0 <= k < |s[1..]| && s[1..][k] == r[j];
          assert SortsBefore(s[0], s[k + 1]);
        }
      }
    }
  }

  /** `sort_unstable_by_key`; any sorted permutation would do. */
  function Sort(s: seq<Entry>): (r: seq<Entry>)
    ensures Sorted(r) && multiset(r) == multiset(s)
  {
    if s == [] then []
    else
      assert s == [s[0]] + s[1..];
      InsertSortedSorts(s[0], Sort(s[1..]));
      InsertSorted(s[0], Sort(s[1..]))
  }

  /** Entries of one group in the written part are in order and do not touch. */
  ghost predicate Merged(s: seq<Entry>) {
    && (forall i, j :: 0 <= i < j < |s| ==> GroupLess(s[i], s[j]) || SameGroup(s[i], s[j]))
    && (forall i, j :: 0 <= i < j < |s| && SameGroup(s[i], s[j]) ==> s[i].end < s[j].start)
    && (forall i :: 0 <= i < |s| ==> ValidRange(s[i].start, s[i].end))
  }

  lemma MergedOnce(s: seq<Entry>, i: nat)
    requires Merged(s) && i < |s|
    ensures multiset(s)[s[i]] == 1
  {
    assert s == s[..i] + [s[i]] + s[i + 1..];
    assert s[i] !in s[..i] && s[i] !in s[i + 1..];
  }

  lemma MergedIsApart(s: seq<Entry>)
    requires Merged(s)
    ensures NonEmptyRanges(multiset(s)) && Apart(multiset(s))
  {
    forall e | e in multiset(s)
      ensures ValidRange(e.start, e.end) && multiset(s)[e] == 1
    {
      var i :| 0 <= i < |s| && s[i] == e;
      MergedOnce(s, i);
    }
    forall e, f | e in multiset(s) && f in multiset(s) && e != f && SameGroup(e, f)
      ensures e.end < f.start || f.end < e.start
    {
      var i :| 0 <= i < |s| && s[i] == e;
      var j :| 0 <= j < |s| && s[j] == f;
    }
  }

  /** The output vector covers what it covered together with the entry just read. */
  ghost predicate Absorbs(before: seq<Entry>, e: Entry, after: seq<Entry>) {
    forall o, b, t :: Holds(multiset(after), o, b, t) <==> Holds(multiset(before), o, b, t) || Covers(e, o, b, t)
  }

  lemma HoldsAt(s: seq<Entry>, i: nat, o: Owner, b: int, t: LockType)
    requires i < |s| && Covers(s[i], o, b, t)
    ensures Holds(multiset(s), o, b, t)
  {
    assert s[i] in multiset(s);
  }

  lemma PushAbsorbs(s: seq<Entry>, e: Entry)
    ensures Absorbs(s, e, s + [e])
  {
    forall o, b, t
      ensures Holds(multiset(s + [e]), o, b, t) <==> Holds(multiset(s), o, b, t) || Covers(e, o, b, t)
    {
      if Holds(multiset(s + [e]), o, b, t) {
        var f :| f in multiset(s + [e]) && Covers(f, o, b, t);
        assert f in multiset(s) || f == e;
      }
      if Holds(multiset(s), o, b, t) {
        var f :| f in multiset(s) && Covers(f, o, b, t);
        assert f in multiset(s + [e]);
      }
      if Covers(e, o, b, t) {
        HoldsAt(s + [e], |s|, o, b, t);
      }
    }
  }

  lemma ExtendAbsorbs(s: seq<Entry>, e: Entry, end: int)
    requires s != []
    requires SameGroup(s[|s| - 1], e) && s[|s| - 1].start <= e.start <= s[|s| - 1].end
    requires end == if s[|s| - 1].end < e.end then e.end else s[|s| - 1].end
    ensures Absorbs(s, e, s[|s| - 1 := s[|s| - 1].(end := end)])
  {
    var n := |s| - 1;
    var after := s[n := s[n].(end := end)];
    forall o, b, t
      ensures Holds(multiset(after), o, b, t) <==> Holds(multiset(s), o, b, t) || Covers(e, o, b, t)
    {
      if Holds(multiset(after), o, b, t) {
        var f :| f in multiset(after) && Covers(f, o, b, t);
        var i :| 0 <= i <= n && after[i] == f;
        if i < n { HoldsAt(s, i, o, b, t); }
        else if !Covers(e, o, b, t) { HoldsAt(s, n, o, b, t); }
      }
      if Holds(multiset(s), o, b, t) {
        var f :| f in multiset(s) && Covers(f, o, b, t);
        var i :| 0 <= i <= n && s[i] == f;
        HoldsAt(after, i, o, b, t);
      }
      if Covers(e, o, b, t) { HoldsAt(after, n, o, b, t); }
    }
  }

  lemma AbsorbAlike(a: seq<Entry>, b: seq<Entry>, e: Entry, c: seq<Entry>, d: seq<Entry>)
    requires SameHolds(multiset(a), multiset(b)) && Absorbs(a, e, c) && Absorbs(b, e, d)
    ensures SameHolds(multiset(c), multiset(d))
  {}

  /** A new entry that starts beyond the last written one extends the merged part. */
  lemma PushMerged(s: seq<Entry>, e: Entry)
    requires Merged(s) && ValidRange(e.start, e.end)
    requires s != [] ==> var last := s[|s| - 1]; GroupLess(last, e) || (SameGroup(last, e) && last.end < e.start)
    ensures Merged(s + [e])
  {
    var r := s + [e];
    forall i | 0 <= i < |s|
      ensures GroupLess(s[i], e) || (SameGroup(s[i], e) && s[i].end < e.start)
    {
      var last := s[|s| - 1];
      assert i == |s| - 1 || GroupLess(s[i], last) || (SameGroup(s[i], last) && s[i].end < last.start);
      assert ValidRange(last.start, last.end);
    }
  }

  lemma ExtendMerged(s: seq<Entry>, end: int)
    requires Merged(s) && s != [] && s[|s| - 1].end <= end
    ensures Merged(s[|s| - 1 := s[|s| - 1].(end := end)])
  {}

  /** The entry read next starts no earlier than the run it may extend. */
  lemma NextEntry(sorted: seq<Entry>, index: nat, previous: Entry)
    requires Sorted(sorted) && 0 < index < |sorted|
    requires SameGroup(previous, sorted[index - 1]) && previous.start <= sorted[index - 1].start
    ensures if SameGroup(previous, sorted[index]) then previous.start <= sorted[index].start
            else GroupLess(previous, sorted[index])
  {
    assert SortsBefore(sorted[index - 1], sorted[index]);
  }

  /** In-place compaction: writing at `at` leaves the unread tail alone. */
  lemma WriteInPlace(s: seq<Entry>, at: nat, index: nat, e: Entry)
    requires at <= index < |s|
    ensures s[at := e][..at + 1] == s[..at] + [e]
    ensures s[at := e][index + 1..] == s[index + 1..]
  {}

  lemma Unread(s: seq<Entry>, sorted: seq<Entry>, index: nat)
    requires index < |s| == |sorted| && s[index..] == sorted[index..] && NonEmptyRanges(multiset(sorted))
    ensures s[index] == sorted[index] && s[index + 1..] == sorted[index + 1..]
    ensures sorted[..index + 1] == sorted[..index] + [sorted[index]]
    ensures ValidRange(s[index].start, s[index].end)
  {
    assert s[index] == s[index..][0] == sorted[index..][0] == sorted[index];
    assert s[index + 1..] == s[index..][1..];
    assert sorted[index] in multiset(sorted);
  }

  // ----- The vector is the set of maximal runs

  /** An entry is a run that cannot be extended on either side. */
  lemma EntryIsMaximalRun(m: multiset<Entry>, e: Entry)
    requires NonEmptyRanges(m) && Apart(m) && e in m
    ensures forall b :: e.start <= b < e.end ==> Holds(m, e.owner, b, e.lockType)
    ensures !Holds(m, e.owner, e.start - 1, e.lockType) && !Holds(m, e.owner, e.end, e.lockType)
  {
    forall b | e.start <= b < e.end
      ensures Holds(m, e.owner, b, e.lockType)
    {
      assert Covers(e, e.owner, b, e.lockType);
    }
    forall f | f in m
      ensures !Covers(f, e.owner, e.start - 1, e.lockType) && !Covers(f, e.owner, e.end, e.lockType)
    {}
  }

  lemma RunIsShared(m: multiset<Entry>, n: multiset<Entry>, e: Entry)
    requires NonEmptyRanges(m) && Apart(m) && NonEmptyRanges(n) && Apart(n) && SameHolds(m, n)
    requires e in m
    ensures e in n
  {
    EntryIsMaximalRun(m, e);
    assert Holds(n, e.owner, e.start, e.lockType);
    var f :| f in n && Covers(f, e.owner, e.start, e.lockType);
    EntryIsMaximalRun(n, f);
    assert !Holds(n, e.owner, e.start - 1, e.lockType) && !Holds(n, e.owner, e.end, e.lockType);
    assert !Covers(f, e.owner, e.start - 1, e.lockType) && !Covers(f, e.owner, e.end, e.lockType);
    assert !Holds(m, e.owner, f.end, e.lockType);
    assert !Covers(e, e.owner, f.end, e.lockType);
    assert f == e;
  }

  /** Two vectors in this form that hold the same bytes have the same entries. */
  lemma FormIsUnique(m: multiset<Entry>, n: multiset<Entry>)
    requires NonEmptyRanges(m) && Apart(m) && NonEmptyRanges(n) && Apart(n) && SameHolds(m, n)
    ensures m == n
  {
    forall e
      ensures m[e] == n[e]
    {
      if e in m { RunIsShared(m, n, e); }
      if e in n { RunIsShared(n, m, e); }
    }
  }

  /** A granted write leaves one type per owner and byte, and no conflict between owners. */
  lemma SetKeepsSafe(m: multiset<Entry>, n: multiset<Entry>, r: seq<Entry>,
                     owner: Owner, start: int, end: int, t: LockType)
    requires Canonical(m) && m == multiset(r) && ValidRange(start, end)
    requires Conflict(r, owner, start, end, t).None?
    requires Rewrites(m, n, owner, start, end, Some(t))
    ensures OneType(n) && Safe(n)
  {
    ConflictIsByteConflict(r, owner, start, end, t);
  }

  /** Clearing the range, pushing the new entry and coalescing writes exactly the new bytes. */
  lemma ClearPushCoalesce(m: multiset<Entry>, cleared: seq<Entry>, n: multiset<Entry>,
                          owner: Owner, start: int, end: int, t: LockType)
    requires ValidRange(start, end) && NonEmptyRanges(multiset(cleared))
    requires Rewrites(m, multiset(cleared), owner, start, end, None)
    ensures NonEmptyRanges(multiset(cleared + [Entry(owner, start, end, t)]))
    ensures SameHolds(multiset(cleared + [Entry(owner, start, end, t)]), n) ==>
            Rewrites(m, n, owner, start, end, Some(t))
  {
    PushAbsorbs(cleared, Entry(owner, start, end, t));
  }

  lemma ClearKeepsCanonical(m: multiset<Entry>, n: multiset<Entry>, owner: Owner, start: int, end: int)
    requires Canonical(m) && NonEmptyRanges(n) && Apart(n)
    requires Rewrites(m, n, owner, start, end, None)
    ensures Canonical(n)
  {}

  /** State of the swap-remove loop: entries before `index` are done, only requested bytes are gone. */
  ghost predicate CutLoop(m: multiset<Entry>, s: seq<Entry>, index: nat, owner: Owner, start: int, end: int) {
    && index <= |s|
    && NonEmptyRanges(multiset(s)) && Apart(multiset(s))
    && NoneAffected(s[..index], owner, start, end)
    && Narrows(m, multiset(s), owner, start, end)
  }

  lemma CutLoopSkip(m: multiset<Entry>, s: seq<Entry>, index: nat, owner: Owner, start: int, end: int)
    requires CutLoop(m, s, index, owner, start, end)
    requires index < |s| && !Affected(s[index], owner, start, end)
    ensures CutLoop(m, s, index + 1, owner, start, end)
  {
    NoneAffectedPush(s, index, owner, start, end);
  }

  lemma CutLoopCut(m: multiset<Entry>, s: seq<Entry>, index: nat, owner: Owner, start: int, end: int, t: seq<Entry>)
    requires CutLoop(m, s, index, owner, start, end) && ValidRange(start, end)
    requires index < |s| && Affected(s[index], owner, start, end)
    requires var e := s[index];
             var r := SwapRemove(s, index);
             var l := if e.start < start then r + [e.(end := start)] else r;
             t == if e.end > end then l + [e.(start := end)] else l
    ensures CutLoop(m, t, index, owner, start, end)
    ensures AffectedEntries(multiset(t), owner, start, end) < AffectedEntries(multiset(s), owner, start, end)
  {
    hide Holds, Apart, NonEmptyRanges, Narrows, NoneAffected, CutBag, AffectedEntries;
    var before := multiset(s);
    PushPieces(before, SwapRemove(s, index), s[index], start, end, index, t);
    CutApart(before, s[index], start, end);
    CutShrinks(before, s[index], start, end);
    CutNarrows(m, before, s[index], start, end);
  }

  lemma CutLoopStart(s: seq<Entry>, owner: Owner, start: int, end: int)
    requires Canonical(multiset(s))
    ensures CutLoop(multiset(s), s, 0, owner, start, end)
  {}

  lemma CutLoopEnd(m: multiset<Entry>, s: seq<Entry>, owner: Owner, start: int, end: int)
    requires Canonical(m) && CutLoop(m, s, |s|, owner, start, end)
    ensures Canonical(multiset(s)) && Rewrites(m, multiset(s), owner, start, end, None)
    ensures NoneAffected(s, owner, start, end) && forall e :: e in s ==> !Affected(e, owner, start, end)
  {
    assert s[..|s|] == s;
    ClearedHolds(m, s, owner, start, end);
    ClearKeepsCanonical(m, multiset(s), owner, start, end);
  }

  /** State of the compaction loop: `s[..output]` is merged and holds what was read, `s[index..]` is unread. */
  ghost predicate CompactLoop(sorted: seq<Entry>, s: seq<Entry>, output: nat, index: nat) {
    && output <= index <= |s| == |sorted|
    && s[index..] == sorted[index..]
    && Merged(s[..output])
    && (output == 0 ==> index == 0)
    && (output > 0 ==> SameGroup(s[output - 1], sorted[index - 1]) && s[output - 1].start <= sorted[index - 1].start)
    && SameHolds(multiset(sorted[..index]), multiset(s[..output]))
  }

  lemma CompactLoopExtend(sorted: seq<Entry>, s: seq<Entry>, output: nat, index: nat, end: int)
    requires Sorted(sorted) && NonEmptyRanges(multiset(sorted))
    requires CompactLoop(sorted, s, output, index) && index < |s| && output > 0
    requires SameGroup(s[output - 1], s[index]) && s[index].start <= s[output - 1].end
    requires end == if s[output - 1].end < s[index].end then s[index].end else s[output - 1].end
    ensures CompactLoop(sorted, s[output - 1 := s[output - 1].(end := end)], output, index + 1)
  {
    hide Holds, Merged, SameHolds, Absorbs, Sorted, NonEmptyRanges;
    var e, written := s[index], s[..output];
    var longer := written[output - 1 := s[output - 1].(end := end)];
    Unread(s, sorted, index);
    NextEntry(sorted, index, s[output - 1]);
    PushAbsorbs(sorted[..index], e);
    ExtendAbsorbs(written, e, end);
    ExtendMerged(written, end);
    AbsorbAlike(sorted[..index], written, e, sorted[..index + 1], longer);
    WriteInPlace(s, output - 1, index, longer[output - 1]);
    assert s[output - 1 := longer[output - 1]][..output] == longer;
  }

  lemma CompactLoopPush(sorted: seq<Entry>, s: seq<Entry>, output: nat, index: nat)
    requires Sorted(sorted) && NonEmptyRanges(multiset(sorted))
    requires CompactLoop(sorted, s, output, index) && index < |s|
    requires output > 0 ==> !(SameGroup(s[output - 1], s[index]) && s[index].start <= s[output - 1].end)
    ensures CompactLoop(sorted, s[output := s[index]], output + 1, index + 1)
  {
    hide Holds, Merged, SameHolds, Absorbs, Sorted, NonEmptyRanges;
    var e, written := s[index], s[..output];
    Unread(s, sorted, index);
    if output > 0 { NextEntry(sorted, index, s[output - 1]); }
    PushAbsorbs(sorted[..index], e);
    PushAbsorbs(written, e);
    PushMerged(written, e);
    AbsorbAlike(sorted[..index], written, e, sorted[..index + 1], written + [e]);
    WriteInPlace(s, output, index, e);
  }

  lemma CompactLoopStart(sorted: seq<Entry>)
    ensures CompactLoop(sorted, sorted, 0, 0)
  {}

  lemma CompactLoopEnd(sorted: seq<Entry>, s: seq<Entry>, output: nat)
    requires CompactLoop(sorted, s, output, |s|)
    ensures NonEmptyRanges(multiset(s[..output])) && Apart(multiset(s[..output]))
    ensures SameHolds(multiset(sorted), multiset(s[..output]))
  {
    assert sorted[..|s|] == sorted;
    MergedIsApart(s[..output]);
  }

  class RecordLockState {
    var entries: seq<Entry>

    ghost predicate Valid() reads this { Canonical(multiset(entries)) }

    constructor ()
      ensures entries == [] && Valid()
    {
      entries := [];
    }

    /** Erases exactly the bytes `[start, end)` of `owner`; reports whether any entry was cut. */
    method ClearOwnerRange(owner: Owner, start: int, end: int) returns (changed: bool)
      requires Valid() && ValidRange(start, end)
      modifies this
      ensures Valid()
      ensures Rewrites(old(multiset(entries)), multiset(entries), owner, start, end, None)
      ensures changed <==> exists e :: e in old(entries) && Affected(e, owner, start, end)
      ensures !changed ==> entries == old(entries)
      ensures NoneAffected(entries, owner, start, end)
    {
      hide CutLoop, Canonical, Rewrites, NoneAffected, AffectedEntries;
      ghost var m := multiset(entries);
      CutLoopStart(entries, owner, start, end);
      changed := false;
      var index := 0;
      while index < |entries|
        invariant index <= |entries|
        invariant CutLoop(m, entries, index, owner, start, end)
        invariant !changed ==> entries == old(entries)
        invariant changed ==> exists e :: e in old(entries) && Affected(e, owner, start, end)
        decreases AffectedEntries(multiset(entries), owner, start, end), |entries| - index
      {
        var entry := entries[index];
        ghost var before := entries;
        if entry.owner != owner || !RangesOverlap(entry.start, entry.end, start, end) {
          CutLoopSkip(m, entries, index, owner, start, end);
          index := index + 1;
          continue;
        }
        if !changed { assert entry in old(entries); }
        changed := true;
        entries := SwapRemove(entries, index);
        if entry.start < start {
          entries := entries + [entry.(end := start)];
        }
        if entry.end > end {
          entries := entries + [entry.(start := end)];
        }
        CutLoopCut(m, before, index, owner, start, end, entries);
      }
      CutLoopEnd(m, entries, owner, start, end);
    }

    /** Merges touching entries of one owner and type without changing a single held byte. */
    method Coalesce()
      requires NonEmptyRanges(multiset(entries))
      modifies this
      ensures NonEmptyRanges(multiset(entries)) && Apart(multiset(entries))
      ensures SameHolds(old(multiset(entries)), multiset(entries))
    {
      hide *;
      entries := Sort(entries);
      ghost var sorted := entries;
      var output, index := 0, 0;
      CompactLoopStart(sorted);
      while index < |entries|
        invariant output <= index <= |entries|
        invariant CompactLoop(sorted, entries, output, index)
      {
        var entry := entries[index];
        if output > 0 {
          var previous := entries[output - 1];
          if SameGroup(previous, entry) && entry.start <= previous.end {
            var end := if previous.end < entry.end then entry.end else previous.end;
            CompactLoopExtend(sorted, entries, output, index, end);
            entries := entries[output - 1 := previous.(end := end)];
            index := index + 1;
            continue;
          }
        }
        CompactLoopPush(sorted, entries, output, index);
        entries := entries[output := entry];
        output := output + 1;
        index := index + 1;
      }
      CompactLoopEnd(sorted, entries, output);
      entries := entries[..output];
    }

    /** Gives `owner` exactly the requested bytes, or fails and changes nothing. */
    method Set(owner: Owner, start: int, end: int, t: LockType) returns (r: Outcome)
      requires Valid()
      modifies this
      ensures Valid()
      ensures r == Failed(EINVAL) <==> start < 0 || start >= end
      ensures r == Failed(EAGAIN) <==> 0 <= start < end && Contended(old(multiset(entries)), owner, start, end, t)
      ensures r.Failed? ==> entries == old(entries)
      ensures r.Done? ==> Rewrites(old(multiset(entries)), multiset(entries), owner, start, end, Some(t))
    {
      if !ValidRange(start, end) {
        return Failed(EINVAL);
      }
      ConflictIsByteConflict(entries, owner, start, end, t);
      if Conflict(entries, owner, start, end, t).Some? {
        return Failed(EAGAIN);
      }
      hide Holds, Rewrites, SameHolds, NonEmptyRanges, Apart, OneType, Safe, NoneAffected, Contended;
      ghost var m, was := multiset(entries), entries;
      var _ := ClearOwnerRange(owner, start, end);
      ghost var cleared := entries;
      entries := entries + [Entry(owner, start, end, t)];
      ClearPushCoalesce(m, cleared, m, owner, start, end, t);
      Coalesce();
      ClearPushCoalesce(m, cleared, multiset(entries), owner, start, end, t);
      SetKeepsSafe(m, multiset(entries), was, owner, start, end, t);
      return Done;
    }

    /** Drops every entry of `owner` and keeps the rest in order. */
    method ReleaseOwner(owner: Owner) returns (changed: bool)
      requires Valid()
      modifies this
      ensures Valid()
      ensures entries == Retain(old(entries), owner)
      ensures changed <==> exists e :: e in old(entries) && e.owner == owner
    {
      RetainKeepsCanonical(entries, owner);
      var oldLen := |entries|;
      entries := Retain(entries, owner);
      changed := |entries| != oldLen;
    }
  }

  function Retain(s: seq<Entry>, owner: Owner): (r: seq<Entry>)
    ensures forall e :: e in r <==> e in s && e.owner != owner
    ensures |r| <= |s| && (|r| == |s| <==> forall e :: e in s ==> e.owner != owner)
    ensures |r| == |s| ==> r == s
    ensures forall e: Entry :: e.owner != owner ==> multiset(r)[e] == multiset(s)[e]
  {
    if s == [] then []
    else
      assert s == [s[0]] + s[1..];
      if s[0].owner != owner then [s[0]] + Retain(s[1..], owner) else Retain(s[1..], owner)
  }

  /** Releasing an owner frees all of its bytes and no byte of anyone else. */
  lemma RetainHolds(s: seq<Entry>, owner: Owner, o: Owner, b: int, t: LockType)
    ensures Holds(multiset(Retain(s, owner)), o, b, t) <==> o != owner && Holds(multiset(s), o, b, t)
  {
    var r := Retain(s, owner);
    if Holds(multiset(r), o, b, t) {
      var e :| e in multiset(r) && Covers(e, o, b, t);
      assert e in r && e in multiset(s);
    }
    if o != owner && Holds(multiset(s), o, b, t) {
      var e :| e in multiset(s) && Covers(e, o, b, t);
      assert e in s && e in multiset(r);
    }
  }

  lemma RetainKeepsCanonical(s: seq<Entry>, owner: Owner)
    requires Canonical(multiset(s))
    ensures Canonical(multiset(Retain(s, owner)))
  {
    var r := Retain(s, owner);
    forall e | e in multiset(r)
      ensures e in multiset(s) && multiset(r)[e] == multiset(s)[e]
    {
      assert e in r;
    }
    forall o, b, t
      ensures Holds(multiset(r), o, b, t) <==> o != owner && Holds(multiset(s), o, b, t)
    {
      RetainHolds(s, owner, o, b, t);
    }
  }
}
