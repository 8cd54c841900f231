/** Searching a hash tree: the descent to a leaf, the step to the next leaf, and what the search has seen. */
module HtreeSearch {
  import opened Options
  import opened Bytes
  import opened DirRecords
  import opened HtreeLevels
  import opened HtreeTree

  // ----- Searching one node

  function KeyOf(entries: seq<IndexEntry>, i: nat): nat
    requires i < |entries|
  {
    if i == 0 then 0 else entries[i].hash
  }

  ghost predicate KeysInOrder(entries: seq<IndexEntry>) {
    forall i, j :: 0 < i < j < |entries| ==> entries[i].hash <= entries[j].hash
  }

  /** Binary search for the last child whose key does not exceed `h`. */
  method LookupEntryByHash(entries: seq<IndexEntry>, h: nat) returns (r: Option<nat>)
    ensures r.None? <==> entries == []
    ensures entries != [] && KeysInOrder(entries) ==> LastKey(entries, r.value, h)
    ensures r.Some? ==> r.value < |entries|
  {
    if entries == [] {
      return None;
    }
    var left, right := 0, |entries| - 1;
    while left <= right
      invariant 0 <= left <= right + 1 <= |entries|
      invariant left == 0 ==> right >= 0
      invariant KeysInOrder(entries) ==> forall i :: 0 <= i < left ==> KeyOf(entries, i) <= h
      invariant KeysInOrder(entries) ==> forall i :: right < i < |entries| ==> i > 0 && h < KeyOf(entries, i)
    {
      var mid := (left + right) / 2;
      if KeyOf(entries, mid) <= h {
        left := mid + 1;
      } else {
        assert mid > 0;
        right := mid - 1;
      }
    }
    assert left < |entries| && KeysInOrder(entries) ==> h < KeyOf(entries, left);
    assert KeysInOrder(entries) ==> KeyOf(entries, left - 1) <= h;
    return Some(left - 1);
  }

  /** The search for a name goes on in the next leaf when its separator only continues the same hash. */
  predicate HashCanContinue(h: nat, next: nat) {
    if h % 2 != 0 then true else Floor(next) == h
  }

  /** For an even hash these are the two separators that stand for it. */
  lemma ContinuesMeans(h: nat, next: nat)
    ensures HashCanContinue(h, next) <==> h % 2 == 1 || next == h || next == h + 1
  {}

  // ----- The descent

  ghost predicate FindLoop(t: Tree, path: seq<PathEntry>, pos: seq<nat>, block: nat, h: nat) {
    && PathOk(t, path, pos)
    && (forall k :: 0 <= k <= |path| ==> LastAtMost(t.levels[k], pos[k], h))
    && block == t.levels[|path|][pos[|path|]].block
  }

  lemma FindStart(cfg: Config, t: Tree, h: nat)
    requires Structure(cfg, t)
    ensures FindLoop(t, [], [0], 0, h)
  {}

  lemma NodeKeys(cfg: Config, t: Tree, k: nat, p: nat)
    requires Structure(cfg, t) && k < |t.levels| - 1 && p < |t.levels[k]|
    ensures EntriesOf(t.blocks, t.levels[k][p].block) != [] && KeysInOrder(EntriesOf(t.blocks, t.levels[k][p].block))
  {
    hide Tiles, Expand, NodeOk;
    NonEmpty(cfg, t, k, p);
    var e := EntriesOf(t.blocks, t.levels[k][p].block);
    assert LevelOk(cfg, t.blocks, t.home, t.levels[k + 1], |t.levels| - 1 - (k + 1), k + 1 == 0);
    assert t.levels[k + 1] == Expand(t.blocks, t.levels[k]);
    forall i, j | 0 < i < j < |e|
      ensures e[i].hash <= e[j].hash
    {
      KeysSorted(t.blocks, t.levels[k], p, i, j);
    }
  }

  lemma FindStep(cfg: Config, t: Tree, path: seq<PathEntry>, pos: seq<nat>, block: nat, h: nat, c: nat)
    requires Structure(cfg, t) && FindLoop(t, path, pos, block, h) && |path| < |t.levels| - 1
    requires LastKey(EntriesOf(t.blocks, block), c, h)
    ensures FindLoop(t, path + [PathEntry(block, c)], pos + [Start(t.blocks, t.levels[|path|], pos[|path|]) + c],
                     EntriesOf(t.blocks, block)[c].block, h)
  {
    hide Tiles, Expand, NodeOk, LevelOk;
    var k := |path|;
    var p, level := pos[k], t.levels[k];
    var next := Start(t.blocks, level, p) + c;
    assert LastAtMost(t.levels[k], pos[k], h);
    assert t.levels[k + 1] == Expand(t.blocks, level);
    forall i | 0 <= i < |level|
      ensures EntriesOf(t.blocks, level[i].block) != []
    {
      NonEmpty(cfg, t, k, i);
    }
    Descend(t.blocks, level, p, c, h);
    ChildAt(t.blocks, level, p, c);
    var path', pos' := path + [PathEntry(block, c)], pos + [next];
    forall j | 0 <= j < |path'|
      ensures PathStep(t.blocks, t.levels[j], pos'[j], path'[j], pos'[j + 1])
    {
      assert j < |path| ==> PathStep(t.blocks, t.levels[j], pos[j], path[j], pos[j + 1]);
    }
    forall j | 0 <= j <= |path'|
      ensures LastAtMost(t.levels[j], pos'[j], h)
    {
      assert j <= |path| ==> LastAtMost(t.levels[j], pos[j], h);
    }
  }

  // ----- The next leaf

  /** From level `k` down, the path takes the last child everywhere. */
  ghost predicate ClimbLoop(t: Tree, path: seq<PathEntry>, k: nat) {
    forall j :: k < j < |path| ==> path[j].child + 1 == |EntriesOf(t.blocks, path[j].block)|
  }

  /** Below the last child of the last node there is nothing to the right. */
  lemma {:induction false} LastStaysLast(t: Tree, path: seq<PathEntry>, pos: seq<nat>, k: nat)
    requires Shape(t.blocks, t.levels) && PathOk(t, path, pos) && k < |path|
    requires path[k].child + 1 == |EntriesOf(t.blocks, path[k].block)|
    ensures pos[k] < |t.levels[k]| && Start(t.blocks, t.levels[k], pos[k] + 1) == pos[k + 1] + 1
    ensures pos[k] + 1 == |t.levels[k]| ==> pos[k + 1] + 1 == |t.levels[k + 1]|
  {
    hide Expand;
    assert PathStep(t.blocks, t.levels[k], pos[k], path[k], pos[k + 1]);
    ExpandAround(t.blocks, t.levels[k], pos[k]);
    StartAtEnd(t.blocks, t.levels[k]);
    assert t.levels[k + 1] == Expand(t.blocks, t.levels[k]);
  }

  lemma {:induction false} ClimbExhausted(t: Tree, path: seq<PathEntry>, pos: seq<nat>, k: nat)
    requires Shape(t.blocks, t.levels) && PathOk(t, path, pos) && k <= |path|
    requires forall j :: 0 <= j < |path| ==> path[j].child + 1 == |EntriesOf(t.blocks, path[j].block)|
    ensures pos[k] + 1 == |t.levels[k]|
  {
    if k > 0 {
      ClimbExhausted(t, path, pos, k - 1);
      LastStaysLast(t, path, pos, k - 1);
    }
  }

  /** After the turn at level `k` every lower level moves one node to the right, to a node with the same separator. */
  lemma {:induction false} ClimbFound(cfg: Config, t: Tree, path: seq<PathEntry>, pos: seq<nat>, k: nat, l: nat)
    requires Structure(cfg, t) && PathOk(t, path, pos) && k < l <= |path| && ClimbLoop(t, path, k)
    requires path[k].child + 1 < |EntriesOf(t.blocks, path[k].block)|
    ensures pos[l] + 1 < |t.levels[l]|
    ensures t.levels[l][pos[l] + 1].sep == EntriesOf(t.blocks, path[k].block)[path[k].child + 1].hash
  {
    hide Expand, LevelOk;
    var j := l - 1;
    assert PathStep(t.blocks, t.levels[j], pos[j], path[j], pos[j + 1]);
    assert t.levels[j + 1] == Expand(t.blocks, t.levels[j]);
    if j == k {
      ChildAt(t.blocks, t.levels[k], pos[k], path[k].child + 1);
    } else {
      ClimbFound(cfg, t, path, pos, k, j);
      LastStaysLast(t, path, pos, j);
      NonEmpty(cfg, t, j, pos[j] + 1);
      ChildAt(t.blocks, t.levels[j], pos[j] + 1, 0);
    }
  }

  ghost function Moved(pos: seq<nat>, k: nat): seq<nat> {
    seq(|pos|, i requires 0 <= i < |pos| => if i <= k then pos[i] else pos[i] + 1)
  }

  /** The path rewritten down to level `l` exclusive. */
  ghost predicate NextLoop(t: Tree, path: seq<PathEntry>, pos: seq<nat>, k: nat, path': seq<PathEntry>, l: nat,
                           block: nat) {
    && |path'| == |path| && k < l <= |path| && |pos| == |path| + 1
    && path'[..k] == path[..k] && path'[k] == PathEntry(path[k].block, path[k].child + 1)
    && |path| < |t.levels|
    && (forall j :: k < j <= l ==> pos[j] + 1 < |t.levels[j]|)
    && (forall j :: k < j < l ==> path'[j] == PathEntry(t.levels[j][pos[j] + 1].block, 0))
    && block == t.levels[l][pos[l] + 1].block
  }

  lemma NextStart(cfg: Config, t: Tree, path: seq<PathEntry>, pos: seq<nat>, k: nat)
    requires Structure(cfg, t) && PathOk(t, path, pos) && k < |path| && ClimbLoop(t, path, k)
    requires path[k].child + 1 < |EntriesOf(t.blocks, path[k].block)|
    ensures NextLoop(t, path, pos, k, path[k := PathEntry(path[k].block, path[k].child + 1)], k + 1,
                     EntriesOf(t.blocks, path[k].block)[path[k].child + 1].block)
  {
    hide Expand, LevelOk;
    ClimbFound(cfg, t, path, pos, k, k + 1);
    assert PathStep(t.blocks, t.levels[k], pos[k], path[k], pos[k + 1]);
    assert t.levels[k + 1] == Expand(t.blocks, t.levels[k]);
    ChildAt(t.blocks, t.levels[k], pos[k], path[k].child + 1);
  }

  lemma NextStep(cfg: Config, t: Tree, path: seq<PathEntry>, pos: seq<nat>, k: nat, path': seq<PathEntry>, l: nat,
                 block: nat)
    requires Structure(cfg, t) && PathOk(t, path, pos) && k < |path| && ClimbLoop(t, path, k)
    requires path[k].child + 1 < |EntriesOf(t.blocks, path[k].block)|
    requires NextLoop(t, path, pos, k, path', l, block) && l < |path|
    ensures EntriesOf(t.blocks, block) != []
    ensures NextLoop(t, path, pos, k, path'[l := PathEntry(block, 0)], l + 1, EntriesOf(t.blocks, block)[0].block)
  {
    hide Expand, LevelOk;
    ClimbFound(cfg, t, path, pos, k, l + 1);
    NonEmpty(cfg, t, l, pos[l] + 1);
    assert t.levels[l + 1] == Expand(t.blocks, t.levels[l]);
    LastStaysLast(t, path, pos, l);
    ChildAt(t.blocks, t.levels[l], pos[l] + 1, 0);
    var after := path'[l := PathEntry(block, 0)];
    assert after[..k] == path'[..k];
  }

  lemma NextEnd(cfg: Config, t: Tree, path: seq<PathEntry>, pos: seq<nat>, k: nat, path': seq<PathEntry>, block: nat)
    requires Structure(cfg, t) && PathOk(t, path, pos) && k < |path| && ClimbLoop(t, path, k)
    requires path[k].child + 1 < |EntriesOf(t.blocks, path[k].block)|
    requires NextLoop(t, path, pos, k, path', |path|, block)
    ensures PathOk(t, path', Moved(pos, k))
  {
    hide Expand, LevelOk;
    var pos' := Moved(pos, k);
    forall j | 0 <= j < |path|
      ensures PathStep(t.blocks, t.levels[j], pos'[j], path'[j], pos'[j + 1])
    {
      assert PathStep(t.blocks, t.levels[j], pos[j], path[j], pos[j + 1]);
      if j < k {
        assert path'[j] == path'[..k][j] == path[..k][j];
      } else if j > k {
        NonEmpty(cfg, t, j, pos[j] + 1);
        LastStaysLast(t, path, pos, j);
      }
    }
  }

  // ----- What a search has seen

  function FindName(entries: seq<Entry>, name: Name): (r: Option<Entry>)
    ensures r.Some? ==> r.value in entries && r.value.name == name
    ensures r.None? ==> forall e :: e in entries ==> e.name != name
  {
    if entries == [] then None
    else if entries[0].name == name then Some(entries[0])
    else FindName(entries[1..], name)
  }

  /** The leaves from `first` up to `p` do not hold the name. */
  ghost predicate Absent(t: Tree, level: seq<Node>, first: nat, p: nat, name: Name) {
    forall i, e :: first <= i < p && StoredAt(t.blocks, level, i, e) ==> e.name != name
  }

  lemma LeavesSorted(cfg: Config, t: Tree)
    requires Structure(cfg, t)
    ensures Sorted(Leaves(t))
  {
    hide Expand, NodeOk, Sorted, DistinctIn;
    var k := |t.levels| - 1;
    assert LevelOk(cfg, t.blocks, t.home, t.levels[k], |t.levels| - 1 - k, k == 0);
  }

  /** A name is in no leaf before the first one looked at, and in none after the last. */
  lemma SearchIsComplete(cfg: Config, t: Tree, first: nat, p: nat, name: Name, e: Entry)
    requires TreeOk(cfg, t) && first < p <= |Leaves(t)| && LastAtMost(Leaves(t), first, cfg.hash(name))
    requires Absent(t, Leaves(t), first, p, name)
    requires p < |Leaves(t)| ==> !HashCanContinue(cfg.hash(name), Leaves(t)[p].sep)
    requires Stored(t.blocks, Leaves(t), e)
    ensures e.name != name
  {
    LeavesSorted(cfg, t);
    var leaves := Leaves(t);
    hide Structure, LiveIn, NamesUnique, Leaves, Sorted, LastAtMost, HashCanContinue;
    var i: nat :| StoredAt(t.blocks, leaves, i, e);
    assert HashedOk(cfg.hash, name);
    assert InRange(leaves, i, cfg.hash(e.name));
    if i < first || i >= p {
      OutOfRange(leaves, first, p, i, cfg.hash(name));
    }
  }

  lemma OutOfRange(leaves: seq<Node>, first: nat, p: nat, i: nat, h: nat)
    requires Sorted(leaves) && LastAtMost(leaves, first, h) && h % 2 == 0
    requires first < p <= |leaves| && (p < |leaves| ==> !HashCanContinue(h, leaves[p].sep))
    requires i < |leaves| && (i < first || i >= p)
    ensures !InRange(leaves, i, h)
  {
    if i < first {
      assert leaves[i + 1].sep <= leaves[first].sep;
    } else {
      assert leaves[first + 1].sep <= leaves[p].sep;
      FloorMonotone(leaves[p].sep, leaves[i].sep);
      FloorMonotone(h, leaves[p].sep);
    }
  }

  lemma FloorMonotone(a: nat, b: nat)
    requires a <= b
    ensures Floor(a) <= Floor(b)
  {}

  /** Below the leaves' level the search sees no names at all. */
  lemma IndexHoldsNothing(cfg: Config, t: Tree, k: nat, i: nat)
    requires Structure(cfg, t) && k < |t.levels| - 1 && i < |t.levels[k]|
    ensures LiveIn(t.blocks, t.levels[k][i].block) == []
  {
    NonEmpty(cfg, t, k, i);
  }

  lemma LastIsUnique(level: seq<Node>, p: nat, q: nat, h: nat)
    requires Sorted(level) && LastAtMost(level, p, h) && LastAtMost(level, q, h)
    ensures p == q
  {}
}
