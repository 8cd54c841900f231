/** Directories with a hash tree: lookup along chains of leaves, insertion with leaf, index and root splits, removal. */
module Htree {
  import opened Options
  import opened Bytes
  import opened DirRecords
  import opened HtreeLevels
  import opened HtreeTree
  import opened HtreeSearch
  import opened HtreeGrow
  import opened HtreeBag

  /** File block numbers are 32-bit. */
  const MAX_BLOCKS: nat := U32

  // ----- When an insertion splits the root

  /** Neither a free slot nor repacking makes room for `e`, and the leaf can be cut. */
  ghost predicate NeedsSplit(cfg: Config, records: seq<Record>, e: Entry) {
    && (forall i :: 0 <= i < |records| ==> Spare(records[i]) < MinSize(|e.name|))
    && SizeOf(SortByHash(cfg.hash, Live(records) + [e])) > cfg.usable
    && MinSize(|SortByHash(cfg.hash, Live(records) + [e])[0].name|) <= cfg.usable / 2
  }

  ghost predicate LeafOverflows(cfg: Config, t: Tree, e: Entry) {
    forall i: nat :: LastAtMost(Leaves(t), i, cfg.hash(e.name)) ==>
      var b := Leaves(t)[i].block;
      b in t.blocks && t.blocks[b].Leaf? && NeedsSplit(cfg, t.blocks[b].records, e)
  }

  ghost predicate IndexFull(t: Tree, h: nat) {
    forall k, p: nat :: 0 <= k < |t.levels| - 1 && LastAtMost(t.levels[k], p, h) ==>
      Full(t.blocks, t.levels[k][p].block)
  }

  ghost predicate PathFull(blocks: Blocks, path: seq<PathEntry>, index: nat)
    requires index < |path|
  {
    forall j :: 0 <= j <= index ==> Full(blocks, path[j].block)
  }

  lemma PathFullIsIndexFull(cfg: Config, t: Tree, path: seq<PathEntry>, pos: seq<nat>, block: nat, h: nat)
    requires Structure(cfg, t) && FindLoop(t, path, pos, block, h) && |path| == |t.levels| - 1
    ensures PathFull(t.blocks, path, |path| - 1) <==> IndexFull(t, h)
  {
    hide Expand, Full, NodeOk, DistinctIn, Sorted;
    forall k | 0 <= k < |path|
      ensures pos[k] < |t.levels[k]| && path[k].block == t.levels[k][pos[k]].block && Sorted(t.levels[k])
      ensures LastAtMost(t.levels[k], pos[k], h)
    {
      assert PathStep(t.blocks, t.levels[k], pos[k], path[k], pos[k + 1]);
      assert LevelOk(cfg, t.blocks, t.home, t.levels[k], |t.levels| - 1 - k, k == 0);
    }
    assert 0 < |path| < |t.levels|;
    hide PathOk, FindLoop, Structure;
    if PathFull(t.blocks, path, |path| - 1) {
      forall k, p: nat | 0 <= k < |t.levels| - 1 && LastAtMost(t.levels[k], p, h)
        ensures Full(t.blocks, t.levels[k][p].block)
      {
        LastIsUnique(t.levels[k], p, pos[k], h);
        assert Full(t.blocks, path[k].block);
      }
    }
    if IndexFull(t, h) {
      forall k | 0 <= k <= |path| - 1
        ensures Full(t.blocks, path[k].block)
      {
        assert LastAtMost(t.levels[k], pos[k], h);
      }
    }
  }

  datatype AddResult = Added | AlreadyExists | NoSpaceLeft | Corrupt

  /** A mounted directory: its blocks by file block number and the depth byte kept in the root block. */
  class Directory {
    const cfg: Config
    const dot: Entry
    const dotDot: Entry
    var blocks: Blocks
    var size: nat
    var depth: nat
    ghost var levels: seq<seq<Node>>
    ghost var home: map<nat, nat>

    ghost function Snapshot(): Tree
      reads this
    {
      Tree(blocks, size, levels, home)
    }

    /** The tree is well formed and the depth byte does not exceed its depth. */
    ghost predicate Valid()
      reads this
    {
      && TreeOk(cfg, Snapshot()) && Once(Snapshot()) && depth + 2 <= |levels| && size <= MAX_BLOCKS
      && dot.name == DOT && dotDot.name == DOT_DOT
    }

    /** The depth byte is the number of index levels below the root. */
    ghost predicate DepthRight()
      reads this
    {
      depth + 2 == |levels|
    }

    ghost predicate Holds(e: Entry)
      reads this
    {
      Stored(blocks, Leaves(Snapshot()), e)
    }

    ghost function Contents(): multiset<Entry>
      reads this
    {
      Bag(blocks, Leaves(Snapshot()))
    }

    constructor (cfg: Config, dot: Entry, dotDot: Entry, blocks: Blocks, size: nat, depth: nat,
                 ghost levels: seq<seq<Node>>, ghost home: map<nat, nat>)
      requires TreeOk(cfg, Tree(blocks, size, levels, home)) && Once(Tree(blocks, size, levels, home))
      requires depth + 2 == |levels| && size <= MAX_BLOCKS
      requires dot.name == DOT && dotDot.name == DOT_DOT
      ensures Valid() && DepthRight() && Snapshot() == Tree(blocks, size, levels, home)
      ensures this.cfg == cfg && this.dot == dot && this.dotDot == dotDot
    {
      this.cfg, this.dot, this.dotDot := cfg, dot, dotDot;
      this.blocks, this.size, this.depth, this.levels, this.home := blocks, size, depth, levels, home;
    }

    // ----- Search

    /** Descends to the last node at each level whose separator does not exceed the hash. */
    method FindLeaf(h: nat) returns (path: seq<PathEntry>, leaf: nat, ghost pos: seq<nat>)
      requires Valid()
      ensures |path| == depth + 1 && FindLoop(Snapshot(), path, pos, leaf, h)
    {
      hide FindLoop, KeysInOrder, LastKey, Structure, RangesOk, NamesUnique;
      path, leaf, pos := [], 0, [0];
      FindStart(cfg, Snapshot(), h);
      while |path| <= depth
        invariant |path| <= depth + 1 && FindLoop(Snapshot(), path, pos, leaf, h)
        decreases depth + 1 - |path|
      {
        FindLoopNode(cfg, Snapshot(), path, pos, leaf, h);
        var r := LookupEntryByHash(EntriesOf(blocks, leaf), h);
        var c := r.value;
        FindStep(cfg, Snapshot(), path, pos, leaf, h, c);
        FindLength(Snapshot(), path, pos, leaf, h);
        pos := pos + [Start(blocks, levels[|path|], pos[|path|]) + c];
        path, leaf := path + [PathEntry(leaf, c)], EntriesOf(blocks, leaf)[c].block;
      }
    }

    /** Moves a path to the next leaf, when that leaf may still hold the hash. */
    method Advance(path: seq<PathEntry>, h: nat, ghost pos: seq<nat>)
      returns (more: bool, path': seq<PathEntry>, leaf: nat, ghost pos': seq<nat>)
      requires Valid() && |path| == depth + 1 && PathOk(Snapshot(), path, pos)
      ensures pos[|path|] < |levels[|path|]| && |path'| == |path|
      ensures more <==>
              && pos[|path|] + 1 < |levels[|path|]|
              && var next := levels[|path|][pos[|path|] + 1].sep; h % 2 == 1 || next == h || next == h + 1
      ensures more ==> && PathOk(Snapshot(), path', pos') && pos'[|path|] == pos[|path|] + 1
                       && leaf == levels[|path|][pos'[|path|]].block
    {
      hide TreeOk, PathOk, NextLoop, HashCanContinue, EntriesOf;
      ghost var t := Snapshot();
      TreeParts(cfg, t);
      PathFacts(cfg, t, path, pos);
      path', leaf, pos', more := path, 0, pos, false;
      var k := |path| - 1;
      while path[k].child + 1 >= |EntriesOf(blocks, path[k].block)|
        invariant 0 <= k < |path| && ClimbLoop(t, path, k)
        decreases k
      {
        if k == 0 {
          PathChildren(t, path, pos, 0);
          ClimbExhausted(t, path, pos, |path|);
          return;
        }
        PathChildren(t, path, pos, k);
        k := k - 1;
      }
      var next := EntriesOf(blocks, path[k].block)[path[k].child + 1];
      ClimbFound(cfg, t, path, pos, k, |path|);
      path' := path[k := PathEntry(path[k].block, path[k].child + 1)];
      ContinuesMeans(h, next.hash);
      if !HashCanContinue(h, next.hash) {
        return;
      }
      NextStart(cfg, t, path, pos, k);
      leaf := next.block;
      for l := k + 1 to |path|
        invariant NextLoop(t, path, pos, k, path', l, leaf) && |path'| == |path|
      {
        NextStep(cfg, t, path, pos, k, path', l, leaf);
        path', leaf := path'[l := PathEntry(leaf, 0)], EntriesOf(blocks, leaf)[0].block;
      }
      NextEnd(cfg, t, path, pos, k, path', leaf);
      NextLeaf(t, path, pos, k, path', leaf);
      pos', more := Moved(pos, k), true;
    }

    /** Scans the leaves that may hold the name, in order. */
    method Locate(name: Name) returns (found: Option<Entry>, leaf: nat, ghost i: nat)
      requires Valid()
      ensures found.Some? ==> && found.value.name == name && DepthRight() && i < |Leaves(Snapshot())|
                              && leaf == Leaves(Snapshot())[i].block && found.value in LiveIn(blocks, leaf)
      ensures found.None? && DepthRight() ==> forall e :: Holds(e) ==> e.name != name
    {
      hide TreeOk, PathOk, FindLoop, HashCanContinue, LiveIn, LastAtMost, Absent, Stored;
      ghost var t := Snapshot();
      TreeParts(cfg, t);
      var h := cfg.hash(name);
      var path: seq<PathEntry>, b: nat;
      ghost var pos: seq<nat>;
      path, b, pos := FindLeaf(h);
      FindEnd(cfg, t, path, pos, b, h);
      ghost var level := levels[depth + 1];
      ghost var first := pos[depth + 1];
      leaf, i := b, first;
      AbsentStart(t, level, first, name);
      while true
        invariant |path| == depth + 1 && PathOk(t, path, pos) && |pos| == depth + 2 && i == pos[depth + 1] < |level|
        invariant leaf == level[i].block && first <= i && Absent(t, level, first, i, name)
        decreases |level| - i
      {
        found := FindName(LiveIn(blocks, leaf), name);
        if found.Some? {
          FoundInLeaf(cfg, t, depth + 1, i, found.value);
          return;
        }
        AbsentStep(t, level, first, i, name);
        var more: bool, path': seq<PathEntry>, leaf': nat;
        ghost var pos': seq<nat>;
        more, path', leaf', pos' := Advance(path, h, pos);
        if !more {
          if DepthRight() {
            if i + 1 < |level| { ContinuesMeans(h, level[i + 1].sep); }
            SearchEnds(cfg, t, first, i + 1, name);
          }
          return;
        }
        PathFacts(cfg, t, path', pos');
        path, leaf, pos, i := path', leaf', pos', i + 1;
      }
    }

    /** Finds exactly the stored entries while the depth byte is right, and nothing at all otherwise. */
    method Lookup(name: Name) returns (r: Option<Entry>)
      requires Valid()
      ensures name == DOT ==> r == Some(dot)
      ensures name == DOT_DOT ==> r == Some(dotDot)
      ensures name != DOT && name != DOT_DOT && DepthRight() ==>
                forall e: Entry :: e.name == name ==> (r == Some(e) <==> Holds(e))
      ensures name != DOT && name != DOT_DOT && !DepthRight() ==> r == None
      ensures r.Some? ==> r.value.name == name
    {
      hide LiveIn, TreeOk, StoredAt;
      if name == DOT {
        return Some(dot);
      }
      if name == DOT_DOT {
        return Some(dotDot);
      }
      var found, leaf, i := Locate(name);
      if found.Some? {
        StoredHere(cfg, Snapshot(), i, found.value);
      }
      return found;
    }

    // ----- Growing the index

    method Append(b: Block) returns (ok: bool)
      modifies `blocks, `size
      ensures ok <==> old(size) < MAX_BLOCKS
      ensures ok ==> blocks == old(blocks)[old(size) := b] && size == old(size) + 1
      ensures !ok ==> blocks == old(blocks) && size == old(size)
    {
      if size >= MAX_BLOCKS {
        return false;
      }
      blocks, size := blocks[size := b], size + 1;
      return true;
    }

    method InsertChild(parent: PathEntry, hash: nat, child: nat) returns (ok: bool)
      requires parent.block in blocks && blocks[parent.block].Index? && parent.child < |blocks[parent.block].entries|
      modifies `blocks
      ensures ok <==> !Full(old(blocks), parent.block)
      ensures ok ==> blocks == var node := old(blocks[parent.block]);
                               old(blocks)[parent.block := Index(node.limit,
                                 InsertEntry(node.entries, parent.child, IndexEntry(hash, child)))]
      ensures !ok ==> blocks == old(blocks)
    {
      var node := blocks[parent.block];
      if |node.entries| >= node.limit {
        return false;
      }
      var at := parent.child + 1;
      blocks := blocks[parent.block := Index(node.limit, node.entries[..at] + [IndexEntry(hash, child)] +
        node.entries[at..])];
      return true;
    }

    /** The root's entries move one level down; the depth byte is set to one whatever it was. */
    method SplitRoot(path: seq<PathEntry>, ghost pos: seq<nat>) returns (ok: bool, path': seq<PathEntry>,
                     ghost pos': seq<nat>)
      requires ConfigOk(cfg) && Structure(cfg, Snapshot()) && PathOk(Snapshot(), path, pos) && path != []
      requires path[0].block == 0
      modifies `blocks, `size, `depth, `levels, `home
      ensures ok <==> old(size) < MAX_BLOCKS
      ensures ok ==> RoomMade(cfg, old(Snapshot()), Snapshot(), path, pos, path', pos', 0)
      ensures ok ==> depth == 1 && size == old(size) + 1
      ensures ok ==> |levels| == |old(levels)| + 1
      ensures !ok ==> Snapshot() == old(Snapshot()) && depth == old(depth)
    {
      hide Structure, PathOk, RoomMade;
      ghost var t := Snapshot();
      RootNode(cfg, t);
      RootRoom(cfg, t, path, pos);
      var root := blocks[0];
      var born := size;
      path', pos' := path, pos;
      ok := Append(Index(cfg.nodeLimit, root.entries));
      if !ok {
        return;
      }
      blocks := blocks[0 := Index(root.limit, [IndexEntry(0, born)])];
      depth := 1;
      levels, home := [[Node(0, 0)], [Node(0, born)]] + levels[1..], home[0 := |levels|][born := |levels| - 1];
      path' := [PathEntry(0, 0), PathEntry(born, path[0].child)] + path[1..];
      pos' := [0] + pos;
      assert Snapshot() == RootSplitTree(cfg, t);
    }

    /** Cuts a full node in half once its parent has room. */
    method SplitNode(path: seq<PathEntry>, k: nat, ghost pos: seq<nat>) returns (ok: bool, path': seq<PathEntry>,
                     ghost pos': seq<nat>)
      requires PathOk(Snapshot(), path, pos) && 0 < k < |path|
      requires Splittable(cfg, Snapshot(), k, pos[k], pos[k - 1], path[k - 1].child)
      modifies `blocks, `size, `levels, `home
      ensures ok <==> old(size) < MAX_BLOCKS
      ensures ok ==> var t := old(Snapshot());
                     var left := |EntriesOf(t.blocks, path[k].block)| / 2;
                     && Snapshot() == SplitTree(cfg, t, k, pos[k], pos[k - 1], path[k - 1].child)
                     && path' == SplitPath(path, k, left, t.size) && pos' == SplitPos(pos, path, k, left)
      ensures !ok ==> Snapshot() == old(Snapshot())
    {
      hide Structure, NodeOk, InsertNode, InsertEntry, Start;
      ghost var t := Snapshot();
      SplitNodeFacts(cfg, t, path, pos, k);
      var node, parent := path[k].block, path[k - 1];
      var entries, limit, born := blocks[node].entries, blocks[node].limit, size;
      var left := |entries| / 2;
      path', pos' := path, pos;
      ok := Append(Index(cfg.nodeLimit, entries[left..]));
      if !ok {
        return;
      }
      blocks := blocks[node := Index(limit, entries[..left])];
      assert blocks[parent.block] == t.blocks[parent.block];
      ok := InsertChild(parent, entries[left].hash, born);
      assert blocks == SplitBlocks(cfg, t.blocks, node, parent.block, parent.child, born);
      levels := levels[k := InsertNode(levels[k], pos[k], Node(entries[left].hash, born))];
      home := home[born := |levels| - 1 - k];
      path', pos' := SplitPath(path, k, left, born), SplitPos(pos, path, k, left);
    }

    /** Makes room in the node at `index` of the path, splitting full nodes from the top down. */
    method EnsureRoom(path: seq<PathEntry>, index: nat, ghost pos: seq<nat>)
      returns (ok: bool, path': seq<PathEntry>, ghost pos': seq<nat>)
      requires ConfigOk(cfg) && Structure(cfg, Snapshot()) && size <= MAX_BLOCKS
      requires PathOk(Snapshot(), path, pos) && |path| == |levels| - 1 && index < |path|
      modifies `blocks, `size, `depth, `levels, `home
      decreases index
      ensures Grown(cfg, old(Snapshot()), Snapshot()) && size <= MAX_BLOCKS
      ensures |levels| == |old(levels)| + 1 <==> PathFull(old(blocks), path, index) && old(size) < MAX_BLOCKS
      ensures depth == if |levels| == |old(levels)| then old(depth) else 1
      ensures ok ==> RoomMade(cfg, old(Snapshot()), Snapshot(), path, pos, path', pos', index)
      ensures old(size) + index + 1 <= MAX_BLOCKS ==> ok && size <= old(size) + index + 1
    {
      hide Structure, PathOk, RoomMade, Grown, Full, Splittable, SplitTree, SplitPath, SplitPos;
      ghost var t := Snapshot();
      PathNode(cfg, t, path, pos, index);
      path', pos' := path, pos;
      GrownNot(cfg, t);
      if !Full(blocks, path[index].block) {
        NothingToDo(cfg, t, path, pos, index);
        return true, path, pos;
      }
      if index == 0 {
        ok, path', pos' := SplitRoot(path, pos);
        if ok {
          RoomGrown(cfg, t, Snapshot(), path, pos, path', pos', 0);
        }
        return;
      }
      PathFullStep(blocks, path, index);
      ok, path', pos' := EnsureRoom(path, index - 1, pos);
      if !ok {
        return;
      }
      ghost var v, path1, pos1 := Snapshot(), path', pos';
      var k := index + (|path'| - |path|);
      RoomGrown(cfg, t, v, path, pos, path1, pos1, index - 1);
      CanSplit(cfg, t, v, path, pos, path1, pos1, index);
      SplitRoom(cfg, t, v, path, pos, path1, pos1, index, k);
      ok, path', pos' := SplitNode(path', k, pos');
      if ok {
        RoomGrown(cfg, t, Snapshot(), path, pos, path', pos', index);
        SplitSame(cfg, v, k, pos1[k], pos1[k - 1], path1[k - 1].child);
      }
    }

    // ----- Insertion

    /** Rewrites a leaf so that it also holds `e`. */
    method WriteLeaf(leaf: nat, records: seq<Record>, ghost i: nat, ghost e: Entry)
      requires Valid() && i < |Leaves(Snapshot())| && leaf == Leaves(Snapshot())[i].block
      requires Fresh(cfg, Snapshot(), i, e)
      requires Tiles(records, cfg.usable) && multiset(Live(records)) == multiset(LiveIn(blocks, leaf)) + multiset{e}
      modifies `blocks
      ensures Valid() && Gains(old(Snapshot()), Snapshot(), e) && Contents() == old(Contents()) + multiset{e}
    {
      hide TreeOk, Fresh, Tiles, Gains, Bag, Live, LiveIn, Once;
      OneMoreMember(LiveIn(blocks, leaf), Live(records), e);
      WriteGains(cfg, Snapshot(), i, records, e);
      TreeParts(cfg, Snapshot());
      WriteBag(cfg, Snapshot(), i, records);
      Cancel(Bag(blocks[leaf := Leaf(records)], Leaves(Snapshot())), Contents(), multiset(LiveIn(blocks, leaf)),
        multiset{e});
      OnceMore(cfg, Snapshot(), WriteTree(Snapshot(), leaf, records), i, e);
      blocks := blocks[leaf := Leaf(records)];
    }

    /** Cuts an overflowing leaf at `m`; the new leaf is announced to a parent that has room. */
    method SplitLeaf(leaf: nat, parent: PathEntry, entries: seq<Entry>, m: nat, sep: nat,
                     ghost i: nat, ghost q: nat, ghost e: Entry) returns (r: AddResult)
      requires Valid() && i < |Leaves(Snapshot())| && leaf == Leaves(Snapshot())[i].block
      requires Fresh(cfg, Snapshot(), i, e) && Overflow(cfg, Snapshot(), i, e, entries)
      requires multiset(entries) == multiset(LiveIn(blocks, leaf)) + multiset{e}
      requires 0 < m < |entries| && sep == SeparatorAt(cfg.hash, entries, m)
      requires forall x :: x in entries ==> ValidEntry(x)
      requires LeafSplittable(cfg, Snapshot(), i, q, parent.child, sep) && parent.block == levels[|levels| - 2][q].block
      modifies `blocks, `size, `levels, `home
      ensures Valid() && |levels| == |old(levels)|
      ensures r.Added? ==> Gains(old(Snapshot()), Snapshot(), e) && Contents() == old(Contents()) + multiset{e}
      ensures !r.Added? ==> Snapshot() == old(Snapshot())
      ensures r.Added? <==>
                SizeOf(entries[..m]) <= cfg.usable && SizeOf(entries[m..]) <= cfg.usable && old(size) < MAX_BLOCKS
      ensures !r.AlreadyExists?
    {
      hide TreeOk, Fresh, Tiles, Gains, Overflow, LeafSplittable, Live, LiveIn, Bag, Once;
      ghost var t := Snapshot();
      TreeParts(cfg, t);
      SplittableParent(cfg, t, i, q, parent.child, sep);
      var left, right := Pack(entries[..m], cfg.usable), Pack(entries[m..], cfg.usable);
      if left.None? || right.None? {
        return Corrupt;
      }
      LeafSplitGains(cfg, t, i, q, parent.child, e, entries, m, left.value, right.value);
      SplitContents(cfg, t, i, q, parent.child, e, entries, m, left.value, right.value);
      var born := size;
      var ok := Append(Leaf(right.value));
      if !ok {
        return NoSpaceLeft;
      }
      ok := InsertChild(parent, sep, born);
      blocks := blocks[leaf := Leaf(left.value)];
      levels := levels[|levels| - 1 := InsertNode(Leaves(t), i, Node(sep, born))];
      home := home[born := 0];
      assert Snapshot() == LeafSplitTree(cfg, t, i, q, parent.child, sep, left.value, right.value);
      return Added;
    }

    /** Redistributes a leaf without a free slot, over two leaves when one is not enough. */
    method Redistribute(path: seq<PathEntry>, leaf: nat, e: Entry, ghost pos: seq<nat>) returns (r: AddResult)
      requires Valid() && DepthRight() && ValidEntry(e) && |path| == |levels| - 1
      requires FindLoop(Snapshot(), path, pos, leaf, cfg.hash(e.name)) && Fresh(cfg, Snapshot(), pos[|path|], e)
      modifies `blocks, `size, `depth, `levels, `home
      ensures Valid() && !r.AlreadyExists?
      ensures r.Added? ==> Gains(old(Snapshot()), Snapshot(), e) && Contents() == old(Contents()) + multiset{e}
      ensures !r.Added? ==> Contents() == old(Contents()) && forall x :: Holds(x) <==> old(Holds(x))
      ensures depth == if |levels| == |old(levels)| then old(depth) else 1
      ensures |levels| == |old(levels)| || |levels| == |old(levels)| + 1
      ensures |levels| == |old(levels)| + 1 <==>
              && old(size) < MAX_BLOCKS && PathFull(old(blocks), path, |path| - 1)
              && var entries := SortByHash(cfg.hash, old(LiveIn(blocks, leaf)) + [e]);
                 SizeOf(entries) > cfg.usable && MinSize(|entries[0].name|) <= cfg.usable / 2
      ensures cfg.usable >= SPLIT_FITS && old(size) + |old(levels)| <= MAX_BLOCKS ==> r.Added?
    {
      hide TreeOk, Fresh, Tiles, Gains, Overflow, LeafSplittable, Live, LiveIn, FindLoop, PathOk, PathFull, RoomMade,
           Grown;
      hide SortByHash, SizeOf, SeparatorAt, ValidEntry, StoredAt, Stored, Bag, Once;
      ghost var t := Snapshot();
      FindEnd(cfg, t, path, pos, leaf, cfg.hash(e.name));
      TreeParts(cfg, t);
      ghost var i := pos[|path|];
      var entries := SortByHash(cfg.hash, LiveIn(blocks, leaf) + [e]);
      Redistributed(cfg, t, i, e, entries);
      var choice := ChooseSplit(cfg.hash, entries, cfg.usable);
      if choice.Fits? {
        var packed := Pack(entries, cfg.usable);
        WriteLeaf(leaf, packed.value, i, e);
        return Added;
      }
      if choice.NoSpace? {
        SplitPossible(cfg, entries);
        return NoSpaceLeft;
      }
      var m := choice.index;
      SeparatorInLeaf(cfg, t, i, e, entries, m);
      var ok, path', pos' := EnsureRoom(path, |path| - 1, pos);
      GrownKeeps(cfg, t, Snapshot());
      GrownHolds(cfg, t, Snapshot());
      GrownOnce(cfg, t, Snapshot());
      if !ok {
        return NoSpaceLeft;
      }
      RoomForLeaf(cfg, t, Snapshot(), path, pos, path', pos', i, e, entries, choice.separator);
      HalvesFit(cfg, entries, m);
      ghost var v := Snapshot();
      r := SplitLeaf(leaf, path'[|path'| - 1], entries, m, choice.separator, i, pos'[|path'| - 1], e);
      if r.Added? {
        GainsAfterGrowth(cfg, t, v, Snapshot(), e);
      }
    }

    /** Adds a name. The tree always ends up well formed and holds exactly one entry more; the depth byte stays
        right unless the root is split in a tree that already had an index level below the root. */
    method Add(e: Entry) returns (r: AddResult)
      requires Valid() && DepthRight() && ValidEntry(e)
      modifies `blocks, `size, `depth, `levels, `home
      ensures Valid()
      ensures r.AlreadyExists? <==> e.name == DOT || e.name == DOT_DOT || exists f :: old(Holds(f)) && f.name == e.name
      ensures r.Added? ==> Contents() == old(Contents()) + multiset{e}
      ensures r.Added? ==> forall x :: Holds(x) <==> old(Holds(x)) || x == e
      ensures !r.Added? ==> Contents() == old(Contents()) && forall x :: Holds(x) <==> old(Holds(x))
      ensures r.AlreadyExists? ==> DepthRight()
      ensures !r.AlreadyExists? ==> (DepthRight() <==> !(old(depth) >= 1 && RootSplitDue(cfg, old(Snapshot()), e)))
      ensures cfg.usable >= SPLIT_FITS && old(size) + |old(levels)| <= MAX_BLOCKS ==> r.Added? || r.AlreadyExists?
    {
      hide TreeOk, Fresh, Tiles, FindLoop, PathFull, LeafOverflows, IndexFull, Stored, LastAtMost, ValidEntry, HasRoom,
           Live, NeedsSplit;
      hide Bag, Once, SortByHash, SizeOf, InOrder, HashSorted, SortsBefore, NameAtMost, MinSize, Spare;
      ghost var t := Snapshot();
      var found := Lookup(e.name);
      if found.Some? {
        assert e.name != DOT && e.name != DOT_DOT ==> Holds(found.value);
        return AlreadyExists;
      }
      NotThere(t, e.name, found);
      var path: seq<PathEntry>, leaf: nat;
      ghost var pos: seq<nat>;
      path, leaf, pos := FindLeaf(cfg.hash(e.name));
      FindEnd(cfg, t, path, pos, leaf, cfg.hash(e.name));
      TreeParts(cfg, t);
      PathFullIsIndexFull(cfg, t, path, pos, leaf, cfg.hash(e.name));
      ghost var i := pos[|path|];
      FreshLeaf(cfg, t, i, e);
      var records := blocks[leaf].records;
      var slot := FirstSlot(records, MinSize(|e.name|));
      NeedsSplitHere(cfg, t, i, e);
      if slot.Some? {
        SlotGains(cfg, records, slot.value, e);
        WriteLeaf(leaf, InsertAt(records, slot.value, e), i, e);
        return Added;
      }
      r := Redistribute(path, leaf, e, pos);
    }

    /** Adds names one after the other, and then looks each of them up. A caller who stops before a full root that
        already has an index level below it loses nothing: what a lookup finds is then what was there and what was
        added. */
    method AddAll(entries: seq<Entry>) returns (results: seq<AddResult>, found: seq<Option<Entry>>)
      requires Valid() && DepthRight() && forall i :: 0 <= i < |entries| ==> ValidEntry(entries[i])
      modifies `blocks, `size, `depth, `levels, `home
      ensures Valid() && DepthRight() && |results| == |found| <= |entries|
      ensures |results| < |entries| ==> depth >= 1 && Full(blocks, 0)
      ensures forall x :: Holds(x) <==> old(Holds(x)) || AddedBy(entries, results, x)
      ensures forall i :: 0 <= i < |results| ==> LooksUp(entries[i].name, found[i])
      ensures forall i :: 0 <= i < |results| && results[i].Added? ==> found[i] == Some(entries[i])
      ensures forall i :: 0 <= i < |results| && results[i].AlreadyExists? ==> found[i].Some?
    {
      hide Valid, Holds, RootSplitDue, Full, ValidEntry, AddedBy, Contents;
      results := [];
      AddedNone(entries);
      while |results| < |entries| && !(depth >= 1 && Full(blocks, 0))
        invariant Valid() && DepthRight() && |results| <= |entries|
        invariant forall x :: Holds(x) <==> old(Holds(x)) || AddedBy(entries, results, x)
        invariant forall i :: 0 <= i < |results| ==> Settles(entries[i], results[i])
        decreases |entries| - |results|
      {
        RootFullWhenDue(entries[|results|]);
        var r := Add(entries[|results|]);
        AddedMore(entries, results, r);
        results := results + [r];
      }
      found := LookupAll(entries, results);
    }

    method LookupAll(entries: seq<Entry>, results: seq<AddResult>) returns (found: seq<Option<Entry>>)
      requires Valid() && DepthRight() && |results| <= |entries|
      requires forall i :: 0 <= i < |results| ==> Settles(entries[i], results[i])
      ensures |found| == |results| && forall i :: 0 <= i < |found| ==> LooksUp(entries[i].name, found[i])
      ensures forall i :: 0 <= i < |found| && results[i].Added? ==> found[i] == Some(entries[i])
      ensures forall i :: 0 <= i < |found| && results[i].AlreadyExists? ==> found[i].Some?
    {
      hide Valid, Holds;
      found := [];
      for i := 0 to |results|
        invariant |found| == i
        invariant forall k :: 0 <= k < i ==> LooksUp(entries[k].name, found[k])
        invariant forall k :: 0 <= k < i && results[k].Added? ==> found[k] == Some(entries[k])
        invariant forall k :: 0 <= k < i && results[k].AlreadyExists? ==> found[k].Some?
      {
        var r := Lookup(entries[i].name);
        assert Settles(entries[i], results[i]);
        found := found + [r];
      }
    }

    /** What a lookup of `name` must give. */
    ghost predicate LooksUp(name: Name, r: Option<Entry>)
      reads this
    {
      && (name == DOT ==> r == Some(dot)) && (name == DOT_DOT ==> r == Some(dotDot))
      && (name != DOT && name != DOT_DOT ==> forall e: Entry :: e.name == name ==> (r == Some(e) <==> Holds(e)))
    }

    ghost predicate Settles(e: Entry, r: AddResult)
      reads this
    {
      && (r.Added? ==> Holds(e) && e.name != DOT && e.name != DOT_DOT)
      && (r.AlreadyExists? ==> e.name == DOT || e.name == DOT_DOT || exists f :: Holds(f) && f.name == e.name)
    }

    lemma RootFullWhenDue(e: Entry)
      requires Valid()
      ensures RootSplitDue(cfg, Snapshot(), e) ==> Full(blocks, 0)
    {
      hide LeafOverflows, Full;
      assert LastAtMost(levels[0], 0, cfg.hash(e.name));
    }

    // ----- Removal

    /** Removes a name by merging its record into the one before it; the shape of the tree does not change. */
    method Remove(name: Name) returns (r: RemoveResult)
      requires Valid()
      modifies `blocks
      ensures Valid()
      ensures r.Readonly? <==> name == DOT || name == DOT_DOT
      ensures r.Removed? ==> DepthRight() && exists e :: RemovedFrom(old(Contents()), Contents(), e, name)
      ensures r.Removed? ==> forall e :: Holds(e) ==> e.name != name
      ensures r.Removed? <==>
                DepthRight() && name != DOT && name != DOT_DOT && exists e :: old(Holds(e)) && e.name == name
      ensures !r.Removed? ==> blocks == old(blocks)
    {
      hide TreeOk, Once, Bag, Live, LiveIn, Tiles, Leaves, Stored;
      if name == DOT || name == DOT_DOT {
        return Readonly;
      }
      ghost var t := Snapshot();
      var found, leaf, i := Locate(name);
      if found.None? {
        return NotFound;
      }
      FoundIsHeld(cfg, t, i, found.value);
      var records := blocks[leaf].records;
      var k := IndexOfName(records, name, found.value);
      RemoveKeeps(cfg, t, i, k, name);
      blocks := blocks[leaf := Leaf(RemoveAt(records, k))];
      assert RemovedFrom(old(Contents()), Contents(), records[k].entry.value, name);
      return Removed;
    }
  }

  ghost predicate AddedBy(entries: seq<Entry>, results: seq<AddResult>, x: Entry)
    requires |results| <= |entries|
  {
    exists i :: 0 <= i < |results| && results[i].Added? && entries[i] == x
  }

  lemma AddedNone(entries: seq<Entry>)
    ensures forall x :: !AddedBy(entries, [], x)
  {}

  lemma AddedMore(entries: seq<Entry>, results: seq<AddResult>, r: AddResult)
    requires |results| < |entries|
    ensures forall x :: AddedBy(entries, results + [r], x) <==>
                        AddedBy(entries, results, x) || (r.Added? && entries[|results|] == x)
  {
    assert forall i :: 0 <= i < |results| ==> (results + [r])[i] == results[i];
    assert (results + [r])[|results|] == r;
  }

  datatype RemoveResult = Removed | NotFound | Readonly

  ghost predicate RemovedFrom(before: multiset<Entry>, after: multiset<Entry>, e: Entry, name: Name) {
    e.name == name && e in before && after == before - multiset{e}
  }

  /** The first record with the name. */
  method IndexOfName(records: seq<Record>, name: Name, ghost e: Entry) returns (k: nat)
    requires e in Live(records) && e.name == name
    ensures k < |records| && Named(records[k], name) && forall j :: 0 <= j < k ==> !Named(records[j], name)
  {
    LiveNamed(records, name);
    k := 0;
    assert HasName(Live(records), name);
    while !Named(records[k], name)
      invariant k < |records| && forall j :: 0 <= j < k ==> !Named(records[j], name)
      decreases |records| - k
    {
      k := k + 1;
    }
  }

  lemma FoundIsHeld(cfg: Config, t: Tree, i: nat, e: Entry)
    requires TreeOk(cfg, t) && i < |Leaves(t)| && e in LiveIn(t.blocks, Leaves(t)[i].block)
    ensures Stored(t.blocks, Leaves(t), e)
    ensures var b := Leaves(t)[i].block;
            && b in t.blocks && t.blocks[b].Leaf? && e in Live(t.blocks[b].records) &&
               Tiles(t.blocks[b].records, cfg.usable)
  {
    hide Structure, Live, Tiles;
    LeafNode(cfg, t, i);
    assert StoredAt(t.blocks, Leaves(t), i, e);
  }

  lemma {:induction false} PairFits(records: seq<Record>, k: nat)
    requires 0 < k < |records|
    ensures records[k - 1].recLen + records[k].recLen <= TotalLen(records)
  {
    var a, b := records[..k - 1], records[k + 1..];
    assert records == a + [records[k - 1]] + ([records[k]] + b);
    hide TotalLen, Live;
    Replaced(a, records[k - 1], [records[k]] + b);
    TotalLenConcat([records[k]], b);
    One(records[k]);
  }

  /** Removing record `k` of leaf `i` takes exactly its entry away, and with it the name. */
  lemma RemoveKeeps(cfg: Config, t: Tree, i: nat, k: nat, name: Name)
    requires TreeOk(cfg, t) && Once(t) && i < |Leaves(t)| && Leaves(t)[i].block in t.blocks
    requires t.blocks[Leaves(t)[i].block].Leaf?
    requires var records := t.blocks[Leaves(t)[i].block].records;
             Tiles(records, cfg.usable) && k < |records| && Named(records[k], name)
    ensures var b := Leaves(t)[i].block;
            var e := t.blocks[b].records[k].entry.value;
            var u := WriteTree(t, b, RemoveAt(t.blocks[b].records, k));
            && TreeOk(cfg, u) && Once(u) && RemovedFrom(Bag(t.blocks, Leaves(t)), Bag(u.blocks, Leaves(u)), e, name)
            && forall x :: Stored(u.blocks, Leaves(u), x) ==> x.name != name
  {
    var b := Leaves(t)[i].block;
    var records := t.blocks[b].records;
    var e, after := records[k].entry.value, RemoveAt(records, k);
    var u := WriteTree(t, b, after);
    hide Live, Tiles, LiveIn, Bag, Stored, RemoveAt, Leaves, WriteTree, TreeOk, Structure, TotalLen, Once;
    SameLeaves(t, b, after);
    TreeParts(cfg, t);
    RecordRemoved(cfg, records, k, name);
    LessMembers(Live(records), Live(after), e);
    WriteLess(cfg, t, i, after);
    WriteBag(cfg, t, i, after);
    Cancel(Bag(t.blocks, Leaves(t)), Bag(u.blocks, Leaves(u)), multiset(Live(after)), multiset{e});
    NameGone(cfg, t, u, e);
  }

  lemma SameLeaves(t: Tree, b: nat, after: seq<Record>)
    ensures Leaves(WriteTree(t, b, after)) == Leaves(t)
    ensures b in t.blocks && t.blocks[b].Leaf? ==> LiveIn(t.blocks, b) == Live(t.blocks[b].records)
  {
    hide Live;
  }

  lemma RecordRemoved(cfg: Config, records: seq<Record>, k: nat, name: Name)
    requires ConfigOk(cfg) && Tiles(records, cfg.usable) && k < |records| && Named(records[k], name)
    ensures Tiles(RemoveAt(records, k), cfg.usable)
    ensures multiset(Live(records)) == multiset(Live(RemoveAt(records, k))) + multiset{records[k].entry.value}
  {
    if k > 0 { PairFits(records, k); }
    hide Live, RemoveAt;
    RemoveAtMeaning(records, k, cfg.usable);
    OneLess(Live(records[..k]), Live(records[k + 1..]), records[k].entry.value);
  }

  lemma OneLess(a: seq<Entry>, b: seq<Entry>, e: Entry)
    ensures multiset(a + [e] + b) == multiset(a + b) + multiset{e}
  {}

  lemma LessMembers(before: seq<Entry>, after: seq<Entry>, e: Entry)
    requires multiset(before) == multiset(after) + multiset{e}
    ensures forall x :: x in after ==> x in before
  {
    forall x | x in after
      ensures x in before
    {
      assert x in multiset(before);
    }
  }

  lemma NameGone(cfg: Config, t: Tree, u: Tree, e: Entry)
    requires TreeOk(cfg, t) && Once(t) && Bag(t.blocks, Leaves(t)) == Bag(u.blocks, Leaves(u)) + multiset{e}
    ensures Once(u) && forall x :: Stored(u.blocks, Leaves(u), x) ==> x.name != e.name
  {
    hide Structure, Bag, Stored, Leaves, RangesOk;
    var before, after := Bag(t.blocks, Leaves(t)), Bag(u.blocks, Leaves(u));
    assert before[e] <= 1 && after[e] == 0;
    forall x
      ensures after[x] <= 1
    {
      assert before[x] == after[x] + multiset{e}[x];
    }
    BagIsStored(t.blocks, Leaves(t), e);
    forall x | Stored(u.blocks, Leaves(u), x)
      ensures x.name != e.name
    {
      BagIsStored(u.blocks, Leaves(u), x);
      BagIsStored(t.blocks, Leaves(t), x);
      assert before[x] == after[x] + multiset{e}[x];
    }
  }

  /** The insertion of `e` splits the root. */
  ghost predicate RootSplitDue(cfg: Config, t: Tree, e: Entry) {
    t.size < MAX_BLOCKS && LeafOverflows(cfg, t, e) && IndexFull(t, cfg.hash(e.name))
  }

  method FirstSlot(records: seq<Record>, need: nat) returns (r: Option<nat>)
    ensures r.Some? ==> r.value < |records| && Spare(records[r.value]) >= need
    ensures r.Some? ==> forall i :: 0 <= i < r.value ==> Spare(records[i]) < need
    ensures r.None? <==> forall i :: 0 <= i < |records| ==> Spare(records[i]) < need
  {
    for i := 0 to |records|
      invariant forall j :: 0 <= j < i ==> Spare(records[j]) < need
    {
      if HasRoom(records[i], need) {
        return Some(i);
      }
    }
    return None;
  }

  lemma NotThere(t: Tree, name: Name, found: Option<Entry>)
    requires found.None? && forall e: Entry :: e.name == name ==> (found == Some(e) <==> Stored(t.blocks, Leaves(t), e))
    ensures forall f :: Stored(t.blocks, Leaves(t), f) ==> f.name != name
  {}

  lemma FreshLeaf(cfg: Config, t: Tree, i: nat, e: Entry)
    requires Structure(cfg, t) && LastAtMost(Leaves(t), i, cfg.hash(e.name))
    requires forall f :: Stored(t.blocks, Leaves(t), f) ==> f.name != e.name
    ensures Fresh(cfg, t, i, e) && i < |Leaves(t)|
    ensures var b := Leaves(t)[i].block;
            && b in t.blocks && t.blocks[b].Leaf? && Tiles(t.blocks[b].records, cfg.usable)
            && LiveIn(t.blocks, b) == Live(t.blocks[b].records)
  {
    hide Structure, Tiles, Live;
    LeafNode(cfg, t, i);
  }

  lemma SlotGains(cfg: Config, records: seq<Record>, i: nat, e: Entry)
    requires Tiles(records, cfg.usable) && i < |records| && Spare(records[i]) >= MinSize(|e.name|) && ValidEntry(e)
    ensures HasRoom(records[i], MinSize(|e.name|)) && Tiles(InsertAt(records, i, e), cfg.usable)
    ensures multiset(Live(InsertAt(records, i, e))) == multiset(Live(records)) + multiset{e}
  {
    hide Tiles, Live, InsertAt;
    InsertAtMeaning(records, i, e, cfg.usable);
    OneMore(Live(records), Live(InsertAt(records, i, e)), e);
  }

  lemma NeedsSplitHere(cfg: Config, t: Tree, i: nat, e: Entry)
    requires Structure(cfg, t) && LastAtMost(Leaves(t), i, cfg.hash(e.name))
    requires Leaves(t)[i].block in t.blocks && t.blocks[Leaves(t)[i].block].Leaf?
    ensures LeafOverflows(cfg, t, e) <==> NeedsSplit(cfg, t.blocks[Leaves(t)[i].block].records, e)
    ensures var records := t.blocks[Leaves(t)[i].block].records;
            var entries := SortByHash(cfg.hash, LiveIn(t.blocks, Leaves(t)[i].block) + [e]);
            NeedsSplit(cfg, records, e) <==>
              (forall j :: 0 <= j < |records| ==> Spare(records[j]) < MinSize(|e.name|))
              && SizeOf(entries) > cfg.usable && MinSize(|entries[0].name|) <= cfg.usable / 2
  {
    hide Structure, Live, SortByHash, SizeOf, HasRoom;
    LeavesSorted(cfg, t);
    forall j: nat | LastAtMost(Leaves(t), j, cfg.hash(e.name))
      ensures j == i
    {
      LastIsUnique(Leaves(t), i, j, cfg.hash(e.name));
    }
  }

  /** The entries of a leaf and the new one, ready to be redistributed. */
  lemma Redistributed(cfg: Config, t: Tree, i: nat, e: Entry, entries: seq<Entry>)
    requires ConfigOk(cfg) && Structure(cfg, t) && i < |Leaves(t)| && ValidEntry(e)
    requires entries == SortByHash(cfg.hash, LiveIn(t.blocks, Leaves(t)[i].block) + [e])
    ensures Overflow(cfg, t, i, e, entries) && entries != []
    ensures multiset(entries) == multiset(LiveIn(t.blocks, Leaves(t)[i].block)) + multiset{e}
    ensures forall x :: x in entries ==> ValidEntry(x)
    ensures forall x :: x in entries <==> x in LiveIn(t.blocks, Leaves(t)[i].block) || x == e
    ensures SizeOf(entries) <= cfg.usable + 264
  {
    hide Structure, Live, SortByHash, Leaves;
    LeafNode(cfg, t, i);
    LiveFits(t.blocks[Leaves(t)[i].block].records);
    hide LiveIn;
    SortedUp(cfg, LiveIn(t.blocks, Leaves(t)[i].block), e, entries);
  }

  lemma SortedUp(cfg: Config, live: seq<Entry>, e: Entry, entries: seq<Entry>)
    requires ValidEntry(e) && SizeOf(live) <= cfg.usable && forall x :: x in live ==> ValidEntry(x)
    requires entries == SortByHash(cfg.hash, live + [e])
    ensures entries != [] && HashSorted(cfg.hash, entries) && SizeOf(entries) <= cfg.usable + 264
    ensures forall x :: x in entries <==> x in live || x == e
    ensures forall x :: x in entries ==> ValidEntry(x)
  {
    hide SortByHash, MinSize, HashSorted, SizeOf;
    LargestSize(e);
    hide ValidEntry;
    SizeConcat(live, [e]);
    SizeOfOne(e);
    SameMembers(entries, live + [e]);
  }

  lemma LargestSize(e: Entry)
    requires ValidEntry(e)
    ensures MinSize(|e.name|) <= 264
  {}

  lemma SizeOfOne(e: Entry)
    ensures SizeOf([e]) == MinSize(|e.name|)
  {
    assert [e][1..] == [];
  }

  lemma SameMembers(s: seq<Entry>, t: seq<Entry>)
    requires multiset(s) == multiset(t)
    ensures forall x :: x in s <==> x in t
  {
    forall x
      ensures x in s <==> x in t
    {
      assert x in multiset(s) <==> x in multiset(t);
    }
  }

  lemma SplitPossible(cfg: Config, entries: seq<Entry>)
    requires entries != [] && SizeOf(entries) > cfg.usable && MinSize(|entries[0].name|) > cfg.usable / 2
    requires forall x :: x in entries ==> ValidEntry(x)
    ensures cfg.usable < SPLIT_FITS
  {
    assert ValidEntry(entries[0]);
  }

  lemma SeparatorInLeaf(cfg: Config, t: Tree, i: nat, e: Entry, entries: seq<Entry>, m: nat)
    requires TreeOk(cfg, t) && i < |Leaves(t)| && Fresh(cfg, t, i, e) && Overflow(cfg, t, i, e, entries)
    requires 0 < m < |entries|
    ensures var sep := SeparatorAt(cfg.hash, entries, m);
            Leaves(t)[i].sep <= sep && (i + 1 < |Leaves(t)| ==> sep <= Leaves(t)[i + 1].sep)
  {
    hide Structure, Leaves, SeparatorAt, InRange, LiveIn;
    OverflowInRange(cfg, t, i, e, entries);
    SeparatorBetween(cfg, Leaves(t), i, entries, m);
  }

  lemma HalvesFit(cfg: Config, entries: seq<Entry>, m: nat)
    requires 0 < m < |entries| && cfg.usable < SizeOf(entries) <= cfg.usable + 264
    requires forall x :: x in entries ==> ValidEntry(x)
    requires SizeOf(entries[..m]) <= cfg.usable / 2 < SizeOf(entries[..m + 1])
    ensures cfg.usable >= SPLIT_FITS ==> SizeOf(entries[..m]) <= cfg.usable && SizeOf(entries[m..]) <= cfg.usable
  {
    hide SizeOf;
    if cfg.usable >= SPLIT_FITS {
      assert forall k :: 0 <= k < |entries| ==> ValidEntry(entries[k]);
      SplitHalvesFit(entries, m, cfg.usable);
    }
  }

  lemma GrownHolds(cfg: Config, t: Tree, u: Tree)
    requires Grown(cfg, t, u)
    ensures Leaves(u) == Leaves(t) && |t.levels| <= |u.levels| <= |t.levels| + 1
  {}

  lemma GainsAfterGrowth(cfg: Config, t: Tree, v: Tree, u: Tree, e: Entry)
    requires forall x :: Stored(v.blocks, Leaves(v), x) <==> Stored(t.blocks, Leaves(t), x)
    requires Gains(v, u, e)
    ensures Gains(t, u, e)
  {
    hide Stored, Leaves;
  }

  /** After room was made, the leaf, its entries and its place are as before, and its parent can take a child. */
  lemma RoomForLeaf(cfg: Config, t: Tree, u: Tree, path: seq<PathEntry>, pos: seq<nat>, path': seq<PathEntry>,
                    pos': seq<nat>,
                    i: nat, e: Entry, entries: seq<Entry>, sep: nat)
    requires ConfigOk(cfg) && Structure(cfg, t) && |path| == |t.levels| - 1 && |pos| == |path| + 1
    requires i == pos[|path|] < |Leaves(t)|
    requires RoomMade(cfg, t, u, path, pos, path', pos', |path| - 1)
    requires Fresh(cfg, t, i, e) && Overflow(cfg, t, i, e, entries)
    requires Leaves(t)[i].sep <= sep && (i + 1 < |Leaves(t)| ==> sep <= Leaves(t)[i + 1].sep)
    requires forall x :: Stored(u.blocks, Leaves(u), x) <==> Stored(t.blocks, Leaves(t), x)
    ensures Leaves(u) == Leaves(t) && Fresh(cfg, u, i, e) && Overflow(cfg, u, i, e, entries)
    ensures LiveIn(u.blocks, Leaves(t)[i].block) == LiveIn(t.blocks, Leaves(t)[i].block)
    ensures |path'| == |u.levels| - 1 && |pos'| == |path'| + 1
    ensures LeafSplittable(cfg, u, i, pos'[|path'| - 1], path'[|path'| - 1].child, sep)
    ensures path'[|path'| - 1].block == u.levels[|u.levels| - 2][pos'[|path'| - 1]].block
  {
    hide Structure, Stored, Live, LastAtMost, Start;
    RootNode(cfg, t);
    var k := |path'| - 1;
    assert PathStep(u.blocks, u.levels[k], pos'[k], path'[k], pos'[k + 1]);
    assert LiveIn(u.blocks, Leaves(t)[i].block) == LiveIn(t.blocks, Leaves(t)[i].block);
    NonEmpty(cfg, u, k, pos'[k]);
  }

  lemma SplittableParent(cfg: Config, t: Tree, i: nat, q: nat, c: nat, sep: nat)
    requires LeafSplittable(cfg, t, i, q, c, sep)
    ensures var parent := t.levels[|t.levels| - 2][q].block;
            && parent in t.blocks && t.blocks[parent].Index? && c < |t.blocks[parent].entries| &&
               !Full(t.blocks, parent)
            && parent != t.size
  {
    hide Structure, Start;
    RootNode(cfg, t);
    NonEmpty(cfg, t, |t.levels| - 2, q);
    BornIsNew(cfg, t, |t.levels| - 2, q);
  }

  lemma PathFullStep(blocks: Blocks, path: seq<PathEntry>, index: nat)
    requires 0 < index < |path| && Full(blocks, path[index].block)
    ensures PathFull(blocks, path, index) <==> PathFull(blocks, path, index - 1)
  {}

  lemma GrownNot(cfg: Config, t: Tree)
    requires Structure(cfg, t)
    ensures Grown(cfg, t, t)
  {
    hide Shape, Tiles;
    var k := |t.levels| - 1;
    forall i | 0 <= i < |Leaves(t)|
      ensures Leaves(t)[i].block in t.blocks && Leaves(t)[i].block in t.home
    {
      LeafNode(cfg, t, i);
    }
  }

  lemma RoomGrown(cfg: Config, t: Tree, u: Tree, path: seq<PathEntry>, pos: seq<nat>, path': seq<PathEntry>,
                  pos': seq<nat>, index: nat)
    requires RoomMade(cfg, t, u, path, pos, path', pos', index)
    ensures Grown(cfg, t, u) && Structure(cfg, u) && PathOk(u, path', pos')
    ensures |path'| == |path| + (|u.levels| - |t.levels|) && 0 <= |u.levels| - |t.levels| <= 1
  {}

  lemma PathNode(cfg: Config, t: Tree, path: seq<PathEntry>, pos: seq<nat>, k: nat)
    requires Structure(cfg, t) && PathOk(t, path, pos) && k < |path| <= |t.levels| - 1
    ensures path[k].block in t.blocks && t.blocks[path[k].block].Index?
    ensures path[k].child < |t.blocks[path[k].block].entries|
    ensures path[0].block == 0
  {
    hide Expand, LevelOk;
    assert PathStep(t.blocks, t.levels[k], pos[k], path[k], pos[k + 1]);
    assert PathStep(t.blocks, t.levels[0], pos[0], path[0], pos[0 + 1]);
    NonEmpty(cfg, t, k, pos[k]);
  }

  lemma SplitNodeFacts(cfg: Config, t: Tree, path: seq<PathEntry>, pos: seq<nat>, k: nat)
    requires PathOk(t, path, pos) && 0 < k < |path|
    requires Splittable(cfg, t, k, pos[k], pos[k - 1], path[k - 1].child)
    ensures var b, parent := path[k].block, path[k - 1].block;
            && b == t.levels[k][pos[k]].block && parent == t.levels[k - 1][pos[k - 1]].block
            && b in t.blocks && t.blocks[b].Index? && |t.blocks[b].entries| >= 2
            && parent in t.blocks && t.blocks[parent].Index? && path[k - 1].child < |t.blocks[parent].entries|
            && !Full(t.blocks, parent) && b != parent && b != t.size && parent != t.size
  {
    hide Expand, LevelOk;
    assert PathStep(t.blocks, t.levels[k], pos[k], path[k], pos[k + 1]);
    assert PathStep(t.blocks, t.levels[k - 1], pos[k - 1], path[k - 1], pos[k - 1 + 1]);
    SplitNodes(cfg, t, k, pos[k], pos[k - 1], path[k - 1].child);
  }

  lemma TreeParts(cfg: Config, t: Tree)
    requires TreeOk(cfg, t)
    ensures ConfigOk(cfg) && Structure(cfg, t) && |t.levels| >= 2 && Shape(t.blocks, t.levels)
  {}

  lemma FindLength(t: Tree, path: seq<PathEntry>, pos: seq<nat>, block: nat, h: nat)
    requires FindLoop(t, path, pos, block, h)
    ensures |path| < |t.levels| && |pos| == |path| + 1 && pos[|path|] < |t.levels[|path|]|
  {
    assert LastAtMost(t.levels[|path|], pos[|path|], h);
  }

  lemma FindLoopNode(cfg: Config, t: Tree, path: seq<PathEntry>, pos: seq<nat>, block: nat, h: nat)
    requires Structure(cfg, t) && FindLoop(t, path, pos, block, h) && |path| < |t.levels| - 1
    ensures EntriesOf(t.blocks, block) != [] && KeysInOrder(EntriesOf(t.blocks, block))
  {
    hide Structure, EntriesOf, KeysInOrder;
    FindLength(t, path, pos, block, h);
    NodeKeys(cfg, t, |path|, pos[|path|]);
  }

  lemma FindEnd(cfg: Config, t: Tree, path: seq<PathEntry>, pos: seq<nat>, block: nat, h: nat)
    requires FindLoop(t, path, pos, block, h)
    ensures PathOk(t, path, pos) && |pos| == |path| + 1 && LastAtMost(t.levels[|path|], pos[|path|], h)
    ensures pos[|path|] < |t.levels[|path|]| && block == t.levels[|path|][pos[|path|]].block
  {}

  lemma PathFacts(cfg: Config, t: Tree, path: seq<PathEntry>, pos: seq<nat>)
    requires Structure(cfg, t) && PathOk(t, path, pos)
    ensures |path| < |t.levels| && |pos| == |path| + 1 && pos[|path|] < |t.levels[|path|]|
  {
    PathEndsInLevel(t, path, pos, |path|);
  }

  lemma PathChildren(t: Tree, path: seq<PathEntry>, pos: seq<nat>, k: nat)
    requires PathOk(t, path, pos) && k < |path|
    ensures path[k].child < |EntriesOf(t.blocks, path[k].block)|
  {
    assert PathStep(t.blocks, t.levels[k], pos[k], path[k], pos[k + 1]);
  }

  lemma NextLeaf(t: Tree, path: seq<PathEntry>, pos: seq<nat>, k: nat, path': seq<PathEntry>, block: nat)
    requires NextLoop(t, path, pos, k, path', |path|, block)
    ensures block == t.levels[|path|][pos[|path|] + 1].block && Moved(pos, k)[|path|] == pos[|path|] + 1
  {}

  lemma AbsentStart(t: Tree, level: seq<Node>, first: nat, name: Name)
    ensures Absent(t, level, first, first, name)
  {}

  lemma AbsentStep(t: Tree, level: seq<Node>, first: nat, p: nat, name: Name)
    requires Absent(t, level, first, p, name) && p < |level|
    requires forall e :: e in LiveIn(t.blocks, level[p].block) ==> e.name != name
    ensures Absent(t, level, first, p + 1, name)
  {
    hide LiveIn;
  }

  lemma FoundInLeaf(cfg: Config, t: Tree, k: nat, i: nat, e: Entry)
    requires Structure(cfg, t) && k < |t.levels| && i < |t.levels[k]| && e in LiveIn(t.blocks, t.levels[k][i].block)
    ensures k == |t.levels| - 1
  {
    if k < |t.levels| - 1 {
      IndexHoldsNothing(cfg, t, k, i);
    }
  }

  lemma SearchEnds(cfg: Config, t: Tree, first: nat, p: nat, name: Name)
    requires TreeOk(cfg, t) && first < p <= |Leaves(t)| && LastAtMost(Leaves(t), first, cfg.hash(name))
    requires Absent(t, Leaves(t), first, p, name)
    requires p < |Leaves(t)| ==> !HashCanContinue(cfg.hash(name), Leaves(t)[p].sep)
    ensures forall e :: Stored(t.blocks, Leaves(t), e) ==> e.name != name
  {
    hide TreeOk, Absent, HashCanContinue, LastAtMost, Stored;
    forall e | Stored(t.blocks, Leaves(t), e)
      ensures e.name != name
    {
      SearchIsComplete(cfg, t, first, p, name, e);
    }
  }

  lemma StoredHere(cfg: Config, t: Tree, i: nat, e: Entry)
    requires TreeOk(cfg, t) && i < |Leaves(t)| && e in LiveIn(t.blocks, Leaves(t)[i].block)
    ensures forall f: Entry :: f.name == e.name ==> (f == e <==> Stored(t.blocks, Leaves(t), f))
  {
    hide Structure, LiveIn, RangesOk;
    assert StoredAt(t.blocks, Leaves(t), i, e);
  }

  // ----- Contents

  lemma OneMoreMember(before: seq<Entry>, after: seq<Entry>, e: Entry)
    requires multiset(after) == multiset(before) + multiset{e}
    ensures forall x :: x in after <==> x in before || x == e
  {
    forall x
      ensures x in after <==> x in before || x == e
    {
      assert x in multiset(after) <==> x in multiset(before) || x == e;
    }
  }

  /** An entry with a new name comes on top of a bag without duplicates. */
  lemma OnceMore(cfg: Config, t: Tree, u: Tree, i: nat, e: Entry)
    requires Once(t) && Fresh(cfg, t, i, e) && Bag(u.blocks, Leaves(u)) == Bag(t.blocks, Leaves(t)) + multiset{e}
    ensures Once(u)
  {
    hide Bag, Stored, Leaves;
    BagIsStored(t.blocks, Leaves(t), e);
  }

  lemma GrownOnce(cfg: Config, t: Tree, u: Tree)
    requires Grown(cfg, t, u)
    ensures Bag(u.blocks, Leaves(u)) == Bag(t.blocks, Leaves(t)) && (Once(t) ==> Once(u))
  {
    hide Bag, Leaves, Grown;
    GrownBag(cfg, t, u);
  }

  lemma SplitContents(cfg: Config, t: Tree, i: nat, q: nat, c: nat, e: Entry, entries: seq<Entry>, m: nat,
                      left: seq<Record>, right: seq<Record>)
    requires 0 < m < |entries| && LeafSplittable(cfg, t, i, q, c, SeparatorAt(cfg.hash, entries, m))
    requires Tiles(left, cfg.usable) && Tiles(right, cfg.usable) && Live(left) == entries[..m]
    requires Live(right) == entries[m..]
    requires Once(t) && Fresh(cfg, t, i, e)
    requires multiset(entries) == multiset(LiveIn(t.blocks, Leaves(t)[i].block)) + multiset{e}
    ensures var u := LeafSplitTree(cfg, t, i, q, c, SeparatorAt(cfg.hash, entries, m), left, right);
            Bag(u.blocks, Leaves(u)) == Bag(t.blocks, Leaves(t)) + multiset{e} && Once(u)
  {
    hide Bag, LeafSplittable, Tiles, Live, LiveIn, Once, Fresh, LeafSplitTree, Leaves, SeparatorAt;
    var sep := SeparatorAt(cfg.hash, entries, m);
    var u := LeafSplitTree(cfg, t, i, q, c, sep, left, right);
    LeafSplitKeeps(cfg, t, i, q, c, sep, left, right);
    LeafSplitOthers(cfg, t, i, q, c, sep, left, right);
    SplittableLeaf(cfg, t, i, q, c, sep);
    SplitBag(cfg, t, u, i, sep, left, right);
    assert entries == entries[..m] + entries[m..];
    Cancel(Bag(u.blocks, Leaves(u)), Bag(t.blocks, Leaves(t)), multiset(LiveIn(t.blocks, Leaves(t)[i].block)),
      multiset{e});
    OnceMore(cfg, t, u, i, e);
  }

  lemma SplittableLeaf(cfg: Config, t: Tree, i: nat, q: nat, c: nat, sep: nat)
    requires LeafSplittable(cfg, t, i, q, c, sep)
    ensures i < |Leaves(t)|
  {}
}
