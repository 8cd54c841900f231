/** The invariant of a hash tree and the four ways an insertion changes the tree. */
module HtreeTree {
  import opened Bytes
  import opened DirRecords
  import opened HtreeLevels

  /** Block geometry and the name hash, an arbitrary function to even 32-bit values. */
  datatype Config = Config(usable: nat, rootLimit: nat, nodeLimit: nat, hash: Name -> nat)

  ghost predicate ConfigOk(cfg: Config) {
    0 < cfg.usable < U16 && 0 < cfg.rootLimit < cfg.nodeLimit && HashOk(cfg.hash)
  }

  /** A tree: its blocks, the number of file blocks, its levels from the root down, and the height of each node. */
  datatype Tree = Tree(blocks: Blocks, size: nat, levels: seq<seq<Node>>, home: map<nat, nat>)

  // ----- Invariant

  ghost predicate NodeOk(cfg: Config, blocks: Blocks, home: map<nat, nat>, b: nat, height: nat, isRoot: bool) {
    && b in blocks && b in home && home[b] == height
    && if height == 0 then blocks[b].Leaf? && Tiles(blocks[b].records, cfg.usable)
       else
         && blocks[b].Index? && blocks[b].limit == (if isRoot then cfg.rootLimit else cfg.nodeLimit)
         && 0 < |blocks[b].entries| <= blocks[b].limit
  }

  ghost predicate LevelOk(cfg: Config, blocks: Blocks, home: map<nat, nat>, level: seq<Node>, height: nat,
                          isRoot: bool) {
    && Sorted(level) && DistinctIn(level)
    && forall i :: 0 <= i < |level| ==> NodeOk(cfg, blocks, home, level[i].block, height, isRoot)
  }

  ghost predicate Shape(blocks: Blocks, levels: seq<seq<Node>>) {
    && |levels| >= 2 && levels[0] == [Node(0, 0)]
    && forall k :: 0 <= k < |levels| - 1 ==> levels[k + 1] == Expand(blocks, levels[k])
  }

  ghost predicate Structure(cfg: Config, t: Tree) {
    && Shape(t.blocks, t.levels)
    && (forall k :: 0 <= k < |t.levels| ==>
          LevelOk(cfg, t.blocks, t.home, t.levels[k], |t.levels| - 1 - k, k == 0))
    && (forall b :: b in t.blocks || b in t.home ==> b < t.size)
  }

  function LiveIn(blocks: Blocks, b: nat): seq<Entry> {
    if b in blocks && blocks[b].Leaf? then Live(blocks[b].records) else []
  }

  /** Entry `e` is stored in leaf `i`. */
  ghost predicate StoredAt(blocks: Blocks, leaves: seq<Node>, i: nat, e: Entry) {
    i < |leaves| && e in LiveIn(blocks, leaves[i].block)
  }

  ghost predicate Stored(blocks: Blocks, leaves: seq<Node>, e: Entry) {
    exists i :: StoredAt(blocks, leaves, i, e)
  }

  /** The hashes leaf `i` may hold: from its separator with the low bit cleared up to the next separator. */
  ghost predicate InRange(leaves: seq<Node>, i: nat, h: nat)
    requires i < |leaves|
  {
    Floor(leaves[i].sep) <= h && (i + 1 < |leaves| ==> h < leaves[i + 1].sep)
  }

  ghost predicate RangesOk(cfg: Config, blocks: Blocks, leaves: seq<Node>) {
    forall i, e :: StoredAt(blocks, leaves, i, e) ==> InRange(leaves, i, cfg.hash(e.name))
  }

  ghost predicate NamesUnique(blocks: Blocks, leaves: seq<Node>) {
    forall e, f :: Stored(blocks, leaves, e) && Stored(blocks, leaves, f) && e.name == f.name ==> e == f
  }

  ghost function Leaves(t: Tree): seq<Node> {
    if t.levels == [] then [] else t.levels[|t.levels| - 1]
  }

  ghost predicate TreeOk(cfg: Config, t: Tree) {
    && ConfigOk(cfg) && Structure(cfg, t)
    && RangesOk(cfg, t.blocks, Leaves(t)) && NamesUnique(t.blocks, Leaves(t))
  }

  // ----- Paths

  datatype PathEntry = PathEntry(block: nat, child: nat)

  ghost predicate PathStep(blocks: Blocks, level: seq<Node>, p: nat, entry: PathEntry, next: nat) {
    && p < |level| && entry.block == level[p].block
    && entry.child < |EntriesOf(blocks, entry.block)|
    && next == Start(blocks, level, p) + entry.child
  }

  /** `path` leads from the root to position `pos[|path|]` of level `|path|`. */
  ghost predicate PathOk(t: Tree, path: seq<PathEntry>, pos: seq<nat>) {
    && |path| < |t.levels| && |pos| == |path| + 1 && pos[0] == 0
    && forall k :: 0 <= k < |path| ==> PathStep(t.blocks, t.levels[k], pos[k], path[k], pos[k + 1])
  }

  lemma PathEndsInLevel(t: Tree, path: seq<PathEntry>, pos: seq<nat>, k: nat)
    requires Shape(t.blocks, t.levels) && PathOk(t, path, pos) && k <= |path|
    ensures pos[k] < |t.levels[k]|
  {
    if k > 0 {
      var j := k - 1;
      assert PathStep(t.blocks, t.levels[j], pos[j], path[j], pos[j + 1]);
      ChildAt(t.blocks, t.levels[j], pos[j], path[j].child);
    }
  }

  // ----- Frames

  /** Blocks that two trees agree on. */
  ghost predicate Agree(blocks: Blocks, after: Blocks, home: map<nat, nat>, home': map<nat, nat>, level: seq<Node>) {
    forall i :: 0 <= i < |level| ==>
      var b := level[i].block;
      b in blocks && b in after && after[b] == blocks[b] && b in home && b in home' && home'[b] == home[b]
  }

  lemma LevelFrame(cfg: Config, blocks: Blocks, after: Blocks, home: map<nat, nat>, home': map<nat, nat>,
                   level: seq<Node>, height: nat, isRoot: bool)
    requires LevelOk(cfg, blocks, home, level, height, isRoot) && Agree(blocks, after, home, home', level)
    ensures LevelOk(cfg, after, home', level, height, isRoot)
    ensures Expand(after, level) == Expand(blocks, level)
  {
    hide Tiles;
    ExpandFrame(blocks, after, level);
    forall i | 0 <= i < |level|
      ensures NodeOk(cfg, after, home', level[i].block, height, isRoot)
    {
      assert NodeOk(cfg, blocks, home, level[i].block, height, isRoot);
    }
  }

  lemma StepFrame(blocks: Blocks, after: Blocks, home: map<nat, nat>, home': map<nat, nat>,
                  level: seq<Node>, p: nat, entry: PathEntry, next: nat)
    requires Agree(blocks, after, home, home', level) && PathStep(blocks, level, p, entry, next)
    ensures PathStep(after, level, p, entry, next)
  {
    ExpandFrame(blocks, after, level[..p]);
  }

  /** Changing blocks of one height leaves every level of another height alone. */
  lemma OtherHeights(cfg: Config, blocks: Blocks, after: Blocks, home: map<nat, nat>, home': map<nat, nat>,
                     level: seq<Node>, height: nat, isRoot: bool)
    requires LevelOk(cfg, blocks, home, level, height, isRoot)
    requires forall b :: b in blocks && b in home && home[b] == height ==>
               b in after && after[b] == blocks[b] && b in home' && home'[b] == home[b]
    ensures Agree(blocks, after, home, home', level)
  {
    hide Tiles;
    forall i | 0 <= i < |level|
      ensures var b := level[i].block;
              b in blocks && b in after && after[b] == blocks[b] && b in home && b in home' && home'[b] == home[b]
    {
      assert NodeOk(cfg, blocks, home, level[i].block, height, isRoot);
    }
  }

  // ----- Splitting an index node below the root

  function InsertEntry(e: seq<IndexEntry>, c: nat, entry: IndexEntry): seq<IndexEntry>
    requires c < |e|
  {
    e[..c + 1] + [entry] + e[c + 1..]
  }

  /** Node `p` of level `k` can be split: it has two entries and its parent, node `q` above, has room after child
      `c`. */
  ghost predicate Splittable(cfg: Config, t: Tree, k: nat, p: nat, q: nat, c: nat) {
    && ConfigOk(cfg) && Structure(cfg, t)
    && 0 < k < |t.levels| - 1 && p < |t.levels[k]| && q < |t.levels[k - 1]|
    && c < |EntriesOf(t.blocks, t.levels[k - 1][q].block)|
    && p == Start(t.blocks, t.levels[k - 1], q) + c
    && 2 <= |EntriesOf(t.blocks, t.levels[k][p].block)|
    && t.levels[k - 1][q].block in t.blocks
    && |EntriesOf(t.blocks, t.levels[k - 1][q].block)| < t.blocks[t.levels[k - 1][q].block].limit
  }

  /** The upper half of the node's entries moves to a new block, announced to the parent by its first hash. */
  function SplitBlocks(cfg: Config, blocks: Blocks, b: nat, parent: nat, c: nat, born: nat): Blocks
    requires b in blocks && blocks[b].Index? && |blocks[b].entries| >= 2
    requires parent in blocks && blocks[parent].Index? && c < |blocks[parent].entries|
  {
    var e := blocks[b].entries;
    var left := |e| / 2;
    blocks[b := Index(blocks[b].limit, e[..left])]
          [born := Index(cfg.nodeLimit, e[left..])]
          [parent := Index(blocks[parent].limit,
                           InsertEntry(blocks[parent].entries, c, IndexEntry(e[left].hash, born)))]
  }

  lemma SplitNodes(cfg: Config, t: Tree, k: nat, p: nat, q: nat, c: nat)
    requires Splittable(cfg, t, k, p, q, c)
    ensures var b, parent := t.levels[k][p].block, t.levels[k - 1][q].block;
            && NodeOk(cfg, t.blocks, t.home, b, |t.levels| - 1 - k, false)
            && NodeOk(cfg, t.blocks, t.home, parent, |t.levels| - k, k == 1)
            && b != parent && b != t.size && parent != t.size
  {
    hide Tiles, Expand;
    assert LevelOk(cfg, t.blocks, t.home, t.levels[k], |t.levels| - 1 - k, false);
    assert LevelOk(cfg, t.blocks, t.home, t.levels[k - 1], |t.levels| - 1 - (k - 1), k - 1 == 0);
  }

  ghost function SplitTree(cfg: Config, t: Tree, k: nat, p: nat, q: nat, c: nat): Tree
    requires Splittable(cfg, t, k, p, q, c)
  {
    SplitNodes(cfg, t, k, p, q, c);
    var b, parent := t.levels[k][p].block, t.levels[k - 1][q].block;
    var e := t.blocks[b].entries;
    Tree(SplitBlocks(cfg, t.blocks, b, parent, c, t.size), t.size + 1,
         t.levels[k := InsertNode(t.levels[k], p, Node(e[|e| / 2].hash, t.size))],
         t.home[t.size := |t.levels| - 1 - k])
  }

  lemma SplitAgree(cfg: Config, t: Tree, k: nat, p: nat, q: nat, c: nat, j: nat)
    requires Splittable(cfg, t, k, p, q, c) && j < |t.levels| && j != k && j != k - 1
    ensures var u := SplitTree(cfg, t, k, p, q, c); Agree(t.blocks, u.blocks, t.home, u.home, t.levels[j])
  {
    hide Tiles, Expand, InsertNode, InsertEntry;
    SplitNodes(cfg, t, k, p, q, c);
    var u := SplitTree(cfg, t, k, p, q, c);
    OtherHeights(cfg, t.blocks, u.blocks, t.home, u.home, t.levels[j], |t.levels| - 1 - j, j == 0);
  }

  /** The separator of the new node lies between its neighbours. */
  lemma SplitSorted(cfg: Config, t: Tree, k: nat, p: nat, left: nat)
    requires Structure(cfg, t) && k < |t.levels| - 1 && p < |t.levels[k]|
    requires 0 < left < |EntriesOf(t.blocks, t.levels[k][p].block)|
    ensures Sorted(InsertNode(t.levels[k], p, Node(EntriesOf(t.blocks, t.levels[k][p].block)[left].hash, t.size)))
  {
    hide Tiles, Expand, ChildNodes, NodeOk;
    var level, next := t.levels[k], t.levels[k + 1];
    var e := EntriesOf(t.blocks, level[p].block);
    var s := Start(t.blocks, level, p);
    assert LevelOk(cfg, t.blocks, t.home, next, |t.levels| - 1 - (k + 1), k + 1 == 0) &&
           next == Expand(t.blocks, level);
    assert LevelOk(cfg, t.blocks, t.home, level, |t.levels| - 1 - k, k == 0);
    ChildAt(t.blocks, level, p, 0);
    ChildAt(t.blocks, level, p, left);
    assert next[s].sep == level[p].sep && next[s + left].sep == e[left].hash;
    assert level[p].sep <= e[left].hash;
    if p + 1 < |level| {
      ExpandAround(t.blocks, level, p);
      NonEmpty(cfg, t, k, p + 1);
      ChildAt(t.blocks, level, p + 1, 0);
      assert next[s + |e|].sep == level[p + 1].sep;
      assert e[left].hash <= level[p + 1].sep;
    }
    InsertSortedNode(level, p, Node(e[left].hash, t.size));
  }

  lemma NonEmpty(cfg: Config, t: Tree, k: nat, i: nat)
    requires Structure(cfg, t) && k < |t.levels| - 1 && i < |t.levels[k]|
    ensures EntriesOf(t.blocks, t.levels[k][i].block) != [] && t.levels[k][i].block in t.blocks
    ensures t.blocks[t.levels[k][i].block].Index?
  {
    hide Tiles, Expand;
    assert LevelOk(cfg, t.blocks, t.home, t.levels[k], |t.levels| - 1 - k, k == 0);
    assert NodeOk(cfg, t.blocks, t.home, t.levels[k][i].block, |t.levels| - 1 - k, k == 0);
  }

  lemma InsertSortedNode(level: seq<Node>, p: nat, node: Node)
    requires Sorted(level) && p < |level| && level[p].sep <= node.sep
    requires p + 1 < |level| ==> node.sep <= level[p + 1].sep
    ensures Sorted(InsertNode(level, p, node))
  {
    var r := InsertNode(level, p, node);
    forall i, j | 0 <= i < j < |r|
      ensures r[i].sep <= r[j].sep
    {
      assert r[i] == if i <= p then level[i] else if i == p + 1 then node else level[i - 1];
      assert r[j] == if j <= p then level[j] else if j == p + 1 then node else level[j - 1];
      assert i < p ==> level[i].sep <= level[p].sep;
      assert j > p + 2 ==> level[p + 1].sep <= level[j - 1].sep;
    }
  }

  lemma InsertDistinctNode(level: seq<Node>, p: nat, node: Node)
    requires DistinctIn(level) && p < |level| && forall i :: 0 <= i < |level| ==> level[i].block != node.block
    ensures DistinctIn(InsertNode(level, p, node))
    ensures forall x :: x in InsertNode(level, p, node) ==> x in level || x == node
  {
    var r := InsertNode(level, p, node);
    forall i, j | 0 <= i < j < |r|
      ensures r[i].block != r[j].block
    {
      assert r[i] == if i <= p then level[i] else if i == p + 1 then node else level[i - 1];
      assert r[j] == if j <= p then level[j] else if j == p + 1 then node else level[j - 1];
    }
  }

  lemma BornIsNew(cfg: Config, t: Tree, k: nat, i: nat)
    requires Structure(cfg, t) && k < |t.levels| && i < |t.levels[k]|
    ensures t.levels[k][i].block != t.size && t.levels[k][i].block < t.size
  {
    hide Tiles, Expand;
    assert LevelOk(cfg, t.blocks, t.home, t.levels[k], |t.levels| - 1 - k, k == 0);
    assert NodeOk(cfg, t.blocks, t.home, t.levels[k][i].block, |t.levels| - 1 - k, k == 0);
  }

  lemma SplitLevelOk(cfg: Config, t: Tree, k: nat, p: nat, q: nat, c: nat)
    requires Splittable(cfg, t, k, p, q, c)
    ensures var u := SplitTree(cfg, t, k, p, q, c);
            LevelOk(cfg, u.blocks, u.home, u.levels[k], |t.levels| - 1 - k, false)
  {
    hide Tiles, Expand, InsertNode, InsertEntry, Sorted, DistinctIn, Shape;
    SplitNodes(cfg, t, k, p, q, c);
    var u := SplitTree(cfg, t, k, p, q, c);
    var b, parent := t.levels[k][p].block, t.levels[k - 1][q].block;
    var e := t.blocks[b].entries;
    var node := Node(e[|e| / 2].hash, t.size);
    SplitSorted(cfg, t, k, p, |e| / 2);
    assert LevelOk(cfg, t.blocks, t.home, t.levels[k], |t.levels| - 1 - k, false);
    forall i | 0 <= i < |t.levels[k]|
      ensures t.levels[k][i].block != t.size
      ensures NodeOk(cfg, u.blocks, u.home, t.levels[k][i].block, |t.levels| - 1 - k, false)
    {
      BornIsNew(cfg, t, k, i);
      assert NodeOk(cfg, t.blocks, t.home, t.levels[k][i].block, |t.levels| - 1 - k, false);
    }
    InsertDistinctNode(t.levels[k], p, node);
    forall i | 0 <= i < |u.levels[k]|
      ensures NodeOk(cfg, u.blocks, u.home, u.levels[k][i].block, |t.levels| - 1 - k, false)
    {
      assert u.levels[k][i] in u.levels[k];
    }
  }

  lemma SplitParentOk(cfg: Config, t: Tree, k: nat, p: nat, q: nat, c: nat)
    requires Splittable(cfg, t, k, p, q, c)
    ensures var u := SplitTree(cfg, t, k, p, q, c);
            LevelOk(cfg, u.blocks, u.home, t.levels[k - 1], |t.levels| - k, k == 1)
  {
    hide Tiles, Expand, InsertNode, Sorted, DistinctIn, Shape;
    SplitNodes(cfg, t, k, p, q, c);
    var u := SplitTree(cfg, t, k, p, q, c);
    var above := t.levels[k - 1];
    assert LevelOk(cfg, t.blocks, t.home, above, |t.levels| - 1 - (k - 1), k - 1 == 0);
    forall i | 0 <= i < |above|
      ensures NodeOk(cfg, u.blocks, u.home, above[i].block, |t.levels| - k, k == 1)
    {
      assert NodeOk(cfg, t.blocks, t.home, above[i].block, |t.levels| - k, k == 1);
    }
  }

  /** What the split does to the entries of the two levels it touches. */
  lemma SplitEntries(cfg: Config, t: Tree, k: nat, p: nat, q: nat, c: nat)
    requires Splittable(cfg, t, k, p, q, c)
    ensures var u := SplitTree(cfg, t, k, p, q, c);
            var level, above := t.levels[k], t.levels[k - 1];
            var e, pe := EntriesOf(t.blocks, level[p].block), EntriesOf(t.blocks, above[q].block);
            && EntriesOf(u.blocks, level[p].block) == e[..|e| / 2] && EntriesOf(u.blocks, t.size) == e[|e| / 2..]
            && EntriesOf(u.blocks, above[q].block) == InsertEntry(pe, c, IndexEntry(e[|e| / 2].hash, t.size))
            && (forall i :: 0 <= i < |level| && i != p ==>
                  EntriesOf(u.blocks, level[i].block) == EntriesOf(t.blocks, level[i].block))
            && (forall i :: 0 <= i < |above| && i != q ==>
                  EntriesOf(u.blocks, above[i].block) == EntriesOf(t.blocks, above[i].block))
            && DistinctIn(level) && DistinctIn(above)
            && forall i :: 0 <= i < |level| ==> level[i].block != t.size
  {
    hide Tiles, Expand, InsertNode, InsertEntry, Sorted, Shape;
    SplitNodes(cfg, t, k, p, q, c);
    var u := SplitTree(cfg, t, k, p, q, c);
    var level, above := t.levels[k], t.levels[k - 1];
    assert LevelOk(cfg, t.blocks, t.home, level, |t.levels| - 1 - k, false);
    assert LevelOk(cfg, t.blocks, t.home, above, |t.levels| - 1 - (k - 1), k - 1 == 0);
    forall i | 0 <= i < |level|
      ensures level[i].block != t.size
      ensures (i != p ==> EntriesOf(u.blocks, level[i].block) == EntriesOf(t.blocks, level[i].block))
    {
      BornIsNew(cfg, t, k, i);
      assert NodeOk(cfg, t.blocks, t.home, level[i].block, |t.levels| - 1 - k, false);
    }
    forall i | 0 <= i < |above| && i != q
      ensures EntriesOf(u.blocks, above[i].block) == EntriesOf(t.blocks, above[i].block)
    {
      BornIsNew(cfg, t, k - 1, i);
      assert NodeOk(cfg, t.blocks, t.home, above[i].block, |t.levels| - k, k == 1);
    }
  }

  lemma SplitShape(cfg: Config, t: Tree, k: nat, p: nat, q: nat, c: nat)
    requires Splittable(cfg, t, k, p, q, c)
    ensures var u := SplitTree(cfg, t, k, p, q, c); Shape(u.blocks, u.levels)
  {
    hide Tiles, Expand, InsertNode, LevelOk, SplitBlocks;
    SplitNodes(cfg, t, k, p, q, c);
    SplitEntries(cfg, t, k, p, q, c);
    var u := SplitTree(cfg, t, k, p, q, c);
    var e := EntriesOf(t.blocks, t.levels[k][p].block);
    SplitKeepsNext(t.blocks, u.blocks, t.levels[k], p, |e| / 2, t.size);
    InsertChildEffect(t.blocks, u.blocks, t.levels[k - 1], q, c, IndexEntry(e[|e| / 2].hash, t.size));
    forall j | 0 <= j < |u.levels| - 1
      ensures u.levels[j + 1] == Expand(u.blocks, u.levels[j])
    {
      assert t.levels[j + 1] == Expand(t.blocks, t.levels[j]);
      assert t.levels[k] == Expand(t.blocks, t.levels[k - 1]);
      if j != k && j != k - 1 {
        SplitAgree(cfg, t, k, p, q, c, j);
        AgreeExpand(t.blocks, u.blocks, t.home, u.home, t.levels[j]);
      }
    }
  }

  lemma AgreeExpand(blocks: Blocks, after: Blocks, home: map<nat, nat>, home': map<nat, nat>, level: seq<Node>)
    requires Agree(blocks, after, home, home', level)
    ensures Expand(after, level) == Expand(blocks, level)
  {
    ExpandFrame(blocks, after, level);
  }

  /** Splitting an index node keeps the whole structure and every leaf. */
  lemma SplitKeeps(cfg: Config, t: Tree, k: nat, p: nat, q: nat, c: nat)
    requires Splittable(cfg, t, k, p, q, c)
    ensures var u := SplitTree(cfg, t, k, p, q, c);
            && Structure(cfg, u) && |u.levels| == |t.levels| && Leaves(u) == Leaves(t)
            && Agree(t.blocks, u.blocks, t.home, u.home, Leaves(t))
  {
    hide Tiles, Expand, InsertNode, LevelOk, Shape, InsertEntry;
    SplitNodes(cfg, t, k, p, q, c);
    var u := SplitTree(cfg, t, k, p, q, c);
    SplitShape(cfg, t, k, p, q, c);
    SplitLevelOk(cfg, t, k, p, q, c);
    SplitParentOk(cfg, t, k, p, q, c);
    forall j | 0 <= j < |u.levels|
      ensures LevelOk(cfg, u.blocks, u.home, u.levels[j], |u.levels| - 1 - j, j == 0)
    {
      if j != k && j != k - 1 {
        SplitAgree(cfg, t, k, p, q, c, j);
        LevelFrame(cfg, t.blocks, u.blocks, t.home, u.home, t.levels[j], |t.levels| - 1 - j, j == 0);
      }
    }
    SplitAgree(cfg, t, k, p, q, c, |t.levels| - 1);
  }

  // ----- The lookup path after a split

  function SplitPath(path: seq<PathEntry>, k: nat, left: nat, born: nat): seq<PathEntry>
    requires 0 < k < |path|
  {
    if path[k].child < left then path
    else path[k - 1 := path[k - 1].(child := path[k - 1].child + 1)][k := PathEntry(born, path[k].child - left)]
  }

  lemma SplitPathOk(cfg: Config, t: Tree, path: seq<PathEntry>, pos: seq<nat>, k: nat)
    requires PathOk(t, path, pos) && 0 < k < |path|
    requires Splittable(cfg, t, k, pos[k], pos[k - 1], path[k - 1].child)
    ensures var u := SplitTree(cfg, t, k, pos[k], pos[k - 1], path[k - 1].child);
            var left := |EntriesOf(t.blocks, path[k].block)| / 2;
            var path' := SplitPath(path, k, left, t.size);
            var pos' := if path[k].child < left then pos else pos[k := pos[k] + 1];
            PathOk(u, path', pos')
  {
    hide Tiles, Expand, LevelOk, Shape, SplitBlocks;
    var p, q, c := pos[k], pos[k - 1], path[k - 1].child;
    assert PathStep(t.blocks, t.levels[k], pos[k], path[k], pos[k + 1]);
    assert PathStep(t.blocks, t.levels[k - 1], pos[k - 1], path[k - 1], pos[k - 1 + 1]);
    SplitNodes(cfg, t, k, p, q, c);
    SplitEntries(cfg, t, k, p, q, c);
    var u := SplitTree(cfg, t, k, p, q, c);
    var e := EntriesOf(t.blocks, t.levels[k][p].block);
    SplitKeepsNext(t.blocks, u.blocks, t.levels[k], p, |e| / 2, t.size);
    InsertChildEffect(t.blocks, u.blocks, t.levels[k - 1], q, c, IndexEntry(e[|e| / 2].hash, t.size));
    var left := |e| / 2;
    var path' := SplitPath(path, k, left, t.size);
    var pos' := if path[k].child < left then pos else pos[k := pos[k] + 1];
    forall j | 0 <= j < |path'|
      ensures PathStep(u.blocks, u.levels[j], pos'[j], path'[j], pos'[j + 1])
    {
      assert PathStep(t.blocks, t.levels[j], pos[j], path[j], pos[j + 1]);
      if j != k && j != k - 1 {
        SplitAgree(cfg, t, k, p, q, c, j);
        StepFrame(t.blocks, u.blocks, t.home, u.home, t.levels[j], pos[j], path[j], pos[j + 1]);
      }
    }
  }

  // ----- Splitting the root

  /** The root's entries move to a new block, which becomes the root's only child. */
  ghost function RootSplitTree(cfg: Config, t: Tree): Tree
    requires 0 in t.blocks && t.blocks[0].Index? && |t.levels| >= 2
  {
    Tree(t.blocks[t.size := Index(cfg.nodeLimit, t.blocks[0].entries)]
                 [0 := Index(t.blocks[0].limit, [IndexEntry(0, t.size)])],
         t.size + 1,
         [[Node(0, 0)], [Node(0, t.size)]] + t.levels[1..],
         t.home[0 := |t.levels|][t.size := |t.levels| - 1])
  }

  lemma RootNode(cfg: Config, t: Tree)
    requires Structure(cfg, t)
    ensures NodeOk(cfg, t.blocks, t.home, 0, |t.levels| - 1, true) && t.size > 0
    ensures |t.levels| >= 2 && t.levels[0] == [Node(0, 0)]
  {
    hide Tiles, Expand;
    assert LevelOk(cfg, t.blocks, t.home, t.levels[0], |t.levels| - 1 - 0, 0 == 0);
    assert NodeOk(cfg, t.blocks, t.home, t.levels[0][0].block, |t.levels| - 1, true);
  }

  lemma RootSplitAgree(cfg: Config, t: Tree, j: nat)
    requires ConfigOk(cfg) && Structure(cfg, t) && 0 < j < |t.levels|
    requires 0 in t.blocks && t.blocks[0].Index?
    ensures var u := RootSplitTree(cfg, t); Agree(t.blocks, u.blocks, t.home, u.home, t.levels[j])
  {
    hide Tiles, Expand;
    RootNode(cfg, t);
    var u := RootSplitTree(cfg, t);
    OtherHeights(cfg, t.blocks, u.blocks, t.home, u.home, t.levels[j], |t.levels| - 1 - j, j == 0);
  }

  lemma RootSplitShape(cfg: Config, t: Tree)
    requires ConfigOk(cfg) && Structure(cfg, t) && 0 in t.blocks && t.blocks[0].Index?
    ensures var u := RootSplitTree(cfg, t); Shape(u.blocks, u.levels)
  {
    hide Tiles, Expand, LevelOk, Agree;
    RootNode(cfg, t);
    var u := RootSplitTree(cfg, t);
    ExpandOne(t.blocks, Node(0, 0));
    ExpandOne(u.blocks, Node(0, 0));
    ExpandOne(u.blocks, Node(0, t.size));
    assert u.levels[1] == Expand(u.blocks, u.levels[0]);
    assert u.levels[2] == t.levels[0 + 1] == Expand(u.blocks, u.levels[1]);
    forall j | 0 <= j < |u.levels| - 1
      ensures u.levels[j + 1] == Expand(u.blocks, u.levels[j])
    {
      if j >= 2 {
        assert t.levels[j - 1 + 1] == Expand(t.blocks, t.levels[j - 1]);
        RootSplitAgree(cfg, t, j - 1);
        AgreeExpand(t.blocks, u.blocks, t.home, u.home, t.levels[j - 1]);
      }
    }
  }

  lemma SingleLevel(cfg: Config, blocks: Blocks, home: map<nat, nat>, node: Node, height: nat, isRoot: bool)
    requires NodeOk(cfg, blocks, home, node.block, height, isRoot)
    ensures LevelOk(cfg, blocks, home, [node], height, isRoot)
  {}

  /** Splitting the root adds a level and keeps the rest, whatever the depth of the tree. */
  lemma RootSplitKeeps(cfg: Config, t: Tree)
    requires ConfigOk(cfg) && Structure(cfg, t) && 0 in t.blocks && t.blocks[0].Index?
    ensures var u := RootSplitTree(cfg, t);
            && Structure(cfg, u) && |u.levels| == |t.levels| + 1 && Leaves(u) == Leaves(t)
            && (forall j :: 0 < j < |t.levels| ==> u.levels[j + 1] == t.levels[j])
            && Agree(t.blocks, u.blocks, t.home, u.home, Leaves(t))
            && |u.blocks[t.size].entries| < u.blocks[t.size].limit
  {
    hide Tiles, Expand, Shape, LevelOk, Agree;
    RootNode(cfg, t);
    RootSplitShape(cfg, t);
    var u := RootSplitTree(cfg, t);
    var last := |t.levels| - 1;
    SingleLevel(cfg, u.blocks, u.home, Node(0, 0), last + 1, true);
    SingleLevel(cfg, u.blocks, u.home, Node(0, t.size), last, false);
    forall j | 0 <= j < |u.levels|
      ensures LevelOk(cfg, u.blocks, u.home, u.levels[j], |u.levels| - 1 - j, j == 0)
    {
      if j >= 2 {
        RootSplitAgree(cfg, t, j - 1);
        LevelFrame(cfg, t.blocks, u.blocks, t.home, u.home, t.levels[j - 1], last - (j - 1), false);
      }
    }
    RootSplitAgree(cfg, t, last);
  }

  lemma RootSplitPathOk(cfg: Config, t: Tree, path: seq<PathEntry>, pos: seq<nat>)
    requires ConfigOk(cfg) && Structure(cfg, t) && 0 in t.blocks && t.blocks[0].Index?
    requires PathOk(t, path, pos) && path != []
    ensures PathOk(RootSplitTree(cfg, t), [PathEntry(0, 0), PathEntry(t.size, path[0].child)] + path[1..], [0] + pos)
  {
    hide Tiles, Expand, Shape, LevelOk, Agree;
    RootNode(cfg, t);
    var u := RootSplitTree(cfg, t);
    var path' := [PathEntry(0, 0), PathEntry(t.size, path[0].child)] + path[1..];
    var pos' := [0] + pos;
    assert PathStep(t.blocks, t.levels[0], pos[0], path[0], pos[0 + 1]);
    assert t.levels[0][..0] == u.levels[0][..0] == u.levels[1][..0] == [];
    EmptyStart(t.blocks); EmptyStart(u.blocks);
    assert t.levels[0] == u.levels[0] == [Node(0, 0)] && u.levels[1] == [Node(0, t.size)];
    assert PathStep(u.blocks, u.levels[0], pos'[0], path'[0], pos'[1]);
    assert PathStep(u.blocks, u.levels[1], pos'[1], path'[1], pos'[2]);
    forall j | 0 <= j < |path'|
      ensures PathStep(u.blocks, u.levels[j], pos'[j], path'[j], pos'[j + 1])
    {
      if j >= 2 {
        assert PathStep(t.blocks, t.levels[j - 1], pos[j - 1], path[j - 1], pos[j - 1 + 1]);
        RootSplitAgree(cfg, t, j - 1);
        StepFrame(t.blocks, u.blocks, t.home, u.home, t.levels[j - 1], pos[j - 1], path[j - 1], pos[j]);
      }
    }
  }

  lemma EmptyStart(blocks: Blocks)
    ensures Expand(blocks, []) == []
  {}

  // ----- Leaves

  /** A leaf is rewritten in place. */
  ghost function WriteTree(t: Tree, leaf: nat, records: seq<Record>): Tree {
    t.(blocks := t.blocks[leaf := Leaf(records)])
  }

  lemma LeafNode(cfg: Config, t: Tree, i: nat)
    requires Structure(cfg, t) && i < |Leaves(t)|
    ensures NodeOk(cfg, t.blocks, t.home, Leaves(t)[i].block, 0, false) && Leaves(t)[i].block < t.size
  {
    hide Tiles, Expand;
    var k := |t.levels| - 1;
    assert LevelOk(cfg, t.blocks, t.home, t.levels[k], |t.levels| - 1 - k, k == 0);
    assert NodeOk(cfg, t.blocks, t.home, Leaves(t)[i].block, 0, false);
  }

  lemma WriteKeeps(cfg: Config, t: Tree, i: nat, records: seq<Record>)
    requires Structure(cfg, t) && i < |Leaves(t)| && Tiles(records, cfg.usable)
    ensures Structure(cfg, WriteTree(t, Leaves(t)[i].block, records))
  {
    hide Tiles, Expand;
    LeafNode(cfg, t, i);
    var b := Leaves(t)[i].block;
    var u := WriteTree(t, b, records);
    forall j | 0 <= j < |t.levels|
      ensures LevelOk(cfg, u.blocks, u.home, u.levels[j], |t.levels| - 1 - j, j == 0)
      ensures j < |t.levels| - 1 ==> Expand(u.blocks, t.levels[j]) == Expand(t.blocks, t.levels[j])
    {
      assert LevelOk(cfg, t.blocks, t.home, t.levels[j], |t.levels| - 1 - j, j == 0);
      if j < |t.levels| - 1 {
        OtherHeights(cfg, t.blocks, u.blocks, t.home, u.home, t.levels[j], |t.levels| - 1 - j, j == 0);
        LevelFrame(cfg, t.blocks, u.blocks, t.home, u.home, t.levels[j], |t.levels| - 1 - j, j == 0);
      } else {
        forall x | 0 <= x < |t.levels[j]|
          ensures NodeOk(cfg, u.blocks, u.home, t.levels[j][x].block, 0, j == 0)
        {
          assert NodeOk(cfg, t.blocks, t.home, t.levels[j][x].block, |t.levels| - 1 - j, j == 0);
        }
      }
    }
  }

  /** Leaf `i` can be split: its parent, node `q` of the lowest index level, has room after child `c`. */
  ghost predicate LeafSplittable(cfg: Config, t: Tree, i: nat, q: nat, c: nat, sep: nat) {
    && ConfigOk(cfg) && Structure(cfg, t) && i < |Leaves(t)|
    && Leaves(t)[i].sep <= sep && (i + 1 < |Leaves(t)| ==> sep <= Leaves(t)[i + 1].sep)
    && var above := t.levels[|t.levels| - 2];
       && q < |above| && c < |EntriesOf(t.blocks, above[q].block)| && i == Start(t.blocks, above, q) + c
       && above[q].block in t.blocks && |EntriesOf(t.blocks, above[q].block)| < t.blocks[above[q].block].limit
  }

  ghost function LeafSplitTree(cfg: Config, t: Tree, i: nat, q: nat, c: nat, sep: nat, left: seq<Record>,
                               right: seq<Record>): Tree
    requires LeafSplittable(cfg, t, i, q, c, sep)
  {
    NonEmpty(cfg, t, |t.levels| - 2, q);
    var leaf, parent := Leaves(t)[i].block, t.levels[|t.levels| - 2][q].block;
    Tree(t.blocks[t.size := Leaf(right)]
                 [parent := Index(t.blocks[parent].limit,
                                  InsertEntry(t.blocks[parent].entries, c, IndexEntry(sep, t.size)))]
                 [leaf := Leaf(left)],
         t.size + 1,
         t.levels[|t.levels| - 1 := InsertNode(Leaves(t), i, Node(sep, t.size))],
         t.home[t.size := 0])
  }

  lemma LeafSplitNodes(cfg: Config, t: Tree, i: nat, q: nat, c: nat, sep: nat)
    requires LeafSplittable(cfg, t, i, q, c, sep)
    ensures var leaf, parent := Leaves(t)[i].block, t.levels[|t.levels| - 2][q].block;
            && NodeOk(cfg, t.blocks, t.home, leaf, 0, false)
            && NodeOk(cfg, t.blocks, t.home, parent, 1, |t.levels| == 2)
            && leaf != parent && leaf != t.size && parent != t.size
  {
    hide Tiles, Expand;
    var k := |t.levels| - 2;
    LeafNode(cfg, t, i);
    BornIsNew(cfg, t, k, q);
    assert LevelOk(cfg, t.blocks, t.home, t.levels[k], |t.levels| - 1 - k, k == 0);
    assert NodeOk(cfg, t.blocks, t.home, t.levels[k][q].block, |t.levels| - 1 - k, k == 0);
  }

  lemma LeafSplitAgree(cfg: Config, t: Tree, i: nat, q: nat, c: nat, sep: nat, left: seq<Record>, right: seq<Record>,
                       j: nat)
    requires LeafSplittable(cfg, t, i, q, c, sep) && j < |t.levels| - 2
    ensures var u := LeafSplitTree(cfg, t, i, q, c, sep, left, right);
            Agree(t.blocks, u.blocks, t.home, u.home, t.levels[j])
  {
    hide Tiles, Expand, InsertNode, InsertEntry;
    LeafSplitNodes(cfg, t, i, q, c, sep);
    var u := LeafSplitTree(cfg, t, i, q, c, sep, left, right);
    OtherHeights(cfg, t.blocks, u.blocks, t.home, u.home, t.levels[j], |t.levels| - 1 - j, j == 0);
  }

  lemma LeafSplitParentOk(cfg: Config, t: Tree, i: nat, q: nat, c: nat, sep: nat, left: seq<Record>, right: seq<Record>)
    requires LeafSplittable(cfg, t, i, q, c, sep)
    ensures var u := LeafSplitTree(cfg, t, i, q, c, sep, left, right);
            var above := t.levels[|t.levels| - 2];
            && LevelOk(cfg, u.blocks, u.home, above, 1, |t.levels| == 2)
            && Expand(u.blocks, above) == InsertNode(Leaves(t), i, Node(sep, t.size))
  {
    hide Tiles, Expand, InsertNode, Sorted;
    LeafSplitNodes(cfg, t, i, q, c, sep);
    var u := LeafSplitTree(cfg, t, i, q, c, sep, left, right);
    var k := |t.levels| - 2;
    var above := t.levels[k];
    assert t.levels[k + 1] == Expand(t.blocks, above);
    assert LevelOk(cfg, t.blocks, t.home, above, |t.levels| - 1 - k, k == 0);
    forall x | 0 <= x < |above|
      ensures NodeOk(cfg, u.blocks, u.home, above[x].block, 1, k == 0)
      ensures x != q ==> EntriesOf(u.blocks, above[x].block) == EntriesOf(t.blocks, above[x].block)
    {
      BornIsNew(cfg, t, k, x);
      assert NodeOk(cfg, t.blocks, t.home, above[x].block, 1, k == 0);
    }
    InsertChildEffect(t.blocks, u.blocks, above, q, c, IndexEntry(sep, t.size));
  }

  lemma LeafSplitLeavesOk(cfg: Config, t: Tree, i: nat, q: nat, c: nat, sep: nat, left: seq<Record>, right: seq<Record>)
    requires LeafSplittable(cfg, t, i, q, c, sep) && Tiles(left, cfg.usable) && Tiles(right, cfg.usable)
    ensures var u := LeafSplitTree(cfg, t, i, q, c, sep, left, right);
            LevelOk(cfg, u.blocks, u.home, Leaves(u), 0, false)
  {
    hide Tiles, Expand, InsertNode, InsertEntry, Sorted, DistinctIn;
    LeafSplitNodes(cfg, t, i, q, c, sep);
    var u := LeafSplitTree(cfg, t, i, q, c, sep, left, right);
    var k := |t.levels| - 1;
    var leaves, node := Leaves(t), Node(sep, t.size);
    assert LevelOk(cfg, t.blocks, t.home, t.levels[k], |t.levels| - 1 - k, k == 0);
    InsertSortedNode(leaves, i, node);
    forall x | 0 <= x < |leaves|
      ensures leaves[x].block != t.size && NodeOk(cfg, u.blocks, u.home, leaves[x].block, 0, false)
    {
      LeafNode(cfg, t, x);
    }
    InsertDistinctNode(leaves, i, node);
    forall x | 0 <= x < |Leaves(u)|
      ensures NodeOk(cfg, u.blocks, u.home, Leaves(u)[x].block, 0, false)
    {
      assert Leaves(u)[x] in Leaves(u);
    }
  }

  /** Splitting a leaf keeps the structure; the new leaf follows the old one. */
  lemma LeafSplitKeeps(cfg: Config, t: Tree, i: nat, q: nat, c: nat, sep: nat, left: seq<Record>, right: seq<Record>)
    requires LeafSplittable(cfg, t, i, q, c, sep) && Tiles(left, cfg.usable) && Tiles(right, cfg.usable)
    ensures var u := LeafSplitTree(cfg, t, i, q, c, sep, left, right);
            Structure(cfg, u) && |u.levels| == |t.levels| && Leaves(u) == InsertNode(Leaves(t), i, Node(sep, t.size))
  {
    hide Tiles, Expand, InsertNode, InsertEntry, LevelOk;
    LeafSplitNodes(cfg, t, i, q, c, sep);
    LeafSplitParentOk(cfg, t, i, q, c, sep, left, right);
    LeafSplitLeavesOk(cfg, t, i, q, c, sep, left, right);
    var u := LeafSplitTree(cfg, t, i, q, c, sep, left, right);
    forall j | 0 <= j < |t.levels|
      ensures LevelOk(cfg, u.blocks, u.home, u.levels[j], |t.levels| - 1 - j, j == 0)
      ensures j < |t.levels| - 1 ==> u.levels[j + 1] == Expand(u.blocks, u.levels[j])
    {
      if j < |t.levels| - 2 {
        assert t.levels[j + 1] == Expand(t.blocks, t.levels[j]);
        LeafSplitAgree(cfg, t, i, q, c, sep, left, right, j);
        LevelFrame(cfg, t.blocks, u.blocks, t.home, u.home, t.levels[j], |t.levels| - 1 - j, j == 0);
      }
    }
  }

  // ----- What leaves hold

  /** The new name belongs in leaf `i` and is not stored anywhere. */
  ghost predicate Fresh(cfg: Config, t: Tree, i: nat, e: Entry) {
    LastAtMost(Leaves(t), i, cfg.hash(e.name)) && forall f :: Stored(t.blocks, Leaves(t), f) ==> f.name != e.name
  }

  /** `u` stores what `t` stores, and `e`. */
  ghost predicate Gains(t: Tree, u: Tree, e: Entry) {
    forall x :: Stored(u.blocks, Leaves(u), x) <==> Stored(t.blocks, Leaves(t), x) || x == e
  }

  lemma GainsUnique(t: Tree, u: Tree, e: Entry)
    requires NamesUnique(t.blocks, Leaves(t)) && Gains(t, u, e)
    requires forall f :: Stored(t.blocks, Leaves(t), f) ==> f.name != e.name
    ensures NamesUnique(u.blocks, Leaves(u))
  {
    hide Stored;
  }

  lemma LeafDistinct(cfg: Config, t: Tree, i: nat, j: nat)
    requires Structure(cfg, t) && i < |Leaves(t)| && j < |Leaves(t)| && i != j
    ensures Leaves(t)[i].block != Leaves(t)[j].block
  {
    hide Tiles, Expand;
    var k := |t.levels| - 1;
    assert LevelOk(cfg, t.blocks, t.home, t.levels[k], |t.levels| - 1 - k, k == 0);
  }

  lemma WriteStored(cfg: Config, t: Tree, i: nat, records: seq<Record>, e: Entry, j: nat, x: Entry)
    requires Structure(cfg, t) && i < |Leaves(t)|
    requires forall x :: x in Live(records) <==> x in LiveIn(t.blocks, Leaves(t)[i].block) || x == e
    ensures var u := WriteTree(t, Leaves(t)[i].block, records);
            StoredAt(u.blocks, Leaves(t), j, x) <==> StoredAt(t.blocks, Leaves(t), j, x) || (j == i && x == e)
  {
    hide Structure, Live;
    if j < |Leaves(t)| && j != i { LeafDistinct(cfg, t, j, i); }
  }

  /** Storing one more entry in leaf `i` and nothing else. */
  lemma StoredGains(t: Tree, u: Tree, i: nat, e: Entry)
    requires i < |Leaves(t)| && Leaves(u) == Leaves(t)
    requires forall j: nat, x :: StoredAt(u.blocks, Leaves(t), j, x) <==>
               StoredAt(t.blocks, Leaves(t), j, x) || (j == i && x == e)
    ensures Gains(t, u, e)
  {
    var leaves := Leaves(t);
    hide Leaves, StoredAt;
    assert StoredAt(u.blocks, leaves, i, e);
    forall x
      ensures Stored(u.blocks, leaves, x) <==> Stored(t.blocks, leaves, x) || x == e
    {
      if Stored(u.blocks, leaves, x) {
        var j: nat :| StoredAt(u.blocks, leaves, j, x);
        assert StoredAt(t.blocks, leaves, j, x) || x == e;
      }
      if Stored(t.blocks, leaves, x) {
        var j: nat :| StoredAt(t.blocks, leaves, j, x);
        assert StoredAt(u.blocks, leaves, j, x);
      }
    }
  }

  lemma LastInRange(leaves: seq<Node>, i: nat, h: nat)
    requires LastAtMost(leaves, i, h)
    ensures InRange(leaves, i, h)
  {}

  /** A leaf rewritten with one more entry. */
  lemma WriteGains(cfg: Config, t: Tree, i: nat, records: seq<Record>, e: Entry)
    requires TreeOk(cfg, t) && i < |Leaves(t)| && Tiles(records, cfg.usable) && Fresh(cfg, t, i, e)
    requires forall x :: x in Live(records) <==> x in LiveIn(t.blocks, Leaves(t)[i].block) || x == e
    ensures var u := WriteTree(t, Leaves(t)[i].block, records); TreeOk(cfg, u) && Gains(t, u, e)
  {
    WriteKeeps(cfg, t, i, records);
    var u, leaves := WriteTree(t, Leaves(t)[i].block, records), Leaves(t);
    LastInRange(leaves, i, cfg.hash(e.name));
    forall j: nat, x
      ensures StoredAt(u.blocks, leaves, j, x) <==> StoredAt(t.blocks, leaves, j, x) || (j == i && x == e)
    {
      WriteStored(cfg, t, i, records, e, j, x);
    }
    assert Leaves(u) == leaves;
    hide Structure, Leaves, StoredAt, Live, Gains, InRange;
    StoredGains(t, u, i, e);
    GainsUnique(t, u, e);
  }

  /** The separator of a leaf split lies between the separators around the leaf, even next to odd ones. */
  lemma SeparatorBetween(cfg: Config, leaves: seq<Node>, i: nat, entries: seq<Entry>, m: nat)
    requires HashOk(cfg.hash) && i < |leaves| && 0 < m < |entries| && HashSorted(cfg.hash, entries)
    requires forall x :: x in entries ==> InRange(leaves, i, cfg.hash(x.name))
    ensures var sep := SeparatorAt(cfg.hash, entries, m);
            leaves[i].sep <= sep && (i + 1 < |leaves| ==> sep <= leaves[i + 1].sep)
  {
    assert entries[m] in entries && entries[m - 1] in entries;
    assert HashedOk(cfg.hash, entries[m].name) && HashedOk(cfg.hash, entries[m - 1].name);
  }

  /** An overflowing leaf: its entries and the new one, in hash order. */
  ghost predicate Overflow(cfg: Config, t: Tree, i: nat, e: Entry, entries: seq<Entry>)
    requires i < |Leaves(t)|
  {
    && HashSorted(cfg.hash, entries)
    && forall x :: x in entries <==> x in LiveIn(t.blocks, Leaves(t)[i].block) || x == e
  }

  lemma OverflowInRange(cfg: Config, t: Tree, i: nat, e: Entry, entries: seq<Entry>)
    requires TreeOk(cfg, t) && i < |Leaves(t)| && Fresh(cfg, t, i, e) && Overflow(cfg, t, i, e, entries)
    ensures forall x :: x in entries ==> InRange(Leaves(t), i, cfg.hash(x.name))
  {
    hide Structure;
    forall x | x in entries
      ensures InRange(Leaves(t), i, cfg.hash(x.name))
    {
      assert StoredAt(t.blocks, Leaves(t), i, x) || x == e;
    }
  }

  /** Where the leaves of `t` are in the split tree. */
  lemma SplitStored(cfg: Config, t: Tree, u: Tree, i: nat, left: seq<Record>, right: seq<Record>, sep: nat, j: nat,
                    x: Entry)
    requires Structure(cfg, t) && i < |Leaves(t)|
    requires Leaves(u) == InsertNode(Leaves(t), i, Node(sep, t.size))
    requires Leaves(t)[i].block in u.blocks && u.blocks[Leaves(t)[i].block] == Leaf(left)
    requires t.size in u.blocks && u.blocks[t.size] == Leaf(right)
    requires forall y :: 0 <= y < |Leaves(t)| && y != i ==>
               LiveIn(u.blocks, Leaves(t)[y].block) == LiveIn(t.blocks, Leaves(t)[y].block)
    ensures StoredAt(u.blocks, Leaves(u), j, x) <==>
            if j < i then StoredAt(t.blocks, Leaves(t), j, x)
            else if j == i then x in Live(left)
            else if j == i + 1 then x in Live(right)
            else j >= 1 && StoredAt(t.blocks, Leaves(t), j - 1, x)
  {
    hide Structure, Live;
    var leaves, after := Leaves(t), Leaves(u);
    if j < |after| {
      assert after[j] == if j <= i then leaves[j] else if j == i + 1 then Node(sep, t.size) else leaves[j - 1];
    }
  }

  lemma SplitRange(leaves: seq<Node>, i: nat, sep: nat, born: nat, j: nat, h: nat)
    requires i < |leaves| && j < |leaves|
    requires InRange(leaves, j, h)
    ensures var after := InsertNode(leaves, i, Node(sep, born));
            && (j < i ==> InRange(after, j, h))
            && (j > i ==> InRange(after, j + 1, h))
            && (j == i && h < sep ==> InRange(after, i, h))
            && (j == i && h >= Floor(sep) ==> InRange(after, i + 1, h))
  {
    var after := InsertNode(leaves, i, Node(sep, born));
    assert forall y :: 0 <= y <= i ==> after[y] == leaves[y];
    assert after[i + 1] == Node(sep, born);
    assert forall y :: i < y < |leaves| ==> after[y + 1] == leaves[y];
  }

  lemma LeafSplitOthers(cfg: Config, t: Tree, i: nat, q: nat, c: nat, sep: nat, left: seq<Record>, right: seq<Record>)
    requires LeafSplittable(cfg, t, i, q, c, sep)
    ensures var u := LeafSplitTree(cfg, t, i, q, c, sep, left, right);
            && Leaves(t)[i].block in u.blocks && u.blocks[Leaves(t)[i].block] == Leaf(left)
            && t.size in u.blocks && u.blocks[t.size] == Leaf(right)
            && forall y :: 0 <= y < |Leaves(t)| && y != i ==>
                 LiveIn(u.blocks, Leaves(t)[y].block) == LiveIn(t.blocks, Leaves(t)[y].block)
  {
    hide Tiles, Expand, InsertNode, InsertEntry;
    LeafSplitNodes(cfg, t, i, q, c, sep);
    var u := LeafSplitTree(cfg, t, i, q, c, sep, left, right);
    forall y | 0 <= y < |Leaves(t)| && y != i
      ensures LiveIn(u.blocks, Leaves(t)[y].block) == LiveIn(t.blocks, Leaves(t)[y].block)
    {
      LeafNode(cfg, t, y);
      LeafDistinct(cfg, t, y, i);
    }
  }

  /** A leaf split stores the old entries and the new one, each in a leaf its hash leads to. */
  lemma LeafSplitGains(cfg: Config, t: Tree, i: nat, q: nat, c: nat, e: Entry, entries: seq<Entry>, m: nat,
                       left: seq<Record>, right: seq<Record>)
    requires TreeOk(cfg, t) && i < |Leaves(t)| && Fresh(cfg, t, i, e) && Overflow(cfg, t, i, e, entries)
    requires 0 < m < |entries| && LeafSplittable(cfg, t, i, q, c, SeparatorAt(cfg.hash, entries, m))
    requires Tiles(left, cfg.usable) && Tiles(right, cfg.usable) && Live(left) == entries[..m]
    requires Live(right) == entries[m..]
    ensures var u := LeafSplitTree(cfg, t, i, q, c, SeparatorAt(cfg.hash, entries, m), left, right);
            TreeOk(cfg, u) && Gains(t, u, e)
  {
    var sep := SeparatorAt(cfg.hash, entries, m);
    var u := LeafSplitTree(cfg, t, i, q, c, sep, left, right);
    LeafSplitKeeps(cfg, t, i, q, c, sep, left, right);
    LeafSplitOthers(cfg, t, i, q, c, sep, left, right);
    OverflowInRange(cfg, t, i, e, entries);
    SeparatorSeparates(cfg.hash, entries, m);
    hide Structure, Tiles, LeafSplittable, LeafSplitTree, Live, InsertNode, InRange, Leaves, LiveIn, HashSorted;
    forall j: nat, x | StoredAt(u.blocks, Leaves(u), j, x)
      ensures InRange(Leaves(u), j, cfg.hash(x.name)) && (Stored(t.blocks, Leaves(t), x) || x == e)
    {
      SplitStored(cfg, t, u, i, left, right, sep, j, x);
      SplitEntryOk(cfg, t, u, i, e, entries, m, left, right, j, x);
    }
    forall x | Stored(t.blocks, Leaves(t), x) || x == e
      ensures Stored(u.blocks, Leaves(u), x)
    {
      SplitFinds(cfg, t, u, i, e, entries, m, left, right, x);
    }
    GainsUnique(t, u, e);
  }

  lemma SplitEntryOk(cfg: Config, t: Tree, u: Tree, i: nat, e: Entry, entries: seq<Entry>, m: nat,
                     left: seq<Record>, right: seq<Record>, j: nat, x: Entry)
    requires TreeOk(cfg, t) && i < |Leaves(t)| && Overflow(cfg, t, i, e, entries) && 0 < m < |entries|
    requires Leaves(u) == InsertNode(Leaves(t), i, Node(SeparatorAt(cfg.hash, entries, m), t.size))
    requires Live(left) == entries[..m] && Live(right) == entries[m..]
    requires forall y :: y in entries ==> InRange(Leaves(t), i, cfg.hash(y.name))
    requires forall k :: 0 <= k < m ==> cfg.hash(entries[k].name) < SeparatorAt(cfg.hash, entries, m)
    requires forall k :: m <= k < |entries| ==> cfg.hash(entries[k].name) >= Floor(SeparatorAt(cfg.hash, entries, m))
    requires if j < i then StoredAt(t.blocks, Leaves(t), j, x)
             else if j == i then x in Live(left)
             else if j == i + 1 then x in Live(right)
             else j >= 1 && StoredAt(t.blocks, Leaves(t), j - 1, x)
    ensures j < |Leaves(u)| && InRange(Leaves(u), j, cfg.hash(x.name)) && (Stored(t.blocks, Leaves(t), x) || x == e)
  {
    hide Structure, Live, InsertNode, InRange;
    var sep, h, leaves := SeparatorAt(cfg.hash, entries, m), cfg.hash(x.name), Leaves(t);
    assert |Leaves(u)| == |leaves| + 1 by { InsertNodeLen(leaves, i, Node(sep, t.size)); }
    if j < i {
      SplitRange(leaves, i, sep, t.size, j, h);
    } else if j == i || j == i + 1 {
      var k :| 0 <= k < |entries| && entries[k] == x && (j == i <==> k < m);
      assert entries[k] in entries;
      SplitRange(leaves, i, sep, t.size, i, h);
      assert StoredAt(t.blocks, leaves, i, x) || x == e;
    } else {
      SplitRange(leaves, i, sep, t.size, j - 1, h);
    }
  }

  lemma InsertNodeLen(level: seq<Node>, p: nat, node: Node)
    requires p < |level|
    ensures |InsertNode(level, p, node)| == |level| + 1
  {}

  lemma SplitFinds(cfg: Config, t: Tree, u: Tree, i: nat, e: Entry, entries: seq<Entry>, m: nat,
                   left: seq<Record>, right: seq<Record>, x: Entry)
    requires Structure(cfg, t) && i < |Leaves(t)| && Overflow(cfg, t, i, e, entries) && 0 < m < |entries|
    requires Leaves(u) == InsertNode(Leaves(t), i, Node(SeparatorAt(cfg.hash, entries, m), t.size))
    requires Live(left) == entries[..m] && Live(right) == entries[m..]
    requires Leaves(t)[i].block in u.blocks && u.blocks[Leaves(t)[i].block] == Leaf(left)
    requires t.size in u.blocks && u.blocks[t.size] == Leaf(right)
    requires forall y :: 0 <= y < |Leaves(t)| && y != i ==>
               LiveIn(u.blocks, Leaves(t)[y].block) == LiveIn(t.blocks, Leaves(t)[y].block)
    requires Stored(t.blocks, Leaves(t), x) || x == e
    ensures Stored(u.blocks, Leaves(u), x)
  {
    hide Structure, Live, InsertNode;
    var sep := SeparatorAt(cfg.hash, entries, m);
    if x in entries {
      var k :| 0 <= k < |entries| && entries[k] == x;
      assert k < m ==> x == entries[..m][k];
      assert k >= m ==> x == entries[m..][k - m];
      var j := if k < m then i else i + 1;
      SplitStored(cfg, t, u, i, left, right, sep, j, x);
      assert StoredAt(u.blocks, Leaves(u), j, x);
    } else {
      var k: nat :| StoredAt(t.blocks, Leaves(t), k, x);
      var j := if k < i then k else k + 1;
      SplitStored(cfg, t, u, i, left, right, sep, j, x);
      assert StoredAt(u.blocks, Leaves(u), j, x);
    }
  }
}
