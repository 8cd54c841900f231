/** Making room in the index of a hash tree: what a chain of node splits up to the root keeps. */
module HtreeGrow {
  import opened Bytes
  import opened DirRecords
  import opened HtreeLevels
  import opened HtreeTree
  import opened HtreeSearch

  /** Index splits leave the leaves, their order and their contents as they were. */
  ghost predicate Grown(cfg: Config, t: Tree, u: Tree) {
    && Structure(cfg, u) && Leaves(u) == Leaves(t)
    && Agree(t.blocks, u.blocks, t.home, u.home, Leaves(t))
    && |t.levels| <= |u.levels| <= |t.levels| + 1 && t.size <= u.size
  }

  lemma GrownStored(cfg: Config, t: Tree, u: Tree, i: nat, e: Entry)
    requires Grown(cfg, t, u)
    ensures StoredAt(u.blocks, Leaves(u), i, e) <==> StoredAt(t.blocks, Leaves(t), i, e)
  {
    hide Structure, Live;
  }

  lemma GrownKeeps(cfg: Config, t: Tree, u: Tree)
    requires TreeOk(cfg, t) && Grown(cfg, t, u)
    ensures TreeOk(cfg, u)
    ensures forall e :: Stored(u.blocks, Leaves(u), e) <==> Stored(t.blocks, Leaves(t), e)
  {
    forall i: nat, e
      ensures StoredAt(u.blocks, Leaves(u), i, e) <==> StoredAt(t.blocks, Leaves(t), i, e)
    {
      GrownStored(cfg, t, u, i, e);
    }
    SameStored(t, u);
    hide Structure, StoredAt, Leaves, Agree;
  }

  lemma SameStored(t: Tree, u: Tree)
    requires forall i: nat, e :: StoredAt(u.blocks, Leaves(u), i, e) <==> StoredAt(t.blocks, Leaves(t), i, e)
    ensures forall e :: Stored(u.blocks, Leaves(u), e) <==> Stored(t.blocks, Leaves(t), e)
  {
    hide StoredAt, Leaves;
    forall e
      ensures Stored(u.blocks, Leaves(u), e) <==> Stored(t.blocks, Leaves(t), e)
    {
      if Stored(u.blocks, Leaves(u), e) {
        var i: nat :| StoredAt(u.blocks, Leaves(u), i, e);
        assert StoredAt(t.blocks, Leaves(t), i, e);
      }
      if Stored(t.blocks, Leaves(t), e) {
        var i: nat :| StoredAt(t.blocks, Leaves(t), i, e);
        assert StoredAt(u.blocks, Leaves(u), i, e);
      }
    }
  }

  predicate Full(blocks: Blocks, b: nat) {
    b in blocks && blocks[b].Index? && |blocks[b].entries| >= blocks[b].limit
  }

  /** The levels below `index` and the path through them are as before, shifted by the levels gained. */
  ghost predicate LowerSame(t: Tree, u: Tree, path: seq<PathEntry>, pos: seq<nat>, path': seq<PathEntry>,
                            pos': seq<nat>, index: nat)
    requires |path| < |t.levels| && |pos| == |path| + 1 && |t.levels| <= |u.levels|
    requires |path'| == |path| + (|u.levels| - |t.levels|) && |pos'| == |path'| + 1
  {
    var shift := |u.levels| - |t.levels|;
    && (forall j :: index < j < |path| ==> path'[j + shift] == path[j])
    && (forall j :: index < j <= |path| ==> pos'[j + shift] == pos[j])
    && (forall j :: index < j < |t.levels| ==>
          u.levels[j + shift] == t.levels[j] && Agree(t.blocks, u.blocks, t.home, u.home, t.levels[j]))
  }

  /** The path was updated for `u`, whose node at `index` (shifted) has room for one more child. */
  ghost predicate RoomMade(cfg: Config, t: Tree, u: Tree, path: seq<PathEntry>, pos: seq<nat>,
                           path': seq<PathEntry>, pos': seq<nat>, index: nat) {
    && Grown(cfg, t, u)
    && index < |path| < |t.levels| && |pos| == |path| + 1
    && |path'| == |path| + (|u.levels| - |t.levels|) && PathOk(u, path', pos')
    && LowerSame(t, u, path, pos, path', pos', index)
    && path'[index + (|u.levels| - |t.levels|)].block in u.blocks
    && !Full(u.blocks, path'[index + (|u.levels| - |t.levels|)].block)
  }

  lemma NothingToDo(cfg: Config, t: Tree, path: seq<PathEntry>, pos: seq<nat>, index: nat)
    requires Structure(cfg, t) && PathOk(t, path, pos) && index < |path|
    requires path[index].block in t.blocks && !Full(t.blocks, path[index].block)
    ensures RoomMade(cfg, t, t, path, pos, path, pos, index)
  {
    forall j: nat | j < |t.levels|
      ensures Agree(t.blocks, t.blocks, t.home, t.home, t.levels[j])
    {
      hide Tiles, Expand;
      assert LevelOk(cfg, t.blocks, t.home, t.levels[j], |t.levels| - 1 - j, j == 0);
      forall i | 0 <= i < |t.levels[j]|
        ensures t.levels[j][i].block in t.blocks && t.levels[j][i].block in t.home
      {
        assert NodeOk(cfg, t.blocks, t.home, t.levels[j][i].block, |t.levels| - 1 - j, j == 0);
      }
    }
    hide Structure;
  }

  /** A full root gives room one level down. */
  lemma RootRoom(cfg: Config, t: Tree, path: seq<PathEntry>, pos: seq<nat>)
    requires ConfigOk(cfg) && Structure(cfg, t) && PathOk(t, path, pos) && path != []
    requires 0 in t.blocks && t.blocks[0].Index?
    ensures RoomMade(cfg, t, RootSplitTree(cfg, t), path, pos,
                     [PathEntry(0, 0), PathEntry(t.size, path[0].child)] + path[1..], [0] + pos, 0)
  {
    RootSplitKeeps(cfg, t);
    RootSplitPathOk(cfg, t, path, pos);
    forall j | 0 < j < |t.levels|
      ensures Agree(t.blocks, RootSplitTree(cfg, t).blocks, t.home, RootSplitTree(cfg, t).home, t.levels[j])
    {
      RootSplitAgree(cfg, t, j);
    }
    hide Structure, Agree, PathOk;
  }

  /** Agreement carries over two changes. */
  lemma AgreeTwice(t: Tree, v: Tree, u: Tree, level: seq<Node>)
    requires Agree(t.blocks, v.blocks, t.home, v.home, level) && Agree(v.blocks, u.blocks, v.home, u.home, level)
    ensures Agree(t.blocks, u.blocks, t.home, u.home, level)
  {}

  /** Room at the parent allows the node itself to be split. */
  lemma CanSplit(cfg: Config, t: Tree, v: Tree, path: seq<PathEntry>, pos: seq<nat>, path1: seq<PathEntry>,
                 pos1: seq<nat>, index: nat)
    requires ConfigOk(cfg) && Structure(cfg, t) && PathOk(t, path, pos) && 0 < index < |path|
    requires RoomMade(cfg, t, v, path, pos, path1, pos1, index - 1)
    requires Full(t.blocks, path[index].block)
    ensures var k := index + (|v.levels| - |t.levels|);
            && 0 < k < |path1| && path1[k] == path[index] && pos1[k] == pos[index]
            && Full(v.blocks, path[index].block)
            && Splittable(cfg, v, k, pos1[k], pos1[k - 1], path1[k - 1].child)
  {
    hide Tiles, Expand, Shape;
    var k := index + (|v.levels| - |t.levels|);
    assert v.levels[k] == t.levels[index] && Agree(t.blocks, v.blocks, t.home, v.home, t.levels[index]);
    assert PathStep(t.blocks, t.levels[index], pos[index], path[index], pos[index + 1]);
    assert PathStep(v.blocks, v.levels[k - 1], pos1[k - 1], path1[k - 1], pos1[k - 1 + 1]);
    assert LevelOk(cfg, v.blocks, v.home, v.levels[k], |v.levels| - 1 - k, k == 0);
    assert NodeOk(cfg, v.blocks, v.home, v.levels[k][pos1[k]].block, |v.levels| - 1 - k, k == 0);
    NonEmpty(cfg, v, k - 1, pos1[k - 1]);
  }

  ghost function SplitPos(pos: seq<nat>, path: seq<PathEntry>, k: nat, left: nat): seq<nat>
    requires k < |path| && k < |pos|
  {
    if path[k].child < left then pos else pos[k := pos[k] + 1]
  }

  lemma GrownTwice(cfg: Config, t: Tree, v: Tree, u: Tree)
    requires Grown(cfg, t, v) && Grown(cfg, v, u) && |u.levels| == |v.levels|
    ensures Grown(cfg, t, u)
  {
    hide Structure, Leaves;
    AgreeTwice(t, v, u, Leaves(t));
  }

  /** Changes at the split node and its parent do not reach below it. */
  lemma LowerTwice(t: Tree, v: Tree, u: Tree, path: seq<PathEntry>, pos: seq<nat>, path1: seq<PathEntry>,
                   pos1: seq<nat>,
                   path': seq<PathEntry>, pos': seq<nat>, index: nat)
    requires |path| < |t.levels| <= |v.levels| && |u.levels| == |v.levels| && |pos| == |path| + 1 && 0 < index
    requires |path1| == |path| + (|v.levels| - |t.levels|) == |path'| && |pos1| == |path1| + 1 == |pos'|
    requires LowerSame(t, v, path, pos, path1, pos1, index - 1)
    requires forall j :: index + (|v.levels| - |t.levels|) < j < |path1| ==> path'[j] == path1[j]
    requires forall j :: index + (|v.levels| - |t.levels|) < j < |pos1| ==> pos'[j] == pos1[j]
    requires forall j :: index + (|v.levels| - |t.levels|) < j < |v.levels| ==>
               u.levels[j] == v.levels[j] && Agree(v.blocks, u.blocks, v.home, u.home, v.levels[j])
    ensures LowerSame(t, u, path, pos, path', pos', index)
  {
    hide Agree;
    forall j | index < j < |t.levels|
      ensures Agree(t.blocks, u.blocks, t.home, u.home, t.levels[j])
    {
      var at := j + (|v.levels| - |t.levels|);
      assert v.levels[at] == t.levels[j];
      AgreeTwice(t, v, u, t.levels[j]);
    }
  }

  /** Splitting the node at `index` after its parent got room. */
  lemma SplitRoom(cfg: Config, t: Tree, v: Tree, path: seq<PathEntry>, pos: seq<nat>, path1: seq<PathEntry>,
                  pos1: seq<nat>, index: nat, k: nat)
    requires ConfigOk(cfg) && Structure(cfg, t) && 0 < index < |path|
    requires RoomMade(cfg, t, v, path, pos, path1, pos1, index - 1) && k == index + (|v.levels| - |t.levels|)
    requires 0 < k < |path1| && path1[k] == path[index] && pos1[k] == pos[index]
    requires Splittable(cfg, v, k, pos1[k], pos1[k - 1], path1[k - 1].child)
    ensures var left := |EntriesOf(v.blocks, path1[k].block)| / 2;
            RoomMade(cfg, t, SplitTree(cfg, v, k, pos1[k], pos1[k - 1], path1[k - 1].child), path, pos,
                     SplitPath(path1, k, left, v.size), SplitPos(pos1, path1, k, left), index)
  {
    hide Structure, Agree, Splittable, Full, EntriesOf, LowerSame, SplitBlocks, PathStep, Leaves;
    var left := |EntriesOf(v.blocks, path1[k].block)| / 2;
    var u := SplitTree(cfg, v, k, pos1[k], pos1[k - 1], path1[k - 1].child);
    SplitKeeps(cfg, v, k, pos1[k], pos1[k - 1], path1[k - 1].child);
    SplitSame(cfg, v, k, pos1[k], pos1[k - 1], path1[k - 1].child);
    SplitPathOk(cfg, v, path1, pos1, k);
    SplitHasRoom(cfg, v, path1, pos1, k);
    hide SplitTree, PathOk;
    GrownTwice(cfg, t, v, u);
    LowerTwice(t, v, u, path, pos, path1, pos1, SplitPath(path1, k, left, v.size), SplitPos(pos1, path1, k, left),
      index);
  }

  lemma SplitSame(cfg: Config, v: Tree, k: nat, p: nat, q: nat, c: nat)
    requires Splittable(cfg, v, k, p, q, c)
    ensures var u := SplitTree(cfg, v, k, p, q, c);
            && |u.levels| == |v.levels| && u.size == v.size + 1
            && forall j :: k < j < |v.levels| ==>
                 u.levels[j] == v.levels[j] && Agree(v.blocks, u.blocks, v.home, u.home, v.levels[j])
  {
    hide Agree, SplitBlocks, Structure, InsertNode;
    forall j | k < j < |v.levels|
      ensures Agree(v.blocks, SplitTree(cfg, v, k, p, q, c).blocks, v.home, SplitTree(cfg, v, k, p, q, c).home,
              v.levels[j])
    {
      SplitAgree(cfg, v, k, p, q, c, j);
    }
  }

  /** Both halves of a split node have room. */
  lemma SplitHasRoom(cfg: Config, v: Tree, path: seq<PathEntry>, pos: seq<nat>, k: nat)
    requires PathOk(v, path, pos) && 0 < k < |path|
    requires Splittable(cfg, v, k, pos[k], pos[k - 1], path[k - 1].child)
    ensures var left := |EntriesOf(v.blocks, path[k].block)| / 2;
            var u := SplitTree(cfg, v, k, pos[k], pos[k - 1], path[k - 1].child);
            var b := SplitPath(path, k, left, v.size)[k].block;
            b in u.blocks && !Full(u.blocks, b)
  {
    hide Tiles, Expand, Structure, InsertNode, InsertEntry;
    SplitNodes(cfg, v, k, pos[k], pos[k - 1], path[k - 1].child);
    assert PathStep(v.blocks, v.levels[k], pos[k], path[k], pos[k + 1]);
  }
}
