/** The entries of a hash tree as a bag: what each change of the tree does to it. */
module HtreeBag {
  import opened Bytes
  import opened DirRecords
  import opened HtreeLevels
  import opened HtreeTree
  import opened HtreeGrow

  ghost function Bag(blocks: Blocks, leaves: seq<Node>): multiset<Entry> {
    if leaves == [] then multiset{}
    else Bag(blocks, leaves[..|leaves| - 1]) + multiset(LiveIn(blocks, leaves[|leaves| - 1].block))
  }

  lemma {:induction false} BagConcat(blocks: Blocks, a: seq<Node>, b: seq<Node>)
    ensures Bag(blocks, a + b) == Bag(blocks, a) + Bag(blocks, b)
  {
    hide LiveIn;
    if b == [] {
      assert a + b == a;
    } else {
      var n := |b| - 1;
      assert (a + b)[..|a + b| - 1] == a + b[..n];
      BagConcat(blocks, a, b[..n]);
    }
  }

  lemma BagOne(blocks: Blocks, node: Node)
    ensures Bag(blocks, [node]) == multiset(LiveIn(blocks, node.block))
  {
    hide LiveIn;
    assert [node][..0] == [];
  }

  lemma {:induction false} BagFrame(blocks: Blocks, after: Blocks, leaves: seq<Node>)
    requires forall i :: 0 <= i < |leaves| ==> LiveIn(after, leaves[i].block) == LiveIn(blocks, leaves[i].block)
    ensures Bag(after, leaves) == Bag(blocks, leaves)
  {
    hide LiveIn;
    if leaves != [] {
      BagFrame(blocks, after, leaves[..|leaves| - 1]);
    }
  }

  lemma BagAround(blocks: Blocks, leaves: seq<Node>, i: nat)
    requires i < |leaves|
    ensures Bag(blocks, leaves) ==
            Bag(blocks, leaves[..i]) + multiset(LiveIn(blocks, leaves[i].block)) + Bag(blocks, leaves[i + 1..])
  {
    hide Bag, LiveIn;
    assert leaves == leaves[..i] + [leaves[i]] + leaves[i + 1..];
    BagConcat(blocks, leaves[..i] + [leaves[i]], leaves[i + 1..]);
    BagConcat(blocks, leaves[..i], [leaves[i]]);
    BagOne(blocks, leaves[i]);
  }

  /** The bag holds exactly the stored entries. */
  lemma {:induction false} BagIsStored(blocks: Blocks, leaves: seq<Node>, e: Entry)
    ensures e in Bag(blocks, leaves) <==> Stored(blocks, leaves, e)
  {
    hide LiveIn;
    if leaves != [] {
      var n := |leaves| - 1;
      BagIsStored(blocks, leaves[..n], e);
      if e in LiveIn(blocks, leaves[n].block) {
        assert StoredAt(blocks, leaves, n, e);
      }
      if i: nat :| StoredAt(blocks, leaves[..n], i, e) {
        assert StoredAt(blocks, leaves, i, e);
      }
      if i: nat :| StoredAt(blocks, leaves, i, e) {
        assert i < n ==> StoredAt(blocks, leaves[..n], i, e);
      }
    }
  }

  lemma Regroup(a: multiset<Entry>, gone: multiset<Entry>, b: multiset<Entry>, left: multiset<Entry>,
                right: multiset<Entry>)
    ensures (a + left + (right + b)) + gone == (a + gone + b) + left + right
    ensures (a + left + b) + gone == (a + gone + b) + left
  {}

  lemma WriteElsewhere(cfg: Config, t: Tree, i: nat, records: seq<Record>, j: nat)
    requires Structure(cfg, t) && i < |Leaves(t)| && j < |Leaves(t)|
    ensures LiveIn(WriteTree(t, Leaves(t)[i].block, records).blocks, Leaves(t)[j].block) ==
            if j == i then Live(records) else LiveIn(t.blocks, Leaves(t)[j].block)
  {
    hide Structure, Live;
    if j != i { LeafDistinct(cfg, t, j, i); }
  }

  /** Rewriting leaf `i` exchanges its entries. */
  lemma WriteBag(cfg: Config, t: Tree, i: nat, records: seq<Record>)
    requires Structure(cfg, t) && i < |Leaves(t)|
    ensures var u := WriteTree(t, Leaves(t)[i].block, records);
            Bag(u.blocks, Leaves(u)) + multiset(LiveIn(t.blocks, Leaves(t)[i].block)) ==
            Bag(t.blocks, Leaves(t)) + multiset(Live(records))
  {
    var u, leaves := WriteTree(t, Leaves(t)[i].block, records), Leaves(t);
    assert Leaves(u) == leaves;
    hide Structure, LiveIn, Live, Bag, Leaves, WriteTree;
    forall j | 0 <= j < |leaves|
      ensures LiveIn(u.blocks, leaves[j].block) == if j == i then Live(records) else LiveIn(t.blocks, leaves[j].block)
    {
      WriteElsewhere(cfg, t, i, records, j);
    }
    BagFrame(t.blocks, u.blocks, leaves[..i]);
    BagFrame(t.blocks, u.blocks, leaves[i + 1..]);
    BagAround(t.blocks, leaves, i);
    BagAround(u.blocks, leaves, i);
    Regroup(Bag(t.blocks, leaves[..i]), multiset(LiveIn(t.blocks, leaves[i].block)), Bag(t.blocks, leaves[i + 1..]),
            multiset(Live(records)), multiset{});
  }

  lemma InsertParts(leaves: seq<Node>, i: nat, node: Node)
    requires i < |leaves|
    ensures var after := InsertNode(leaves, i, node);
            |after| == |leaves| + 1 && after[..i] == leaves[..i] && after[i] == leaves[i] &&
              after[i + 1..] == [node] + leaves[i + 1..]
  {}

  /** Splitting leaf `i` exchanges its entries for those of both halves. */
  lemma SplitBag(cfg: Config, t: Tree, u: Tree, i: nat, sep: nat, left: seq<Record>, right: seq<Record>)
    requires i < |Leaves(t)| && Leaves(u) == InsertNode(Leaves(t), i, Node(sep, t.size))
    requires Leaves(t)[i].block in u.blocks && u.blocks[Leaves(t)[i].block] == Leaf(left)
    requires t.size in u.blocks && u.blocks[t.size] == Leaf(right)
    requires forall y :: 0 <= y < |Leaves(t)| && y != i ==>
               LiveIn(u.blocks, Leaves(t)[y].block) == LiveIn(t.blocks, Leaves(t)[y].block)
    ensures Bag(u.blocks, Leaves(u)) + multiset(LiveIn(t.blocks, Leaves(t)[i].block)) ==
            Bag(t.blocks, Leaves(t)) + multiset(Live(left)) + multiset(Live(right))
  {
    hide Live, Bag, Leaves, InsertNode;
    var leaves, node, after := Leaves(t), Node(sep, t.size), Leaves(u);
    assert LiveIn(u.blocks, leaves[i].block) == Live(left) && LiveIn(u.blocks, t.size) == Live(right);
    hide LiveIn;
    InsertParts(leaves, i, node);
    BagFrame(t.blocks, u.blocks, leaves[..i]);
    BagFrame(t.blocks, u.blocks, leaves[i + 1..]);
    BagAround(t.blocks, leaves, i);
    BagAround(u.blocks, after, i);
    BagConcat(u.blocks, [node], leaves[i + 1..]);
    BagOne(u.blocks, node);
    Regroup(Bag(t.blocks, leaves[..i]), multiset(LiveIn(t.blocks, leaves[i].block)), Bag(t.blocks, leaves[i + 1..]),
            multiset(Live(left)), multiset(Live(right)));
  }

  lemma GrownBag(cfg: Config, t: Tree, u: Tree)
    requires Grown(cfg, t, u)
    ensures Bag(u.blocks, Leaves(u)) == Bag(t.blocks, Leaves(t))
  {
    hide Structure, Live;
    BagFrame(t.blocks, u.blocks, Leaves(t));
  }

  lemma Cancel(x: multiset<Entry>, y: multiset<Entry>, both: multiset<Entry>, d: multiset<Entry>)
    requires x + both == y + (both + d)
    ensures x == y + d
  {
    forall e
      ensures x[e] == (y + d)[e]
    {
      assert (x + both)[e] == (y + (both + d))[e];
    }
  }

  /** No entry is stored twice. */
  ghost predicate Once(t: Tree) {
    forall e :: Bag(t.blocks, Leaves(t))[e] <= 1
  }

  /** Taking entries out of leaf `i` keeps the tree well formed. */
  lemma WriteLess(cfg: Config, t: Tree, i: nat, records: seq<Record>)
    requires TreeOk(cfg, t) && i < |Leaves(t)| && Tiles(records, cfg.usable)
    requires forall x :: x in Live(records) ==> x in LiveIn(t.blocks, Leaves(t)[i].block)
    ensures TreeOk(cfg, WriteTree(t, Leaves(t)[i].block, records))
  {
    WriteKeeps(cfg, t, i, records);
    var u, leaves := WriteTree(t, Leaves(t)[i].block, records), Leaves(t);
    forall j: nat, x | StoredAt(u.blocks, leaves, j, x)
      ensures StoredAt(t.blocks, leaves, j, x)
    {
      LessStored(cfg, t, i, records, j, x);
    }
    assert Leaves(u) == leaves;
    hide Structure, Leaves, StoredAt, Live, InRange, WriteTree;
    forall x | Stored(u.blocks, leaves, x)
      ensures Stored(t.blocks, leaves, x)
    {
      var j: nat :| StoredAt(u.blocks, leaves, j, x);
      assert StoredAt(t.blocks, leaves, j, x);
    }
  }

  lemma LessStored(cfg: Config, t: Tree, i: nat, records: seq<Record>, j: nat, x: Entry)
    requires Structure(cfg, t) && i < |Leaves(t)|
    requires forall x :: x in Live(records) ==> x in LiveIn(t.blocks, Leaves(t)[i].block)
    requires StoredAt(WriteTree(t, Leaves(t)[i].block, records).blocks, Leaves(t), j, x)
    ensures StoredAt(t.blocks, Leaves(t), j, x)
  {
    hide Structure, Live;
    if j != i { LeafDistinct(cfg, t, j, i); }
  }
}
