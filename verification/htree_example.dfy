/** A directory of 4096-byte blocks with one index level below a full root: the next insertion into its full leaf
    splits the root, and every name becomes unreachable.

    The blocks carry no checksum, so a leaf has 4096 usable bytes, the root takes 508 index entries and any other index
    block 511. The hash is any function that sends the seventeen names involved to the range of the last leaf.
 */
module HtreeExample {
  import opened Options
  import opened Bytes
  import opened DirRecords
  import opened HtreeLevels
  import opened HtreeTree
  import opened HtreeSearch
  import opened HtreeGrow
  import opened HtreeBag
  import opened Htree

  const BLOCK_SIZE: nat := 4096
  const ROOT_LIMIT: nat := (BLOCK_SIZE - 0x20) / 8
  const NODE_LIMIT: nat := (BLOCK_SIZE - 8) / 8
  const LEAVES: nat := 508 * 511
  const SIZE: nat := 509 + LEAVES

  /** Names of 248 bytes: sixteen records of 256 bytes fill a leaf. */
  function Numbered(k: nat): (e: Entry)
    requires k <= 16
    ensures ValidEntry(e) && MinSize(|e.name|) == 256 && e.name != DOT && e.name != DOT_DOT
    ensures e.name[0] as nat == 97 + k
  {
    Entry(11 + k, seq(248, _ => (97 + k) as u8), 1)
  }

  function Numbers(n: nat): (r: seq<Entry>)
    requires n <= 16
    ensures |r| == n && forall k :: 0 <= k < n ==> r[k] == Numbered(k)
  {
    seq(n, k requires 0 <= k < n => Numbered(k))
  }

  function Packed(n: nat): (r: seq<Record>)
    requires n <= 16
    ensures |r| == n && forall k :: 0 <= k < n ==> r[k] == Record(256, Some(Numbered(k)))
  {
    seq(n, k requires 0 <= k < n => Record(256, Some(Numbered(k))))
  }

  ghost predicate SendsToLastLeaf(hash: Name -> nat) {
    HashOk(hash) && forall k: nat :: k <= 16 ==> hash(Numbered(k).name) >= 2 * (LEAVES - 1)
  }

  function Geometry(hash: Name -> nat): Config {
    Config(BLOCK_SIZE, ROOT_LIMIT, NODE_LIMIT, hash)
  }

  function LeafEntries(i: nat): (r: seq<IndexEntry>)
    ensures |r| == 511 && forall j :: 0 <= j < 511 ==> r[j] == IndexEntry(2 * (511 * i + j), 509 + 511 * i + j)
  {
    seq(511, j requires 0 <= j < 511 => IndexEntry(2 * (511 * i + j), 509 + 511 * i + j))
  }

  /** Block 0 is the root, blocks 1 to 508 the index blocks below it, the others leaves, all but the last one empty. */
  function BlockAt(b: nat): Block {
    if b == 0 then Index(ROOT_LIMIT, seq(508, i requires 0 <= i < 508 => IndexEntry(1022 * i, 1 + i)))
    else if b <= 508 then Index(NODE_LIMIT, LeafEntries(b - 1))
    else if b < SIZE - 1 then Leaf([Record(BLOCK_SIZE, None)])
    else Leaf(Packed(16))
  }

  function AllBlocks(): Blocks {
    map b: nat | b < SIZE :: BlockAt(b)
  }

  ghost function Nodes(): (r: seq<Node>)
    ensures |r| == 508 && forall i :: 0 <= i < 508 ==> r[i] == Node(1022 * i, 1 + i)
  {
    seq(508, i requires 0 <= i < 508 => Node(1022 * i, 1 + i))
  }

  ghost function LeafNodes(): (r: seq<Node>)
    ensures |r| == LEAVES && forall j :: 0 <= j < LEAVES ==> r[j] == Node(2 * j, 509 + j)
  {
    seq(LEAVES, j requires 0 <= j < LEAVES => Node(2 * j, 509 + j))
  }

  ghost function HeightAt(b: nat): nat { if b == 0 then 2 else if b <= 508 then 1 else 0 }

  ghost function Heights(): map<nat, nat> {
    map b: nat | b < SIZE :: HeightAt(b)
  }

  ghost function FullTree(): Tree {
    Tree(AllBlocks(), SIZE, [[Node(0, 0)], Nodes(), LeafNodes()], Heights())
  }

  // ----- Its leaves

  lemma {:induction false} PackedRecords(n: nat)
    requires n <= 16
    ensures TotalLen(Packed(n)) == 256 * n && Live(Packed(n)) == Numbers(n) && SizeOf(Numbers(n)) == 256 * n
  {
    if n > 0 {
      PackedRecords(n - 1);
      var r := Record(256, Some(Numbered(n - 1)));
      assert Packed(n) == Packed(n - 1) + [r];
      assert Numbers(n) == Numbers(n - 1) + [Numbered(n - 1)];
      hide Packed, Numbers;
      One(r);
      TotalLenConcat(Packed(n - 1), [r]);
      LiveConcat(Packed(n - 1), [r]);
      SizeConcat(Numbers(n - 1), [Numbered(n - 1)]);
      assert [Numbered(n - 1)][1..] == [];
    }
  }

  lemma LeafRecords(b: nat)
    requires 508 < b < SIZE
    ensures AllBlocks()[b].Leaf? && Tiles(AllBlocks()[b].records, BLOCK_SIZE)
    ensures LiveIn(AllBlocks(), b) == if b == SIZE - 1 then Numbers(16) else []
  {
    hide TotalLen, Live;
    PackedRecords(16);
    One(Record(BLOCK_SIZE, None));
  }

  lemma WhereStored(i: nat, e: Entry)
    requires StoredAt(AllBlocks(), LeafNodes(), i, e)
    ensures i == LEAVES - 1 && e in Numbers(16)
  {
    hide LiveIn;
    LeafRecords(509 + i);
  }

  // ----- It is well formed

  lemma TopLevel()
    ensures Nodes() == Expand(AllBlocks(), [Node(0, 0)])
  {
    ExpandOne(AllBlocks(), Node(0, 0));
    hide Expand;
    assert Children(AllBlocks(), Node(0, 0)) == Nodes();
  }

  lemma {:induction false} MiddleLevel(n: nat)
    requires n <= 508
    ensures LeafNodes()[..511 * n] == Expand(AllBlocks(), Nodes()[..n])
  {
    if n > 0 {
      hide Expand, AllBlocks, Nodes, LeafNodes;
      MiddleLevel(n - 1);
      assert Nodes()[..n] == Nodes()[..n - 1] + [Nodes()[n - 1]];
      ExpandConcat(AllBlocks(), Nodes()[..n - 1], [Nodes()[n - 1]]);
      ExpandOne(AllBlocks(), Nodes()[n - 1]);
      NodeChildren(n - 1);
      Pieces(LeafNodes(), 511 * (n - 1), 511 * n);
    }
  }

  lemma Pieces(s: seq<Node>, i: nat, j: nat)
    requires i <= j <= |s|
    ensures s[..j] == s[..i] + s[i..j]
  {}

  lemma NodeChildren(i: nat)
    requires i < 508
    ensures Children(AllBlocks(), Nodes()[i]) == LeafNodes()[511 * i..511 * (i + 1)]
  {
    assert EntriesOf(AllBlocks(), 1 + i) == LeafEntries(i);
  }

  lemma IndexLevels(hash: Name -> nat)
    ensures LevelOk(Geometry(hash), AllBlocks(), Heights(), [Node(0, 0)], 2, true)
    ensures LevelOk(Geometry(hash), AllBlocks(), Heights(), Nodes(), 1, false)
  {}

  lemma LeafLevel(hash: Name -> nat)
    ensures LevelOk(Geometry(hash), AllBlocks(), Heights(), LeafNodes(), 0, false)
  {
    hide Tiles;
    forall j | 0 <= j < LEAVES
      ensures NodeOk(Geometry(hash), AllBlocks(), Heights(), LeafNodes()[j].block, 0, false)
    {
      LeafRecords(509 + j);
    }
  }

  lemma Shaped(hash: Name -> nat)
    ensures Structure(Geometry(hash), FullTree())
  {
    TopLevel();
    MiddleLevel(508);
    assert Nodes()[..508] == Nodes() && LeafNodes()[..LEAVES] == LeafNodes();
    IndexLevels(hash);
    LeafLevel(hash);
    hide Expand, LevelOk;
  }

  lemma WellFormed(hash: Name -> nat)
    requires SendsToLastLeaf(hash)
    ensures TreeOk(Geometry(hash), FullTree())
    ensures forall k: nat :: k < 16 ==> Stored(AllBlocks(), LeafNodes(), Numbered(k))
    ensures forall f :: Stored(AllBlocks(), LeafNodes(), f) ==> f in Numbers(16)
  {
    Shaped(hash);
    hide Structure, LiveIn, AllBlocks;
    LeafRecords(SIZE - 1);
    forall k: nat | k < 16
      ensures Stored(AllBlocks(), LeafNodes(), Numbered(k))
    {
      assert Numbers(16)[k] == Numbered(k);
      assert StoredAt(AllBlocks(), LeafNodes(), LEAVES - 1, Numbered(k));
    }
    hide StoredAt;
    forall i: nat, e: Entry | StoredAt(AllBlocks(), LeafNodes(), i, e)
      ensures i == LEAVES - 1 && e in Numbers(16)
    {
      WhereStored(i, e);
    }
  }

  lemma {:induction false} NoEntries(leaves: seq<Node>)
    requires forall i :: 0 <= i < |leaves| ==> LiveIn(AllBlocks(), leaves[i].block) == []
    ensures Bag(AllBlocks(), leaves) == multiset{}
  {
    hide LiveIn, AllBlocks;
    if leaves != [] { NoEntries(leaves[..|leaves| - 1]); }
  }

  lemma {:induction false} CountedOnce(n: nat, e: Entry)
    requires n <= 16
    ensures multiset(Numbers(n))[e] <= 1
  {
    if n > 0 {
      CountedOnce(n - 1, e);
      assert Numbers(n) == Numbers(n - 1) + [Numbered(n - 1)];
      assert Numbered(n - 1) !in Numbers(n - 1);
    }
  }

  lemma NoDuplicates()
    ensures Once(FullTree())
  {
    hide LiveIn, AllBlocks;
    var leaves := LeafNodes();
    forall j | 0 <= j < LEAVES
      ensures LiveIn(AllBlocks(), leaves[j].block) == if j == LEAVES - 1 then Numbers(16) else []
    {
      LeafRecords(509 + j);
    }
    NoEntries(leaves[..LEAVES - 1]);
    forall e: Entry
      ensures Bag(AllBlocks(), leaves)[e] <= 1
    {
      CountedOnce(16, e);
    }
  }

  // ----- Its next insertion splits the root

  lemma NoRoom(hash: Name -> nat)
    ensures NeedsSplit(Geometry(hash), Packed(16), Numbered(16))
  {
    hide Live, SizeOf, SortByHash, MinSize;
    PackedRecords(16);
    SizeConcat(Numbers(16), [Numbered(16)]);
    SizeOfOne(Numbered(16));
    FirstSize(hash);
  }

  lemma FirstSize(hash: Name -> nat)
    ensures MinSize(|SortByHash(hash, Numbers(16) + [Numbered(16)])[0].name|) == 256
  {
    hide SortByHash, Numbered;
    var all := Numbers(16) + [Numbered(16)];
    var entries := SortByHash(hash, all);
    assert entries[0] in multiset(entries);
    assert entries[0] in all;
  }

  lemma SizeOfOne(e: Entry)
    ensures SizeOf([e]) == MinSize(|e.name|)
  {
    assert [e][1..] == [];
  }

  lemma Due(hash: Name -> nat)
    requires SendsToLastLeaf(hash)
    ensures RootSplitDue(Geometry(hash), FullTree(), Numbered(16))
  {
    NoRoom(hash);
    hide NeedsSplit;
    assert AllBlocks()[SIZE - 1] == Leaf(Packed(16));
    assert Full(AllBlocks(), 0) && Full(AllBlocks(), 508);
    hide AllBlocks, Full;
    assert hash(Numbered(16).name) >= 2 * (LEAVES - 1);
  }

  /** In every tree with an index level below the root, an insertion that splits the root succeeds, keeps every entry
      in the tree, and leaves no name that a lookup finds. */
  method LoseEveryName(d: Directory, e: Entry, name: Name) returns (added: AddResult, after: Option<Entry>)
    requires d.Valid() && d.DepthRight() && d.depth >= 1 && RootSplitDue(d.cfg, d.Snapshot(), e)
    requires d.cfg.usable >= SPLIT_FITS && d.size + |d.levels| <= MAX_BLOCKS
    requires ValidEntry(e) && e.name != DOT && e.name != DOT_DOT && forall f :: d.Holds(f) ==> f.name != e.name
    requires name != DOT && name != DOT_DOT
    modifies d
    ensures added.Added? && forall x :: d.Holds(x) <==> old(d.Holds(x)) || x == e
    ensures after == None
  {
    hide TreeOk, RootSplitDue, Stored, Once, Bag;
    added := d.Add(e);
    after := d.Lookup(name);
  }

  /** Adding the seventeenth name succeeds and makes each of the sixteen others, which were found, unfindable. */
  method RootSplitLosesNames(hash: Name -> nat, k: nat)
    returns (before: Option<Entry>, added: AddResult, after: Option<Entry>)
    requires SendsToLastLeaf(hash) && k < 16
    ensures before == Some(Numbered(k)) && added.Added? && after == None
  {
    hide TreeOk, RootSplitDue, Stored, Once, Bag, AllBlocks, Nodes, LeafNodes, Heights, SendsToLastLeaf;
    WellFormed(hash);
    NoDuplicates();
    Due(hash);
    var d := new Directory(Geometry(hash), Entry(2, DOT, 2), Entry(2, DOT_DOT, 2), AllBlocks(), SIZE, 1,
                           [[Node(0, 0)], Nodes(), LeafNodes()], Heights());
    before := d.Lookup(Numbered(k).name);
    added, after := LoseEveryName(d, Numbered(16), Numbered(k).name);
  }
}
