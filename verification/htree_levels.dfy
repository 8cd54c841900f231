/** The hash tree of a directory, seen level by level.

    A level is the sequence of its nodes from left to right, each with the smallest hash it may
    hold. The first child of a node inherits the node's separator, so the level below is obtained
    by listing all children in order. Splitting a node inserts one node into its own level and
    leaves every level below as it was.
 */
module HtreeLevels {
  import opened Bytes
  import opened DirRecords

  datatype IndexEntry = IndexEntry(hash: nat, block: nat)

  datatype Block = Index(limit: nat, entries: seq<IndexEntry>) | Leaf(records: seq<Record>)

  datatype Node = Node(sep: nat, block: nat)

  type Blocks = map<nat, Block>

  function ChildNodes(entries: seq<IndexEntry>, sep: nat): (r: seq<Node>)
    ensures |r| == |entries|
    ensures forall i :: 0 <= i < |entries| ==> r[i] == Node(if i == 0 then sep else entries[i].hash, entries[i].block)
  {
    seq(|entries|, i requires 0 <= i < |entries| => Node(if i == 0 then sep else entries[i].hash, entries[i].block))
  }

  function EntriesOf(blocks: Blocks, b: nat): seq<IndexEntry> {
    if b in blocks && blocks[b].Index? then blocks[b].entries else []
  }

  function Children(blocks: Blocks, node: Node): seq<Node> {
    ChildNodes(EntriesOf(blocks, node.block), node.sep)
  }

  ghost function Expand(blocks: Blocks, level: seq<Node>): seq<Node> {
    if level == [] then []
    else Expand(blocks, level[..|level| - 1]) + Children(blocks, level[|level| - 1])
  }

  /** Position of the first child of node `p` in the next level. */
  ghost function Start(blocks: Blocks, level: seq<Node>, p: nat): nat
    requires p <= |level|
  {
    |Expand(blocks, level[..p])|
  }

  lemma {:induction false} ExpandConcat(blocks: Blocks, a: seq<Node>, b: seq<Node>)
    ensures Expand(blocks, a + b) == Expand(blocks, a) + Expand(blocks, b)
  {
    if b == [] {
      assert a + b == a;
    } else {
      var n := |b| - 1;
      assert (a + b)[..|a + b| - 1] == a + b[..n];
      ExpandConcat(blocks, a, b[..n]);
    }
  }

  lemma ExpandOne(blocks: Blocks, node: Node)
    ensures Expand(blocks, [node]) == Children(blocks, node)
  {
    assert [node][..0] == [];
  }

  lemma {:induction false} ExpandFrame(blocks: Blocks, after: Blocks, level: seq<Node>)
    requires forall i :: 0 <= i < |level| ==> EntriesOf(after, level[i].block) == EntriesOf(blocks, level[i].block)
    ensures Expand(after, level) == Expand(blocks, level)
  {
    if level != [] {
      ExpandFrame(blocks, after, level[..|level| - 1]);
    }
  }

  /** A level is what precedes a node's children, the children, and what follows. */
  lemma {:induction false} ExpandAround(blocks: Blocks, level: seq<Node>, p: nat)
    requires p < |level|
    ensures Expand(blocks, level) ==
            Expand(blocks, level[..p]) + Children(blocks, level[p]) + Expand(blocks, level[p + 1..])
    ensures Start(blocks, level, p + 1) == Start(blocks, level, p) + |EntriesOf(blocks, level[p].block)|
  {
    assert level == level[..p] + [level[p]] + level[p + 1..];
    ExpandConcat(blocks, level[..p] + [level[p]], level[p + 1..]);
    ExpandConcat(blocks, level[..p], [level[p]]);
    ExpandOne(blocks, level[p]);
    assert level[..p + 1] == level[..p] + [level[p]];
  }

  lemma {:induction false} ChildAt(blocks: Blocks, level: seq<Node>, p: nat, c: nat)
    requires p < |level| && c < |EntriesOf(blocks, level[p].block)|
    ensures Start(blocks, level, p) + c < |Expand(blocks, level)|
    ensures Expand(blocks, level)[Start(blocks, level, p) + c] == Children(blocks, level[p])[c]
  {
    hide Expand, ChildNodes;
    ExpandAround(blocks, level, p);
    var a, kids, b := Expand(blocks, level[..p]), Children(blocks, level[p]), Expand(blocks, level[p + 1..]);
    assert (a + kids + b)[|a| + c] == kids[c];
  }

  lemma {:induction false} StartAtEnd(blocks: Blocks, level: seq<Node>)
    ensures Start(blocks, level, |level|) == |Expand(blocks, level)|
  {
    assert level[..|level|] == level;
  }

  // ----- Order

  ghost predicate Sorted(level: seq<Node>) {
    forall i, j :: 0 <= i < j < |level| ==> level[i].sep <= level[j].sep
  }

  /** `p` is the last node whose separator does not exceed `h`. */
  ghost predicate LastAtMost(level: seq<Node>, p: nat, h: nat) {
    p < |level| && level[p].sep <= h && (p + 1 < |level| ==> h < level[p + 1].sep)
  }

  /** Child `c` is the last whose key does not exceed `h`; the first child's key is implicitly zero. */
  ghost predicate LastKey(entries: seq<IndexEntry>, c: nat, h: nat) {
    c < |entries| && (c > 0 ==> entries[c].hash <= h) && (c + 1 < |entries| ==> h < entries[c + 1].hash)
  }

  /** Choosing the right child of the right node gives the right node one level down. */
  lemma {:induction false} Descend(blocks: Blocks, level: seq<Node>, p: nat, c: nat, h: nat)
    requires LastAtMost(level, p, h) && LastKey(EntriesOf(blocks, level[p].block), c, h)
    requires forall i :: 0 <= i < |level| ==> EntriesOf(blocks, level[i].block) != []
    ensures LastAtMost(Expand(blocks, level), Start(blocks, level, p) + c, h)
  {
    hide Expand;
    var entries := EntriesOf(blocks, level[p].block);
    ChildAt(blocks, level, p, c);
    ExpandAround(blocks, level, p);
    if c + 1 < |entries| {
      ChildAt(blocks, level, p, c + 1);
    } else if p + 1 < |level| {
      ChildAt(blocks, level, p + 1, 0);
    } else {
      StartAtEnd(blocks, level);
    }
  }

  /** Inside a node the keys after the first are in order. */
  lemma {:induction false} KeysSorted(blocks: Blocks, level: seq<Node>, p: nat, i: nat, j: nat)
    requires p < |level| && Sorted(Expand(blocks, level))
    requires 0 < i < j < |EntriesOf(blocks, level[p].block)|
    ensures EntriesOf(blocks, level[p].block)[i].hash <= EntriesOf(blocks, level[p].block)[j].hash
  {
    ChildAt(blocks, level, p, i);
    ChildAt(blocks, level, p, j);
    var s := Start(blocks, level, p);
    assert Expand(blocks, level)[s + i].sep <= Expand(blocks, level)[s + j].sep;
  }

  ghost predicate DistinctIn(level: seq<Node>) {
    forall i, j :: 0 <= i < j < |level| ==> level[i].block != level[j].block
  }

  // ----- Splitting a node

  function InsertNode(level: seq<Node>, p: nat, node: Node): seq<Node>
    requires p < |level|
  {
    level[..p + 1] + [node] + level[p + 1..]
  }

  /** The two halves have together the children of the whole. */
  lemma HalvesAreWhole(entries: seq<IndexEntry>, left: nat, sep: nat)
    requires 0 < left < |entries|
    ensures ChildNodes(entries[..left], sep) + ChildNodes(entries[left..], entries[left].hash) ==
            ChildNodes(entries, sep)
  {
    var whole := ChildNodes(entries, sep);
    var halves := ChildNodes(entries[..left], sep) + ChildNodes(entries[left..], entries[left].hash);
    forall i | 0 <= i < |entries|
      ensures halves[i] == whole[i]
    {}
  }

  /** Splitting node `p` in two leaves the level below unchanged. */
  lemma {:induction false} SplitKeepsNext(blocks: Blocks, after: Blocks, level: seq<Node>, p: nat, left: nat, born: nat)
    requires p < |level| && DistinctIn(level)
    requires forall i :: 0 <= i < |level| ==> level[i].block != born
    requires var e := EntriesOf(blocks, level[p].block);
             0 < left < |e| && EntriesOf(after, level[p].block) == e[..left] && EntriesOf(after, born) == e[left..]
    requires forall i :: 0 <= i < |level| && i != p ==>
               EntriesOf(after, level[i].block) == EntriesOf(blocks, level[i].block)
    ensures var e := EntriesOf(blocks, level[p].block);
            Expand(after, InsertNode(level, p, Node(e[left].hash, born))) == Expand(blocks, level)
    ensures var e := EntriesOf(blocks, level[p].block);
            var level' := InsertNode(level, p, Node(e[left].hash, born));
            Start(after, level', p) == Start(blocks, level, p) &&
              Start(after, level', p + 1) == Start(blocks, level, p) + left
  {
    hide Expand, ChildNodes, DistinctIn;
    var e := EntriesOf(blocks, level[p].block);
    var node := Node(e[left].hash, born);
    var level' := InsertNode(level, p, node);
    ExpandAround(blocks, level, p);
    HalvesAreWhole(e, left, level[p].sep);
    ExpandFrame(blocks, after, level[..p]);
    ExpandFrame(blocks, after, level[p + 1..]);
    assert level'[..p] == level[..p] && level'[p] == level[p] && level'[p + 1..] == [node] + level[p + 1..];
    ExpandAround(after, level', p);
    ExpandConcat(after, [node], level[p + 1..]);
    ExpandOne(after, node);
  }

  /** Adding a child to a node inserts it right after its sibling in the level below. */
  lemma {:induction false} InsertChildEffect(blocks: Blocks, after: Blocks, level: seq<Node>, p: nat, c: nat,
      entry: IndexEntry)
    requires p < |level| && DistinctIn(level)
    requires var e := EntriesOf(blocks, level[p].block);
             c < |e| && EntriesOf(after, level[p].block) == e[..c + 1] + [entry] + e[c + 1..]
    requires forall i :: 0 <= i < |level| && i != p ==>
               EntriesOf(after, level[i].block) == EntriesOf(blocks, level[i].block)
    ensures Start(blocks, level, p) + c < |Expand(blocks, level)|
    ensures Expand(after, level) ==
            InsertNode(Expand(blocks, level), Start(blocks, level, p) + c, Node(entry.hash, entry.block))
    ensures Start(after, level, p) == Start(blocks, level, p)
  {
    hide Expand, ChildNodes, InsertNode, DistinctIn;
    ExpandAround(blocks, level, p);
    ExpandAround(after, level, p);
    ExpandFrame(blocks, after, level[..p]);
    ExpandFrame(blocks, after, level[p + 1..]);
    InsertedChildren(EntriesOf(blocks, level[p].block), c, entry, level[p].sep);
    InsertInside(Expand(blocks, level[..p]), Children(blocks, level[p]), Expand(blocks, level[p + 1..]), c,
                 Node(entry.hash, entry.block));
  }

  lemma InsertedChildren(e: seq<IndexEntry>, c: nat, entry: IndexEntry, sep: nat)
    requires c < |e|
    ensures var kids := ChildNodes(e, sep);
            ChildNodes(e[..c + 1] + [entry] + e[c + 1..], sep) == kids[..c + 1] + [Node(entry.hash, entry.block)] +
              kids[c + 1..]
  {
    var kids := ChildNodes(e, sep);
    var left := ChildNodes(e[..c + 1] + [entry] + e[c + 1..], sep);
    var right := kids[..c + 1] + [Node(entry.hash, entry.block)] + kids[c + 1..];
    forall i | 0 <= i < |left|
      ensures left[i] == right[i]
    {}
  }

  lemma InsertInside(a: seq<Node>, kids: seq<Node>, b: seq<Node>, c: nat, node: Node)
    requires c < |kids|
    ensures a + (kids[..c + 1] + [node] + kids[c + 1..]) + b == InsertNode(a + kids + b, |a| + c, node)
  {
    var whole := a + kids + b;
    assert whole[..|a| + c + 1] == a + kids[..c + 1];
    assert whole[|a| + c + 1..] == kids[c + 1..] + b;
  }
}
