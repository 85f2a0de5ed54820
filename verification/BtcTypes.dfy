/**
  BTC blocks as the reporter sees them. Block hashing and the decoding of a header's compact
  difficulty are not modelled: a header carries its own hash and its own work.
 */
module BtcTypes {
  import opened Prelude

  type Hash = nat

  datatype BlockHeader = BlockHeader(hash: Hash, prevBlock: Hash, work: nat)

  datatype IndexedBlock = IndexedBlock(height: Int32, header: BlockHeader)

  // ---------- chains ----------

  predicate Attaches(parent: IndexedBlock, child: IndexedBlock) {
    && child.header.prevBlock == parent.header.hash
    && child.height == parent.height + 1
  }

  /** Every block names its predecessor by hash and is one higher than it. */
  ghost predicate Linked(s: seq<IndexedBlock>) {
    forall i, j {:trigger s[i], s[j]} | 0 <= i < j < |s| && j == i + 1 :: Attaches(s[i], s[j])
  }

  /** `s` holds exactly the heights `low`, `low + 1`, ... in this order. */
  ghost predicate HeightsFrom(s: seq<IndexedBlock>, low: int) {
    forall i | 0 <= i < |s| :: s[i].height == low + i
  }

  ghost predicate Increasing(s: seq<IndexedBlock>) {
    forall i, j | 0 <= i < j < |s| :: s[i].height < s[j].height
  }

  predicate NonDecreasing(s: seq<IndexedBlock>) {
    forall i, j | 0 <= i < j < |s| :: s[i].height <= s[j].height
  }

  lemma {:induction false} LinkedHeights(s: seq<IndexedBlock>)
    requires Linked(s) && |s| > 0
    ensures HeightsFrom(s, s[0].height)
    ensures Increasing(s)
  {
    if |s| > 1 {
      var front := s[..|s| - 1];
      LinkedHeights(front);
      assert forall i | 0 <= i < |front| :: front[i] == s[i];
      assert Attaches(s[|s| - 2], s[|s| - 1]);
    }
  }

  ghost predicate IsSuffix(s: seq<IndexedBlock>, whole: seq<IndexedBlock>) {
    |s| <= |whole| && s == whole[|whole| - |s|..]
  }

  // ---------- work ----------

  /** Cumulative work of a branch. */
  function Work(s: seq<IndexedBlock>): nat {
    if |s| == 0 then 0 else Work(s[..|s| - 1]) + s[|s| - 1].header.work
  }

  lemma {:induction false} WorkConcat(a: seq<IndexedBlock>, b: seq<IndexedBlock>)
    ensures Work(a + b) == Work(a) + Work(b)
  {
    if |b| == 0 {
      assert a + b == a;
    } else {
      assert (a + b)[..|a + b| - 1] == a + b[..|b| - 1];
      WorkConcat(a, b[..|b| - 1]);
    }
  }

  lemma {:induction false} WorkOfEqualBlocks(s: seq<IndexedBlock>, w: nat)
    requires forall i | 0 <= i < |s| :: s[i].header.work == w
    ensures Work(s) == |s| * w
  {
    if |s| > 0 {
      WorkOfEqualBlocks(s[..|s| - 1], w);
    }
  }

  // ---------- the environment's blocks ----------

  /** Blocks by hash. One tree stands for every block that ever exists; a node's answers are a part of it. */
  type BlockTree = map<Hash, IndexedBlock>

  /** The hash identifies the block, heights fit a non-negative int32, and a parent is one lower. */
  ghost predicate ValidTree(tree: BlockTree) {
    && (forall h | h in tree :: tree[h].header.hash == h && 0 <= tree[h].height)
    && (forall h, p {:trigger ParentRule(tree, h, p)} :: ParentRule(tree, h, p))
  }

  predicate ParentRule(tree: BlockTree, h: Hash, p: Hash) {
    h in tree && p in tree && tree[h].header.prevBlock == p ==> tree[h].height == tree[p].height + 1
  }

  predicate Contains(tree: BlockTree, b: IndexedBlock) {
    b.header.hash in tree && tree[b.header.hash] == b
  }

  ghost predicate AllIn(tree: BlockTree, s: seq<IndexedBlock>) {
    forall i | 0 <= i < |s| :: Contains(tree, s[i])
  }

  ghost predicate ViewOf(view: BlockTree, tree: BlockTree) {
    forall h | h in view :: h in tree && view[h] == tree[h]
  }

  lemma ParentIsOneLower(tree: BlockTree, parent: IndexedBlock, child: IndexedBlock)
    requires ValidTree(tree) && Contains(tree, parent) && Contains(tree, child)
    requires child.header.prevBlock == parent.header.hash
    ensures Attaches(parent, child)
  {
    assert ParentRule(tree, child.header.hash, parent.header.hash);
  }
}
