/**
  Fetching a chain of blocks from the node by walking back over parent hashes. The node's answers to
  queries by hash are a `BlockTree`; a hash outside it stands for a failed query.
 */
module BlockQuery {
  import opened Prelude
  import opened BtcTypes

  datatype QueryError = NodeFailed | InvalidRange

  /** `b` preceded by its `n` nearest ancestors, oldest first; None when the node cannot supply one of them. */
  function WalkBack(node: BlockTree, b: IndexedBlock, n: nat): (r: Option<seq<IndexedBlock>>)
    ensures r.Some? ==> |r.value| == n + 1
    decreases n
  {
    if n == 0 then Some([b])
    else if b.header.prevBlock !in node then None
    else
      match WalkBack(node, node[b.header.prevBlock], n - 1)
      case None => None
      case Some(s) => Some(s + [b])
  }

  function ChainBlocks(node: BlockTree, baseHeight: Uint64, tip: IndexedBlock): Result<seq<IndexedBlock>, QueryError> {
    if ToUint64(tip.height) < baseHeight then Err(InvalidRange)
    else
      match WalkBack(node, tip, ToUint64(tip.height) - baseHeight)
      case None => Err(NodeFailed)
      case Some(s) => Ok(s)
  }

  /** From `baseHeight` up to the node's best block. */
  function TailBlocks(node: BlockTree, best: Option<IndexedBlock>, baseHeight: Uint64)
    : Result<seq<IndexedBlock>, QueryError>
  {
    if best.None? then Err(NodeFailed)
    else ChainBlocks(node, baseHeight, best.value)
  }

  /** What a successful fetch of the heights `low..high` gives. */
  ghost predicate IsRange(s: seq<IndexedBlock>, low: int, high: int) {
    && |s| == high - low + 1 > 0
    && Linked(s)
    && HeightsFrom(s, low)
  }

  /** A linked chain from height `low` up to `tip`, below which the node knows every block by its hash. */
  ghost predicate IsPath(node: BlockTree, s: seq<IndexedBlock>, low: int, tip: IndexedBlock) {
    && |s| > 0 && s[|s| - 1] == tip && s[0].height == low
    && Linked(s) && AllIn(node, s[..|s| - 1])
  }

  // ---------- the implementation ----------

  method GetChainBlocks(node: BlockTree, baseHeight: Uint64, tipBlock: IndexedBlock)
    returns (r: Result<seq<IndexedBlock>, QueryError>)
    ensures r == ChainBlocks(node, baseHeight, tipBlock)
  {
    var tipHeight := ToUint64(tipBlock.height);
    if tipHeight < baseHeight {
      return Err(InvalidRange);
    }
    var n := tipHeight - baseHeight + 1;
    var chainBlocks := new IndexedBlock[n];
    chainBlocks[n - 1] := tipBlock;
    if tipHeight == baseHeight {
      assert chainBlocks[..] == [tipBlock];
      return Ok(chainBlocks[..]);
    }
    var prevHash := tipBlock.header.prevBlock;
    var i := n - 2;
    WithNoTail(WalkBack(node, tipBlock, n - 1));
    assert chainBlocks[n..] == [];
    while i >= 0
      invariant -1 <= i <= n - 2
      invariant prevHash == chainBlocks[i + 1].header.prevBlock
      invariant WalkBack(node, tipBlock, n - 1)
             == WithTail(WalkBack(node, chainBlocks[i + 1], i + 1), chainBlocks[i + 2..])
    {
      if prevHash !in node {
        return Err(NodeFailed);
      }
      ghost var later := chainBlocks[i + 1..];
      assert later == [chainBlocks[i + 1]] + chainBlocks[i + 2..];
      WithTailTwice(WalkBack(node, node[prevHash], i), chainBlocks[i + 1], chainBlocks[i + 2..]);
      chainBlocks[i] := node[prevHash];
      prevHash := node[prevHash].header.prevBlock;
      assert chainBlocks[i + 1..] == later;
      i := i - 1;
    }
    assert chainBlocks[..] == [chainBlocks[0]] + chainBlocks[1..];
    return Ok(chainBlocks[..]);
  }

  method FindTailBlocksByHeight(node: BlockTree, best: Option<IndexedBlock>, baseHeight: Uint64)
    returns (r: Result<seq<IndexedBlock>, QueryError>)
    ensures r == TailBlocks(node, best, baseHeight)
    ensures r == Err(InvalidRange) <==> best.Some? && ToUint64(best.value.height) < baseHeight
  {
    if best.None? {
      return Err(NodeFailed);
    }
    if baseHeight > ToUint64(best.value.height) {
      return Err(InvalidRange);
    }
    r := GetChainBlocks(node, baseHeight, best.value);
  }

  /** `end` is the node's answer for the block at `endHeight`. */
  method FindRangeBlocksByHeight(ghost tree: BlockTree, node: BlockTree, startHeight: Uint64, endHeight: Uint64,
                                 end: Option<IndexedBlock>)
    returns (r: Result<seq<IndexedBlock>, QueryError>)
    requires ValidTree(tree) && ViewOf(node, tree)
    requires end.Some? ==> Contains(tree, end.value) && end.value.height == endHeight
    ensures r.Ok? ==> IsRange(r.value, startHeight, endHeight) && AllIn(tree, r.value)
    ensures r.Ok? ==> end.Some? && r.value[|r.value| - 1] == end.value
    ensures r == Err(InvalidRange) <==> end.Some? && endHeight < startHeight
    ensures r.Ok? ==> IsPath(node, r.value, startHeight, end.value)
    ensures end.Some? ==> forall s | IsPath(node, s, startHeight, end.value) :: r == Ok(s)
  {
    if end.None? {
      return Err(NodeFailed);
    }
    r := GetChainBlocks(node, startHeight, end.value);
    ChainBlocksLinked(tree, node, startHeight, end.value);
    forall s ensures r == Ok(s) <==> IsPath(node, s, startHeight, end.value) {
      ChainBlocksFindsThePath(tree, node, startHeight, end.value, s);
    }
  }

  // ---------- proofs ----------

  ghost function WithTail(front: Option<seq<IndexedBlock>>, back: seq<IndexedBlock>): Option<seq<IndexedBlock>> {
    match front
    case None => None
    case Some(s) => Some(s + back)
  }

  lemma WithNoTail(front: Option<seq<IndexedBlock>>)
    ensures WithTail(front, []) == front
  {
    if front.Some? {
      assert front.value + [] == front.value;
    }
  }

  lemma WithTailTwice(front: Option<seq<IndexedBlock>>, b: IndexedBlock, back: seq<IndexedBlock>)
    ensures WithTail(WithTail(front, [b]), back) == WithTail(front, [b] + back)
  {
    if front.Some? {
      assert front.value + [b] + back == front.value + ([b] + back);
    }
  }

  /** The walk yields the requested number of hash-linked blocks of the tree, ending at its starting point. */
  lemma {:induction false} WalkBackLinked(tree: BlockTree, node: BlockTree, b: IndexedBlock, n: nat)
    requires ValidTree(tree) && ViewOf(node, tree) && Contains(tree, b)
    requires WalkBack(node, b, n).Some?
    ensures var s := WalkBack(node, b, n).value;
            && |s| == n + 1 && s[n] == b && Linked(s) && AllIn(tree, s) && s[0].height == b.height - n
            && AllIn(node, s[..n])
    decreases n
  {
    if n > 0 {
      var p := node[b.header.prevBlock];
      WalkBackLinked(tree, node, p, n - 1);
      ParentIsOneLower(tree, p, b);
      var front := WalkBack(node, p, n - 1).value;
      var s := WalkBack(node, b, n).value;
      assert s == front + [b];
      forall i | 0 < i < |s| ensures Attaches(s[i - 1], s[i]) {
        if i < |s| - 1 {
          assert Attaches(front[i - 1], front[i]);
        }
      }
    }
  }

  /** Every linked chain that the node knows below its last block is found by walking back from that block. */
  lemma {:induction false} WalkBackFinds(node: BlockTree, s: seq<IndexedBlock>)
    requires |s| > 0 && Linked(s) && AllIn(node, s[..|s| - 1])
    ensures WalkBack(node, s[|s| - 1], |s| - 1) == Some(s)
  {
    var n := |s| - 1;
    if n > 0 {
      var front := s[..n];
      assert forall i | 0 <= i < n :: front[i] == s[i];
      assert forall i | 0 <= i < n - 1 :: front[..n - 1][i] == front[i];
      WalkBackFinds(node, front);
      assert Attaches(s[n - 1], s[n]);
      assert Contains(node, front[n - 1]);
      assert s == front + [s[n]];
    } else {
      assert s == [s[0]];
    }
  }

  /** A hash-linked chain is determined by its tip and its length. */
  lemma ChainIsDeterminedByTip(tree: BlockTree, s: seq<IndexedBlock>, t: seq<IndexedBlock>)
    requires |s| == |t| > 0 && s[|s| - 1] == t[|t| - 1]
    requires Linked(s) && AllIn(tree, s) && Linked(t) && AllIn(tree, t)
    ensures s == t
  {
    WalkBackFinds(tree, s);
    WalkBackFinds(tree, t);
  }

  /** `Init` never checks hash links: the walk is what makes the cached blocks a chain of the exact heights. */
  lemma ChainBlocksLinked(tree: BlockTree, node: BlockTree, baseHeight: Uint64, tip: IndexedBlock)
    requires ValidTree(tree) && ViewOf(node, tree) && Contains(tree, tip)
    ensures ChainBlocks(node, baseHeight, tip) == Err(InvalidRange) <==> tip.height < baseHeight
    ensures ChainBlocks(node, baseHeight, tip).Ok? ==>
              var s := ChainBlocks(node, baseHeight, tip).value;
              IsRange(s, baseHeight, tip.height) && AllIn(tree, s) && s[|s| - 1] == tip
  {
    assert 0 <= tip.height;
    if ChainBlocks(node, baseHeight, tip).Ok? {
      WalkBackLinked(tree, node, tip, tip.height - baseHeight);
      LinkedHeights(ChainBlocks(node, baseHeight, tip).value);
    }
  }

  /** A fetch succeeds exactly if there is a chain of the heights asked for, and then it yields that chain. */
  lemma ChainBlocksFindsThePath(tree: BlockTree, node: BlockTree, baseHeight: Uint64, tip: IndexedBlock,
                                s: seq<IndexedBlock>)
    requires ValidTree(tree) && ViewOf(node, tree) && Contains(tree, tip)
    ensures ChainBlocks(node, baseHeight, tip) == Ok(s) <==> IsPath(node, s, baseHeight, tip)
  {
    assert 0 <= tip.height;
    if ChainBlocks(node, baseHeight, tip) == Ok(s) {
      WalkBackLinked(tree, node, tip, tip.height - baseHeight);
    } else if IsPath(node, s, baseHeight, tip) {
      LinkedHeights(s);
      WalkBackFinds(node, s);
      assert false;
    }
  }
}
