/**
  The BTC reporter as the program has it: an object that owns a cache and a reorg list and updates them in
  place. Every method computes exactly what `ReporterSpec` says, so the theorems about runs hold for it.
 */
module Reporter {
  import opened Prelude
  import opened BtcTypes
  import opened BoundedCache
  import opened BtcCache
  import opened ReorgList
  import opened BlockQuery
  import opened LorenzoLightClient
  import opened HeaderSubmission
  import Spec = ReporterSpec

  /** `calculateBranchWork` */
  method CalculateBranchWork(branch: seq<IndexedBlock>) returns (currentWork: nat)
    ensures currentWork == Work(branch)
  {
    currentWork := 0;
    for i := 0 to |branch|
      invariant currentWork == Work(branch[..i])
    {
      assert branch[..i + 1][..i] == branch[..i];
      currentWork := branch[i].header.work + currentWork;
    }
    assert branch[..|branch|] == branch;
  }

  class BTCReporter {
    const cfg: Spec.Config
    var btcCache: BTCCache
    const reorgList: ReorgList

    /** The cached blocks are a chain of the tree, within the cache's limit. */
    ghost predicate Valid(tree: BlockTree)
      reads this, btcCache, btcCache.data, reorgList
    {
      && cfg.Valid()
      && reorgList.Valid()
      && btcCache.Valid() && btcCache.Released()
      && btcCache.len <= btcCache.maxEntries && 0 < btcCache.maxEntries
      && Linked(btcCache.Blocks()) && AllIn(tree, btcCache.Blocks())
    }

    ghost function State(lorenzo: LightClient): Spec.State
      requires btcCache.Valid()
      reads this, btcCache, btcCache.data, reorgList
    {
      Spec.State(btcCache.Blocks(), btcCache.maxEntries,
                 reorgList.removedBlocks, reorgList.workOfRemovedBlocks, lorenzo)
    }

    constructor (cfg: Spec.Config)
      requires cfg.Valid() && 0 < cfg.cacheSize
      ensures this.cfg == cfg && fresh(btcCache) && fresh(btcCache.data) && fresh(reorgList)
      ensures forall tree :: Valid(tree)
      ensures btcCache.Blocks() == [] && btcCache.maxEntries == cfg.cacheSize
      ensures reorgList.removedBlocks == [] && reorgList.workOfRemovedBlocks == 0
    {
      this.cfg := cfg;
      btcCache := new BTCCache(cfg.cacheSize);
      reorgList := new ReorgList();
    }

    // ---------- connected blocks ----------

    method HandleConnectedBlocks(ghost tree: BlockTree, event: Spec.BlockEvent, a: Spec.ConnectAnswers,
        lorenzo: LightClient)
      returns (reaction: Spec.Reaction, after: LightClient)
      requires Valid(tree) && ValidTree(tree)
      requires a.block.Some? ==> Contains(tree, a.block.value)
      modifies btcCache`data, btcCache`off, btcCache`len, btcCache.data, reorgList
      ensures Valid(tree) && (btcCache.data == old(btcCache.data) || fresh(btcCache.data))
      ensures var e := Spec.OnConnected(cfg, old(State(lorenzo)), event, a);
              State(after) == e.state && reaction == e.reaction
    {
      hide Spec.Extend, Linked, AllIn, FindAt, ToUint64, Increasing, NonDecreasing, BTCCache.Valid, BTCCache.Released,
        BTCCache.Blocks;
      after := lorenzo;
      if a.hashAtHeight != Some(event.hash) {
        return Spec.NeedsBootstrap, after;
      }
      var firstCacheBlock := btcCache.First();
      if firstCacheBlock == None {
        return Spec.NeedsBootstrap, after;
      }
      if event.height < firstCacheBlock.value.height {
        return Spec.Handled, after;
      }
      CacheHeights(tree);
      var b := btcCache.FindBlock(ToUint64(event.height));
      if b.Some? {
        if b.value.header.hash == event.hash {
          return Spec.Handled, after;
        }
        return Spec.NeedsBootstrap, after;
      }
      if a.block.None? {
        return Spec.NeedsBootstrap, after;
      }
      var ib := a.block.value;
      var cacheTip := btcCache.Tip();
      if ib.header.prevBlock != cacheTip.value.header.hash {
        return Spec.NeedsBootstrap, after;
      }
      reaction, after := ExtendCache(tree, ib, a, lorenzo);
    }

    lemma CacheHeights(tree: BlockTree)
      requires Valid(tree)
      ensures Increasing(btcCache.Blocks()) && NonDecreasing(btcCache.Blocks())
    {
      if btcCache.len > 0 {
        LinkedHeights(btcCache.Blocks());
      }
    }

    /** From `btcCache.Add` on. */
    method ExtendCache(ghost tree: BlockTree, ib: IndexedBlock, a: Spec.ConnectAnswers, lorenzo: LightClient)
      returns (reaction: Spec.Reaction, after: LightClient)
      requires Valid(tree) && ValidTree(tree) && Contains(tree, ib)
      requires btcCache.len > 0 && ib.header.prevBlock == btcCache.Blocks()[btcCache.len - 1].header.hash
      modifies btcCache`data, btcCache`off, btcCache`len, btcCache.data, reorgList
      ensures Valid(tree) && (btcCache.data == old(btcCache.data) || fresh(btcCache.data))
      ensures var e := Spec.Extend(cfg, old(State(lorenzo)), ib, a);
              State(after) == e.state && reaction == e.reaction
    {
      hide ProcessHeaders, LastBlocks, Push, Work, Linked, AllIn, ValidTree, ToUint64, Pred32, IsSuffix, Contains,
        Spec.Extend, BTCCache.Valid, BTCCache.Released, BTCCache.Blocks;
      ghost var t := State(lorenzo).(cache := Push(btcCache.Blocks(), btcCache.maxEntries, ib));
      ghost var e := Spec.Extend(cfg, State(lorenzo), ib, a);
      after := lorenzo;
      PushedChain(tree, btcCache.Blocks(), btcCache.maxEntries, ib);
      ExtendCases(cfg, State(lorenzo), ib, a);
      btcCache.Add(ib);
      assert Valid(tree) && State(lorenzo) == t;

      var headersToProcess := [];
      if |reorgList.removedBlocks| > 0 {
        var branch := BetterBranch();
        if branch == None {
          assert e == Spec.Effect(t, Spec.Panicked, Spec.Added(ib), []);
          return Spec.Panicked, after;
        }
        headersToProcess := branch.value;
      } else {
        var headers := CatchUpHeaders(ib, a.lorenzoTip);
        if headers == None {
          assert e == Spec.Effect(t, Spec.NeedsBootstrap, Spec.Added(ib), []);
          return Spec.NeedsBootstrap, after;
        }
        headersToProcess := headers.value;
      }

      if |headersToProcess| == 0 {
        assert e == Spec.Effect(t, Spec.Handled, Spec.Added(ib), []);
        return Spec.Handled, after;
      }
      assert e == Spec.Submit(cfg, State(lorenzo), ib, headersToProcess, a);
      var r;
      after, r := ProcessHeadersLoop(lorenzo, headersToProcess, cfg.maxHeadersInMsg, a.submit);
      return Spec.Handled, after;
    }

    /** The branch that replaces the removed blocks once it outweighs them; None where the source panics. */
    method BetterBranch() returns (headers: Option<seq<IndexedBlock>>)
      requires btcCache.Valid() && btcCache.len > 0 && reorgList.Valid() && |reorgList.removedBlocks| > 0
      modifies reorgList
      ensures reorgList.Valid()
      ensures var removed := old(reorgList.removedBlocks);
              var work := old(reorgList.workOfRemovedBlocks);
              var branch := LastBlocks(btcCache.Blocks(), ToUint64(removed[|removed| - 1].height));
              if branch.Some? && Work(branch.value) > work then
                headers == branch && reorgList.removedBlocks == [] && reorgList.workOfRemovedBlocks == 0
              else
                && headers == (if branch.Some? then Some([]) else None)
                && reorgList.removedBlocks == removed && reorgList.workOfRemovedBlocks == work
    {
      hide Work, LastBlocks, ToUint64;
      var oldestBlockFromOldBranch := reorgList.GetLastRemovedBlock();
      var currentBranch := btcCache.GetLastBlocks(ToUint64(oldestBlockFromOldBranch.value.height));
      if currentBranch == None {
        return None;
      }
      var currentBranchWork := CalculateBranchWork(currentBranch.value);
      if currentBranchWork > reorgList.workOfRemovedBlocks {
        reorgList.Clear();
        return currentBranch;
      }
      return Some([]);
    }

    /** With no reorg open: the new block, or everything Lorenzo lacks; None where the source returns an error. */
    method CatchUpHeaders(ib: IndexedBlock, lorenzoTip: Option<Uint64>) returns (headers: Option<seq<IndexedBlock>>)
      requires btcCache.Valid() && btcCache.len > 0
      ensures headers == if lorenzoTip.None? then None
                         else if lorenzoTip.value < ToUint64(Pred32(ib.height)) then
                           LastBlocks(btcCache.Blocks(), lorenzoTip.value + 1)
                         else Some([ib])
    {
      if lorenzoTip.None? {
        return None;
      }
      if lorenzoTip.value < ToUint64(Pred32(ib.height)) {
        headers := btcCache.GetLastBlocks(lorenzoTip.value + 1);
        return;
      }
      return Some([ib]);
    }

    // ---------- disconnected blocks ----------

    method HandleDisconnectedBlocks(ghost tree: BlockTree, event: Spec.BlockEvent, ghost lorenzo: LightClient)
      returns (reaction: Spec.Reaction)
      requires Valid(tree)
      modifies btcCache`len, btcCache.data, reorgList
      ensures Valid(tree)
      ensures var e := Spec.OnDisconnected(old(State(lorenzo)), event);
              State(lorenzo) == e.state && reaction == e.reaction
    {
      hide Linked, AllIn, Work, BTCCache.Valid, BTCCache.Released, BTCCache.Blocks;
      var cacheTip := btcCache.Tip();
      if cacheTip == None {
        return Spec.NeedsBootstrap;
      }
      if event.hash != cacheTip.value.header.hash {
        return Spec.NeedsBootstrap;
      }
      ghost var before := btcCache.Blocks();
      ChainWithoutTip(tree, before);
      reorgList.AddRemovedBlock(cacheTip.value);
      // the cache is not empty, so the source's panic on an error here cannot happen
      var removed := btcCache.RemoveLast();
      assert removed == Ok(());
      return Spec.Handled;
    }

    // ---------- bootstrap ----------

    method Bootstrap(ghost tree: BlockTree, a: Spec.BootAnswers, lorenzo: LightClient)
      returns (result: Spec.BootResult, after: LightClient)
      requires Valid(tree) && ValidTree(tree) && ViewOf(a.node, tree)
      requires a.best.Some? ==> Contains(tree, a.best.value)
      modifies this`btcCache, reorgList
      ensures btcCache == old(btcCache) || (fresh(btcCache) && fresh(btcCache.data))
      ensures btcCache == old(btcCache) ==> btcCache.data == old(btcCache.data)
      ensures result == Spec.Bootstrap(cfg, old(State(lorenzo)), a).result
      ensures result != Spec.BootPanicked ==>
                Valid(tree) && State(after) == Spec.Bootstrap(cfg, old(State(lorenzo)), a).state
    {
      hide Linked, AllIn, NonDecreasing, ValidTree, Spec.CheckConsistency, Spec.BaseHeightOf, TailBlocks, LastN,
        BTCCache.Valid, BTCCache.Released, BTCCache.Blocks;
      after := lorenzo;
      EmptyChain(tree);
      reorgList.Clear();
      if !a.synced {
        return Spec.Failed, after;
      }
      var cache := NewBTCCache(cfg.cacheSize);
      if cache.Err? {
        return Spec.BootPanicked, after;
      }
      btcCache := cache.value;
      if a.first.None? {
        return Spec.Failed, after;
      }
      var baseHeight := Spec.BaseHeightOf(cfg, a.first.value);
      var ibs := FindTailBlocksByHeight(a.node, a.best, baseHeight);
      if ibs.Err? {
        return Spec.BootPanicked, after;
      }
      FetchedTail(tree, a.node, a.best, baseHeight);
      var init := btcCache.Init(ibs.value);
      if init.Err? {
        return Spec.BootPanicked, after;
      }
      assert btcCache.Blocks() == ibs.value;
      result, after := SyncLorenzo(tree, a, lorenzo);
    }

    /** The consistency check, the submission and the shrinking of the cache. */
    method SyncLorenzo(ghost tree: BlockTree, a: Spec.BootAnswers, lorenzo: LightClient)
      returns (result: Spec.BootResult, after: LightClient)
      requires Valid(tree) && btcCache.len > 0
      modifies btcCache, btcCache.data
      ensures btcCache.data == old(btcCache.data)
      ensures result == Spec.CheckConsistency(cfg, old(State(lorenzo)), a).result
      ensures result != Spec.BootPanicked ==>
                Valid(tree) && State(after) == Spec.CheckConsistency(cfg, old(State(lorenzo)), a).state
    {
      hide Linked, AllIn, NonDecreasing, Increasing, FindAt, Spec.SyncFrom;
      after := lorenzo;
      CacheHeights(tree);
      if a.second.None? {
        return Spec.Failed, after;
      }
      var height: Uint64 := Spec.ConsistencyHeightOf(cfg, a.second.value);
      var consistencyCheckBlock := btcCache.FindBlock(height);
      if consistencyCheckBlock == None {
        return Spec.BootPanicked, after;
      }
      if a.containsFails {
        return Spec.Failed, after;
      }
      if consistencyCheckBlock.value.header.hash !in lorenzo.known {
        return Spec.BootPanicked, after;
      }
      result, after := SyncFrom(tree, height + 1, a, lorenzo);
    }

    /** `Resize` and `Trim`; false where the source panics. */
    method ShrinkCache(ghost tree: BlockTree, maxEntries: nat) returns (ok: bool)
      requires Valid(tree)
      modifies btcCache, btcCache.data
      ensures btcCache.data == old(btcCache.data)
      ensures ok <==> maxEntries > 0
      ensures ok ==>
                && Valid(tree) && btcCache.maxEntries == maxEntries
                && btcCache.Blocks() == TrimTo(old(btcCache.Blocks()), maxEntries)
    {
      hide Linked, AllIn, TrimTo, BTCCache.Valid, BTCCache.Released, BTCCache.Blocks, Work;
      ghost var tail := btcCache.Blocks();
      var resized := btcCache.Resize(maxEntries);
      if resized.Err? {
        return false;
      }
      btcCache.Trim();
      TrimmedChain(tree, tail, maxEntries);
      return true;
    }

    method SyncFrom(ghost tree: BlockTree, startSyncHeight: Uint64, a: Spec.BootAnswers, lorenzo: LightClient)
      returns (result: Spec.BootResult, after: LightClient)
      requires Valid(tree) && btcCache.len > 0
      modifies btcCache, btcCache.data
      ensures btcCache.data == old(btcCache.data)
      ensures result == Spec.SyncFrom(cfg, old(State(lorenzo)), startSyncHeight, a).result
      ensures result != Spec.BootPanicked ==>
                Valid(tree) && State(after) == Spec.SyncFrom(cfg, old(State(lorenzo)), startSyncHeight, a).state
    {
      hide Linked, AllIn, ProcessHeaders, LastBlocks, TrimTo, Work, BTCCache.Valid, BTCCache.Released, BTCCache.Blocks;
      after := lorenzo;
      var ibs := btcCache.GetLastBlocks(startSyncHeight);
      if ibs == None {
        return Spec.BootPanicked, after;
      }
      if |ibs.value| <= cfg.delayBlocks {
        // cutting off too many blocks, or handing none to ProcessHeaders
        return Spec.BootPanicked, after;
      }
      var r;
      after, r := ProcessHeadersLoop(lorenzo, ibs.value[..|ibs.value| - cfg.delayBlocks],
                                     cfg.maxHeadersInMsg, a.submit);
      if r.Err? {
        return Spec.Failed, after;
      }
      var shrunk := ShrinkCache(tree, cfg.k + cfg.w);
      if !shrunk {
        return Spec.BootPanicked, after;
      }
      return Spec.Booted, after;
    }

    method BootstrapWithRetries(ghost tree: BlockTree, attempts: seq<Spec.BootAnswers>, lorenzo: LightClient)
      returns (result: Spec.BootResult, after: LightClient)
      requires Valid(tree) && ValidTree(tree)
      requires forall i | 0 <= i < |attempts| ::
                 ViewOf(attempts[i].node, tree) && (attempts[i].best.Some? ==> Contains(tree, attempts[i].best.value))
      modifies this`btcCache, reorgList
      ensures btcCache == old(btcCache) || (fresh(btcCache) && fresh(btcCache.data))
      ensures btcCache == old(btcCache) ==> btcCache.data == old(btcCache.data)
      ensures var (s, r) := Spec.BootstrapWithRetries(cfg, old(State(lorenzo)), attempts);
              result == r && (r != Spec.BootPanicked ==> Valid(tree) && State(after) == s)
    {
      after := lorenzo;
      ghost var start := State(lorenzo);
      for i := 0 to |attempts|
        invariant Valid(tree)
        invariant btcCache == old(btcCache) || (fresh(btcCache) && fresh(btcCache.data))
        invariant btcCache == old(btcCache) ==> btcCache.data == old(btcCache.data)
        invariant Spec.BootstrapWithRetries(cfg, State(after), attempts[i..])
               == Spec.BootstrapWithRetries(cfg, start, attempts)
      {
        assert attempts[i..][1..] == attempts[i + 1..];
        result, after := Bootstrap(tree, attempts[i], after);
        if !result.Failed? {
          return;
        }
      }
      return Spec.Failed, after;
    }

    // ---------- the event loop ----------

    /** One turn of the event loop: an error returned by a handler restarts the bootstrap. */
    method HandleEvent(ghost tree: BlockTree, event: Spec.BlockEvent, a: Spec.ConnectAnswers,
                       attempts: seq<Spec.BootAnswers>, lorenzo: LightClient)
      returns (panicked: bool, after: LightClient)
      requires Valid(tree) && ValidTree(tree)
      requires a.block.Some? ==> Contains(tree, a.block.value)
      requires forall i | 0 <= i < |attempts| ::
                 ViewOf(attempts[i].node, tree) && (attempts[i].best.Some? ==> Contains(tree, attempts[i].best.value))
      modifies this`btcCache, btcCache, btcCache.data, reorgList
      ensures btcCache == old(btcCache) || fresh(btcCache)
      ensures btcCache.data == old(btcCache.data) || fresh(btcCache.data)
      ensures !panicked ==> Valid(tree)
      ensures var e := Spec.OnEvent(cfg, old(State(lorenzo)), event, a);
              if e.reaction.NeedsBootstrap? then
                var (s, r) := Spec.BootstrapWithRetries(cfg, e.state, attempts);
                (panicked <==> r.BootPanicked?) && (!panicked ==> State(after) == s)
              else
                (panicked <==> e.reaction.Panicked?) && (!panicked ==> State(after) == e.state)
    {
      var reaction;
      if event.connected {
        reaction, after := HandleConnectedBlocks(tree, event, a, lorenzo);
      } else {
        after := lorenzo;
        reaction := HandleDisconnectedBlocks(tree, event, lorenzo);
      }
      panicked := reaction.Panicked?;
      if reaction.NeedsBootstrap? {
        var result;
        result, after := BootstrapWithRetries(tree, attempts, after);
        panicked := result.BootPanicked?;
      }
    }
  }

  /** `ReporterSpec.Extend` case by case. */
  lemma ExtendCases(cfg: Spec.Config, s: Spec.State, ib: IndexedBlock, a: Spec.ConnectAnswers)
    requires cfg.Valid() && |Push(s.cache, s.maxEntries, ib)| > 0
    ensures var t := s.(cache := Push(s.cache, s.maxEntries, ib));
            var e := Spec.Extend(cfg, s, ib, a);
            if |s.removed| > 0 then
              var branch := LastBlocks(t.cache, ToUint64(s.removed[|s.removed| - 1].height));
              && (branch.None? ==> e == Spec.Effect(t, Spec.Panicked, Spec.Added(ib), []))
              && (branch.Some? ==>
                    e == if Work(branch.value) > s.removedWork
                         then Spec.Submit(cfg, t.(removed := [], removedWork := 0), ib, branch.value, a)
                         else Spec.Effect(t, Spec.Handled, Spec.Added(ib), []))
            else
              var headers := if a.lorenzoTip.None? then None
                             else if a.lorenzoTip.value < ToUint64(Pred32(ib.height)) then
                               LastBlocks(t.cache, a.lorenzoTip.value + 1)
                             else Some([ib]);
              && (headers.None? ==> e == Spec.Effect(t, Spec.NeedsBootstrap, Spec.Added(ib), []))
              && (headers.Some? ==> e == Spec.Submit(cfg, t, ib, headers.value, a))
  {
    hide ProcessHeaders, LastBlocks, Push, Work, ToUint64, Pred32, Spec.Submit;
  }

  lemma PushedChain(tree: BlockTree, s: seq<IndexedBlock>, maxEntries: nat, ib: IndexedBlock)
    requires ValidTree(tree) && Linked(s) && AllIn(tree, s) && Contains(tree, ib)
    requires |s| > 0 && ib.header.prevBlock == s[|s| - 1].header.hash
    ensures Linked(Push(s, maxEntries, ib)) && AllIn(tree, Push(s, maxEntries, ib))
    ensures |Push(s, maxEntries, ib)| > 0
  {
    assert Contains(tree, s[|s| - 1]);
    ParentIsOneLower(tree, s[|s| - 1], ib);
    PushKeepsLinked(s, maxEntries, ib);
  }

  lemma EmptyChain(tree: BlockTree)
    ensures Linked([]) && AllIn(tree, [])
  {
  }

  lemma FetchedTail(tree: BlockTree, node: BlockTree, best: Option<IndexedBlock>, baseHeight: Uint64)
    requires ValidTree(tree) && ViewOf(node, tree) && (best.Some? ==> Contains(tree, best.value))
    ensures var r := TailBlocks(node, best, baseHeight);
            r.Ok? ==> |r.value| > 0 && Linked(r.value) && AllIn(tree, r.value)
                      && forall max | |r.value| <= max :: LastN([] + r.value, max) == r.value
  {
    var r := TailBlocks(node, best, baseHeight);
    if r.Ok? {
      ChainBlocksLinked(tree, node, baseHeight, best.value);
      assert [] + r.value == r.value;
    }
  }

  lemma ChainWithoutTip(tree: BlockTree, s: seq<IndexedBlock>)
    requires Linked(s) && AllIn(tree, s) && |s| > 0
    ensures Linked(s[..|s| - 1]) && AllIn(tree, s[..|s| - 1])
  {
    LinkedSlice(s, 0, |s| - 1);
    assert s[0..|s| - 1] == s[..|s| - 1];
  }

  lemma TrimmedChain(tree: BlockTree, s: seq<IndexedBlock>, n: nat)
    requires Linked(s) && AllIn(tree, s)
    ensures Linked(TrimTo(s, n)) && AllIn(tree, TrimTo(s, n))
  {
    if |s| >= n {
      LinkedSlice(s, |s| - n, |s|);
      assert s[|s| - n..|s|] == s[|s| - n..];
    }
  }
}
