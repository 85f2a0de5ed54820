/** What the reorg handling guarantees, over every run of the reporter. */
module ReorgTheorems {
  import opened Prelude
  import opened BtcTypes
  import opened BoundedCache
  import opened BlockQuery
  import opened LorenzoLightClient
  import opened HeaderSubmission
  import opened ReporterSpec
  import opened ReporterRuns

  // ---------- reachable states ----------

  /**
    In every state a run can reach, the cache is a hash-linked chain of consecutive heights within its limit,
    the newest part of the chain an unbounded cache would hold; the tracked work is the work of the recorded
    blocks; Lorenzo's headers are ancestor-closed and none was accepted from this reporter twice.
   */
  lemma {:induction false} ReachableStates(tree: BlockTree, cfg: Config, h: History, steps: seq<Step>)
    requires cfg.Valid() && ValidTree(tree) && Initial(tree, h) && StepsOk(tree, cfg, h, steps)
    requires !Run(cfg, h, steps).1
    ensures var now := Run(cfg, h, steps).0;
            && IsSuffix(now.s.cache, now.chain)
            && Linked(now.s.cache)
            && (|now.s.cache| > 0 ==> HeightsFrom(now.s.cache, now.s.cache[0].height))
            && |now.s.cache| <= now.s.maxEntries
            && now.s.removedWork == Work(now.s.removed)
            && AncestorClosed(tree, now.s.lorenzo) && AcceptedOnce(now.s.lorenzo)
  {
    InitialInv(tree, h);
    RunKeepsInv(tree, cfg, h, steps);
    var now := Run(cfg, h, steps).0;
    SuffixIsLinked(tree, now.s.cache, now.chain);
    if |now.s.cache| > 0 {
      LinkedHeights(now.s.cache);
    }
  }

  // ---------- the released branch is heavier ----------

  /** The length of the longest common prefix. */
  function CommonPrefix(a: seq<IndexedBlock>, b: seq<IndexedBlock>): nat {
    if |a| == 0 || |b| == 0 || a[0] != b[0] then 0 else 1 + CommonPrefix(a[1..], b[1..])
  }

  /** `a` has strictly more work than `b` above their fork point. */
  ghost predicate Heavier(a: seq<IndexedBlock>, b: seq<IndexedBlock>) {
    var p := CommonPrefix(a, b);
    p <= |a| && p <= |b| && Work(a[p..]) > Work(b[p..])
  }

  lemma SharedHead(a: seq<IndexedBlock>, b: seq<IndexedBlock>, p: nat)
    requires SharesPrefix(a, b, p) && p > 0
    ensures a[0] == b[0] && SharesPrefix(a[1..], b[1..], p - 1)
  {
    assert a[0] == a[..p][0] && b[0] == b[..p][0];
    assert a[1..][..p - 1] == a[..p][1..] == b[..p][1..] == b[1..][..p - 1];
  }

  lemma {:induction false} CommonPrefixIsLongest(a: seq<IndexedBlock>, b: seq<IndexedBlock>)
    ensures SharesPrefix(a, b, CommonPrefix(a, b))
    ensures forall p: nat | SharesPrefix(a, b, p) :: p <= CommonPrefix(a, b)
  {
    if |a| == 0 || |b| == 0 || a[0] != b[0] {
      forall p: nat | SharesPrefix(a, b, p) ensures p == 0 {
        if p > 0 {
          SharedHead(a, b, p);
          assert false;
        }
      }
    } else {
      var n := CommonPrefix(a[1..], b[1..]);
      CommonPrefixIsLongest(a[1..], b[1..]);
      assert a[..n + 1] == [a[0]] + a[1..][..n] == b[..n + 1];
      forall p: nat | SharesPrefix(a, b, p) ensures p <= n + 1 {
        if p > 0 {
          SharedHead(a, b, p);
        }
      }
    }
  }

  lemma HeavierFrom(a: seq<IndexedBlock>, b: seq<IndexedBlock>, p: nat)
    requires SharesPrefix(a, b, p) && Work(a[p..]) > Work(b[p..])
    ensures Heavier(a, b)
  {
    var q := CommonPrefix(a, b);
    CommonPrefixIsLongest(a, b);
    assert a[p..] == a[p..q] + a[q..];
    assert b[p..] == b[p..q] + b[q..];
    assert a[p..q] == a[..q][p..] == b[..q][p..] == b[p..q];
    WorkConcat(a[p..q], a[q..]);
    WorkConcat(b[p..q], b[q..]);
  }

  /** A connect that empties the reorg list. */
  ghost predicate Releases(cfg: Config, h: History, event: BlockEvent, a: ConnectAnswers)
    requires cfg.Valid()
  {
    && event.connected
    && |h.s.removed| > 0
    && OnConnected(cfg, h.s, event, a).state.removed == []
  }

  lemma ReleaseUnfolds(cfg: Config, s: State, event: BlockEvent, a: ConnectAnswers)
    requires cfg.Valid() && |s.removed| > 0 && OnConnected(cfg, s, event, a).state.removed == []
    ensures a.block.Some? && |s.cache| > 0
    ensures a.block.value.header.prevBlock == s.cache[|s.cache| - 1].header.hash
    ensures var e := OnConnected(cfg, s, event, a);
            var cache := Push(s.cache, s.maxEntries, a.block.value);
            && e.reaction == Handled && e.change == Added(a.block.value)
            && |cache| > 0 && e.state.cache == cache && |cache| <= |s.cache| + 1
            && LastBlocks(cache, ToUint64(s.removed[|s.removed| - 1].height)) == Some(e.submitted)
            && Work(e.submitted) > s.removedWork
            && e.state.lorenzo == ProcessHeaders(s.lorenzo, e.submitted, cfg.maxHeadersInMsg, a.submit).0
  {
    hide ProcessHeaders, FindAt, LastBlocks, Work;
  }

  /** What is submitted on release is the whole of the chain above the latest cut. */
  lemma ReleaseSubmitsBranch(tree: BlockTree, cfg: Config, h: History, event: BlockEvent, a: ConnectAnswers)
    requires cfg.Valid() && ValidTree(tree) && Inv(tree, h) && StepOk(tree, h.s.lorenzo, Event(event, a))
    requires Releases(cfg, h, event, a)
    ensures var e := OnConnected(cfg, h.s, event, a);
            var chain := AfterEvent(h, e).chain;
            && e.reaction == Handled
            && 0 < ForkIndex(h) <= |h.chain| < |chain| && chain[..|h.chain|] == h.chain && Linked(chain)
            && e.submitted == chain[ForkIndex(h)..]
            && Work(e.submitted) > h.s.removedWork
  {
    hide OnConnected, ProcessHeaders, LastBlocks, CacheInv, Linked, ValidTree, Work, Push, LorenzoInv, Outweighed;
    ReleaseUnfolds(cfg, h.s, event, a);
    var ib := a.block.value;
    ChainGrows(tree, h, ib);
    BranchLookup(tree, h, ib);
    assert (h.chain + [ib])[..|h.chain|] == h.chain;
  }

  /** A branch that beats `work` from `fork` on beats every chain that has at most `work` above a lower prefix. */
  lemma BranchBeatsOutweighed(c: seq<IndexedBlock>, was: seq<IndexedBlock>, chain: seq<IndexedBlock>, fork: nat,
      work: nat)
    requires fork <= |was| <= |chain| && chain[..|was|] == was
    requires Outweighed(c, was, fork, work) && Work(chain[fork..]) > work
    ensures Heavier(chain, c)
  {
    hide Heavier;
    var p: nat :| SharesPrefix(c, was, p) && p <= fork && Work(c[p..]) <= work;
    assert chain[..p] == was[..p];
    assert chain[p..] == chain[p..fork] + chain[fork..];
    WorkConcat(chain[p..fork], chain[fork..]);
    HeavierFrom(chain, c, p);
  }

  lemma ReleaseOutweighs(tree: BlockTree, cfg: Config, h: History, event: BlockEvent, a: ConnectAnswers,
      c: seq<IndexedBlock>)
    requires cfg.Valid() && ValidTree(tree) && Inv(tree, h) && StepOk(tree, h.s.lorenzo, Event(event, a))
    requires Releases(cfg, h, event, a) && c in h.held
    ensures Heavier(AfterEvent(h, OnConnected(cfg, h.s, event, a)).chain, c)
  {
    hide OnConnected, CacheInv, LorenzoInv, ValidTree, AfterEvent, Linked, Heavier, Outweighed;
    ReleaseSubmitsBranch(tree, cfg, h, event, a);
    var chain := AfterEvent(h, OnConnected(cfg, h.s, event, a)).chain;
    assert Outweighed(c, h.chain, ForkIndex(h), h.s.removedWork);
    BranchBeatsOutweighed(c, h.chain, chain, ForkIndex(h), h.s.removedWork);
  }

  /** The reorg list is non-empty after every step. */
  ghost predicate OpenThroughout(cfg: Config, h: History, steps: seq<Step>)
    requires cfg.Valid()
    decreases |steps|
  {
    |steps| > 0 ==>
      var next := Next(cfg, h, steps[0]).0;
      |next.s.removed| > 0 && OpenThroughout(cfg, next, steps[1..])
  }

  /** The step takes a block off the cache. */
  predicate IsRemoval(h: History, step: Step) {
    step.Event? && !step.event.connected && OnDisconnected(h.s, step.event).change.Removed?
  }

  ghost predicate HasRemoval(cfg: Config, h: History, steps: seq<Step>)
    requires cfg.Valid()
    decreases |steps|
  {
    |steps| > 0 && (IsRemoval(h, steps[0]) || HasRemoval(cfg, Next(cfg, h, steps[0]).0, steps[1..]))
  }

  /** While the reorg stays open no chain is forgotten, and a disconnect moves all of them to `held`. */
  lemma {:induction false} HeldRemembers(cfg: Config, h: History, steps: seq<Step>, c: seq<IndexedBlock>)
    requires cfg.Valid() && !Run(cfg, h, steps).1 && OpenThroughout(cfg, h, steps)
    requires c in h.held || c in h.pending
    requires c in h.held || HasRemoval(cfg, h, steps)
    ensures c in Run(cfg, h, steps).0.held
    decreases |steps|
  {
    if |steps| > 0 {
      var next := Next(cfg, h, steps[0]).0;
      StepRemembers(cfg, h, steps[0], c);
      HeldRemembers(cfg, next, steps[1..], c);
    }
  }

  lemma StepRemembers(cfg: Config, h: History, step: Step, c: seq<IndexedBlock>)
    requires cfg.Valid() && |Next(cfg, h, step).0.s.removed| > 0
    ensures var next := Next(cfg, h, step).0;
            && (c in h.held ==> c in next.held)
            && (c in h.pending ==> c in next.pending || c in next.held)
            && (c in h.pending && IsRemoval(h, step) ==> c in next.held)
  {
    match step
    case Event(event, a) =>
      if event.connected {
        ConnectCases(cfg, h.s, event, a);
        ExtendAdds(cfg, h.s, event, a);
      }
    case Boot(boot) =>
      BootClears(cfg, h.s, boot);
    case OthersInsert(_) =>
  }

  lemma ExtendAdds(cfg: Config, s: State, event: BlockEvent, a: ConnectAnswers)
    requires cfg.Valid()
    ensures !OnConnected(cfg, s, event, a).change.Removed?
  {
  }

  lemma BootClears(cfg: Config, s: State, boot: BootAnswers)
    requires cfg.Valid()
    ensures Bootstrap(cfg, s, boot).state.removed == []
  {
    hide ProcessHeaders, FindAt, LastBlocks, TailBlocks, NonDecreasing, TrimTo, ConsistencyHeightOf, BaseHeightOf;
  }

  /**
    The reorg rule over whole runs. Take any earlier moment, at which `h` was the state, such that the reorg
    list has not been empty since and a block has been disconnected since; if a connect now releases the
    reorg, the chain then held is strictly heavier above the fork point than the chain of that moment. Nested
    reorgs, in which the list counts work that was itself a replacement, are included.
   */
  lemma {:induction false} ReleasedChainIsHeavierThanEarlierOnes(tree: BlockTree, cfg: Config, h: History,
      steps: seq<Step>, event: BlockEvent, a: ConnectAnswers)
    requires cfg.Valid() && ValidTree(tree) && Inv(tree, h)
    requires StepsOk(tree, cfg, h, steps) && !Run(cfg, h, steps).1
    requires OpenThroughout(cfg, h, steps) && HasRemoval(cfg, h, steps)
    requires StepOk(tree, Run(cfg, h, steps).0.s.lorenzo, Event(event, a))
    requires Releases(cfg, Run(cfg, h, steps).0, event, a)
    ensures Heavier(Next(cfg, Run(cfg, h, steps).0, Event(event, a)).0.chain, h.chain)
  {
    assert h.chain in h.pending by {
      var last := |h.pending| - 1;
      if |h.s.removed| > 0 {
        assert h.pending[last] == h.chain[..ForkIndex(h) + last] == h.chain;
      } else {
        assert h.pending[last] == h.chain;
      }
    }
    HeldRemembers(cfg, h, steps, h.chain);
    RunKeepsInv(tree, cfg, h, steps);
    ReleaseOutweighs(tree, cfg, Run(cfg, h, steps).0, event, a, h.chain);
  }

  // ---------- the fork point ----------

  /** The released branch and the last removed block are siblings: they have the same parent in the chain. */
  lemma ReleasedBranchReplacesLastRemoved(tree: BlockTree, cfg: Config, h: History, event: BlockEvent,
      a: ConnectAnswers)
    requires cfg.Valid() && ValidTree(tree) && Inv(tree, h) && StepOk(tree, h.s.lorenzo, Event(event, a))
    requires Releases(cfg, h, event, a)
    ensures var submitted := OnConnected(cfg, h.s, event, a).submitted;
            var last := h.s.removed[|h.s.removed| - 1];
            && |submitted| > 0
            && submitted[0].height == last.height
            && submitted[0].header.prevBlock == last.header.prevBlock
            && Attaches(h.chain[ForkIndex(h) - 1], submitted[0])
  {
    ReleaseSubmitsBranch(tree, cfg, h, event, a);
    var chain := AfterEvent(h, OnConnected(cfg, h.s, event, a)).chain;
    var fork := ForkIndex(h);
    assert chain[fork - 1] == chain[..|h.chain|][fork - 1] == h.chain[fork - 1];
    assert Attaches(chain[fork - 1], chain[fork]);
  }

  /** Whatever a connect submits is a hash-linked run of blocks that ends at the tip of the cache. */
  lemma SubmissionsAreCacheTails(tree: BlockTree, cfg: Config, h: History, event: BlockEvent, a: ConnectAnswers)
    requires cfg.Valid() && ValidTree(tree) && Inv(tree, h) && StepOk(tree, h.s.lorenzo, Event(event, a))
    ensures var e := OnConnected(cfg, h.s, event, a);
            e.submitted != [] ==>
              && IsCacheTail(e.submitted, e.state.cache)
              && e.submitted[|e.submitted| - 1] == a.block.value
  {
    hide OnConnected, Extend, Inv, Linked, ValidTree;
    ConnectKeepsInv(tree, cfg, h, event, a);
    ConnectCases(cfg, h.s, event, a);
  }

  /**
    When nothing fails on the way, a released branch reaches Lorenzo exactly if Lorenzo already has the fork
    point or the first block of the branch.
   */
  lemma ReleaseReachesLorenzo(tree: BlockTree, cfg: Config, h: History, event: BlockEvent, a: ConnectAnswers)
    requires cfg.Valid() && ValidTree(tree) && Inv(tree, h) && StepOk(tree, h.s.lorenzo, Event(event, a))
    requires Releases(cfg, h, event, a)
    requires a.submit.queryFailsAt.None?
    requires |a.submit.deliveries| > |h.s.cache|
        && forall i | 0 <= i < |a.submit.deliveries| :: a.submit.deliveries[i] == Delivered
    ensures var e := OnConnected(cfg, h.s, event, a);
            (forall i | 0 <= i < |e.submitted| :: e.submitted[i].header.hash in e.state.lorenzo.known)
            <==> h.s.removed[|h.s.removed| - 1].header.prevBlock in h.s.lorenzo.known
                 || e.submitted[0].header.hash in h.s.lorenzo.known
  {
    hide OnConnected, ReorgInv, Linked, ValidTree, Work, AllIn, LastBlocks, Push, ProcessHeaders, AncestorClosed,
        AcceptedOnce;
    var e := OnConnected(cfg, h.s, event, a);
    var lc := h.s.lorenzo;
    ReleaseUnfolds(cfg, h.s, event, a);
    ReleasedBranchReplacesLastRemoved(tree, cfg, h, event, a);
    ReleaseSubmitsBranch(tree, cfg, h, event, a);
    ConnectKeepsInv(tree, cfg, h, event, a);
    var chain := AfterEvent(h, e).chain;
    var branch := e.submitted;
    assert AboveBase(chain, lc) by {
      assert chain[0] == chain[..|h.chain|][0];
    }
    SubmittedTailIsSound(tree, chain, branch, e.state.cache, lc);
    SubmissionKeepsLorenzo(tree, lc, branch, cfg.maxHeadersInMsg, a.submit);
    SubmissionIsCompleteIffItAttaches(tree, lc, branch, cfg.maxHeadersInMsg, a.submit);
  }

  /** Whatever a connect submits goes to Lorenzo in one call. */
  lemma SubmittedGoesToLorenzo(cfg: Config, s: State, event: BlockEvent, a: ConnectAnswers)
    requires cfg.Valid() && OnConnected(cfg, s, event, a).submitted != []
    ensures var e := OnConnected(cfg, s, event, a);
            && e.change.Added? && e.reaction.Handled?
            && e.state.lorenzo == ProcessHeaders(s.lorenzo, e.submitted, cfg.maxHeadersInMsg, a.submit).0
  {
    hide ProcessHeaders, FindAt, LastBlocks, Work, Push;
  }

  /**
    The same for every submission, with or without a reorg: when nothing fails on the way, Lorenzo has all of it
    afterwards exactly if it had the first submitted block or that block's parent.
   */
  lemma SubmissionReachesLorenzo(tree: BlockTree, cfg: Config, h: History, event: BlockEvent, a: ConnectAnswers)
    requires cfg.Valid() && ValidTree(tree) && Inv(tree, h) && StepOk(tree, h.s.lorenzo, Event(event, a))
    requires OnConnected(cfg, h.s, event, a).submitted != [] && event.connected
    requires a.submit.queryFailsAt.None?
    requires |a.submit.deliveries| > |h.s.cache|
    requires forall i | 0 <= i < |a.submit.deliveries| :: a.submit.deliveries[i] == Delivered
    ensures var e := OnConnected(cfg, h.s, event, a);
            (forall i | 0 <= i < |e.submitted| :: e.submitted[i].header.hash in e.state.lorenzo.known)
            <==> e.submitted[0].header.hash in h.s.lorenzo.known || e.submitted[0].header.prevBlock in h.s.lorenzo.known
  {
    hide OnConnected, Extend, ReorgInv, Linked, ValidTree, AllIn, Push, ProcessHeaders, AncestorClosed, AcceptedOnce;
    var e := OnConnected(cfg, h.s, event, a);
    SubmittedGoesToLorenzo(cfg, h.s, event, a);
    ConnectCases(cfg, h.s, event, a);
    ConnectKeepsInv(tree, cfg, h, event, a);
    var chain := AfterEvent(h, e).chain;
    PushIsOneLonger(h.s.cache, h.s.maxEntries, a.block.value);
    assert AboveBase(chain, h.s.lorenzo);
    SubmittedTailIsSound(tree, chain, e.submitted, e.state.cache, h.s.lorenzo);
    SubmissionKeepsLorenzo(tree, h.s.lorenzo, e.submitted, cfg.maxHeadersInMsg, a.submit);
    SubmissionIsCompleteIffItAttaches(tree, h.s.lorenzo, e.submitted, cfg.maxHeadersInMsg, a.submit);
  }

  lemma PushIsOneLonger(s: seq<IndexedBlock>, maxEntries: nat, ib: IndexedBlock)
    ensures |Push(s, maxEntries, ib)| <= |s| + 1
  {
  }

  lemma SubmittedTailIsSound(tree: BlockTree, chain: seq<IndexedBlock>, branch: seq<IndexedBlock>,
                             cache: seq<IndexedBlock>, lc: LightClient)
    requires Linked(chain) && AllIn(tree, chain) && AboveBase(chain, lc)
    requires IsSuffix(cache, chain) && IsSuffix(branch, cache)
    ensures Linked(branch) && AllIn(tree, branch) && AboveBase(branch, lc)
  {
    TailsNest(branch, cache, chain);
    SuffixIsLinked(tree, branch, chain);
    TailAboveBase(branch, chain, lc);
  }

  /**
    What a connect does with the cache, exactly: it adds the block if the event is on the best chain, above the
    cached heights, and attaches to the tip; it ignores the event if its height is below the cache or holds this
    very block there. In all other cases it asks for a bootstrap and changes nothing.
   */
  lemma {:induction false} ConnectOutcome(tree: BlockTree, cfg: Config, h: History, event: BlockEvent,
                                          a: ConnectAnswers)
    requires cfg.Valid() && ValidTree(tree) && Inv(tree, h) && event.connected && 0 <= event.height
    ensures var e := OnConnected(cfg, h.s, event, a);
            var cache := h.s.cache;
            var usable := a.hashAtHeight == Some(event.hash) && |cache| > 0;
            && (e.change.Added? <==>
                  && usable && cache[|cache| - 1].height < event.height
                  && a.block.Some? && a.block.value.header.prevBlock == cache[|cache| - 1].header.hash)
            && (e.change.Unchanged? && e.reaction.Handled? <==>
                  && usable
                  && (event.height < cache[0].height || Cached(cache, event.height, event.hash)))
            && (e.change.Unchanged? ==> e.state == h.s && !e.reaction.Panicked?)
            && !e.change.Removed?
  {
    hide Extend, ReorgInv, LorenzoInv, ValidTree, Linked, FindAt, Attaches;
    SuffixIsLinked(tree, h.s.cache, h.chain);
    ExtendChanges(cfg, h.s, a);
    ExtendAdds(cfg, h.s, event, a);
    if |h.s.cache| > 0 {
      LinkedHeights(h.s.cache);
      FindByPosition(h.s.cache, event.height);
    }
  }

  /**
    The reaction to a connect that adds its block and does not panic: a bootstrap is asked for exactly if no reorg is
    open and Lorenzo's tip is not reported, or lies below what the cache still holds.
   */
  lemma {:induction false} AddedReaction(tree: BlockTree, cfg: Config, h: History, event: BlockEvent, a: ConnectAnswers)
    requires cfg.Valid() && ValidTree(tree) && Inv(tree, h) && StepOk(tree, h.s.lorenzo, Event(event, a))
    requires event.connected && OnConnected(cfg, h.s, event, a).change.Added?
    ensures var e := OnConnected(cfg, h.s, event, a);
            && |e.state.cache| > 0
            && (e.reaction.NeedsBootstrap? <==>
                  && h.s.removed == []
                  && (a.lorenzoTip.None? || a.lorenzoTip.value + 1 < e.state.cache[0].height))
  {
    hide OnConnected, Extend, Linked, ValidTree, LorenzoInv, ReorgInv, Push;
    ConnectCases(cfg, h.s, event, a);
    PushEndsWith(h.s.cache, h.s.maxEntries, a.block.value);
    if h.s.removed == [] && a.lorenzoTip.Some? {
      CatchUpStartsAboveLorenzosTip(tree, cfg, h, event, a);
    } else {
      NoBatchReaction(cfg, h.s, a.block.value, a);
    }
  }

  lemma NoBatchReaction(cfg: Config, s: State, ib: IndexedBlock, a: ConnectAnswers)
    requires cfg.Valid() && (s.removed != [] || a.lorenzoTip.None?) && |Push(s.cache, s.maxEntries, ib)| > 0
    ensures Extend(cfg, s, ib, a).reaction.NeedsBootstrap? <==> s.removed == []
  {
    hide ProcessHeaders, LastBlocks, Push, Work;
  }

  // ---------- disconnecting ----------

  /**
    What a disconnect does, exactly: it takes the tip off the cache and records it if the tip has the event's hash.
    In all other cases it changes nothing and asks for a bootstrap. It never panics and submits nothing.
   */
  lemma {:induction false} DisconnectOutcome(tree: BlockTree, h: History, event: BlockEvent)
    requires Inv(tree, h)
    ensures var e := OnDisconnected(h.s, event);
            var cache := h.s.cache;
            && (e.change.Removed? <==> |cache| > 0 && cache[|cache| - 1].header.hash == event.hash)
            && (e.change.Removed? ==>
                  && e.reaction.Handled? && |h.chain| > 0
                  && e.change.block == h.chain[|h.chain| - 1]
                  && cache == e.state.cache + [e.change.block]
                  && e.state.removed == h.s.removed + [e.change.block]
                  && e.state.removedWork == Work(e.state.removed)
                  && e.state.maxEntries == h.s.maxEntries && e.state.lorenzo == h.s.lorenzo)
            && (!e.change.Removed? ==> e.change.Unchanged? && e.reaction.NeedsBootstrap? && e.state == h.s)
            && e.submitted == []
  {
    hide Linked, AllIn, ReorgOpen, LorenzoInv;
    if OnDisconnected(h.s, event).change.Removed? {
      RemovalKeepsInv(tree, h);
    }
  }

  /**
    Connecting the block that was just disconnected restores cache and chain; the block stays recorded as removed,
    and the reorg is not released, because the block does not outweigh itself.
   */
  lemma {:induction false} ReconnectRestoresTheCache(tree: BlockTree, cfg: Config, h: History, off: BlockEvent,
      event: BlockEvent, a: ConnectAnswers)
    requires cfg.Valid() && ValidTree(tree) && Inv(tree, h) && |h.s.cache| > 1
    requires !off.connected && off.hash == h.s.cache[|h.s.cache| - 1].header.hash
    requires event.connected && event.hash == off.hash && event.height == h.s.cache[|h.s.cache| - 1].height
    requires a.hashAtHeight == Some(event.hash) && a.block == Some(h.s.cache[|h.s.cache| - 1])
    ensures var gone := AfterEvent(h, OnDisconnected(h.s, off));
            var e := OnConnected(cfg, gone.s, event, a);
            && e.reaction.Handled? && e.submitted == []
            && AfterEvent(gone, e).chain == h.chain
            && e.state == h.s.(removed := h.s.removed + [a.block.value],
                               removedWork := h.s.removedWork + a.block.value.header.work)
  {
    hide Linked, AllIn, ReorgOpen, LorenzoInv, OnConnected, Extend, LastBlocks, Work, ValidTree;
    var ib := a.block.value;
    var gone := AfterEvent(h, OnDisconnected(h.s, off));
    RemovalKeepsInv(tree, h);
    assert gone == WithoutTip(h);
    TipAttaches(tree, h);
    ConnectOutcome(tree, cfg, gone, event, a);
    ConnectCases(cfg, gone.s, event, a);
    OnlyCurrentPending(gone);
    BranchLookup(tree, gone, ib);
    assert (gone.chain + [ib])[|gone.chain|..] == [ib];
    OwnWork(h, ib);
    StaysOpen(cfg, gone.s, ib, a);
  }

  lemma TipAttaches(tree: BlockTree, h: History)
    requires ValidTree(tree) && Inv(tree, h) && |h.s.cache| > 1
    ensures var n := |h.s.cache|;
            && Contains(tree, h.s.cache[n - 1]) && 0 <= h.s.cache[n - 1].height
            && Attaches(h.s.cache[n - 2], h.s.cache[n - 1])
  {
    SuffixIsLinked(tree, h.s.cache, h.chain);
  }

  lemma OwnWork(h: History, ib: IndexedBlock)
    requires ReorgInv(h)
    ensures Work([ib]) <= h.s.removedWork + ib.header.work
  {
    assert [ib][..0] == [];
  }

  lemma StaysOpen(cfg: Config, s: State, ib: IndexedBlock, a: ConnectAnswers)
    requires cfg.Valid() && |s.removed| > 0 && |Push(s.cache, s.maxEntries, ib)| > 0
    requires var branch := LastBlocks(Push(s.cache, s.maxEntries, ib), ToUint64(s.removed[|s.removed| - 1].height));
             branch.Some? && Work(branch.value) <= s.removedWork
    ensures Extend(cfg, s, ib, a)
         == Effect(s.(cache := Push(s.cache, s.maxEntries, ib)), Handled, Added(ib), [])
  {
    hide LastBlocks, Work, Push;
  }

  /** The cache holds a block of this height with this hash. */
  ghost predicate Cached(cache: seq<IndexedBlock>, height: Int32, hash: Hash) {
    exists i | 0 <= i < |cache| :: cache[i].height == height && cache[i].header.hash == hash
  }

  lemma {:induction false} FindByPosition(s: seq<IndexedBlock>, height: Int32)
    requires |s| > 0 && Linked(s) && 0 <= height
    ensures Increasing(s) && HeightsFrom(s, s[0].height)
    ensures var i := height - s[0].height;
            FindAt(s, ToUint64(height)) == if 0 <= i < |s| then Some(s[i]) else None
  {
    LinkedHeights(s);
    var i := height - s[0].height;
    if 0 <= i < |s| {
      FindAtUnique(s, height, i);
    }
  }

  lemma ExtendChanges(cfg: Config, s: State, a: ConnectAnswers)
    requires cfg.Valid()
    ensures a.block.Some? && |Push(s.cache, s.maxEntries, a.block.value)| > 0 ==>
              Extend(cfg, s, a.block.value, a).change == Added(a.block.value)
  {
    hide ProcessHeaders, LastBlocks;
  }

  /**
    With no reorg open, a connect submits the cached blocks from right above Lorenzo's tip, or just the new block
    when Lorenzo already has everything below it; it asks for a bootstrap exactly when the cache starts above
    that point.
   */
  lemma CatchUpStartsAboveLorenzosTip(tree: BlockTree, cfg: Config, h: History, event: BlockEvent, a: ConnectAnswers)
    requires cfg.Valid() && ValidTree(tree) && Inv(tree, h) && StepOk(tree, h.s.lorenzo, Event(event, a))
    requires event.connected && |h.s.removed| == 0 && a.lorenzoTip.Some?
    requires OnConnected(cfg, h.s, event, a).change.Added?
    ensures var e := OnConnected(cfg, h.s, event, a);
            var cache := e.state.cache;
            var next := a.lorenzoTip.value + 1;
            && |cache| > 0
            && (e.reaction.NeedsBootstrap? <==> next < cache[0].height)
            && (e.reaction.Handled? <==> cache[0].height <= next)
            && (e.reaction.Handled? ==>
                  && |e.submitted| > 0 && IsSuffix(e.submitted, cache)
                  && e.submitted[0].height == if next < a.block.value.height then next else a.block.value.height)
  {
    hide OnConnected, Extend, Linked, ValidTree, Push, LorenzoInv, ReorgInv, ProcessHeaders, LastBlocks;
    ConnectCases(cfg, h.s, event, a);
    var ib := a.block.value;
    ChainGrows(tree, h, ib);
    var cache := Push(h.s.cache, h.s.maxEntries, ib);
    SuffixIsLinked(tree, cache, h.chain + [ib]);
    assert 0 < ib.height by {
      var tip := h.chain[|h.chain| - 1];
      assert Contains(tree, tip);
      ParentIsOneLower(tree, tip, ib);
      TreeHeights(tree, tip);
    }
    CatchUpFrom(tree, cfg, h.s, ib, a);
  }

  lemma TreeHeights(tree: BlockTree, b: IndexedBlock)
    requires ValidTree(tree) && Contains(tree, b)
    ensures 0 <= b.height
  {
  }

  lemma CatchUpFrom(tree: BlockTree, cfg: Config, s: State, ib: IndexedBlock, a: ConnectAnswers)
    requires cfg.Valid() && ValidTree(tree) && |s.removed| == 0 && a.lorenzoTip.Some?
    requires Linked(Push(s.cache, s.maxEntries, ib)) && AllIn(tree, Push(s.cache, s.maxEntries, ib)) && 0 < ib.height
    ensures var e := Extend(cfg, s, ib, a);
            var cache := Push(s.cache, s.maxEntries, ib);
            var next := a.lorenzoTip.value + 1;
            && |cache| > 0 && e.state.cache == cache
            && (e.reaction.NeedsBootstrap? <==> next < cache[0].height)
            && (e.reaction.Handled? <==> cache[0].height <= next)
            && (e.reaction.Handled? ==>
                  && |e.submitted| > 0 && IsSuffix(e.submitted, cache)
                  && e.submitted[0].height == if next < ib.height then next else ib.height)
  {
    hide ProcessHeaders, LastBlocks, Push;
    var cache := Push(s.cache, s.maxEntries, ib);
    PushEndsWith(s.cache, s.maxEntries, ib);
    assert Contains(tree, ib) && Contains(tree, cache[0]);
    LinkedHeights(cache);
    if a.lorenzoTip.value < ToUint64(Pred32(ib.height)) {
      LastBlocksOnChain(cache, a.lorenzoTip.value + 1);
    } else {
      assert [ib] == cache[|cache| - 1..];
    }
  }

  // ---------- the panic ----------

  /**
    The panic at the branch lookup, exactly: the block extends the cache, a reorg is open, and this is at least
    the (maxEntries + 1)-th block connected since the latest disconnect (`pending` has one entry for the state
    right after that disconnect and one for each block connected since).
   */
  lemma PanicsExactlyWhen(tree: BlockTree, cfg: Config, h: History, event: BlockEvent, a: ConnectAnswers)
    requires cfg.Valid() && ValidTree(tree) && Inv(tree, h) && StepOk(tree, h.s.lorenzo, Event(event, a))
    requires event.connected
    ensures var e := OnConnected(cfg, h.s, event, a);
            e.reaction.Panicked? <==> e.change.Added? && |h.s.removed| > 0 && |h.pending| > h.s.maxEntries
  {
    hide OnConnected, Extend, CacheInv, ReorgOpen, LorenzoInv, ValidTree, Push, IsCacheTail;
    ConnectCases(cfg, h.s, event, a);
    var e := OnConnected(cfg, h.s, event, a);
    if !e.change.Unchanged? {
      if |h.s.removed| > 0 {
        ExtendDuringReorg(tree, cfg, h, a.block.value, a);
      } else {
        ExtendOutsideReorg(tree, cfg, h, a.block.value, a);
      }
    }
  }

  /** A panic means that the removed work at least matches a cache full of newly connected blocks. */
  lemma PanicNeedsHeavyRemovedWork(tree: BlockTree, cfg: Config, h: History, event: BlockEvent, a: ConnectAnswers)
    requires cfg.Valid() && ValidTree(tree) && Inv(tree, h) && StepOk(tree, h.s.lorenzo, Event(event, a))
    requires event.connected && OnConnected(cfg, h.s, event, a).reaction.Panicked?
    ensures |h.s.removed| > 0 && |h.s.cache| == h.s.maxEntries
    ensures 0 <= ForkIndex(h) && ForkIndex(h) + h.s.maxEntries <= |h.chain|
    ensures Work(h.s.cache) <= Work(h.chain[ForkIndex(h)..]) <= h.s.removedWork
  {
    PanicsExactlyWhen(tree, cfg, h, event, a);
    var fork := ForkIndex(h);
    var d := |h.chain| - |h.s.cache|;
    assert h.chain[fork..] == h.chain[fork..d] + h.s.cache;
    WorkConcat(h.chain[fork..d], h.s.cache);
  }

  // ---------- episodes of equal work ----------

  ghost predicate AllOfWork(s: seq<IndexedBlock>, w: nat) {
    forall i | 0 <= i < |s| :: s[i].header.work == w
  }

  /** A reorg all of whose blocks have work `w`, opened by fewer disconnects than the cache has entries. */
  ghost predicate EvenReorg(h: History, w: nat) {
    |h.s.removed| > 0 && |h.s.cache| > 0 ==>
      && |h.s.removed| < h.s.maxEntries
      && AllOfWork(h.s.removed, w)
      && 0 <= ForkIndex(h) <= |h.chain| && AllOfWork(h.chain[ForkIndex(h)..], w)
  }

  /** With blocks of equal work the reorg is released by the first connect beyond the number of disconnects. */
  lemma EvenReorgIsReleasedOnTime(tree: BlockTree, cfg: Config, h: History, event: BlockEvent, a: ConnectAnswers,
      w: nat)
    requires cfg.Valid() && ValidTree(tree) && Inv(tree, h) && StepOk(tree, h.s.lorenzo, Event(event, a))
    requires EvenReorg(h, w) && 0 < w && |h.s.removed| > 0
    requires event.connected && OnConnected(cfg, h.s, event, a).change.Added? && a.block.value.header.work == w
    ensures !OnConnected(cfg, h.s, event, a).reaction.Panicked?
    ensures Releases(cfg, h, event, a) <==> |h.pending| > |h.s.removed|
    ensures EvenReorg(AfterEvent(h, OnConnected(cfg, h.s, event, a)), w)
  {
    hide OnConnected, Extend, CacheInv, LorenzoInv, ValidTree, Linked, LastBlocks, Outweighed, Push, Attaches;
    ConnectCases(cfg, h.s, event, a);
    var ib := a.block.value;
    var fork := ForkIndex(h);
    BranchLookup(tree, h, ib);
    ExtendReleasesIff(cfg, h.s, ib, a);
    EvenBranchWork(h.chain, ib, fork, h.s.removed, w);
  }

  lemma {:induction false} EvenBranchWork(chain: seq<IndexedBlock>, ib: IndexedBlock, fork: nat,
      removed: seq<IndexedBlock>, w: nat)
    requires fork <= |chain| && 0 < w
    requires AllOfWork(chain[fork..], w) && ib.header.work == w && AllOfWork(removed, w)
    requires Work(chain[fork..]) <= Work(removed)
    ensures |chain| - fork <= |removed|
    ensures AllOfWork((chain + [ib])[fork..], w)
    ensures Work((chain + [ib])[fork..]) > Work(removed) <==> |chain| + 1 - fork > |removed|
  {
    var branch := (chain + [ib])[fork..];
    assert branch == chain[fork..] + [ib];
    WorkOfEqualBlocks(chain[fork..], w);
    WorkOfEqualBlocks(branch, w);
    WorkOfEqualBlocks(removed, w);
    MulOrder(|chain| - fork, |removed|, w);
    MulOrder(|chain| + 1 - fork, |removed|, w);
  }

  lemma ExtendReleasesIff(cfg: Config, s: State, ib: IndexedBlock, a: ConnectAnswers)
    requires cfg.Valid() && |s.removed| > 0 && |Push(s.cache, s.maxEntries, ib)| > 0
    ensures var branch := LastBlocks(Push(s.cache, s.maxEntries, ib), ToUint64(s.removed[|s.removed| - 1].height));
            var e := Extend(cfg, s, ib, a);
            && (e.reaction.Panicked? <==> branch.None?)
            && (branch.Some? ==> (e.state.removed == [] <==> Work(branch.value) > s.removedWork))
  {
    hide ProcessHeaders, LastBlocks, Work;
  }

  lemma MulOrder(a: nat, b: nat, w: nat)
    requires 0 < w
    ensures a * w <= b * w <==> a <= b
  {
    if a <= b {
      MulMonotone(a, b, w);
    } else {
      MulMonotone(b + 1, a, w);
      assert (b + 1) * w == b * w + w;
    }
  }

  lemma {:induction false} MulMonotone(a: nat, b: nat, w: nat)
    requires a <= b
    ensures a * w <= b * w
  {
    assert (b - a) * w >= 0;
    assert b * w == a * w + (b - a) * w;
  }

  /** Connects of blocks of work `w`, and other relayers' insertions. */
  ghost predicate ConnectsOfWork(steps: seq<Step>, w: nat) {
    forall i | 0 <= i < |steps| ::
      match steps[i]
      case Event(event, a) => event.connected && (a.block.Some? ==> a.block.value.header.work == w)
      case Boot(_) => false
      case OthersInsert(_) => true
  }

  lemma {:induction false} EvenConnectsNeverPanic(tree: BlockTree, cfg: Config, h: History, steps: seq<Step>, w: nat)
    requires cfg.Valid() && ValidTree(tree) && Inv(tree, h) && EvenReorg(h, w) && 0 < w
    requires StepsOk(tree, cfg, h, steps) && ConnectsOfWork(steps, w)
    ensures !Run(cfg, h, steps).1
    decreases |steps|
  {
    hide OnConnected, Extend, Inv, ValidTree, Push, Next, EvenReorg, StepOk, AfterEvent;
    if |steps| > 0 {
      if steps[0].Event? {
        EvenConnect(tree, cfg, h, steps[0].event, steps[0].answers, w);
      } else {
        OthersKeepEven(tree, cfg, h, steps[0].headers, w);
      }
      assert forall i | 0 <= i < |steps| - 1 :: steps[1..][i] == steps[i + 1];
      EvenConnectsNeverPanic(tree, cfg, Next(cfg, h, steps[0]).0, steps[1..], w);
    }
  }

  lemma {:induction false} EvenConnect(tree: BlockTree, cfg: Config, h: History, event: BlockEvent,
                                       a: ConnectAnswers, w: nat)
    requires cfg.Valid() && ValidTree(tree) && Inv(tree, h) && EvenReorg(h, w) && 0 < w
    requires StepOk(tree, h.s.lorenzo, Event(event, a)) && event.connected
    requires a.block.Some? ==> a.block.value.header.work == w
    ensures var (next, panicked) := Next(cfg, h, Event(event, a));
            !panicked && Inv(tree, next) && EvenReorg(next, w)
  {
    hide OnConnected, Extend, Inv, ValidTree, Push;
    var e := OnConnected(cfg, h.s, event, a);
    PanicsExactlyWhen(tree, cfg, h, event, a);
    ConnectCases(cfg, h.s, event, a);
    if e.change.Added? && |h.s.removed| > 0 {
      EvenReorgIsReleasedOnTime(tree, cfg, h, event, a, w);
    }
    ConnectKeepsInv(tree, cfg, h, event, a);
  }

  lemma OthersKeepEven(tree: BlockTree, cfg: Config, h: History, headers: seq<IndexedBlock>, w: nat)
    requires cfg.Valid() && ValidTree(tree) && Inv(tree, h) && EvenReorg(h, w)
    requires StepOk(tree, h.s.lorenzo, OthersInsert(headers))
    ensures var (next, panicked) := Next(cfg, h, OthersInsert(headers));
            !panicked && Inv(tree, next) && EvenReorg(next, w)
  {
    hide Inv, ValidTree, StepOk;
    OthersKeepInv(tree, h, headers);
  }

  /** Disconnects, and other relayers' insertions. */
  ghost predicate AllDisconnects(steps: seq<Step>) {
    forall i | 0 <= i < |steps| ::
      match steps[i]
      case Event(event, _) => !event.connected
      case Boot(_) => false
      case OthersInsert(_) => true
  }

  lemma {:induction false} DisconnectsKeepEven(tree: BlockTree, cfg: Config, h: History, steps: seq<Step>, w: nat)
    requires cfg.Valid() && ValidTree(tree) && Inv(tree, h)
    requires StepsOk(tree, cfg, h, steps) && AllDisconnects(steps)
    requires AllOfWork(Run(cfg, h, steps).0.s.removed, w)
    requires |h.s.removed| + |h.s.cache| <= h.s.maxEntries
    requires |h.s.removed| > 0 ==> |h.pending| == 1
    ensures var (now, panicked) := Run(cfg, h, steps);
            !panicked && Inv(tree, now) && EvenReorg(now, w)
    decreases |steps|
  {
    hide Inv, ValidTree, Next, StepOk;
    if |steps| > 0 {
      DisconnectShrinks(tree, cfg, h, steps[0]);
      assert forall i | 0 <= i < |steps| - 1 :: steps[1..][i] == steps[i + 1];
      DisconnectsKeepEven(tree, cfg, Next(cfg, h, steps[0]).0, steps[1..], w);
    } else if |h.s.removed| > 0 && |h.s.cache| > 0 {
      assert h.chain[ForkIndex(h)..] == [];
    }
  }

  /** A disconnect moves at most one block from the cache to the reorg list. */
  lemma DisconnectShrinks(tree: BlockTree, cfg: Config, h: History, step: Step)
    requires cfg.Valid() && ValidTree(tree) && Inv(tree, h) && StepOk(tree, h.s.lorenzo, step)
    requires AllDisconnects([step]) && (|h.s.removed| > 0 ==> |h.pending| == 1)
    ensures var (next, panicked) := Next(cfg, h, step);
            && !panicked && Inv(tree, next) && next.s.maxEntries == h.s.maxEntries
            && |next.s.removed| + |next.s.cache| == |h.s.removed| + |h.s.cache|
            && (|next.s.removed| > 0 ==> |next.pending| == 1)
  {
    hide Inv, ValidTree, StepOk;
    assert step == [step][0];
    match step
    case Event(event, _) => DisconnectKeepsInv(tree, h, event);
    case OthersInsert(headers) => OthersKeepInv(tree, h, headers);
  }

  /**
    Disconnects followed by connects never panic if the removed and the connected blocks all have the same
    positive work, whatever work the other cached blocks have.
   */
  lemma {:induction false} EqualWorkEpisodeNeverPanics(tree: BlockTree, cfg: Config, h: History,
      disconnects: seq<Step>, connects: seq<Step>, w: nat)
    requires cfg.Valid() && ValidTree(tree) && Inv(tree, h) && |h.s.removed| == 0
    requires AllDisconnects(disconnects) && StepsOk(tree, cfg, h, disconnects)
    requires 0 < w && AllOfWork(Run(cfg, h, disconnects).0.s.removed, w) && ConnectsOfWork(connects, w)
    requires StepsOk(tree, cfg, Run(cfg, h, disconnects).0, connects)
    ensures !Run(cfg, h, disconnects + connects).1
  {
    DisconnectsKeepEven(tree, cfg, h, disconnects, w);
    EvenConnectsNeverPanic(tree, cfg, Run(cfg, h, disconnects).0, connects, w);
    RunConcat(cfg, h, disconnects, connects);
  }

  // ---------- undoing disconnects ----------

  /** `removed` lists the last entries of `s` from the end backwards. */
  ghost predicate LostFromEnd<T>(removed: seq<T>, s: seq<T>) {
    |removed| <= |s| && forall i | 0 <= i < |removed| :: removed[i] == s[|s| - 1 - i]
  }

  /** The heights in `removed` go down one by one from the tip of `cache`. */
  ghost predicate HeightsDown(removed: seq<IndexedBlock>, cache: seq<IndexedBlock>) {
    |removed| <= |cache| && forall i | 0 <= i < |removed| :: removed[i].height == cache[|cache| - 1].height - i
  }

  /** Every step takes a block off the cache. */
  ghost predicate AllRemovals(cfg: Config, h: History, steps: seq<Step>)
    requires cfg.Valid()
    decreases |steps|
  {
    |steps| > 0 ==> IsRemoval(h, steps[0]) && AllRemovals(cfg, Next(cfg, h, steps[0]).0, steps[1..])
  }

  /** The blocks newly recorded in `removed` are what `cache` has lost compared with `before`. */
  ghost predicate Undoes(before: seq<IndexedBlock>, cache: seq<IndexedBlock>, removed: seq<IndexedBlock>, work: int) {
    && |before| == |cache| + |removed| && before[..|cache|] == cache
    && LostFromEnd(removed, before) && HeightsDown(removed, before)
    && work == Work(before[|cache|..])
  }

  lemma UndoesOneMore(before: seq<IndexedBlock>, tip: IndexedBlock, cache: seq<IndexedBlock>,
      removed: seq<IndexedBlock>, work: int)
    requires Undoes(before, cache, removed, work)
    requires |before| > 0 ==> Attaches(before[|before| - 1], tip)
    ensures Undoes(before + [tip], cache, [tip] + removed, work + tip.header.work)
  {
    assert (before + [tip])[|cache|..] == before[|cache|..] + [tip];
    WorkConcat(before[|cache|..], [tip]);
    assert [tip][..0] == [] && Work([tip]) == tip.header.work;
  }

  /**
    A run of disconnects with no connect in between can be read back off the reorg list: what is left of the
    cache followed by the newly recorded blocks in reverse is the cache at the start, the recorded heights go
    down one by one, and the tracked work has grown by exactly the work of the lost tail.
   */
  lemma {:induction false} DisconnectsAreReversible(tree: BlockTree, cfg: Config, h: History, steps: seq<Step>)
    requires cfg.Valid() && ValidTree(tree) && Inv(tree, h) && AllRemovals(cfg, h, steps)
    ensures var (now, panicked) := Run(cfg, h, steps);
            var n := |h.s.removed|;
            && !panicked
            && |now.s.removed| == n + |steps| && now.s.removed[..n] == h.s.removed
            && Undoes(h.s.cache, now.s.cache, now.s.removed[n..], now.s.removedWork - h.s.removedWork)
    decreases |steps|
  {
    hide Next, Inv, IsRemoval, Linked, AllIn, Undoes, HeightsDown, ValidTree, Work;
    var n := |h.s.removed|;
    if |steps| > 0 {
      RemovalStep(tree, cfg, h, steps[0]);
      var next := Next(cfg, h, steps[0]).0;
      var tip := h.s.cache[|h.s.cache| - 1];
      DisconnectsAreReversible(tree, cfg, next, steps[1..]);
      var now := Run(cfg, next, steps[1..]).0;
      UndoesOneMore(next.s.cache, tip, now.s.cache, now.s.removed[n + 1..], now.s.removedWork - next.s.removedWork);
      PrefixGrows(now.s.removed, h.s.removed, tip);
    } else {
      NothingUndone(h.s.cache, h.s.removed);
    }
  }

  lemma NothingUndone(cache: seq<IndexedBlock>, removed: seq<IndexedBlock>)
    ensures Undoes(cache, cache, removed[|removed|..], 0)
    ensures removed[..|removed|] == removed
  {
    assert removed[|removed|..] == [] && cache[|cache|..] == [];
    assert cache + [] == cache;
  }

  lemma RemovalStep(tree: BlockTree, cfg: Config, h: History, step: Step)
    requires cfg.Valid() && ValidTree(tree) && Inv(tree, h) && IsRemoval(h, step)
    ensures |h.s.cache| > 0 && !Next(cfg, h, step).1
    ensures var next := Next(cfg, h, step).0;
            var tip := h.s.cache[|h.s.cache| - 1];
            && Inv(tree, next)
            && h.s.cache == next.s.cache + [tip]
            && next.s.removed == h.s.removed + [tip]
            && next.s.removedWork == h.s.removedWork + tip.header.work
            && (|next.s.cache| > 0 ==> Attaches(next.s.cache[|next.s.cache| - 1], tip))
  {
    DisconnectKeepsInv(tree, h, step.event);
    SuffixIsLinked(tree, h.s.cache, h.chain);
  }

  lemma PrefixGrows<T>(s: seq<T>, front: seq<T>, x: T)
    requires |front| < |s| && s[..|front| + 1] == front + [x]
    ensures s[..|front|] == front && s[|front|..] == [x] + s[|front| + 1..]
  {
    assert s[..|front|] == s[..|front| + 1][..|front|];
    assert s[|front|] == s[..|front| + 1][|front|];
  }
}
