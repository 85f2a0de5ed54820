/**
  The panic at the branch lookup can happen although all blocks have the same work: each nested reorg adds its
  own replacement blocks to the tracked work, so the tracked work can outgrow what a full cache can outweigh.
 */
module PanicWitness {
  import opened Prelude
  import opened BtcTypes
  import opened BoundedCache
  import opened LorenzoLightClient
  import opened HeaderSubmission
  import opened ReporterSpec
  import opened ReporterRuns
  import opened ReorgTheorems
  import opened BootstrapWindow

  // ---------- a block that attaches to the tip is always added ----------

  lemma AttachingBlockIsAdded(tree: BlockTree, cfg: Config, h: History, event: BlockEvent, a: ConnectAnswers)
    requires cfg.Valid() && ValidTree(tree) && CacheInv(tree, h) && |h.s.cache| > 0
    requires a.hashAtHeight == Some(event.hash) && a.block.Some? && Contains(tree, a.block.value)
    requires a.block.value.header.prevBlock == h.s.cache[|h.s.cache| - 1].header.hash
    requires event.height == a.block.value.height
    ensures OnConnected(cfg, h.s, event, a) == Extend(cfg, h.s, a.block.value, a)
  {
    hide Extend, ValidTree, AboveBase;
    var ib := a.block.value;
    var tip := h.s.cache[|h.s.cache| - 1];
    SuffixIsLinked(tree, h.s.cache, h.chain);
    assert Contains(tree, tip);
    ParentIsOneLower(tree, tip, ib);
    LinkedHeights(h.s.cache);
  }

  /** An extension that neither outweighs the removed work nor overruns the cache. */
  lemma ReorgContinues(tree: BlockTree, cfg: Config, h: History, event: BlockEvent, a: ConnectAnswers)
    requires cfg.Valid() && ValidTree(tree) && Inv(tree, h) && |h.s.cache| > 0 && |h.s.removed| > 0
    requires a.hashAtHeight == Some(event.hash) && a.block.Some? && Contains(tree, a.block.value)
    requires a.block.value.header.prevBlock == h.s.cache[|h.s.cache| - 1].header.hash
    requires event.height == a.block.value.height && event.hash == a.block.value.header.hash && event.connected
    requires |h.pending| <= h.s.maxEntries
    requires 0 <= ForkIndex(h) <= |h.chain| && Work(h.chain[ForkIndex(h)..] + [a.block.value]) <= h.s.removedWork
    ensures var ib := a.block.value;
            && Next(cfg, h, Event(event, a))
               == (History(h.s.(cache := Push(h.s.cache, h.s.maxEntries, ib)), h.chain + [ib], h.held,
                           h.pending + [h.chain + [ib]]), false)
            && Inv(tree, Next(cfg, h, Event(event, a)).0)
  {
    hide Push, LastBlocks, CacheInv, ReorgOpen, LorenzoInv, Work, ProcessHeaders, ValidTree;
    var ib := a.block.value;
    AttachingBlockIsAdded(tree, cfg, h, event, a);
    BranchLookup(tree, h, ib);
    ExtendDuringReorg(tree, cfg, h, ib, a);
    assert (h.chain + [ib])[ForkIndex(h)..] == h.chain[ForkIndex(h)..] + [ib];
  }

  lemma CacheOverruns(tree: BlockTree, cfg: Config, h: History, event: BlockEvent, a: ConnectAnswers)
    requires cfg.Valid() && ValidTree(tree) && Inv(tree, h) && |h.s.cache| > 0 && |h.s.removed| > 0
    requires a.hashAtHeight == Some(event.hash) && a.block.Some? && Contains(tree, a.block.value)
    requires a.block.value.header.prevBlock == h.s.cache[|h.s.cache| - 1].header.hash
    requires event.height == a.block.value.height && event.hash == a.block.value.header.hash && event.connected
    requires |h.pending| > h.s.maxEntries
    ensures Next(cfg, h, Event(event, a)).1
  {
    hide Push, LastBlocks, CacheInv, ReorgInv, LorenzoInv, Work, ProcessHeaders, ValidTree;
    AttachingBlockIsAdded(tree, cfg, h, event, a);
    ExtendDuringReorg(tree, cfg, h, a.block.value, a);
  }

  /** A disconnect of the cached tip. */
  lemma TipIsRemoved(tree: BlockTree, cfg: Config, h: History, event: BlockEvent, a: ConnectAnswers)
    requires cfg.Valid() && ValidTree(tree) && Inv(tree, h) && |h.s.cache| > 0
    requires !event.connected && event.hash == h.s.cache[|h.s.cache| - 1].header.hash
    ensures |h.chain| > 0 && Next(cfg, h, Event(event, a)) == (WithoutTip(h), false) && Inv(tree, WithoutTip(h))
  {
    hide Inv, ValidTree;
    RemovalKeepsInv(tree, h);
  }

  // ---------- the run ----------

  function Block(height: Int32, id: Hash, prev: Hash, w: nat): IndexedBlock {
    IndexedBlock(height, BlockHeader(id, prev, w))
  }

  // block 0 with the children 1, 2 and 3, and 3 <- 4 <- 5, all of work w
  function B0(w: nat): IndexedBlock { Block(0, 0, 9, w) }
  function B1(w: nat): IndexedBlock { Block(1, 1, 0, w) }
  function B2(w: nat): IndexedBlock { Block(1, 2, 0, w) }
  function B3(w: nat): IndexedBlock { Block(1, 3, 0, w) }
  function B4(w: nat): IndexedBlock { Block(2, 4, 3, w) }
  function B5(w: nat): IndexedBlock { Block(3, 5, 4, w) }

  function Tree(w: nat): BlockTree {
    map[0 := B0(w), 1 := B1(w), 2 := B2(w), 3 := B3(w), 4 := B4(w), 5 := B5(w)]
  }

  /** A confirmation depth and a timeout of 1 give a cache of two entries. */
  function SmallConfig(): Config { Config(2, 1, 1, 0, 100) }

  /** A new reporter; Lorenzo has only block 0. */
  function Fresh(w: nat): History {
    History(State([], 2, [], 0, LightClient(B0(w), {0}, [])), [], [], [[]])
  }

  /** The state after the first bootstrap on a node whose best block is block 1. */
  function Start(w: nat): History {
    var chain := [B0(w), B1(w)];
    History(State(chain, 2, [], 0, LightClient(B0(w), {0, 1}, [B1(w)])), chain, [], [chain])
  }

  function FirstBootStep(w: nat): Step {
    Boot(FirstBoot(Tree(w), [B0(w), B1(w)], 0))
  }

  function Connect(b: IndexedBlock): Step {
    Event(BlockEvent(true, b.height, b.header.hash),
          ConnectAnswers(Some(b.header.hash), Some(b), None, SubmitAnswers(None, [])))
  }

  function Disconnect(b: IndexedBlock): Step {
    Event(BlockEvent(false, b.height, b.header.hash), ConnectAnswers(None, None, None, SubmitAnswers(None, [])))
  }

  lemma TreeIsValid(w: nat)
    ensures ValidTree(Tree(w))
    ensures Contains(Tree(w), B0(w)) && Contains(Tree(w), B1(w)) && Contains(Tree(w), B2(w))
    ensures Contains(Tree(w), B3(w)) && Contains(Tree(w), B4(w)) && Contains(Tree(w), B5(w))
  {
    forall h, p ensures ParentRule(Tree(w), h, p) {
    }
  }

  lemma {:induction false} BootReachesStart(w: nat)
    ensures Initial(Tree(w), Fresh(w)) && StepOk(Tree(w), Fresh(w).s.lorenzo, FirstBootStep(w))
    ensures Next(SmallConfig(), Fresh(w), FirstBootStep(w)) == (Start(w), false)
  {
    hide ValidTree, Tree, ReporterSpec.Bootstrap;
    TreeIsValid(w);
    var chain := [B0(w), B1(w)];
    assert Linked(chain) && AllIn(Tree(w), chain);
    assert chain[1..] == [B1(w)];
    FirstBootstrap(Tree(w), SmallConfig(), chain, 0);
    assert HashesOf([B1(w)]) == {1};
    assert Accept(Fresh(w).s.lorenzo, [B1(w)]) == Start(w).s.lorenzo;
  }

  lemma StartIsInv(w: nat)
    ensures Inv(Tree(w), Start(w))
  {
    hide Next, Inv, ValidTree, Tree, Initial;
    TreeIsValid(w);
    BootReachesStart(w);
    InitialInv(Tree(w), Fresh(w));
    StepKeepsInv(Tree(w), SmallConfig(), Fresh(w), FirstBootStep(w));
  }

  function FirstSteps(w: nat): seq<Step> {
    [Disconnect(B1(w)), Connect(B2(w)), Disconnect(B2(w))]
  }

  function MoreSteps(w: nat): seq<Step> {
    [Connect(B3(w)), Connect(B4(w)), Connect(B5(w))]
  }

  lemma {:induction false} FirstNestedReorg(w: nat) returns (h: History)
    ensures Run(SmallConfig(), Start(w), FirstSteps(w)) == (h, false)
    ensures StepsOk(Tree(w), SmallConfig(), Start(w), FirstSteps(w))
    ensures Inv(Tree(w), h)
    ensures h.s.cache == [B0(w)] && h.chain == [B0(w)] && |h.pending| == 1
    ensures h.s.maxEntries == 2 && |h.s.removed| == 2 && h.s.removedWork == 2 * w
  {
    hide Inv, ValidTree, Next, Run, StepsOk, Tree, Work;
    var tree, cfg := Tree(w), SmallConfig();
    var s := FirstSteps(w);
    TreeIsValid(w);
    StartIsInv(w);
    TipIsRemoved(tree, cfg, Start(w), s[0].event, s[0].answers);
    var h1 := WithoutTip(Start(w));
    assert h1.s.cache == [B0(w)] && h1.chain == [B0(w)];
    assert h1.chain[1..] + [B2(w)] == [B2(w)];
    WorkOfEqualBlocks([B2(w)], w);
    ReorgContinues(tree, cfg, h1, s[1].event, s[1].answers);
    var h2 := Next(cfg, h1, s[1]).0;
    assert h2.s.cache == [B0(w), B2(w)];
    TipIsRemoved(tree, cfg, h2, s[2].event, s[2].answers);
    h := WithoutTip(h2);
    NoSteps(tree, cfg, h);
    FirstStep(tree, cfg, h2, s[2..], h);
    FirstStep(tree, cfg, h1, s[1..], h2);
    FirstStep(tree, cfg, Start(w), s, h1);
    assert s[1..][1..] == s[2..] && s[2..][1..] == [];
  }

  lemma {:induction false} TwoMoreConnects(w: nat, h: History) returns (now: History)
    requires Inv(Tree(w), h)
    requires h.s.cache == [B0(w)] && h.chain == [B0(w)] && |h.pending| == 1
    requires h.s.maxEntries == 2 && |h.s.removed| == 2 && h.s.removedWork == 2 * w
    ensures Run(SmallConfig(), h, MoreSteps(w)) == Run(SmallConfig(), now, MoreSteps(w)[2..])
    ensures StepsOk(Tree(w), SmallConfig(), now, MoreSteps(w)[2..]) ==> StepsOk(Tree(w), SmallConfig(), h, MoreSteps(w))
    ensures Inv(Tree(w), now) && now.s.cache == [B3(w), B4(w)] && |now.pending| == 3
    ensures now.s.maxEntries == 2 && |now.s.removed| == 2
  {
    hide Inv, ValidTree, Next, Run, StepsOk, Tree, Work;
    var tree, cfg := Tree(w), SmallConfig();
    var s := MoreSteps(w);
    TreeIsValid(w);
    assert h.chain[1..] + [B3(w)] == [B3(w)];
    WorkOfEqualBlocks([B3(w)], w);
    ReorgContinues(tree, cfg, h, s[0].event, s[0].answers);
    var h1 := Next(cfg, h, s[0]).0;
    assert h1.s.cache == [B0(w), B3(w)];
    assert h1.chain[1..] + [B4(w)] == [B3(w), B4(w)];
    WorkOfEqualBlocks([B3(w), B4(w)], w);
    ReorgContinues(tree, cfg, h1, s[1].event, s[1].answers);
    now := Next(cfg, h1, s[1]).0;
    assert now.s.cache == [B3(w), B4(w)];
    FirstStep(tree, cfg, h1, s[1..], now);
    FirstStep(tree, cfg, h, s, h1);
    assert s[1..][1..] == s[2..];
  }

  lemma {:induction false} LastConnectPanics(w: nat, h: History)
    requires Inv(Tree(w), h) && h.s.cache == [B3(w), B4(w)] && |h.pending| == 3
    requires h.s.maxEntries == 2 && |h.s.removed| == 2
    ensures Run(SmallConfig(), h, MoreSteps(w)[2..]).1
    ensures StepsOk(Tree(w), SmallConfig(), h, MoreSteps(w)[2..])
  {
    hide Inv, ValidTree, Next, Tree;
    var last := MoreSteps(w)[2..];
    assert last[0] == Connect(B5(w)) && last[1..] == [];
    TreeIsValid(w);
    CacheOverruns(Tree(w), SmallConfig(), h, last[0].event, last[0].answers);
  }

  /**
    A bootstrap and six events with blocks of work `w` and a cache of two: disconnect 1, connect 2, disconnect 2, then
    connect 3, 4 and 5. The tracked work is 2w, so two connected blocks do not release the reorg and the third panics.
   */
  lemma {:induction false} NestedReorgsOfEqualWorkPanic(w: nat)
    ensures var steps := [FirstBootStep(w)] + (FirstSteps(w) + MoreSteps(w));
            && ValidTree(Tree(w)) && SmallConfig().Valid() && Initial(Tree(w), Fresh(w))
            && StepsOk(Tree(w), SmallConfig(), Fresh(w), steps)
            && Next(SmallConfig(), Fresh(w), FirstBootStep(w)) == (Start(w), false) && AllOfWork(Start(w).s.cache, w)
            && Run(SmallConfig(), Fresh(w), steps).1
  {
    hide Inv, ValidTree, Next, Run, StepsOk, FirstSteps, MoreSteps, Tree, Initial, StepOk, FirstBootStep;
    TreeIsValid(w);
    StartIsInv(w);
    BootReachesStart(w);
    var h := FirstNestedReorg(w);
    var now := TwoMoreConnects(w, h);
    LastConnectPanics(w, now);
    RunConcat(SmallConfig(), Start(w), FirstSteps(w), MoreSteps(w));
    StepsOkConcat(Tree(w), SmallConfig(), Start(w), FirstSteps(w), MoreSteps(w));
    var steps := [FirstBootStep(w)] + (FirstSteps(w) + MoreSteps(w));
    assert steps[0] == FirstBootStep(w) && steps[1..] == FirstSteps(w) + MoreSteps(w);
    FirstStep(Tree(w), SmallConfig(), Fresh(w), steps, Start(w));
  }
}
