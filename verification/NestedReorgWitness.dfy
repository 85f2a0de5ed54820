/**
  A nested reorg whose release does not reach Lorenzo: the block below the latest cut was connected during the reorg
  and never submitted.
 */
module NestedReorgWitness {
  import opened Prelude
  import opened BtcTypes
  import opened BoundedCache
  import opened LorenzoLightClient
  import opened HeaderSubmission
  import opened ReporterSpec
  import opened ReporterRuns
  import opened ReorgTheorems
  import opened BootstrapWindow
  import opened LostBranch
  import PanicWitness

  // block 0 with the branches 1 <- 2, 3 <- 4 and 3 <- 5 <- 6 <- 7 <- 8
  function G(): IndexedBlock { PanicWitness.Block(0, 0, 9, 1) }
  function A1(): IndexedBlock { PanicWitness.Block(1, 1, 0, 1) }
  function A2(): IndexedBlock { PanicWitness.Block(2, 2, 1, 1) }
  function B1(): IndexedBlock { PanicWitness.Block(1, 3, 0, 1) }
  function B2(): IndexedBlock { PanicWitness.Block(2, 4, 3, 1) }
  function C2(): IndexedBlock { PanicWitness.Block(2, 5, 3, 1) }
  function C3(): IndexedBlock { PanicWitness.Block(3, 6, 5, 1) }
  function C4(): IndexedBlock { PanicWitness.Block(4, 7, 6, 1) }
  function C5(): IndexedBlock { PanicWitness.Block(5, 8, 7, 1) }

  function Blocks(): seq<IndexedBlock> {
    [G(), A1(), A2(), B1(), B2(), C2(), C3(), C4(), C5()]
  }

  function Tree(): BlockTree {
    map i: Hash | i < |Blocks()| :: Blocks()[i]
  }

  function SmallConfig(): Config { Config(5, 3, 2, 0, 100) }

  /** The state after the first bootstrap. */
  function Start(): History {
    var chain := [G(), A1(), A2()];
    History(State(chain, 5, [], 0, LightClient(G(), {0, 1, 2}, [A1(), A2()])), chain, [], [chain])
  }

  /** A new reporter; Lorenzo has only block 0. */
  function Fresh(): History {
    History(State([], 5, [], 0, LightClient(G(), {0}, [])), [], [], [[]])
  }

  /** The first bootstrap, on a node whose best block is A2. */
  function FirstBootStep(): Step {
    Boot(FirstBoot(Tree(), [G(), A1(), A2()], 0))
  }

  /** A connect whose submission nothing disturbs. */
  function Connect(b: IndexedBlock): Step {
    Event(BlockEvent(true, b.height, b.header.hash),
          ConnectAnswers(Some(b.header.hash), Some(b), None, SubmitAnswers(None, seq(6, _ => Delivered))))
  }

  function Disconnect(b: IndexedBlock): Step {
    PanicWitness.Disconnect(b)
  }

  lemma TreeIsValid()
    ensures ValidTree(Tree())
    ensures Contains(Tree(), G()) && Contains(Tree(), A1()) && Contains(Tree(), A2())
    ensures Contains(Tree(), B1()) && Contains(Tree(), B2())
    ensures Contains(Tree(), C2()) && Contains(Tree(), C3()) && Contains(Tree(), C4()) && Contains(Tree(), C5())
  {
    var tree := Tree();
    forall h, p ensures ParentRule(tree, h, p) {
    }
    forall i: Hash | i < |Blocks()| ensures Contains(tree, Blocks()[i]) {
    }
    assert Blocks()[0] == G() && Blocks()[1] == A1() && Blocks()[2] == A2();
    assert Blocks()[3] == B1() && Blocks()[4] == B2();
    assert Blocks()[5] == C2() && Blocks()[6] == C3() && Blocks()[7] == C4() && Blocks()[8] == C5();
  }

  lemma BootChain()
    ensures var chain := [G(), A1(), A2()];
            Linked(chain) && AllIn(Tree(), chain) && chain[1..] == [A1(), A2()]
    ensures Accept(Fresh().s.lorenzo, [A1(), A2()]) == Start().s.lorenzo
  {
    hide ValidTree, Tree;
    TreeIsValid();
    assert HashesOf([A1(), A2()]) == {1, 2} by {
      HashesOfConcat([A1()], [A2()]);
      assert [A1()] + [A2()] == [A1(), A2()];
    }
  }

  lemma {:induction false} BootReachesStart()
    ensures Initial(Tree(), Fresh()) && StepOk(Tree(), Fresh().s.lorenzo, FirstBootStep())
    ensures Next(SmallConfig(), Fresh(), FirstBootStep()) == (Start(), false)
  {
    hide ValidTree, Tree, ReporterSpec.Bootstrap, Linked, AllIn, Accept;
    TreeIsValid();
    BootChain();
    FirstBootstrap(Tree(), SmallConfig(), [G(), A1(), A2()], 0);
  }

  lemma StartIsInv()
    ensures Inv(Tree(), Start())
  {
    hide Next, Inv, ValidTree, Tree, Initial;
    TreeIsValid();
    BootReachesStart();
    InitialInv(Tree(), Fresh());
    StepKeepsInv(Tree(), SmallConfig(), Fresh(), FirstBootStep());
  }

  /** A connect that outweighs the removed work releases the reorg. */
  lemma ReorgEnds(tree: BlockTree, cfg: Config, h: History, event: BlockEvent, a: ConnectAnswers)
    requires cfg.Valid() && ValidTree(tree) && Inv(tree, h) && |h.s.cache| > 0 && |h.s.removed| > 0
    requires a.hashAtHeight == Some(event.hash) && a.block.Some? && Contains(tree, a.block.value)
    requires a.block.value.header.prevBlock == h.s.cache[|h.s.cache| - 1].header.hash
    requires event.height == a.block.value.height && event.hash == a.block.value.header.hash && event.connected
    requires |h.pending| <= h.s.maxEntries
    requires 0 <= ForkIndex(h) <= |h.chain| && Work(h.chain[ForkIndex(h)..] + [a.block.value]) > h.s.removedWork
    ensures Releases(cfg, h, event, a)
  {
    hide Extend, Push, LastBlocks, CacheInv, ReorgOpen, LorenzoInv, Work, ProcessHeaders, ValidTree;
    var ib := a.block.value;
    PanicWitness.AttachingBlockIsAdded(tree, cfg, h, event, a);
    BranchLookup(tree, h, ib);
    ExtendReleasesIff(cfg, h.s, ib, a);
    assert (h.chain + [ib])[ForkIndex(h)..] == h.chain[ForkIndex(h)..] + [ib];
  }

  function FirstSteps(): seq<Step> {
    [Disconnect(A2()), Disconnect(A1()), Connect(B1()), Connect(B2()), Disconnect(B2())]
  }

  function MoreSteps(): seq<Step> {
    [Connect(C2()), Connect(C3()), Connect(C4())]
  }

  // ---------- single steps ----------

  /** Nothing has been evicted and every block has work 1. */
  ghost predicate Simple(h: History) {
    && Inv(Tree(), h) && h.s.cache == h.chain && AllOfWork(h.chain, 1) && h.s.maxEntries == 5
    && h.s.lorenzo == Start().s.lorenzo
  }

  lemma {:induction false} Cut(h: History, s: seq<Step>) returns (next: History)
    requires Simple(h) && |h.chain| > 0 && |s| > 0 && s[0] == Disconnect(h.chain[|h.chain| - 1])
    ensures var tip := h.chain[|h.chain| - 1];
            && Simple(next) && next.chain == h.chain[..|h.chain| - 1]
            && next.held == h.held + h.pending && next.pending == [next.chain]
            && next.s.removed == h.s.removed + [tip] && next.s.removedWork == h.s.removedWork + 1
    ensures Run(SmallConfig(), h, s) == Run(SmallConfig(), next, s[1..])
    ensures StepsOk(Tree(), SmallConfig(), next, s[1..]) ==> StepsOk(Tree(), SmallConfig(), h, s)
  {
    hide Inv, ValidTree, Next, Run, StepsOk, Tree;
    TreeIsValid();
    PanicWitness.TipIsRemoved(Tree(), SmallConfig(), h, s[0].event, s[0].answers);
    next := WithoutTip(h);
    FirstStep(Tree(), SmallConfig(), h, s, next);
  }

  /** A connect that does not outweigh the removed work. */
  lemma {:induction false} Grow(h: History, s: seq<Step>, b: IndexedBlock) returns (next: History)
    requires Simple(h) && 0 < |h.chain| < 5 && |h.s.removed| > 0 && |s| > 0 && s[0] == Connect(b)
    requires Contains(Tree(), b) && b.header.prevBlock == h.chain[|h.chain| - 1].header.hash && b.header.work == 1
    requires 0 < |h.pending| <= 5 && 0 <= ForkIndex(h) && |h.chain| + 1 - ForkIndex(h) <= h.s.removedWork
    ensures Simple(next) && next.chain == h.chain + [b]
    ensures next.held == h.held && next.pending == h.pending + [next.chain]
    ensures next.s.removed == h.s.removed && next.s.removedWork == h.s.removedWork
    ensures Run(SmallConfig(), h, s) == Run(SmallConfig(), next, s[1..])
    ensures StepsOk(Tree(), SmallConfig(), next, s[1..]) ==> StepsOk(Tree(), SmallConfig(), h, s)
  {
    hide Inv, ValidTree, Next, Run, StepsOk, Tree;
    TreeIsValid();
    WorkOfEqualBlocks(h.chain[ForkIndex(h)..] + [b], 1);
    PanicWitness.ReorgContinues(Tree(), SmallConfig(), h, s[0].event, s[0].answers);
    next := Next(SmallConfig(), h, s[0]).0;
    FirstStep(Tree(), SmallConfig(), h, s, next);
  }

  // ---------- the run ----------

  lemma {:induction false} AfterFirstSteps() returns (h: History)
    ensures Run(SmallConfig(), Start(), FirstSteps()) == (h, false) && Simple(h)
    ensures StepsOk(Tree(), SmallConfig(), Start(), FirstSteps())
    ensures h.chain == [G(), B1()] && |h.pending| == 1 && [G()] in h.held
    ensures h.s.removedWork == 3 && h.s.removed == [A2(), A1(), B2()]
  {
    hide Inv, ValidTree, Next, Run, StepsOk, Tree;
    var s := FirstSteps();
    TreeIsValid();
    StartIsInv();
    var h1 := Cut(Start(), s);
    assert h1.chain == [G(), A1()];
    var h2 := Cut(h1, s[1..]);
    assert h2.chain == [G()];
    var h3 := Grow(h2, s[2..], B1());
    var h4 := Grow(h3, s[3..], B2());
    h := Cut(h4, s[4..]);
    assert h.chain == [G(), B1()];
    assert h4.pending[0] == [G()] && h.held[|h4.held|] == [G()];
    assert s[1..][1..] == s[2..] && s[2..][1..] == s[3..] && s[3..][1..] == s[4..] && s[4..][1..] == [];
    NoSteps(Tree(), SmallConfig(), h);
  }

  lemma {:induction false} AfterMoreSteps(h: History) returns (now: History)
    requires Simple(h) && h.chain == [G(), B1()] && |h.pending| == 1
    requires h.s.removedWork == 3 && |h.s.removed| > 0
    ensures Run(SmallConfig(), h, MoreSteps()) == (now, false) && Simple(now)
    ensures StepsOk(Tree(), SmallConfig(), h, MoreSteps())
    ensures now.chain == [G(), B1(), C2(), C3(), C4()] && |now.pending| == 4 && now.held == h.held
    ensures now.s.removedWork == 3 && now.s.removed == h.s.removed
  {
    hide Inv, ValidTree, Next, Run, StepsOk, Tree;
    var s := MoreSteps();
    TreeIsValid();
    var h1 := Grow(h, s, C2());
    var h2 := Grow(h1, s[1..], C3());
    now := Grow(h2, s[2..], C4());
    assert s[1..][1..] == s[2..] && s[2..][1..] == [];
    NoSteps(Tree(), SmallConfig(), now);
  }

  /**
    After the first bootstrap Lorenzo has 0, A1 and A2. Disconnect A2 and A1, connect B1 and B2, disconnect B2, connect
    C2, C3, C4 and C5 on B1; all blocks have work 1. The last connect releases C2 to C5, although nothing fails
    Lorenzo accepts none of them: it lacks their ancestor B1, which is not submitted. Its tip stays A2, and from
    there no connect recovers.
   */
  lemma {:induction false} NestedReleaseMissesLorenzo() returns (now: History)
    ensures var steps := [FirstBootStep()] + (FirstSteps() + MoreSteps());
            var event, a := Connect(C5()).event, Connect(C5()).answers;
            && ValidTree(Tree()) && SmallConfig().Valid() && Initial(Tree(), Fresh())
            && StepsOk(Tree(), SmallConfig(), Fresh(), steps)
            && Run(SmallConfig(), Fresh(), steps) == (now, false)
            && Releases(SmallConfig(), now, event, a)
            && a.submit.queryFailsAt.None? && a.submit.deliveries == seq(6, _ => Delivered)
            && ForkIndex(now) == 2 && [G()] in now.held
            && var e := OnConnected(SmallConfig(), now.s, event, a);
            && e.submitted == [C2(), C3(), C4(), C5()]
            && !(forall i | 0 <= i < |e.submitted| :: e.submitted[i].header.hash in e.state.lorenzo.known)
            && OffBranch(AfterEvent(now, e), A2().height)
  {
    hide Inv, ValidTree, Next, OnConnected, Run, StepsOk, Releases, Tree, FirstSteps, MoreSteps, Initial, StepOk,
      FirstBootStep, AfterEvent, OffBranch;
    StartIsInv();
    BootReachesStart();
    var h := AfterFirstSteps();
    now := AfterMoreSteps(h);
    RunConcat(SmallConfig(), Start(), FirstSteps(), MoreSteps());
    StepsOkConcat(Tree(), SmallConfig(), Start(), FirstSteps(), MoreSteps());
    var steps := [FirstBootStep()] + (FirstSteps() + MoreSteps());
    assert steps[0] == FirstBootStep() && steps[1..] == FirstSteps() + MoreSteps();
    FirstStep(Tree(), SmallConfig(), Fresh(), steps, Start());
    ReleaseMisses(now);
  }

  lemma {:induction false} ReleaseMisses(now: History)
    requires Simple(now) && now.chain == [G(), B1(), C2(), C3(), C4()] && |now.pending| == 4
    requires now.s.removedWork == 3 && now.s.removed == [A2(), A1(), B2()]
    ensures var event, a := Connect(C5()).event, Connect(C5()).answers;
            && ValidTree(Tree()) && Releases(SmallConfig(), now, event, a)
            && var e := OnConnected(SmallConfig(), now.s, event, a);
            && e.submitted == [C2(), C3(), C4(), C5()]
            && !(forall i | 0 <= i < |e.submitted| :: e.submitted[i].header.hash in e.state.lorenzo.known)
            && OffBranch(AfterEvent(now, e), A2().height)
  {
    hide Inv, ValidTree, OnConnected, Releases, Work, ProcessHeaders, LastBlocks, AfterEvent, Tree;
    var tree, cfg := Tree(), SmallConfig();
    TreeIsValid();
    var event, a := Connect(C5()).event, Connect(C5()).answers;
    assert now.chain[2..] + [C5()] == [C2(), C3(), C4(), C5()];
    WorkOfEqualBlocks([C2(), C3(), C4(), C5()], 1);
    ReorgEnds(tree, cfg, now, event, a);
    ReleaseReachesLorenzo(tree, cfg, now, event, a);
    SubmittedOnRelease(tree, cfg, now, event, a);
    assert (now.chain + [C5()])[2..] == [C2(), C3(), C4(), C5()];
    MissedReleaseStrandsTheReporter(tree, cfg, now, event, a, A2().height);
  }
}
