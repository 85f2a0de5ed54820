/**
  Nested reorgs: blocks connected after one disconnect may be disconnected again. A release submits only the chain
  from the latest cut, so Lorenzo gets all of it only if it has what lies below that cut.
 */
module NestedReorgs {
  import opened BtcTypes
  import opened BoundedCache
  import opened LorenzoLightClient
  import opened HeaderSubmission
  import opened ReporterSpec
  import opened ReporterRuns
  import opened ReorgTheorems

  /** The length of the shortest of these chains. */
  function Shortest(chains: seq<seq<IndexedBlock>>): (n: nat)
    requires |chains| > 0
    ensures forall i | 0 <= i < |chains| :: n <= |chains[i]|
    ensures exists i | 0 <= i < |chains| :: n == |chains[i]|
  {
    if |chains| == 1 then |chains[0]|
    else
      var rest := Shortest(chains[1..]);
      assert forall i | 0 < i < |chains| :: chains[i] == chains[1..][i - 1];
      if |chains[0]| <= rest then |chains[0]| else rest
  }

  /** How far down the chain has been cut since the reorg list was last empty. */
  function LowestCut(h: History): nat
    requires |h.pending| > 0
  {
    Shortest(h.held + h.pending)
  }

  // ---------- what an open reorg keeps ----------

  /** Below the lowest cut the chain is the one held when the list was empty, and Lorenzo has lost nothing. */
  ghost predicate Kept(start: History, h: History) {
    && |h.pending| > 0 && h.pending[|h.pending| - 1] == h.chain
    && LowestCut(h) <= |start.chain| && LowestCut(h) <= |h.chain|
    && start.chain[..LowestCut(h)] == h.chain[..LowestCut(h)]
    && start.s.lorenzo.known <= h.s.lorenzo.known
  }

  lemma ChainIsPending(tree: BlockTree, h: History)
    requires Inv(tree, h)
    ensures |h.pending| > 0 && h.pending[|h.pending| - 1] == h.chain && LowestCut(h) <= |h.chain|
  {
    hide CacheInv, LorenzoInv;
    var last := |h.pending| - 1;
    assert (h.held + h.pending)[|h.held| + last] == h.pending[last];
    if |h.s.removed| > 0 {
      assert h.pending[last] == h.chain[..ForkIndex(h) + last];
    }
  }

  /** A connect that leaves the reorg open submits nothing. */
  lemma OpenConnectSubmitsNothing(cfg: Config, s: State, ib: IndexedBlock, a: ConnectAnswers)
    requires cfg.Valid() && |s.removed| > 0 && |Push(s.cache, s.maxEntries, ib)| > 0
    requires |Extend(cfg, s, ib, a).state.removed| > 0
    ensures Extend(cfg, s, ib, a).state.lorenzo == s.lorenzo
  {
    hide ProcessHeaders, LastBlocks, Work, Push;
  }

  lemma {:induction false} ShortestOfMore(chains: seq<seq<IndexedBlock>>, c: seq<IndexedBlock>)
    requires |chains| > 0
    ensures Shortest(chains + [c]) == if |c| < Shortest(chains) then |c| else Shortest(chains)
  {
    hide Shortest;
    var more := chains + [c];
    assert forall i | 0 <= i < |chains| :: more[i] == chains[i];
    assert more[|chains|] == c;
  }

  lemma {:induction false} ConnectKeeps(tree: BlockTree, cfg: Config, start: History, h: History, event: BlockEvent,
                                        a: ConnectAnswers)
    requires cfg.Valid() && Kept(start, h) && event.connected
    requires |OnConnected(cfg, h.s, event, a).state.removed| > 0
    ensures Kept(start, AfterEvent(h, OnConnected(cfg, h.s, event, a)))
  {
    hide OnConnected, Extend, Push, Shortest;
    ConnectCases(cfg, h.s, event, a);
    var e := OnConnected(cfg, h.s, event, a);
    if !e.change.Unchanged? {
      var chain := h.chain + [a.block.value];
      PushIsNotEmpty(h.s, a.block.value);
      OpenConnectSubmitsNothing(cfg, h.s, a.block.value, a);
      assert h.held + (h.pending + [chain]) == h.held + h.pending + [chain];
      ShortestOfMore(h.held + h.pending, chain);
      ChainIsNotShorter(h);
      assert chain[..LowestCut(h)] == h.chain[..LowestCut(h)];
    }
  }

  lemma PushIsNotEmpty(s: State, ib: IndexedBlock)
    ensures |Push(s.cache, s.maxEntries, ib)| > 0
  {
  }

  lemma ChainIsNotShorter(h: History)
    requires |h.pending| > 0 && h.pending[|h.pending| - 1] == h.chain
    ensures LowestCut(h) <= |h.chain|
  {
    assert (h.held + h.pending)[|h.held + h.pending| - 1] == h.chain;
  }

  lemma {:induction false} DisconnectKeeps(tree: BlockTree, start: History, h: History, event: BlockEvent)
    requires Kept(start, h) && |OnDisconnected(h.s, event).state.removed| > 0
    requires OnDisconnected(h.s, event).change.Removed? ==> |h.chain| > 0
    ensures Kept(start, AfterEvent(h, OnDisconnected(h.s, event)))
  {
    hide Shortest;
    if OnDisconnected(h.s, event).change.Removed? {
      var chain := h.chain[..|h.chain| - 1];
      ShortestOfMore(h.held + h.pending, chain);
      ChainIsNotShorter(h);
      var n := if |chain| < LowestCut(h) then |chain| else LowestCut(h);
      assert start.chain[..n] == start.chain[..LowestCut(h)][..n] == h.chain[..LowestCut(h)][..n] == chain[..n];
    }
  }

  lemma {:induction false} StepKeeps(tree: BlockTree, cfg: Config, start: History, h: History, step: Step)
    requires cfg.Valid() && ValidTree(tree) && Inv(tree, h) && StepOk(tree, h.s.lorenzo, step)
    requires Kept(start, h) && |Next(cfg, h, step).0.s.removed| > 0
    ensures Kept(start, Next(cfg, h, step).0)
  {
    hide ValidTree, OnConnected, ReporterSpec.Bootstrap, Shortest, Inv, StepOk;
    match step
    case Event(event, a) =>
      if event.connected {
        ConnectKeeps(tree, cfg, start, h, event, a);
      } else {
        if |h.s.cache| > 0 {
          RemovalKeepsInv(tree, h);
        }
        DisconnectKeeps(tree, start, h, event);
      }
    case Boot(boot) => BootClears(cfg, h.s, boot);
    case OthersInsert(_) =>
  }

  lemma {:induction false} RunKeeps(tree: BlockTree, cfg: Config, start: History, h: History, steps: seq<Step>)
    requires cfg.Valid() && ValidTree(tree) && Inv(tree, h) && Kept(start, h)
    requires StepsOk(tree, cfg, h, steps) && !Run(cfg, h, steps).1 && OpenThroughout(cfg, h, steps)
    ensures var now := Run(cfg, h, steps).0; Kept(start, now) && Inv(tree, now)
    decreases |steps|
  {
    hide Next, Kept, Inv, StepOk, ValidTree;
    if |steps| > 0 {
      StepKeeps(tree, cfg, start, h, steps[0]);
      StepKeepsInv(tree, cfg, h, steps[0]);
      RunKeeps(tree, cfg, start, Next(cfg, h, steps[0]).0, steps[1..]);
    }
  }

  // ---------- the release ----------

  /** Lorenzo has none of the blocks connected since the list was empty, the released one included. */
  ghost predicate ReplacementsUnknown(h: History, ib: IndexedBlock)
    requires |h.pending| > 0
  {
    && ib.header.hash !in h.s.lorenzo.known
    && forall i | LowestCut(h) <= i < |h.chain| :: h.chain[i].header.hash !in h.s.lorenzo.known
  }

  /** Lorenzo has the whole chain when it has its tip. */
  lemma {:induction false} TipMeansAll(tree: BlockTree, h: History)
    requires ValidTree(tree) && Inv(tree, h) && |h.chain| > 0
    requires h.chain[|h.chain| - 1].header.hash in h.s.lorenzo.known
    ensures forall i | 0 <= i < |h.chain| :: h.chain[i].header.hash in h.s.lorenzo.known
  {
    hide ReorgInv, IsSuffix, LorenzoInv, Linked, AllIn;
    KnownUpTo(tree, h.s.lorenzo, h.chain, |h.chain|);
  }

  /** The latest cut is where the oldest pending chain ends. */
  lemma LatestCut(tree: BlockTree, h: History)
    requires Inv(tree, h) && |h.s.removed| > 0 && ForkIndex(h) > 0
    ensures |h.pending| > 0 && LowestCut(h) <= ForkIndex(h) <= |h.chain|
    ensures h.chain[ForkIndex(h) - 1].header.hash == h.s.removed[|h.s.removed| - 1].header.prevBlock
  {
    hide CacheInv, LorenzoInv;
    assert (h.held + h.pending)[|h.held|] == h.pending[0] == h.chain[..ForkIndex(h)];
  }

  /**
    Let Lorenzo have the chain at some moment with the reorg list empty, and let a later connect release the reorg
    opened since, with no failing query or delivery. If the latest cut is the lowest one since then, Lorenzo ends up
    with the whole released branch. If Lorenzo has none of the replacement blocks, it does so only then: in a
    nested reorg the replacement blocks below the latest cut are never submitted, and the release does not attach.
   */
  lemma {:induction false} ReleaseIsCompleteIffLatestCutIsLowest(tree: BlockTree, cfg: Config, start: History,
      steps: seq<Step>, event: BlockEvent, a: ConnectAnswers)
    requires cfg.Valid() && ValidTree(tree) && Inv(tree, start) && |start.s.removed| == 0 && |start.chain| > 0
    requires start.chain[|start.chain| - 1].header.hash in start.s.lorenzo.known
    requires StepsOk(tree, cfg, start, steps) && !Run(cfg, start, steps).1 && OpenThroughout(cfg, start, steps)
    requires StepOk(tree, Run(cfg, start, steps).0.s.lorenzo, Event(event, a))
    requires Releases(cfg, Run(cfg, start, steps).0, event, a)
    requires a.submit.queryFailsAt.None? && |a.submit.deliveries| > |Run(cfg, start, steps).0.s.cache|
    requires forall i | 0 <= i < |a.submit.deliveries| :: a.submit.deliveries[i] == Delivered
    ensures var now := Run(cfg, start, steps).0;
            var e := OnConnected(cfg, now.s, event, a);
            var complete := forall i | 0 <= i < |e.submitted| :: e.submitted[i].header.hash in e.state.lorenzo.known;
            && |now.pending| > 0 && a.block.Some?
            && (ForkIndex(now) == LowestCut(now) ==> complete)
            && (ReplacementsUnknown(now, a.block.value) ==> (complete <==> ForkIndex(now) == LowestCut(now)))
  {
    hide Run, Next, StepsOk, OpenThroughout, StepOk, OnConnected, ValidTree, Inv, Releases, Kept, ReplacementsUnknown,
      ForkIndex, LowestCut;
    StartIsKept(tree, start);
    RunKeeps(tree, cfg, start, start, steps);
    TipMeansAll(tree, start);
    ReleaseFrom(tree, cfg, start, Run(cfg, start, steps).0, event, a);
  }

  /** The same about the state in which the release happens. */
  lemma {:induction false} ReleaseFrom(tree: BlockTree, cfg: Config, start: History, now: History, event: BlockEvent,
                                       a: ConnectAnswers)
    requires cfg.Valid() && ValidTree(tree) && Inv(tree, now) && Kept(start, now)
    requires forall i | 0 <= i < |start.chain| :: start.chain[i].header.hash in start.s.lorenzo.known
    requires StepOk(tree, now.s.lorenzo, Event(event, a)) && Releases(cfg, now, event, a)
    requires a.submit.queryFailsAt.None? && |a.submit.deliveries| > |now.s.cache|
    requires forall i | 0 <= i < |a.submit.deliveries| :: a.submit.deliveries[i] == Delivered
    ensures var e := OnConnected(cfg, now.s, event, a);
            var complete := forall i | 0 <= i < |e.submitted| :: e.submitted[i].header.hash in e.state.lorenzo.known;
            && |now.pending| > 0 && a.block.Some?
            && (ForkIndex(now) == LowestCut(now) ==> complete)
            && (ReplacementsUnknown(now, a.block.value) ==> (complete <==> ForkIndex(now) == LowestCut(now)))
  {
    hide OnConnected, ValidTree, Shortest, Inv, AfterEvent, StepOk;
    ReleaseUnfolds(cfg, now.s, event, a);
    ReleaseReachesLorenzo(tree, cfg, now, event, a);
    ReleaseSubmitsBranch(tree, cfg, now, event, a);
    var f := ForkIndex(now);
    LatestCut(tree, now);
    if f == LowestCut(now) {
      assert now.chain[f - 1] == now.chain[..f][f - 1] == start.chain[..f][f - 1] == start.chain[f - 1];
    }
    FirstSubmitted(tree, cfg, now, event, a);
  }

  /** The first submitted block is the one above the latest cut. */
  lemma {:induction false} FirstSubmitted(tree: BlockTree, cfg: Config, h: History, event: BlockEvent,
                                          a: ConnectAnswers)
    requires cfg.Valid() && ValidTree(tree) && Inv(tree, h) && StepOk(tree, h.s.lorenzo, Event(event, a))
    requires Releases(cfg, h, event, a) && a.block.Some?
    ensures var f, s := ForkIndex(h), OnConnected(cfg, h.s, event, a).submitted;
            0 <= f <= |h.chain| && |s| > 0 && s[0] == (if f < |h.chain| then h.chain[f] else a.block.value)
  {
    hide OnConnected, StepOk, ValidTree, Inv;
    ReleaseUnfolds(cfg, h.s, event, a);
    ReleaseSubmitsBranch(tree, cfg, h, event, a);
    var chain := AfterEvent(h, OnConnected(cfg, h.s, event, a)).chain;
    assert chain == h.chain + [a.block.value];
  }

  lemma StartIsKept(tree: BlockTree, h: History)
    requires Inv(tree, h) && |h.s.removed| == 0
    ensures Kept(h, h)
  {
    ChainIsPending(tree, h);
  }
}
