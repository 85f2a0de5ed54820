/**
  What happens when Lorenzo's tip is on a branch that the reporter has left. With no reorg open the reporter submits
  from right above Lorenzo's height, on its own branch, and that does not attach.
 */
module LostBranch {
  import opened BtcTypes
  import opened BoundedCache
  import opened LorenzoLightClient
  import opened HeaderSubmission
  import opened ReporterSpec
  import opened ReporterRuns
  import opened ReorgTheorems

  /** The reporter's block at the height of Lorenzo's tip is unknown to Lorenzo; no reorg is open. */
  ghost predicate OffBranch(h: History, lorenzoTip: Height) {
    && h.s.removed == []
    && exists j | 0 <= j < |h.chain| ::
         h.chain[j].height == lorenzoTip && h.chain[j].header.hash !in h.s.lorenzo.known
  }

  /** A linked list that starts right above an unknown block of the chain is not accepted at all. */
  lemma {:induction false} NothingAttaches(tree: BlockTree, lc: LightClient, chain: seq<IndexedBlock>, j: nat, max: nat,
                                           answers: SubmitAnswers)
    requires 0 < max && ValidTree(tree) && LorenzoInv(tree, lc)
    requires Linked(chain) && AllIn(tree, chain) && AboveBase(chain, lc)
    requires j + 1 < |chain| && chain[j].header.hash !in lc.known
    ensures ProcessHeaders(lc, chain[j + 1..], max, answers).0 == lc
  {
    hide ProcessHeaders, AncestorClosed, AcceptedOnce;
    var ibs := chain[j + 1..];
    SuffixIsLinked(tree, ibs, chain);
    LinkedHeights(chain);
    BaseIsBelow(tree, lc, ibs);
    assert Attaches(chain[j], chain[j + 1]);
    if ibs[0].header.hash in lc.known {
      KnownUpTo(tree, lc, chain, j + 2);
      assert false;
    }
    var k := ProcessHeadersAccepts(tree, lc, ibs, max, answers);
    assert ibs[0..0] == [];
    AcceptNothing(lc);
  }

  /** Where a submission at this height starts in the chain. */
  lemma {:induction false} TailAtHeight(tree: BlockTree, chain: seq<IndexedBlock>, tail: seq<IndexedBlock>, j: nat)
    requires Linked(chain) && IsSuffix(tail, chain) && |tail| > 0 && j < |chain|
    requires tail[0].height == chain[j].height + 1
    ensures j + 1 < |chain| && tail == chain[j + 1..]
  {
    LinkedHeights(chain);
    var d := |chain| - |tail|;
    assert tail[0] == chain[d];
  }

  /**
    A connect changes nothing at Lorenzo: its submission is refused as a whole. It asks for a bootstrap only for the
    reasons any connect does, or when the cache no longer reaches down to Lorenzo's height.
   */
  lemma {:induction false} ConnectIsRefused(tree: BlockTree, cfg: Config, h: History, event: BlockEvent,
                                            a: ConnectAnswers, lorenzoTip: Height)
    requires cfg.Valid() && ValidTree(tree) && Inv(tree, h) && StepOk(tree, h.s.lorenzo, Event(event, a))
    requires OffBranch(h, lorenzoTip) && event.connected && (a.lorenzoTip.Some? ==> a.lorenzoTip.value == lorenzoTip)
    ensures var (next, panicked) := Next(cfg, h, Event(event, a));
            && !panicked && Inv(tree, next) && OffBranch(next, lorenzoTip)
            && next.s.lorenzo == h.s.lorenzo && h.chain <= next.chain
    ensures var e := OnConnected(cfg, h.s, event, a);
            e.change.Added? && a.lorenzoTip.Some? ==>
              |e.state.cache| > 0
              && (e.reaction.NeedsBootstrap? <==> lorenzoTip + 1 < e.state.cache[0].height)
  {
    hide OnConnected, Extend, Linked, ValidTree, Push, ProcessHeaders, AllIn, ReorgInv, LorenzoInv;
    ConnectCases(cfg, h.s, event, a);
    ConnectKeepsInv(tree, cfg, h, event, a);
    PanicsExactlyWhen(tree, cfg, h, event, a);
    var e := OnConnected(cfg, h.s, event, a);
    var j :| 0 <= j < |h.chain| && h.chain[j].height == lorenzoTip && h.chain[j].header.hash !in h.s.lorenzo.known;
    if e.change.Added? {
      RefusedOrNothing(tree, cfg, h, event, a, lorenzoTip, j);
      var chain := h.chain + [a.block.value];
      assert chain[j] == h.chain[j];
    } else {
      assert AfterEvent(h, e).s == h.s;
      NothingChanged(h, e);
    }
  }

  lemma NothingChanged(h: History, e: Effect)
    requires e.change.Unchanged?
    ensures AfterEvent(h, e).chain == h.chain
  {
  }

  lemma {:induction false} RefusedOrNothing(tree: BlockTree, cfg: Config, h: History, event: BlockEvent,
                                            a: ConnectAnswers, lorenzoTip: Height, j: nat)
    requires cfg.Valid() && ValidTree(tree) && Inv(tree, h) && StepOk(tree, h.s.lorenzo, Event(event, a))
    requires h.s.removed == [] && event.connected && (a.lorenzoTip.Some? ==> a.lorenzoTip.value == lorenzoTip)
    requires j < |h.chain| && h.chain[j].height == lorenzoTip && h.chain[j].header.hash !in h.s.lorenzo.known
    requires OnConnected(cfg, h.s, event, a).change.Added?
    ensures var e := OnConnected(cfg, h.s, event, a);
            && e.state.lorenzo == h.s.lorenzo
            && (a.lorenzoTip.Some? ==>
                  |e.state.cache| > 0 && (e.reaction.NeedsBootstrap? <==> lorenzoTip + 1 < e.state.cache[0].height))
  {
    hide OnConnected, Extend, Linked, ValidTree, Push, ProcessHeaders, AllIn, ReorgInv, LorenzoInv;
    ConnectCases(cfg, h.s, event, a);
    ConnectKeepsInv(tree, cfg, h, event, a);
    var e := OnConnected(cfg, h.s, event, a);
    if a.lorenzoTip.None? {
      NoTipNoSubmission(cfg, h.s, a.block.value, a);
    } else {
      var ib := a.block.value;
      var chain := h.chain + [ib];
      ChainGrows(tree, h, ib);
      CatchUpStartsAboveLorenzosTip(tree, cfg, h, event, a);
      HeightBelowTip(tree, h, ib, j);
      if e.reaction.Handled? {
        TailsNest(e.submitted, e.state.cache, chain);
        TailAtHeight(tree, chain, e.submitted, j);
        SubmittedGoesToLorenzo(cfg, h.s, event, a);
        NothingAttaches(tree, h.s.lorenzo, chain, j, cfg.maxHeadersInMsg, a.submit);
      } else {
        BootstrapRequestSubmitsNothing(cfg, h.s, ib, a);
      }
    }
  }

  /** The new block is higher than every block of the chain. */
  lemma {:induction false} HeightBelowTip(tree: BlockTree, h: History, ib: IndexedBlock, j: nat)
    requires Linked(h.chain + [ib]) && j < |h.chain|
    ensures h.chain[j].height < ib.height
  {
    var chain := h.chain + [ib];
    LinkedHeights(chain);
    assert chain[j] == h.chain[j] && chain[|h.chain|] == ib;
  }

  lemma NoTipNoSubmission(cfg: Config, s: State, ib: IndexedBlock, a: ConnectAnswers)
    requires cfg.Valid() && s.removed == [] && a.lorenzoTip.None?
    ensures Extend(cfg, s, ib, a).state.lorenzo == s.lorenzo
  {
  }

  lemma BootstrapRequestSubmitsNothing(cfg: Config, s: State, ib: IndexedBlock, a: ConnectAnswers)
    requires cfg.Valid() && |Push(s.cache, s.maxEntries, ib)| > 0 && !Extend(cfg, s, ib, a).reaction.Handled?
    ensures Extend(cfg, s, ib, a).state.lorenzo == s.lorenzo
  {
    hide ProcessHeaders, LastBlocks, Push, Work;
  }

  /** Connects only, with Lorenzo's tip reported at this height or not at all. */
  ghost predicate ConnectsAt(steps: seq<Step>, lorenzoTip: Height) {
    forall i | 0 <= i < |steps| ::
      && steps[i].Event? && steps[i].event.connected
      && (steps[i].answers.lorenzoTip.Some? ==> steps[i].answers.lorenzoTip.value == lorenzoTip)
  }

  /**
    Once Lorenzo's tip is on a branch the reporter has left, no number of connects gets anything accepted, whatever
    else is answered: it takes a disconnect, a bootstrap or another relayer.
   */
  lemma {:induction false} ConnectsNeverRecover(tree: BlockTree, cfg: Config, h: History, steps: seq<Step>,
                                                lorenzoTip: Height)
    requires cfg.Valid() && ValidTree(tree) && Inv(tree, h) && OffBranch(h, lorenzoTip)
    requires StepsOk(tree, cfg, h, steps) && ConnectsAt(steps, lorenzoTip)
    ensures var (now, panicked) := Run(cfg, h, steps);
            && !panicked && Inv(tree, now) && OffBranch(now, lorenzoTip)
            && now.s.lorenzo == h.s.lorenzo && h.chain <= now.chain
    decreases |steps|
  {
    hide Next, Inv, StepOk, ValidTree, OffBranch, OnConnected;
    if |steps| > 0 {
      ConnectIsRefused(tree, cfg, h, steps[0].event, steps[0].answers, lorenzoTip);
      assert forall i | 0 <= i < |steps| - 1 :: steps[1..][i] == steps[i + 1];
      ConnectsNeverRecover(tree, cfg, Next(cfg, h, steps[0]).0, steps[1..], lorenzoTip);
    }
  }

  // ---------- how the reporter gets there ----------

  lemma SubmittedOnRelease(tree: BlockTree, cfg: Config, h: History, event: BlockEvent, a: ConnectAnswers)
    requires cfg.Valid() && ValidTree(tree) && Inv(tree, h) && StepOk(tree, h.s.lorenzo, Event(event, a))
    requires Releases(cfg, h, event, a)
    ensures 0 <= ForkIndex(h) <= |h.chain| && a.block.Some?
    ensures OnConnected(cfg, h.s, event, a).submitted == (h.chain + [a.block.value])[ForkIndex(h)..]
  {
    hide Inv, ValidTree, OnConnected, StepOk;
    ReleaseUnfolds(cfg, h.s, event, a);
    ReleaseSubmitsBranch(tree, cfg, h, event, a);
  }

  /** Every block above an unknown block of a linked chain is unknown. */
  lemma {:induction false} UnknownAbove(tree: BlockTree, lc: LightClient, chain: seq<IndexedBlock>, i: nat, j: nat)
    requires ValidTree(tree) && LorenzoInv(tree, lc)
    requires Linked(chain) && AllIn(tree, chain) && AboveBase(chain, lc)
    requires i <= j < |chain| && chain[i].header.hash !in lc.known
    ensures chain[j].header.hash !in lc.known
  {
    if chain[j].header.hash in lc.known {
      KnownUpTo(tree, lc, chain, j + 1);
    }
  }

  /** A release above a block that Lorenzo lacks changes nothing at Lorenzo. */
  lemma {:induction false} MissedRelease(tree: BlockTree, cfg: Config, h: History, event: BlockEvent, a: ConnectAnswers)
    requires cfg.Valid() && ValidTree(tree) && Inv(tree, h) && StepOk(tree, h.s.lorenzo, Event(event, a))
    requires Releases(cfg, h, event, a)
    requires 0 < ForkIndex(h) <= |h.chain| && h.chain[ForkIndex(h) - 1].header.hash !in h.s.lorenzo.known
    ensures var e := OnConnected(cfg, h.s, event, a);
            && a.block.Some? && e.state.lorenzo == h.s.lorenzo && e.state.removed == []
            && AfterEvent(h, e).chain == h.chain + [a.block.value] && Inv(tree, AfterEvent(h, e))
  {
    hide ValidTree, OnConnected, StepOk, ProcessHeaders, Linked, AllIn, ReorgInv, LorenzoInv, LastBlocks, Work, Push;
    var f := ForkIndex(h);
    ReleaseUnfolds(cfg, h.s, event, a);
    SubmittedOnRelease(tree, cfg, h, event, a);
    ConnectKeepsInv(tree, cfg, h, event, a);
    var chain := h.chain + [a.block.value];
    assert chain[f - 1] == h.chain[f - 1];
    NothingAttaches(tree, h.s.lorenzo, chain, f - 1, cfg.maxHeadersInMsg, a.submit);
  }

  /**
    A release above a block that Lorenzo lacks strands the reporter: whatever the height of Lorenzo's tip from that
    block's up to the released one's, no connect gets anything accepted from then on.
   */
  lemma {:induction false} MissedReleaseStrandsTheReporter(tree: BlockTree, cfg: Config, h: History, event: BlockEvent,
                                                           a: ConnectAnswers, lorenzoTip: Height)
    requires cfg.Valid() && ValidTree(tree) && Inv(tree, h) && StepOk(tree, h.s.lorenzo, Event(event, a))
    requires Releases(cfg, h, event, a)
    requires 0 < ForkIndex(h) <= |h.chain| && h.chain[ForkIndex(h) - 1].header.hash !in h.s.lorenzo.known
    requires h.chain[ForkIndex(h) - 1].height <= lorenzoTip <= h.chain[|h.chain| - 1].height + 1
    ensures OffBranch(AfterEvent(h, OnConnected(cfg, h.s, event, a)), lorenzoTip)
  {
    hide ValidTree, OnConnected, StepOk, Linked, AllIn, ReorgInv, LorenzoInv, AfterEvent, Releases;
    var f := ForkIndex(h);
    MissedRelease(tree, cfg, h, event, a);
    var next := AfterEvent(h, OnConnected(cfg, h.s, event, a));
    var chain := next.chain;
    var j := lorenzoTip - chain[0].height;
    AfterEventState(h, OnConnected(cfg, h.s, event, a));
    LinkedHeights(chain);
    assert chain[f - 1] == h.chain[f - 1] && chain[|h.chain| - 1] == h.chain[|h.chain| - 1];
    UnknownAbove(tree, h.s.lorenzo, chain, f - 1, j);
  }

  lemma AfterEventState(h: History, e: Effect)
    ensures AfterEvent(h, e).s == e.state
  {
  }
}
