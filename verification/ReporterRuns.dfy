/**
  The reporter over whole runs. A step is a block event, a bootstrap attempt (at any time, successful or not)
  or another relayer's insertion into Lorenzo, in any order and with any answers from the environment.
 */
module ReporterRuns {
  import opened Prelude
  import opened BtcTypes
  import opened BoundedCache
  import opened BlockQuery
  import opened LorenzoLightClient
  import opened HeaderSubmission
  import opened ReporterSpec

  // ---------- states with their history ----------

  /**
    `chain` is the chain an unbounded cache would hold. `held` and `pending` list the chains held since the
    reorg list was last empty: `held` those before the latest disconnect, `pending` those from then on, the
    current one last.
   */
  datatype History = History(s: State, chain: seq<IndexedBlock>, held: seq<seq<IndexedBlock>>,
                             pending: seq<seq<IndexedBlock>>)

  datatype Step =
    | Event(event: BlockEvent, answers: ConnectAnswers)
    | Boot(boot: BootAnswers)
    | OthersInsert(headers: seq<IndexedBlock>)

  function ChainAfter(chain: seq<IndexedBlock>, change: Change): seq<IndexedBlock> {
    match change
    case Unchanged => chain
    case Added(b) => chain + [b]
    case Removed(_) => if |chain| == 0 then chain else chain[..|chain| - 1]
  }

  function AfterEvent(h: History, e: Effect): History {
    var chain := ChainAfter(h.chain, e.change);
    if |e.state.removed| == 0 then History(e.state, chain, [], [chain])
    else
      match e.change
      case Unchanged => h.(s := e.state)
      case Added(_) => History(e.state, chain, h.held, h.pending + [chain])
      case Removed(_) => History(e.state, chain, h.held + h.pending, [chain])
  }

  function AfterBoot(h: History, boot: BootAnswers, e: BootEffect): History {
    var chain := if boot.synced then e.tail else h.chain;
    History(e.state, chain, [], [chain])
  }

  function AfterOthers(h: History, headers: seq<IndexedBlock>): History {
    h.(s := h.s.(lorenzo := InsertByOthers(h.s.lorenzo, headers)))
  }

  /** The state after one step, and whether the process has panicked. */
  function Next(cfg: Config, h: History, step: Step): (History, bool)
    requires cfg.Valid()
  {
    match step
    case Event(event, a) =>
      var e := OnEvent(cfg, h.s, event, a);
      (AfterEvent(h, e), e.reaction.Panicked?)
    case Boot(boot) =>
      var e := Bootstrap(cfg, h.s, boot);
      (AfterBoot(h, boot, e), e.result.BootPanicked?)
    case OthersInsert(headers) => (AfterOthers(h, headers), false)
  }

  /** Runs the steps one after the other; a panic ends the run. */
  function Run(cfg: Config, h: History, steps: seq<Step>): (History, bool)
    requires cfg.Valid()
    decreases |steps|
  {
    if |steps| == 0 then (h, false)
    else
      var (next, panicked) := Next(cfg, h, steps[0]);
      if panicked then (next, true) else Run(cfg, next, steps[1..])
  }

  lemma {:induction false} RunConcat(cfg: Config, h: History, a: seq<Step>, b: seq<Step>)
    requires cfg.Valid() && !Run(cfg, h, a).1
    ensures Run(cfg, h, a + b) == Run(cfg, Run(cfg, h, a).0, b)
    decreases |a|
  {
    hide Next;
    if |a| == 0 {
      assert a + b == b;
    } else {
      assert (a + b)[1..] == a[1..] + b;
      RunConcat(cfg, Next(cfg, h, a[0]).0, a[1..], b);
    }
  }

  /** A run that has panicked stays where it is. */
  lemma {:induction false} PanicEndsRun(cfg: Config, h: History, a: seq<Step>, b: seq<Step>)
    requires cfg.Valid() && Run(cfg, h, a).1
    ensures Run(cfg, h, a + b) == Run(cfg, h, a)
    decreases |a|
  {
    hide Next;
    assert (a + b)[0] == a[0] && (a + b)[1..] == a[1..] + b;
    if !Next(cfg, h, a[0]).1 {
      PanicEndsRun(cfg, Next(cfg, h, a[0]).0, a[1..], b);
    }
  }

  // ---------- what is assumed of the environment ----------

  /** Nodes answer with blocks of the tree and by the hash asked for. */
  ghost predicate StepOk(tree: BlockTree, lc: LightClient, step: Step) {
    match step
    case Event(event, a) =>
      a.block.Some? ==> Contains(tree, a.block.value) && a.block.value.header.hash == event.hash
    case Boot(boot) =>
      && ViewOf(boot.node, tree)
      && (boot.best.Some? ==> Contains(tree, boot.best.value))
      && (boot.first.Some? ==> boot.first.value.base == lc.base.height)
    case OthersInsert(headers) =>
      Linked(headers) && AllIn(tree, headers) && Acceptable(lc, headers)
  }

  ghost predicate StepsOk(tree: BlockTree, cfg: Config, h: History, steps: seq<Step>)
    requires cfg.Valid()
    decreases |steps|
  {
    |steps| > 0 ==>
      && StepOk(tree, h.s.lorenzo, steps[0])
      && StepsOk(tree, cfg, Next(cfg, h, steps[0]).0, steps[1..])
  }

  lemma {:induction false} NoSteps(tree: BlockTree, cfg: Config, h: History)
    requires cfg.Valid()
    ensures Run(cfg, h, []) == (h, false) && StepsOk(tree, cfg, h, [])
  {
  }

  lemma {:induction false} FirstStep(tree: BlockTree, cfg: Config, h: History, s: seq<Step>, next: History)
    requires cfg.Valid() && |s| > 0 && Next(cfg, h, s[0]) == (next, false) && StepOk(tree, h.s.lorenzo, s[0])
    ensures Run(cfg, h, s) == Run(cfg, next, s[1..])
    ensures StepsOk(tree, cfg, next, s[1..]) ==> StepsOk(tree, cfg, h, s)
  {
    hide Next, StepOk;
  }

  lemma {:induction false} StepsOkConcat(tree: BlockTree, cfg: Config, h: History, a: seq<Step>, b: seq<Step>)
    requires cfg.Valid() && !Run(cfg, h, a).1
    requires StepsOk(tree, cfg, h, a) && StepsOk(tree, cfg, Run(cfg, h, a).0, b)
    ensures StepsOk(tree, cfg, h, a + b)
    decreases |a|
  {
    hide Next, StepOk;
    if |a| == 0 {
      assert a + b == b;
    } else {
      assert (a + b)[1..] == a[1..] + b;
      StepsOkConcat(tree, cfg, Next(cfg, h, a[0]).0, a[1..], b);
    }
  }

  /** The reporter starts with an empty cache and nothing removed. */
  ghost predicate Initial(tree: BlockTree, h: History) {
    && h.s.cache == [] && 0 < h.s.maxEntries
    && h.s.removed == [] && h.s.removedWork == 0
    && h.chain == [] && h.held == [] && h.pending == [[]]
    && LorenzoInv(tree, h.s.lorenzo)
  }

  // ---------- the invariant ----------

  ghost predicate LorenzoInv(tree: BlockTree, lc: LightClient) {
    && AncestorClosed(tree, lc)
    && AcceptedOnce(lc)
    && Contains(tree, lc.base)
  }

  ghost predicate AboveBase(s: seq<IndexedBlock>, lc: LightClient) {
    |s| > 0 ==> lc.base.height <= s[0].height
  }

  /** The bounded cache holds the newest part of a hash-linked chain. */
  ghost predicate CacheInv(tree: BlockTree, h: History) {
    && 0 < h.s.maxEntries
    && |h.s.cache| <= h.s.maxEntries
    && Linked(h.chain)
    && AllIn(tree, h.chain)
    && AboveBase(h.chain, h.s.lorenzo)
    && IsSuffix(h.s.cache, h.chain)
  }

  /** Where the chain had been cut back to by the latest disconnect. */
  function ForkIndex(h: History): int {
    |h.chain| + 1 - |h.pending|
  }

  ghost predicate SharesPrefix(a: seq<IndexedBlock>, b: seq<IndexedBlock>, p: nat) {
    p <= |a| && p <= |b| && a[..p] == b[..p]
  }

  /** `c` has at most `work` above a prefix that it shares with `chain` and that ends at or below `fork`. */
  ghost predicate Outweighed(c: seq<IndexedBlock>, chain: seq<IndexedBlock>, fork: nat, work: nat) {
    exists p: nat :: SharesPrefix(c, chain, p) && p <= fork && Work(c[p..]) <= work
  }

  /** The chains held from the latest disconnect on are prefixes of the current one. */
  ghost predicate PendingArePrefixes(h: History) {
    && 0 < |h.pending| && 0 <= ForkIndex(h)
    && forall i | 0 <= i < |h.pending| :: h.pending[i] == h.chain[..ForkIndex(h) + i]
  }

  /** While a reorg is open. */
  ghost predicate ReorgOpen(h: History)
    requires |h.s.removed| > 0
  {
    && PendingArePrefixes(h)
    && (ForkIndex(h) == 0 ==> |h.pending| == 1)
    && (ForkIndex(h) > 0 ==> Attaches(h.chain[ForkIndex(h) - 1], h.s.removed[|h.s.removed| - 1]))
    && (|h.s.cache| > 0 ==> |h.s.cache| >= h.s.maxEntries || |h.s.cache| >= |h.pending|)
    && Work(h.chain[ForkIndex(h)..]) <= h.s.removedWork
    && (forall i | 0 <= i < |h.held| :: Outweighed(h.held[i], h.chain, ForkIndex(h), h.s.removedWork))
  }

  ghost predicate ReorgInv(h: History)
  {
    && h.s.removedWork == Work(h.s.removed)
    && if |h.s.removed| == 0 then h.held == [] && h.pending == [h.chain] else ReorgOpen(h)
  }

  ghost predicate Inv(tree: BlockTree, h: History) {
    CacheInv(tree, h) && ReorgInv(h) && LorenzoInv(tree, h.s.lorenzo)
  }

  // ---------- Lorenzo's side ----------

  /** Submitting any part of the chain keeps Lorenzo's headers ancestor-closed and free of duplicates. */
  lemma SubmissionKeepsLorenzo(tree: BlockTree, lc: LightClient, headers: seq<IndexedBlock>, max: nat,
      answers: SubmitAnswers)
    requires 0 < max && ValidTree(tree) && LorenzoInv(tree, lc)
    requires Linked(headers) && AllIn(tree, headers) && AboveBase(headers, lc)
    ensures LorenzoInv(tree, ProcessHeaders(lc, headers, max, answers).0)
    ensures ProcessHeaders(lc, headers, max, answers).0.base == lc.base
    ensures BaseNotInside(lc, headers)
  {
    BaseIsBelow(tree, lc, headers);
    ProcessHeadersKeepsLorenzoSound(tree, lc, headers, max, answers);
  }

  lemma OthersKeepInv(tree: BlockTree, h: History, headers: seq<IndexedBlock>)
    requires ValidTree(tree) && Inv(tree, h) && StepOk(tree, h.s.lorenzo, OthersInsert(headers))
    ensures Inv(tree, AfterOthers(h, headers))
  {
    var lorenzo := AfterOthers(h, headers).s.lorenzo;
    OthersKeepSound(tree, h.s.lorenzo, headers);
    NewLorenzoKeepsInv(tree, h, lorenzo);
  }

  lemma NewLorenzoKeepsInv(tree: BlockTree, h: History, lorenzo: LightClient)
    requires Inv(tree, h) && LorenzoInv(tree, lorenzo) && lorenzo.base == h.s.lorenzo.base
    ensures Inv(tree, h.(s := h.s.(lorenzo := lorenzo)))
  {
    hide Linked, AllIn, LorenzoInv;
  }

  /** Knowing one block of a linked list means knowing all before it. */
  lemma {:induction false} KnownUpTo(tree: BlockTree, lc: LightClient, s: seq<IndexedBlock>, n: nat)
    requires ValidTree(tree) && LorenzoInv(tree, lc) && Linked(s) && AllIn(tree, s)
    requires 0 < n <= |s| && lc.base.height <= s[0].height && s[n - 1].header.hash in lc.known
    ensures forall i | 0 <= i < n :: s[i].header.hash in lc.known
  {
    hide AcceptedOnce;
    BaseIsBelow(tree, lc, s);
    forall i | 0 <= i < n ensures s[i].header.hash in lc.known {
      KnownBlocksFormPrefix(tree, lc, s, i, n - 1);
    }
  }

  // ---------- connecting a block ----------

  lemma ChainGrows(tree: BlockTree, h: History, ib: IndexedBlock)
    requires ValidTree(tree) && CacheInv(tree, h) && Contains(tree, ib)
    requires |h.s.cache| > 0 && ib.header.prevBlock == h.s.cache[|h.s.cache| - 1].header.hash
    ensures Linked(h.chain + [ib]) && AllIn(tree, h.chain + [ib])
    ensures IsSuffix(Push(h.s.cache, h.s.maxEntries, ib), h.chain + [ib])
    ensures |Push(h.s.cache, h.s.maxEntries, ib)|
         == if |h.s.cache| == h.s.maxEntries then h.s.maxEntries else |h.s.cache| + 1
  {
    var tip := h.chain[|h.chain| - 1];
    assert tip == h.s.cache[|h.s.cache| - 1];
    assert Contains(tree, tip);
    ParentIsOneLower(tree, tip, ib);
    var longer := h.chain + [ib];
    forall i | 0 < i < |longer| ensures Attaches(longer[i - 1], longer[i]) {
      if i < |h.chain| {
        assert Attaches(h.chain[i - 1], h.chain[i]);
      }
    }
  }

  lemma SuffixIsLinked(tree: BlockTree, s: seq<IndexedBlock>, whole: seq<IndexedBlock>)
    requires IsSuffix(s, whole) && Linked(whole) && AllIn(tree, whole)
    ensures Linked(s) && AllIn(tree, s)
  {
    LinkedSlice(whole, |whole| - |s|, |whole|);
    assert whole[|whole| - |s|..|whole|] == s;
    assert forall i | 0 <= i < |s| :: s[i] == whole[|whole| - |s| + i];
  }

  /**
    With a reorg open, looking up the branch that replaces the removed blocks fails just when more blocks
    have been connected since the latest disconnect than the cache can hold.
   */
  lemma BranchLookup(tree: BlockTree, h: History, ib: IndexedBlock)
    requires ValidTree(tree) && CacheInv(tree, h) && |h.s.removed| > 0 && ReorgOpen(h) && Contains(tree, ib)
    requires |h.s.cache| > 0 && ib.header.prevBlock == h.s.cache[|h.s.cache| - 1].header.hash
    ensures var cache := Push(h.s.cache, h.s.maxEntries, ib);
            var stop := ToUint64(h.s.removed[|h.s.removed| - 1].height);
            && 0 < ForkIndex(h) <= |h.chain|
            && |cache| > 0
            && (LastBlocks(cache, stop).Some? <==> |h.pending| <= h.s.maxEntries)
            && (LastBlocks(cache, stop).Some? ==> LastBlocks(cache, stop).value == (h.chain + [ib])[ForkIndex(h)..])
  {
    hide Push, LastBlocks, LorenzoInv, Outweighed, Work, ValidTree, AboveBase;
    var chain := h.chain + [ib];
    var fork := ForkIndex(h);
    var last := h.s.removed[|h.s.removed| - 1];
    ChainGrows(tree, h, ib);
    assert chain[fork - 1] == h.chain[fork - 1];
    BranchPosition(tree, Push(h.s.cache, h.s.maxEntries, ib), chain, fork, last);
  }

  /** Looking up the height of a block that attaches to `chain[fork - 1]` yields the chain from `fork` on. */
  lemma BranchPosition(tree: BlockTree, cache: seq<IndexedBlock>, chain: seq<IndexedBlock>, fork: nat,
      last: IndexedBlock)
    requires ValidTree(tree) && Linked(chain) && AllIn(tree, chain)
    requires IsSuffix(cache, chain) && |cache| > 0
    requires 0 < fork < |chain| && Attaches(chain[fork - 1], last)
    ensures LastBlocks(cache,
        ToUint64(last.height)) == (if |chain| - fork <= |cache| then Some(chain[fork..]) else None)
  {
    hide LastBlocks;
    var d := |chain| - |cache|;
    SuffixIsLinked(tree, cache, chain);
    LinkedHeights(chain);
    LinkedHeights(cache);
    assert Contains(tree, chain[0]) && Contains(tree, cache[0]);
    assert cache[0] == chain[d];
    LastBlocksOnChain(cache, last.height);
    if fork >= d {
      SuffixOfSuffix(chain, d, fork);
    }
  }

  lemma OutweighedStays(c: seq<IndexedBlock>, chain: seq<IndexedBlock>, ib: IndexedBlock, fork: nat, work: nat)
    requires fork <= |chain| && Outweighed(c, chain, fork, work)
    ensures Outweighed(c, chain + [ib], fork, work)
  {
    var p: nat :| SharesPrefix(c, chain, p) && p <= fork && Work(c[p..]) <= work;
    assert (chain + [ib])[..p] == chain[..p];
    assert SharesPrefix(c, chain + [ib], p);
  }

  /** The invariant after `btcCache.Add`, when the reorg stays open. */
  lemma ReorgStaysOpen(tree: BlockTree, h: History, ib: IndexedBlock)
    requires ValidTree(tree) && CacheInv(tree, h) && |h.s.removed| > 0 && ReorgOpen(h) && Contains(tree, ib)
    requires |h.s.cache| > 0 && ib.header.prevBlock == h.s.cache[|h.s.cache| - 1].header.hash
    requires Work((h.chain + [ib])[ForkIndex(h)..]) <= h.s.removedWork
    ensures ReorgOpen(History(h.s.(cache := Push(h.s.cache, h.s.maxEntries, ib)), h.chain + [ib], h.held,
                              h.pending + [h.chain + [ib]]))
  {
    hide Push, LorenzoInv, Outweighed, ValidTree, Linked, AllIn, LastBlocks, Attaches;
    var chain := h.chain + [ib];
    var fork := ForkIndex(h);
    BranchLookup(tree, h, ib);
    ChainGrows(tree, h, ib);
    assert chain[fork - 1] == h.chain[fork - 1];
    PrefixesGrow(h, ib);
    forall i | 0 <= i < |h.held| ensures Outweighed(h.held[i], chain, fork, h.s.removedWork) {
      OutweighedStays(h.held[i], h.chain, ib, fork, h.s.removedWork);
    }
  }

  lemma PrefixesGrow(h: History, ib: IndexedBlock)
    requires PendingArePrefixes(h)
    ensures PendingArePrefixes(h.(chain := h.chain + [ib], pending := h.pending + [h.chain + [ib]]))
  {
    var next := h.(chain := h.chain + [ib], pending := h.pending + [h.chain + [ib]]);
    var fork := ForkIndex(h);
    forall i | 0 <= i < |next.pending| ensures next.pending[i] == next.chain[..fork + i] {
      if i < |h.pending| {
        assert next.pending[i] == h.chain[..fork + i] == next.chain[..fork + i];
      }
    }
  }

  /** What every handled connect submits: a hash-linked run of blocks that ends at the tip of the cache. */
  ghost predicate IsCacheTail(headers: seq<IndexedBlock>, cache: seq<IndexedBlock>) {
    |headers| > 0 && IsSuffix(headers, cache) && Linked(headers)
  }

  /** After an extension that leaves no block on the reorg list. */
  lemma ClosedInv(tree: BlockTree, h: History, ib: IndexedBlock, lorenzo: LightClient)
    requires ValidTree(tree) && CacheInv(tree, h) && Contains(tree, ib)
    requires |h.s.cache| > 0 && ib.header.prevBlock == h.s.cache[|h.s.cache| - 1].header.hash
    requires LorenzoInv(tree, lorenzo) && lorenzo.base == h.s.lorenzo.base
    ensures var chain := h.chain + [ib];
            Inv(tree, History(State(Push(h.s.cache, h.s.maxEntries, ib), h.s.maxEntries, [], 0, lorenzo), chain, [],
                [chain]))
  {
    ChainGrows(tree, h, ib);
  }

  /** After an extension that does not yet outweigh the removed blocks. */
  lemma OpenInv(tree: BlockTree, h: History, ib: IndexedBlock)
    requires ValidTree(tree) && Inv(tree, h) && |h.s.removed| > 0 && Contains(tree, ib)
    requires |h.s.cache| > 0 && ib.header.prevBlock == h.s.cache[|h.s.cache| - 1].header.hash
    requires Work((h.chain + [ib])[ForkIndex(h)..]) <= h.s.removedWork
    ensures var chain := h.chain + [ib];
            Inv(tree, History(h.s.(cache := Push(h.s.cache, h.s.maxEntries, ib)), chain, h.held, h.pending + [chain]))
  {
    ChainGrows(tree, h, ib);
    ReorgStaysOpen(tree, h, ib);
  }

  /** Any tail of the chain may be submitted. */
  lemma TailSubmission(tree: BlockTree, cfg: Config, h: History, ib: IndexedBlock, t: State,
                       headers: seq<IndexedBlock>, a: ConnectAnswers)
    requires cfg.Valid() && ValidTree(tree) && Inv(tree, h) && Contains(tree, ib)
    requires |h.s.cache| > 0 && ib.header.prevBlock == h.s.cache[|h.s.cache| - 1].header.hash
    requires t == State(Push(h.s.cache, h.s.maxEntries, ib), h.s.maxEntries, [], 0, h.s.lorenzo)
    requires IsCacheTail(headers, t.cache)
    ensures Inv(tree, AfterEvent(h, Submit(cfg, t, ib, headers, a)))
  {
    var chain := h.chain + [ib];
    ChainGrows(tree, h, ib);
    TailsNest(headers, t.cache, chain);
    SuffixIsLinked(tree, headers, chain);
    TailAboveBase(headers, chain, h.s.lorenzo);
    SubmissionKeepsLorenzo(tree, h.s.lorenzo, headers, cfg.maxHeadersInMsg, a.submit);
    var lorenzo := ProcessHeaders(h.s.lorenzo, headers, cfg.maxHeadersInMsg, a.submit).0;
    ClosedInv(tree, h, ib, lorenzo);
  }

  lemma ExtendDuringReorg(tree: BlockTree, cfg: Config, h: History, ib: IndexedBlock, a: ConnectAnswers)
    requires cfg.Valid() && ValidTree(tree) && Inv(tree, h) && Contains(tree, ib) && |h.s.removed| > 0
    requires |h.s.cache| > 0 && ib.header.prevBlock == h.s.cache[|h.s.cache| - 1].header.hash
    ensures var e := Extend(cfg, h.s, ib, a);
            && (e.reaction.Panicked? <==> |h.pending| > h.s.maxEntries)
            && (e.submitted != [] ==> IsCacheTail(e.submitted, e.state.cache))
            && (!e.reaction.Panicked? ==> Inv(tree, AfterEvent(h, e)))
  {
    hide Push, NonDecreasing, LastBlocks, CacheInv, ReorgOpen, LorenzoInv, Work, ProcessHeaders, Linked, ValidTree;
    var cache := Push(h.s.cache, h.s.maxEntries, ib);
    var e := Extend(cfg, h.s, ib, a);
    BranchLookup(tree, h, ib);
    if |h.pending| <= h.s.maxEntries {
      var branch := (h.chain + [ib])[ForkIndex(h)..];
      if Work(branch) > h.s.removedWork {
        ReleasedBranchIsCacheTail(tree, h, ib);
        var t := State(cache, h.s.maxEntries, [], 0, h.s.lorenzo);
        assert e == Submit(cfg, t, ib, branch, a);
        TailSubmission(tree, cfg, h, ib, t, branch, a);
      } else {
        OpenInv(tree, h, ib);
        assert e == Effect(h.s.(cache := cache), Handled, Added(ib), []);
      }
    } else {
      assert e == Effect(h.s.(cache := cache), Panicked, Added(ib), []);
    }
  }

  lemma ReleasedBranchIsCacheTail(tree: BlockTree, h: History, ib: IndexedBlock)
    requires ValidTree(tree) && Inv(tree, h) && Contains(tree, ib) && |h.s.removed| > 0
    requires |h.s.cache| > 0 && ib.header.prevBlock == h.s.cache[|h.s.cache| - 1].header.hash
    requires |h.pending| <= h.s.maxEntries
    ensures 0 <= ForkIndex(h) <= |h.chain|
    ensures IsCacheTail((h.chain + [ib])[ForkIndex(h)..], Push(h.s.cache, h.s.maxEntries, ib))
  {
    var chain := h.chain + [ib];
    var branch := chain[ForkIndex(h)..];
    ChainGrows(tree, h, ib);
    SuffixIsLinked(tree, branch, chain);
    TailsNest(branch, Push(h.s.cache, h.s.maxEntries, ib), chain);
  }

  lemma ExtendOutsideReorg(tree: BlockTree, cfg: Config, h: History, ib: IndexedBlock, a: ConnectAnswers)
    requires cfg.Valid() && ValidTree(tree) && Inv(tree, h) && Contains(tree, ib) && |h.s.removed| == 0
    requires |h.s.cache| > 0 && ib.header.prevBlock == h.s.cache[|h.s.cache| - 1].header.hash
    ensures var e := Extend(cfg, h.s, ib, a);
            && !e.reaction.Panicked?
            && (e.submitted != [] ==> IsCacheTail(e.submitted, e.state.cache))
            && Inv(tree, AfterEvent(h, e))
  {
    var cache := Push(h.s.cache, h.s.maxEntries, ib);
    var e := Extend(cfg, h.s, ib, a);
    ChainGrows(tree, h, ib);
    SuffixIsLinked(tree, cache, h.chain + [ib]);
    assert 0 < ib.height by {
      var tip := h.s.cache[|h.s.cache| - 1];
      assert Contains(tree, tip);
      ParentIsOneLower(tree, tip, ib);
    }
    if a.lorenzoTip.Some? {
      CatchUpBatch(tree, cfg, h.s, ib, a);
    }
    if e.submitted == [] {
      ClosedInv(tree, h, ib, h.s.lorenzo);
    } else {
      TailSubmission(tree, cfg, h, ib, State(cache, h.s.maxEntries, [], 0, h.s.lorenzo), e.submitted, a);
    }
  }

  lemma TailsNest(s: seq<IndexedBlock>, mid: seq<IndexedBlock>, whole: seq<IndexedBlock>)
    requires IsSuffix(mid, whole)
    ensures IsSuffix(s, mid) ==> IsSuffix(s, whole)
    ensures IsSuffix(s, whole) && |s| <= |mid| ==> IsSuffix(s, mid)
  {
  }

  lemma TailAboveBase(s: seq<IndexedBlock>, whole: seq<IndexedBlock>, lc: LightClient)
    requires Linked(whole) && IsSuffix(s, whole) && AboveBase(whole, lc)
    ensures AboveBase(s, lc)
  {
    if |s| > 0 {
      LinkedHeights(whole);
      assert s[0] == whole[|whole| - |s|];
    }
  }

  /** With no reorg open the batch is the new block, or everything above Lorenzo's tip. */
  lemma CatchUpBatch(tree: BlockTree, cfg: Config, s: State, ib: IndexedBlock, a: ConnectAnswers)
    requires cfg.Valid() && ValidTree(tree) && |s.removed| == 0 && a.lorenzoTip.Some?
    requires Linked(Push(s.cache, s.maxEntries, ib)) && AllIn(tree, Push(s.cache, s.maxEntries, ib))
    requires 0 < ib.height
    ensures var e := Extend(cfg, s, ib, a);
            var cache := Push(s.cache, s.maxEntries, ib);
            && (e.submitted == [] ==> e == Effect(s.(cache := cache), NeedsBootstrap, Added(ib), []))
            && (e.submitted != [] ==> IsCacheTail(e.submitted, cache) && e == Submit(cfg, s.(cache := cache), ib,
                e.submitted, a))
            && (e.submitted != [] && |e.submitted| > 1 ==> e.submitted[0].height == a.lorenzoTip.value + 1)
  {
    hide ProcessHeaders, LastBlocks, Push, Linked, ValidTree;
    var cache := Push(s.cache, s.maxEntries, ib);
    PushEndsWith(s.cache, s.maxEntries, ib);
    FirstHeight(tree, cache);
    if a.lorenzoTip.value < ToUint64(Pred32(ib.height)) {
      LastBlocksOnChain(cache, a.lorenzoTip.value + 1);
    } else {
      OneBlockTail(cache);
    }
  }

  lemma PushEndsWith(s: seq<IndexedBlock>, maxEntries: nat, ib: IndexedBlock)
    ensures var t := Push(s, maxEntries, ib); |t| > 0 && t[|t| - 1] == ib
  {
  }

  lemma FirstHeight(tree: BlockTree, s: seq<IndexedBlock>)
    requires ValidTree(tree) && AllIn(tree, s) && |s| > 0
    ensures 0 <= s[0].height
  {
    assert Contains(tree, s[0]);
  }

  lemma OneBlockTail(s: seq<IndexedBlock>)
    requires |s| > 0
    ensures Linked([s[|s| - 1]]) && IsSuffix([s[|s| - 1]], s)
  {
  }

  // ---------- disconnecting a block ----------

  lemma OutweighedAfterRemoval(c: seq<IndexedBlock>, chain: seq<IndexedBlock>, fork: nat, work: nat)
    requires 0 < |chain| && fork <= |chain|
    requires Outweighed(c, chain, fork, work)
    ensures Outweighed(c, chain[..|chain| - 1], |chain| - 1, work + chain[|chain| - 1].header.work)
  {
    var p: nat :| SharesPrefix(c, chain, p) && p <= fork && Work(c[p..]) <= work;
    var shorter := chain[..|chain| - 1];
    var tip := chain[|chain| - 1];
    if p < |chain| {
      assert shorter[..p] == chain[..p];
      assert SharesPrefix(c, shorter, p);
    } else {
      var q := p - 1;
      assert c[q] == c[..p][q] == chain[q] == tip;
      assert c[..q] == c[..p][..q] == shorter[..q];
      assert c[q..] == [tip] + c[p..];
      WorkConcat([tip], c[p..]);
      assert [tip][..0] == [] && Work([tip]) == tip.header.work;
      assert SharesPrefix(c, shorter, q);
    }
  }

  lemma DisconnectKeepsInv(tree: BlockTree, h: History, event: BlockEvent)
    requires ValidTree(tree) && Inv(tree, h)
    ensures Inv(tree, AfterEvent(h, OnDisconnected(h.s, event)))
  {
    hide CacheInv, ReorgOpen, LorenzoInv, ValidTree;
    if OnDisconnected(h.s, event).change.Removed? {
      assert |h.s.cache| > 0;
      RemovalKeepsInv(tree, h);
    }
  }

  /** The state after `RemoveLast`. */
  function WithoutTip(h: History): History
    requires |h.s.cache| > 0 && |h.chain| > 0
  {
    var tip := h.s.cache[|h.s.cache| - 1];
    var s := h.s.(cache := h.s.cache[..|h.s.cache| - 1], removed := h.s.removed + [tip],
                  removedWork := h.s.removedWork + tip.header.work);
    var chain := h.chain[..|h.chain| - 1];
    History(s, chain, h.held + h.pending, [chain])
  }

  lemma RemovalKeepsCache(tree: BlockTree, h: History)
    requires CacheInv(tree, h) && |h.s.cache| > 0
    ensures |h.chain| > 0 && h.s.cache[|h.s.cache| - 1] == h.chain[|h.chain| - 1]
    ensures CacheInv(tree, WithoutTip(h))
    ensures |h.chain| > 1 ==> Attaches(h.chain[|h.chain| - 2], h.chain[|h.chain| - 1])
  {
    var n := |h.chain| - 1;
    LinkedSlice(h.chain, 0, n);
    assert h.chain[0..n] == h.chain[..n];
  }

  lemma RemovalOpensReorg(tree: BlockTree, h: History)
    requires CacheInv(tree, h) && ReorgInv(h) && |h.s.cache| > 0
    ensures |h.chain| > 0 && ReorgInv(WithoutTip(h))
  {
    hide Outweighed, ReorgInv, Linked, AllIn;
    RemovalKeepsCache(tree, h);
    var n := |h.chain| - 1;
    var tip := h.chain[n];
    var next := WithoutTip(h);
    forall i | 0 <= i < |next.held| ensures Outweighed(next.held[i], next.chain, n, next.s.removedWork) {
      EarlierChainsStayOutweighed(h, i);
    }
    OnlyCurrentPending(next);
    WorkGrows(h, tip);
    OpenedByRemoval(next);
  }

  lemma WorkGrows(h: History, tip: IndexedBlock)
    requires ReorgInv(h)
    ensures h.s.removedWork + tip.header.work == Work(h.s.removed + [tip])
  {
    assert (h.s.removed + [tip])[..|h.s.removed|] == h.s.removed;
  }

  lemma OpenedByRemoval(next: History)
    requires |next.s.removed| > 0 && next.pending == [next.chain]
    requires next.s.removedWork == Work(next.s.removed)
    requires |next.chain| > 0 ==> Attaches(next.chain[|next.chain| - 1], next.s.removed[|next.s.removed| - 1])
    requires forall i | 0 <= i < |next.held| :: Outweighed(next.held[i], next.chain, |next.chain|, next.s.removedWork)
    ensures ReorgInv(next)
  {
    hide Outweighed, PendingArePrefixes;
    OnlyCurrentPending(next);
  }

  lemma RemovalKeepsInv(tree: BlockTree, h: History)
    requires Inv(tree, h) && |h.s.cache| > 0
    ensures |h.chain| > 0 && Inv(tree, WithoutTip(h))
    ensures h.chain == WithoutTip(h).chain + [h.s.cache[|h.s.cache| - 1]]
  {
    hide CacheInv, ReorgInv, LorenzoInv;
    RemovalKeepsCache(tree, h);
    RemovalOpensReorg(tree, h);
  }

  lemma OnlyCurrentPending(h: History)
    requires h.pending == [h.chain]
    ensures PendingArePrefixes(h) && ForkIndex(h) == |h.chain| && h.chain[|h.chain|..] == []
  {
  }

  lemma EarlierChainsStayOutweighed(h: History, i: nat)
    requires ReorgInv(h) && |h.chain| > 0 && i < |h.held + h.pending|
    ensures Outweighed((h.held + h.pending)[i], h.chain[..|h.chain| - 1], |h.chain| - 1,
                       h.s.removedWork + h.chain[|h.chain| - 1].header.work)
  {
    var c := (h.held + h.pending)[i];
    if i < |h.held| {
      OutweighedAfterRemoval(c, h.chain, ForkIndex(h), h.s.removedWork);
    } else {
      var m := |c|;
      if |h.s.removed| > 0 {
        assert c == h.chain[..ForkIndex(h) + (i - |h.held|)];
      }
      assert c == h.chain[..m];
      assert c[m..] == [];
      assert SharesPrefix(c, h.chain, m);
      assert Outweighed(c, h.chain, |h.chain|, h.s.removedWork);
      OutweighedAfterRemoval(c, h.chain, |h.chain|, h.s.removedWork);
    }
  }

  // ---------- bootstrapping ----------

  /** What a bootstrap attempt leaves behind once `tail` is in the cache. */
  ghost predicate AfterInit(cfg: Config, s: State, tail: seq<IndexedBlock>, e: BootEffect, submit: SubmitAnswers)
    requires cfg.Valid()
  {
    && e.tail == tail
    && (e.result.Booted? ==> 0 < cfg.k + cfg.w && e.submitted != [])
    && e.state == State(if e.result.Booted? then TrimTo(tail, cfg.k + cfg.w) else tail,
                        if e.result.Booted? then cfg.k + cfg.w else s.maxEntries,
                        [], 0, e.state.lorenzo)
    && (e.submitted == [] ==> e.state.lorenzo == s.lorenzo)
    && (e.submitted != [] ==>
          && e.state.lorenzo == ProcessHeaders(s.lorenzo, e.submitted, cfg.maxHeadersInMsg, submit).0
          && exists i, j | 0 <= i < j <= |tail| :: e.submitted == tail[i..j])
  }

  lemma SyncFromCases(cfg: Config, s: State, start: Uint64, boot: BootAnswers)
    requires cfg.Valid() && |s.cache| > 0 && s.removed == [] && s.removedWork == 0
    ensures AfterInit(cfg, s, s.cache, SyncFrom(cfg, s, start, boot), boot.submit)
  {
    var e := SyncFrom(cfg, s, start, boot);
    if LastBlocks(s.cache, start).Some? {
      var i := LastIndexAt(s.cache, ToInt32(start));
      var ibs := s.cache[i..];
      if |ibs| > cfg.delayBlocks {
        var j := |s.cache| - cfg.delayBlocks;
        assert ibs[..|ibs| - cfg.delayBlocks] == s.cache[i..j];
        assert e.submitted == s.cache[i..j];
      }
    }
  }

  lemma CheckConsistencyUnfolds(cfg: Config, s: State, boot: BootAnswers)
    requires cfg.Valid() && |s.cache| > 0
    ensures var e := CheckConsistency(cfg, s, boot);
            || (e.state == s && e.tail == s.cache && e.submitted == [] && !e.result.Booted?)
            || (boot.second.Some? && e == SyncFrom(cfg, s, ConsistencyHeightOf(cfg, boot.second.value) + 1, boot))
  {
    hide SyncFrom, FindAt, ConsistencyHeightOf;
  }

  lemma CheckConsistencyCases(cfg: Config, s: State, boot: BootAnswers)
    requires cfg.Valid() && |s.cache| > 0 && s.removed == [] && s.removedWork == 0
    ensures AfterInit(cfg, s, s.cache, CheckConsistency(cfg, s, boot), boot.submit)
  {
    hide CheckConsistency, SyncFrom, AfterInit, ProcessHeaders, FindAt, TrimTo, LastBlocks;
    var e := CheckConsistency(cfg, s, boot);
    CheckConsistencyUnfolds(cfg, s, boot);
    if e.state == s && e.tail == s.cache && e.submitted == [] && !e.result.Booted? {
      NothingSubmitted(cfg, s, e, boot.submit);
    } else {
      SyncFromCases(cfg, s, ConsistencyHeightOf(cfg, boot.second.value) + 1, boot);
    }
  }

  lemma NothingSubmitted(cfg: Config, s: State, e: BootEffect, submit: SubmitAnswers)
    requires cfg.Valid() && s.removed == [] && s.removedWork == 0
    requires e.state == s && e.tail == s.cache && e.submitted == [] && !e.result.Booted?
    ensures AfterInit(cfg, s, s.cache, e, submit)
  {
    hide ProcessHeaders, TrimTo;
  }

  /** An attempt fails before it has a chain, or goes on with the chain that it fetched. */
  lemma BootCases(cfg: Config, s: State, boot: BootAnswers)
    requires cfg.Valid()
    ensures var e := Bootstrap(cfg, s, boot);
            || e.result.BootPanicked?
            || (e.state == s.(removed := [], removedWork := 0) && !boot.synced)
            || (boot.synced && 0 < cfg.cacheSize && e.tail == []
                && e.state == State([], cfg.cacheSize, [], 0, s.lorenzo))
            || (&& boot.synced && 0 < cfg.cacheSize && boot.first.Some?
                && TailBlocks(boot.node, boot.best, BaseHeightOf(cfg, boot.first.value)) == Ok(e.tail)
                && 0 < |e.tail| <= cfg.cacheSize
                && AfterInit(cfg, State([], cfg.cacheSize, [], 0, s.lorenzo), e.tail, e, boot.submit))
  {
    if boot.synced && cfg.cacheSize > 0 && boot.first.Some? {
      match TailBlocks(boot.node, boot.best, BaseHeightOf(cfg, boot.first.value))
      case Err(_) =>
      case Ok(tail) =>
        if |tail| <= cfg.cacheSize && NonDecreasing(tail) {
          CheckConsistencyCases(cfg, State(tail, cfg.cacheSize, [], 0, s.lorenzo), boot);
        }
    }
  }

  lemma BootKeepsInv(tree: BlockTree, cfg: Config, h: History, boot: BootAnswers)
    requires cfg.Valid() && ValidTree(tree) && Inv(tree, h) && StepOk(tree, h.s.lorenzo, Boot(boot))
    requires !Bootstrap(cfg, h.s, boot).result.BootPanicked?
    ensures Inv(tree, AfterBoot(h, boot, Bootstrap(cfg, h.s, boot)))
  {
    var e := Bootstrap(cfg, h.s, boot);
    BootCases(cfg, h.s, boot);
    if e.tail != [] && boot.synced {
      var low := BaseHeightOf(cfg, boot.first.value);
      ChainBlocksLinked(tree, boot.node, low, boot.best.value);
      FetchedChainKeepsInv(tree, cfg, h.s.lorenzo, low, e, boot.submit);
      assert AfterBoot(h, boot, e) == History(e.state, e.tail, [], [e.tail]);
    } else if boot.synced {
      assert AfterBoot(h, boot, e) == History(e.state, [], [], [[]]);
    } else {
      assert AfterBoot(h, boot, e) == History(e.state, h.chain, [], [h.chain]);
    }
  }

  lemma FetchedChainKeepsInv(tree: BlockTree, cfg: Config, lc: LightClient, low: Uint64, e: BootEffect,
      submit: SubmitAnswers)
    requires cfg.Valid() && ValidTree(tree) && LorenzoInv(tree, lc) && lc.base.height <= low
    requires 0 < |e.tail| <= cfg.cacheSize && Linked(e.tail) && AllIn(tree, e.tail) && HeightsFrom(e.tail, low)
    requires AfterInit(cfg, State([], cfg.cacheSize, [], 0, lc), e.tail, e, submit)
    ensures Inv(tree, History(e.state, e.tail, [], [e.tail]))
  {
    hide ValidTree, LorenzoInv, ProcessHeaders, Linked, AllIn;
    if e.submitted != [] {
      var i, j :| 0 <= i < j <= |e.tail| && e.submitted == e.tail[i..j];
      SliceSubmission(tree, cfg, lc, low, e.tail, i, j, submit);
    }
    WholeIsSuffix(e.tail);
  }

  lemma SliceSubmission(tree: BlockTree, cfg: Config, lc: LightClient, low: Uint64, tail: seq<IndexedBlock>, i: nat,
                        j: nat, submit: SubmitAnswers)
    requires cfg.Valid() && ValidTree(tree) && LorenzoInv(tree, lc) && lc.base.height <= low
    requires Linked(tail) && AllIn(tree, tail) && HeightsFrom(tail, low) && i < j <= |tail|
    ensures var after := ProcessHeaders(lc, tail[i..j], cfg.maxHeadersInMsg, submit).0;
            LorenzoInv(tree, after) && after.base == lc.base
  {
    hide ValidTree, LorenzoInv, ProcessHeaders, Linked, Contains;
    LinkedSlice(tail, i, j);
    assert forall x | 0 <= x < j - i :: tail[i..j][x] == tail[i + x];
    SubmissionKeepsLorenzo(tree, lc, tail[i..j], cfg.maxHeadersInMsg, submit);
  }

  lemma WholeIsSuffix(s: seq<IndexedBlock>)
    ensures IsSuffix(s, s)
  {
    assert s[|s| - |s|..] == s;
  }

  // ---------- whole runs ----------

  /** A connect either changes nothing or extends the cache. */
  lemma ConnectCases(cfg: Config, s: State, event: BlockEvent, a: ConnectAnswers)
    requires cfg.Valid()
    ensures var e := OnConnected(cfg, s, event, a);
            || (e.change.Unchanged? && e.state == s && !e.reaction.Panicked? && e.submitted == [])
            || (&& |s.cache| > 0 && a.block.Some?
                && a.block.value.header.prevBlock == s.cache[|s.cache| - 1].header.hash
                && e == Extend(cfg, s, a.block.value, a)
                && e.change == Added(a.block.value)
                && e.state.cache == Push(s.cache, s.maxEntries, a.block.value)
                && e.state.maxEntries == s.maxEntries
                && (e.state.removed == [] || (e.state.removed == s.removed && e.state.removedWork == s.removedWork))
                && (s.removed == [] ==> e.state.removed == []))
  {
    hide ProcessHeaders, FindAt, LastBlocks, Work, Push;
  }

  lemma ConnectKeepsInv(tree: BlockTree, cfg: Config, h: History, event: BlockEvent, a: ConnectAnswers)
    requires cfg.Valid() && ValidTree(tree) && Inv(tree, h) && StepOk(tree, h.s.lorenzo, Event(event, a))
    ensures var e := OnConnected(cfg, h.s, event, a);
            && (e.submitted != [] ==> IsCacheTail(e.submitted, e.state.cache))
            && (e.reaction.Panicked? ==> |h.s.removed| > 0 && |h.pending| > h.s.maxEntries)
            && (!e.reaction.Panicked? ==> Inv(tree, AfterEvent(h, e)))
  {
    hide OnConnected, Extend, CacheInv, ReorgOpen, LorenzoInv, IsCacheTail, ValidTree, Push;
    ConnectCases(cfg, h.s, event, a);
    var e := OnConnected(cfg, h.s, event, a);
    if e.change.Unchanged? {
      if |h.s.removed| == 0 {
        assert AfterEvent(h, e) == h;
      }
    } else if |h.s.removed| > 0 {
      ExtendDuringReorg(tree, cfg, h, a.block.value, a);
    } else {
      ExtendOutsideReorg(tree, cfg, h, a.block.value, a);
    }
  }

  lemma StepKeepsInv(tree: BlockTree, cfg: Config, h: History, step: Step)
    requires cfg.Valid() && ValidTree(tree) && Inv(tree, h) && StepOk(tree, h.s.lorenzo, step)
    requires !Next(cfg, h, step).1
    ensures Inv(tree, Next(cfg, h, step).0)
  {
    match step
    case Event(event, a) =>
      if event.connected {
        ConnectKeepsInv(tree, cfg, h, event, a);
      } else {
        DisconnectKeepsInv(tree, h, event);
      }
    case Boot(boot) => BootKeepsInv(tree, cfg, h, boot);
    case OthersInsert(headers) => OthersKeepInv(tree, h, headers);
  }

  lemma {:induction false} RunKeepsInv(tree: BlockTree, cfg: Config, h: History, steps: seq<Step>)
    requires cfg.Valid() && ValidTree(tree) && Inv(tree, h) && StepsOk(tree, cfg, h, steps)
    requires !Run(cfg, h, steps).1
    ensures Inv(tree, Run(cfg, h, steps).0)
    decreases |steps|
  {
    if |steps| > 0 {
      StepKeepsInv(tree, cfg, h, steps[0]);
      RunKeepsInv(tree, cfg, Next(cfg, h, steps[0]).0, steps[1..]);
    }
  }

  lemma InitialInv(tree: BlockTree, h: History)
    requires Initial(tree, h)
    ensures Inv(tree, h)
  {
  }

  // ---------- the event loop takes such steps ----------

  /** The bootstrap attempts a retry loop makes, as steps. */
  function RetrySteps(cfg: Config, s: State, attempts: seq<BootAnswers>): seq<Step>
    requires cfg.Valid()
    decreases |attempts|
  {
    if |attempts| == 0 then []
    else
      var e := Bootstrap(cfg, s, attempts[0]);
      [Boot(attempts[0])] + if e.result.Failed? then RetrySteps(cfg, e.state, attempts[1..]) else []
  }

  lemma {:induction false} RetriesAreSteps(cfg: Config, h: History, attempts: seq<BootAnswers>)
    requires cfg.Valid()
    ensures var (s, result) := BootstrapWithRetries(cfg, h.s, attempts);
            var (now, panicked) := Run(cfg, h, RetrySteps(cfg, h.s, attempts));
            now.s == s && (panicked <==> result.BootPanicked?)
    decreases |attempts|
  {
    hide Bootstrap, OnEvent;
    if |attempts| > 0 {
      var e := Bootstrap(cfg, h.s, attempts[0]);
      var next := AfterBoot(h, attempts[0], e);
      assert Next(cfg, h, Boot(attempts[0])) == (next, e.result.BootPanicked?);
      var rest := if e.result.Failed? then RetrySteps(cfg, e.state, attempts[1..]) else [];
      assert RetrySteps(cfg, h.s, attempts)[1..] == rest;
      if e.result.Failed? {
        RetriesAreSteps(cfg, next, attempts[1..]);
      }
    }
  }

  /** The state from which attempt `n` starts if all before it are made. */
  function StateBefore(cfg: Config, s: State, attempts: seq<BootAnswers>, n: nat): State
    requires cfg.Valid() && n <= |attempts|
  {
    if n == 0 then s else Bootstrap(cfg, StateBefore(cfg, s, attempts, n - 1), attempts[n - 1]).state
  }

  lemma {:induction false} LaterAttempts(cfg: Config, s: State, attempts: seq<BootAnswers>, n: nat)
    requires cfg.Valid() && 0 < n <= |attempts|
    ensures StateBefore(cfg, s, attempts, n)
         == StateBefore(cfg, Bootstrap(cfg, s, attempts[0]).state, attempts[1..], n - 1)
  {
    hide Bootstrap;
    if n > 1 {
      LaterAttempts(cfg, s, attempts, n - 1);
      assert attempts[1..][n - 2] == attempts[n - 1];
    } else {
      assert StateBefore(cfg, s, attempts, 0) == s;
    }
  }

  /**
    The retry loop makes attempts, each from the state the one before left behind, until one does not fail; it ends
    with that one's state and result, and fails exactly if all attempts fail.
   */
  lemma {:induction false} RetriesStopAtTheFirstThatDoesNotFail(cfg: Config, s: State, attempts: seq<BootAnswers>)
    returns (n: nat)
    requires cfg.Valid()
    ensures n <= |attempts|
    ensures forall i | 0 <= i < n :: Bootstrap(cfg, StateBefore(cfg, s, attempts, i), attempts[i]).result.Failed?
    ensures var (last, result) := BootstrapWithRetries(cfg, s, attempts);
            var before := StateBefore(cfg, s, attempts, n);
            if n == |attempts| then last == before && result == Failed
            else
              var e := Bootstrap(cfg, before, attempts[n]);
              !e.result.Failed? && last == e.state && result == e.result
    decreases |attempts|
  {
    hide Bootstrap;
    n := 0;
    if |attempts| > 0 {
      var e := Bootstrap(cfg, s, attempts[0]);
      if e.result.Failed? {
        var rest := RetriesStopAtTheFirstThatDoesNotFail(cfg, e.state, attempts[1..]);
        n := rest + 1;
        LaterAttempts(cfg, s, attempts, n);
        forall i | 0 <= i < n ensures Bootstrap(cfg, StateBefore(cfg, s, attempts, i), attempts[i]).result.Failed? {
          if i > 0 {
            LaterAttempts(cfg, s, attempts, i);
            assert attempts[1..][i - 1] == attempts[i];
          }
        }
      }
    }
  }

  /** One turn of the event loop is a run of steps: the event and, after an error, the bootstrap attempts. */
  lemma {:induction false} LoopTurnIsRun(cfg: Config, h: History, event: BlockEvent, a: ConnectAnswers,
      attempts: seq<BootAnswers>)
    requires cfg.Valid()
    ensures var e := OnEvent(cfg, h.s, event, a);
            var steps := [Event(event, a)] + if e.reaction.NeedsBootstrap? then RetrySteps(cfg, e.state,
                attempts) else [];
            var (now, panicked) := Run(cfg, h, steps);
            if e.reaction.NeedsBootstrap? then
              var (s, result) := BootstrapWithRetries(cfg, e.state, attempts);
              now.s == s && (panicked <==> result.BootPanicked?)
            else
              now.s == e.state && (panicked <==> e.reaction.Panicked?)
  {
    hide OnEvent, Bootstrap, RetrySteps, BootstrapWithRetries;
    var e := OnEvent(cfg, h.s, event, a);
    var retries := if e.reaction.NeedsBootstrap? then RetrySteps(cfg, e.state, attempts) else [];
    var steps := [Event(event, a)] + retries;
    assert steps[1..] == retries;
    assert Next(cfg, h, steps[0]) == (AfterEvent(h, e), e.reaction.Panicked?);
    if e.reaction.NeedsBootstrap? {
      RetriesAreSteps(cfg, AfterEvent(h, e), attempts);
    }
  }
}
