/** Which blocks a bootstrap attempt fetches, checks, submits and keeps. */
module BootstrapWindow {
  import opened Prelude
  import opened BtcTypes
  import opened BoundedCache
  import opened BlockQuery
  import opened LorenzoLightClient
  import opened HeaderSubmission
  import opened ReporterSpec
  import opened ReporterRuns

  /**
    The checked block is the one `k` below Lorenzo's tip, or Lorenzo's base where that would be lower: at most `k`
    blocks are left unchecked above it, and exactly `k` unless it is the base.
   */
  lemma ConsistencyHeightIsKDeep(cfg: Config, h: LorenzoHeights)
    ensures ConsistencyHeightOf(cfg, h) == Max(h.base, h.tip - cfg.k)
    ensures h.base <= h.tip ==>
              var checked := ConsistencyHeightOf(cfg, h);
              && h.base <= checked <= h.tip && h.tip - checked <= cfg.k
              && (h.tip - checked == cfg.k || checked == h.base)
  {
  }

  /**
    The block whose presence in Lorenzo is checked lies in the fetched range exactly when the finalization
    timeout is positive, or Lorenzo's tip is so low that the range starts at the base.
   */
  lemma ConsistencyHeightIsFetched(cfg: Config, h: LorenzoHeights)
    requires h.base <= h.tip
    ensures BaseHeightOf(cfg, h) <= ConsistencyHeightOf(cfg, h) <==> 0 < cfg.w || h.tip <= h.base + cfg.k
    ensures ConsistencyHeightOf(cfg, h) <= h.tip
  {
  }

  /**
    The cache starts so that it covers Lorenzo's last k + w blocks, or all of them when Lorenzo has fewer; one
    block more exactly when Lorenzo's tip is k + w above its base.
   */
  lemma CacheCoversTheUnfinalized(cfg: Config, h: LorenzoHeights)
    requires h.base <= h.tip
    ensures var cached := h.tip - BaseHeightOf(cfg, h) + 1;
            var all := h.tip - h.base + 1;
            && (cached == cfg.k + cfg.w || cached == all)
            && cached <= all && cached <= cfg.k + cfg.w + 1
            && (cached < all ==> cached == cfg.k + cfg.w)
            && (cached == cfg.k + cfg.w + 1 <==> h.tip == h.base + cfg.k + cfg.w)
  {
  }

  /** Both height queries are answered, Lorenzo's tip does not go down in between, and the chain is fetched. */
  ghost predicate Fetched(tree: BlockTree, cfg: Config, boot: BootAnswers, tail: seq<IndexedBlock>) {
    && boot.synced && boot.first.Some? && boot.second.Some? && boot.best.Some?
    && boot.first.value.base == boot.second.value.base
    && boot.first.value.base <= boot.first.value.tip <= boot.second.value.tip
    && 0 < cfg.w && 0 < cfg.maxHeadersInMsg
    && ViewOf(boot.node, tree) && Contains(tree, boot.best.value)
    && TailBlocks(boot.node, boot.best, BaseHeightOf(cfg, boot.first.value)) == Ok(tail)
    && |tail| <= cfg.cacheSize
  }

  /** The first height to submit: right above the checked block, which is `k` below Lorenzo's tip or its base. */
  function StartSyncHeight(cfg: Config, boot: BootAnswers): Uint64
    requires boot.second.Some?
  {
    Max(boot.second.value.base, boot.second.value.tip - cfg.k) + 1
  }

  lemma FetchedRange(tree: BlockTree, cfg: Config, boot: BootAnswers, tail: seq<IndexedBlock>)
    requires ValidTree(tree) && Fetched(tree, cfg, boot, tail)
    ensures IsRange(tail, BaseHeightOf(cfg, boot.first.value), boot.best.value.height)
    ensures AllIn(tree, tail) && NonDecreasing(tail) && 0 <= tail[0].height
    ensures BaseHeightOf(cfg, boot.first.value) < StartSyncHeight(cfg, boot)
  {
    ChainBlocksLinked(tree, boot.node, BaseHeightOf(cfg, boot.first.value), boot.best.value);
    LinkedHeights(tail);
  }

  lemma FetchedBasics(tree: BlockTree, cfg: Config, boot: BootAnswers, tail: seq<IndexedBlock>)
    requires Fetched(tree, cfg, boot, tail)
    ensures cfg.Valid() && 0 < cfg.w && boot.second.Some? && boot.best.Some?
    ensures 0 < StartSyncHeight(cfg, boot)
    ensures StartSyncHeight(cfg, boot) - 1 == ConsistencyHeightOf(cfg, boot.second.value)
    ensures StartSyncHeight(cfg, boot) < TWO_TO_THE_64
  {
  }

  lemma BootstrapReachesCheck(tree: BlockTree, cfg: Config, s: State, boot: BootAnswers, tail: seq<IndexedBlock>)
    requires ValidTree(tree) && Fetched(tree, cfg, boot, tail)
    ensures cfg.Valid() && |tail| > 0
    ensures Bootstrap(cfg, s, boot) == CheckConsistency(cfg, State(tail, cfg.cacheSize, [], 0, s.lorenzo), boot)
  {
    hide CheckConsistency, Linked, HeightsFrom, BaseHeightOf, NonDecreasing, ValidTree, AllIn;
    FetchedRange(tree, cfg, boot, tail);
  }

  /** The blocks at and after the checked height, by position. */
  lemma {:induction false} CheckIsPositional(tree: BlockTree, cfg: Config, boot: BootAnswers,
      tail: seq<IndexedBlock>, height: Uint64)
    requires ValidTree(tree) && Fetched(tree, cfg, boot, tail)
    requires height == ConsistencyHeightOf(cfg, boot.second.value)
    ensures |tail| > 0 && 0 <= height - tail[0].height && height + 1 < TWO_TO_THE_31
    ensures FindAt(tail,
        height) == (if height - tail[0].height < |tail| then Some(tail[height - tail[0].height]) else None)
    ensures LastBlocks(tail, height + 1)
         == (if height + 1 - tail[0].height < |tail| then Some(tail[height + 1 - tail[0].height..]) else None)
    ensures boot.best.value.height == tail[0].height + |tail| - 1
  {
    hide ValidTree, AllIn, NonDecreasing, LastBlocks, Linked, TailBlocks;
    FetchedRange(tree, cfg, boot, tail);
    LookupsByPosition(tail, height);
  }

  lemma {:induction false} LookupsByPosition(s: seq<IndexedBlock>, height: Uint64)
    requires |s| > 0 && Linked(s) && 0 <= s[0].height <= height < TWO_TO_THE_31 - 1
    ensures var i := height - s[0].height;
            && FindAt(s, height) == (if i < |s| then Some(s[i]) else None)
            && LastBlocks(s, height + 1) == (if i + 1 < |s| then Some(s[i + 1..]) else None)
  {
    hide LastBlocks, Linked;
    LinkedHeights(s);
    LastBlocksOnChain(s, height + 1);
    if height - s[0].height < |s| {
      FindAtUnique(s, height, height - s[0].height);
    }
  }

  /** The result of the check and the submission, given the two lookups. */
  lemma {:induction false} CheckOutcome(cfg: Config, s: State, boot: BootAnswers, height: Uint64)
    requires cfg.Valid() && |s.cache| > 0 && boot.second.Some?
    requires height == ConsistencyHeightOf(cfg, boot.second.value)
    ensures height + 1 < TWO_TO_THE_64
    ensures var e := CheckConsistency(cfg, s, boot);
            var found := FindAt(s.cache, height);
            var ibs := LastBlocks(s.cache, height + 1);
            && e.tail == s.cache
            && (if found.None? then e.result == BootPanicked
                else if boot.containsFails then e.result == Failed
                else if found.value.header.hash !in s.lorenzo.known then e.result == BootPanicked
                else if ibs.None? || |ibs.value| <= cfg.delayBlocks then e.result == BootPanicked
                else
                  && e.submitted == ibs.value[..|ibs.value| - cfg.delayBlocks]
                  && var (lorenzo, r) := ProcessHeaders(s.lorenzo, e.submitted, cfg.maxHeadersInMsg, boot.submit);
                  && e.result == (if !r.Ok? then Failed else if cfg.k + cfg.w == 0 then BootPanicked else Booted)
                  && e.state.lorenzo == lorenzo
                  && (e.result == Booted ==>
                        && e.state.cache == LastN(s.cache, cfg.k + cfg.w)
                        && e.state.maxEntries == cfg.k + cfg.w))
  {
    hide FindAt, LastBlocks, ProcessHeaders;
    var ibs := LastBlocks(s.cache, height + 1);
    if ibs.Some? && |ibs.value| > cfg.delayBlocks {
      var batch := ibs.value[..|ibs.value| - cfg.delayBlocks];
      var (_, r) := ProcessHeaders(s.lorenzo, batch, cfg.maxHeadersInMsg, boot.submit);
      assert r.Ok? || r.Err?;
    }
  }

  /**
    When an attempt with a fetched chain panics: the checked height is above the node's tip, or the check is
    answered and the block is unknown to Lorenzo, or no more than `delayBlocks` blocks follow it.
   */
  lemma BootstrapPanicsExactlyWhen(tree: BlockTree, cfg: Config, s: State, boot: BootAnswers, tail: seq<IndexedBlock>)
    requires ValidTree(tree) && Fetched(tree, cfg, boot, tail)
    ensures cfg.Valid() && |tail| > 0 && 0 < StartSyncHeight(cfg, boot) - tail[0].height
    ensures boot.best.value.height == tail[0].height + |tail| - 1
    ensures var tip := boot.best.value.height;
            var start := StartSyncHeight(cfg, boot);
            Bootstrap(cfg, s, boot).result == BootPanicked <==>
              || tip < start - 1
              || (!boot.containsFails && tail[start - 1 - tail[0].height].header.hash !in s.lorenzo.known)
              || (!boot.containsFails && tip < start + cfg.delayBlocks)
  {
    hide *;
    FetchedBasics(tree, cfg, boot, tail);
    var height := StartSyncHeight(cfg, boot) - 1;
    BootstrapReachesCheck(tree, cfg, s, boot, tail);
    CheckIsPositional(tree, cfg, boot, tail, height);
    CheckOutcome(cfg, State(tail, cfg.cacheSize, [], 0, s.lorenzo), boot, height);
  }

  /**
    An attempt that gets past the check submits exactly the heights from the first unconfirmed one to
    `delayBlocks` below the node's tip, and on success keeps the newest k + w blocks of the fetched chain.
   */
  lemma BootstrapSubmitsTheWindow(tree: BlockTree, cfg: Config, s: State, boot: BootAnswers, tail: seq<IndexedBlock>)
    requires ValidTree(tree) && Fetched(tree, cfg, boot, tail) && !boot.containsFails
    requires cfg.Valid() && Bootstrap(cfg, s, boot).result != BootPanicked
    ensures var e := Bootstrap(cfg, s, boot);
            && IsRange(e.submitted, StartSyncHeight(cfg, boot), boot.best.value.height - cfg.delayBlocks)
            && e.tail == tail
            && (e.result == Booted ==>
                  e.state.cache == LastN(tail, cfg.k + cfg.w) && e.state.maxEntries == cfg.k + cfg.w)
  {
    hide Bootstrap, ProcessHeaders, Fetched, LastN, ValidTree, AllIn, NonDecreasing, Linked, StartSyncHeight;
    FetchedBasics(tree, cfg, boot, tail);
    FetchedRange(tree, cfg, boot, tail);
    WindowIsInside(tree, cfg, s, boot, tail);
    WindowOutcome(tree, cfg, s, boot, tail);
    SliceIsRange(tail, StartSyncHeight(cfg, boot) - tail[0].height, |tail| - cfg.delayBlocks);
  }

  /** After a successful attempt Lorenzo has every block of the window. */
  lemma BootstrapMakesTheWindowKnown(tree: BlockTree, cfg: Config, s: State, boot: BootAnswers, tail: seq<IndexedBlock>)
    requires ValidTree(tree) && Fetched(tree, cfg, boot, tail) && !boot.containsFails
    requires cfg.Valid() && Bootstrap(cfg, s, boot).result == Booted
    requires LorenzoInv(tree, s.lorenzo) && s.lorenzo.base.height <= tail[0].height
    ensures var e := Bootstrap(cfg, s, boot);
            && LorenzoInv(tree, e.state.lorenzo)
            && forall i | 0 <= i < |e.submitted| :: e.submitted[i].header.hash in e.state.lorenzo.known
  {
    hide Bootstrap, ProcessHeaders, Fetched, LastN, ValidTree, NonDecreasing, Linked, StartSyncHeight,
        AncestorClosed, AllIn;
    FetchedBasics(tree, cfg, boot, tail);
    FetchedRange(tree, cfg, boot, tail);
    WindowIsInside(tree, cfg, s, boot, tail);
    WindowOutcome(tree, cfg, s, boot, tail);
    var i, j := StartSyncHeight(cfg, boot) - tail[0].height, |tail| - cfg.delayBlocks;
    var batch := tail[i..j];
    SliceIsRange(tail, i, j);
    SliceIsIn(tree, tail, i, j);
    SubmissionKeepsLorenzo(tree, s.lorenzo, batch, cfg.maxHeadersInMsg, boot.submit);
    ProcessHeadersKeepsLorenzoSound(tree, s.lorenzo, batch, cfg.maxHeadersInMsg, boot.submit);
  }

  /**
    After a successful attempt Lorenzo has every cached block except the newest `delayBlocks`: the checked block
    brings its ancestors, the submission the rest.
   */
  lemma {:induction false} BootstrapMakesTheCacheKnown(tree: BlockTree, cfg: Config, s: State, boot: BootAnswers,
      tail: seq<IndexedBlock>)
    requires ValidTree(tree) && Fetched(tree, cfg, boot, tail) && !boot.containsFails
    requires cfg.Valid() && Bootstrap(cfg, s, boot).result == Booted
    requires LorenzoInv(tree, s.lorenzo) && s.lorenzo.base.height <= tail[0].height
    ensures var e := Bootstrap(cfg, s, boot);
            forall i | 0 <= i < |e.state.cache| - cfg.delayBlocks ::
              e.state.cache[i].header.hash in e.state.lorenzo.known
  {
    hide Bootstrap, ProcessHeaders, Fetched, ValidTree, NonDecreasing, Linked, StartSyncHeight, AncestorClosed, AllIn;
    FetchedRange(tree, cfg, boot, tail);
    WindowIsInside(tree, cfg, s, boot, tail);
    WindowOutcome(tree, cfg, s, boot, tail);
    BootstrapMakesTheWindowKnown(tree, cfg, s, boot, tail);
    var e := Bootstrap(cfg, s, boot);
    var n := |tail| - cfg.delayBlocks;
    assert tail[n - 1] == e.submitted[|e.submitted| - 1];
    ProcessHeadersKeepsBase(s.lorenzo, e.submitted, cfg.maxHeadersInMsg, boot.submit);
    KnownUpTo(tree, e.state.lorenzo, tail, n);
    var cache := e.state.cache;
    forall i | 0 <= i < |cache| - cfg.delayBlocks ensures cache[i].header.hash in e.state.lorenzo.known {
      assert cache[i] == tail[|tail| - |cache| + i];
    }
  }

  lemma SliceIsIn(tree: BlockTree, s: seq<IndexedBlock>, i: nat, j: nat)
    requires i <= j <= |s| && AllIn(tree, s)
    ensures AllIn(tree, s[i..j])
  {
  }

  lemma SliceIsRange(tail: seq<IndexedBlock>, i: nat, j: nat)
    requires i < j <= |tail| && Linked(tail)
    ensures IsRange(tail[i..j], tail[0].height + i, tail[0].height + j - 1)
  {
    LinkedSlice(tail, i, j);
    LinkedHeights(tail);
    var s := tail[i..j];
    forall x | 0 <= x < |s| ensures s[x].height == tail[0].height + i + x {
      assert s[x] == tail[i + x];
    }
  }

  lemma WindowIsInside(tree: BlockTree, cfg: Config, s: State, boot: BootAnswers, tail: seq<IndexedBlock>)
    requires ValidTree(tree) && Fetched(tree, cfg, boot, tail) && !boot.containsFails
    requires cfg.Valid() && Bootstrap(cfg, s, boot).result != BootPanicked
    ensures |tail| > 0 && 0 < StartSyncHeight(cfg, boot) - tail[0].height < |tail| - cfg.delayBlocks
    ensures boot.best.value.height == tail[0].height + |tail| - 1
    ensures tail[StartSyncHeight(cfg, boot) - 1 - tail[0].height].header.hash in s.lorenzo.known
  {
    hide *;
    BootstrapPanicsExactlyWhen(tree, cfg, s, boot, tail);
  }

  // ---------- every attempt ----------

  /** The chain that an attempt fetches and that fits into the cache, if there is one. */
  function FetchedTail(cfg: Config, boot: BootAnswers): Option<seq<IndexedBlock>> {
    if boot.first.None? then None
    else
      var r := TailBlocks(boot.node, boot.best, BaseHeightOf(cfg, boot.first.value));
      if r.Ok? && |r.value| <= cfg.cacheSize then Some(r.value) else None
  }

  /** Where the checked block would be in a chain of consecutive heights that starts with `first`. */
  function CheckedIndex(cfg: Config, boot: BootAnswers, first: IndexedBlock): int
    requires boot.second.Some?
  {
    StartSyncHeight(cfg, boot) - 1 - first.height
  }

  /** The checked block is in the chain, the query for it is answered, Lorenzo has it, and enough blocks follow it. */
  ghost predicate CheckPasses(cfg: Config, lorenzo: LightClient, boot: BootAnswers, tail: seq<IndexedBlock>)
    requires |tail| > 0 && boot.second.Some?
  {
    var i := CheckedIndex(cfg, boot, tail[0]);
    && 0 <= i < |tail| && !boot.containsFails
    && tail[i].header.hash in lorenzo.known && i + 1 + cfg.delayBlocks < |tail|
  }

  /** The blocks that an attempt submits are delivered. */
  ghost predicate WindowDelivered(cfg: Config, lorenzo: LightClient, boot: BootAnswers, tail: seq<IndexedBlock>)
    requires cfg.Valid() && |tail| > 0 && boot.second.Some? && CheckPasses(cfg, lorenzo, boot, tail)
  {
    var i := CheckedIndex(cfg, boot, tail[0]);
    ProcessHeaders(lorenzo, tail[i + 1..|tail| - cfg.delayBlocks], cfg.maxHeadersInMsg, boot.submit).1.Ok?
  }

  /** How an attempt that has filled the cache ends. */
  ghost predicate EndsAfterFetch(cfg: Config, lorenzo: LightClient, boot: BootAnswers, tail: seq<IndexedBlock>,
                                 result: BootResult)
    requires cfg.Valid() && |tail| > 0 && boot.second.Some?
  {
    var inside := 0 <= CheckedIndex(cfg, boot, tail[0]) < |tail|;
    && (result.BootPanicked? <==>
          || !inside
          || (!boot.containsFails && !CheckPasses(cfg, lorenzo, boot, tail))
          || (CheckPasses(cfg, lorenzo, boot, tail) && WindowDelivered(cfg, lorenzo, boot, tail) && cfg.k + cfg.w == 0))
    && (result.Booted? <==>
          CheckPasses(cfg, lorenzo, boot, tail) && WindowDelivered(cfg, lorenzo, boot, tail) && 0 < cfg.k + cfg.w)
  }

  /**
    How every attempt ends, whatever is answered and however it is configured. It fails, and is retried, if the node
    does not catch up, a query for Lorenzo's heights or for the checked block is not answered, or the submission
    fails; it panics if the cache may not hold a block, the chain cannot be fetched or does not fit, the check or
    the blocks that follow it are not as they should be, or the cache would be shrunk to nothing.
   */
  lemma {:induction false} BootstrapEndsExactly(tree: BlockTree, cfg: Config, s: State, boot: BootAnswers)
    requires cfg.Valid() && ValidTree(tree)
    requires ViewOf(boot.node, tree) && (boot.best.Some? ==> Contains(tree, boot.best.value))
    ensures var result := Bootstrap(cfg, s, boot).result;
            var tail := FetchedTail(cfg, boot);
            if !boot.synced then result == Failed
            else if cfg.cacheSize == 0 then result == BootPanicked
            else if boot.first.None? then result == Failed
            else if tail.None? then result == BootPanicked
            else |tail.value| > 0 && if boot.second.None? then result == Failed
                                     else EndsAfterFetch(cfg, s.lorenzo, boot, tail.value, result)
  {
    hide CheckConsistency, Linked, AllIn, ValidTree, NonDecreasing, EndsAfterFetch, LastBlocks, FindAt, TailBlocks,
      BaseHeightOf, HeightsFrom;
    if boot.synced && 0 < cfg.cacheSize && boot.first.Some? {
      FetchedIsSorted(tree, cfg, boot);
      if FetchedTail(cfg, boot).Some? {
        CheckEnds(tree, cfg, State(FetchedTail(cfg, boot).value, cfg.cacheSize, [], 0, s.lorenzo), boot);
      }
    }
  }

  lemma {:induction false} FetchedIsSorted(tree: BlockTree, cfg: Config, boot: BootAnswers)
    requires ValidTree(tree) && boot.first.Some?
    requires ViewOf(boot.node, tree) && (boot.best.Some? ==> Contains(tree, boot.best.value))
    ensures var r := TailBlocks(boot.node, boot.best, BaseHeightOf(cfg, boot.first.value));
            r.Ok? ==> |r.value| > 0 && Linked(r.value) && NonDecreasing(r.value) && 0 <= r.value[0].height
  {
    hide BaseHeightOf;
    var low := BaseHeightOf(cfg, boot.first.value);
    if boot.best.Some? && ChainBlocks(boot.node, low, boot.best.value).Ok? {
      ChainBlocksLinked(tree, boot.node, low, boot.best.value);
      LinkedHeights(ChainBlocks(boot.node, low, boot.best.value).value);
    }
  }

  lemma {:induction false} CheckEnds(tree: BlockTree, cfg: Config, s: State, boot: BootAnswers)
    requires cfg.Valid() && |s.cache| > 0 && Linked(s.cache) && 0 <= s.cache[0].height
    ensures var result := CheckConsistency(cfg, s, boot).result;
            if boot.second.None? then result == Failed
            else EndsAfterFetch(cfg, s.lorenzo, boot, s.cache, result)
  {
    hide Linked, ProcessHeaders, LastBlocks, FindAt, CheckConsistency, StartSyncHeight, CheckedIndex, EndsAfterFetch,
      ConsistencyHeightOf, LastN, CheckPasses, WindowDelivered;
    if boot.second.Some? {
      var height := CheckedLookups(cfg, boot, s.cache);
      CheckOutcome(cfg, s, boot, height);
      OutcomeEnds(cfg, s, boot, FindAt(s.cache, height), LastBlocks(s.cache, height + 1),
                  CheckConsistency(cfg, s, boot).result);
    } else {
      NoSecondAnswer(cfg, s, boot);
    }
  }

  lemma {:induction false} OutcomeEnds(cfg: Config, s: State, boot: BootAnswers, found: Option<IndexedBlock>,
      ibs: Option<seq<IndexedBlock>>, result: BootResult)
    requires cfg.Valid() && |s.cache| > 0 && boot.second.Some?
    requires var i := CheckedIndex(cfg, boot, s.cache[0]);
             && found == (if 0 <= i < |s.cache| then Some(s.cache[i]) else None)
             && (0 <= i < |s.cache| ==>
                   && (ibs.Some? <==> i + 1 < |s.cache|)
                   && (ibs.Some? ==> |ibs.value| == |s.cache| - i - 1)
                   && (ibs.Some? && cfg.delayBlocks < |ibs.value| ==>
                         ibs.value[..|ibs.value| - cfg.delayBlocks] == s.cache[i + 1..|s.cache| - cfg.delayBlocks]))
    requires if found.None? then result == BootPanicked
             else if boot.containsFails then result == Failed
             else if found.value.header.hash !in s.lorenzo.known then result == BootPanicked
             else if ibs.None? || |ibs.value| <= cfg.delayBlocks then result == BootPanicked
             else
               var r := ProcessHeaders(s.lorenzo, ibs.value[..|ibs.value| - cfg.delayBlocks], cfg.maxHeadersInMsg,
                                       boot.submit).1;
               result == if !r.Ok? then Failed else if cfg.k + cfg.w == 0 then BootPanicked else Booted
    ensures EndsAfterFetch(cfg, s.lorenzo, boot, s.cache, result)
  {
    hide ProcessHeaders, CheckedIndex;
  }

  /** What the two lookups of the check find. */
  lemma {:induction false} CheckedLookups(cfg: Config, boot: BootAnswers, s: seq<IndexedBlock>)
    returns (height: Uint64)
    requires |s| > 0 && Linked(s) && 0 <= s[0].height && boot.second.Some?
    ensures height == ConsistencyHeightOf(cfg, boot.second.value) && height + 1 < TWO_TO_THE_64
    ensures var i := CheckedIndex(cfg, boot, s[0]);
            && FindAt(s, height) == (if 0 <= i < |s| then Some(s[i]) else None)
            && (0 <= i < |s| ==>
                  var ibs := LastBlocks(s, height + 1);
                  && (ibs.Some? <==> i + 1 < |s|)
                  && (ibs.Some? ==> |ibs.value| == |s| - i - 1)
                  && (ibs.Some? && cfg.delayBlocks < |ibs.value| ==>
                        ibs.value[..|ibs.value| - cfg.delayBlocks] == s[i + 1..|s| - cfg.delayBlocks]))
  {
    hide Linked, LastBlocks, FindAt;
    ConsistencyHeightIsKDeep(cfg, boot.second.value);
    height := ConsistencyHeightOf(cfg, boot.second.value);
    if s[0].height <= height {
      LookupsByPosition(s, height);
    } else {
      BelowTheCache(s, height);
    }
  }

  lemma {:induction false} BelowTheCache(s: seq<IndexedBlock>, height: Uint64)
    requires |s| > 0 && Linked(s) && height < s[0].height
    ensures FindAt(s, height) == None
  {
    LinkedHeights(s);
  }

  lemma NoSecondAnswer(cfg: Config, s: State, boot: BootAnswers)
    requires cfg.Valid() && |s.cache| > 0 && boot.second.None?
    ensures CheckConsistency(cfg, s, boot).result == Failed
  {
  }

  /** What the attempt leaves behind. */
  lemma WindowOutcome(tree: BlockTree, cfg: Config, s: State, boot: BootAnswers, tail: seq<IndexedBlock>)
    requires ValidTree(tree) && Fetched(tree, cfg, boot, tail) && !boot.containsFails
    requires cfg.Valid() && Bootstrap(cfg, s, boot).result != BootPanicked
    requires |tail| > 0 && 0 < StartSyncHeight(cfg, boot) - tail[0].height < |tail| - cfg.delayBlocks
    ensures var e := Bootstrap(cfg, s, boot);
            var batch := tail[StartSyncHeight(cfg, boot) - tail[0].height..|tail| - cfg.delayBlocks];
            var (lorenzo, r) := ProcessHeaders(s.lorenzo, batch, cfg.maxHeadersInMsg, boot.submit);
            && e.submitted == batch
            && e.tail == tail
            && (e.result == Booted <==> r.Ok?)
            && e.state.lorenzo == lorenzo
            && (e.result == Booted ==>
                  e.state.cache == LastN(tail, cfg.k + cfg.w) && e.state.maxEntries == cfg.k + cfg.w)
  {
    hide *;
    FetchedBasics(tree, cfg, boot, tail);
    var height := StartSyncHeight(cfg, boot) - 1;
    var i := StartSyncHeight(cfg, boot) - tail[0].height;
    BootstrapReachesCheck(tree, cfg, s, boot, tail);
    CheckIsPositional(tree, cfg, boot, tail, height);
    CheckOutcome(cfg, State(tail, cfg.cacheSize, [], 0, s.lorenzo), boot, height);
    assert tail[i..][..|tail| - i - cfg.delayBlocks] == tail[i..|tail| - cfg.delayBlocks];
  }

  /**
    The consistency check makes the submission attach: once the attempt gets past it, only a failing query or
    a refused message can make it fail.
   */
  lemma BootstrapFailsOnlyOnDelivery(tree: BlockTree, cfg: Config, s: State, boot: BootAnswers, tail: seq<IndexedBlock>)
    requires ValidTree(tree) && Fetched(tree, cfg, boot, tail) && !boot.containsFails
    requires cfg.Valid() && Bootstrap(cfg, s, boot).result != BootPanicked
    requires LorenzoInv(tree, s.lorenzo) && s.lorenzo.base.height <= tail[0].height
    requires boot.submit.queryFailsAt.None?
    requires |boot.submit.deliveries| >= |tail|
    requires forall i | 0 <= i < |boot.submit.deliveries| :: boot.submit.deliveries[i] == Delivered
    ensures Bootstrap(cfg, s, boot).result == Booted
  {
    hide Bootstrap, ProcessHeaders, Fetched, LastN, ValidTree, NonDecreasing, StartSyncHeight, AncestorClosed, AllIn;
    FetchedBasics(tree, cfg, boot, tail);
    FetchedRange(tree, cfg, boot, tail);
    WindowIsInside(tree, cfg, s, boot, tail);
    WindowOutcome(tree, cfg, s, boot, tail);
    var i, j := StartSyncHeight(cfg, boot) - tail[0].height, |tail| - cfg.delayBlocks;
    var batch := tail[i..j];
    SliceIsRange(tail, i, j);
    SliceIsIn(tree, tail, i, j);
    assert Attaches(tail[i - 1], tail[i]);
    SubmissionKeepsLorenzo(tree, s.lorenzo, batch, cfg.maxHeadersInMsg, boot.submit);
    SubmissionSucceedsIffItAttaches(tree, s.lorenzo, batch, cfg.maxHeadersInMsg, boot.submit);
  }

  // ---------- the first bootstrap ----------

  /** An attempt in which nothing fails, on a Lorenzo that has only its base header. */
  function FirstBoot(tree: BlockTree, chain: seq<IndexedBlock>, base: Height): BootAnswers
    requires |chain| > 0
  {
    var heights := LorenzoHeights(base, base);
    BootAnswers(true, Some(heights), tree, Some(chain[|chain| - 1]), Some(heights), false,
                SubmitAnswers(None, seq(|chain|, _ => Delivered)))
  }

  lemma {:induction false} BaseLookups(tree: BlockTree, chain: seq<IndexedBlock>, base: Height)
    requires ValidTree(tree) && Linked(chain) && AllIn(tree, chain) && |chain| > 1 && chain[0].height == base
    ensures TailBlocks(tree, Some(chain[|chain| - 1]), base) == Ok(chain) && NonDecreasing(chain)
    ensures FindAt(chain, base) == Some(chain[0]) && LastBlocks(chain, base + 1) == Some(chain[1..])
  {
    hide LastBlocks;
    LinkedHeights(chain);
    WalkBackFinds(tree, chain);
    LookupsByPosition(chain, base);
  }

  lemma {:induction false} WholeChainDelivered(tree: BlockTree, cfg: Config, lc: LightClient, chain: seq<IndexedBlock>,
                                               answers: SubmitAnswers)
    requires cfg.Valid() && ValidTree(tree) && Linked(chain) && AllIn(tree, chain) && |chain| > 1
    requires lc == LightClient(chain[0], {chain[0].header.hash}, [])
    requires answers == SubmitAnswers(None, seq(|chain|, _ => Delivered))
    ensures var (after, r) := ProcessHeaders(lc, chain[1..], cfg.maxHeadersInMsg, answers);
            r.Ok? && after == Accept(lc, chain[1..])
  {
    hide ProcessHeaders, Linked;
    var ibs := chain[1..];
    SuffixIsLinked(tree, ibs, chain);
    LinkedHeights(chain);
    LinkedParts(chain, 1);
    assert ibs[0].header.hash !in lc.known by {
      assert Contains(tree, chain[0]) && Contains(tree, chain[1]);
    }
    assert AncestorClosed(tree, lc);
    BaseIsBelow(tree, lc, ibs);
    SubmissionSucceedsIffItAttaches(tree, lc, ibs, cfg.maxHeadersInMsg, answers);
    var k := ProcessHeadersAccepts(tree, lc, ibs, cfg.maxHeadersInMsg, answers);
    assert ibs[0..|ibs|] == ibs;
  }

  /** It caches the node's chain from the base on and gives Lorenzo all of it. */
  lemma {:induction false} FirstBootstrap(tree: BlockTree, cfg: Config, chain: seq<IndexedBlock>, base: Height)
    requires cfg.Valid() && ValidTree(tree) && Linked(chain) && AllIn(tree, chain)
    requires |chain| > 1 && chain[0].height == base
    requires |chain| <= cfg.cacheSize && |chain| <= cfg.k + cfg.w && cfg.delayBlocks == 0
    ensures var lc := LightClient(chain[0], {chain[0].header.hash}, []);
            Bootstrap(cfg, State([], cfg.cacheSize, [], 0, lc), FirstBoot(tree, chain, base))
              == BootEffect(State(chain, cfg.k + cfg.w, [], 0, Accept(lc, chain[1..])), Booted, chain, chain[1..])
  {
    hide ProcessHeaders, Accept, Linked, AllIn, ValidTree, TailBlocks, FindAt, LastBlocks, NonDecreasing;
    var lc := LightClient(chain[0], {chain[0].header.hash}, []);
    BaseLookups(tree, chain, base);
    WholeChainDelivered(tree, cfg, lc, chain, SubmitAnswers(None, seq(|chain|, _ => Delivered)));
    assert chain[1..][..|chain| - 1] == chain[1..];
    assert TrimTo(chain, cfg.k + cfg.w) == chain;
  }
}
