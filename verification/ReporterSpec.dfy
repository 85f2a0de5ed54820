/**
  What the BTC reporter does with one block event and with one bootstrap attempt, as functions on values.
  Everything that comes from outside (node, Lorenzo, the network) is an argument.
 */
module ReporterSpec {
  import opened Prelude
  import opened BtcTypes
  import opened BoundedCache
  import opened BlockQuery
  import opened LorenzoLightClient
  import opened HeaderSubmission

  /** `k` is the confirmation depth and `w` the checkpoint finalization timeout. */
  datatype Config = Config(cacheSize: nat, k: nat, w: nat, delayBlocks: nat, maxHeadersInMsg: nat) {
    ghost predicate Valid() {
      0 < maxHeadersInMsg
    }
  }

  datatype State = State(cache: seq<IndexedBlock>, maxEntries: nat, removed: seq<IndexedBlock>, removedWork: nat,
                         lorenzo: LightClient)

  datatype BlockEvent = BlockEvent(connected: bool, height: Int32, hash: Hash)

  /** `Panicked` ends the process; `NeedsBootstrap` is a returned error. */
  datatype Reaction = Handled | NeedsBootstrap | Panicked

  datatype Change = Unchanged | Added(block: IndexedBlock) | Removed(block: IndexedBlock)

  datatype Effect = Effect(state: State, reaction: Reaction, change: Change, submitted: seq<IndexedBlock>)

  // ---------- connected blocks ----------

  /** None is a failed query; `submit` answers the queries and messages of ProcessHeaders. */
  datatype ConnectAnswers = ConnectAnswers(hashAtHeight: Option<Hash>, block: Option<IndexedBlock>,
                                           lorenzoTip: Option<Uint64>, submit: SubmitAnswers)

  function OnConnected(cfg: Config, s: State, event: BlockEvent, a: ConnectAnswers): Effect
    requires cfg.Valid()
  {
    if a.hashAtHeight != Some(event.hash) then Effect(s, NeedsBootstrap, Unchanged, [])
    else if |s.cache| == 0 then Effect(s, NeedsBootstrap, Unchanged, [])
    else if event.height < s.cache[0].height then Effect(s, Handled, Unchanged, [])
    else
      match FindAt(s.cache, ToUint64(event.height))
      case Some(b) =>
        Effect(s, if b.header.hash == event.hash then Handled else NeedsBootstrap, Unchanged, [])
      case None =>
        if a.block.None? || a.block.value.header.prevBlock != s.cache[|s.cache| - 1].header.hash then
          Effect(s, NeedsBootstrap, Unchanged, [])
        else
          Extend(cfg, s, a.block.value, a)
  }

  /** The part of the handler that follows `btcCache.Add`. */
  function Extend(cfg: Config, s: State, ib: IndexedBlock, a: ConnectAnswers): Effect
    requires cfg.Valid()
  {
    var t := s.(cache := Push(s.cache, s.maxEntries, ib));
    if |t.removed| > 0 then
      match LastBlocks(t.cache, ToUint64(t.removed[|t.removed| - 1].height))
      case None => Effect(t, Panicked, Added(ib), [])
      case Some(branch) =>
        if Work(branch) > t.removedWork then
          Submit(cfg, t.(removed := [], removedWork := 0), ib, branch, a)
        else
          Effect(t, Handled, Added(ib), [])
    else
      match a.lorenzoTip
      case None => Effect(t, NeedsBootstrap, Added(ib), [])
      case Some(tip) =>
        if tip < ToUint64(Pred32(ib.height)) then
          match LastBlocks(t.cache, tip + 1)
          case None => Effect(t, NeedsBootstrap, Added(ib), [])
          case Some(ibs) => Submit(cfg, t, ib, ibs, a)
        else
          Submit(cfg, t, ib, [ib], a)
  }

  /** A failed submission is only logged. */
  function Submit(cfg: Config, t: State, ib: IndexedBlock, headers: seq<IndexedBlock>, a: ConnectAnswers): Effect
    requires cfg.Valid()
  {
    var (lorenzo, _) := ProcessHeaders(t.lorenzo, headers, cfg.maxHeadersInMsg, a.submit);
    Effect(t.(lorenzo := lorenzo), Handled, Added(ib), headers)
  }

  // ---------- disconnected blocks ----------

  function OnDisconnected(s: State, event: BlockEvent): Effect {
    if |s.cache| == 0 then Effect(s, NeedsBootstrap, Unchanged, [])
    else
      var tip := s.cache[|s.cache| - 1];
      if event.hash != tip.header.hash then Effect(s, NeedsBootstrap, Unchanged, [])
      else
        Effect(s.(cache := s.cache[..|s.cache| - 1],
                  removed := s.removed + [tip],
                  removedWork := s.removedWork + tip.header.work),
               Handled, Removed(tip), [])
  }

  function OnEvent(cfg: Config, s: State, event: BlockEvent, a: ConnectAnswers): Effect
    requires cfg.Valid()
  {
    if event.connected then OnConnected(cfg, s, event, a) else OnDisconnected(s, event)
  }

  // ---------- bootstrap ----------

  /** Heights of Lorenzo's tip and base header; they are heights of BTC blocks. */
  type Height = n: int | 0 <= n < TWO_TO_THE_31 - 1

  datatype LorenzoHeights = LorenzoHeights(tip: Height, base: Height)

  /** `first` and `second` answer the queries of initBTCCache and checkConsistency. */
  datatype BootAnswers = BootAnswers(synced: bool, first: Option<LorenzoHeights>, node: BlockTree,
                                     best: Option<IndexedBlock>, second: Option<LorenzoHeights>,
                                     containsFails: bool, submit: SubmitAnswers)

  datatype BootResult = Booted | Failed | BootPanicked

  /** `tail` is the chain the cache was initialised with, `submitted` the blocks given to ProcessHeaders. */
  datatype BootEffect = BootEffect(state: State, result: BootResult, tail: seq<IndexedBlock>,
                                   submitted: seq<IndexedBlock>)

  /** Where the cache starts: the last k + w blocks up to Lorenzo's tip, but not below its base. */
  function BaseHeightOf(cfg: Config, h: LorenzoHeights): (r: Uint64)
    ensures h.base <= r
  {
    if h.tip > h.base + cfg.k + cfg.w then h.tip - cfg.k - cfg.w + 1 else h.base
  }

  function ConsistencyHeightOf(cfg: Config, h: LorenzoHeights): (r: Height) {
    if h.tip >= h.base + cfg.k then h.tip - cfg.k else h.base
  }

  function Bootstrap(cfg: Config, s: State, a: BootAnswers): BootEffect
    requires cfg.Valid()
  {
    var s0 := s.(removed := [], removedWork := 0);
    if !a.synced then BootEffect(s0, Failed, [], [])
    else if cfg.cacheSize == 0 then BootEffect(s0, BootPanicked, [], [])
    else InitCache(cfg, s0.(cache := [], maxEntries := cfg.cacheSize), a)
  }

  function InitCache(cfg: Config, s: State, a: BootAnswers): BootEffect
    requires cfg.Valid()
  {
    if a.first.None? then BootEffect(s, Failed, [], [])
    else
      match TailBlocks(a.node, a.best, BaseHeightOf(cfg, a.first.value))
      case Err(_) => BootEffect(s, BootPanicked, [], [])
      case Ok(tail) =>
        if |tail| > s.maxEntries || !NonDecreasing(tail) then BootEffect(s, BootPanicked, [], [])
        else CheckConsistency(cfg, s.(cache := tail), a)
  }

  function CheckConsistency(cfg: Config, s: State, a: BootAnswers): BootEffect
    requires cfg.Valid() && |s.cache| > 0
  {
    if a.second.None? then BootEffect(s, Failed, s.cache, [])
    else
      var height := ConsistencyHeightOf(cfg, a.second.value);
      match FindAt(s.cache, height)
      case None => BootEffect(s, BootPanicked, s.cache, [])
      case Some(b) =>
        if a.containsFails then BootEffect(s, Failed, s.cache, [])
        else if b.header.hash !in s.lorenzo.known then BootEffect(s, BootPanicked, s.cache, [])
        else SyncFrom(cfg, s, height + 1, a)
  }

  /**
    Submits everything from the first unconfirmed height except the newest `delayBlocks` blocks, then shrinks
    the cache to k + w. Cutting off more blocks than there are, or all of them, panics.
   */
  function SyncFrom(cfg: Config, s: State, startSyncHeight: Uint64, a: BootAnswers): BootEffect
    requires cfg.Valid() && |s.cache| > 0
  {
    match LastBlocks(s.cache, startSyncHeight)
    case None => BootEffect(s, BootPanicked, s.cache, [])
    case Some(ibs) =>
      if |ibs| <= cfg.delayBlocks then BootEffect(s, BootPanicked, s.cache, [])
      else
        var batch := ibs[..|ibs| - cfg.delayBlocks];
        var (lorenzo, r) := ProcessHeaders(s.lorenzo, batch, cfg.maxHeadersInMsg, a.submit);
        var t := s.(lorenzo := lorenzo);
        if r.Err? then BootEffect(t, Failed, s.cache, batch)
        else if cfg.k + cfg.w == 0 then BootEffect(t, BootPanicked, s.cache, batch)
        else
          BootEffect(t.(maxEntries := cfg.k + cfg.w, cache := TrimTo(s.cache, cfg.k + cfg.w)), Booted, s.cache, batch)
  }

  /** Attempts until one succeeds or panics; running out of answers stands for a cancelled context. */
  function BootstrapWithRetries(cfg: Config, s: State, attempts: seq<BootAnswers>): (State, BootResult)
    requires cfg.Valid()
    decreases |attempts|
  {
    if |attempts| == 0 then (s, Failed)
    else
      var e := Bootstrap(cfg, s, attempts[0]);
      if e.result.Failed? then BootstrapWithRetries(cfg, e.state, attempts[1..])
      else (e.state, e.result)
  }
}
