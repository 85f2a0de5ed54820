/**
  The started reporter: the first bootstrap and then the event loop, on the object. Whatever happens, the object
  ends in a state of the run that the same steps make, so what is proved about runs holds for the object.
 */
module ReporterLoop {
  import opened BtcTypes
  import opened LorenzoLightClient
  import opened ReporterSpec
  import opened ReporterRuns
  import opened ReorgTheorems
  import opened Reporter

  /** What other relayers insert before the turn (nothing if empty), the event, and the answers. */
  datatype Turn = Turn(others: seq<IndexedBlock>, event: BlockEvent, answers: ConnectAnswers,
                       attempts: seq<BootAnswers>)

  function AfterOthersOf(lorenzo: LightClient, t: Turn): LightClient {
    if |t.others| == 0 then lorenzo else InsertByOthers(lorenzo, t.others)
  }

  /** The event and, after an error, the bootstrap attempts. */
  function EventSteps(cfg: Config, s: State, t: Turn): seq<Step>
    requires cfg.Valid()
  {
    var e := OnEvent(cfg, s, t.event, t.answers);
    [Event(t.event, t.answers)] + if e.reaction.NeedsBootstrap? then RetrySteps(cfg, e.state, t.attempts) else []
  }

  /** One turn as steps of a run. */
  function TurnSteps(cfg: Config, s: State, t: Turn): seq<Step>
    requires cfg.Valid()
  {
    (if |t.others| == 0 then [] else [OthersInsert(t.others)])
    + EventSteps(cfg, s.(lorenzo := AfterOthersOf(s.lorenzo, t)), t)
  }

  function LoopSteps(cfg: Config, h: History, turns: seq<Turn>): seq<Step>
    requires cfg.Valid()
    decreases |turns|
  {
    if |turns| == 0 then []
    else
      var steps := TurnSteps(cfg, h.s, turns[0]);
      steps + LoopSteps(cfg, Run(cfg, h, steps).0, turns[1..])
  }

  ghost predicate AttemptsOk(tree: BlockTree, attempts: seq<BootAnswers>) {
    forall i | 0 <= i < |attempts| ::
      ViewOf(attempts[i].node, tree) && (attempts[i].best.Some? ==> Contains(tree, attempts[i].best.value))
  }

  ghost predicate TurnOk(tree: BlockTree, t: Turn) {
    (t.answers.block.Some? ==> Contains(tree, t.answers.block.value)) && AttemptsOk(tree, t.attempts)
  }

  // ---------- the object makes the run ----------

  /** One turn of the object is its steps, for any history that the object's state may have. */
  method RunTurn(r: BTCReporter, ghost tree: BlockTree, t: Turn, lorenzo: LightClient, ghost h: History)
    returns (panicked: bool, after: LightClient)
    requires r.Valid(tree) && ValidTree(tree) && TurnOk(tree, t) && h.s == r.State(lorenzo)
    modifies r`btcCache, r.btcCache, r.btcCache.data, r.reorgList
    ensures r.btcCache == old(r.btcCache) || fresh(r.btcCache)
    ensures r.btcCache.data == old(r.btcCache.data) || fresh(r.btcCache.data)
    ensures var (now, p) := Run(r.cfg, h, TurnSteps(r.cfg, h.s, t));
            panicked == p && (!panicked ==> r.Valid(tree) && r.State(after) == now.s)
  {
    hide OnEvent, ReporterSpec.BootstrapWithRetries, RetrySteps, Run;
    TurnIsRun(r.cfg, h, t);
    panicked, after := r.HandleEvent(tree, t.event, t.answers, t.attempts, AfterOthersOf(lorenzo, t));
  }

  lemma {:induction false} TurnIsRun(cfg: Config, h: History, t: Turn)
    requires cfg.Valid()
    ensures var s := h.s.(lorenzo := AfterOthersOf(h.s.lorenzo, t));
            var e := OnEvent(cfg, s, t.event, t.answers);
            var (now, panicked) := Run(cfg, h, TurnSteps(cfg, h.s, t));
            if e.reaction.NeedsBootstrap? then
              var (s', result) := ReporterSpec.BootstrapWithRetries(cfg, e.state, t.attempts);
              now.s == s' && (panicked <==> result.BootPanicked?)
            else
              now.s == e.state && (panicked <==> e.reaction.Panicked?)
  {
    hide OnEvent, ReporterSpec.BootstrapWithRetries, RetrySteps, ReporterSpec.Bootstrap;
    var s := h.s.(lorenzo := AfterOthersOf(h.s.lorenzo, t));
    if |t.others| == 0 {
      assert [] + EventSteps(cfg, s, t) == EventSteps(cfg, s, t);
      LoopTurnIsRun(cfg, h, t.event, t.answers, t.attempts);
    } else {
      var next := AfterOthers(h, t.others);
      var steps := TurnSteps(cfg, h.s, t);
      assert steps[0] == OthersInsert(t.others) && steps[1..] == EventSteps(cfg, s, t);
      LoopTurnIsRun(cfg, next, t.event, t.answers, t.attempts);
    }
  }

  /** Any number of turns; the loop ends early when a turn panics. */
  method EventLoop(r: BTCReporter, ghost tree: BlockTree, turns: seq<Turn>, lorenzo: LightClient, ghost h: History)
    returns (panicked: bool, after: LightClient)
    requires r.Valid(tree) && ValidTree(tree) && h.s == r.State(lorenzo)
    requires forall i | 0 <= i < |turns| :: TurnOk(tree, turns[i])
    modifies r`btcCache, r.btcCache, r.btcCache.data, r.reorgList
    ensures var (now, p) := Run(r.cfg, h, LoopSteps(r.cfg, h, turns));
            panicked == p && (!panicked ==> r.Valid(tree) && r.State(after) == now.s)
  {
    hide Run, TurnSteps, TurnOk;
    after, panicked := lorenzo, false;
    ghost var now := h;
    for i := 0 to |turns|
      invariant r.Valid(tree) && now.s == r.State(after) && !panicked
      invariant r.btcCache == old(r.btcCache) || fresh(r.btcCache)
      invariant r.btcCache.data == old(r.btcCache.data) || fresh(r.btcCache.data)
      invariant Run(r.cfg, now, LoopSteps(r.cfg, now, turns[i..])) == Run(r.cfg, h, LoopSteps(r.cfg, h, turns))
    {
      ghost var before := now;
      ghost var steps := TurnSteps(r.cfg, now.s, turns[i]);
      panicked, after := RunTurn(r, tree, turns[i], after, now);
      LoopUnfolds(r.cfg, before, turns[i..]);
      now := Run(r.cfg, before, steps).0;
      if panicked {
        return;
      }
      assert turns[i..][1..] == turns[i + 1..];
    }
    NoSteps(tree, r.cfg, now);
  }

  lemma {:induction false} LoopUnfolds(cfg: Config, h: History, turns: seq<Turn>)
    requires cfg.Valid() && |turns| > 0
    ensures var steps := TurnSteps(cfg, h.s, turns[0]);
            var (next, panicked) := Run(cfg, h, steps);
            && (panicked ==> Run(cfg, h, LoopSteps(cfg, h, turns)).1)
            && (!panicked ==> Run(cfg, h, LoopSteps(cfg, h, turns)) == Run(cfg, next, LoopSteps(cfg, next, turns[1..])))
  {
    hide Run, TurnSteps;
    var steps := TurnSteps(cfg, h.s, turns[0]);
    var (next, panicked) := Run(cfg, h, steps);
    if panicked {
      PanicEndsRun(cfg, h, steps, LoopSteps(cfg, next, turns[1..]));
    } else {
      RunConcat(cfg, h, steps, LoopSteps(cfg, next, turns[1..]));
    }
  }

  // ---------- a started reporter ----------

  /** The history of a reporter that has just been created. */
  ghost function Created(cfg: Config, lorenzo: LightClient): History {
    History(State([], cfg.cacheSize, [], 0, lorenzo), [], [], [[]])
  }

  /** The first bootstrap, and the turns if it has not panicked. */
  function StartedSteps(cfg: Config, h: History, attempts: seq<BootAnswers>, turns: seq<Turn>): seq<Step>
    requires cfg.Valid()
  {
    var boots := RetrySteps(cfg, h.s, attempts);
    boots + LoopSteps(cfg, Run(cfg, h, boots).0, turns)
  }

  /**
    A reporter that is created, bootstrapped and driven by any turns panics exactly when the run of its steps does;
    otherwise its cache is a linked chain within its limit, its reorg list's work is right, and Lorenzo is
    ancestor-closed and has accepted no header from it twice.
   */
  method StartReporter(ghost tree: BlockTree, cfg: Config, attempts: seq<BootAnswers>, turns: seq<Turn>,
                       lorenzo: LightClient)
    returns (r: BTCReporter, panicked: bool, after: LightClient)
    requires cfg.Valid() && 0 < cfg.cacheSize && ValidTree(tree) && LorenzoInv(tree, lorenzo)
    requires AttemptsOk(tree, attempts) && forall i | 0 <= i < |turns| :: TurnOk(tree, turns[i])
    requires StepsOk(tree, cfg, Created(cfg, lorenzo), StartedSteps(cfg, Created(cfg, lorenzo), attempts, turns))
    ensures var h := Created(cfg, lorenzo);
            var (now, p) := Run(cfg, h, StartedSteps(cfg, h, attempts, turns));
            panicked == p && (!panicked ==> r.Valid(tree) && r.State(after) == now.s)
    ensures !panicked ==>
              && Linked(r.btcCache.Blocks()) && |r.btcCache.Blocks()| <= r.btcCache.maxEntries
              && r.reorgList.workOfRemovedBlocks == Work(r.reorgList.removedBlocks)
              && AncestorClosed(tree, after) && AcceptedOnce(after)
  {
    hide Run, TurnOk, StepsOk, RetrySteps, LoopSteps, ReporterSpec.BootstrapWithRetries;
    ghost var h := Created(cfg, lorenzo);
    ghost var boots := RetrySteps(cfg, h.s, attempts);
    r := new BTCReporter(cfg);
    assert r.Valid(tree) && r.State(lorenzo) == h.s;
    RetriesAreSteps(cfg, h, attempts);
    var result;
    result, after := r.BootstrapWithRetries(tree, attempts, lorenzo);
    panicked := result.BootPanicked?;
    ghost var booted := Run(cfg, h, boots).0;
    if panicked {
      PanicEndsRun(cfg, h, boots, LoopSteps(cfg, booted, turns));
      return;
    }
    RunConcat(cfg, h, boots, LoopSteps(cfg, booted, turns));
    panicked, after := EventLoop(r, tree, turns, after, booted);
    if !panicked {
      CreatedIsInitial(tree, cfg, lorenzo);
      ReachableStates(tree, cfg, h, StartedSteps(cfg, h, attempts, turns));
    }
  }

  lemma CreatedIsInitial(tree: BlockTree, cfg: Config, lorenzo: LightClient)
    requires 0 < cfg.cacheSize && LorenzoInv(tree, lorenzo)
    ensures Initial(tree, Created(cfg, lorenzo))
  {
  }
}
