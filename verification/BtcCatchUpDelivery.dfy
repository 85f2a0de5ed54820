/**
  The BTC catch-up when the node keeps to one chain and nothing fails: no panic, and Lorenzo gets exactly what is
  submitted. Shutdown requests, failing fetches and other relayers may still occur.
 */
module BtcCatchUpDelivery {
  import opened Prelude
  import opened BtcTypes
  import opened BoundedCache
  import opened BlockQuery
  import opened LorenzoLightClient
  import opened HeaderSubmission
  import opened Tiling
  import opened BtcCatchUp

  /** The planned heights on one chain of the tree that attaches to Lorenzo's tip. */
  ghost predicate ChainAbove(tree: BlockTree, p: Params, chain: seq<IndexedBlock>) {
    && p.Valid()
    && |chain| == LastHeight(p.lorenzoTip, p.limit) - p.lorenzoTip
    && Linked(chain) && AllIn(tree, chain) && HeightsFrom(chain, p.lorenzoTip + 1)
    && (|chain| > 0 ==> chain[0].header.prevBlock == p.tipHash)
  }

  /** `batch` is the part of the chain that the tile covers. */
  ghost predicate IsSlice(p: Params, chain: seq<IndexedBlock>, batch: seq<IndexedBlock>, tile: (nat, nat)) {
    && p.lorenzoTip < tile.0 <= tile.1 && tile.1 - p.lorenzoTip <= |chain|
    && batch == chain[tile.0 - p.lorenzoTip - 1..tile.1 - p.lorenzoTip]
  }

  /** Fetches that succeed give parts of the chain; no query of the consumer fails and its messages are delivered. */
  ghost predicate Benign(p: Params, chain: seq<IndexedBlock>, s: State, step: Step) {
    match step
    case FetchDone(Some(ibs)) => s.producer.Fetching? ==> IsSlice(p, chain, ibs, (s.producer.h, s.producer.end))
    case Consume(a) =>
      && a.queryFailsAt.None? && |a.deliveries| >= BATCH_SIZE
      && forall i | 0 <= i < |a.deliveries| :: a.deliveries[i] == Delivered
    case _ => true
  }

  ghost predicate BenignRun(p: Params, chain: seq<IndexedBlock>, s: State, steps: seq<Step>)
    requires 0 < p.maxHeadersInMsg
    decreases |steps|
  {
    |steps| > 0 && Enabled(s, steps[0]) ==>
      Benign(p, chain, s, steps[0]) && BenignRun(p, chain, Next(p, s, steps[0]), steps[1..])
  }

  ghost predicate Alone(steps: seq<Step>) {
    forall k | 0 <= k < |steps| :: !steps[k].Relay?
  }

  ghost predicate Slices(p: Params, chain: seq<IndexedBlock>, batches: seq<seq<IndexedBlock>>, tiles: seq<(nat, nat)>) {
    |batches| <= |tiles| && forall k | 0 <= k < |batches| :: IsSlice(p, chain, batches[k], tiles[k])
  }

  function AllTiles(p: Params): seq<(nat, nat)> {
    Tiles(p.lorenzoTip + 1, p.limit)
  }

  /** `alone` says that no other relayer has been active. */
  ghost predicate BenignInv(p: Params, chain: seq<IndexedBlock>, lorenzo: LightClient, s: State, alone: bool) {
    && Slices(p, chain, InFlight(s), AllTiles(p))
    && !s.consumer.Crashed?
    && lorenzo.known <= s.lorenzo.known
    && (alone ==> s.lorenzo.known == lorenzo.known + HashesOf(Flatten(s.done)))
  }

  // ---------- slices ----------

  lemma SlicesPrefix(p: Params, chain: seq<IndexedBlock>, a: seq<seq<IndexedBlock>>, b: seq<seq<IndexedBlock>>,
                     tiles: seq<(nat, nat)>)
    requires Slices(p, chain, a + b, tiles)
    ensures Slices(p, chain, a, tiles)
  {
    hide IsSlice;
    assert forall k | 0 <= k < |a| :: (a + b)[k] == a[k];
  }

  /** The first slices are the front of the chain. */
  lemma {:induction false} SlicesAreAFront(p: Params, chain: seq<IndexedBlock>, batches: seq<seq<IndexedBlock>>)
    requires p.Valid() && Slices(p, chain, batches, AllTiles(p))
    ensures |Flatten(batches)| <= |chain| && Flatten(batches) == chain[..|Flatten(batches)|]
    ensures |batches| > 0 ==> |Flatten(batches)| == AllTiles(p)[|batches| - 1].1 - p.lorenzoTip
    ensures |batches| < |AllTiles(p)| ==> AllTiles(p)[|batches|].0 == p.lorenzoTip + 1 + |Flatten(batches)|
    decreases |batches|
  {
    hide AllTiles, Flatten, Slices, IsSlice, LastHeight, TilesRange;
    var tiles := AllTiles(p);
    var low, high := p.lorenzoTip + 1, LastHeight(p.lorenzoTip, p.limit);
    TilesOf(p);
    if |batches| > 0 {
      var n := |batches| - 1;
      var front, last := batches[..n], batches[n];
      assert batches == front + [last];
      SlicesSplit(p, chain, front, last, tiles);
      SlicesAreAFront(p, chain, front);
      FlattenSnoc(front, last);
      TileBorders(tiles, low, high, BATCH_SIZE, n + 1);
      FrontGrows(p, chain, Flatten(front), last, tiles[n]);
    } else {
      EmptyFlatten();
      FirstTile(tiles, low, high);
    }
  }

  lemma SlicesSplit(p: Params, chain: seq<IndexedBlock>, front: seq<seq<IndexedBlock>>, last: seq<IndexedBlock>,
                    tiles: seq<(nat, nat)>)
    requires Slices(p, chain, front + [last], tiles)
    ensures Slices(p, chain, front, tiles) && |front| < |tiles| && IsSlice(p, chain, last, tiles[|front|])
  {
    hide IsSlice;
    SlicesPrefix(p, chain, front, [last], tiles);
    assert (front + [last])[|front|] == last;
  }

  lemma FrontGrows(p: Params, chain: seq<IndexedBlock>, front: seq<IndexedBlock>, last: seq<IndexedBlock>,
                   tile: (nat, nat))
    requires |front| <= |chain| && front == chain[..|front|]
    requires IsSlice(p, chain, last, tile) && tile.0 == p.lorenzoTip + 1 + |front|
    ensures |front + last| == tile.1 - p.lorenzoTip <= |chain| && front + last == chain[..|front + last|]
  {
  }

  lemma EmptyFlatten()
    ensures Flatten<IndexedBlock>([]) == []
  {
  }

  lemma TilesOf(p: Params)
    requires p.Valid()
    ensures TilesRange(AllTiles(p), p.lorenzoTip + 1, LastHeight(p.lorenzoTip, p.limit), BATCH_SIZE)
  {
    TilesAreExact(p.lorenzoTip, p.limit);
  }

  lemma {:induction false} FirstTile(tiles: seq<(nat, nat)>, low: nat, high: int)
    requires TilesRange(tiles, low, high, BATCH_SIZE)
    ensures |tiles| > 0 ==> tiles[0].0 == low
  {
  }

  // ---------- the consumer's step ----------

  /** The batch at the head of the channel is the next piece of the chain. */
  lemma {:induction false} HeadIsNextPiece(tree: BlockTree, p: Params, chain: seq<IndexedBlock>, s: State)
    returns (m: nat, n: nat)
    requires ChainAbove(tree, p, chain) && Slices(p, chain, InFlight(s), AllTiles(p))
    requires |s.ibCh| > 0 && s.rejected == []
    ensures m < n <= |chain| && n - m <= BATCH_SIZE
    ensures Flatten(s.done) == chain[..m] && s.ibCh[0] == chain[m..n]
  {
    hide AllTiles, Flatten, Linked, AllIn, HeightsFrom, LastHeight, TilesRange;
    var k := |s.done|;
    var later := s.ibCh + if s.producer.Sending? then [s.producer.batch] else [];
    assert InFlight(s) == s.done + later;
    assert InFlight(s)[k] == s.ibCh[0];
    SlicesPrefix(p, chain, s.done, later, AllTiles(p));
    SlicesAreAFront(p, chain, s.done);
    TilesOf(p);
    TileBorders(AllTiles(p), p.lorenzoTip + 1, LastHeight(p.lorenzoTip, p.limit), BATCH_SIZE, k + 1);
    TileSize(AllTiles(p), p.lorenzoTip + 1, LastHeight(p.lorenzoTip, p.limit), k);
    assert IsSlice(p, chain, s.ibCh[0], AllTiles(p)[k]);
    m := |Flatten(s.done)|;
    n := AllTiles(p)[k].1 - p.lorenzoTip;
  }

  lemma {:induction false} TileSize(tiles: seq<(nat, nat)>, low: nat, high: int, k: nat)
    requires TilesRange(tiles, low, high, BATCH_SIZE) && k < |tiles|
    ensures tiles[k].1 - tiles[k].0 + 1 <= BATCH_SIZE
    decreases k
  {
    if k > 0 {
      TileSize(tiles[1..], tiles[0].1 + 1, high, k - 1);
    }
  }

  /** A piece of the chain attaches to what is done, and Lorenzo has the block it attaches to. */
  lemma PieceAttaches(tree: BlockTree, p: Params, chain: seq<IndexedBlock>, s: State, m: nat, n: nat)
    requires ChainAbove(tree, p, chain) && DoneOk(tree, p, s) && p.tipHash in s.lorenzo.known
    requires m < n <= |chain| && Flatten(s.done) == chain[..m]
    ensures var ibs := chain[m..n];
            && |ibs| == n - m && Linked(ibs) && AllIn(tree, ibs) && ibs[0].height == p.lorenzoTip + 1 + m
            && ibs[0].header.prevBlock == s.newTip && s.newTip in s.lorenzo.known
  {
    hide LastHeight;
    LinkedSlice(chain, m, n);
    assert forall i | 0 <= i < n - m :: chain[m..n][i] == chain[m + i];
    if m > 0 {
      assert Attaches(chain[m - 1], chain[m]);
      assert Flatten(s.done)[m - 1] == chain[m - 1];
    }
  }

  /** Delivering a list that attaches adds exactly its hashes. */
  lemma {:induction false} DeliveryAdds(tree: BlockTree, p: Params, lorenzo: LightClient, ibs: seq<IndexedBlock>,
                                        a: SubmitAnswers)
    requires p.Valid() && ValidTree(tree) && LorenzoOk(tree, p, lorenzo)
    requires 0 < |ibs| <= BATCH_SIZE && Linked(ibs) && AllIn(tree, ibs) && p.lorenzoTip < ibs[0].height
    requires ibs[0].header.prevBlock in lorenzo.known
    requires a.queryFailsAt.None? && |a.deliveries| >= BATCH_SIZE
    requires forall i | 0 <= i < |a.deliveries| :: a.deliveries[i] == Delivered
    ensures var (after, r) := ProcessHeaders(lorenzo, ibs, p.maxHeadersInMsg, a);
            r.Ok? && after.known == lorenzo.known + HashesOf(ibs)
  {
    hide ProcessHeaders, AncestorClosed, AcceptedOnce, Linked;
    BaseIsBelow(tree, lorenzo, ibs);
    SubmissionSucceedsIffItAttaches(tree, lorenzo, ibs, p.maxHeadersInMsg, a);
    var k := ProcessHeadersAccepts(tree, lorenzo, ibs, p.maxHeadersInMsg, a);
    KnownPlusMissing(lorenzo.known, ibs, FirstUnknown(lorenzo.known, ibs));
  }

  lemma KnownPlusMissing(known: set<Hash>, ibs: seq<IndexedBlock>, start: nat)
    requires start <= |ibs| && forall i | 0 <= i < start :: ibs[i].header.hash in known
    ensures known + HashesOf(ibs[start..|ibs|]) == known + HashesOf(ibs)
  {
    assert ibs == ibs[..start] + ibs[start..|ibs|];
    HashesOfConcat(ibs[..start], ibs[start..|ibs|]);
  }

  lemma {:induction false} BenignConsume(tree: BlockTree, p: Params, chain: seq<IndexedBlock>, lorenzo: LightClient,
                                         s: State, a: SubmitAnswers, alone: bool)
    requires ValidTree(tree) && ChainAbove(tree, p, chain) && p.tipHash in lorenzo.known
    requires Inv(tree, p, s) && BenignInv(p, chain, lorenzo, s, alone)
    requires Enabled(s, Consume(a)) && Benign(p, chain, s, Consume(a))
    ensures BenignInv(p, chain, lorenzo, Next(p, s, Consume(a)), alone)
  {
    hide ProcessHeaders, ConsumeBatch, Next, MatchTiles, Remaining, Linked, AllIn, HeightsFrom, ValidTree, LorenzoOk,
      DoneOk, Tiles, Flatten, InFlight, Slices, ChainAbove;
    assert s.rejected == [];
    var ibs := s.ibCh[0];
    var m, n := HeadIsNextPiece(tree, p, chain, s);
    ChainIsPlanned(tree, p, chain);
    PieceAttaches(tree, p, chain, s, m, n);
    DeliveryAdds(tree, p, s.lorenzo, ibs, a);
    ConsumeCases(p, s, a);
    var next := Next(p, s, Consume(a));
    BatchMoves(s, next, ibs);
    FlattenSnoc(s.done, ibs);
    HashesOfConcat(Flatten(s.done), ibs);
  }

  lemma ChainIsPlanned(tree: BlockTree, p: Params, chain: seq<IndexedBlock>)
    requires ChainAbove(tree, p, chain)
    ensures p.Valid()
  {
  }

  // ---------- every benign step, and runs ----------

  lemma {:induction false} BenignFetch(tree: BlockTree, p: Params, chain: seq<IndexedBlock>, lorenzo: LightClient,
                                       s: State, ibs: seq<IndexedBlock>, alone: bool)
    requires p.Valid() && Inv(tree, p, s) && BenignInv(p, chain, lorenzo, s, alone)
    requires Enabled(s, FetchDone(Some(ibs))) && Benign(p, chain, s, FetchDone(Some(ibs)))
    ensures BenignInv(p, chain, lorenzo, Next(p, s, FetchDone(Some(ibs))), alone)
  {
    hide DoneOk, LorenzoOk, IsRange, AllIn, IsSlice, Flatten;
    var next := Next(p, s, FetchDone(Some(ibs)));
    var n := |InFlight(s)|;
    assert InFlight(next) == InFlight(s) + [ibs];
    assert AllTiles(p)[n..][0] == AllTiles(p)[n];
  }

  lemma {:induction false} BenignStep(tree: BlockTree, p: Params, chain: seq<IndexedBlock>, lorenzo: LightClient,
                                      s: State, step: Step, alone: bool)
    requires ValidTree(tree) && ChainAbove(tree, p, chain) && p.tipHash in lorenzo.known
    requires Inv(tree, p, s) && BenignInv(p, chain, lorenzo, s, alone)
    requires Enabled(s, step) && Benign(p, chain, s, step) && (alone ==> !step.Relay?)
    ensures BenignInv(p, chain, lorenzo, Next(p, s, step), alone)
  {
    hide Inv, ConsumeBatch, Flatten, ValidTree, Slices, Linked, AllIn, HeightsFrom;
    match step
    case Consume(a) => BenignConsume(tree, p, chain, lorenzo, s, a, alone);
    case FetchDone(Some(ibs)) => BenignFetch(tree, p, chain, lorenzo, s, ibs, alone);
    case Send => assert InFlight(Next(p, s, Send)) == InFlight(s);
    case _ => assert InFlight(Next(p, s, step)) == InFlight(s);
  }

  lemma {:induction false} BenignRunKeeps(tree: BlockTree, p: Params, chain: seq<IndexedBlock>, lorenzo: LightClient,
                                          s: State, steps: seq<Step>, alone: bool)
    requires ValidTree(tree) && ChainAbove(tree, p, chain) && p.tipHash in lorenzo.known
    requires Inv(tree, p, s) && BenignInv(p, chain, lorenzo, s, alone) && (alone ==> Alone(steps))
    requires IsRun(tree, p, s, steps) && BenignRun(p, chain, s, steps)
    ensures BenignInv(p, chain, lorenzo, Final(p, s, steps), alone)
    decreases |steps|
  {
    hide Inv, Next, StepOk, BenignInv, Benign, ValidTree, Linked, AllIn, HeightsFrom;
    if |steps| > 0 {
      StepKeepsInv(tree, p, s, steps[0]);
      BenignStep(tree, p, chain, lorenzo, s, steps[0], alone);
      assert forall k | 0 <= k < |steps| - 1 :: steps[1..][k] == steps[k + 1];
      BenignRunKeeps(tree, p, chain, lorenzo, Next(p, s, steps[0]), steps[1..], alone);
    }
  }

  lemma BenignStart(p: Params, chain: seq<IndexedBlock>, lorenzo: LightClient)
    ensures BenignInv(p, chain, lorenzo, Start(p, lorenzo), true)
  {
    assert lorenzo.known + HashesOf([]) == lorenzo.known;
  }

  /**
    While the node keeps to one chain above Lorenzo's tip and no query or delivery of the consumer fails, the consumer
    never panics and what it has submitted is the front of that chain; when it returns on the end signal with
    nothing left in the channel and no shutdown requested, it is the whole planned part. A run that cannot go on, with
    no shutdown requested and no failing fetch, has returned on the end signal, and what was submitted and what is
    left in the channel are the whole planned part. With no other relayer active, Lorenzo knows exactly the submitted
    blocks and what it knew before.
   */
  lemma {:induction false} CatchUpDeliversTheChain(tree: BlockTree, p: Params, chain: seq<IndexedBlock>,
                                                   lorenzo: LightClient, steps: seq<Step>)
    requires ValidTree(tree) && ChainAbove(tree, p, chain) && LorenzoOk(tree, p, lorenzo)
    requires p.tipHash in lorenzo.known
    requires IsRun(tree, p, Start(p, lorenzo), steps) && BenignRun(p, chain, Start(p, lorenzo), steps)
    ensures var f := Final(p, Start(p, lorenzo), steps);
            var headers := Flatten(f.done);
            && !f.consumer.Crashed?
            && |headers| <= |chain| && headers == chain[..|headers|]
            && (f.consumer.ReturnedOver? && !f.quit && f.ibCh == [] ==> headers == chain)
            && (Stuck(f) && NoShutdown(steps) && FetchesSucceed(steps) ==>
                  f.consumer.ReturnedOver? && headers + Flatten(f.ibCh) == chain)
            && (Alone(steps) ==> f.lorenzo.known == lorenzo.known + HashesOf(headers))
  {
    hide Stuck, Inv, Next, IsRun, BenignRun, Final, Flatten, ValidTree, Linked, AllIn, HeightsFrom, LorenzoOk, Tiles,
      TilesRange, IsSlice, MatchTiles;
    var f := Final(p, Start(p, lorenzo), steps);
    StartInv(tree, p, lorenzo);
    BenignStart(p, chain, lorenzo);
    WeakerStart(p, chain, lorenzo);
    BenignRunKeeps(tree, p, chain, lorenzo, Start(p, lorenzo), steps, Alone(steps));
    var later := f.rejected + f.ibCh + if f.producer.Sending? then [f.producer.batch] else [];
    assert InFlight(f) == f.done + later;
    SlicesPrefix(p, chain, f.done, later, AllTiles(p));
    SlicesAreAFront(p, chain, f.done);
    if Stuck(f) && NoShutdown(steps) && FetchesSucceed(steps) {
      ConsumerEndsForAReason(tree, p, lorenzo, steps);
      FlagsHaveCauses(tree, p, Start(p, lorenzo), steps);
    }
    if f.consumer.ReturnedOver? && !f.quit {
      OverLeavesAtMostTheChannel(tree, p, lorenzo, steps);
      AllFetched(tree, p, chain, f);
      EmptyFlatten();
    }
  }

  /** The submitted batches and those in the channel are the whole planned part once there is one for every tile. */
  lemma {:induction false} AllFetched(tree: BlockTree, p: Params, chain: seq<IndexedBlock>, f: State)
    requires ChainAbove(tree, p, chain) && Slices(p, chain, InFlight(f), AllTiles(p))
    requires f.rejected == [] && |f.done| + |f.ibCh| == |AllTiles(p)|
    ensures Flatten(f.done) + Flatten(f.ibCh) == chain
  {
    hide Linked, AllIn, HeightsFrom, Flatten, Tiles, TilesRange, IsSlice, LastHeight;
    var batches := f.done + f.ibCh;
    var low, high := p.lorenzoTip + 1, LastHeight(p.lorenzoTip, p.limit);
    assert InFlight(f) == batches;
    SlicesAreAFront(p, chain, batches);
    FlattenConcat(f.done, f.ibCh);
    TilesOf(p);
    if |batches| > 0 {
      TileBorders(AllTiles(p), low, high, BATCH_SIZE, |batches|);
    } else {
      NoTiles(AllTiles(p), low, high);
    }
  }

  lemma WeakerStart(p: Params, chain: seq<IndexedBlock>, lorenzo: LightClient)
    requires BenignInv(p, chain, lorenzo, Start(p, lorenzo), true)
    ensures BenignInv(p, chain, lorenzo, Start(p, lorenzo), false)
  {
  }

  lemma {:induction false} NoTiles(tiles: seq<(nat, nat)>, low: nat, high: int)
    requires TilesRange(tiles, low, high, BATCH_SIZE) && |tiles| == 0
    ensures high == low - 1
  {
  }

  // ---------- everything can be delivered ----------

  function AllDelivered(): SubmitAnswers {
    SubmitAnswers(None, seq(BATCH_SIZE, _ => Delivered))
  }

  /** The batch that the producer is about to fetch is a part of the chain. */
  lemma {:induction false} FetchingIsInChain(tree: BlockTree, p: Params, chain: seq<IndexedBlock>, s: State)
    requires ChainAbove(tree, p, chain) && Inv(tree, p, s) && s.producer.Fetching?
    ensures p.lorenzoTip < s.producer.h <= s.producer.end && s.producer.end - p.lorenzoTip <= |chain|
  {
    hide DoneOk, LorenzoOk, IsRange, AllIn, Linked, HeightsFrom, LastHeight, TilesRange;
    var tiles := AllTiles(p);
    var n := |InFlight(s)|;
    assert tiles[n..][0] == tiles[n];
    TilesOf(p);
    TileBorders(tiles, p.lorenzoTip + 1, LastHeight(p.lorenzoTip, p.limit), BATCH_SIZE, n + 1);
  }

  lemma PieceIsRange(tree: BlockTree, p: Params, chain: seq<IndexedBlock>, h: nat, end: nat)
    requires ChainAbove(tree, p, chain) && p.lorenzoTip < h <= end && end - p.lorenzoTip <= |chain|
    ensures var s := chain[h - p.lorenzoTip - 1..end - p.lorenzoTip];
            IsRange(s, h, end) && AllIn(tree, s)
  {
    hide LastHeight;
    var m, n := h - p.lorenzoTip - 1, end - p.lorenzoTip;
    LinkedSlice(chain, m, n);
    assert forall i | 0 <= i < n - m :: chain[m..n][i] == chain[m + i];
  }

  /** A step in which nothing fails, and which sees the end of production only when the channel is empty. */
  lemma {:induction false} BenignStepExists(tree: BlockTree, p: Params, chain: seq<IndexedBlock>, s: State)
    returns (step: Step)
    requires ChainAbove(tree, p, chain) && Inv(tree, p, s) && s.consumer.Waiting? && !FetchFailed(s)
    ensures Enabled(s, step) && StepOk(tree, s, step) && Benign(p, chain, s, step)
    ensures !step.Quit? && !step.Relay? && step != FetchDone(None)
    ensures step.SeeOver? ==> s.ibCh == [] && s.producer.Stopped?
    ensures !step.SeeQuit? && !step.HandError?
  {
    hide DoneOk, LorenzoOk, AllIn, IsRange, Linked, HeightsFrom, LastHeight, MatchTiles, Remaining;
    if s.producer.Looping? {
      step := ProducerTurn;
    } else if s.producer.Fetching? {
      var h, end := s.producer.h, s.producer.end;
      FetchingIsInChain(tree, p, chain, s);
      PieceIsRange(tree, p, chain, h, end);
      step := FetchDone(Some(chain[h - p.lorenzoTip - 1..end - p.lorenzoTip]));
    } else if Enabled(s, Send) {
      step := Send;
    } else if |s.ibCh| > 0 {
      step := Consume(AllDelivered());
    } else {
      step := SeeOver;
    }
  }

  /** A step of that kind leaves the consumer waiting, unless it is the last one. */
  lemma {:induction false} ConsumerStays(p: Params, s: State, step: Step)
    requires p.Valid() && Enabled(s, step) && s.consumer.Waiting? && !Next(p, s, step).consumer.Crashed?
    requires !step.SeeQuit? && !step.HandError?
    ensures var next := Next(p, s, step);
            if step.SeeOver? then next.consumer.ReturnedOver? && next.ibCh == s.ibCh else next.consumer.Waiting?
  {
    hide ProcessHeaders, InsertByOthers;
  }

  lemma {:induction false} BenignRunCanBeFinished(tree: BlockTree, p: Params, chain: seq<IndexedBlock>,
      lorenzo: LightClient, s: State) returns (steps: seq<Step>)
    requires ValidTree(tree) && ChainAbove(tree, p, chain) && p.tipHash in lorenzo.known
    requires Inv(tree, p, s) && BenignInv(p, chain, lorenzo, s, false) && HeightsInRange(p, s.producer)
    requires s.consumer.Waiting? && !FetchFailed(s)
    ensures p.Valid() && IsRun(tree, p, s, steps) && BenignRun(p, chain, s, steps)
    ensures NoShutdown(steps) && FetchesSucceed(steps)
    ensures Final(p, s, steps).consumer.ReturnedOver? && Final(p, s, steps).ibCh == []
    decreases Measure(p, s)
  {
    hide Inv, Next, StepOk, Benign, Linked, AllIn, HeightsInRange, Measure, ValidTree, FetchFailed, Enabled, Slices,
      ChainAbove;
    ChainIsPlanned(tree, p, chain);
    var step := BenignStepExists(tree, p, chain, s);
    var next := Next(p, s, step);
    StepKeepsInv(tree, p, s, step);
    BenignStep(tree, p, chain, lorenzo, s, step, false);
    StepFlags(p, s, step);
    ConsumerStays(p, s, step);
    MeasureIsNat(p, s);
    StepDecreasesMeasure(p, s, step);
    var rest := [];
    if !step.SeeOver? {
      rest := BenignRunCanBeFinished(tree, p, chain, lorenzo, next);
    }
    steps := [step] + rest;
    assert steps[1..] == rest;
  }

  lemma {:induction false} RunsConcat(tree: BlockTree, p: Params, chain: seq<IndexedBlock>, s: State, a: seq<Step>,
                                      b: seq<Step>)
    requires 0 < p.maxHeadersInMsg && IsRun(tree, p, s, a) && BenignRun(p, chain, s, a)
    requires IsRun(tree, p, Final(p, s, a), b) && BenignRun(p, chain, Final(p, s, a), b)
    ensures IsRun(tree, p, s, a + b) && BenignRun(p, chain, s, a + b)
    ensures Final(p, s, a + b) == Final(p, Final(p, s, a), b)
    decreases |a|
  {
    hide Next, StepOk, Benign;
    if |a| == 0 {
      assert a + b == b;
    } else {
      assert (a + b)[1..] == a[1..] + b;
      RunsConcat(tree, p, chain, Next(p, s, a[0]), a[1..], b);
    }
  }

  /**
    Whatever the schedule so far, as long as nothing has failed, no shutdown was requested and the consumer has not
    returned, there is a way to go on in which it submits the whole planned part of the chain.
   */
  lemma {:induction false} CatchUpCanBeFinished(tree: BlockTree, p: Params, chain: seq<IndexedBlock>,
      lorenzo: LightClient, steps: seq<Step>) returns (more: seq<Step>)
    requires ValidTree(tree) && ChainAbove(tree, p, chain) && LorenzoOk(tree, p, lorenzo)
    requires p.tipHash in lorenzo.known
    requires IsRun(tree, p, Start(p, lorenzo), steps) && BenignRun(p, chain, Start(p, lorenzo), steps)
    requires NoShutdown(steps) && FetchesSucceed(steps) && Final(p, Start(p, lorenzo), steps).consumer.Waiting?
    ensures IsRun(tree, p, Start(p, lorenzo), steps + more) && BenignRun(p, chain, Start(p, lorenzo), steps + more)
    ensures var f := Final(p, Start(p, lorenzo), steps + more);
            f.consumer.ReturnedOver? && f.ibCh == [] && Flatten(f.done) == chain
  {
    hide Inv, Next, IsRun, BenignRun, Final, Flatten, Linked, AllIn, LorenzoOk, ValidTree, BenignInv, ChainAbove,
      HeightsInRange, Measure;
    var start := Start(p, lorenzo);
    ChainIsPlanned(tree, p, chain);
    StartInv(tree, p, lorenzo);
    StartIsInRange(p, lorenzo);
    BenignStart(p, chain, lorenzo);
    WeakerStart(p, chain, lorenzo);
    BenignRunKeeps(tree, p, chain, lorenzo, start, steps, false);
    RunKeepsInv(tree, p, start, steps);
    RunsAreBounded(tree, p, start, steps);
    FlagsHaveCauses(tree, p, start, steps);
    more := BenignRunCanBeFinished(tree, p, chain, lorenzo, Final(p, start, steps));
    RunsConcat(tree, p, chain, start, steps, more);
    assert forall k | 0 <= k < |more| :: (steps + more)[|steps| + k] == more[k];
    FlagsHaveCauses(tree, p, start, steps + more);
    CatchUpDeliversTheChain(tree, p, chain, lorenzo, steps + more);
  }

  lemma StartIsInRange(p: Params, lorenzo: LightClient)
    requires p.Valid()
    ensures HeightsInRange(p, Start(p, lorenzo).producer)
  {
  }

  // ---------- the consumer's free choice ----------

  function Drain(n: nat, last: Step): seq<Step> {
    if n == 0 then [last] else [Consume(AllDelivered())] + Drain(n - 1, last)
  }

  lemma {:induction false} OneBatchIsSubmitted(tree: BlockTree, p: Params, chain: seq<IndexedBlock>,
      lorenzo: LightClient, s: State)
    requires ValidTree(tree) && ChainAbove(tree, p, chain) && p.tipHash in lorenzo.known && p.Valid()
    requires Inv(tree, p, s) && BenignInv(p, chain, lorenzo, s, false) && s.consumer.Waiting? && |s.ibCh| > 0
    ensures var next := Next(p, s, Consume(AllDelivered()));
            && Inv(tree, p, next) && BenignInv(p, chain, lorenzo, next, false) && next.consumer.Waiting?
            && next.done == s.done + [s.ibCh[0]] && next.ibCh == s.ibCh[1..]
            && next.producer == s.producer && next.overCh == s.overCh && next.quit == s.quit
  {
    hide Inv, Next, Linked, AllIn, ValidTree, ProcessHeaders, ConsumeBatch, Slices, ChainAbove, Flatten;
    BenignStep(tree, p, chain, lorenzo, s, Consume(AllDelivered()), false);
    StepKeepsInv(tree, p, s, Consume(AllDelivered()));
    HeadIsNotEmpty(tree, p, chain, s);
    ConsumeCases(p, s, AllDelivered());
  }

  lemma HeadIsNotEmpty(tree: BlockTree, p: Params, chain: seq<IndexedBlock>, s: State)
    requires ChainAbove(tree, p, chain) && Slices(p, chain, InFlight(s), AllTiles(p)) && |s.ibCh| > 0
    requires Inv(tree, p, s) && !s.consumer.Crashed?
    ensures |s.ibCh[0]| > 0
  {
    hide DoneOk, LorenzoOk, MatchTiles, Remaining, Linked, AllIn, Slices;
    var _, _ := HeadIsNextPiece(tree, p, chain, s);
  }

  lemma {:induction false} LastStepEnds(tree: BlockTree, p: Params, chain: seq<IndexedBlock>, s: State, last: Step)
    requires p.Valid() && last in {SeeOver, SeeQuit, HandError} && Enabled(s, last)
    ensures IsRun(tree, p, s, [last]) && BenignRun(p, chain, s, [last])
    ensures var f := Final(p, s, [last]); !f.consumer.Waiting? && f.done == s.done && f.ibCh == s.ibCh
  {
    hide ConsumeBatch, InsertByOthers, Acceptable;
  }

  /**
    A select takes any ready case: when the end of production, a shutdown request or an error can be seen, the consumer
    may see it at once, leaving what is in the channel, and it may as well submit all of that first.
   */
  lemma {:induction false} EndIsSeenFirstOrLast(tree: BlockTree, p: Params, chain: seq<IndexedBlock>,
      lorenzo: LightClient, s: State, last: Step)
    requires ValidTree(tree) && ChainAbove(tree, p, chain) && p.tipHash in lorenzo.known && p.Valid()
    requires Inv(tree, p, s) && BenignInv(p, chain, lorenzo, s, false) && s.consumer.Waiting?
    requires || (last.SeeOver? && s.overCh) || (last.SeeQuit? && s.quit)
             || (last.HandError? && s.producer.SendingError?)
    ensures IsRun(tree, p, s, [last])
    ensures var f := Final(p, s, [last]); !f.consumer.Waiting? && f.done == s.done && f.ibCh == s.ibCh
    ensures IsRun(tree, p, s, Drain(|s.ibCh|, last)) && BenignRun(p, chain, s, Drain(|s.ibCh|, last))
    ensures var f := Final(p, s, Drain(|s.ibCh|, last));
            !f.consumer.Waiting? && f.done == s.done + s.ibCh && f.ibCh == []
    decreases |s.ibCh|
  {
    hide Inv, Next, IsRun, BenignRun, Final, Linked, AllIn, ValidTree, BenignInv, ChainAbove;
    LastStepEnds(tree, p, chain, s, last);
    if |s.ibCh| > 0 {
      var step := Consume(AllDelivered());
      var next := Next(p, s, step);
      OneBatchIsSubmitted(tree, p, chain, lorenzo, s);
      EndIsSeenFirstOrLast(tree, p, chain, lorenzo, next, last);
      assert s.done + [s.ibCh[0]] + s.ibCh[1..] == s.done + s.ibCh;
      DrainOneMore(tree, p, chain, s, last);
    } else {
      assert s.done + s.ibCh == s.done;
    }
  }

  lemma {:induction false} DrainOneMore(tree: BlockTree, p: Params, chain: seq<IndexedBlock>, s: State, last: Step)
    requires p.Valid() && s.consumer.Waiting? && |s.ibCh| > 0
    requires var next := Next(p, s, Consume(AllDelivered()));
             IsRun(tree, p, next, Drain(|s.ibCh| - 1, last)) && BenignRun(p, chain, next, Drain(|s.ibCh| - 1, last))
    ensures IsRun(tree, p, s, Drain(|s.ibCh|, last)) && BenignRun(p, chain, s, Drain(|s.ibCh|, last))
    ensures Final(p, s, Drain(|s.ibCh|, last))
         == Final(p, Next(p, s, Consume(AllDelivered())), Drain(|s.ibCh| - 1, last))
  {
    hide Next, ConsumeBatch;
    assert Drain(|s.ibCh|, last)[1..] == Drain(|s.ibCh| - 1, last);
  }
}
