/**
  Start-up catch-up of the BNB relayer: a producer fetches the numbers up to `delay` below BNB's tip in batches
  and sends them over a channel of capacity 10, which it closes when it stops; a consumer handles them. Because
  a closed channel is drained before its end is seen, nothing that was fetched is left behind.
 */
module BnbCatchUp {
  import opened Prelude
  import opened BnbTypes
  import opened BnbClient
  import opened LorenzoBnbLightClient
  import opened BnbReporterSpec
  import opened BnbRuns
  import opened HeaderSubmission
  import opened Tiling

  const CHANNEL_CAPACITY: nat := 10

  /** The relayer's tip at the start and the last number to fetch; catch-up runs if the tip is below it. */
  datatype Params = Params(tip: BnbHeader, limit: Uint64) {
    /** The loop variable stays below 2^64 when it is advanced past the limit. */
    ghost predicate Valid() {
      tip.number < limit && limit + BATCH_SIZE < TWO_TO_THE_64
    }
  }

  /** Where catch-up ends, in uint64 arithmetic; None when it does not run. */
  function Plan(tip: BnbHeader, delay: Uint64, bnbTip: Uint64): Option<Params> {
    if Add64(tip.number, delay) >= bnbTip then None else Some(Params(tip, Sub64(bnbTip, delay)))
  }

  /** Catch-up is meant to run when the tip is more than `delay` behind BNB's tip, and to end `delay` below it. */
  predicate PlanIsRight(tip: BnbHeader, delay: nat, bnbTip: nat, plan: Option<Params>) {
    match plan
    case None => bnbTip - delay <= tip.number
    case Some(p) => p.tip == tip && tip.number < p.limit && p.limit + delay == bnbTip
  }

  /** The unsigned arithmetic is right exactly when `tip + delay` does not wrap around to a number below BNB's tip. */
  lemma PlanIsRightExactlyWhen(tip: BnbHeader, delay: Uint64, bnbTip: Uint64)
    ensures PlanIsRight(tip, delay, bnbTip, Plan(tip, delay, bnbTip))
       <==> !(TWO_TO_THE_64 <= tip.number + delay < bnbTip + TWO_TO_THE_64)
  {
  }

  // ---------- the tiling ----------

  function EndOf(i: nat, limit: nat): nat {
    if i + BATCH_SIZE - 1 > limit then limit else i + BATCH_SIZE - 1
  }

  /** The batches of the producer's loop from `i` on. */
  function Tiles(i: nat, limit: nat): seq<(nat, nat)>
    decreases limit - i
  {
    if i <= limit then [(i, EndOf(i, limit))] + Tiles(i + BATCH_SIZE, limit) else []
  }

  lemma {:induction false} TilesAreExact(i: nat, limit: nat)
    requires 0 < i <= limit + 1
    ensures TilesRange(Tiles(i, limit), i, limit, BATCH_SIZE)
    decreases limit - i
  {
    if i + BATCH_SIZE <= limit {
      TilesAreExact(i + BATCH_SIZE, limit);
    }
  }

  /** Only the last batch may be short. */
  lemma {:induction false} TilesAreFull(i: nat, limit: nat, k: nat)
    requires k + 1 < |Tiles(i, limit)|
    ensures Tiles(i, limit)[k].1 + 1 == Tiles(i, limit)[k].0 + BATCH_SIZE
    decreases k
  {
    var rest := Tiles(i + BATCH_SIZE, limit);
    assert Tiles(i, limit)[1..] == rest;
    if k > 0 {
      TilesAreFull(i + BATCH_SIZE, limit, k - 1);
    }
  }

  // ---------- the state machine ----------

  datatype Producer =
    | Looping(i: nat)
    | Fetching(i: nat)
    | Sending(i: nat, batch: seq<BnbHeader>)
    | Closed

  datatype Consumer = Checking | Receiving | Returned | ReturnedQuit | Crashed

  /**
    `fetched`, `done` and `rejected` list the batches that were fetched, handled, and refused by the handler;
    the handler's first failure panics.
   */
  datatype State = State(producer: Producer, ch: seq<seq<BnbHeader>>, quit: bool, consumer: Consumer,
                         tip: BnbHeader, lorenzo: LightClient, fetchFailed: bool,
                         fetched: seq<seq<BnbHeader>>, done: seq<seq<BnbHeader>>, rejected: seq<seq<BnbHeader>>)

  datatype Step =
    | Quit
    | ProducerTurn
    | FetchDone(headers: Option<seq<BnbHeader>>)
    | Send
    | CheckQuit
    | Receive(delivery: Delivery)
    | SeeClosed
    | Relay(msg: seq<BnbHeader>)

  function Start(p: Params, lorenzo: LightClient): State {
    State.State(Looping(p.tip.number + 1), [], false, Checking, p.tip, lorenzo, false, [], [], [])
  }

  predicate Enabled(s: State, step: Step) {
    match step
    case Quit => !s.quit
    case ProducerTurn => s.producer.Looping?
    case FetchDone(_) => s.producer.Fetching?
    case Send => s.producer.Sending? && |s.ch| < CHANNEL_CAPACITY
    case CheckQuit => s.consumer.Checking?
    case Receive(_) => s.consumer.Receiving? && |s.ch| > 0
    case SeeClosed => s.consumer.Receiving? && |s.ch| == 0 && s.producer.Closed?
    case Relay(msg) => Acceptable(s.lorenzo, msg)
  }

  function Next(p: Params, s: State, step: Step): State
    requires Enabled(s, step)
  {
    match step
    case Quit => s.(quit := true)
    case ProducerTurn =>
      if s.producer.i > p.limit || s.quit then s.(producer := Closed) else s.(producer := Fetching(s.producer.i))
    case FetchDone(headers) =>
      if headers.None? then s.(producer := Closed, fetchFailed := true)
      else s.(producer := Sending(s.producer.i, headers.value), fetched := s.fetched + [headers.value])
    case Send => s.(producer := Looping(s.producer.i + BATCH_SIZE), ch := s.ch + [s.producer.batch])
    case CheckQuit => s.(consumer := if s.quit then ReturnedQuit else Receiving)
    case Receive(d) => HandleBatch(s.(ch := s.ch[1..]), s.ch[0], d)
    case SeeClosed => s.(consumer := Returned)
    case Relay(msg) => s.(lorenzo := Others(s.lorenzo, msg))
  }

  function HandleBatch(s: State, headers: seq<BnbHeader>, d: Delivery): State {
    var (tip, lorenzo, ok) := Handle(s.tip, s.lorenzo, headers, d);
    if ok then s.(consumer := Checking, tip := tip, lorenzo := lorenzo, done := s.done + [headers])
    else s.(consumer := Crashed, tip := tip, lorenzo := lorenzo, rejected := s.rejected + [headers])
  }

  /** Fetches give what `RangeHeaders` promises; other relayers upload headers of the tree. */
  ghost predicate StepOk(tree: BnbTree, p: Params, s: State, step: Step) {
    match step
    case FetchDone(Some(headers)) =>
      s.producer.Fetching? ==> IsRange(headers, s.producer.i, EndOf(s.producer.i, p.limit)) && AllIn(tree, headers)
    case Relay(msg) => AllIn(tree, msg)
    case _ => true
  }

  ghost predicate IsRun(tree: BnbTree, p: Params, s: State, steps: seq<Step>)
    decreases |steps|
  {
    |steps| > 0 ==>
      Enabled(s, steps[0]) && StepOk(tree, p, s, steps[0]) && IsRun(tree, p, Next(p, s, steps[0]), steps[1..])
  }

  function Final(p: Params, s: State, steps: seq<Step>): State
    decreases |steps|
  {
    if |steps| > 0 && Enabled(s, steps[0]) then Final(p, Next(p, s, steps[0]), steps[1..]) else s
  }

  // ---------- the invariant ----------

  function AllTiles(p: Params): seq<(nat, nat)> {
    Tiles(p.tip.number + 1, p.limit)
  }

  /** What has been fetched is, oldest first: handled, refused, in the channel, about to be sent. */
  ghost predicate NothingLost(s: State) {
    s.fetched == s.done + s.rejected + s.ch + (if s.producer.Sending? then [s.producer.batch] else [])
  }

  ghost predicate MatchTiles(tree: BnbTree, batches: seq<seq<BnbHeader>>, tiles: seq<(nat, nat)>) {
    && |batches| <= |tiles|
    && forall k | 0 <= k < |batches| ::
         IsRange(batches[k], tiles[k].0, tiles[k].1) && AllIn(tree, batches[k])
  }

  ghost predicate Remaining(p: Params, producer: Producer, rest: seq<(nat, nat)>) {
    match producer
    case Looping(i) => rest == Tiles(i, p.limit)
    case Fetching(i) => i <= p.limit && rest == Tiles(i, p.limit)
    case Sending(i, _) => rest == Tiles(i + BATCH_SIZE, p.limit)
    case Closed => true
  }

  ghost predicate ProducerOk(tree: BnbTree, p: Params, s: State) {
    && MatchTiles(tree, s.fetched, AllTiles(p))
    && Remaining(p, s.producer, AllTiles(p)[|s.fetched|..])
    && (s.producer.Closed? ==> s.quit || s.fetchFailed || |s.fetched| == |AllTiles(p)|)
    && (s.fetchFailed ==> s.producer.Closed?)
  }

  /** The handled headers continue the starting tip and end with the relayer's tip, all on Lorenzo's chain. */
  ghost predicate ChainOk(tree: BnbTree, p: Params, tip: BnbHeader, lorenzo: LightClient, headers: seq<BnbHeader>) {
    && LinkedOn(p.tip, headers) && tip == Last(p.tip, headers)
    && LorenzoOk(tree, lorenzo)
    && OnChain(lorenzo, p.tip)
    && (forall i | 0 <= i < |headers| :: OnChain(lorenzo, headers[i]))
  }

  ghost predicate Inv(tree: BnbTree, p: Params, s: State) {
    && ProducerOk(tree, p, s)
    && NothingLost(s)
    && ChainOk(tree, p, s.tip, s.lorenzo, Flatten(s.done))
    && |s.ch| <= CHANNEL_CAPACITY
    && (|s.rejected| > 0 <==> s.consumer.Crashed?)
    && (s.consumer.Returned? ==> s.producer.Closed? && s.ch == [])
    && (s.consumer.ReturnedQuit? ==> s.quit)
  }

  lemma StartInv(tree: BnbTree, p: Params, lorenzo: LightClient)
    requires p.Valid() && LorenzoOk(tree, lorenzo) && OnChain(lorenzo, p.tip)
    ensures Inv(tree, p, Start(p, lorenzo))
  {
  }

  // ---------- every step keeps it ----------

  lemma TurnKeepsInv(tree: BnbTree, p: Params, s: State)
    requires p.Valid() && Inv(tree, p, s) && Enabled(s, ProducerTurn)
    ensures Inv(tree, p, Next(p, s, ProducerTurn))
  {
    hide ChainOk, IsRange, AllIn, Flatten;
  }

  lemma FetchKeepsInv(tree: BnbTree, p: Params, s: State, headers: Option<seq<BnbHeader>>)
    requires p.Valid() && Inv(tree, p, s) && Enabled(s, FetchDone(headers)) && StepOk(tree, p, s, FetchDone(headers))
    ensures Inv(tree, p, Next(p, s, FetchDone(headers)))
  {
    hide ChainOk, IsRange, AllIn, Flatten;
    var tiles := AllTiles(p);
    var n := |s.fetched|;
    if headers.Some? {
      assert tiles[n..][0] == tiles[n];
      assert tiles[n..][1..] == tiles[n + 1..];
    }
    assert s.done + s.rejected + s.ch + [] == s.done + s.rejected + s.ch;
  }

  lemma SendKeepsInv(tree: BnbTree, p: Params, s: State)
    requires p.Valid() && Inv(tree, p, s) && Enabled(s, Send)
    ensures Inv(tree, p, Next(p, s, Send))
  {
    hide ChainOk, IsRange, AllIn, Flatten, MatchTiles;
    var b := s.producer.batch;
    assert s.done + s.rejected + (s.ch + [b]) + [] == s.done + s.rejected + s.ch + [b];
  }

  /** A batch that passes the handler extends the handled chain; any other leaves it. */
  lemma HandleKeepsChain(tree: BnbTree, p: Params, tip: BnbHeader, lorenzo: LightClient, done: seq<BnbHeader>,
                         headers: seq<BnbHeader>, d: Delivery)
    requires ChainOk(tree, p, tip, lorenzo, done)
    requires |headers| > 0 && headers[0].number > 0 && LinkedOn(headers[0], headers[1..]) && AllIn(tree, headers)
    ensures var (newTip, after, ok) := Handle(tip, lorenzo, headers, d);
            ChainOk(tree, p, newTip, after, if ok then done + headers else done)
  {
    hide AllIn;
    var (newTip, after, ok) := Handle(tip, lorenzo, headers, d);
    UploadKeepsSound(lorenzo, headers, d);
    UploadKeepsLorenzoOk(tree, lorenzo, headers, d);
    if ok {
      LinkedOnConcat(p.tip, done, headers);
      assert LinkedOn(tip, headers);
      forall i | 0 <= i < |done + headers| ensures OnChain(after, (done + headers)[i]) {
        if i < |done| {
          assert OnChain(lorenzo, done[i]);
        } else {
          assert headers[i - |done|] in after.accepted;
        }
      }
    }
  }

  lemma HeadOfChannel(tree: BnbTree, p: Params, s: State)
    requires p.Valid() && ProducerOk(tree, p, s) && NothingLost(s) && |s.ch| > 0
    ensures var k := |s.done| + |s.rejected|;
            && k < |s.fetched| <= |AllTiles(p)| && s.ch[0] == s.fetched[k]
            && IsRange(s.ch[0], AllTiles(p)[k].0, AllTiles(p)[k].1) && AllIn(tree, s.ch[0])
            && p.tip.number < AllTiles(p)[k].0
  {
    hide IsRange, AllIn, Tiles, Remaining;
    var k := |s.done| + |s.rejected|;
    assert s.fetched[k] == s.ch[0];
    TilesAreExact(p.tip.number + 1, p.limit);
    TileBorders(AllTiles(p), p.tip.number + 1, p.limit, BATCH_SIZE, k + 1);
  }

  lemma ReceiveCases(p: Params, s: State, d: Delivery)
    requires Enabled(s, Receive(d))
    ensures var next := Next(p, s, Receive(d));
            var (tip, lorenzo, ok) := Handle(s.tip, s.lorenzo, s.ch[0], d);
            && (ok ==> next == s.(ch := s.ch[1..], consumer := Checking, tip := tip, lorenzo := lorenzo,
                                  done := s.done + [s.ch[0]]))
            && (!ok ==> next == s.(ch := s.ch[1..], consumer := Crashed, tip := tip, lorenzo := lorenzo,
                                   rejected := s.rejected + [s.ch[0]]))
  {
    hide Handle;
  }

  /** A batch moves from the channel to the end of the handled or the refused ones; nothing was refused before. */
  lemma BatchMoves(s: State, next: State)
    requires NothingLost(s) && |s.ch| > 0 && s.rejected == [] && next.producer == s.producer
    requires next.ch == s.ch[1..] && next.fetched == s.fetched
    requires || (next.done == s.done + [s.ch[0]] && next.rejected == [])
             || (next.done == s.done && next.rejected == [s.ch[0]])
    ensures NothingLost(next)
  {
    assert s.ch == [s.ch[0]] + s.ch[1..];
  }

  lemma {:induction false} ReceiveKeepsInv(tree: BnbTree, p: Params, s: State, d: Delivery)
    requires p.Valid() && Inv(tree, p, s) && Enabled(s, Receive(d))
    ensures Inv(tree, p, Next(p, s, Receive(d)))
  {
    hide ChainOk, AllIn, Flatten, Handle, ProducerOk, AllTiles, LinkedOn, Next, NothingLost;
    var headers := s.ch[0];
    HeadOfChannel(tree, p, s);
    HandleKeepsChain(tree, p, s.tip, s.lorenzo, Flatten(s.done), headers, d);
    FlattenSnoc(s.done, headers);
    ReceiveCases(p, s, d);
    var next := Next(p, s, Receive(d));
    assert s.rejected == [];
    assert s.rejected + [headers] == [headers];
    BatchMoves(s, next);
    SameProducer(tree, p, s, next);
  }

  lemma SameProducer(tree: BnbTree, p: Params, s: State, next: State)
    requires next.producer == s.producer && next.fetched == s.fetched && next.fetchFailed == s.fetchFailed
    requires s.quit ==> next.quit
    ensures ProducerOk(tree, p, s) ==> ProducerOk(tree, p, next)
  {
  }

  lemma RelayKeepsChain(tree: BnbTree, p: Params, tip: BnbHeader, lorenzo: LightClient, done: seq<BnbHeader>,
                        msg: seq<BnbHeader>)
    requires ChainOk(tree, p, tip, lorenzo, done) && AllIn(tree, msg)
    ensures ChainOk(tree, p, tip, Others(lorenzo, msg), done)
  {
    UploadKeepsSound(lorenzo, msg, Delivered);
    UploadKeepsLorenzoOk(tree, lorenzo, msg, Delivered);
    forall i | 0 <= i < |done| ensures OnChain(Others(lorenzo, msg), done[i]) {
      OnChainForever(lorenzo, Others(lorenzo, msg), done[i]);
    }
  }

  lemma StepKeepsInv(tree: BnbTree, p: Params, s: State, step: Step)
    requires p.Valid() && Inv(tree, p, s) && Enabled(s, step) && StepOk(tree, p, s, step)
    ensures Inv(tree, p, Next(p, s, step))
  {
    hide ChainOk, ProducerOk, Flatten, HandleBatch, AllIn, Others;
    match step
    case Receive(d) => ReceiveKeepsInv(tree, p, s, d);
    case Relay(msg) =>
      RelayKeepsChain(tree, p, s.tip, s.lorenzo, Flatten(s.done), msg);
      SameProducer(tree, p, s, Next(p, s, step));
    case ProducerTurn => TurnKeepsInv(tree, p, s);
    case FetchDone(headers) => FetchKeepsInv(tree, p, s, headers);
    case Send => SendKeepsInv(tree, p, s);
    case _ => SameProducer(tree, p, s, Next(p, s, step));
  }

  lemma {:induction false} RunKeepsInv(tree: BnbTree, p: Params, s: State, steps: seq<Step>)
    requires p.Valid() && Inv(tree, p, s) && IsRun(tree, p, s, steps)
    ensures Inv(tree, p, Final(p, s, steps))
    decreases |steps|
  {
    hide Inv, Next, StepOk;
    if |steps| > 0 {
      StepKeepsInv(tree, p, s, steps[0]);
      RunKeepsInv(tree, p, Next(p, s, steps[0]), steps[1..]);
    }
  }

  // ---------- safety ----------

  /**
    Under every interleaving, with shutdown, failures and other relayers: the handled batches are the first
    tiles of one exact tiling, in order and without repetition, their headers are one linked chain on top of the
    starting tip, and the relayer's tip is the last of them and on Lorenzo's chain.
   */
  lemma {:induction false} HandledBatchesAreFirstTiles(tree: BnbTree, p: Params, lorenzo: LightClient, steps: seq<Step>)
    requires p.Valid() && LorenzoOk(tree, lorenzo) && OnChain(lorenzo, p.tip)
    requires IsRun(tree, p, Start(p, lorenzo), steps)
    ensures var f := Final(p, Start(p, lorenzo), steps);
            var headers := Flatten(f.done);
            && TilesRange(AllTiles(p), p.tip.number + 1, p.limit, BATCH_SIZE)
            && MatchTiles(tree, f.done, AllTiles(p))
            && LinkedOn(p.tip, headers) && f.tip == Last(p.tip, headers)
            && OnChain(f.lorenzo, f.tip) && LorenzoOk(tree, f.lorenzo)
  {
    hide Next, IsRange, AllIn, Tiles, TilesRange, Flatten, Remaining, LorenzoOk, IsRun, LinkedOn;
    StartInv(tree, p, lorenzo);
    RunKeepsInv(tree, p, Start(p, lorenzo), steps);
    TilesAreExact(p.tip.number + 1, p.limit);
    var f := Final(p, Start(p, lorenzo), steps);
    assert forall k | 0 <= k < |f.done| :: f.fetched[k] == f.done[k];
  }

  /** The tip stands at the end of the last handled batch. */
  lemma TipIsEndOfLastBatch(tree: BnbTree, p: Params, s: State)
    requires p.Valid() && Inv(tree, p, s)
    ensures |s.done| <= |AllTiles(p)|
    ensures s.tip.number == if |s.done| == 0 then p.tip.number else AllTiles(p)[|s.done| - 1].1
  {
    hide Tiles, Remaining, AllIn, LorenzoOk;
    if |s.done| > 0 {
      var n := |s.done| - 1;
      var last := s.done[n];
      assert s.fetched[n] == last;
      assert s.done == s.done[..n] + [last];
      FlattenSnoc(s.done[..n], last);
      LinkedOnNumbers(last[0], last[1..]);
    }
  }

  /**
    When the consumer returns because the channel is closed, every fetched batch has been handled, once and in
    order. Without shutdown and fetch failure these are all the batches and the tip stands exactly at the limit;
    after a fetch failure it stands at the end of the last fetched batch.
   */
  lemma {:induction false} ReturnMeansAllHandled(tree: BnbTree, p: Params, lorenzo: LightClient, steps: seq<Step>)
    requires p.Valid() && LorenzoOk(tree, lorenzo) && OnChain(lorenzo, p.tip)
    requires IsRun(tree, p, Start(p, lorenzo), steps)
    requires Final(p, Start(p, lorenzo), steps).consumer.Returned?
    ensures var f := Final(p, Start(p, lorenzo), steps);
            && f.done == f.fetched && |f.fetched| <= |AllTiles(p)|
            && f.tip.number == (if |f.fetched| == 0 then p.tip.number else AllTiles(p)[|f.fetched| - 1].1)
            && (!f.quit && !f.fetchFailed ==> |f.done| == |AllTiles(p)| && f.tip.number == p.limit)
  {
    hide Next, IsRange, AllIn, Tiles, TilesRange, Flatten, Remaining, ChainOk, IsRun, LorenzoOk;
    StartInv(tree, p, lorenzo);
    RunKeepsInv(tree, p, Start(p, lorenzo), steps);
    var f := Final(p, Start(p, lorenzo), steps);
    assert f.rejected == [];
    assert f.done + [] + [] + [] == f.done;
    TipIsEndOfLastBatch(tree, p, f);
    TilesAreExact(p.tip.number + 1, p.limit);
    if |f.done| == |AllTiles(p)| {
      SomeTile(p);
      TileBorders(AllTiles(p), p.tip.number + 1, p.limit, BATCH_SIZE, |f.done|);
    }
  }

  lemma SomeTile(p: Params)
    requires p.Valid()
    ensures |AllTiles(p)| > 0
  {
  }

  /** However catch-up ends, the main loop finds its invariant: the tip is on Lorenzo's chain. */
  lemma {:induction false} MainLoopStartsSound(tree: BnbTree, p: Params, lorenzo: LightClient, steps: seq<Step>,
      delay: nat)
    requires p.Valid() && LorenzoOk(tree, lorenzo) && OnChain(lorenzo, p.tip)
    requires IsRun(tree, p, Start(p, lorenzo), steps)
    ensures var f := Final(p, Start(p, lorenzo), steps);
            BnbRuns.Inv(tree, delay, BnbRuns.State(f.tip, f.lorenzo, []))
  {
    HandledBatchesAreFirstTiles(tree, p, lorenzo, steps);
  }

  // ---------- where a run can end ----------

  /** Neither the producer nor the consumer can take a step. */
  ghost predicate Stuck(s: State) {
    forall step: Step | !step.Quit? && !step.Relay? :: !Enabled(s, step)
  }

  /** The consumer never waits for ever; the producer can only be left blocked on a full channel nobody reads. */
  lemma NoDeadlock(tree: BnbTree, p: Params, s: State)
    requires Inv(tree, p, s) && Stuck(s)
    ensures !s.consumer.Checking? && !s.consumer.Receiving?
    ensures s.producer.Closed? || (s.producer.Sending? && |s.ch| == CHANNEL_CAPACITY && !s.consumer.Returned?)
  {
    hide ChainOk, ProducerOk;
    assert !Enabled(s, ProducerTurn) && !Enabled(s, FetchDone(None)) && !Enabled(s, Send);
    assert !Enabled(s, CheckQuit) && !Enabled(s, Receive(Delivered)) && !Enabled(s, SeeClosed);
  }

  ghost predicate NoShutdown(steps: seq<Step>) {
    forall k | 0 <= k < |steps| :: !steps[k].Quit?
  }

  ghost predicate FetchesSucceed(steps: seq<Step>) {
    forall k | 0 <= k < |steps| :: steps[k] != FetchDone(None)
  }

  /** A shutdown request or a failed fetch has been seen exactly if one of the steps was one. */
  lemma {:induction false} FlagsHaveCauses(tree: BnbTree, p: Params, s: State, steps: seq<Step>)
    requires IsRun(tree, p, s, steps)
    ensures Final(p, s, steps).quit <==> s.quit || !NoShutdown(steps)
    ensures Final(p, s, steps).fetchFailed <==> s.fetchFailed || !FetchesSucceed(steps)
    decreases |steps|
  {
    hide StepOk, Handle, Others, Acceptable;
    if |steps| > 0 {
      FlagsHaveCauses(tree, p, Next(p, s, steps[0]), steps[1..]);
      assert steps == [steps[0]] + steps[1..];
    }
  }

  /**
    How a run that cannot go on has ended, without a shutdown request: the consumer has returned because the channel
    is closed, and the producer has come to its end, unless a batch was refused and the consumer panicked.
   */
  lemma {:induction false} ConsumerReturnsUnlessItPanics(tree: BnbTree, p: Params, lorenzo: LightClient,
      steps: seq<Step>)
    requires p.Valid() && LorenzoOk(tree, lorenzo) && OnChain(lorenzo, p.tip)
    requires IsRun(tree, p, Start(p, lorenzo), steps) && Stuck(Final(p, Start(p, lorenzo), steps))
    requires NoShutdown(steps)
    ensures var f := Final(p, Start(p, lorenzo), steps);
            && (f.consumer.Returned? || f.consumer.Crashed?)
            && (f.consumer.Crashed? <==> |f.rejected| > 0)
            && (f.consumer.Returned? ==> f.producer.Closed? && f.done == f.fetched)
  {
    hide Stuck, IsRun, Final, ChainOk, ProducerOk;
    var f := Final(p, Start(p, lorenzo), steps);
    StartInv(tree, p, lorenzo);
    RunKeepsInv(tree, p, Start(p, lorenzo), steps);
    FlagsHaveCauses(tree, p, Start(p, lorenzo), steps);
    NoDeadlock(tree, p, f);
    if f.consumer.Returned? {
      assert f.rejected == [];
      assert f.done + [] + [] + [] == f.done;
    }
  }

  // ---------- shutdown ----------

  /** Batches whose fetch has begun, and batches taken from the channel or about to be. */
  function Begun(s: State): nat {
    |s.fetched| + if s.producer.Fetching? then 1 else 0
  }

  function Taken(s: State): nat {
    |s.done| + |s.rejected| + if s.consumer.Receiving? then 1 else 0
  }

  lemma ShutdownStep(p: Params, s: State, step: Step)
    requires Enabled(s, step) && s.quit
    ensures var next := Next(p, s, step);
            && next.quit && Begun(next) <= Begun(s) && Taken(next) <= Taken(s)
            && (s.consumer.Checking? || s.consumer.ReturnedQuit? ==>
                  next.consumer == s.consumer || next.consumer.ReturnedQuit?)
  {
    hide Handle, Others, Acceptable;
  }

  /**
    After a shutdown request no further fetch begins, and the consumer takes at most the batch it is waiting for. If it
    is about to look, it takes none, and when nothing can move it has returned.
   */
  lemma {:induction false} ShutdownIsPrompt(tree: BnbTree, p: Params, s: State, steps: seq<Step>)
    requires s.quit && IsRun(tree, p, s, steps)
    ensures var f := Final(p, s, steps);
            && |f.fetched| <= |s.fetched| + (if s.producer.Fetching? then 1 else 0)
            && |f.done| + |f.rejected| <= |s.done| + |s.rejected| + (if s.consumer.Receiving? then 1 else 0)
            && (s.consumer.Checking? && Stuck(f) ==> f.consumer.ReturnedQuit?)
  {
    ShutdownRun(tree, p, s, steps);
    var f := Final(p, s, steps);
    if Stuck(f) {
      assert !Enabled(f, CheckQuit);
    }
  }

  /**
    A shutdown can be requested at any time. If the consumer is about to look, it may return at once and leave what has
    been fetched; a producer that is then waiting for room in the channel waits for ever.
   */
  lemma {:induction false} ShutdownCanStrandTheProducer(tree: BnbTree, p: Params, s: State)
    requires s.consumer.Checking? && !s.quit
    ensures var steps := [Quit] + [CheckQuit];
            var f := Final(p, s, steps);
            && IsRun(tree, p, s, steps)
            && f == s.(quit := true, consumer := ReturnedQuit)
            && (s.producer.Sending? && |s.ch| == CHANNEL_CAPACITY ==> Stuck(f))
  {
    hide Handle, Others, Acceptable;
    var steps := [Quit] + [CheckQuit];
    assert steps[1..] == [CheckQuit] && [CheckQuit][1..] == [];
  }

  lemma {:induction false} ShutdownRun(tree: BnbTree, p: Params, s: State, steps: seq<Step>)
    requires s.quit && IsRun(tree, p, s, steps)
    ensures var f := Final(p, s, steps);
            && Begun(f) <= Begun(s) && Taken(f) <= Taken(s)
            && (s.consumer.Checking? || s.consumer.ReturnedQuit? ==>
                  f.consumer == s.consumer || f.consumer.ReturnedQuit?)
    decreases |steps|
  {
    hide Next, StepOk, Begun, Taken;
    if |steps| > 0 {
      ShutdownStep(p, s, steps[0]);
      ShutdownRun(tree, p, Next(p, s, steps[0]), steps[1..]);
    }
  }

  // ---------- no panic without a cause ----------

  /** The headers of `chain` that a tile covers; `chain` starts right after number `base`. */
  function Slice(chain: seq<BnbHeader>, base: nat, tile: (nat, nat)): seq<BnbHeader>
    requires base < tile.0 <= tile.1 + 1 && tile.1 - base <= |chain|
  {
    chain[tile.0 - base - 1..tile.1 - base]
  }

  /**
    BNB does not reorganise below the limit, uploads succeed and nobody else relays; shutdown and failed fetches
    may happen.
   */
  ghost predicate Benign(p: Params, chain: seq<BnbHeader>, s: State, step: Step) {
    match step
    case FetchDone(Some(headers)) =>
      s.producer.Fetching? && p.tip.number < s.producer.i <= p.limit && |chain| == p.limit - p.tip.number ==>
        headers == Slice(chain, p.tip.number, (s.producer.i, EndOf(s.producer.i, p.limit)))
    case Receive(d) => d.Delivered?
    case Relay(_) => false
    case _ => true
  }

  ghost predicate BenignRun(p: Params, chain: seq<BnbHeader>, s: State, steps: seq<Step>)
    decreases |steps|
  {
    |steps| > 0 && Enabled(s, steps[0]) ==>
      Benign(p, chain, s, steps[0]) && BenignRun(p, chain, Next(p, s, steps[0]), steps[1..])
  }

  ghost predicate SlicesFetched(p: Params, chain: seq<BnbHeader>, fetched: seq<seq<BnbHeader>>) {
    forall k | 0 <= k < |fetched| :: k < |AllTiles(p)| && IsSlice(p, chain, fetched[k], AllTiles(p)[k])
  }

  ghost predicate IsSlice(p: Params, chain: seq<BnbHeader>, batch: seq<BnbHeader>, tile: (nat, nat)) {
    p.tip.number < tile.0 <= tile.1 <= p.limit && |chain| == p.limit - p.tip.number ==>
      batch == Slice(chain, p.tip.number, tile)
  }

  ghost predicate BenignInv(p: Params, chain: seq<BnbHeader>, lorenzo: LightClient, s: State) {
    && SlicesFetched(p, chain, s.fetched)
    && s.lorenzo == lorenzo.(accepted := lorenzo.accepted + Flatten(s.done))
    && !s.consumer.Crashed?
  }

  /** The first tiles' slices are the front of the chain. */
  lemma {:induction false} SlicesAreAFront(tree: BnbTree, p: Params, chain: seq<BnbHeader>,
      batches: seq<seq<BnbHeader>>)
    requires p.Valid() && |chain| == p.limit - p.tip.number
    requires MatchTiles(tree, batches, AllTiles(p)) && SlicesFetched(p, chain, batches)
    ensures var n := if |batches| == 0 then 0 else AllTiles(p)[|batches| - 1].1 - p.tip.number;
            0 <= n <= |chain| && Flatten(batches) == chain[..n]
    decreases |batches|
  {
    hide AllTiles, IsRange, AllIn;
    TilesOf(p);
    if |batches| > 0 {
      var m := |batches| - 1;
      var front := batches[..m];
      assert batches == front + [batches[m]];
      assert forall k | 0 <= k < m :: front[k] == batches[k];
      SlicesAreAFront(tree, p, chain, front);
      FlattenSnoc(front, batches[m]);
      TileBorders(AllTiles(p), p.tip.number + 1, p.limit, BATCH_SIZE, m + 1);
      if m > 0 {
        TileBorders(AllTiles(p), p.tip.number + 1, p.limit, BATCH_SIZE, m);
      } else {
        FirstTile(p);
      }
    }
  }

  lemma TilesOf(p: Params)
    requires p.Valid()
    ensures TilesRange(AllTiles(p), p.tip.number + 1, p.limit, BATCH_SIZE)
  {
    TilesAreExact(p.tip.number + 1, p.limit);
  }

  lemma FirstTile(p: Params)
    requires p.Valid()
    ensures |AllTiles(p)| > 0 && AllTiles(p)[0].0 == p.tip.number + 1
  {
  }

  /** The batch at the head of the channel is the slice of the chain that follows the handled headers. */
  lemma {:induction false} HeadIsNextSlice(tree: BnbTree, p: Params, chain: seq<BnbHeader>,
      s: State) returns (n: nat, m: nat)
    requires p.Valid() && |chain| == p.limit - p.tip.number
    requires ProducerOk(tree, p, s) && NothingLost(s) && |s.ch| > 0 && s.rejected == []
    requires SlicesFetched(p, chain, s.fetched)
    ensures n < m <= |chain| && Flatten(s.done) == chain[..n] && s.ch[0] == chain[n..m]
  {
    hide AllTiles, IsRange, AllIn, Remaining, Flatten;
    var tiles := AllTiles(p);
    var k := |s.done|;
    HeadOfChannel(tree, p, s);
    TilesOf(p);
    TileBorders(tiles, p.tip.number + 1, p.limit, BATCH_SIZE, k + 1);
    assert forall j | 0 <= j < k :: s.done[j] == s.fetched[j];
    SlicesAreAFront(tree, p, chain, s.done);
    if k > 0 {
      TileBorders(tiles, p.tip.number + 1, p.limit, BATCH_SIZE, k);
    } else {
      FirstTile(p);
    }
    n := tiles[k].0 - p.tip.number - 1;
    m := tiles[k].1 - p.tip.number;
    assert IsSlice(p, chain, s.fetched[k], tiles[k]);
  }

  lemma {:induction false} BenignReceive(tree: BnbTree, p: Params, chain: seq<BnbHeader>, lorenzo: LightClient,
      s: State)
    requires p.Valid() && LinkedOn(p.tip, chain) && |chain| == p.limit - p.tip.number && p.tip == Latest(lorenzo)
    requires Inv(tree, p, s) && BenignInv(p, chain, lorenzo, s) && Enabled(s, Receive(Delivered))
    ensures BenignInv(p, chain, lorenzo, Next(p, s, Receive(Delivered)))
  {
    hide AllTiles, LorenzoOk, Flatten, Handle, Next, LinkedOn, SlicesFetched, ProducerOk, NothingLost;
    var headers := s.ch[0];
    assert s.rejected == [];
    var n, m := HeadIsNextSlice(tree, p, chain, s);
    NextPieceAccepted(p.tip, chain, n, m, lorenzo, s.tip);
    ReceiveCases(p, s, Delivered);
    FlattenSnoc(s.done, headers);
    assert lorenzo.accepted + chain[..n] + headers == lorenzo.accepted + (chain[..n] + headers);
  }

  /** If Lorenzo has exactly the first `n` headers of the chain, it accepts the next piece. */
  lemma {:induction false} NextPieceAccepted(start: BnbHeader, chain: seq<BnbHeader>, n: nat, m: nat,
      lorenzo: LightClient, tip: BnbHeader)
    requires LinkedOn(start, chain) && n < m <= |chain| && start == Latest(lorenzo) && tip == Last(start, chain[..n])
    ensures var now := lorenzo.(accepted := lorenzo.accepted + chain[..n]);
            Handle(tip, now, chain[n..m], Delivered)
              == (chain[m - 1], now.(accepted := now.accepted + chain[n..m]), true)
  {
    PieceIsLinked(start, chain, n, m);
    LinkedOnConcat(lorenzo.base, lorenzo.accepted, chain[..n]);
    HandleAccepts(tip, lorenzo.(accepted := lorenzo.accepted + chain[..n]), chain[n..m]);
  }

  lemma {:induction false} PieceIsLinked(start: BnbHeader, chain: seq<BnbHeader>, n: nat, m: nat)
    requires LinkedOn(start, chain) && n < m <= |chain|
    ensures LinkedOn(Last(start, chain[..n]), chain[n..m])
  {
    hide LinkedOn;
    assert chain == chain[..n] + chain[n..];
    LinkedOnConcat(start, chain[..n], chain[n..]);
    assert chain[n..] == chain[n..m] + chain[m..];
    LinkedOnConcat(Last(start, chain[..n]), chain[n..m], chain[m..]);
  }

  lemma {:induction false} HandleAccepts(tip: BnbHeader, lorenzo: LightClient, headers: seq<BnbHeader>)
    requires |headers| > 0 && LinkedOn(tip, headers) && tip == Latest(lorenzo)
    ensures Handle(tip, lorenzo, headers, Delivered)
         == (headers[|headers| - 1], lorenzo.(accepted := lorenzo.accepted + headers), true)
  {
  }

  lemma {:induction false} BenignStep(tree: BnbTree, p: Params, chain: seq<BnbHeader>, lorenzo: LightClient,
      s: State, step: Step)
    requires p.Valid() && LinkedOn(p.tip, chain) && |chain| == p.limit - p.tip.number && p.tip == Latest(lorenzo)
    requires Inv(tree, p, s) && BenignInv(p, chain, lorenzo, s)
    requires Enabled(s, step) && StepOk(tree, p, s, step) && Benign(p, chain, s, step)
    ensures BenignInv(p, chain, lorenzo, Next(p, s, step))
  {
    hide HandleBatch, Flatten, IsRange, AllIn, LinkedOn, ChainOk, Slice;
    match step
    case Receive(_) => BenignReceive(tree, p, chain, lorenzo, s);
    case FetchDone(Some(headers)) =>
      var k := |s.fetched|;
      assert AllTiles(p)[k..][0] == AllTiles(p)[k];
    case _ =>
  }

  lemma {:induction false} BenignRunKeeps(tree: BnbTree, p: Params, chain: seq<BnbHeader>, lorenzo: LightClient,
                                          s: State, steps: seq<Step>)
    requires p.Valid() && LinkedOn(p.tip, chain) && |chain| == p.limit - p.tip.number && p.tip == Latest(lorenzo)
    requires Inv(tree, p, s) && BenignInv(p, chain, lorenzo, s)
    requires IsRun(tree, p, s, steps) && BenignRun(p, chain, s, steps)
    ensures BenignInv(p, chain, lorenzo, Final(p, s, steps))
    decreases |steps|
  {
    hide Inv, Next, StepOk, BenignInv, Benign, LinkedOn;
    if |steps| > 0 {
      StepKeepsInv(tree, p, s, steps[0]);
      BenignStep(tree, p, chain, lorenzo, s, steps[0]);
      BenignRunKeeps(tree, p, chain, lorenzo, Next(p, s, steps[0]), steps[1..]);
    }
  }

  /**
    As long as BNB keeps the chain above the starting tip, uploads succeed and nobody else relays, the consumer
    never panics and Lorenzo has exactly the handled headers on top of what it had. With no shutdown requested and no
    failing fetch, a run that cannot go on has delivered the whole chain up to the limit.
   */
  lemma {:induction false} CatchUpDeliversTheChain(tree: BnbTree, p: Params, chain: seq<BnbHeader>,
      lorenzo: LightClient, steps: seq<Step>)
    requires p.Valid() && LorenzoOk(tree, lorenzo) && p.tip == Latest(lorenzo)
    requires LinkedOn(p.tip, chain) && |chain| == p.limit - p.tip.number
    requires IsRun(tree, p, Start(p, lorenzo), steps) && BenignRun(p, chain, Start(p, lorenzo), steps)
    ensures var f := Final(p, Start(p, lorenzo), steps);
            && !f.consumer.Crashed?
            && f.lorenzo == lorenzo.(accepted := lorenzo.accepted + Flatten(f.done))
            && (f.consumer.Returned? && !f.quit && !f.fetchFailed ==>
                  Flatten(f.done) == chain && f.tip == Last(p.tip, chain) == Latest(f.lorenzo))
            && (Stuck(f) && NoShutdown(steps) && FetchesSucceed(steps) ==>
                  f.consumer.Returned? && Flatten(f.done) == chain && f.tip == Last(p.tip, chain) == Latest(f.lorenzo))
  {
    hide Stuck, Inv, Next, Flatten, IsRun, BenignRun, Final, LorenzoOk, LinkedOn;
    StartInv(tree, p, lorenzo);
    BenignStart(p, chain, lorenzo);
    BenignRunKeeps(tree, p, chain, lorenzo, Start(p, lorenzo), steps);
    var f := Final(p, Start(p, lorenzo), steps);
    if Stuck(f) && NoShutdown(steps) && FetchesSucceed(steps) {
      ConsumerReturnsUnlessItPanics(tree, p, lorenzo, steps);
      FlagsHaveCauses(tree, p, Start(p, lorenzo), steps);
    }
    if f.consumer.Returned? && !f.quit && !f.fetchFailed {
      ReturnDelivers(tree, p, chain, lorenzo, steps);
    }
  }

  /** An undisturbed return means that the whole chain has been handled. */
  lemma {:induction false} ReturnDelivers(tree: BnbTree, p: Params, chain: seq<BnbHeader>, lorenzo: LightClient,
      steps: seq<Step>)
    requires p.Valid() && LorenzoOk(tree, lorenzo) && p.tip == Latest(lorenzo)
    requires LinkedOn(p.tip, chain) && |chain| == p.limit - p.tip.number
    requires IsRun(tree, p, Start(p, lorenzo), steps)
    requires var f := Final(p, Start(p, lorenzo), steps);
             && f.consumer.Returned? && !f.quit && !f.fetchFailed
             && BenignInv(p, chain, lorenzo, f)
    ensures var f := Final(p, Start(p, lorenzo), steps);
            Flatten(f.done) == chain && f.tip == Last(p.tip, chain) == Latest(f.lorenzo)
  {
    hide Next, IsRange, AllIn, Tiles, TilesRange, Flatten, Remaining, IsRun, LorenzoOk, LinkedOn, Final, SlicesFetched;
    var f := Final(p, Start(p, lorenzo), steps);
    StartInv(tree, p, lorenzo);
    RunKeepsInv(tree, p, Start(p, lorenzo), steps);
    ReturnMeansAllHandled(tree, p, lorenzo, steps);
    SlicesAreAFront(tree, p, chain, f.done);
    SomeTile(p);
    TilesOf(p);
    TileBorders(AllTiles(p), p.tip.number + 1, p.limit, BATCH_SIZE, |f.done|);
    LinkedOnConcat(lorenzo.base, lorenzo.accepted, chain);
  }

  lemma EmptyFlatten()
    ensures Flatten<BnbHeader>([]) == []
  {
  }

  // ---------- termination ----------

  function ProducerMeasure(p: Params, producer: Producer): int {
    match producer
    case Looping(i) => 5 * (p.limit + 1 + BATCH_SIZE - i) + 1
    case Fetching(i) => 5 * (p.limit + 1 + BATCH_SIZE - i)
    case Sending(i, _) => 5 * (p.limit + 1 + BATCH_SIZE - i) - 1
    case Closed => 0
  }

  function Measure(p: Params, s: State): int {
    ProducerMeasure(p, s.producer) + 2 * |s.ch|
    + (match s.consumer case Checking => 2 case Receiving => 1 case _ => 0) + (if s.quit then 0 else 1)
  }

  ghost predicate NumbersInRange(p: Params, producer: Producer) {
    match producer
    case Looping(i) => i <= p.limit + BATCH_SIZE
    case Fetching(i) => i <= p.limit
    case Sending(i, _) => i <= p.limit
    case Closed => true
  }

  lemma StepDecreasesMeasure(p: Params, s: State, step: Step)
    requires p.Valid() && NumbersInRange(p, s.producer) && Enabled(s, step)
    ensures var next := Next(p, s, step);
            && NumbersInRange(p, next.producer) && 0 <= Measure(p, next)
            && (if step.Relay? then Measure(p, next) == Measure(p, s) else Measure(p, next) < Measure(p, s))
  {
    hide Handle, Others;
  }

  /** The steps of the relayer itself and its node, without those of other relayers. */
  function OwnSteps(steps: seq<Step>): nat {
    if |steps| == 0 then 0 else (if steps[0].Relay? then 0 else 1) + OwnSteps(steps[1..])
  }

  /** No run has more own steps than the measure of its first state, whatever other relayers do. */
  lemma {:induction false} RunsAreBounded(tree: BnbTree, p: Params, s: State, steps: seq<Step>)
    requires p.Valid() && NumbersInRange(p, s.producer) && IsRun(tree, p, s, steps)
    ensures OwnSteps(steps) <= Measure(p, s)
    decreases |steps|
  {
    hide Next, Measure, NumbersInRange, StepOk;
    if |steps| > 0 {
      StepDecreasesMeasure(p, s, steps[0]);
      RunsAreBounded(tree, p, Next(p, s, steps[0]), steps[1..]);
    } else {
      MeasureIsNat(p, s);
    }
  }

  lemma MeasureIsNat(p: Params, s: State)
    requires NumbersInRange(p, s.producer)
    ensures 0 <= Measure(p, s)
  {
  }

  // ---------- every benign run can be finished ----------

  /** The batch of the chain that the producer is about to fetch is what a fetch promises. */
  lemma {:induction false} SliceIsRange(tree: BnbTree, p: Params, chain: seq<BnbHeader>, i: nat)
    requires p.Valid() && LinkedOn(p.tip, chain) && AllIn(tree, chain) && |chain| == p.limit - p.tip.number
    requires p.tip.number < i <= p.limit
    ensures var s := Slice(chain, p.tip.number, (i, EndOf(i, p.limit)));
            IsRange(s, i, EndOf(i, p.limit)) && AllIn(tree, s)
  {
    var n, m := i - p.tip.number - 1, EndOf(i, p.limit) - p.tip.number;
    PieceIsLinked(p.tip, chain, n, m);
    LinkedOnNumbers(p.tip, chain);
    assert chain[n..m][0] == chain[n];
    assert forall k | 0 <= k < m - n :: chain[n..m][k] == chain[n + k];
  }

  lemma {:induction false} FetchingIsInRange(tree: BnbTree, p: Params, s: State)
    requires p.Valid() && ProducerOk(tree, p, s) && s.producer.Fetching?
    ensures p.tip.number < s.producer.i <= p.limit
  {
    hide AllIn, IsRange, TilesRange;
    var n := |s.fetched|;
    var rest := AllTiles(p)[n..];
    assert |rest| > 0 && rest[0] == AllTiles(p)[n];
    TilesOf(p);
    TileBorders(AllTiles(p), p.tip.number + 1, p.limit, BATCH_SIZE, n + 1);
  }

  /** As long as something can move, a step is possible in which nothing fails. */
  lemma {:induction false} BenignStepExists(tree: BnbTree, p: Params, chain: seq<BnbHeader>, s: State)
    returns (step: Step)
    requires p.Valid() && LinkedOn(p.tip, chain) && AllIn(tree, chain) && |chain| == p.limit - p.tip.number
    requires Inv(tree, p, s) && !Stuck(s)
    ensures Enabled(s, step) && StepOk(tree, p, s, step) && Benign(p, chain, s, step)
    ensures !step.Quit? && !step.Relay? && step != FetchDone(None)
  {
    hide ChainOk, AllIn, IsRange, LinkedOn, Slice, ProducerOk;
    if s.producer.Looping? {
      step := ProducerTurn;
    } else if s.producer.Fetching? {
      FetchingIsInRange(tree, p, s);
      SliceIsRange(tree, p, chain, s.producer.i);
      step := FetchDone(Some(Slice(chain, p.tip.number, (s.producer.i, EndOf(s.producer.i, p.limit)))));
    } else if Enabled(s, Send) {
      step := Send;
    } else if s.consumer.Checking? {
      step := CheckQuit;
    } else if |s.ch| > 0 {
      step := Receive(Delivered);
    } else {
      step := SeeClosed;
    }
  }

  lemma {:induction false} BenignRunCanBeFinished(tree: BnbTree, p: Params, chain: seq<BnbHeader>,
      lorenzo: LightClient, s: State) returns (steps: seq<Step>)
    requires p.Valid() && LinkedOn(p.tip, chain) && AllIn(tree, chain) && |chain| == p.limit - p.tip.number
    requires p.tip == Latest(lorenzo) && Inv(tree, p, s) && BenignInv(p, chain, lorenzo, s)
    requires NumbersInRange(p, s.producer)
    ensures IsRun(tree, p, s, steps) && BenignRun(p, chain, s, steps) && NoShutdown(steps) && FetchesSucceed(steps)
    ensures Stuck(Final(p, s, steps))
    decreases Measure(p, s)
  {
    hide Inv, Next, StepOk, BenignInv, Benign, LinkedOn, AllIn, Stuck, NumbersInRange, Measure;
    steps := [];
    if !Stuck(s) {
      var step := BenignStepExists(tree, p, chain, s);
      var next := Next(p, s, step);
      StepKeepsInv(tree, p, s, step);
      BenignStep(tree, p, chain, lorenzo, s, step);
      MeasureIsNat(p, s);
      StepDecreasesMeasure(p, s, step);
      var rest := BenignRunCanBeFinished(tree, p, chain, lorenzo, next);
      steps := [step] + rest;
      assert steps[1..] == rest;
    }
  }

  lemma {:induction false} RunsConcat(tree: BnbTree, p: Params, chain: seq<BnbHeader>, s: State, a: seq<Step>,
                                      b: seq<Step>)
    requires IsRun(tree, p, s, a) && BenignRun(p, chain, s, a)
    requires IsRun(tree, p, Final(p, s, a), b) && BenignRun(p, chain, Final(p, s, a), b)
    ensures IsRun(tree, p, s, a + b) && BenignRun(p, chain, s, a + b)
    ensures Final(p, s, a + b) == Final(p, Final(p, s, a), b)
    decreases |a|
  {
    hide Next, StepOk, Benign;
    if |a| == 0 {
      assert a + b == b;
    } else {
      assert (a + b)[1..] == a[1..] + b;
      RunsConcat(tree, p, chain, Next(p, s, a[0]), a[1..], b);
    }
  }

  /**
    Whatever the schedule so far, as long as nothing has failed and no shutdown was requested, catch-up can be brought
    to its end, and every way of doing so without a failure delivers the whole chain.
   */
  lemma {:induction false} CatchUpCanBeFinished(tree: BnbTree, p: Params, chain: seq<BnbHeader>, lorenzo: LightClient,
      steps: seq<Step>) returns (more: seq<Step>)
    requires p.Valid() && LorenzoOk(tree, lorenzo) && p.tip == Latest(lorenzo)
    requires LinkedOn(p.tip, chain) && AllIn(tree, chain) && |chain| == p.limit - p.tip.number
    requires IsRun(tree, p, Start(p, lorenzo), steps) && BenignRun(p, chain, Start(p, lorenzo), steps)
    requires NoShutdown(steps) && FetchesSucceed(steps)
    ensures IsRun(tree, p, Start(p, lorenzo), steps + more) && BenignRun(p, chain, Start(p, lorenzo), steps + more)
    ensures var f := Final(p, Start(p, lorenzo), steps + more);
            Stuck(f) && f.consumer.Returned? && Flatten(f.done) == chain && f.tip == Latest(f.lorenzo)
  {
    hide Inv, Next, IsRun, BenignRun, Final, Flatten, LinkedOn, AllIn, LorenzoOk, Stuck, BenignInv, NumbersInRange,
      Measure;
    var start := Start(p, lorenzo);
    LatestIsOnChain(lorenzo);
    StartInv(tree, p, lorenzo);
    BenignStart(p, chain, lorenzo);
    BenignRunKeeps(tree, p, chain, lorenzo, start, steps);
    RunKeepsInv(tree, p, start, steps);
    RangeIsKept(tree, p, start, steps);
    more := BenignRunCanBeFinished(tree, p, chain, lorenzo, Final(p, start, steps));
    RunsConcat(tree, p, chain, start, steps, more);
    assert forall k | 0 <= k < |more| :: (steps + more)[|steps| + k] == more[k];
    CatchUpDeliversTheChain(tree, p, chain, lorenzo, steps + more);
  }

  lemma BenignStart(p: Params, chain: seq<BnbHeader>, lorenzo: LightClient)
    requires p.Valid()
    ensures BenignInv(p, chain, lorenzo, Start(p, lorenzo)) && NumbersInRange(p, Start(p, lorenzo).producer)
  {
    EmptyFlatten();
    assert lorenzo.accepted + [] == lorenzo.accepted;
  }

  lemma {:induction false} RangeIsKept(tree: BnbTree, p: Params, s: State, steps: seq<Step>)
    requires p.Valid() && NumbersInRange(p, s.producer) && IsRun(tree, p, s, steps)
    ensures NumbersInRange(p, Final(p, s, steps).producer)
    decreases |steps|
  {
    hide Next, Measure, NumbersInRange, StepOk;
    if |steps| > 0 {
      StepDecreasesMeasure(p, s, steps[0]);
      RangeIsKept(tree, p, Next(p, s, steps[0]), steps[1..]);
    }
  }
}
