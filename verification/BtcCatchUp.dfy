/**
  Start-up catch-up of the BTC reporter: a producer fetches a height range in batches and sends them over a
  channel of capacity 10, a consumer submits them. The end of production is announced on a second channel, so
  the consumer may see it before it has drained the first one.
 */
module BtcCatchUp {
  import opened Prelude
  import opened BtcTypes
  import opened BlockQuery
  import opened LorenzoLightClient
  import opened HeaderSubmission
  import opened Tiling

  const BATCH_SIZE: nat := 100
  const CHANNEL_CAPACITY: nat := 10

  /** Lorenzo's tip and `limit`, twice the confirmation depth below the node's tip; catch-up runs if tip < limit. */
  datatype Params = Params(lorenzoTip: nat, tipHash: Hash, limit: nat, maxHeadersInMsg: nat) {
    ghost predicate Valid() {
      lorenzoTip < limit && 0 < maxHeadersInMsg
    }
  }

  /** Catch-up runs exactly when Lorenzo is more than twice the confirmation depth behind the node's tip. */
  function Plan(lorenzoTip: nat, tipHash: Hash, btcTip: nat, confirmationDepth: nat, maxHeadersInMsg: nat)
    : (plan: Option<Params>)
    requires 0 < maxHeadersInMsg
    ensures plan.Some? <==> lorenzoTip + 2 * confirmationDepth < btcTip
    ensures plan.Some? ==>
              && plan.value.Valid() && plan.value.lorenzoTip == lorenzoTip
              && plan.value.tipHash == tipHash && plan.value.maxHeadersInMsg == maxHeadersInMsg
              && plan.value.limit + 2 * confirmationDepth == btcTip
              && btcTip - 2 * confirmationDepth - 1 <= LastHeight(lorenzoTip,
                  plan.value.limit) <= btcTip - 2 * confirmationDepth
  {
    var closeGap := confirmationDepth * 2;
    if lorenzoTip + closeGap >= btcTip then None
    else Some(Params(lorenzoTip, tipHash, btcTip - closeGap, maxHeadersInMsg))
  }

  // ---------- the tiling ----------

  /** The last height of the batch that starts at `h`. */
  function EndHeight(h: nat, limit: nat): (end: nat)
    requires h < limit
    ensures h <= end <= limit && end - h + 1 <= BATCH_SIZE
  {
    if h + BATCH_SIZE - 1 > limit then limit - 1 else h + BATCH_SIZE - 1
  }

  /** The batches of the producer's loop from `h` on. */
  function Tiles(h: nat, limit: nat): seq<(nat, nat)>
    decreases limit - h
  {
    if h < limit then [(h, EndHeight(h, limit))] + Tiles(EndHeight(h, limit) + 1, limit) else []
  }

  /** The last height that is fetched: the limit itself only if a full batch happens to end there. */
  function LastHeight(lorenzoTip: nat, limit: nat): nat
    requires lorenzoTip < limit
  {
    if (limit - lorenzoTip) % BATCH_SIZE == 0 then limit else limit - 1
  }

  /** The producer's batches tile the heights after Lorenzo's tip exactly up to `LastHeight`. */
  lemma {:induction false} TilesAreExact(lorenzoTip: nat, limit: nat)
    requires lorenzoTip < limit
    ensures TilesRange(Tiles(lorenzoTip + 1, limit), lorenzoTip + 1, LastHeight(lorenzoTip, limit), BATCH_SIZE)
    decreases limit - lorenzoTip
  {
    var h := lorenzoTip + 1;
    if h < limit {
      var end := EndHeight(h, limit);
      if h + BATCH_SIZE - 1 <= limit {
        assert (limit - lorenzoTip) % BATCH_SIZE == (limit - end) % BATCH_SIZE;
        if end < limit {
          TilesAreExact(end, limit);
        }
      }
    }
  }

  /** Only the last batch may be short. */
  lemma {:induction false} TilesAreFull(h: nat, limit: nat, k: nat)
    requires k + 1 < |Tiles(h, limit)|
    ensures Tiles(h, limit)[k].1 + 1 == Tiles(h, limit)[k].0 + BATCH_SIZE
    decreases k
  {
    var rest := Tiles(EndHeight(h, limit) + 1, limit);
    assert Tiles(h, limit)[1..] == rest;
    if k > 0 {
      TilesAreFull(EndHeight(h, limit) + 1, limit, k - 1);
    }
  }

  // ---------- the state machine ----------

  datatype Producer =
    | Looping(h: nat)
    | Fetching(h: nat, end: nat)
    | Sending(end: nat, batch: seq<IndexedBlock>)
    | SendingError
    | Stopped

  datatype Consumer = Waiting | ReturnedOver | ReturnedError | ReturnedQuit | Crashed

  /**
    `overCh` and `quit` say whether these channels are closed; `done` lists the batches submitted so far, `rejected`
    the one at which the consumer panicked.
   */
  datatype State = State(producer: Producer, ibCh: seq<seq<IndexedBlock>>, overCh: bool, quit: bool,
                         consumer: Consumer, newTip: Hash, done: seq<seq<IndexedBlock>>,
                         rejected: seq<seq<IndexedBlock>>, lorenzo: LightClient)

  datatype Step =
    | Quit
    | ProducerTurn
    | FetchDone(ibs: Option<seq<IndexedBlock>>)
    | Send
    | HandError
    | Consume(answers: SubmitAnswers)
    | SeeOver
    | SeeQuit
    | Relay(msg: seq<IndexedBlock>)

  function Start(p: Params, lorenzo: LightClient): State {
    State(Looping(p.lorenzoTip + 1), [], false, false, Waiting, p.tipHash, [], [], lorenzo)
  }

  predicate Enabled(s: State, step: Step) {
    match step
    case Quit => !s.quit
    case ProducerTurn => s.producer.Looping?
    case FetchDone(_) => s.producer.Fetching?
    case Send => s.producer.Sending? && |s.ibCh| < CHANNEL_CAPACITY
    case HandError => s.producer.SendingError? && s.consumer.Waiting?
    case Consume(_) => s.consumer.Waiting? && |s.ibCh| > 0
    case SeeOver => s.consumer.Waiting? && s.overCh
    case SeeQuit => s.consumer.Waiting? && s.quit
    case Relay(msg) => Acceptable(s.lorenzo, msg)
  }

  function Next(p: Params, s: State, step: Step): State
    requires Enabled(s, step) && 0 < p.maxHeadersInMsg
  {
    match step
    case Quit => s.(quit := true)
    case ProducerTurn =>
      var h := s.producer.h;
      if h >= p.limit || s.quit then s.(producer := Stopped, overCh := true)
      else s.(producer := Fetching(h, EndHeight(h, p.limit)))
    case FetchDone(ibs) =>
      if ibs.None? then s.(producer := SendingError)
      else s.(producer := Sending(s.producer.end, ibs.value))
    case Send => s.(producer := Looping(s.producer.end + 1), ibCh := s.ibCh + [s.producer.batch])
    case HandError => s.(producer := Stopped, consumer := ReturnedError)
    case Consume(answers) => ConsumeBatch(p, s.(ibCh := s.ibCh[1..]), s.ibCh[0], answers)
    case SeeOver => s.(consumer := ReturnedOver)
    case SeeQuit => s.(consumer := ReturnedQuit)
    case Relay(msg) => s.(lorenzo := InsertByOthers(s.lorenzo, msg))
  }

  /** A batch that does not attach to the last submitted header, or a failed submission, panics. */
  function ConsumeBatch(p: Params, s: State, ibs: seq<IndexedBlock>, answers: SubmitAnswers): State
    requires 0 < p.maxHeadersInMsg
  {
    if |ibs| == 0 || ibs[0].header.prevBlock != s.newTip then s.(consumer := Crashed, rejected := s.rejected + [ibs])
    else
      var (lorenzo, r) := ProcessHeaders(s.lorenzo, ibs, p.maxHeadersInMsg, answers);
      if r.Err? then s.(consumer := Crashed, rejected := s.rejected + [ibs], lorenzo := lorenzo)
      else s.(newTip := ibs[|ibs| - 1].header.hash, done := s.done + [ibs], lorenzo := lorenzo)
  }

  /**
    Steps in any order that the channels allow; fetched ranges are what `FindRangeBlocksByHeight` promises, and
    other relayers insert linked headers of the tree.
   */
  ghost predicate IsRun(tree: BlockTree, p: Params, s: State, steps: seq<Step>)
    requires 0 < p.maxHeadersInMsg
    decreases |steps|
  {
    |steps| > 0 ==>
      && Enabled(s, steps[0])
      && StepOk(tree, s, steps[0])
      && IsRun(tree, p, Next(p, s, steps[0]), steps[1..])
  }

  ghost predicate StepOk(tree: BlockTree, s: State, step: Step) {
    match step
    case FetchDone(Some(ibs)) =>
      s.producer.Fetching? ==> IsRange(ibs, s.producer.h, s.producer.end) && AllIn(tree, ibs)
    case Relay(msg) => Linked(msg) && AllIn(tree, msg)
    case _ => true
  }

  function Final(p: Params, s: State, steps: seq<Step>): State
    requires 0 < p.maxHeadersInMsg
    decreases |steps|
  {
    if |steps| > 0 && Enabled(s, steps[0]) then Final(p, Next(p, s, steps[0]), steps[1..]) else s
  }

  // ---------- the invariant ----------

  /** The batches that have been fetched, oldest first. */
  function InFlight(s: State): seq<seq<IndexedBlock>> {
    s.done + s.rejected + s.ibCh + if s.producer.Sending? then [s.producer.batch] else []
  }

  ghost predicate MatchTiles(tree: BlockTree, batches: seq<seq<IndexedBlock>>, tiles: seq<(nat, nat)>) {
    && |batches| <= |tiles|
    && forall i | 0 <= i < |batches| ::
         IsRange(batches[i], tiles[i].0, tiles[i].1) && AllIn(tree, batches[i])
  }

  /** What the producer still has to fetch. */
  ghost predicate Remaining(p: Params, producer: Producer, rest: seq<(nat, nat)>) {
    match producer
    case Looping(h) => rest == Tiles(h, p.limit)
    case Fetching(h, end) => h < p.limit && end == EndHeight(h, p.limit) && rest == Tiles(h, p.limit)
    case Sending(end, _) => rest == Tiles(end + 1, p.limit)
    case SendingError => true
    case Stopped => true
  }

  /** The submitted headers are one linked chain on top of Lorenzo's tip, and Lorenzo has them all. */
  ghost predicate DoneOk(tree: BlockTree, p: Params, s: State) {
    var headers := Flatten(s.done);
    && Linked(headers) && AllIn(tree, headers) && HeightsFrom(headers, p.lorenzoTip + 1)
    && (|headers| > 0 ==> headers[0].header.prevBlock == p.tipHash)
    && s.newTip == (if |headers| > 0 then headers[|headers| - 1].header.hash else p.tipHash)
    && forall i | 0 <= i < |headers| :: headers[i].header.hash in s.lorenzo.known
  }

  ghost predicate LorenzoOk(tree: BlockTree, p: Params, lorenzo: LightClient) {
    && AncestorClosed(tree, lorenzo) && AcceptedOnce(lorenzo)
    && Contains(tree, lorenzo.base) && lorenzo.base.height <= p.lorenzoTip
  }

  ghost predicate Inv(tree: BlockTree, p: Params, s: State) {
    var tiles := Tiles(p.lorenzoTip + 1, p.limit);
    && MatchTiles(tree, InFlight(s), tiles)
    && Remaining(p, s.producer, tiles[|InFlight(s)|..])
    && DoneOk(tree, p, s)
    && LorenzoOk(tree, p, s.lorenzo)
    && |s.ibCh| <= CHANNEL_CAPACITY
    && (|s.rejected| > 0 <==> s.consumer.Crashed?)
    && (s.producer.Stopped? ==> s.overCh || s.consumer.ReturnedError?)
    && (s.overCh ==> s.producer.Stopped? && (s.quit || |InFlight(s)| == |tiles|))
    && (s.consumer.ReturnedOver? ==> s.overCh)
    && (s.consumer.ReturnedError? ==> s.producer.Stopped?)
    && (s.consumer.ReturnedQuit? ==> s.quit)
  }

  lemma StartInv(tree: BlockTree, p: Params, lorenzo: LightClient)
    requires p.Valid() && LorenzoOk(tree, p, lorenzo)
    ensures Inv(tree, p, Start(p, lorenzo))
  {
  }

  // ---------- every step keeps it ----------

  lemma ProducerTurnKeepsInv(tree: BlockTree, p: Params, s: State)
    requires p.Valid() && Inv(tree, p, s) && s.producer.Looping?
    ensures Inv(tree, p, Next(p, s, ProducerTurn))
  {
    hide DoneOk, LorenzoOk, IsRange, AllIn;
    var next := Next(p, s, ProducerTurn);
    assert InFlight(next) == InFlight(s);
    SameDone(tree, p, s, next);
  }

  lemma FetchDoneKeepsInv(tree: BlockTree, p: Params, s: State, ibs: Option<seq<IndexedBlock>>)
    requires p.Valid() && Inv(tree, p, s) && s.producer.Fetching? && StepOk(tree, s, FetchDone(ibs))
    ensures Inv(tree, p, Next(p, s, FetchDone(ibs)))
  {
    hide DoneOk, LorenzoOk, IsRange, AllIn;
    var tiles := Tiles(p.lorenzoTip + 1, p.limit);
    var n := |InFlight(s)|;
    var next := Next(p, s, FetchDone(ibs));
    if ibs.Some? {
      assert InFlight(next) == InFlight(s) + [ibs.value];
      assert tiles[n..][0] == tiles[n];
      assert tiles[n..][1..] == tiles[n + 1..];
    } else {
      assert InFlight(next) == InFlight(s);
    }
    SameDone(tree, p, s, next);
  }

  lemma SendKeepsInv(tree: BlockTree, p: Params, s: State)
    requires p.Valid() && Inv(tree, p, s) && Enabled(s, Send)
    ensures Inv(tree, p, Next(p, s, Send))
  {
    hide DoneOk, LorenzoOk, IsRange, AllIn;
    var next := Next(p, s, Send);
    assert InFlight(next) == InFlight(s);
    SameDone(tree, p, s, next);
  }

  /** Appending a range that attaches to the last header. */
  lemma AppendedBatch(tree: BlockTree, headers: seq<IndexedBlock>, ibs: seq<IndexedBlock>, low: int)
    requires ValidTree(tree) && Linked(headers) && AllIn(tree, headers) && HeightsFrom(headers, low)
    requires |ibs| > 0 && Linked(ibs) && AllIn(tree, ibs) && HeightsFrom(ibs, low + |headers|)
    requires |headers| > 0 ==> ibs[0].header.prevBlock == headers[|headers| - 1].header.hash
    ensures Linked(headers + ibs) && AllIn(tree, headers + ibs) && HeightsFrom(headers + ibs, low)
  {
    var both := headers + ibs;
    forall i, j | 0 <= i < j < |both| && j == i + 1 ensures Attaches(both[i], both[j]) {
      if j < |headers| {
        assert Attaches(headers[i], headers[j]);
      } else if i >= |headers| {
        assert Attaches(ibs[i - |headers|], ibs[j - |headers|]);
      }
    }
  }

  /** The submitted batches have the heights of the first tiles, so the next one continues them. */
  lemma {:induction false} DoneHeights(tree: BlockTree, batches: seq<seq<IndexedBlock>>, tiles: seq<(nat, nat)>,
      low: nat, high: int)
    requires TilesRange(tiles, low, high, BATCH_SIZE) && MatchTiles(tree, batches, tiles)
    ensures |batches| < |tiles| ==> tiles[|batches|].0 == low + |Flatten(batches)|
    ensures |batches| == |tiles| ==> high == low + |Flatten(batches)| - 1
    ensures low + |Flatten(batches)| <= high + 1
    decreases |batches|
  {
    TilesGoUp(tiles, low, high, BATCH_SIZE);
    if |batches| > 0 {
      var rest := batches[1..];
      assert MatchTiles(tree, rest, tiles[1..]) by {
        forall i | 0 <= i < |rest| ensures IsRange(rest[i], tiles[1..][i].0, tiles[1..][i].1) && AllIn(tree, rest[i]) {
          assert rest[i] == batches[i + 1];
        }
      }
      DoneHeights(tree, rest, tiles[1..], tiles[0].1 + 1, high);
    }
  }

  lemma MatchPrefix(tree: BlockTree, a: seq<seq<IndexedBlock>>, b: seq<seq<IndexedBlock>>, tiles: seq<(nat, nat)>)
    requires MatchTiles(tree, a + b, tiles)
    ensures MatchTiles(tree, a, tiles)
  {
    hide IsRange, AllIn;
    assert forall i | 0 <= i < |a| :: (a + b)[i] == a[i];
  }

  lemma DoneMatches(tree: BlockTree, s: State, tiles: seq<(nat, nat)>)
    requires MatchTiles(tree, InFlight(s), tiles)
    ensures MatchTiles(tree, s.done, tiles)
  {
    var later := s.rejected + s.ibCh + if s.producer.Sending? then [s.producer.batch] else [];
    assert InFlight(s) == s.done + later;
    MatchPrefix(tree, s.done, later, tiles);
  }

  /** The batch at the head of the channel continues the submitted headers. */
  lemma NextBatchContinues(tree: BlockTree, p: Params, s: State)
    requires p.Valid() && Inv(tree, p, s) && |s.ibCh| > 0 && s.rejected == []
    ensures var ibs := s.ibCh[0];
            && |ibs| > 0 && Linked(ibs) && AllIn(tree, ibs)
            && HeightsFrom(ibs, p.lorenzoTip + 1 + |Flatten(s.done)|)
  {
    hide DoneOk, LorenzoOk, Linked, AllIn, HeightsFrom;
    var tiles := Tiles(p.lorenzoTip + 1, p.limit);
    TilesAreExact(p.lorenzoTip, p.limit);
    DoneMatches(tree, s, tiles);
    DoneHeights(tree, s.done, tiles, p.lorenzoTip + 1, LastHeight(p.lorenzoTip, p.limit));
    assert InFlight(s)[|s.done|] == s.ibCh[0];
  }

  lemma SubmissionIsSound(tree: BlockTree, p: Params, lorenzo: LightClient, ibs: seq<IndexedBlock>,
      answers: SubmitAnswers)
    requires p.Valid() && ValidTree(tree) && LorenzoOk(tree, p, lorenzo)
    requires |ibs| > 0 && Linked(ibs) && AllIn(tree, ibs) && p.lorenzoTip < ibs[0].height
    ensures var (after, r) := ProcessHeaders(lorenzo, ibs, p.maxHeadersInMsg, answers);
            && LorenzoOk(tree, p, after)
            && lorenzo.known <= after.known
            && (r.Ok? ==> forall i | 0 <= i < |ibs| :: ibs[i].header.hash in after.known)
  {
    hide ProcessHeaders, AncestorClosed, AcceptedOnce;
    BaseIsBelow(tree, lorenzo, ibs);
    ProcessHeadersKeepsLorenzoSound(tree, lorenzo, ibs, p.maxHeadersInMsg, answers);
  }

  lemma DoneGrows(tree: BlockTree, p: Params, s: State, ibs: seq<IndexedBlock>, lorenzo: LightClient)
    requires ValidTree(tree) && DoneOk(tree, p, s)
    requires |ibs| > 0 && Linked(ibs) && AllIn(tree, ibs) && HeightsFrom(ibs, p.lorenzoTip + 1 + |Flatten(s.done)|)
    requires ibs[0].header.prevBlock == s.newTip && s.lorenzo.known <= lorenzo.known
    requires forall i | 0 <= i < |ibs| :: ibs[i].header.hash in lorenzo.known
    ensures DoneOk(tree, p, s.(newTip := ibs[|ibs| - 1].header.hash, done := s.done + [ibs], lorenzo := lorenzo))
  {
    hide Linked, HeightsFrom, AllIn, Flatten, ValidTree;
    var headers := Flatten(s.done);
    FlattenSnoc(s.done, ibs);
    AppendedBatch(tree, headers, ibs, p.lorenzoTip + 1);
    assert forall i | 0 <= i < |headers + ibs| ::
        (headers + ibs)[i] == if i < |headers| then headers[i] else ibs[i - |headers|];
  }

  lemma ConsumeCases(p: Params, s: State, answers: SubmitAnswers)
    requires p.Valid() && Enabled(s, Consume(answers)) && |s.ibCh[0]| > 0
    ensures var next := Next(p, s, Consume(answers));
            var ibs := s.ibCh[0];
            var (lorenzo, r) := ProcessHeaders(s.lorenzo, ibs, p.maxHeadersInMsg, answers);
            if ibs[0].header.prevBlock == s.newTip && r.Ok? then
              next == s.(ibCh := s.ibCh[1..], newTip := ibs[|ibs| - 1].header.hash, done := s.done + [ibs],
                         lorenzo := lorenzo)
            else
              next == s.(ibCh := s.ibCh[1..], consumer := Crashed, rejected := s.rejected + [ibs],
                         lorenzo := if ibs[0].header.prevBlock == s.newTip then lorenzo else s.lorenzo)
  {
    hide ProcessHeaders;
    var (_, r) := ProcessHeaders(s.lorenzo, s.ibCh[0], p.maxHeadersInMsg, answers);
    assert r.Ok? || r.Err?;
  }

  lemma {:induction false} ConsumeKeepsInv(tree: BlockTree, p: Params, s: State, answers: SubmitAnswers)
    requires p.Valid() && ValidTree(tree) && Inv(tree, p, s) && Enabled(s, Consume(answers))
    ensures Inv(tree, p, Next(p, s, Consume(answers)))
  {
    hide ProcessHeaders, ConsumeBatch, Next, MatchTiles, Remaining, Linked, AllIn, HeightsFrom, ValidTree, LorenzoOk,
      DoneOk, Tiles, Flatten, InFlight;
    var ibs := s.ibCh[0];
    assert s.rejected == [];
    NextBatchContinues(tree, p, s);
    assert ibs[0].height == p.lorenzoTip + 1 + |Flatten(s.done)| by {
      FirstHeight(ibs, p.lorenzoTip + 1 + |Flatten(s.done)|);
    }
    SubmissionIsSound(tree, p, s.lorenzo, ibs, answers);
    ConsumeCases(p, s, answers);
    var next := Next(p, s, Consume(answers));
    var (lorenzo, r) := ProcessHeaders(s.lorenzo, ibs, p.maxHeadersInMsg, answers);
    if ibs[0].header.prevBlock == s.newTip && r.Ok? {
      DoneGrows(tree, p, s, ibs, lorenzo);
      SameDone(tree, p, s.(newTip := next.newTip, done := next.done, lorenzo := next.lorenzo), next);
    } else {
      KnownGrows(tree, p, s, next);
    }
    BatchMoves(s, next, ibs);
  }

  lemma FirstHeight(ibs: seq<IndexedBlock>, low: int)
    requires |ibs| > 0 && HeightsFrom(ibs, low)
    ensures ibs[0].height == low
  {
  }

  /** The batch moves from the channel to the submitted or the rejected ones. */
  lemma BatchMoves(s: State, next: State, ibs: seq<IndexedBlock>)
    requires |s.ibCh| > 0 && ibs == s.ibCh[0] && next.ibCh == s.ibCh[1..] && s.rejected == []
    requires || (next.done == s.done + [ibs] && next.rejected == s.rejected)
             || (next.done == s.done && next.rejected == s.rejected + [ibs])
    requires next.producer == s.producer
    ensures InFlight(next) == InFlight(s)
  {
    assert s.ibCh == [ibs] + s.ibCh[1..];
  }

  lemma KnownGrows(tree: BlockTree, p: Params, s: State, next: State)
    requires DoneOk(tree, p, s) && s.lorenzo.known <= next.lorenzo.known
    requires next.done == s.done && next.newTip == s.newTip
    ensures DoneOk(tree, p, next)
  {
  }

  lemma RelayKeepsInv(tree: BlockTree, p: Params, s: State, msg: seq<IndexedBlock>)
    requires p.Valid() && Inv(tree, p, s) && Enabled(s, Relay(msg)) && StepOk(tree, s, Relay(msg))
    ensures Inv(tree, p, Next(p, s, Relay(msg)))
  {
    hide DoneOk, MatchTiles, Remaining, Linked, AllIn, AncestorClosed, AcceptedOnce;
    var next := Next(p, s, Relay(msg));
    assert InFlight(next) == InFlight(s);
    OthersKeepSound(tree, s.lorenzo, msg);
    KnownGrows(tree, p, s, next);
  }

  lemma StepKeepsInv(tree: BlockTree, p: Params, s: State, step: Step)
    requires p.Valid() && ValidTree(tree) && Inv(tree, p, s) && Enabled(s, step) && StepOk(tree, s, step)
    ensures Inv(tree, p, Next(p, s, step))
  {
    hide DoneOk, LorenzoOk, IsRange, AllIn, ConsumeBatch, StepOk, ValidTree;
    match step
    case ProducerTurn => ProducerTurnKeepsInv(tree, p, s);
    case FetchDone(ibs) => FetchDoneKeepsInv(tree, p, s, ibs);
    case Send => SendKeepsInv(tree, p, s);
    case Consume(answers) => ConsumeKeepsInv(tree, p, s, answers);
    case Relay(msg) => RelayKeepsInv(tree, p, s, msg);
    case _ =>
      var next := Next(p, s, step);
      assert InFlight(next) == InFlight(s);
      SameDone(tree, p, s, next);
  }

  lemma SameDone(tree: BlockTree, p: Params, s: State, next: State)
    requires next.done == s.done && next.newTip == s.newTip && next.lorenzo == s.lorenzo
    ensures DoneOk(tree, p, next) == DoneOk(tree, p, s)
  {
  }

  lemma {:induction false} RunKeepsInv(tree: BlockTree, p: Params, s: State, steps: seq<Step>)
    requires p.Valid() && ValidTree(tree) && Inv(tree, p, s) && IsRun(tree, p, s, steps)
    ensures Inv(tree, p, Final(p, s, steps))
    decreases |steps|
  {
    hide Inv, Next, StepOk;
    if |steps| > 0 {
      StepKeepsInv(tree, p, s, steps[0]);
      RunKeepsInv(tree, p, Next(p, s, steps[0]), steps[1..]);
    }
  }

  // ---------- the main results ----------

  /**
    Under every interleaving of producer, consumer, shutdown, failures and other relayers, the headers submitted so
    far are one hash-linked chain on top of Lorenzo's tip with no gap and no repetition; Lorenzo knows them all and
    has accepted none twice from this reporter.
   */
  lemma {:induction false} SubmittedHeadersAreAChain(tree: BlockTree, p: Params, lorenzo: LightClient, steps: seq<Step>)
    requires p.Valid() && ValidTree(tree) && LorenzoOk(tree, p, lorenzo)
    requires IsRun(tree, p, Start(p, lorenzo), steps)
    ensures var f := Final(p, Start(p, lorenzo), steps);
            var headers := Flatten(f.done);
            && Linked(headers) && HeightsFrom(headers, p.lorenzoTip + 1)
            && (|headers| > 0 ==> headers[0].header.prevBlock == p.tipHash)
            && (forall i | 0 <= i < |headers| :: headers[i].header.hash in f.lorenzo.known)
            && AncestorClosed(tree, f.lorenzo) && AcceptedOnce(f.lorenzo)
  {
    hide ProcessHeaders, ConsumeBatch, Next, Flatten, AncestorClosed, AcceptedOnce, Linked;
    StartInv(tree, p, lorenzo);
    RunKeepsInv(tree, p, Start(p, lorenzo), steps);
  }

  /**
    However the run ends, the submitted batches are the first tiles of the one exact tiling, and their headers do not
    go beyond its last height.
   */
  lemma {:induction false} SubmittedBatchesAreFirstTiles(tree: BlockTree, p: Params, lorenzo: LightClient,
      steps: seq<Step>)
    requires p.Valid() && ValidTree(tree) && LorenzoOk(tree, p, lorenzo)
    requires IsRun(tree, p, Start(p, lorenzo), steps)
    ensures var f := Final(p, Start(p, lorenzo), steps);
            var tiles := Tiles(p.lorenzoTip + 1, p.limit);
            && MatchTiles(tree, f.done, tiles)
            && TilesRange(tiles, p.lorenzoTip + 1, LastHeight(p.lorenzoTip, p.limit), BATCH_SIZE)
            && |Flatten(f.done)| <= LastHeight(p.lorenzoTip, p.limit) - p.lorenzoTip
  {
    hide Next, ConsumeBatch, DoneOk, LorenzoOk, IsRange, LastHeight, Tiles, MatchTiles, TilesRange, StepOk;
    var f := Final(p, Start(p, lorenzo), steps);
    var tiles := Tiles(p.lorenzoTip + 1, p.limit);
    StartInv(tree, p, lorenzo);
    RunKeepsInv(tree, p, Start(p, lorenzo), steps);
    TilesAreExact(p.lorenzoTip, p.limit);
    DoneMatches(tree, f, tiles);
    DoneHeights(tree, f.done, tiles, p.lorenzoTip + 1, LastHeight(p.lorenzoTip, p.limit));
  }

  /**
    When the consumer returns because production is over and no shutdown was requested, the only planned
    batches that are missing are those still in the channel, at most ten.
   */
  lemma {:induction false} OverLeavesAtMostTheChannel(tree: BlockTree, p: Params, lorenzo: LightClient,
      steps: seq<Step>)
    requires p.Valid() && ValidTree(tree) && LorenzoOk(tree, p, lorenzo)
    requires IsRun(tree, p, Start(p, lorenzo), steps)
    requires var f := Final(p, Start(p, lorenzo), steps); f.consumer == ReturnedOver && !f.quit
    ensures var f := Final(p, Start(p, lorenzo), steps);
            && MatchTiles(tree, f.done + f.ibCh, Tiles(p.lorenzoTip + 1, p.limit))
            && |f.done| + |f.ibCh| == |Tiles(p.lorenzoTip + 1, p.limit)|
            && |f.ibCh| <= CHANNEL_CAPACITY
  {
    hide Next, ConsumeBatch, DoneOk, LorenzoOk, IsRange, Tiles, StepOk;
    StartInv(tree, p, lorenzo);
    RunKeepsInv(tree, p, Start(p, lorenzo), steps);
    var f := Final(p, Start(p, lorenzo), steps);
    assert f.rejected == [];
    assert InFlight(f) == f.done + f.ibCh;
  }

  /** The producer fetches and sends these batches and stops, then the consumer sees the end. */
  function Rush(batches: seq<seq<IndexedBlock>>): seq<Step> {
    if |batches| == 0 then [ProducerTurn] + ([SeeOver] + [])
    else [ProducerTurn] + ([FetchDone(Some(batches[0]))] + ([Send] + Rush(batches[1..])))
  }

  /**
    Batches can really be lost this way, in any run of any range: whenever the channel has room for everything that
    is still to be fetched, the producer may finish and the consumer return at once, leaving all of it, and all
    that was in the channel, unsubmitted.
   */
  lemma {:induction false} OverCanOvertakeTheChannel(tree: BlockTree, p: Params, s: State,
                                                     batches: seq<seq<IndexedBlock>>)
    requires p.Valid() && s.producer.Looping? && s.consumer.Waiting? && !s.quit
    requires |batches| == |Tiles(s.producer.h, p.limit)| && MatchTiles(tree, batches, Tiles(s.producer.h, p.limit))
    requires |s.ibCh| + |batches| <= CHANNEL_CAPACITY
    ensures IsRun(tree, p, s, Rush(batches))
    ensures var f := Final(p, s, Rush(batches));
            f.consumer == ReturnedOver && f.done == s.done && f.ibCh == s.ibCh + batches
    decreases |batches|
  {
    hide Next, IsRange, AllIn, IsRun, Final, EndHeight;
    if |batches| == 0 {
      StopAndSeeOver(tree, p, s);
      assert s.ibCh + batches == s.ibCh;
    } else {
      var tiles := Tiles(s.producer.h, p.limit);
      var end := EndHeight(s.producer.h, p.limit);
      assert tiles[1..] == Tiles(end + 1, p.limit);
      assert forall k | 0 <= k < |batches| - 1 :: batches[1..][k] == batches[k + 1];
      var sent := s.(producer := Looping(end + 1), ibCh := s.ibCh + [batches[0]]);
      OverCanOvertakeTheChannel(tree, p, sent, batches[1..]);
      BatchIsSent(tree, p, s, batches[0], Rush(batches[1..]));
      assert s.ibCh + [batches[0]] + batches[1..] == s.ibCh + batches;
    }
  }

  lemma {:induction false} BatchIsSent(tree: BlockTree, p: Params, s: State, batch: seq<IndexedBlock>, rest: seq<Step>)
    requires p.Valid() && s.producer.Looping? && s.producer.h < p.limit && !s.quit && |s.ibCh| < CHANNEL_CAPACITY
    requires IsRange(batch, s.producer.h, EndHeight(s.producer.h, p.limit)) && AllIn(tree, batch)
    requires var sent := s.(producer := Looping(EndHeight(s.producer.h, p.limit) + 1), ibCh := s.ibCh + [batch]);
             IsRun(tree, p, sent, rest)
    ensures var steps := [ProducerTurn] + ([FetchDone(Some(batch))] + ([Send] + rest));
            var sent := s.(producer := Looping(EndHeight(s.producer.h, p.limit) + 1), ibCh := s.ibCh + [batch]);
            IsRun(tree, p, s, steps) && Final(p, s, steps) == Final(p, sent, rest)
  {
    hide IsRun, Final, IsRange, AllIn, ConsumeBatch, InsertByOthers;
    var s1 := Next(p, s, ProducerTurn);
    var s2 := Next(p, s1, FetchDone(Some(batch)));
    OneMore(tree, p, s2, Send, rest);
    OneMore(tree, p, s1, FetchDone(Some(batch)), [Send] + rest);
    OneMore(tree, p, s, ProducerTurn, [FetchDone(Some(batch))] + ([Send] + rest));
  }

  lemma {:induction false} StopAndSeeOver(tree: BlockTree, p: Params, s: State)
    requires p.Valid() && s.producer.Looping? && s.producer.h >= p.limit && s.consumer.Waiting?
    ensures var steps := [ProducerTurn] + ([SeeOver] + []);
            && IsRun(tree, p, s, steps)
            && Final(p, s, steps) == s.(producer := Stopped, overCh := true, consumer := ReturnedOver)
  {
    hide ConsumeBatch, InsertByOthers;
    OneMore(tree, p, Next(p, s, ProducerTurn), SeeOver, []);
    OneMore(tree, p, s, ProducerTurn, [SeeOver] + []);
  }

  lemma {:induction false} OneMore(tree: BlockTree, p: Params, s: State, step: Step, rest: seq<Step>)
    requires 0 < p.maxHeadersInMsg && Enabled(s, step) && StepOk(tree, s, step)
    requires IsRun(tree, p, Next(p, s, step), rest)
    ensures IsRun(tree, p, s, [step] + rest)
    ensures Final(p, s, [step] + rest) == Final(p, Next(p, s, step), rest)
  {
    hide Next, StepOk;
    assert ([step] + rest)[1..] == rest;
  }

  // ---------- termination ----------

  function ProducerMeasure(p: Params, producer: Producer): int {
    match producer
    case Looping(h) => 5 * (p.limit + 2 - h)
    case Fetching(_, end) => 5 * (p.limit + 2 - end) - 1
    case Sending(end, _) => 5 * (p.limit + 2 - end) - 2
    case SendingError => 1
    case Stopped => 0
  }

  function Measure(p: Params, s: State): int {
    ProducerMeasure(p, s.producer) + |s.ibCh| + (if s.consumer.Waiting? then 1 else 0) + (if s.quit then 0 else 1)
  }

  ghost predicate HeightsInRange(p: Params, producer: Producer) {
    match producer
    case Looping(h) => h <= p.limit + 1
    case Fetching(h, end) => h <= end <= p.limit
    case Sending(end, _) => end <= p.limit
    case _ => true
  }

  lemma StepDecreasesMeasure(p: Params, s: State, step: Step)
    requires p.Valid() && HeightsInRange(p, s.producer) && Enabled(s, step)
    ensures var next := Next(p, s, step);
            && HeightsInRange(p, next.producer) && 0 <= Measure(p, next)
            && (if step.Relay? then Measure(p, next) == Measure(p, s) else Measure(p, next) < Measure(p, s))
  {
    hide ProcessHeaders, InsertByOthers, Acceptable, ConsumeBatch;
    if step.Consume? {
      ConsumeShrinks(p, s, step.answers);
    }
  }

  lemma ConsumeShrinks(p: Params, s: State, answers: SubmitAnswers)
    requires p.Valid() && Enabled(s, Consume(answers))
    ensures var next := Next(p, s, Consume(answers));
            next.producer == s.producer && next.quit == s.quit && |next.ibCh| == |s.ibCh| - 1
  {
    hide ProcessHeaders;
  }

  /** The steps of the relayer itself and its node, without those of other relayers. */
  function OwnSteps(steps: seq<Step>): nat {
    if |steps| == 0 then 0 else (if steps[0].Relay? then 0 else 1) + OwnSteps(steps[1..])
  }

  /**
    No run has more own steps than the measure of its first state: the producer and the consumer both come to an
    end, whatever other relayers do.
   */
  lemma {:induction false} RunsAreBounded(tree: BlockTree, p: Params, s: State, steps: seq<Step>)
    requires p.Valid() && HeightsInRange(p, s.producer) && IsRun(tree, p, s, steps)
    ensures OwnSteps(steps) <= Measure(p, s)
    ensures HeightsInRange(p, Final(p, s, steps).producer)
    decreases |steps|
  {
    hide Next, Measure, HeightsInRange, StepOk;
    if |steps| > 0 {
      StepDecreasesMeasure(p, s, steps[0]);
      RunsAreBounded(tree, p, Next(p, s, steps[0]), steps[1..]);
    } else {
      MeasureIsNat(p, s);
    }
  }

  lemma MeasureIsNat(p: Params, s: State)
    requires HeightsInRange(p, s.producer)
    ensures 0 <= Measure(p, s)
  {
  }

  /** Nothing can happen any more except a shutdown request and what other relayers do. */
  ghost predicate Stuck(s: State) {
    forall step: Step | !step.Quit? && !step.Relay? :: !Enabled(s, step)
  }

  /**
    There is no deadlock for the consumer: when nothing can move, it has returned or panicked. The producer is then
    blocked, on a full channel or on the error channel nobody reads, only if a shutdown was requested or the
    consumer panicked; a return on the end signal or on an error leaves it stopped.
   */
  lemma StuckOnlyAfterConsumerEnds(tree: BlockTree, p: Params, s: State)
    requires Inv(tree, p, s) && Stuck(s)
    ensures !s.consumer.Waiting?
    ensures s.producer.Stopped? || s.producer.SendingError? || (s.producer.Sending? && |s.ibCh| == CHANNEL_CAPACITY)
    ensures !s.producer.Stopped? ==> (s.quit && s.consumer.ReturnedQuit?) || s.consumer.Crashed?
  {
    hide DoneOk, LorenzoOk, MatchTiles, Remaining;
    assert !Enabled(s, ProducerTurn) && !Enabled(s, FetchDone(None)) && !Enabled(s, Send) && !Enabled(s, HandError);
    assert !Enabled(s, Consume(SubmitAnswers(None, []))) && !Enabled(s, SeeOver) && !Enabled(s, SeeQuit);
  }

  ghost predicate FetchesSucceed(steps: seq<Step>) {
    forall k | 0 <= k < |steps| :: steps[k] != FetchDone(None)
  }

  ghost predicate NoShutdown(steps: seq<Step>) {
    forall k | 0 <= k < |steps| :: !steps[k].Quit?
  }

  predicate FetchFailed(s: State) {
    s.producer.SendingError? || s.consumer.ReturnedError?
  }

  lemma StepFlags(p: Params, s: State, step: Step)
    requires p.Valid() && Enabled(s, step)
    ensures var next := Next(p, s, step);
            && (next.quit <==> s.quit || step.Quit?)
            && (FetchFailed(next) <==> FetchFailed(s) || step == FetchDone(None))
  {
    hide ProcessHeaders, InsertByOthers, Acceptable;
  }

  /** A shutdown request or a failed fetch has been seen exactly if one of the steps was one. */
  lemma {:induction false} FlagsHaveCauses(tree: BlockTree, p: Params, s: State, steps: seq<Step>)
    requires p.Valid() && IsRun(tree, p, s, steps)
    ensures Final(p, s, steps).quit <==> s.quit || !NoShutdown(steps)
    ensures FetchFailed(Final(p, s, steps)) <==> FetchFailed(s) || !FetchesSucceed(steps)
    decreases |steps|
  {
    hide StepOk, Next, FetchFailed;
    if |steps| > 0 {
      StepFlags(p, s, steps[0]);
      FlagsHaveCauses(tree, p, Next(p, s, steps[0]), steps[1..]);
      assert steps == [steps[0]] + steps[1..];
    }
  }

  /**
    How a run that cannot go on has ended, without a shutdown request: the consumer has panicked exactly if it refused
    a batch; otherwise it has returned an error if a fetch failed, and on the end signal if none did.
   */
  lemma {:induction false} ConsumerEndsForAReason(tree: BlockTree, p: Params, lorenzo: LightClient, steps: seq<Step>)
    requires p.Valid() && ValidTree(tree) && LorenzoOk(tree, p, lorenzo)
    requires IsRun(tree, p, Start(p, lorenzo), steps) && Stuck(Final(p, Start(p, lorenzo), steps))
    requires NoShutdown(steps)
    ensures var f := Final(p, Start(p, lorenzo), steps);
            && (f.consumer.Crashed? <==> |f.rejected| > 0)
            && (f.consumer.ReturnedError? <==> !f.consumer.Crashed? && !FetchesSucceed(steps))
            && (f.consumer.ReturnedOver? <==> !f.consumer.Crashed? && FetchesSucceed(steps))
  {
    hide Stuck, IsRun, Final, DoneOk, LorenzoOk, MatchTiles, Remaining;
    StartInv(tree, p, lorenzo);
    RunKeepsInv(tree, p, Start(p, lorenzo), steps);
    FlagsHaveCauses(tree, p, Start(p, lorenzo), steps);
    StuckOnlyAfterConsumerEnds(tree, p, Final(p, Start(p, lorenzo), steps));
  }

  /** Without a shutdown request and a panic of the consumer, the producer has stopped when nothing can move. */
  lemma {:induction false} ProducerTerminates(tree: BlockTree, p: Params, lorenzo: LightClient, steps: seq<Step>)
    requires p.Valid() && ValidTree(tree) && LorenzoOk(tree, p, lorenzo)
    requires IsRun(tree, p, Start(p, lorenzo), steps) && Stuck(Final(p, Start(p, lorenzo), steps))
    ensures var f := Final(p, Start(p, lorenzo), steps);
            && (f.consumer.ReturnedOver? || f.consumer.ReturnedError? ==> f.producer.Stopped?)
            && (!f.quit && !f.consumer.Crashed? ==> f.producer.Stopped?)
  {
    hide Inv, Stuck, IsRun, Final;
    StartInv(tree, p, lorenzo);
    RunKeepsInv(tree, p, Start(p, lorenzo), steps);
    StuckOnlyAfterConsumerEnds(tree, p, Final(p, Start(p, lorenzo), steps));
  }

  // ---------- shutdown ----------

  /** Batches whose fetch has begun. */
  function Begun(s: State): nat {
    |InFlight(s)| + if s.producer.Fetching? then 1 else 0
  }

  lemma ShutdownStep(p: Params, s: State, step: Step)
    requires p.Valid() && Enabled(s, step) && s.quit
    ensures Next(p, s, step).quit && Begun(Next(p, s, step)) <= Begun(s)
  {
    hide ProcessHeaders, InsertByOthers, Acceptable;
  }

  /** After a shutdown request no further fetch begins: what is ever submitted had been asked for before. */
  lemma {:induction false} ShutdownStopsFetching(tree: BlockTree, p: Params, s: State, steps: seq<Step>)
    requires p.Valid() && s.quit && IsRun(tree, p, s, steps)
    ensures |InFlight(Final(p, s, steps))| <= |InFlight(s)| + if s.producer.Fetching? then 1 else 0
    decreases |steps|
  {
    hide Next, StepOk, InFlight;
    if |steps| > 0 {
      ShutdownStep(p, s, steps[0]);
      ShutdownStopsFetching(tree, p, Next(p, s, steps[0]), steps[1..]);
    }
  }

  // ---------- a producer whose consumer has ended ----------

  /**
    Room in the channel for what the producer will still send once nobody reads: the batch in hand and, unless a
    shutdown stops the loop, all that follow.
   */
  predicate HasRoom(p: Params, s: State) {
    match s.producer
    case Looping(h) => s.quit || |s.ibCh| + |Tiles(h, p.limit)| <= CHANNEL_CAPACITY
    case Fetching(h, _) =>
      |s.ibCh| < CHANNEL_CAPACITY && (s.quit || |s.ibCh| + |Tiles(h, p.limit)| <= CHANNEL_CAPACITY)
    case Sending(end, _) =>
      |s.ibCh| < CHANNEL_CAPACITY && (s.quit || |s.ibCh| + 1 + |Tiles(end + 1, p.limit)| <= CHANNEL_CAPACITY)
    case SendingError => false
    case Stopped => true
  }

  ghost predicate Abandoned(p: Params, s: State) {
    && !s.consumer.Waiting? && |s.ibCh| <= CHANNEL_CAPACITY
    && (s.producer.Fetching? ==> s.producer.h < p.limit && s.producer.end == EndHeight(s.producer.h, p.limit))
  }

  lemma AbandonedStep(p: Params, s: State, step: Step)
    requires p.Valid() && Abandoned(p, s) && Enabled(s, step)
    ensures var next := Next(p, s, step);
            && Abandoned(p, next)
            && (step != FetchDone(None) && HasRoom(p, s) ==> HasRoom(p, next))
            && (!step.Quit? && HasRoom(p, next) ==> HasRoom(p, s) && step != FetchDone(None))
  {
    hide ConsumeBatch, InsertByOthers, Acceptable;
  }

  /**
    When the producer whose consumer has ended, for whatever reason, still comes to an end: if no later fetch fails
    and, at the moment the consumer ended, the channel had room for what was still to be sent. Unless a shutdown is
    requested later, only then; otherwise it blocks for good.
   */
  lemma {:induction false} AbandonedProducerStopsExactlyWhen(tree: BlockTree, p: Params, s: State, steps: seq<Step>)
    requires p.Valid() && Abandoned(p, s) && IsRun(tree, p, s, steps) && Stuck(Final(p, s, steps))
    ensures HasRoom(p, s) && FetchesSucceed(steps) ==> Final(p, s, steps).producer.Stopped?
    ensures NoShutdown(steps) ==> (Final(p, s, steps).producer.Stopped? <==> HasRoom(p, s) && FetchesSucceed(steps))
    decreases |steps|
  {
    hide Next, StepOk, HasRoom, Stuck, Abandoned;
    if |steps| > 0 {
      var next := Next(p, s, steps[0]);
      AbandonedStep(p, s, steps[0]);
      AbandonedProducerStopsExactlyWhen(tree, p, next, steps[1..]);
      assert FetchesSucceed(steps) <==> steps[0] != FetchDone(None) && FetchesSucceed(steps[1..]) by {
        assert forall k | 0 < k < |steps| :: steps[k] == steps[1..][k - 1];
      }
      assert NoShutdown(steps) ==> NoShutdown(steps[1..]) by {
        assert forall k | 0 <= k < |steps| - 1 :: steps[1..][k] == steps[k + 1];
      }
    } else {
      StuckHasRoom(p, s);
    }
  }

  lemma StuckHasRoom(p: Params, s: State)
    requires Abandoned(p, s) && Stuck(s)
    ensures HasRoom(p, s) <==> s.producer.Stopped?
  {
    assert !Enabled(s, ProducerTurn) && !Enabled(s, FetchDone(None)) && !Enabled(s, Send);
  }

  lemma EndedMeansAbandoned(tree: BlockTree, p: Params, s: State)
    requires Inv(tree, p, s) && !s.consumer.Waiting?
    ensures Abandoned(p, s)
  {
    hide DoneOk, LorenzoOk, MatchTiles;
  }

  /** The producer does block for good when, at any time, its fetch fails after the consumer has seen the shutdown. */
  lemma {:induction false} ProducerCanBlockForever(tree: BlockTree, p: Params, s: State)
    requires p.Valid() && s.producer.Looping? && s.producer.h < p.limit && s.consumer.Waiting? && !s.quit && !s.overCh
    ensures var steps := [ProducerTurn] + ([Quit] + ([SeeQuit] + ([FetchDone(None)] + [])));
            var f := Final(p, s, steps);
            IsRun(tree, p, s, steps) && Stuck(f) && f.producer == SendingError
  {
    hide ProcessHeaders, ConsumeBatch, InsertByOthers;
    var s1 := Next(p, s, ProducerTurn);
    var s2 := Next(p, s1, Quit);
    var s3 := Next(p, s2, SeeQuit);
    OneMore(tree, p, s3, FetchDone(None), []);
    OneMore(tree, p, s2, SeeQuit, [FetchDone(None)] + []);
    OneMore(tree, p, s1, Quit, [SeeQuit] + ([FetchDone(None)] + []));
    OneMore(tree, p, s, ProducerTurn, [Quit] + ([SeeQuit] + ([FetchDone(None)] + [])));
  }
}
