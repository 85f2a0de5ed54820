/**
  The BNB relayer's main loop: choose a window of numbers, fetch it, check that it continues the relayer's tip,
  upload it, and re-read the tip from Lorenzo after a failure.
 */
module BnbReporterSpec {
  import opened Prelude
  import opened BnbTypes
  import opened BnbClient
  import opened LorenzoBnbLightClient

  const BATCH_SIZE: Uint64 := 100

  function Add64(a: Uint64, b: Uint64): (r: Uint64)
    ensures a + b < TWO_TO_THE_64 ==> r == a + b
  {
    if a + b < TWO_TO_THE_64 then a + b else a + b - TWO_TO_THE_64
  }

  function Sub64(a: Uint64, b: Uint64): (r: Uint64)
    ensures b <= a ==> r == a - b
  {
    if b <= a then a - b else a - b + TWO_TO_THE_64
  }

  /** The numbers to fetch next, in uint64 arithmetic; None when the tip is not `delay` behind yet. */
  function Window(delay: Uint64, tip: Uint64, bnbTip: Uint64): Option<(Uint64, Uint64)> {
    if Add64(Add64(delay, tip), 1) > bnbTip then None
    else
      var low := Add64(tip, 1);
      var high := Sub64(bnbTip, delay);
      if Add64(Sub64(high, low), 1) > BATCH_SIZE then Some((low, Sub64(Add64(low, BATCH_SIZE), 1)))
      else Some((low, high))
  }

  /** What the window is meant to be: up to 100 numbers after the tip, none nearer than `delay` to BNB's tip. */
  predicate WindowIsRight(delay: nat, tip: nat, bnbTip: nat, w: Option<(Uint64, Uint64)>) {
    match w
    case None => bnbTip - delay <= tip
    case Some((low, high)) =>
      && low == tip + 1 <= high
      && high == if bnbTip - delay <= tip + BATCH_SIZE then bnbTip - delay else tip + BATCH_SIZE
  }

  /** The relayer's tip, Lorenzo, and whether the batch counts as handled. */
  function Handle(tip: BnbHeader, lorenzo: LightClient, headers: seq<BnbHeader>, d: Delivery)
    : (BnbHeader, LightClient, bool)
  {
    if |headers| == 0 then (tip, lorenzo, true)
    else if headers[0].number != Add64(tip.number, 1) || headers[0].parentHash != tip.hash then (tip, lorenzo, false)
    else
      var (after, ok) := Upload(lorenzo, headers, d);
      (if ok then headers[|headers| - 1] else tip, after, ok)
  }

  /**
    One iteration's answers: BNB's tip, the header at the end of the window, the node's headers by hash, the
    fate of the upload, whether the re-read succeeds, and what other relayers get accepted in between.
   */
  datatype Answers = Answers(bnbTip: Option<BnbHeader>, end: Option<BnbHeader>, node: BnbTree,
                             othersBeforeUpload: seq<BnbHeader>, delivery: Delivery,
                             othersBeforeReread: seq<BnbHeader>, rereadOk: bool)

  /** The batch this iteration fetches. */
  function Fetched(delay: Uint64, tip: BnbHeader, a: Answers): Option<seq<BnbHeader>> {
    if a.bnbTip.None? then None
    else
      match Window(delay, tip.number, a.bnbTip.value.number)
      case None => None
      case Some((low, high)) =>
        match Range(a.node, low, high, a.end)
        case Err(_) => None
        case Ok(headers) => Some(headers)
  }

  /** One iteration of the main loop. */
  function Turn(delay: Uint64, tip: BnbHeader, lorenzo: LightClient, a: Answers): (BnbHeader, LightClient) {
    match Fetched(delay, tip, a)
    case None => (tip, lorenzo)
    case Some(headers) =>
      var (newTip, after, ok) := Handle(tip, Others(lorenzo, a.othersBeforeUpload), headers, a.delivery);
      if ok then (newTip, after)
      else
        var later := Others(after, a.othersBeforeReread);
        (if a.rereadOk then Latest(later) else tip, later)
  }

  /** The batch this iteration uploads, if any. */
  function Sent(delay: Uint64, tip: BnbHeader, a: Answers): Option<seq<BnbHeader>> {
    match Fetched(delay, tip, a)
    case None => None
    case Some(headers) =>
      if |headers| > 0 && Follows(tip, headers[0]) then Some(headers) else None
  }

  /**
    A batch counts as handled if it is empty, or continues the relayer's tip, is one that Lorenzo can accept, and is
    reported as uploaded; exactly then the tip moves to its end. Lorenzo has it also if only the report was lost.
   */
  lemma {:induction false} HandleOutcome(tip: BnbHeader, lorenzo: LightClient, headers: seq<BnbHeader>, d: Delivery)
    ensures var (newTip, after, ok) := Handle(tip, lorenzo, headers, d);
            var fits := headers != [] && headers[0].number == Add64(tip.number, 1)
                        && headers[0].parentHash == tip.hash && LinkedOn(Latest(lorenzo), headers);
            && (ok <==> headers == [] || (fits && d == Delivered))
            && newTip == (if ok then Last(tip, headers) else tip)
            && after == (if fits && d != Refused then lorenzo.(accepted := lorenzo.accepted + headers) else lorenzo)
  {
  }

  // ---------- the window ----------

  /**
    The unsigned arithmetic is right exactly when `delay + tip + 1` does not wrap around to a number that BNB's
    tip has reached.
   */
  lemma WindowIsRightExactlyWhen(delay: Uint64, tip: Uint64, bnbTip: Uint64)
    ensures WindowIsRight(delay, tip, bnbTip, Window(delay, tip, bnbTip))
       <==> !(TWO_TO_THE_64 <= delay + tip + 1 <= bnbTip + TWO_TO_THE_64)
  {
  }
}

module BnbReporter {
  import opened Prelude
  import opened BnbTypes
  import opened BnbClient
  import opened LorenzoBnbLightClient
  import opened BnbReporterSpec

  class BNBReporter {
    const delayBlocks: Uint64
    var lorenzoTip: BnbHeader

    /** A delay of 0 means the default. */
    constructor (delay: Uint64, tip: BnbHeader)
      ensures delayBlocks == (if delay == 0 then 15 else delay) && lorenzoTip == tip
    {
      delayBlocks := if delay == 0 then 15 else delay;
      lorenzoTip := tip;
    }

    method Bootstrap(lorenzo: LightClient, rereadOk: bool)
      modifies this`lorenzoTip
      ensures lorenzoTip == if rereadOk then Latest(lorenzo) else old(lorenzoTip)
    {
      if rereadOk {
        lorenzoTip := Latest(lorenzo);
      }
    }

    method HandleHeaders(lorenzo: LightClient, newHeaders: seq<BnbHeader>, d: Delivery)
      returns (after: LightClient, ok: bool)
      modifies this`lorenzoTip
      ensures (lorenzoTip, after, ok) == Handle(old(lorenzoTip), lorenzo, newHeaders, d)
    {
      if |newHeaders| == 0 {
        return lorenzo, true;
      }
      if newHeaders[0].number != Add64(lorenzoTip.number, 1) {
        return lorenzo, false;
      }
      if newHeaders[0].parentHash != lorenzoTip.hash {
        return lorenzo, false;
      }
      var (chain, uploaded) := Upload(lorenzo, newHeaders, d);
      if !uploaded {
        return chain, false;
      }
      lorenzoTip := newHeaders[|newHeaders| - 1];
      return chain, true;
    }

    method MainLoopTurn(lorenzo: LightClient, a: Answers) returns (after: LightClient)
      modifies this`lorenzoTip
      ensures (lorenzoTip, after) == Turn(delayBlocks, old(lorenzoTip), lorenzo, a)
    {
      after := lorenzo;
      if a.bnbTip.None? {
        return;
      }
      if Add64(Add64(delayBlocks, lorenzoTip.number), 1) > a.bnbTip.value.number {
        return;
      }
      var low := Add64(lorenzoTip.number, 1);
      var high := Sub64(a.bnbTip.value.number, delayBlocks);
      if Add64(Sub64(high, low), 1) > BATCH_SIZE {
        high := Sub64(Add64(low, BATCH_SIZE), 1);
      }
      var r := RangeHeaders(a.node, low, high, a.end);
      if r.Err? {
        return;
      }
      var newHeaders := r.value;
      var ok;
      after, ok := HandleHeaders(Others(lorenzo, a.othersBeforeUpload), newHeaders, a.delivery);
      if !ok {
        after := Others(after, a.othersBeforeReread);
        Bootstrap(after, a.rereadOk);
        return;
      }
      assert |newHeaders| > 0;
      lorenzoTip := newHeaders[|newHeaders| - 1];
    }
  }
}

/** The relayer together with Lorenzo and the node, over whole runs. */
module BnbRuns {
  import opened Prelude
  import opened BnbTypes
  import opened BnbClient
  import opened LorenzoBnbLightClient
  import opened BnbReporterSpec

  /** An uploaded batch and the number of BNB's tip observed for it. */
  datatype Batch = Batch(headers: seq<BnbHeader>, bnbTip: nat)

  datatype State = State(tip: BnbHeader, lorenzo: LightClient, uploads: seq<Batch>)

  function Next(delay: Uint64, s: State, a: Answers): State {
    var (tip, lorenzo) := Turn(delay, s.tip, s.lorenzo, a);
    var sent := Sent(delay, s.tip, a);
    State(tip, lorenzo, if sent.Some? then s.uploads + [Batch(sent.value, a.bnbTip.value.number)] else s.uploads)
  }

  function Run(delay: Uint64, s: State, turns: seq<Answers>): State
    decreases |turns|
  {
    if |turns| == 0 then s else Run(delay, Next(delay, s, turns[0]), turns[1..])
  }

  /** The node answers truthfully from the tree of all BNB headers; other relayers upload headers of that tree. */
  ghost predicate AnswersOk(tree: BnbTree, delay: Uint64, s: State, a: Answers) {
    && ViewOf(a.node, tree)
    && (a.bnbTip.Some? ==> Contains(tree, a.bnbTip.value))
    && EndOk(tree, delay, s.tip, a)
    && AllIn(tree, a.othersBeforeUpload) && AllIn(tree, a.othersBeforeReread)
  }

  /** The answer to the query by number carries that number. */
  ghost predicate EndOk(tree: BnbTree, delay: Uint64, tip: BnbHeader, a: Answers) {
    a.end.Some? && a.bnbTip.Some? ==>
      match Window(delay, tip.number, a.bnbTip.value.number)
      case None => true
      case Some((_, high)) => Contains(tree, a.end.value) && a.end.value.number == high
  }

  ghost predicate TurnsOk(tree: BnbTree, delay: Uint64, s: State, turns: seq<Answers>)
    decreases |turns|
  {
    |turns| > 0 ==>
      AnswersOk(tree, delay, s, turns[0]) && TurnsOk(tree, delay, Next(delay, s, turns[0]), turns[1..])
  }

  const TWO_TO_THE_63: int := 0x8000_0000_0000_0000

  /** No number comes so close to 2^64 that adding the delay wraps around. */
  ghost predicate NumbersFit(tree: BnbTree, delay: Uint64) {
    && delay < TWO_TO_THE_63
    && forall h | h in tree :: tree[h].number < TWO_TO_THE_63 - 1
  }

  ghost predicate Env(tree: BnbTree, delay: Uint64) {
    ValidTree(tree) && NumbersFit(tree, delay)
  }

  /** 1 to 100 linked headers with consecutive numbers, none nearer than `delay` to the observed tip. */
  ghost predicate BatchOk(delay: nat, b: Batch) {
    && 1 <= |b.headers| <= BATCH_SIZE
    && LinkedOn(b.headers[0], b.headers[1..])
    && forall i | 0 <= i < |b.headers| ::
         b.headers[i].number == b.headers[0].number + i && b.headers[i].number + delay <= b.bnbTip
  }

  ghost predicate Inv(tree: BnbTree, delay: nat, s: State) {
    && LorenzoOk(tree, s.lorenzo)
    && OnChain(s.lorenzo, s.tip)
    && (forall i | 0 <= i < |s.uploads| :: BatchOk(delay, s.uploads[i]))
  }

  ghost predicate LorenzoOk(tree: BnbTree, lorenzo: LightClient) {
    Sound(lorenzo) && Contains(tree, lorenzo.base) && AllIn(tree, lorenzo.accepted)
  }

  // ---------- one iteration ----------

  lemma UploadKeepsLorenzoOk(tree: BnbTree, lc: LightClient, msg: seq<BnbHeader>, d: Delivery)
    requires LorenzoOk(tree, lc) && AllIn(tree, msg)
    ensures LorenzoOk(tree, Upload(lc, msg, d).0)
  {
    UploadKeepsSound(lc, msg, d);
  }

  lemma TipInTree(tree: BnbTree, lorenzo: LightClient, tip: BnbHeader)
    requires LorenzoOk(tree, lorenzo) && OnChain(lorenzo, tip)
    ensures Contains(tree, tip)
  {
  }

  /** A fetched batch starts right after the tip, has at most 100 headers and stays `delay` behind. */
  lemma FetchedIsInWindow(tree: BnbTree, delay: Uint64, tip: BnbHeader, a: Answers)
    requires Env(tree, delay) && Contains(tree, tip) && ViewOf(a.node, tree) && EndOk(tree, delay, tip, a)
    requires a.bnbTip.Some? ==> Contains(tree, a.bnbTip.value)
    requires Fetched(delay, tip, a).Some?
    ensures var headers := Fetched(delay, tip, a).value;
            && AllIn(tree, headers)
            && |headers| > 0 && headers[0].number == tip.number + 1
            && a.end.Some? && headers[|headers| - 1] == a.end.value
            && BatchOk(delay, Batch(headers, a.bnbTip.value.number))
  {
    hide Window, ValidTree;
    var bnbTip := a.bnbTip.value.number;
    var w := Window(delay, tip.number, bnbTip);
    WindowIsRightExactlyWhen(delay, tip.number, bnbTip);
    assert w.Some?;
    RangeIsLinked(tree, a.node, w.value.0, w.value.1, a.end);
    var headers := Fetched(delay, tip, a).value;
    LinkedOnNumbers(headers[0], headers[1..]);
    forall i | 0 <= i < |headers|
      ensures headers[i].number == headers[0].number + i
    {
      if i > 0 {
        assert headers[i] == headers[1..][i - 1];
      }
    }
  }

  /** What an iteration that has fetched a batch does. */
  lemma TurnCases(tree: BnbTree, delay: Uint64, s: State, a: Answers)
    requires Env(tree, delay) && Contains(tree, s.tip) && AnswersOk(tree, delay, s, a)
    requires Fetched(delay, s.tip, a).Some?
    ensures var headers := Fetched(delay, s.tip, a).value;
            var lorenzo := Others(s.lorenzo, a.othersBeforeUpload);
            var next := Next(delay, s, a);
            && |headers| > 0
            && var (after, ok) := if Follows(s.tip, headers[0]) then Upload(lorenzo, headers, a.delivery)
                                  else (lorenzo, false);
            var later := if ok then after else Others(after, a.othersBeforeReread);
            && next.lorenzo == later
            && next.tip == (if ok then headers[|headers| - 1] else if a.rereadOk then Latest(later) else s.tip)
            && next.uploads == (if Follows(s.tip, headers[0])
                                then s.uploads + [Batch(headers, a.bnbTip.value.number)] else s.uploads)
  {
    hide Window, Upload, Others, ValidTree, Range;
    FetchedIsInWindow(tree, delay, s.tip, a);
    var headers := Fetched(delay, s.tip, a).value;
    assert s.tip.number < TWO_TO_THE_63 - 1;
    assert headers[0].number == Add64(s.tip.number, 1);
  }

  lemma TurnKeepsInv(tree: BnbTree, delay: Uint64, s: State, a: Answers)
    requires Env(tree, delay) && Inv(tree, delay, s) && AnswersOk(tree, delay, s, a)
    ensures var next := Next(delay, s, a);
            Inv(tree, delay, next) && Extends(next.lorenzo, s.lorenzo)
  {
    hide Window, Upload, ValidTree, Range, Turn, BatchOk, LinkedOn, NumbersFit;
    TipInTree(tree, s.lorenzo, s.tip);
    if Fetched(delay, s.tip, a).None? {
      NothingFetched(delay, s, a);
    } else {
      var headers := Fetched(delay, s.tip, a).value;
      TurnCases(tree, delay, s, a);
      FetchedIsInWindow(tree, delay, s.tip, a);
      var lorenzo := Others(s.lorenzo, a.othersBeforeUpload);
      UploadKeepsSound(s.lorenzo, a.othersBeforeUpload, Delivered);
      UploadKeepsLorenzoOk(tree, s.lorenzo, a.othersBeforeUpload, Delivered);
      UploadKeepsSound(lorenzo, headers, a.delivery);
      UploadKeepsLorenzoOk(tree, lorenzo, headers, a.delivery);
      var after := if Follows(s.tip, headers[0]) then Upload(lorenzo, headers, a.delivery).0 else lorenzo;
      UploadKeepsSound(after, a.othersBeforeReread, Delivered);
      UploadKeepsLorenzoOk(tree, after, a.othersBeforeReread, Delivered);
      LatestIsOnChain(Next(delay, s, a).lorenzo);
    }
  }

  lemma LatestIsOnChain(lorenzo: LightClient)
    ensures OnChain(lorenzo, Latest(lorenzo))
  {
  }

  lemma NothingFetched(delay: Uint64, s: State, a: Answers)
    requires Fetched(delay, s.tip, a).None?
    ensures Next(delay, s, a) == s
  {
    hide Window, Range;
  }

  // ---------- main results ----------

  /**
    Over every run, whatever fails and whoever else relays: the relayer's tip stays on Lorenzo's chain, that
    chain only grows and has every header exactly once with consecutive numbers, and every uploaded batch has
    1 to 100 linked headers, none nearer than the delay to the BNB tip observed for it.
   */
  lemma {:induction false} RunIsSafe(tree: BnbTree, delay: Uint64, s: State, turns: seq<Answers>)
    requires Env(tree, delay) && Inv(tree, delay, s) && TurnsOk(tree, delay, s, turns)
    ensures var f := Run(delay, s, turns);
            && OnChain(f.lorenzo, f.tip)
            && Sound(f.lorenzo) && Extends(f.lorenzo, s.lorenzo)
            && (forall i, j | 0 <= i < j < |f.lorenzo.accepted| :: f.lorenzo.accepted[i] != f.lorenzo.accepted[j])
            && (forall i | 0 <= i < |f.uploads| :: BatchOk(delay, f.uploads[i]))
            && Inv(tree, delay, f)
    decreases |turns|
  {
    hide Next, AnswersOk, BatchOk;
    if |turns| > 0 {
      TurnKeepsInv(tree, delay, s, turns[0]);
      RunIsSafe(tree, delay, Next(delay, s, turns[0]), turns[1..]);
    } else {
      AcceptedExactlyOnce(s.lorenzo);
    }
  }

  /** The unsigned arithmetic of every reachable iteration gives the intended window. */
  lemma WindowNeverWraps(tree: BnbTree, delay: Uint64, s: State, a: Answers)
    requires Env(tree, delay) && Inv(tree, delay, s) && AnswersOk(tree, delay, s, a) && a.bnbTip.Some?
    ensures var bnbTip := a.bnbTip.value.number;
            WindowIsRight(delay, s.tip.number, bnbTip, Window(delay, s.tip.number, bnbTip))
  {
    hide Window, ValidTree, BatchOk, LinkedOn;
    TipInTree(tree, s.lorenzo, s.tip);
    WindowIsRightExactlyWhen(delay, s.tip.number, a.bnbTip.value.number);
  }

  /** The link check passes exactly when the relayer's tip is the ancestor that precedes the fetched batch. */
  lemma {:induction false} LinkCheckPassesIffTipIsAncestor(tree: BnbTree, delay: Uint64, s: State, a: Answers)
    requires Env(tree, delay) && Inv(tree, delay, s) && AnswersOk(tree, delay, s, a)
    requires Fetched(delay, s.tip, a).Some?
    ensures var headers := Fetched(delay, s.tip, a).value;
            Sent(delay, s.tip, a).Some? <==> Ancestry(tree, a.end.value, |headers|) == Some([s.tip] + headers)
  {
    hide Window, Range, BatchOk, NumbersFit;
    TipInTree(tree, s.lorenzo, s.tip);
    FetchedIsInWindow(tree, delay, s.tip, a);
    var headers := Fetched(delay, s.tip, a).value;
    BatchIsLinked(delay, Batch(headers, a.bnbTip.value.number));
    var chain := [s.tip] + headers;
    assert chain[1..] == headers;
    if Sent(delay, s.tip, a).Some? {
      assert LinkedOn(s.tip, headers);
      AncestryFinds(tree, s.tip, headers);
    } else if Ancestry(tree, a.end.value, |headers|) == Some(chain) {
      AncestryIsLinked(tree, tree, a.end.value, |headers|);
      assert false;
    }
  }

  lemma BatchIsLinked(delay: nat, b: Batch)
    requires BatchOk(delay, b)
    ensures |b.headers| > 0 && LinkedOn(b.headers[0], b.headers[1..])
  {
  }

  /** Lorenzo can accept an uploaded batch exactly when nobody else has moved its chain past the relayer's tip. */
  lemma AcceptableIffTipIsLatest(tree: BnbTree, delay: Uint64, s: State, a: Answers)
    requires Env(tree, delay) && Inv(tree, delay, s) && AnswersOk(tree, delay, s, a)
    requires Sent(delay, s.tip, a).Some?
    ensures var lorenzo := Others(s.lorenzo, a.othersBeforeUpload);
            Acceptable(lorenzo, Sent(delay, s.tip, a).value) <==> s.tip == Latest(lorenzo)
  {
    hide Window, Range, BatchOk, Upload, NumbersFit;
    TipInTree(tree, s.lorenzo, s.tip);
    FetchedIsInWindow(tree, delay, s.tip, a);
    var headers := Fetched(delay, s.tip, a).value;
    BatchIsLinked(delay, Batch(headers, a.bnbTip.value.number));
    var lorenzo := Others(s.lorenzo, a.othersBeforeUpload);
    UploadKeepsLorenzoOk(tree, s.lorenzo, a.othersBeforeUpload, Delivered);
    LatestIsOnChain(lorenzo);
    TipInTree(tree, lorenzo, Latest(lorenzo));
  }

  /** After an iteration that has fetched a batch, the tip is Lorenzo's latest header unless the re-read failed. */
  lemma TipIsLatestAfterwards(tree: BnbTree, delay: Uint64, s: State, a: Answers)
    requires Env(tree, delay) && Inv(tree, delay, s) && AnswersOk(tree, delay, s, a)
    requires Fetched(delay, s.tip, a).Some? && a.rereadOk
    ensures var next := Next(delay, s, a); next.tip == Latest(next.lorenzo)
  {
    hide Window, Range, ValidTree, Next, Fetched, NumbersFit, BatchOk;
    TipInTree(tree, s.lorenzo, s.tip);
    TurnCases(tree, delay, s, a);
  }

  // ---------- a reorg deeper than the delay ----------

  /** No fetched header descends from `tip`, and nobody else relays. */
  ghost predicate ForkedBelow(tree: BnbTree, tip: BnbHeader, a: Answers) {
    && a.othersBeforeUpload == [] && a.othersBeforeReread == []
    && (a.end.Some? ==> forall n: nat :: Ancestry(tree, a.end.value, n).Some? ==>
                                           Ancestry(tree, a.end.value, n).value[0] != tip)
  }

  /** Once BNB has dropped the relayed tip, the relayer re-reads the same tip for ever: nothing changes again. */
  lemma {:induction false} DeepReorgStopsTheRelayer(tree: BnbTree, delay: Uint64, s: State, turns: seq<Answers>)
    requires Env(tree, delay) && Inv(tree, delay, s) && s.tip == Latest(s.lorenzo)
    requires TurnsOk(tree, delay, s, turns)
    requires forall i | 0 <= i < |turns| :: ForkedBelow(tree, s.tip, turns[i])
    ensures Run(delay, s, turns) == s
    decreases |turns|
  {
    hide Window, Range, BatchOk, Fetched, Turn, NumbersFit, ValidTree;
    if |turns| > 0 {
      var a := turns[0];
      assert ForkedBelow(tree, s.tip, a);
      if Fetched(delay, s.tip, a).None? {
        NothingFetched(delay, s, a);
      } else {
        TipInTree(tree, s.lorenzo, s.tip);
        TurnCases(tree, delay, s, a);
        LinkCheckPassesIffTipIsAncestor(tree, delay, s, a);
        var headers := Fetched(delay, s.tip, a).value;
        FetchedIsInWindow(tree, delay, s.tip, a);
        assert ([s.tip] + headers)[0] == s.tip;
        assert !Follows(s.tip, headers[0]);
        assert Others(s.lorenzo, []) == s.lorenzo;
      }
      assert Next(delay, s, a) == s;
      DeepReorgStopsTheRelayer(tree, delay, s, turns[1..]);
    }
  }

  // ---------- progress ----------

  function Prefix(rest: seq<BnbHeader>): nat {
    if |rest| <= BATCH_SIZE then |rest| else BATCH_SIZE
  }

  /**
    Nothing fails and nobody else relays; `rest` are BNB's headers after the tip that are `delay` old in the view of
    this iteration, which stays short of the last uint64.
   */
  ghost predicate Smooth(delay: Uint64, tip: BnbHeader, rest: seq<BnbHeader>, a: Answers) {
    && a.bnbTip.Some? && tip.number + |rest| + delay < TWO_TO_THE_64 - 1
    && (if |rest| > 0 then a.bnbTip.value.number == tip.number + |rest| + delay
        else a.bnbTip.value.number <= tip.number + delay)
    && AllIn(a.node, rest)
    && (|rest| > 0 ==> a.end == Some(rest[Prefix(rest) - 1]))
    && a.othersBeforeUpload == [] && a.delivery.Delivered?
  }

  /** How many headers after the tip are old enough in the view of this iteration. */
  function Mature(delay: Uint64, tip: BnbHeader, a: Answers): nat {
    if a.bnbTip.Some? && a.bnbTip.value.number > tip.number + delay then a.bnbTip.value.number - delay - tip.number
    else 0
  }

  /** Smooth iterations along BNB's chain, whose tip may be anywhere on it each time. */
  ghost predicate SmoothTurns(delay: Uint64, tip: BnbHeader, chain: seq<BnbHeader>, turns: seq<Answers>)
    decreases |turns|
  {
    |turns| > 0 ==>
      var m := Mature(delay, tip, turns[0]);
      && m <= |chain| && Smooth(delay, tip, chain[..m], turns[0])
      && var n := Prefix(chain[..m]);
      SmoothTurns(delay, Last(tip, chain[..n]), chain[n..], turns[1..])
  }

  /** A smooth iteration fetches the next batch of the chain. */
  lemma {:induction false} SmoothFetch(delay: Uint64, tip: BnbHeader, rest: seq<BnbHeader>, a: Answers)
    requires LinkedOn(tip, rest) && Smooth(delay, tip, rest, a)
    ensures Fetched(delay, tip, a) == if |rest| == 0 then None else Some(rest[..Prefix(rest)])
  {
    hide Window;
    var bnbTip := a.bnbTip.value.number;
    var w := Window(delay, tip.number, bnbTip);
    WindowIsRightExactlyWhen(delay, tip.number, bnbTip);
    if |rest| > 0 {
      var n := Prefix(rest);
      assert w == Some((tip.number + 1, tip.number + n));
      var batch := rest[..n];
      assert rest == batch + rest[n..];
      LinkedOnConcat(tip, batch, rest[n..]);
      assert [batch[0]] + batch[1..] == batch;
      assert forall i | 0 <= i < n :: batch[i] == rest[i];
      assert forall i | 0 <= i < n - 1 :: batch[1..][i] == batch[i + 1];
      AncestryFinds(a.node, batch[0], batch[1..]);
      assert Last(batch[0], batch[1..]) == rest[n - 1];
      assert a.end == Some(rest[n - 1]);
      assert Range(a.node, w.value.0, w.value.1, a.end) == Ok(batch);
    } else {
      assert w.None?;
    }
  }

  lemma {:induction false} SmoothTurn(delay: Uint64, s: State, rest: seq<BnbHeader>, a: Answers)
    requires LinkedOn(s.tip, rest) && s.tip == Latest(s.lorenzo) && Smooth(delay, s.tip, rest, a)
    ensures var n := Prefix(rest);
            var next := Next(delay, s, a);
            && next.tip == Last(s.tip, rest[..n]) == Latest(next.lorenzo)
            && next.lorenzo == s.lorenzo.(accepted := s.lorenzo.accepted + rest[..n])
            && LinkedOn(next.tip, rest[n..])
  {
    hide Window, Fetched;
    var n := Prefix(rest);
    SmoothFetch(delay, s.tip, rest, a);
    assert rest == rest[..n] + rest[n..];
    LinkedOnConcat(s.tip, rest[..n], rest[n..]);
    if n == 0 {
      NothingFetched(delay, s, a);
      assert s.lorenzo.accepted + rest[..0] == s.lorenzo.accepted;
    } else {
      LinkedOnNumbers(s.tip, rest[..n]);
      assert Others(s.lorenzo, []) == s.lorenzo;
    }
  }

  /** One smooth iteration, seen along the whole chain. */
  lemma {:induction false} SmoothTurnOnChain(delay: Uint64, s: State, chain: seq<BnbHeader>, a: Answers)
    requires LinkedOn(s.tip, chain) && s.tip == Latest(s.lorenzo)
    requires Mature(delay, s.tip, a) <= |chain| && Smooth(delay, s.tip, chain[..Mature(delay, s.tip, a)], a)
    ensures var n := Prefix(chain[..Mature(delay, s.tip, a)]);
            var next := Next(delay, s, a);
            && next.tip == Last(s.tip, chain[..n]) == Latest(next.lorenzo)
            && next.lorenzo == s.lorenzo.(accepted := s.lorenzo.accepted + chain[..n])
            && LinkedOn(next.tip, chain[n..]) && next.tip.number == s.tip.number + n
  {
    hide Next, Smooth, LinkedOn, Mature;
    var m := Mature(delay, s.tip, a);
    var n := Prefix(chain[..m]);
    SplitChain(s.tip, chain, m);
    SmoothTurn(delay, s, chain[..m], a);
    SliceOfSlice(chain, n, m);
    SplitChain(s.tip, chain, n);
    LinkedOnNumbers(s.tip, chain[..n]);
  }

  lemma {:induction false} SplitChain(tip: BnbHeader, chain: seq<BnbHeader>, n: nat)
    requires LinkedOn(tip, chain) && n <= |chain|
    ensures LinkedOn(tip, chain[..n]) && LinkedOn(Last(tip, chain[..n]), chain[n..])
  {
    assert chain == chain[..n] + chain[n..];
    LinkedOnConcat(tip, chain[..n], chain[n..]);
  }

  lemma SliceOfSlice<T>(s: seq<T>, n: nat, m: nat)
    requires n <= m <= |s|
    ensures s[..m][..n] == s[..n]
  {
  }

  /**
    Without failures the relayer keeps pace with BNB, 100 headers an iteration, while BNB's tip moves: Lorenzo gets
    exactly the headers up to the relayer's tip, the tip passes every number that all iterations see as old enough,
    as fast as the batch size allows, and no number that none of them does.
   */
  lemma {:induction false} SmoothRunKeepsPace(delay: Uint64, s: State, chain: seq<BnbHeader>, turns: seq<Answers>,
                                              goal: nat, cap: nat)
    returns (n: nat)
    requires LinkedOn(s.tip, chain) && s.tip == Latest(s.lorenzo) && SmoothTurns(delay, s.tip, chain, turns)
    requires forall i | 0 <= i < |turns| ::
               turns[i].bnbTip.Some? ==> goal + delay <= turns[i].bnbTip.value.number <= cap + delay
    requires s.tip.number <= cap
    ensures n <= |chain|
    ensures var f := Run(delay, s, turns);
            && f.tip == Last(s.tip, chain[..n]) == Latest(f.lorenzo)
            && f.lorenzo == s.lorenzo.(accepted := s.lorenzo.accepted + chain[..n])
            && (goal <= f.tip.number || s.tip.number + |turns| * BATCH_SIZE <= f.tip.number)
            && f.tip.number <= cap
    decreases |turns|
  {
    hide Next, Smooth, LinkedOn, Last, Latest;
    n := 0;
    if |turns| == 0 {
      EmptyPrefix(s.tip, s.lorenzo.accepted, chain);
    } else {
      var m := Mature(delay, s.tip, turns[0]);
      var k := Prefix(chain[..m]);
      SmoothTurnOnChain(delay, s, chain, turns[0]);
      SmoothSees(delay, s.tip, chain[..m], turns[0]);
      var next := Next(delay, s, turns[0]);
      assert forall i | 0 <= i < |turns| - 1 :: turns[1..][i] == turns[i + 1];
      var rest := SmoothRunKeepsPace(delay, next, chain[k..], turns[1..], goal, cap);
      n := k + rest;
      TwoPieces(s.tip, s.lorenzo.accepted, chain, k, n);
      PaceOfTurns(s.tip.number, k, |turns|);
    }
  }

  lemma EmptyPrefix(tip: BnbHeader, accepted: seq<BnbHeader>, chain: seq<BnbHeader>)
    ensures Last(tip, chain[..0]) == tip && accepted + chain[..0] == accepted
  {
  }

  lemma SmoothSees(delay: Uint64, tip: BnbHeader, rest: seq<BnbHeader>, a: Answers)
    requires Smooth(delay, tip, rest, a)
    ensures a.bnbTip.Some?
  {
  }

  lemma {:induction false} TwoPieces(tip: BnbHeader, accepted: seq<BnbHeader>, chain: seq<BnbHeader>, k: nat, n: nat)
    requires k <= n <= |chain|
    ensures Last(Last(tip, chain[..k]), chain[k..][..n - k]) == Last(tip, chain[..n])
    ensures accepted + chain[..k] + chain[k..][..n - k] == accepted + chain[..n]
  {
    assert chain[..n] == chain[..k] + chain[k..][..n - k];
    LinkedOnConcat(tip, chain[..k], chain[k..][..n - k]);
  }

  lemma PaceOfTurns(start: int, k: nat, turns: nat)
    requires 0 < turns
    ensures k == BATCH_SIZE ==> start + turns * BATCH_SIZE == start + k + (turns - 1) * BATCH_SIZE
  {
  }
}
