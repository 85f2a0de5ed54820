/**
  Lorenzo's BTC light client as far as the reporter can observe it. It accepts a message only if its headers
  are linked and the parent of the first one is known; whether it accepts such a message, and whether an
  accepted message is also reported as a success, is up to the environment.
 */
module LorenzoLightClient {
  import opened BtcTypes

  /** `log` lists the headers accepted from this reporter, in order. */
  datatype LightClient = LightClient(base: IndexedBlock, known: set<Hash>, log: seq<IndexedBlock>)

  datatype Delivery = Delivered | Refused | DeliveredButReportedFailed

  predicate Acceptable(lc: LightClient, msg: seq<IndexedBlock>) {
    && |msg| > 0
    && msg[0].header.prevBlock in lc.known
    && forall i, j {:trigger msg[i], msg[j]} | 0 <= i < |msg| && i < j < |msg| && j == i + 1 ::
         msg[j].header.prevBlock == msg[i].header.hash
  }

  function HashesOf(s: seq<IndexedBlock>): set<Hash> {
    set b | b in s :: b.header.hash
  }

  function Accept(lc: LightClient, s: seq<IndexedBlock>): LightClient {
    lc.(known := lc.known + HashesOf(s), log := lc.log + s)
  }

  /** The light client after one message, and whether the submission is reported as a success. */
  function Insert(lc: LightClient, msg: seq<IndexedBlock>, d: Delivery): (LightClient, bool) {
    if !Acceptable(lc, msg) || d.Refused? then (lc, false)
    else (Accept(lc, msg), d.Delivered?)
  }

  /** Another relayer's message. */
  function InsertByOthers(lc: LightClient, msg: seq<IndexedBlock>): LightClient {
    lc.(known := lc.known + HashesOf(msg))
  }

  /** Every known header above the base has a known parent. */
  ghost predicate AncestorClosed(tree: BlockTree, lc: LightClient) {
    && lc.base.header.hash in lc.known
    && forall h {:trigger ParentKnown(tree, lc, h)} | h in lc.known && h != lc.base.header.hash ::
         ParentKnown(tree, lc, h)
  }

  predicate ParentKnown(tree: BlockTree, lc: LightClient, h: Hash) {
    h in tree && tree[h].header.prevBlock in lc.known
  }

  /** No header has been accepted twice. */
  ghost predicate AcceptedOnce(lc: LightClient) {
    && (forall i | 0 <= i < |lc.log| :: lc.log[i].header.hash in lc.known)
    && (forall i, j | 0 <= i < j < |lc.log| :: lc.log[i].header.hash != lc.log[j].header.hash)
  }

  lemma HashesOfConcat(a: seq<IndexedBlock>, b: seq<IndexedBlock>)
    ensures HashesOf(a + b) == HashesOf(a) + HashesOf(b)
  {
    assert forall x :: x in a + b <==> x in a || x in b;
  }

  lemma AcceptTwice(lc: LightClient, a: seq<IndexedBlock>, b: seq<IndexedBlock>)
    ensures Accept(Accept(lc, a), b) == Accept(lc, a + b)
  {
    HashesOfConcat(a, b);
    assert lc.log + a + b == lc.log + (a + b);
    assert lc.known + HashesOf(a) + HashesOf(b) == lc.known + HashesOf(a + b);
  }

  lemma AcceptNothing(lc: LightClient)
    ensures Accept(lc, []) == lc
  {
    assert lc.log + [] == lc.log;
    assert HashesOf([]) == {};
    assert lc.known + {} == lc.known;
  }

  /** Accepting a linked run whose parent is known keeps the header set ancestor-closed. */
  lemma AcceptKeepsClosed(tree: BlockTree, lc: LightClient, s: seq<IndexedBlock>)
    requires AncestorClosed(tree, lc)
    requires Linked(s) && AllIn(tree, s)
    requires |s| > 0 ==> s[0].header.prevBlock in lc.known
    ensures AncestorClosed(tree, Accept(lc, s))
  {
    var next := Accept(lc, s);
    forall h | h in next.known && h != lc.base.header.hash
      ensures ParentKnown(tree, next, h)
    {
      if h in lc.known {
        assert ParentKnown(tree, lc, h);
      } else {
        var i :| 0 <= i < |s| && s[i].header.hash == h;
        assert Contains(tree, s[i]);
        if i > 0 {
          assert Attaches(s[i - 1], s[i]);
        }
      }
    }
  }

  lemma OthersKeepSound(tree: BlockTree, lc: LightClient, msg: seq<IndexedBlock>)
    requires AncestorClosed(tree, lc) && Linked(msg) && AllIn(tree, msg) && Acceptable(lc, msg)
    ensures AncestorClosed(tree, InsertByOthers(lc, msg))
    ensures AcceptedOnce(lc) ==> AcceptedOnce(InsertByOthers(lc, msg))
    ensures var after := InsertByOthers(lc, msg);
            && after.base == lc.base && after.log == lc.log && lc.known <= after.known
            && forall i | 0 <= i < |msg| :: msg[i].header.hash in after.known
  {
    AcceptKeepsClosed(tree, lc, msg);
    var next := InsertByOthers(lc, msg);
    forall h | h in next.known && h != next.base.header.hash ensures ParentKnown(tree, next, h) {
      assert ParentKnown(tree, Accept(lc, msg), h);
    }
  }
}

/** Deduplicating, chunking and submitting headers. */
module HeaderSubmission {
  import opened Prelude
  import opened BtcTypes
  import opened BoundedCache
  import opened LorenzoLightClient

  // ---------- chunking ----------

  function ChunkBy<T>(items: seq<T>, chunkSize: nat): (chunks: seq<seq<T>>)
    requires 0 < chunkSize
    ensures |chunks| > 0
  {
    if chunkSize < |items| then [items[..chunkSize]] + ChunkBy(items[chunkSize..], chunkSize)
    else [items]
  }

  /** Go would loop forever on chunk size 0 and a non-empty input. */
  method ChunkByLoop<T>(input: seq<T>, chunkSize: nat) returns (chunks: seq<seq<T>>)
    requires 0 < chunkSize
    ensures chunks == ChunkBy(input, chunkSize)
  {
    var items := input;
    chunks := [];
    while chunkSize < |items|
      invariant chunks + ChunkBy(items, chunkSize) == ChunkBy(input, chunkSize)
      decreases |items|
    {
      ghost var rest := ChunkBy(items[chunkSize..], chunkSize);
      assert chunks + ([items[..chunkSize]] + rest) == (chunks + [items[..chunkSize]]) + rest;
      items, chunks := items[chunkSize..], chunks + [items[..chunkSize]];
    }
    return chunks + [items];
  }

  function Flatten<T>(chunks: seq<seq<T>>): seq<T> {
    if |chunks| == 0 then [] else chunks[0] + Flatten(chunks[1..])
  }

  lemma {:induction false} FlattenConcat<T>(a: seq<seq<T>>, b: seq<seq<T>>)
    ensures Flatten(a + b) == Flatten(a) + Flatten(b)
  {
    if |a| == 0 {
      assert a + b == b;
    } else {
      assert (a + b)[1..] == a[1..] + b;
      FlattenConcat(a[1..], b);
      assert a[0] + Flatten(a[1..]) + Flatten(b) == a[0] + (Flatten(a[1..]) + Flatten(b));
    }
  }

  lemma {:induction false} FlattenSnoc<T>(chunks: seq<seq<T>>, last: seq<T>)
    ensures Flatten(chunks + [last]) == Flatten(chunks) + last
  {
    FlattenConcat(chunks, [last]);
    assert Flatten([last]) == last + [];
  }

  /** The chunks are the input cut up: all full except the last, which is full or shorter and not empty. */
  lemma {:induction false} ChunkByPartitions<T>(items: seq<T>, chunkSize: nat)
    requires 0 < chunkSize
    ensures Flatten(ChunkBy(items, chunkSize)) == items
    ensures var chunks := ChunkBy(items, chunkSize);
            && (forall i | 0 <= i < |chunks| - 1 :: |chunks[i]| == chunkSize)
            && |chunks[|chunks| - 1]| <= chunkSize
            && (|items| > 0 ==> |chunks[|chunks| - 1]| > 0)
  {
    if chunkSize < |items| {
      var later := ChunkBy(items[chunkSize..], chunkSize);
      ChunkByPartitions(items[chunkSize..], chunkSize);
      var chunks := [items[..chunkSize]] + later;
      assert chunks[1..] == later;
      assert forall i | 0 < i < |chunks| :: chunks[i] == later[i - 1];
    } else {
      assert Flatten([items]) == items + Flatten<T>([]) == items;
    }
  }

  /** A linked, non-empty message whose first header attaches to `prev`; what the next chunk must look like. */
  ghost predicate ChunksAttach(chunks: seq<seq<IndexedBlock>>) {
    && (forall i | 0 <= i < |chunks| :: |chunks[i]| > 0 && Linked(chunks[i]))
    && (forall i | 0 < i < |chunks| && |chunks[i - 1]| > 0 && |chunks[i]| > 0 ::
          Attaches(chunks[i - 1][|chunks[i - 1]| - 1], chunks[i][0]))
  }

  /** Cutting up a linked chain gives linked chunks, each attaching to the last header of the one before. */
  lemma {:induction false} ChunksOfChainAttach(items: seq<IndexedBlock>, chunkSize: nat)
    requires 0 < chunkSize && |items| > 0 && Linked(items)
    ensures ChunksAttach(ChunkBy(items, chunkSize))
    ensures ChunkBy(items, chunkSize)[0][0] == items[0]
  {
    if chunkSize < |items| {
      hide Linked, Attaches;
      var first, rest := items[..chunkSize], items[chunkSize..];
      LinkedParts(items, chunkSize);
      ChunksOfChainAttach(rest, chunkSize);
      FirstChunkAttaches(first, ChunkBy(rest, chunkSize));
    }
  }

  lemma LinkedParts(items: seq<IndexedBlock>, n: nat)
    requires 0 < n < |items| && Linked(items)
    ensures Linked(items[..n]) && Linked(items[n..]) && Attaches(items[n - 1], items[n])
  {
    LinkedSlice(items, 0, n);
    LinkedSlice(items, n, |items|);
    assert items[0..n] == items[..n] && items[n..|items|] == items[n..];
  }

  lemma FirstChunkAttaches(first: seq<IndexedBlock>, later: seq<seq<IndexedBlock>>)
    requires |first| > 0 && Linked(first) && ChunksAttach(later)
    requires |later| > 0 && |later[0]| > 0 && Attaches(first[|first| - 1], later[0][0])
    ensures ChunksAttach([first] + later)
  {
    hide Linked, Attaches;
    var chunks := [first] + later;
    assert forall i | 0 < i < |chunks| :: chunks[i] == later[i - 1];
  }

  // ---------- what a call to ProcessHeaders does ----------

  /** The node's answers during one call: the query that fails for good, if any, and the fate of each message. */
  datatype SubmitAnswers = SubmitAnswers(queryFailsAt: Option<nat>, deliveries: seq<Delivery>) {
    function DeliveryOf(i: nat): Delivery {
      if i < |deliveries| then deliveries[i] else Refused
    }
  }

  datatype SubmitError = QueryFailed | SubmissionFailed

  /** The index of the first block Lorenzo does not know; the length when it knows them all. */
  function FirstUnknown(known: set<Hash>, ibs: seq<IndexedBlock>): (n: nat)
    ensures n <= |ibs|
    ensures forall i | 0 <= i < n :: ibs[i].header.hash in known
    ensures n < |ibs| ==> ibs[n].header.hash !in known
  {
    if |ibs| == 0 || ibs[0].header.hash !in known then 0
    else
      assert forall i | 0 < i < |ibs| :: ibs[i] == ibs[1..][i - 1];
      1 + FirstUnknown(known, ibs[1..])
  }

  /** Submits messages in order until one is reported as failed. */
  function Deliver(lc: LightClient, msgs: seq<seq<IndexedBlock>>, answers: SubmitAnswers, at: nat): (LightClient, bool)
    requires at <= |msgs|
    decreases |msgs| - at
  {
    if at == |msgs| then (lc, true)
    else
      var (next, ok) := Insert(lc, msgs[at], answers.DeliveryOf(at));
      if ok then Deliver(next, msgs, answers, at + 1) else (next, false)
  }

  function ProcessHeaders(lc: LightClient, ibs: seq<IndexedBlock>, maxHeadersInMsg: nat, answers: SubmitAnswers)
    : (LightClient, Result<nat, SubmitError>)
    requires 0 < maxHeadersInMsg
  {
    var start := FirstUnknown(lc.known, ibs);
    if answers.queryFailsAt.Some? && answers.queryFailsAt.value <= start < |ibs| then (lc, Err(QueryFailed))
    else if answers.queryFailsAt.Some? && answers.queryFailsAt.value < start then (lc, Err(QueryFailed))
    else if start == |ibs| then (lc, Ok(0))
    else
      var (next, ok) := Deliver(lc, ChunkBy(ibs[start..], maxHeadersInMsg), answers, 0);
      (next, if ok then Ok(|ibs| - start) else Err(SubmissionFailed))
  }

  // ---------- the implementation ----------

  method GetHeaderMsgsToSubmit(lc: LightClient, ibs: seq<IndexedBlock>, maxHeadersInMsg: nat, answers: SubmitAnswers)
    returns (r: Result<seq<seq<IndexedBlock>>, SubmitError>)
    requires 0 < maxHeadersInMsg
    ensures var start := FirstUnknown(lc.known, ibs);
            && (r.Err? <==> answers.queryFailsAt.Some?
                            && answers.queryFailsAt.value <= start && answers.queryFailsAt.value < |ibs|)
            && (r.Err? ==> r.error == QueryFailed)
            && (r.Ok? ==> r.value == if start == |ibs| then [] else ChunkBy(ibs[start..], maxHeadersInMsg))
  {
    var startPoint := -1;
    for i := 0 to |ibs|
      invariant startPoint == -1
      invariant forall j | 0 <= j < i :: ibs[j].header.hash in lc.known
      invariant answers.queryFailsAt.Some? ==> answers.queryFailsAt.value >= i
    {
      if answers.queryFailsAt == Some(i) {
        FirstUnknownIs(lc.known, ibs, i);
        return Err(QueryFailed);
      }
      if ibs[i].header.hash !in lc.known {
        startPoint := i;
        break;
      }
    }
    if startPoint == -1 {
      FirstUnknownIs(lc.known, ibs, |ibs|);
      return Ok([]);
    }
    FirstUnknownIs(lc.known, ibs, startPoint);
    var chunks := ChunkByLoop(ibs[startPoint..], maxHeadersInMsg);
    return Ok(chunks);
  }

  lemma {:induction false} FirstUnknownIs(known: set<Hash>, ibs: seq<IndexedBlock>, n: nat)
    requires n <= |ibs| && forall i | 0 <= i < n :: ibs[i].header.hash in known
    ensures n <= FirstUnknown(known, ibs)
    ensures n < |ibs| && ibs[n].header.hash !in known ==> FirstUnknown(known, ibs) == n
    ensures n == |ibs| ==> FirstUnknown(known, ibs) == n
  {
    var m := FirstUnknown(known, ibs);
    if m < n {
      assert false;
    }
    if n < m {
      assert ibs[n].header.hash in known;
    }
  }

  lemma FlattenedLength<T>(chunks: seq<seq<T>>, i: nat)
    requires i < |chunks|
    ensures |Flatten(chunks[..i + 1])| == |Flatten(chunks[..i])| + |chunks[i]|
  {
    assert chunks[..i + 1] == chunks[..i] + [chunks[i]];
    FlattenSnoc(chunks[..i], chunks[i]);
  }

  /** Go's deferred log line reads `ibs[0]`, so a call with no blocks would panic. */
  method ProcessHeadersLoop(lc: LightClient, ibs: seq<IndexedBlock>, maxHeadersInMsg: nat, answers: SubmitAnswers)
    returns (after: LightClient, r: Result<nat, SubmitError>)
    requires 0 < maxHeadersInMsg && |ibs| > 0
    ensures (after, r) == ProcessHeaders(lc, ibs, maxHeadersInMsg, answers)
  {
    hide ChunkBy, Insert;
    after := lc;
    var msgs := GetHeaderMsgsToSubmit(lc, ibs, maxHeadersInMsg, answers);
    if msgs.Err? {
      return after, Err(msgs.error);
    }
    if |msgs.value| == 0 {
      return after, Ok(0);
    }
    ghost var start := FirstUnknown(lc.known, ibs);
    ChunkByPartitions(ibs[start..], maxHeadersInMsg);
    var numSubmitted := 0;
    for i := 0 to |msgs.value|
      invariant Deliver(lc, msgs.value, answers, 0) == Deliver(after, msgs.value, answers, i)
      invariant numSubmitted == |Flatten(msgs.value[..i])|
    {
      var (next, ok) := Insert(after, msgs.value[i], answers.DeliveryOf(i));
      after := next;
      if !ok {
        return after, Err(SubmissionFailed);
      }
      FlattenedLength(msgs.value, i);
      numSubmitted := numSubmitted + |msgs.value[i]|;
    }
    assert msgs.value[..|msgs.value|] == msgs.value;
    return after, Ok(numSubmitted);
  }

  // ---------- proofs ----------

  /** The base header is not above the first block, so ancestor closure reaches down the whole list. */
  ghost predicate BaseNotInside(lc: LightClient, ibs: seq<IndexedBlock>) {
    forall i | 0 < i < |ibs| :: ibs[i].header.hash != lc.base.header.hash
  }

  lemma BaseIsBelow(tree: BlockTree, lc: LightClient, ibs: seq<IndexedBlock>)
    requires ValidTree(tree) && Contains(tree, lc.base) && Linked(ibs) && AllIn(tree, ibs)
    requires |ibs| > 0 ==> lc.base.height <= ibs[0].height
    ensures BaseNotInside(lc, ibs)
  {
    forall i | 0 < i < |ibs| ensures ibs[i].header.hash != lc.base.header.hash {
      LinkedHeights(ibs);
      assert Contains(tree, ibs[i]);
      assert ibs[0].height < ibs[i].height;
    }
  }

  /** Blocks Lorenzo already has form a prefix of a linked list: one cut separates known from missing. */
  lemma {:induction false} KnownBlocksFormPrefix(tree: BlockTree, lc: LightClient, ibs: seq<IndexedBlock>, i: nat,
      j: nat)
    requires AncestorClosed(tree, lc) && Linked(ibs) && AllIn(tree, ibs) && BaseNotInside(lc, ibs)
    requires i <= j < |ibs| && ibs[j].header.hash in lc.known
    ensures ibs[i].header.hash in lc.known
    decreases j - i
  {
    if i < j {
      assert Contains(tree, ibs[j]) && ParentKnown(tree, lc, ibs[j].header.hash);
      assert Attaches(ibs[j - 1], ibs[j]);
      KnownBlocksFormPrefix(tree, lc, ibs, i, j - 1);
    }
  }

  lemma {:induction false} SubmitsExactlyTheMissing(tree: BlockTree, lc: LightClient, ibs: seq<IndexedBlock>)
    requires AncestorClosed(tree, lc) && Linked(ibs) && AllIn(tree, ibs) && BaseNotInside(lc, ibs)
    ensures forall i | 0 <= i < |ibs| :: ibs[i].header.hash in lc.known <==> i < FirstUnknown(lc.known, ibs)
  {
    var n := FirstUnknown(lc.known, ibs);
    forall i | n <= i < |ibs| ensures ibs[i].header.hash !in lc.known {
      if ibs[i].header.hash in lc.known {
        KnownBlocksFormPrefix(tree, lc, ibs, n, i);
      }
    }
  }

  /** However the messages fare, what has been accepted is the first `j` messages, all of them on success. */
  lemma {:induction false} DeliverAcceptsPrefix(lc: LightClient, msgs: seq<seq<IndexedBlock>>,
      answers: SubmitAnswers, at: nat)
    returns (j: nat)
    requires at <= |msgs|
    ensures at <= j <= |msgs|
    ensures Deliver(lc, msgs, answers, at).0 == Accept(lc, Flatten(msgs[at..j]))
    ensures Deliver(lc, msgs, answers, at).1 ==> j == |msgs|
    ensures at < j ==> Acceptable(lc, msgs[at])
    decreases |msgs| - at
  {
    hide Accept, Acceptable, Flatten;
    AcceptNothingYet(lc, msgs, at);
    j := at;
    if at < |msgs| {
      var (next, ok) := Insert(lc, msgs[at], answers.DeliveryOf(at));
      AcceptNothingYet(Accept(lc, msgs[at]), msgs, at + 1);
      AcceptMore(lc, msgs, at, at + 1);
      if ok {
        j := DeliverAcceptsPrefix(next, msgs, answers, at + 1);
        AcceptMore(lc, msgs, at, j);
      } else if next != lc {
        j := at + 1;
      }
    }
  }

  lemma AcceptNothingYet(lc: LightClient, msgs: seq<seq<IndexedBlock>>, at: nat)
    requires at <= |msgs|
    ensures Accept(lc, Flatten(msgs[at..at])) == lc
  {
    assert msgs[at..at] == [];
    AcceptNothing(lc);
  }

  lemma AcceptMore(lc: LightClient, msgs: seq<seq<IndexedBlock>>, at: nat, j: nat)
    requires at < j <= |msgs|
    ensures Accept(Accept(lc, msgs[at]), Flatten(msgs[at + 1..j])) == Accept(lc, Flatten(msgs[at..j]))
  {
    assert msgs[at..j] == [msgs[at]] + msgs[at + 1..j];
    AcceptTwice(lc, msgs[at], Flatten(msgs[at + 1..j]));
  }

  lemma ProcessHeadersKeepsBase(lc: LightClient, ibs: seq<IndexedBlock>, max: nat, answers: SubmitAnswers)
    requires 0 < max
    ensures ProcessHeaders(lc, ibs, max, answers).0.base == lc.base
  {
    hide ChunkBy, Deliver;
    var _ := DeliverAcceptsPrefix(lc, ChunkBy(ibs[FirstUnknown(lc.known, ibs)..], max), answers, 0);
  }

  /**
    One call to ProcessHeaders, whatever fails on the way: the headers accepted are the blocks from the first
    missing one up to some position `k`, in chain order; on success that is all of them.
   */
  lemma ProcessHeadersAccepts(tree: BlockTree, lc: LightClient, ibs: seq<IndexedBlock>, max: nat,
      answers: SubmitAnswers)
    returns (k: nat)
    requires 0 < max
    requires AncestorClosed(tree, lc) && Linked(ibs) && AllIn(tree, ibs) && BaseNotInside(lc, ibs)
    ensures FirstUnknown(lc.known, ibs) <= k <= |ibs|
    ensures ProcessHeaders(lc, ibs, max, answers).0 == Accept(lc, ibs[FirstUnknown(lc.known, ibs)..k])
    ensures ProcessHeaders(lc, ibs, max, answers).1.Ok? ==>
              k == |ibs| && ProcessHeaders(lc, ibs, max, answers).1.value == |ibs| - FirstUnknown(lc.known, ibs)
    ensures FirstUnknown(lc.known, ibs) < k ==> ibs[FirstUnknown(lc.known, ibs)].header.prevBlock in lc.known
  {
    var start := FirstUnknown(lc.known, ibs);
    k := start;
    assert ibs[start..start] == [];
    AcceptNothing(lc);
    if start == |ibs| {
      k := |ibs|;
    } else if !(answers.queryFailsAt.Some? && answers.queryFailsAt.value <= start) {
      var missing := ibs[start..];
      assert missing == ibs[start..|ibs|];
      LinkedSlice(ibs, start, |ibs|);
      var m := DeliverChunks(lc, missing, max, answers);
      k := start + m;
      assert missing[..m] == ibs[start..k];
    }
  }

  /** Delivering a linked run in chunks accepts a prefix of it, the whole run on success. */
  lemma DeliverChunks(lc: LightClient, missing: seq<IndexedBlock>, max: nat, answers: SubmitAnswers) returns (m: nat)
    requires 0 < max && |missing| > 0 && Linked(missing)
    ensures m <= |missing|
    ensures Deliver(lc, ChunkBy(missing, max), answers, 0).0 == Accept(lc, missing[..m])
    ensures Deliver(lc, ChunkBy(missing, max), answers, 0).1 ==> m == |missing|
    ensures 0 < m ==> missing[0].header.prevBlock in lc.known
  {
    var msgs := ChunkBy(missing, max);
    var j := DeliverAcceptsPrefix(lc, msgs, answers, 0);
    ChunkByPartitions(missing, max);
    ChunksOfChainAttach(missing, max);
    assert msgs == msgs[0..j] + msgs[j..];
    FlattenConcat(msgs[0..j], msgs[j..]);
    m := |Flatten(msgs[0..j])|;
    assert Flatten(msgs[0..j]) == missing[..m];
    if j == |msgs| {
      assert msgs[0..j] == msgs;
    }
    if j == 0 {
      assert msgs[0..0] == [];
    }
  }

  /** Every call keeps ancestor closure and accepts no header twice; a successful one leaves no block unknown. */
  lemma ProcessHeadersKeepsLorenzoSound(tree: BlockTree, lc: LightClient, ibs: seq<IndexedBlock>, max: nat,
      answers: SubmitAnswers)
    requires 0 < max && ValidTree(tree)
    requires AncestorClosed(tree, lc) && Linked(ibs) && AllIn(tree, ibs) && BaseNotInside(lc, ibs)
    ensures var (after, r) := ProcessHeaders(lc, ibs, max, answers);
            && AncestorClosed(tree, after)
            && after.base == lc.base
            && lc.known <= after.known
            && lc.log <= after.log
            && (AcceptedOnce(lc) ==> AcceptedOnce(after))
            && (r.Ok? ==> forall i | 0 <= i < |ibs| :: ibs[i].header.hash in after.known)
  {
    var (after, r) := ProcessHeaders(lc, ibs, max, answers);
    var k := ProcessHeadersAccepts(tree, lc, ibs, max, answers);
    var start := FirstUnknown(lc.known, ibs);
    var s := ibs[start..k];
    forall i | 0 < i < |s| ensures Attaches(s[i - 1], s[i]) {
      assert Attaches(ibs[start + i - 1], ibs[start + i]);
    }
    assert forall i | 0 <= i < |s| :: s[i] == ibs[start + i];
    AcceptKeepsClosed(tree, lc, s);
    SubmitsExactlyTheMissing(tree, lc, ibs);
    if AcceptedOnce(lc) {
      AcceptFreshOnce(lc, s) by {
        LinkedHashesDiffer(tree, s);
      }
    }
    forall i | 0 <= i < |ibs| && r.Ok? ensures ibs[i].header.hash in after.known {
      if start <= i {
        assert ibs[i] == s[i - start] && s[i - start] in s;
      }
    }
  }

  lemma LinkedHashesDiffer(tree: BlockTree, s: seq<IndexedBlock>)
    requires ValidTree(tree) && AllIn(tree, s) && Linked(s)
    ensures forall i, j | 0 <= i < j < |s| :: s[i].header.hash != s[j].header.hash
  {
    if |s| > 0 {
      LinkedHeights(s);
    }
    forall i, j | 0 <= i < j < |s| ensures s[i].header.hash != s[j].header.hash {
      assert Contains(tree, s[i]) && Contains(tree, s[j]);
      assert s[i].height < s[j].height;
    }
  }

  lemma AcceptFreshOnce(lc: LightClient, s: seq<IndexedBlock>)
    requires AcceptedOnce(lc)
    requires forall i | 0 <= i < |s| :: s[i].header.hash !in lc.known
    requires forall i, j | 0 <= i < j < |s| :: s[i].header.hash != s[j].header.hash
    ensures AcceptedOnce(Accept(lc, s))
  {
    var next := Accept(lc, s);
    forall i | 0 <= i < |next.log| ensures next.log[i].header.hash in next.known {
      if i >= |lc.log| {
        assert next.log[i] == s[i - |lc.log|] && s[i - |lc.log|] in s;
      }
    }
  }

  /**
    A call with no failing query and no failing delivery succeeds exactly when the blocks attach: the first
    block, or its parent, is already known to Lorenzo.
   */
  lemma SubmissionSucceedsIffItAttaches(tree: BlockTree, lc: LightClient, ibs: seq<IndexedBlock>, max: nat,
      answers: SubmitAnswers)
    requires 0 < max && |ibs| > 0
    requires AncestorClosed(tree, lc) && Linked(ibs) && AllIn(tree, ibs) && BaseNotInside(lc, ibs)
    requires answers.queryFailsAt.None?
    requires |answers.deliveries| >= |ibs| && forall i | 0 <= i < |ibs| :: answers.deliveries[i] == Delivered
    ensures ProcessHeaders(lc, ibs, max, answers).1.Ok? <==>
              ibs[0].header.hash in lc.known || ibs[0].header.prevBlock in lc.known
  {
    var start := FirstUnknown(lc.known, ibs);
    if start < |ibs| {
      var missing := ibs[start..];
      var msgs := ChunkBy(missing, max);
      forall i | 0 < i < |missing| ensures Attaches(missing[i - 1], missing[i]) {
        assert Attaches(ibs[start + i - 1], ibs[start + i]);
      }
      ChunksOfChainAttach(missing, max);
      ChunkCount(missing, max);
      if start > 0 {
        assert Attaches(ibs[start - 1], ibs[start]);
      }
      if missing[0].header.prevBlock in lc.known {
        DeliverAll(lc, msgs, answers, 0);
      }
    }
  }

  /** In the same situation Lorenzo knows all the blocks afterwards exactly when they attach. */
  lemma SubmissionIsCompleteIffItAttaches(tree: BlockTree, lc: LightClient, ibs: seq<IndexedBlock>, max: nat,
      answers: SubmitAnswers)
    requires 0 < max && |ibs| > 0 && ValidTree(tree)
    requires AncestorClosed(tree, lc) && Linked(ibs) && AllIn(tree, ibs) && BaseNotInside(lc, ibs)
    requires answers.queryFailsAt.None?
    requires |answers.deliveries| >= |ibs| && forall i | 0 <= i < |ibs| :: answers.deliveries[i] == Delivered
    ensures (forall i | 0 <= i < |ibs| :: ibs[i].header.hash in ProcessHeaders(lc, ibs, max, answers).0.known)
            <==> ibs[0].header.hash in lc.known || ibs[0].header.prevBlock in lc.known
  {
    SubmissionSucceedsIffItAttaches(tree, lc, ibs, max, answers);
    ProcessHeadersKeepsLorenzoSound(tree, lc, ibs, max, answers);
    var k := ProcessHeadersAccepts(tree, lc, ibs, max, answers);
    hide ProcessHeaders, AncestorClosed, Linked, AllIn;
    if FirstUnknown(lc.known, ibs) == k {
      assert ibs[k..k] == [];
      AcceptNothing(lc);
    }
  }

  lemma {:induction false} ChunkCount<T>(items: seq<T>, chunkSize: nat)
    requires 0 < chunkSize && |items| > 0
    ensures |ChunkBy(items, chunkSize)| <= |items|
  {
    if chunkSize < |items| {
      ChunkCount(items[chunkSize..], chunkSize);
    }
  }

  lemma {:induction false} DeliverAll(lc: LightClient, msgs: seq<seq<IndexedBlock>>, answers: SubmitAnswers, at: nat)
    requires at <= |msgs| && ChunksAttach(msgs)
    requires forall i | 0 <= i < |msgs| :: answers.DeliveryOf(i) == Delivered
    requires at < |msgs| ==> msgs[at][0].header.prevBlock in lc.known
    ensures Deliver(lc, msgs, answers, at).1
    decreases |msgs| - at
  {
    if at < |msgs| {
      var msg := msgs[at];
      forall i | 0 < i < |msg| ensures msg[i].header.prevBlock == msg[i - 1].header.hash {
        assert Attaches(msg[i - 1], msg[i]);
      }
      if at + 1 < |msgs| {
        var last := msg[|msg| - 1];
        assert Attaches(last, msgs[at + 1][0]);
        assert last in msg;
      }
      DeliverAll(Accept(lc, msg), msgs, answers, at + 1);
    }
  }

  // ---------- the exact outcome of a call ----------

  /** How many messages from `at` on are reported as delivered before one is not. */
  function LeadingDelivered(answers: SubmitAnswers, at: nat, n: nat): nat
    requires at <= n
    decreases n - at
  {
    if at == n || answers.DeliveryOf(at) != Delivered then 0 else 1 + LeadingDelivered(answers, at + 1, n)
  }

  /** How many messages from `at` on Lorenzo accepts: also the first that fails, if only its report is lost. */
  function Arrived(answers: SubmitAnswers, at: nat, n: nat): (m: nat)
    requires at <= n
  {
    var d := LeadingDelivered(answers, at, n);
    if answers.DeliveryOf(at + d) == DeliveredButReportedFailed && at + d < n then d + 1 else d
  }

  lemma {:induction false} LeadingIsBounded(answers: SubmitAnswers, at: nat, n: nat)
    requires at <= n
    ensures at + LeadingDelivered(answers, at, n) <= n && at + Arrived(answers, at, n) <= n
    ensures at + Arrived(answers, at, n) <= Max(at, |answers.deliveries|)
    ensures forall i | at <= i < at + LeadingDelivered(answers, at, n) :: answers.DeliveryOf(i) == Delivered
    ensures var d := LeadingDelivered(answers, at, n);
            at + d < n ==> answers.DeliveryOf(at + d) != Delivered
    decreases n - at
  {
    if at < n && answers.DeliveryOf(at) == Delivered {
      LeadingIsBounded(answers, at + 1, n);
    }
  }

  /** Messages that attach to each other are accepted one by one until one is not reported as delivered. */
  lemma {:induction false} DeliverExactly(lc: LightClient, msgs: seq<seq<IndexedBlock>>, answers: SubmitAnswers,
                                          at: nat)
    requires at <= |msgs| && ChunksAttach(msgs)
    requires at < |msgs| ==> msgs[at][0].header.prevBlock in lc.known
    ensures at + Arrived(answers, at, |msgs|) <= |msgs|
    ensures Deliver(lc, msgs, answers, at)
         == (Accept(lc, Flatten(msgs[at..at + Arrived(answers, at, |msgs|)])),
             at + LeadingDelivered(answers, at, |msgs|) == |msgs|)
    decreases |msgs| - at
  {
    hide Accept, Acceptable, Flatten, ChunksAttach;
    LeadingIsBounded(answers, at, |msgs|);
    AcceptNothingYet(lc, msgs, at);
    if at < |msgs| {
      AttachingIsAcceptable(lc, msgs, at);
      AcceptNothingYet(Accept(lc, msgs[at]), msgs, at + 1);
      AcceptMore(lc, msgs, at, at + 1);
      if answers.DeliveryOf(at) == Delivered {
        DeliverExactly(Accept(lc, msgs[at]), msgs, answers, at + 1);
        AcceptMore(lc, msgs, at, at + Arrived(answers, at, |msgs|));
      }
    }
  }

  lemma AttachingIsAcceptable(lc: LightClient, msgs: seq<seq<IndexedBlock>>, at: nat)
    requires at < |msgs| && ChunksAttach(msgs) && msgs[at][0].header.prevBlock in lc.known
    ensures Acceptable(lc, msgs[at])
    ensures at + 1 < |msgs| ==> |msgs[at + 1]| > 0
                                && msgs[at + 1][0].header.prevBlock in Accept(lc, msgs[at]).known
  {
    var msg := msgs[at];
    forall i | 0 < i < |msg| ensures msg[i].header.prevBlock == msg[i - 1].header.hash {
      assert Attaches(msg[i - 1], msg[i]);
    }
    if at + 1 < |msgs| {
      var last := msg[|msg| - 1];
      assert Attaches(last, msgs[at + 1][0]);
      assert last in msg;
    }
  }

  /** The first `k` chunks are the first `k * chunkSize` items. */
  lemma {:induction false} FirstChunks<T>(items: seq<T>, chunkSize: nat, k: nat)
    requires 0 < chunkSize && k <= |ChunkBy(items, chunkSize)|
    ensures 0 <= k * chunkSize
    ensures Flatten(ChunkBy(items, chunkSize)[..k]) == items[..Min(k * chunkSize, |items|)]
    decreases k
  {
    var chunks := ChunkBy(items, chunkSize);
    if k > 0 {
      assert chunks[..k] == [chunks[0]] + chunks[1..][..k - 1];
      assert k * chunkSize == chunkSize + (k - 1) * chunkSize;
      if chunkSize < |items| {
        FirstChunks(items[chunkSize..], chunkSize, k - 1);
        assert chunks[1..] == ChunkBy(items[chunkSize..], chunkSize);
      } else {
        assert chunks[1..][..k - 1] == [];
        assert (k - 1) * chunkSize >= 0;
      }
    }
  }

  /**
    What a call does, whatever fails on the way. A failing query among those it makes ends it with nothing submitted.
    With nothing missing it is done. Otherwise, if the first missing block attaches, Lorenzo accepts the messages up
    to the first that is not reported as delivered, and that one too if only the report is lost; the call succeeds if
    and only if all are reported. If the first missing block does not attach, nothing is accepted.
   */
  lemma {:induction false} SubmissionOutcome(lc: LightClient, ibs: seq<IndexedBlock>, max: nat, answers: SubmitAnswers)
    requires 0 < max && Linked(ibs)
    ensures var outcome := ProcessHeaders(lc, ibs, max, answers);
            var start := FirstUnknown(lc.known, ibs);
            if answers.queryFailsAt.Some? && answers.queryFailsAt.value < Min(start + 1, |ibs|) then
              outcome == (lc, Err(QueryFailed))
            else if start == |ibs| then outcome == (lc, Ok(0))
            else if ibs[start].header.prevBlock !in lc.known then outcome == (lc, Err(SubmissionFailed))
            else
              var n := |ChunkBy(ibs[start..], max)|;
              var stop := Min(start + Arrived(answers, 0, n) * max, |ibs|);
              && start <= stop
              && outcome == (Accept(lc, ibs[start..stop]),
                             if LeadingDelivered(answers, 0, n) == n then Ok(|ibs| - start) else Err(SubmissionFailed))
  {
    hide Accept, Flatten, Linked, Deliver;
    var start := FirstUnknown(lc.known, ibs);
    if start < |ibs| {
      var missing := ibs[start..];
      var msgs := ChunkBy(missing, max);
      LinkedSlice(ibs, start, |ibs|);
      assert missing == ibs[start..|ibs|];
      ChunksOfChainAttach(missing, max);
      if ibs[start].header.prevBlock in lc.known {
        var m := Arrived(answers, 0, |msgs|);
        DeliverExactly(lc, msgs, answers, 0);
        FirstChunks(missing, max, m);
        assert msgs[0..m] == msgs[..m];
        assert missing[..Min(m * max, |missing|)] == ibs[start..Min(start + m * max, |ibs|)];
      } else {
        NothingDelivered(lc, msgs, answers);
      }
    }
  }

  lemma {:induction false} NothingDelivered(lc: LightClient, msgs: seq<seq<IndexedBlock>>, answers: SubmitAnswers)
    requires |msgs| > 0 && |msgs[0]| > 0 && msgs[0][0].header.prevBlock !in lc.known
    ensures Deliver(lc, msgs, answers, 0) == (lc, false)
  {
  }

  // ---------- resuming ----------

  /** Lorenzo may have got headers from other relayers, but none from this one. */
  ghost predicate GrownByOthers(tree: BlockTree, earlier: LightClient, later: LightClient) {
    && AncestorClosed(tree, later)
    && later.base == earlier.base && later.log == earlier.log && earlier.known <= later.known
  }

  /**
    Resuming after a failure, with other relayers active in between: the first call accepts the missing headers up to
    where it stops; when a later call on the same blocks succeeds, it accepts exactly those that are still missing.
    So this reporter has each header accepted at most once, in chain order, and none is unknown any more. If nobody
    else was active, the two calls together accept exactly the headers that were missing.
   */
  lemma {:induction false} ResumeSubmitsTheRemainder(tree: BlockTree, lc: LightClient, ibs: seq<IndexedBlock>,
      max: nat, first: SubmitAnswers, between: LightClient, second: SubmitAnswers)
    requires 0 < max && ValidTree(tree)
    requires AncestorClosed(tree, lc) && Linked(ibs) && AllIn(tree, ibs) && BaseNotInside(lc, ibs)
    requires GrownByOthers(tree, ProcessHeaders(lc, ibs, max, first).0, between)
    requires ProcessHeaders(between, ibs, max, second).1.Ok?
    ensures var mid := ProcessHeaders(lc, ibs, max, first).0;
            var (after, r) := ProcessHeaders(between, ibs, max, second);
            var cut, stop, resume := FirstUnknown(lc.known, ibs), FirstUnknown(mid.known, ibs),
                                     FirstUnknown(between.known, ibs);
            && cut <= stop <= resume
            && mid.log == lc.log + ibs[cut..stop]
            && after.log == mid.log + ibs[resume..]
            && r.value == |ibs| - resume
            && (forall i | 0 <= i < |ibs| :: ibs[i].header.hash in after.known)
            && (AcceptedOnce(lc) ==> AcceptedOnce(after))
            && (between == mid ==> after.log == lc.log + ibs[cut..])
  {
    hide ProcessHeaders, AncestorClosed, Linked;
    var cut := FirstUnknown(lc.known, ibs);
    var stop := FirstCall(tree, lc, ibs, max, first);
    var mid := ProcessHeaders(lc, ibs, max, first).0;
    FirstUnknownIs(between.known, ibs, stop);
    var k := ProcessHeadersAccepts(tree, between, ibs, max, second);
    ProcessHeadersKeepsLorenzoSound(tree, between, ibs, max, second);
    assert ibs[FirstUnknown(between.known, ibs)..|ibs|] == ibs[FirstUnknown(between.known, ibs)..];
    LogJoins(lc.log, ibs, cut, stop);
  }

  lemma {:induction false} FirstCall(tree: BlockTree, lc: LightClient, ibs: seq<IndexedBlock>, max: nat,
                                     first: SubmitAnswers) returns (stop: nat)
    requires 0 < max && ValidTree(tree)
    requires AncestorClosed(tree, lc) && Linked(ibs) && AllIn(tree, ibs) && BaseNotInside(lc, ibs)
    ensures var mid := ProcessHeaders(lc, ibs, max, first).0;
            var cut := FirstUnknown(lc.known, ibs);
            && cut <= stop <= |ibs| && stop == FirstUnknown(mid.known, ibs)
            && mid == Accept(lc, ibs[cut..stop]) && AncestorClosed(tree, mid)
            && (AcceptedOnce(lc) ==> AcceptedOnce(mid))
            && (forall i | 0 <= i < stop :: ibs[i].header.hash in mid.known)
  {
    hide ProcessHeaders, AncestorClosed, AcceptedOnce;
    stop := ProcessHeadersAccepts(tree, lc, ibs, max, first);
    ProcessHeadersKeepsLorenzoSound(tree, lc, ibs, max, first);
    SubmitsExactlyTheMissing(tree, lc, ibs);
    CutMovesTo(tree, lc, ibs, FirstUnknown(lc.known, ibs), stop);
  }

  lemma LogJoins<T>(log: seq<T>, s: seq<T>, start: nat, k: nat)
    requires start <= k <= |s|
    ensures log + s[start..k] + s[k..|s|] == log + s[start..]
    ensures s[k..|s|] == s[k..]
  {
    assert s[start..k] + s[k..] == s[start..];
  }

  lemma {:induction false} CutMovesTo(tree: BlockTree, lc: LightClient, ibs: seq<IndexedBlock>, start: nat, k: nat)
    requires ValidTree(tree) && Linked(ibs) && AllIn(tree, ibs)
    requires start <= k <= |ibs|
    requires forall i | 0 <= i < |ibs| :: ibs[i].header.hash in lc.known <==> i < start
    ensures FirstUnknown(Accept(lc, ibs[start..k]).known, ibs) == k
  {
    var s := ibs[start..k];
    var known := lc.known + HashesOf(s);
    forall i | 0 <= i < k ensures ibs[i].header.hash in known {
      if start <= i {
        assert ibs[i] == s[i - start] && s[i - start] in s;
      }
    }
    if k < |ibs| && ibs[k].header.hash in HashesOf(s) {
      var i :| 0 <= i < |s| && s[i].header.hash == ibs[k].header.hash;
      assert s[i] == ibs[start + i] && Contains(tree, ibs[start + i]) && Contains(tree, ibs[k]);
      LinkedHeights(ibs);
      assert false;
    }
    FirstUnknownIs(known, ibs, k);
  }
}
