/**
  BNB headers as the relayer's control flow sees them: the number, the header's own hash and its parent's
  hash. The fields behind the hash are the subject of module BnbHeaders.
 */
module BnbTypes {
  import opened Prelude

  type Hash = nat

  datatype BnbHeader = BnbHeader(number: Uint64, hash: Hash, parentHash: Hash)

  predicate Follows(parent: BnbHeader, child: BnbHeader) {
    child.parentHash == parent.hash && child.number == parent.number + 1
  }

  /** `s` continues the chain that ends with `tip`. */
  predicate LinkedOn(tip: BnbHeader, s: seq<BnbHeader>)
    decreases |s|
  {
    |s| == 0 || (Follows(tip, s[0]) && LinkedOn(s[0], s[1..]))
  }

  function Last(tip: BnbHeader, s: seq<BnbHeader>): BnbHeader {
    if |s| == 0 then tip else s[|s| - 1]
  }

  lemma {:induction false} LinkedOnConcat(tip: BnbHeader, a: seq<BnbHeader>, b: seq<BnbHeader>)
    ensures LinkedOn(tip, a + b) <==> LinkedOn(tip, a) && LinkedOn(Last(tip, a), b)
    ensures Last(tip, a + b) == Last(Last(tip, a), b)
    decreases |a|
  {
    if |a| == 0 {
      assert a + b == b;
    } else {
      assert (a + b)[1..] == a[1..] + b;
      LinkedOnConcat(a[0], a[1..], b);
    }
  }

  /** Numbers on a linked chain are consecutive, so no header occurs twice. */
  lemma {:induction false} LinkedOnNumbers(tip: BnbHeader, s: seq<BnbHeader>)
    requires LinkedOn(tip, s)
    ensures forall i | 0 <= i < |s| :: s[i].number == tip.number + 1 + i
    ensures Last(tip, s).number == tip.number + |s|
    decreases |s|
  {
    if |s| > 0 {
      LinkedOnNumbers(s[0], s[1..]);
      assert forall i | 0 < i < |s| :: s[i] == s[1..][i - 1];
    }
  }

  // ---------- the environment's headers ----------

  /** Headers by hash: every BNB header that ever exists, or what a node answers to queries by hash. */
  type BnbTree = map<Hash, BnbHeader>

  /** The hash identifies the header, and a parent's number is one lower. */
  ghost predicate ValidTree(tree: BnbTree) {
    && (forall h | h in tree :: tree[h].hash == h)
    && (forall h, p {:trigger ParentRule(tree, h, p)} :: ParentRule(tree, h, p))
  }

  predicate ParentRule(tree: BnbTree, h: Hash, p: Hash) {
    h in tree && p in tree && tree[h].parentHash == p ==> tree[h].number == tree[p].number + 1
  }

  predicate Contains(tree: BnbTree, h: BnbHeader) {
    h.hash in tree && tree[h.hash] == h
  }

  ghost predicate AllIn(tree: BnbTree, s: seq<BnbHeader>) {
    forall i | 0 <= i < |s| :: Contains(tree, s[i])
  }

  ghost predicate ViewOf(view: BnbTree, tree: BnbTree) {
    forall h | h in view :: h in tree && view[h] == tree[h]
  }

  lemma ParentIsOneLower(tree: BnbTree, parent: BnbHeader, child: BnbHeader)
    requires ValidTree(tree) && Contains(tree, parent) && Contains(tree, child)
    requires child.parentHash == parent.hash
    ensures Follows(parent, child)
  {
    assert ParentRule(tree, child.hash, parent.hash);
  }
}

/**
  Lorenzo's BNB light client as far as the relayer can observe it: one chain above a base header. It accepts a
  message only if its headers continue the latest one; whether it does, and whether the relayer is told, is up
  to the environment.
 */
module LorenzoBnbLightClient {
  import opened BnbTypes

  datatype LightClient = LightClient(base: BnbHeader, accepted: seq<BnbHeader>)

  datatype Delivery = Delivered | Refused | DeliveredButReportedFailed

  function Latest(lc: LightClient): BnbHeader {
    Last(lc.base, lc.accepted)
  }

  predicate Acceptable(lc: LightClient, msg: seq<BnbHeader>) {
    |msg| > 0 && LinkedOn(Latest(lc), msg)
  }

  /** The light client after one message, and whether the upload is reported as a success. */
  function Upload(lc: LightClient, msg: seq<BnbHeader>, d: Delivery): (LightClient, bool) {
    if !Acceptable(lc, msg) || d.Refused? then (lc, false)
    else (lc.(accepted := lc.accepted + msg), d.Delivered?)
  }

  /** Another relayer's message. */
  function Others(lc: LightClient, msg: seq<BnbHeader>): LightClient {
    Upload(lc, msg, Delivered).0
  }

  /** One hash-linked chain above the base. */
  predicate Sound(lc: LightClient) {
    LinkedOn(lc.base, lc.accepted)
  }

  predicate OnChain(lc: LightClient, h: BnbHeader) {
    h == lc.base || h in lc.accepted
  }

  /** Lorenzo's chain only grows at its end. */
  predicate Extends(later: LightClient, earlier: LightClient) {
    later.base == earlier.base && earlier.accepted <= later.accepted
  }

  lemma UploadKeepsSound(lc: LightClient, msg: seq<BnbHeader>, d: Delivery)
    requires Sound(lc)
    ensures var (after, ok) := Upload(lc, msg, d);
            && Sound(after) && Extends(after, lc)
            && (ok ==> Acceptable(lc, msg) && Latest(after) == msg[|msg| - 1] && OnChain(after, msg[|msg| - 1]))
  {
    LinkedOnConcat(lc.base, lc.accepted, msg);
  }

  /** Another relayer's message that continues the chain is accepted, any other changes nothing. */
  lemma {:induction false} OthersExtendTheChain(lc: LightClient, msg: seq<BnbHeader>)
    requires Sound(lc)
    ensures Sound(Others(lc, msg)) && Extends(Others(lc, msg), lc)
    ensures LinkedOn(Latest(lc), msg) ==> Latest(Others(lc, msg)) == Last(Latest(lc), msg)
    ensures !LinkedOn(Latest(lc), msg) ==> Others(lc, msg) == lc
  {
    UploadKeepsSound(lc, msg, Delivered);
  }

  lemma OnChainForever(lc: LightClient, later: LightClient, h: BnbHeader)
    requires Extends(later, lc) && OnChain(lc, h)
    ensures OnChain(later, h)
  {
  }

  /** Every header has been accepted exactly once, and the numbers have no gap. */
  lemma AcceptedExactlyOnce(lc: LightClient)
    requires Sound(lc)
    ensures forall i | 0 <= i < |lc.accepted| :: lc.accepted[i].number == lc.base.number + 1 + i
    ensures forall i, j | 0 <= i < j < |lc.accepted| :: lc.accepted[i] != lc.accepted[j]
    ensures lc.base !in lc.accepted
  {
    LinkedOnNumbers(lc.base, lc.accepted);
  }
}
