/**
  Fetching a range of BNB headers: the header at the end by number, the others by walking back over parent
  hashes. A hash outside `node` stands for a failed query.
 */
module BnbClient {
  import opened Prelude
  import opened BnbTypes

  datatype ClientError = InvalidRange | QueryFailed

  /** `h` preceded by its `n` nearest ancestors, oldest first. */
  function Ancestry(node: BnbTree, h: BnbHeader, n: nat): (r: Option<seq<BnbHeader>>)
    ensures r.Some? ==> |r.value| == n + 1
    decreases n
  {
    if n == 0 then Some([h])
    else if h.parentHash !in node then None
    else
      match Ancestry(node, node[h.parentHash], n - 1)
      case None => None
      case Some(s) => Some(s + [h])
  }

  /** `end` is the node's answer for the header numbered `endNumber`. */
  function Range(node: BnbTree, startNumber: Uint64, endNumber: Uint64, end: Option<BnbHeader>)
    : Result<seq<BnbHeader>, ClientError>
  {
    if startNumber > endNumber then Err(InvalidRange)
    else if end.None? then Err(QueryFailed)
    else
      match Ancestry(node, end.value, endNumber - startNumber)
      case None => Err(QueryFailed)
      case Some(s) => Ok(s)
  }

  method RangeHeaders(node: BnbTree, startNumber: Uint64, endNumber: Uint64, end: Option<BnbHeader>)
    returns (r: Result<seq<BnbHeader>, ClientError>)
    ensures r == Range(node, startNumber, endNumber, end)
  {
    if startNumber > endNumber {
      return Err(InvalidRange);
    }
    if end.None? {
      return Err(QueryFailed);
    }
    var n := endNumber - startNumber + 1;
    var chainHeaders := new BnbHeader[n];
    chainHeaders[n - 1] := end.value;
    var preHeaderHash := end.value.parentHash;
    var i := n - 2;
    assert chainHeaders[n..] == [];
    FollowedByNothing(Ancestry(node, end.value, n - 1));
    while i >= 0
      invariant -1 <= i <= n - 2
      invariant preHeaderHash == chainHeaders[i + 1].parentHash
      invariant Ancestry(node, end.value, n - 1)
             == FollowedBy(Ancestry(node, chainHeaders[i + 1], i + 1), chainHeaders[i + 2..])
    {
      if preHeaderHash !in node {
        return Err(QueryFailed);
      }
      var header := node[preHeaderHash];
      ghost var later := chainHeaders[i + 1..];
      assert later == [chainHeaders[i + 1]] + chainHeaders[i + 2..];
      FollowedByBoth(Ancestry(node, header, i), chainHeaders[i + 1], chainHeaders[i + 2..]);
      chainHeaders[i] := header;
      preHeaderHash := header.parentHash;
      assert chainHeaders[i + 1..] == later;
      i := i - 1;
    }
    assert chainHeaders[..] == [chainHeaders[0]] + chainHeaders[1..];
    return Ok(chainHeaders[..]);
  }

  ghost function FollowedBy(front: Option<seq<BnbHeader>>, back: seq<BnbHeader>): Option<seq<BnbHeader>> {
    match front
    case None => None
    case Some(s) => Some(s + back)
  }

  lemma FollowedByNothing(front: Option<seq<BnbHeader>>)
    ensures FollowedBy(front, []) == front
  {
    if front.Some? {
      assert front.value + [] == front.value;
    }
  }

  lemma FollowedByBoth(front: Option<seq<BnbHeader>>, h: BnbHeader, back: seq<BnbHeader>)
    ensures FollowedBy(FollowedBy(front, [h]), back) == FollowedBy(front, [h] + back)
  {
    if front.Some? {
      assert front.value + [h] + back == front.value + ([h] + back);
    }
  }

  // ---------- what a range is ----------

  /** `n + 1` headers of the tree, linked, ending with `h`. */
  lemma {:induction false} AncestryIsLinked(tree: BnbTree, node: BnbTree, h: BnbHeader, n: nat)
    requires ValidTree(tree) && ViewOf(node, tree) && Contains(tree, h) && Ancestry(node, h, n).Some?
    ensures var s := Ancestry(node, h, n).value;
            && s[n] == h && LinkedOn(s[0], s[1..]) && AllIn(tree, s)
            && s[0].number == h.number - n
    decreases n
  {
    if n > 0 {
      var p := node[h.parentHash];
      AncestryIsLinked(tree, node, p, n - 1);
      ParentIsOneLower(tree, p, h);
      var front := Ancestry(node, p, n - 1).value;
      var s := front + [h];
      assert s[1..] == front[1..] + [h];
      LinkedOnConcat(front[0], front[1..], [h]);
    }
  }

  /** What a successful fetch of the numbers `low..high` gives. */
  ghost predicate IsRange(s: seq<BnbHeader>, low: int, high: int) {
    && |s| == high - low + 1 > 0
    && s[0].number == low
    && LinkedOn(s[0], s[1..])
  }

  lemma RangeIsLinked(tree: BnbTree, node: BnbTree, startNumber: Uint64, endNumber: Uint64, end: Option<BnbHeader>)
    requires ValidTree(tree) && ViewOf(node, tree)
    requires end.Some? ==> Contains(tree, end.value) && end.value.number == endNumber
    ensures var r := Range(node, startNumber, endNumber, end);
            && (r == Err(InvalidRange) <==> startNumber > endNumber)
            && (r.Ok? ==> IsRange(r.value, startNumber, endNumber) && AllIn(tree, r.value)
                          && r.value[|r.value| - 1] == end.value)
  {
    if Range(node, startNumber, endNumber, end).Ok? {
      AncestryIsLinked(tree, node, end.value, endNumber - startNumber);
    }
  }

  /** A linked chain whose headers the node knows is found by walking back from its last header. */
  lemma {:induction false} AncestryFinds(node: BnbTree, tip: BnbHeader, s: seq<BnbHeader>)
    requires LinkedOn(tip, s) && Contains(node, tip) && AllIn(node, s)
    ensures Ancestry(node, Last(tip, s), |s|) == Some([tip] + s)
    decreases |s|
  {
    var n := |s|;
    if n > 0 {
      var front := s[..n - 1];
      assert s == front + [s[n - 1]];
      LinkedOnConcat(tip, front, [s[n - 1]]);
      assert forall i | 0 <= i < |front| :: front[i] == s[i];
      AncestryFinds(node, tip, front);
      assert Contains(node, Last(tip, front));
      assert [tip] + s == [tip] + front + [s[n - 1]];
    } else {
      assert [tip] + s == [tip];
    }
  }
}
